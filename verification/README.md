# Verification of TorrentCraft's core

A Dafny model of the algorithms and protocols at the core of TorrentCraft, with proofs of the
properties they are meant to have. `dafny verify dfyconfig.toml` checks the whole project.

The modules follow the program:

* **Bencode and torrent editing.** `Bencode` (values, printer, span trees), `BencodeParser` (the
  recursive descent parser with its limits), `InfoSplice` (changing one key inside `info` by a cut
  in the bytes), `UnsafeSplice` and `SpliceExamples` (what such a cut gives where it is not exact),
  `TopLevelFields`, `TopLevelPatch`, `TopLevelEncoder` and `TopLevelReaders` (rebuilding the
  top-level dictionary and reading it back).
* **v2 and hybrid torrents.** `Merkle` (trees, zero padding, the level loop), `PieceLayers`
  (checking `piece layers`), `FileLeaf` and `FileTree` (the walk of the `file tree`), `HybridLayout`
  (matching v1 files with v2 files). Hash functions are parameters; nothing is assumed of them.
* **Verification.** `VerificationTotals`, `VerificationLayouts` and `VerificationReport` (piece
  layouts and the final report), `ProgressRanges` and `ProgressPublisher` (the batched publisher).
* **Concurrency.** `Admission` (the permit queue over a condition variable) and `Cancellation`
  (the callback registry), as state machines over every interleaving, each with a class whose
  methods are the critical sections, and `CancellationProgress` (every run can be finished).
* **Text and lists.** `Utf8` (three validators against section 4 of RFC 3629), `Urls` and `UrlGrammar`
  (the URL parser, and the grammar it decides), `Trackers` and `TrackerText` (tiers, text import and
  export), `TrackerMoves`, `NaturalOrder`, `FileFilter` (globs and rules) and `CommonFilter` (case,
  and what the built-in rules take out).
* **State of the interface and of the disk.** `FileTreeModel` (directory counters updated in
  place), `FaultyDisk` (files whose operations fail, and a token that is cancelled, as an oracle
  says), `Commit`, `Saving` and `CommitGuarantees` (the commit protocol under any such oracle, and
  what its callers can rely on).

`Numbers`, `ByteStrings` and `Wrappers` hold what several of them use.

Loops and objects that change in place are methods and classes proved against functions; the
properties are lemmas about those functions, or invariants the methods keep.

## What the code does not keep

The model follows the code. Where a property one would expect does not hold, the project states
exactly when it does:

* `src/verification_admission_controller.cpp:90` erases from the cancelled ticket to the end of
  the queue, so it takes the tickets of later arrivals with it. `Admission.RunLosesNobodyIff` says
  which runs lose nobody; `Admission.LostWaiterRun` is a run that does.
* `src/verification_admission_controller.cpp:75-81` wakes waiters without the mutex, so a
  cancellation between a thread's look at the token and its wait goes unseen.
  `Admission.RunSeesCancellationsIff` says in which runs that happens,
  `Admission.MissedCancellationRun` is one, and
  `Admission.MissedCancellationIsSeenAtNextRelease` bounds the delay by the next returned permit.
* `src/metadata_engine.cpp:2148-2181` sets the end of the cut to the end of info before it looks for
  the place of a new key, and the search moves only the start: an insertion removes every info entry
  with a greater key. Setting `private` (`src/application.cpp:845-848`) in a torrent with `source` in
  info does so. `InfoSplice.SpliceIsExactIff` says when a splice is the intended edit,
  `InfoSplice.InsertKeepsExactlySmaller` and `InfoSplice.SafeSpliceDecodesIff` what an insertion
  gives, `InfoSplice.SpliceThenSpliceIsNoChange` that asking again brings nothing back, and
  `SpliceExamples.LostSourceExample` is an instance. The result decodes as a torrent, so the decoding
  of the spliced bytes (`src/metadata_engine.cpp:2348`) does not notice.
* `src/metadata_engine.cpp:2004-2018` scans digits backwards from a key and runs into a byte
  string that ends in a digit, so a removal or an insertion also cuts off those digits.
  `UnsafeSplice.UnsafeSpliceDecodesIff` says when the result decodes all the same, and to what. For
  `private` it depends on how many digits there are against the twelve bytes of the new entry
  (`UnsafeSplice.UnsafePrivateInsertDecodesIff`, `SpliceExamples.OvershootExample`,
  `SpliceExamples.VanishedPrivateExample`, `SpliceExamples.LongRunExample`);
  `SpliceExamples.SwallowedEntryExample` is a cleared `source` that takes the next entry with it.
* `src/metadata_engine.cpp:2103-2114` answers "no change" to a request to clear `private` when the
  present value equals the unused value of the request:
  `InfoSplice.ClearRemovesUnlessPrivateMatches`, `SpliceExamples.PrivateZeroIsKept`. Only a direct
  call of `patch_info_identity` reaches this; an edit never asks to clear `private`
  (`src/application.cpp:845-848`).
* `src/libtorrent_adapter.cpp:211-233` is not transitive when digit runs have leading zeros:
  `NaturalOrder.CyclicIff`, `NaturalOrder.LeadingZeroCycle`.
* `src/application.cpp:949-951` compares the destination as it was spelled with the resolved source,
  so repeating a save to a relative destination is not recognised as no change:
  `Saving.RepeatedRequestIsNoChangeIff`, `Saving.RelativeDestinationRun`.
* `src/application.cpp:134-141` removes a new backup only after a cancellation, so another failure
  leaves it behind, possibly incomplete. `Commit.CommitLeaves` says when it stays in any run,
  `Commit.BackupIsNewIff` and `Commit.OnlyStuckTempIsNew` what a caller can expect,
  `Commit.BackupCanStay` and `Commit.TruncatedBackupCanStay` that it can happen to every request
  with a backup, and `Commit.LeftBackupRun` is an instance.

## Model

| member | source | states |
|---|---|---|
| BencodeParser.DecodeInvertsPrint | src/bencode_adapter.cpp:23-256 | If decoding accepts bytes with some tree, printing the tree gives exactly those bytes back. |
| BencodeParser.PrintInvertsDecode | src/bencode_adapter.cpp:52-256 | Printing any value within the depth, token, entry, digit and length limits, with distinct keys and int64 integers, decodes to exactly that value. |
| BencodeParser.DecodeAcceptsExactlyPrints | src/bencode_adapter.cpp:270-282 | The accepted inputs are exactly the prints of values within the limits, no larger than the input limit. |
| BencodeParser.PrintIsInjective | src/metadata_engine.cpp:1894-1909 | Two decodable values with the same print are the same value. |
| BencodeParser.DecodedSpansCoverPrints | src/bencode_adapter.cpp:85-256 | Every node of a decoded tree: its encoded span cuts out that node's print, its string span the string. |
| BencodeParser.Parser.Parse | src/bencode_adapter.cpp:23-40 | The parser object answers what the recursive specification of the grammar answers, trailing bytes included. |
| BencodeParser.Parser.ReadValue | src/bencode_adapter.cpp:52-83 | Dispatch on the first byte with the depth and token limits; position and token count advance as specified. |
| BencodeParser.Parser.ReadInteger | src/bencode_adapter.cpp:85-135 | Sign, leading zeros, digit limit and the int64 bounds, including the one extra negative value. |
| BencodeParser.Parser.ReadMagnitude | src/bencode_adapter.cpp:99-125 | The digit loop of integers never exceeds 64 bits and gives the number the digits denote, or rejects an overflow. |
| BencodeParser.Parser.ReadString | src/bencode_adapter.cpp:216-256 | Length prefix, colon and contents, with the length limit and the bounds of the input. |
| BencodeParser.Parser.ReadLength | src/bencode_adapter.cpp:216-245 | The digit loop of string lengths never exceeds 64 bits and gives the number the digits denote. |
| BencodeParser.Parser.ReadList | src/bencode_adapter.cpp:137-165 | The list loop collects the specified nodes. |
| BencodeParser.Parser.ReadDictionary | src/bencode_adapter.cpp:167-214 | The dictionary loop collects the specified entries and rejects a repeated key. |
| Bencode.LocateReadsBack | src/bencode_adapter.cpp:85-256 | A tree of spans laid over printed bytes reads back as the printed value. |
| ByteStrings.CanonicalIsDecimal | src/metadata_engine.cpp:1894-1909 | Digits without a superfluous leading zero are the decimal notation of the number they denote. |
| ByteStrings.LessIsTransitive | src/metadata_engine.cpp:1996-2002 | Unsigned byte order is transitive; with its totality and asymmetry it is a strict total order. |
| ByteStrings.LessIffFirstDifference | src/metadata_engine.cpp:1996-2002 | The smaller string is a proper prefix of the other one, or has the smaller byte where the two first differ. |
| ByteStrings.LowerIgnoresCase | src/domain.cpp:90-98 | Two strings have the same lower case exactly when they are equal but for the case of ASCII letters. |
| ByteStrings.NormalizedIgnoresSeparators | src/libtorrent_adapter.cpp:179-183 | Two paths are the same after normalization exactly when they differ only in which separator they use. |
| InfoSplice.SpliceIsExactIff | src/metadata_engine.cpp:2148-2182 | The spliced bytes are the reprint of the intended dictionary exactly when a value is replaced, or an entry is removed that does not follow a byte string ending in an ASCII digit, or an entry is inserted with no greater key behind it; and the reprint without the entries behind an insertion exactly when no such digit precedes the place. |
| InfoSplice.ReplaceIsExact | src/metadata_engine.cpp:2151-2160 | Replacing a value is exact without any condition. |
| InfoSplice.ClearIsExactIffSafe | src/metadata_engine.cpp:2153-2155 | Removing an entry is exact if and only if the value before it does not end in an ASCII digit as a byte string. |
| InfoSplice.InsertIsExactIffLast | src/metadata_engine.cpp:2148-2174 | Inserting an entry is exact if and only if no info key is greater, because the cut always ends at the end of info; it gives the entries up to the new one if and only if the digit condition holds. |
| InfoSplice.InsertKeepsExactlySmaller | src/metadata_engine.cpp:2161-2181 | An insertion keeps exactly the entries whose keys are not greater than the new one. |
| InfoSplice.SplicedTorrentDecodesIff | src/metadata_engine.cpp:2077-2182 | For every torrent: the output decodes to the tree with exactly the one info key set, inserted in order or removed, and everything else unchanged, if and only if the splice did what was asked in the sense above. |
| InfoSplice.SafeSpliceDecodesIff | src/metadata_engine.cpp:2077-2182 | For every torrent: the output decodes to that tree without the info entries behind an inserted one if and only if the digit condition holds. |
| InfoSplice.RewriteKeepsOrder | src/metadata_engine.cpp:2161-2181 | What the program makes of sorted info keys, entries lost or not, is strictly sorted. |
| InfoSplice.RewriteIsIdempotent | src/metadata_engine.cpp:2103-2147 | The same patch judged on what the program made is no change. |
| InfoSplice.SpliceThenSpliceIsNoChange | src/metadata_engine.cpp:2077-2182 | Applying a patch to its own output answers "no change" when the digit condition held, so lost entries stay lost. |
| InfoSplice.ClearRemovesUnlessPrivateMatches | src/metadata_engine.cpp:2103-2137 | A clear of a present, well-typed key takes effect unless the key is `private` and its value equals the unused value of the request. |
| InfoSplice.JudgeDecides | src/metadata_engine.cpp:2081-2147 | The verdict in terms of the value held: refused exactly for keys out of order, a `private` that is neither 0 nor 1, a name that is cleared, empty or absent, a value that is not UTF-8, or a held value that is no string; no change exactly when the value asked for is held, or there is nothing to clear. |
| InfoSplice.SpliceOutcomeIff | src/metadata_engine.cpp:2077-2147 | The whole splice fails exactly when info is no dictionary or the request is refused in that sense, answers no change exactly as above, and so only ever cuts sorted info dictionaries. |
| UnsafeSplice.KeyStartOvershoots | src/metadata_engine.cpp:2004-2018 | The key start found is too early by exactly the ASCII digits at the end of the byte string before the entry, and right after any other value. |
| UnsafeSplice.EntriesPrefix | src/bencode_adapter.cpp:167-214 | Printed entries are a prefix code: where some are printed, any printed and ended dictionary body starts with them. |
| UnsafeSplice.UnsafeSpliceDecodesIff | src/metadata_engine.cpp:2148-2182 | For every unsafe splice: the output decodes exactly when the bytes behind those the content swallows go on like the rest of a torrent, and then to the torrent with that other content and that rest. |
| UnsafeSplice.InsertCanVanish | src/metadata_engine.cpp:2161-2181 | An unsafe insertion behind exactly as many digits as its printed entry has bytes always decodes: the string before ends in the new entry, and neither it nor the later entries are in info. |
| UnsafeSplice.VanishedInsertIsAskedAgain | src/metadata_engine.cpp:2103-2147 | The same patch, judged on that result, is a change again, and one that does what was asked. |
| UnsafeSplice.LongRunInsertDecodesIff | src/metadata_engine.cpp:2161-2181 | An unsafe insertion behind at least as many digits as its printed entry has bytes decodes exactly when they are as many or the torrent goes on so many bytes behind the end of info. |
| UnsafeSplice.UnsafePrivateInsertDecodesIff | src/metadata_engine.cpp:2161-2181 | An unsafe insertion of `private` never decodes behind fewer than twelve digits, always behind twelve, and behind more exactly when the torrent goes on so many bytes behind the end of info. |
| UnsafeSplice.LastInfoPrivateInsertDecodesIff | src/metadata_engine.cpp:2161-2181 | When info is the last top-level key, it decodes exactly behind twelve digits. |
| UnsafeSplice.ShorterIsDecodable | src/bencode_adapter.cpp:52-256 | A torrent within the limits stays within them when one info string gets another content of the same length and entries behind it are missing. |
| UnsafeSplice.ClearCanSwallow | src/metadata_engine.cpp:2153-2155 | When the digits before a cleared entry are as many as the bytes of entries behind it, the output decodes to a torrent without those entries, their bytes at the end of the string before. |
| SpliceExamples.LostSourceExample | src/metadata_engine.cpp:2161-2181 | Setting `private` in a torrent with `source` in info gives a torrent without `source`, and setting it again is no change. |
| SpliceExamples.OvershootExample | src/metadata_engine.cpp:2004-2018 | In a torrent whose hashes end in one digit the cut for `private` starts one byte too early and ends at the end of info: offset, output, and its rejection on decoding. |
| SpliceExamples.VanishedPrivateExample | src/metadata_engine.cpp:2161-2181 | In a torrent whose hashes end in twelve digits, setting `private` gives a torrent whose hashes end in `7:privatei1e`, with neither `private` nor `source`. |
| SpliceExamples.LongRunExample | src/metadata_engine.cpp:2161-2181 | With eighteen digits and a suitable key behind info the result decodes too. |
| SpliceExamples.SetPrivateDecodesIff | src/metadata_engine.cpp:2161-2181 | Of the example torrents with 0 to 20 digits and `source` last, exactly those with none and with twelve give bytes that decode, and none the intended torrent. |
| SpliceExamples.SwallowedEntryExample | src/metadata_engine.cpp:2148-2160 | In a torrent whose hashes end in fourteen digits, clearing `source` also takes the entry behind it, and the result decodes. |
| SpliceExamples.PrivateZeroIsKept | src/metadata_engine.cpp:2103-2114 | A clear of a present `private` of zero is answered with "no change". |
| InfoSplice.EncodedKeyStart | src/metadata_engine.cpp:2004-2018 | The backwards scan stops at the first non-digit before the colon. |
| InfoSplice.SortedInfoKeys | src/metadata_engine.cpp:2020-2034 | The loop over neighbours decides whether the keys are sorted. |
| InfoSplice.FindEntry | src/metadata_engine.cpp:2095-2101 | The index of the entry with the key, or the number of entries. |
| InfoSplice.FindGreater | src/metadata_engine.cpp:2166-2173 | The index of the first greater key. |
| InfoSplice.JudgePatch | src/metadata_engine.cpp:2081-2147 | The checks before any byte is cut give the specified verdict. |
| InfoSplice.InsertionStart | src/metadata_engine.cpp:2161-2174 | The loop moves the start of the cut to the first greater key, and nothing else. |
| InfoSplice.CutInfo | src/metadata_engine.cpp:2148-2182 | The assembled output is the specified cut, which ends at the end of info for every insertion. |
| InfoSplice.SpliceInfoIdentity | src/metadata_engine.cpp:2077-2182 | The whole operation on the decoded tree gives the specified outcome. |
| TopLevelPatch.PatchReadsBack | src/metadata_engine.cpp:404-723 | Reading the rebuilt dictionary gives exactly the candidate metadata and trackers, with `httpseeds` merged into `url-list`. |
| TopLevelPatch.SeedsReadBack | src/metadata_engine.cpp:2227-2235 | After a rebuild `url-list` and `httpseeds` together read as the candidate web seeds. |
| TopLevelPatch.TrackersReadBack | src/metadata_engine.cpp:2252-2262 | After a rebuild `announce` and `announce-list` together read as the candidate tiers. |
| TopLevelPatch.PatchKeepsTheRest | src/metadata_engine.cpp:2184-2276 | Keys of the output are strictly ascending, and its entries are exactly the untouched ones and the written ones. |
| TopLevelPatch.InfoBytesUnchanged | src/metadata_engine.cpp:2195-2201 | The bytes under `info`, and so any hash of them, are those of the original. |
| TopLevelPatch.EncodedTorrentReadsBack | src/metadata_engine.cpp:2356-2386 | Encoding, decoding and reading gives the candidate back, with the retained info value. |
| TopLevelPatch.ScalarFields | src/metadata_engine.cpp:2205-2226 | Key by key after a rebuild: comment, creator and date hold the value of the candidate where it changed, and what was retained where it did not. |
| TopLevelPatch.ListFields | src/metadata_engine.cpp:2227-2251 | The same of the lists: all web seeds go to `url-list` and `httpseeds` goes, and an empty list has no key. |
| TopLevelPatch.TrackerFields | src/metadata_engine.cpp:2252-2262 | The same of the trackers: `announce` is the first tracker of all, and both keys go with the last tracker. |
| TopLevelPatch.OtherFields | src/metadata_engine.cpp:2184-2201 | Every other key keeps its value. |
| TopLevelPatch.EncodesWithoutRebuildIff | src/metadata_engine.cpp:2356-2386 | A rebuild is not needed exactly when something is retained and neither info nor the read-only source differs; an unchanged candidate then encodes to the original bytes. |
| TopLevelFields.ApplyAllMembers | src/metadata_engine.cpp:1929-1950 | A sequence of erasing and setting disjoint keys leaves the untouched entries and what was written. |
| TopLevelFields.SortedIsUnique | src/metadata_engine.cpp:2264-2266 | An ascending arrangement of entries with given contents is unique, so the sorting algorithm does not matter. |
| TopLevelEncoder.EncodePatch | src/metadata_engine.cpp:2184-2276 | The rebuild loop prints the specified dictionary. |
| TopLevelEncoder.EncodeTopLevelPatch | src/metadata_engine.cpp:2356-2386 | Rebuild needed, original bytes, or the rebuilt dictionary, under the conditions of the program. |
| TopLevelEncoder.EncodeTrackers | src/metadata_engine.cpp:1952-1967 | The nested loops print the list of lists of URLs. |
| TopLevelEncoder.EncodeDhtNodes | src/metadata_engine.cpp:1980-1994 | The loop prints a list of host and port pairs. |
| TopLevelEncoder.EncodeStringList | src/metadata_engine.cpp:1911-1921 | The loop prints a list of strings. |
| TopLevelEncoder.EraseEntry | src/metadata_engine.cpp:1929-1934 | All entries with the key go, the others keep their order and bytes. |
| TopLevelReaders.ReadWebSeedField | src/metadata_engine.cpp:501-556 | The loop reads the seeds of one key, dropping invalid ones in tolerant mode and failing in strict mode. |
| TopLevelReaders.ReadCollectionsField | src/metadata_engine.cpp:558-594 | The loop reads the collections of the specification. |
| TopLevelReaders.ReadDhtNodesField | src/metadata_engine.cpp:596-641 | The loop reads the DHT nodes of the specification. |
| TopLevelReaders.ReadTrackerList | src/metadata_engine.cpp:404-499 | The nested loops read the tiers of the specification, the single announce URL as fallback. |
| TopLevelReaders.AnnounceIsRead | src/metadata_engine.cpp:477-499 | `announce` is read exactly when the list gives no tier: it is then the only tracker, and an invalid one fails strictly and counts as none leniently; tiers or a failure of the list stand as they are. |
| TopLevelReaders.AnnounceListIsRead | src/metadata_engine.cpp:430-475 | The list is read exactly when it is a list of lists, strictly of valid URLs and leniently of strings; a lenient read is a strict one of the valid URLs in it. |
| TopLevelReaders.ValidListsAreRead | src/metadata_engine.cpp:430-475 | Lists of valid URLs read as tiers in their order, without empty tiers and without repeated trackers. |
| TopLevelReaders.SeedsAreRead | src/metadata_engine.cpp:501-556 | A string is a list of one; strictly every item must be a valid HTTP URL and the seeds are the items in order, leniently invalid strings are dropped. |
| TopLevelReaders.CollectionsAreRead | src/metadata_engine.cpp:558-594 | Strictly every item must be a non-empty UTF-8 string, leniently other strings are dropped; anything but a list of strings fails. |
| TopLevelReaders.NodesAreRead | src/metadata_engine.cpp:596-641 | Strictly every item must be a host and a port from 1 to 65535, leniently others are dropped, but a wrong shape or a port outside 32 bits fails in both modes. |
| TopLevelReaders.MetadataIsRead | src/metadata_engine.cpp:643-723 | Metadata is read exactly when every field can be; each field comes from its key, `source` from info when that has one, and the seeds of `httpseeds` follow those of `url-list`. |
| Merkle.PaddedLayerHasTreeRoot | src/metadata_engine.cpp:1170-1195 | If each layer hash is the root of its zero-padded piece, reducing the layer padded with the zero hash of a piece gives the root over all blocks, zero-padded to the next power of two. |
| Merkle.GroupRootsReduce | src/metadata_engine.cpp:1170-1190 | The root over the roots of equal groups is the root over all leaves. |
| Merkle.ParentsKeepRoot | src/metadata_engine.cpp:1178-1190 | One round of pairing neighbours keeps the root. |
| Merkle.ReduceLevels | src/metadata_engine.cpp:1178-1191 | The level loop computes the recursive balanced root. |
| Merkle.PaddedCount | src/metadata_engine.cpp:1170-1177 | The doubling loop finds the next power of two. |
| Merkle.ZeroHashForPieceLength | src/metadata_engine.cpp:984-993 | The loop computes the root of a whole piece of zero blocks. |
| Merkle.ZeroRootIsRoot | src/metadata_engine.cpp:984-993 | The repeatedly doubled zero hash is the root of a tree of zero leaves. |
| PieceLayers.ValidatePieceLayers | src/metadata_engine.cpp:1098-1203 | Accepts exactly when every listed layer belongs to a long file, has one hash a piece and reduces to its root, files that share a root agree in their piece count, and every long file has a layer. |
| PieceLayers.AcceptedLayerHasTreeRoot | src/metadata_engine.cpp:1098-1203 | For piece lengths of 16 KiB times a power of two, an accepted layer authenticates the blocks: the file's root is the tree root over them. |
| PieceLayers.AcceptedLayersAre | src/metadata_engine.cpp:1098-1203 | In an accepted torrent every key of the dictionary is the root of a long file and holds 32 bytes for each of its pieces, and every long file has its key. |
| PieceLayers.TrueLayerIsAccepted | src/metadata_engine.cpp:1146-1195 | Conversely, the piece hashes of any blocks whose tree root a long file names are accepted as its layer. |
| PieceLayers.BlocksOfLongFile | src/metadata_engine.cpp:1117-1118 | A file longer than a piece has more blocks than a piece, and as many pieces as its layer must have hashes. |
| PieceLayers.CollectExpected | src/metadata_engine.cpp:1111-1145 | The first loop fails exactly when two files share a root but not a piece count. |
| PieceLayers.ComputeLayerRoot | src/metadata_engine.cpp:1165-1191 | Splitting, padding and reducing gives the root of the padded layer. |
| FileTree.WalkFileTree | src/metadata_engine.cpp:1001-1096 | The recursive walk succeeds exactly on a well-formed tree whose leaves all read and whose lengths fit 64 bits, and appends its files in order. |
| FileLeaf.ReadLeaf | src/metadata_engine.cpp:1016-1068 | The checks of a leaf in program order give the specified length, attributes and pieces root, or reject it. |
| FileLeaf.ReadAttributes | src/metadata_engine.cpp:732-841 | The letters of `attr`, the SHA-1 hint and the link target, with the conditions that tie them together. |
| FileLeaf.CheckPath | src/domain.cpp:583-621 | The segment loop decides the path rules: no empty, dot, separator, NUL or drive segments, and UTF-8. |
| FileLeaf.AcceptedLeafIsConsistent | src/domain.cpp:855-884 | An accepted leaf has a root of 32 bytes exactly when it is not empty and a target exactly when it is a link, and a link is empty; so creating its file entry never fails. |
| FileTree.TreeFilesAreConsistent | src/metadata_engine.cpp:1034-1070 | The same of every file of an accepted tree, with its path. |
| FileTree.AcceptedIff | src/metadata_engine.cpp:1001-1096 | A tree is accepted exactly when every node that can be reached is fine: a leaf stands alone under the empty key, below the top, and can be read, and a directory has entries, all with UTF-8 names. |
| FileTree.FilesAreLeaves | src/metadata_engine.cpp:1016-1096 | The files of an accepted tree are exactly those that its leaves give, each under the path that leads to it. |
| FileTree.FilesAscend | src/metadata_engine.cpp:1074-1096 | In a tree with sorted dictionaries the files come in the order of their paths. |
| FileLeaf.LeafIff | src/metadata_engine.cpp:732-841 | Field by field which leaves are read and what is read from them: a missing length means zero and is only allowed for a link, content demands a root and an empty file refuses one, and `attr` and `symlink path` agree. |
| FileLeaf.ValidPathIff | src/domain.cpp:583-621 | A valid path has segments, none of them empty, dots, a drive, with a separator or a NUL, or anything but UTF-8. |
| FileTree.PathsArePrefixFree | src/metadata_engine.cpp:1001-1096 | In a decoded tree no file path equals or leads to another. |
| HybridLayout.MatchFiles | src/metadata_engine.cpp:1397-1473 | The matching loop only accepts layouts in which v1 content files and v2 tree files correspond one to one, with equal lengths and traits, padding fills gaps and content starts at pieces; with distinct tree paths it accepts all of them. |
| HybridLayout.AcceptableIff | src/metadata_engine.cpp:1397-1473 | Acceptable layouts in their own terms: every padding file stands behind content and reaches exactly the next boundary under its name, content stands on a boundary unless it is empty or the first, sizes fit 64 bits, and a bijection pairs content and tree files with equal path, length and traits. |
| HybridLayout.DecodedTreeIsDistinct | src/metadata_engine.cpp:1261-1269 | The tree files of a decoded torrent have distinct paths, so the acceptance condition is exact for them. |
| HybridLayout.ContentStartsPiece | src/metadata_engine.cpp:1430-1436 | In an accepted layout every non-empty content file starts at a piece boundary, the first included. |
| HybridLayout.AtMostOneOverlap | src/libtorrent_adapter.cpp:729-761 | The verification layout of an accepted hybrid torrent gives each piece at most one overlap. |
| HybridLayout.HybridReportsShareNoPiece | src/libtorrent_adapter.cpp:834-841 | A report on an accepted hybrid torrent never contains a shared-piece mismatch. |
| HybridLayout.FindMatch | src/metadata_engine.cpp:1437-1442 | The first unmatched tree file with the path and length, or none. |
| VerificationLayouts.FlatLayouts | src/libtorrent_adapter.cpp:729-766 | The nested loops build the specified layouts, and only a cancellation seen at one of the polls makes them fail. |
| VerificationLayouts.PieceLayout | src/libtorrent_adapter.cpp:735-760 | One piece: its overlaps and whether all bytes it needs can be hashed. |
| VerificationLayouts.PieceIsTiled | src/libtorrent_adapter.cpp:735-749 | The overlaps of a piece and the padding in it fill the piece completely. |
| VerificationLayouts.FileIsCovered | src/libtorrent_adapter.cpp:729-761 | Over all pieces, the overlaps of a reported file add up to its length. |
| VerificationLayouts.FlatHashableIff | src/libtorrent_adapter.cpp:735-760 | A piece is hashable exactly when every byte it holds of a reported file is there on disk. |
| VerificationLayouts.FlatPieceHolds | src/libtorrent_adapter.cpp:735-760 | Its overlaps are in file order, not empty, one a file, and each counts exactly the bytes of that file that lie in the piece. |
| VerificationLayouts.TreeLayouts | src/libtorrent_adapter.cpp:661-727 | For v2 torrents: cancelled exactly when one of the looks of an uncancelled run sees it, and otherwise success exactly when the backend content files match the document in number, order, length and piece count. |
| VerificationLayouts.PlaceFile | src/libtorrent_adapter.cpp:687-715 | The loop over the pieces of one file: exact cancellation and failure conditions, and the overlap and hashability added to each piece. |
| VerificationLayouts.TreeFileIsCovered | src/libtorrent_adapter.cpp:680-715 | Over all pieces, the overlaps of a v2 file add up to its length. |
| VerificationLayouts.TreeHashableIff | src/libtorrent_adapter.cpp:687-715 | A v2 piece is hashable exactly when every byte it holds is there. |
| VerificationLayouts.TreePieceHolds | src/libtorrent_adapter.cpp:687-715 | Its overlaps are in file order, not empty, one a file, and each counts exactly the bytes of that file from the start of that piece on. |
| VerificationLayouts.TreePollsCount | src/libtorrent_adapter.cpp:661-727 | When the files match, the token is looked at once for every backend file, padding included, once for every piece, and once at the end. |
| VerificationReport.MakeReport | src/libtorrent_adapter.cpp:769-844 | Counters, findings and verdict of the report are the specified functions of layouts and piece states, whose bytes `ReportLine` and `ReportTotalBytes` tell. |
| VerificationReport.ReportIsConserved | src/libtorrent_adapter.cpp:799-826 | Hashed bytes are verified plus mismatched and never more than expected, per file and in total. |
| VerificationReport.ReportLine | src/libtorrent_adapter.cpp:775-841 | The line of each file: its verified bytes are those in pieces that were hashed and found good, its mismatched ones those in bad pieces, and its findings are what the inspection found and what bad pieces that touch it add, by number of overlaps. |
| VerificationReport.ReportTotalBytes | src/libtorrent_adapter.cpp:811-826 | The totals are the bytes of all files in good and in bad pieces. |
| VerificationReport.VerdictIff | src/libtorrent_adapter.cpp:785-833 | The verdict is incomplete exactly when the inspection found more than a wrong link target or a piece cannot be hashed, and verified exactly when it is not that, every link target is right and no hashed piece is bad. |
| VerificationReport.VerdictsCombine | src/libtorrent_adapter.cpp:775-833 | The verdict is the worst observation, whatever the order of the loops. |
| VerificationReport.VerifiedMeansEverything | src/libtorrent_adapter.cpp:769-844 | A verified verdict means that every expected byte is verified and no file has a finding. |
| VerificationReport.NoSharedPieces | src/libtorrent_adapter.cpp:834-841 | When no piece holds two files, no file gets a shared-piece finding. |
| VerificationReport.FlatLayoutsCover | src/libtorrent_adapter.cpp:729-761 | v1 and hybrid layouts hold every byte of every reported file once. |
| VerificationReport.TreeLayoutsCover | src/libtorrent_adapter.cpp:661-727 | v2 layouts hold every byte of every file once. |
| VerificationReport.FlatLayoutsInRange | src/libtorrent_adapter.cpp:729-761 | Layouts only name files that the report has a line for. |
| VerificationReport.CountPiece | src/libtorrent_adapter.cpp:811-826 | The loop over overlaps credits each file, as verified or as mismatched, and keeps the totals the sum over files. |
| VerificationReport.MarkPiece | src/libtorrent_adapter.cpp:834-840 | The loop adds the finding to exactly the files the piece touches. |
| VerificationTotals.TotalsWithPiece | src/verification_progress_publisher.cpp:37-49 | Recording pieces in any order gives the same totals. |
| VerificationTotals.TotalsByState | src/verification_progress_publisher.cpp:40-49 | The verified bytes of a file are those of its verified pieces, and the mismatched ones those of its mismatched pieces. |
| ProgressRanges.InsertRange | src/verification_progress_publisher.cpp:85-118 | The ordered map names exactly one piece more and stays keyed by begin, disjoint and maximally coalesced. |
| ProgressRanges.RangesAreDisjoint | src/verification_progress_publisher.cpp:85-118 | All pending ranges are disjoint and in order, not only neighbours. |
| ProgressPublisher.Publisher.Record | src/verification_progress_publisher.cpp:26-62 | A piece counts the first time it is reported if it is hashable and nothing is cancelled; delivery starts with 256 pending ranges or files and not before; a cancelled publisher changes nothing and every invariant is kept. |
| ProgressPublisher.Publisher.Deliver | src/verification_progress_publisher.cpp:120-159 | Nothing happens when cancelled, when nothing is pending, or when unforced within 50 ms of the last delivery; otherwise everything goes out unless a cancellation is seen on the way. No snapshot is delivered but right after a look that saw no cancellation. |
| ProgressPublisher.Publisher.DeliverOne | src/verification_progress_publisher.cpp:132-157 | One snapshot takes exactly the first 256 pending ranges and the first 256 changed files with their counters. |
| ProgressPublisher.Publisher.Flush | src/verification_progress_publisher.cpp:64-67 | An unforced delivery: silent when cancelled or within 50 ms of the last one, and otherwise nothing stays pending unless cancelled. |
| ProgressPublisher.Publisher.Complete | src/verification_progress_publisher.cpp:69-83 | Without a cancellation everything not recorded is recorded with its final state and nothing stays pending; a cancelled publisher delivers nothing. |
| ProgressPublisher.Publisher.DeliverRounds | src/verification_progress_publisher.cpp:132-157 | The loop looks at the token before every round, terminates, and empties what is pending unless a look sees a cancellation. |
| ProgressPublisher.SilentOnceCancelled | src/verification_progress_publisher.cpp:120-132 | In the history of any publisher: after a look that sees a cancellation, with all later ones seeing it too, the callback is never called again. |
| ProgressPublisher.CompletedAt | src/verification_progress_publisher.cpp:69-83 | Piece by piece: completion keeps what was recorded, leaves unhashable pieces unknown, and takes the final state of the others, mismatched where none is known. |
| ProgressPublisher.NothingPendingMeansDelivered | src/verification_progress_publisher.cpp:120-159 | With nothing pending every recorded piece was delivered exactly once with its state, and every last delivered counter is the total. |
| ProgressPublisher.DeliveredCountersMatchReport | src/libtorrent_adapter.cpp:799-826 | When the recorded states are the final ones, the counters last delivered per file are those of the final report. |
| ProgressPublisher.CompletedIsKnown | src/libtorrent_adapter.cpp:860-873 | After completion with consistent states the recorded states are those the report is made from. |
| ProgressPublisher.RecordKeepsPieces | src/verification_progress_publisher.cpp:37-57 | Delivered and pending ranges together keep naming each recorded piece exactly once. |
| ProgressPublisher.DeliverKeepsFiles | src/verification_progress_publisher.cpp:134-145 | A file whose flag is clear has its current counters delivered. |
| Admission.ReachableIsSafe | src/verification_admission_controller.cpp:65-108 | In every interleaving: permits available and out add up to the capacity, arrivals not erased are the admissions followed by the queue in order, and a sleeping front with a free permit has somebody to wake it. |
| Admission.StepIsSafe | src/verification_admission_controller.cpp:83-107 | Every single step keeps these. |
| Admission.NotifyWakesEverybody | src/verification_admission_controller.cpp:75-107 | After an arrival, a withdrawal, a cancellation callback or a returned permit nobody sleeps; no other step touches the sleep of another thread. |
| Admission.QueueIsNeverStuck | src/verification_admission_controller.cpp:86-102 | No state has a queue, everybody in it asleep, and no permit out. |
| Admission.WithdrawalLosesNobodyIffLast | src/verification_admission_controller.cpp:88-94 | A cancelled waiter erases its ticket and all behind it: nobody loses a ticket exactly when it was the last. |
| Admission.StepLosesNobodyIff | src/verification_admission_controller.cpp:86-102 | Exactly the steps in which a cancelled waiter leaves from before the back lose a waiter. |
| Admission.RunLosesNobodyIff | src/verification_admission_controller.cpp:83-107 | A run never loses a waiter exactly when every cancelled waiter leaves from the back. |
| Admission.NobodyLostIsDefined | src/verification_admission_controller.cpp:95-95 | While nobody is lost, the front of an empty queue is never looked at. |
| Admission.SleepersHaveAPermitOut | src/verification_admission_controller.cpp:95-101 | While nobody is lost, waiters that all sleep have a permit out to wake them. |
| Admission.LostWaiterRun | src/verification_admission_controller.cpp:88-95 | A concrete run in which a cancelled waiter takes another ticket with it and the front of an empty queue is looked at. |
| Admission.StepSeesCancellationsIff | src/verification_admission_controller.cpp:75-101 | A cancelled waiter is awake or still to be notified after a step exactly when the step is not its going to sleep after the notification. |
| Admission.RunSeesCancellationsIff | src/verification_admission_controller.cpp:75-101 | Along a run no cancellation is missed exactly when nobody goes to sleep after its notification. |
| Admission.MissedCancellationIsSeenAtNextRelease | src/verification_admission_controller.cpp:13-18 | When every waiter sleeps and none has lost its ticket, a permit is out, and after its release the cancelled waiter withdraws at its next look. |
| Admission.CheckedThreadCanMiss | src/verification_admission_controller.cpp:88-101 | Between the look at the token and the wait, cancellation and notification can pass unseen: the thread sleeps, cancelled, with its ticket. |
| Admission.MissedCancellationRun | src/verification_admission_controller.cpp:75-101 | A run from the start in which a cancellation is missed. |
| Admission.Controller.Enqueue | src/verification_admission_controller.cpp:83-85 | A ticket joins at the back, every waiter is woken, and the object represents the joined state. |
| Admission.Controller.Look | src/verification_admission_controller.cpp:86-102 | One turn of the wait loop under the lock is the specified step, the look at the front of an empty queue included. |
| Admission.Controller.Sleep | src/verification_admission_controller.cpp:101-101 | The thread waits on the condition variable as in the specified step. |
| Admission.Controller.Announce | src/verification_admission_controller.cpp:75-81 | The callback wakes every waiter without the mutex. |
| Admission.Controller.Return | src/verification_admission_controller.cpp:13-18 | The permit destructor gives the permit back and wakes every waiter, as the specified release step. |
| Admission.Controller.Create | src/verification_admission_controller.cpp:40-52 | A controller is created exactly for a positive capacity. |
| Cancellation.RunKeeps | src/cancellation.cpp:86-176 | Every interleaving of subscribe, cancel and reset keeps the consistency of flags, list and runs. |
| Cancellation.AtMostOnce | src/cancellation.cpp:103-176 | No callback runs twice. |
| Cancellation.ExactlyOnceUnlessResetEarly | src/cancellation.cpp:143-176 | After a cancellation whose callers finished, a callback ran once, or not at all exactly when it was reset before the snapshot. |
| CancellationProgress.EveryRunCanSettle | src/cancellation.cpp:86-176 | No callback gets stuck: whatever has happened, the threads that have callbacks to call can call them all, and after a cancellation each has then run exactly once, or not at all when it was reset before. |
| Cancellation.NothingRunsBeforeCancel | src/cancellation.cpp:115-139 | Without a cancellation no callback runs. |
| Cancellation.ResetIsFinal | src/cancellation.cpp:86-101 | Once reset has returned, the callback is not running and is never started again. |
| Cancellation.ReturnedIsUnregistered | src/cancellation.cpp:86-101 | After reset has returned the entry is not in the callback vector in any later state, so no cancellation finds it. |
| Cancellation.ActiveInOrder | src/cancellation.cpp:151-165 | A cancellation collects the callbacks in the order of their subscription. |
| Cancellation.SleepingResetIsServed | src/cancellation.cpp:93-96 | A reset that sleeps has a notification on its way: no wake-up is lost. |
| Cancellation.SettledResetReturns | src/cancellation.cpp:93-101 | When all callbacks are done, a waiting reset returns at its next check. |
| Cancellation.CancellationState.Register | src/cancellation.cpp:115-126 | The critical section of subscribe is the specified step. |
| Cancellation.CancellationState.Snapshot | src/cancellation.cpp:151-165 | The critical section of cancel marks and collects exactly the active entries, in order. |
| Cancellation.CancellationState.FinishCallback | src/cancellation.cpp:170-173 | The critical section after a callback is the specified step. |
| Cancellation.CancellationState.BeginReset | src/cancellation.cpp:94-98 | The start of reset, with its first check of the wait predicate, is the specified step. |
| Cancellation.CancellationState.CheckReset | src/cancellation.cpp:96-98 | A later check of the wait predicate, with the removal, is the specified step. |
| Utf8.GrammarMeansScalars | src/domain.cpp:20-80 | The byte grammar of section 4 of RFC 3629 generates exactly the encodings of sequences of Unicode scalar values. |
| Utf8.MetadataValidUtf8 | src/metadata_engine.cpp:112-180 | The byte-range validator accepts exactly the grammar. |
| Utf8.DomainIsValidUtf8 | src/domain.cpp:20-80 | The decode-and-check validator of the domain accepts exactly the grammar. |
| Utf8.TrackerIsValidUtf8 | src/tracker_engine.cpp:106-162 | The decode-and-check validator of tracker text accepts exactly the grammar. |
| Urls.AcceptedTrackerUrl | src/domain.cpp:111-253 | An accepted tracker URL is valid UTF-8, not empty, without white space or control bytes, and does not start with `#`. |
| Urls.PrintableIff | src/domain.cpp:82-88 | The bytes a URL or a host may contain are exactly 0x21 to 0x7E and those from 0x80. |
| UrlGrammar.AcceptedIff | src/domain.cpp:111-253 | A URL is accepted exactly when it is composed of a known scheme in any case, optional user info, a host that is bracketed or free of colons, an optional port from 1 to 65535, and an optional suffix, in valid UTF-8 without white space and controls. |
| UrlGrammar.TrackerUrlIff | src/domain.cpp:111-253 | Tracker URLs are exactly those with the scheme http, https or udp, in any case. |
| UrlGrammar.PartsAreAccepted | src/domain.cpp:111-253 | Every such composition is accepted, with the composition of the canonical parts as its comparison key. |
| UrlGrammar.PartsAreUnique | src/domain.cpp:131-209 | No URL is composed of two different lists of parts. |
| UrlGrammar.SameKeyIff | src/domain.cpp:232-253 | Two accepted URLs compare equal exactly when user info and suffix are equal, scheme and host are equal but for case, and so are the ports, where the one of the scheme counts as none. |
| Trackers.DeduplicatedKeepsFirsts | src/domain.cpp:692-711 | A created tier keeps the first tracker of each comparison key, in order, and nothing else. |
| Trackers.DeduplicationIsIdempotent | src/domain.cpp:692-711 | Creating a tier from a created tier changes nothing. |
| Trackers.CreateTier | src/domain.cpp:692-711 | The loop with the set of seen keys computes the deduplicated tier, and fails on no trackers. |
| Trackers.MakeList | src/tracker_engine.cpp:41-59 | The loop drops empty tiers and deduplicates the others. |
| Trackers.TrimAscii | src/tracker_engine.cpp:93-104 | The two loops strip white space at both ends. |
| Trackers.ImportText | src/tracker_engine.cpp:317-375 | The line loop computes the specified tiers: blank lines separate, `#` starts a comment, any bad line fails. |
| TrackerText.ImportedIff | src/tracker_engine.cpp:317-375 | A text is imported exactly when it is valid UTF-8 of at most 1 MiB and each of its lines is blank, a comment or a tracker, and gives the trackers between blank lines as tiers, without empty tiers and repeated trackers. |
| TrackerText.LinesOf | src/tracker_engine.cpp:330-345 | Every text is the lines of some list, so the above says it of all texts. |
| TrackerText.TrimmedIs | src/tracker_engine.cpp:93-104 | A trimmed text lost white space at both ends, all of it and nothing else. |
| Trackers.ExportText | src/tracker_engine.cpp:377-392 | The nested loops print one URL a line with blank lines between tiers. |
| Trackers.ExportThenImport | src/tracker_engine.cpp:317-392 | Importing an export of at most 1 MiB gives the list back. |
| TrackerText.ExportedSize | src/tracker_engine.cpp:377-392 | An export has the bytes of its URLs, one newline each and one between tiers, and no other. |
| TrackerMoves.AddToTier | src/tracker_engine.cpp:184-194 | A tracker is appended unless its tier has an equal one. |
| TrackerMoves.AddTier | src/tracker_engine.cpp:196-201 | A tier is appended. |
| TrackerMoves.RemoveTracker | src/tracker_engine.cpp:203-222 | One tracker goes, and its tier with it when it was the only one. |
| TrackerMoves.AddThenRemove | src/tracker_engine.cpp:184-222 | Removing what was just added restores the list. |
| TrackerMoves.MoveTracker | src/tracker_engine.cpp:224-263 | The step order with its index shift gives the list in which the destination gained the tracker and the source lost it. |
| TrackerMoves.TransferredTiers | src/tracker_engine.cpp:224-263 | Tier by tier after a move to another tier: the destination gained the tracker at its end unless it had an equal one, the source lost it and is closed up or gone, and every other tier is as it was. |
| TrackerMoves.TransferKeepsTrackers | src/tracker_engine.cpp:224-263 | Moving a tracker to another tier loses no comparison key of the list and adds none. |
| TrackerMoves.MoveTrackerWithinTier | src/tracker_engine.cpp:265-290 | Within a tier the tracker is taken out and put back, nothing else changes. |
| TrackerMoves.MoveTier | src/tracker_engine.cpp:292-310 | Tiers are permuted by taking one out and putting it back. |
| TrackerMoves.MoveBack | src/tracker_engine.cpp:265-310 | The opposite move undoes a move; a move neither loses nor duplicates anything, puts the member where it was asked to, and keeps the others in their order. |
| NaturalOrder.NaturalPathLess | src/libtorrent_adapter.cpp:211-233 | The loop with two offsets computes the natural order: digit runs by value, other bytes unsigned, then bytes from the start. |
| NaturalOrder.NumbersDecide | src/libtorrent_adapter.cpp:185-233 | Behind a common beginning two digit runs are ordered by the numbers they denote, whatever follows. |
| NaturalOrder.BytesDecide | src/libtorrent_adapter.cpp:211-233 | Behind a common beginning two other bytes are ordered as unsigned bytes, whatever follows. |
| NaturalOrder.PrefixIsLess | src/libtorrent_adapter.cpp:211-233 | A path comes before every path that it begins. |
| NaturalOrder.PolicyDecides | src/libtorrent_adapter.cpp:235-258 | The policies compare the number of slashes and then bytes, bytes, bytes, or the natural order, each with slashes for backslashes. |
| NaturalOrder.CompareNaturalRun | src/libtorrent_adapter.cpp:185-209 | Digit runs compare by the numbers they denote, whatever their leading zeros, and both offsets move past their runs. |
| NaturalOrder.ComparePathBytes | src/libtorrent_adapter.cpp:164-177 | The byte loop is the unsigned lexicographic comparison. |
| NaturalOrder.NaturalLessIsTotal | src/libtorrent_adapter.cpp:211-233 | Irreflexive, asymmetric and total on all byte strings. |
| NaturalOrder.CyclicIff | src/libtorrent_adapter.cpp:211-233 | Three paths in token order are ordered in a cycle exactly when the outer two are inverted and neither neighbouring pair is. |
| NaturalOrder.NaturalLessIsTokenLessIff | src/libtorrent_adapter.cpp:211-233 | The code agrees with the order on tokens exactly on pairs that are not inverted. |
| NaturalOrder.NaturalLessIsTransitive | src/libtorrent_adapter.cpp:211-233 | Transitive on paths whose digit runs carry no leading zeros. |
| NaturalOrder.LeadingZeroCycle | src/libtorrent_adapter.cpp:211-233 | `a1`, `a1a` and `a01b` are ordered in a cycle. |
| NaturalOrder.FilePathLessIsTransitive | src/libtorrent_adapter.cpp:240-258 | Every file order policy is transitive on normalized paths, the natural one without leading zeros. |
| NaturalOrder.FilePathLessIsTotal | src/libtorrent_adapter.cpp:240-258 | Every policy is asymmetric and separates paths that differ after normalization. |
| FileFilter.GlobMatch | src/file_filter.cpp:34-86 | The memoized matcher accepts exactly the values that split according to the pattern: two or more stars any bytes, one star any bytes but a slash, `?` one byte. |
| FileFilter.GlobsJoin | src/file_filter.cpp:34-86 | Patterns one after the other accept exactly the values that are accepted one after the other, where no run of stars joins them. |
| FileFilter.GlobOfOne | src/file_filter.cpp:52-81 | The one-part patterns: one star accepts what has no slash, two or more accept anything, `?` any byte, another byte itself. |
| CommonFilter.IgnoringCaseIff | src/file_filter.cpp:34-44 | Without case a pattern accepts a value exactly when, in some spelling, it accepts some spelling of the value with case. |
| CommonFilter.LiteralIff | src/file_filter.cpp:52-81 | A pattern without stars and question marks accepts exactly itself, up to case where case is ignored. |
| CommonFilter.RuleOfPath | src/file_filter.cpp:101-131 | A rule with a slash inside is matched with the whole path less its leading "./" steps, with a slash at its end only for directories, and without wildcards names one path. |
| CommonFilter.LeadingSlashIsIgnored | src/file_filter.cpp:119-131 | A slash in front of a rule changes nothing, so no rule is anchored at the top. |
| FileFilter.Match | src/file_filter.cpp:44-84 | The recursion terminates, answers as without a memo, and every filled cell is right. |
| FileFilter.MatchFromMeansSplits | src/file_filter.cpp:52-81 | The recursion decides whether the rest of the value splits according to the rest of the pattern. |
| FileFilter.MatchedRule | src/file_filter.cpp:194-215 | The first rule that matches is returned, none exactly when no rule matches or the filter is off. |
| FileFilter.RuleIsDecided | src/file_filter.cpp:194-215 | One evaluation with the trimmed pattern and the match value decides a rule. |
| FileFilter.PatternForMatch | src/file_filter.cpp:119-131 | The two trimming loops leave the part of the pattern between its outer slashes. |
| FileFilter.RelativeMatchValue | src/file_filter.cpp:101-117 | Leading "./" steps go, and a pattern without slashes is matched with the last segment. |
| FileFilter.Create | src/file_filter.cpp:141-172 | A filter is created exactly when every pattern, for common artifacts those of the built-in list, is usable, with normalized patterns. |
| FileFilter.UsableIff | src/file_filter.cpp:152-168 | A pattern is refused exactly when it is white space only or holds a NUL. |
| FileFilter.CommonPatternsAreUsable | src/file_filter.cpp:88-93 | Every built-in pattern is usable, so the filter for common artifacts can always be created. |
| CommonFilter.CommonArtifactIff | src/file_filter.cpp:88-93 | The filter for common artifacts takes out exactly what is named `._` and more, entries named `.DS_Store`, `Icon` with a carriage return, `Thumbs.db`, `ehthumbs.db` or `desktop.ini`, and directories with one of six names, wherever they are. |
| FileFilter.WithoutDotsIs | src/file_filter.cpp:101-117 | A path loses exactly its leading "./" steps, all of them. |
| FileTreeModel.Model.SetFiles | src/gui/FileTreeModel.cpp:208-305 | The first non-padding file of each path is tracked, every directory above it exists, and all counters are right. |
| FileTreeModel.FirstEntryCounts | src/gui/FileTreeModel.cpp:208-305 | A path is tracked when an entry that is no padding has it, and starts unchecked with the length of the first such entry. |
| FileTreeModel.OnlyEntriesAreTracked | src/gui/FileTreeModel.cpp:208-305 | No other path is tracked. |
| FileTreeModel.Model.ResetVerification | src/gui/FileTreeModel.cpp:312-334 | All files go back to their initial state and rebuilt counters are right. |
| FileTreeModel.Model.ApplyProgress | src/gui/FileTreeModel.cpp:336-373 | Newer snapshots update the files they name, stale ones nothing, and all counters follow. |
| FileTreeModel.LastUpdateDecides | src/gui/FileTreeModel.cpp:336-417 | What updates leave in a file: the last one that names it gives the counters; a report makes it final with its findings; a snapshot makes it mismatched with any mismatched byte, checked when all of a file that is not empty is hashed, checking when some is, and keeps its phase with nothing hashed. |
| FileTreeModel.UnnamedStay | src/gui/FileTreeModel.cpp:336-417 | Files that no update names stay as they are, and no file appears. |
| FileTreeModel.Model.ApplyReport | src/gui/FileTreeModel.cpp:393-417 | A report makes the files it names final, and all counters follow. |
| FileTreeModel.Model.SetInterrupted | src/gui/FileTreeModel.cpp:429-445 | Every file that is not final is marked, and all counters follow. |
| FileTreeModel.Model.SetState | src/gui/FileTreeModel.cpp:188-206 | Replacing one state changes exactly the directories above the file, so every counter stays the sum over the files below. |
| FileTreeModel.Model.AddStatusToAggregates | src/gui/FileTreeModel.cpp:170-186 | The loop over separators adds a state to exactly the directories above the path, once each. |
| FileTreeModel.Model.UpdateStatusAggregates | src/gui/FileTreeModel.cpp:188-206 | The loop exchanges a state in exactly the directories above the path, once each. |
| FileTreeModel.Model.EnsureDirectories | src/gui/FileTreeModel.cpp:235-281 | The component loop creates every missing directory above a path, with counters that are right. |
| FileTreeModel.Model.VerificationTotals | src/gui/FileTreeModel.cpp:375-391 | The totals are the sums over all files. |
| FileTreeModel.AddStatus | src/gui/FileTreeModel.cpp:64-126 | Adding or taking away a state moves every counter by the contribution of the state, and the shown findings are those with a positive count. |
| FileTreeModel.StateIsHeld | src/gui/FileTreeModel.cpp:188-199 | What an update takes away is part of the counter, so no unsigned subtraction underflows. |
| FileTreeModel.SumWith | src/gui/FileTreeModel.cpp:188-199 | Replacing or adding one file changes a sum by the difference of the contributions. |
| FileTreeModel.ShowsCheckedIff | src/gui/FileTreeModel.cpp:128-168 | A directory shows "checked" exactly when every file below it is checked. |
| FileTreeModel.ShowsNotCheckedIff | src/gui/FileTreeModel.cpp:128-168 | A directory shows "not checked" exactly when nothing happened to any file below it. |
| FileTreeModel.ShowsFinalIff | src/gui/FileTreeModel.cpp:137-141 | A directory shows a final result exactly when all files below have one or one has a finding. |
| FileTreeModel.ShowsNothingIff | src/gui/FileTreeModel.cpp:131-135 | A directory is shown as padding exactly when no tracked file is below it. |
| FileTreeModel.ShowsWorst | src/gui/FileTreeModel.cpp:142-166 | Otherwise a directory shows the worst phase below it: mismatched before interrupted before cancelled before work in progress. |
| FileTreeModel.ShowsFindingIff | src/gui/FileTreeModel.cpp:108-125 | A directory shows a finding exactly when a file below it has it. |
| FileTreeModel.EnteringAdds | src/gui/FileTreeModel.cpp:64-107 | Counter by counter what a new file adds to every directory above it. |
| FileTreeModel.NothingBelowIsZero | src/gui/FileTreeModel.cpp:64-126 | A directory without files below has all counters zero. |
| Commit.CommitLeaves | src/application.cpp:555-723 | Whatever operation fails and whatever look sees a cancellation: success with the target replaced and nothing else changed but a requested backup, or failure with every file as it was; then a temporary file is new exactly when its removal failed, and a backup exactly when it was opened and not both seen as cancelled and removed. |
| Commit.TargetIsOldOrNew | src/application.cpp:707-722 | After a commit the target is old or new as a whole, and every other file there was is unchanged. |
| Commit.CommitSucceedsIff | src/application.cpp:555-723 | Without faults and cancellation a commit succeeds exactly when the request resolves, the target is ordinary or absent and may be written, a bound source has its baseline, and the name of a needed backup is free. |
| CommitGuarantees.CommitRefusedIff | src/application.cpp:555-723 | The same as the complete list of reasons a request is refused for. |
| CommitGuarantees.CommitNamesTarget | src/application.cpp:570-586 | In any run, a successful commit wrote the source, or the normalized absolute form of the destination, and that path is the source of its result. |
| CommitGuarantees.SourceIsCompared | src/application.cpp:617-660 | However a destination is spelled: when it means the source of the torrent, a successful commit found the loaded bytes there, of at most 128 MiB. |
| CommitGuarantees.SuccessImplies | src/application.cpp:587-723 | In any run, what a successful commit found at its target and exactly which files it left. |
| CommitGuarantees.UnresolvedTouchesNothing | src/application.cpp:570-586 | A destination that cannot be resolved fails before any file operation. |
| CommitGuarantees.CommitTakes | src/application.cpp:185-353 | A successful commit saw no fault and no cancellation, and its number of looks and operations is exact: a look before every mebibyte read, copied or written, and one before the replacement. |
| Commit.FaultlessFailureIsClean | src/application.cpp:126-154 | A commit that fails without any failing file operation, by cancellation or by a refusal, leaves all files exactly as they were. |
| Commit.OnlyStuckTempIsNew | src/application.cpp:98-124 | Without a requested backup, or with nothing to back up, a failure can only leave a temporary file, exactly when its removal failed. |
| Commit.BackupIsNewIff | src/application.cpp:668-693 | When nothing is cancelled there is a new backup, on success and failure alike, exactly when one was requested, the checks passed with the target present and the three operations up to opening it worked. |
| Commit.BackupCanStay | src/application.cpp:126-154 | Every committable request that makes a backup has a run, with one failing operation and no cancellation, that fails and leaves the whole backup behind. |
| Commit.TruncatedBackupCanStay | src/application.cpp:317-339 | Such a run can also leave any part of the first chunk as the backup. |
| Commit.LeftBackupRun | src/application.cpp:695-700 | A concrete failed commit that leaves its backup. |
| Commit.Commit | src/application.cpp:555-723 | The operation is the specified run. |
| Commit.CheckTarget | src/application.cpp:587-666 | The checks are the specified run: what they refuse, what they pass, and the operations they make. |
| Commit.CheckPassed | src/application.cpp:587-666 | The checks change nothing and pass only an ordinary or absent target, no overwrite without leave, and a bound source that matches its baseline. |
| Commit.QuietCheck | src/application.cpp:587-666 | Without faults and cancellation they pass all of that. |
| Commit.MakeBackup | src/application.cpp:668-693 | The backup step is the specified run: a name in use is refused, and the guard exists from before the copy on. |
| Commit.Publish | src/application.cpp:695-712 | Writing the temporary file, the look at the token and the rename are the specified run. |
| Commit.CleanUp | src/application.cpp:98-154 | The destructors are the specified run: the temporary file goes first, the backup only when the guard sees a cancellation. |
| FaultyDisk.Disk.ReadBoundedFile | src/application.cpp:185-247 | The chunk loop is the specified run, with a look and an operation for each chunk. |
| FaultyDisk.Disk.WriteBoundedFile | src/application.cpp:249-294 | The chunk loop is the specified run; a failing write stores as many bytes as the oracle lets it. |
| FaultyDisk.Disk.CopyBoundedFile | src/application.cpp:296-353 | The chunk loop is the specified run; the target is touched only once both files are open. |
| FaultyDisk.ReadKeeps | src/application.cpp:185-247 | A successful read has read the whole file within the size limit, and reading changes nothing. |
| FaultyDisk.WriteLeavesPrefix | src/application.cpp:249-294 | Writing touches one path, which holds a prefix of the bytes, and all of them on success. |
| FaultyDisk.CopyLeavesPrefix | src/application.cpp:296-353 | A copy touches its target only when it was opened, which then holds a prefix, and everything on success. |
| FaultyDisk.ReadTakes | src/application.cpp:185-247 | A successful read took a look before the file was inspected, before every chunk and before the end, and all of them saw no cancellation. |
| FaultyDisk.WriteTakes | src/application.cpp:249-294 | A successful write took a look before it, before every chunk and after closing. |
| FaultyDisk.CopyTakes | src/application.cpp:296-353 | A successful copy took a look before it, before every read, the one that finds the end too, and after closing. |
| Saving.Save | src/application.cpp:917-965 | The operation is the specified run: encode, recognise that nothing would change, commit. |
| Saving.SaveLeaves | src/application.cpp:917-965 | A save commits the encoded document, changes nothing because the document encodes to its original bytes and the request names its source, or fails as a commit fails. |
| Saving.SaveSucceedsIff | src/application.cpp:917-965 | Without faults and cancellation a save succeeds exactly when the document encodes, a followed link is not saved in place, and the request changes nothing or can be committed. |
| CommitGuarantees.NoChangeIff | src/application.cpp:917-955 | In any run: "nothing changed" is answered, after two looks and no file operation, exactly when neither saw a cancellation, the document encodes to its original bytes, and the request is for the source. |
| CommitGuarantees.SaveRefusedIff | src/application.cpp:917-965 | Without faults and cancellation a save fails exactly for a followed link saved in place, a document that needs a rebuild, or a refused commit. |
| CommitGuarantees.SaveTakes | src/application.cpp:917-965 | A save that changed something committed the encoded document, after two looks of its own. |
| Saving.SavedAgainIsNoChange | src/application.cpp:945-955 | Saving the returned torrent to where it came from changes nothing and touches no file. |
| Saving.RepeatedRequestIsNoChangeIff | src/application.cpp:945-955 | Repeating a request changes nothing exactly when it was for the original or spelled its destination as resolved. |
| Saving.UnrecognisedRepeatFails | src/application.cpp:610-615 | Without leave to overwrite, a repetition that is not recognised as no change always fails. |
| Saving.RelativeDestinationRun | src/application.cpp:949-951 | A save to a relative destination whose repetition fails, whatever happens. |

## Left out

- libtorrent sessions, alerts, hashing and file enumeration: piece states, piece counts, what libtorrent
  says about files, and the inspection of files on disk are inputs.
- SHA-1 and SHA-256 themselves: hash functions are parameters, and no claim about collisions is made.
- Error codes and messages, warnings, and the flags for retained extension fields: an operation fails or
  succeeds with a value. The extension field scan is left out of the readers of the top-level dictionary; for the
  leaves of the file tree it is modelled, with the table of known keys as a parameter.
- Unsigned wrap-around of counters: the parser and the walk of the file tree have explicit 64-bit limits;
  byte counters, permits and sequence numbers elsewhere are unbounded numbers.
- Bits of code points in the UTF-8 validators are written as quotients and remainders, and findings as sets.
- std::sort, std::map, std::find_if and the file system calls are modelled by what they promise. The ordered map
  of pending ranges is the sequence of its entries in key order, and its binary search is a search from the left.
- TopLevelReaders.ReadWebSeedField, TopLevelReaders.ReadTrackerList and the other readers work on decoded values,
  not on span nodes; `BencodeParser.DecodedSpansCoverPrints` relates the two.
- JSON import and export of trackers, the frontend protocol and the configuration store.
- Qt widgets, model indexes, rows, sizes and sorting of the file tree model, translations and signals.
- Clocks, temporary names and memory ordering: a look at the clock or at the token may answer anything a clock or
  a token can, temporary names are fresh, and every critical section or single access is one step.
- Admission: the look at the token before a verification enters the queue, which returns without touching it.
- Cancellation: callbacks that reset a registration from the thread that cancels, which waits for itself.
- Commit: other processes that change files during the call, the targets of symbolic links (a dangling link under
  the name of a backup counts as a name in use), and the parent directory, whose inspection is one operation that
  may fail.
- TorrentService::edit, which applies actions one after the other, plan and creation of torrents, loading of files,
  and the mapping of v1-only torrents.
- Command line rendering, console code pages, and release scripts.
