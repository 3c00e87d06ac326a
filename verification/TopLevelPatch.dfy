/**
  Rebuilding the top-level dictionary of a torrent around retained values
  (encode_top_level_patch), and reading back exactly what was set.

  A field that did not change keeps its retained bytes. A field that changed loses its old
  entries and gets new ones; the two keys for web seeds, and the two for trackers, are rewritten
  together. The result is sorted by raw key bytes.
*/
module TopLevelPatch {
  import opened ByteStrings
  import opened Bencode
  import opened BencodeParser
  import opened Wrappers
  import opened Urls
  import opened TopLevelFields
  import Trackers
  import InfoSplice
  import Utf8

  /** What the program keeps of the decoded torrent. */
  datatype Retained = Retained(tops: seq<Entry>, metadata: Metadata, trackers: seq<Tier>)

  /** A document to encode; `sameInfo` says that its info equals the retained one. */
  datatype Candidate = Candidate(sameInfo: bool, metadata: Metadata, trackers: seq<Tier>)

  /** What TorrentMetadata::create and the types it is built from guarantee. */
  ghost predicate ValidMetadata(m: Metadata) {
    && (m.comment.Some? ==> Utf8.WellFormed(m.comment.value))
    && (m.creator.Some? ==> Utf8.WellFormed(m.creator.value))
    && (forall s :: s in m.webSeeds ==> ParseUrl(s, WEB_SEED_SCHEMES).Some?)
    && (forall c :: c in m.collections ==> c != [] && Utf8.WellFormed(c))
    && (forall n :: n in m.dhtNodes ==> ValidNode(n))
  }

  ghost predicate ValidCandidate(c: Candidate) {
    ValidMetadata(c.metadata) && Trackers.ValidList(c.trackers)
  }

  /** The retained state is what the readers made of the retained entries. */
  ghost predicate ReadFrom(r: Retained, mode: Mode) {
    && DistinctKeys(r.tops)
    && ReadMetadata(r.tops, mode) == Success(r.metadata)
    && ReadTrackers(r.tops, mode) == Success(r.trackers)
  }

  // ----- the edits of a candidate ------------------------------------------------------------------

  function Edits(r: Retained, c: Candidate): (edits: seq<Edit>)
    requires forall tier :: tier in c.trackers ==> tier != []
    ensures |edits| == 7
  {
    var m, n := r.metadata, c.metadata;
    [TextEdit(COMMENT, m.comment, n.comment),
     TextEdit(CREATED_BY, m.creator, n.creator),
     DateEdit(m.creationTime, n.creationTime),
     SeedsEdit(m.webSeeds, n.webSeeds),
     CollectionsEdit(m.collections, n.collections),
     NodesEdit(m.dhtNodes, n.dhtNodes),
     TrackersEdit(r.trackers, c.trackers)]
  }

  function Patched(r: Retained, c: Candidate): seq<Entry>
    requires forall tier :: tier in c.trackers ==> tier != []
  {
    Sorted(ApplyAll(r.tops, Edits(r, c)))
  }

  lemma KeysDiffer()
    ensures |COMMENT| == 7 && |CREATED_BY| == 10 && |SOURCE| == 6 && |CREATION_DATE| == 13 && |URL_LIST| == 8
    ensures |HTTP_SEEDS| == 9 && |COLLECTIONS| == 11 && |NODES| == 5 && |ANNOUNCE| == 8 && |ANNOUNCE_LIST| == 13
    ensures |INFO| == 4
    ensures URL_LIST != ANNOUNCE && CREATION_DATE != ANNOUNCE_LIST
  {
    assert URL_LIST[0] == 0x75 && ANNOUNCE[0] == 0x61 && CREATION_DATE[0] == 0x63 && ANNOUNCE_LIST[0] == 0x61;
  }

  /** The keys the i-th edit may touch. */
  function FieldKeys(i: nat): set<Bytes> {
    match i
    case 0 => {COMMENT}
    case 1 => {CREATED_BY}
    case 2 => {CREATION_DATE}
    case 3 => {URL_LIST, HTTP_SEEDS}
    case 4 => {COLLECTIONS}
    case 5 => {NODES}
    case _ => {ANNOUNCE, ANNOUNCE_LIST}
  }

  lemma FieldKeysDisjoint(i: nat, j: nat)
    requires i < j <= 6
    ensures FieldKeys(i) !! FieldKeys(j)
  {
    hide Ascii;
    KeysDiffer();
    forall k ensures !(k in FieldKeys(i) && k in FieldKeys(j)) {
    }
  }

  lemma FirstEditsAreProper(r: Retained, c: Candidate)
    requires forall tier :: tier in c.trackers ==> tier != []
    ensures forall i :: 0 <= i < 3 ==> ProperEdit(Edits(r, c)[i]) && Edits(r, c)[i].erased <= FieldKeys(i)
  {
    hide Ascii, SeedsEdit, CollectionsEdit, NodesEdit, TrackersEdit;
    forall i | 0 <= i < 3 ensures ProperEdit(Edits(r, c)[i]) && Edits(r, c)[i].erased <= FieldKeys(i) {
    }
  }

  lemma LastEditsAreProper(r: Retained, c: Candidate)
    requires forall tier :: tier in c.trackers ==> tier != []
    ensures forall i :: 3 <= i < 7 ==> ProperEdit(Edits(r, c)[i]) && Edits(r, c)[i].erased <= FieldKeys(i)
  {
    hide Ascii, StringsValue, NodesValue, TrackersValue, SameTrackers, TextEdit, DateEdit;
    KeysDiffer();
    forall i | 3 <= i < 7 ensures ProperEdit(Edits(r, c)[i]) && Edits(r, c)[i].erased <= FieldKeys(i) {
    }
  }

  lemma EditsAreProper(r: Retained, c: Candidate)
    requires forall tier :: tier in c.trackers ==> tier != []
    ensures ProperEdits(Edits(r, c))
    ensures forall i :: 0 <= i < 7 ==> Edits(r, c)[i].erased <= FieldKeys(i)
  {
    var edits := Edits(r, c);
    FirstEditsAreProper(r, c);
    LastEditsAreProper(r, c);
    hide Edits, FieldKeys, ProperEdit;
    forall i, j | 0 <= i < j < 7 ensures edits[i].erased !! edits[j].erased {
      FieldKeysDisjoint(i, j);
    }
  }

  /** What the patched dictionary answers for a key of the i-th field. */
  lemma PatchedLookup(r: Retained, c: Candidate, i: nat, key: Bytes)
    requires DistinctKeys(r.tops) && (forall tier :: tier in c.trackers ==> tier != [])
    requires i < 7 && key in FieldKeys(i)
    ensures Lookup(Patched(r, c), key)
         == if key in Edits(r, c)[i].erased then Lookup(Edits(r, c)[i].put, key) else Lookup(r.tops, key)
  {
    hide Edits, FieldKeys, Sorted, ApplyAll, Lookup;
    var edits := Edits(r, c);
    EditsAreProper(r, c);
    ApplyAllMembers(r.tops, edits);
    var all := ApplyAll(r.tops, edits);
    SortedSorts(all);
    AscendingIsDistinct(Sorted(all));
    SameMembersSameLookup(Sorted(all), all, key);
    forall j | 0 <= j < 7 && key in edits[j].erased ensures j == i {
      if j < i { FieldKeysDisjoint(j, i); } else if i < j { FieldKeysDisjoint(i, j); }
    }
    LookupMember(all, key);
    LookupMember(r.tops, key);
    LookupMember(edits[i].put, key);
    if key in edits[i].erased {
      assert TouchedBy(edits, key);
      assert ProperEdit(edits[i]);
      WrittenKeyLookup(r.tops, edits, i, key);
    } else {
      assert !TouchedBy(edits, key);
      UntouchedKeyLookup(r.tops, edits, key);
    }
  }

  lemma WrittenKeyLookup(entries: seq<Entry>, edits: seq<Edit>, i: nat, key: Bytes)
    requires DistinctKeys(entries) && ProperEdits(edits) && i < |edits| && key in edits[i].erased
    ensures Lookup(ApplyAll(entries, edits), key) == Lookup(edits[i].put, key)
  {
    hide Lookup, ApplyAll;
    var all := ApplyAll(entries, edits);
    ApplyAllMembers(entries, edits);
    LookupMember(all, key);
    LookupMember(edits[i].put, key);
    assert TouchedBy(edits, key);
    if Lookup(edits[i].put, key).Some? {
      var e := Entry(key, Lookup(edits[i].put, key).value);
      assert PutBy(edits, e);
      LookupOf(all, e);
    }
  }

  lemma UntouchedKeyLookup(entries: seq<Entry>, edits: seq<Edit>, key: Bytes)
    requires DistinctKeys(entries) && ProperEdits(edits) && !TouchedBy(edits, key)
    ensures Lookup(ApplyAll(entries, edits), key) == Lookup(entries, key)
  {
    hide Lookup, ApplyAll;
    var all := ApplyAll(entries, edits);
    ApplyAllMembers(entries, edits);
    LookupMember(all, key);
    LookupMember(entries, key);
    if Lookup(entries, key).Some? {
      LookupOf(all, Entry(key, Lookup(entries, key).value));
    }
  }

  /** Keys of no field, such as `info` and `source`, answer as before. */
  lemma OtherKeyLookup(r: Retained, c: Candidate, key: Bytes)
    requires DistinctKeys(r.tops) && (forall tier :: tier in c.trackers ==> tier != [])
    requires forall i :: 0 <= i < 7 ==> key !in FieldKeys(i)
    ensures Lookup(Patched(r, c), key) == Lookup(r.tops, key)
  {
    hide Edits, FieldKeys, Sorted, ApplyAll, Lookup;
    var edits := Edits(r, c);
    EditsAreProper(r, c);
    ApplyAllMembers(r.tops, edits);
    var all := ApplyAll(r.tops, edits);
    SortedSorts(all);
    AscendingIsDistinct(Sorted(all));
    SameMembersSameLookup(Sorted(all), all, key);
    assert !TouchedBy(edits, key);
    UntouchedKeyLookup(r.tops, edits, key);
  }

  lemma InfoAndSourceAreNoFields(i: nat)
    requires i < 7
    ensures INFO !in FieldKeys(i) && SOURCE !in FieldKeys(i)
  {
    hide Ascii;
    KeysDiffer();
  }

  /** What stands under a key after the patch: the retained value of an unchanged field, or what was written. */
  predicate Holds(r: Retained, c: Candidate, key: Bytes, same: bool, written: Option<Value>)
    requires forall tier :: tier in c.trackers ==> tier != []
  {
    Lookup(Patched(r, c), key) == if same then Lookup(r.tops, key) else written
  }

  /**
    Key by key: an unchanged field keeps its retained value, whatever that is, and a changed one holds the
    candidate's.
  */
  lemma ScalarFields(r: Retained, c: Candidate)
    requires DistinctKeys(r.tops) && (forall tier :: tier in c.trackers ==> tier != [])
    ensures var m, n := r.metadata, c.metadata;
            && Holds(r, c, Ascii("comment"), m.comment == n.comment,
                     if n.comment.Some? then Some(StringValue(n.comment.value)) else None)
            && Holds(r, c, Ascii("created by"), m.creator == n.creator,
                     if n.creator.Some? then Some(StringValue(n.creator.value)) else None)
            && Holds(r, c, Ascii("creation date"), m.creationTime == n.creationTime,
                     if n.creationTime.Some? then Some(IntegerValue(n.creationTime.value)) else None)
  {
    hide Patched, Ascii;
    PatchedLookup(r, c, 0, COMMENT);
    PatchedLookup(r, c, 1, CREATED_BY);
    PatchedLookup(r, c, 2, CREATION_DATE);
  }

  /** All web seeds go to `url-list`. */
  lemma ListFields(r: Retained, c: Candidate)
    requires DistinctKeys(r.tops) && (forall tier :: tier in c.trackers ==> tier != [])
    ensures var m, n := r.metadata, c.metadata;
            && Holds(r, c, Ascii("url-list"), m.webSeeds == n.webSeeds,
                     if n.webSeeds == [] then None else Some(StringsValue(n.webSeeds)))
            && Holds(r, c, Ascii("httpseeds"), m.webSeeds == n.webSeeds, None)
            && Holds(r, c, Ascii("collections"), m.collections == n.collections,
                     if n.collections == [] then None else Some(StringsValue(n.collections)))
            && Holds(r, c, Ascii("nodes"), m.dhtNodes == n.dhtNodes,
                     if n.dhtNodes == [] then None else Some(NodesValue(n.dhtNodes)))
  {
    hide Patched, Ascii, StringsValue, NodesValue;
    KeysDiffer();
    PatchedLookup(r, c, 3, URL_LIST);
    PatchedLookup(r, c, 3, HTTP_SEEDS);
    PatchedLookup(r, c, 4, COLLECTIONS);
    PatchedLookup(r, c, 5, NODES);
  }

  /** `announce` is the first tracker of all. */
  lemma TrackerFields(r: Retained, c: Candidate)
    requires DistinctKeys(r.tops) && (forall tier :: tier in c.trackers ==> tier != [])
    ensures var same := SameTrackers(r.trackers, c.trackers);
            && Holds(r, c, Ascii("announce"), same,
                     if c.trackers == [] then None
                     else assert c.trackers[0] in c.trackers; Some(StringValue(c.trackers[0][0].value)))
            && Holds(r, c, Ascii("announce-list"), same,
                     if c.trackers == [] then None else Some(TrackersValue(c.trackers)))
  {
    hide Patched, Ascii, TrackersValue, SameTrackers;
    KeysDiffer();
    PatchedLookup(r, c, 6, ANNOUNCE);
    PatchedLookup(r, c, 6, ANNOUNCE_LIST);
  }

  /** Keys of no field keep their values. */
  lemma {:induction false} OtherFields(r: Retained, c: Candidate, key: Bytes)
    requires DistinctKeys(r.tops) && (forall tier :: tier in c.trackers ==> tier != [])
    requires key !in {COMMENT, CREATED_BY, CREATION_DATE, URL_LIST, HTTP_SEEDS, COLLECTIONS, NODES, ANNOUNCE,
                      ANNOUNCE_LIST}
    ensures Lookup(Patched(r, c), key) == Lookup(r.tops, key)
  {
    hide Ascii, Patched, Lookup;
    OtherKeyLookup(r, c, key);
  }

  // ----- reading back ----------------------------------------------------------------------------------

  lemma {:induction false} ReadEachSingles<T>(items: seq<Value>, read: Value -> Result<seq<T>>, values: seq<T>)
    requires |items| == |values| && forall i :: 0 <= i < |items| ==> read(items[i]) == Success([values[i]])
    ensures ReadEach(items, read) == Success(values)
  {
    if items != [] {
      var n := |items| - 1;
      ReadEachSingles(items[..n], read, values[..n]);
      assert values == values[..n] + [values[n]];
    }
  }

  lemma WrittenSeedsRead(seeds: seq<Bytes>, mode: Mode)
    requires forall s :: s in seeds ==> ParseUrl(s, WEB_SEED_SCHEMES).Some?
    ensures ReadSeeds(Some(StringsValue(seeds)), mode) == Success(seeds)
  {
    hide ParseUrl;
    ReadEachSingles(StringsValue(seeds).items, (item: Value) => ReadSeed(item, mode), seeds);
  }

  lemma WrittenCollectionsRead(collections: seq<Bytes>, mode: Mode)
    requires forall c :: c in collections ==> c != [] && Utf8.WellFormed(c)
    ensures ReadCollections(Some(StringsValue(collections)), mode) == Success(collections)
  {
    hide Utf8.WellFormed;
    forall i | 0 <= i < |collections|
      ensures ReadCollection(StringValue(collections[i]), mode) == Success([collections[i]])
    {
      assert collections[i] in collections;
    }
    ReadEachSingles(StringsValue(collections).items, (item: Value) => ReadCollection(item, mode), collections);
  }

  lemma WrittenNodesRead(nodes: seq<DhtNode>, mode: Mode)
    requires forall n :: n in nodes ==> ValidNode(n)
    ensures ReadNodes(Some(NodesValue(nodes)), mode) == Success(nodes)
  {
    hide Utf8.WellFormed, Printable;
    forall i | 0 <= i < |nodes| ensures ReadNode(NodeValue(nodes[i]), mode) == Success([nodes[i]]) {
      assert nodes[i] in nodes;
    }
    ReadEachSingles(NodesValue(nodes).items, (item: Value) => ReadNode(item, mode), nodes);
  }

  lemma WrittenTierReads(tier: Tier, mode: Mode)
    requires Trackers.ValidTier(tier)
    ensures ReadTier(TierValue(tier), mode) == Success([tier])
  {
    hide Trackers.ParseTracker;
    ReadEachSingles(TierValue(tier).items, (item: Value) => ReadUrl(item, mode), tier);
    Trackers.DistinctIsUnchanged(tier);
  }

  lemma WrittenTrackersRead(tiers: seq<Tier>, mode: Mode)
    requires Trackers.ValidList(tiers)
    ensures ReadAnnounceList(Some(TrackersValue(tiers)), mode) == Success(tiers)
  {
    hide Trackers.ValidTier, ReadTier, TierValue;
    forall i | 0 <= i < |tiers| ensures ReadTier(TierValue(tiers[i]), mode) == Success([tiers[i]]) {
      assert tiers[i] in tiers;
      WrittenTierReads(tiers[i], mode);
    }
    ReadEachSingles(TrackersValue(tiers).items, (item: Value) => ReadTier(item, mode), tiers);
  }

  lemma ValidTiersNonEmpty(tiers: seq<Tier>)
    requires Trackers.ValidList(tiers)
    ensures forall tier :: tier in tiers ==> tier != []
  {
  }

  /** Valid lists with the same URLs are the same lists. */
  lemma SameUrlsSameTrackers(a: seq<Tier>, b: seq<Tier>)
    requires Trackers.ValidList(a) && Trackers.ValidList(b) && SameTrackers(a, b)
    ensures a == b
  {
    hide Trackers.ParseTracker;
    assert TrackersValue(a).items == TrackersValue(b).items;
    assert |a| == |b|;
    forall i | 0 <= i < |a| ensures a[i] == b[i] {
      assert TrackersValue(a).items[i] == TierValue(a[i]) && TrackersValue(b).items[i] == TierValue(b[i]);
      assert TierValue(a[i]).items == TierValue(b[i]).items;
      assert a[i] in a && b[i] in b;
      forall k | 0 <= k < |a[i]| ensures a[i][k] == b[i][k] {
        assert TierValue(a[i]).items[k] == TierValue(b[i]).items[k];
        assert a[i][k] in a[i] && b[i][k] in b[i];
      }
    }
  }

  /** A rewritten text field reads as what was set. */
  lemma TextReadsBack(r: Retained, c: Candidate, i: nat, key: Bytes, before: Option<Bytes>, after: Option<Bytes>,
                      mode: Mode)
    requires DistinctKeys(r.tops) && (forall tier :: tier in c.trackers ==> tier != [])
    requires i < 7 && key in FieldKeys(i) && Edits(r, c)[i] == TextEdit(key, before, after)
    requires ReadText(Lookup(r.tops, key), mode) == Success(before)
    requires after.Some? ==> Utf8.WellFormed(after.value)
    ensures ReadText(Lookup(Patched(r, c), key), mode) == Success(after)
  {
    hide Patched, Edits, Utf8.WellFormed, FieldKeys;
    PatchedLookup(r, c, i, key);
  }

  lemma DateReadsBack(r: Retained, c: Candidate, mode: Mode)
    requires ReadFrom(r, mode) && ValidCandidate(c)
    ensures ReadDate(Lookup(Patched(r, c), CREATION_DATE)) == Success(c.metadata.creationTime)
  {
    hide Patched, Utf8.WellFormed, Trackers.ValidTier, Ascii;
    ValidTiersNonEmpty(c.trackers);
    PatchedLookup(r, c, 2, CREATION_DATE);
  }

  lemma NoSeeds(mode: Mode)
    ensures ReadSeeds(None, mode) == Success([])
  {
  }

  /** Both keys together read as the candidate's web seeds, all of them in `url-list`. */
  lemma SeedsReadBack(r: Retained, c: Candidate, mode: Mode)
    requires ReadFrom(r, mode) && ValidCandidate(c)
    ensures var a := ReadSeeds(Lookup(Patched(r, c), URL_LIST), mode);
            var b := ReadSeeds(Lookup(Patched(r, c), HTTP_SEEDS), mode);
            a.Success? && b.Success? && a.value + b.value == c.metadata.webSeeds
  {
    hide Patched, Utf8.WellFormed, Trackers.ValidTier, Ascii, ParseUrl, StringsValue, Lookup, ReadSeeds;
    ValidTiersNonEmpty(c.trackers);
    ListFields(r, c);
    WrittenSeedsRead(c.metadata.webSeeds, mode);
    NoSeeds(mode);
  }

  lemma CollectionsReadBack(r: Retained, c: Candidate, mode: Mode)
    requires ReadFrom(r, mode) && ValidCandidate(c)
    ensures ReadCollections(Lookup(Patched(r, c), COLLECTIONS), mode) == Success(c.metadata.collections)
  {
    hide Patched, Utf8.WellFormed, Trackers.ValidTier, Ascii, StringsValue;
    ValidTiersNonEmpty(c.trackers);
    PatchedLookup(r, c, 4, COLLECTIONS);
    WrittenCollectionsRead(c.metadata.collections, mode);
  }

  lemma NodesReadBack(r: Retained, c: Candidate, mode: Mode)
    requires ReadFrom(r, mode) && ValidCandidate(c)
    ensures ReadNodes(Lookup(Patched(r, c), NODES), mode) == Success(c.metadata.dhtNodes)
  {
    hide Patched, Utf8.WellFormed, Trackers.ValidTier, Ascii, NodesValue, ValidNode;
    ValidTiersNonEmpty(c.trackers);
    PatchedLookup(r, c, 5, NODES);
    WrittenNodesRead(c.metadata.dhtNodes, mode);
  }

  lemma TrackersReadBack(r: Retained, c: Candidate, mode: Mode)
    requires ReadFrom(r, mode) && ValidCandidate(c)
    ensures ReadTrackers(Patched(r, c), mode) == Success(c.trackers)
  {
    hide Patched, Utf8.WellFormed, Trackers.ValidTier, Ascii, TrackersValue, ReadAnnounceList, ReadUrl, SameTrackers;
    ReadTrackersAreValid(r.tops, mode);
    ValidTiersNonEmpty(c.trackers);
    KeysDiffer();
    PatchedLookup(r, c, 6, ANNOUNCE);
    PatchedLookup(r, c, 6, ANNOUNCE_LIST);
    if SameTrackers(r.trackers, c.trackers) {
      SameUrlsSameTrackers(r.trackers, c.trackers);
    } else if c.trackers != [] {
      WrittenTrackersRead(c.trackers, mode);
    } else {
      NoAnnounceList(mode);
    }
  }

  lemma NoAnnounceList(mode: Mode)
    ensures ReadAnnounceList(None, mode) == Success([])
  {
  }

  lemma SourceReadsBack(r: Retained, c: Candidate)
    requires DistinctKeys(r.tops) && (forall tier :: tier in c.trackers ==> tier != [])
    ensures SourceNode(Patched(r, c)) == SourceNode(r.tops)
  {
    hide Patched, Lookup, FieldKeys, Ascii;
    forall i | 0 <= i < 7 ensures INFO !in FieldKeys(i) && SOURCE !in FieldKeys(i) {
      InfoAndSourceAreNoFields(i);
    }
    OtherKeyLookup(r, c, INFO);
    OtherKeyLookup(r, c, SOURCE);
  }

  /**
    Reading the rebuilt dictionary, in the mode the original was read in, gives exactly the
    candidate's metadata and trackers.
  */
  lemma PatchReadsBack(r: Retained, c: Candidate, mode: Mode)
    requires ReadFrom(r, mode) && ValidCandidate(c) && c.metadata.source == r.metadata.source
    ensures ReadMetadata(Patched(r, c), mode) == Success(c.metadata)
    ensures ReadTrackers(Patched(r, c), mode) == Success(c.trackers)
  {
    hide Patched, Utf8.WellFormed, Trackers.ValidTier, Ascii, ReadText, ReadDate, ReadSeeds, ReadCollections, ReadNodes,
         Lookup, SourceNode, ReadTrackers;
    var m, n := r.metadata, c.metadata;
    ValidTiersNonEmpty(c.trackers);
    TextReadsBack(r, c, 0, COMMENT, m.comment, n.comment, mode);
    TextReadsBack(r, c, 1, CREATED_BY, m.creator, n.creator, mode);
    SourceReadsBack(r, c);
    DateReadsBack(r, c, mode);
    SeedsReadBack(r, c, mode);
    CollectionsReadBack(r, c, mode);
    NodesReadBack(r, c, mode);
    TrackersReadBack(r, c, mode);
  }

  // ----- the rebuilt bytes ---------------------------------------------------------------------------------

  /** Ascending keys, untouched entries verbatim, and nothing but them and what was written. */
  lemma PatchKeepsTheRest(r: Retained, c: Candidate)
    requires DistinctKeys(r.tops) && (forall tier :: tier in c.trackers ==> tier != [])
    ensures Ascending(Patched(r, c)) && DistinctKeys(Patched(r, c))
    ensures forall e :: e in Patched(r, c) <==>
                          (e in r.tops && !TouchedBy(Edits(r, c), e.key)) || PutBy(Edits(r, c), e)
  {
    hide Edits, Sorted, ApplyAll;
    EditsAreProper(r, c);
    ApplyAllMembers(r.tops, Edits(r, c));
    SortedSorts(ApplyAll(r.tops, Edits(r, c)));
    AscendingIsDistinct(Sorted(ApplyAll(r.tops, Edits(r, c))));
  }

  /** The bytes under `info`, and hence every hash of them, are those of the original torrent. */
  lemma {:induction false} InfoBytesUnchanged(r: Retained, c: Candidate, i: nat)
    requires DistinctKeys(r.tops) && (forall tier :: tier in c.trackers ==> tier != [])
    requires i < |r.tops| && r.tops[i].key == INFO
    ensures exists j :: 0 <= j < |Patched(r, c)| && Patched(r, c)[j] == r.tops[i]
    ensures forall j :: 0 <= j < |Patched(r, c)| && Patched(r, c)[j].key == INFO ==>
              && HoldsAt(Print(DictionaryValue(Patched(r, c))), InfoSplice.InfoStart(Patched(r, c), j),
                         Print(r.tops[i].value))
              && HoldsAt(Print(DictionaryValue(r.tops)), InfoSplice.InfoStart(r.tops, i), Print(r.tops[i].value))
  {
    hide Print, Lookup, FieldKeys, Ascii, Edits, Sorted, ApplyAll, PrintString, InfoSplice.EntryStart;
    var after := Patched(r, c);
    forall k | 0 <= k < 7 ensures INFO !in FieldKeys(k) {
      InfoAndSourceAreNoFields(k);
    }
    OtherKeyLookup(r, c, INFO);
    LookupOf(r.tops, r.tops[i]);
    LookupMember(after, INFO);
    PatchKeepsTheRest(r, c);
    ValueIsPrinted(r.tops, i);
    forall j | 0 <= j < |after| && after[j].key == INFO
      ensures HoldsAt(Print(DictionaryValue(after)), InfoSplice.InfoStart(after, j), Print(r.tops[i].value))
    {
      LookupOf(after, after[j]);
      ValueIsPrinted(after, j);
    }
  }

  lemma ValueIsPrinted(entries: seq<Entry>, i: nat)
    requires i < |entries|
    ensures HoldsAt(Print(DictionaryValue(entries)), InfoSplice.InfoStart(entries, i), Print(entries[i].value))
  {
    hide Print, PrintString, InfoSplice.EntryStart;
    var s := Print(DictionaryValue(entries));
    assert s[0..|s|] == s;
    InfoSplice.EntryLayout(s, 0, entries, i);
  }

  datatype Encoding = NeedRebuild | Encoded(bytes: Bytes)

  /** encode_top_level_patch */
  function EncodeTopLevel(retained: Option<Retained>, c: Candidate): Encoding
    requires forall tier :: tier in c.trackers ==> tier != []
  {
    match retained
    case None => NeedRebuild
    case Some(r) =>
      if !c.sameInfo || c.metadata.source != r.metadata.source then NeedRebuild
      else if c.metadata == r.metadata && SameTrackers(c.trackers, r.trackers) then
        Encoded(Print(DictionaryValue(r.tops)))
      else Encoded(Print(DictionaryValue(Patched(r, c))))
  }

  /**
    A rebuild is needed iff nothing is retained, or info or source changed. An unchanged candidate encodes to
    the original bytes, also where a rebuilt dictionary would differ.
  */
  lemma EncodesWithoutRebuildIff(retained: Option<Retained>, c: Candidate)
    requires forall tier :: tier in c.trackers ==> tier != []
    ensures EncodeTopLevel(retained, c).Encoded?
       <==> retained.Some? && c.sameInfo && c.metadata.source == retained.value.metadata.source
    ensures EncodeTopLevel(retained, c).Encoded? && c.metadata == retained.value.metadata
            && SameTrackers(c.trackers, retained.value.trackers)
        ==> EncodeTopLevel(retained, c) == Encoded(Print(DictionaryValue(retained.value.tops)))
  {
    hide Print, Patched;
  }

  /**
    Encoding and decoding a candidate, within the limits, gives a torrent whose metadata and
    trackers are the candidate's and whose info value is the retained one.
  */
  lemma EncodedTorrentReadsBack(r: Retained, c: Candidate, mode: Mode, limits: Limits)
    requires ReadFrom(r, mode) && ValidCandidate(c)
    requires forall tier :: tier in c.trackers ==> tier != []
    requires EncodeTopLevel(Some(r), c).Encoded?
    requires Decodable(DictionaryValue(r.tops), limits) && Decodable(DictionaryValue(Patched(r, c)), limits)
    ensures var out := EncodeTopLevel(Some(r), c).bytes;
            Decode(out, limits).Parsed?
            && var v := ValueOf(Decode(out, limits).value, out);
               && v.DictionaryValue?
               && ReadMetadata(v.entries, mode) == Success(c.metadata)
               && ReadTrackers(v.entries, mode) == Success(c.trackers)
               && Lookup(v.entries, INFO) == Lookup(r.tops, INFO)
  {
    hide Patched, ReadMetadata, ReadTrackers, Lookup, Decode, ValueOf, Print, Utf8.WellFormed, Trackers.ValidTier,
         FieldKeys, Ascii, Decodable, SameTrackers;
    ReadTrackersAreValid(r.tops, mode);
    if c.metadata == r.metadata && SameTrackers(c.trackers, r.trackers) {
      SameUrlsSameTrackers(c.trackers, r.trackers);
      PrintInvertsDecode(DictionaryValue(r.tops), limits);
    } else {
      PatchReadsBack(r, c, mode);
      PrintInvertsDecode(DictionaryValue(Patched(r, c)), limits);
      forall i | 0 <= i < 7 ensures INFO !in FieldKeys(i) {
        InfoAndSourceAreNoFields(i);
      }
      OtherKeyLookup(r, c, INFO);
    }
  }
}
