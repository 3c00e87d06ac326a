/**
  What a commit promises, in terms of paths, files and looks at the token alone: which request means which
  path, why one is refused, what a success implies, and how often it looked at the token.
*/
module CommitGuarantees {
  import opened Wrappers
  import opened ByteStrings
  import opened FaultyDisk
  import opened Commit
  import opened Saving

  /**
    A commit succeeds only for a request that can be resolved. The path it commits to is the source, or the
    normalized absolute form of the destination; that path is what the result names.
  */
  lemma {:induction false} CommitNamesTarget<D>(o: Oracle, w: World, loaded: Loaded<D>, bytes: Bytes, request: Request,
                                                names: Names)
    requires Usable(names, w.nodes)
    requires CommitRun(o, w, loaded, bytes, request, names).value.result.Some?
    ensures request.mode == NewPath ==> request.destination != [] && names.absolute(request.destination).Some?
    ensures var r := CommitRun(o, w, loaded, bytes, request, names);
            var target := if request.mode == Original then loaded.source
                          else names.normal(names.absolute(request.destination).value);
            && r.value.result == Some(Loaded(loaded.document, target, false, bytes))
            && target in r.world.nodes && r.world.nodes[target] == Regular(bytes)
  {
    hide CommitRun;
    CommitLeaves(o, w, loaded, bytes, request, names);
  }

  /** However a destination is spelled: when it means the source, the source still held the loaded bytes. */
  lemma {:induction false} SourceIsCompared<D>(o: Oracle, w: World, loaded: Loaded<D>, bytes: Bytes, request: Request,
                                               names: Names)
    requires Usable(names, w.nodes)
    requires CommitRun(o, w, loaded, bytes, request, names).value.result.Some?
    requires request.mode == Original || (names.absolute(request.destination).Some? &&
               names.normal(names.absolute(request.destination).value) == names.normal(loaded.source))
    ensures loaded.source in w.nodes && w.nodes[loaded.source] == Regular(loaded.original)
    ensures |loaded.original| <= 128 * 1024 * 1024
    ensures request.mode == NewPath ==>
              CommitRun(o, w, loaded, bytes, request, names).value.result.value.source == names.normal(loaded.source)
  {
    hide CommitRun;
    CommitLeaves(o, w, loaded, bytes, request, names);
  }

  /** Without faults and cancellation: every reason a commit is refused for, and no other. */
  lemma {:induction false} CommitRefusedIff<D>(o: Oracle, w: World, loaded: Loaded<D>, bytes: Bytes, request: Request,
                                               names: Names)
    requires Usable(names, w.nodes) && NoFaults(o) && NeverCancelled(o)
    ensures CommitRun(o, w, loaded, bytes, request, names).value.result.None?
       <==> || (request.mode == NewPath
                && (request.destination == [] || names.absolute(request.destination).None?))
            || var target := if request.mode == Original then loaded.source
                             else names.normal(names.absolute(request.destination).value);
               || (target in w.nodes && !w.nodes[target].Regular?)
               || (request.mode == NewPath && target in w.nodes && !request.allowOverwrite)
               || ((request.mode == Original || target == names.normal(loaded.source))
                   && (loaded.source !in w.nodes || w.nodes[loaded.source] != Regular(loaded.original)
                       || |loaded.original| > 128 * 1024 * 1024))
               || (request.backup && target in w.nodes && names.backupOf(target) in w.nodes)
  {
    hide CommitRun;
    CommitSucceedsIff(o, w, loaded, bytes, request, names);
  }

  /** What cannot be resolved fails before any file is touched. */
  lemma {:induction false} UnresolvedTouchesNothing<D>(o: Oracle, w: World, loaded: Loaded<D>, bytes: Bytes,
                                                       request: Request, names: Names)
    requires request.mode == NewPath && (request.destination == [] || names.absolute(request.destination).None?)
    ensures var r := CommitRun(o, w, loaded, bytes, request, names);
            r.value.result.None? && r.world.nodes == w.nodes && r.world.ops == w.ops
  {
  }

  /** Whatever the files hold and whatever fails: what a successful commit found and what it left. */
  lemma {:induction false} SuccessImplies<D>(o: Oracle, w: World, loaded: Loaded<D>, bytes: Bytes, request: Request,
                                             names: Names, target: Path)
    requires Usable(names, w.nodes)
    requires CommitRun(o, w, loaded, bytes, request, names).value.result.Some?
    requires CommitRun(o, w, loaded, bytes, request, names).value.result.value.source == target
    ensures target in w.nodes ==> w.nodes[target].Regular? && (request.mode == Original || request.allowOverwrite)
    ensures var backup, after := names.backupOf(target), CommitRun(o, w, loaded, bytes, request, names).world.nodes;
            if request.backup && target in w.nodes then
              backup !in w.nodes && after == w.nodes[backup := w.nodes[target]][target := Regular(bytes)]
            else after == w.nodes[target := Regular(bytes)]
  {
    hide CommitRun;
    CommitLeaves(o, w, loaded, bytes, request, names);
  }

  // ----- looks at the token ----------------------------------------------------------------------------------

  /** Operations and looks of the checks: one for the target, and when the source is bound it is read. */
  lemma CheckTakes<D>(o: Oracle, w: World, loaded: Loaded<D>, request: Request, target: Path, names: Names)
    requires CheckRun(o, w, loaded, request, target, names).value != Refused
    ensures var bound := request.mode == Original || target == names.normal(loaded.source);
            var n := Chunks(|loaded.original|);
            Took(o, w, CheckRun(o, w, loaded, request, target, names).world,
                 (if request.mode == Original then 0 else 1) + if bound then n + 5 else 0, if bound then n + 2 else 0)
  {
    hide Took, ReadRun;
    TookStep(o, w);
    if request.mode == Original {
      SourceTakes(o, w, loaded, true);
    } else if target == names.normal(loaded.source) {
      SourceTakes(o, Acted(w), loaded, target in w.nodes);
      var n := Chunks(|loaded.original|);
      TookBoth(o, w, Acted(w), CheckRun(o, w, loaded, request, target, names).world, 1, 0, n + 5, n + 2);
    }
  }

  lemma SourceTakes<D>(o: Oracle, w: World, loaded: Loaded<D>, present: bool)
    requires SourceRun(o, w, loaded, present).value != Refused
    ensures var n := Chunks(|loaded.original|); Took(o, w, SourceRun(o, w, loaded, present).world, n + 5, n + 2)
  {
    hide Took, ReadRun;
    var ready := Acted(Acted(w));
    TookStep(o, w);
    TookStep(o, Acted(w));
    TookBoth(o, w, Acted(w), ready, 1, 0, 1, 0);
    ReadKeeps(o, ready, loaded.source);
    ReadTakes(o, ready, loaded.source);
    var n := Chunks(|loaded.original|);
    TookBoth(o, w, ready, SourceRun(o, w, loaded, present).world, 2, 0, n + 3, n + 2);
  }

  lemma PublishTakes(o: Oracle, w: World, temp: Path, target: Path, bytes: Bytes)
    requires PublishRun(o, w, temp, target, bytes).value
    ensures var n := Chunks(|bytes|); Took(o, w, PublishRun(o, w, temp, target, bytes).world, n + 3, n + 3)
  {
    hide Took, WriteRun;
    var n := Chunks(|bytes|);
    var written := WriteRun(o, w, temp, bytes).world;
    WriteTakes(o, w, temp, bytes);
    TookStep(o, written);
    TookBoth(o, w, written, Looked(written), n + 2, n + 2, 0, 1);
    RenameTakes(o, Looked(written), temp, target);
    TookBoth(o, w, Looked(written), PublishRun(o, w, temp, target, bytes).world, n + 2, n + 3, 1, 0);
  }

  lemma RenameTakes(o: Oracle, w: World, source: Path, target: Path)
    requires RenameRun(o, w, source, target).value
    ensures Took(o, w, RenameRun(o, w, source, target).world, 1, 0)
  {
  }

  lemma BackupTakes(o: Oracle, w: World, target: Path, backup: Path)
    requires IsRegular(w.nodes, target) && BackupRun(o, w, target, backup).value.ok
    ensures var n := |w.nodes[target].content| / (1024 * 1024);
            Took(o, w, BackupRun(o, w, target, backup).world, n + 5, n + 3)
  {
    hide Took, CopyRun;
    var n := |w.nodes[target].content| / (1024 * 1024);
    CopyTakes(o, Acted(w), w.nodes[target].content, backup);
    TookStep(o, w);
    TookBoth(o, w, Acted(w), BackupRun(o, w, target, backup).world, 1, 0, n + 4, n + 3);
  }

  /** Looks of a commit: one first, those of reading the source, of the backup and of writing, and a last one. */
  function CommitLooks<D>(loaded: Loaded<D>, bytes: Bytes, request: Request, names: Names, target: Path,
                          nodes: map<Path, Node>): nat {
    1 + (if request.mode == Original || target == names.normal(loaded.source) then Chunks(|loaded.original|) + 2 else 0)
      + (if request.backup && IsRegular(nodes, target) then |nodes[target].content| / (1024 * 1024) + 3 else 0)
      + Chunks(|bytes|) + 3
  }

  function CommitOps<D>(loaded: Loaded<D>, bytes: Bytes, request: Request, names: Names, target: Path,
                        nodes: map<Path, Node>): nat {
    (if request.mode == Original then 0 else 1)
      + (if request.mode == Original || target == names.normal(loaded.source) then Chunks(|loaded.original|) + 5 else 0)
      + (if request.backup && IsRegular(nodes, target) then |nodes[target].content| / (1024 * 1024) + 5 else 0)
      + Chunks(|bytes|) + 3
  }

  /**
    A commit succeeds only when no operation failed and no look saw a cancellation, and it looks at the token
    before every mebibyte that is read, copied or written, and once more before the replacement.
  */
  lemma {:induction false} CommitTakes<D>(o: Oracle, w: World, loaded: Loaded<D>, bytes: Bytes, request: Request,
                                          names: Names, target: Path)
    requires Usable(names, w.nodes)
    requires CommitRun(o, w, loaded, bytes, request, names).value.result.Some?
    requires CommitRun(o, w, loaded, bytes, request, names).value.result.value.source == target
    ensures Took(o, w, CommitRun(o, w, loaded, bytes, request, names).world,
                 CommitOps(loaded, bytes, request, names, target, w.nodes),
                 CommitLooks(loaded, bytes, request, names, target, w.nodes))
  {
    CommitLeaves(o, w, loaded, bytes, request, names);
    hide Took, CheckRun, WritingRun;
    TookStep(o, w);
    CheckPassed(o, Looked(w), loaded, request, target, names);
    CheckTakes(o, Looked(w), loaded, request, target, names);
    var checked := CheckRun(o, Looked(w), loaded, request, target, names).world;
    WritingTakes(o, checked, loaded, bytes, request, target, names, target in w.nodes);
    var bound := request.mode == Original || target == names.normal(loaded.source);
    var n := Chunks(|loaded.original|);
    var ops := (if request.mode == Original then 0 else 1) + if bound then n + 5 else 0;
    var looks := if bound then n + 2 else 0;
    TookBoth(o, w, Looked(w), checked, 0, 1, ops, looks);
    TookBoth(o, w, checked, CommitRun(o, w, loaded, bytes, request, names).world, ops, 1 + looks,
             CommitOps(loaded, bytes, request, names, target, w.nodes) - ops,
             CommitLooks(loaded, bytes, request, names, target, w.nodes) - 1 - looks);
  }

  lemma WritingTakes<D>(o: Oracle, w: World, loaded: Loaded<D>, bytes: Bytes, request: Request, target: Path,
                        names: Names, present: bool)
    requires present ==> IsRegular(w.nodes, target)
    requires WritingRun(o, w, loaded, bytes, request, target, names, present).value.result.Some?
    ensures var n := if request.backup && present then |w.nodes[target].content| / (1024 * 1024) else 0;
            var some := request.backup && present;
            Took(o, w, WritingRun(o, w, loaded, bytes, request, target, names, present).world,
                 (if some then n + 5 else 0) + Chunks(|bytes|) + 3, (if some then n + 3 else 0) + Chunks(|bytes|) + 3)
  {
    hide Took, BackupRun, PublishRun;
    var temp, n := names.tempOf(target), Chunks(|bytes|) + 3;
    if request.backup && present {
      var copied := BackupRun(o, w, target, names.backupOf(target)).world;
      BackupTakes(o, w, target, names.backupOf(target));
      PublishTakes(o, copied, temp, target, bytes);
      var m := |w.nodes[target].content| / (1024 * 1024);
      TookBoth(o, w, copied, PublishRun(o, copied, temp, target, bytes).world, m + 5, m + 3, n, n);
    } else {
      PublishTakes(o, w, temp, target, bytes);
    }
  }

  // ----- saving ------------------------------------------------------------------------------------------------

  /** "Nothing changed" is answered, after two looks and no file operation, exactly for such requests. */
  lemma NoChangeIff<D>(o: Oracle, w: World, loaded: Loaded<D>, request: Request, encode: D -> Encoded, names: Names)
    ensures var r := SaveRun(o, w, loaded, request, encode, names);
            && (r.value.result == Some(Saved(false, loaded))
                <==> && !o.cancelled(w.looks) && !o.cancelled(w.looks + 1)
                     && encode(loaded.document) == Encoding(loaded.original)
                     && (if request.mode == Original then !loaded.symlinkFollowed
                         else names.normal(request.destination) == names.normal(loaded.source)))
            && (r.value.result.Some? && !r.value.result.value.changed ==>
                  r.value.result.value.torrent == loaded && r.world == w.(looks := w.looks + 2))
  {
    hide CommitRun;
  }

  /** Without faults and cancellation a save fails for a followed link, without an encoding, or by the commit. */
  lemma SaveRefusedIff<D>(o: Oracle, w: World, loaded: Loaded<D>, request: Request, encode: D -> Encoded, names: Names)
    requires Usable(names, w.nodes) && NoFaults(o) && NeverCancelled(o)
    ensures SaveRun(o, w, loaded, request, encode, names).value.result.None?
       <==> || (request.mode == Original && loaded.symlinkFollowed)
            || !encode(loaded.document).Encoding?
            || ((encode(loaded.document).bytes != loaded.original
                 || (request.mode == NewPath && names.normal(request.destination) != names.normal(loaded.source)))
                && CommitRun(o, w, loaded, encode(loaded.document).bytes, request, names).value.result.None?)
  {
    hide CommitRun, Committable;
    SaveSucceedsIff(o, w, loaded, request, encode, names);
    if encode(loaded.document).Encoding? {
      CommitSucceedsIff(o, w, loaded, encode(loaded.document).bytes, request, names);
    }
  }

  /** A save that changed something committed the encoded document, after two looks of its own. */
  lemma SaveTakes<D>(o: Oracle, w: World, loaded: Loaded<D>, request: Request, encode: D -> Encoded, names: Names)
    requires Usable(names, w.nodes)
    requires SaveRun(o, w, loaded, request, encode, names).value.result.Some?
    requires SaveRun(o, w, loaded, request, encode, names).value.result.value.changed
    ensures encode(loaded.document).Encoding? && !(request.mode == Original && loaded.symlinkFollowed)
    ensures var r := SaveRun(o, w, loaded, request, encode, names);
            var target, bytes := r.value.result.value.torrent.source, encode(loaded.document).bytes;
            Took(o, w, r.world, CommitOps(loaded, bytes, request, names, target, w.nodes),
                 2 + CommitLooks(loaded, bytes, request, names, target, w.nodes))
  {
    hide Took, CommitRun;
    var r := SaveRun(o, w, loaded, request, encode, names);
    var target, bytes := r.value.result.value.torrent.source, encode(loaded.document).bytes;
    var ready := Looked(Looked(w));
    CommitTakes(o, ready, loaded, bytes, request, names, target);
    TookStep(o, w);
    TookStep(o, Looked(w));
    TookBoth(o, w, Looked(w), ready, 0, 1, 0, 1);
    TookBoth(o, w, ready, r.world, 0, 2, CommitOps(loaded, bytes, request, names, target, w.nodes),
             CommitLooks(loaded, bytes, request, names, target, w.nodes));
  }
}
