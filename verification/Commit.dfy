/**
  Committing a torrent (application.cpp). Every file operation may fail and every look at the
  token may see a cancellation, as an oracle says; nobody else changes the files during a call. What the
  file system makes of a path, and the temporary and backup names, are parameters.
*/
module Commit {
  import opened Wrappers
  import opened ByteStrings
  import opened FaultyDisk

  datatype Mode = Original | NewPath

  datatype Request = Request(mode: Mode, destination: Path, allowOverwrite: bool, backup: bool)

  datatype Loaded<D> = Loaded(document: D, source: Path, symlinkFollowed: bool, original: Bytes)

  /** absolute and lexically_normal, the temporary sibling and the backup of a target. */
  datatype Names = Names(absolute: Path -> Option<Path>, normal: Path -> Path, tempOf: Path -> Path,
                         backupOf: Path -> Path)

  /** Siblings have other names than their targets and each other, and a temporary name is unused. */
  ghost predicate Usable(names: Names, nodes: map<Path, Node>) {
    forall p :: && names.tempOf(p) !in nodes && names.tempOf(p) != p
                && names.backupOf(p) != p && names.tempOf(p) != names.backupOf(p)
  }

  /**
    The result of a commit, and the worlds in which its destructors start: the temporary file's when there
    is one to remove, and the backup guard's when the backup was opened.
  */
  datatype Outcome<D> = Outcome(result: Option<Loaded<D>>, temp: Option<World>, backup: Option<World>)

  datatype Checked = Refused | Passed(present: bool)

  datatype BackedUp = BackedUp(ok: bool, guarded: bool, started: bool)

  predicate IsRegular(nodes: map<Path, Node>, p: Path) { p in nodes && nodes[p].Regular? }

  // ----- runs -------------------------------------------------------------------------------------------

  /** Which path a request means, or nothing if it cannot be resolved. */
  function TargetOf(source: Path, request: Request, names: Names): Option<Path> {
    if request.mode == Original then Some(source)
    else if request.destination == [] then None
    else
      match names.absolute(request.destination)
      case None => None
      case Some(p) => Some(names.normal(p))
  }

  predicate SourceBound<D>(loaded: Loaded<D>, request: Request, target: Path, names: Names) {
    request.mode == Original || target == names.normal(loaded.source)
  }

  /** The parent directory, the source and its bytes are looked at. */
  function SourceRun<D>(o: Oracle, w: World, loaded: Loaded<D>, present: bool): Run<Checked> {
    if Fails(o, w) then Run(Refused, Acted(w))
    else
      var status := StatusRun(o, Acted(w), loaded.source);
      if !status.value.Found? || !status.value.node.Regular? then Run(Refused, status.world)
      else
        var current := ReadRun(o, status.world, loaded.source);
        Run(if current.value == Some(loaded.original) then Passed(present) else Refused, current.world)
  }

  /** The checks before anything is written. */
  function CheckRun<D>(o: Oracle, w: World, loaded: Loaded<D>, request: Request, target: Path,
                       names: Names): Run<Checked> {
    if request.mode == Original then SourceRun(o, w, loaded, true)
    else
      var status := StatusRun(o, w, target);
      var present := status.value != NotFound;
      if status.value == Unknown || (present && !status.value.node.Regular?) then Run(Refused, status.world)
      else if present && !request.allowOverwrite then Run(Refused, status.world)
      else if target == names.normal(loaded.source) then SourceRun(o, status.world, loaded, present)
      else Run(Passed(present), status.world)
  }

  /** The backup step; the guard present from before the copy on. */
  function BackupRun(o: Oracle, w: World, target: Path, backup: Path): Run<BackedUp>
    requires IsRegular(w.nodes, target)
  {
    if Fails(o, w) || backup in w.nodes then Run(BackedUp(false, false, false), Acted(w))
    else
      var copy := CopyRun(o, Acted(w), w.nodes[target].content, backup);
      Run(BackedUp(copy.value.ok, true, copy.value.started), copy.world)
  }

  /** The backup guard's destructor: it removes the backup only after a cancellation. */
  function GuardRun(o: Oracle, w: World, guarded: Option<Path>): World {
    if guarded.None? then w
    else if SeesCancelled(o, w) then RemoveRun(o, Looked(w), guarded.value)
    else Looked(w)
  }

  /** The destructors at the end of a failed call: first the temporary file's, then the guard's. */
  function FailRun<D>(o: Oracle, w: World, temp: Option<Path>, guarded: Option<Path>,
                      started: bool): (r: Run<Outcome<D>>)
    ensures r.value.result.None?
  {
    var next := if temp.Some? then RemoveRun(o, w, temp.value) else w;
    Run(Outcome(None, if temp.Some? then Some(w) else None, if started then Some(next) else None),
        GuardRun(o, next, guarded))
  }

  /** Write the temporary file, look at the token, rename. */
  function PublishRun(o: Oracle, w: World, temp: Path, target: Path, bytes: Bytes): Run<bool> {
    var written := WriteRun(o, w, temp, bytes);
    if !written.value then written
    else if SeesCancelled(o, written.world) then Run(false, Looked(written.world))
    else RenameRun(o, Looked(written.world), temp, target)
  }

  function FinishRun<D>(o: Oracle, w: World, loaded: Loaded<D>, bytes: Bytes, target: Path, names: Names,
                        guarded: Option<Path>): Run<Outcome<D>>
  {
    var published := PublishRun(o, w, names.tempOf(target), target, bytes);
    if published.value then
      Run(Outcome(Some(Loaded(loaded.document, target, false, bytes)), None, None), published.world)
    else FailRun(o, published.world, Some(names.tempOf(target)), guarded, guarded.Some?)
  }

  /** Everything after the checks. */
  function WritingRun<D>(o: Oracle, w: World, loaded: Loaded<D>, bytes: Bytes, request: Request, target: Path,
                         names: Names, present: bool): Run<Outcome<D>>
    requires present ==> IsRegular(w.nodes, target)
  {
    if !(request.backup && present) then FinishRun(o, w, loaded, bytes, target, names, None)
    else
      var backup := names.backupOf(target);
      var copied := BackupRun(o, w, target, backup);
      var guarded := if copied.value.guarded then Some(backup) else None;
      if copied.value.ok then FinishRun(o, copied.world, loaded, bytes, target, names, guarded)
      else FailRun(o, copied.world, None, guarded, copied.value.started)
  }

  /** FileTorrentRepository::commit */
  function CommitRun<D>(o: Oracle, w: World, loaded: Loaded<D>, bytes: Bytes, request: Request,
                        names: Names): Run<Outcome<D>> {
    var target := TargetOf(loaded.source, request, names);
    if SeesCancelled(o, w) || target.None? then Run(Outcome(None, None, None), Looked(w))
    else
      var checked := CheckRun(o, Looked(w), loaded, request, target.value, names);
      CheckPassed(o, Looked(w), loaded, request, target.value, names);
      if checked.value == Refused then Run(Outcome(None, None, None), checked.world)
      else WritingRun(o, checked.world, loaded, bytes, request, target.value, names, checked.value.present)
  }

  // ----- the checks ------------------------------------------------------------------------------------------

  /** What the checks demand of the files. */
  predicate Acceptable<D>(loaded: Loaded<D>, request: Request, target: Path, names: Names, nodes: map<Path, Node>) {
    && (target in nodes ==> nodes[target].Regular?)
    && (request.mode == NewPath && !request.allowOverwrite ==> target !in nodes)
    && (SourceBound(loaded, request, target, names) ==>
          loaded.source in nodes && nodes[loaded.source] == Regular(loaded.original)
          && |loaded.original| <= MAX_TORRENT_BYTES)
  }

  /** The checks change nothing, and pass only what is acceptable. */
  lemma CheckPassed<D>(o: Oracle, w: World, loaded: Loaded<D>, request: Request, target: Path, names: Names)
    requires TargetOf(loaded.source, request, names) == Some(target)
    ensures var checked := CheckRun(o, w, loaded, request, target, names);
            && checked.world.nodes == w.nodes
            && (checked.value != Refused ==>
                  Acceptable(loaded, request, target, names, w.nodes) && checked.value == Passed(target in w.nodes))
  {
    hide ReadRun;
    ReadKeeps(o, Acted(Acted(w)), loaded.source);
    ReadKeeps(o, Acted(Acted(Acted(w))), loaded.source);
  }

  /** Operations of the checks when all of them are made. */
  function CheckOps<D>(loaded: Loaded<D>, request: Request, target: Path, names: Names): nat {
    (if request.mode == Original then 0 else 1)
    + if SourceBound(loaded, request, target, names) then 2 + ReadOps(|loaded.original|) else 0
  }

  lemma QuietSource<D>(o: Oracle, w: World, loaded: Loaded<D>, present: bool)
    requires NeverCancelled(o) && Quiet(o, w.ops, w.ops + 2 + ReadOps(|loaded.original|))
    requires loaded.source in w.nodes && w.nodes[loaded.source] == Regular(loaded.original)
    requires |loaded.original| <= MAX_TORRENT_BYTES
    ensures SourceRun(o, w, loaded, present).value == Passed(present)
    ensures SourceRun(o, w, loaded, present).world.ops == w.ops + 2 + ReadOps(|loaded.original|)
  {
    hide ReadRun, ReadOps;
    assert o.fault(w.ops).None? && o.fault(w.ops + 1).None?;
    QuietRead(o, Acted(Acted(w)), loaded.source);
  }

  /** Without a fault and a cancellation the checks pass what is acceptable. */
  lemma QuietCheck<D>(o: Oracle, w: World, loaded: Loaded<D>, request: Request, target: Path, names: Names)
    requires TargetOf(loaded.source, request, names) == Some(target)
    requires Acceptable(loaded, request, target, names, w.nodes)
    requires NeverCancelled(o) && Quiet(o, w.ops, w.ops + CheckOps(loaded, request, target, names))
    ensures CheckRun(o, w, loaded, request, target, names).value == Passed(target in w.nodes)
    ensures CheckRun(o, w, loaded, request, target, names).world.ops == w.ops + CheckOps(loaded, request, target, names)
  {
    hide SourceRun, ReadOps;
    if request.mode == Original {
      QuietSource(o, w, loaded, true);
    } else {
      assert o.fault(w.ops).None?;
      if target == names.normal(loaded.source) { QuietSource(o, Acted(w), loaded, target in w.nodes); }
    }
  }

  // ----- what a commit leaves ----------------------------------------------------------------------------------

  /** A successful commit: the target holds the new bytes, and nothing else but a requested backup is new. */
  ghost predicate Committed<D>(loaded: Loaded<D>, bytes: Bytes, request: Request, names: Names,
                               before: map<Path, Node>, after: map<Path, Node>, result: Loaded<D>)
  {
    && TargetOf(loaded.source, request, names).Some?
    && var target := TargetOf(loaded.source, request, names).value;
    && result == Loaded(loaded.document, target, false, bytes)
    && Acceptable(loaded, request, target, names, before)
    && (request.backup && target in before ==> names.backupOf(target) !in before)
    && var kept :=
         if request.backup && target in before then before[names.backupOf(target) := before[target]] else before;
       after == kept[target := Regular(bytes)]
  }

  /** The temporary file was created, and its removal failed. */
  predicate TempStays(o: Oracle, temp: Path, removal: Option<World>) {
    removal.Some? && temp in removal.value.nodes && Fails(o, removal.value)
  }

  /** The backup was opened, and not both seen to be cancelled and removed. */
  predicate BackupStays(o: Oracle, guard: Option<World>) {
    guard.Some? && !(SeesCancelled(o, guard.value) && !Fails(o, Looked(guard.value)))
  }

  /**
    A failed commit: all files are as they were, and exactly two can be new. The temporary file is when its
    removal failed; the backup is when it was opened, unless the guard saw a cancellation and removed it.
    It then holds a prefix of the target.
  */
  ghost predicate Abandoned<D>(o: Oracle, request: Request, target: Path, names: Names, before: map<Path, Node>,
                               after: map<Path, Node>, outcome: Outcome<D>)
  {
    var temp, backup := names.tempOf(target), names.backupOf(target);
    && (temp in after <==> TempStays(o, temp, outcome.temp))
    && (outcome.backup.Some? ==> request.backup && IsRegular(before, target) && backup !in before)
    && if BackupStays(o, outcome.backup) then WrotePrefix(before, after - {temp}, backup, before[target].content)
       else after - {temp} == before
  }

  lemma PublishLeaves(o: Oracle, w: World, temp: Path, target: Path, bytes: Bytes)
    requires temp !in w.nodes && temp != target
    ensures var r := PublishRun(o, w, temp, target, bytes);
            && (r.value ==> r.world.nodes == w.nodes[target := Regular(bytes)])
            && (!r.value ==> r.world.nodes - {temp} == w.nodes)
  {
    hide WriteRun;
    WriteLeavesPrefix(o, w, temp, bytes);
    var written := WriteRun(o, w, temp, bytes);
    assert written.world.nodes - {temp} == w.nodes;
  }

  lemma BackupLeaves(o: Oracle, w: World, target: Path, backup: Path)
    requires IsRegular(w.nodes, target) && backup != target
    ensures var r := BackupRun(o, w, target, backup);
            && (r.value.guarded ==> backup !in w.nodes)
            && (if r.value.started then
                  r.value.guarded && WrotePrefix(w.nodes, r.world.nodes, backup, w.nodes[target].content)
                else r.world.nodes == w.nodes && !r.value.ok)
            && (r.value.ok ==> r.world.nodes == w.nodes[backup := w.nodes[target]])
  {
    hide CopyRun;
    CopyLeavesPrefix(o, Acted(w), w.nodes[target].content, backup);
  }

  /** The destructor of the temporary file leaves the other files alone. */
  lemma RemoveLeaves(o: Oracle, w: World, temp: Path)
    ensures RemoveRun(o, w, temp).nodes - {temp} == w.nodes - {temp}
    ensures temp in RemoveRun(o, w, temp).nodes <==> TempStays(o, temp, Some(w))
  {
  }

  /** The guard takes away at most the backup. */
  lemma GuardLeaves(o: Oracle, w: World, temp: Path, backup: Path)
    requires temp != backup
    ensures var r := GuardRun(o, w, Some(backup));
            && (temp in r.nodes <==> temp in w.nodes)
            && r.nodes - {temp} == if BackupStays(o, Some(w)) then w.nodes - {temp} else w.nodes - {temp} - {backup}
  {
  }

  /** A failure before the backup step or without one. */
  lemma FailLeaves<D>(o: Oracle, w: World, request: Request, target: Path, names: Names, before: map<Path, Node>)
    requires names.tempOf(target) !in before && w.nodes - {names.tempOf(target)} == before
    ensures var r: Run<Outcome<D>> := FailRun(o, w, Some(names.tempOf(target)), None, false);
            Abandoned(o, request, target, names, before, r.world.nodes, r.value)
  {
    RemoveLeaves(o, w, names.tempOf(target));
  }

  /** A failed copy. */
  lemma FailedCopyLeaves<D>(o: Oracle, w: World, request: Request, target: Path, names: Names, before: map<Path, Node>,
                            started: bool)
    requires Usable(names, before) && request.backup && IsRegular(before, target) && names.backupOf(target) !in before
    requires if started then WrotePrefix(before, w.nodes, names.backupOf(target), before[target].content)
             else w.nodes == before
    ensures var r: Run<Outcome<D>> := FailRun(o, w, None, Some(names.backupOf(target)), started);
            Abandoned(o, request, target, names, before, r.world.nodes, r.value)
  {
    var temp, backup := names.tempOf(target), names.backupOf(target);
    GuardLeaves(o, w, temp, backup);
    assert w.nodes - {temp} == w.nodes;
    if started { assert w.nodes - {backup} == before; } else { assert w.nodes - {backup} == before; }
  }

  /** A failure behind a complete backup. */
  lemma FailWithBackupLeaves<D>(o: Oracle, w: World, request: Request, target: Path, names: Names,
                                before: map<Path, Node>)
    requires Usable(names, before) && request.backup && IsRegular(before, target) && names.backupOf(target) !in before
    requires w.nodes - {names.tempOf(target)} == before[names.backupOf(target) := before[target]]
    ensures var r: Run<Outcome<D>> := FailRun(o, w, Some(names.tempOf(target)), Some(names.backupOf(target)), true);
            Abandoned(o, request, target, names, before, r.world.nodes, r.value)
  {
    var temp, backup := names.tempOf(target), names.backupOf(target);
    RemoveLeaves(o, w, temp);
    GuardLeaves(o, RemoveRun(o, w, temp), temp, backup);
    assert w.nodes - {temp} - {backup} == before;
  }

  lemma FinishLeaves<D>(o: Oracle, w: World, loaded: Loaded<D>, bytes: Bytes, request: Request, target: Path,
                        names: Names, before: map<Path, Node>, guarded: Option<Path>)
    requires Usable(names, before)
    requires guarded == None ==> w.nodes == before
    requires guarded.Some? ==>
               && guarded.value == names.backupOf(target) && guarded.value !in before
               && request.backup && IsRegular(before, target) && w.nodes == before[guarded.value := before[target]]
    ensures var r := FinishRun(o, w, loaded, bytes, target, names, guarded);
            if r.value.result.Some? then
              r.value.result.value == Loaded(loaded.document, target, false, bytes)
              && r.world.nodes == w.nodes[target := Regular(bytes)]
            else Abandoned(o, request, target, names, before, r.world.nodes, r.value)
  {
    hide PublishRun, FailRun, Abandoned;
    var temp := names.tempOf(target);
    PublishLeaves(o, w, temp, target, bytes);
    var published := PublishRun(o, w, temp, target, bytes);
    if !published.value {
      if guarded.Some? {
        FailWithBackupLeaves<D>(o, published.world, request, target, names, before);
      } else {
        FailLeaves<D>(o, published.world, request, target, names, before);
      }
    }
  }

  /** The end of a commit that never wrote. */
  lemma NothingWritten<D>(o: Oracle, request: Request, target: Path, names: Names, before: map<Path, Node>)
    requires names.tempOf(target) !in before
    ensures Abandoned<D>(o, request, target, names, before, before, Outcome(None, None, None))
  {
    assert before - {names.tempOf(target)} == before;
  }

  ghost predicate Ended<D>(o: Oracle, loaded: Loaded<D>, bytes: Bytes, request: Request, target: Path, names: Names,
                           before: map<Path, Node>, after: map<Path, Node>, outcome: Outcome<D>)
  {
    if outcome.result.Some? then Committed(loaded, bytes, request, names, before, after, outcome.result.value)
    else Abandoned(o, request, target, names, before, after, outcome)
  }

  lemma WritingLeaves<D>(o: Oracle, w: World, loaded: Loaded<D>, bytes: Bytes, request: Request, target: Path,
                         names: Names)
    requires Usable(names, w.nodes) && TargetOf(loaded.source, request, names) == Some(target)
    requires Acceptable(loaded, request, target, names, w.nodes)
    ensures var r := WritingRun(o, w, loaded, bytes, request, target, names, target in w.nodes);
            Ended(o, loaded, bytes, request, target, names, w.nodes, r.world.nodes, r.value)
  {
    hide FinishRun, BackupRun, RemoveRun, Abandoned, WrotePrefix;
    if !(request.backup && target in w.nodes) {
      FinishLeaves(o, w, loaded, bytes, request, target, names, w.nodes, None);
    } else {
      var backup := names.backupOf(target);
      BackupLeaves(o, w, target, backup);
      var copied := BackupRun(o, w, target, backup);
      if copied.value.ok {
        FinishLeaves(o, copied.world, loaded, bytes, request, target, names, w.nodes, Some(backup));
      } else if copied.value.guarded {
        FailedCopyLeaves<D>(o, copied.world, request, target, names, w.nodes, copied.value.started);
      } else {
        NothingWritten<D>(o, request, target, names, w.nodes);
      }
    }
  }

  /**
    Whatever fails and whenever it is cancelled: a commit succeeds with the target replaced and nothing
    else changed but for a requested backup, or fails with exactly the traces of `Abandoned`.
  */
  lemma {:induction false} CommitLeaves<D>(o: Oracle, w: World, loaded: Loaded<D>, bytes: Bytes, request: Request,
                                           names: Names)
    requires Usable(names, w.nodes)
    ensures var r := CommitRun(o, w, loaded, bytes, request, names);
            match TargetOf(loaded.source, request, names)
            case None => r.value == Outcome(None, None, None) && r.world.nodes == w.nodes
            case Some(target) => Ended(o, loaded, bytes, request, target, names, w.nodes, r.world.nodes, r.value)
  {
    hide CheckRun, WritingRun, Abandoned, Committed;
    var resolved := TargetOf(loaded.source, request, names);
    if resolved.Some? {
      var target := resolved.value;
      NothingWritten<D>(o, request, target, names, w.nodes);
      CheckPassed(o, Looked(w), loaded, request, target, names);
      var checked := CheckRun(o, Looked(w), loaded, request, target, names);
      if checked.value != Refused {
        WritingLeaves(o, checked.world, loaded, bytes, request, target, names);
      }
    }
  }

  // ----- which commits succeed, and what failures leave --------------------------------------------------------

  /** A cancelled token stays cancelled. */
  ghost predicate Latched(o: Oracle) { forall j: nat, k: nat :: j <= k && o.cancelled(j) ==> o.cancelled(k) }

  /** What a caller can check before the call. */
  predicate Committable<D>(loaded: Loaded<D>, request: Request, names: Names, nodes: map<Path, Node>) {
    match TargetOf(loaded.source, request, names)
    case None => false
    case Some(target) =>
      && Acceptable(loaded, request, target, names, nodes)
      && (request.backup && target in nodes ==> names.backupOf(target) !in nodes)
  }

  /** Without faults a file is published unless the last look saw a cancellation. */
  lemma PublishFailsCancelled(o: Oracle, w: World, temp: Path, target: Path, bytes: Bytes)
    requires NoFaults(o)
    ensures var r := PublishRun(o, w, temp, target, bytes); r.value || EndedCancelled(o, w, r.world)
  {
    hide WriteRun;
    WriteFailsCancelled(o, w, temp, bytes);
    WriteLeavesPrefix(o, w, temp, bytes);
    assert !Fails(o, Looked(WriteRun(o, w, temp, bytes).world));
  }

  /** Without faults, a failure behind the checks and an unused backup name follows a cancellation. */
  lemma WritingFailsCancelled<D>(o: Oracle, w: World, loaded: Loaded<D>, bytes: Bytes, request: Request, target: Path,
                                 names: Names, present: bool)
    requires NoFaults(o) && (present ==> IsRegular(w.nodes, target))
    ensures var r := WritingRun(o, w, loaded, bytes, request, target, names, present).value;
            NeverCancelled(o) && (request.backup && present ==> names.backupOf(target) !in w.nodes) ==> r.result.Some?
    ensures var r := WritingRun(o, w, loaded, bytes, request, target, names, present).value;
            r.backup.Some? ==> r.backup.value.looks > 0 && o.cancelled(r.backup.value.looks - 1)
  {
    hide PublishRun, CopyRun;
    var temp := names.tempOf(target);
    var copied := w;
    if request.backup && present {
      assert !Fails(o, w);
      var content := w.nodes[target].content;
      CopyFailsCancelled(o, Acted(w), content, names.backupOf(target));
      copied := CopyRun(o, Acted(w), content, names.backupOf(target)).world;
    }
    PublishFailsCancelled(o, copied, temp, target, bytes);
  }

  /** Without faults and cancellation exactly what a caller can check decides. */
  lemma {:induction false} CommitSucceedsIff<D>(o: Oracle, w: World, loaded: Loaded<D>, bytes: Bytes, request: Request,
                                                names: Names)
    requires Usable(names, w.nodes) && NoFaults(o) && NeverCancelled(o)
    ensures CommitRun(o, w, loaded, bytes, request, names).value.result.Some? <==>
              Committable(loaded, request, names, w.nodes)
  {
    hide CheckRun, WritingRun, Abandoned;
    CommitLeaves(o, w, loaded, bytes, request, names);
    if Committable(loaded, request, names, w.nodes) {
      var target := TargetOf(loaded.source, request, names).value;
      QuietCheck(o, Looked(w), loaded, request, target, names);
      CheckPassed(o, Looked(w), loaded, request, target, names);
      var checked := CheckRun(o, Looked(w), loaded, request, target, names);
      WritingFailsCancelled(o, checked.world, loaded, bytes, request, target, names, target in w.nodes);
    }
  }

  /** A failed commit leaves no trace at all unless a file operation failed. */
  lemma {:induction false} FaultlessFailureIsClean<D>(o: Oracle, w: World, loaded: Loaded<D>, bytes: Bytes,
                                                      request: Request, names: Names)
    requires Usable(names, w.nodes) && NoFaults(o) && Latched(o)
    requires CommitRun(o, w, loaded, bytes, request, names).value.result.None?
    ensures CommitRun(o, w, loaded, bytes, request, names).world.nodes == w.nodes
  {
    hide CheckRun, WritingRun;
    CommitLeaves(o, w, loaded, bytes, request, names);
    var r := CommitRun(o, w, loaded, bytes, request, names);
    var resolved := TargetOf(loaded.source, request, names);
    if resolved.Some? {
      var target := resolved.value;
      CheckPassed(o, Looked(w), loaded, request, target, names);
      var checked := CheckRun(o, Looked(w), loaded, request, target, names);
      if checked.value != Refused && !SeesCancelled(o, w) {
        WritingFailsCancelled(o, checked.world, loaded, bytes, request, target, names, checked.value.present);
      }
      assert !BackupStays(o, r.value.backup);
      assert r.world.nodes - {names.tempOf(target)} == r.world.nodes;
    }
  }

  /** Either way the target is old or new as a whole, and every other file there was is as it was. */
  lemma {:induction false} TargetIsOldOrNew<D>(o: Oracle, w: World, loaded: Loaded<D>, bytes: Bytes, request: Request,
                                               names: Names, target: Path)
    requires Usable(names, w.nodes) && TargetOf(loaded.source, request, names) == Some(target)
    ensures var r := CommitRun(o, w, loaded, bytes, request, names);
            && (if r.value.result.Some? then
                  && target in r.world.nodes && r.world.nodes[target] == Regular(bytes)
                  && names.tempOf(target) !in r.world.nodes
                else StatusOf(r.world, target) == StatusOf(w, target))
            && forall p :: p in w.nodes && p != target ==> StatusOf(r.world, p) == StatusOf(w, p)
  {
    hide CommitRun;
    CommitLeaves(o, w, loaded, bytes, request, names);
    var r := CommitRun(o, w, loaded, bytes, request, names);
    var temp, backup := names.tempOf(target), names.backupOf(target);
    forall p | p in w.nodes && (p != target || r.value.result.None?)
      ensures StatusOf(r.world, p) == StatusOf(w, p)
    {
      assert p != temp;
      if r.value.result.None? { assert p in r.world.nodes - {temp} && (r.world.nodes - {temp})[p] == w.nodes[p]; }
    }
    if r.value.result.None? { assert target in r.world.nodes ==> target in r.world.nodes - {temp}; }
  }

  /** Without a requested backup, or with nothing to back up, only a stuck temporary file can be new. */
  lemma {:induction false} OnlyStuckTempIsNew<D>(o: Oracle, w: World, loaded: Loaded<D>, bytes: Bytes, request: Request,
                                                 names: Names, target: Path)
    requires Usable(names, w.nodes) && TargetOf(loaded.source, request, names) == Some(target)
    requires CommitRun(o, w, loaded, bytes, request, names).value.result.None?
    requires !request.backup || target !in w.nodes
    ensures var r := CommitRun(o, w, loaded, bytes, request, names);
            && r.world.nodes - {names.tempOf(target)} == w.nodes
            && (names.tempOf(target) in r.world.nodes <==> TempStays(o, names.tempOf(target), r.value.temp))
  {
    hide CheckRun, WritingRun;
    CommitLeaves(o, w, loaded, bytes, request, names);
  }

  /** The backup is opened when the three operations before its first chunk work. */
  lemma BackupStartsIff(o: Oracle, w: World, target: Path, backup: Path)
    requires IsRegular(w.nodes, target) && NeverCancelled(o) && backup !in w.nodes
    ensures BackupRun(o, w, target, backup).value.started <==> Quiet(o, w.ops, w.ops + 3)
    ensures BackupRun(o, w, target, backup).value.ok ==> BackupRun(o, w, target, backup).value.started
  {
    hide CopyChunks;
    var content := w.nodes[target].content;
    CopyLeavesPrefix(o, Acted(w), content, backup);
    var started := Holding(Acted(Acted(Looked(Acted(w)))), backup, content, 0);
    assert started.nodes[backup] == Regular(content[..0]);
    CopyChunksPrefix(o, w.nodes, started, content, backup, 0);
    if Quiet(o, w.ops, w.ops + 3) {
      assert o.fault(w.ops).None? && o.fault(w.ops + 1).None? && o.fault(w.ops + 2).None?;
    }
  }

  /**
    When nothing is cancelled there is a new backup, whether the commit succeeds or fails, exactly when one
    was requested, the checks passed with the target present, and the three operations that look for the
    backup and open both files worked.
  */
  lemma {:induction false} BackupIsNewIff<D>(o: Oracle, w: World, loaded: Loaded<D>, bytes: Bytes, request: Request,
                                             names: Names, target: Path)
    requires Usable(names, w.nodes) && TargetOf(loaded.source, request, names) == Some(target)
    requires NeverCancelled(o) && names.backupOf(target) !in w.nodes
    ensures var checked := CheckRun(o, Looked(w), loaded, request, target, names);
            names.backupOf(target) in CommitRun(o, w, loaded, bytes, request, names).world.nodes <==>
              request.backup && checked.value == Passed(true) && Quiet(o, checked.world.ops, checked.world.ops + 3)
  {
    hide CheckRun, BackupRun, PublishRun, Quiet;
    CommitLeaves(o, w, loaded, bytes, request, names);
    CheckPassed(o, Looked(w), loaded, request, target, names);
    var checked := CheckRun(o, Looked(w), loaded, request, target, names);
    if checked.value == Passed(true) {
      BackupStartsIff(o, checked.world, target, names.backupOf(target));
      BackupLeaves(o, checked.world, target, names.backupOf(target));
    }
  }
  // ----- backups that stay ---------------------------------------------------------------------------------------

  /** Nothing is cancelled and a single operation fails. */
  function FaultAt(n: nat, stored: nat): Oracle {
    Oracle((k: nat) => if k == n then Some(stored) else None, (k: nat) => false)
  }

  /** Operations up to the opening of the temporary file, with a backup made. */
  function OpsBeforeWrite<D>(loaded: Loaded<D>, request: Request, target: Path, names: Names, content: Bytes): nat {
    CheckOps(loaded, request, target, names) + 1 + CopyOps(|content|)
  }

  /**
    Every request that makes a backup can fail and leave it behind: when the temporary file cannot be
    opened, the files end up as they were with a complete backup beside them.
  */
  lemma {:induction false} BackupCanStay<D>(before: map<Path, Node>, loaded: Loaded<D>, bytes: Bytes, request: Request,
                                            names: Names, target: Path)
    requires Usable(names, before) && Committable(loaded, request, names, before)
    requires TargetOf(loaded.source, request, names) == Some(target) && request.backup && target in before
    ensures var o := FaultAt(OpsBeforeWrite(loaded, request, target, names, before[target].content), 0);
            var r := CommitRun(o, World(before, 0, 0), loaded, bytes, request, names);
            r.value.result.None? && r.world.nodes == before[names.backupOf(target) := before[target]]
  {
    hide CheckRun, CopyRun, CheckOps, CopyOps, Usable;
    var n := OpsBeforeWrite(loaded, request, target, names, before[target].content);
    var o, w := FaultAt(n, 0), Looked(World(before, 0, 0));
    QuietCheck(o, w, loaded, request, target, names);
    CheckPassed(o, w, loaded, request, target, names);
    var checked := CheckRun(o, w, loaded, request, target, names).world;
    QuietCopy(o, Acted(checked), before[target].content, names.backupOf(target));
    CopyLeavesPrefix(o, Acted(checked), before[target].content, names.backupOf(target));
    var copied := CopyRun(o, Acted(checked), before[target].content, names.backupOf(target)).world;
    FailedOpenLeavesBackup<D>(o, copied, names.tempOf(target), target, bytes, names.backupOf(target)) by {
      UsableAt(names, before, target);
    }
  }

  lemma UsableAt(names: Names, nodes: map<Path, Node>, p: Path)
    requires Usable(names, nodes)
    ensures names.tempOf(p) !in nodes && names.tempOf(p) != names.backupOf(p) && names.backupOf(p) != p
  {
  }

  /** The destructors behind a temporary file that could not be opened change nothing. */
  lemma FailedOpenLeavesBackup<D>(o: Oracle, w: World, temp: Path, target: Path, bytes: Bytes, backup: Path)
    requires temp !in w.nodes && NeverCancelled(o) && o.fault(w.ops).Some?
    ensures !PublishRun(o, w, temp, target, bytes).value
    ensures var end := PublishRun(o, w, temp, target, bytes).world;
            var r: Run<Outcome<D>> := FailRun(o, end, Some(temp), Some(backup), true);
            r.world.nodes == w.nodes
  {
  }

  /** And it can be left incomplete: any part of the first chunk, when the copy fails there. */
  lemma {:induction false} TruncatedBackupCanStay<D>(before: map<Path, Node>, loaded: Loaded<D>, bytes: Bytes,
                                                     request: Request, names: Names, target: Path, length: nat)
    requires Usable(names, before) && Committable(loaded, request, names, before)
    requires TargetOf(loaded.source, request, names) == Some(target) && request.backup && target in before
    requires length <= |before[target].content| && length <= CHUNK
    ensures var o := FaultAt(CheckOps(loaded, request, target, names) + 3, length);
            var r := CommitRun(o, World(before, 0, 0), loaded, bytes, request, names);
            && r.value.result.None?
            && r.world.nodes == before[names.backupOf(target) := Regular(before[target].content[..length])]
  {
    hide CheckRun, CheckOps, Usable;
    var o, w := FaultAt(CheckOps(loaded, request, target, names) + 3, length), Looked(World(before, 0, 0));
    QuietCheck(o, w, loaded, request, target, names);
    CheckPassed(o, w, loaded, request, target, names);
  }

  /** Siblings as the program names them, of targets that are absolute and normal. */
  function SiblingNames(): Names {
    Names(p => Some(p), p => p, p => p + Ascii(".torrentutils.tmp.1.0"), p => p + Ascii(".bak-1"))
  }

  /** "/a", "x" and "/a.bak-1" */
  const SOURCE: Path := [0x2F, 0x61]
  const CONTENT: Bytes := [0x78]
  const BACKUP: Path := [0x2F, 0x61, 0x2E, 0x62, 0x61, 0x6B, 0x2D, 0x31]

  const EXAMPLE_DISK: World := World(map[SOURCE := Regular(CONTENT)], 0, 0)

  const EXAMPLE_TORRENT: Loaded<()> := Loaded((), SOURCE, false, CONTENT)

  const EXAMPLE_REQUEST := Request(Original, [], false, true)

  lemma ExampleOps()
    ensures OpsBeforeWrite(EXAMPLE_TORRENT, EXAMPLE_REQUEST, SOURCE, SiblingNames(), CONTENT) == 11
  {
    assert Rounds(1, 0) == 1 + Rounds(1, 1);
  }

  lemma ExampleNames()
    ensures Usable(SiblingNames(), EXAMPLE_DISK.nodes)
    ensures SiblingNames().backupOf(SOURCE) == BACKUP
  {
    forall p ensures SiblingNames().tempOf(p) !in EXAMPLE_DISK.nodes
             ensures SiblingNames().tempOf(p) != SiblingNames().backupOf(p)
    {
      assert |SiblingNames().tempOf(p)| == |p| + 21 && |SiblingNames().backupOf(p)| == |p| + 6;
    }
  }

  /** A torrent of one byte is saved in place with a backup; the temporary file cannot be opened. */
  lemma {:induction false} LeftBackupRun(bytes: Bytes)
    ensures var r := CommitRun(FaultAt(11, 0), EXAMPLE_DISK, EXAMPLE_TORRENT, bytes, EXAMPLE_REQUEST, SiblingNames());
            && r.value.result.None?
            && r.world.nodes == map[SOURCE := Regular(CONTENT), BACKUP := Regular(CONTENT)]
  {
    hide CommitRun, OpsBeforeWrite, FaultAt, Usable, SiblingNames;
    ExampleOps();
    ExampleNames();
    BackupCanStay(EXAMPLE_DISK.nodes, EXAMPLE_TORRENT, bytes, EXAMPLE_REQUEST, SiblingNames(), SOURCE);
  }

  // ----- the operations ----------------------------------------------------------------------------------------

  method ResolveTarget(source: Path, request: Request, names: Names) returns (target: Option<Path>)
    ensures target == TargetOf(source, request, names)
  {
    if request.mode == Original { return Some(source); }
    if request.destination == [] { return None; }
    var resolved := names.absolute(request.destination);
    if resolved.None? { return None; }
    target := Some(names.normal(resolved.value));
  }

  method CheckSource<D(==)>(disk: Disk, loaded: Loaded<D>, ghost present: bool) returns (ok: bool)
    modifies disk
    ensures Run(if ok then Passed(present) else Refused, disk.Now())
         == SourceRun(disk.oracle, old(disk.Now()), loaded, present)
  {
    hide ReadRun;
    var fault := disk.Act();
    if fault.Some? { return false; }
    var status := disk.Inspect(loaded.source);
    if !status.Found? || !status.node.Regular? { return false; }
    var current := disk.ReadBoundedFile(loaded.source);
    ok := current == Some(loaded.original);
  }

  method CheckTarget<D(==)>(disk: Disk, loaded: Loaded<D>, request: Request, target: Path, names: Names)
    returns (ok: bool, present: bool)
    modifies disk
    ensures Run(if ok then Passed(present) else Refused, disk.Now())
         == CheckRun(disk.oracle, old(disk.Now()), loaded, request, target, names)
  {
    hide SourceRun;
    ok, present := false, request.mode == Original;
    if request.mode == NewPath {
      var status := disk.Inspect(target);
      if status == Unknown { return; }
      present := status != NotFound;
      if present && !status.node.Regular? { return; }
    }
    var sourceBound := target == names.normal(loaded.source);
    if request.mode == NewPath && sourceBound && present && !request.allowOverwrite { return; }
    if request.mode == Original || sourceBound {
      ok := CheckSource(disk, loaded, present);
    } else {
      ok := !(present && !request.allowOverwrite);
    }
  }

  method MakeBackup(disk: Disk, target: Path, backup: Path) returns (ok: bool, guarded: bool, ghost started: bool)
    requires IsRegular(disk.nodes, target) && backup != target
    modifies disk
    ensures Run(BackedUp(ok, guarded, started), disk.Now()) == BackupRun(disk.oracle, old(disk.Now()), target, backup)
  {
    hide CopyRun;
    ok, guarded, started := false, false, false;
    var fault := disk.Act();
    if fault.Some? || backup in disk.nodes { return; }
    guarded := true;
    ok, started := disk.CopyBoundedFile(target, backup);
  }

  method Publish(disk: Disk, temp: Path, target: Path, bytes: Bytes) returns (ok: bool)
    modifies disk
    ensures Run(ok, disk.Now()) == PublishRun(disk.oracle, old(disk.Now()), temp, target, bytes)
  {
    hide WriteRun;
    ok := disk.WriteBoundedFile(temp, bytes);
    if !ok { return; }
    var c := disk.IsCancelled();
    if c { return false; }
    ok := disk.Rename(temp, target);
  }

  method CleanUp<D>(disk: Disk, temp: Option<Path>, guarded: Option<Path>, ghost started: bool)
    returns (ghost outcome: Outcome<D>)
    modifies disk
    ensures Run(outcome, disk.Now()) == FailRun(disk.oracle, old(disk.Now()), temp, guarded, started)
  {
    ghost var first := disk.Now();
    if temp.Some? { disk.Remove(temp.value); }
    outcome := Outcome(None, if temp.Some? then Some(first) else None, if started then Some(disk.Now()) else None);
    if guarded.Some? {
      var c := disk.IsCancelled();
      if c { disk.Remove(guarded.value); }
    }
  }

  method Finish<D>(disk: Disk, loaded: Loaded<D>, bytes: Bytes, target: Path, names: Names, guarded: Option<Path>)
    returns (r: Option<Loaded<D>>, ghost outcome: Outcome<D>)
    modifies disk
    ensures r == outcome.result
    ensures Run(outcome, disk.Now()) == FinishRun(disk.oracle, old(disk.Now()), loaded, bytes, target, names, guarded)
  {
    hide PublishRun, FailRun;
    var ok := Publish(disk, names.tempOf(target), target, bytes);
    if ok {
      r := Some(Loaded(loaded.document, target, false, bytes));
      outcome := Outcome(r, None, None);
    } else {
      r := None;
      outcome := CleanUp(disk, Some(names.tempOf(target)), guarded, guarded.Some?);
    }
  }

  method Write<D>(disk: Disk, loaded: Loaded<D>, bytes: Bytes, request: Request, target: Path, names: Names,
                  present: bool)
    returns (r: Option<Loaded<D>>, ghost outcome: Outcome<D>)
    requires present ==> IsRegular(disk.nodes, target)
    requires names.backupOf(target) != target
    modifies disk
    ensures r == outcome.result
    ensures Run(outcome, disk.Now())
         == WritingRun(disk.oracle, old(disk.Now()), loaded, bytes, request, target, names, present)
  {
    hide FinishRun, BackupRun, FailRun;
    var guarded: Option<Path> := None;
    if request.backup && present {
      var backup := names.backupOf(target);
      var ok, guard, started := MakeBackup(disk, target, backup);
      if guard { guarded := Some(backup); }
      if !ok {
        r := None;
        outcome := CleanUp(disk, None, guarded, started);
        return;
      }
    }
    r, outcome := Finish(disk, loaded, bytes, target, names, guarded);
  }

  method Commit<D(==)>(disk: Disk, loaded: Loaded<D>, bytes: Bytes, request: Request, names: Names)
    returns (r: Option<Loaded<D>>, ghost outcome: Outcome<D>)
    requires Usable(names, disk.nodes)
    modifies disk
    ensures r == outcome.result
    ensures Run(outcome, disk.Now()) == CommitRun(disk.oracle, old(disk.Now()), loaded, bytes, request, names)
  {
    hide CheckRun, WritingRun;
    r, outcome := None, Outcome(None, None, None);
    var c := disk.IsCancelled();
    if c { return; }
    var target := ResolveTarget(loaded.source, request, names);
    if target.None? { return; }
    CheckPassed(disk.oracle, disk.Now(), loaded, request, target.value, names);
    var ok, present := CheckTarget(disk, loaded, request, target.value, names);
    if !ok { return; }
    r, outcome := Write(disk, loaded, bytes, request, target.value, names, present);
  }
}
