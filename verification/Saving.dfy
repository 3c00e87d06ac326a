/** TorrentService::save: encode, recognise that nothing would change, commit. */
module Saving {
  import opened Wrappers
  import opened ByteStrings
  import opened FaultyDisk
  import opened Commit

  /** What encoding a document for saving gives. */
  datatype Encoded = Failed | NeedRebuild | Encoding(bytes: Bytes)

  datatype Saved<D> = Saved(changed: bool, torrent: Loaded<D>)

  /** The result of a save, and what its commit did when it came to one. */
  datatype SaveOutcome<D> = SaveOutcome(result: Option<Saved<D>>, commit: Option<Outcome<D>>)

  predicate CanSaveTo<D>(loaded: Loaded<D>, request: Request) {
    request.mode == Original ==> !loaded.symlinkFollowed
  }

  /** The document encodes to the bytes it was loaded from and the request names where they came from. */
  predicate WouldNotChange<D>(loaded: Loaded<D>, request: Request, encode: D -> Encoded, names: Names) {
    && encode(loaded.document) == Encoding(loaded.original)
    && (request.mode == Original || names.normal(request.destination) == names.normal(loaded.source))
  }

  function SaveRun<D>(o: Oracle, w: World, loaded: Loaded<D>, request: Request, encode: D -> Encoded,
                      names: Names): Run<SaveOutcome<D>> {
    if SeesCancelled(o, w) || !CanSaveTo(loaded, request) || !encode(loaded.document).Encoding? then
      Run(SaveOutcome(None, None), Looked(w))
    else if SeesCancelled(o, Looked(w)) then Run(SaveOutcome(None, None), Looked(Looked(w)))
    else if WouldNotChange(loaded, request, encode, names) then
      Run(SaveOutcome(Some(Saved(false, loaded)), None), Looked(Looked(w)))
    else
      var committed := CommitRun(o, Looked(Looked(w)), loaded, encode(loaded.document).bytes, request, names);
      var result := match committed.value.result case None => None case Some(torrent) => Some(Saved(true, torrent));
      Run(SaveOutcome(result, Some(committed.value)), committed.world)
  }

  /** A save commits the encoded document, changes nothing, or fails as a commit fails. */
  lemma SaveLeaves<D>(o: Oracle, w: World, loaded: Loaded<D>, request: Request, encode: D -> Encoded, names: Names)
    requires Usable(names, w.nodes)
    ensures var r := SaveRun(o, w, loaded, request, encode, names);
            match r.value.result
            case Some(Saved(true, torrent)) =>
              && encode(loaded.document).Encoding? && !WouldNotChange(loaded, request, encode, names)
              && Committed(loaded, encode(loaded.document).bytes, request, names, w.nodes, r.world.nodes, torrent)
            case Some(Saved(false, torrent)) =>
              WouldNotChange(loaded, request, encode, names) && torrent == loaded && r.world.nodes == w.nodes
            case None =>
              var target := TargetOf(loaded.source, request, names);
              if r.value.commit.None? || target.None? then r.world.nodes == w.nodes
              else Abandoned(o, request, target.value, names, w.nodes, r.world.nodes, r.value.commit.value)
  {
    hide CommitRun, Abandoned, Committed;
    if encode(loaded.document).Encoding? {
      CommitLeaves(o, Looked(Looked(w)), loaded, encode(loaded.document).bytes, request, names);
    }
  }

  /** Without faults and cancellation exactly what a caller can check decides. */
  lemma SaveSucceedsIff<D>(o: Oracle, w: World, loaded: Loaded<D>, request: Request, encode: D -> Encoded, names: Names)
    requires Usable(names, w.nodes) && NoFaults(o) && NeverCancelled(o)
    ensures SaveRun(o, w, loaded, request, encode, names).value.result.Some? <==>
              && CanSaveTo(loaded, request) && encode(loaded.document).Encoding?
              && (WouldNotChange(loaded, request, encode, names) || Committable(loaded, request, names, w.nodes))
  {
    hide CommitRun, Committable;
    if encode(loaded.document).Encoding? {
      CommitSucceedsIff(o, Looked(Looked(w)), loaded, encode(loaded.document).bytes, request, names);
    }
  }

  method Save<D(==)>(disk: Disk, loaded: Loaded<D>, request: Request, encode: D -> Encoded, names: Names)
    returns (r: Option<Saved<D>>, ghost outcome: SaveOutcome<D>)
    requires Usable(names, disk.nodes)
    modifies disk
    ensures r == outcome.result
    ensures Run(outcome, disk.Now()) == SaveRun(disk.oracle, old(disk.Now()), loaded, request, encode, names)
  {
    hide CommitRun;
    r, outcome := None, SaveOutcome(None, None);
    var c := disk.IsCancelled();
    if c { return; }
    if request.mode == Original && loaded.symlinkFollowed { return; }
    var encoded := encode(loaded.document);
    if encoded.Failed? || encoded.NeedRebuild? { return; }
    c := disk.IsCancelled();
    if c { return; }
    var sameTarget := request.mode == Original || names.normal(request.destination) == names.normal(loaded.source);
    if encoded.bytes == loaded.original && sameTarget {
      r := Some(Saved(false, loaded));
      outcome := SaveOutcome(r, None);
      return;
    }
    var committed, trace := Commit.Commit(disk, loaded, encoded.bytes, request, names);
    if committed.Some? { r := Some(Saved(true, committed.value)); }
    outcome := SaveOutcome(r, Some(trace));
  }

  // ----- saving twice --------------------------------------------------------------------------------------

  /** Nothing changed, and nothing was touched. */
  ghost predicate ChangedNothing<D>(o: Oracle, w: World, loaded: Loaded<D>, request: Request, encode: D -> Encoded,
                                    names: Names) {
    var r := SaveRun(o, w, loaded, request, encode, names);
    r.value.result == Some(Saved(false, loaded)) && r.world.nodes == w.nodes && r.world.ops == w.ops
  }

  /** Saving what a save returned, to where it came from, changes nothing. */
  lemma SavedAgainIsNoChange<D>(loaded: Loaded<D>, request: Request, encode: D -> Encoded, names: Names,
                                before: map<Path, Node>, after: map<Path, Node>, result: Loaded<D>, o: Oracle, w: World,
                                again: Request)
    requires encode(loaded.document).Encoding?
    requires Committed(loaded, encode(loaded.document).bytes, request, names, before, after, result)
    requires again.mode == Original && NeverCancelled(o)
    ensures ChangedNothing(o, w, result, again, encode, names)
  {
    hide CommitRun;
    assert result == Loaded(loaded.document, TargetOf(loaded.source, request, names).value, false,
                            encode(loaded.document).bytes);
  }

  /**
    Repeating the same request changes nothing exactly when it named its own source or its destination
    was spelled as the resolved path is.
  */
  lemma RepeatedRequestIsNoChangeIff<D>(loaded: Loaded<D>, request: Request, encode: D -> Encoded, names: Names,
                                        before: map<Path, Node>, after: map<Path, Node>, result: Loaded<D>, o: Oracle,
                                        w: World)
    requires encode(loaded.document).Encoding? && forall p :: names.normal(names.normal(p)) == names.normal(p)
    requires Committed(loaded, encode(loaded.document).bytes, request, names, before, after, result)
    requires NeverCancelled(o)
    ensures ChangedNothing(o, w, result, request, encode, names) <==>
              || request.mode == Original
              || names.normal(request.destination) == names.normal(names.absolute(request.destination).value)
  {
    hide CommitRun;
    assert result == Loaded(loaded.document, TargetOf(loaded.source, request, names).value, false,
                            encode(loaded.document).bytes);
  }

  /** Without leave to overwrite, a repetition that is not recognised as no change is refused, come what may. */
  lemma UnrecognisedRepeatFails<D>(loaded: Loaded<D>, request: Request, encode: D -> Encoded, names: Names,
                                   before: map<Path, Node>, result: Loaded<D>, o: Oracle, w: World)
    requires encode(loaded.document).Encoding? && Usable(names, w.nodes)
    requires Committed(loaded, encode(loaded.document).bytes, request, names, before, w.nodes, result)
    requires request.mode == NewPath && !request.allowOverwrite
    requires !WouldNotChange(result, request, encode, names)
    ensures SaveRun(o, w, result, request, encode, names).value.result.None?
  {
    hide SaveRun, WouldNotChange, Abandoned;
    SaveLeaves(o, w, result, request, encode, names);
  }

  /** Paths below the root directory: a relative path is looked up there. */
  function RootNames(): Names {
    SiblingNames().(absolute := p => Some(if p != [] && p[0] == 0x2F then p else [0x2F] + p))
  }

  /** "b" and "/b" */
  const RELATIVE: Path := [0x62]
  const RESOLVED: Path := [0x2F, 0x62]

  const TO_RELATIVE := Request(NewPath, RELATIVE, false, false)

  const RESULT: Loaded<()> := Loaded((), RESOLVED, false, CONTENT)

  function SaveToRelative(o: Oracle, w: World, torrent: Loaded<()>): Run<SaveOutcome<()>> {
    SaveRun(o, w, torrent, TO_RELATIVE, (d: ()) => Encoding(CONTENT), RootNames())
  }

  lemma FirstSaveToRelative(o: Oracle)
    requires NoFaults(o) && NeverCancelled(o)
    ensures var first := SaveToRelative(o, EXAMPLE_DISK, EXAMPLE_TORRENT);
            && first.value.result == Some(Saved(true, RESULT))
            && first.world.nodes == map[SOURCE := Regular(CONTENT), RESOLVED := Regular(CONTENT)]
  {
    hide SaveRun, Abandoned, Usable;
    var encode := (d: ()) => Encoding(CONTENT);
    RootNamesUsable(EXAMPLE_DISK.nodes);
    assert [0x2F] + RELATIVE == RESOLVED;
    assert TargetOf(SOURCE, TO_RELATIVE, RootNames()) == Some(RESOLVED);
    assert Committable(EXAMPLE_TORRENT, TO_RELATIVE, RootNames(), EXAMPLE_DISK.nodes);
    SaveSucceedsIff(o, EXAMPLE_DISK, EXAMPLE_TORRENT, TO_RELATIVE, encode, RootNames());
    SaveLeaves(o, EXAMPLE_DISK, EXAMPLE_TORRENT, TO_RELATIVE, encode, RootNames());
  }

  /** The torrent of one byte is saved to "b"; saving the result to "b" again fails, whatever happens. */
  lemma RelativeDestinationRun(o: Oracle, later: Oracle)
    requires NoFaults(o) && NeverCancelled(o)
    ensures var first := SaveToRelative(o, EXAMPLE_DISK, EXAMPLE_TORRENT);
            && first.value.result == Some(Saved(true, RESULT))
            && SaveToRelative(later, first.world, RESULT).value.result.None?
  {
    hide SaveRun, Usable;
    var encode := (d: ()) => Encoding(CONTENT);
    FirstSaveToRelative(o);
    RootNamesUsable(EXAMPLE_DISK.nodes);
    SaveLeaves(o, EXAMPLE_DISK, EXAMPLE_TORRENT, TO_RELATIVE, encode, RootNames());
    var first := SaveToRelative(o, EXAMPLE_DISK, EXAMPLE_TORRENT).world;
    RootNamesUsable(first.nodes);
    UnrecognisedRepeatFails(EXAMPLE_TORRENT, TO_RELATIVE, encode, RootNames(), EXAMPLE_DISK.nodes, RESULT, later,
                            first);
  }

  lemma RootNamesUsable(nodes: map<Path, Node>)
    requires forall p :: p in nodes ==> |p| == 2
    ensures Usable(RootNames(), nodes)
  {
    forall p ensures RootNames().tempOf(p) !in nodes && RootNames().tempOf(p) != RootNames().backupOf(p) {
      assert |RootNames().tempOf(p)| == |p| + 21 && |RootNames().backupOf(p)| == |p| + 6;
    }
  }
}
