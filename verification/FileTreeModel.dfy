/**
  Directory aggregates of gui/FileTreeModel.cpp: counters that are updated incrementally as file
  states change. The Qt tree (rows, icons, sizes, signals) is not part of the model.
*/
module FileTreeModel {
  import opened Wrappers
  import opened ByteStrings
  import opened VerificationReport

  datatype Phase = NotChecked | Checking | Checked | MismatchDetected | Final | Cancelled | Interrupted

  datatype FileState = FileState(expected: nat, hashed: nat, verified: nat, mismatched: nat,
                                 findings: set<Finding>, phase: Phase)

  /** The counters of a directory, and the findings that occur below it. */
  datatype Summary = Summary(
    expected: nat, hashed: nat, verified: nat, mismatched: nat, participating: nat, issues: nat,
    checking: nat, checked: nat, final: nat, mismatches: nat, cancelled: nat, interrupted: nat,
    findingCounts: FindingCounts, findings: set<Finding>)

  /** One count for each finding, in the order of FINDINGS. */
  type FindingCounts = c: seq<nat> | |c| == 7 witness [0, 0, 0, 0, 0, 0, 0]

  datatype Counter =
    | ExpectedBytes | HashedBytes | VerifiedBytes | MismatchedBytes | Participating | Issues
    | CheckingFiles | CheckedFiles | FinalFiles | MismatchFiles | CancelledFiles | InterruptedFiles
    | WithFinding(finding: Finding)

  function Get(s: Summary, c: Counter): nat {
    match c
    case ExpectedBytes => s.expected
    case HashedBytes => s.hashed
    case VerifiedBytes => s.verified
    case MismatchedBytes => s.mismatched
    case Participating => s.participating
    case Issues => s.issues
    case CheckingFiles => s.checking
    case CheckedFiles => s.checked
    case FinalFiles => s.final
    case MismatchFiles => s.mismatches
    case CancelledFiles => s.cancelled
    case InterruptedFiles => s.interrupted
    case WithFinding(f) => s.findingCounts[Position(f)]
  }

  function One(b: bool): nat { if b then 1 else 0 }

  /** What one file contributes to a counter of each directory above it. */
  function Contribution(s: FileState, c: Counter): nat {
    match c
    case ExpectedBytes => s.expected
    case HashedBytes => s.hashed
    case VerifiedBytes => s.verified
    case MismatchedBytes => s.mismatched
    case Participating => 1
    case Issues => One(s.phase == Final && s.findings != {})
    case CheckingFiles => One(s.phase == Checking)
    case CheckedFiles => One(s.phase == Checked)
    case FinalFiles => One(s.phase == Final)
    case MismatchFiles => One(s.phase == MismatchDetected)
    case CancelledFiles => One(s.phase == Cancelled)
    case InterruptedFiles => One(s.phase == Interrupted)
    case WithFinding(f) => One(f in s.findings)
  }

  const FINDINGS: seq<Finding> :=
    [Missing, NotRegularFile, LengthMismatch, HashMismatch, SharedPieceMismatch, SymlinkMissing, SymlinkTargetMismatch]

  /** Where a finding stands in FINDINGS. */
  function Position(f: Finding): (i: nat)
    ensures i < 7 && FINDINGS[i] == f
  {
    match f
    case Missing => 0
    case NotRegularFile => 1
    case LengthMismatch => 2
    case HashMismatch => 3
    case SharedPieceMismatch => 4
    case SymlinkMissing => 5
    case SymlinkTargetMismatch => 6
  }

  lemma PositionIsUnique(i: nat)
    requires i < 7
    ensures Position(FINDINGS[i]) == i
  {
  }

  const EMPTY := Summary(0, 0, 0, 0, 0, 0, 0, 0, 0, 0, 0, 0, [0, 0, 0, 0, 0, 0, 0], {})

  // ----- sums over files ------------------------------------------------------------------------------

  /** A directory is above a path: the root, or the path up to one of its slashes. */
  predicate IsAbove(directory: Bytes, path: Bytes) {
    directory == [] || (|directory| < |path| && path[..|directory|] == directory && path[|directory|] == SLASH)
  }

  /** Sum of a counter over the files below a directory. */
  ghost function SumBelow(files: map<Bytes, FileState>, directory: Bytes, c: Counter): nat
    decreases |files|
  {
    if files == map[] then 0
    else
      var path :| path in files;
      assert |(files - {path}).Keys| < |files.Keys| by { assert (files - {path}).Keys == files.Keys - {path}; }
      SumBelow(files - {path}, directory, c) + if IsAbove(directory, path) then Contribution(files[path], c) else 0
  }

  /** The sum can be taken apart at any file. */
  lemma {:induction false} SumWithout(files: map<Bytes, FileState>, directory: Bytes, c: Counter, path: Bytes)
    requires path in files
    ensures SumBelow(files, directory, c)
         == SumBelow(files - {path}, directory, c)
            + if IsAbove(directory, path) then Contribution(files[path], c) else 0
    decreases |files|
  {
    var chosen :| chosen in files
      && SumBelow(files, directory, c) == SumBelow(files - {chosen}, directory, c)
           + if IsAbove(directory, chosen) then Contribution(files[chosen], c) else 0;
    if chosen != path {
      assert (files - {chosen}).Keys == files.Keys - {chosen};
      assert (files - {path}).Keys == files.Keys - {path};
      SumWithout(files - {chosen}, directory, c, path);
      SumWithout(files - {path}, directory, c, chosen);
      assert files - {chosen} - {path} == files - {path} - {chosen};
    }
  }

  /** Replacing or adding one file. */
  lemma {:induction false} SumWith(files: map<Bytes, FileState>, directory: Bytes, c: Counter, path: Bytes,
                                   s: FileState)
    ensures SumBelow(files[path := s], directory, c)
            + (if path in files && IsAbove(directory, path) then Contribution(files[path], c) else 0)
         == SumBelow(files, directory, c) + if IsAbove(directory, path) then Contribution(s, c) else 0
  {
    SumWithout(files[path := s], directory, c, path);
    if path in files {
      SumWithout(files, directory, c, path);
      assert files[path := s] - {path} == files - {path};
    } else {
      assert files[path := s] - {path} == files;
    }
  }

  // ----- one summary -----------------------------------------------------------------------------------

  predicate FindingsShown(s: Summary) {
    forall f :: f in s.findings <==> s.findingCounts[Position(f)] > 0
  }

  function Shifted(total: nat, value: nat, up: bool): nat
    requires up || value <= total
  {
    if up then total + value else total - value
  }

  /** The state was added to the summary before, so taking it away does not underflow. */
  ghost predicate Holds(s: Summary, state: FileState) {
    forall c :: Contribution(state, c) <= Get(s, c)
  }

  /** The state can be taken from each field it was added to. */
  lemma FieldsHold(s: Summary, state: FileState)
    requires Holds(s, state)
    ensures state.expected <= s.expected && state.hashed <= s.hashed && state.verified <= s.verified
    ensures state.mismatched <= s.mismatched && 1 <= s.participating
    ensures One(state.phase == Checking) <= s.checking && One(state.phase == Checked) <= s.checked
    ensures One(state.phase == MismatchDetected) <= s.mismatches && One(state.phase == Final) <= s.final
    ensures One(state.phase == Final && state.findings != {}) <= s.issues
    ensures One(state.phase == Cancelled) <= s.cancelled && One(state.phase == Interrupted) <= s.interrupted
    ensures forall f :: One(f in state.findings) <= s.findingCounts[Position(f)]
  {
    assert Contribution(state, ExpectedBytes) <= Get(s, ExpectedBytes);
    assert Contribution(state, HashedBytes) <= Get(s, HashedBytes);
    assert Contribution(state, VerifiedBytes) <= Get(s, VerifiedBytes);
    assert Contribution(state, MismatchedBytes) <= Get(s, MismatchedBytes);
    assert Contribution(state, Participating) <= Get(s, Participating);
    assert Contribution(state, Issues) <= Get(s, Issues);
    assert Contribution(state, CheckingFiles) <= Get(s, CheckingFiles);
    assert Contribution(state, CheckedFiles) <= Get(s, CheckedFiles);
    assert Contribution(state, FinalFiles) <= Get(s, FinalFiles);
    assert Contribution(state, MismatchFiles) <= Get(s, MismatchFiles);
    assert Contribution(state, CancelledFiles) <= Get(s, CancelledFiles);
    assert Contribution(state, InterruptedFiles) <= Get(s, InterruptedFiles);
    forall f ensures One(f in state.findings) <= s.findingCounts[Position(f)] {
      assert Contribution(state, WithFinding(f)) <= Get(s, WithFinding(f));
    }
  }

  /** The switch over the phase. */
  method AddPhase(s: Summary, state: FileState, up: bool) returns (r: Summary)
    requires up || Holds(s, state)
    ensures r == s.(checking := r.checking, checked := r.checked, mismatches := r.mismatches, final := r.final,
                    issues := r.issues, cancelled := r.cancelled, interrupted := r.interrupted)
    ensures r.checking == s.checking + Delta(One(state.phase == Checking), up)
    ensures r.checked == s.checked + Delta(One(state.phase == Checked), up)
    ensures r.mismatches == s.mismatches + Delta(One(state.phase == MismatchDetected), up)
    ensures r.final == s.final + Delta(One(state.phase == Final), up)
    ensures r.issues == s.issues + Delta(One(state.phase == Final && state.findings != {}), up)
    ensures r.cancelled == s.cancelled + Delta(One(state.phase == Cancelled), up)
    ensures r.interrupted == s.interrupted + Delta(One(state.phase == Interrupted), up)
  {
    if !up { FieldsHold(s, state); }
    r := s;
    match state.phase {
      case Checking => r := r.(checking := Shifted(r.checking, 1, up));
      case Checked => r := r.(checked := Shifted(r.checked, 1, up));
      case MismatchDetected => r := r.(mismatches := Shifted(r.mismatches, 1, up));
      case Final =>
        r := r.(final := Shifted(r.final, 1, up));
        if state.findings != {} { r := r.(issues := Shifted(r.issues, 1, up)); }
      case Cancelled => r := r.(cancelled := Shifted(r.cancelled, 1, up));
      case Interrupted => r := r.(interrupted := Shifted(r.interrupted, 1, up));
      case NotChecked =>
    }
  }

  function Delta(value: nat, up: bool): int {
    var amount: int := value;
    if up then amount else -amount
  }

  /** The loop over the finding counts. */
  method AddFindings(counts: FindingCounts, findings: set<Finding>, up: bool) returns (r: FindingCounts)
    requires up || forall f :: One(f in findings) <= counts[Position(f)]
    ensures forall f :: r[Position(f)] == counts[Position(f)] + Delta(One(f in findings), up)
  {
    r := counts;
    for index := 0 to 7
      invariant forall i :: 0 <= i < index ==> r[i] == counts[i] + Delta(One(FINDINGS[i] in findings), up)
      invariant forall i :: index <= i < 7 ==> r[i] == counts[i]
    {
      PositionIsUnique(index);
      if FINDINGS[index] in findings {
        assert up || One(FINDINGS[index] in findings) <= counts[Position(FINDINGS[index])];
        r := r[index := Shifted(r[index], 1, up)];
      }
    }
  }

  /** The loop that rebuilds the findings of a directory from the counts. */
  method ShowFindings(counts: FindingCounts) returns (findings: set<Finding>)
    ensures forall f :: f in findings <==> counts[Position(f)] > 0
  {
    findings := {};
    for index := 0 to 7
      invariant forall f :: f in findings <==> Position(f) < index && counts[Position(f)] > 0
    {
      PositionIsUnique(index);
      if counts[index] > 0 { findings := findings + {FINDINGS[index]}; }
    }
  }

  /** add_status with direction 1 or -1. */
  method AddStatus(s: Summary, state: FileState, up: bool) returns (r: Summary)
    requires up || Holds(s, state)
    ensures forall c :: Get(r, c) == Get(s, c) + Delta(Contribution(state, c), up)
    ensures FindingsShown(r)
  {
    if !up { FieldsHold(s, state); }
    var phased := AddPhase(s, state, up);
    var counts := AddFindings(s.findingCounts, state.findings, up);
    var findings := ShowFindings(counts);
    r := phased.(expected := Shifted(s.expected, state.expected, up), hashed := Shifted(s.hashed, state.hashed, up),
                 verified := Shifted(s.verified, state.verified, up),
                 mismatched := Shifted(s.mismatched, state.mismatched, up),
                 participating := Shifted(s.participating, 1, up),
                 findingCounts := counts, findings := findings);
    forall c ensures Get(r, c) == Get(s, c) + Delta(Contribution(state, c), up) {
      match c
      case WithFinding(f) =>
      case _ =>
    }
  }

  // ----- the invariant of the model -------------------------------------------------------------------------

  /** What LogicalPath guarantees: non-empty segments, so no slash at an end and no two in a row. */
  predicate WellFormedPath(path: Bytes) {
    && path != [] && path[0] != SLASH && path[|path| - 1] != SLASH
    && forall i :: 0 <= i < |path| - 1 ==> !(path[i] == SLASH && path[i + 1] == SLASH)
  }

  /** A directory's counters are the sums over the current states of the files below it. */
  ghost predicate SummaryIsRight(s: Summary, files: map<Bytes, FileState>, directory: Bytes) {
    FindingsShown(s) && forall c :: Get(s, c) == SumBelow(files, directory, c)
  }

  ghost predicate DirectoriesExist(path: Bytes, directories: map<Bytes, Summary>) {
    forall d: Bytes :: IsAbove(d, path) ==> d in directories
  }

  ghost predicate AggregatesAreRight(files: map<Bytes, FileState>, directories: map<Bytes, Summary>) {
    && [] in directories
    && (forall path :: path in files ==> WellFormedPath(path) && DirectoriesExist(path, directories))
    && (forall d :: d in directories ==> SummaryIsRight(directories[d], files, d))
  }

  lemma {:induction false} NothingBelow(files: map<Bytes, FileState>, d: Bytes, c: Counter)
    requires forall path :: path in files ==> !IsAbove(d, path)
    ensures SumBelow(files, d, c) == 0
    decreases |files|
  {
    if files != map[] {
      var path :| path in files;
      SumWithout(files, d, c, path);
      assert (files - {path}).Keys == files.Keys - {path};
      NothingBelow(files - {path}, d, c);
    }
  }

  lemma EmptyIsRight(files: map<Bytes, FileState>, d: Bytes)
    requires forall path :: path in files ==> !IsAbove(d, path)
    ensures SummaryIsRight(EMPTY, files, d)
  {
    forall c ensures Get(EMPTY, c) == SumBelow(files, d, c) { NothingBelow(files, d, c); }
  }

  /** A new directory has no files below it yet. */
  lemma NewDirectoryKeeps(files: map<Bytes, FileState>, directories: map<Bytes, Summary>, d: Bytes)
    requires AggregatesAreRight(files, directories) && d !in directories
    ensures AggregatesAreRight(files, directories[d := EMPTY])
  {
    hide SumBelow, Get, FindingsShown, IsAbove;
    forall path | path in files ensures !IsAbove(d, path) && DirectoriesExist(path, directories[d := EMPTY]) {
      assert DirectoriesExist(path, directories);
    }
    EmptyIsRight(files, d);
  }

  /** How a summary changes when a file enters, or when its state is replaced. */
  ghost predicate Entered(before: Summary, after: Summary, state: FileState) {
    FindingsShown(after) && forall c :: Get(after, c) == Get(before, c) + Contribution(state, c)
  }

  ghost predicate Replaced(before: Summary, after: Summary, previous: FileState, current: FileState) {
    && FindingsShown(after)
    && forall c :: Get(after, c) + Contribution(previous, c) == Get(before, c) + Contribution(current, c)
  }

  lemma EnteredIsRight(files: map<Bytes, FileState>, d: Bytes, before: Summary, after: Summary, path: Bytes,
                       state: FileState)
    requires path !in files && SummaryIsRight(before, files, d)
    requires if IsAbove(d, path) then Entered(before, after, state) else after == before
    ensures SummaryIsRight(after, files[path := state], d)
  {
    hide SumBelow, FindingsShown, Contribution, Get;
    forall c ensures Get(after, c) == SumBelow(files[path := state], d, c) { SumWith(files, d, c, path, state); }
  }

  lemma ReplacedIsRight(files: map<Bytes, FileState>, d: Bytes, before: Summary, after: Summary, path: Bytes,
                        state: FileState)
    requires path in files && SummaryIsRight(before, files, d)
    requires if IsAbove(d, path) then Replaced(before, after, files[path], state) else after == before
    ensures SummaryIsRight(after, files[path := state], d)
  {
    hide SumBelow, FindingsShown, Contribution, Get;
    forall c ensures Get(after, c) == SumBelow(files[path := state], d, c) { SumWith(files, d, c, path, state); }
  }

  /** The state of a file is part of every summary above it, so it can be taken away again. */
  lemma {:induction false} StateIsHeld(files: map<Bytes, FileState>, d: Bytes, s: Summary, path: Bytes)
    requires path in files && IsAbove(d, path) && SummaryIsRight(s, files, d)
    ensures Holds(s, files[path])
  {
    hide SumBelow, FindingsShown, Contribution, Get;
    forall c ensures Contribution(files[path], c) <= Get(s, c) { SumWithout(files, d, c, path); }
  }

  /** A directory above a path is known by its length. */
  lemma AboveByLength(d: Bytes, path: Bytes)
    requires IsAbove(d, path)
    ensures |d| <= |path| && d == path[..|d|] && (d != [] ==> |d| < |path| && path[|d|] == SLASH)
  {
  }

  // ----- operations on one file --------------------------------------------------------------------------------

  datatype Entry = Entry(path: Bytes, length: nat, padding: bool)

  datatype FileCounts = FileCounts(path: Bytes, expected: nat, hashed: nat, verified: nat, mismatched: nat,
                                   findings: set<Finding>)

  function Fresh(length: nat): FileState { FileState(length, 0, 0, 0, {}, NotChecked) }

  function WithCounts(s: FileState, u: FileCounts): FileState {
    s.(expected := u.expected, hashed := u.hashed, verified := u.verified, mismatched := u.mismatched)
  }

  /** A progress snapshot moves a file's phase; with nothing hashed the phase stays. */
  function Progressed(s: FileState, u: FileCounts): FileState {
    WithCounts(s, u).(phase :=
      if u.mismatched > 0 then MismatchDetected
      else if u.expected > 0 && u.hashed >= u.expected then Checked
      else if u.hashed > 0 then Checking
      else s.phase)
  }

  function Finalized(s: FileState, u: FileCounts): FileState {
    WithCounts(s, u).(findings := u.findings, phase := Final)
  }

  /** Updates of the first `n` files of a snapshot or report; unknown paths are skipped. */
  function Updated(files: map<Bytes, FileState>, updates: seq<FileCounts>, n: nat, final: bool): map<Bytes, FileState>
    requires n <= |updates|
  {
    if n == 0 then files
    else
      var before := Updated(files, updates, n - 1, final);
      var u := updates[n - 1];
      if u.path !in before then before
      else before[u.path := if final then Finalized(before[u.path], u) else Progressed(before[u.path], u)]
  }

  /** The first non-padding file of each path. */
  function FirstFiles(entries: seq<Entry>, n: nat): map<Bytes, FileState>
    requires n <= |entries|
  {
    if n == 0 then map[]
    else
      var before := FirstFiles(entries, n - 1);
      var e := entries[n - 1];
      if e.padding || e.path in before then before else before[e.path := Fresh(e.length)]
  }

  function StoppedState(s: FileState, phase: Phase): FileState {
    if s.phase == Final then s else s.(phase := phase)
  }

  // ----- the model --------------------------------------------------------------------------------------------------

  class Model {
    const verifyMode: bool
    var files: map<Bytes, FileState>
    var directories: map<Bytes, Summary>
    var lastSequence: Option<nat>

    ghost predicate Valid()
      reads this
    {
      AggregatesAreRight(files, directories)
    }

    constructor (verifyMode: bool)
      ensures Valid() && files == map[] && this.verifyMode == verifyMode
    {
      this.verifyMode := verifyMode;
      files, directories, lastSequence := map[], map[[] := EMPTY], None;
      new;
      EmptyIsRight(files, []);
    }

    static method FindSlash(path: Bytes, from: nat) returns (at: nat)
      requires from <= |path|
      ensures from <= at <= |path| && (at < |path| ==> path[at] == SLASH)
      ensures forall i :: from <= i < at ==> path[i] != SLASH
    {
      at := from;
      while at < |path| && path[at] != SLASH
        invariant from <= at <= |path| && forall i :: from <= i < at ==> path[i] != SLASH
      {
        at := at + 1;
      }
    }

    /** add_to for one directory of add_status_to_aggregates. */
    method AddTo(directory: Bytes, state: FileState)
      modifies this`directories
      ensures directories.Keys == old(directories).Keys
      ensures forall d :: d in directories ==>
                if d == directory then Entered(old(directories)[d], directories[d], state)
                else directories[d] == old(directories)[d]
    {
      if directory in directories {
        var summary := AddStatus(directories[directory], state, true);
        directories := directories[directory := summary];
      }
    }

    /** add_status_to_aggregates: the root, and the path up to each slash. */
    method AddStatusToAggregates(path: Bytes, state: FileState)
      requires WellFormedPath(path)
      modifies this`directories
      ensures directories.Keys == old(directories).Keys
      ensures forall d :: d in directories ==>
                if IsAbove(d, path) then Entered(old(directories)[d], directories[d], state)
                else directories[d] == old(directories)[d]
    {
      hide Entered;
      AddTo([], state);
      var separator := FindSlash(path, 0);
      while separator < |path|
        invariant separator <= |path| && (separator < |path| ==> path[separator] == SLASH && separator > 0)
        invariant directories.Keys == old(directories).Keys
        invariant forall d :: d in directories ==>
                    if IsAbove(d, path) && |d| < separator then Entered(old(directories)[d], directories[d], state)
                    else directories[d] == old(directories)[d]
        decreases |path| - separator
      {
        assert IsAbove(path[..separator], path);
        AddTo(path[..separator], state);
        separator := FindSlash(path, separator + 1);
      }
    }

    /** update for one directory of update_status_aggregates. */
    method UpdateOne(directory: Bytes, previous: FileState, current: FileState)
      requires directory in directories ==> Holds(directories[directory], previous)
      modifies this`directories
      ensures directories.Keys == old(directories).Keys
      ensures forall d :: d in directories ==>
                if d == directory then Replaced(old(directories)[d], directories[d], previous, current)
                else directories[d] == old(directories)[d]
    {
      if directory in directories {
        var without := AddStatus(directories[directory], previous, false);
        var summary := AddStatus(without, current, true);
        directories := directories[directory := summary];
      }
    }

    /** update_status_aggregates. */
    method UpdateStatusAggregates(path: Bytes, previous: FileState, current: FileState)
      requires WellFormedPath(path)
      requires forall d :: d in directories && IsAbove(d, path) ==> Holds(directories[d], previous)
      modifies this`directories
      ensures directories.Keys == old(directories).Keys
      ensures forall d :: d in directories ==>
                if IsAbove(d, path) then Replaced(old(directories)[d], directories[d], previous, current)
                else directories[d] == old(directories)[d]
    {
      hide Replaced, Holds;
      assert IsAbove([], path);
      UpdateOne([], previous, current);
      var separator := FindSlash(path, 0);
      while separator < |path|
        invariant separator <= |path| && (separator < |path| ==> path[separator] == SLASH && separator > 0)
        invariant directories.Keys == old(directories).Keys
        invariant forall d :: d in directories ==>
                    if IsAbove(d, path) && |d| < separator
                    then Replaced(old(directories)[d], directories[d], previous, current)
                    else directories[d] == old(directories)[d]
        decreases |path| - separator
      {
        assert IsAbove(path[..separator], path);
        UpdateOne(path[..separator], previous, current);
        separator := FindSlash(path, separator + 1);
      }
    }

    /** One file gets a new state, and every directory above it follows. */
    method SetState(path: Bytes, state: FileState)
      requires Valid() && path in files
      modifies this`files, this`directories
      ensures Valid() && files == old(files)[path := state]
    {
      hide SummaryIsRight, Replaced, Holds, DirectoriesExist, IsAbove;
      var previous := files[path];
      ghost var before := directories;
      forall d | d in directories && IsAbove(d, path) ensures Holds(directories[d], previous) {
        StateIsHeld(files, d, directories[d], path);
      }
      files := files[path := state];
      UpdateStatusAggregates(path, previous, state);
      forall d | d in directories ensures SummaryIsRight(directories[d], files, d) {
        ReplacedIsRight(old(files), d, before[d], directories[d], path, state);
      }
      SameDirectories(old(files), before, directories);
    }

    /** The loop over the components of a path that creates the directories above it. */
    method EnsureDirectories(path: Bytes)
      requires Valid() && WellFormedPath(path)
      modifies this`directories
      ensures Valid() && DirectoriesExist(path, directories)
    {
      hide SummaryIsRight, AggregatesAreRight;
      var parentPrefix: Bytes := [];
      var componentStart: nat := 0;
      while componentStart < |path|
        invariant Valid() && componentStart <= |path|
        invariant componentStart > 0 ==> path[componentStart - 1] == SLASH && componentStart < |path|
        invariant parentPrefix == if componentStart == 0 then [] else path[..componentStart - 1]
        invariant forall d :: IsAbove(d, path) && |d| < |parentPrefix| ==> d in directories
        decreases |path| - componentStart
      {
        var separator := FindSlash(path, componentStart);
        var component := path[componentStart..separator];
        assert component != [];
        var childKey := if parentPrefix == [] then component else parentPrefix + [SLASH] + component;
        if componentStart > 0 {
          assert componentStart > 1 && parentPrefix != [];
          PathUpTo(path, componentStart, separator);
        }
        assert childKey == path[..separator];
        if parentPrefix !in directories {
          NewDirectoryKeeps(files, directories, parentPrefix);
          directories := directories[parentPrefix := EMPTY];
        }
        forall d | IsAbove(d, path) && |d| < separator ensures d in directories { AboveByLength(d, path); }
        if separator == |path| { break; }
        parentPrefix := childKey;
        componentStart := separator + 1;
      }
    }

    /** set_files: the first non-padding file of each path, every file at its initial state. */
    method SetFiles(entries: seq<Entry>, showPadding: bool)
      requires forall i :: 0 <= i < |entries| ==> WellFormedPath(entries[i].path)
      modifies this
      ensures Valid() && files == FirstFiles(entries, |entries|) && lastSequence == None
    {
      hide SummaryIsRight, AggregatesAreRight, WellFormedPath;
      files, directories, lastSequence := map[], map[[] := EMPTY], None;
      NoFilesIsRight();
      for i := 0 to |entries|
        invariant Valid() && files == FirstFiles(entries, i) && lastSequence == None
      {
        var entry := entries[i];
        if !showPadding && entry.padding { continue; }
        if !entry.padding && entry.path in files { continue; }
        EnsureDirectories(entry.path);
        if !entry.padding { AddFile(entry.path, entry.length); }
      }
    }

    method AddFile(path: Bytes, length: nat)
      requires Valid() && WellFormedPath(path) && path !in files && DirectoriesExist(path, directories)
      modifies this`files, this`directories
      ensures Valid() && files == old(files)[path := Fresh(length)]
    {
      hide SummaryIsRight, Entered, DirectoriesExist, IsAbove;
      ghost var before := directories;
      files := files[path := Fresh(length)];
      AddStatusToAggregates(path, Fresh(length));
      forall d | d in directories ensures SummaryIsRight(directories[d], files, d) {
        EnteredIsRight(old(files), d, before[d], directories[d], path, Fresh(length));
      }
      SameDirectories(old(files), before, directories);
      assert DirectoriesExist(path, directories) by {
        SameDirectories(map[path := Fresh(length)], before, directories);
      }
    }

    /** reset_verification: every file back to its initial state, every counter rebuilt from zero. */
    method ResetVerification()
      requires Valid()
      modifies this
      ensures Valid()
      ensures files == if verifyMode then map p | p in old(files) :: Fresh(old(files)[p].expected) else old(files)
    {
      if !verifyMode { return; }
      lastSequence := None;
      ghost var before := directories;
      files := map p | p in files :: Fresh(files[p].expected);
      directories := map d | d in directories :: EMPTY;
      RebuildAggregates(before);
    }

    /** The loop over all files that adds each of them to the cleared counters. */
    method RebuildAggregates(ghost before: map<Bytes, Summary>)
      requires directories.Keys == before.Keys && [] in directories
      requires forall d :: d in directories ==> directories[d] == EMPTY
      requires forall p :: p in files ==> WellFormedPath(p) && DirectoriesExist(p, before)
      modifies this`directories
      ensures Valid()
    {
      hide SummaryIsRight, Entered, DirectoriesExist, IsAbove, WellFormedPath;
      var remaining := files.Keys;
      ghost var done: map<Bytes, FileState> := map[];
      forall d | d in directories ensures SummaryIsRight(directories[d], done, d) { EmptyIsRight(done, d); }
      while remaining != {}
        invariant remaining <= files.Keys && directories.Keys == before.Keys
        invariant done == map p | p in files && p !in remaining :: files[p]
        invariant forall d :: d in directories ==> SummaryIsRight(directories[d], done, d)
        decreases remaining
      {
        var path :| path in remaining;
        ghost var last := directories;
        AddStatusToAggregates(path, files[path]);
        forall d | d in directories ensures SummaryIsRight(directories[d], done[path := files[path]], d) {
          EnteredIsRight(done, d, last[d], directories[d], path, files[path]);
        }
        done := done[path := files[path]];
        remaining := remaining - {path};
      }
      assert done == files;
      SameDirectories(files, before, directories);
    }

    method ApplyUpdates(updates: seq<FileCounts>, final: bool)
      requires Valid()
      modifies this`files, this`directories
      ensures Valid() && files == Updated(old(files), updates, |updates|, final)
    {
      hide AggregatesAreRight;
      for i := 0 to |updates|
        invariant Valid() && files == Updated(old(files), updates, i, final)
      {
        var u := updates[i];
        if u.path !in files { continue; }
        SetState(u.path, if final then Finalized(files[u.path], u) else Progressed(files[u.path], u));
      }
    }

    /** apply_verification_progress: stale snapshots are ignored. */
    method ApplyProgress(sequence: nat, updates: seq<FileCounts>)
      requires Valid()
      modifies this
      ensures Valid()
      ensures var accepted := verifyMode && (old(lastSequence).Some? ==> sequence > old(lastSequence).value);
              && files == (if accepted then Updated(old(files), updates, |updates|, false) else old(files))
              && lastSequence == (if accepted then Some(sequence) else old(lastSequence))
    {
      if !verifyMode || (lastSequence.Some? && sequence <= lastSequence.value) { return; }
      lastSequence := Some(sequence);
      ApplyUpdates(updates, false);
    }

    /** apply_verification_report. */
    method ApplyReport(updates: seq<FileCounts>)
      requires Valid()
      modifies this`files, this`directories
      ensures Valid()
      ensures files == if verifyMode then Updated(old(files), updates, |updates|, true) else old(files)
    {
      if !verifyMode { return; }
      ApplyUpdates(updates, true);
    }

    /** set_interrupted, for cancellation and for interruption: every file that is not final. */
    method SetInterrupted(phase: Phase)
      requires Valid()
      modifies this`files, this`directories
      ensures Valid()
      ensures files == if verifyMode then map p | p in old(files) :: StoppedState(old(files)[p], phase) else old(files)
    {
      hide AggregatesAreRight;
      if !verifyMode { return; }
      var remaining := files.Keys;
      while remaining != {}
        invariant Valid() && remaining <= files.Keys == old(files).Keys
        invariant forall p :: p in files ==>
                    files[p] == if p in remaining then old(files)[p] else StoppedState(old(files)[p], phase)
        decreases remaining
      {
        var path :| path in remaining;
        if files[path].phase != Final { SetState(path, files[path].(phase := phase)); }
        remaining := remaining - {path};
      }
    }

    /** verification_totals: the root's counters are the totals over all files. */
    method VerificationTotals() returns (expected: nat, hashed: nat)
      requires Valid()
      ensures expected == SumBelow(files, [], ExpectedBytes) && hashed == SumBelow(files, [], HashedBytes)
    {
      assert SummaryIsRight(directories[[]], files, []);
      assert Get(directories[[]], ExpectedBytes) == SumBelow(files, [], ExpectedBytes);
      assert Get(directories[[]], HashedBytes) == SumBelow(files, [], HashedBytes);
      expected, hashed := directories[[]].expected, directories[[]].hashed;
    }
  }

  lemma PathUpTo(path: Bytes, start: nat, end: nat)
    requires 0 < start <= end <= |path| && path[start - 1] == SLASH
    ensures path[..start - 1] + [SLASH] + path[start..end] == path[..end]
  {
  }

  lemma NoFilesIsRight()
    ensures AggregatesAreRight(map[], map[[] := EMPTY])
  {
    EmptyIsRight(map[], []);
  }

  /** Whether the directories above a path exist only depends on which directories there are. */
  lemma SameDirectories(files: map<Bytes, FileState>, before: map<Bytes, Summary>, after: map<Bytes, Summary>)
    requires before.Keys == after.Keys
    ensures forall path :: path in files ==> (DirectoriesExist(path, before) <==> DirectoriesExist(path, after))
  {
    forall path | path in files ensures DirectoriesExist(path, before) <==> DirectoriesExist(path, after) {
      forall d: Bytes ensures d in before <==> d in after { assert d in before.Keys <==> d in after.Keys; }
    }
  }

  // ----- what a directory shows ---------------------------------------------------------------------------------

  /** finalized_status. */
  function ShownPhase(s: Summary): Option<Phase> {
    if s.participating == 0 then None
    else if s.issues > 0 || s.final == s.participating then Some(Final)
    else if s.mismatches > 0 then Some(MismatchDetected)
    else if s.interrupted > 0 then Some(Interrupted)
    else if s.cancelled > 0 then Some(Cancelled)
    else if s.checking > 0 || s.final > 0 || (0 < s.checked < s.participating) then Some(Checking)
    else if s.checked == s.participating then Some(Checked)
    else Some(NotChecked)
  }

  predicate SomeBelow(files: map<Bytes, FileState>, d: Bytes) { exists p :: p in files && IsAbove(d, p) }

  predicate AllBelowIn(files: map<Bytes, FileState>, d: Bytes, phase: Phase) {
    forall p :: p in files && IsAbove(d, p) ==> files[p].phase == phase
  }

  predicate OneOrNone(c: Counter) {
    || c.Issues? || c.CheckingFiles? || c.CheckedFiles? || c.FinalFiles? || c.MismatchFiles?
    || c.CancelledFiles? || c.InterruptedFiles?
  }

  /** Each file below a directory contributes `n` to a counter. */
  predicate EachCounts(files: map<Bytes, FileState>, d: Bytes, c: Counter, n: nat) {
    forall p :: p in files && IsAbove(d, p) ==> Contribution(files[p], c) == n
  }

  lemma {:induction false} CountIsZero(files: map<Bytes, FileState>, d: Bytes, c: Counter)
    ensures SumBelow(files, d, c) == 0 <==> EachCounts(files, d, c, 0)
    decreases |files|
  {
    hide SumBelow, Contribution, IsAbove;
    if files == map[] {
      NothingBelow(files, d, c);
    } else {
      var path :| path in files;
      var rest := files - {path};
      SumWithout(files, d, c, path);
      assert rest.Keys == files.Keys - {path};
      CountIsZero(rest, d, c);
      assert forall p :: p in files <==> p == path || p in rest;
    }
  }

  /** A counter of files is full when every file counts. */
  lemma {:induction false} CountIsFull(files: map<Bytes, FileState>, d: Bytes, c: Counter)
    requires OneOrNone(c)
    ensures SumBelow(files, d, c) <= SumBelow(files, d, Participating)
    ensures SumBelow(files, d, c) == SumBelow(files, d, Participating) <==> EachCounts(files, d, c, 1)
    decreases |files|
  {
    hide SumBelow, IsAbove;
    if files == map[] {
      NothingBelow(files, d, c);
      NothingBelow(files, d, Participating);
    } else {
      var path :| path in files;
      var rest := files - {path};
      SumWithout(files, d, c, path);
      SumWithout(files, d, Participating, path);
      assert rest.Keys == files.Keys - {path};
      CountIsFull(rest, d, c);
      assert Contribution(files[path], c) <= 1 && Contribution(files[path], Participating) == 1;
      hide Contribution;
      assert forall p :: p in files <==> p == path || p in rest;
    }
  }

  /** A directory without files below shows nothing. */
  lemma {:induction false} ShowsNothingIff(s: Summary, files: map<Bytes, FileState>, d: Bytes)
    requires SummaryIsRight(s, files, d)
    ensures ShownPhase(s) == None <==> !SomeBelow(files, d)
  {
    hide SumBelow, IsAbove, FindingsShown;
    CountersAre(s, files, d);
    CountIsZero(files, d, Participating);
  }

  /** A directory shows "checked" exactly when every file below it is checked. */
  lemma {:induction false} ShowsCheckedIff(s: Summary, files: map<Bytes, FileState>, d: Bytes)
    requires SummaryIsRight(s, files, d)
    ensures ShownPhase(s) == Some(Checked) <==> SomeBelow(files, d) && AllBelowIn(files, d, Checked)
  {
    ShowsNothingIff(s, files, d);
    hide SumBelow, IsAbove, FindingsShown, SomeBelow;
    CountersAre(s, files, d);
    CountIsFull(files, d, CheckedFiles);
    if EachCounts(files, d, CheckedFiles, 1) {
      OthersAreZero(files, d, Checked);
    }
    assert EachCounts(files, d, CheckedFiles, 1) <==> AllBelowIn(files, d, Checked);
  }

  predicate InPhaseBelow(files: map<Bytes, FileState>, d: Bytes, phase: Phase) {
    exists p :: p in files && IsAbove(d, p) && files[p].phase == phase
  }

  lemma CountedWhenBelow(files: map<Bytes, FileState>, d: Bytes)
    ensures SumBelow(files, d, CheckingFiles) > 0 <==> InPhaseBelow(files, d, Checking)
    ensures SumBelow(files, d, CheckedFiles) > 0 <==> InPhaseBelow(files, d, Checked)
    ensures SumBelow(files, d, FinalFiles) > 0 <==> InPhaseBelow(files, d, Final)
    ensures SumBelow(files, d, MismatchFiles) > 0 <==> InPhaseBelow(files, d, MismatchDetected)
    ensures SumBelow(files, d, CancelledFiles) > 0 <==> InPhaseBelow(files, d, Cancelled)
    ensures SumBelow(files, d, InterruptedFiles) > 0 <==> InPhaseBelow(files, d, Interrupted)
  {
    hide SumBelow, IsAbove, InPhaseBelow;
    CountedIff(files, d, CheckingFiles, Checking);
    CountedIff(files, d, CheckedFiles, Checked);
    CountedIff(files, d, FinalFiles, Final);
    CountedIff(files, d, MismatchFiles, MismatchDetected);
    CountedIff(files, d, CancelledFiles, Cancelled);
    CountedIff(files, d, InterruptedFiles, Interrupted);
  }

  lemma CountedIff(files: map<Bytes, FileState>, d: Bytes, c: Counter, phase: Phase)
    requires forall s :: Contribution(s, c) == One(s.phase == phase)
    ensures SumBelow(files, d, c) > 0 <==> InPhaseBelow(files, d, phase)
  {
    hide SumBelow, IsAbove, Contribution;
    CountIsZero(files, d, c);
  }

  /** When all files are in one phase, the counters of the other phases are zero. */
  lemma OthersAreZero(files: map<Bytes, FileState>, d: Bytes, phase: Phase)
    requires AllBelowIn(files, d, phase)
    ensures phase != Checking ==> SumBelow(files, d, CheckingFiles) == 0
    ensures phase != Checked ==> SumBelow(files, d, CheckedFiles) == 0
    ensures phase != Final ==> SumBelow(files, d, FinalFiles) == 0 && SumBelow(files, d, Issues) == 0
    ensures phase != MismatchDetected ==> SumBelow(files, d, MismatchFiles) == 0
    ensures phase != Cancelled ==> SumBelow(files, d, CancelledFiles) == 0
    ensures phase != Interrupted ==> SumBelow(files, d, InterruptedFiles) == 0
  {
    hide SumBelow, IsAbove;
    CountedWhenBelow(files, d);
    CountIsZero(files, d, Issues);
  }

  lemma AllZeroMeansNotChecked(files: map<Bytes, FileState>, d: Bytes)
    requires SumBelow(files, d, CheckingFiles) == 0 && SumBelow(files, d, CheckedFiles) == 0
    requires SumBelow(files, d, FinalFiles) == 0 && SumBelow(files, d, MismatchFiles) == 0
    requires SumBelow(files, d, CancelledFiles) == 0 && SumBelow(files, d, InterruptedFiles) == 0
    ensures AllBelowIn(files, d, NotChecked)
  {
    hide SumBelow, IsAbove;
    CountedWhenBelow(files, d);
  }

  /** A directory shows "not checked" exactly when nothing happened to any file below it. */
  lemma {:induction false} ShowsNotCheckedIff(s: Summary, files: map<Bytes, FileState>, d: Bytes)
    requires SummaryIsRight(s, files, d)
    ensures ShownPhase(s) == Some(NotChecked) <==> SomeBelow(files, d) && AllBelowIn(files, d, NotChecked)
  {
    ShowsNothingIff(s, files, d);
    hide SumBelow, IsAbove, FindingsShown, SomeBelow, AllBelowIn;
    CountersAre(s, files, d);
    CountIsFull(files, d, CheckedFiles);
    if ShownPhase(s) == Some(NotChecked) { AllZeroMeansNotChecked(files, d); }
    if AllBelowIn(files, d, NotChecked) { OthersAreZero(files, d, NotChecked); }
  }

  /** A directory shows a final result exactly when all files have one, or one of them has a finding. */
  lemma {:induction false} ShowsFinalIff(s: Summary, files: map<Bytes, FileState>, d: Bytes)
    requires SummaryIsRight(s, files, d)
    ensures ShownPhase(s) == Some(Final) <==>
              SomeBelow(files, d) && (AllBelowIn(files, d, Final) || !EachCounts(files, d, Issues, 0))
  {
    ShowsNothingIff(s, files, d);
    hide SumBelow, IsAbove, FindingsShown, SomeBelow;
    CountersAre(s, files, d);
    CountIsFull(files, d, FinalFiles);
    CountIsFull(files, d, Issues);
    CountIsZero(files, d, Issues);
    assert EachCounts(files, d, FinalFiles, 1) <==> AllBelowIn(files, d, Final);
  }

  lemma CountersAre(s: Summary, files: map<Bytes, FileState>, d: Bytes)
    requires SummaryIsRight(s, files, d)
    ensures s.participating == SumBelow(files, d, Participating) && s.issues == SumBelow(files, d, Issues)
    ensures s.checking == SumBelow(files, d, CheckingFiles) && s.checked == SumBelow(files, d, CheckedFiles)
    ensures s.final == SumBelow(files, d, FinalFiles) && s.mismatches == SumBelow(files, d, MismatchFiles)
    ensures s.cancelled == SumBelow(files, d, CancelledFiles) && s.interrupted == SumBelow(files, d, InterruptedFiles)
  {
    hide SumBelow;
    assert Get(s, Participating) == SumBelow(files, d, Participating);
    assert Get(s, Issues) == SumBelow(files, d, Issues);
    assert Get(s, CheckingFiles) == SumBelow(files, d, CheckingFiles);
    assert Get(s, CheckedFiles) == SumBelow(files, d, CheckedFiles);
    assert Get(s, FinalFiles) == SumBelow(files, d, FinalFiles);
    assert Get(s, MismatchFiles) == SumBelow(files, d, MismatchFiles);
    assert Get(s, CancelledFiles) == SumBelow(files, d, CancelledFiles);
    assert Get(s, InterruptedFiles) == SumBelow(files, d, InterruptedFiles);
  }

  /** Among the other phases the worst below is shown: mismatched, interrupted, cancelled, then work in progress. */
  lemma {:induction false} ShowsWorst(s: Summary, files: map<Bytes, FileState>, d: Bytes)
    requires SummaryIsRight(s, files, d) && SomeBelow(files, d)
    requires !AllBelowIn(files, d, Final) && EachCounts(files, d, Issues, 0)
    ensures var some := (phase: Phase) => InPhaseBelow(files, d, phase);
            && (ShownPhase(s) == Some(MismatchDetected) <==> some(MismatchDetected))
            && (ShownPhase(s) == Some(Interrupted) <==> !some(MismatchDetected) && some(Interrupted))
            && (ShownPhase(s) == Some(Cancelled) <==> !some(MismatchDetected) && !some(Interrupted) && some(Cancelled))
            && (ShownPhase(s) == Some(Checking)
                <==> && !some(MismatchDetected) && !some(Interrupted) && !some(Cancelled)
                     && (some(Checking) || some(Final) || (some(Checked) && !AllBelowIn(files, d, Checked))))
  {
    ShowsFinalIff(s, files, d);
    ShowsNothingIff(s, files, d);
    hide SumBelow, IsAbove, FindingsShown, SomeBelow, InPhaseBelow, EachCounts;
    CountersAre(s, files, d);
    CountIsFull(files, d, CheckedFiles);
    CountedWhenBelow(files, d);
    AllCheckedIff(files, d);
  }

  lemma AllCheckedIff(files: map<Bytes, FileState>, d: Bytes)
    ensures EachCounts(files, d, CheckedFiles, 1) <==> AllBelowIn(files, d, Checked)
  {
    hide IsAbove;
  }

  /** A directory shows a finding exactly when a file below it has it. */
  lemma {:induction false} ShowsFindingIff(s: Summary, files: map<Bytes, FileState>, d: Bytes, f: Finding)
    requires SummaryIsRight(s, files, d)
    ensures f in s.findings <==> exists p :: p in files && IsAbove(d, p) && f in files[p].findings
  {
    hide SumBelow, IsAbove;
    assert Get(s, WithFinding(f)) == SumBelow(files, d, WithFinding(f));
    CountIsZero(files, d, WithFinding(f));
  }

  /** Field by field: what a new file below a directory adds to its counters. */
  lemma {:induction false} EnteringAdds(files: map<Bytes, FileState>, d: Bytes, path: Bytes, state: FileState,
                                        before: Summary, after: Summary)
    requires path !in files && IsAbove(d, path)
    requires SummaryIsRight(before, files, d) && SummaryIsRight(after, files[path := state], d)
    ensures after.expected == before.expected + state.expected && after.hashed == before.hashed + state.hashed
    ensures after.verified == before.verified + state.verified
    ensures after.mismatched == before.mismatched + state.mismatched
    ensures after.participating == before.participating + 1
    ensures after.issues == before.issues + if state.phase == Final && state.findings != {} then 1 else 0
    ensures after.checking == before.checking + if state.phase == Checking then 1 else 0
    ensures after.checked == before.checked + if state.phase == Checked then 1 else 0
    ensures after.final == before.final + if state.phase == Final then 1 else 0
    ensures after.mismatches == before.mismatches + if state.phase == MismatchDetected then 1 else 0
    ensures after.cancelled == before.cancelled + if state.phase == Cancelled then 1 else 0
    ensures after.interrupted == before.interrupted + if state.phase == Interrupted then 1 else 0
  {
    hide SumBelow, FindingsShown, IsAbove;
    forall c ensures Get(after, c) == Get(before, c) + Contribution(state, c) { SumWith(files, d, c, path, state); }
    CountersAre(before, files, d);
    CountersAre(after, files[path := state], d);
    assert Get(after, ExpectedBytes) == Get(before, ExpectedBytes) + Contribution(state, ExpectedBytes);
    assert Get(after, HashedBytes) == Get(before, HashedBytes) + Contribution(state, HashedBytes);
    assert Get(after, VerifiedBytes) == Get(before, VerifiedBytes) + Contribution(state, VerifiedBytes);
    assert Get(after, MismatchedBytes) == Get(before, MismatchedBytes) + Contribution(state, MismatchedBytes);
  }

  /** And a directory without files below has none. */
  lemma {:induction false} NothingBelowIsZero(files: map<Bytes, FileState>, d: Bytes, s: Summary)
    requires SummaryIsRight(s, files, d) && !SomeBelow(files, d)
    ensures s == EMPTY
  {
    hide SumBelow, IsAbove;
    forall c ensures Get(s, c) == 0 { NothingBelow(files, d, c); }
    assert Get(s, ExpectedBytes) == 0 && Get(s, HashedBytes) == 0 && Get(s, VerifiedBytes) == 0;
    assert Get(s, MismatchedBytes) == 0 && Get(s, Participating) == 0 && Get(s, Issues) == 0;
    assert Get(s, CheckingFiles) == 0 && Get(s, CheckedFiles) == 0 && Get(s, FinalFiles) == 0;
    assert Get(s, MismatchFiles) == 0 && Get(s, CancelledFiles) == 0 && Get(s, InterruptedFiles) == 0;
    forall i | 0 <= i < 7 ensures s.findingCounts[i] == 0 {
      PositionIsUnique(i);
      assert Get(s, WithFinding(FINDINGS[i])) == 0;
    }
  }

  // ----- what updates do ----------------------------------------------------------------------------------------

  /** Files no update names stay as they are, and no file appears. */
  lemma {:induction false} UnnamedStay(files: map<Bytes, FileState>, updates: seq<FileCounts>, n: nat, final: bool)
    requires n <= |updates|
    ensures Updated(files, updates, n, final).Keys == files.Keys
    ensures forall p :: p in files && (forall k :: 0 <= k < n ==> updates[k].path != p) ==>
              Updated(files, updates, n, final)[p] == files[p]
  {
    if n > 0 { UnnamedStay(files, updates, n - 1, final); }
  }

  /**
    The last update of a file decides: its counters are taken over; a report gives findings and makes the file
    final; a snapshot keeps the findings and gives the phase its counters say, or keeps it with nothing hashed.
  */
  lemma {:induction false} LastUpdateDecides(files: map<Bytes, FileState>, updates: seq<FileCounts>, n: nat,
                                             final: bool, k: nat)
    requires k < n <= |updates| && updates[k].path in files
    requires forall j :: k < j < n ==> updates[j].path != updates[k].path
    ensures Updated(files, updates, n, final).Keys == files.Keys
    ensures var u, s := updates[k], Updated(files, updates, n, final)[updates[k].path];
            && s.expected == u.expected && s.hashed == u.hashed && s.verified == u.verified
            && s.mismatched == u.mismatched
            && if final then s.phase == Final && s.findings == u.findings
               else
                 var before := Updated(files, updates, k, false);
                 && s.findings == files[u.path].findings
                 && (u.mismatched > 0 ==> s.phase == MismatchDetected)
                 && (u.mismatched == 0 && 0 < u.expected <= u.hashed ==> s.phase == Checked)
                 && (u.mismatched == 0 && 0 < u.hashed && (u.expected == 0 || u.hashed < u.expected) ==>
                       s.phase == Checking)
                 && (u.mismatched == 0 && u.hashed == 0 ==> u.path in before && s.phase == before[u.path].phase)
  {
    UnnamedStay(files, updates, n, final);
    if k < n - 1 {
      LastUpdateDecides(files, updates, n - 1, final, k);
    } else {
      UnnamedStay(files, updates, k, final);
      FindingsStay(files, updates, k);
    }
  }

  lemma {:induction false} FindingsStay(files: map<Bytes, FileState>, updates: seq<FileCounts>, n: nat)
    requires n <= |updates|
    ensures Updated(files, updates, n, false).Keys == files.Keys
    ensures forall p :: p in files ==> Updated(files, updates, n, false)[p].findings == files[p].findings
  {
    UnnamedStay(files, updates, n, false);
    if n > 0 { FindingsStay(files, updates, n - 1); }
  }

  /** A path is tracked exactly when an entry that is no padding has it, and starts with the first one's length. */
  lemma {:induction false} FirstEntryCounts(entries: seq<Entry>, n: nat, k: nat)
    requires k < n <= |entries|
    ensures !entries[k].padding ==> entries[k].path in FirstFiles(entries, n)
    ensures !entries[k].padding && (forall j :: 0 <= j < k && entries[j].path == entries[k].path ==> entries[j].padding)
        ==> FirstFiles(entries, n)[entries[k].path] == FileState(entries[k].length, 0, 0, 0, {}, NotChecked)
  {
    if k < n - 1 {
      FirstEntryCounts(entries, n - 1, k);
    } else if entries[k].path in FirstFiles(entries, k) {
      OnlyEntriesAreTracked(entries, k, entries[k].path);
    }
  }

  lemma {:induction false} OnlyEntriesAreTracked(entries: seq<Entry>, n: nat, path: Bytes)
    requires n <= |entries| && path in FirstFiles(entries, n)
    ensures exists j :: 0 <= j < n && entries[j].path == path && !entries[j].padding
  {
    if path in FirstFiles(entries, n - 1) { OnlyEntriesAreTracked(entries, n - 1, path); }
  }

  /** An interruption reaches every file without a final result and touches nothing but the phase. */
  lemma InterruptionKeepsResults(s: FileState, phase: Phase)
    ensures var stopped := StoppedState(s, phase);
            && (s.phase == Final ==> stopped == s) && (s.phase != Final ==> stopped.phase == phase)
            && stopped.(phase := s.phase) == s
  {
  }
}
