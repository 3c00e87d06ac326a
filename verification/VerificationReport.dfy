/** The final verification report of libtorrent_adapter.cpp. */
module VerificationReport {
  import opened Wrappers
  import opened VerificationTotals
  import opened VerificationLayouts

  datatype Finding =
    | Missing | NotRegularFile | LengthMismatch | HashMismatch | SharedPieceMismatch | SymlinkMissing
    | SymlinkTargetMismatch

  /** What the inspection of a file on disk found; at most one finding. */
  datatype Preflight = Preflight(hashable: nat, finding: Option<Finding>)

  datatype Verdict = AllVerified | SomeMismatched | Incomplete

  datatype FileResult = FileResult(expected: nat, counters: Counters, findings: set<Finding>)

  datatype Report = Report(verdict: Verdict, expected: nat, counters: Counters, files: seq<FileResult>)

  predicate MismatchFinding(p: Preflight) { p.finding == Some(SymlinkTargetMismatch) }

  predicate IncompleteFinding(p: Preflight) { p.finding.Some? && p.finding != Some(SymlinkTargetMismatch) }

  /** The reported files among the first `n`, before any piece is counted. */
  function Entries(files: seq<File>, preflight: seq<Preflight>, n: nat): (r: seq<FileResult>)
    requires n <= |files| == |preflight|
    ensures |r| == Reported(files, n)
  {
    if n == 0 then []
    else if files[n - 1].padding then Entries(files, preflight, n - 1)
    else
      Entries(files, preflight, n - 1) + [FileResult(files[n - 1].length, ZERO, FindingSet(preflight[n - 1].finding))]
  }

  function FindingSet(finding: Option<Finding>): set<Finding> {
    match finding case None => {} case Some(f) => {f}
  }

  /** Bytes of the reported files among the first `n`. */
  function ExpectedBytes(files: seq<File>, n: nat): nat
    requires n <= |files|
  {
    if n == 0 then 0 else ExpectedBytes(files, n - 1) + if files[n - 1].padding then 0 else files[n - 1].length
  }

  /** The states the report takes into account: those of hashable pieces. */
  function KnownStates(layouts: seq<Layout>, verified: seq<bool>): (r: seq<Option<PieceState>>)
    ensures |r| == |layouts|
  {
    seq(|layouts|, p requires 0 <= p < |layouts| =>
      if !layouts[p].hashable then None else if p < |verified| && verified[p] then Some(Verified) else Some(Mismatched))
  }

  predicate Touches(overlaps: seq<Overlap>, f: nat) {
    exists k :: 0 <= k < |overlaps| && overlaps[k].file == f
  }

  predicate MismatchedAt(states: seq<Option<PieceState>>, p: nat) {
    p < |states| && states[p] == Some(Mismatched)
  }

  /** What a mismatched piece is called depends on whether several overlaps share it. */
  function PieceFinding(layout: Layout): Finding {
    if |layout.overlaps| > 1 then SharedPieceMismatch else HashMismatch
  }

  /** Findings the mismatched pieces among the first `n` give a file. */
  ghost predicate FoundInPieces(layouts: seq<Layout>, states: seq<Option<PieceState>>, f: nat, n: nat, finding: Finding)
    requires n <= |layouts| == |states|
  {
    exists p ::
      && 0 <= p < n && MismatchedAt(states, p)
      && Touches(layouts[p].overlaps, f) && finding == PieceFinding(layouts[p])
  }

  // ----- verdict ----------------------------------------------------------------------------------------------

  ghost predicate IsIncomplete(files: seq<File>, preflight: seq<Preflight>, layouts: seq<Layout>)
    requires |files| == |preflight|
  {
    || (exists i :: 0 <= i < |files| && !files[i].padding && IncompleteFinding(preflight[i]))
    || (exists p :: 0 <= p < |layouts| && !layouts[p].hashable)
  }

  ghost predicate HasMismatch(files: seq<File>, preflight: seq<Preflight>, states: seq<Option<PieceState>>)
    requires |files| == |preflight|
  {
    || (exists i :: 0 <= i < |files| && !files[i].padding && MismatchFinding(preflight[i]))
    || (exists p: nat :: MismatchedAt(states, p))
  }

  /** The worst of all observations, in whatever order they were made. */
  ghost function WorstVerdict(files: seq<File>, preflight: seq<Preflight>, layouts: seq<Layout>,
                              states: seq<Option<PieceState>>): Verdict
    requires |files| == |preflight|
  {
    if IsIncomplete(files, preflight, layouts) then Incomplete
    else if HasMismatch(files, preflight, states) then SomeMismatched
    else AllVerified
  }

  function Worse(a: Verdict, b: Verdict): Verdict {
    if a.Incomplete? || b.Incomplete? then Incomplete
    else if a.SomeMismatched? || b.SomeMismatched? then SomeMismatched
    else AllVerified
  }

  ghost function FileVerdict(files: seq<File>, preflight: seq<Preflight>, n: nat): Verdict
    requires n <= |files| == |preflight|
  {
    if exists i :: 0 <= i < n && !files[i].padding && IncompleteFinding(preflight[i]) then Incomplete
    else if exists i :: 0 <= i < n && !files[i].padding && MismatchFinding(preflight[i]) then SomeMismatched
    else AllVerified
  }

  ghost function PieceVerdict(layouts: seq<Layout>, states: seq<Option<PieceState>>, n: nat): Verdict
    requires n <= |layouts|
  {
    if exists p :: 0 <= p < n && !layouts[p].hashable then Incomplete
    else if exists p: nat :: p < n && MismatchedAt(states, p) then SomeMismatched
    else AllVerified
  }

  lemma VerdictsCombine(files: seq<File>, preflight: seq<Preflight>, layouts: seq<Layout>,
                        states: seq<Option<PieceState>>)
    requires |files| == |preflight| && |layouts| == |states|
    ensures Worse(FileVerdict(files, preflight, |files|), PieceVerdict(layouts, states, |layouts|))
         == WorstVerdict(files, preflight, layouts, states)
  {
  }

  // ----- building the report -----------------------------------------------------------------------------------

  /** The loop over the files. */
  method FileEntries(files: seq<File>, preflight: seq<Preflight>) returns (report: Report)
    requires |files| == |preflight|
    ensures report.files == Entries(files, preflight, |files|)
    ensures report.expected == ExpectedBytes(files, |files|) && report.counters == ZERO
    ensures report.verdict == FileVerdict(files, preflight, |files|)
  {
    report := Report(AllVerified, 0, ZERO, []);
    for index := 0 to |files|
      invariant report.files == Entries(files, preflight, index)
      invariant report.expected == ExpectedBytes(files, index) && report.counters == ZERO
      invariant report.verdict == FileVerdict(files, preflight, index)
    {
      if files[index].padding { continue; }
      report := report.(expected := report.expected + files[index].length,
        files := report.files + [FileResult(files[index].length, ZERO, FindingSet(preflight[index].finding))]);
      if preflight[index].finding == Some(SymlinkTargetMismatch) {
        if report.verdict == AllVerified { report := report.(verdict := SomeMismatched); }
      } else if preflight[index].finding != None {
        report := report.(verdict := Incomplete);
      }
    }
  }

  function CountersOf(files: seq<FileResult>): (r: seq<Counters>)
    ensures |r| == |files|
  {
    seq(|files|, f requires 0 <= f < |files| => files[f].counters)
  }

  function AddTo(files: seq<FileResult>, f: nat, extra: Counters): seq<FileResult>
    requires f < |files|
  {
    files[f := files[f].(counters := Plus(files[f].counters, extra))]
  }

  lemma SumAfterAdd(files: seq<FileResult>, f: nat, extra: Counters)
    requires f < |files|
    ensures CountersOf(AddTo(files, f, extra)) == CountersOf(files)[f := Plus(CountersOf(files)[f], extra)]
    ensures SumOf(CountersOf(AddTo(files, f, extra))) == Plus(SumOf(CountersOf(files)), extra)
  {
    SumWithUpdate(CountersOf(files), f, extra);
    assert CountersOf(AddTo(files, f, extra)) == CountersOf(files)[f := Plus(CountersOf(files)[f], extra)];
  }

  predicate SameButCounters(before: seq<FileResult>, after: seq<FileResult>) {
    |after| == |before| && forall f :: 0 <= f < |before| ==> after[f] == before[f].(counters := after[f].counters)
  }

  /** The loop over the overlaps of one piece that adds up bytes. */
  method CountPiece(report: Report, overlaps: seq<Overlap>, state: PieceState) returns (r: Report)
    requires OverlapsInRange(overlaps, |report.files|) && report.counters == SumOf(CountersOf(report.files))
    ensures r == report.(counters := r.counters, files := r.files)
    ensures SameButCounters(report.files, r.files)
    ensures Credited(CountersOf(report.files), CountersOf(r.files), overlaps, state, |overlaps|)
    ensures r.counters == SumOf(CountersOf(r.files))
  {
    hide SumOf, CountersOf, Credited;
    r := report;
    NothingCredited(CountersOf(report.files), overlaps, state);
    for k := 0 to |overlaps|
      invariant r == report.(counters := r.counters, files := r.files)
      invariant SameButCounters(report.files, r.files)
      invariant Credited(CountersOf(report.files), CountersOf(r.files), overlaps, state, k)
      invariant r.counters == SumOf(CountersOf(r.files))
    {
      var f, extra := overlaps[k].file, Credit(overlaps[k].bytes, state);
      CreditStep(CountersOf(report.files), CountersOf(r.files), overlaps, state, k);
      SumAfterAdd(r.files, f, extra);
      r := r.(files := AddTo(r.files, f, extra), counters := Plus(r.counters, extra));
    }
  }

  /** The loop over the overlaps of a mismatched piece that records findings. */
  method MarkPiece(files: seq<FileResult>, overlaps: seq<Overlap>, finding: Finding) returns (r: seq<FileResult>)
    requires OverlapsInRange(overlaps, |files|)
    ensures |r| == |files|
    ensures forall f :: 0 <= f < |files| ==>
              r[f] == files[f].(findings := files[f].findings + if Touches(overlaps, f) then {finding} else {})
  {
    r := files;
    for k := 0 to |overlaps|
      invariant |r| == |files|
      invariant forall f :: 0 <= f < |files| ==>
                  r[f] == files[f].(findings := files[f].findings + if Touches(overlaps[..k], f) then {finding} else {})
    {
      var f := overlaps[k].file;
      assert overlaps[..k + 1] == overlaps[..k] + [overlaps[k]];
      forall g: nat ensures Touches(overlaps[..k + 1], g) <==> Touches(overlaps[..k], g) || g == f {
        if Touches(overlaps[..k], g) {
          var j :| 0 <= j < k && overlaps[..k][j].file == g;
          assert overlaps[..k + 1][j].file == g;
        }
        if g == f { assert overlaps[..k + 1][k].file == g; }
      }
      r := r[f := r[f].(findings := r[f].findings + {finding})];
    }
    assert overlaps[..|overlaps|] == overlaps;
  }

  /** A file's line of the report after the first `n` pieces. */
  ghost predicate FileAfter(before: FileResult, after: FileResult, layouts: seq<Layout>,
                            states: seq<Option<PieceState>>, f: nat, n: nat)
    requires n <= |layouts| == |states|
  {
    && after.expected == before.expected
    && after.counters == Plus(before.counters, Totals(layouts, states, f, n))
    && forall x :: x in after.findings <==> x in before.findings || FoundInPieces(layouts, states, f, n, x)
  }

  ghost predicate FilesAfter(before: seq<FileResult>, after: seq<FileResult>, layouts: seq<Layout>,
                             states: seq<Option<PieceState>>, n: nat)
    requires n <= |layouts| == |states|
  {
    |after| == |before| && forall f :: 0 <= f < |before| ==> FileAfter(before[f], after[f], layouts, states, f, n)
  }

  /** One piece, in the order of the source: counted, then marked. */
  method ReportPiece(report: Report, layouts: seq<Layout>, verified: seq<bool>, piece: nat, ghost start: Report)
    returns (r: Report)
    requires piece < |layouts| && InRange(layouts, |start.files|)
    requires report.counters == SumOf(CountersOf(report.files)) && report.expected == start.expected
    requires FilesAfter(start.files, report.files, layouts, KnownStates(layouts, verified), piece)
    requires report.verdict == Worse(start.verdict, PieceVerdict(layouts, KnownStates(layouts, verified), piece))
    ensures r.counters == SumOf(CountersOf(r.files)) && r.expected == start.expected
    ensures FilesAfter(start.files, r.files, layouts, KnownStates(layouts, verified), piece + 1)
    ensures r.verdict == Worse(start.verdict, PieceVerdict(layouts, KnownStates(layouts, verified), piece + 1))
  {
    hide SumOf, FilesAfter, PieceVerdict;
    VerdictStep(layouts, KnownStates(layouts, verified), piece);
    ghost var states := KnownStates(layouts, verified);
    var layout := layouts[piece];
    var good := piece < |verified| && verified[piece];
    r := report;
    if !layout.hashable {
      UnhashableStep(start.files, r.files, layouts, states, piece);
      r := r.(verdict := Incomplete);
      return;
    }
    assert |r.files| == |start.files| by { SameCount(start.files, r.files, layouts, states, piece); }
    var state := if good then Verified else Mismatched;
    r := CountPiece(r, layout.overlaps, state);
    if good {
      VerifiedStep(start.files, report.files, r.files, layouts, states, piece);
    } else {
      if r.verdict == AllVerified { r := r.(verdict := SomeMismatched); }
      ghost var counted := r.files;
      var marked := MarkPiece(r.files, layout.overlaps,
                              if |layout.overlaps| > 1 then SharedPieceMismatch else HashMismatch);
      MismatchedStep(start.files, report.files, counted, marked, layouts, states, piece);
      assert CountersOf(marked) == CountersOf(r.files);
      r := r.(files := marked);
    }
  }

  lemma VerdictStep(layouts: seq<Layout>, states: seq<Option<PieceState>>, n: nat)
    requires n < |layouts| == |states|
    ensures PieceVerdict(layouts, states, n + 1)
         == Worse(PieceVerdict(layouts, states, n),
                  if !layouts[n].hashable then Incomplete
                  else if MismatchedAt(states, n) then SomeMismatched else AllVerified)
  {
  }

  lemma SameCount(before: seq<FileResult>, after: seq<FileResult>, layouts: seq<Layout>,
                  states: seq<Option<PieceState>>, n: nat)
    requires n <= |layouts| == |states| && FilesAfter(before, after, layouts, states, n)
    ensures |after| == |before|
  {
  }

  lemma FoundStep(layouts: seq<Layout>, states: seq<Option<PieceState>>, f: nat, n: nat, x: Finding)
    requires n < |layouts| == |states|
    ensures FoundInPieces(layouts, states, f, n + 1, x) <==>
            FoundInPieces(layouts, states, f, n, x)
            || (MismatchedAt(states, n) && Touches(layouts[n].overlaps, f) && x == PieceFinding(layouts[n]))
  {
  }

  lemma UnhashableStep(before: seq<FileResult>, after: seq<FileResult>, layouts: seq<Layout>,
                       states: seq<Option<PieceState>>, n: nat)
    requires n < |layouts| == |states| && states[n].None? && FilesAfter(before, after, layouts, states, n)
    ensures FilesAfter(before, after, layouts, states, n + 1)
  {
    hide FoundInPieces;
    forall f | 0 <= f < |before| ensures FileAfter(before[f], after[f], layouts, states, f, n + 1) {
      assert FileAfter(before[f], after[f], layouts, states, f, n);
      forall x ensures FoundInPieces(layouts, states, f, n + 1, x) <==> FoundInPieces(layouts, states, f, n, x) {
        FoundStep(layouts, states, f, n, x);
      }
    }
  }

  lemma VerifiedStep(before: seq<FileResult>, middle: seq<FileResult>, after: seq<FileResult>, layouts: seq<Layout>,
                     states: seq<Option<PieceState>>, n: nat)
    requires n < |layouts| == |states| && states[n] == Some(Verified) && FilesAfter(before, middle, layouts, states, n)
    requires SameButCounters(middle, after)
    requires Credited(CountersOf(middle), CountersOf(after), layouts[n].overlaps, Verified, |layouts[n].overlaps|)
    ensures FilesAfter(before, after, layouts, states, n + 1)
  {
    hide FoundInPieces;
    forall f | 0 <= f < |before| ensures FileAfter(before[f], after[f], layouts, states, f, n + 1) {
      assert FileAfter(before[f], middle[f], layouts, states, f, n);
      forall x ensures FoundInPieces(layouts, states, f, n + 1, x) <==> FoundInPieces(layouts, states, f, n, x) {
        FoundStep(layouts, states, f, n, x);
      }
    }
  }

  lemma MismatchedStep(before: seq<FileResult>, middle: seq<FileResult>, counted: seq<FileResult>,
                       after: seq<FileResult>, layouts: seq<Layout>, states: seq<Option<PieceState>>, n: nat)
    requires n < |layouts| == |states| && states[n] == Some(Mismatched)
    requires FilesAfter(before, middle, layouts, states, n)
    requires SameButCounters(middle, counted)
    requires Credited(CountersOf(middle), CountersOf(counted), layouts[n].overlaps, Mismatched, |layouts[n].overlaps|)
    requires |after| == |counted| && forall f :: 0 <= f < |counted| ==>
      after[f] == counted[f].(findings := counted[f].findings
                                + if Touches(layouts[n].overlaps, f) then {PieceFinding(layouts[n])} else {})
    ensures FilesAfter(before, after, layouts, states, n + 1)
  {
    hide FoundInPieces, Touches, PieceFinding;
    forall f | 0 <= f < |before| ensures FileAfter(before[f], after[f], layouts, states, f, n + 1) {
      assert FileAfter(before[f], middle[f], layouts, states, f, n);
      assert MismatchedAt(states, n);
      forall x
        ensures x in after[f].findings <==> x in before[f].findings || FoundInPieces(layouts, states, f, n + 1, x)
      {
        FoundStep(layouts, states, f, n, x);
      }
    }
  }

  ghost predicate ReportIsRight(report: Report, files: seq<File>, preflight: seq<Preflight>, layouts: seq<Layout>,
                                states: seq<Option<PieceState>>)
    requires |files| == |preflight| && |layouts| == |states|
  {
    && report.verdict == WorstVerdict(files, preflight, layouts, states)
    && report.expected == ExpectedBytes(files, |files|)
    && report.counters == SumOf(CountersOf(report.files))
    && FilesAfter(Entries(files, preflight, |files|), report.files, layouts, states, |layouts|)
  }

  /** The whole report: totals, findings and verdict are functions of the final piece states. */
  method MakeReport(files: seq<File>, preflight: seq<Preflight>, layouts: seq<Layout>, verified: seq<bool>)
    returns (report: Report)
    requires |files| == |preflight| && InRange(layouts, Reported(files, |files|))
    ensures ReportIsRight(report, files, preflight, layouts, KnownStates(layouts, verified))
  {
    hide FilesAfter, SumOf, PieceVerdict, FileVerdict, WorstVerdict, Entries, CountersOf, ExpectedBytes;
    ghost var states := KnownStates(layouts, verified);
    report := FileEntries(files, preflight);
    ghost var start := report;
    NoCountersYet(files, preflight, |files|);
    SumOfNothing(start.files);
    NothingCounted(start.files, layouts, states);
    NoVerdictYet(layouts, states, start.verdict);
    for piece := 0 to |layouts|
      invariant report.counters == SumOf(CountersOf(report.files)) && report.expected == start.expected
      invariant FilesAfter(start.files, report.files, layouts, states, piece)
      invariant report.verdict == Worse(start.verdict, PieceVerdict(layouts, states, piece))
    {
      report := ReportPiece(report, layouts, verified, piece, start);
    }
    VerdictsCombine(files, preflight, layouts, states);
  }

  lemma {:induction false} NoCountersYet(files: seq<File>, preflight: seq<Preflight>, n: nat)
    requires n <= |files| == |preflight|
    ensures forall f :: 0 <= f < |Entries(files, preflight, n)| ==> Entries(files, preflight, n)[f].counters == ZERO
  {
    if n > 0 { NoCountersYet(files, preflight, n - 1); }
  }

  lemma SumOfNothing(results: seq<FileResult>)
    requires forall f :: 0 <= f < |results| ==> results[f].counters == ZERO
    ensures SumOf(CountersOf(results)) == ZERO
  {
    SumOfZeros(CountersOf(results), |results|);
  }

  lemma NothingCounted(start: seq<FileResult>, layouts: seq<Layout>, states: seq<Option<PieceState>>)
    requires |layouts| == |states| && forall f :: 0 <= f < |start| ==> start[f].counters == ZERO
    ensures FilesAfter(start, start, layouts, states, 0)
  {
    hide FoundInPieces, Totals, FileAfter;
    forall f | 0 <= f < |start| ensures FileAfter(start[f], start[f], layouts, states, f, 0) {
      NothingInNoPieces(layouts, states, f);
      LineUnchanged(start[f], layouts, states, f, 0);
    }
  }

  lemma LineUnchanged(line: FileResult, layouts: seq<Layout>, states: seq<Option<PieceState>>, f: nat, n: nat)
    requires n <= |layouts| == |states| && Totals(layouts, states, f, n) == ZERO
    requires forall x :: !FoundInPieces(layouts, states, f, n, x)
    ensures FileAfter(line, line, layouts, states, f, n)
  {
    assert line.counters == Plus(line.counters, ZERO);
  }

  lemma NothingInNoPieces(layouts: seq<Layout>, states: seq<Option<PieceState>>, f: nat)
    requires |layouts| == |states|
    ensures Totals(layouts, states, f, 0) == ZERO
    ensures forall x :: !FoundInPieces(layouts, states, f, 0, x)
  {
    hide MismatchedAt, Touches;
  }

  lemma NoVerdictYet(layouts: seq<Layout>, states: seq<Option<PieceState>>, verdict: Verdict)
    ensures Worse(verdict, PieceVerdict(layouts, states, 0)) == verdict
  {
  }

  // ----- what a report guarantees -------------------------------------------------------------------------------

  /** The pieces hold every byte of every reported file exactly once. */
  ghost predicate CoversFiles(files: seq<File>, layouts: seq<Layout>) {
    forall i :: 0 <= i < |files| && !files[i].padding ==>
      FileBytes(layouts, Reported(files, i), |layouts|) == files[i].length
  }

  lemma {:induction false} FlatLayoutsCover(files: seq<File>, available: seq<nat>, pieceLength: nat, pieceCount: nat)
    requires |files| == |available| && Begin(files, |files|) <= pieceCount * pieceLength
    ensures CoversFiles(files, AllLayouts(files, available, pieceLength, Begin(files, |files|), pieceCount))
  {
    forall i | 0 <= i < |files| && !files[i].padding
      ensures FileBytes(AllLayouts(files, available, pieceLength, Begin(files, |files|), pieceCount),
                        Reported(files, i), pieceCount) == files[i].length
    {
      FileIsCovered(files, available, pieceLength, pieceCount, i);
    }
  }

  lemma {:induction false} OverlapsName(files: seq<File>, n: nat, begin: nat, end: nat)
    requires n <= |files|
    ensures OverlapsInRange(Overlaps(files, n, begin, end), Reported(files, n))
  {
    if n > 0 { OverlapsName(files, n - 1, begin, end); }
  }

  /** Layouts only name files that are reported, as MakeReport demands. */
  lemma {:induction false} FlatLayoutsInRange(files: seq<File>, available: seq<nat>, pieceLength: nat, total: nat,
                                              pieceCount: nat)
    requires |files| == |available|
    ensures InRange(AllLayouts(files, available, pieceLength, total, pieceCount), Reported(files, |files|))
  {
    var layouts := AllLayouts(files, available, pieceLength, total, pieceCount);
    forall p, k | 0 <= p < |layouts| && 0 <= k < |layouts[p].overlaps|
      ensures layouts[p].overlaps[k].file < Reported(files, |files|)
    {
      OverlapsName(files, |files|, PieceBegin(p, pieceLength), PieceEnd(p, pieceLength, total));
    }
  }

  lemma {:induction false} TreeLayoutsInRange(files: seq<File>, available: seq<nat>, content: seq<BackendFile>,
                                              pieceLength: nat, pieceCount: nat, n: nat)
    requires n <= |files| == |available| && n <= |content|
    ensures InRange(PlacedFiles(files, available, content, pieceLength, pieceCount, n), n)
  {
    if n > 0 { TreeLayoutsInRange(files, available, content, pieceLength, pieceCount, n - 1); }
  }

  lemma {:induction false} AllReported(files: seq<File>, n: nat)
    requires n <= |files| && forall i :: 0 <= i < |files| ==> !files[i].padding
    ensures Reported(files, n) == n
  {
    if n > 0 { AllReported(files, n - 1); }
  }

  lemma {:induction false} TreeLayoutsCover(files: seq<File>, available: seq<nat>, content: seq<BackendFile>,
                                            pieceLength: nat, pieceCount: nat)
    requires |files| == |available| && Matches(files, content, pieceLength, pieceCount)
    requires forall i :: 0 <= i < |files| ==> !files[i].padding
    ensures CoversFiles(files, PlacedFiles(files, available, content, pieceLength, pieceCount, |files|))
  {
    forall i | 0 <= i < |files|
      ensures FileBytes(PlacedFiles(files, available, content, pieceLength, pieceCount, |files|),
                        Reported(files, i), pieceCount) == files[i].length
    {
      AllReported(files, i);
      TreeFileIsCovered(files, available, content, pieceLength, pieceCount, |files|, i);
    }
  }

  /** The file behind a line of the report. */
  lemma {:induction false} EntryOf(files: seq<File>, preflight: seq<Preflight>, n: nat, f: nat) returns (i: nat)
    requires n <= |files| == |preflight| && f < Reported(files, n)
    ensures i < n && !files[i].padding && Reported(files, i) == f
    ensures Entries(files, preflight, n)[f] == FileResult(files[i].length, ZERO, FindingSet(preflight[i].finding))
  {
    if !files[n - 1].padding && f == Reported(files, n - 1) {
      i := n - 1;
    } else {
      i := EntryOf(files, preflight, n - 1, f);
    }
  }

  function SumExpected(results: seq<FileResult>, n: nat): nat
    requires n <= |results|
  {
    if n == 0 then 0 else SumExpected(results, n - 1) + results[n - 1].expected
  }

  lemma {:induction false} SameExpected(a: seq<FileResult>, b: seq<FileResult>, n: nat)
    requires n <= |a| && n <= |b| && forall f :: 0 <= f < n ==> a[f].expected == b[f].expected
    ensures SumExpected(a, n) == SumExpected(b, n)
  {
    if n > 0 { SameExpected(a, b, n - 1); }
  }

  lemma {:induction false} ExpectedIsSum(files: seq<File>, preflight: seq<Preflight>, n: nat)
    requires n <= |files| == |preflight|
    ensures SumExpected(Entries(files, preflight, n), |Entries(files, preflight, n)|) == ExpectedBytes(files, n)
  {
    if n > 0 {
      ExpectedIsSum(files, preflight, n - 1);
      var before, all := Entries(files, preflight, n - 1), Entries(files, preflight, n);
      SameExpected(before, all, |before|);
    }
  }

  predicate Conserved(expected: nat, c: Counters) {
    c.hashed == c.verified + c.mismatched && c.hashed <= expected
  }

  lemma {:induction false} SumsAreConserved(results: seq<FileResult>, n: nat)
    requires n <= |results|
    requires forall f :: 0 <= f < |results| ==> Conserved(results[f].expected, results[f].counters)
    ensures Conserved(SumExpected(results, n), SumUpTo(CountersOf(results), n))
    ensures (forall f :: 0 <= f < |results| ==> results[f].counters.verified == results[f].expected) ==>
              SumUpTo(CountersOf(results), n).verified == SumExpected(results, n)
  {
    if n > 0 { SumsAreConserved(results, n - 1); }
  }

  /** Hashed bytes are verified or mismatched and never more than expected, per file and in total. */
  lemma ReportIsConserved(report: Report, files: seq<File>, preflight: seq<Preflight>, layouts: seq<Layout>,
                          states: seq<Option<PieceState>>)
    requires |files| == |preflight| && |layouts| == |states| && CoversFiles(files, layouts)
    requires ReportIsRight(report, files, preflight, layouts, states)
    ensures forall f :: 0 <= f < |report.files| ==> Conserved(report.files[f].expected, report.files[f].counters)
    ensures Conserved(report.expected, report.counters)
  {
    hide WorstVerdict, FoundInPieces;
    var entries := Entries(files, preflight, |files|);
    forall f | 0 <= f < |report.files| ensures Conserved(report.files[f].expected, report.files[f].counters) {
      assert FileAfter(entries[f], report.files[f], layouts, states, f, |layouts|);
      var i := EntryOf(files, preflight, |files|, f);
      TotalsAreConserved(layouts, states, f, |layouts|);
    }
    ReportTotals(report, files, preflight, layouts, states);
  }

  lemma ReportTotals(report: Report, files: seq<File>, preflight: seq<Preflight>, layouts: seq<Layout>,
                     states: seq<Option<PieceState>>)
    requires |files| == |preflight| && |layouts| == |states|
    requires ReportIsRight(report, files, preflight, layouts, states)
    requires forall f :: 0 <= f < |report.files| ==> Conserved(report.files[f].expected, report.files[f].counters)
    ensures Conserved(report.expected, report.counters)
    ensures (forall f :: 0 <= f < |report.files| ==> report.files[f].counters.verified == report.files[f].expected) ==>
              report.counters.verified == report.expected
  {
    hide WorstVerdict, FoundInPieces, Totals, Conserved;
    var entries := Entries(files, preflight, |files|);
    forall f | 0 <= f < |report.files| ensures report.files[f].expected == entries[f].expected {
      assert FileAfter(entries[f], report.files[f], layouts, states, f, |layouts|);
    }
    SameExpected(report.files, entries, |entries|);
    ExpectedIsSum(files, preflight, |files|);
    SumsAreConserved(report.files, |report.files|);
  }

  /** A verdict of "verified" means that every expected byte was verified and nothing was found wrong. */
  lemma VerifiedMeansEverything(report: Report, files: seq<File>, preflight: seq<Preflight>, layouts: seq<Layout>,
                                verified: seq<bool>)
    requires |files| == |preflight| && CoversFiles(files, layouts)
    requires ReportIsRight(report, files, preflight, layouts, KnownStates(layouts, verified))
    requires report.verdict == AllVerified
    ensures report.counters.verified == report.expected
    ensures forall f :: 0 <= f < |report.files| ==>
              report.files[f].findings == {} && report.files[f].counters.verified == report.files[f].expected
  {
    var states := KnownStates(layouts, verified);
    var entries := Entries(files, preflight, |files|);
    EverythingVerified(files, preflight, layouts, verified);
    hide WorstVerdict, KnownStates;
    ReportIsConserved(report, files, preflight, layouts, states);
    forall f | 0 <= f < |report.files|
      ensures report.files[f].findings == {} && report.files[f].counters.verified == report.files[f].expected
    {
      assert FileAfter(entries[f], report.files[f], layouts, states, f, |layouts|);
      var i := EntryOf(files, preflight, |files|, f);
      AllVerifiedTotals(layouts, states, f, |layouts|);
      forall x ensures x !in report.files[f].findings {
        assert forall p :: !MismatchedAt(states, p);
      }
    }
    ReportTotals(report, files, preflight, layouts, states);
  }

  lemma EverythingVerified(files: seq<File>, preflight: seq<Preflight>, layouts: seq<Layout>, verified: seq<bool>)
    requires |files| == |preflight|
    requires WorstVerdict(files, preflight, layouts, KnownStates(layouts, verified)) == AllVerified
    ensures forall p :: 0 <= p < |layouts| ==> KnownStates(layouts, verified)[p] == Some(Verified)
    ensures forall i :: 0 <= i < |files| && !files[i].padding ==> preflight[i].finding.None?
  {
    var states := KnownStates(layouts, verified);
    forall p: nat | p < |layouts| ensures states[p] == Some(Verified) {
      assert layouts[p].hashable;
      assert !MismatchedAt(states, p);
    }
    forall i | 0 <= i < |files| && !files[i].padding ensures preflight[i].finding.None? {
      assert !IncompleteFinding(preflight[i]) && !MismatchFinding(preflight[i]);
    }
  }

  /** When no piece holds bytes of two files, no file is blamed for a shared piece. */
  lemma NoSharedPieces(report: Report, files: seq<File>, preflight: seq<Preflight>, layouts: seq<Layout>,
                       states: seq<Option<PieceState>>)
    requires |files| == |preflight| && |layouts| == |states|
    requires ReportIsRight(report, files, preflight, layouts, states)
    requires forall p :: 0 <= p < |layouts| ==> |layouts[p].overlaps| <= 1
    requires forall i :: 0 <= i < |preflight| ==> preflight[i].finding != Some(SharedPieceMismatch)
    ensures forall f :: 0 <= f < |report.files| ==> SharedPieceMismatch !in report.files[f].findings
  {
    hide WorstVerdict, Totals;
    var entries := Entries(files, preflight, |files|);
    forall f | 0 <= f < |report.files| ensures SharedPieceMismatch !in report.files[f].findings {
      assert FileAfter(entries[f], report.files[f], layouts, states, f, |layouts|);
      var i := EntryOf(files, preflight, |files|, f);
    }
  }

  // ----- line by line ---------------------------------------------------------------------------------------------

  /** A piece that was hashed and found good, or hashed and found bad. */
  predicate HashedAs(layouts: seq<Layout>, verified: seq<bool>, p: nat, good: bool) {
    p < |layouts| && layouts[p].hashable && (good <==> p < |verified| && verified[p])
  }

  /** Bytes of a reported file in the good, or the bad, pieces among the first `n`. */
  function HashedBytes(layouts: seq<Layout>, verified: seq<bool>, f: nat, good: bool, n: nat): nat
    requires n <= |layouts|
  {
    if n == 0 then 0
    else
      HashedBytes(layouts, verified, f, good, n - 1)
      + if HashedAs(layouts, verified, n - 1, good) then PieceBytes(layouts[n - 1], f) else 0
  }

  lemma {:induction false} HashedBytesAreTotals(layouts: seq<Layout>, verified: seq<bool>, f: nat, n: nat)
    requires n <= |layouts|
    ensures var states := KnownStates(layouts, verified);
            && HashedBytes(layouts, verified, f, true, n) == BytesIn(layouts, states, f, n, Verified)
            && HashedBytes(layouts, verified, f, false, n) == BytesIn(layouts, states, f, n, Mismatched)
  {
    hide PieceBytes;
    if n > 0 { HashedBytesAreTotals(layouts, verified, f, n - 1); }
  }

  lemma {:induction false} EntryAt(files: seq<File>, preflight: seq<Preflight>, n: nat, i: nat)
    requires i < n <= |files| == |preflight| && !files[i].padding
    ensures Reported(files, i) < Reported(files, n)
    ensures Entries(files, preflight, n)[Reported(files, i)]
         == FileResult(files[i].length, ZERO, FindingSet(preflight[i].finding))
  {
    if i < n - 1 { EntryAt(files, preflight, n - 1, i); }
  }

  /** A bad piece blames the files it touches, by another name when several overlaps share it. */
  predicate Blames(layout: Layout, f: nat, finding: Finding) {
    && (exists k :: 0 <= k < |layout.overlaps| && layout.overlaps[k].file == f)
    && match finding
       case HashMismatch => |layout.overlaps| == 1
       case SharedPieceMismatch => |layout.overlaps| >= 2
       case _ => false
  }

  /**
    The line of a reported file: bytes of good pieces are verified, bytes of bad ones mismatched, and the
    findings are what the inspection found and what bad pieces touching the file add.
  */
  lemma {:induction false} ReportLine(report: Report, files: seq<File>, preflight: seq<Preflight>, layouts: seq<Layout>,
                                      verified: seq<bool>, i: nat)
    requires |files| == |preflight| && i < |files| && !files[i].padding
    requires ReportIsRight(report, files, preflight, layouts, KnownStates(layouts, verified))
    ensures Reported(files, i) < |report.files| == Reported(files, |files|)
    ensures var f, n := Reported(files, i), |layouts|;
            var line := report.files[f];
            && line.expected == files[i].length
            && line.counters.verified == HashedBytes(layouts, verified, f, true, n)
            && line.counters.mismatched == HashedBytes(layouts, verified, f, false, n)
            && line.counters.hashed == line.counters.verified + line.counters.mismatched
            && forall x :: x in line.findings <==>
                  preflight[i].finding == Some(x)
                  || exists p :: 0 <= p < n && HashedAs(layouts, verified, p, false) && Blames(layouts[p], f, x)
  {
    hide WorstVerdict, HashedBytes, Totals, Entries, SumOf;
    var f, n, states := Reported(files, i), |layouts|, KnownStates(layouts, verified);
    EntryAt(files, preflight, |files|, i);
    assert FileAfter(Entries(files, preflight, |files|)[f], report.files[f], layouts, states, f, n);
    HashedBytesAreTotals(layouts, verified, f, n);
    TotalsByState(layouts, states, f, n);
    TotalsAreConserved(layouts, states, f, n);
    forall p | 0 <= p < n ensures MismatchedAt(states, p) <==> HashedAs(layouts, verified, p, false) {
    }
    forall x, p | 0 <= p < n
      ensures Touches(layouts[p].overlaps, f) && x == PieceFinding(layouts[p]) <==> Blames(layouts[p], f, x)
    {
    }
  }

  /** Bytes of all reported files in good, or bad, pieces. */
  function AllHashedBytes(layouts: seq<Layout>, verified: seq<bool>, good: bool, fileCount: nat): nat {
    if fileCount == 0 then 0
    else AllHashedBytes(layouts, verified, good, fileCount - 1)
         + HashedBytes(layouts, verified, fileCount - 1, good, |layouts|)
  }

  lemma {:induction false} CountersAddUp(counters: seq<Counters>, layouts: seq<Layout>, verified: seq<bool>, n: nat)
    requires n <= |counters|
    requires forall f :: 0 <= f < |counters| ==>
               && counters[f].verified == HashedBytes(layouts, verified, f, true, |layouts|)
               && counters[f].mismatched == HashedBytes(layouts, verified, f, false, |layouts|)
    ensures SumUpTo(counters, n).verified == AllHashedBytes(layouts, verified, true, n)
    ensures SumUpTo(counters, n).mismatched == AllHashedBytes(layouts, verified, false, n)
  {
    if n > 0 { CountersAddUp(counters, layouts, verified, n - 1); }
  }

  /** The totals of the report are the bytes of good and of bad pieces. */
  lemma ReportTotalBytes(report: Report, files: seq<File>, preflight: seq<Preflight>, layouts: seq<Layout>,
                         verified: seq<bool>)
    requires |files| == |preflight|
    requires ReportIsRight(report, files, preflight, layouts, KnownStates(layouts, verified))
    ensures report.counters.verified == AllHashedBytes(layouts, verified, true, |report.files|)
    ensures report.counters.mismatched == AllHashedBytes(layouts, verified, false, |report.files|)
  {
    forall f | 0 <= f < |report.files|
      ensures report.files[f].counters.verified == HashedBytes(layouts, verified, f, true, |layouts|)
      ensures report.files[f].counters.mismatched == HashedBytes(layouts, verified, f, false, |layouts|)
    {
      hide WorstVerdict, HashedBytes, SumOf;
      var i := EntryOf(files, preflight, |files|, f);
      ReportLine(report, files, preflight, layouts, verified, i);
    }
    hide HashedBytes, WorstVerdict, FilesAfter;
    CountersAddUp(CountersOf(report.files), layouts, verified, |report.files|);
  }

  /** Only a wrong link target or a bad piece is a mismatch; everything else leaves the torrent incomplete. */
  lemma VerdictIff(report: Report, files: seq<File>, preflight: seq<Preflight>, layouts: seq<Layout>,
                   verified: seq<bool>)
    requires |files| == |preflight|
    requires ReportIsRight(report, files, preflight, layouts, KnownStates(layouts, verified))
    ensures report.verdict == Incomplete
       <==> || (exists i :: 0 <= i < |files| && !files[i].padding
                            && preflight[i].finding !in {None, Some(SymlinkTargetMismatch)})
            || exists p :: 0 <= p < |layouts| && !layouts[p].hashable
    ensures report.verdict == AllVerified
       <==> && report.verdict != Incomplete
            && (forall i :: 0 <= i < |files| && !files[i].padding ==>
                  preflight[i].finding != Some(SymlinkTargetMismatch))
            && forall p :: 0 <= p < |layouts| ==> !HashedAs(layouts, verified, p, false)
  {
    hide FilesAfter;
    var states := KnownStates(layouts, verified);
    forall p: nat ensures MismatchedAt(states, p) <==> HashedAs(layouts, verified, p, false) {
    }
  }
}
