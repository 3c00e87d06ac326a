/**
  The incremental, batched publisher of verification_progress_publisher.cpp. The clock may answer
  anything; cancellation may be requested at any moment and is never withdrawn.
*/
module ProgressPublisher {
  import opened Wrappers
  import opened VerificationLayouts
  import opened Numbers
  import opened VerificationTotals
  import opened ProgressRanges
  import opened VerificationReport

  const MAX_RANGES: nat := 256
  const MAX_FILES: nat := 256
  const NORMAL_CADENCE: int := 50

  datatype FileUpdate = FileUpdate(file: nat, counters: Counters)

  /** One call of the callback. */
  datatype Snapshot = Snapshot(sequence: nat, files: seq<FileUpdate>, ranges: seq<PieceRange>)

  /** What a run of the publisher does that others can see: looks at the token and calls of the callback. */
  datatype Event = Look(cancelled: bool) | Call(snapshot: Snapshot)

  /** The publisher's fields, with the history of what it was told and what it delivered. */
  datatype View = View(
    layouts: seq<Layout>, emitted: seq<bool>, files: seq<Counters>, changed: seq<bool>, pendingFiles: nat,
    ranges: seq<Node>, sequence: nat, recorded: seq<Option<PieceState>>, delivered: seq<Snapshot>)

  function CountTrue(flags: seq<bool>, n: nat): (r: nat)
    requires n <= |flags|
    ensures r <= n
  {
    if n == 0 then 0 else CountTrue(flags, n - 1) + if flags[n - 1] then 1 else 0
  }

  lemma {:induction false} CountAfterFlip(flags: seq<bool>, i: nat, n: nat)
    requires i < |flags| && n <= |flags|
    ensures CountTrue(flags[i := !flags[i]], n)
         == CountTrue(flags, n) + if i >= n then 0 else if flags[i] then -1 else 1
  {
    if n > 0 { CountAfterFlip(flags, i, n - 1); }
  }

  lemma {:induction false} NoneSet(flags: seq<bool>, n: nat)
    requires n <= |flags|
    ensures CountTrue(flags, n) == 0 <==> forall i :: 0 <= i < n ==> !flags[i]
  {
    if n > 0 { NoneSet(flags, n - 1); }
  }

  /** All ranges delivered so far, in order. */
  function DeliveredRanges(delivered: seq<Snapshot>): seq<PieceRange> {
    if delivered == [] then []
    else DeliveredRanges(delivered[..|delivered| - 1]) + delivered[|delivered| - 1].ranges
  }

  function Listed(updates: seq<FileUpdate>, f: nat): Option<Counters> {
    if updates == [] then None
    else if updates[|updates| - 1].file == f then Some(updates[|updates| - 1].counters)
    else Listed(updates[..|updates| - 1], f)
  }

  /** What the receiver last heard about a file; files start with zero counters. */
  function LastCounters(delivered: seq<Snapshot>, f: nat): Counters {
    if delivered == [] then ZERO
    else
      match Listed(delivered[|delivered| - 1].files, f)
      case Some(c) => c
      case None => LastCounters(delivered[..|delivered| - 1], f)
  }

  lemma {:induction false} ListedMeans(updates: seq<FileUpdate>, f: nat)
    ensures Listed(updates, f).Some? ==>
              exists k :: 0 <= k < |updates| && updates[k] == FileUpdate(f, Listed(updates, f).value)
    ensures Listed(updates, f).None? ==> forall k :: 0 <= k < |updates| ==> updates[k].file != f
  {
    if updates != [] && updates[|updates| - 1].file != f {
      var front := updates[..|updates| - 1];
      ListedMeans(front, f);
      if Listed(front, f).Some? {
        var k :| 0 <= k < |front| && front[k] == FileUpdate(f, Listed(front, f).value);
        assert updates[k] == FileUpdate(f, Listed(updates, f).value);
      }
    }
  }

  function Calls(events: seq<Event>): seq<Snapshot> {
    if events == [] then []
    else
      var n := |events| - 1;
      Calls(events[..n]) + match events[n] case Look(_) => [] case Call(s) => [s]
  }

  function Looks(events: seq<Event>): nat {
    if events == [] then 0
    else Looks(events[..|events| - 1]) + if events[|events| - 1].Look? then 1 else 0
  }

  /** The callback is only called right after a look at the token that saw no cancellation. */
  ghost predicate Spoken(events: seq<Event>, delivered: seq<Snapshot>) {
    && Calls(events) == delivered
    && forall k :: 0 <= k < |events| && events[k].Call? ==> k > 0 && Before(events, k) == Look(false)
  }

  function Before(events: seq<Event>, k: nat): Event
    requires 0 < k <= |events|
  {
    events[k - 1]
  }

  lemma EventAppended(events: seq<Event>, e: Event)
    ensures Calls(events + [e]) == Calls(events) + match e { case Look(_) => [] case Call(s) => [s] }
    ensures Looks(events + [e]) == Looks(events) + if e.Look? then 1 else 0
  {
    assert (events + [e])[..|events|] == events;
  }

  lemma LookIsNoCall(events: seq<Event>, delivered: seq<Snapshot>, cancelled: bool)
    requires Spoken(events, delivered)
    ensures Spoken(events + [Look(cancelled)], delivered)
  {
    var after := events + [Look(cancelled)];
    EventAppended(events, Look(cancelled));
    forall k | 0 <= k < |after| && after[k].Call? ensures k > 0 && Before(after, k) == Look(false) {
      assert events[k].Call? && Before(after, k) == Before(events, k);
    }
  }

  lemma CallAfterLook(events: seq<Event>, delivered: seq<Snapshot>, s: Snapshot)
    requires Spoken(events, delivered) && events != [] && events[|events| - 1] == Look(false)
    ensures Spoken(events + [Call(s)], delivered + [s])
  {
    var after := events + [Call(s)];
    EventAppended(events, Call(s));
    forall k | 0 <= k < |after| && after[k].Call? ensures k > 0 && Before(after, k) == Look(false) {
      if k < |events| { assert events[k].Call? && Before(after, k) == Before(events, k); }
    }
  }

  lemma {:induction false} LooksGrow(before: seq<Event>, after: seq<Event>)
    requires before <= after
    ensures Looks(before) <= Looks(after)
    decreases |after|
  {
    if |before| < |after| {
      LooksGrow(before, after[..|after| - 1]);
    } else {
      assert before == after;
    }
  }

  /** Once a look sees a cancellation, and all later ones do, no further call is made. */
  lemma {:induction false} SilentOnceCancelled(events: seq<Event>, delivered: seq<Snapshot>, k: nat, j: nat)
    requires Spoken(events, delivered) && k < j < |events| && events[k] == Look(true)
    requires forall i :: k <= i < |events| && events[i].Look? ==> events[i].cancelled
    ensures events[j].Look?
  {
    assert Before(events, j) == events[j - 1];
  }

  // ----- the invariant ------------------------------------------------------------------------------------

  ghost predicate WellFormed(v: View) {
    && |v.emitted| == |v.recorded| == |v.layouts| && |v.files| == |v.changed|
    && InRange(v.layouts, |v.files|)
    && forall p :: 0 <= p < |v.layouts| ==>
         (v.emitted[p] <==> v.recorded[p].Some?) && (v.emitted[p] ==> v.layouts[p].hashable)
  }

  /** Delivered and pending ranges together name each recorded piece once, with its state, and no other. */
  ghost predicate PiecesOnce(v: View) {
    forall p: nat, state ::
      Occurrences(DeliveredRanges(v.delivered) + Values(v.ranges), p, state)
      == if p < |v.recorded| && v.recorded[p] == Some(state) then 1 else 0
  }

  /** File counters are the totals of the recorded pieces, and unflagged files were delivered as they are. */
  ghost predicate FilesUpToDate(v: View)
    requires WellFormed(v)
  {
    && (forall f :: 0 <= f < |v.files| ==> v.files[f] == Totals(v.layouts, v.recorded, f, |v.layouts|))
    && (forall f :: 0 <= f < |v.files| && !v.changed[f] ==> LastCounters(v.delivered, f) == v.files[f])
    && v.pendingFiles == CountTrue(v.changed, |v.changed|)
  }

  /** Snapshots are bounded, never empty, and numbered 1, 2, 3, ... */
  predicate Numbered(v: View) {
    && v.sequence == |v.delivered| + 1
    && forall k :: 0 <= k < |v.delivered| ==>
         v.delivered[k].sequence == k + 1
         && |v.delivered[k].files| <= MAX_FILES && |v.delivered[k].ranges| <= MAX_RANGES
         && |v.delivered[k].files| + |v.delivered[k].ranges| > 0
  }

  ghost predicate Consistent(v: View) {
    WellFormed(v) && Coalesced(v.ranges) && PiecesOnce(v) && FilesUpToDate(v) && Numbered(v)
  }

  /** What one snapshot takes: the first 256 pending ranges and the first 256 changed files. */
  ghost predicate Batch(v: View, s: Snapshot) {
    && |v.changed| == |v.files|
    && s.ranges == Values(v.ranges[..Min(256, |v.ranges|)]) && |s.files| == Min(256, v.pendingFiles)
    && (forall k :: 0 <= k < |s.files| ==>
          && s.files[k].file < |v.files| && v.changed[s.files[k].file]
          && s.files[k].counters == v.files[s.files[k].file])
    && (forall j, k :: 0 <= j < k < |s.files| ==> s.files[j].file < s.files[k].file)
    && forall k, f :: 0 <= k < |s.files| && 0 <= f < s.files[k].file && v.changed[f] ==>
         exists j :: 0 <= j < |s.files| && s.files[j].file == f
  }

  predicate NothingPending(v: View) { v.ranges == [] && v.pendingFiles == 0 }

  // ----- what subscribers rely on ------------------------------------------------------------------------------

  /** With nothing pending, every recorded piece was delivered exactly once, and all counters are out. */
  lemma {:induction false} NothingPendingMeansDelivered(v: View)
    requires Consistent(v) && NothingPending(v)
    ensures forall p: nat, state :: Occurrences(DeliveredRanges(v.delivered), p, state)
              == if p < |v.recorded| && v.recorded[p] == Some(state) then 1 else 0
    ensures forall f :: 0 <= f < |v.files| ==>
              LastCounters(v.delivered, f) == Totals(v.layouts, v.recorded, f, |v.layouts|)
  {
    NoneSet(v.changed, |v.changed|);
    assert DeliveredRanges(v.delivered) + Values(v.ranges) == DeliveredRanges(v.delivered);
  }

  /**
    When the recorded states are those the final report is made from, the counters last delivered for
    each file are the report's.
  */
  lemma DeliveredCountersMatchReport(v: View, report: Report, files: seq<File>, preflight: seq<Preflight>,
                                     verified: seq<bool>)
    requires Consistent(v) && NothingPending(v) && v.recorded == KnownStates(v.layouts, verified)
    requires |files| == |preflight| && |v.files| == |report.files|
    requires ReportIsRight(report, files, preflight, v.layouts, KnownStates(v.layouts, verified))
    ensures forall f :: 0 <= f < |report.files| ==> LastCounters(v.delivered, f) == report.files[f].counters
  {
    hide WorstVerdict, FoundInPieces, LastCounters, Totals, PiecesOnce, Consistent;
    NothingPendingMeansDelivered(v);
    forall f | 0 <= f < |report.files| ensures LastCounters(v.delivered, f) == report.files[f].counters {
      var entries := Entries(files, preflight, |files|);
      assert FileAfter(entries[f], report.files[f], v.layouts, KnownStates(v.layouts, verified), f, |v.layouts|);
      NoCountersYet(files, preflight, |files|);
    }
  }

  // ----- steps of the invariant ----------------------------------------------------------------------------------

  lemma DeliverKeepsPieces(v: View, v': View, s: Snapshot, count: nat)
    requires PiecesOnce(v) && count <= |v.ranges|
    requires s.ranges == Values(v.ranges[..count]) && v'.ranges == v.ranges[count..]
    requires v'.delivered == v.delivered + [s] && v'.recorded == v.recorded
    ensures PiecesOnce(v')
  {
    assert v'.delivered[..|v.delivered|] == v.delivered;
    assert DeliveredRanges(v'.delivered) + Values(v'.ranges) == DeliveredRanges(v.delivered) + Values(v.ranges);
  }

  lemma DeliverKeepsFiles(v: View, v': View, s: Snapshot)
    requires WellFormed(v) && FilesUpToDate(v)
    requires v' == v.(changed := v'.changed, pendingFiles := v'.pendingFiles, ranges := v'.ranges,
                      sequence := v'.sequence, delivered := v.delivered + [s])
    requires |v'.changed| == |v.changed| && v'.pendingFiles == CountTrue(v'.changed, |v'.changed|)
    requires forall k :: 0 <= k < |s.files| ==>
               s.files[k].file < |v.files| && s.files[k].counters == v.files[s.files[k].file]
    requires forall f :: 0 <= f < |v.changed| && !v'.changed[f] ==>
               !v.changed[f] || exists k :: 0 <= k < |s.files| && s.files[k].file == f
    ensures WellFormed(v') && FilesUpToDate(v')
  {
    forall f | 0 <= f < |v'.files| && !v'.changed[f] ensures LastCounters(v'.delivered, f) == v'.files[f] {
      ListedMeans(s.files, f);
      assert v'.delivered[..|v.delivered|] == v.delivered;
    }
  }

  lemma {:induction false} RecordKeepsPieces(v: View, v': View, piece: nat, state: PieceState)
    requires PiecesOnce(v) && piece < |v.recorded| && v.recorded[piece].None?
    requires v'.recorded == v.recorded[piece := Some(state)] && v'.delivered == v.delivered
    requires ListsOneMore(v.ranges, v'.ranges, piece, state)
    ensures PiecesOnce(v')
  {
    forall p: nat, st
      ensures Occurrences(DeliveredRanges(v'.delivered) + Values(v'.ranges), p, st)
           == if p < |v'.recorded| && v'.recorded[p] == Some(st) then 1 else 0
    {
      OccurrencesJoin(DeliveredRanges(v.delivered), Values(v.ranges), p, st);
      OccurrencesJoin(DeliveredRanges(v.delivered), Values(v'.ranges), p, st);
      assert Occurrences(DeliveredRanges(v.delivered) + Values(v.ranges), p, st)
          == if p < |v.recorded| && v.recorded[p] == Some(st) then 1 else 0;
    }
  }

  /** A piece that was not recorded is in no pending range. */
  lemma UnrecordedIsAbsent(v: View, piece: nat)
    requires PiecesOnce(v) && piece < |v.recorded| && v.recorded[piece].None?
    ensures Absent(v.ranges, piece)
  {
    forall state ensures Occurrences(Values(v.ranges), piece, state) == 0 {
      OccurrencesJoin(DeliveredRanges(v.delivered), Values(v.ranges), piece, state);
      assert Occurrences(DeliveredRanges(v.delivered) + Values(v.ranges), piece, state) == 0;
    }
    AbsentWhenNotListed(v.ranges, piece);
  }

  lemma RecordKeepsFiles(v: View, v': View, piece: nat, state: PieceState)
    requires WellFormed(v) && FilesUpToDate(v) && piece < |v.layouts|
    requires v.recorded[piece].None? && v.layouts[piece].hashable
    requires v' == v.(emitted := v.emitted[piece := true], files := v'.files, changed := v'.changed,
                      pendingFiles := v'.pendingFiles, ranges := v'.ranges,
                      recorded := v.recorded[piece := Some(state)])
    requires Credited(v.files, v'.files, v.layouts[piece].overlaps, state, |v.layouts[piece].overlaps|)
    requires |v'.changed| == |v.changed| && v'.pendingFiles == CountTrue(v'.changed, |v'.changed|)
    requires forall f :: 0 <= f < |v.changed| && !v'.changed[f] ==> !v.changed[f] && v'.files[f] == v.files[f]
    ensures WellFormed(v') && FilesUpToDate(v')
  {
    forall f | 0 <= f < |v'.files| ensures v'.files[f] == Totals(v'.layouts, v'.recorded, f, |v'.layouts|) {
      TotalsWithPiece(v.layouts, v.recorded, f, |v.layouts|, piece, state);
    }
  }

  /** The states known after `complete`: what was recorded before it, else the final state. */
  function Completed(layouts: seq<Layout>, recorded: seq<Option<PieceState>>, states: seq<PieceState>,
                     n: nat): seq<Option<PieceState>>
    requires n <= |layouts| == |recorded|
  {
    seq(|layouts|, p requires 0 <= p < |layouts| =>
      if p >= n || recorded[p].Some? || !layouts[p].hashable then recorded[p]
      else Some(if p < |states| then states[p] else Mismatched))
  }

  /** Piece by piece: what was recorded stays, what cannot be hashed stays unknown, the rest takes its final state. */
  lemma {:induction false} CompletedAt(layouts: seq<Layout>, recorded: seq<Option<PieceState>>, states: seq<PieceState>,
                                       p: nat)
    requires |layouts| == |recorded| && p < |layouts|
    ensures var c := Completed(layouts, recorded, states, |layouts|);
            && (recorded[p].Some? ==> c[p] == recorded[p])
            && (recorded[p].None? && !layouts[p].hashable ==> c[p] == None)
            && (recorded[p].None? && layouts[p].hashable && p < |states| ==> c[p] == Some(states[p]))
            && (recorded[p].None? && layouts[p].hashable && p >= |states| ==> c[p] == Some(Mismatched))
  {
  }

  /** What complete adds up to, if the states recorded on the way were final. */
  lemma CompletedIsKnown(layouts: seq<Layout>, recorded: seq<Option<PieceState>>, states: seq<PieceState>,
                         verified: seq<bool>)
    requires |layouts| == |recorded| == |states|
    requires forall p :: 0 <= p < |states| ==>
               states[p] == if p < |verified| && verified[p] then Verified else Mismatched
    requires forall p :: 0 <= p < |layouts| && recorded[p].Some? ==>
               layouts[p].hashable && recorded[p] == Some(states[p])
    ensures Completed(layouts, recorded, states, |layouts|) == KnownStates(layouts, verified)
  {
  }

  // ----- the publisher ---------------------------------------------------------------------------------------------

  class Publisher {
    const layouts: seq<Layout>
    var cancelled: bool
    var emitted: seq<bool>
    var files: seq<Counters>
    var changed: seq<bool>
    var pendingFiles: nat
    var ranges: seq<Node>
    var sequence: nat
    var time: int
    var lastDelivery: int
    ghost var events: seq<Event>
    ghost var recorded: seq<Option<PieceState>>
    ghost var delivered: seq<Snapshot>

    ghost function Now(): View
      reads this
    {
      View(layouts, emitted, files, changed, pendingFiles, ranges, sequence, recorded, delivered)
    }

    ghost predicate Valid()
      reads this
    {
      Consistent(Now()) && Spoken(events, delivered)
    }

    constructor (layouts: seq<Layout>, fileCount: nat)
      requires InRange(layouts, fileCount)
      ensures Valid() && this.layouts == layouts && |files| == fileCount
      ensures recorded == seq(|layouts|, _ => None) && delivered == []
    {
      this.layouts := layouts;
      cancelled, time := *, *;
      emitted := seq(|layouts|, _ => false);
      files := seq(fileCount, _ => ZERO);
      changed := seq(fileCount, _ => false);
      pendingFiles, ranges, sequence := 0, [], 1;
      recorded, delivered, events := seq(|layouts|, _ => None), [], [];
      new;
      lastDelivery := ReadClock();
      NoneSet(changed, |changed|);
      forall f: nat | f < |files| ensures ZERO == Totals(layouts, recorded, f, |layouts|) {
        NothingRecorded(layouts, recorded, f, |layouts|);
      }
    }

    /** A look at the cancellation token. */
    method IsCancelled() returns (c: bool)
      requires Spoken(events, delivered)
      modifies this`cancelled, this`events
      ensures c == cancelled && (old(cancelled) ==> cancelled)
      ensures events == old(events) + [Look(c)] && Looks(events) == old(Looks(events)) + 1
      ensures Spoken(events, delivered)
    {
      if * { cancelled := true; }
      c := cancelled;
      LookIsNoCall(events, delivered, c);
      EventAppended(events, Look(c));
      events := events + [Look(c)];
    }

    method ReadClock() returns (now: int)
      modifies this`time
      ensures now == time
    {
      time := *;
      now := time;
    }

    /** The loop that collects changed files for one snapshot. */
    method TakeFiles() returns (taken: seq<FileUpdate>)
      requires |files| == |changed| && pendingFiles == CountTrue(changed, |changed|)
      modifies this`changed, this`pendingFiles
      ensures |changed| == |files| && pendingFiles == CountTrue(changed, |changed|)
      ensures |taken| <= MAX_FILES && pendingFiles + |taken| == old(pendingFiles)
      ensures old(pendingFiles) > 0 ==> |taken| > 0
      ensures |taken| == Min(MAX_FILES, old(pendingFiles))
      ensures forall k :: 0 <= k < |taken| ==> taken[k].file < |files| && taken[k].counters == files[taken[k].file]
      ensures forall f :: 0 <= f < |changed| && !changed[f] ==>
                !old(changed)[f] || exists k :: 0 <= k < |taken| && taken[k].file == f
      ensures forall j, k :: 0 <= j < k < |taken| ==> taken[j].file < taken[k].file
      ensures forall k :: 0 <= k < |taken| ==> taken[k].file < |old(changed)| && old(changed)[taken[k].file]
      ensures forall k, f :: 0 <= k < |taken| && 0 <= f < taken[k].file ==> f >= |changed| || !changed[f]
    {
      hide CountTrue;
      taken := [];
      var index: nat := 0;
      while index < |files| && |taken| < MAX_FILES
        invariant index <= |files| && |changed| == |files| && |taken| <= MAX_FILES
        invariant pendingFiles == CountTrue(changed, |changed|) && pendingFiles + |taken| == old(pendingFiles)
        invariant forall k :: 0 <= k < |taken| ==> taken[k].file < |files| && taken[k].counters == files[taken[k].file]
        invariant forall f :: 0 <= f < |changed| && !changed[f] ==>
                    !old(changed)[f] || exists k :: 0 <= k < |taken| && taken[k].file == f
        invariant forall f :: 0 <= f < index ==> !changed[f]
        invariant forall f :: index <= f < |changed| ==> changed[f] == old(changed)[f]
        invariant forall k :: 0 <= k < |taken| ==> taken[k].file < index && old(changed)[taken[k].file]
        invariant forall j, k :: 0 <= j < k < |taken| ==> taken[j].file < taken[k].file
      {
        if changed[index] {
          ghost var before := taken;
          taken := taken + [FileUpdate(index, files[index])];
          assert taken[|before|].file == index;
          assert forall k :: 0 <= k < |before| ==> taken[k] == before[k];
          CountAfterFlip(changed, index, |changed|);
          changed := changed[index := false];
          pendingFiles := pendingFiles - 1;
        }
        index := index + 1;
      }
      NoneSet(changed, |changed|);
    }

    /** The loop that moves pending ranges into one snapshot. */
    method TakeRanges() returns (taken: seq<PieceRange>)
      modifies this`ranges
      ensures |taken| == Min(MAX_RANGES, |old(ranges)|)
      ensures taken == Values(old(ranges)[..|taken|]) && ranges == old(ranges)[|taken|..]
    {
      taken := [];
      var rangeCount := Min(MAX_RANGES, |ranges|);
      for count := 0 to rangeCount
        invariant |taken| == count && taken == Values(old(ranges)[..count]) && ranges == old(ranges)[count..]
      {
        taken := taken + [ranges[0].range];
        ranges := ranges[1..];
      }
    }

    /** One round of the delivery loop: a snapshot and the call of the callback. */
    method DeliverOne()
      requires Valid() && (ranges != [] || pendingFiles > 0)
      requires events != [] && events[|events| - 1] == Look(false)
      modifies this`changed, this`pendingFiles, this`ranges, this`sequence, this`delivered, this`events
      ensures Valid() && |changed| == |old(changed)|
      ensures |ranges| + pendingFiles < |old(ranges)| + old(pendingFiles)
      ensures |delivered| == |old(delivered)| + 1 && old(delivered) <= delivered
      ensures events == old(events) + [Call(delivered[|delivered| - 1])] && Looks(events) == old(Looks(events))
      ensures Batch(old(Now()), delivered[|delivered| - 1])
    {
      hide PiecesOnce, LastCounters, CountTrue, Occurrences, DeliveredRanges, Spoken, Calls, Looks;
      ghost var before := Now();
      var updates := TakeFiles();
      var taken := TakeRanges();
      ghost var snapshot := Snapshot(sequence, updates, taken);
      CallAfterLook(events, delivered, snapshot);
      EventAppended(events, Call(snapshot));
      events := events + [Call(snapshot)];
      delivered := delivered + [snapshot];
      sequence := sequence + 1;
      DeliverKeepsPieces(before, Now(), snapshot, |taken|);
      DeliverKeepsFiles(before, Now(), snapshot);
      SuffixIsCoalesced(before.ranges, |taken|);
    }

    /** The delivery loop, with a look at the token before every round. */
    method DeliverRounds()
      requires Valid() && !NothingPending(Now())
      modifies this`cancelled, this`changed, this`pendingFiles, this`ranges, this`sequence, this`delivered, this`events
      ensures Valid() && (old(cancelled) ==> cancelled)
      ensures !cancelled ==> NothingPending(Now())
      ensures old(cancelled) ==> Now() == old(Now())
      ensures old(delivered) <= delivered && Looks(events) > old(Looks(events))
    {
      hide Consistent, Spoken, Looks, Batch;
      var c := IsCancelled();
      var more := !c;
      while more
        invariant Valid() && (old(cancelled) ==> cancelled)
        invariant more ==> (ranges != [] || pendingFiles != 0) && events != [] && events[|events| - 1] == Look(false)
        invariant !more && !cancelled ==> NothingPending(Now())
        invariant old(cancelled) ==> !more && Now() == old(Now())
        invariant old(delivered) <= delivered && Looks(events) > old(Looks(events))
        decreases |ranges| + pendingFiles, more
      {
        DeliverOne();
        more := ranges != [] || pendingFiles != 0;
        if more { c := IsCancelled(); more := !c; }
      }
    }

    /**
      Nothing happens when cancelled or not due. Otherwise everything goes out, unless a cancellation is seen
      on the way.
    */
    method Deliver(force: bool)
      requires Valid()
      modifies this`cancelled, this`time, this`lastDelivery, this`changed, this`pendingFiles, this`ranges,
               this`sequence, this`delivered, this`events
      ensures Valid() && (old(cancelled) ==> cancelled)
      ensures (force || time - old(lastDelivery) >= 50) && !cancelled ==> NothingPending(Now())
      ensures old(cancelled) || (!force && time - old(lastDelivery) < 50) || old(NothingPending(Now())) ==>
                Now() == old(Now()) && lastDelivery == old(lastDelivery)
      ensures old(delivered) <= delivered && (delivered != old(delivered) ==> lastDelivery == time)
      ensures Looks(events) >= old(Looks(events)) + 1 + if delivered != old(delivered) then 1 else 0
    {
      hide Consistent, Spoken, Looks;
      var c := IsCancelled();
      if c || (ranges == [] && pendingFiles == 0) { return; }
      var now := ReadClock();
      if !force && now - lastDelivery < NORMAL_CADENCE { return; }
      DeliverRounds();
      lastDelivery := now;
    }

    method Flush()
      requires Valid()
      modifies this`cancelled, this`time, this`lastDelivery, this`changed, this`pendingFiles, this`ranges,
               this`sequence, this`delivered, this`events
      ensures Valid() && (old(cancelled) ==> cancelled)
      ensures time - old(lastDelivery) >= 50 && !cancelled ==> NothingPending(Now())
      ensures old(cancelled) || time - old(lastDelivery) < 50 || old(NothingPending(Now())) ==>
                Now() == old(Now()) && lastDelivery == old(lastDelivery)
      ensures old(delivered) <= delivered && (delivered != old(delivered) ==> lastDelivery == time)
    {
      Deliver(false);
    }

    /** The loop that credits a piece to its files. */
    method CreditFiles(overlaps: seq<Overlap>, state: PieceState)
      requires OverlapsInRange(overlaps, |files|)
      requires |files| == |changed| && pendingFiles == CountTrue(changed, |changed|)
      modifies this`files, this`changed, this`pendingFiles
      ensures |files| == |old(files)|
      ensures Credited(old(files), files, overlaps, state, |overlaps|)
      ensures |changed| == |old(changed)| == |files| && pendingFiles == CountTrue(changed, |changed|)
      ensures forall f :: 0 <= f < |changed| && !changed[f] ==> !old(changed)[f] && files[f] == old(files)[f]
      ensures forall f :: 0 <= f < |changed| && changed[f] ==> old(changed)[f] || Touches(overlaps, f)
      ensures pendingFiles <= old(pendingFiles) + |overlaps|
    {
      hide Credited, CountTrue;
      NothingCredited(files, overlaps, state);
      for k := 0 to |overlaps|
        invariant Credited(old(files), files, overlaps, state, k)
        invariant |changed| == |old(changed)| == |files| == |old(files)|
        invariant pendingFiles == CountTrue(changed, |changed|)
        invariant forall f :: 0 <= f < |changed| && !changed[f] ==> !old(changed)[f] && files[f] == old(files)[f]
        invariant forall f :: 0 <= f < |changed| && changed[f] ==> old(changed)[f] || Touches(overlaps, f)
        invariant pendingFiles <= old(pendingFiles) + k
      {
        var f := overlaps[k].file;
        CreditStep(old(files), files, overlaps, state, k);
        files := files[f := Plus(files[f], Credit(overlaps[k].bytes, state))];
        if !changed[f] {
          CountAfterFlip(changed, f, |changed|);
          changed := changed[f := true];
          pendingFiles := pendingFiles + 1;
        }
      }
    }

    /**
      A piece counts the first time it is reported, if it can be hashed at all. Pending ranges and files are
      delivered when there are 256 of either, and not before.
    */
    method Record(piece: nat, state: PieceState)
      requires Valid()
      modifies this
      ensures |files| == |old(files)|
      ensures Valid() && (old(cancelled) ==> cancelled)
      ensures !cancelled && piece < |layouts| && old(recorded)[piece].None? && layouts[piece].hashable ==>
                recorded == old(recorded)[piece := Some(state)]
      ensures piece >= |layouts| || old(recorded)[piece].Some? || !layouts[piece].hashable ==> recorded == old(recorded)
      ensures recorded == old(recorded) || (piece < |layouts| && recorded == old(recorded)[piece := Some(state)])
      ensures old(cancelled) ==> Now() == old(Now())
      ensures !cancelled && |old(ranges)| < 256 && old(pendingFiles) < 256 ==> |ranges| < 256 && pendingFiles < 256
      ensures piece < |layouts| && |old(ranges)| < 255 && old(pendingFiles) + |layouts[piece].overlaps| < 256 ==>
                delivered == old(delivered)
      ensures Looks(events) > old(Looks(events)) && old(delivered) <= delivered
    {
      hide PiecesOnce, FilesUpToDate, Numbered, Coalesced, Spoken, Looks;
      var c := IsCancelled();
      if c || piece >= |emitted| || emitted[piece] { return; }
      if !layouts[piece].hashable { return; }
      RecordNew(piece, state);
      if |ranges| >= MAX_RANGES || pendingFiles >= MAX_FILES {
        Deliver(true);
      }
    }

    method RecordNew(piece: nat, state: PieceState)
      requires Valid() && piece < |layouts| && !emitted[piece] && layouts[piece].hashable
      modifies this`emitted, this`files, this`changed, this`pendingFiles, this`ranges, this`recorded
      ensures |files| == |old(files)|
      ensures Valid() && recorded == old(recorded)[piece := Some(state)]
      ensures |ranges| <= |old(ranges)| + 1 && pendingFiles <= old(pendingFiles) + |layouts[piece].overlaps|
    {
      hide PiecesOnce, LastCounters, CountTrue, Occurrences, DeliveredRanges, Totals, Credited, ListsOneMore;
      ghost var before := Now();
      UnrecordedIsAbsent(before, piece);
      emitted := emitted[piece := true];
      recorded := recorded[piece := Some(state)];
      CreditFiles(layouts[piece].overlaps, state);
      ranges := InsertRange(ranges, piece, state);
      RecordKeepsPieces(before, Now(), piece, state);
      RecordKeepsFiles(before, Now(), piece, state);
    }

    /** One round of the loop of complete. */
    method RecordMissing(piece: nat, states: seq<PieceState>, ghost before: seq<Option<PieceState>>)
      requires Valid() && piece < |layouts| == |before|
      modifies this
      ensures |files| == |old(files)|
      ensures Valid() && (old(cancelled) ==> cancelled)
      ensures !cancelled && old(recorded) == Completed(layouts, before, states, piece) ==>
                recorded == Completed(layouts, before, states, piece + 1)
      ensures old(cancelled) ==> Now() == old(Now())
      ensures Looks(events) >= old(Looks(events))
    {
      hide PiecesOnce, FilesUpToDate, Numbered, Coalesced, Spoken, Looks;
      if !emitted[piece] {
        var state := if piece < |states| then states[piece] else Mismatched;
        Record(piece, state);
      }
    }

    /** Everything not yet recorded is recorded with its final state and everything is delivered. */
    method Complete(states: seq<PieceState>)
      requires Valid()
      modifies this
      ensures |files| == |old(files)|
      ensures Valid() && (old(cancelled) ==> cancelled)
      ensures !cancelled ==> NothingPending(Now())
      ensures !cancelled ==> recorded == Completed(layouts, old(recorded), states, |layouts|)
      ensures old(cancelled) ==> Now() == old(Now())
      ensures !cancelled ==> Looks(events) >= old(Looks(events)) + |layouts| + 2
    {
      hide PiecesOnce, FilesUpToDate, Numbered, Coalesced, Spoken, Looks;
      Deliver(true);
      var piece: nat := 0;
      var stop := false;
      if piece < |emitted| { stop := IsCancelled(); }
      while piece < |emitted| && !stop
        invariant Valid() && (old(cancelled) ==> cancelled) && piece <= |layouts| && (stop ==> cancelled)
        invariant |files| == |old(files)|
        invariant !cancelled ==> recorded == Completed(layouts, old(recorded), states, piece)
        invariant old(cancelled) ==> Now() == old(Now())
        invariant Looks(events) >= old(Looks(events)) + 1 + Min(piece + 1, |layouts|)
        decreases |layouts| - piece, !stop
      {
        RecordMissing(piece, states, old(recorded));
        piece := piece + 1;
        if piece < |emitted| { stop := IsCancelled(); }
      }
      Deliver(true);
    }
  }

  lemma SuffixIsCoalesced(nodes: seq<Node>, n: nat)
    requires Coalesced(nodes) && n <= |nodes|
    ensures Coalesced(nodes[n..])
  {
    forall i | 0 < i < |nodes[n..]| ensures ApartAt(nodes[n..], i) {
      assert ApartAt(nodes, n + i);
    }
  }

  lemma {:induction false} NothingRecorded(layouts: seq<Layout>, recorded: seq<Option<PieceState>>, f: nat, n: nat)
    requires n <= |layouts| == |recorded| && forall p :: 0 <= p < |recorded| ==> recorded[p].None?
    ensures Totals(layouts, recorded, f, n) == ZERO
  {
    if n > 0 { NothingRecorded(layouts, recorded, f, n - 1); }
  }
}
