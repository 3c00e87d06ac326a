/** What verification counts: byte overlaps of pieces with files, and totals over piece states. */
module VerificationTotals {
  import opened Wrappers

  datatype PieceState = Verified | Mismatched

  /** `file` indexes the reported files, which leave padding files out. */
  datatype Overlap = Overlap(file: nat, bytes: nat)

  datatype Layout = Layout(hashable: bool, overlaps: seq<Overlap>)

  datatype Counters = Counters(hashed: nat, verified: nat, mismatched: nat)

  const ZERO := Counters(0, 0, 0)

  function Plus(a: Counters, b: Counters): Counters {
    Counters(a.hashed + b.hashed, a.verified + b.verified, a.mismatched + b.mismatched)
  }

  function Credit(bytes: nat, state: PieceState): Counters {
    if state.Verified? then Counters(bytes, bytes, 0) else Counters(bytes, 0, bytes)
  }

  predicate InRange(layouts: seq<Layout>, fileCount: nat) {
    forall p, k :: 0 <= p < |layouts| && 0 <= k < |layouts[p].overlaps| ==> layouts[p].overlaps[k].file < fileCount
  }

  /** Bytes of one file among the first `n` overlaps of a piece. */
  function OverlapBytes(overlaps: seq<Overlap>, f: nat, n: nat): nat
    requires n <= |overlaps|
  {
    if n == 0 then 0
    else OverlapBytes(overlaps, f, n - 1) + if overlaps[n - 1].file == f then overlaps[n - 1].bytes else 0
  }

  function PieceBytes(layout: Layout, f: nat): nat {
    OverlapBytes(layout.overlaps, f, |layout.overlaps|)
  }

  /** Bytes of one file in the first `n` pieces. */
  function FileBytes(layouts: seq<Layout>, f: nat, n: nat): nat
    requires n <= |layouts|
  {
    if n == 0 then 0 else FileBytes(layouts, f, n - 1) + PieceBytes(layouts[n - 1], f)
  }

  /** What the known states of the first `n` pieces add up to for one file. */
  function Totals(layouts: seq<Layout>, states: seq<Option<PieceState>>, f: nat, n: nat): Counters
    requires n <= |layouts| == |states|
  {
    if n == 0 then ZERO
    else
      var before := Totals(layouts, states, f, n - 1);
      match states[n - 1]
      case None => before
      case Some(state) => Plus(before, Credit(PieceBytes(layouts[n - 1], f), state))
  }

  /** Every hashed byte is verified or mismatched, and no file has more of them than its pieces hold. */
  lemma {:induction false} TotalsAreConserved(layouts: seq<Layout>, states: seq<Option<PieceState>>, f: nat, n: nat)
    requires n <= |layouts| == |states|
    ensures Totals(layouts, states, f, n).hashed
         == Totals(layouts, states, f, n).verified + Totals(layouts, states, f, n).mismatched
    ensures Totals(layouts, states, f, n).hashed <= FileBytes(layouts, f, n)
  {
    if n > 0 { TotalsAreConserved(layouts, states, f, n - 1); }
  }

  /** Bytes of a file in those of the first `n` pieces that have the given state. */
  function BytesIn(layouts: seq<Layout>, states: seq<Option<PieceState>>, f: nat, n: nat, state: PieceState): nat
    requires n <= |layouts| == |states|
  {
    if n == 0 then 0
    else
      BytesIn(layouts, states, f, n - 1, state)
      + if states[n - 1] == Some(state) then PieceBytes(layouts[n - 1], f) else 0
  }

  /** Verified bytes are those of verified pieces, and mismatched ones those of mismatched pieces. */
  lemma {:induction false} TotalsByState(layouts: seq<Layout>, states: seq<Option<PieceState>>, f: nat, n: nat)
    requires n <= |layouts| == |states|
    ensures Totals(layouts, states, f, n).verified == BytesIn(layouts, states, f, n, Verified)
    ensures Totals(layouts, states, f, n).mismatched == BytesIn(layouts, states, f, n, Mismatched)
  {
    if n > 0 { TotalsByState(layouts, states, f, n - 1); }
  }

  /** With every piece verified, every byte of every file is verified. */
  lemma {:induction false} AllVerifiedTotals(layouts: seq<Layout>, states: seq<Option<PieceState>>, f: nat, n: nat)
    requires n <= |layouts| == |states|
    requires forall p :: 0 <= p < n ==> states[p] == Some(Verified)
    ensures Totals(layouts, states, f, n) == Counters(FileBytes(layouts, f, n), FileBytes(layouts, f, n), 0)
  {
    if n > 0 { AllVerifiedTotals(layouts, states, f, n - 1); }
  }

  /** Learning the state of one more piece adds its bytes, wherever the piece stands. */
  lemma {:induction false} TotalsWithPiece(layouts: seq<Layout>, states: seq<Option<PieceState>>, f: nat, n: nat,
                                           piece: nat, state: PieceState)
    requires n <= |layouts| == |states| && piece < |layouts| && states[piece].None?
    ensures Totals(layouts, states[piece := Some(state)], f, n)
         == if piece < n then Plus(Totals(layouts, states, f, n), Credit(PieceBytes(layouts[piece], f), state))
            else Totals(layouts, states, f, n)
  {
    if n > 0 { TotalsWithPiece(layouts, states, f, n - 1, piece, state); }
  }

  predicate OverlapsInRange(overlaps: seq<Overlap>, fileCount: nat) {
    forall k :: 0 <= k < |overlaps| ==> overlaps[k].file < fileCount
  }

  /** `after` is `before` with the first `n` overlaps credited to their files. */
  ghost predicate Credited(before: seq<Counters>, after: seq<Counters>, overlaps: seq<Overlap>, state: PieceState,
                           n: nat)
    requires n <= |overlaps|
  {
    && |after| == |before|
    && forall f :: 0 <= f < |before| ==> after[f] == Plus(before[f], Credit(OverlapBytes(overlaps, f, n), state))
  }

  lemma NothingCredited(before: seq<Counters>, overlaps: seq<Overlap>, state: PieceState)
    ensures Credited(before, before, overlaps, state, 0)
  {
  }

  lemma CreditStep(before: seq<Counters>, after: seq<Counters>, overlaps: seq<Overlap>, state: PieceState, n: nat)
    requires n < |overlaps| && overlaps[n].file < |before| && Credited(before, after, overlaps, state, n)
    ensures |after| == |before|
    ensures Credited(before, after[overlaps[n].file := Plus(after[overlaps[n].file], Credit(overlaps[n].bytes, state))],
                     overlaps, state, n + 1)
  {
  }

  /** Sum of the counters of the first `n` files. */
  function SumUpTo(files: seq<Counters>, n: nat): Counters
    requires n <= |files|
  {
    if n == 0 then ZERO else Plus(SumUpTo(files, n - 1), files[n - 1])
  }

  function SumOf(files: seq<Counters>): Counters { SumUpTo(files, |files|) }

  lemma {:induction false} SumUpToUpdate(files: seq<Counters>, f: nat, extra: Counters, n: nat)
    requires f < |files| && n <= |files|
    ensures SumUpTo(files[f := Plus(files[f], extra)], n)
         == if f < n then Plus(SumUpTo(files, n), extra) else SumUpTo(files, n)
  {
    if n > 0 { SumUpToUpdate(files, f, extra, n - 1); }
  }

  lemma SumWithUpdate(files: seq<Counters>, f: nat, extra: Counters)
    requires f < |files|
    ensures SumOf(files[f := Plus(files[f], extra)]) == Plus(SumOf(files), extra)
  {
    SumUpToUpdate(files, f, extra, |files|);
  }

  lemma {:induction false} SumOfZeros(files: seq<Counters>, n: nat)
    requires n <= |files| && forall f :: 0 <= f < |files| ==> files[f] == ZERO
    ensures SumUpTo(files, n) == ZERO
  {
    if n > 0 { SumOfZeros(files, n - 1); }
  }
}
