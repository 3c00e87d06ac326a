/**
  Piece layouts of verification, as built by libtorrent_adapter.cpp: which bytes of which file each
  piece holds. `poll(k)` is what the k-th look at the cancellation token sees.
*/
module VerificationLayouts {
  import opened Numbers
  import opened Wrappers
  import opened VerificationTotals

  datatype File = File(length: nat, padding: bool)

  /** A file as libtorrent enumerates it. */
  datatype BackendFile = BackendFile(padding: bool, size: nat, firstPiece: int, pieceCount: nat)

  datatype Outcome = Layouts(value: seq<Layout>) | LayoutError | Cancelled

  /** Offset of the n-th file in the concatenation of all files. */
  function Begin(files: seq<File>, n: nat): nat
    requires n <= |files|
  {
    if n == 0 then 0 else Begin(files, n - 1) + files[n - 1].length
  }

  /** Index of the n-th file among the reported ones. */
  function Reported(files: seq<File>, n: nat): nat
    requires n <= |files|
  {
    if n == 0 then 0 else Reported(files, n - 1) + if files[n - 1].padding then 0 else 1
  }

  function PieceBegin(piece: nat, pieceLength: nat): nat { piece * pieceLength }

  function PieceEnd(piece: nat, pieceLength: nat, total: nat): nat {
    Min(piece * pieceLength + pieceLength, total)
  }

  /** Bytes of the n-th file between two offsets. */
  function Clip(files: seq<File>, n: nat, begin: nat, end: nat): nat
    requires n < |files|
  {
    var lo := Max(begin, Begin(files, n));
    var hi := Min(end, Begin(files, n + 1));
    if lo < hi then hi - lo else 0
  }

  /** Overlaps of the first `n` files with the bytes between two offsets. */
  function Overlaps(files: seq<File>, n: nat, begin: nat, end: nat): seq<Overlap>
    requires n <= |files|
  {
    if n == 0 then []
    else if files[n - 1].padding || Clip(files, n - 1, begin, end) == 0 then Overlaps(files, n - 1, begin, end)
    else Overlaps(files, n - 1, begin, end) + [Overlap(Reported(files, n - 1), Clip(files, n - 1, begin, end))]
  }

  /** Whether every byte needed of the first `n` files is there to be hashed. */
  predicate Hashable(files: seq<File>, available: seq<nat>, n: nat, begin: nat, end: nat)
    requires n <= |files| == |available|
  {
    forall k :: 0 <= k < n && !files[k].padding && Clip(files, k, begin, end) > 0 ==>
      Min(end, Begin(files, k + 1)) - Begin(files, k) <= available[k]
  }

  function LayoutOf(files: seq<File>, available: seq<nat>, pieceLength: nat, total: nat, piece: nat): Layout
    requires |files| == |available|
  {
    var begin, end := PieceBegin(piece, pieceLength), PieceEnd(piece, pieceLength, total);
    Layout(Hashable(files, available, |files|, begin, end), Overlaps(files, |files|, begin, end))
  }

  function AllLayouts(files: seq<File>, available: seq<nat>, pieceLength: nat, total: nat, pieceCount: nat): seq<Layout>
    requires |files| == |available|
  {
    seq(pieceCount, p requires p >= 0 => LayoutOf(files, available, pieceLength, total, p))
  }

  /** v1 and hybrid torrents: the loops over pieces and files. Only cancellation makes them fail. */
  method FlatLayouts(files: seq<File>, available: seq<nat>, pieceLength: nat, total: nat, pieceCount: nat,
                     poll: nat -> bool) returns (r: Outcome)
    requires |files| == |available|
    ensures r.Cancelled? <==> exists k :: 0 <= k <= pieceCount && poll(k)
    ensures r.Cancelled? || r.Layouts?
    ensures r.Layouts? ==> r.value == AllLayouts(files, available, pieceLength, total, pieceCount)
  {
    hide Overlaps, Hashable;
    var layouts: seq<Layout> := [];
    for piece := 0 to pieceCount
      invariant forall k :: 0 <= k < piece ==> !poll(k)
      invariant layouts == AllLayouts(files, available, pieceLength, total, piece)
    {
      if poll(piece) { return Cancelled; }
      var begin: nat := piece * pieceLength;
      var layout := PieceLayout(files, available, begin, Min(begin + pieceLength, total));
      layouts := layouts + [layout];
    }
    if poll(pieceCount) { return Cancelled; }
    return Layouts(layouts);
  }

  lemma HashableStep(files: seq<File>, available: seq<nat>, n: nat, begin: nat, end: nat)
    requires n < |files| == |available|
    ensures Hashable(files, available, n + 1, begin, end) <==>
            Hashable(files, available, n, begin, end)
            && (!files[n].padding && Clip(files, n, begin, end) > 0 ==>
                  Min(end, Begin(files, n + 1)) - Begin(files, n) <= available[n])
  {
  }

  /** The loop over the files for one piece, here between two offsets. */
  method PieceLayout(files: seq<File>, available: seq<nat>, pieceBegin: nat, pieceEnd: nat) returns (layout: Layout)
    requires |files| == |available|
    ensures layout.hashable == Hashable(files, available, |files|, pieceBegin, pieceEnd)
    ensures layout.overlaps == Overlaps(files, |files|, pieceBegin, pieceEnd)
  {
    hide Hashable;
    var fileBegin: nat := 0;
    var reportIndex: nat := 0;
    layout := Layout(true, []);
    assert Hashable(files, available, 0, pieceBegin, pieceEnd) by {
      NothingToHash(files, available, pieceBegin, pieceEnd);
    }
    for index := 0 to |files|
      invariant fileBegin == Begin(files, index) && reportIndex == Reported(files, index)
      invariant layout.overlaps == Overlaps(files, index, pieceBegin, pieceEnd)
      invariant layout.hashable == Hashable(files, available, index, pieceBegin, pieceEnd)
    {
      HashableStep(files, available, index, pieceBegin, pieceEnd);
      var file := files[index];
      var fileEnd := fileBegin + file.length;
      var overlapBegin := Max(pieceBegin, fileBegin);
      var overlapEnd := Min(pieceEnd, fileEnd);
      if !file.padding && overlapBegin < overlapEnd {
        layout := layout.(overlaps := layout.overlaps + [Overlap(reportIndex, overlapEnd - overlapBegin)]);
        if overlapEnd - fileBegin > available[index] {
          layout := layout.(hashable := false);
        }
      }
      if !file.padding { reportIndex := reportIndex + 1; }
      fileBegin := fileEnd;
    }
  }

  lemma NothingToHash(files: seq<File>, available: seq<nat>, begin: nat, end: nat)
    requires |files| == |available|
    ensures Hashable(files, available, 0, begin, end)
  {
  }

  // ----- tiling -------------------------------------------------------------------------------------------

  function SumOverlaps(overlaps: seq<Overlap>): nat {
    if overlaps == [] then 0 else SumOverlaps(overlaps[..|overlaps| - 1]) + overlaps[|overlaps| - 1].bytes
  }

  function PaddingBytes(files: seq<File>, n: nat, begin: nat, end: nat): nat
    requires n <= |files|
  {
    if n == 0 then 0
    else PaddingBytes(files, n - 1, begin, end) + if files[n - 1].padding then Clip(files, n - 1, begin, end) else 0
  }

  lemma {:induction false} TilesUpTo(files: seq<File>, n: nat, begin: nat, end: nat)
    requires n <= |files| && begin <= end
    ensures SumOverlaps(Overlaps(files, n, begin, end)) + PaddingBytes(files, n, begin, end)
         == Max(begin, Min(end, Begin(files, n))) - begin
  {
    hide SumOverlaps, Clip, Begin;
    if n == 0 {
      NothingYet(files, begin, end);
    } else {
      TilesUpTo(files, n - 1, begin, end);
      SumWithOverlap(Overlaps(files, n - 1, begin, end),
                     Overlap(Reported(files, n - 1), Clip(files, n - 1, begin, end)));
      ClipExtends(files, n - 1, begin, end);
    }
  }

  lemma NothingYet(files: seq<File>, begin: nat, end: nat)
    ensures SumOverlaps([]) == 0 && Begin(files, 0) == 0
  {
  }

  lemma SumWithOverlap(overlaps: seq<Overlap>, last: Overlap)
    ensures SumOverlaps(overlaps + [last]) == SumOverlaps(overlaps) + last.bytes
  {
    assert (overlaps + [last])[..|overlaps|] == overlaps;
  }

  lemma ClipExtends(files: seq<File>, n: nat, begin: nat, end: nat)
    requires n < |files| && begin <= end
    ensures Max(begin, Min(end, Begin(files, n))) + Clip(files, n, begin, end)
         == Max(begin, Min(end, Begin(files, n + 1)))
  {
  }

  /** The overlaps of a piece and the padding in it fill it completely. */
  lemma {:induction false} PieceIsTiled(files: seq<File>, available: seq<nat>, pieceLength: nat, piece: nat)
    requires |files| == |available| && piece * pieceLength <= Begin(files, |files|)
    ensures var total := Begin(files, |files|);
            var end := PieceEnd(piece, pieceLength, total);
            SumOverlaps(LayoutOf(files, available, pieceLength, total, piece).overlaps)
            + PaddingBytes(files, |files|, PieceBegin(piece, pieceLength), end)
            == end - PieceBegin(piece, pieceLength)
  {
    TilesUpTo(files, |files|, PieceBegin(piece, pieceLength), PieceEnd(piece, pieceLength, Begin(files, |files|)));
  }

  // ----- each file is covered exactly ----------------------------------------------------------------------

  lemma {:induction false} OverlapBytesPrefix(a: seq<Overlap>, last: Overlap, f: nat, n: nat)
    requires n <= |a|
    ensures OverlapBytes(a + [last], f, n) == OverlapBytes(a, f, n)
  {
    if n > 0 { OverlapBytesPrefix(a, last, f, n - 1); }
  }

  lemma {:induction false} ReportedGrows(files: seq<File>, i: nat, j: nat)
    requires i < j <= |files| && !files[i].padding
    ensures Reported(files, i) < Reported(files, j)
    decreases j
  {
    if i < j - 1 { ReportedGrows(files, i, j - 1); }
  }

  /** Bytes a piece holds of a reported file, and of a number that is not reported yet. */
  lemma {:induction false} BytesOfReported(files: seq<File>, n: nat, begin: nat, end: nat, i: nat)
    requires n <= |files| && i < |files| && !files[i].padding
    ensures var overlaps := Overlaps(files, n, begin, end);
            OverlapBytes(overlaps, Reported(files, i), |overlaps|) == if i < n then Clip(files, i, begin, end) else 0
  {
    if n > 0 {
      BytesOfReported(files, n - 1, begin, end, i);
      var before := Overlaps(files, n - 1, begin, end);
      var last := Overlap(Reported(files, n - 1), Clip(files, n - 1, begin, end));
      OverlapBytesPrefix(before, last, Reported(files, i), |before|);
      if !files[n - 1].padding {
        if i < n - 1 { ReportedGrows(files, i, n - 1); }
        if n - 1 < i { ReportedGrows(files, n - 1, i); }
      }
    }
  }

  lemma NothingInEmptyRange(files: seq<File>, i: nat)
    requires i < |files|
    ensures Clip(files, i, 0, 0) == 0
  {
  }

  lemma ClipsJoin(files: seq<File>, i: nat, begin: nat, end: nat, total: nat)
    requires i < |files| && begin <= end
    ensures Clip(files, i, 0, Min(begin, total)) + Clip(files, i, begin, Min(end, total))
         == Clip(files, i, 0, Min(end, total))
  {
    hide Begin;
    assert Begin(files, i) <= Begin(files, i + 1) by { BeginGrows(files, i, i + 1); }
  }

  lemma {:induction false} CoveredSoFar(files: seq<File>, available: seq<nat>, pieceLength: nat, pieceCount: nat,
                                        i: nat, n: nat)
    requires |files| == |available| && n <= pieceCount && i < |files| && !files[i].padding
    ensures FileBytes(AllLayouts(files, available, pieceLength, Begin(files, |files|), pieceCount),
                      Reported(files, i), n)
         == Clip(files, i, 0, Min(n * pieceLength, Begin(files, |files|)))
  {
    hide Clip, Overlaps, Begin, Reported, OverlapBytes, Hashable;
    NothingInEmptyRange(files, i);
    if n > 0 {
      CoveredSoFar(files, available, pieceLength, pieceCount, i, n - 1);
      var total := Begin(files, |files|);
      var begin := PieceBegin(n - 1, pieceLength);
      BytesOfReported(files, |files|, begin, PieceEnd(n - 1, pieceLength, total), i);
      assert n * pieceLength == begin + pieceLength;
      ClipsJoin(files, i, begin, begin + pieceLength, total);
    }
  }

  lemma {:induction false} BeginGrows(files: seq<File>, i: nat, j: nat)
    requires i <= j <= |files|
    ensures Begin(files, i) <= Begin(files, j)
    decreases j
  {
    if i < j { BeginGrows(files, i, j - 1); }
  }

  /** Over all pieces, the overlaps of a reported file add up to its length. */
  lemma {:induction false} FileIsCovered(files: seq<File>, available: seq<nat>, pieceLength: nat, pieceCount: nat,
                                         i: nat)
    requires |files| == |available| && i < |files| && !files[i].padding
    requires Begin(files, |files|) <= pieceCount * pieceLength
    ensures FileBytes(AllLayouts(files, available, pieceLength, Begin(files, |files|), pieceCount),
                      Reported(files, i), pieceCount) == files[i].length
  {
    CoveredSoFar(files, available, pieceLength, pieceCount, i, pieceCount);
    BeginGrows(files, i + 1, |files|);
  }

  // ----- byte by byte ----------------------------------------------------------------------------------------

  /** Byte `o` of the n-th file lies between two offsets. */
  predicate ByteIn(files: seq<File>, n: nat, o: nat, begin: nat, end: nat)
    requires n < |files|
  {
    begin <= Begin(files, n) + o < end
  }

  /** Whether the bytes of the n-th file between two offsets are there to be hashed. */
  ghost predicate BytesThere(files: seq<File>, available: seq<nat>, n: nat, begin: nat, end: nat)
    requires n < |files| == |available|
  {
    forall o: nat :: o < files[n].length && ByteIn(files, n, o, begin, end) ==> o < available[n]
  }

  lemma {:induction false} BytesThereIff(files: seq<File>, available: seq<nat>, n: nat, begin: nat, end: nat)
    requires n < |files| == |available|
    ensures BytesThere(files, available, n, begin, end)
       <==> (Clip(files, n, begin, end) > 0 ==> Min(end, Begin(files, n + 1)) - Begin(files, n) <= available[n])
  {
    var from, next := Begin(files, n), Begin(files, n + 1);
    hide Begin;
    assert next == from + files[n].length by { NextBegin(files, n); }
    if Clip(files, n, begin, end) > 0 {
      var last := Min(end, next) - from - 1;
      assert ByteIn(files, n, last, begin, end);
    }
  }

  lemma NextBegin(files: seq<File>, n: nat)
    requires n < |files|
    ensures Begin(files, n + 1) == Begin(files, n) + files[n].length
  {
  }

  /** A piece is hashable iff every byte it holds of a reported file is there. */
  lemma {:induction false} FlatHashableIff(files: seq<File>, available: seq<nat>, pieceLength: nat, total: nat,
                                           piece: nat)
    requires |files| == |available|
    ensures LayoutOf(files, available, pieceLength, total, piece).hashable
       <==> AllThere(files, available, |files|, piece * pieceLength, Min(piece * pieceLength + pieceLength, total))
  {
    HashableUpToIff(files, available, |files|, PieceBegin(piece, pieceLength), PieceEnd(piece, pieceLength, total));
  }

  ghost predicate AllThere(files: seq<File>, available: seq<nat>, n: nat, begin: nat, end: nat)
    requires n <= |files| == |available|
  {
    forall k :: 0 <= k < n && !files[k].padding ==> BytesThere(files, available, k, begin, end)
  }

  lemma {:induction false} HashableUpToIff(files: seq<File>, available: seq<nat>, n: nat, begin: nat, end: nat)
    requires n <= |files| == |available|
    ensures Hashable(files, available, n, begin, end) <==> AllThere(files, available, n, begin, end)
  {
    hide BytesThere, Clip, Begin;
    if n == 0 {
      NothingToHash(files, available, begin, end);
    } else {
      HashableUpToIff(files, available, n - 1, begin, end);
      HashableStep(files, available, n - 1, begin, end);
      BytesThereIff(files, available, n - 1, begin, end);
    }
  }

  /** Overlaps are not empty and stand in the order of the files, each of which has at most one. */
  ghost predicate Proper(overlaps: seq<Overlap>, fileCount: nat) {
    && OverlapsInRange(overlaps, fileCount)
    && (forall k :: 0 <= k < |overlaps| ==> overlaps[k].bytes > 0)
    && (forall j, k :: 0 <= j < k < |overlaps| ==> overlaps[j].file < overlaps[k].file)
  }

  lemma {:induction false} OverlapsAreProper(files: seq<File>, n: nat, begin: nat, end: nat)
    requires n <= |files|
    ensures Proper(Overlaps(files, n, begin, end), Reported(files, n))
  {
    if n > 0 { OverlapsAreProper(files, n - 1, begin, end); }
  }

  predicate InPiece(files: seq<File>, n: nat, o: nat, piece: nat, pieceLength: nat, total: nat)
    requires n < |files|
  {
    ByteIn(files, n, o, piece * pieceLength, Min(piece * pieceLength + pieceLength, total))
  }

  /** A piece holds, of every reported file, exactly the bytes between two offsets in the file. */
  lemma {:induction false} FlatPieceHolds(files: seq<File>, available: seq<nat>, pieceLength: nat, total: nat,
                                          piece: nat, i: nat)
    returns (from: nat)
    requires |files| == |available| && i < |files| && !files[i].padding
    ensures var layout := LayoutOf(files, available, pieceLength, total, piece);
            && Proper(layout.overlaps, Reported(files, |files|))
            && forall o: nat :: o < files[i].length ==>
                 (InPiece(files, i, o, piece, pieceLength, total)
                  <==> from <= o < from + PieceBytes(layout, Reported(files, i)))
  {
    var begin, end := PieceBegin(piece, pieceLength), PieceEnd(piece, pieceLength, total);
    OverlapsAreProper(files, |files|, begin, end);
    BytesOfReported(files, |files|, begin, end, i);
    hide Proper, Overlaps, Reported, Hashable, Begin, OverlapBytes, ByteIn, Clip;
    from := Max(begin, Begin(files, i)) - Begin(files, i);
    ClipIsRange(files, i, begin, end);
  }

  lemma ClipIsRange(files: seq<File>, i: nat, begin: nat, end: nat)
    requires i < |files|
    ensures var from := Max(begin, Begin(files, i)) - Begin(files, i);
            forall o: nat :: o < files[i].length ==>
              (ByteIn(files, i, o, begin, end) <==> from <= o < from + Clip(files, i, begin, end))
  {
    NextBegin(files, i);
    hide Begin;
  }

  // ----- v2 torrents -----------------------------------------------------------------------------------------

  /** The content files among the first `n` of libtorrent's files. */
  function Content(backend: seq<BackendFile>, n: nat): seq<BackendFile>
    requires n <= |backend|
  {
    if n == 0 then []
    else if backend[n - 1].padding then Content(backend, n - 1)
    else Content(backend, n - 1) + [backend[n - 1]]
  }

  lemma {:induction false} ContentGrows(backend: seq<BackendFile>, i: nat, j: nat)
    requires i <= j <= |backend|
    ensures Content(backend, i) <= Content(backend, j)
    decreases j
  {
    if i < j { ContentGrows(backend, i, j - 1); }
  }

  /** `count` pieces are exactly what `length` bytes need, and they exist. */
  predicate Fits(length: nat, first: int, count: nat, pieceLength: nat, pieceCount: nat) {
    if count == 0 then length == 0
    else (count - 1) * pieceLength < length <= count * pieceLength && 0 <= first && first + count <= pieceCount
  }

  predicate FileMatches(file: File, backend: BackendFile, pieceLength: nat, pieceCount: nat) {
    backend.size == file.length && Fits(file.length, backend.firstPiece, backend.pieceCount, pieceLength, pieceCount)
  }

  predicate Matches(files: seq<File>, content: seq<BackendFile>, pieceLength: nat, pieceCount: nat) {
    |content| == |files| && forall k :: 0 <= k < |files| ==> FileMatches(files[k], content[k], pieceLength, pieceCount)
  }

  /** Bytes of a file in the k-th of its own pieces. */
  function BytesAt(length: nat, k: nat, pieceLength: nat): nat {
    if k * pieceLength <= length then Min(pieceLength, length - k * pieceLength) else 0
  }

  /** The layouts after one file has been laid over `count` pieces from `first`. */
  function Placed(layouts: seq<Layout>, index: nat, length: nat, first: int, count: nat,
                  pieceLength: nat, available: nat): (r: seq<Layout>)
    ensures |r| == |layouts|
  {
    seq(|layouts|, p requires 0 <= p < |layouts| =>
      if first <= p < first + count
      then Layout(layouts[p].hashable && Min((p - first + 1) * pieceLength, length) <= available,
                  layouts[p].overlaps + [Overlap(index, BytesAt(length, p - first, pieceLength))])
      else layouts[p])
  }

  /** The layouts after the first `n` files. */
  function PlacedFiles(files: seq<File>, available: seq<nat>, content: seq<BackendFile>,
                       pieceLength: nat, pieceCount: nat, n: nat): (r: seq<Layout>)
    requires n <= |files| == |available| && n <= |content|
    ensures |r| == pieceCount
  {
    if n == 0 then seq(pieceCount, _ => Layout(true, []))
    else Placed(PlacedFiles(files, available, content, pieceLength, pieceCount, n - 1), n - 1, files[n - 1].length,
                content[n - 1].firstPiece, content[n - 1].pieceCount, pieceLength, available[n - 1])
  }

  lemma PlacedStep(layouts: seq<Layout>, index: nat, length: nat, first: int, k: nat, pieceLength: nat, available: nat)
    requires 0 <= first + k < |layouts|
    ensures Placed(layouts, index, length, first, k, pieceLength, available)[first + k] == layouts[first + k]
    ensures Placed(layouts, index, length, first, k + 1, pieceLength, available)
         == Placed(layouts, index, length, first, k, pieceLength, available)[first + k :=
              Layout(layouts[first + k].hashable && Min((k + 1) * pieceLength, length) <= available,
                     layouts[first + k].overlaps + [Overlap(index, BytesAt(length, k, pieceLength))])]
  {
    var before := Placed(layouts, index, length, first, k, pieceLength, available);
    var after := Placed(layouts, index, length, first, k + 1, pieceLength, available);
    forall p | 0 <= p < |layouts| && p != first + k ensures after[p] == before[p] {
      if first <= p < first + k { assert p - first + 1 <= k; }
    }
    assert (first + k) - first == k;
  }

  /** Whether one of these looks at the token sees a cancellation. */
  ghost predicate Sees(poll: nat -> bool, from: nat, to: nat) { exists k: nat :: from <= k < to && poll(k) }

  /** Looks of the piece loop from its `from`-th round on, when none of them sees a cancellation. */
  function PiecePolls(length: nat, first: int, count: nat, pieceLength: nat, pieceCount: nat, from: nat): nat
    decreases count - from
  {
    if from >= count then 0
    else if first + from < 0 || first + from >= pieceCount || from * pieceLength >= length then 1
    else 1 + PiecePolls(length, first, count, pieceLength, pieceCount, from + 1)
  }

  /** Looks of the file loop from its `index`-th round on, with so many content files before. */
  function TreePolls(files: seq<File>, backend: seq<BackendFile>, pieceLength: nat, pieceCount: nat, index: nat,
                     logical: nat): nat
    decreases |backend| - index
  {
    if index >= |backend| then 1
    else if backend[index].padding then 1 + TreePolls(files, backend, pieceLength, pieceCount, index + 1, logical)
    else if logical >= |files| || backend[index].size != files[logical].length then 1
    else
      var file := backend[index];
      1 + PiecePolls(file.size, file.firstPiece, file.pieceCount, pieceLength, pieceCount, 0)
      + if Fits(file.size, file.firstPiece, file.pieceCount, pieceLength, pieceCount)
        then TreePolls(files, backend, pieceLength, pieceCount, index + 1, logical + 1) else 0
  }

  lemma PollStep(length: nat, first: int, count: nat, pieceLength: nat, pieceCount: nat, k: nat)
    requires k < count
    ensures var rest := PiecePolls(length, first, count, pieceLength, pieceCount, k);
            rest == if first + k < 0 || first + k >= pieceCount || Min(k * pieceLength, length) >= length then 1
                    else 1 + PiecePolls(length, first, count, pieceLength, pieceCount, k + 1)
  {
  }

  lemma SeesOneMore(poll: nat -> bool, from: nat, to: nat)
    requires from <= to && !Sees(poll, from, to) && !poll(to)
    ensures !Sees(poll, from, to + 1)
  {
  }

  lemma SeesParts(poll: nat -> bool, a: nat, b: nat, c: nat)
    requires a <= b <= c
    ensures Sees(poll, a, c) <==> Sees(poll, a, b) || Sees(poll, b, c)
  {
  }

  /** The loop over the pieces of one file. */
  method PlaceFile(layouts: seq<Layout>, index: nat, length: nat, first: int, count: nat,
                   pieceLength: nat, available: nat, poll: nat -> bool, seen: nat)
    returns (r: Outcome, looked: nat)
    requires pieceLength > 0
    ensures r.Cancelled? <==> Sees(poll, seen, seen + PiecePolls(length, first, count, pieceLength, |layouts|, 0))
    ensures !r.Cancelled? ==> looked == seen + PiecePolls(length, first, count, pieceLength, |layouts|, 0)
    ensures r.LayoutError? ==> !Fits(length, first, count, pieceLength, |layouts|)
    ensures r.Layouts? ==> Fits(length, first, count, pieceLength, |layouts|)
                           && r.value == Placed(layouts, index, length, first, count, pieceLength, available)
  {
    hide Placed, PiecePolls, Sees;
    ghost var polls := PiecePolls(length, first, count, pieceLength, |layouts|, 0);
    NoLooks(poll, seen);
    looked := seen;
    var result := layouts;
    var fileOffset: nat := 0;
    var filePiece: nat := 0;
    assert result == Placed(layouts, index, length, first, 0, pieceLength, available) by {
      NothingPlaced(layouts, index, length, first, pieceLength, available);
    }
    while filePiece < count
      invariant filePiece <= count && fileOffset == Min(filePiece * pieceLength, length)
      invariant filePiece > 0 ==> (filePiece - 1) * pieceLength < length && 0 <= first && first + filePiece <= |layouts|
      invariant result == Placed(layouts, index, length, first, filePiece, pieceLength, available)
      invariant seen <= looked && !Sees(poll, seen, looked)
      invariant looked + PiecePolls(length, first, count, pieceLength, |layouts|, filePiece) == seen + polls
    {
      PollStep(length, first, count, pieceLength, |layouts|, filePiece);
      if poll(looked) {
        SeesAt(poll, seen, looked, seen + polls);
        return Cancelled, looked + 1;
      }
      SeesOneMore(poll, seen, looked);
      looked := looked + 1;
      var piece := first + filePiece;
      if piece < 0 || piece >= |result| || fileOffset >= length {
        if fileOffset >= length { TooManyPieces(length, filePiece, count, pieceLength); }
        return LayoutError, looked;
      }
      var bytes := Min(pieceLength, length - fileOffset);
      PlacedStep(layouts, index, length, first, filePiece, pieceLength, available);
      NextOffset(length, filePiece, pieceLength);
      result := result[piece := result[piece].(overlaps := result[piece].overlaps + [Overlap(index, bytes)])];
      fileOffset := fileOffset + bytes;
      if fileOffset > available {
        result := result[piece := result[piece].(hashable := false)];
      }
      filePiece := filePiece + 1;
    }
    NoMorePolls(length, first, count, pieceLength, |layouts|);
    if fileOffset != length { return LayoutError, looked; }
    r := Layouts(result);
  }

  lemma NoMorePolls(length: nat, first: int, count: nat, pieceLength: nat, pieceCount: nat)
    ensures PiecePolls(length, first, count, pieceLength, pieceCount, count) == 0
  {
  }

  lemma NoLooks(poll: nat -> bool, k: nat)
    ensures !Sees(poll, k, k)
  {
  }

  lemma SeesAt(poll: nat -> bool, from: nat, k: nat, to: nat)
    requires from <= k < to && poll(k)
    ensures Sees(poll, from, to)
  {
  }

  lemma NothingPlaced(layouts: seq<Layout>, index: nat, length: nat, first: int, pieceLength: nat, available: nat)
    ensures Placed(layouts, index, length, first, 0, pieceLength, available) == layouts
  {
  }

  lemma NextOffset(length: nat, k: nat, pieceLength: nat)
    requires k * pieceLength < length
    ensures Min(k * pieceLength, length) == k * pieceLength
    ensures Min((k + 1) * pieceLength, length) == k * pieceLength + BytesAt(length, k, pieceLength)
  {
  }

  lemma TooManyPieces(length: nat, k: nat, count: nat, pieceLength: nat)
    requires k < count && Min(k * pieceLength, length) >= length
    ensures (count - 1) * pieceLength >= length
  {
    ProductGrows(k, count - 1, pieceLength);
  }

  /** v2 torrents: succeeds exactly when libtorrent's content files match the document's. */
  method TreeLayouts(files: seq<File>, available: seq<nat>, backend: seq<BackendFile>, pieceLength: nat,
                     pieceCount: nat, poll: nat -> bool) returns (r: Outcome)
    requires |files| == |available| && pieceLength > 0
    ensures r.Cancelled? <==> Sees(poll, 0, TreePolls(files, backend, pieceLength, pieceCount, 0, 0))
    ensures r.LayoutError? ==> !Matches(files, Content(backend, |backend|), pieceLength, pieceCount)
    ensures r.Layouts? ==> Matches(files, Content(backend, |backend|), pieceLength, pieceCount)
                           && r.value == PlacedFiles(files, available, Content(backend, |backend|), pieceLength,
                                                     pieceCount, |files|)
  {
    hide Placed, Fits, PiecePolls, Sees;
    ghost var content := Content(backend, |backend|);
    ghost var polls := TreePolls(files, backend, pieceLength, pieceCount, 0, 0);
    NoLooks(poll, 0);
    var layouts := seq(pieceCount, _ => Layout(true, []));
    var logical: nat := 0;
    var looked: nat := 0;
    for index := 0 to |backend|
      invariant |layouts| == pieceCount && logical == |Content(backend, index)| <= |files|
      invariant Content(backend, index) <= content
      invariant forall k :: 0 <= k < logical ==> FileMatches(files[k], content[k], pieceLength, pieceCount)
      invariant layouts == PlacedFiles(files, available, content, pieceLength, pieceCount, logical)
      invariant !Sees(poll, 0, looked)
      invariant looked + TreePolls(files, backend, pieceLength, pieceCount, index, logical) == polls
    {
      ContentGrows(backend, index + 1, |backend|);
      if poll(looked) {
        SeesAt(poll, 0, looked, polls);
        return Cancelled;
      }
      SeesOneMore(poll, 0, looked);
      looked := looked + 1;
      if backend[index].padding { continue; }
      assert content[logical] == backend[index];
      if logical >= |files| { return LayoutError; }
      if backend[index].size != files[logical].length { return LayoutError; }
      var placed;
      ghost var before := looked;
      ghost var filePolls := PiecePolls(files[logical].length, backend[index].firstPiece, backend[index].pieceCount,
                                        pieceLength, pieceCount, 0);
      SeesParts(poll, 0, before, before + filePolls);
      SeesParts(poll, 0, before + filePolls, polls);
      placed, looked := PlaceFile(layouts, logical, files[logical].length, backend[index].firstPiece,
                                  backend[index].pieceCount, pieceLength, available[logical], poll, looked);
      if !placed.Layouts? { return placed; }
      layouts := placed.value;
      logical := logical + 1;
    }
    if poll(looked) {
      SeesAt(poll, 0, looked, polls);
      return Cancelled;
    }
    SeesOneMore(poll, 0, looked);
    if logical != |files| { return LayoutError; }
    r := Layouts(layouts);
  }

  function Covered(length: nat, first: int, count: nat, pieceLength: nat, n: nat): nat {
    if n <= first then 0 else if n - first < count then Min((n - first) * pieceLength, length) else length
  }

  lemma CoveredStep(length: nat, first: int, count: nat, pieceLength: nat, n: nat, pieceCount: nat)
    requires Fits(length, first, count, pieceLength, pieceCount) && n < pieceCount && count > 0
    ensures Covered(length, first, count, pieceLength, n + 1)
         == Covered(length, first, count, pieceLength, n)
            + if first <= n < first + count then BytesAt(length, n - first, pieceLength) else 0
  {
    if first <= n < first + count {
      var k := n - first;
      ProductGrows(k, count - 1, pieceLength);
      NextOffset(length, k, pieceLength);
      if k == 0 { assert 0 * pieceLength == 0; }
      if k == count - 1 { LastPieceEnds(length, count, k, pieceLength); }
      hide BytesAt;
    }
  }

  lemma LastPieceEnds(length: nat, count: nat, k: nat, pieceLength: nat)
    requires k + 1 == count && length <= count * pieceLength
    ensures Min((k + 1) * pieceLength, length) == length
  {
  }

  /** Laying a file over its pieces adds its length to its own bytes and nothing to any other file's. */
  lemma {:induction false} PlacedAddsBytes(layouts: seq<Layout>, index: nat, length: nat, first: int, count: nat,
                                           pieceLength: nat, available: nat, f: nat, n: nat)
    requires Fits(length, first, count, pieceLength, |layouts|) && n <= |layouts|
    ensures FileBytes(Placed(layouts, index, length, first, count, pieceLength, available), f, n)
         == FileBytes(layouts, f, n)
            + if f == index && count > 0 then Covered(length, first, count, pieceLength, n) else 0
  {
    if n > 0 {
      hide Covered, BytesAt, Fits;
      PlacedAddsBytes(layouts, index, length, first, count, pieceLength, available, f, n - 1);
      var p := n - 1;
      if first <= p < first + count {
        OverlapBytesPrefix(layouts[p].overlaps, Overlap(index, BytesAt(length, p - first, pieceLength)), f,
                           |layouts[p].overlaps|);
      }
      if count > 0 { CoveredStep(length, first, count, pieceLength, p, |layouts|); }
    }
  }

  lemma {:induction false} NoBytesYet(pieceCount: nat, f: nat, n: nat)
    requires n <= pieceCount
    ensures FileBytes(seq(pieceCount, _ => Layout(true, [])), f, n) == 0
  {
    if n > 0 { NoBytesYet(pieceCount, f, n - 1); }
  }

  /** Over all pieces, the overlaps of a v2 file add up to its length. */
  lemma {:induction false} TreeFileIsCovered(files: seq<File>, available: seq<nat>, content: seq<BackendFile>,
                                             pieceLength: nat, pieceCount: nat, n: nat, f: nat)
    requires |files| == |available| && n <= |files| && Matches(files, content, pieceLength, pieceCount)
    ensures FileBytes(PlacedFiles(files, available, content, pieceLength, pieceCount, n), f, pieceCount)
         == if f < n then files[f].length else 0
  {
    hide Placed;
    if n == 0 {
      NoBytesYet(pieceCount, f, pieceCount);
    } else {
      TreeFileIsCovered(files, available, content, pieceLength, pieceCount, n - 1, f);
      assert FileMatches(files[n - 1], content[n - 1], pieceLength, pieceCount);
      var before := PlacedFiles(files, available, content, pieceLength, pieceCount, n - 1);
      PlacedAddsBytes(before, n - 1, files[n - 1].length, content[n - 1].firstPiece, content[n - 1].pieceCount,
                      pieceLength, available[n - 1], f, pieceCount);
    }
  }

  /** The k-th piece of a file holds its bytes from here on. */
  predicate HeldBy(o: nat, k: int, pieceLength: nat) { k >= 0 && k * pieceLength <= o < k * pieceLength + pieceLength }

  ghost predicate FileThere(length: nat, available: nat, k: int, pieceLength: nat) {
    forall o: nat :: o < length && HeldBy(o, k, pieceLength) ==> o < available
  }

  lemma {:induction false} FileThereIff(length: nat, available: nat, first: int, count: nat, pieceLength: nat,
                                        pieceCount: nat, p: nat)
    requires Fits(length, first, count, pieceLength, pieceCount)
    ensures FileThere(length, available, p - first, pieceLength)
       <==> (first <= p < first + count ==> Min((p - first + 1) * pieceLength, length) <= available)
  {
    var k := p - first;
    if k >= 0 {
      assert (k + 1) * pieceLength == k * pieceLength + pieceLength;
      if k < count {
        ProductGrows(k, count - 1, pieceLength);
        var last := Min((k + 1) * pieceLength, length) - 1;
        assert HeldBy(last, k, pieceLength);
      } else {
        ProductGrows(count, k, pieceLength);
      }
    }
  }

  /** A piece of a v2 torrent is hashable iff every byte it holds is there. */
  lemma {:induction false} TreeHashableIff(files: seq<File>, available: seq<nat>, content: seq<BackendFile>,
                                           pieceLength: nat, pieceCount: nat, n: nat, p: nat)
    requires |files| == |available| && n <= |files| && Matches(files, content, pieceLength, pieceCount)
    requires p < pieceCount
    ensures PlacedFiles(files, available, content, pieceLength, pieceCount, n)[p].hashable
       <==> forall k :: 0 <= k < n ==>
              FileThere(files[k].length, available[k], p - content[k].firstPiece, pieceLength)
  {
    hide FileThere, Fits;
    if n > 0 {
      TreeHashableIff(files, available, content, pieceLength, pieceCount, n - 1, p);
      assert FileMatches(files[n - 1], content[n - 1], pieceLength, pieceCount);
      FileThereIff(files[n - 1].length, available[n - 1], content[n - 1].firstPiece, content[n - 1].pieceCount,
                   pieceLength, pieceCount, p);
    }
  }

  /** The bytes of a file in its k-th piece are the `bytes` first ones from the start of that piece. */
  ghost predicate HoldsJust(length: nat, k: int, pieceLength: nat, bytes: nat) {
    forall o: nat :: o < length ==>
      (HeldBy(o, k, pieceLength) <==> k >= 0 && k * pieceLength <= o < k * pieceLength + bytes)
  }

  lemma {:induction false} PieceOfFile(length: nat, first: int, count: nat, pieceLength: nat, pieceCount: nat, p: nat)
    requires Fits(length, first, count, pieceLength, pieceCount)
    ensures first <= p < first + count ==> BytesAt(length, p - first, pieceLength) > 0
    ensures HoldsJust(length, p - first, pieceLength,
                      if first <= p < first + count then BytesAt(length, p - first, pieceLength) else 0)
  {
    var q := p - first;
    if 0 <= q < count {
      ProductGrows(q, count - 1, pieceLength);
    } else if q >= count {
      ProductGrows(count, q, pieceLength);
    }
  }

  lemma OneMoreOverlap(before: Layout, after: Layout, last: Overlap, n: nat, k: nat)
    requires Proper(before.overlaps, n) && last.file == n && last.bytes > 0
    requires after.overlaps == before.overlaps + [last]
    ensures Proper(after.overlaps, n + 1)
    ensures PieceBytes(after, k) == PieceBytes(before, k) + if k == n then last.bytes else 0
  {
    OverlapBytesPrefix(before.overlaps, last, k, |before.overlaps|);
  }

  lemma PlacedPiece(layouts: seq<Layout>, index: nat, length: nat, first: int, count: nat, pieceLength: nat,
                    available: nat, p: nat, k: nat)
    requires p < |layouts| && Proper(layouts[p].overlaps, index)
    requires first <= p < first + count ==> BytesAt(length, p - first, pieceLength) > 0
    ensures var after := Placed(layouts, index, length, first, count, pieceLength, available)[p];
            && Proper(after.overlaps, index + 1)
            && PieceBytes(after, k) == PieceBytes(layouts[p], k)
               + if k == index && first <= p < first + count then BytesAt(length, p - first, pieceLength) else 0
  {
    hide BytesAt, OverlapBytes;
    if first <= p < first + count {
      OneMoreOverlap(layouts[p], Placed(layouts, index, length, first, count, pieceLength, available)[p],
                     Overlap(index, BytesAt(length, p - first, pieceLength)), index, k);
    }
  }

  lemma OneMorePlaced(layouts: seq<Layout>, file: File, f: BackendFile, index: nat, pieceLength: nat, pieceCount: nat,
                      available: nat, p: nat, k: nat)
    requires FileMatches(file, f, pieceLength, pieceCount) && p < |layouts| && Proper(layouts[p].overlaps, index)
    requires k == index ==> PieceBytes(layouts[p], k) == 0
    ensures var after := Placed(layouts, index, file.length, f.firstPiece, f.pieceCount, pieceLength, available)[p];
            && Proper(after.overlaps, index + 1)
            && (k == index ==> HoldsJust(file.length, p - f.firstPiece, pieceLength, PieceBytes(after, k)))
            && (k != index ==> PieceBytes(after, k) == PieceBytes(layouts[p], k))
  {
    hide PieceBytes, Proper, Placed, HoldsJust, BytesAt;
    PieceOfFile(file.length, f.firstPiece, f.pieceCount, pieceLength, pieceCount, p);
    PlacedPiece(layouts, index, file.length, f.firstPiece, f.pieceCount, pieceLength, available, p, k);
  }

  /** It holds of the k-th file exactly the bytes of that piece of the file. */
  lemma {:induction false} TreePieceHolds(files: seq<File>, available: seq<nat>, content: seq<BackendFile>,
                                          pieceLength: nat, pieceCount: nat, n: nat, p: nat, k: nat)
    requires |files| == |available| && n <= |files| && Matches(files, content, pieceLength, pieceCount)
    requires p < pieceCount && k < |files|
    ensures var layout := PlacedFiles(files, available, content, pieceLength, pieceCount, n)[p];
            && Proper(layout.overlaps, n)
            && (k < n ==> HoldsJust(files[k].length, p - content[k].firstPiece, pieceLength, PieceBytes(layout, k)))
            && (k >= n ==> PieceBytes(layout, k) == 0)
  {
    hide Placed, HoldsJust, FileMatches;
    if n == 0 {
      assert PlacedFiles(files, available, content, pieceLength, pieceCount, 0)[p] == Layout(true, []);
    } else {
      hide PieceBytes, Proper;
      TreePieceHolds(files, available, content, pieceLength, pieceCount, n - 1, p, k);
      OneMorePlaced(PlacedFiles(files, available, content, pieceLength, pieceCount, n - 1), files[n - 1],
                    content[n - 1], n - 1, pieceLength, pieceCount, available[n - 1], p, k);
    }
  }

  // ----- how often the token is looked at ----------------------------------------------------------------------

  /** Pieces of the content files from `n` on. */
  function PiecesFrom(content: seq<BackendFile>, n: nat): nat
    decreases |content| - n
  {
    if n >= |content| then 0 else content[n].pieceCount + PiecesFrom(content, n + 1)
  }

  lemma {:induction false} FittingFilePolls(length: nat, first: int, count: nat, pieceLength: nat, pieceCount: nat,
                                            k: nat)
    requires Fits(length, first, count, pieceLength, pieceCount) && k <= count
    ensures PiecePolls(length, first, count, pieceLength, pieceCount, k) == count - k
    decreases count - k
  {
    if k < count {
      ProductGrows(k, count - 1, pieceLength);
      FittingFilePolls(length, first, count, pieceLength, pieceCount, k + 1);
    }
  }

  /** When the files match, there is one look for every file, padding included, for every piece, and a last one. */
  lemma {:induction false} TreePollsCount(files: seq<File>, backend: seq<BackendFile>, pieceLength: nat,
                                          pieceCount: nat, index: nat)
    requires Matches(files, Content(backend, |backend|), pieceLength, pieceCount) && index <= |backend|
    ensures var content, logical := Content(backend, |backend|), |Content(backend, index)|;
            TreePolls(files, backend, pieceLength, pieceCount, index, logical)
            == |backend| - index + PiecesFrom(content, logical) + 1
    decreases |backend| - index
  {
    var content, logical := Content(backend, |backend|), |Content(backend, index)|;
    hide PiecePolls, Fits;
    if index < |backend| {
      ContentGrows(backend, index + 1, |backend|);
      TreePollsCount(files, backend, pieceLength, pieceCount, index + 1);
      if !backend[index].padding {
        var f := backend[index];
        assert content[logical] == f && FileMatches(files[logical], f, pieceLength, pieceCount);
        FittingFilePolls(f.size, f.firstPiece, f.pieceCount, pieceLength, pieceCount, 0);
      }
    }
  }
}
