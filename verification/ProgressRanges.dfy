/** The pending ranges of verification_progress_publisher.cpp: an ordered map keyed by begin. */
module ProgressRanges {
  import opened VerificationTotals

  datatype PieceRange = PieceRange(begin: nat, end: nat, state: PieceState)

  /** An entry of the ordered map; a sequence of them lists the map in key order. */
  datatype Node = Node(key: nat, range: PieceRange)

  function Values(nodes: seq<Node>): (r: seq<PieceRange>)
    ensures |r| == |nodes|
  {
    seq(|nodes|, i requires 0 <= i < |nodes| => nodes[i].range)
  }

  predicate Contains(r: PieceRange, piece: nat) { r.begin <= piece < r.end }

  function Holds(r: PieceRange, piece: nat, state: PieceState): nat {
    if Contains(r, piece) && r.state == state then 1 else 0
  }

  /** How often a piece is listed with a state. */
  function Occurrences(ranges: seq<PieceRange>, piece: nat, state: PieceState): nat {
    if ranges == [] then 0
    else Occurrences(ranges[..|ranges| - 1], piece, state) + Holds(ranges[|ranges| - 1], piece, state)
  }

  lemma {:induction false} OccurrencesJoin(a: seq<PieceRange>, b: seq<PieceRange>, piece: nat, state: PieceState)
    ensures Occurrences(a + b, piece, state) == Occurrences(a, piece, state) + Occurrences(b, piece, state)
  {
    if b == [] {
      assert a + b == a;
    } else {
      OccurrencesJoin(a, b[..|b| - 1], piece, state);
      assert (a + b)[..|a + b| - 1] == a + b[..|b| - 1];
    }
  }

  lemma OccurrencesOfOne(r: PieceRange, piece: nat, state: PieceState)
    ensures Occurrences([r], piece, state) == Holds(r, piece, state)
  {
    assert [r][..0] == [];
  }

  /** Replacing a stretch of the list only changes what the stretch lists. */
  lemma OccurrencesSplice(a: seq<PieceRange>, b: seq<PieceRange>, c: seq<PieceRange>, piece: nat, state: PieceState)
    ensures Occurrences(a + b + c, piece, state)
         == Occurrences(a, piece, state) + Occurrences(b, piece, state) + Occurrences(c, piece, state)
  {
    OccurrencesJoin(a + b, c, piece, state);
    OccurrencesJoin(a, b, piece, state);
  }

  /** Keyed by begin, non-empty, in order, disjoint, and neighbours that touch differ in state. */
  predicate Coalesced(nodes: seq<Node>) {
    && (forall i :: 0 <= i < |nodes| ==> nodes[i].key == nodes[i].range.begin < nodes[i].range.end)
    && (forall i :: 0 < i < |nodes| ==> ApartAt(nodes, i))
  }

  predicate ApartAt(nodes: seq<Node>, i: int)
    requires 0 < i < |nodes|
  {
    Apart(nodes[i - 1].range, nodes[i].range)
  }

  predicate Apart(a: PieceRange, b: PieceRange) {
    a.end < b.begin || (a.end == b.begin && a.state != b.state)
  }

  /** Not only neighbours: all ranges are disjoint and in order. */
  lemma {:induction false} RangesAreDisjoint(nodes: seq<Node>, i: nat, j: nat)
    requires Coalesced(nodes) && i < j < |nodes|
    ensures nodes[i].range.end <= nodes[j].range.begin
    decreases j
  {
    assert ApartAt(nodes, j);
    if i < j - 1 { RangesAreDisjoint(nodes, i, j - 1); }
  }

  /** std::map::lower_bound. */
  function LowerBound(nodes: seq<Node>, key: nat, from: nat := 0): (r: nat)
    requires from <= |nodes|
    ensures from <= r <= |nodes|
    ensures forall i :: from <= i < r ==> nodes[i].key < key
    ensures r < |nodes| ==> nodes[r].key >= key
    decreases |nodes| - from
  {
    if from == |nodes| || nodes[from].key >= key then from else LowerBound(nodes, key, from + 1)
  }

  predicate Absent(nodes: seq<Node>, piece: nat) {
    forall i :: 0 <= i < |nodes| ==> !Contains(nodes[i].range, piece)
  }

  lemma {:induction false} AbsentWhenNotListed(nodes: seq<Node>, piece: nat)
    requires forall state :: Occurrences(Values(nodes), piece, state) == 0
    ensures Absent(nodes, piece)
  {
    if nodes != [] {
      var n := |nodes| - 1;
      assert Values(nodes)[..n] == Values(nodes[..n]);
      forall state
        ensures Occurrences(Values(nodes[..n]), piece, state) == 0 && Holds(nodes[n].range, piece, state) == 0
      {
        assert Occurrences(Values(nodes), piece, state) == 0;
      }
      AbsentWhenNotListed(nodes[..n], piece);
      assert Holds(nodes[n].range, piece, nodes[n].range.state) == 0;
      forall i | 0 <= i < |nodes| ensures !Contains(nodes[i].range, piece) {
        if i < n { assert nodes[..n][i] == nodes[i]; }
      }
    }
  }

  /** The nodes between `lo` and `hi` replaced by one. */
  function Spliced(nodes: seq<Node>, lo: nat, node: Node, hi: nat): seq<Node>
    requires lo <= hi <= |nodes|
  {
    nodes[..lo] + [node] + nodes[hi..]
  }

  /** The same listing, but for one piece that is named once more. */
  ghost predicate ListsOneMore(before: seq<Node>, after: seq<Node>, piece: nat, added: PieceState) {
    forall p, state :: Occurrences(Values(after), p, state)
      == Occurrences(Values(before), p, state) + if p == piece && state == added then 1 else 0
  }

  /** Replacing a stretch of nodes by one range that lists one piece more. */
  lemma SplicedListsOneMore(nodes: seq<Node>, lo: nat, node: Node, hi: nat, piece: nat, added: PieceState)
    requires lo <= hi <= |nodes|
    requires forall p, state :: Holds(node.range, p, state)
               == Occurrences(Values(nodes[lo..hi]), p, state) + if p == piece && state == added then 1 else 0
    ensures ListsOneMore(nodes, Spliced(nodes, lo, node, hi), piece, added)
  {
    forall p, state
      ensures Occurrences(Values(Spliced(nodes, lo, node, hi)), p, state)
           == Occurrences(Values(nodes), p, state) + if p == piece && state == added then 1 else 0
    {
      var a, b, c := Values(nodes[..lo]), Values(nodes[lo..hi]), Values(nodes[hi..]);
      assert Values(nodes) == a + b + c;
      assert Values(Spliced(nodes, lo, node, hi)) == a + [node.range] + c;
      OccurrencesSplice(a, b, c, p, state);
      OccurrencesSplice(a, [node.range], c, p, state);
      OccurrencesOfOne(node.range, p, state);
    }
  }

  lemma SplicedIsCoalesced(nodes: seq<Node>, lo: nat, node: Node, hi: nat)
    requires lo <= hi <= |nodes| && Coalesced(nodes)
    requires node.key == node.range.begin < node.range.end
    requires lo > 0 ==> Apart(nodes[lo - 1].range, node.range)
    requires hi < |nodes| ==> Apart(node.range, nodes[hi].range)
    ensures Coalesced(Spliced(nodes, lo, node, hi))
  {
    var after := Spliced(nodes, lo, node, hi);
    forall i | 0 < i < |after| ensures ApartAt(after, i) {
      if i < lo { assert ApartAt(nodes, i); }
      if i > lo + 1 { assert ApartAt(nodes, i - 1 - lo + hi); }
    }
  }

  /** What the splice replaces, listed: nothing, one range, or two. */
  lemma ListedInStretch(nodes: seq<Node>, lo: nat, hi: nat, p: nat, state: PieceState)
    requires lo <= hi <= |nodes| && hi <= lo + 2
    ensures Occurrences(Values(nodes[lo..hi]), p, state)
         == (if lo < hi then Holds(nodes[lo].range, p, state) else 0)
            + (if lo + 1 < hi then Holds(nodes[lo + 1].range, p, state) else 0)
  {
    if lo < hi {
      OccurrencesOfOne(nodes[lo].range, p, state);
      if lo + 1 < hi {
        OccurrencesOfOne(nodes[lo + 1].range, p, state);
        OccurrencesJoin([nodes[lo].range], [nodes[lo + 1].range], p, state);
        assert Values(nodes[lo..hi]) == [nodes[lo].range] + [nodes[lo + 1].range];
      } else {
        assert Values(nodes[lo..hi]) == [nodes[lo].range];
      }
    }
  }

  /** The neighbours of an absent piece: what is before it ends by it, what is after begins behind it. */
  lemma NeighboursOf(nodes: seq<Node>, piece: nat, next: nat)
    requires Coalesced(nodes) && Absent(nodes, piece) && next == LowerBound(nodes, piece)
    ensures next > 0 ==> nodes[next - 1].key == nodes[next - 1].range.begin < nodes[next - 1].range.end <= piece
    ensures next < |nodes| ==> piece < nodes[next].range.begin < nodes[next].range.end
    ensures next > 1 ==> Apart(nodes[next - 2].range, nodes[next - 1].range)
    ensures next + 1 < |nodes| ==> Apart(nodes[next].range, nodes[next + 1].range)
  {
    if next > 1 { assert ApartAt(nodes, next - 1); }
    if next + 1 < |nodes| { assert ApartAt(nodes, next + 1); }
    if next > 0 { assert !Contains(nodes[next - 1].range, piece); }
    if next < |nodes| { assert !Contains(nodes[next].range, piece); }
  }

  /** The range that takes the piece in, given which neighbours it merges with. */
  function MergedNode(nodes: seq<Node>, piece: nat, state: PieceState, next: nat, previousToo: bool,
                      nextToo: bool): Node
    requires next <= |nodes| && (previousToo ==> next > 0) && (nextToo ==> next < |nodes|)
  {
    var begin := if previousToo then nodes[next - 1].range.begin else piece;
    var end := if nextToo then nodes[next].range.end else piece + 1;
    Node(begin, PieceRange(begin, end, state))
  }

  predicate MergesPrevious(nodes: seq<Node>, piece: nat, state: PieceState, next: nat) {
    0 < next <= |nodes| && nodes[next - 1].range.end == piece && nodes[next - 1].range.state == state
  }

  predicate MergesNext(nodes: seq<Node>, piece: nat, state: PieceState, next: nat) {
    next < |nodes| && nodes[next].range.begin == piece + 1 && nodes[next].range.state == state
  }

  lemma MergeIsRight(nodes: seq<Node>, piece: nat, state: PieceState, next: nat, lo: nat, node: Node, hi: nat)
    requires Coalesced(nodes) && Absent(nodes, piece) && next == LowerBound(nodes, piece)
    requires node == MergedNode(nodes, piece, state, next, MergesPrevious(nodes, piece, state, next),
                                MergesNext(nodes, piece, state, next))
    requires lo == if MergesPrevious(nodes, piece, state, next) then next - 1 else next
    requires hi == if MergesNext(nodes, piece, state, next) then next + 1 else next
    ensures Coalesced(Spliced(nodes, lo, node, hi)) && |Spliced(nodes, lo, node, hi)| <= |nodes| + 1
    ensures ListsOneMore(nodes, Spliced(nodes, lo, node, hi), piece, state)
  {
    hide Occurrences, Coalesced, Values, ListsOneMore, LowerBound, Absent;
    NeighboursOf(nodes, piece, next);
    forall p, st
      ensures Holds(node.range, p, st)
           == Occurrences(Values(nodes[lo..hi]), p, st) + if p == piece && st == state then 1 else 0
    {
      MergedHolds(nodes, piece, state, next, p, st);
      ListedInStretch(nodes, lo, hi, p, st);
    }
    hide Holds;
    SplicedListsOneMore(nodes, lo, node, hi, piece, state);
    SplicedIsCoalesced(nodes, lo, node, hi);
  }

  /** The merged range lists the piece and what its neighbours listed. */
  lemma MergedHolds(nodes: seq<Node>, piece: nat, state: PieceState, next: nat, p: nat, st: PieceState)
    requires next <= |nodes|
    requires next > 0 ==> nodes[next - 1].range.begin < nodes[next - 1].range.end <= piece
    requires next < |nodes| ==> piece < nodes[next].range.begin < nodes[next].range.end
    ensures var previousToo := MergesPrevious(nodes, piece, state, next);
            var nextToo := MergesNext(nodes, piece, state, next);
            Holds(MergedNode(nodes, piece, state, next, previousToo, nextToo).range, p, st)
            == (if previousToo then Holds(nodes[next - 1].range, p, st) else 0)
               + (if nextToo then Holds(nodes[next].range, p, st) else 0)
               + if p == piece && st == state then 1 else 0
  {
  }

  lemma SpliceTwo(nodes: seq<Node>, i: nat, node: Node)
    requires i + 1 < |nodes|
    ensures nodes[i := node][..i + 1] + nodes[i := node][i + 2..] == Spliced(nodes, i, node, i + 2)
  {
  }

  lemma SpliceNone(nodes: seq<Node>, i: nat, node: Node)
    requires i <= |nodes|
    ensures nodes[..i] + [node] + nodes[i..] == Spliced(nodes, i, node, i)
  {
  }

  lemma SpliceOne(nodes: seq<Node>, i: nat, node: Node)
    requires i < |nodes|
    ensures nodes[i := node] == Spliced(nodes, i, node, i + 1)
    ensures var without := nodes[..i] + nodes[i + 1..];
            without[..i] + [node] + without[i..] == Spliced(nodes, i, node, i + 1)
  {
  }

  /**
    Adding one piece, merged with the neighbours it touches. The list afterwards names exactly that
    piece once more, and stays as short as it can be.
  */
  method InsertRange(ranges: seq<Node>, piece: nat, state: PieceState) returns (r: seq<Node>)
    requires Coalesced(ranges) && Absent(ranges, piece)
    ensures Coalesced(r) && |r| <= |ranges| + 1
    ensures ListsOneMore(ranges, r, piece, state)
  {
    hide Occurrences, Values, ListsOneMore, Spliced, Coalesced, Absent, LowerBound;
    var next := LowerBound(ranges, piece);
    var mergePrevious := next > 0 && ranges[next - 1].range.end == piece && ranges[next - 1].range.state == state;
    var mergeNext := next < |ranges| && ranges[next].range.begin == piece + 1 && ranges[next].range.state == state;
    if mergePrevious && mergeNext {
      var extended := ExtendedTo(ranges, next - 1, ranges[next].range.end);
      r := ranges[next - 1 := extended];
      r := r[..next] + r[next + 1..];
      SpliceTwo(ranges, next - 1, extended);
      MergeIsRight(ranges, piece, state, next, next - 1, extended, next + 1);
    } else if mergePrevious {
      var extended := ExtendedTo(ranges, next - 1, piece + 1);
      r := ranges[next - 1 := extended];
      SpliceOne(ranges, next - 1, extended);
      MergeIsRight(ranges, piece, state, next, next - 1, extended, next);
    } else if mergeNext {
      var single := Node(piece, PieceRange(piece, ranges[next].range.end, state));
      r := ranges[..next] + ranges[next + 1..];
      r := r[..next] + [single] + r[next..];
      SpliceOne(ranges, next, single);
      MergeIsRight(ranges, piece, state, next, next, single, next + 1);
    } else {
      var single := Node(piece, PieceRange(piece, piece + 1, state));
      r := ranges[..next] + [single] + ranges[next..];
      SpliceNone(ranges, next, single);
      MergeIsRight(ranges, piece, state, next, next, single, next);
    }
  }

  /** The node with another end. */
  method ExtendedTo(ranges: seq<Node>, at: nat, end: nat) returns (node: Node)
    requires at < |ranges| && Coalesced(ranges)
    ensures node == Node(ranges[at].range.begin, PieceRange(ranges[at].range.begin, end, ranges[at].range.state))
  {
    node := ranges[at].(range := ranges[at].range.(end := end));
  }
}
