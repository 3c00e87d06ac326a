/**
  Piece layers of v2 torrents (BEP 52, keys "pieces root" and "piece layers").

  The hash of two children is a parameter of every definition, so nothing here depends on
  SHA-256. `Root` is the recursive balanced tree; the program reduces level by level, starting
  from one hash per piece and padding with the root of an all-zero piece.
*/
module Merkle {
  import opened ByteStrings
  import opened Numbers

  type Parent<!D> = (D, D) -> D

  function Pow2(k: nat): (p: nat)
    ensures p > 0
  {
    if k == 0 then 1 else 2 * Pow2(k - 1)
  }

  /** The root of the balanced tree over 2^m leaves. */
  function Root<D>(leaves: seq<D>, m: nat, parent: Parent<D>): D
    requires |leaves| == Pow2(m)
  {
    if m == 0 then leaves[0]
    else
      var half := Pow2(m - 1);
      parent(Root(leaves[..half], m - 1, parent), Root(leaves[half..], m - 1, parent))
  }

  /** `leaves` followed by zeros, `count` in all. */
  function Padded<D>(leaves: seq<D>, count: nat, zero: D): seq<D>
    requires |leaves| <= count
  {
    leaves + seq(count - |leaves|, i => zero)
  }

  lemma {:induction false} Pow2Sum(a: nat, b: nat)
    ensures Pow2(a + b) == Pow2(a) * Pow2(b)
  {
    if a > 0 {
      Pow2Sum(a - 1, b);
      assert Pow2(a + b) == 2 * Pow2(a - 1 + b);
    }
  }

  // ----- grouping leaves ----------------------------------------------------------------------------

  /** The i-th group of `size` leaves. */
  function Group<D>(leaves: seq<D>, i: nat, size: nat): seq<D>
    requires i * size + size <= |leaves|
  {
    leaves[i * size..i * size + size]
  }

  /** The roots of the 2^m groups of 2^k leaves. */
  function GroupRoots<D>(leaves: seq<D>, m: nat, k: nat, parent: Parent<D>): (r: seq<D>)
    requires |leaves| == Pow2(m) * Pow2(k)
    ensures |r| == Pow2(m)
  {
    seq(Pow2(m), i requires 0 <= i < Pow2(m) =>
      (NextMultiple(i, Pow2(m), Pow2(k)); Root(Group(leaves, i, Pow2(k)), k, parent)))
  }

  lemma SliceOfHalf<D>(leaves: seq<D>, middle: nat, from: nat, size: nat)
    requires middle <= |leaves| && from + size <= |leaves|
    ensures from + size <= middle ==> leaves[from..from + size] == leaves[..middle][from..from + size]
    ensures middle <= from ==>
              leaves[from..from + size] == leaves[middle..][from - middle..from - middle + size]
  {
  }

  lemma GroupOfHalves<D>(leaves: seq<D>, half: nat, i: nat, size: nat)
    requires |leaves| == 2 * half * size && i < 2 * half
    ensures i * size + size <= |leaves|
    ensures half * size <= |leaves|
    ensures i < half ==>
              i * size + size <= half * size && Group(leaves, i, size) == Group(leaves[..half * size], i, size)
    ensures i >= half ==>
              && (i - half) * size + size <= |leaves[half * size..]|
              && Group(leaves, i, size) == Group(leaves[half * size..], i - half, size)
  {
    DoubledProduct(half, size);
    NextMultiple(i, 2 * half, size);
    if i < half {
      NextMultiple(i, half, size);
    } else {
      NextMultiple(i - half, half, size);
      ProductOfDifference(i, half, size);
    }
    SliceOfHalf(leaves, half * size, i * size, size);
  }

  lemma RootOfHalves<D>(leaves: seq<D>, m: nat, parent: Parent<D>)
    requires m > 0 && |leaves| == Pow2(m)
    ensures Pow2(m) == 2 * Pow2(m - 1)
    ensures var half := Pow2(m - 1);
            Root(leaves, m, parent) == parent(Root(leaves[..half], m - 1, parent), Root(leaves[half..], m - 1, parent))
  {
  }

  /** The groups of each half are half of the groups. */
  lemma GroupRootsOfHalves<D>(leaves: seq<D>, m: nat, k: nat, parent: Parent<D>)
    requires m > 0 && |leaves| == Pow2(m) * Pow2(k)
    ensures Pow2(m) == 2 * Pow2(m - 1) && |leaves| == 2 * (Pow2(m - 1) * Pow2(k))
    ensures var middle := Pow2(m - 1) * Pow2(k);
            && GroupRoots(leaves, m, k, parent)[..Pow2(m - 1)] == GroupRoots(leaves[..middle], m - 1, k, parent)
            && GroupRoots(leaves, m, k, parent)[Pow2(m - 1)..] == GroupRoots(leaves[middle..], m - 1, k, parent)
  {
    var half, size := Pow2(m - 1), Pow2(k);
    assert Pow2(m) == 2 * half;
    DoubledProduct(half, size);
    var left, right := leaves[..half * size], leaves[half * size..];
    hide Pow2, Root, Group;
    var roots := GroupRoots(leaves, m, k, parent);
    forall i | 0 <= i < 2 * half
      ensures roots[i] == if i < half then GroupRoots(left, m - 1, k, parent)[i]
                          else GroupRoots(right, m - 1, k, parent)[i - half]
    {
      GroupOfHalves(leaves, half, i, size);
    }
  }

  lemma OneGroup<D>(leaves: seq<D>, k: nat, parent: Parent<D>)
    requires |leaves| == Pow2(k)
    ensures Pow2(0) == 1
    ensures Root(GroupRoots(leaves, 0, k, parent), 0, parent) == Root(leaves, k, parent)
  {
    assert Pow2(0) == 1;
    assert Group(leaves, 0, Pow2(k)) == leaves;
  }

  /** Reducing groups first and then their roots gives the root of all leaves. */
  lemma {:induction false} GroupRootsReduce<D>(leaves: seq<D>, m: nat, k: nat, parent: Parent<D>)
    requires |leaves| == Pow2(m) * Pow2(k)
    ensures |leaves| == Pow2(m + k) && Root(leaves, m + k, parent) == Root(GroupRoots(leaves, m, k, parent), m, parent)
  {
    hide Pow2, Root, GroupRoots;
    Pow2Sum(m, k);
    if m == 0 {
      OneGroup(leaves, k, parent);
    } else {
      Pow2Sum(m - 1, k);
      var middle := Pow2(m - 1) * Pow2(k);
      GroupRootsOfHalves(leaves, m, k, parent);
      GroupRootsReduce(leaves[..middle], m - 1, k, parent);
      GroupRootsReduce(leaves[middle..], m - 1, k, parent);
      RootOfHalves(leaves, m + k, parent);
      RootOfHalves(GroupRoots(leaves, m, k, parent), m, parent);
    }
  }

  // ----- the level loop of the program -----------------------------------------------------------------

  /** One round of the loop: every two neighbours become their parent. */
  function Parents<D>(level: seq<D>, parent: Parent<D>): (r: seq<D>)
    requires |level| % 2 == 0
    ensures |r| == |level| / 2
  {
    seq(|level| / 2, i requires 0 <= i < |level| / 2 => parent(level[2 * i], level[2 * i + 1]))
  }

  lemma ParentsOfHalves<D>(level: seq<D>, half: nat, parent: Parent<D>)
    requires |level| == 2 * half && half % 2 == 0
    ensures Parents(level, parent)[..half / 2] == Parents(level[..half], parent)
    ensures Parents(level, parent)[half / 2..] == Parents(level[half..], parent)
  {
  }

  lemma ParentOfPair<D>(level: seq<D>, parent: Parent<D>)
    requires |level| == 2
    ensures Pow2(0) == 1 && Pow2(1) == 2
    ensures Root(Parents(level, parent), 0, parent) == Root(level, 1, parent)
  {
    assert Pow2(1) == 2 * Pow2(0);
    assert Root(level, 1, parent) == parent(Root(level[..1], 0, parent), Root(level[1..], 0, parent));
  }

  lemma {:induction false} ParentsKeepRoot<D>(level: seq<D>, m: nat, parent: Parent<D>)
    requires m > 0 && |level| == Pow2(m)
    ensures |Parents(level, parent)| == Pow2(m - 1)
    ensures Root(Parents(level, parent), m - 1, parent) == Root(level, m, parent)
  {
    hide Root, Pow2, Parents;
    HalfIsEven(m);
    RootOfHalves(level, m, parent);
    if m == 1 {
      ParentOfPair(level, parent);
    } else {
      var half := Pow2(m - 1);
      HalfIsEven(m - 1);
      ParentsKeepRoot(level[..half], m - 1, parent);
      ParentsKeepRoot(level[half..], m - 1, parent);
      ParentsOfHalves(level, half, parent);
      RootOfHalves(Parents(level, parent), m - 1, parent);
    }
  }

  lemma HalfIsEven(m: nat)
    requires m > 0
    ensures Pow2(m) % 2 == 0 && Pow2(m) / 2 == Pow2(m - 1)
    ensures m == 1 ==> Pow2(m) == 2
  {
    HalfOfDouble(Pow2(m - 1));
  }

  /** One round: `parents` is filled from `level`. */
  method ParentLevel<D>(level: seq<D>, parent: Parent<D>) returns (parents: seq<D>)
    requires |level| % 2 == 0
    ensures parents == Parents(level, parent)
  {
    parents := [];
    var index := 0;
    while index < |level|
      invariant index <= |level| && index % 2 == 0 && |parents| == index / 2
      invariant forall i :: 0 <= i < |parents| ==> parents[i] == parent(level[2 * i], level[2 * i + 1])
    {
      parents := parents + [parent(level[index], level[index + 1])];
      index := index + 2;
    }
  }

  /** The reduction loop of validate_piece_layers. */
  method ReduceLevels<D>(leaves: seq<D>, ghost m: nat, parent: Parent<D>) returns (root: D)
    requires |leaves| == Pow2(m)
    ensures root == Root(leaves, m, parent)
  {
    hide *;
    var level := leaves;
    ghost var height := m;
    while |level| > 1
      invariant |level| == Pow2(height) && Root(level, height, parent) == Root(leaves, m, parent)
      decreases |level|
    {
      LevelHeight(level, height, parent);
      ParentsKeepRoot(level, height, parent);
      level := ParentLevel(level, parent);
      height := height - 1;
    }
    LevelHeight(level, height, parent);
    root := level[0];
  }

  /** A level is even unless it is the root. */
  lemma LevelHeight<D>(level: seq<D>, height: nat, parent: Parent<D>)
    requires |level| == Pow2(height)
    ensures |level| > 1 ==> height > 0 && |level| % 2 == 0
    ensures |level| <= 1 ==> |level| == 1 && Root(level, height, parent) == level[0]
  {
  }

  /** The padding loop: the least power of two that is not below `count`. */
  method PaddedCount(count: nat) returns (padded: nat, ghost m: nat)
    requires count > 0
    ensures padded == Pow2(m) && m == Log2Up(count)
  {
    padded, m := 1, 0;
    while padded < count
      invariant padded == Pow2(m) && m <= Log2Up(count)
      decreases count - padded
    {
      Log2UpBounds(count);
      if m >= Log2Up(count) { Pow2Monotone(Log2Up(count), m); }
      padded, m := padded * 2, m + 1;
    }
    Log2UpBounds(count);
    if m < Log2Up(count) { Pow2Monotone(m, Log2Up(count) - 1); }
  }

  /** The least m with count <= 2^m. */
  function Log2Up(count: nat): (m: nat)
    requires count > 0
  {
    if count == 1 then 0 else 1 + Log2Up((count + 1) / 2)
  }

  lemma {:induction false} Log2UpBounds(count: nat)
    requires count > 0
    ensures count <= Pow2(Log2Up(count))
    ensures Log2Up(count) > 0 ==> Pow2(Log2Up(count) - 1) < count
  {
    if count > 1 {
      Log2UpBounds((count + 1) / 2);
    }
  }

  lemma {:induction false} Pow2Monotone(a: nat, b: nat)
    requires a <= b
    ensures Pow2(a) <= Pow2(b)
    decreases b
  {
    if a < b {
      Pow2Monotone(a, b - 1);
    }
  }

  lemma Log2UpIs(count: nat, m: nat)
    requires count > 0 && count <= Pow2(m) && (m > 0 ==> Pow2(m - 1) < count)
    ensures Log2Up(count) == m
  {
    Log2UpBounds(count);
    var l := Log2Up(count);
    if l < m { Pow2Monotone(l, m - 1); } else if m < l { Pow2Monotone(m, l - 1); }
  }

  // ----- the zero hash -------------------------------------------------------------------------------------

  const BLOCK := 16 * 1024

  function ZeroRoot<D>(k: nat, zero: D, parent: Parent<D>): D {
    if k == 0 then zero else var z := ZeroRoot(k - 1, zero, parent); parent(z, z)
  }

  /** How often a block of 16 KiB is doubled until it is no smaller than the piece. */
  function Doublings(pieceLength: nat): nat {
    DoublingsFrom(pieceLength, BLOCK)
  }

  function DoublingsFrom(pieceLength: nat, block: nat): nat
    requires block > 0
    decreases pieceLength - block
  {
    if block < pieceLength then 1 + DoublingsFrom(pieceLength, block * 2) else 0
  }

  /** zero_hash_for_piece_length; piece lengths are read from a signed 64-bit integer. */
  method ZeroHashForPieceLength<D>(pieceLength: nat, zero: D, parent: Parent<D>) returns (z: D)
    requires pieceLength <= I64_MAX
    ensures z == ZeroRoot(Doublings(pieceLength), zero, parent)
  {
    z := zero;
    var blockSize: U64 := BLOCK;
    ghost var done := 0;
    while blockSize < pieceLength
      invariant blockSize > 0 && z == ZeroRoot(done, zero, parent)
      invariant done + DoublingsFrom(pieceLength, blockSize) == Doublings(pieceLength)
      decreases pieceLength - blockSize
    {
      z := parent(z, z);
      blockSize := blockSize * 2;
      done := done + 1;
    }
  }

  lemma {:induction false} DoublingsOfPower(k: nat, block: nat)
    requires block > 0
    ensures DoublingsFrom(block * Pow2(k), block) == k
    decreases k
  {
    if k > 0 {
      DoublingsOfPower(k - 1, block * 2);
      assert block * Pow2(k) == block * 2 * Pow2(k - 1);
      assert Pow2(k) == 2 * Pow2(k - 1);
    }
  }

  lemma {:induction false} ZeroRootIsRoot<D>(k: nat, zero: D, parent: Parent<D>)
    ensures Root(Padded([], Pow2(k), zero), k, parent) == ZeroRoot(k, zero, parent)
  {
    if k > 0 {
      ZeroRootIsRoot(k - 1, zero, parent);
      var half := Pow2(k - 1);
      var all := Padded([], Pow2(k), zero);
      assert all[..half] == Padded([], half, zero) && all[half..] == Padded([], half, zero);
    }
  }

  // ----- piece layers against the whole tree -----------------------------------------------------------------

  /** The number of pieces of 2^k blocks that cover the blocks. */
  function PieceCount(blocks: nat, k: nat): nat {
    (blocks + Pow2(k) - 1) / Pow2(k)
  }

  /** The blocks of the i-th piece. */
  function PieceBlocks<D>(blocks: seq<D>, i: nat, k: nat): (r: seq<D>)
    requires i * Pow2(k) <= |blocks|
    ensures |r| <= Pow2(k)
  {
    var begin := i * Pow2(k);
    blocks[begin..if begin + Pow2(k) <= |blocks| then begin + Pow2(k) else |blocks|]
  }

  /** Each hash of the layer is the root of its piece, zero-padded to 2^k blocks. */
  ghost predicate IsPieceLayer<D>(layer: seq<D>, blocks: seq<D>, k: nat, zero: D, parent: Parent<D>) {
    && |layer| == PieceCount(|blocks|, k)
    && forall i :: 0 <= i < |layer| ==>
         i * Pow2(k) <= |blocks| && layer[i] == Root(Padded(PieceBlocks(blocks, i, k), Pow2(k), zero), k, parent)
  }

  lemma PieceCountBounds(blocks: nat, k: nat)
    ensures PieceCount(blocks, k) * Pow2(k) >= blocks
    ensures PieceCount(blocks, k) > 0 ==> (PieceCount(blocks, k) - 1) * Pow2(k) < blocks
  {
    var size := Pow2(k);
    var count := PieceCount(blocks, k);
    assert count * size <= blocks + size - 1 < count * size + size by {
      DivisionBounds(blocks + size - 1, size);
    }
    assert (count - 1) * size == count * size - size;
  }

  lemma DivisionBounds(a: nat, b: nat)
    requires b > 0
    ensures a / b * b <= a < a / b * b + b
  {
    assert a == a / b * b + a % b;
  }

  /** More than one piece, padded to a power of two, spans the next power of two of the blocks. */
  lemma PaddedPiecesSpanBlocks(blocks: nat, k: nat)
    requires blocks > Pow2(k)
    ensures var m := Log2Up(PieceCount(blocks, k));
            PieceCount(blocks, k) > 1 && Pow2(m) * Pow2(k) == Pow2(m + k) && Log2Up(blocks) == m + k
            && blocks <= Pow2(m + k)
  {
    var count, size := PieceCount(blocks, k), Pow2(k);
    PieceCountBounds(blocks, k);
    if count <= 1 { ProductMonotone(count, 1, size); }
    var m := Log2Up(count);
    Log2UpBounds(count);
    Pow2Sum(m, k);
    Pow2Sum(m - 1, k);
    assert blocks <= count * size <= Pow2(m) * size by { ProductMonotone(count, Pow2(m), size); }
    assert Pow2(m - 1) * size <= (count - 1) * size by { ProductMonotone(Pow2(m - 1), count - 1, size); }
    Log2UpIs(blocks, m + k);
  }

  lemma ProductMonotone(a: nat, b: nat, c: nat)
    requires a <= b
    ensures a * c <= b * c
  {
  }

  /**
    For a piece of 2^k blocks and a file of more than one piece: if each hash of the layer is the
    root of its zero-padded piece, reducing the layer padded with the zero hash of the piece gives
    the root of all blocks, zero-padded to the next power of two.
  */
  lemma {:induction false} PaddedLayerHasTreeRoot<D>(layer: seq<D>, blocks: seq<D>, k: nat, zero: D, parent: Parent<D>)
    requires |blocks| > Pow2(k) && IsPieceLayer(layer, blocks, k, zero, parent)
    ensures |layer| > 0 && |layer| <= Pow2(Log2Up(|layer|)) && |blocks| <= Pow2(Log2Up(|blocks|))
    ensures Root(Padded(layer, Pow2(Log2Up(|layer|)), ZeroRoot(k, zero, parent)), Log2Up(|layer|), parent)
         == Root(Padded(blocks, Pow2(Log2Up(|blocks|)), zero), Log2Up(|blocks|), parent)
  {
    hide *;
    LayerLength(layer, blocks, k, zero, parent);
    PaddedPiecesSpanBlocks(|blocks|, k);
    Log2UpBounds(|layer|);
    PaddedLayerReduces(layer, blocks, Log2Up(|layer|), k, zero, parent);
  }

  lemma LayerLength<D>(layer: seq<D>, blocks: seq<D>, k: nat, zero: D, parent: Parent<D>)
    requires IsPieceLayer(layer, blocks, k, zero, parent)
    ensures |layer| == PieceCount(|blocks|, k)
  {
  }

  lemma PaddedLayerReduces<D>(layer: seq<D>, blocks: seq<D>, m: nat, k: nat, zero: D, parent: Parent<D>)
    requires IsPieceLayer(layer, blocks, k, zero, parent) && |layer| <= Pow2(m) && |blocks| <= Pow2(m + k)
    ensures Root(Padded(layer, Pow2(m), ZeroRoot(k, zero, parent)), m, parent)
         == Root(Padded(blocks, Pow2(m + k), zero), m + k, parent)
  {
    hide Root, ZeroRoot, Pow2, PieceCount, GroupRoots, IsPieceLayer;
    Pow2Sum(m, k);
    PaddedLayerIsGroupRoots(layer, blocks, m, k, zero, parent);
    GroupRootsReduce(Padded(blocks, Pow2(m + k), zero), m, k, parent);
  }

  lemma PaddedLayerIsGroupRoots<D>(layer: seq<D>, blocks: seq<D>, m: nat, k: nat, zero: D, parent: Parent<D>)
    requires IsPieceLayer(layer, blocks, k, zero, parent) && |layer| <= Pow2(m) && |blocks| <= Pow2(m) * Pow2(k)
    ensures GroupRoots(Padded(blocks, Pow2(m) * Pow2(k), zero), m, k, parent)
         == Padded(layer, Pow2(m), ZeroRoot(k, zero, parent))
  {
    hide Root, ZeroRoot, Pow2, PieceBlocks, PieceCount;
    var roots := GroupRoots(Padded(blocks, Pow2(m) * Pow2(k), zero), m, k, parent);
    var padded := Padded(layer, Pow2(m), ZeroRoot(k, zero, parent));
    forall i | 0 <= i < Pow2(m) ensures roots[i] == padded[i] {
      PaddedGroup(blocks, Pow2(m), i, k, zero);
      if i < |layer| {
        assert padded[i] == layer[i];
      } else {
        ZeroRootIsRoot(k, zero, parent);
      }
    }
  }

  /** A group of the padded blocks is a padded piece, or all zero behind the last piece. */
  lemma PaddedGroup<D>(blocks: seq<D>, groups: nat, i: nat, k: nat, zero: D)
    requires i < groups && |blocks| <= groups * Pow2(k)
    ensures i * Pow2(k) + Pow2(k) <= groups * Pow2(k)
    ensures var group := Group(Padded(blocks, groups * Pow2(k), zero), i, Pow2(k));
            if i < PieceCount(|blocks|, k)
            then i * Pow2(k) <= |blocks| && group == Padded(PieceBlocks(blocks, i, k), Pow2(k), zero)
            else group == Padded([], Pow2(k), zero)
  {
    var size := Pow2(k);
    NextMultiple(i, groups, size);
    PieceCountBounds(|blocks|, k);
    var count := PieceCount(|blocks|, k);
    if i < count {
      ProductMonotone(i, count - 1, size);
    } else {
      ProductMonotone(count, i, size);
    }
  }
}
