/**
  validate_piece_layers: the "piece layers" dictionary of a v2 torrent is accepted iff it holds
  exactly the layers of the files longer than one piece, each reducing to its "pieces root".
*/
module PieceLayers {
  import opened ByteStrings
  import opened Bencode
  import opened Wrappers
  import opened Merkle

  /** A file of the v2 file tree. */
  datatype V2File = V2File(length: nat, root: Bytes)

  type HashPair = Parent<Bytes>

  const DIGEST := 32

  function ZeroDigest(): Bytes {
    seq(DIGEST, i => 0)
  }

  function PieceCountOf(length: nat, pieceLength: nat): nat
    requires pieceLength > 0
  {
    length / pieceLength + (if length % pieceLength == 0 then 0 else 1)
  }

  /** The hashes of a layer, 32 bytes each. */
  function Split(content: Bytes): (r: seq<Bytes>)
    requires |content| % DIGEST == 0
    ensures |r| == |content| / DIGEST
  {
    seq(|content| / DIGEST, i requires 0 <= i < |content| / DIGEST => content[i * DIGEST..i * DIGEST + DIGEST])
  }

  /** A layer padded to a power of two with the zero hash of a piece. */
  function PaddedLayer(layer: seq<Bytes>, pieceLength: nat, parent: HashPair): (r: seq<Bytes>)
    requires |layer| > 0
    ensures |r| == Pow2(Log2Up(|layer|))
  {
    Log2UpBounds(|layer|);
    Padded(layer, Pow2(Log2Up(|layer|)), ZeroRoot(Doublings(pieceLength), ZeroDigest(), parent))
  }

  /** What the padded level loop computes from a layer. */
  function LayerRoot(content: Bytes, pieceLength: nat, parent: HashPair): Bytes
    requires |content| % DIGEST == 0 && |content| > 0
  {
    Root(PaddedLayer(Split(content), pieceLength, parent), Log2Up(|Split(content)|), parent)
  }

  // ----- what is accepted ------------------------------------------------------------------------------

  predicate IsExpected(files: seq<V2File>, pieceLength: nat, root: Bytes, count: nat)
    requires pieceLength > 0
  {
    exists f :: f in files && f.length > pieceLength && f.root == root && PieceCountOf(f.length, pieceLength) == count
  }

  /** Files that share a root must have as many pieces. */
  predicate ConsistentRoots(files: seq<V2File>, pieceLength: nat)
    requires pieceLength > 0
  {
    forall f, g :: f in files && g in files && f.length > pieceLength && g.length > pieceLength && f.root == g.root ==>
      PieceCountOf(f.length, pieceLength) == PieceCountOf(g.length, pieceLength)
  }

  predicate EntryAccepted(files: seq<V2File>, pieceLength: nat, e: Entry, parent: HashPair)
    requires pieceLength > 0
  {
    && |e.key| == DIGEST && e.value.StringValue? && |e.value.content| % DIGEST == 0
    && IsExpected(files, pieceLength, e.key, |e.value.content| / DIGEST)
    && |e.value.content| > 0
    && LayerRoot(e.value.content, pieceLength, parent) == e.key
  }

  predicate LayersAccepted(files: seq<V2File>, pieceLength: nat, layers: Option<Value>, parent: HashPair)
    requires pieceLength > 0
  {
    && ConsistentRoots(files, pieceLength)
    && match layers
       case None => forall f :: f in files ==> f.length <= pieceLength
       case Some(v) =>
         && v.DictionaryValue?
         && (forall e :: e in v.entries ==> EntryAccepted(files, pieceLength, e, parent))
         && (forall f :: f in files && f.length > pieceLength ==> HasKey(v.entries, f.root))
  }

  predicate HasKey(entries: seq<Entry>, key: Bytes) {
    exists e :: e in entries && e.key == key
  }

  /**
    An accepted layer authenticates blocks: whatever blocks have the layer's hashes as the roots of
    their zero-padded pieces, the file's "pieces root" is the root of all of them, zero-padded to
    the next power of two.
  */
  lemma {:induction false} AcceptedLayerHasTreeRoot(files: seq<V2File>, k: nat, entries: seq<Entry>, e: Entry,
                                                    blocks: seq<Bytes>, parent: HashPair)
    requires LayersAccepted(files, BLOCK * Pow2(k), Some(DictionaryValue(entries)), parent) && e in entries
    requires |blocks| > Pow2(k)
    requires |e.value.content| % DIGEST == 0 && IsPieceLayer(Split(e.value.content), blocks, k, ZeroDigest(), parent)
    ensures |blocks| <= Pow2(Log2Up(|blocks|))
    ensures Root(Padded(blocks, Pow2(Log2Up(|blocks|)), ZeroDigest()), Log2Up(|blocks|), parent) == e.key
  {
    DoublingsOfPower(k, BLOCK);
    assert EntryAccepted(files, BLOCK * Pow2(k), e, parent);
    PaddedLayerHasTreeRoot(Split(e.value.content), blocks, k, ZeroDigest(), parent);
  }

  lemma PieceCountOfBounds(length: nat, pieceLength: nat)
    requires pieceLength > 0
    ensures length <= PieceCountOf(length, pieceLength) * pieceLength < length + pieceLength
    ensures length > pieceLength ==> PieceCountOf(length, pieceLength) > 1
  {
    var q := length / pieceLength;
    DivisionBounds(length, pieceLength);
    assert length == q * pieceLength + length % pieceLength;
    assert (q + 1) * pieceLength == q * pieceLength + pieceLength;
    var count := PieceCountOf(length, pieceLength);
    if count <= 1 { ProductMonotone(count, 1, pieceLength); }
  }

  /**
    What acceptance says of the dictionary: every key is the 32-byte root of a file longer than a piece and holds
    32 bytes for each piece of it; every such file has its key; and no other long file shares the root with
    another number of pieces. A torrent without the dictionary has no long file.
  */
  lemma {:induction false} AcceptedLayersAre(files: seq<V2File>, pieceLength: nat, layers: Option<Value>,
                                             parent: HashPair)
    requires pieceLength > 0 && LayersAccepted(files, pieceLength, layers, parent)
    ensures layers.Some? ==> layers.value.DictionaryValue?
    ensures layers.Some? ==> forall e :: e in layers.value.entries ==>
              |e.key| == 32 && e.value.StringValue? && exists f :: f in files && HoldsLayerOf(e, f, pieceLength)
    ensures forall f :: f in files && f.length > pieceLength ==>
              layers.Some? && exists e :: e in layers.value.entries && HoldsLayerOf(e, f, pieceLength)
  {
    hide LayerRoot, PieceCountOf;
    if layers.Some? {
      var entries := layers.value.entries;
      forall e | e in entries
        ensures |e.key| == 32 && e.value.StringValue? && exists f :: f in files && HoldsLayerOf(e, f, pieceLength)
      {
        assert EntryAccepted(files, pieceLength, e, parent);
        var f :| f in files && f.length > pieceLength && f.root == e.key
                 && PieceCountOf(f.length, pieceLength) == |e.value.content| / DIGEST;
        EntryHolds(e, f, pieceLength);
      }
      forall f | f in files && f.length > pieceLength
        ensures exists e :: e in entries && HoldsLayerOf(e, f, pieceLength)
      {
        assert HasKey(entries, f.root);
        var e :| e in entries && e.key == f.root;
        assert EntryAccepted(files, pieceLength, e, parent);
        EntryHolds(e, f, pieceLength);
      }
    }
  }

  /** The entry is named after the root of a long file, and holds 32 bytes for each of its pieces. */
  predicate HoldsLayerOf(e: Entry, f: V2File, pieceLength: nat) {
    && f.length > pieceLength && e.key == f.root && e.value.StringValue? && |e.value.content| % 32 == 0
    && var n := |e.value.content| / 32; n > 0 && (n - 1) * pieceLength < f.length <= n * pieceLength
  }

  lemma EntryHolds(e: Entry, f: V2File, pieceLength: nat)
    requires 0 < pieceLength < f.length && e.key == f.root && e.value.StringValue?
    requires |e.value.content| % 32 == 0 && PieceCountOf(f.length, pieceLength) == |e.value.content| / 32
    ensures HoldsLayerOf(e, f, pieceLength)
  {
    hide PieceCountOf;
    PieceCountOfBounds(f.length, pieceLength);
    var n := |e.value.content| / 32;
    assert (n - 1) * pieceLength == n * pieceLength - pieceLength;
  }

  /** The entry holds the piece hashes of blocks of a file, and is named after their root. */
  ghost predicate TrueLayer(e: Entry, f: V2File, blocks: seq<Bytes>, k: nat, parent: HashPair) {
    && f.length > 0x4000 * Pow2(k) && |blocks| == (f.length + 0x3FFF) / 0x4000
    && |e.key| == 32 && e.key == f.root && e.value.StringValue? && |e.value.content| % DIGEST == 0
    && IsPieceLayer(Split(e.value.content), blocks, k, ZeroDigest(), parent)
    && |blocks| <= Pow2(Log2Up(|blocks|))
    && Root(Padded(blocks, Pow2(Log2Up(|blocks|)), ZeroDigest()), Log2Up(|blocks|), parent) == e.key
  }

  /** Honest layers are accepted: an entry with the piece hashes of any blocks whose root the file names. */
  lemma {:induction false} TrueLayerIsAccepted(files: seq<V2File>, e: Entry, f: V2File, blocks: seq<Bytes>, k: nat,
                                               parent: HashPair)
    requires f in files && TrueLayer(e, f, blocks, k, parent)
    ensures EntryAccepted(files, 0x4000 * Pow2(k), e, parent)
  {
    hide Root, Padded, Log2Up, Pow2;
    BlocksOfLongFile(f.length, k);
    DoublingsOfPower(k, BLOCK);
    PaddedLayerHasTreeRoot(Split(e.value.content), blocks, k, ZeroDigest(), parent);
  }

  /** A file longer than one piece has more blocks than a piece, and as many pieces as its layer. */
  lemma {:induction false} BlocksOfLongFile(length: nat, k: nat)
    requires length > BLOCK * Pow2(k)
    ensures var blocks := (length + BLOCK - 1) / BLOCK;
            blocks > Pow2(k) && PieceCount(blocks, k) == PieceCountOf(length, BLOCK * Pow2(k))
  {
    hide Pow2, PieceCount, PieceCountOf;
    var blocks := (length + BLOCK - 1) / BLOCK;
    PieceCountBounds(blocks, k);
    PieceCountOfBounds(length, BLOCK * Pow2(k));
    CeilingIsUnique(blocks, length, Pow2(k), PieceCount(blocks, k), PieceCountOf(length, BLOCK * Pow2(k)));
  }

  lemma CeilingIsUnique(blocks: nat, length: nat, size: nat, count: nat, pieces: nat)
    requires size > 0 && length > 0
    requires length <= blocks * BLOCK < length + BLOCK
    requires count * size >= blocks && (count > 0 ==> (count - 1) * size < blocks)
    requires length <= pieces * (BLOCK * size) < length + BLOCK * size
    ensures count == pieces
  {
    assert pieces * (BLOCK * size) == BLOCK * (pieces * size);
    assert blocks <= pieces * size < blocks + size;
    assert count * size < blocks + size by { assert (count - 1) * size == count * size - size; }
    if count < pieces {
      ProductMonotone(count + 1, pieces, size);
    } else if pieces < count {
      ProductMonotone(pieces + 1, count, size);
    }
  }

  // ----- the program ---------------------------------------------------------------------------------------

  datatype ExpectedLayer = ExpectedLayer(root: Bytes, pieceCount: nat, found: bool)

  /** The vector `expected`: one layer for each root of a long file. */
  ghost predicate Expects(expected: seq<ExpectedLayer>, files: seq<V2File>, pieceLength: nat)
    requires pieceLength > 0
  {
    && (forall i, j :: 0 <= i < j < |expected| ==> expected[i].root != expected[j].root)
    && (forall i :: 0 <= i < |expected| ==> IsExpected(files, pieceLength, expected[i].root, expected[i].pieceCount))
    && (forall f :: f in files && f.length > pieceLength ==> ExpectedRoot(expected, f.root))
  }

  ghost predicate ExpectedRoot(expected: seq<ExpectedLayer>, root: Bytes) {
    exists i :: 0 <= i < |expected| && expected[i].root == root
  }

  method FindExpected(expected: seq<ExpectedLayer>, root: Bytes) returns (i: nat)
    ensures i <= |expected| && (i < |expected| ==> expected[i].root == root)
    ensures forall k :: 0 <= k < i ==> expected[k].root != root
    ensures i < |expected| <==> ExpectedRoot(expected, root)
  {
    i := 0;
    while i < |expected| && expected[i].root != root
      invariant i <= |expected| && forall k :: 0 <= k < i ==> expected[k].root != root
    {
      i := i + 1;
    }
  }

  method CollectExpected(files: seq<V2File>, pieceLength: nat) returns (r: Option<seq<ExpectedLayer>>)
    requires pieceLength > 0
    ensures r.Some? <==> ConsistentRoots(files, pieceLength)
    ensures r.Some? ==> Expects(r.value, files, pieceLength) && forall i :: 0 <= i < |r.value| ==> !r.value[i].found
  {
    hide PieceCountOf, Expects, ConsistentRoots;
    NothingExpected(pieceLength);
    var expected: seq<ExpectedLayer> := [];
    for n := 0 to |files|
      invariant Expects(expected, files[..n], pieceLength) && ConsistentRoots(files[..n], pieceLength)
      invariant forall i :: 0 <= i < |expected| ==> !expected[i].found
    {
      ghost var before := files[..n];
      var f := files[n];
      assert files[..n + 1] == before + [f];
      if f.length <= pieceLength {
        ShortFile(expected, before, f, pieceLength);
        continue;
      }
      var count := PieceCountOf(f.length, pieceLength);
      var duplicate := FindExpected(expected, f.root);
      if duplicate < |expected| {
        if expected[duplicate].pieceCount != count {
          InconsistentFile(expected, before, f, duplicate, files, pieceLength);
          return None;
        }
        RepeatedRoot(expected, before, f, duplicate, pieceLength);
        continue;
      }
      NewRoot(expected, before, f, pieceLength);
      expected := expected + [ExpectedLayer(f.root, count, false)];
    }
    assert files[..|files|] == files;
    r := Some(expected);
  }

  lemma NothingExpected(pieceLength: nat)
    requires pieceLength > 0
    ensures Expects([], [], pieceLength) && ConsistentRoots([], pieceLength)
  {
  }

  lemma ShortFile(expected: seq<ExpectedLayer>, files: seq<V2File>, f: V2File, pieceLength: nat)
    requires pieceLength > 0 && Expects(expected, files, pieceLength) && ConsistentRoots(files, pieceLength)
    requires f.length <= pieceLength
    ensures Expects(expected, files + [f], pieceLength) && ConsistentRoots(files + [f], pieceLength)
  {
    IsExpectedExtends(files, f, pieceLength);
  }

  lemma RepeatedRoot(expected: seq<ExpectedLayer>, files: seq<V2File>, f: V2File, i: nat, pieceLength: nat)
    requires pieceLength > 0 && Expects(expected, files, pieceLength) && ConsistentRoots(files, pieceLength)
    requires f.length > pieceLength && i < |expected|
    requires expected[i].root == f.root && expected[i].pieceCount == PieceCountOf(f.length, pieceLength)
    ensures Expects(expected, files + [f], pieceLength) && ConsistentRoots(files + [f], pieceLength)
  {
    hide PieceCountOf;
    IsExpectedExtends(files, f, pieceLength);
    ExpectedCountIsUnique(files, pieceLength, f.root, expected[i].pieceCount);
    forall g | g in files && g.length > pieceLength && g.root == f.root
      ensures PieceCountOf(g.length, pieceLength) == expected[i].pieceCount
    {
      assert IsExpected(files, pieceLength, f.root, PieceCountOf(g.length, pieceLength));
    }
  }

  lemma InconsistentFile(expected: seq<ExpectedLayer>, before: seq<V2File>, f: V2File, i: nat, files: seq<V2File>,
                         pieceLength: nat)
    requires pieceLength > 0 && Expects(expected, before, pieceLength) && (forall g :: g in before ==> g in files)
    requires f in files && f.length > pieceLength && i < |expected|
    requires expected[i].root == f.root && expected[i].pieceCount != PieceCountOf(f.length, pieceLength)
    ensures !ConsistentRoots(files, pieceLength)
  {
    hide PieceCountOf;
    assert IsExpected(before, pieceLength, expected[i].root, expected[i].pieceCount);
    var g :| g in before && g.length > pieceLength && g.root == f.root
             && PieceCountOf(g.length, pieceLength) == expected[i].pieceCount;
    assert g in files;
  }

  lemma NewRoot(expected: seq<ExpectedLayer>, files: seq<V2File>, f: V2File, pieceLength: nat)
    requires pieceLength > 0 && Expects(expected, files, pieceLength) && ConsistentRoots(files, pieceLength)
    requires f.length > pieceLength && !ExpectedRoot(expected, f.root)
    ensures var more := expected + [ExpectedLayer(f.root, PieceCountOf(f.length, pieceLength), false)];
            Expects(more, files + [f], pieceLength)
    ensures ConsistentRoots(files + [f], pieceLength)
  {
    hide PieceCountOf;
    IsExpectedExtends(files, f, pieceLength);
    var after := expected + [ExpectedLayer(f.root, PieceCountOf(f.length, pieceLength), false)];
    forall g | g in files + [f] && g.length > pieceLength ensures ExpectedRoot(after, g.root) {
      if g in files {
        var i :| 0 <= i < |expected| && expected[i].root == g.root;
        assert after[i].root == g.root;
      } else {
        assert after[|expected|].root == g.root;
      }
    }
  }

  lemma IsExpectedExtends(files: seq<V2File>, f: V2File, pieceLength: nat)
    requires pieceLength > 0
    ensures forall root, count :: IsExpected(files, pieceLength, root, count) ==>
              IsExpected(files + [f], pieceLength, root, count)
    ensures f.length > pieceLength ==> IsExpected(files + [f], pieceLength, f.root, PieceCountOf(f.length, pieceLength))
  {
    assert f in files + [f];
    assert forall g :: g in files ==> g in files + [f];
  }

  method ComputeLayerRoot(content: Bytes, pieceLength: nat, parent: HashPair) returns (root: Bytes)
    requires |content| % DIGEST == 0 && |content| > 0 && pieceLength <= I64_MAX
    ensures root == LayerRoot(content, pieceLength, parent)
  {
    hide Root, ZeroRoot, Doublings, Log2Up;
    var count := |content| / DIGEST;
    var level: seq<Bytes> := [];
    for index := 0 to count
      invariant |level| == index && forall i :: 0 <= i < index ==> level[i] == content[i * DIGEST..i * DIGEST + DIGEST]
    {
      level := level + [content[index * DIGEST..index * DIGEST + DIGEST]];
    }
    assert level == Split(content);
    var padded, m := PaddedCount(count);
    Log2UpBounds(count);
    var zero := ZeroHashForPieceLength(pieceLength, ZeroDigest(), parent);
    level := level + seq(padded - |level|, i => zero);
    root := ReduceLevels(level, m, parent);
  }

  /** One entry of the dictionary: the layer it answers for, if it is accepted. */
  method CheckEntry(files: seq<V2File>, pieceLength: nat, expected: seq<ExpectedLayer>, e: Entry, parent: HashPair)
    returns (i: nat)
    requires 0 < pieceLength <= I64_MAX && Expects(expected, files, pieceLength) && ConsistentRoots(files, pieceLength)
    ensures i <= |expected| && (i < |expected| <==> EntryAccepted(files, pieceLength, e, parent))
    ensures i < |expected| ==> expected[i].root == e.key
  {
    hide LayerRoot, PieceCountOf;
    if |e.key| != DIGEST || !e.value.StringValue? || |e.value.content| % DIGEST != 0 { return |expected|; }
    var content := e.value.content;
    i := FindExpected(expected, e.key);
    if i == |expected| {
      return;
    }
    ExpectedCountIsUnique(files, pieceLength, e.key, expected[i].pieceCount);
    if |content| != expected[i].pieceCount * DIGEST { return |expected|; }
    var root := ComputeLayerRoot(content, pieceLength, parent);
    if root != e.key { return |expected|; }
  }

  lemma ExpectedCountIsUnique(files: seq<V2File>, pieceLength: nat, root: Bytes, count: nat)
    requires pieceLength > 0 && ConsistentRoots(files, pieceLength) && IsExpected(files, pieceLength, root, count)
    ensures count > 1 && forall other :: IsExpected(files, pieceLength, root, other) ==> other == count
  {
    var f :| f in files && f.length > pieceLength && f.root == root && PieceCountOf(f.length, pieceLength) == count;
    PieceCountOfBounds(f.length, pieceLength);
  }

  method ValidatePieceLayers(files: seq<V2File>, pieceLength: nat, layers: Option<Value>, parent: HashPair)
    returns (ok: bool)
    requires 0 < pieceLength <= I64_MAX
    ensures ok <==> LayersAccepted(files, pieceLength, layers, parent)
  {
    hide EntryAccepted, ConsistentRoots, Expects;
    var collected := CollectExpected(files, pieceLength);
    if collected == None { return false; }
    var expected := collected.value;
    if layers == None {
      ExpectedMeansLongFile(expected, files, pieceLength);
      return expected == [];
    }
    if !layers.value.DictionaryValue? { return false; }
    var entries := layers.value.entries;
    for n := 0 to |entries|
      invariant Expects(expected, files, pieceLength)
      invariant forall k :: 0 <= k < n ==> EntryAccepted(files, pieceLength, entries[k], parent)
      invariant forall i :: 0 <= i < |expected| ==> (expected[i].found <==> HasKey(entries[..n], expected[i].root))
    {
      var i := CheckEntry(files, pieceLength, expected, entries[n], parent);
      if i == |expected| {
        assert entries[n] in entries;
        return false;
      }
      HasKeyAppend(entries, n);
      MarkedFound(expected, i, files, pieceLength);
      expected := expected[i := expected[i].(found := true)];
    }
    assert entries[..|entries|] == entries;
    ok := true;
    for i := 0 to |expected|
      invariant ok <==> forall k :: 0 <= k < i ==> expected[k].found
    {
      if !expected[i].found { ok := false; }
    }
    AllFoundMeansAllKeys(expected, files, pieceLength, entries);
  }

  lemma MarkedFound(expected: seq<ExpectedLayer>, i: nat, files: seq<V2File>, pieceLength: nat)
    requires pieceLength > 0 && Expects(expected, files, pieceLength) && i < |expected|
    ensures Expects(expected[i := expected[i].(found := true)], files, pieceLength)
    ensures forall k :: 0 <= k < |expected| ==>
              (expected[k].root == expected[i].root <==> k == i)
  {
    hide IsExpected;
    var after := expected[i := expected[i].(found := true)];
    forall f | f in files && f.length > pieceLength ensures ExpectedRoot(after, f.root) {
      var k :| 0 <= k < |expected| && expected[k].root == f.root;
      assert after[k].root == f.root;
    }
  }

  lemma ExpectedMeansLongFile(expected: seq<ExpectedLayer>, files: seq<V2File>, pieceLength: nat)
    requires pieceLength > 0 && Expects(expected, files, pieceLength)
    ensures expected == [] <==> forall f :: f in files ==> f.length <= pieceLength
  {
    if expected != [] {
      assert IsExpected(files, pieceLength, expected[0].root, expected[0].pieceCount);
    }
  }

  lemma HasKeyAppend(entries: seq<Entry>, n: nat)
    requires n < |entries|
    ensures forall key :: HasKey(entries[..n + 1], key) <==> HasKey(entries[..n], key) || key == entries[n].key
  {
    assert entries[..n + 1] == entries[..n] + [entries[n]];
    assert entries[n] in entries[..n + 1];
    assert forall e :: e in entries[..n] ==> e in entries[..n + 1];
  }

  lemma AllFoundMeansAllKeys(expected: seq<ExpectedLayer>, files: seq<V2File>, pieceLength: nat, entries: seq<Entry>)
    requires pieceLength > 0 && Expects(expected, files, pieceLength)
    ensures (forall i :: 0 <= i < |expected| ==> HasKey(entries, expected[i].root))
       <==> (forall f :: f in files && f.length > pieceLength ==> HasKey(entries, f.root))
  {
    if forall f :: f in files && f.length > pieceLength ==> HasKey(entries, f.root) {
      forall i | 0 <= i < |expected| ensures HasKey(entries, expected[i].root) {
        assert IsExpected(files, pieceLength, expected[i].root, expected[i].pieceCount);
      }
    }
  }
}
