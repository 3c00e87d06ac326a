/**
  The matching of v1 files with v2 tree files in a hybrid torrent (metadata_engine.cpp), and what an
  accepted layout means for verification.
*/
module HybridLayout {
  import opened Wrappers
  import opened ByteStrings
  import opened Numbers
  import opened Bencode
  import opened BencodeParser
  import opened FileLeaf
  import opened FileTree
  import VL = VerificationLayouts
  import VR = VerificationReport

  datatype V1File = V1File(path: seq<Bytes>, length: nat, padding: bool, traits: Traits)

  datatype LayoutFile = LayoutFile(file: V1File, root: Option<Bytes>)

  /** The element conditions of FileEntry::create. */
  predicate Creatable(file: V1File, root: Option<Bytes>) {
    if file.traits.symlink then file.length == 0 && file.traits.symlinkTarget.Some? && root.None?
    else file.traits.symlinkTarget.None?
  }

  function Offset(files: seq<V1File>, n: nat): nat
    requires n <= |files|
  {
    if n == 0 then 0 else Offset(files, n - 1) + files[n - 1].length
  }

  predicate IsContent(file: V1File) { !file.padding && file.length > 0 }

  /** Some non-empty content file precedes the n-th file. */
  predicate ContentBefore(files: seq<V1File>, n: nat)
    requires n <= |files|
  {
    exists k :: 0 <= k < n && IsContent(files[k])
  }

  /** Distance to the next piece boundary. */
  function Gap(offset: nat, pieceLength: nat): nat
    requires pieceLength > 0
  {
    if offset % pieceLength == 0 then 0 else pieceLength - offset % pieceLength
  }

  function PaddingPath(length: nat): seq<Bytes> { [Ascii(".pad"), Decimal(length)] }

  /** A padding file fills the gap after content; a content file starts where a piece starts. */
  predicate Placed(files: seq<V1File>, i: nat, pieceLength: nat)
    requires i < |files| && pieceLength > 0
  {
    var file := files[i];
    if file.padding then
      ContentBefore(files, i) && 0 < file.length == Gap(Offset(files, i), pieceLength)
      && !file.traits.executable && !file.traits.symlink && file.path == PaddingPath(file.length)
      && Creatable(file, None)
    else file.length > 0 && ContentBefore(files, i) ==> Offset(files, i) % pieceLength == 0
  }

  predicate Same(mapped: TreeFile, file: V1File) {
    mapped.path == file.path && mapped.length == file.length && mapped.traits == file.traits
  }

  /** A partner in the tree for each of the first `n` content files, and no partner for padding. */
  predicate Partners(files: seq<V1File>, tree: seq<TreeFile>, m: seq<Option<nat>>, n: nat)
    requires n <= |files|
  {
    && |m| == n
    && (forall i :: 0 <= i < n ==> (m[i].None? <==> files[i].padding))
    && (forall i :: 0 <= i < n && m[i].Some? ==> m[i].value < |tree| && Same(tree[m[i].value], files[i])
                                                 && Creatable(files[i], tree[m[i].value].root))
    && (forall i, j :: 0 <= i < j < n && m[i].Some? ==> m[i] != m[j])
  }

  predicate Covers(m: seq<Option<nat>>, treeCount: nat) {
    forall j: nat :: j < treeCount ==> Some(j) in m
  }

  /** v1 content files and v2 tree files correspond one to one. */
  ghost predicate InBijection(files: seq<V1File>, tree: seq<TreeFile>) {
    exists m :: Partners(files, tree, m, |files|) && Covers(m, |tree|)
  }

  ghost predicate Acceptable(files: seq<V1File>, tree: seq<TreeFile>, pieceLength: nat)
    requires pieceLength > 0
  {
    && (forall i :: 0 <= i < |files| ==> Placed(files, i, pieceLength))
    && ContentBefore(files, |files|)
    && Offset(files, |files|) <= U64_MAX
    && InBijection(files, tree)
  }

  // ----- the conditions one by one -----------------------------------------------------------------------------

  /** Multiples of a number are no nearer to each other than the number. */
  lemma RemainderIs(n: nat, quotient: nat, x: nat, size: nat)
    requires 0 < size && x < size && n == quotient * size + x
    ensures n % size == x
  {
    var q := n / size;
    assert n == q * size + n % size;
    if q < quotient { NextMultiple(q, quotient, size); }
    if quotient < q { NextMultiple(quotient, q, size); }
  }

  /** What reaches the next piece boundary, and no further. */
  lemma GapIff(offset: nat, length: nat, pieceLength: nat)
    requires pieceLength > 0
    ensures 0 < length == Gap(offset, pieceLength)
       <==> 0 < length < pieceLength && (offset + length) % pieceLength == 0
  {
    var q, r := offset / pieceLength, offset % pieceLength;
    assert offset == q * pieceLength + r;
    if 0 < length < pieceLength {
      if r + length < pieceLength {
        RemainderIs(offset + length, q, r + length, pieceLength);
      } else {
        assert (q + 1) * pieceLength == q * pieceLength + pieceLength;
        RemainderIs(offset + length, q + 1, r + length - pieceLength, pieceLength);
      }
    }
  }

  /** Padding behind content, up to the next boundary, named after its length, plain, and no link. */
  predicate GoodPadding(files: seq<V1File>, i: nat, pieceLength: nat)
    requires i < |files| && pieceLength > 0
  {
    var file := files[i];
    && (exists k :: 0 <= k < i && !files[k].padding && files[k].length > 0)
    && 0 < file.length < pieceLength && (Offset(files, i) + file.length) % pieceLength == 0
    && |file.path| == 2 && file.path[0] == Ascii(".pad") && file.path[1] == Decimal(file.length)
    && !file.traits.executable && !file.traits.symlink && file.traits.symlinkTarget == None
  }

  /** Content on a boundary; the first content needs none, and neither do empty files. */
  predicate GoodContent(files: seq<V1File>, i: nat, pieceLength: nat)
    requires i < |files| && pieceLength > 0
  {
    || files[i].length == 0 || Offset(files, i) % pieceLength == 0
    || forall k :: 0 <= k < i ==> files[k].padding || files[k].length == 0
  }

  /** A v1 file and its partner agree in path, length and traits; a link is empty and has a target but no root. */
  predicate Pairs(mapped: TreeFile, file: V1File) {
    && mapped.path == file.path && mapped.length == file.length && mapped.traits == file.traits
    && if file.traits.symlink then file.length == 0 && file.traits.symlinkTarget.Some? && mapped.root.None?
       else file.traits.symlinkTarget.None?
  }

  /** `m` gives every v1 content file a partner of its own, and leaves no tree file over. */
  ghost predicate PairsUp(files: seq<V1File>, tree: seq<TreeFile>, m: seq<Option<nat>>) {
    && |m| == |files|
    && (forall i :: 0 <= i < |files| ==> if files[i].padding then m[i] == None
                                         else m[i].Some? && m[i].value < |tree| && Pairs(tree[m[i].value], files[i]))
    && (forall i, j :: 0 <= i < j < |files| && m[i].Some? ==> m[i] != m[j])
    && (forall j: nat :: j < |tree| ==> Some(j) in m)
  }

  lemma {:induction false} PlacedIff(files: seq<V1File>, i: nat, pieceLength: nat)
    requires i < |files| && pieceLength > 0
    ensures Placed(files, i, pieceLength)
       <==> if files[i].padding then GoodPadding(files, i, pieceLength) else GoodContent(files, i, pieceLength)
  {
    var file := files[i];
    GapIff(Offset(files, i), file.length, pieceLength);
    if |file.path| == 2 { assert file.path == [file.path[0], file.path[1]]; }
    hide Gap, Offset, Decimal, Ascii;
    assert ContentBefore(files, i) <==> exists k :: 0 <= k < i && !files[k].padding && files[k].length > 0 by {
      if ContentBefore(files, i) {
        var k :| 0 <= k < i && IsContent(files[k]);
        assert !files[k].padding && files[k].length > 0;
      }
      if k :| 0 <= k < i && !files[k].padding && files[k].length > 0 { assert IsContent(files[k]); }
    }
  }

  /** Which layouts are acceptable. */
  lemma {:induction false} AcceptableIff(files: seq<V1File>, tree: seq<TreeFile>, pieceLength: nat)
    requires pieceLength > 0
    ensures Acceptable(files, tree, pieceLength)
       <==> && (forall i :: 0 <= i < |files| ==>
                  if files[i].padding then GoodPadding(files, i, pieceLength) else GoodContent(files, i, pieceLength))
            && (exists k :: 0 <= k < |files| && !files[k].padding && files[k].length > 0)
            && Offset(files, |files|) <= 0xFFFF_FFFF_FFFF_FFFF
            && exists m :: PairsUp(files, tree, m)
  {
    hide Placed, GoodPadding, GoodContent, Offset;
    forall i | 0 <= i < |files|
      ensures Placed(files, i, pieceLength)
         <==> if files[i].padding then GoodPadding(files, i, pieceLength) else GoodContent(files, i, pieceLength)
    {
      PlacedIff(files, i, pieceLength);
    }
    assert ContentBefore(files, |files|)
      <==> exists k :: 0 <= k < |files| && !files[k].padding && files[k].length > 0 by {
      if ContentBefore(files, |files|) {
        var k :| 0 <= k < |files| && IsContent(files[k]);
        assert !files[k].padding && files[k].length > 0;
      }
      if k :| 0 <= k < |files| && !files[k].padding && files[k].length > 0 { assert IsContent(files[k]); }
    }
    BijectionIff(files, tree);
    hide InBijection, PairsUp, ContentBefore;
  }

  lemma BijectionIff(files: seq<V1File>, tree: seq<TreeFile>)
    ensures InBijection(files, tree) <==> exists m :: PairsUp(files, tree, m)
  {
    forall m ensures PairsUp(files, tree, m) <==> Partners(files, tree, m, |files|) && Covers(m, |tree|) {
      PairsUpIff(files, tree, m);
    }
  }

  lemma PairsUpIff(files: seq<V1File>, tree: seq<TreeFile>, m: seq<Option<nat>>)
    ensures PairsUp(files, tree, m) <==> Partners(files, tree, m, |files|) && Covers(m, |tree|)
  {
    if PairsUp(files, tree, m) {
      forall i | 0 <= i < |files|
        ensures m[i].None? <==> files[i].padding
        ensures m[i].Some? ==> m[i].value < |tree| && Same(tree[m[i].value], files[i])
                               && Creatable(files[i], tree[m[i].value].root)
      {
      }
    }
    if Partners(files, tree, m, |files|) && Covers(m, |tree|) {
      forall i | 0 <= i < |files|
        ensures if files[i].padding then m[i] == None
                else m[i].Some? && m[i].value < |tree| && Pairs(tree[m[i].value], files[i])
      {
        if !files[i].padding { assert m[i].Some?; }
      }
    }
  }

  predicate DistinctPaths(tree: seq<TreeFile>) {
    forall i, j :: 0 <= i < |tree| && 0 <= j < |tree| && tree[i].path == tree[j].path ==> i == j
  }

  /** The tree files of a decoded torrent have distinct paths, so for them the loop accepts exactly the acceptable. */
  lemma {:induction false} DecodedTreeIsDistinct(tree: Value, path: seq<Bytes>,
                                                 read: (Value, seq<Bytes>) -> Option<Leaf>, depth: nat, limits: Limits)
    requires Fits(tree, depth, limits) && Files(tree, path, read).Some?
    ensures DistinctPaths(Files(tree, path, read).value)
  {
    PathsArePrefixFree(tree, path, read, depth, limits);
    var files := Files(tree, path, read).value;
    forall i, j | 0 <= i < |files| && 0 <= j < |files| && files[i].path == files[j].path ensures i == j {
      PathsAreDistinct(files, i, j);
    }
  }

  /** The first unmatched tree file with the same path and length. */
  method FindMatch(tree: seq<TreeFile>, matched: seq<bool>, file: V1File) returns (found: Option<nat>)
    requires |matched| == |tree|
    ensures found.Some? ==> found.value < |tree| && !matched[found.value]
                            && tree[found.value].path == file.path && tree[found.value].length == file.length
    ensures found.None? ==> forall k :: 0 <= k < |tree| ==>
              matched[k] || tree[k].path != file.path || tree[k].length != file.length
  {
    for index := 0 to |tree|
      invariant forall k :: 0 <= k < index ==> matched[k] || tree[k].path != file.path || tree[k].length != file.length
    {
      if !matched[index] && tree[index].path == file.path && tree[index].length == file.length { return Some(index); }
    }
    found := None;
  }

  ghost predicate MatchState(files: seq<V1File>, tree: seq<TreeFile>, matched: seq<bool>, m: seq<Option<nat>>, n: nat)
    requires n <= |files|
  {
    |matched| == |tree| && Partners(files, tree, m, n) && forall j: nat :: j < |tree| ==> (matched[j] <==> Some(j) in m)
  }

  lemma StartMatching(files: seq<V1File>, tree: seq<TreeFile>, matched: seq<bool>)
    requires |matched| == |tree| && forall j :: 0 <= j < |tree| ==> !matched[j]
    ensures MatchState(files, tree, matched, [], 0)
    ensures Offset(files, 0) == 0 && !ContentBefore(files, 0)
  {
  }

  lemma NextFile(files: seq<V1File>, i: nat)
    requires i < |files|
    ensures Offset(files, i + 1) == Offset(files, i) + files[i].length
    ensures ContentBefore(files, i + 1) <==> ContentBefore(files, i) || (!files[i].padding && files[i].length > 0)
  {
    if !files[i].padding && files[i].length > 0 { assert IsContent(files[i]); }
  }

  lemma {:induction false} OffsetGrows(files: seq<V1File>, i: nat, j: nat)
    requires i <= j <= |files|
    ensures Offset(files, i) <= Offset(files, j)
    decreases j
  {
    if i < j { OffsetGrows(files, i, j - 1); }
  }

  lemma AcceptableAt(files: seq<V1File>, tree: seq<TreeFile>, pieceLength: nat, i: nat)
    requires pieceLength > 0 && i < |files|
    ensures Acceptable(files, tree, pieceLength) ==> Placed(files, i, pieceLength) && Offset(files, i + 1) <= U64_MAX
  {
    OffsetGrows(files, i + 1, |files|);
  }

  /** The conditions in the order in which they are tested. */
  lemma PlacedMeans(files: seq<V1File>, i: nat, pieceLength: nat)
    requires pieceLength > 0 && i < |files|
    ensures var file, offset := files[i], Offset(files, i);
            var gap := if offset % pieceLength == 0 then 0 else pieceLength - offset % pieceLength;
            Placed(files, i, pieceLength) <==>
              if file.padding then
                ContentBefore(files, i) && gap != 0 && file.length == gap
                && !file.traits.executable && !file.traits.symlink
                && |file.path| == 2 && file.path[0] == Ascii(".pad") && file.path[1] == Decimal(file.length)
                && Creatable(file, None)
              else !(file.length > 0 && ContentBefore(files, i) && offset % pieceLength != 0)
  {
    var file := files[i];
    if |file.path| == 2 { assert file.path == [file.path[0], file.path[1]]; }
  }

  lemma PaddingMatched(files: seq<V1File>, tree: seq<TreeFile>, matched: seq<bool>, m: seq<Option<nat>>, i: nat)
    requires i < |files| && files[i].padding && MatchState(files, tree, matched, m, i)
    ensures MatchState(files, tree, matched, m + [None], i + 1)
  {
  }

  lemma ContentMatched(files: seq<V1File>, tree: seq<TreeFile>, matched: seq<bool>, m: seq<Option<nat>>, i: nat,
                       index: nat)
    requires i < |files| && !files[i].padding && MatchState(files, tree, matched, m, i)
    requires index < |tree| && !matched[index] && Same(tree[index], files[i]) && Creatable(files[i], tree[index].root)
    ensures MatchState(files, tree, matched[index := true], m + [Some(index)], i + 1)
  {
    forall k | 0 <= k < i && m[k].Some? ensures m[k] != Some(index) {
      assert m[k] in m;
    }
    var m' := m + [Some(index)];
    assert m'[i] == Some(index);
    forall j: nat | j < |tree| ensures Some(j) in m' <==> Some(j) in m || j == index {}
  }

  /** With distinct paths, any one-to-one correspondence pairs a file with the tree file of its path. */
  lemma OnlyPartner(files: seq<V1File>, tree: seq<TreeFile>, m: seq<Option<nat>>, n: nat, i: nat, j: nat)
    requires n <= |files| && Partners(files, tree, m, n) && DistinctPaths(tree)
    requires i < n && !files[i].padding && j < |tree| && tree[j].path == files[i].path
    ensures m[i] == Some(j)
  {
    assert Same(tree[m[i].value], files[i]);
  }

  /** A content file without an unmatched equal in the tree has none at all. */
  lemma NoPartner(files: seq<V1File>, tree: seq<TreeFile>, pieceLength: nat, matched: seq<bool>, m: seq<Option<nat>>,
                  i: nat, found: Option<nat>)
    requires pieceLength > 0 && i < |files| && !files[i].padding && MatchState(files, tree, matched, m, i)
    requires match found
             case None => forall k :: 0 <= k < |tree| ==>
               matched[k] || tree[k].path != files[i].path || tree[k].length != files[i].length
             case Some(k) => k < |tree| && tree[k].path == files[i].path && tree[k].traits != files[i].traits
    ensures !(DistinctPaths(tree) && Acceptable(files, tree, pieceLength))
  {
    if DistinctPaths(tree) && Acceptable(files, tree, pieceLength) {
      var m': seq<Option<nat>> :| Partners(files, tree, m', |files|) && Covers(m', |tree|);
      if found.Some? { OnlyPartner(files, tree, m', |files|, i, found.value); }
      var j := m'[i].value;
      assert Same(tree[j], files[i]);
      assert Some(j) in m;
      var k :| 0 <= k < i && m[k] == Some(j);
      assert Same(tree[j], files[k]);
      OnlyPartner(files, tree, m', |files|, k, j);
    }
  }

  lemma NotCreatable(files: seq<V1File>, tree: seq<TreeFile>, pieceLength: nat, i: nat, index: nat)
    requires pieceLength > 0 && i < |files| && !files[i].padding && index < |tree|
    requires tree[index].path == files[i].path && !Creatable(files[i], tree[index].root)
    ensures !(DistinctPaths(tree) && Acceptable(files, tree, pieceLength))
  {
    if DistinctPaths(tree) && Acceptable(files, tree, pieceLength) {
      var m': seq<Option<nat>> :| Partners(files, tree, m', |files|) && Covers(m', |tree|);
      OnlyPartner(files, tree, m', |files|, i, index);
    }
  }

  lemma NoContent(files: seq<V1File>, tree: seq<TreeFile>, pieceLength: nat)
    requires pieceLength > 0 && !ContentBefore(files, |files|)
    ensures !Acceptable(files, tree, pieceLength)
  {
  }

  lemma Unmatched(files: seq<V1File>, tree: seq<TreeFile>, pieceLength: nat, matched: seq<bool>, m: seq<Option<nat>>,
                  j: nat)
    requires pieceLength > 0 && MatchState(files, tree, matched, m, |files|) && j < |tree| && !matched[j]
    ensures !(DistinctPaths(tree) && Acceptable(files, tree, pieceLength))
  {
    if DistinctPaths(tree) && Acceptable(files, tree, pieceLength) {
      var m': seq<Option<nat>> :| Partners(files, tree, m', |files|) && Covers(m', |tree|);
      assert Some(j) in m';
      var i :| 0 <= i < |m'| && m'[i] == Some(j);
      assert Same(tree[j], files[i]);
      OnlyPartner(files, tree, m, |files|, i, j);
    }
  }

  lemma {:induction false} FullyMatched(files: seq<V1File>, tree: seq<TreeFile>, pieceLength: nat, matched: seq<bool>,
                                        m: seq<Option<nat>>)
    requires pieceLength > 0 && MatchState(files, tree, matched, m, |files|)
    requires forall j :: 0 <= j < |tree| ==> matched[j]
    requires forall i :: 0 <= i < |files| ==> Placed(files, i, pieceLength)
    requires ContentBefore(files, |files|) && Offset(files, |files|) <= U64_MAX
    ensures Acceptable(files, tree, pieceLength)
  {
    assert Covers(m, |tree|);
  }

  lemma SameMeans(mapped: TreeFile, file: V1File)
    ensures Same(mapped, file) <==>
              mapped.path == file.path && mapped.length == file.length && mapped.traits == file.traits
  {
  }

  /** The layout's root of a content file is its partner's. */
  predicate RootFound(tree: seq<TreeFile>, file: V1File, root: Option<Bytes>) {
    exists j :: 0 <= j < |tree| && Same(tree[j], file) && root == tree[j].root
  }

  lemma RootIsFound(tree: seq<TreeFile>, file: V1File, j: nat)
    requires j < |tree| && Same(tree[j], file)
    ensures RootFound(tree, file, tree[j].root)
  {
  }

  method FirstUnmatched(matched: seq<bool>) returns (index: Option<nat>)
    ensures index.None? ==> forall j :: 0 <= j < |matched| ==> matched[j]
    ensures index.Some? ==> index.value < |matched| && !matched[index.value]
  {
    for j := 0 to |matched|
      invariant forall k :: 0 <= k < j ==> matched[k]
    {
      if !matched[j] { return Some(j); }
    }
    index := None;
  }

  /**
    The matching loop. It only accepts layouts in which v1 and v2 files correspond one to one and
    every content file starts at a piece; when the tree's paths are distinct it accepts all of them.
  */
  method MatchFiles(files: seq<V1File>, tree: seq<TreeFile>, pieceLength: nat)
    returns (layout: Option<seq<LayoutFile>>, totalSize: nat)
    requires pieceLength > 0
    ensures layout.Some? ==> Acceptable(files, tree, pieceLength)
    ensures layout.None? ==> !(DistinctPaths(tree) && Acceptable(files, tree, pieceLength))
    ensures layout.Some? ==> totalSize == Offset(files, |files|) && |layout.value| == |files|
    ensures layout.Some? ==> forall i :: 0 <= i < |files| ==> layout.value[i].file == files[i]
    ensures layout.Some? ==> forall i :: 0 <= i < |files| && files[i].padding ==> layout.value[i].root == None
    ensures layout.Some? ==>
              forall i :: 0 <= i < |files| && !files[i].padding ==> RootFound(tree, files[i], layout.value[i].root)
  {
    hide *;
    var matched := seq(|tree|, _ => false);
    ghost var m: seq<Option<nat>> := [];
    var result: seq<LayoutFile> := [];
    var sawContent := false;
    totalSize := 0;
    layout := None;
    StartMatching(files, tree, matched);
    for i := 0 to |files|
      invariant layout == None && |result| == i && |matched| == |tree|
      invariant totalSize == Offset(files, i) <= U64_MAX && sawContent == ContentBefore(files, i)
      invariant forall k :: 0 <= k < i ==> Placed(files, k, pieceLength)
      invariant MatchState(files, tree, matched, m, i)
      invariant forall k :: 0 <= k < i ==> result[k].file == files[k]
      invariant forall k :: 0 <= k < i && files[k].padding ==> result[k].root == None
      invariant forall k :: 0 <= k < i && !files[k].padding ==> RootFound(tree, files[k], result[k].root)
    {
      var file := files[i];
      NextFile(files, i);
      AcceptableAt(files, tree, pieceLength, i);
      if file.length > U64_MAX - totalSize { return; }
      PlacedMeans(files, i, pieceLength);
      if file.padding {
        var remainder := totalSize % pieceLength;
        var expected := if remainder == 0 then 0 else pieceLength - remainder;
        if !sawContent || expected == 0 || file.length != expected || file.traits.executable || file.traits.symlink
           || |file.path| != 2 || file.path[0] != Ascii(".pad") || file.path[1] != Decimal(file.length) {
          return;
        }
        if !Creatable(file, None) { return; }
        result := result + [LayoutFile(file, None)];
        PaddingMatched(files, tree, matched, m, i);
        m := m + [None];
      } else {
        if file.length > 0 && sawContent && totalSize % pieceLength != 0 { return; }
        var found := FindMatch(tree, matched, file);
        if found.None? || tree[found.value].traits != file.traits {
          NoPartner(files, tree, pieceLength, matched, m, i, found);
          return;
        }
        var index := found.value;
        SameMeans(tree[index], file);
        if !Creatable(file, tree[index].root) {
          NotCreatable(files, tree, pieceLength, i, index);
          return;
        }
        RootIsFound(tree, file, index);
        result := result + [LayoutFile(file, tree[index].root)];
        ContentMatched(files, tree, matched, m, i, index);
        matched := matched[index := true];
        m := m + [Some(index)];
        sawContent := sawContent || file.length > 0;
      }
      totalSize := totalSize + file.length;
    }
    if !sawContent { NoContent(files, tree, pieceLength); return; }
    var unmatched := FirstUnmatched(matched);
    if unmatched.Some? { Unmatched(files, tree, pieceLength, matched, m, unmatched.value); return; }
    FullyMatched(files, tree, pieceLength, matched, m);
    layout := Some(result);
  }

  // ----- verification of hybrid torrents -----------------------------------------------------------------------

  /** The layout as the verifier sees it. */
  function ForVerification(files: seq<V1File>): (r: seq<VL.File>)
    ensures |r| == |files|
  {
    seq(|files|, i requires 0 <= i < |files| => VL.File(files[i].length, files[i].padding))
  }

  lemma {:induction false} SameOffsets(files: seq<V1File>, n: nat)
    requires n <= |files|
    ensures VL.Begin(ForVerification(files), n) == Offset(files, n)
  {
    if n > 0 { SameOffsets(files, n - 1); }
  }

  /** Every non-empty content file starts at a piece boundary, the first included. */
  lemma {:induction false} ContentStartsPiece(files: seq<V1File>, tree: seq<TreeFile>, pieceLength: nat, i: nat)
    requires pieceLength > 0 && Acceptable(files, tree, pieceLength) && i < |files| && IsContent(files[i])
    ensures Offset(files, i) % pieceLength == 0
  {
    assert Placed(files, i, pieceLength);
    if !ContentBefore(files, i) {
      NothingBeforeContent(files, pieceLength, i);
    }
  }

  lemma {:induction false} NothingBeforeContent(files: seq<V1File>, pieceLength: nat, n: nat)
    requires pieceLength > 0 && n <= |files| && !ContentBefore(files, n)
    requires forall i :: 0 <= i < |files| ==> Placed(files, i, pieceLength)
    ensures Offset(files, n) == 0
  {
    if n > 0 {
      assert Placed(files, n - 1, pieceLength);
      NextFile(files, n - 1);
      NothingBeforeContent(files, pieceLength, n - 1);
    }
  }

  lemma MultipleBelow(a: nat, piece: nat, pieceLength: nat)
    requires pieceLength > 0 && a % pieceLength == 0 && a < piece * pieceLength + pieceLength
    ensures a <= piece * pieceLength
  {
    var q := a / pieceLength;
    assert a == q * pieceLength;
    if q > piece {
      ProductGrows(piece + 1, q, pieceLength);
    }
  }

  /** Some file among the first `n` has an overlap whenever the list of overlaps is not empty. */
  lemma {:induction false} OverlapComesFrom(files: seq<VL.File>, n: nat, begin: nat, end: nat) returns (i: nat)
    requires n <= |files| && VL.Overlaps(files, n, begin, end) != []
    ensures i < n && !files[i].padding && VL.Clip(files, i, begin, end) > 0
  {
    if !files[n - 1].padding && VL.Clip(files, n - 1, begin, end) > 0 {
      i := n - 1;
    } else {
      i := OverlapComesFrom(files, n - 1, begin, end);
    }
  }

  lemma TwoFilesDoNotMeet(files: seq<V1File>, tree: seq<TreeFile>, pieceLength: nat, piece: nat, total: nat, i: nat,
                          k: nat)
    requires pieceLength > 0 && Acceptable(files, tree, pieceLength) && i < k < |files|
    requires !files[i].padding && !files[k].padding
    requires VL.Clip(ForVerification(files), i, piece * pieceLength, VL.PieceEnd(piece, pieceLength, total)) > 0
    ensures VL.Clip(ForVerification(files), k, piece * pieceLength, VL.PieceEnd(piece, pieceLength, total)) == 0
  {
    hide Acceptable;
    var vfiles := ForVerification(files);
    SameOffsets(files, k);
    if files[k].length > 0 {
      ContentStartsPiece(files, tree, pieceLength, k);
      VL.BeginGrows(vfiles, i + 1, k);
      if Offset(files, k) < piece * pieceLength + pieceLength { MultipleBelow(Offset(files, k), piece, pieceLength); }
    }
  }

  lemma {:induction false} AtMostOneOverlap(files: seq<V1File>, tree: seq<TreeFile>, pieceLength: nat, piece: nat,
                                            total: nat, n: nat)
    requires pieceLength > 0 && Acceptable(files, tree, pieceLength) && n <= |files|
    ensures |VL.Overlaps(ForVerification(files), n, piece * pieceLength, VL.PieceEnd(piece, pieceLength, total))| <= 1
  {
    hide Acceptable, VL.Clip, VL.PieceEnd;
    if n > 0 {
      AtMostOneOverlap(files, tree, pieceLength, piece, total, n - 1);
      var begin, end := piece * pieceLength, VL.PieceEnd(piece, pieceLength, total);
      var vfiles := ForVerification(files);
      if VL.Overlaps(vfiles, n - 1, begin, end) != [] {
        var i := OverlapComesFrom(vfiles, n - 1, begin, end);
        if !files[n - 1].padding { TwoFilesDoNotMeet(files, tree, pieceLength, piece, total, i, n - 1); }
      }
    }
  }

  /** Verification of an accepted hybrid torrent never blames a piece shared by two files. */
  lemma {:induction false} HybridReportsShareNoPiece(files: seq<V1File>, tree: seq<TreeFile>, pieceLength: nat,
                                                     pieceCount: nat, available: seq<nat>, preflight: seq<VR.Preflight>,
                                                     verified: seq<bool>, report: VR.Report)
    requires pieceLength > 0 && Acceptable(files, tree, pieceLength)
    requires |available| == |files| == |preflight|
    requires forall i :: 0 <= i < |preflight| ==> preflight[i].finding != Some(VR.SharedPieceMismatch)
    requires var total := Offset(files, |files|);
             var layouts := VL.AllLayouts(ForVerification(files), available, pieceLength, total, pieceCount);
             VR.ReportIsRight(report, ForVerification(files), preflight, layouts, VR.KnownStates(layouts, verified))
    ensures forall f :: 0 <= f < |report.files| ==> VR.SharedPieceMismatch !in report.files[f].findings
  {
    hide Acceptable, VL.Overlaps, VL.Hashable;
    var layouts := VL.AllLayouts(ForVerification(files), available, pieceLength, Offset(files, |files|), pieceCount);
    forall p | 0 <= p < |layouts| ensures |layouts[p].overlaps| <= 1 {
      AtMostOneOverlap(files, tree, pieceLength, p, Offset(files, |files|), |files|);
    }
    VR.NoSharedPieces(report, ForVerification(files), preflight, layouts, VR.KnownStates(layouts, verified));
  }
}
