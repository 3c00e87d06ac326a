/**
  The walk of a v2 file tree in metadata_engine.cpp. What is said of its shape holds for any reading
  `read` of the leaf dictionaries; the program reads them as FileLeaf says.
*/
module FileTree {
  import opened Wrappers
  import opened ByteStrings
  import opened Bencode
  import opened BencodeParser
  import opened FileLeaf
  import Utf8
  import TF = TopLevelFields

  datatype TreeFile = TreeFile(path: seq<Bytes>, length: nat, traits: Traits, root: Option<Bytes>)

  predicate HasEmptyKey(entries: seq<Entry>) {
    exists i :: 0 <= i < |entries| && entries[i].key == []
  }

  /** The files below a node of the tree, or nothing if some node is malformed. */
  function Files(tree: Value, path: seq<Bytes>, read: (Value, seq<Bytes>) -> Option<Leaf>): Option<seq<TreeFile>>
    decreases tree, 0
  {
    if !tree.DictionaryValue? then None
    else if HasEmptyKey(tree.entries) then
      if |tree.entries| != 1 || path == [] || !tree.entries[0].value.DictionaryValue? then None
      else
        match read(tree.entries[0].value, path)
        case None => None
        case Some(leaf) => Some([TreeFile(path, leaf.length, leaf.traits, leaf.root)])
    else if tree.entries == [] then None
    else FilesUpTo(tree.entries, |tree.entries|, path, read)
  }

  function FilesUpTo(entries: seq<Entry>, n: nat, path: seq<Bytes>, read: (Value, seq<Bytes>) -> Option<Leaf>)
    : Option<seq<TreeFile>>
    requires n <= |entries|
    decreases entries, n
  {
    if n == 0 then Some([])
    else
      match FilesUpTo(entries, n - 1, path, read)
      case None => None
      case Some(before) =>
        if entries[n - 1].key == [] || !Utf8.WellFormed(entries[n - 1].key) then None
        else
          match Files(entries[n - 1].value, path + [entries[n - 1].key], read)
          case None => None
          case Some(below) => Some(before + below)
  }

  function TotalLength(files: seq<TreeFile>, n: nat): nat
    requires n <= |files|
  {
    if n == 0 then 0 else TotalLength(files, n - 1) + files[n - 1].length
  }

  lemma {:induction false} TotalLengthJoin(a: seq<TreeFile>, b: seq<TreeFile>, n: nat)
    requires n <= |b|
    ensures TotalLength(a + b, |a| + n) == TotalLength(a, |a|) + TotalLength(b, n)
  {
    if n == 0 {
      TotalLengthPrefix(a, b, |a|);
    } else {
      TotalLengthJoin(a, b, n - 1);
    }
  }

  lemma {:induction false} TotalLengthPrefix(a: seq<TreeFile>, b: seq<TreeFile>, n: nat)
    requires n <= |a|
    ensures TotalLength(a + b, n) == TotalLength(a, n)
  {
    if n > 0 { TotalLengthPrefix(a, b, n - 1); }
  }

  /** How the program reads a leaf. */
  function LeafReader(mode: TF.Mode, known: Bytes -> bool): (Value, seq<Bytes>) -> Option<Leaf> {
    (v: Value, path: seq<Bytes>) => if v.DictionaryValue? then LeafOf(v.entries, path, mode, known) else None
  }

  /** The search for the leaf marker. */
  method FindEmptyKey(entries: seq<Entry>) returns (found: bool)
    ensures found == HasEmptyKey(entries)
  {
    found := false;
    for i := 0 to |entries|
      invariant !found && forall k :: 0 <= k < i ==> entries[k].key != []
    {
      if entries[i].key == [] { return true; }
    }
  }

  /** What a walk promises: success exactly when the files are well-formed and their total fits 64 bits. */
  ghost predicate Walked(files: Option<seq<TreeFile>>, output: seq<TreeFile>, total: U64,
                         ok: bool, output': seq<TreeFile>, total': U64)
  {
    && (ok <==> files.Some? && total + TotalLength(files.value, |files.value|) <= U64_MAX)
    && (ok ==> output' == output + files.value && total' == total + TotalLength(files.value, |files.value|))
  }

  /** The branch of the walk for a node with a leaf marker. */
  method WalkLeaf(tree: Value, path: seq<Bytes>, output: seq<TreeFile>, total: U64, mode: TF.Mode, known: Bytes -> bool)
    returns (ok: bool, output': seq<TreeFile>, total': U64)
    requires tree.DictionaryValue? && HasEmptyKey(tree.entries)
    ensures Walked(Files(tree, path, LeafReader(mode, known)), output, total, ok, output', total')
  {
    hide LeafOf, LeafReader, HasEmptyKey;
    output', total' := output, total;
    var entries := tree.entries;
    if |entries| != 1 || path == [] || !entries[0].value.DictionaryValue? { return false, output', total'; }
    var spec := ReadLeaf(entries[0].value.entries, path, mode, known);
    LeafRead(entries[0].value, path, mode, known);
    if spec.None? { return false, output', total'; }
    ghost var files := Files(tree, path, LeafReader(mode, known)).value;
    assert TotalLength(files, 1) == TotalLength(files, 0) + spec.value.length;
    if spec.value.length > U64_MAX - total' { return false, output', total'; }
    total' := total' + spec.value.length;
    output' := output' + [TreeFile(path, spec.value.length, spec.value.traits, spec.value.root)];
    ok := true;
  }

  /** The recursive walk with its growing output and running total. */
  method WalkFileTree(tree: Value, path: seq<Bytes>, output: seq<TreeFile>, total: U64,
                      mode: TF.Mode, known: Bytes -> bool)
    returns (ok: bool, output': seq<TreeFile>, total': U64)
    ensures Walked(Files(tree, path, LeafReader(mode, known)), output, total, ok, output', total')
    decreases tree
  {
    hide LeafOf, LeafReader, FilesUpTo, TotalLength, Utf8.WellFormed;
    ghost var read := LeafReader(mode, known);
    output', total' := output, total;
    if !tree.DictionaryValue? { return false, output', total'; }
    var entries := tree.entries;
    var leaf := FindEmptyKey(entries);
    if leaf {
      ok, output', total' := WalkLeaf(tree, path, output, total, mode, known);
      return;
    }
    if entries == [] { return false, output', total'; }
    NoFilesYet(entries, path, read);
    for i := 0 to |entries|
      invariant Walked(FilesUpTo(entries, i, path, read), output, total, true, output', total')
    {
      FilesStep(entries, i, path, read);
      FilesPrefix(entries, i + 1, |entries|, path, read);
      var segment := entries[i].key;
      if segment == [] { return false, output', total'; }
      var valid := Utf8.MetadataValidUtf8(segment);
      if !valid { return false, output', total'; }
      var walked;
      walked, output', total' := WalkFileTree(entries[i].value, path + [segment], output', total', mode, known);
      if !walked { return false, output', total'; }
    }
    ok := true;
  }

  lemma NoFilesYet(entries: seq<Entry>, path: seq<Bytes>, read: (Value, seq<Bytes>) -> Option<Leaf>)
    ensures FilesUpTo(entries, 0, path, read) == Some([]) && TotalLength([], 0) == 0
  {
  }

  lemma LeafRead(v: Value, path: seq<Bytes>, mode: TF.Mode, known: Bytes -> bool)
    requires v.DictionaryValue?
    ensures LeafReader(mode, known)(v, path) == LeafOf(v.entries, path, mode, known)
  {
  }

  /** One more entry: its files come after the others', and lengths add up. */
  lemma FilesStep(entries: seq<Entry>, i: nat, path: seq<Bytes>, read: (Value, seq<Bytes>) -> Option<Leaf>)
    requires i < |entries| && FilesUpTo(entries, i, path, read).Some?
    ensures FilesUpTo(entries, i + 1, path, read).Some? <==>
              entries[i].key != [] && Utf8.WellFormed(entries[i].key)
              && Files(entries[i].value, path + [entries[i].key], read).Some?
    ensures FilesUpTo(entries, i + 1, path, read).Some? ==>
              var before := FilesUpTo(entries, i, path, read).value;
              var below := Files(entries[i].value, path + [entries[i].key], read).value;
              var all := FilesUpTo(entries, i + 1, path, read).value;
              && all == before + below
              && TotalLength(all, |all|) == TotalLength(before, |before|) + TotalLength(below, |below|)
  {
    if FilesUpTo(entries, i + 1, path, read).Some? {
      var before := FilesUpTo(entries, i, path, read).value;
      var below := Files(entries[i].value, path + [entries[i].key], read).value;
      TotalLengthJoin(before, below, |below|);
    }
  }

  /** A failure or an overflow part way is one of the whole. */
  lemma {:induction false} FilesPrefix(entries: seq<Entry>, i: nat, n: nat, path: seq<Bytes>,
                                       read: (Value, seq<Bytes>) -> Option<Leaf>)
    requires i <= n <= |entries|
    ensures FilesUpTo(entries, n, path, read).Some? ==> FilesUpTo(entries, i, path, read).Some?
    ensures FilesUpTo(entries, n, path, read).Some? ==>
              TotalLength(FilesUpTo(entries, i, path, read).value, |FilesUpTo(entries, i, path, read).value|)
              <= TotalLength(FilesUpTo(entries, n, path, read).value, |FilesUpTo(entries, n, path, read).value|)
    decreases n
  {
    if i < n && FilesUpTo(entries, n, path, read).Some? {
      FilesPrefix(entries, i, n - 1, path, read);
      FilesStep(entries, n - 1, path, read);
    }
  }

  // ----- paths ------------------------------------------------------------------------------------------

  /** No path is another one or leads to another one. */
  predicate PrefixFree(files: seq<TreeFile>) {
    forall i, j :: 0 <= i < |files| && 0 <= j < |files| && i != j ==> !(files[i].path <= files[j].path)
  }

  predicate Below(files: seq<TreeFile>, path: seq<Bytes>) {
    forall i :: 0 <= i < |files| ==> path <= files[i].path
  }

  /** Files of several directory entries: which entry a file comes from shows in its path. */
  predicate BelowEntries(files: seq<TreeFile>, entries: seq<Entry>, n: nat, path: seq<Bytes>)
    requires n <= |entries|
  {
    forall i :: 0 <= i < |files| ==>
      |path| < |files[i].path| && path <= files[i].path
      && exists k :: 0 <= k < n && files[i].path[|path|] == entries[k].key
  }

  lemma EntriesOfFitting(entries: seq<Entry>, depth: nat, limits: Limits, i: nat)
    requires EntriesFit(entries, depth, limits) && i < |entries|
    ensures BencodeParser.Fits(entries[i].value, depth, limits)
    decreases |entries|
  {
    if i > 0 { EntriesOfFitting(entries[1..], depth, limits, i - 1); }
  }

  /** In a decoded tree, no two files share a path and no file lies below another. */
  lemma {:induction false} PathsArePrefixFree(tree: Value, path: seq<Bytes>, read: (Value, seq<Bytes>) -> Option<Leaf>,
                                              depth: nat, limits: Limits)
    requires Fits(tree, depth, limits) && Files(tree, path, read).Some?
    ensures PrefixFree(Files(tree, path, read).value) && Below(Files(tree, path, read).value, path)
    decreases tree, 0
  {
    if !HasEmptyKey(tree.entries) {
      EntryPathsArePrefixFree(tree.entries, |tree.entries|, path, read, depth + 1, limits);
    }
  }

  lemma {:induction false} EntryPathsArePrefixFree(entries: seq<Entry>, n: nat, path: seq<Bytes>,
                                                   read: (Value, seq<Bytes>) -> Option<Leaf>, depth: nat,
                                                   limits: Limits)
    requires n <= |entries| && EntriesFit(entries, depth, limits) && DistinctKeys(entries)
    requires FilesUpTo(entries, n, path, read).Some?
    ensures PrefixFree(FilesUpTo(entries, n, path, read).value)
    ensures BelowEntries(FilesUpTo(entries, n, path, read).value, entries, n, path)
    decreases entries, n
  {
    if n > 0 {
      EntryPathsArePrefixFree(entries, n - 1, path, read, depth, limits);
      EntriesOfFitting(entries, depth, limits, n - 1);
      var key := entries[n - 1].key;
      PathsArePrefixFree(entries[n - 1].value, path + [key], read, depth, limits);
      PrefixFreeJoin(FilesUpTo(entries, n - 1, path, read).value, Files(entries[n - 1].value, path + [key], read).value,
                     entries, n - 1, path);
    }
  }

  lemma PrefixFreeJoin(before: seq<TreeFile>, below: seq<TreeFile>, entries: seq<Entry>, n: nat, path: seq<Bytes>)
    requires n < |entries| && DistinctKeys(entries)
    requires PrefixFree(before) && BelowEntries(before, entries, n, path)
    requires PrefixFree(below) && Below(below, path + [entries[n].key])
    ensures PrefixFree(before + below) && BelowEntries(before + below, entries, n + 1, path)
  {
    forall i | 0 <= i < |below|
      ensures |path| < |below[i].path| && path <= below[i].path && below[i].path[|path|] == entries[n].key
    {
      assert (path + [entries[n].key])[|path|] == entries[n].key;
      assert below[i].path[..|path|] == path;
    }
    forall i, j | 0 <= i < |before| && 0 <= j < |below|
      ensures before[i].path[|path|] != below[j].path[|path|]
    {
    }
  }

  /** In particular paths are distinct. */
  lemma PathsAreDistinct(files: seq<TreeFile>, i: nat, j: nat)
    requires PrefixFree(files) && i < |files| && j < |files| && files[i].path == files[j].path
    ensures i == j
  {
  }

  // ----- what the files of an accepted tree satisfy ------------------------------------------------------------

  predicate ConsistentFile(file: TreeFile) {
    ValidPath(file.path) && Consistent(Leaf(file.length, file.traits, file.root))
  }

  /** Every file has a valid path, a root of 32 bytes exactly when it is not empty, and sound traits. */
  lemma {:induction false} TreeFilesAreConsistent(tree: Value, path: seq<Bytes>, mode: TF.Mode, known: Bytes -> bool)
    requires Files(tree, path, LeafReader(mode, known)).Some?
    ensures forall file :: file in Files(tree, path, LeafReader(mode, known)).value ==> ConsistentFile(file)
    decreases tree, 0
  {
    hide LeafOf, LeafReader, Consistent, ValidPath;
    if HasEmptyKey(tree.entries) {
      var leaf := tree.entries[0].value;
      LeafRead(leaf, path, mode, known);
      AcceptedLeafIsConsistent(leaf.entries, path, mode, known);
    } else {
      EntryFilesAreConsistent(tree.entries, |tree.entries|, path, mode, known);
    }
  }

  lemma {:induction false} EntryFilesAreConsistent(entries: seq<Entry>, n: nat, path: seq<Bytes>, mode: TF.Mode,
                                                   known: Bytes -> bool)
    requires n <= |entries| && FilesUpTo(entries, n, path, LeafReader(mode, known)).Some?
    ensures forall file :: file in FilesUpTo(entries, n, path, LeafReader(mode, known)).value ==> ConsistentFile(file)
    decreases entries, n
  {
    hide LeafReader, ConsistentFile;
    if n > 0 {
      EntryFilesAreConsistent(entries, n - 1, path, mode, known);
      TreeFilesAreConsistent(entries[n - 1].value, path + [entries[n - 1].key], mode, known);
    }
  }

  // ----- which trees are accepted, and which files they give ---------------------------------------------------

  /** The node found by following keys that are not empty. */
  ghost predicate Reaches(tree: Value, path: seq<Bytes>, node: Value)
    decreases |path|
  {
    if path == [] then node == tree
    else
      && tree.DictionaryValue? && path[0] != []
      && exists i :: 0 <= i < |tree.entries| && tree.entries[i].key == path[0]
                     && Reaches(tree.entries[i].value, path[1..], node)
  }

  /** A leaf holds the empty key alone, not at the top, and can be read; a directory has entries with UTF-8 names. */
  predicate NodeFine(node: Value, path: seq<Bytes>, read: (Value, seq<Bytes>) -> Option<Leaf>) {
    && node.DictionaryValue? && node.entries != []
    && if HasEmptyKey(node.entries) then
         |node.entries| == 1 && path != [] && node.entries[0].value.DictionaryValue?
         && read(node.entries[0].value, path).Some?
       else forall i :: 0 <= i < |node.entries| ==> Utf8.WellFormed(node.entries[i].key)
  }

  ghost predicate AllFine(tree: Value, path: seq<Bytes>, read: (Value, seq<Bytes>) -> Option<Leaf>) {
    forall below, node :: Reaches(tree, below, node) ==> NodeFine(node, path + below, read)
  }

  lemma ReachesSelf(tree: Value)
    ensures Reaches(tree, [], tree)
  {
  }

  lemma ReachesThrough(entries: seq<Entry>, i: nat, below: seq<Bytes>, node: Value)
    requires i < |entries| && entries[i].key != [] && Reaches(entries[i].value, below, node)
    ensures Reaches(DictionaryValue(entries), [entries[i].key] + below, node)
  {
    var path := [entries[i].key] + below;
    assert path[0] == entries[i].key && path[1..] == below;
  }

  lemma AllFineAt(tree: Value, path: seq<Bytes>, read: (Value, seq<Bytes>) -> Option<Leaf>)
    ensures AllFine(tree, path, read) ==> NodeFine(tree, path, read)
  {
    ReachesSelf(tree);
    assert path + [] == path;
  }

  lemma AllFineBelow(entries: seq<Entry>, i: nat, path: seq<Bytes>, read: (Value, seq<Bytes>) -> Option<Leaf>)
    requires i < |entries| && entries[i].key != [] && AllFine(DictionaryValue(entries), path, read)
    ensures AllFine(entries[i].value, path + [entries[i].key], read)
  {
    hide NodeFine, Reaches;
    forall below, node | Reaches(entries[i].value, below, node)
      ensures NodeFine(node, path + [entries[i].key] + below, read)
    {
      ReachesThrough(entries, i, below, node);
      ConcatAssociative(path, [entries[i].key], below);
    }
  }

  lemma AllFineFromEntries(entries: seq<Entry>, path: seq<Bytes>, read: (Value, seq<Bytes>) -> Option<Leaf>)
    requires NodeFine(DictionaryValue(entries), path, read)
    requires forall i :: 0 <= i < |entries| && entries[i].key != [] ==>
               AllFine(entries[i].value, path + [entries[i].key], read)
    ensures AllFine(DictionaryValue(entries), path, read)
  {
    hide NodeFine;
    forall below, node | Reaches(DictionaryValue(entries), below, node) ensures NodeFine(node, path + below, read) {
      if below == [] {
        assert path + below == path;
      } else {
        var i :| 0 <= i < |entries| && entries[i].key == below[0] && Reaches(entries[i].value, below[1..], node);
        assert [entries[i].key] + below[1..] == below;
        ConcatAssociative(path, [entries[i].key], below[1..]);
      }
    }
  }

  /** A tree is accepted exactly when every node in it is fine. */
  lemma {:induction false} AcceptedIff(tree: Value, path: seq<Bytes>, read: (Value, seq<Bytes>) -> Option<Leaf>)
    ensures Files(tree, path, read).Some? <==> AllFine(tree, path, read)
    decreases tree, 0
  {
    hide AllFine, Reaches, Utf8.WellFormed;
    AllFineAt(tree, path, read);
    if tree.DictionaryValue? && tree.entries != [] {
      var entries := tree.entries;
      assert tree == DictionaryValue(entries);
      if HasEmptyKey(entries) {
        if NodeFine(tree, path, read) { AllFineFromEntries(entries, path, read); }
      } else {
        EntriesAcceptedIff(entries, |entries|, path, read);
        if AllFine(tree, path, read) {
          forall i | 0 <= i < |entries| ensures AllFine(entries[i].value, path + [entries[i].key], read) {
            AllFineBelow(entries, i, path, read);
          }
        }
        if Files(tree, path, read).Some? { AllFineFromEntries(entries, path, read); }
      }
    }
  }

  lemma {:induction false} EntriesAcceptedIff(entries: seq<Entry>, n: nat, path: seq<Bytes>,
                                              read: (Value, seq<Bytes>) -> Option<Leaf>)
    requires n <= |entries|
    ensures FilesUpTo(entries, n, path, read).Some?
       <==> forall i :: 0 <= i < n ==> && entries[i].key != [] && Utf8.WellFormed(entries[i].key)
                                       && AllFine(entries[i].value, path + [entries[i].key], read)
    decreases entries, n
  {
    hide AllFine, Files, Utf8.WellFormed;
    if n > 0 {
      EntriesAcceptedIff(entries, n - 1, path, read);
      AcceptedIff(entries[n - 1].value, path + [entries[n - 1].key], read);
    }
  }

  /** The file a leaf node gives. */
  ghost predicate IsFileOf(file: TreeFile, node: Value, path: seq<Bytes>, read: (Value, seq<Bytes>) -> Option<Leaf>) {
    && node.DictionaryValue? && HasEmptyKey(node.entries)
    && var leaf := read(node.entries[0].value, path);
       leaf.Some? && file == TreeFile(path, leaf.value.length, leaf.value.traits, leaf.value.root)
  }

  /** Some leaf at or below the tree gives the file. */
  ghost predicate GivenBelow(file: TreeFile, tree: Value, path: seq<Bytes>, read: (Value, seq<Bytes>) -> Option<Leaf>) {
    exists below, node :: Reaches(tree, below, node) && IsFileOf(file, node, path + below, read)
  }

  lemma GivenThroughIff(file: TreeFile, entries: seq<Entry>, path: seq<Bytes>,
                        read: (Value, seq<Bytes>) -> Option<Leaf>)
    requires !HasEmptyKey(entries)
    ensures GivenBelow(file, DictionaryValue(entries), path, read)
       <==> exists i :: 0 <= i < |entries| && GivenBelow(file, entries[i].value, path + [entries[i].key], read)
  {
    hide IsFileOf;
    var tree := DictionaryValue(entries);
    if GivenBelow(file, tree, path, read) {
      var below, node :| Reaches(tree, below, node) && IsFileOf(file, node, path + below, read);
      NotTheDirectory(file, entries, path + below, read);
      var i :| 0 <= i < |entries| && entries[i].key == below[0] && Reaches(entries[i].value, below[1..], node);
      assert [entries[i].key] + below[1..] == below;
      ConcatAssociative(path, [entries[i].key], below[1..]);
      assert GivenBelow(file, entries[i].value, path + [entries[i].key], read);
    }
    if i :| 0 <= i < |entries| && GivenBelow(file, entries[i].value, path + [entries[i].key], read) {
      var below, node :| Reaches(entries[i].value, below, node)
                         && IsFileOf(file, node, path + [entries[i].key] + below, read);
      assert entries[i].key != [];
      ReachesThrough(entries, i, below, node);
      ConcatAssociative(path, [entries[i].key], below);
    }
  }

  lemma NotTheDirectory(file: TreeFile, entries: seq<Entry>, path: seq<Bytes>,
                        read: (Value, seq<Bytes>) -> Option<Leaf>)
    requires !HasEmptyKey(entries)
    ensures !IsFileOf(file, DictionaryValue(entries), path, read)
  {
  }

  /** The files of an accepted tree are exactly those its leaves give. */
  lemma {:induction false} FilesAreLeaves(tree: Value, path: seq<Bytes>, read: (Value, seq<Bytes>) -> Option<Leaf>,
                                          file: TreeFile)
    requires Files(tree, path, read).Some?
    ensures file in Files(tree, path, read).value <==> GivenBelow(file, tree, path, read)
    decreases tree, 0
  {
    hide GivenBelow, Reaches;
    var entries := tree.entries;
    assert tree == DictionaryValue(entries);
    if HasEmptyKey(entries) {
      LeafGivesOne(file, tree, path, read);
    } else {
      EntryFilesAreLeaves(entries, |entries|, path, read, file);
      GivenThroughIff(file, entries, path, read);
    }
  }

  lemma LeafGivesOne(file: TreeFile, tree: Value, path: seq<Bytes>, read: (Value, seq<Bytes>) -> Option<Leaf>)
    requires Files(tree, path, read).Some? && HasEmptyKey(tree.entries)
    ensures file in Files(tree, path, read).value <==> GivenBelow(file, tree, path, read)
  {
    ReachesSelf(tree);
    assert path + [] == path;
    assert tree.entries[0].key == [];
    if GivenBelow(file, tree, path, read) {
      var below, node :| Reaches(tree, below, node) && IsFileOf(file, node, path + below, read);
      assert below == [];
    }
  }

  lemma {:induction false} EntryFilesAreLeaves(entries: seq<Entry>, n: nat, path: seq<Bytes>,
                                               read: (Value, seq<Bytes>) -> Option<Leaf>, file: TreeFile)
    requires n <= |entries| && FilesUpTo(entries, n, path, read).Some?
    ensures file in FilesUpTo(entries, n, path, read).value
       <==> exists i :: 0 <= i < n && GivenBelow(file, entries[i].value, path + [entries[i].key], read)
    decreases entries, n
  {
    hide GivenBelow, Files, Utf8.WellFormed;
    if n > 0 {
      EntryFilesAreLeaves(entries, n - 1, path, read, file);
      FilesAreLeaves(entries[n - 1].value, path + [entries[n - 1].key], read, file);
    }
  }

  // ----- order --------------------------------------------------------------------------------------------------

  /** Every dictionary of the tree has ascending keys. */
  predicate SortedTree(tree: Value)
    decreases tree
  {
    tree.DictionaryValue? ==>
      && TF.Ascending(tree.entries)
      && forall i :: 0 <= i < |tree.entries| ==> SortedTree(tree.entries[i].value)
  }

  /** The first segment in which two paths differ decides. */
  predicate PathBefore(a: seq<Bytes>, b: seq<Bytes>) {
    exists k :: 0 <= k < |a| && k < |b| && a[..k] == b[..k] && Less(a[k], b[k])
  }

  predicate PathsAscend(files: seq<TreeFile>) {
    forall i, j :: 0 <= i < j < |files| ==> PathBefore(files[i].path, files[j].path)
  }

  /** The files of a tree with sorted dictionaries come in the order of their paths. */
  lemma {:induction false} FilesAscend(tree: Value, path: seq<Bytes>, read: (Value, seq<Bytes>) -> Option<Leaf>)
    requires SortedTree(tree) && Files(tree, path, read).Some?
    ensures PathsAscend(Files(tree, path, read).value) && Below(Files(tree, path, read).value, path)
    decreases tree, 0
  {
    if !HasEmptyKey(tree.entries) { EntryFilesAscend(tree.entries, |tree.entries|, path, read); }
  }

  lemma {:induction false} EntryFilesAscend(entries: seq<Entry>, n: nat, path: seq<Bytes>,
                                            read: (Value, seq<Bytes>) -> Option<Leaf>)
    requires n <= |entries| && TF.Ascending(entries)
    requires forall i :: 0 <= i < |entries| ==> SortedTree(entries[i].value)
    requires FilesUpTo(entries, n, path, read).Some?
    ensures PathsAscend(FilesUpTo(entries, n, path, read).value)
    ensures BelowEntries(FilesUpTo(entries, n, path, read).value, entries, n, path)
    decreases entries, n
  {
    hide Less, Files, Utf8.WellFormed, SortedTree, PathsAscend, BelowEntries, Below;
    if n == 0 {
      NoFilesAscend(entries, path);
    } else {
      EntryFilesAscend(entries, n - 1, path, read);
      var key := entries[n - 1].key;
      FilesAscend(entries[n - 1].value, path + [key], read);
      AscendJoin(FilesUpTo(entries, n - 1, path, read).value, Files(entries[n - 1].value, path + [key], read).value,
                 entries, n - 1, path);
    }
  }

  lemma NoFilesAscend(entries: seq<Entry>, path: seq<Bytes>)
    ensures PathsAscend([]) && BelowEntries([], entries, 0, path)
  {
  }

  lemma AscendJoin(before: seq<TreeFile>, below: seq<TreeFile>, entries: seq<Entry>, n: nat, path: seq<Bytes>)
    requires n < |entries| && TF.Ascending(entries)
    requires PathsAscend(before) && BelowEntries(before, entries, n, path)
    requires PathsAscend(below) && Below(below, path + [entries[n].key])
    ensures PathsAscend(before + below) && BelowEntries(before + below, entries, n + 1, path)
  {
    hide Less, PathBefore;
    forall i | 0 <= i < |below|
      ensures |path| < |below[i].path| && path <= below[i].path && below[i].path[|path|] == entries[n].key
    {
      assert (path + [entries[n].key])[|path|] == entries[n].key;
      assert below[i].path[..|path|] == path;
    }
    forall i, j | 0 <= i < |before| && 0 <= j < |below| ensures PathBefore(before[i].path, below[j].path) {
      DifferAfter(before[i].path, below[j].path, path);
    }
  }

  lemma DifferAfter(a: seq<Bytes>, b: seq<Bytes>, path: seq<Bytes>)
    requires path <= a && path <= b && |path| < |a| && |path| < |b| && Less(a[|path|], b[|path|])
    ensures PathBefore(a, b)
  {
    assert a[..|path|] == path == b[..|path|];
  }
}
