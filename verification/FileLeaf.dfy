/**
  Reading the leaf dictionary of a file in a v2 file tree (metadata_engine.cpp), with the path rules of
  domain.cpp. Which keys are known is a parameter.
*/
module FileLeaf {
  import opened Wrappers
  import opened ByteStrings
  import opened Bencode
  import Utf8
  import TF = TopLevelFields

  datatype Traits =
    Traits(executable: bool, symlink: bool, hidden: bool, sha1Hint: Option<Bytes>, symlinkTarget: Option<seq<Bytes>>)

  datatype Attributes = Attributes(padding: bool, traits: Traits)

  datatype Leaf = Leaf(length: nat, traits: Traits, root: Option<Bytes>)

  const DOT: Byte := 0x2E

  // ----- paths --------------------------------------------------------------------------------------------

  predicate IsLetter(b: Byte) { 0x41 <= b <= 0x5A || 0x61 <= b <= 0x7A }

  predicate ValidSegment(s: Bytes) {
    && s != [] && s != [DOT] && s != [DOT, DOT] && Utf8.WellFormed(s)
    && 0 !in s && SLASH !in s && BACKSLASH !in s
    && !(|s| >= 2 && IsLetter(s[0]) && s[1] == COLON)
  }

  predicate ValidPath(path: seq<Bytes>) {
    path != [] && forall i :: 0 <= i < |path| ==> ValidSegment(path[i])
  }

  /** LogicalPath::from_segments */
  method CheckPath(path: seq<Bytes>) returns (ok: bool)
    ensures ok == ValidPath(path)
  {
    hide Utf8.WellFormed;
    if path == [] { return false; }
    for i := 0 to |path|
      invariant forall k :: 0 <= k < i ==> ValidSegment(path[k])
    {
      var s := path[i];
      if s == [] || s == [DOT] || s == [DOT, DOT] { return false; }
      var valid := Utf8.DomainIsValidUtf8(s);
      if !valid { return false; }
      if 0 in s || SLASH in s || BACKSLASH in s { return false; }
      if |s| >= 2 && IsLetter(s[0]) && s[1] == COLON { return false; }
    }
    ok := true;
  }

  // ----- what a leaf means -------------------------------------------------------------------------------------

  function StringOf(node: Option<Value>): Option<Bytes> {
    if node.Some? && node.value.StringValue? then Some(node.value.content) else None
  }

  function UnsignedOf(node: Option<Value>): Option<nat> {
    if node.Some? && node.value.IntegerValue? && node.value.integer >= 0 then Some(node.value.integer) else None
  }

  function Field(leaf: seq<Entry>, key: string): Option<Value>
    requires forall i :: 0 <= i < |key| ==> key[i] < 128 as char
  {
    TF.Lookup(leaf, Ascii(key))
  }

  predicate IsText(v: Value) { v.StringValue? && Utf8.WellFormed(v.content) }

  /** The strings of a list, all of them UTF-8. */
  function Segments(items: seq<Value>): Option<seq<Bytes>> {
    if forall i :: 0 <= i < |items| ==> IsText(items[i])
    then Some(seq(|items|, i requires 0 <= i < |items| && items[i].StringValue? => items[i].content))
    else None
  }

  function FlagTraits(flags: Bytes, hint: Option<Bytes>, target: Option<seq<Bytes>>): Attributes {
    Attributes(0x70 in flags, Traits(0x78 in flags, 0x6C in flags, 0x68 in flags, hint, target))
  }

  predicate ValidHint(hint: Option<Value>) {
    hint.Some? ==> StringOf(hint).Some? && |StringOf(hint).value| == 20
  }

  /** read_attributes: the letters p, x, l and h of `attr`, the hint, and the target of a link. */
  function AttributesOf(leaf: seq<Entry>, length: Option<nat>): Option<Attributes> {
    var attr, hint, link := Field(leaf, "attr"), Field(leaf, "sha1"), Field(leaf, "symlink path");
    var flags := if attr.None? then Some([]) else StringOf(attr);
    if flags.None? || !ValidHint(hint) || (0x6C in flags.value) != link.Some? then None
    else if link.None? then Some(FlagTraits(flags.value, StringOf(hint), None))
    else if !link.value.ListValue? || (length.Some? && length.value != 0) then None
    else
      var target := Segments(link.value.items);
      if target.None? || !ValidPath(target.value) then None
      else Some(FlagTraits(flags.value, StringOf(hint), target))
  }

  /** A strict reader accepts only known keys. */
  predicate Scanned(leaf: seq<Entry>, mode: TF.Mode, known: Bytes -> bool) {
    mode == TF.Strict ==> forall i :: 0 <= i < |leaf| ==> known(leaf[i].key)
  }

  function LeafOf(leaf: seq<Entry>, path: seq<Bytes>, mode: TF.Mode, known: Bytes -> bool): Option<Leaf> {
    var lengthNode, root := Field(leaf, "length"), StringOf(Field(leaf, "pieces root"));
    var length := UnsignedOf(lengthNode);
    var attributes := AttributesOf(leaf, length);
    if !Scanned(leaf, mode, known) || (lengthNode.Some? && length.None?) || attributes.None? then None
    else if length.None? && !attributes.value.traits.symlink then None
    else
      var n := if length.Some? then length.value else 0;
      if attributes.value.padding || (n == 0 && root.Some?) || (n > 0 && (root.None? || |root.value| != 32)) then None
      else if !ValidPath(path) then None
      else Some(Leaf(n, attributes.value.traits, root))
  }

  /** What every accepted leaf satisfies; the element conditions of FileEntry::create are among it. */
  predicate Consistent(leaf: Leaf) {
    && (leaf.length > 0 <==> leaf.root.Some?)
    && (leaf.root.Some? ==> |leaf.root.value| == 32)
    && (leaf.traits.symlink <==> leaf.traits.symlinkTarget.Some?)
    && (leaf.traits.symlink ==> leaf.length == 0 && leaf.root.None? && ValidPath(leaf.traits.symlinkTarget.value))
    && (leaf.traits.sha1Hint.Some? ==> |leaf.traits.sha1Hint.value| == 20)
  }

  lemma {:induction false} AcceptedLeafIsConsistent(leaf: seq<Entry>, path: seq<Bytes>, mode: TF.Mode,
                                                    known: Bytes -> bool)
    ensures LeafOf(leaf, path, mode, known).Some? ==>
              ValidPath(path) && Consistent(LeafOf(leaf, path, mode, known).value)
  {
    hide Field, ValidSegment, Segments;
  }

  /** The target of a link: a list of segments that form a valid path. */
  predicate IsTarget(v: Value) {
    v.ListValue? && v.items != [] && forall i :: 0 <= i < |v.items| ==> v.items[i].StringValue?
                                                                        && ValidSegment(v.items[i].content)
  }

  lemma TargetIff(items: seq<Value>)
    ensures Segments(items).Some? && ValidPath(Segments(items).value) <==> IsTarget(ListValue(items))
    ensures Segments(items).Some? ==> |Segments(items).value| == |items|
    ensures Segments(items).Some? ==>
              forall i :: 0 <= i < |items| ==> items[i] == StringValue(Segments(items).value[i])
  {
    hide Utf8.WellFormed;
    var v := ListValue(items);
    if IsTarget(v) {
      forall i | 0 <= i < |items| ensures IsText(items[i]) && ValidSegment(items[i].content) {
        assert v.items[i] == items[i];
      }
    }
    if Segments(items).Some? && ValidPath(Segments(items).value) {
      forall i | 0 <= i < |items| ensures items[i].StringValue? && ValidSegment(items[i].content) {
        assert IsText(items[i]) && Segments(items).value[i] == items[i].content;
      }
    }
  }

  /**
    Field by field: the leaves that are read, and what is read from them. A missing length means zero and is only
    allowed for links; a root is demanded of files with content and refused for empty ones.
  */
  lemma {:induction false} LeafIff(leaf: seq<Entry>, path: seq<Bytes>, mode: TF.Mode, known: Bytes -> bool)
    ensures var length, attr, hint := Field(leaf, "length"), Field(leaf, "attr"), Field(leaf, "sha1");
            var link, root := Field(leaf, "symlink path"), Field(leaf, "pieces root");
            var letters := if attr.Some? && attr.value.StringValue? then attr.value.content else [];
            var n := if length.Some? && length.value.IntegerValue? then length.value.integer else 0;
            var r := LeafOf(leaf, path, mode, known);
            && (r.Some? <==>
                  && (mode == TF.Strict ==> forall i :: 0 <= i < |leaf| ==> known(leaf[i].key))
                  && ValidPath(path)
                  && (length.Some? ==> length.value.IntegerValue? && n >= 0)
                  && (attr.Some? ==> attr.value.StringValue?)
                  && (hint.Some? ==> hint.value.StringValue? && |hint.value.content| == 20)
                  && 0x70 !in letters && (link.Some? <==> 0x6C in letters)
                  && (if link.Some? then n == 0 && IsTarget(link.value) else length.Some?)
                  && (if n == 0 then root.Some? ==> !root.value.StringValue?
                      else root.Some? && root.value.StringValue? && |root.value.content| == 32))
            && (r.Some? ==>
                  var leaf := r.value;
                  && leaf.length == n && leaf.traits.executable == (0x78 in letters)
                  && leaf.traits.hidden == (0x68 in letters) && leaf.traits.symlink == link.Some?
                  && leaf.traits.sha1Hint == (if hint.Some? then Some(hint.value.content) else None)
                  && (link.Some? ==> leaf.traits.symlinkTarget == Segments(link.value.items))
                  && (link.None? ==> leaf.traits.symlinkTarget == None)
                  && leaf.root == (if n == 0 then None else Some(root.value.content)))
  {
    hide Field, Segments, ValidPath, IsTarget;
    var link := Field(leaf, "symlink path");
    if link.Some? && link.value.ListValue? { TargetIff(link.value.items); }
    NoTargetElsewhere(link);
  }

  lemma NoTargetElsewhere(link: Option<Value>)
    ensures link.Some? && !link.value.ListValue? ==> !IsTarget(link.value)
  {
  }

  /** No segment of a valid path climbs, separates, ends early, or names a drive. */
  lemma ValidPathIff(path: seq<Bytes>)
    ensures ValidPath(path)
       <==> path != [] && forall i :: 0 <= i < |path| ==>
              var s := path[i];
              && s != [] && s != [0x2E] && s != [0x2E, 0x2E] && Utf8.WellFormed(s)
              && (forall k :: 0 <= k < |s| ==> s[k] !in {0x00, 0x2F, 0x5C})
              && !(|s| >= 2 && s[1] == 0x3A && (0x41 <= s[0] <= 0x5A || 0x61 <= s[0] <= 0x7A))
  {
    hide Utf8.WellFormed;
  }

  // ----- the program --------------------------------------------------------------------------------------------

  method ReadSegments(items: seq<Value>) returns (r: Option<seq<Bytes>>)
    ensures r == Segments(items)
  {
    hide Utf8.WellFormed;
    var segments: seq<Bytes> := [];
    for i := 0 to |items|
      invariant |segments| == i
      invariant forall k :: 0 <= k < i ==> IsText(items[k]) && segments[k] == items[k].content
    {
      if !items[i].StringValue? {
        assert !IsText(items[i]);
        return None;
      }
      var valid := Utf8.MetadataValidUtf8(items[i].content);
      assert valid == IsText(items[i]);
      if !valid { return None; }
      segments := segments + [items[i].content];
    }
    assert segments == Segments(items).value;
    r := Some(segments);
  }

  /** The loop over the letters of `attr`. */
  method ReadFlags(value: Bytes) returns (padding: bool, executable: bool, hidden: bool, symlink: bool)
    ensures padding == (0x70 in value) && executable == (0x78 in value)
    ensures hidden == (0x68 in value) && symlink == (0x6C in value)
  {
    padding, executable, hidden, symlink := false, false, false, false;
    for i := 0 to |value|
      invariant padding == (0x70 in value[..i]) && executable == (0x78 in value[..i])
      invariant hidden == (0x68 in value[..i]) && symlink == (0x6C in value[..i])
    {
      assert value[..i + 1] == value[..i] + [value[i]];
      match value[i]
      case 0x70 => padding := true;
      case 0x78 => executable := true;
      case 0x68 => hidden := true;
      case 0x6C => symlink := true;
      case _ =>
    }
    assert value[..|value|] == value;
  }

  method ReadAttributes(leaf: seq<Entry>, length: Option<nat>) returns (r: Option<Attributes>)
    ensures r == AttributesOf(leaf, length)
  {
    hide Field, Segments, ValidPath;
    var node, hint, link := Field(leaf, "attr"), Field(leaf, "sha1"), Field(leaf, "symlink path");
    if node.None? && hint.None? && link.None? {
      return Some(Attributes(false, Traits(false, false, false, None, None)));
    }
    if node.None? && link.Some? { return None; }
    var padding, executable, hidden, symlink := false, false, false, false;
    if node.Some? {
      if !node.value.StringValue? { return None; }
      padding, executable, hidden, symlink := ReadFlags(node.value.content);
    }
    var sha1Hint: Option<Bytes> := None;
    if hint.Some? {
      if !hint.value.StringValue? || |hint.value.content| != 20 { return None; }
      sha1Hint := Some(hint.value.content);
    }
    if symlink != link.Some? { return None; }
    var target: Option<seq<Bytes>> := None;
    if link.Some? {
      if length.Some? && length.value != 0 { return None; }
      if !link.value.ListValue? { return None; }
      target := ReadSegments(link.value.items);
      if target.None? { return None; }
      var valid := CheckPath(target.value);
      if !valid { return None; }
    }
    r := Some(Attributes(padding, Traits(executable, symlink, hidden, sha1Hint, target)));
  }

  method ScanFields(leaf: seq<Entry>, mode: TF.Mode, known: Bytes -> bool) returns (ok: bool)
    ensures ok == Scanned(leaf, mode, known)
  {
    for i := 0 to |leaf|
      invariant mode == TF.Strict ==> forall k :: 0 <= k < i ==> known(leaf[k].key)
    {
      if !known(leaf[i].key) && mode == TF.Strict { return false; }
    }
    ok := true;
  }

  /** The checks of a leaf in program order, but for the running total. */
  method ReadLeaf(leaf: seq<Entry>, path: seq<Bytes>, mode: TF.Mode, known: Bytes -> bool) returns (r: Option<Leaf>)
    ensures r == LeafOf(leaf, path, mode, known)
  {
    hide Field, AttributesOf, Scanned, ValidPath;
    var scanned := ScanFields(leaf, mode, known);
    if !scanned { return None; }
    var lengthNode := Field(leaf, "length");
    var length := UnsignedOf(lengthNode);
    if lengthNode.Some? && length.None? { return None; }
    var attributes := ReadAttributes(leaf, length);
    if attributes.None? { return None; }
    if length.None? && !attributes.value.traits.symlink { return None; }
    var n := if length.Some? then length.value else 0;
    if attributes.value.padding { return None; }
    var root := StringOf(Field(leaf, "pieces root"));
    if (n == 0 && root.Some?) || (n > 0 && (root.None? || |root.value| != 32)) { return None; }
    var valid := CheckPath(path);
    if !valid { return None; }
    r := Some(Leaf(n, attributes.value.traits, root));
  }
}
