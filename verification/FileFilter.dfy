/** Glob rules of file_filter.cpp: the memoized matcher, and which rule of a filter matches a path. */
module FileFilter {
  import opened Wrappers
  import opened ByteStrings
  import opened Numbers

  const STAR: Byte := 0x2A
  const DOT: Byte := 0x2E

  // ----- what a pattern means ---------------------------------------------------------------------

  datatype Item = AnyBytes | AnyBytesButSlash | AnyByte | Literal(byte: Byte)

  predicate ItemFits(item: Item, part: Bytes) {
    match item
    case AnyBytes => true
    case AnyBytesButSlash => SLASH !in part
    case AnyByte => |part| == 1
    case Literal(b) => part == [b]
  }

  /** The value splits into one part for each item. */
  predicate Splits(items: seq<Item>, value: Bytes) {
    if items == [] then value == []
    else exists k :: 0 <= k <= |value| && ItemFits(items[0], value[..k]) && Splits(items[1..], value[k..])
  }

  function StarEnd(pattern: Bytes, p: nat): (end: nat)
    requires p <= |pattern|
    ensures p <= end <= |pattern|
    decreases |pattern| - p
  {
    if p < |pattern| && pattern[p] == STAR then StarEnd(pattern, p + 1) else p
  }

  /** A run of two or more stars means any bytes, a single star any bytes but a slash. */
  function Items(pattern: Bytes, p: nat := 0): seq<Item>
    requires p <= |pattern|
    decreases |pattern| - p
  {
    if p == |pattern| then []
    else if pattern[p] == STAR then
      assert StarEnd(pattern, p) == StarEnd(pattern, p + 1);
      [if StarEnd(pattern, p) - p >= 2 then AnyBytes else AnyBytesButSlash] + Items(pattern, StarEnd(pattern, p))
    else [if pattern[p] == QUESTION then AnyByte else Literal(pattern[p])] + Items(pattern, p + 1)
  }

  /** The matcher's recursion without its memo. */
  predicate MatchFrom(pattern: Bytes, p: nat, value: Bytes, v: nat)
    requires p <= |pattern| && v <= |value|
    decreases |pattern| - p, |value| - v
  {
    if p == |pattern| then v == |value|
    else if pattern[p] == STAR then
      var next := StarEnd(pattern, p);
      assert next == StarEnd(pattern, p + 1);
      MatchFrom(pattern, next, value, v)
      || (v < |value| && (next - p >= 2 || value[v] != SLASH) && MatchFrom(pattern, p, value, v + 1))
    else v < |value| && (pattern[p] == QUESTION || pattern[p] == value[v]) && MatchFrom(pattern, p + 1, value, v + 1)
  }

  lemma SplitOne(items: seq<Item>, value: Bytes, b: Byte)
    requires items != [] && (items[0] == AnyByte || items[0] == Literal(b))
    requires items[0] == AnyByte ==> value != [] && value[0] == b
    ensures Splits(items, value) <==> value != [] && value[0] == b && Splits(items[1..], value[1..])
  {
    if Splits(items, value) {
      var k :| 0 <= k <= |value| && ItemFits(items[0], value[..k]) && Splits(items[1..], value[k..]);
      assert k == 1 && value[..k][0] == value[0];
    }
    if value != [] && value[0] == b && Splits(items[1..], value[1..]) {
      assert value[..1] == [value[0]];
    }
  }

  predicate RunItem(items: seq<Item>) { items != [] && (items[0] == AnyBytes || items[0] == AnyBytesButSlash) }

  /** The first byte of a value may belong to a run. */
  predicate RunTakes(items: seq<Item>, value: Bytes)
    requires RunItem(items)
  {
    value != [] && (items[0] == AnyBytes || value[0] != SLASH)
  }

  lemma RunShrinks(items: seq<Item>, value: Bytes)
    requires RunItem(items) && Splits(items, value)
    ensures Splits(items[1..], value) || (RunTakes(items, value) && Splits(items, value[1..]))
  {
    var k :| 0 <= k <= |value| && ItemFits(items[0], value[..k]) && Splits(items[1..], value[k..]);
    if k == 0 {
      assert value[0..] == value;
    } else {
      var rest := value[1..];
      assert value[..k][0] == value[0];
      assert rest[..k - 1] == value[..k][1..] && rest[k - 1..] == value[k..];
    }
  }

  lemma RunMayBeEmpty(items: seq<Item>, value: Bytes)
    requires RunItem(items) && Splits(items[1..], value)
    ensures Splits(items, value)
  {
    assert value[..0] == [] && value[0..] == value;
  }

  lemma RunGrows(items: seq<Item>, value: Bytes)
    requires RunItem(items) && RunTakes(items, value) && Splits(items, value[1..])
    ensures Splits(items, value)
  {
    var rest := value[1..];
    var k :| 0 <= k <= |rest| && ItemFits(items[0], rest[..k]) && Splits(items[1..], rest[k..]);
    assert value[..k + 1] == [value[0]] + rest[..k] && value[k + 1..] == rest[k..];
  }

  /** A run of bytes is empty, or one byte and a run. */
  lemma SplitRun(items: seq<Item>, value: Bytes)
    requires RunItem(items)
    ensures Splits(items, value) <==>
              Splits(items[1..], value) || (RunTakes(items, value) && Splits(items, value[1..]))
  {
    hide Splits;
    if Splits(items, value) { RunShrinks(items, value); }
    if Splits(items[1..], value) { RunMayBeEmpty(items, value); }
    if RunTakes(items, value) && Splits(items, value[1..]) { RunGrows(items, value); }
  }

  /** The recursion decides whether the rest of the value splits according to the rest of the pattern. */
  lemma {:induction false} MatchFromMeansSplits(pattern: Bytes, p: nat, value: Bytes, v: nat)
    requires p <= |pattern| && v <= |value|
    ensures MatchFrom(pattern, p, value, v) <==> Splits(Items(pattern, p), value[v..])
    decreases |pattern| - p, |value| - v
  {
    hide Splits;
    if p == |pattern| {
      NothingLeft(value[v..]);
    } else if pattern[p] == STAR {
      var next := StarEnd(pattern, p);
      assert next == StarEnd(pattern, p + 1);
      MatchFromMeansSplits(pattern, next, value, v);
      assert Items(pattern, p)[1..] == Items(pattern, next);
      SplitRun(Items(pattern, p), value[v..]);
      if v < |value| {
        MatchFromMeansSplits(pattern, p, value, v + 1);
        assert value[v..][1..] == value[v + 1..];
      }
    } else {
      assert Items(pattern, p)[1..] == Items(pattern, p + 1);
      if v < |value| {
        MatchFromMeansSplits(pattern, p + 1, value, v + 1);
        assert value[v..][1..] == value[v + 1..];
        SplitOne(Items(pattern, p), value[v..], if pattern[p] == QUESTION then value[v] else pattern[p]);
      } else {
        NothingForOne(Items(pattern, p), value[v..]);
      }
    }
  }

  lemma NothingLeft(value: Bytes)
    ensures Splits([], value) <==> value == []
  {
  }

  lemma NothingForOne(items: seq<Item>, value: Bytes)
    requires items != [] && (items[0].AnyByte? || items[0].Literal?) && value == []
    ensures !Splits(items, value)
  {
  }

  // ----- the memoized matcher -----------------------------------------------------------------------------

  function Cell(p: nat, v: nat, width: nat): nat { p * width + v }

  lemma CellInTable(p: nat, v: nat, width: nat, rows: nat)
    requires p < rows && v < width
    ensures Cell(p, v, width) < rows * width
  {
    NextMultiple(p, rows, width);
  }

  lemma CellsDiffer(p: nat, v: nat, p': nat, v': nat, width: nat)
    requires v < width && v' < width && Cell(p, v, width) == Cell(p', v', width)
    ensures p == p' && v == v'
  {
    if p < p' { NextMultiple(p, p', width); }
    if p' < p { NextMultiple(p', p, width); }
  }

  /** Every filled cell holds what the recursion gives for its place. */
  ghost predicate MemoIsRight(memo: seq<int>, pattern: Bytes, value: Bytes) {
    && |memo| == (|pattern| + 1) * (|value| + 1)
    && forall p: nat, v: nat :: p <= |pattern| && v <= |value| ==> CellIsRight(memo, pattern, p, value, v)
  }

  ghost predicate CellIsRight(memo: seq<int>, pattern: Bytes, p: nat, value: Bytes, v: nat)
    requires p <= |pattern| && v <= |value|
  {
    var at := Cell(p, v, |value| + 1);
    at < |memo| && (memo[at] != -1 ==> (memo[at] != 0 <==> MatchFrom(pattern, p, value, v)))
  }

  lemma FillCell(memo: seq<int>, pattern: Bytes, p: nat, value: Bytes, v: nat, result: bool)
    requires MemoIsRight(memo, pattern, value) && p <= |pattern| && v <= |value|
    requires result == MatchFrom(pattern, p, value, v)
    ensures Cell(p, v, |value| + 1) < |memo|
    ensures MemoIsRight(memo[Cell(p, v, |value| + 1) := if result then 1 else 0], pattern, value)
  {
    hide MatchFrom, Cell;
    CellInTable(p, v, |value| + 1, |pattern| + 1);
    var memo' := memo[Cell(p, v, |value| + 1) := if result then 1 else 0];
    forall p': nat, v': nat | p' <= |pattern| && v' <= |value| ensures CellIsRight(memo', pattern, p', value, v') {
      assert CellIsRight(memo, pattern, p', value, v');
      if Cell(p', v', |value| + 1) == Cell(p, v, |value| + 1) { CellsDiffer(p', v', p, v, |value| + 1); }
    }
  }

  lemma FreshMemo(memo: seq<int>, pattern: Bytes, value: Bytes)
    requires |memo| == (|pattern| + 1) * (|value| + 1) && forall i :: 0 <= i < |memo| ==> memo[i] == -1
    ensures MemoIsRight(memo, pattern, value)
  {
    forall p: nat, v: nat | p <= |pattern| && v <= |value| ensures CellIsRight(memo, pattern, p, value, v) {
      CellInTable(p, v, |value| + 1, |pattern| + 1);
    }
  }

  /** The recursive lambda. Its result and every cell it fills are right. */
  method Match(pattern: Bytes, value: Bytes, memo: array<int>, p: nat, v: nat) returns (result: bool)
    requires p <= |pattern| && v <= |value| && MemoIsRight(memo[..], pattern, value)
    modifies memo
    ensures result == MatchFrom(pattern, p, value, v) && MemoIsRight(memo[..], pattern, value)
    decreases |pattern| - p, |value| - v
  {
    hide MemoIsRight, Cell;
    var at := p * (|value| + 1) + v;
    assert at == Cell(p, v, |value| + 1) && at < memo.Length && CellIsRight(memo[..], pattern, p, value, v) by {
      CellMeans(memo[..], pattern, p, value, v);
    }
    if memo[at] != -1 { return memo[at] != 0; }
    result := false;
    if p == |pattern| {
      result := v == |value|;
    } else if pattern[p] == STAR {
      var next := p;
      while next < |pattern| && pattern[next] == STAR
        invariant p <= next <= |pattern| && StarEnd(pattern, p) == StarEnd(pattern, next)
        invariant next == p ==> pattern[p] == STAR
      {
        next := next + 1;
      }
      var recursive := next - p >= 2;
      result := Match(pattern, value, memo, next, v);
      if !result && v < |value| && (recursive || value[v] != SLASH) {
        result := Match(pattern, value, memo, p, v + 1);
      }
    } else if v < |value| && (pattern[p] == QUESTION || pattern[p] == value[v]) {
      result := Match(pattern, value, memo, p + 1, v + 1);
    }
    FillCell(memo[..], pattern, p, value, v, result);
    memo[at] := if result then 1 else 0;
  }

  lemma CellMeans(memo: seq<int>, pattern: Bytes, p: nat, value: Bytes, v: nat)
    requires p <= |pattern| && v <= |value| && MemoIsRight(memo, pattern, value)
    ensures p * (|value| + 1) + v == Cell(p, v, |value| + 1) < |memo|
    ensures CellIsRight(memo, pattern, p, value, v)
  {
  }

  /** The declarative meaning of a glob. */
  predicate GlobMeaning(pattern: Bytes, value: Bytes, caseSensitive: bool) {
    if caseSensitive then Splits(Items(pattern), value) else Splits(Items(Lower(pattern)), Lower(value))
  }

  method GlobMatch(pattern: Bytes, value: Bytes, caseSensitive: bool) returns (r: bool)
    ensures r == GlobMeaning(pattern, value, caseSensitive)
  {
    hide Splits, Items, MemoIsRight;
    var p := if caseSensitive then pattern else Lower(pattern);
    var v := if caseSensitive then value else Lower(value);
    var memo := new int[(|p| + 1) * (|v| + 1)](_ => -1);
    FreshMemo(memo[..], p, v);
    r := Match(p, v, memo, 0, 0);
    MatchFromMeansSplits(p, 0, v, 0);
    assert v[0..] == v;
  }

  // ----- rules ----------------------------------------------------------------------------------------------

  predicate NoOuterSlash(s: Bytes) {
    s == [] || (s[0] != SLASH && s[|s| - 1] != SLASH)
  }

  /** `core` is what is left of `s` when the slashes at both ends are taken away. */
  predicate IsTrimmed(core: Bytes, s: Bytes) {
    && NoOuterSlash(core)
    && exists i, j :: 0 <= i <= j <= |s| && core == s[i..j] && AllSlashes(s[..i]) && AllSlashes(s[j..])
  }

  predicate AllSlashes(s: Bytes) { forall k :: 0 <= k < |s| ==> s[k] == SLASH }

  /** normalized_pattern_for_match: the two trimming loops. */
  method PatternForMatch(pattern: Bytes) returns (core: Bytes)
    ensures IsTrimmed(core, Normalized(pattern))
  {
    var s := Normalized(pattern);
    core := s;
    ghost var i, j: nat := 0, |s|;
    while core != [] && core[|core| - 1] == SLASH
      invariant 0 <= j <= |s| && core == s[..j] && AllSlashes(s[j..])
    {
      core := core[..|core| - 1];
      j := j - 1;
    }
    while core != [] && core[0] == SLASH
      invariant 0 <= i <= j && core == s[i..j] && AllSlashes(s[..i])
      invariant core != [] ==> core[|core| - 1] != SLASH
    {
      core := core[1..];
      i := i + 1;
    }
  }

  /** Trimming has only one result. */
  lemma TrimmedIsUnique(a: Bytes, b: Bytes, s: Bytes)
    requires IsTrimmed(a, s) && IsTrimmed(b, s)
    ensures a == b
  {
    var i, j :| 0 <= i <= j <= |s| && a == s[i..j] && AllSlashes(s[..i]) && AllSlashes(s[j..]);
    var k, l :| 0 <= k <= l <= |s| && b == s[k..l] && AllSlashes(s[..k]) && AllSlashes(s[l..]);
    hide NoOuterSlash, AllSlashes;
    CoreBounds(a, s, i, j, k, l);
    CoreBounds(b, s, k, l, i, j);
  }

  /** A core lies within any other trimming of the same string. */
  lemma CoreBounds(core: Bytes, s: Bytes, i: nat, j: nat, k: nat, l: nat)
    requires i <= j <= |s| && core == s[i..j] && NoOuterSlash(core)
    requires k <= l <= |s| && AllSlashes(s[..k]) && AllSlashes(s[l..])
    ensures core != [] ==> k <= i && j <= l
  {
    SlashesAround(s, k, l);
    if core != [] { assert core[0] == s[i] && core[|core| - 1] == s[j - 1]; }
  }

  lemma SlashesAround(s: Bytes, k: nat, l: nat)
    requires k <= l <= |s| && AllSlashes(s[..k]) && AllSlashes(s[l..])
    ensures forall at :: 0 <= at < k || l <= at < |s| ==> s[at] == SLASH
  {
    forall at | 0 <= at < k || l <= at < |s| ensures s[at] == SLASH {
      if at < k { assert s[..k][at] == s[at]; } else { assert s[l..][at - l] == s[at]; }
    }
  }

  /** A path without its leading "./" steps. */
  function WithoutDots(path: Bytes): Bytes {
    if |path| >= 2 && path[0] == DOT && path[1] == SLASH then WithoutDots(path[2..]) else path
  }

  /** The last segment of a path. */
  predicate IsBasename(name: Bytes, path: Bytes) {
    && SLASH !in name && |name| <= |path| && path[|path| - |name|..] == name
    && (|name| < |path| ==> path[|path| - |name| - 1] == SLASH)
  }

  lemma BasenameIsUnique(a: Bytes, b: Bytes, path: Bytes)
    requires IsBasename(a, path) && IsBasename(b, path)
    ensures a == b
  {
    NoSlashFrom(a, path);
    NoSlashFrom(b, path);
  }

  lemma NoSlashFrom(name: Bytes, path: Bytes)
    requires IsBasename(name, path)
    ensures forall at :: |path| - |name| <= at < |path| ==> path[at] != SLASH
  {
    forall at | |path| - |name| <= at < |path| ensures path[at] != SLASH {
      assert name[at - (|path| - |name|)] == path[at];
    }
  }

  /** What a rule without slashes looks at is the last segment; other rules look at the whole path. */
  predicate IsMatchValue(value: Bytes, path: Bytes, core: Bytes) {
    if SLASH in core then value == WithoutDots(Normalized(path)) else IsBasename(value, WithoutDots(Normalized(path)))
  }

  method RelativeMatchValue(path: Bytes, core: Bytes) returns (value: Bytes)
    requires Normalized(core) == core
    ensures IsMatchValue(value, path, core)
  {
    value := Normalized(path);
    while |value| >= 2 && value[0] == DOT && value[1] == SLASH
      invariant WithoutDots(value) == WithoutDots(Normalized(path))
    {
      value := value[2..];
    }
    if SLASH !in core {
      var separator := |value|;
      while separator > 0 && value[separator - 1] != SLASH
        invariant 0 <= separator <= |value| && forall k :: separator <= k < |value| ==> value[k] != SLASH
      {
        separator := separator - 1;
      }
      value := value[separator..];
    }
  }

  lemma TrimmedIsNormalized(core: Bytes, pattern: Bytes)
    requires IsTrimmed(core, Normalized(pattern))
    ensures Normalized(core) == core
  {
    var s := Normalized(pattern);
    var i, j :| 0 <= i <= j <= |s| && core == s[i..j] && AllSlashes(s[..i]) && AllSlashes(s[j..]);
    assert forall k :: 0 <= k < |core| ==> core[k] == s[i + k];
  }

  /** A rule matches a path: a trailing slash restricts it to directories, the trimmed glob decides. */
  ghost predicate RuleMatches(pattern: Bytes, caseSensitive: bool, path: Bytes, directory: bool) {
    && (pattern != [] && pattern[|pattern| - 1] == SLASH ==> directory)
    && exists core, value :: IsTrimmed(core, Normalized(pattern)) && IsMatchValue(value, path, core)
                             && GlobMeaning(core, value, caseSensitive)
  }

  /** Because a pattern has one core and a path one match value, one evaluation decides. */
  lemma {:induction false} RuleIsDecided(pattern: Bytes, caseSensitive: bool, path: Bytes, directory: bool, core: Bytes,
                                         value: Bytes)
    requires IsTrimmed(core, Normalized(pattern)) && IsMatchValue(value, path, core)
    ensures RuleMatches(pattern, caseSensitive, path, directory) <==>
              && (pattern != [] && pattern[|pattern| - 1] == SLASH ==> directory)
              && GlobMeaning(core, value, caseSensitive)
  {
    hide GlobMeaning, IsTrimmed;
    forall core', value' | IsTrimmed(core', Normalized(pattern)) && IsMatchValue(value', path, core')
      ensures core' == core && value' == value
    {
      TrimmedIsUnique(core', core, Normalized(pattern));
      if SLASH !in core { BasenameIsUnique(value', value, WithoutDots(Normalized(path))); }
    }
  }

  datatype Mode = Disabled | CommonArtifacts | CustomRules

  datatype Filter = Filter(mode: Mode, caseSensitive: bool, patterns: seq<Bytes>) {
    predicate Enabled() { mode != Disabled && patterns != [] }
  }

  predicate Blank(s: Bytes) {
    forall i :: 0 <= i < |s| ==> s[i] == 0x20 || s[i] == 0x09 || s[i] == 0x0D || s[i] == 0x0A
  }

  predicate UsablePattern(pattern: Bytes) { !Blank(pattern) && 0 !in pattern }

  /** The patterns of files that operating systems leave behind. */
  function CommonPatterns(): seq<Bytes> {
    HiddenPatterns() + DesktopPatterns()
  }

  function HiddenPatterns(): seq<Bytes> {
    [Ascii(".DS_Store"), Ascii("._*"), Ascii("Icon\r"), Ascii("__MACOSX/"),
     Ascii(".Spotlight-V100/"), Ascii(".Trashes/"), Ascii(".fseventsd/")]
  }

  function DesktopPatterns(): seq<Bytes> {
    [Ascii("Thumbs.db"), Ascii("ehthumbs.db"), Ascii("desktop.ini"), Ascii("$RECYCLE.BIN/"),
     Ascii("System Volume Information/")]
  }

  /** FileFilter::create: every pattern normalized and usable, or an error. */
  method Create(mode: Mode, caseSensitive: bool, input: seq<Bytes>) returns (r: Result<Filter>)
    ensures var chosen := if mode == CommonArtifacts then CommonPatterns() else input;
            r.Success? <==> forall i :: 0 <= i < |chosen| ==> UsablePattern(Normalized(chosen[i]))
    ensures r.Success? ==>
              var chosen := if mode == CommonArtifacts then CommonPatterns() else input;
              var normalized := seq(|chosen|, i requires 0 <= i < |chosen| => Normalized(chosen[i]));
              r.value == Filter(mode, caseSensitive, normalized)
  {
    hide CommonPatterns;
    var patterns := if mode == CommonArtifacts then CommonPatterns() else input;
    ghost var chosen := patterns;
    for index := 0 to |patterns|
      invariant |patterns| == |chosen|
      invariant forall i :: 0 <= i < index ==> patterns[i] == Normalized(chosen[i]) && UsablePattern(patterns[i])
      invariant forall i :: index <= i < |patterns| ==> patterns[i] == chosen[i]
    {
      patterns := patterns[index := Normalized(patterns[index])];
      if patterns[index] == [] || Blank(patterns[index]) || 0 in patterns[index] {
        assert !UsablePattern(Normalized(chosen[index]));
        return Failure;
      }
    }
    r := Success(Filter(mode, caseSensitive, patterns));
  }

  /** The first rule that matches, or none; a disabled filter matches nothing. */
  method MatchedRule(filter: Filter, path: Bytes, directory: bool) returns (rule: Option<Bytes>)
    ensures rule.None? <==>
              filter.mode == Disabled
              || forall k :: 0 <= k < |filter.patterns| ==>
                   !RuleMatches(filter.patterns[k], filter.caseSensitive, path, directory)
    ensures rule.Some? ==>
              exists i :: 0 <= i < |filter.patterns| && filter.patterns[i] == rule.value
                && RuleMatches(rule.value, filter.caseSensitive, path, directory)
                && forall k :: 0 <= k < i ==> !RuleMatches(filter.patterns[k], filter.caseSensitive, path, directory)
  {
    hide GlobMeaning, IsTrimmed, RuleMatches, IsMatchValue;
    if !filter.Enabled() { return None; }
    for i := 0 to |filter.patterns|
      invariant forall k :: 0 <= k < i ==> !RuleMatches(filter.patterns[k], filter.caseSensitive, path, directory)
    {
      var original := filter.patterns[i];
      var directoryOnly := original != [] && original[|original| - 1] == SLASH;
      if directoryOnly && !directory {
        NotForFiles(original, filter.caseSensitive, path);
        continue;
      }
      var core := PatternForMatch(original);
      TrimmedIsNormalized(core, original);
      var value := RelativeMatchValue(path, core);
      RuleIsDecided(original, filter.caseSensitive, path, directory, core, value);
      var matches := GlobMatch(core, value, filter.caseSensitive);
      if matches { return Some(original); }
    }
    rule := None;
  }

  lemma NotForFiles(pattern: Bytes, caseSensitive: bool, path: Bytes)
    requires pattern != [] && pattern[|pattern| - 1] == SLASH
    ensures !RuleMatches(pattern, caseSensitive, path, false)
  {
  }

  /** A pattern is refused exactly when it is white space only or holds a NUL. */
  lemma {:induction false} UsableIff(pattern: Bytes)
    ensures UsablePattern(pattern)
       <==> 0 !in pattern && exists i :: 0 <= i < |pattern| && pattern[i] !in {0x20, 0x09, 0x0A, 0x0D}
  {
  }

  lemma TextIsUsable(text: string)
    requires forall i :: 0 <= i < |text| ==> '\0' != text[i] < 128 as char
    requires text != "" && text[0] !in {' ', '\t', '\r', '\n'}
    ensures UsablePattern(Normalized(Ascii(text)))
  {
    var pattern := Normalized(Ascii(text));
    assert forall i :: 0 <= i < |text| ==> Ascii(text)[i] == text[i] as int;
    assert pattern[0] !in {0x20, 0x09, 0x0A, 0x0D};
  }

  lemma HiddenAreUsable(pattern: Bytes)
    requires pattern in HiddenPatterns()
    ensures UsablePattern(Normalized(pattern))
  {
    hide UsablePattern, Normalized, Ascii;
    TextIsUsable(".DS_Store");
    TextIsUsable("._*");
    TextIsUsable("Icon\r");
    TextIsUsable("__MACOSX/");
    TextIsUsable(".Spotlight-V100/");
    TextIsUsable(".Trashes/");
    TextIsUsable(".fseventsd/");
  }

  lemma DesktopAreUsable(pattern: Bytes)
    requires pattern in DesktopPatterns()
    ensures UsablePattern(Normalized(pattern))
  {
    hide UsablePattern, Normalized, Ascii;
    TextIsUsable("Thumbs.db");
    TextIsUsable("ehthumbs.db");
    TextIsUsable("desktop.ini");
    TextIsUsable("$RECYCLE.BIN/");
    TextIsUsable("System Volume Information/");
  }

  /** The common patterns are usable, so a filter of that mode can always be created. */
  lemma CommonPatternsAreUsable(pattern: Bytes)
    requires pattern in CommonPatterns()
    ensures UsablePattern(Normalized(pattern))
  {
    hide HiddenPatterns, DesktopPatterns, UsablePattern, Normalized;
    if pattern in HiddenPatterns() { HiddenAreUsable(pattern); } else { DesktopAreUsable(pattern); }
  }

  // ----- laws of globs ----------------------------------------------------------------------------------------

  lemma SplitsHead(items: seq<Item>, value: Bytes) returns (k: nat)
    requires items != [] && Splits(items, value)
    ensures k <= |value| && ItemFits(items[0], value[..k]) && Splits(items[1..], value[k..])
  {
    k :| 0 <= k <= |value| && ItemFits(items[0], value[..k]) && Splits(items[1..], value[k..]);
  }

  lemma SplitsCons(items: seq<Item>, value: Bytes, k: nat)
    requires items != [] && k <= |value| && ItemFits(items[0], value[..k]) && Splits(items[1..], value[k..])
    ensures Splits(items, value)
  {
  }

  lemma JoinedItems(a: seq<Item>, b: seq<Item>)
    requires a != []
    ensures (a + b)[0] == a[0] && (a + b)[1..] == a[1..] + b
  {
  }

  lemma {:induction false} SplitsApart(a: seq<Item>, b: seq<Item>, value: Bytes) returns (k: nat)
    requires Splits(a + b, value)
    ensures k <= |value| && Splits(a, value[..k]) && Splits(b, value[k..])
  {
    if a == [] {
      k := 0;
      assert a + b == b && value[..0] == [] && value[0..] == value;
    } else {
      hide Splits, ItemFits;
      JoinedItems(a, b);
      var j := SplitsHead(a + b, value);
      var i := SplitsApart(a[1..], b, value[j..]);
      SliceOfRest(value, j, i);
      k := j + i;
      SplitsCons(a, value[..k], j);
    }
  }

  lemma {:induction false} SplitsTogether(a: seq<Item>, b: seq<Item>, value: Bytes, k: nat)
    requires k <= |value| && Splits(a, value[..k]) && Splits(b, value[k..])
    ensures Splits(a + b, value)
  {
    if a == [] {
      assert a + b == b && value[k..] == value;
    } else {
      hide Splits, ItemFits;
      var j := SplitsHead(a, value[..k]);
      SliceOfRest(value, j, k - j);
      SplitsTogether(a[1..], b, value[j..], k - j);
      JoinedItems(a, b);
      SplitsCons(a + b, value, j);
    }
  }

  lemma SplitsJoin(a: seq<Item>, b: seq<Item>, value: Bytes)
    ensures Splits(a + b, value) <==> exists k :: 0 <= k <= |value| && Splits(a, value[..k]) && Splits(b, value[k..])
  {
    hide Splits;
    if Splits(a + b, value) { var k := SplitsApart(a, b, value); }
    forall k: nat | k <= |value| && Splits(a, value[..k]) && Splits(b, value[k..]) { SplitsTogether(a, b, value, k); }
  }

  lemma SliceOfRest(s: Bytes, j: nat, k: nat)
    requires j + k <= |s|
    ensures s[j..][..k] == s[..j + k][j..] && s[j..][k..] == s[j + k..] && s[..j + k][..j] == s[..j]
  {
  }

  /** Patterns one after the other match values one after the other, where no run of stars joins them. */
  lemma {:induction false} GlobsJoin(p: Bytes, q: Bytes, value: Bytes)
    requires p == [] || q == [] || p[|p| - 1] != STAR || q[0] != STAR
    ensures GlobMeaning(p + q, value, true)
       <==> exists k :: 0 <= k <= |value| && GlobMeaning(p, value[..k], true) && GlobMeaning(q, value[k..], true)
  {
    hide Splits;
    ItemsJoin(p + q, p, q, 0);
    SplitsJoin(Items(p), Items(q), value);
  }

  /** The first item from a position on. */
  lemma ItemAt(s: Bytes, from: nat)
    requires from < |s|
    ensures s[from] == STAR ==>
              var end := StarEnd(s, from);
              from < end && Items(s, from) == [if end - from >= 2 then AnyBytes else AnyBytesButSlash] + Items(s, end)
    ensures s[from] != STAR ==>
              Items(s, from) == [if s[from] == QUESTION then AnyByte else Literal(s[from])] + Items(s, from + 1)
  {
    if s[from] == STAR { assert StarEnd(s, from) == StarEnd(s, from + 1); }
  }

  lemma NoItems(s: Bytes)
    ensures Items(s, |s|) == []
  {
  }

  lemma {:induction false} StarEndWithin(s: Bytes, p: Bytes, q: Bytes, from: nat)
    requires s == p + q && p != [] && from <= |p| && (q == [] || p[|p| - 1] != STAR || q[0] != STAR)
    requires from == |p| ==> p[|p| - 1] == STAR
    ensures StarEnd(s, from) == StarEnd(p, from)
    decreases |p| - from
  {
    if from < |p| && p[from] == STAR { StarEndWithin(s, p, q, from + 1); }
  }

  lemma {:induction false} StarEndAlike(a: Bytes, i: nat, b: Bytes, j: nat)
    requires i <= |a| && j <= |b| && a[i..] == b[j..]
    ensures StarEnd(a, i) - i == StarEnd(b, j) - j
    ensures a[StarEnd(a, i)..] == b[StarEnd(b, j)..]
    decreases |a| - i
  {
    if i < |a| {
      assert a[i] == a[i..][0] == b[j..][0] == b[j];
      assert a[i + 1..] == a[i..][1..] && b[j + 1..] == b[j..][1..];
      if a[i] == STAR { StarEndAlike(a, i + 1, b, j + 1); }
    } else {
      assert |b[j..]| == 0;
    }
  }

  /** Items only depend on what is left of the pattern. */
  lemma {:induction false} ItemsAlike(a: Bytes, i: nat, b: Bytes, j: nat)
    requires i <= |a| && j <= |b| && a[i..] == b[j..]
    ensures Items(a, i) == Items(b, j)
    decreases |a| - i
  {
    hide Items, StarEnd;
    if i == |a| {
      assert |b[j..]| == 0;
      NoItems(a);
      NoItems(b);
    } else {
      assert a[i] == a[i..][0] == b[j..][0] == b[j];
      assert a[i + 1..] == a[i..][1..] && b[j + 1..] == b[j..][1..];
      ItemAt(a, i);
      ItemAt(b, j);
      if a[i] == STAR {
        StarEndAlike(a, i, b, j);
        ItemsAlike(a, StarEnd(a, i), b, StarEnd(b, j));
      } else {
        ItemsAlike(a, i + 1, b, j + 1);
      }
    }
  }

  lemma {:induction false} ItemsJoin(s: Bytes, p: Bytes, q: Bytes, from: nat)
    requires s == p + q && from <= |p| && (p == [] || q == [] || p[|p| - 1] != STAR || q[0] != STAR)
    ensures Items(s, from) == Items(p, from) + Items(q)
    decreases |p| - from
  {
    hide Items, StarEnd;
    if from == |p| {
      assert s[from..] == q == q[0..];
      ItemsAlike(s, from, q, 0);
      NoItems(p);
    } else {
      assert s[from] == p[from];
      ItemAt(p, from);
      ItemAt(s, from);
      if p[from] == STAR {
        var end := StarEnd(p, from);
        StarEndWithin(s, p, q, from);
        ItemsJoin(s, p, q, end);
        ConcatAssociative([if end - from >= 2 then AnyBytes else AnyBytesButSlash], Items(p, end), Items(q));
      } else {
        ItemsJoin(s, p, q, from + 1);
        ConcatAssociative([if p[from] == QUESTION then AnyByte else Literal(p[from])], Items(p, from + 1), Items(q));
      }
    }
  }

  /** One star stops at slashes, two or more do not, a question mark is any byte, all other bytes are themselves. */
  lemma {:induction false} GlobOfOne(stars: Bytes, b: Byte, value: Bytes)
    requires |stars| >= 2 && forall i :: 0 <= i < |stars| ==> stars[i] == STAR
    ensures GlobMeaning([], value, true) <==> value == []
    ensures GlobMeaning([0x2A], value, true) <==> SLASH !in value
    ensures GlobMeaning(stars, value, true)
    ensures GlobMeaning([0x3F], value, true) <==> |value| == 1
    ensures b != 0x2A && b != 0x3F ==> (GlobMeaning([b], value, true) <==> value == [b])
  {
    OneItem(AnyBytesButSlash, value);
    OneItem(AnyBytes, value);
    OneItem(AnyByte, value);
    OneItem(Literal(b), value);
    AllStars(stars, 0);
    hide Splits;
    assert Items([STAR], 1) == [] && StarEnd([STAR], 0) == 1;
    assert Items([QUESTION], 1) == [] && Items([b], 1) == [];
    assert Items([STAR]) == [AnyBytesButSlash] && Items([QUESTION]) == [AnyByte];
    assert b != STAR && b != QUESTION ==> Items([b]) == [Literal(b)];
    assert Items(stars) == [AnyBytes];
    NothingLeft(value);
  }

  lemma OneItem(item: Item, value: Bytes)
    ensures Splits([item], value) <==> ItemFits(item, value)
  {
    assert value[..|value|] == value && value[|value|..] == [];
    assert [item][1..] == [];
    if Splits([item], value) {
      var k :| 0 <= k <= |value| && ItemFits(item, value[..k]) && Splits([], value[k..]);
      assert k == |value|;
    }
  }

  lemma {:induction false} AllStars(stars: Bytes, from: nat)
    requires from <= |stars| && forall i :: 0 <= i < |stars| ==> stars[i] == STAR
    ensures StarEnd(stars, from) == |stars|
    decreases |stars| - from
  {
    if from < |stars| { AllStars(stars, from + 1); }
  }

  /** Leading "./" steps, all of them, are what a path loses. */
  lemma {:induction false} WithoutDotsIs(path: Bytes) returns (steps: nat)
    ensures 2 * steps + |WithoutDots(path)| == |path| && path[2 * steps..] == WithoutDots(path)
    ensures forall i :: 0 <= i < 2 * steps ==> path[i] == if i % 2 == 0 then 0x2E else SLASH
    ensures !(|WithoutDots(path)| >= 2 && WithoutDots(path)[0] == 0x2E && WithoutDots(path)[1] == SLASH)
  {
    if |path| >= 2 && path[0] == DOT && path[1] == SLASH {
      var rest := WithoutDotsIs(path[2..]);
      steps := rest + 1;
      assert forall i :: 2 <= i < |path| ==> path[i] == path[2..][i - 2];
    } else {
      steps := 0;
    }
  }
}
