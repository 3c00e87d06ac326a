/** What case means to a filter, and what the filter for common artifacts takes out. */
module CommonFilter {
  import opened ByteStrings
  import opened FileFilter

  // ----- case ---------------------------------------------------------------------------------------------------

  lemma LowerKeepsMarks(s: Bytes)
    ensures |Lower(s)| == |s|
    ensures forall i :: 0 <= i < |s| ==>
              && (Lower(s)[i] == STAR <==> s[i] == STAR) && (Lower(s)[i] == QUESTION <==> s[i] == QUESTION)
              && (Lower(s)[i] == SLASH <==> s[i] == SLASH)
  {
  }

  lemma LowerOfSlice(s: Bytes, k: nat)
    requires k <= |s|
    ensures Lower(s)[..k] == Lower(s[..k]) && Lower(s)[k..] == Lower(s[k..])
  {
  }

  lemma {:induction false} StarEndInLower(p: Bytes, from: nat)
    requires from <= |p|
    ensures StarEnd(Lower(p), from) == StarEnd(p, from)
    decreases |p| - from
  {
    LowerKeepsMarks(p);
    if from < |p| { StarEndInLower(p, from + 1); }
  }

  function LowerItem(item: Item): Item { if item.Literal? then Literal(LowerByte(item.byte)) else item }

  lemma LowerItemFits(item: Item, part: Bytes)
    requires ItemFits(item, part)
    ensures ItemFits(LowerItem(item), Lower(part))
  {
    LowerKeepsMarks(part);
  }

  lemma ItemOfLower(p: Bytes, from: nat) returns (item: Item, next: nat)
    requires from < |p|
    ensures from < next <= |p| && Items(p, from) == [item] + Items(p, next)
    ensures Items(Lower(p), from) == [LowerItem(item)] + Items(Lower(p), next)
  {
    hide Items, Lower;
    LowerKeepsMarks(p);
    StarEndInLower(p, from);
    ItemAt(p, from);
    ItemAt(Lower(p), from);
    assert Lower(p)[from] == LowerByte(p[from]) by { LowerAt(p, from); }
    if p[from] == STAR {
      next := StarEnd(p, from);
      item := if next - from >= 2 then AnyBytes else AnyBytesButSlash;
    } else {
      next := from + 1;
      item := if p[from] == QUESTION then AnyByte else Literal(p[from]);
    }
  }

  lemma LowerAt(s: Bytes, i: nat)
    requires i < |s|
    ensures Lower(s)[i] == LowerByte(s[i])
  {
  }

  /** What is accepted with case is accepted without. */
  lemma {:induction false} LowerSplits(p: Bytes, from: nat, value: Bytes)
    requires from <= |p| && Splits(Items(p, from), value)
    ensures Splits(Items(Lower(p), from), Lower(value))
    decreases |p| - from
  {
    hide Items, ItemFits, Lower, LowerItem;
    if from == |p| {
      NoItems(p);
      NoItems(Lower(p));
      assert value == [];
    } else {
      hide Splits;
      var item, next := ItemOfLower(p, from);
      HeadAndRest(item, Items(p, next));
      HeadAndRest(LowerItem(item), Items(Lower(p), next));
      var k := SplitsHead(Items(p, from), value);
      LowerItemFits(item, value[..k]);
      LowerSplits(p, next, value[k..]);
      LowerOfSlice(value, k);
      SplitsCons(Items(Lower(p), from), Lower(value), k);
    }
  }

  lemma HeadAndRest(item: Item, rest: seq<Item>)
    ensures ([item] + rest)[0] == item && ([item] + rest)[1..] == rest && [item] + rest != []
  {
  }

  lemma LowerIsSame(s: Bytes)
    ensures EqualButForCase(s, Lower(s))
  {
    LowerIgnoresCase(s, Lower(s));
  }

  /** Without case, a pattern accepts what some spelling of it accepts in some spelling. */
  lemma IgnoringCaseIff(p: Bytes, value: Bytes)
    ensures GlobMeaning(p, value, false)
       <==> exists q, w :: EqualButForCase(p, q) && EqualButForCase(value, w) && GlobMeaning(q, w, true)
  {
    hide Splits, Items, Lower, EqualButForCase;
    LowerIsSame(p);
    LowerIsSame(value);
    if GlobMeaning(p, value, false) { assert GlobMeaning(Lower(p), Lower(value), true); }
    forall q, w | EqualButForCase(p, q) && EqualButForCase(value, w) && GlobMeaning(q, w, true)
      ensures GlobMeaning(p, value, false)
    {
      LowerIgnoresCase(p, q);
      LowerIgnoresCase(value, w);
      LowerSplits(q, 0, w);
    }
  }

  // ----- literal patterns -----------------------------------------------------------------------------------------

  predicate IsLiteral(s: Bytes) { forall i :: 0 <= i < |s| ==> s[i] != STAR && s[i] != QUESTION }

  lemma {:induction false} LiteralSplits(s: Bytes, from: nat, value: Bytes)
    requires from <= |s| && IsLiteral(s)
    ensures Splits(Items(s, from), value) <==> value == s[from..]
    decreases |s| - from
  {
    hide Items;
    if from == |s| {
      NoItems(s);
    } else {
      hide Splits;
      ItemAt(s, from);
      HeadAndRest(Literal(s[from]), Items(s, from + 1));
      if Splits(Items(s, from), value) {
        var k := SplitsHead(Items(s, from), value);
        LiteralSplits(s, from + 1, value[k..]);
        assert value == value[..k] + value[k..] && s[from..] == [s[from]] + s[from + 1..];
      }
      if value == s[from..] {
        assert value[..1] == [s[from]] && value[1..] == s[from + 1..];
        LiteralSplits(s, from + 1, value[1..]);
        SplitsCons(Items(s, from), value, 1);
      }
    }
  }

  lemma LowerOfLiteral(s: Bytes)
    requires IsLiteral(s)
    ensures IsLiteral(Lower(s))
  {
  }

  predicate SameName(a: Bytes, b: Bytes, caseSensitive: bool) {
    if caseSensitive then a == b else EqualButForCase(a, b)
  }

  /** A pattern without stars and question marks only accepts itself. */
  lemma LiteralIff(s: Bytes, value: Bytes, caseSensitive: bool)
    requires IsLiteral(s)
    ensures GlobMeaning(s, value, caseSensitive) <==> SameName(value, s, caseSensitive)
  {
    hide Splits, Items, Lower, EqualButForCase;
    assert s[0..] == s && Lower(s)[0..] == Lower(s);
    LowerOfLiteral(s);
    LiteralSplits(s, 0, value);
    LiteralSplits(Lower(s), 0, Lower(value));
    LowerIgnoresCase(value, s);
  }

  // ----- the common artifacts -------------------------------------------------------------------------------------

  predicate IsName(s: Bytes) { s != [] && SLASH !in s && BACKSLASH !in s }

  lemma RuleOfName(core: Bytes, name: Bytes, caseSensitive: bool, path: Bytes, directory: bool)
    requires IsName(core) && IsBasename(name, WithoutDots(Normalized(path)))
    ensures RuleMatches(core, caseSensitive, path, directory) <==> GlobMeaning(core, name, caseSensitive)
    ensures RuleMatches(core + [SLASH], caseSensitive, path, directory)
       <==> directory && GlobMeaning(core, name, caseSensitive)
  {
    hide GlobMeaning, RuleMatches, IsBasename, WithoutDots;
    var marked := core + [SLASH];
    assert Normalized(core) == core && Normalized(marked) == marked;
    assert core == core[0..|core|] && core == marked[0..|core|];
    assert AllSlashes(core[..0]) && AllSlashes(core[|core|..]);
    assert AllSlashes(marked[..0]) && AllSlashes(marked[|core|..]);
    assert IsTrimmed(core, core) && IsTrimmed(core, marked);
    RuleIsDecided(core, caseSensitive, path, directory, core, name);
    RuleIsDecided(marked, caseSensitive, path, directory, core, name);
  }

  /** A rule with a slash inside looks at the whole path, less its "./" steps; a literal one names one path. */
  lemma RuleOfPath(core: Bytes, caseSensitive: bool, path: Bytes, directory: bool)
    requires SLASH in core && BACKSLASH !in core && NoOuterSlash(core)
    ensures var whole := WithoutDots(Normalized(path));
            && (RuleMatches(core, caseSensitive, path, directory) <==> GlobMeaning(core, whole, caseSensitive))
            && (RuleMatches(core + [SLASH], caseSensitive, path, directory)
                <==> directory && GlobMeaning(core, whole, caseSensitive))
            && (IsLiteral(core) ==>
                  (RuleMatches(core, caseSensitive, path, directory) <==> SameName(whole, core, caseSensitive)))
  {
    hide GlobMeaning, RuleMatches, WithoutDots, SameName, IsLiteral;
    var marked, whole := core + [SLASH], WithoutDots(Normalized(path));
    assert Normalized(core) == core && Normalized(marked) == marked;
    assert core == core[0..|core|] && core == marked[0..|core|];
    assert AllSlashes(core[..0]) && AllSlashes(core[|core|..]);
    assert AllSlashes(marked[..0]) && AllSlashes(marked[|core|..]);
    assert IsTrimmed(core, core) && IsTrimmed(core, marked);
    RuleIsDecided(core, caseSensitive, path, directory, core, whole);
    RuleIsDecided(marked, caseSensitive, path, directory, core, whole);
    if IsLiteral(core) { LiteralIff(core, whole, caseSensitive); }
  }

  lemma SlicesBehindSlash(s: Bytes, i: nat, j: nat)
    requires i <= j <= |s|
    ensures ([SLASH] + s)[i + 1..j + 1] == s[i..j] && ([SLASH] + s)[j + 1..] == s[j..]
    ensures AllSlashes(([SLASH] + s)[..i + 1]) <==> AllSlashes(s[..i])
  {
    assert ([SLASH] + s)[..i + 1] == [SLASH] + s[..i];
    SlashAndSlashes(s[..i]);
  }

  lemma SlashAndSlashes(s: Bytes)
    ensures AllSlashes([SLASH] + s) <==> AllSlashes(s)
  {
    if AllSlashes([SLASH] + s) {
      forall k | 0 <= k < |s| ensures s[k] == SLASH {
        assert ([SLASH] + s)[k + 1] == s[k];
      }
    }
  }

  lemma TrimmedAt(core: Bytes, s: Bytes, i: nat, j: nat)
    requires NoOuterSlash(core) && i <= j <= |s| && core == s[i..j] && AllSlashes(s[..i]) && AllSlashes(s[j..])
    ensures IsTrimmed(core, s)
  {
  }

  lemma AllSlashesIsTrimmed(s: Bytes)
    requires AllSlashes(s)
    ensures IsTrimmed([], s)
  {
    assert s[..0] == [] == s[0..0] && s[0..] == s;
    TrimmedAt([], s, 0, 0);
  }

  lemma TrimmedPlace(core: Bytes, s: Bytes) returns (i: nat, j: nat)
    requires IsTrimmed(core, s)
    ensures NoOuterSlash(core) && i <= j <= |s| && core == s[i..j] && AllSlashes(s[..i]) && AllSlashes(s[j..])
  {
    i, j :| 0 <= i <= j <= |s| && core == s[i..j] && AllSlashes(s[..i]) && AllSlashes(s[j..]);
  }

  lemma TrimmedWithoutSlash(core: Bytes, s: Bytes)
    requires IsTrimmed(core, [SLASH] + s)
    ensures IsTrimmed(core, s)
  {
    hide AllSlashes, IsTrimmed;
    var longer := [SLASH] + s;
    var i, j := TrimmedPlace(core, longer);
    if i > 0 {
      SlicesBehindSlash(s, i - 1, j - 1);
      TrimmedAt(core, s, i - 1, j - 1);
    } else {
      assert longer[0] == SLASH;
      assert j == 0 && core == [] && longer[j..] == longer;
      SlashAndSlashes(s);
      AllSlashesIsTrimmed(s);
    }
  }

  lemma TrimmedWithSlash(core: Bytes, s: Bytes)
    requires IsTrimmed(core, s)
    ensures IsTrimmed(core, [SLASH] + s)
  {
    hide AllSlashes, IsTrimmed;
    var i, j := TrimmedPlace(core, s);
    SlicesBehindSlash(s, i, j);
    TrimmedAt(core, [SLASH] + s, i + 1, j + 1);
  }

  /** A slash in front of a rule changes nothing: rules are not anchored. */
  lemma LeadingSlashIsIgnored(pattern: Bytes, caseSensitive: bool, path: Bytes, directory: bool)
    requires pattern != []
    ensures RuleMatches([SLASH] + pattern, caseSensitive, path, directory)
       <==> RuleMatches(pattern, caseSensitive, path, directory)
  {
    hide GlobMeaning, IsMatchValue, IsTrimmed;
    assert Normalized([SLASH] + pattern) == [SLASH] + Normalized(pattern);
    forall core ensures IsTrimmed(core, Normalized([SLASH] + pattern)) <==> IsTrimmed(core, Normalized(pattern)) {
      if IsTrimmed(core, Normalized(pattern)) { TrimmedWithSlash(core, Normalized(pattern)); }
      if IsTrimmed(core, [SLASH] + Normalized(pattern)) { TrimmedWithoutSlash(core, Normalized(pattern)); }
    }
    if RuleMatches(pattern, caseSensitive, path, directory) {
      var core, value :| IsTrimmed(core, Normalized(pattern)) && IsMatchValue(value, path, core)
                         && GlobMeaning(core, value, caseSensitive);
      assert IsTrimmed(core, Normalized([SLASH] + pattern));
    }
  }

  /** Names of files and directories that systems leave behind. */
  function EntryNames(): seq<Bytes> {
    [Ascii(".DS_Store"), Ascii("Icon\r"), Ascii("Thumbs.db"), Ascii("ehthumbs.db"), Ascii("desktop.ini")]
  }

  /** Names of directories that systems leave behind. */
  function DirectoryNames(): seq<Bytes> {
    [Ascii("__MACOSX"), Ascii(".Spotlight-V100"), Ascii(".Trashes"), Ascii(".fseventsd"), Ascii("$RECYCLE.BIN"),
     Ascii("System Volume Information")]
  }

  predicate Named(name: Bytes, names: seq<Bytes>, caseSensitive: bool) {
    exists n :: n in names && SameName(name, n, caseSensitive)
  }

  /** Names that start with "._", the resource forks of other files. */
  predicate IsFork(name: Bytes) { |name| >= 2 && name[0] == 0x2E && name[1] == 0x5F }

  ghost predicate PlainName(n: Bytes) { IsName(n) && IsLiteral(n) }

  lemma TextIsName(text: string)
    requires text != ""
    requires forall i :: 0 <= i < |text| ==> text[i] < 128 as char && text[i] !in {'/', '\\', '*', '?'}
    ensures PlainName(Ascii(text))
  {
    assert forall i :: 0 <= i < |text| ==> Ascii(text)[i] == text[i] as int;
  }

  lemma EntryIsName(n: Bytes)
    requires n in EntryNames()
    ensures PlainName(n)
  {
    hide PlainName, Ascii;
    TextIsName(".DS_Store");
    TextIsName("Icon\r");
    TextIsName("Thumbs.db");
    TextIsName("ehthumbs.db");
    TextIsName("desktop.ini");
  }

  lemma DirectoryIsName(n: Bytes)
    requires n in DirectoryNames()
    ensures PlainName(n)
  {
    hide PlainName, Ascii;
    TextIsName("__MACOSX");
    TextIsName(".Spotlight-V100");
    TextIsName(".Trashes");
    TextIsName(".fseventsd");
    TextIsName("$RECYCLE.BIN");
    TextIsName("System Volume Information");
  }

  lemma MarkedText(text: string, marked: string)
    requires marked == text + "/" && forall i :: 0 <= i < |text| ==> text[i] < 128 as char
    ensures forall i :: 0 <= i < |marked| ==> marked[i] < 128 as char
    ensures Ascii(marked) == Ascii(text) + [SLASH]
  {
  }

  lemma {:induction false} PatternIff(rule: Bytes)
    ensures rule in CommonPatterns()
       <==> || rule in EntryNames() || rule == Ascii("._*")
            || exists n :: n in DirectoryNames() && rule == n + [SLASH]
  {
    hide Ascii;
    MarkedText("__MACOSX", "__MACOSX/");
    MarkedText(".Spotlight-V100", ".Spotlight-V100/");
    MarkedText(".Trashes", ".Trashes/");
    MarkedText(".fseventsd", ".fseventsd/");
    MarkedText("$RECYCLE.BIN", "$RECYCLE.BIN/");
    MarkedText("System Volume Information", "System Volume Information/");
  }

  lemma PatternIsNormalized(rule: Bytes)
    requires rule in CommonPatterns()
    ensures Normalized(rule) == rule
  {
    hide CommonPatterns, EntryNames, DirectoryNames, IsLiteral;
    PatternIff(rule);
    if rule in EntryNames() {
      EntryIsName(rule);
    } else if n :| n in DirectoryNames() && rule == n + [SLASH] {
      DirectoryIsName(n);
    }
  }

  lemma NameRule(n: Bytes, name: Bytes, caseSensitive: bool, path: Bytes, directory: bool)
    requires PlainName(n) && IsBasename(name, WithoutDots(Normalized(path)))
    ensures RuleMatches(n, caseSensitive, path, directory) <==> SameName(name, n, caseSensitive)
    ensures RuleMatches(n + [SLASH], caseSensitive, path, directory)
       <==> directory && SameName(name, n, caseSensitive)
  {
    hide RuleMatches, SameName, GlobMeaning, IsBasename, Normalized, IsName, IsLiteral;
    RuleOfName(n, name, caseSensitive, path, directory);
    LiteralIff(n, name, caseSensitive);
  }

  lemma ForkRule(name: Bytes, caseSensitive: bool, path: Bytes, directory: bool)
    requires IsBasename(name, WithoutDots(Normalized(path)))
    ensures RuleMatches(Ascii("._*"), caseSensitive, path, directory) <==> IsFork(name)
  {
    var core := [0x2E, 0x5F, 0x2A];
    assert Ascii("._*") == core == Lower(core);
    assert core == [0x2E, 0x5F] + [0x2A];
    hide RuleMatches, WithoutDots, Normalized, Lower;
    RuleOfName(core, name, caseSensitive, path, directory);
    ForkGlob(name);
    LowerName(name);
    ForkGlob(Lower(name));
  }

  lemma LowerName(name: Bytes)
    requires SLASH !in name
    ensures SLASH !in Lower(name) && (IsFork(Lower(name)) <==> IsFork(name))
  {
    LowerKeepsMarks(name);
  }

  lemma ForkGlob(name: Bytes)
    requires SLASH !in name
    ensures GlobMeaning([0x2E, 0x5F] + [0x2A], name, true) <==> IsFork(name)
  {
    hide GlobMeaning;
    var front: Bytes := [0x2E, 0x5F];
    GlobsJoin(front, [0x2A], name);
    forall k | 0 <= k <= |name|
      ensures GlobMeaning(front, name[..k], true) && GlobMeaning([0x2A], name[k..], true) <==> name[..k] == front
    {
      LiteralIff(front, name[..k], true);
      GlobOfOne([0x2A, 0x2A], 0, name[k..]);
    }
    if IsFork(name) { assert name[..2] == front; }
  }

  /**
    The filter for common artifacts takes out exactly the forks, the entries with one of the names, and the
    directories with one of the other names, wherever they are.
  */
  lemma CommonArtifactIff(name: Bytes, caseSensitive: bool, path: Bytes, directory: bool)
    requires IsBasename(name, WithoutDots(Normalized(path)))
    ensures (exists rule :: rule in CommonPatterns() && RuleMatches(Normalized(rule), caseSensitive, path, directory))
       <==> || IsFork(name) || Named(name, EntryNames(), caseSensitive)
            || (directory && Named(name, DirectoryNames(), caseSensitive))
  {
    hide RuleMatches, SameName, IsBasename, WithoutDots, Normalized, PlainName, CommonPatterns, EntryNames,
         DirectoryNames, Ascii, IsFork;
    forall rule ensures rule in CommonPatterns()
                   <==> || rule in EntryNames() || rule == Ascii("._*")
                        || exists n :: n in DirectoryNames() && rule == n + [SLASH]
    {
      PatternIff(rule);
    }
    ForkRule(name, caseSensitive, path, directory);
    forall n | n in EntryNames()
      ensures RuleMatches(n, caseSensitive, path, directory) <==> SameName(name, n, caseSensitive)
    {
      EntryIsName(n);
      NameRule(n, name, caseSensitive, path, directory);
    }
    forall n | n in DirectoryNames()
      ensures RuleMatches(n + [SLASH], caseSensitive, path, directory)
         <==> directory && SameName(name, n, caseSensitive)
    {
      DirectoryIsName(n);
      NameRule(n, name, caseSensitive, path, directory);
    }
    forall rule | rule in CommonPatterns() ensures Normalized(rule) == rule {
      PatternIsNormalized(rule);
    }
  }
}
