/** The text form of tracker lists, line by line: what an import takes, and what an export writes. */
module TrackerText {
  import opened ByteStrings
  import opened Urls
  import opened Wrappers
  import opened Trackers
  import Utf8

  // ----- white space ------------------------------------------------------------------------------------

  /** Spaces, tabs, line feeds, vertical tabs, form feeds and carriage returns. */
  predicate White(b: Byte) { b in {0x20, 0x09, 0x0A, 0x0B, 0x0C, 0x0D} }

  predicate Blank(s: Bytes) { forall i :: 0 <= i < |s| ==> White(s[i]) }

  predicate Tight(s: Bytes) { s != [] ==> !White(s[0]) && !White(s[|s| - 1]) }

  lemma {:induction false} TrimmedBackIs(s: Bytes) returns (after: Bytes)
    ensures s == TrimmedBack(s) + after && Blank(after)
    ensures TrimmedBack(s) != [] ==> !White(TrimmedBack(s)[|TrimmedBack(s)| - 1]) && TrimmedBack(s)[0] == s[0]
  {
    if s != [] && IsWhitespace(s[|s| - 1]) {
      var front := s[..|s| - 1];
      var rest := TrimmedBackIs(front);
      after := rest + [s[|s| - 1]];
      assert s == front + [s[|s| - 1]];
      ConcatAssociative(TrimmedBack(front), rest, [s[|s| - 1]]);
    } else {
      after := [];
    }
  }

  /** Trimming takes the white space at both ends and nothing else. */
  lemma {:induction false} TrimmedIs(s: Bytes) returns (before: Bytes, after: Bytes)
    ensures s == before + Trimmed(s) + after && Blank(before) && Blank(after) && Tight(Trimmed(s))
  {
    if s != [] && IsWhitespace(s[0]) {
      var more;
      more, after := TrimmedIs(s[1..]);
      before := [s[0]] + more;
      assert s == [s[0]] + s[1..];
      ConcatAssociative([s[0]], more, Trimmed(s));
      ConcatAssociative([s[0]], more + Trimmed(s), after);
    } else {
      before := [];
      after := TrimmedBackIs(s);
    }
  }

  // ----- lines ------------------------------------------------------------------------------------------

  /** Lines with a newline between them. */
  function Joined(lines: seq<Bytes>): Bytes {
    if lines == [] then [] else if |lines| == 1 then lines[0] else lines[0] + [NEWLINE] + Joined(lines[1..])
  }

  ghost predicate AreLines(lines: seq<Bytes>) {
    lines != [] && forall i :: 0 <= i < |lines| ==> NEWLINE !in lines[i]
  }

  /** Every text has lines. */
  lemma {:induction false} LinesOf(text: Bytes) returns (lines: seq<Bytes>)
    ensures AreLines(lines) && Joined(lines) == text
    decreases |text|
  {
    match FindAny(text, {NEWLINE})
    case None => lines := [text];
    case Some(n) =>
      var rest := LinesOf(text[n + 1..]);
      lines := [text[..n]] + rest;
      assert lines[1..] == rest && text == text[..n] + [NEWLINE] + text[n + 1..];
  }

  /** A line is blank, a comment, or names a tracker. */
  predicate GoodLine(line: Bytes) {
    var text := Trimmed(line);
    text == [] || text[0] == 0x23 || ParseTracker(text).Some?
  }

  /** The trackers of the lines, in order; a blank line begins a new tier. */
  function Groups(lines: seq<Bytes>): (r: seq<Tier>)
    ensures r != []
  {
    if lines == [] then [[]]
    else
      var text, rest := Trimmed(lines[0]), Groups(lines[1..]);
      if text == [] then [[]] + rest
      else if text[0] == 0x23 || ParseTracker(text) == None then rest
      else [[ParseTracker(text).value] + rest[0]] + rest[1..]
  }

  /** What a state becomes when the groups of further lines are added. */
  function Extended(state: Import, groups: seq<Tier>, valid: bool): Import
    requires state.tiers != [] && groups != []
  {
    var n := |state.tiers| - 1;
    Import(state.tiers[..n] + [state.tiers[n] + groups[0]] + groups[1..], state.valid && valid)
  }

  lemma WithLineExtends(state: Import, line: Bytes, groups: seq<Tier>, valid: bool)
    requires state.tiers != [] && groups != []
    ensures var text := Trimmed(line);
            var all := if text == [] then [[]] + groups
                       else if text[0] == 0x23 || ParseTracker(text) == None then groups
                       else [[ParseTracker(text).value] + groups[0]] + groups[1..];
            Extended(WithLine(state, text), groups, valid) == Extended(state, all, GoodLine(line) && valid)
  {
    hide Trimmed, ParseTracker;
    var n, text := |state.tiers| - 1, Trimmed(line);
    if text == [] {
      var next := WithLine(state, text);
      assert next.tiers[..n + 1] == state.tiers && state.tiers == state.tiers[..n] + [state.tiers[n]];
      assert state.tiers[n] + [] == state.tiers[n] && [] + groups[0] == groups[0];
      assert [groups[0]] + groups[1..] == groups;
    } else if text[0] != 0x23 && ParseTracker(text).Some? {
      var t := ParseTracker(text).value;
      var next := WithLine(state, text);
      assert next.tiers[..n] == state.tiers[..n] && next.tiers[n] == state.tiers[n] + [t];
      assert state.tiers[n] + [t] + groups[0] == state.tiers[n] + ([t] + groups[0]);
    }
  }

  lemma HasTiers(state: Import, line: Bytes)
    requires state.tiers != []
    ensures WithLine(state, line).tiers != []
  {
    hide ParseTracker;
  }

  lemma {:induction false} LinesAreGrouped(state: Import, lines: seq<Bytes>)
    requires state.tiers != [] && AreLines(lines)
    ensures WithLines(state, Joined(lines))
         == Extended(state, Groups(lines), forall i :: 0 <= i < |lines| ==> GoodLine(lines[i]))
    decreases |lines|
  {
    hide Trimmed, ParseTracker, WithLine, WithLines, GoodLine;
    var line, text := lines[0], Trimmed(lines[0]);
    if |lines| == 1 {
      NoNewline(line);
      UnfoldLines(state, line);
      assert lines[1..] == [];
      HasTiers(state, text);
      WithLineExtends(state, line, [[]], true);
      NothingExtends(WithLine(state, text));
    } else {
      var rest := lines[1..];
      assert forall k :: 0 <= k < |line| ==> line[k] != NEWLINE;
      FirstLine(state, line, Joined(rest));
      HasTiers(state, text);
      LinesAreGrouped(WithLine(state, text), rest);
      var valid := forall i :: 0 <= i < |rest| ==> GoodLine(rest[i]);
      WithLineExtends(state, line, Groups(rest), valid);
      assert (forall i :: 0 <= i < |lines| ==> GoodLine(lines[i])) <==> GoodLine(line) && valid by {
        assert lines == [line] + rest;
      }
    }
  }

  lemma NothingExtends(state: Import)
    requires state.tiers != []
    ensures Extended(state, [[]], true) == state
  {
    var n := |state.tiers| - 1;
    assert state.tiers[n] + [] == state.tiers[n];
    assert state.tiers[..n] + [state.tiers[n]] + [] == state.tiers;
  }

  lemma NoNewline(line: Bytes)
    requires NEWLINE !in line
    ensures FindAny(line, {NEWLINE}) == None
  {
  }

  /**
    An import succeeds exactly for valid UTF-8 of at most a mebibyte in which every line is blank, a comment or a
    tracker. It gives the trackers between blank lines as tiers, without empty tiers and repeated trackers.
  */
  lemma ImportedIff(lines: seq<Bytes>)
    requires AreLines(lines)
    ensures Imported(Joined(lines)).Some?
       <==> && |Joined(lines)| <= 1024 * 1024 && Utf8.WellFormed(Joined(lines))
            && forall i :: 0 <= i < |lines| ==> GoodLine(lines[i])
    ensures Imported(Joined(lines)).Some? ==> Imported(Joined(lines)) == Some(MadeList(Groups(lines)))
  {
    hide Utf8.WellFormed, WithLines, GoodLine, Joined, Groups, MadeList;
    LinesAreGrouped(Import([[]], true), lines);
    var groups := Groups(lines);
    var empty: seq<Tier> := [[]];
    assert [] + groups[0] == groups[0] && empty[..0] == [];
    assert [] + [groups[0]] + groups[1..] == groups;
  }

  /** Making a list: tier by tier, empty ones vanish and the others lose repeated trackers. */
  lemma {:induction false} MadeListParts(a: seq<Tier>, b: seq<Tier>, tier: Tier)
    ensures MadeList(a + b) == MadeList(a) + MadeList(b)
    ensures MadeList([tier]) == if tier == [] then [] else [Deduplicated(tier)]
    decreases |b|
  {
    hide Deduplicated;
    assert [tier][..0] == [];
    if b == [] {
      assert a + b == a;
    } else {
      var n := |b| - 1;
      MadeListParts(a, b[..n], tier);
      assert (a + b)[..|a| + n] == a + b[..n];
    }
  }

  // ----- export -----------------------------------------------------------------------------------------

  function UrlBytes(tier: Tier): nat {
    if tier == [] then 0 else UrlBytes(tier[..|tier| - 1]) + |tier[|tier| - 1].value| + 1
  }

  function ListBytes(tiers: seq<Tier>): nat {
    if tiers == [] then 0 else ListBytes(tiers[..|tiers| - 1]) + UrlBytes(tiers[|tiers| - 1])
  }

  lemma {:induction false} TierTextSize(tier: Tier)
    ensures |TierText(tier)| == UrlBytes(tier)
  {
    if tier != [] { TierTextSize(tier[..|tier| - 1]); }
  }

  /** An export holds a newline for every tracker and one between tiers, and nothing else but the URLs. */
  lemma {:induction false} ExportedSize(tiers: seq<Tier>)
    ensures |Exported(tiers)| == ListBytes(tiers) + if tiers == [] then 0 else |tiers| - 1
  {
    if tiers != [] {
      TierTextSize(tiers[|tiers| - 1]);
      ExportedSize(tiers[..|tiers| - 1]);
    }
  }
}
