/**
  What an unsafe splice gives. The start of the key is searched too far back by the digits at the end of
  the byte string before it; that string then swallows bytes behind it, and the torrent decodes exactly
  when the bytes that follow happen to go on like a torrent.
*/
module UnsafeSplice {
  import opened ByteStrings
  import opened Bencode
  import opened BencodeParser
  import opened InfoSplice
  import opened Wrappers

  // ----- how far the search goes ----------------------------------------------------------------------

  function TrailingDigits(c: Bytes): (n: nat)
    ensures n <= |c|
  {
    if c != [] && IsDigit(c[|c| - 1]) then 1 + TrailingDigits(c[..|c| - 1]) else 0
  }

  lemma {:induction false} DigitsBackTrailing(s: Bytes, at: nat, c: Bytes)
    requires HoldsAt(s, at, c) && at > 0 && !IsDigit(s[at - 1])
    ensures DigitsBack(s, at + |c|) == at + |c| - TrailingDigits(c)
    decreases |c|
  {
    if c != [] {
      var n := |c| - 1;
      HoldsAtByte(s, at, c, n);
      assert c == c[..n] + [c[n]];
      HoldsAtSplit(s, at, c[..n], [c[n]]);
      DigitsBackTrailing(s, at, c[..n]);
    }
  }

  /** The digits at the end of a byte string. */
  function Overshoot(v: Value): nat {
    if v.StringValue? then TrailingDigits(v.content) else 0
  }

  /** encoded_key_start misses the start of an entry by the digits at the end of the value before it. */
  lemma {:induction false} KeyStartOvershoots(s: Bytes, at: nat, entries: seq<Entry>, i: nat)
    requires DictionaryAt(s, at, entries) && 0 < i < |entries|
    ensures var start := EntryStart(entries, at, i);
            KeyStart(s, KeySpan(entries[i].key, start)) == start - Overshoot(entries[i - 1].value)
  {
    hide Print, PrintString, PrintEntry, PrintEntries, KeySpan, KeyStart, DigitsBack, DictionaryAt, HoldsAt, IsDigit;
    var v, start := entries[i - 1].value, EntryStart(entries, at, i);
    EntryLayout(s, at, entries, i);
    EntryLayout(s, at, entries, i - 1);
    KeyStartIsEntryStart(s, at, entries, i);
    KeyStartFromEntry(s, start, entries[i].key);
    if v.StringValue? {
      StringBefore(s, start - |Print(v)|, v.content);
    }
  }

  lemma StringBefore(s: Bytes, at: nat, c: Bytes)
    requires HoldsAt(s, at, Print(StringValue(c)))
    ensures |Print(StringValue(c))| == |Decimal(|c|)| + 1 + |c|
    ensures DigitsBack(s, at + |Print(StringValue(c))|) == at + |Print(StringValue(c))| - TrailingDigits(c)
  {
    var d := Decimal(|c|);
    HoldsAtSplit(s, at, d + [COLON], c);
    HoldsAtSplit(s, at, d, [COLON]);
    HoldsAtByte(s, at + |d|, [COLON], 0);
    DigitsBackTrailing(s, at + |d| + 1, c);
  }

  // ----- prints are a prefix code -----------------------------------------------------------------------

  lemma SameString(s: Bytes, at: nat, a: Bytes, b: Bytes, limits: Limits)
    requires HoldsAt(s, at, PrintString(a)) && |a| <= limits.maxStringBytes
    requires HoldsAt(s, at, PrintString(b)) && |b| <= limits.maxStringBytes
    ensures a == b
  {
    hide PrintString;
    StringParses(s, at, a, limits);
    StringParses(s, at, b, limits);
    KeySpanHolds(a, at, s);
    KeySpanHolds(b, at, s);
  }

  lemma SameValue(s: Bytes, at: nat, v: Value, w: Value, depth: nat, limits: Limits)
    requires HoldsAt(s, at, Print(v)) && Fits(v, depth, limits) && Tokens(v) <= limits.maxTokens
    requires HoldsAt(s, at, Print(w)) && Fits(w, depth, limits) && Tokens(w) <= limits.maxTokens
    ensures v == w
  {
    PrintedValueParses(s, at, 0, depth, v, limits);
    PrintedValueParses(s, at, 0, depth, w, limits);
    LocateReadsBack(v, at, s);
    LocateReadsBack(w, at, s);
  }

  ghost predicate Readable(entries: seq<Entry>, depth: nat, limits: Limits) {
    EntriesFit(entries, depth, limits) && EntryTokens(entries) <= limits.maxTokens
  }

  /** Where printed entries stand, any printed and ended entries start with the same ones. */
  lemma {:induction false} EntriesPrefix(s: Bytes, at: nat, a: seq<Entry>, b: seq<Entry>, depth: nat, limits: Limits)
    requires HoldsAt(s, at, PrintEntries(a)) && Readable(a, depth, limits)
    requires HoldsAt(s, at, PrintEntries(b) + [END_MARK]) && Readable(b, depth, limits)
    ensures |a| <= |b| && b[..|a|] == a
    decreases a
  {
    hide Print, PrintString, PrintEntries, PrintEntry, HoldsAt, Fits, Tokens, EntryTokens, IsDigit, Readable;
    if a != [] {
      var e, rest := a[0], a[1..];
      NoTail(s, at, PrintEntries(a));
      FirstEntry(s, at, a, []);
      FirstFits(a, depth, limits);
      EntryStartsNoEnd(s, at, e, b);
      FirstEntry(s, at, b, [END_MARK]);
      FirstFits(b, depth, limits);
      SameString(s, at, e.key, b[0].key, limits);
      SameValue(s, at + |PrintString(e.key)|, e.value, b[0].value, depth, limits);
      NoTail(s, at + |PrintEntry(e)|, PrintEntries(rest));
      EntriesPrefix(s, at + |PrintEntry(e)|, rest, b[1..], depth, limits);
      assert a == [e] + rest && b == [b[0]] + b[1..];
    }
  }

  lemma NoTail(s: Bytes, at: nat, part: Bytes)
    ensures HoldsAt(s, at, part + []) <==> HoldsAt(s, at, part)
  {
    assert part + [] == part;
  }

  /** The parts of the first printed entry. */
  lemma FirstEntry(s: Bytes, at: nat, entries: seq<Entry>, tail: Bytes)
    requires entries != [] && HoldsAt(s, at, PrintEntries(entries) + tail)
    ensures var e := entries[0];
            && |PrintEntry(e)| == |PrintString(e.key)| + |Print(e.value)|
            && HoldsAt(s, at, PrintString(e.key)) && HoldsAt(s, at + |PrintString(e.key)|, Print(e.value))
            && HoldsAt(s, at + |PrintEntry(e)|, PrintEntries(entries[1..]) + tail)
  {
    hide Print, PrintString, HoldsAt;
    var e := entries[0];
    UnfoldEntries(entries, at);
    ConcatAssociative(PrintEntry(e), PrintEntries(entries[1..]), tail);
    HoldsAtSplit(s, at, PrintEntry(e), PrintEntries(entries[1..]) + tail);
    HoldsAtSplit(s, at, PrintString(e.key), Print(e.value));
  }

  lemma FirstFits(entries: seq<Entry>, depth: nat, limits: Limits)
    requires entries != [] && Readable(entries, depth, limits)
    ensures var e := entries[0];
            && |e.key| <= limits.maxStringBytes && Fits(e.value, depth, limits) && Tokens(e.value) <= limits.maxTokens
            && Readable(entries[1..], depth, limits)
  {
    hide Tokens;
    assert EntryTokens(entries) == TokensOfEntry(entries[0]) + EntryTokens(entries[1..]);
    assert EntryFits(entries[0], depth, limits);
  }

  lemma EntryStartsNoEnd(s: Bytes, at: nat, e: Entry, b: seq<Entry>)
    requires HoldsAt(s, at, PrintString(e.key)) && HoldsAt(s, at, PrintEntries(b) + [END_MARK])
    ensures b != []
  {
    PrintStringStart(e.key);
    HoldsAtByte(s, at, PrintString(e.key), 0);
    if b == [] { HoldsAtByte(s, at, PrintEntries(b) + [END_MARK], 0); }
  }

  // ----- torrents with a swallowed middle -------------------------------------------------------------------

  lemma ContentFits(entries: seq<Entry>, i: nat)
    requires 0 < i <= |entries| && entries[i - 1].value.StringValue?
    ensures |PrintEntries(entries[..i])| >= |entries[i - 1].value.content|
  {
    assert entries[..i - 1] + [entries[i - 1]] == entries[..i];
    PrintEntriesAppend(entries[..i - 1], [entries[i - 1]]);
    PrintEntriesOne(entries[i - 1]);
  }

  /** A torrent, its info dictionary, and an entry in that whose predecessor is a byte string. */
  datatype Place = Place(tops: seq<Entry>, k: nat, i: nat) {
    ghost predicate Valid() {
      k < |tops| && tops[k].value.DictionaryValue? && 0 < i < |Info()| && Info()[i - 1].value.StringValue?
    }

    function Info(): seq<Entry>
      requires k < |tops| && tops[k].value.DictionaryValue?
    {
      tops[k].value.entries
    }

    function Content(): Bytes
      requires Valid()
    {
      Info()[i - 1].value.content
    }

    function Torrent(): Bytes { Print(DictionaryValue(tops)) }

    /** Where the entry begins. */
    function Start(): (n: nat)
      requires Valid()
      ensures n >= |Content()|
    {
      ContentFits(Info(), i);
      EntryStart(Info(), InfoStart(tops, k), i)
    }

    /** The torrent with another content before the entry, and other entries from there on. */
    function Resumed(content: Bytes, inner: seq<Entry>, outer: seq<Entry>): Value
      requires Valid()
    {
      var before := Info()[..i - 1] + [Entry(Info()[i - 1].key, StringValue(content))];
      DictionaryValue(tops[..k] + [Entry(tops[k].key, DictionaryValue(before + inner))] + outer)
    }

    /** What a torrent prints up to the content, given its length. */
    function Lead(length: nat): Bytes
      requires Valid()
    {
      [DICTIONARY_MARK] + PrintEntries(tops[..k]) + PrintString(tops[k].key)
      + ([DICTIONARY_MARK] + PrintEntries(Info()[..i - 1]) + PrintString(Info()[i - 1].key) + Decimal(length) + [COLON])
    }
  }

  /** The rest of a torrent from the entry on. */
  function Rest(inner: seq<Entry>, outer: seq<Entry>): Bytes {
    PrintEntries(inner) + [END_MARK] + PrintEntries(outer) + [END_MARK]
  }

  lemma PrintInner(before: seq<Entry>, key: Bytes, content: Bytes, inner: seq<Entry>)
    ensures PrintEntries(before + [Entry(key, StringValue(content))] + inner)
         == PrintEntries(before) + PrintString(key) + Decimal(|content|) + [COLON] + content + PrintEntries(inner)
  {
    hide PrintEntries, Decimal;
    var e := Entry(key, StringValue(content));
    PrintEntriesAppend(before + [e], inner);
    PrintEntriesAppend(before, [e]);
    PrintEntriesOne(e);
    assert PrintEntry(e) == PrintString(key) + (Decimal(|content|) + [COLON] + content);
  }

  lemma JoinOuter(before: Bytes, key: Bytes, info: Bytes, outer: Bytes)
    ensures [DICTIONARY_MARK] + (before + (key + ([DICTIONARY_MARK] + info + [END_MARK])) + outer) + [END_MARK]
         == [DICTIONARY_MARK] + before + key + [DICTIONARY_MARK] + info + [END_MARK] + outer + [END_MARK]
  {
    var e := key + ([DICTIONARY_MARK] + info + [END_MARK]);
    assert e == key + [DICTIONARY_MARK] + info + [END_MARK];
    assert [DICTIONARY_MARK] + (before + e + outer) == [DICTIONARY_MARK] + before + e + outer;
    assert [DICTIONARY_MARK] + before + e == [DICTIONARY_MARK] + before + key + [DICTIONARY_MARK] + info + [END_MARK];
  }

  lemma PrintOuter(before: seq<Entry>, key: Bytes, info: seq<Entry>, outer: seq<Entry>)
    ensures Print(DictionaryValue(before + [Entry(key, DictionaryValue(info))] + outer))
         == [DICTIONARY_MARK] + PrintEntries(before) + PrintString(key)
            + [DICTIONARY_MARK] + PrintEntries(info) + [END_MARK] + PrintEntries(outer) + [END_MARK]
  {
    hide Print, PrintEntries, PrintString;
    var e := Entry(key, DictionaryValue(info));
    PrintEntriesAppend(before + [e], outer);
    PrintEntriesAppend(before, [e]);
    PrintEntriesOne(e);
    PrintOfDictionary(info);
    PrintOfDictionary(before + [e] + outer);
    JoinOuter(PrintEntries(before), PrintString(key), PrintEntries(info), PrintEntries(outer));
  }

  lemma PrintResumed(at: Place, content: Bytes, inner: seq<Entry>, outer: seq<Entry>)
    requires at.Valid()
    ensures Print(at.Resumed(content, inner, outer)) == at.Lead(|content|) + content + Rest(inner, outer)
  {
    hide Print, PrintEntries, PrintString, Decimal;
    var before, key := at.Info()[..at.i - 1], at.Info()[at.i - 1].key;
    PrintInner(before, key, content, inner);
    PrintOuter(at.tops[..at.k], at.tops[at.k].key, before + [Entry(key, StringValue(content))] + inner, outer);
  }

  /** The original torrent goes on with its own entries. */
  lemma OriginalResumes(at: Place)
    requires at.Valid()
    ensures at.Torrent() == at.Lead(|at.Content()|) + at.Content() + Rest(at.Info()[at.i..], at.tops[at.k + 1..])
    ensures at.Start() == |at.Lead(|at.Content()|)| + |at.Content()|
  {
    hide Print, PrintEntries, PrintString, Decimal;
    var info, i := at.Info(), at.i;
    var prev := Entry(info[i - 1].key, StringValue(at.Content()));
    assert info[..i - 1] + [prev] == info[..i] && info[..i] + info[i..] == info;
    assert at.tops[..at.k] + [Entry(at.tops[at.k].key, DictionaryValue(info))] + at.tops[at.k + 1..] == at.tops;
    PrintResumed(at, at.Content(), info[i..], at.tops[at.k + 1..]);
    PrintInner(info[..i - 1], prev.key, at.Content(), []);
    assert info[..i - 1] + [prev] + [] == info[..i];
    NothingPrinted();
  }

  lemma NothingPrinted()
    ensures PrintEntries([]) == []
  {
  }

  // ----- decoding what was swallowed ------------------------------------------------------------------------

  /** Behind known entries and a known key, printed and ended entries go on with that key. */
  lemma Descend(s: Bytes, at: nat, a: seq<Entry>, key: Bytes, b: seq<Entry>, depth: nat, limits: Limits)
    requires HoldsAt(s, at, PrintEntries(a) + PrintString(key))
    requires Readable(a, depth, limits) && |key| <= limits.maxStringBytes
    requires HoldsAt(s, at, PrintEntries(b) + [END_MARK]) && Readable(b, depth, limits)
    ensures |a| < |b| && b[..|a|] == a && b[|a|].key == key
    ensures HoldsAt(s, at + |PrintEntries(a)| + |PrintString(key)|, Print(b[|a|].value))
    ensures Fits(b[|a|].value, depth, limits) && Tokens(b[|a|].value) <= limits.maxTokens
  {
    hide Print, PrintString, PrintEntries, PrintEntry, HoldsAt, Fits, Tokens, Readable, IsDigit;
    HoldsAtSplit(s, at, PrintEntries(a), PrintString(key));
    EntriesPrefix(s, at, a, b, depth, limits);
    var next := at + |PrintEntries(a)|;
    var rest := b[|a|..];
    EntriesSplit(b, |a|);
    ConcatAssociative(PrintEntries(a), PrintEntries(rest), [END_MARK]);
    HoldsAtSplit(s, at, PrintEntries(a), PrintEntries(rest) + [END_MARK]);
    EntryStartsNoEnd(s, next, Entry(key, IntegerValue(0)), rest);
    FirstEntry(s, next, rest, [END_MARK]);
    ReadableRest(b, |a|, depth, limits);
    FirstFits(rest, depth, limits);
    SameString(s, next, key, rest[0].key, limits);
  }

  lemma {:induction false} ReadableRest(entries: seq<Entry>, n: nat, depth: nat, limits: Limits)
    requires n <= |entries| && Readable(entries, depth, limits)
    ensures Readable(entries[n..], depth, limits) && Readable(entries[..n], depth, limits)
    ensures EntryTokens(entries[..n]) <= EntryTokens(entries)
    decreases n
  {
    hide Fits, Tokens;
    if n > 0 {
      ReadableRest(entries[1..], n - 1, depth, limits);
      assert entries[1..][n - 1..] == entries[n..] && entries[1..][..n - 1] == entries[..n][1..];
      assert EntryTokens(entries[..n]) == TokensOfEntry(entries[0]) + EntryTokens(entries[..n][1..]);
    } else {
      assert entries[0..] == entries;
    }
  }

  /** A value that starts like a dictionary is one. */
  lemma DictionaryByMark(s: Bytes, at: nat, v: Value, depth: nat, limits: Limits)
    requires HoldsAt(s, at, Print(v)) && s[at] == DICTIONARY_MARK
    requires Fits(v, depth, limits) && Tokens(v) <= limits.maxTokens
    ensures v.DictionaryValue? && HoldsAt(s, at + 1, PrintEntries(v.entries) + [END_MARK])
    ensures Readable(v.entries, depth + 1, limits)
  {
    HoldsAtByte(s, at, Print(v), 0);
    PrintStart(v);
    assert v.DictionaryValue?;
    ConcatAssociative([DICTIONARY_MARK], PrintEntries(v.entries), [END_MARK]);
    HoldsAtSplit(s, at, [DICTIONARY_MARK], PrintEntries(v.entries) + [END_MARK]);
  }

  /** A value that starts with a length and a colon is a byte string of that length. */
  lemma StringByLength(s: Bytes, at: nat, v: Value, length: nat)
    requires HoldsAt(s, at, Print(v)) && HoldsAt(s, at, Decimal(length) + [COLON])
    ensures v.StringValue? && |v.content| == length
  {
    hide Decimal, DigitRunEnd, Number;
    LengthRun(s, at, length);
    HoldsAtByte(s, at, Print(v), 0);
    if v.StringValue? {
      HoldsAtSplit(s, at, Decimal(|v.content|) + [COLON], v.content);
      LengthRun(s, at, |v.content|);
    }
  }

  lemma LengthRun(s: Bytes, at: nat, length: nat)
    requires HoldsAt(s, at, Decimal(length) + [COLON])
    ensures IsDigit(s[at]) && DigitRunEnd(s, at) == at + |Decimal(length)|
    ensures Number(s[at..DigitRunEnd(s, at)]) == length
  {
    hide Decimal, DigitRunEnd, Number;
    var d := Decimal(length);
    HoldsAtSplit(s, at, d, [COLON]);
    DecimalIsCanonical(length);
    HoldsAtByte(s, at, d, 0);
    HoldsAtByte(s, at + |d|, [COLON], 0);
    DigitRunIs(s, at, d);
    assert s[at..at + |d|] == d;
  }

  lemma LeadParts(at: Place, out: Bytes, length: nat)
    requires at.Valid() && HoldsAt(out, 0, at.Lead(length))
    ensures out[0] == DICTIONARY_MARK
    ensures HoldsAt(out, 1, PrintEntries(at.tops[..at.k]) + PrintString(at.tops[at.k].key))
    ensures var p := 1 + |PrintEntries(at.tops[..at.k])| + |PrintString(at.tops[at.k].key)|;
            var key := at.Info()[at.i - 1].key;
            && out[p] == DICTIONARY_MARK
            && HoldsAt(out, p + 1, PrintEntries(at.Info()[..at.i - 1]) + PrintString(key))
            && var q := p + 1 + |PrintEntries(at.Info()[..at.i - 1])| + |PrintString(key)|;
               HoldsAt(out, q, Decimal(length) + [COLON])
  {
    hide PrintEntries, PrintString, Decimal, HoldsAt;
    var a, b := PrintEntries(at.tops[..at.k]), PrintString(at.tops[at.k].key);
    var c, d := PrintEntries(at.Info()[..at.i - 1]), PrintString(at.Info()[at.i - 1].key);
    var e := Decimal(length) + [COLON];
    MarkedParts(out, 0, a + b, [DICTIONARY_MARK] + (c + d) + e) by {
      assert at.Lead(length) == [DICTIONARY_MARK] + (a + b) + ([DICTIONARY_MARK] + (c + d) + e);
    }
    MarkedParts(out, 1 + |a + b|, c + d, e);
  }

  lemma MarkedParts(s: Bytes, at: nat, body: Bytes, tail: Bytes)
    requires HoldsAt(s, at, [DICTIONARY_MARK] + body + tail)
    ensures s[at] == DICTIONARY_MARK && HoldsAt(s, at + 1, body) && HoldsAt(s, at + 1 + |body|, tail)
  {
    HoldsAtSplit(s, at, [DICTIONARY_MARK] + body, tail);
    HoldsAtSplit(s, at, [DICTIONARY_MARK], body);
    HoldsAtByte(s, at, [DICTIONARY_MARK], 0);
  }

  lemma OriginalReadable(at: Place, limits: Limits)
    requires at.Valid() && Decodable(DictionaryValue(at.tops), limits)
    ensures Readable(at.tops[..at.k], 1, limits) && |at.tops[at.k].key| <= limits.maxStringBytes
    ensures Readable(at.Info()[..at.i - 1], 2, limits) && |at.Info()[at.i - 1].key| <= limits.maxStringBytes
  {
    ReadableRest(at.tops, at.k, 1, limits);
    FirstFits(at.tops[at.k..], 1, limits);
    ReadableRest(at.Info(), at.i - 1, 2, limits);
    FirstFits(at.Info()[at.i - 1..], 2, limits);
  }

  /** What decodes behind the lead is the torrent with other entries from the place on. */
  lemma DecodedResumes(at: Place, out: Bytes, limits: Limits) returns (inner: seq<Entry>, outer: seq<Entry>)
    requires at.Valid() && Decodable(DictionaryValue(at.tops), limits)
    requires HoldsAt(out, 0, at.Lead(|at.Content()|)) && Decode(out, limits).Parsed?
    ensures at.Start() <= |out| && out[at.Start()..] == Rest(inner, outer)
    ensures ValueOf(Decode(out, limits).value, out)
         == at.Resumed(out[at.Start() - |at.Content()|..at.Start()], inner, outer)
  {
    hide Print, PrintEntries, PrintString, Decimal, HoldsAt, Fits, Tokens, Readable, Decode, ValueOf, SplicedBytes;
    var w := ValueOf(Decode(out, limits).value, out);
    DecodeInvertsPrint(out, limits);
    WholeHeld(out);
    LeadParts(at, out, |at.Content()|);
    OriginalReadable(at, limits);
    DictionaryByMark(out, 0, w, 0, limits);
    var tops := w.entries;
    Descend(out, 1, at.tops[..at.k], at.tops[at.k].key, tops, 1, limits);
    var p := 1 + |PrintEntries(at.tops[..at.k])| + |PrintString(at.tops[at.k].key)|;
    DictionaryByMark(out, p, tops[at.k].value, 1, limits);
    var info := tops[at.k].value.entries;
    var key := at.Info()[at.i - 1].key;
    Descend(out, p + 1, at.Info()[..at.i - 1], key, info, 2, limits);
    var q := p + 1 + |PrintEntries(at.Info()[..at.i - 1])| + |PrintString(key)|;
    StringByLength(out, q, info[at.i - 1].value, |at.Content()|);
    var content := info[at.i - 1].value.content;
    inner, outer := info[at.i..], tops[at.k + 1..];
    RebuiltAt(at, tops, info, content);
    PrintResumed(at, content, inner, outer);
    OriginalResumes(at);
    PartsOf(at.Lead(|content|), content, Rest(inner, outer));
  }

  lemma WholeHeld(s: Bytes)
    ensures HoldsAt(s, 0, s)
  {
    assert s[0..|s|] == s;
  }

  lemma PartsOf(a: Bytes, b: Bytes, c: Bytes)
    ensures (a + b + c)[|a|..|a| + |b|] == b && (a + b + c)[|a| + |b|..] == c
  {
  }

  lemma RebuiltAt(at: Place, tops: seq<Entry>, info: seq<Entry>, content: Bytes)
    requires at.Valid() && at.k < |tops| && tops[..at.k] == at.tops[..at.k]
    requires tops[at.k] == Entry(at.tops[at.k].key, DictionaryValue(info))
    requires at.i <= |info| && info[..at.i - 1] == at.Info()[..at.i - 1]
    requires info[at.i - 1] == Entry(at.Info()[at.i - 1].key, StringValue(content))
    ensures at.Resumed(content, info[at.i..], tops[at.k + 1..]) == DictionaryValue(tops)
  {
    assert info == info[..at.i - 1] + [info[at.i - 1]] + info[at.i..];
    assert tops == tops[..at.k] + [tops[at.k]] + tops[at.k + 1..];
  }

  /** `tail` behind a torrent cut before the trailing digits: the content takes bytes of it, the rest goes on. */
  ghost predicate GoesOn(at: Place, tail: Bytes, inner: seq<Entry>, outer: seq<Entry>, limits: Limits)
    requires at.Valid()
  {
    var c := at.Content();
    var t := TrailingDigits(c);
    && t <= |tail| && tail[t..] == Rest(inner, outer)
    && Decodable(at.Resumed(c[..|c| - t] + tail[..t], inner, outer), limits)
  }

  /** The torrent with everything from the trailing digits on replaced. */
  function CutOver(at: Place, tail: Bytes): Bytes
    requires at.Valid()
  {
    var end := at.Start() - TrailingDigits(at.Content());
    if end <= |at.Torrent()| then at.Torrent()[..end] + tail else tail
  }

  lemma CutOverParts(at: Place, tail: Bytes)
    requires at.Valid()
    ensures var c := at.Content();
            && CutOver(at, tail) == at.Lead(|c|) + c[..|c| - TrailingDigits(c)] + tail
            && HoldsAt(CutOver(at, tail), 0, at.Lead(|c|))
  {
    hide Print, PrintEntries, PrintString, Decimal, Rest, TrailingDigits, CutOver, HoldsAt, EntryStart;
    var c := at.Content();
    var t := TrailingDigits(c);
    OriginalResumes(at);
    FrontOf(at.Lead(|c|), c, Rest(at.Info()[at.i..], at.tops[at.k + 1..]), |c| - t);
    CutOverIs(at, tail);
    HeldFront(at.Lead(|c|), c[..|c| - t] + tail);
    ConcatAssociative(at.Lead(|c|), c[..|c| - t], tail);
  }

  lemma CutOverIs(at: Place, tail: Bytes)
    requires at.Valid() && at.Start() <= |at.Torrent()|
    ensures CutOver(at, tail) == at.Torrent()[..at.Start() - TrailingDigits(at.Content())] + tail
  {
  }

  lemma FrontOf(a: Bytes, b: Bytes, c: Bytes, n: nat)
    requires n <= |b|
    ensures (a + b + c)[..|a| + n] == a + b[..n]
  {
  }

  lemma HeldFront(a: Bytes, b: Bytes)
    ensures HoldsAt(a + b, 0, a)
  {
  }

  lemma SwallowedParts(lead: Bytes, kept: Bytes, tail: Bytes, t: nat)
    requires |lead| + |kept| + t <= |lead + kept + tail|
    ensures t <= |tail|
    ensures (lead + kept + tail)[|lead| + |kept| + t..] == tail[t..]
    ensures (lead + kept + tail)[|lead|..|lead| + |kept| + t] == kept + tail[..t]
  {
  }

  lemma JoinSwallowed(lead: Bytes, kept: Bytes, tail: Bytes, t: nat)
    requires t <= |tail|
    ensures lead + (kept + tail[..t]) + tail[t..] == lead + kept + tail
  {
  }

  lemma DecodedGoesOn(at: Place, tail: Bytes, limits: Limits) returns (inner: seq<Entry>, outer: seq<Entry>)
    requires at.Valid() && Decodable(DictionaryValue(at.tops), limits)
    requires Decode(CutOver(at, tail), limits).Parsed?
    ensures GoesOn(at, tail, inner, outer, limits)
  {
    hide Decode, Decodable, ValueOf, CutOver, HoldsAt, Rest, TrailingDigits, Print;
    var out, c := CutOver(at, tail), at.Content();
    var t := TrailingDigits(c);
    CutOverParts(at, tail);
    inner, outer := DecodedResumes(at, out, limits);
    OriginalResumes(at);
    SwallowedParts(at.Lead(|c|), c[..|c| - t], tail, t);
    DecodeInvertsPrint(out, limits);
  }

  lemma GoesOnDecodes(at: Place, tail: Bytes, inner: seq<Entry>, outer: seq<Entry>, limits: Limits)
    requires at.Valid() && GoesOn(at, tail, inner, outer, limits)
    ensures TrailingDigits(at.Content()) <= |tail|
    ensures Decode(CutOver(at, tail), limits).Parsed?
    ensures var c := at.Content();
            var t := TrailingDigits(c);
            ValueOf(Decode(CutOver(at, tail), limits).value, CutOver(at, tail))
            == at.Resumed(c[..|c| - t] + tail[..t], inner, outer)
  {
    hide Decode, Decodable, ValueOf, CutOver, HoldsAt, Rest, TrailingDigits, Print;
    var c := at.Content();
    var t := TrailingDigits(c);
    CutOverParts(at, tail);
    PrintResumed(at, c[..|c| - t] + tail[..t], inner, outer);
    JoinSwallowed(at.Lead(|c|), c[..|c| - t], tail, t);
    PrintInvertsDecode(at.Resumed(c[..|c| - t] + tail[..t], inner, outer), limits);
  }

  /** The content after the cut: what is left of it and the bytes it swallows. */
  function Swallowed(at: Place, tail: Bytes): Bytes
    requires at.Valid() && TrailingDigits(at.Content()) <= |tail|
  {
    at.Content()[..|at.Content()| - TrailingDigits(at.Content())] + tail[..TrailingDigits(at.Content())]
  }

  /**
    Whatever is put behind the cut: it decodes exactly when it goes on like a torrent behind the bytes the
    content swallows, and then to the torrent with that content and what follows.
  */
  lemma CutOverDecodesIff(at: Place, tail: Bytes, limits: Limits)
    requires at.Valid() && Decodable(DictionaryValue(at.tops), limits)
    ensures Decode(CutOver(at, tail), limits).Parsed? <==>
              exists inner, outer :: GoesOn(at, tail, inner, outer, limits)
    ensures forall inner, outer :: GoesOn(at, tail, inner, outer, limits) ==>
              DecodesTo(CutOver(at, tail), at.Resumed(Swallowed(at, tail), inner, outer), limits)
  {
    hide Decode, Decodable, ValueOf, CutOver, TrailingDigits;
    if Decode(CutOver(at, tail), limits).Parsed? {
      var inner, outer := DecodedGoesOn(at, tail, limits);
    }
    forall inner, outer | GoesOn(at, tail, inner, outer, limits)
      ensures DecodesTo(CutOver(at, tail), at.Resumed(Swallowed(at, tail), inner, outer), limits)
    {
      GoesOnDecodes(at, tail, inner, outer, limits);
    }
  }

  // ----- unsafe splices -----------------------------------------------------------------------------------------

  /** Where an unsafe splice looks for the start of a key. */
  function PlaceOf(tops: seq<Entry>, k: nat, p: Patch): (at: Place)
    requires k < |tops| && tops[k].value.DictionaryValue? && !SafeToSplice(tops[k].value.entries, p)
    ensures at.Valid() && TrailingDigits(at.Content()) > 0
  {
    Place(tops, k, SearchedEntry(tops[k].value.entries, p).value)
  }

  /** The printed entry an insertion writes. */
  function NewEntry(p: Patch): Bytes { PrintEntry(Entry(IdentityKey(p.field), IdentityValue(p))) }

  /** The torrent from the end mark of its info dictionary on. */
  function BehindInfo(at: Place): Bytes
    requires at.Valid()
  {
    Rest([], at.tops[at.k + 1..])
  }

  /** What an unsafe splice puts behind its cut: the entries behind a removed one, or only the new one. */
  function TailOf(at: Place, p: Patch): Bytes
    requires at.Valid()
  {
    if p.clear then Rest(at.Info()[at.i + 1..], at.tops[at.k + 1..]) else NewEntry(p) + BehindInfo(at)
  }

  lemma ChangeClearsOrInserts(entries: seq<Entry>, p: Patch)
    requires Judge(entries, p) == Change
    ensures p.clear ==> FindKey(entries, IdentityKey(p.field)) < |entries|
  {
    hide IdentityKey, FindKey, Less;
  }

  /** A splice that searches the start of an entry behind a byte string cuts before its digits. */
  lemma ShortCut(at: Place, p: Patch)
    requires at.Valid() && SearchedEntry(at.Info(), p) == Some(at.i)
    requires p.clear ==> FindKey(at.Info(), IdentityKey(p.field)) < |at.Info()|
    requires DictionaryAt(at.Torrent(), InfoStart(at.tops, at.k), at.Info())
    ensures SplicedBytes(at.Torrent(), InfoStart(at.tops, at.k), at.Info(), p) == CutOver(at, TailOf(at, p))
  {
    hide Print, PrintString, PrintEntry, PrintEntries, DictionaryAt, HoldsAt, EntryStart, TrailingDigits, Decimal,
         IdentityKey, IdentityValue, FindKey, InsertIndex, KeyStart, KeySpan, Rest, InfoStart;
    var s, info := at.Torrent(), InfoStart(at.tops, at.k);
    KeyStartOvershoots(s, info, at.Info(), at.i);
    EntryLayout(s, info, at.Info(), at.i);
    EntryStartNext(at.Info(), info, at.i);
    var found := at.Start() - TrailingDigits(at.Content());
    if p.clear {
      BehindEntry(at, at.i + 1);
      CutIs(s, found, at.Start() + |PrintEntry(at.Info()[at.i])|, []);
    } else {
      LastStart(s, info, at.Info());
      BehindEntry(at, |at.Info()|);
      assert at.Info()[|at.Info()|..] == [];
      CutIs(s, found, EntryStart(at.Info(), info, |at.Info()|), NewEntry(p));
      ConcatAssociative(s[..found], NewEntry(p), BehindInfo(at));
    }
  }

  lemma CutIs(s: Bytes, start: nat, end: nat, r: Bytes)
    requires start <= end <= |s|
    ensures Cut(s, start, end, r) == s[..start] + r + s[end..]
    ensures r == [] ==> Cut(s, start, end, r) == s[..start] + s[end..]
  {
    if r == [] { assert s[..start] + [] == s[..start]; }
  }

  lemma UnsafeSpliceCutsOver(tops: seq<Entry>, k: nat, p: Patch)
    requires k < |tops| && tops[k].value.DictionaryValue? && !SafeToSplice(tops[k].value.entries, p)
    requires Judge(tops[k].value.entries, p) == Change
    ensures SplicedTorrent(tops, k, p) == CutOver(PlaceOf(tops, k, p), TailOf(PlaceOf(tops, k, p), p))
  {
    hide SplicedBytes, CutOver, TailOf, Print, InfoStart, DictionaryAt, Judge;
    var entries := tops[k].value.entries;
    InfoReprintsRoot(tops, k, entries);
    ChangeClearsOrInserts(entries, p);
    ShortCut(PlaceOf(tops, k, p), p);
  }

  /** The bytes of a torrent from the start of a later entry on, or from the end of all. */
  lemma BehindEntry(at: Place, m: nat)
    requires at.Valid() && at.i <= m <= |at.Info()|
    ensures var start := EntryStart(at.Info(), InfoStart(at.tops, at.k), m);
            at.Start() <= start <= |at.Torrent()| && at.Torrent()[start..] == Rest(at.Info()[m..], at.tops[at.k + 1..])
  {
    hide Print, PrintString, PrintEntries, Decimal;
    var c, info, outer := at.Content(), at.Info(), at.tops[at.k + 1..];
    var between := info[at.i..m];
    OriginalResumes(at);
    BodySplits(info, at.i, m);
    EntriesSplit(info[at.i..], m - at.i);
    assert info[at.i..][..m - at.i] == between && info[at.i..][m - at.i..] == info[m..];
    RestOf(PrintEntries(between), PrintEntries(info[m..]), PrintEntries(outer));
    SuffixOf(at.Lead(|c|), c, Rest(info[at.i..], outer), |PrintEntries(between)|);
    FrontAndRest(PrintEntries(between), Rest(info[m..], outer));
  }

  lemma FrontAndRest(a: Bytes, b: Bytes)
    ensures (a + b)[..|a|] == a && (a + b)[|a|..] == b
  {
  }

  lemma RestOf(first: Bytes, inner: Bytes, outer: Bytes)
    ensures first + inner + [END_MARK] + outer + [END_MARK] == first + (inner + [END_MARK] + outer + [END_MARK])
  {
  }

  lemma SuffixOf(a: Bytes, b: Bytes, c: Bytes, m: nat)
    requires m <= |c|
    ensures (a + b + c)[|a| + |b| + m..] == c[m..]
  {
  }

  /** When an unsafe splice decodes all the same, and to which other torrent. */
  lemma {:induction false} UnsafeSpliceDecodesIff(tops: seq<Entry>, k: nat, p: Patch, limits: Limits)
    requires k < |tops| && tops[k].value.DictionaryValue? && !SafeToSplice(tops[k].value.entries, p)
    requires Judge(tops[k].value.entries, p) == Change && Decodable(DictionaryValue(tops), limits)
    ensures var out, at := SplicedTorrent(tops, k, p), PlaceOf(tops, k, p);
            && (Decode(out, limits).Parsed? <==>
                  exists inner, outer :: GoesOn(at, TailOf(at, p), inner, outer, limits))
            && forall inner, outer :: GoesOn(at, TailOf(at, p), inner, outer, limits) ==>
                 DecodesTo(out, at.Resumed(Swallowed(at, TailOf(at, p)), inner, outer), limits)
  {
    hide SplicedTorrent, Decodable, Decode, GoesOn, DecodesTo, CutOver, TailOf, Judge;
    UnsafeSpliceCutsOver(tops, k, p);
    var at := PlaceOf(tops, k, p);
    CutOverDecodesIff(at, TailOf(at, p), limits);
  }

  // ----- a torrent with entries missing stays within the limits ---------------------------------------------------

  lemma {:induction false} ReadableJoin(a: seq<Entry>, b: seq<Entry>, depth: nat, limits: Limits)
    requires EntriesFit(a, depth, limits) && EntriesFit(b, depth, limits)
    ensures EntriesFit(a + b, depth, limits) && EntryTokens(a + b) == EntryTokens(a) + EntryTokens(b)
    decreases |a|
  {
    hide EntryFits, TokensOfEntry;
    if a == [] {
      assert a + b == b;
    } else {
      ReadableJoin(a[1..], b, depth, limits);
      assert a + b == [a[0]] + (a[1..] + b) && (a + b)[1..] == a[1..] + b;
    }
  }

  /** Replacing one entry and dropping some behind it keeps a dictionary within the limits. */
  lemma ShorterFits(entries: seq<Entry>, i: nat, e: Entry, m: nat, depth: nat, limits: Limits)
    requires 0 < i <= m <= |entries| && EntriesFit(entries, depth, limits)
    requires EntryFits(e, depth, limits) && TokensOfEntry(e) <= TokensOfEntry(entries[i - 1])
    ensures var less := entries[..i - 1] + [e] + entries[m..];
            EntriesFit(less, depth, limits) && EntryTokens(less) <= EntryTokens(entries)
  {
    hide EntryFits, TokensOfEntry, EntriesFit, EntryTokens;
    assert entries == entries[..i - 1] + [entries[i - 1]] + entries[i..m] + entries[m..];
    PartsFit(entries, i - 1, depth, limits);
    PartsFit(entries, i, depth, limits);
    PartsFit(entries, m, depth, limits);
    assert entries[i..] == entries[i..m] + entries[m..] && entries[i - 1..] == [entries[i - 1]] + entries[i..];
    OneFits(e, depth, limits);
    PartsFit(entries[i - 1..], 1, depth, limits);
    assert entries[i - 1..][..1] == [entries[i - 1]] && entries[i - 1..][1..] == entries[i..];
    OneTokens(entries[i - 1]);
    PartsFit(entries[i..], m - i, depth, limits);
    assert entries[i..][m - i..] == entries[m..];
    ReadableJoin(entries[..i - 1], [e], depth, limits);
    ReadableJoin(entries[..i - 1] + [e], entries[m..], depth, limits);
  }

  lemma OneFits(e: Entry, depth: nat, limits: Limits)
    requires EntryFits(e, depth, limits)
    ensures EntriesFit([e], depth, limits) && EntryTokens([e]) == TokensOfEntry(e)
  {
    assert [e][1..] == [];
  }

  lemma OneTokens(e: Entry)
    ensures EntryTokens([e]) == TokensOfEntry(e)
  {
    assert [e][1..] == [];
  }

  lemma {:induction false} PartsFit(entries: seq<Entry>, n: nat, depth: nat, limits: Limits)
    requires n <= |entries| && EntriesFit(entries, depth, limits)
    ensures EntriesFit(entries[..n], depth, limits) && EntriesFit(entries[n..], depth, limits)
    ensures EntryTokens(entries) == EntryTokens(entries[..n]) + EntryTokens(entries[n..])
    decreases n
  {
    hide EntryFits, TokensOfEntry;
    if n > 0 {
      PartsFit(entries[1..], n - 1, depth, limits);
      assert entries[1..][n - 1..] == entries[n..] && entries[1..][..n - 1] == entries[..n][1..];
    } else {
      assert entries[0..] == entries;
    }
  }

  lemma ShorterIsDistinct(entries: seq<Entry>, i: nat, e: Entry, m: nat)
    requires 0 < i <= m <= |entries| && DistinctKeys(entries) && e.key == entries[i - 1].key
    ensures DistinctKeys(entries[..i - 1] + [e] + entries[m..])
  {
    var less := entries[..i - 1] + [e] + entries[m..];
    assert forall q :: 0 <= q < |less| ==> less[q].key == entries[if q < i then q else m + q - i].key;
  }

  /** A content of the same length, and info entries missing behind it. */
  lemma {:induction false} ShorterIsDecodable(at: Place, content: Bytes, m: nat, limits: Limits)
    requires at.Valid() && Decodable(DictionaryValue(at.tops), limits)
    requires |content| == |at.Content()| && at.i <= m <= |at.Info()|
    ensures Decodable(at.Resumed(content, at.Info()[m..], at.tops[at.k + 1..]), limits)
  {
    hide EntriesFit, EntryTokens, Print;
    var info, outer := at.Info(), at.tops[at.k + 1..];
    var e := Entry(info[at.i - 1].key, StringValue(content));
    EntriesOf(at.tops, at.k, 1, limits);
    EntriesOf(info, at.i - 1, 2, limits);
    ShorterFits(info, at.i, e, m, 2, limits);
    ShorterIsDistinct(info, at.i, e, m);
    var less := info[..at.i - 1] + [e] + info[m..];
    var top := Entry(at.tops[at.k].key, DictionaryValue(less));
    ShorterFits(at.tops, at.k + 1, top, at.k + 1, 1, limits);
    ShorterIsDistinct(at.tops, at.k + 1, top, at.k + 1);
    PrintResumed(at, content, info[m..], outer);
    OriginalResumes(at);
    EntriesSplit(info[at.i..], m - at.i);
    assert info[at.i..][m - at.i..] == info[m..];
  }

  lemma EntriesOf(entries: seq<Entry>, i: nat, depth: nat, limits: Limits)
    requires i < |entries| && EntriesFit(entries, depth, limits)
    ensures EntryFits(entries[i], depth, limits)
  {
    PartsFit(entries, i, depth, limits);
  }

  // ----- insertions ---------------------------------------------------------------------------------------------

  /**
    An insertion whose printed entry is exactly as long as the run of digits before it always decodes: the
    string before takes the whole new entry for its end, and the entries behind are gone.
  */
  lemma {:induction false} InsertCanVanish(tops: seq<Entry>, k: nat, p: Patch, limits: Limits)
    requires k < |tops| && tops[k].value.DictionaryValue? && !SafeToSplice(tops[k].value.entries, p)
    requires Judge(tops[k].value.entries, p) == Change && !p.clear && Decodable(DictionaryValue(tops), limits)
    requires TrailingDigits(PlaceOf(tops, k, p).Content()) == |NewEntry(p)|
    ensures var at := PlaceOf(tops, k, p);
            var c := at.Content();
            DecodesTo(SplicedTorrent(tops, k, p),
                      at.Resumed(c[..|c| - |NewEntry(p)|] + NewEntry(p), [], tops[k + 1..]), limits)
  {
    hide Judge, SplicedTorrent, Decodable, Decode, DecodesTo, SafeToSplice, Print, PrintEntry, Rest, TrailingDigits;
    var at := PlaceOf(tops, k, p);
    var c := at.Content();
    UnsafeSpliceDecodesIff(tops, k, p, limits);
    FrontAndRest(NewEntry(p), BehindInfo(at));
    assert at.Info()[|at.Info()|..] == [];
    ShorterIsDecodable(at, c[..|c| - |NewEntry(p)|] + NewEntry(p), |at.Info()|, limits);
    assert GoesOn(at, TailOf(at, p), [], tops[k + 1..], limits);
  }

  /** The same patch, asked of the result, is a change once more, and then does what was asked. */
  lemma {:induction false} VanishedInsertIsAskedAgain(tops: seq<Entry>, k: nat, p: Patch, content: Bytes)
    requires k < |tops| && tops[k].value.DictionaryValue? && !SafeToSplice(tops[k].value.entries, p)
    requires Judge(tops[k].value.entries, p) == Change && !p.clear
    ensures var at := PlaceOf(tops, k, p);
            var left := at.Info()[..at.i - 1] + [Entry(at.Info()[at.i - 1].key, StringValue(content))];
            Judge(left, p) == Change && AsIntended(left, p)
  {
    hide Less, IdentityKey, IdentityValue, TrailingDigits;
    var at, key := PlaceOf(tops, k, p), IdentityKey(p.field);
    var left := at.Info()[..at.i - 1] + [Entry(at.Info()[at.i - 1].key, StringValue(content))];
    assert forall q :: 0 <= q < at.i ==> left[q].key == at.Info()[q].key;
    assert FindKey(left, key) == |left| && InsertIndex(left, key) == |left|;
  }

  /**
    The torrent goes on behind the end of its info dictionary, as many bytes later as the run of digits is
    longer than the new entry.
  */
  ghost predicate GoesOnBehindInfo(at: Place, p: Patch, inner: seq<Entry>, outer: seq<Entry>, limits: Limits)
    requires at.Valid() && TrailingDigits(at.Content()) >= |NewEntry(p)|
  {
    var c := at.Content();
    var skip := TrailingDigits(c) - |NewEntry(p)|;
    && skip <= |BehindInfo(at)| && BehindInfo(at)[skip..] == Rest(inner, outer)
    && Decodable(at.Resumed(c[..|c| - TrailingDigits(c)] + NewEntry(p) + BehindInfo(at)[..skip], inner, outer), limits)
  }

  lemma LongTailGoesOn(at: Place, p: Patch, inner: seq<Entry>, outer: seq<Entry>, limits: Limits)
    requires at.Valid() && !p.clear && TrailingDigits(at.Content()) >= |NewEntry(p)|
    ensures GoesOn(at, TailOf(at, p), inner, outer, limits) <==> GoesOnBehindInfo(at, p, inner, outer, limits)
  {
    hide Decodable, TrailingDigits, Rest, NewEntry;
    var c, b := at.Content(), BehindInfo(at);
    var skip := TrailingDigits(c) - |NewEntry(p)|;
    if skip <= |b| {
      LongTail(NewEntry(p), b, skip);
      ConcatAssociative(c[..|c| - TrailingDigits(c)], NewEntry(p), b[..skip]);
    }
  }

  /** What such an insertion's content ends in. */
  lemma SwallowedBehindInfo(at: Place, p: Patch)
    requires at.Valid() && !p.clear && TrailingDigits(at.Content()) >= |NewEntry(p)|
    requires TrailingDigits(at.Content()) - |NewEntry(p)| <= |BehindInfo(at)|
    ensures var c, skip := at.Content(), TrailingDigits(at.Content()) - |NewEntry(p)|;
            && TrailingDigits(c) <= |TailOf(at, p)|
            && Swallowed(at, TailOf(at, p)) == c[..|c| - TrailingDigits(c)] + NewEntry(p) + BehindInfo(at)[..skip]
  {
    hide TrailingDigits, Rest, NewEntry;
    var c, b := at.Content(), BehindInfo(at);
    var skip := TrailingDigits(c) - |NewEntry(p)|;
    LongTail(NewEntry(p), b, skip);
    ConcatAssociative(c[..|c| - TrailingDigits(c)], NewEntry(p), b[..skip]);
  }

  lemma LongTail(r: Bytes, b: Bytes, skip: nat)
    requires skip <= |b|
    ensures (r + b)[..skip + |r|] == r + b[..skip] && (r + b)[skip + |r|..] == b[skip..]
  {
  }

  /** An insertion whose entry is no longer than the run of digits: nothing but the bytes behind info decide. */
  lemma {:induction false} LongRunInsertDecodesIff(tops: seq<Entry>, k: nat, p: Patch, limits: Limits)
    requires k < |tops| && tops[k].value.DictionaryValue? && !SafeToSplice(tops[k].value.entries, p)
    requires Judge(tops[k].value.entries, p) == Change && !p.clear && Decodable(DictionaryValue(tops), limits)
    requires TrailingDigits(PlaceOf(tops, k, p).Content()) >= |NewEntry(p)|
    ensures var at := PlaceOf(tops, k, p);
            Decode(SplicedTorrent(tops, k, p), limits).Parsed? <==>
              || TrailingDigits(at.Content()) == |NewEntry(p)|
              || exists inner, outer :: GoesOnBehindInfo(at, p, inner, outer, limits)
  {
    hide Judge, SplicedTorrent, Decodable, Decode, SafeToSplice, GoesOn, GoesOnBehindInfo, NewEntry, TrailingDigits,
         TailOf;
    UnsafeSpliceDecodesIff(tops, k, p, limits);
    var at := PlaceOf(tops, k, p);
    if TrailingDigits(at.Content()) == |NewEntry(p)| { InsertCanVanish(tops, k, p, limits); }
    forall inner, outer
      ensures GoesOn(at, TailOf(at, p), inner, outer, limits) <==>
              GoesOnBehindInfo(at, p, inner, outer, limits)
    {
      LongTailGoesOn(at, p, inner, outer, limits);
    }
  }

  // ----- inserting `private` ------------------------------------------------------------------------------------

  /** Printed and ended entries start with the end mark or with the length of a key. */
  lemma EntriesStart(s: Bytes, at: nat, entries: seq<Entry>)
    requires HoldsAt(s, at, PrintEntries(entries) + [END_MARK])
    ensures s[at] == END_MARK <==> entries == []
    ensures entries != [] ==>
              && HoldsAt(s, at, Decimal(|entries[0].key|) + [COLON])
              && IsDigit(s[at]) && (IsDigit(s[at + 1]) || s[at + 1] == COLON)
  {
    hide Print, Decimal;
    if entries == [] {
      assert PrintEntries(entries) + [END_MARK] == [END_MARK];
      HoldsAtByte(s, at, [END_MARK], 0);
    } else {
      var key := entries[0].key;
      FirstEntry(s, at, entries, [END_MARK]);
      HoldsAtSplit(s, at, Decimal(|key|) + [COLON], key);
      LengthRun(s, at, |key|);
      DecimalIsCanonical(|key|);
      HoldsAtByte(s, at, Decimal(|key|) + [COLON], 1);
    }
  }

  /** "7:privatei0e" or "7:privatei1e" */
  lemma PrivatePrint(value: int)
    requires 0 <= value <= 1
    ensures PrintEntry(Entry(IdentityKey(Private), IntegerValue(value)))
         == [0x37, COLON, 0x70, 0x72, 0x69, 0x76, 0x61, 0x74, 0x65, INTEGER_MARK, 0x30 + value, END_MARK]
  {
    var key := IdentityKey(Private);
    assert key == [0x70, 0x72, 0x69, 0x76, 0x61, 0x74, 0x65];
    assert Decimal(|key|) == [0x37] && Decimal(value) == [0x30 + value];
  }

  /** The rest of a torrent is two dictionaries' ends. */
  lemma RestHolds(inner: seq<Entry>, outer: seq<Entry>)
    ensures HoldsAt(Rest(inner, outer), 0, PrintEntries(inner) + [END_MARK])
    ensures HoldsAt(Rest(inner, outer), |PrintEntries(inner)| + 1, PrintEntries(outer) + [END_MARK])
    ensures inner == [] ==> PrintEntries(inner) == []
  {
    var a, b := PrintEntries(inner) + [END_MARK], PrintEntries(outer) + [END_MARK];
    assert Rest(inner, outer) == a + b;
    HeldFront(a, b);
    assert (a + b)[|a|..|a| + |b|] == b;
  }

  /** Bytes no torrent goes on with: fewer than twelve of "7:privatei0e" and the end of info were swallowed. */
  predicate Stops(x: Bytes, t: nat) {
    && t < 12 && |x| > 2
    && (t < 8 || t == 9 ==> !IsDigit(x[0]) && x[0] != END_MARK)
    && (t == 8 ==> x[0] == END_MARK && x[1] == INTEGER_MARK)
    && (t == 10 ==> IsDigit(x[0]) && x[1] == END_MARK)
    && (t == 11 ==> x[0] == END_MARK && x[1] == END_MARK)
  }

  lemma BehindPrivate(value: int, behind: Bytes, t: nat)
    requires 0 <= value <= 1 && 0 < t < 12 && |behind| > 1 && behind[0] == END_MARK
    ensures var r := PrintEntry(Entry(IdentityKey(Private), IntegerValue(value)));
            |r| == 12 && Stops((r + behind)[t..], t)
  {
    hide PrintEntry, IdentityKey;
    PrivatePrint(value);
    var r := PrintEntry(Entry(IdentityKey(Private), IntegerValue(value)));
    var tail := r + behind;
    assert tail[t..][0] == tail[t] && tail[t..][1] == tail[t + 1];
    assert tail[t] == r[t];
    if t < 11 { assert tail[t + 1] == r[t + 1]; } else { assert tail[t + 1] == behind[0]; }
  }

  lemma RestNeverStops(t: nat, inner: seq<Entry>, outer: seq<Entry>)
    ensures !Stops(Rest(inner, outer), t)
  {
    hide PrintEntries, Decimal, HoldsAt;
    var x := Rest(inner, outer);
    RestHolds(inner, outer);
    EntriesStart(x, 0, inner);
    if inner == [] {
      EntriesStart(x, 1, outer);
      NothingPrinted();
    }
  }

  /** A run of digits shorter than "7:privatei0e" leaves a part of it that no torrent goes on with. */
  lemma ShortPrivateTailStops(at: Place, p: Patch, inner: seq<Entry>, outer: seq<Entry>, limits: Limits)
    requires at.Valid() && p.field == Private && !p.clear && 0 < TrailingDigits(at.Content()) < 12
    ensures !GoesOn(at, TailOf(at, p), inner, outer, limits)
  {
    hide Print, PrintEntry, PrintEntries, Decodable, TrailingDigits, Stops;
    var t := TrailingDigits(at.Content());
    NothingPrinted();
    BehindPrivate(if p.privateValue then 1 else 0, BehindInfo(at), t);
    RestNeverStops(t, inner, outer);
  }

  /**
    When an unsafe insertion of `private` decodes: with fewer than twelve digits before it never, with twelve
    always, and with more exactly when the torrent goes on so many bytes behind the end of info.
  */
  lemma {:induction false} UnsafePrivateInsertDecodesIff(tops: seq<Entry>, k: nat, p: Patch, limits: Limits)
    requires k < |tops| && tops[k].value.DictionaryValue? && !SafeToSplice(tops[k].value.entries, p)
    requires Judge(tops[k].value.entries, p) == Change && Decodable(DictionaryValue(tops), limits)
    requires p.field == Private && !p.clear
    ensures var at := PlaceOf(tops, k, p);
            var t := TrailingDigits(at.Content());
            && |NewEntry(p)| == 12
            && (Decode(SplicedTorrent(tops, k, p), limits).Parsed? <==>
                  || t == 12
                  || (t > 12 && exists inner, outer :: GoesOnBehindInfo(at, p, inner, outer, limits)))
  {
    hide Judge, SplicedTorrent, Decodable, Decode, SafeToSplice, GoesOn, GoesOnBehindInfo, TrailingDigits, TailOf,
         PrintEntry;
    var at := PlaceOf(tops, k, p);
    PrivatePrint(if p.privateValue then 1 else 0);
    if TrailingDigits(at.Content()) >= 12 {
      LongRunInsertDecodesIff(tops, k, p, limits);
    } else {
      UnsafeSpliceDecodesIff(tops, k, p, limits);
      forall inner, outer ensures !GoesOn(at, TailOf(at, p), inner, outer, limits) {
        ShortPrivateTailStops(at, p, inner, outer, limits);
      }
    }
  }

  /** When info is the last top-level key, twelve digits are the only way. */
  lemma {:induction false} LastInfoPrivateInsertDecodesIff(tops: seq<Entry>, k: nat, p: Patch, limits: Limits)
    requires k + 1 == |tops| && tops[k].value.DictionaryValue? && !SafeToSplice(tops[k].value.entries, p)
    requires Judge(tops[k].value.entries, p) == Change && Decodable(DictionaryValue(tops), limits)
    requires p.field == Private && !p.clear
    ensures Decode(SplicedTorrent(tops, k, p), limits).Parsed? <==>
              TrailingDigits(PlaceOf(tops, k, p).Content()) == 12
  {
    hide Judge, SplicedTorrent, Decodable, Decode, SafeToSplice, TrailingDigits, NewEntry, PrintEntries;
    UnsafePrivateInsertDecodesIff(tops, k, p, limits);
    var at := PlaceOf(tops, k, p);
    NothingPrinted();
    assert tops[k + 1..] == [];
    if TrailingDigits(at.Content()) > 12 {
      forall inner, outer ensures !GoesOnBehindInfo(at, p, inner, outer, limits) {
        assert |BehindInfo(at)| == 2 <= |Rest(inner, outer)|;
      }
    }
  }

  // ----- clearing ---------------------------------------------------------------------------------------------

  /** The torrent with its entries from the place up to the m-th gone, all but the first into the content. */
  function Swallowing(at: Place, m: nat): Value
    requires at.Valid() && at.i < m <= |at.Info()|
  {
    var c := at.Content();
    at.Resumed(c[..|c| - TrailingDigits(c)] + PrintEntries(at.Info()[at.i + 1..m]), at.Info()[m..], at.tops[at.k + 1..])
  }

  /**
    Clearing is silently wrong when the digits before the entry are as many as the entries behind it print:
    they go too, and their bytes are what the string before now ends in.
  */
  lemma {:induction false} ClearCanSwallow(tops: seq<Entry>, k: nat, p: Patch, m: nat, limits: Limits)
    requires k < |tops| && tops[k].value.DictionaryValue? && !SafeToSplice(tops[k].value.entries, p)
    requires Judge(tops[k].value.entries, p) == Change && p.clear && Decodable(DictionaryValue(tops), limits)
    requires var at := PlaceOf(tops, k, p);
             && at.i < m <= |at.Info()|
             && TrailingDigits(at.Content()) == |PrintEntries(at.Info()[at.i + 1..m])|
    ensures DecodesTo(SplicedTorrent(tops, k, p), Swallowing(PlaceOf(tops, k, p), m), limits)
  {
    hide Judge, SplicedTorrent, Decodable, Decode, DecodesTo, SafeToSplice, Print, PrintEntries, TrailingDigits;
    UnsafeSpliceDecodesIff(tops, k, p, limits);
    var at := PlaceOf(tops, k, p);
    var c, behind, outer := at.Content(), at.Info()[at.i + 1..], tops[k + 1..];
    var swallowed := PrintEntries(at.Info()[at.i + 1..m]);
    EntriesSplit(behind, m - at.i - 1);
    assert behind[..m - at.i - 1] == at.Info()[at.i + 1..m] && behind[m - at.i - 1..] == at.Info()[m..];
    RestOf(swallowed, PrintEntries(at.Info()[m..]), PrintEntries(outer));
    FrontAndRest(swallowed, Rest(at.Info()[m..], outer));
    ShorterIsDecodable(at, c[..|c| - TrailingDigits(c)] + swallowed, m, limits);
    assert GoesOn(at, TailOf(at, p), at.Info()[m..], outer, limits);
  }
}
