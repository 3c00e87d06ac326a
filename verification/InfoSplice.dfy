/**
  splice_info_identity: setting, inserting or removing one key of the info dictionary by cutting
  the torrent's bytes instead of printing it again.

  Two things go wrong. The cut of an insertion starts where the new entry belongs but always ends at the
  end of the dictionary, so the entries with greater keys go. And the start of a printed key is searched by
  walking back over digits (`encoded_key_start`), which walks too far exactly when the value before the key
  is a byte string whose content ends in an ASCII digit. Replacing a value is never affected.
*/
module InfoSplice {
  import opened ByteStrings
  import opened Bencode
  import opened BencodeParser
  import opened Wrappers
  import Utf8

  datatype Field = Private | Name | Source

  datatype Patch = Patch(field: Field, privateValue: bool, value: Bytes, clear: bool)

  datatype Outcome = Failed | NoChange | Spliced(bytes: Bytes)

  function IdentityKey(field: Field): Bytes {
    match field
    case Private => Ascii("private")
    case Name => Ascii("name")
    case Source => Ascii("source")
  }

  /** The value `encode_identity_key_value` prints. */
  function IdentityValue(p: Patch): Value {
    if p.field == Private then IntegerValue(if p.privateValue then 1 else 0) else StringValue(p.value)
  }

  // ----- the intended edit ---------------------------------------------------------------------

  predicate SortedKeys(entries: seq<Entry>) {
    forall i :: 0 < i < |entries| ==> !Less(entries[i].key, entries[i - 1].key)
  }

  /** The index of `key`, or the number of entries when it is absent. */
  function FindKey(entries: seq<Entry>, key: Bytes, from: nat := 0): (i: nat)
    requires from <= |entries|
    ensures from <= i <= |entries| && (i < |entries| ==> entries[i].key == key)
    ensures forall k :: from <= k < i ==> entries[k].key != key
    decreases |entries| - from
  {
    if from == |entries| || entries[from].key == key then from else FindKey(entries, key, from + 1)
  }

  /** The first entry whose key is greater, or the number of entries. */
  function InsertIndex(entries: seq<Entry>, key: Bytes, from: nat := 0): (i: nat)
    requires from <= |entries|
    ensures from <= i <= |entries| && (i < |entries| ==> Less(key, entries[i].key))
    ensures forall k :: from <= k < i ==> !Less(key, entries[k].key)
    decreases |entries| - from
  {
    if from == |entries| || Less(key, entries[from].key) then from else InsertIndex(entries, key, from + 1)
  }

  function Edited(entries: seq<Entry>, p: Patch): seq<Entry> {
    var key := IdentityKey(p.field);
    var i := FindKey(entries, key);
    if i < |entries| then
      if p.clear then entries[..i] + entries[i + 1..] else entries[i := Entry(key, IdentityValue(p))]
    else
      var j := InsertIndex(entries, key);
      entries[..j] + [Entry(key, IdentityValue(p))] + entries[j..]
  }

  /**
    What the program makes of the entries when it finds their starts: an insertion loses all entries behind
    the new one.
  */
  function Rewritten(entries: seq<Entry>, p: Patch): seq<Entry> {
    var key := IdentityKey(p.field);
    if FindKey(entries, key) < |entries| then Edited(entries, p)
    else entries[..InsertIndex(entries, key)] + [Entry(key, IdentityValue(p))]
  }

  datatype Verdict = Refuse | Keep | Change

  /** The checks before the cut, in the order of the program. */
  function Judge(entries: seq<Entry>, p: Patch): Verdict {
    var i := FindKey(entries, IdentityKey(p.field));
    var present := i < |entries|;
    if !SortedKeys(entries) then Refuse
    else if p.field == Private && present
            && !(entries[i].value.IntegerValue? && 0 <= entries[i].value.integer <= 1) then Refuse
    else if p.field == Private && present && (entries[i].value.integer == 1) == p.privateValue then Keep
    else if p.field != Private && !p.clear && !Utf8.WellFormed(p.value) then Refuse
    else if p.field == Name && (p.clear || p.value == []) then Refuse
    else if p.field != Private && present && !entries[i].value.StringValue? then Refuse
    else if p.field != Private && present && !p.clear && entries[i].value.content == p.value then Keep
    else if !present && p.clear then Keep
    else if !present && p.field == Name then Refuse
    else Change
  }

  /** What the dictionary holds under the key of the patch. */
  function HeldValue(entries: seq<Entry>, p: Patch): Option<Value> {
    var i := FindKey(entries, match p.field
                              case Name => Ascii("name")
                              case Private => Ascii("private")
                              case Source => Ascii("source"));
    if i < |entries| then Some(entries[i].value) else None
  }

  /** What a request must not be, key by key. */
  predicate Refused(entries: seq<Entry>, p: Patch) {
    var held := HeldValue(entries, p);
    || (exists i :: 0 < i < |entries| && Less(entries[i].key, entries[i - 1].key))
    || match p.field
       case Private => held.Some? && held.value != IntegerValue(0) && held.value != IntegerValue(1)
       case Name => p.clear || p.value == [] || !Utf8.WellFormed(p.value) || held == None || !held.value.StringValue?
       case Source => (!p.clear && !Utf8.WellFormed(p.value)) || (held.Some? && !held.value.StringValue?)
  }

  /** What answers a request without a change: the value asked for, or nothing to clear. */
  predicate AlreadySo(entries: seq<Entry>, p: Patch) {
    var held := HeldValue(entries, p);
    if held.Some? then (p.clear ==> p.field == Private) && held.value == IdentityValue(p) else p.clear
  }

  /** The checks refuse, keep and change exactly the requests described above. */
  lemma JudgeDecides(entries: seq<Entry>, p: Patch)
    ensures Judge(entries, p) == Refuse <==> Refused(entries, p)
    ensures Judge(entries, p) == Keep <==> !Refused(entries, p) && AlreadySo(entries, p)
    ensures Judge(entries, p) == Change <==> !Refused(entries, p) && !AlreadySo(entries, p)
    ensures Judge(entries, p) != Refuse ==> SortedKeys(entries)
  {
    hide Less, Utf8.WellFormed;
  }

  // ----- what the program cuts ------------------------------------------------------------------

  function DigitsBack(s: Bytes, position: nat): (start: nat)
    requires position <= |s|
    ensures start <= position
  {
    if position > 0 && IsDigit(s[position - 1]) then DigitsBack(s, position - 1) else position
  }

  /** encoded_key_start */
  function KeyStart(s: Bytes, key: Span): (start: nat)
    ensures start <= key.offset
  {
    if key.offset == 0 || key.offset > |s| || s[key.offset - 1] != COLON then key.offset
    else DigitsBack(s, key.offset - 1)
  }

  /** Where the i-th entry of a dictionary printed at `at` begins. */
  function EntryStart(entries: seq<Entry>, at: nat, i: nat): nat
    requires i <= |entries|
  {
    at + 1 + |PrintEntries(entries[..i])|
  }

  predicate EndsInDigit(v: Value) {
    v.StringValue? && v.content != [] && IsDigit(v.content[|v.content| - 1])
  }

  /** The entry whose start the program looks for; none when it replaces a value or appends. */
  function SearchedEntry(entries: seq<Entry>, p: Patch): (i: Option<nat>)
    ensures i.Some? ==> i.value < |entries|
  {
    var key := IdentityKey(p.field);
    var i := FindKey(entries, key);
    var j := InsertIndex(entries, key);
    if i < |entries| then (if p.clear then Some(i) else None)
    else if j < |entries| then Some(j) else None
  }

  /**
    When the program does what was asked: it replaces a value, or removes an entry whose start it finds, or
    inserts one behind all others.
  */
  predicate AsIntended(entries: seq<Entry>, p: Patch) {
    var key := IdentityKey(p.field);
    if FindKey(entries, key) < |entries| then p.clear ==> SafeToSplice(entries, p)
    else InsertIndex(entries, key) == |entries|
  }

  /** No searched entry, or one that does not follow a byte string ending in a digit. */
  predicate SafeToSplice(entries: seq<Entry>, p: Patch) {
    var i := SearchedEntry(entries, p);
    i.Some? && i.value > 0 ==> !EndsInDigit(entries[i.value - 1].value)
  }

  /** `s` with the bytes from `start` up to `end` replaced. */
  function Cut(s: Bytes, start: nat, end: nat, replacement: Bytes): Bytes {
    if start <= end <= |s| then s[..start] + replacement + s[end..] else s
  }

  ghost predicate DictionaryAt(s: Bytes, at: nat, entries: seq<Entry>) {
    HoldsAt(s, at, Print(DictionaryValue(entries)))
  }

  lemma EntriesSplit(entries: seq<Entry>, i: nat)
    requires i <= |entries|
    ensures PrintEntries(entries) == PrintEntries(entries[..i]) + PrintEntries(entries[i..])
  {
    hide PrintEntries;
    assert entries[..i] + entries[i..] == entries;
    PrintEntriesAppend(entries[..i], entries[i..]);
  }

  lemma EntryStartNext(entries: seq<Entry>, at: nat, i: nat)
    requires i < |entries|
    ensures EntryStart(entries, at, i + 1) == EntryStart(entries, at, i) + |PrintEntry(entries[i])|
  {
    var e := entries[i];
    assert entries[..i + 1] == entries[..i] + [e] && PrintEntries([e]) == PrintEntry(e) + PrintEntries([]);
    PrintEntriesAppend(entries[..i], [e]);
  }

  lemma PrintEntriesOne(e: Entry)
    ensures PrintEntries([e]) == PrintEntry(e)
  {
    assert PrintEntries([e]) == PrintEntry(e) + PrintEntries([e][1..]);
  }

  /** The parts of a printed dictionary around its i-th entry. */
  lemma EntryLayout(s: Bytes, at: nat, entries: seq<Entry>, i: nat)
    requires DictionaryAt(s, at, entries) && i < |entries|
    ensures var e, start := entries[i], EntryStart(entries, at, i);
            && at < start && HoldsAt(s, start, PrintEntry(e))
            && HoldsAt(s, start, PrintString(e.key))
            && HoldsAt(s, start + |PrintString(e.key)|, Print(e.value))
            && |PrintEntry(e)| == |PrintString(e.key)| + |Print(e.value)|
            && start + |PrintEntry(e)| == EntryStart(entries, at, i + 1) < |s|
    ensures LocateEntries(entries, at + 1)[i] == LocateEntry(entries[i], EntryStart(entries, at, i))
  {
    hide PrintString, Locate, LocateEntry, LocateEntries, KeySpan, Decimal;
    var e, start := entries[i], EntryStart(entries, at, i);
    DictionaryBody(s, at, entries);
    EntriesSplit(entries, i);
    HoldsAtSplit(s, at + 1, PrintEntries(entries[..i]), PrintEntries(entries[i..]));
    HoldsAtSplit(s, start, PrintEntry(e), PrintEntries(entries[i..][1..]));
    HoldsAtSplit(s, start, PrintString(e.key), Print(e.value));
    EntryStartNext(entries, at, i);
    LocateEntriesAt(entries, at + 1, i);
  }

  lemma DictionaryBody(s: Bytes, at: nat, entries: seq<Entry>)
    ensures DictionaryAt(s, at, entries) <==>
              && at + 1 + |PrintEntries(entries)| < |s| && s[at] == DICTIONARY_MARK
              && HoldsAt(s, at + 1, PrintEntries(entries)) && s[at + 1 + |PrintEntries(entries)|] == END_MARK
    ensures |Print(DictionaryValue(entries))| == |PrintEntries(entries)| + 2
  {
    hide PrintEntries;
    ContainerLayout(s, at, DICTIONARY_MARK, PrintEntries(entries));
  }

  lemma LastByteIsDigit(v: Value)
    ensures IsDigit(Print(v)[|Print(v)| - 1]) <==> EndsInDigit(v)
  {
    match v
    case IntegerValue(_) =>
    case StringValue(content) =>
      if content == [] { assert Print(v)[|Print(v)| - 1] == COLON; }
    case ListValue(_) =>
    case DictionaryValue(_) =>
  }

  lemma KeyStartFromEntry(s: Bytes, start: nat, key: Bytes)
    requires HoldsAt(s, start, PrintString(key))
    ensures KeyStart(s, KeySpan(key, start)) == DigitsBack(s, start)
  {
    hide Decimal;
    var d := Decimal(|key|);
    HoldsAtSplit(s, start, d + [COLON], key);
    HoldsAtSplit(s, start, d, [COLON]);
    HoldsAtByte(s, start + |d|, [COLON], 0);
    DecimalIsCanonical(|key|);
    DigitsBackOver(s, start, d);
  }

  /** encoded_key_start finds the start of an entry iff no digit stands before it. */
  lemma KeyStartIsEntryStart(s: Bytes, at: nat, entries: seq<Entry>, i: nat)
    requires DictionaryAt(s, at, entries) && i < |entries|
    ensures var start := EntryStart(entries, at, i);
            var found := KeyStart(s, KeySpan(entries[i].key, start));
            && found <= start < |s|
            && (found == start <==> !(i > 0 && EndsInDigit(entries[i - 1].value)))
            && forall k :: found <= k < start ==> IsDigit(s[k])
  {
    hide Print, PrintString, PrintEntry, PrintEntries, KeySpan, KeyStart, Locate, EndsInDigit;
    var start := EntryStart(entries, at, i);
    EntryLayout(s, at, entries, i);
    KeyStartFromEntry(s, start, entries[i].key);
    DigitsBackRun(s, start);
    if i == 0 {
      DictionaryBody(s, at, entries);
      assert entries[..0] == [];
      EntryStartZero(entries, at);
    } else {
      EntryLayout(s, at, entries, i - 1);
      var v := entries[i - 1].value;
      HoldsAtByte(s, start - |Print(v)|, Print(v), |Print(v)| - 1);
      LastByteIsDigit(v);
    }
  }

  lemma EntryStartZero(entries: seq<Entry>, at: nat)
    ensures EntryStart(entries, at, 0) == at + 1
  {
    assert entries[..0] == [];
  }

  lemma {:induction false} DigitsBackOver(s: Bytes, start: nat, d: Bytes)
    requires HoldsAt(s, start, d) && AllDigits(d)
    ensures DigitsBack(s, start + |d|) == DigitsBack(s, start)
    decreases |d|
  {
    if d != [] {
      HoldsAtByte(s, start, d, |d| - 1);
      assert d == d[..|d| - 1] + [d[|d| - 1]];
      HoldsAtSplit(s, start, d[..|d| - 1], [d[|d| - 1]]);
      DigitsBackOver(s, start, d[..|d| - 1]);
    }
  }

  lemma {:induction false} DigitsBackRun(s: Bytes, position: nat)
    requires position <= |s|
    ensures DigitsBack(s, position) == position <==> !(position > 0 && IsDigit(s[position - 1]))
    ensures forall k :: DigitsBack(s, position) <= k < position ==> IsDigit(s[k])
  {
    if position > 0 && IsDigit(s[position - 1]) {
      DigitsBackRun(s, position - 1);
    }
  }

  /** The bytes the program returns for a dictionary printed at `at` when the verdict is Change. */
  function SplicedBytes(s: Bytes, at: nat, entries: seq<Entry>, p: Patch): Bytes
    requires DictionaryAt(s, at, entries)
  {
    var key := IdentityKey(p.field);
    var i := FindKey(entries, key);
    var j := InsertIndex(entries, key);
    if i < |entries| then
      EntryLayout(s, at, entries, i);
      KeyStartIsEntryStart(s, at, entries, i);
      var start := EntryStart(entries, at, i);
      var end := start + |PrintEntry(entries[i])|;
      if p.clear then Cut(s, KeyStart(s, KeySpan(key, start)), end, [])
      else Cut(s, start + |PrintString(key)|, end, Print(IdentityValue(p)))
    else
      var end := at + |Print(DictionaryValue(entries))| - 1;
      var start := if j < |entries| then KeyStart(s, KeySpan(entries[j].key, EntryStart(entries, at, j))) else end;
      Cut(s, start, end, PrintEntry(Entry(key, IdentityValue(p))))
  }

  function SpliceOutcome(s: Bytes, at: nat, info: Value, p: Patch): Outcome
    requires HoldsAt(s, at, Print(info))
  {
    if !info.DictionaryValue? then Failed
    else match Judge(info.entries, p)
      case Refuse => Failed
      case Keep => NoChange
      case Change => Spliced(SplicedBytes(s, at, info.entries, p))
  }

  /** When a splice fails, when it answers no change, and that only sorted dictionaries are cut. */
  lemma {:induction false} SpliceOutcomeIff(s: Bytes, at: nat, info: Value, p: Patch)
    requires HoldsAt(s, at, Print(info))
    ensures var r := SpliceOutcome(s, at, info, p);
            && (r == Failed <==> !info.DictionaryValue? || Refused(info.entries, p))
            && (r == NoChange <==> r != Failed && AlreadySo(info.entries, p))
            && (r.Spliced? ==> SortedKeys(info.entries))
  {
    hide Judge, Refused, AlreadySo, SplicedBytes, SortedKeys, Print;
    if info.DictionaryValue? { JudgeDecides(info.entries, p); }
  }

  // ----- the cut is the edit ----------------------------------------------------------------------

  /** `s` with the dictionary printed at `at` replaced by the print of other entries. */
  function Reprinted(s: Bytes, at: nat, entries: seq<Entry>, edited: seq<Entry>): Bytes
    requires DictionaryAt(s, at, entries)
  {
    Cut(s, at, at + |Print(DictionaryValue(entries))|, Print(DictionaryValue(edited)))
  }

  /** Reprinting after replacing the entries from `i` up to `j` is one cut between their starts. */
  lemma ReprintIsCut(s: Bytes, at: nat, entries: seq<Entry>, i: nat, j: nat, middle: seq<Entry>)
    requires DictionaryAt(s, at, entries) && i <= j <= |entries|
    ensures EntryStart(entries, at, i) <= EntryStart(entries, at, j) <= |s|
    ensures Reprinted(s, at, entries, entries[..i] + middle + entries[j..])
         == Cut(s, EntryStart(entries, at, i), EntryStart(entries, at, j), PrintEntries(middle))
  {
    hide *;
    var x, y, z := PrintEntries(entries[..i]), PrintEntries(entries[i..j]), PrintEntries(entries[j..]);
    BodySplits(entries, i, j);
    StartsOfBody(s, at, entries, i, j);
    BodyOfEdit(entries, i, j, middle);
    PrintOfDictionary(entries);
    PrintOfDictionary(entries[..i] + middle + entries[j..]);
    BodyFits(s, at, x, y, z);
    CutAssembles(s, at, x, y, z, PrintEntries(middle));
  }

  lemma BodySplits(entries: seq<Entry>, i: nat, j: nat)
    requires i <= j <= |entries|
    ensures PrintEntries(entries[..j]) == PrintEntries(entries[..i]) + PrintEntries(entries[i..j])
    ensures PrintEntries(entries)
         == PrintEntries(entries[..i]) + PrintEntries(entries[i..j]) + PrintEntries(entries[j..])
  {
    hide PrintEntries;
    EntriesSplit(entries, j);
    EntriesSplit(entries[..j], i);
    assert entries[..j][..i] == entries[..i] && entries[..j][i..] == entries[i..j];
  }

  lemma BodyOfEdit(entries: seq<Entry>, i: nat, j: nat, middle: seq<Entry>)
    requires i <= j <= |entries|
    ensures PrintEntries(entries[..i] + middle + entries[j..])
         == PrintEntries(entries[..i]) + PrintEntries(middle) + PrintEntries(entries[j..])
  {
    hide PrintEntries;
    PrintEntriesAppend(entries[..i] + middle, entries[j..]);
    PrintEntriesAppend(entries[..i], middle);
  }

  lemma StartsOfBody(s: Bytes, at: nat, entries: seq<Entry>, i: nat, j: nat)
    requires DictionaryAt(s, at, entries) && i <= j <= |entries|
    ensures HoldsAt(s, at, Print(DictionaryValue(entries)))
    ensures EntryStart(entries, at, i) == at + 1 + |PrintEntries(entries[..i])|
    ensures EntryStart(entries, at, j) == at + 1 + |PrintEntries(entries[..j])|
    ensures forall edited :: Reprinted(s, at, entries, edited)
              == Cut(s, at, at + |Print(DictionaryValue(entries))|, Print(DictionaryValue(edited)))
  {
    hide Print, PrintEntries, Cut;
  }

  lemma BodyFits(s: Bytes, at: nat, x: Bytes, y: Bytes, z: Bytes)
    requires HoldsAt(s, at, [DICTIONARY_MARK] + (x + y + z) + [END_MARK])
    ensures at + 1 + |x| <= at + 1 + |x + y| <= at + |x + y + z| + 2 <= |s|
  {
  }

  lemma PrintOfDictionary(entries: seq<Entry>)
    ensures Print(DictionaryValue(entries)) == [DICTIONARY_MARK] + PrintEntries(entries) + [END_MARK]
  {
  }

  lemma CutAssembles(s: Bytes, at: nat, x: Bytes, y: Bytes, z: Bytes, m: Bytes)
    requires HoldsAt(s, at, [DICTIONARY_MARK] + (x + y + z) + [END_MARK])
    ensures Cut(s, at, at + |x + y + z| + 2, [DICTIONARY_MARK] + (x + m + z) + [END_MARK])
         == Cut(s, at + 1 + |x|, at + 1 + |x + y|, m)
  {
    hide *;
    var whole := [DICTIONARY_MARK] + (x + y + z) + [END_MARK];
    BodyFits(s, at, x, y, z);
    PartsOfWhole(x, y, z);
    AroundPart(s, at, whole, 1 + |x|);
    AroundPart(s, at, whole, 1 + |x + y|);
    JoinParts(s[..at], [DICTIONARY_MARK], x, m, z, [END_MARK], s[at + |whole|..]);
    CutWithin(s, at, at + |x + y + z| + 2, [DICTIONARY_MARK] + (x + m + z) + [END_MARK]);
    CutWithin(s, at + 1 + |x|, at + 1 + |x + y|, m);
  }

  lemma CutWithin(s: Bytes, start: nat, end: nat, replacement: Bytes)
    requires start <= end <= |s|
    ensures Cut(s, start, end, replacement) == s[..start] + replacement + s[end..]
  {
  }

  lemma PartsOfWhole(x: Bytes, y: Bytes, z: Bytes)
    ensures var whole := [DICTIONARY_MARK] + (x + y + z) + [END_MARK];
            whole[..1 + |x|] == [DICTIONARY_MARK] + x && whole[1 + |x + y|..] == z + [END_MARK]
  {
  }

  lemma JoinParts(before: Bytes, mark: Bytes, x: Bytes, m: Bytes, z: Bytes, end: Bytes, after: Bytes)
    ensures before + (mark + (x + m + z) + end) + after == before + (mark + x) + m + (z + end + after)
  {
    var joined := mark + (x + m + z) + end;
    assert joined == (mark + x) + m + (z + end);
    assert before + joined + after == before + (mark + x) + m + (z + end) + after;
    ConcatAssociative(before + (mark + x) + m, z + end, after);
  }

  lemma AroundPart(s: Bytes, at: nat, part: Bytes, k: nat)
    requires HoldsAt(s, at, part) && k <= |part|
    ensures s[..at + k] == s[..at] + part[..k] && s[at + k..] == part[k..] + s[at + |part|..]
  {
    assert s == s[..at] + part + s[at + |part|..];
  }

  lemma ReprintedClear(s: Bytes, at: nat, entries: seq<Entry>, p: Patch, i: nat)
    requires DictionaryAt(s, at, entries) && p.clear && i == FindKey(entries, IdentityKey(p.field)) < |entries|
    ensures Reprinted(s, at, entries, Edited(entries, p))
         == Cut(s, EntryStart(entries, at, i), EntryStart(entries, at, i + 1), [])
  {
    hide Print, PrintEntry, Cut, EntryStart, Reprinted, FindKey, InsertIndex, IdentityKey, IdentityValue;
    assert Edited(entries, p) == entries[..i] + [] + entries[i + 1..];
    ReprintIsCut(s, at, entries, i, i + 1, []);
  }

  lemma ReprintedReplace(s: Bytes, at: nat, entries: seq<Entry>, p: Patch, i: nat)
    requires DictionaryAt(s, at, entries) && !p.clear && i == FindKey(entries, IdentityKey(p.field)) < |entries|
    ensures Reprinted(s, at, entries, Edited(entries, p))
         == Cut(s, EntryStart(entries, at, i), EntryStart(entries, at, i + 1),
                PrintString(IdentityKey(p.field)) + Print(IdentityValue(p)))
  {
    hide Print, PrintString, PrintEntries, Cut, EntryStart, Reprinted, FindKey, InsertIndex, IdentityKey, IdentityValue;
    var e := Entry(IdentityKey(p.field), IdentityValue(p));
    assert Edited(entries, p) == entries[..i] + [e] + entries[i + 1..];
    PrintEntriesOne(e);
    ReprintIsCut(s, at, entries, i, i + 1, [e]);
  }

  /** Reprinting with a new entry before the j-th, and with the entries from there on dropped. */
  lemma ReprintedInsert(s: Bytes, at: nat, entries: seq<Entry>, p: Patch, j: nat)
    requires DictionaryAt(s, at, entries) && FindKey(entries, IdentityKey(p.field)) == |entries|
    requires j == InsertIndex(entries, IdentityKey(p.field))
    ensures var r := PrintString(IdentityKey(p.field)) + Print(IdentityValue(p));
            && Reprinted(s, at, entries, Edited(entries, p))
               == Cut(s, EntryStart(entries, at, j), EntryStart(entries, at, j), r)
            && Reprinted(s, at, entries, Rewritten(entries, p))
               == Cut(s, EntryStart(entries, at, j), EntryStart(entries, at, |entries|), r)
  {
    hide Print, PrintString, PrintEntries, Cut, EntryStart, Reprinted, FindKey, InsertIndex, IdentityKey, IdentityValue;
    var e := Entry(IdentityKey(p.field), IdentityValue(p));
    PrintEntriesOne(e);
    ReprintIsCut(s, at, entries, j, j, [e]);
    ReprintIsCut(s, at, entries, j, |entries|, [e]);
    assert entries[..j] + [e] + entries[|entries|..] == entries[..j] + [e];
  }

  /** Where the entries end, there is the end mark. */
  lemma LastStart(s: Bytes, at: nat, entries: seq<Entry>)
    requires DictionaryAt(s, at, entries)
    ensures EntryStart(entries, at, |entries|) == at + |Print(DictionaryValue(entries))| - 1 < |s|
  {
    assert entries[..|entries|] == entries;
    DictionaryBody(s, at, entries);
  }

  /** Cutting later with a replacement that repeats the bytes left standing is the same cut. */
  lemma CutKeepsPrefix(s: Bytes, start: nat, end: nat, kept: Bytes, r: Bytes)
    requires HoldsAt(s, start, kept) && start + |kept| <= end <= |s|
    ensures Cut(s, start + |kept|, end, r) == Cut(s, start, end, kept + r)
  {
    assert s[..start + |kept|] == s[..start] + kept;
  }

  /** Cutting from further back loses bytes. */
  lemma EarlierCutIsShorter(s: Bytes, start: nat, found: nat, end: nat, r: Bytes)
    requires found <= start <= end <= |s|
    ensures Cut(s, found, end, r) == Cut(s, start, end, r) <==> found == start
  {
    assert |Cut(s, found, end, r)| == found + |r| + |s| - end;
    assert |Cut(s, start, end, r)| == start + |r| + |s| - end;
  }

  /** Cutting further loses bytes. */
  lemma LongerCutIsShorter(s: Bytes, start: nat, found: nat, end: nat, r: Bytes)
    requires found <= start <= end <= |s|
    ensures Cut(s, found, end, r) == Cut(s, start, start, r) <==> found == end
  {
    assert |Cut(s, found, end, r)| == found + |r| + |s| - end;
    assert |Cut(s, start, start, r)| == |r| + |s|;
  }

  /** Replacing a value always cuts exactly the edit. */
  lemma {:induction false} ReplaceIsExact(s: Bytes, at: nat, entries: seq<Entry>, p: Patch)
    requires DictionaryAt(s, at, entries) && !p.clear && FindKey(entries, IdentityKey(p.field)) < |entries|
    ensures SplicedBytes(s, at, entries, p) == Reprinted(s, at, entries, Edited(entries, p))
  {
    hide Print, PrintString, PrintEntry, EntryStart, Reprinted, Edited, FindKey, IdentityKey, IdentityValue, Cut,
         DictionaryAt, HoldsAt, IsDigit;
    var key := IdentityKey(p.field);
    var i := FindKey(entries, key);
    var start := EntryStart(entries, at, i);
    EntryLayout(s, at, entries, i);
    ReprintedReplace(s, at, entries, p, i);
    CutKeepsPrefix(s, start, EntryStart(entries, at, i + 1), PrintString(key), Print(IdentityValue(p)));
  }

  /** Removing an entry is exact iff it does not follow a byte string ending in a digit. */
  lemma {:induction false} ClearIsExactIffSafe(s: Bytes, at: nat, entries: seq<Entry>, p: Patch)
    requires DictionaryAt(s, at, entries) && p.clear && FindKey(entries, IdentityKey(p.field)) < |entries|
    ensures SplicedBytes(s, at, entries, p) == Reprinted(s, at, entries, Edited(entries, p))
       <==> SafeToSplice(entries, p)
  {
    hide Print, PrintEntry, EntryStart, Reprinted, Edited, FindKey, IdentityKey, Cut, KeyStart, KeySpan, EndsInDigit,
         DictionaryAt, HoldsAt, IsDigit;
    var i := FindKey(entries, IdentityKey(p.field));
    var start := EntryStart(entries, at, i);
    EntryLayout(s, at, entries, i);
    KeyStartIsEntryStart(s, at, entries, i);
    ReprintedClear(s, at, entries, p, i);
    EarlierCutIsShorter(s, start, KeyStart(s, KeySpan(entries[i].key, start)), EntryStart(entries, at, i + 1), []);
  }

  /**
    Inserting is exact iff no key is greater. It gives the entries up to the new one, and drops the others,
    iff it does not happen behind a byte string ending in a digit.
  */
  lemma {:induction false} InsertIsExactIffLast(s: Bytes, at: nat, entries: seq<Entry>, p: Patch)
    requires DictionaryAt(s, at, entries) && FindKey(entries, IdentityKey(p.field)) == |entries|
    ensures SplicedBytes(s, at, entries, p) == Reprinted(s, at, entries, Edited(entries, p))
       <==> InsertIndex(entries, IdentityKey(p.field)) == |entries|
    ensures SplicedBytes(s, at, entries, p) == Reprinted(s, at, entries, Rewritten(entries, p))
       <==> SafeToSplice(entries, p)
  {
    hide Print, PrintString, PrintEntries, Reprinted, Edited, Rewritten, FindKey, InsertIndex, IdentityKey,
         IdentityValue, Cut, KeyStart, KeySpan, EndsInDigit, DictionaryAt, HoldsAt, IsDigit, EntryStart;
    var key := IdentityKey(p.field);
    var j := InsertIndex(entries, key);
    var r := PrintString(key) + Print(IdentityValue(p));
    var end := EntryStart(entries, at, |entries|);
    ReprintedInsert(s, at, entries, p, j);
    LastStart(s, at, entries);
    if j < |entries| {
      var start := EntryStart(entries, at, j);
      KeyStartIsEntryStart(s, at, entries, j);
      var found := KeyStart(s, KeySpan(entries[j].key, start));
      StartsAscend(entries, at, j, |entries|);
      EarlierCutIsShorter(s, start, found, end, r);
      LongerCutIsShorter(s, start, found, end, r);
    }
  }

  lemma StartsAscend(entries: seq<Entry>, at: nat, i: nat, j: nat)
    requires i < j <= |entries|
    ensures EntryStart(entries, at, i) < EntryStart(entries, at, j)
  {
    assert entries[..j] == entries[..i] + ([entries[i]] + entries[i + 1..j]);
    PrintEntriesAppend(entries[..i], [entries[i]] + entries[i + 1..j]);
    PrintEntriesAppend([entries[i]], entries[i + 1..j]);
    PrintEntriesOne(entries[i]);
  }

  /** The splice returns the reprint of the edited dictionary exactly when it does what was asked. */
  lemma {:induction false} SpliceIsExactIff(s: Bytes, at: nat, entries: seq<Entry>, p: Patch)
    requires DictionaryAt(s, at, entries) && Judge(entries, p) == Change
    ensures SplicedBytes(s, at, entries, p) == Reprinted(s, at, entries, Edited(entries, p))
       <==> AsIntended(entries, p)
    ensures SplicedBytes(s, at, entries, p) == Reprinted(s, at, entries, Rewritten(entries, p))
       <==> SafeToSplice(entries, p)
  {
    if FindKey(entries, IdentityKey(p.field)) == |entries| {
      InsertIsExactIffLast(s, at, entries, p);
    } else if p.clear {
      ClearIsExactIffSafe(s, at, entries, p);
    } else {
      ReplaceIsExact(s, at, entries, p);
    }
  }

  // ----- whole torrents ---------------------------------------------------------------------------

  /** The top-level entries with the k-th value replaced by an edited info dictionary. */
  function WithInfo(tops: seq<Entry>, k: nat, edited: seq<Entry>): Value
    requires k < |tops|
  {
    DictionaryValue(tops[k := Entry(tops[k].key, DictionaryValue(edited))])
  }

  /** Where the value of the k-th top-level entry starts. */
  function InfoStart(tops: seq<Entry>, k: nat): nat
    requires k < |tops|
  {
    EntryStart(tops, 0, k) + |PrintString(tops[k].key)|
  }

  lemma InfoReprintsRoot(tops: seq<Entry>, k: nat, edited: seq<Entry>)
    requires k < |tops| && tops[k].value.DictionaryValue?
    ensures DictionaryAt(Print(DictionaryValue(tops)), InfoStart(tops, k), tops[k].value.entries)
    ensures Reprinted(Print(DictionaryValue(tops)), InfoStart(tops, k), tops[k].value.entries, edited)
         == Print(WithInfo(tops, k, edited))
  {
    hide Print, PrintString, PrintEntries, EntryStart, Cut;
    var s := Print(DictionaryValue(tops));
    var key, v := tops[k].key, DictionaryValue(edited);
    var e := Entry(key, v);
    var start, end := EntryStart(tops, 0, k), EntryStart(tops, 0, k + 1);
    assert s[0..|s|] == s;
    EntryLayout(s, 0, tops, k);
    ReprintIsCut(s, 0, tops, k, k + 1, [e]);
    assert tops[..k] + [e] + tops[k + 1..] == tops[k := e];
    PrintEntriesOne(e);
    CutKeepsPrefix(s, start, end, PrintString(key), Print(v));
    WholeCut(s, Print(WithInfo(tops, k, edited)));
  }

  lemma WholeCut(s: Bytes, t: Bytes)
    ensures Cut(s, 0, |s|, t) == t
  {
  }

  ghost predicate DecodesTo(s: Bytes, v: Value, limits: Limits) {
    Decode(s, limits).Parsed? && ValueOf(Decode(s, limits).value, s) == v
  }

  lemma OnlyPrintDecodesTo(s: Bytes, v: Value, limits: Limits)
    requires Decodable(v, limits)
    ensures DecodesTo(s, v, limits) <==> s == Print(v)
  {
    DecodeInvertsPrint(s, limits);
    PrintInvertsDecode(v, limits);
  }

  /** What the program returns for the info dictionary of a printed torrent. */
  function SplicedTorrent(tops: seq<Entry>, k: nat, p: Patch): Bytes
    requires k < |tops| && tops[k].value.DictionaryValue?
  {
    InfoReprintsRoot(tops, k, []);
    SplicedBytes(Print(DictionaryValue(tops)), InfoStart(tops, k), tops[k].value.entries, p)
  }

  /**
    For every torrent: the spliced bytes decode to the tree with exactly the one info key set,
    inserted in order or removed, iff a value was replaced, an entry removed whose start is found, or an
    entry inserted behind all others.
  */
  lemma {:induction false} SplicedTorrentDecodesIff(tops: seq<Entry>, k: nat, p: Patch, limits: Limits)
    requires k < |tops| && tops[k].value.DictionaryValue? && Judge(tops[k].value.entries, p) == Change
    requires Decodable(WithInfo(tops, k, Edited(tops[k].value.entries, p)), limits)
    ensures DecodesTo(SplicedTorrent(tops, k, p), WithInfo(tops, k, Edited(tops[k].value.entries, p)), limits)
       <==> AsIntended(tops[k].value.entries, p)
  {
    hide Decodable, DecodesTo, Judge, AsIntended, SplicedBytes, Edited, Print, Reprinted, WithInfo;
    var entries := tops[k].value.entries;
    InfoReprintsRoot(tops, k, Edited(entries, p));
    SpliceIsExactIff(Print(DictionaryValue(tops)), InfoStart(tops, k), entries, p);
    OnlyPrintDecodesTo(SplicedTorrent(tops, k, p), WithInfo(tops, k, Edited(entries, p)), limits);
  }

  /** And to the tree whose info lacks the entries behind an inserted one iff the splice is safe. */
  lemma {:induction false} SafeSpliceDecodesIff(tops: seq<Entry>, k: nat, p: Patch, limits: Limits)
    requires k < |tops| && tops[k].value.DictionaryValue? && Judge(tops[k].value.entries, p) == Change
    requires Decodable(WithInfo(tops, k, Rewritten(tops[k].value.entries, p)), limits)
    ensures DecodesTo(SplicedTorrent(tops, k, p), WithInfo(tops, k, Rewritten(tops[k].value.entries, p)), limits)
       <==> SafeToSplice(tops[k].value.entries, p)
  {
    hide Decodable, DecodesTo, Judge, SafeToSplice, SplicedBytes, Rewritten, Print, Reprinted, WithInfo;
    var entries := tops[k].value.entries;
    InfoReprintsRoot(tops, k, Rewritten(entries, p));
    SpliceIsExactIff(Print(DictionaryValue(tops)), InfoStart(tops, k), entries, p);
    OnlyPrintDecodesTo(SplicedTorrent(tops, k, p), WithInfo(tops, k, Rewritten(entries, p)), limits);
  }

  // ----- the edit keeps the dictionary in order, and is done once ------------------------------------

  lemma SortedMeansOrdered(entries: seq<Entry>, i: nat, j: nat)
    requires SortedKeys(entries) && DistinctKeys(entries) && i < j < |entries|
    ensures Less(entries[i].key, entries[j].key)
    decreases j
  {
    LessIsTotal(entries[j - 1].key, entries[j].key);
    if i < j - 1 {
      SortedMeansOrdered(entries, i, j - 1);
      LessIsTransitive(entries[i].key, entries[j - 1].key, entries[j].key);
    }
  }

  lemma ClearKeepsOrder(entries: seq<Entry>, i: nat)
    requires SortedKeys(entries) && DistinctKeys(entries) && i < |entries|
    ensures SortedKeys(entries[..i] + entries[i + 1..]) && DistinctKeys(entries[..i] + entries[i + 1..])
  {
    hide Less;
    var edited := entries[..i] + entries[i + 1..];
    assert forall k :: 0 <= k < |edited| ==> edited[k] == entries[if k < i then k else k + 1];
    if 0 < i < |entries| - 1 {
      SortedMeansOrdered(entries, i - 1, i + 1);
      LessIsAsymmetric(entries[i - 1].key, entries[i + 1].key);
    }
    forall k | 0 < k < |edited| ensures !Less(edited[k].key, edited[k - 1].key) {
      if k < i {
        assert edited[k] == entries[k] && edited[k - 1] == entries[k - 1];
      } else if k == i {
        assert edited[k] == entries[i + 1] && edited[k - 1] == entries[i - 1];
      } else {
        assert edited[k] == entries[k + 1] && edited[k - 1] == entries[k];
      }
    }
  }

  lemma InsertKeepsOrder(entries: seq<Entry>, e: Entry, j: nat)
    requires SortedKeys(entries) && DistinctKeys(entries) && j <= |entries|
    requires forall k :: 0 <= k < |entries| ==> entries[k].key != e.key
    requires j > 0 ==> !Less(e.key, entries[j - 1].key)
    requires j < |entries| ==> Less(e.key, entries[j].key)
    ensures SortedKeys(entries[..j] + [e] + entries[j..]) && DistinctKeys(entries[..j] + [e] + entries[j..])
  {
    hide Less;
    var edited := entries[..j] + [e] + entries[j..];
    if j < |entries| { LessIsAsymmetric(e.key, entries[j].key); }
    forall k | 0 < k < |edited| ensures !Less(edited[k].key, edited[k - 1].key) {
      if k < j {
        assert edited[k] == entries[k] && edited[k - 1] == entries[k - 1];
      } else if k == j {
        assert edited[k] == e && edited[k - 1] == entries[k - 1];
      } else if k == j + 1 {
        assert edited[k] == entries[j] && edited[k - 1] == e;
      } else {
        assert edited[k] == entries[k - 1] && edited[k - 1] == entries[k - 2];
      }
    }
  }

  lemma EditKeepsOrder(entries: seq<Entry>, p: Patch)
    requires DistinctKeys(entries) && Judge(entries, p) == Change
    ensures SortedKeys(Edited(entries, p)) && DistinctKeys(Edited(entries, p))
  {
    hide IdentityKey, IdentityValue, Less, FindKey, InsertIndex, SortedKeys, Judge, Refused, AlreadySo;
    JudgeDecides(entries, p);
    var key := IdentityKey(p.field);
    var i, j := FindKey(entries, key), InsertIndex(entries, key);
    if i == |entries| {
      InsertKeepsOrder(entries, Entry(key, IdentityValue(p)), j);
    } else if p.clear {
      ClearKeepsOrder(entries, i);
    } else {
      ReplaceKeepsOrder(entries, i, IdentityValue(p));
    }
  }

  lemma ReplaceKeepsOrder(entries: seq<Entry>, i: nat, v: Value)
    requires SortedKeys(entries) && DistinctKeys(entries) && i < |entries|
    ensures var edited := entries[i := Entry(entries[i].key, v)]; SortedKeys(edited) && DistinctKeys(edited)
  {
    hide Less;
    var edited := entries[i := Entry(entries[i].key, v)];
    assert forall k :: 0 <= k < |edited| ==> edited[k].key == entries[k].key;
  }

  /** Applying the same patch again changes nothing. */
  lemma EditIsIdempotent(entries: seq<Entry>, p: Patch)
    requires DistinctKeys(entries) && Judge(entries, p) == Change
    ensures Judge(Edited(entries, p), p) == Keep
  {
    hide Less;
    EditKeepsOrder(entries, p);
    var key := IdentityKey(p.field);
    var edited := Edited(entries, p);
    var i := FindKey(entries, key);
    var k := FindKey(edited, key);
    if p.clear {
      assert forall m :: 0 <= m < |edited| ==> edited[m] == entries[if m < i then m else m + 1];
      assert k == |edited|;
    } else {
      var target := if i < |entries| then i else InsertIndex(entries, key);
      assert edited[target] == Entry(key, IdentityValue(p));
      assert k == target;
    }
  }

  /** An insertion keeps exactly the entries without greater keys. */
  lemma InsertKeepsExactlySmaller(entries: seq<Entry>, p: Patch, e: Entry)
    requires DistinctKeys(entries) && Judge(entries, p) == Change
    requires FindKey(entries, IdentityKey(p.field)) == |entries| && e in entries
    ensures e in Rewritten(entries, p) <==> !Less(IdentityKey(p.field), e.key)
  {
    hide Less, IdentityKey, IdentityValue, FindKey, InsertIndex, SortedKeys, DistinctKeys, Judge, Refused, AlreadySo;
    JudgeDecides(entries, p);
    var key := IdentityKey(p.field);
    var j := InsertIndex(entries, key);
    var i :| 0 <= i < |entries| && entries[i] == e;
    FindKeyIsAbsent(entries, key, i);
    assert Rewritten(entries, p) == entries[..j] + [Entry(key, IdentityValue(p))];
    SmallerStandBefore(entries, key, i);
  }

  lemma FindKeyIsAbsent(entries: seq<Entry>, key: Bytes, i: nat)
    requires FindKey(entries, key) == |entries| && i < |entries|
    ensures entries[i].key != key
  {
  }

  /** Where the keys ascend, an entry stands before the place of insertion iff its key is not greater. */
  lemma SmallerStandBefore(entries: seq<Entry>, key: Bytes, i: nat)
    requires SortedKeys(entries) && DistinctKeys(entries) && i < |entries|
    ensures entries[i] in entries[..InsertIndex(entries, key)] <==> !Less(key, entries[i].key)
  {
    hide Less, SortedKeys, InsertIndex;
    var j := InsertIndex(entries, key);
    if i < j {
      assert entries[..j][i] == entries[i];
    } else {
      if j < i {
        hide DistinctKeys;
        SortedMeansOrdered(entries, j, i);
        LessIsTransitive(key, entries[j].key, entries[i].key);
      }
      forall q | 0 <= q < j ensures entries[..j][q] != entries[i] {
        assert entries[q].key != entries[i].key;
      }
    }
  }

  /** What the program makes keeps the keys in order too. */
  lemma RewriteKeepsOrder(entries: seq<Entry>, p: Patch)
    requires DistinctKeys(entries) && Judge(entries, p) == Change
    ensures SortedKeys(Rewritten(entries, p)) && DistinctKeys(Rewritten(entries, p))
  {
    hide IdentityKey, IdentityValue, Less, FindKey, InsertIndex, Judge;
    EditKeepsOrder(entries, p);
    if FindKey(entries, IdentityKey(p.field)) == |entries| {
      assert Rewritten(entries, p) <= Edited(entries, p);
    }
  }

  /** A rewritten dictionary holds what was asked for: judged again, the same patch changes nothing. */
  lemma RewriteIsIdempotent(entries: seq<Entry>, p: Patch)
    requires DistinctKeys(entries) && Judge(entries, p) == Change
    ensures Judge(Rewritten(entries, p), p) == Keep
  {
    hide Less;
    EditIsIdempotent(entries, p);
    var key := IdentityKey(p.field);
    if FindKey(entries, key) == |entries| {
      RewriteKeepsOrder(entries, p);
      var rewritten, j := Rewritten(entries, p), InsertIndex(entries, key);
      assert rewritten[j] == Entry(key, IdentityValue(p));
      assert FindKey(rewritten, key) == j;
    }
  }

  /** A safely spliced and decoded torrent answers "no change" to the same patch: nothing lost comes back. */
  lemma {:induction false} SpliceThenSpliceIsNoChange(s: Bytes, at: nat, entries: seq<Entry>, p: Patch)
    requires DictionaryAt(s, at, entries) && DistinctKeys(entries)
    requires Judge(entries, p) == Change && SafeToSplice(entries, p)
    ensures SpliceOutcome(s, at, DictionaryValue(entries), p).Spliced?
    ensures var out := SpliceOutcome(s, at, DictionaryValue(entries), p).bytes;
            && DictionaryAt(out, at, Rewritten(entries, p))
            && SpliceOutcome(out, at, DictionaryValue(Rewritten(entries, p)), p) == NoChange
  {
    hide Rewritten, Judge, SafeToSplice, SplicedBytes, Print;
    SpliceIsExactIff(s, at, entries, p);
    RewriteIsIdempotent(entries, p);
    var t := Print(DictionaryValue(Rewritten(entries, p)));
    assert Reprinted(s, at, entries, Rewritten(entries, p))[at..at + |t|] == t;
  }

  /**
    A request to clear a present key removes it, except that `private` is kept whenever its value
    equals the unused `private_value` of the request.
  */
  lemma ClearRemovesUnlessPrivateMatches(entries: seq<Entry>, p: Patch)
    requires p.clear && p.field != Name && SortedKeys(entries)
    requires FindKey(entries, IdentityKey(p.field)) < |entries|
    requires var v := entries[FindKey(entries, IdentityKey(p.field))].value;
             if p.field == Private then v.IntegerValue? && 0 <= v.integer <= 1 else v.StringValue?
    ensures Judge(entries, p) == Change
       <==> !(p.field == Private && entries[FindKey(entries, IdentityKey(p.field))].value == IdentityValue(p))
    ensures Judge(entries, p) != Change ==> Judge(entries, p) == Keep
  {
  }

  // ----- the program ------------------------------------------------------------------------------

  method EncodedKeyStart(s: Bytes, key: Span) returns (position: nat)
    requires key.offset <= |s|
    ensures position == KeyStart(s, key)
  {
    if key.offset == 0 || s[key.offset - 1] != COLON { return key.offset; }
    position := key.offset - 1;
    while position > 0 && IsDigit(s[position - 1])
      invariant position <= key.offset - 1
      invariant DigitsBack(s, position) == DigitsBack(s, key.offset - 1)
    {
      position := position - 1;
    }
  }

  lemma LocatedKeys(s: Bytes, at: nat, entries: seq<Entry>, nodes: seq<NodeEntry>)
    requires DictionaryAt(s, at, entries) && nodes == LocateEntries(entries, at + 1)
    ensures |nodes| == |entries|
    ensures forall i :: 0 <= i < |nodes| ==> Raw(s, nodes[i].key) == entries[i].key
  {
    hide Print, PrintString, LocateEntries, EntryStart;
    forall i | 0 <= i < |nodes|
      ensures Raw(s, nodes[i].key) == entries[i].key
    {
      EntryLayout(s, at, entries, i);
      KeySpanHolds(entries[i].key, EntryStart(entries, at, i), s);
    }
  }

  method SortedInfoKeys(s: Bytes, nodes: seq<NodeEntry>, ghost entries: seq<Entry>) returns (sorted: bool)
    requires |nodes| == |entries| && forall i :: 0 <= i < |nodes| ==> Raw(s, nodes[i].key) == entries[i].key
    ensures sorted <==> SortedKeys(entries)
  {
    hide Less, Raw;
    var previous: Option<Bytes> := None;
    for i := 0 to |nodes|
      invariant previous == if i == 0 then None else Some(entries[i - 1].key)
      invariant forall k :: 0 < k < i ==> !Less(entries[k].key, entries[k - 1].key)
    {
      var key := Raw(s, nodes[i].key);
      if previous.Some? && Less(key, previous.value) {
        assert Less(entries[i].key, entries[i - 1].key);
        return false;
      }
      previous := Some(key);
    }
    sorted := true;
  }

  method FindEntry(s: Bytes, nodes: seq<NodeEntry>, key: Bytes, ghost entries: seq<Entry>) returns (i: nat)
    requires |nodes| == |entries| && forall i :: 0 <= i < |nodes| ==> Raw(s, nodes[i].key) == entries[i].key
    ensures i == FindKey(entries, key)
  {
    hide Raw;
    i := 0;
    while i < |nodes| && Raw(s, nodes[i].key) != key
      invariant i <= |nodes|
      invariant FindKey(entries, key) == FindKey(entries, key, i)
    {
      i := i + 1;
    }
  }

  method FindGreater(s: Bytes, nodes: seq<NodeEntry>, key: Bytes, ghost entries: seq<Entry>) returns (i: nat)
    requires |nodes| == |entries| && forall i :: 0 <= i < |nodes| ==> Raw(s, nodes[i].key) == entries[i].key
    ensures i == InsertIndex(entries, key)
  {
    hide Raw, Less;
    i := 0;
    while i < |nodes| && !Less(key, Raw(s, nodes[i].key))
      invariant i <= |nodes|
      invariant InsertIndex(entries, key) == InsertIndex(entries, key, i)
    {
      i := i + 1;
    }
  }

  /** The checks before the cut; `i` is the entry that holds the key. */
  method JudgePatch(s: Bytes, nodes: seq<NodeEntry>, p: Patch, ghost at: nat, ghost entries: seq<Entry>)
    returns (i: nat, verdict: Verdict)
    requires DictionaryAt(s, at, entries) && nodes == LocateEntries(entries, at + 1)
    ensures i == FindKey(entries, IdentityKey(p.field)) && verdict == Judge(entries, p)
  {
    hide Print, PrintString, LocateEntries, EntryStart, FindKey, IdentityKey, SortedKeys;
    LocatedKeys(s, at, entries, nodes);
    i := FindEntry(s, nodes, IdentityKey(p.field), entries);
    var sorted := SortedInfoKeys(s, nodes, entries);
    if !sorted { return i, Refuse; }
    var present := i < |nodes|;
    if present { LocatedValue(s, at, entries, i); }
    if p.field == Private && present {
      var value := nodes[i].value;
      if !value.IntegerNode? || value.integer < 0 || value.integer > 1 { return i, Refuse; }
      if (value.integer == 1) == p.privateValue { return i, Keep; }
    }
    if p.field != Private && !p.clear {
      var ok := Utf8.MetadataValidUtf8(p.value);
      if !ok { return i, Refuse; }
    }
    if p.field == Name && (p.clear || p.value == []) { return i, Refuse; }
    if p.field != Private && present {
      var value := nodes[i].value;
      if !value.StringNode? { return i, Refuse; }
      if !p.clear && Raw(s, value.content) == p.value { return i, Keep; }
    }
    if !present && p.clear { return i, Keep; }
    if !present && p.field == Name { return i, Refuse; }
    return i, Change;
  }

  lemma LocatedValue(s: Bytes, at: nat, entries: seq<Entry>, i: nat)
    requires DictionaryAt(s, at, entries) && i < |entries|
    ensures var node, v := LocateEntries(entries, at + 1)[i].value, entries[i].value;
            && (node.IntegerNode? <==> v.IntegerValue?) && (v.IntegerValue? ==> node.integer == v.integer)
            && (node.StringNode? <==> v.StringValue?) && (v.StringValue? ==> Raw(s, node.content) == v.content)
  {
    hide PrintString, EntryStart;
    EntryLayout(s, at, entries, i);
    LocateReadsBack(entries[i].value, EntryStart(entries, at, i) + |PrintString(entries[i].key)|, s);
  }

  /** The loop that looks for the first greater key: only the start of the cut is set. */
  method InsertionStart(s: Bytes, nodes: seq<NodeEntry>, key: Bytes, end: nat, ghost at: nat, ghost entries: seq<Entry>)
    returns (start: nat)
    requires DictionaryAt(s, at, entries) && nodes == LocateEntries(entries, at + 1)
    requires end == at + |Print(DictionaryValue(entries))| - 1
    ensures var j := InsertIndex(entries, key);
            start == if j < |entries| then KeyStart(s, KeySpan(entries[j].key, EntryStart(entries, at, j))) else end
    ensures start <= end < |s|
  {
    hide Print, PrintString, PrintEntries, Locate, LocateEntries, EntryStart, InsertIndex, KeyStart, KeySpan, Raw;
    LocatedKeys(s, at, entries, nodes);
    LastStart(s, at, entries);
    start := end;
    var j := FindGreater(s, nodes, key, entries);
    if j < |nodes| {
      EntryLayout(s, at, entries, j);
      KeyStartIsEntryStart(s, at, entries, j);
      KeySpanInside(s, entries[j].key, EntryStart(entries, at, j));
      StartsAscend(entries, at, j, |entries|);
      start := EncodedKeyStart(s, nodes[j].key);
    }
  }

  /** The cut itself: the key holds entry `i`, or is absent when `i` is the number of entries. */
  method CutInfo(s: Bytes, info: Node, i: nat, p: Patch, ghost at: nat, ghost entries: seq<Entry>) returns (r: Bytes)
    requires DictionaryAt(s, at, entries) && info.DictionaryNode? && info.entries == LocateEntries(entries, at + 1)
    requires info.encoded == Span(at, |Print(DictionaryValue(entries))|)
    requires i == FindKey(entries, IdentityKey(p.field))
    ensures r == SplicedBytes(s, at, entries, p)
  {
    hide Print, PrintString, PrintEntries, Locate, LocateEntries, EntryStart, FindKey, InsertIndex, IdentityKey,
         KeyStart, KeySpan, IdentityValue, Raw;
    var nodes := info.entries;
    var key := IdentityKey(p.field);
    LocatedKeys(s, at, entries, nodes);
    DictionaryBody(s, at, entries);
    var start := info.encoded.offset + info.encoded.size - 1;
    var end := start;
    var replacement: Bytes := [];
    if i < |nodes| {
      EntryLayout(s, at, entries, i);
      LocateSpan(entries[i].value, EntryStart(entries, at, i) + |PrintString(key)|);
      if p.clear {
        KeyStartIsEntryStart(s, at, entries, i);
        KeySpanInside(s, key, EntryStart(entries, at, i));
        start := EncodedKeyStart(s, nodes[i].key);
      } else {
        start := nodes[i].value.encoded.offset;
        replacement := Print(IdentityValue(p));
      }
      end := nodes[i].value.encoded.offset + nodes[i].value.encoded.size;
    } else {
      replacement := PrintString(key) + Print(IdentityValue(p));
      start := InsertionStart(s, nodes, key, start, at, entries);
    }
    r := s[..start] + replacement + s[end..];
  }

  lemma LocateSpan(v: Value, at: nat)
    ensures Locate(v, at).encoded == Span(at, |Print(v)|)
  {
  }

  lemma KeySpanInside(s: Bytes, key: Bytes, start: nat)
    requires HoldsAt(s, start, PrintString(key))
    ensures KeySpan(key, start).offset <= |s|
  {
  }

  /**
    splice_info_identity on an info node of a decoded torrent; `v` and `at` say which value the
    node is and where it starts.
  */
  method SpliceInfoIdentity(s: Bytes, info: Node, p: Patch, ghost v: Value, ghost at: nat) returns (r: Outcome)
    requires HoldsAt(s, at, Print(v)) && info == Locate(v, at)
    ensures r == SpliceOutcome(s, at, v, p)
  {
    hide Judge, SplicedBytes, PrintEntries;
    if !info.DictionaryNode? || info.encoded.offset + info.encoded.size > |s| || info.encoded.size < 2
       || s[info.encoded.offset] != DICTIONARY_MARK
       || s[info.encoded.offset + info.encoded.size - 1] != END_MARK {
      if v.DictionaryValue? { DictionaryBody(s, at, v.entries); }
      return Failed;
    }
    var i, verdict := JudgePatch(s, info.entries, p, at, v.entries);
    match verdict
    case Refuse => r := Failed;
    case Keep => r := NoChange;
    case Change =>
      var bytes := CutInfo(s, info, i, p, at, v.entries);
      r := Spliced(bytes);
  }
}
