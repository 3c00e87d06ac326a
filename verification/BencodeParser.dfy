/**
  The recursive-descent parser of src/bencode_adapter.cpp.

  `ParseValue` and its companions say what the parser answers; class `Parser` is the program,
  whose methods advance `position` and `tokens`. Every refusal is `Rejected`: messages are not
  part of the model.
*/
module BencodeParser {
  import opened ByteStrings
  import opened Bencode
  import opened Wrappers

  datatype Limits = Limits(
    maxInputBytes: U64,
    maxStringBytes: U64,
    maxDepth: U64,
    maxTokens: U64,
    maxContainerEntries: U64,
    maxIntegerDigits: U64)

  const DEFAULT_LIMITS :=
    Limits(128 * 1024 * 1024, 16 * 1024 * 1024, 64, 10_000_000, 1_000_000, 20)

  datatype Parsed<+T> = Rejected | Parsed(value: T, position: nat, tokens: nat)

  // ----- what the parser answers ------------------------------------------------------------

  function ParseInteger(s: Bytes, start: nat, limits: Limits): (r: Parsed<Node>)
    requires start < |s|
    ensures r.Parsed? ==> start < r.position <= |s| && r.value.IntegerNode?
  {
    var negative := start + 1 < |s| && s[start + 1] == MINUS;
    var first := if negative then start + 2 else start + 1;
    var end := DigitRunEnd(s, first);
    var digits := end - first;
    if digits == 0 || digits > limits.maxIntegerDigits || end >= |s| || s[end] != END_MARK
       || (digits > 1 && s[first] == DIGIT_ZERO)
       || (negative && digits == 1 && s[first] == DIGIT_ZERO) then Rejected
    else
      var magnitude: int := Number(s[first..end]);
      if magnitude > (if negative then I64_MAX + 1 else I64_MAX) then Rejected
      else
        Parsed(IntegerNode(Span(start, end + 1 - start), if negative then -magnitude else magnitude),
               end + 1, 0)
  }

  function ParseString(s: Bytes, start: nat, limits: Limits): (r: Parsed<Node>)
    requires start <= |s|
    ensures r.Parsed? ==> start < r.position <= |s| && r.value.StringNode?
  {
    var end := DigitRunEnd(s, start);
    var digits := end - start;
    if digits > 20 || digits == 0 || (digits > 1 && s[start] == DIGIT_ZERO)
       || end >= |s| || s[end] != COLON then Rejected
    else
      var length := Number(s[start..end]);
      if length > U64_MAX || length > limits.maxStringBytes || length > |s| - (end + 1) then Rejected
      else
        Parsed(StringNode(Span(start, end + 1 + length - start), Span(end + 1, length)),
               end + 1 + length, 0)
  }

  function ParseValue(s: Bytes, position: nat, tokens: nat, depth: nat, limits: Limits): (r: Parsed<Node>)
    requires position <= |s|
    ensures r.Parsed? ==> position < r.position <= |s|
    decreases |s| - position, 0
  {
    if depth > limits.maxDepth || tokens + 1 > limits.maxTokens || position >= |s| then Rejected
    else if s[position] == INTEGER_MARK then
      match ParseInteger(s, position, limits)
      case Rejected => Rejected
      case Parsed(node, end, _) => Parsed(node, end, tokens + 1)
    else if s[position] == LIST_MARK then
      match ParseItems(s, position + 1, tokens + 1, depth, [], limits)
      case Rejected => Rejected
      case Parsed(items, end, used) => Parsed(ListNode(Span(position, end - position), items), end, used)
    else if s[position] == DICTIONARY_MARK then
      match ParseEntries(s, position + 1, tokens + 1, depth, [], {}, limits)
      case Rejected => Rejected
      case Parsed(entries, end, used) =>
        Parsed(DictionaryNode(Span(position, end - position), entries), end, used)
    else
      match ParseString(s, position, limits)
      case Rejected => Rejected
      case Parsed(node, end, _) => Parsed(node, end, tokens + 1)
  }

  /** The loop of `list`, entered with `before` already collected. */
  function ParseItems(s: Bytes, position: nat, tokens: nat, depth: nat, before: seq<Node>, limits: Limits)
    : (r: Parsed<seq<Node>>)
    requires position <= |s|
    ensures r.Parsed? ==> position < r.position <= |s|
    decreases |s| - position, 1
  {
    if position >= |s| then Rejected
    else if s[position] == END_MARK then Parsed(before, position + 1, tokens)
    else if |before| >= limits.maxContainerEntries then Rejected
    else
      match ParseValue(s, position, tokens, depth + 1, limits)
      case Rejected => Rejected
      case Parsed(child, end, used) => ParseItems(s, end, used, depth, before + [child], limits)
  }

  /** The loop of `dictionary`, entered with `before` and its `keys` already collected. */
  function ParseEntries(s: Bytes, position: nat, tokens: nat, depth: nat, before: seq<NodeEntry>,
                        keys: set<Bytes>, limits: Limits)
    : (r: Parsed<seq<NodeEntry>>)
    requires position <= |s|
    ensures r.Parsed? ==> position < r.position <= |s|
    decreases |s| - position, 1
  {
    if position >= |s| then Rejected
    else if s[position] == END_MARK then Parsed(before, position + 1, tokens)
    else if |before| >= limits.maxContainerEntries || tokens + 1 > limits.maxTokens then Rejected
    else
      match ParseString(s, position, limits)
      case Rejected => Rejected
      case Parsed(key, keyEnd, _) =>
        var name := Raw(s, key.content);
        if name in keys then Rejected
        else
          match ParseValue(s, keyEnd, tokens + 1, depth + 1, limits)
          case Rejected => Rejected
          case Parsed(child, end, used) =>
            ParseEntries(s, end, used, depth, before + [NodeEntry(key.content, child)], keys + {name}, limits)
  }

  /** BencodeAdapter::decode. */
  function Decode(s: Bytes, limits: Limits): Parsed<Node> {
    if |s| > limits.maxInputBytes then Rejected
    else
      var r := ParseValue(s, 0, 0, 0, limits);
      if r.Parsed? && r.position == |s| then r else Rejected
  }

  // ----- which values fit the limits ----------------------------------------------------------

  function KeysOf(entries: seq<Entry>): set<Bytes> {
    set e | e in entries :: e.key
  }

  predicate DistinctKeys(entries: seq<Entry>) {
    forall i, j :: 0 <= i < j < |entries| ==> entries[i].key != entries[j].key
  }

  predicate Fits(v: Value, depth: nat, limits: Limits)
    decreases v, 1
  {
    depth <= limits.maxDepth
    && match v
       case IntegerValue(n) =>
         -(I64_MAX as int) - 1 <= n <= I64_MAX
         && |Decimal(if n < 0 then -n else n)| <= limits.maxIntegerDigits
       case StringValue(content) => |content| <= limits.maxStringBytes
       case ListValue(items) => |items| <= limits.maxContainerEntries && ItemsFit(items, depth + 1, limits)
       case DictionaryValue(entries) =>
         |entries| <= limits.maxContainerEntries && DistinctKeys(entries)
         && EntriesFit(entries, depth + 1, limits)
  }

  predicate ItemsFit(items: seq<Value>, depth: nat, limits: Limits)
    decreases items, 0
  {
    items != [] ==> Fits(items[0], depth, limits) && ItemsFit(items[1..], depth, limits)
  }

  predicate EntryFits(e: Entry, depth: nat, limits: Limits)
    decreases e, 0
  {
    |e.key| <= limits.maxStringBytes && Fits(e.value, depth, limits)
  }

  predicate EntriesFit(entries: seq<Entry>, depth: nat, limits: Limits)
    decreases entries, 0
  {
    entries != [] ==> EntryFits(entries[0], depth, limits) && EntriesFit(entries[1..], depth, limits)
  }

  /** What the token counter counts: every value and every dictionary key. */
  function Tokens(v: Value): (n: nat)
    ensures n > 0
    decreases v, 1
  {
    match v
    case IntegerValue(_) => 1
    case StringValue(_) => 1
    case ListValue(items) => 1 + ItemTokens(items)
    case DictionaryValue(entries) => 1 + EntryTokens(entries)
  }

  function ItemTokens(items: seq<Value>): nat
    decreases items, 0
  {
    if items == [] then 0 else Tokens(items[0]) + ItemTokens(items[1..])
  }

  function TokensOfEntry(e: Entry): (n: nat)
    ensures n > 1
    decreases e, 0
  {
    1 + Tokens(e.value)
  }

  function EntryTokens(entries: seq<Entry>): nat
    decreases entries, 0
  {
    if entries == [] then 0 else TokensOfEntry(entries[0]) + EntryTokens(entries[1..])
  }

  ghost predicate Decodable(v: Value, limits: Limits) {
    Fits(v, 0, limits) && Tokens(v) <= limits.maxTokens && |Print(v)| <= limits.maxInputBytes
  }

  // ----- printing then parsing ----------------------------------------------------------------

  lemma IntegerLayout(s: Bytes, at: nat, n: int, sign: Bytes, d: Bytes)
    requires HoldsAt(s, at, PrintInteger(n))
    requires sign == (if n < 0 then [MINUS] else []) && d == Decimal(if n < 0 then -n else n)
    ensures s[at] == INTEGER_MARK && HoldsAt(s, at + 1, sign) && HoldsAt(s, at + 1 + |sign|, d)
    ensures |PrintInteger(n)| == 1 + |sign| + |d| + 1
    ensures at + 1 + |sign| + |d| < |s| && s[at + 1 + |sign| + |d|] == END_MARK
  {
    assert PrintInteger(n) == [INTEGER_MARK] + sign + d + [END_MARK];
    hide HoldsAt, Decimal, PrintInteger;
    HoldsAtSplit(s, at, [INTEGER_MARK] + sign + d, [END_MARK]);
    HoldsAtSplit(s, at, [INTEGER_MARK] + sign, d);
    HoldsAtSplit(s, at, [INTEGER_MARK], sign);
    HoldsAtByte(s, at, [INTEGER_MARK], 0);
    HoldsAtByte(s, at + 1 + |sign| + |d|, [END_MARK], 0);
  }

  lemma IntegerParses(s: Bytes, at: nat, n: int, limits: Limits)
    requires HoldsAt(s, at, PrintInteger(n)) && -(I64_MAX as int) - 1 <= n <= I64_MAX
    requires |Decimal(if n < 0 then -n else n)| <= limits.maxIntegerDigits
    ensures s[at] == INTEGER_MARK
    ensures ParseInteger(s, at, limits) == Parsed(Locate(IntegerValue(n), at), at + |PrintInteger(n)|, 0)
  {
    hide Decimal, Number, DigitRunEnd, PrintInteger;
    var magnitude: nat := if n < 0 then -n else n;
    var d := Decimal(magnitude);
    var sign: Bytes := if n < 0 then [MINUS] else [];
    DecimalIsCanonical(magnitude);
    IntegerLayout(s, at, n, sign, d);
    var first := at + 1 + |sign|;
    HoldsAtByte(s, first, d, 0);
    if n < 0 { HoldsAtByte(s, at + 1, sign, 0); }
    DigitRunIs(s, first, d);
    assert s[first..first + |d|] == d;
  }

  lemma StringParses(s: Bytes, at: nat, content: Bytes, limits: Limits)
    requires HoldsAt(s, at, PrintString(content)) && |content| <= limits.maxStringBytes
    ensures ParseString(s, at, limits)
         == Parsed(StringNode(Span(at, |PrintString(content)|), KeySpan(content, at)), at + |PrintString(content)|, 0)
  {
    hide Decimal, Number, DigitRunEnd;
    var d := Decimal(|content|);
    DecimalIsCanonical(|content|);
    U64Digits(|content|);
    HoldsAtSplit(s, at, d + [COLON], content);
    HoldsAtSplit(s, at, d, [COLON]);
    HoldsAtByte(s, at, d, 0);
    HoldsAtByte(s, at + |d|, [COLON], 0);
    DigitRunIs(s, at, d);
  }

  lemma PrintStringStart(content: Bytes)
    ensures IsDigit(PrintString(content)[0])
  {
    DecimalIsCanonical(|content|);
  }

  /** No printed value starts with the mark that ends a container. */
  lemma PrintStart(v: Value)
    ensures Print(v)[0] != END_MARK
    ensures v.StringValue? ==> IsDigit(Print(v)[0])
  {
    match v
    case StringValue(content) => PrintStringStart(content);
    case IntegerValue(_) =>
    case ListValue(_) =>
    case DictionaryValue(_) =>
  }

  lemma {:induction false} PrintedValueParses(s: Bytes, at: nat, tokens: nat, depth: nat, v: Value, limits: Limits)
    requires HoldsAt(s, at, Print(v)) && Fits(v, depth, limits) && tokens + Tokens(v) <= limits.maxTokens
    ensures ParseValue(s, at, tokens, depth, limits)
         == Parsed(Locate(v, at), at + |Print(v)|, tokens + Tokens(v))
    decreases v, 1
  {
    hide ParseItems, ParseEntries, ParseInteger, ParseString, DigitRunEnd, Decimal;
    HoldsAtByte(s, at, Print(v), 0);
    PrintStart(v);
    match v
    case IntegerValue(n) => IntegerParses(s, at, n, limits);
    case StringValue(content) => StringParses(s, at, content, limits);
    case ListValue(items) =>
      ContainerLayout(s, at, LIST_MARK, PrintItems(items));
      PrintedItemsParse(s, at + 1, tokens + 1, depth, [], items, limits);
      assert [] + LocateItems(items, at + 1) == LocateItems(items, at + 1);
    case DictionaryValue(entries) =>
      ContainerLayout(s, at, DICTIONARY_MARK, PrintEntries(entries));
      PrintedEntriesParse(s, at + 1, tokens + 1, depth, [], {}, entries, limits);
      assert [] + LocateEntries(entries, at + 1) == LocateEntries(entries, at + 1);
  }

  lemma ItemsEndParse(s: Bytes, at: nat, tokens: nat, depth: nat, before: seq<Node>, limits: Limits)
    requires at < |s| && s[at] == END_MARK
    ensures ParseItems(s, at, tokens, depth, before, limits) == Parsed(before, at + 1, tokens)
  {
  }

  /** One round of the list loop. */
  lemma ItemStep(s: Bytes, at: nat, tokens: nat, depth: nat, before: seq<Node>, limits: Limits)
    requires at < |s| && s[at] != END_MARK && |before| < limits.maxContainerEntries
    requires ParseValue(s, at, tokens, depth + 1, limits).Parsed?
    ensures ParseItems(s, at, tokens, depth, before, limits)
         == (var child := ParseValue(s, at, tokens, depth + 1, limits);
             ParseItems(s, child.position, child.tokens, depth, before + [child.value], limits))
  {
    hide ParseValue;
  }

  lemma UnfoldItems(items: seq<Value>, at: nat)
    ensures items == [] ==> PrintItems(items) == [] && LocateItems(items, at) == [] && ItemTokens(items) == 0
    ensures items != [] ==>
              var v, rest := items[0], items[1..];
              && PrintItems(items) == Print(v) + PrintItems(rest)
              && LocateItems(items, at) == [Locate(v, at)] + LocateItems(rest, at + |Print(v)|)
              && ItemTokens(items) == Tokens(v) + ItemTokens(rest)
  {
  }

  lemma {:induction false} PrintedItemsParse(s: Bytes, at: nat, tokens: nat, depth: nat, before: seq<Node>,
                                             items: seq<Value>, limits: Limits)
    requires HoldsAt(s, at, PrintItems(items))
    requires at + |PrintItems(items)| < |s| && s[at + |PrintItems(items)|] == END_MARK
    requires ItemsFit(items, depth + 1, limits) && |before| + |items| <= limits.maxContainerEntries
    requires tokens + ItemTokens(items) <= limits.maxTokens
    ensures ParseItems(s, at, tokens, depth, before, limits)
         == Parsed(before + LocateItems(items, at), at + |PrintItems(items)| + 1, tokens + ItemTokens(items))
    decreases items, 0
  {
    hide ParseItems, ParseValue, Print, PrintItems, Fits, Tokens, ItemTokens, Locate, LocateItems;
    UnfoldItems(items, at);
    if items == [] {
      ItemsEndParse(s, at, tokens, depth, before, limits);
      assert before + [] == before;
    } else {
      var v := items[0];
      HoldsAtSplit(s, at, Print(v), PrintItems(items[1..]));
      HoldsAtByte(s, at, Print(v), 0);
      PrintStart(v);
      PrintedValueParses(s, at, tokens, depth + 1, v, limits);
      ItemStep(s, at, tokens, depth, before, limits);
      PrintedItemsParse(s, at + |Print(v)|, tokens + Tokens(v), depth, before + [Locate(v, at)], items[1..], limits);
      ConcatAssociative(before, [Locate(v, at)], LocateItems(items[1..], at + |Print(v)|));
    }
  }

  lemma DistinctTail(entries: seq<Entry>, keys: set<Bytes>)
    requires entries != [] && DistinctKeys(entries) && keys !! KeysOf(entries)
    ensures entries[0].key !in keys && DistinctKeys(entries[1..])
    ensures (keys + {entries[0].key}) !! KeysOf(entries[1..])
  {
    assert entries[0] in entries;
    assert forall r :: r in entries[1..] ==> r in entries && r.key != entries[0].key;
  }

  lemma NoKeys(keys: set<Bytes>)
    ensures DistinctKeys([]) && keys !! KeysOf([])
  {
  }

  lemma DistinctCons(e: Entry, rest: seq<Entry>, keys: set<Bytes>)
    requires e.key !in keys && DistinctKeys(rest) && (keys + {e.key}) !! KeysOf(rest)
    ensures DistinctKeys([e] + rest) && keys !! KeysOf([e] + rest)
  {
    assert forall r :: r in rest ==> r.key in KeysOf(rest);
  }

  /** One round of the dictionary loop over a printed entry. */
  lemma PrintedEntryStep(s: Bytes, at: nat, tokens: nat, depth: nat, before: seq<NodeEntry>, keys: set<Bytes>, e: Entry,
                         limits: Limits)
    requires HoldsAt(s, at, PrintEntry(e)) && EntryFits(e, depth + 1, limits) && e.key !in keys
    requires |before| < limits.maxContainerEntries && tokens + TokensOfEntry(e) <= limits.maxTokens
    requires ParseValue(s, at + |PrintString(e.key)|, tokens + 1, depth + 1, limits)
          == Parsed(Locate(e.value, at + |PrintString(e.key)|), at + |PrintEntry(e)|, tokens + TokensOfEntry(e))
    ensures ParseEntries(s, at, tokens, depth, before, keys, limits)
         == ParseEntries(s, at + |PrintEntry(e)|, tokens + TokensOfEntry(e), depth,
                         before + [LocateEntry(e, at)], keys + {e.key}, limits)
  {
    hide ParseValue, ParseString, PrintString, Print, Fits, Tokens, Locate, KeySpan, Decimal, DigitRunEnd;
    HoldsAtSplit(s, at, PrintString(e.key), Print(e.value));
    HoldsAtByte(s, at, PrintString(e.key), 0);
    PrintStringStart(e.key);
    StringParses(s, at, e.key, limits);
    KeySpanHolds(e.key, at, s);
  }

  lemma EntriesEndParse(s: Bytes, at: nat, tokens: nat, depth: nat, before: seq<NodeEntry>, keys: set<Bytes>,
                        limits: Limits)
    requires at < |s| && s[at] == END_MARK
    ensures ParseEntries(s, at, tokens, depth, before, keys, limits) == Parsed(before, at + 1, tokens)
  {
  }

  lemma UnfoldEntries(entries: seq<Entry>, at: nat)
    ensures entries == [] ==>
              PrintEntries(entries) == [] && LocateEntries(entries, at) == [] && EntryTokens(entries) == 0
    ensures entries != [] ==>
              var e, rest := entries[0], entries[1..];
              && PrintEntries(entries) == PrintEntry(e) + PrintEntries(rest)
              && LocateEntries(entries, at) == [LocateEntry(e, at)] + LocateEntries(rest, at + |PrintEntry(e)|)
              && EntryTokens(entries) == TokensOfEntry(e) + EntryTokens(rest)
  {
  }

  lemma {:induction false} PrintedEntriesParse(s: Bytes, at: nat, tokens: nat, depth: nat, before: seq<NodeEntry>,
                                               keys: set<Bytes>, entries: seq<Entry>, limits: Limits)
    requires HoldsAt(s, at, PrintEntries(entries))
    requires at + |PrintEntries(entries)| < |s| && s[at + |PrintEntries(entries)|] == END_MARK
    requires EntriesFit(entries, depth + 1, limits) && |before| + |entries| <= limits.maxContainerEntries
    requires DistinctKeys(entries) && keys !! KeysOf(entries)
    requires tokens + EntryTokens(entries) <= limits.maxTokens
    ensures ParseEntries(s, at, tokens, depth, before, keys, limits)
         == Parsed(before + LocateEntries(entries, at), at + |PrintEntries(entries)| + 1, tokens + EntryTokens(entries))
    decreases entries, 0
  {
    hide ParseValue, ParseEntries, Fits, Locate, LocateEntries, PrintEntries, EntryTokens, PrintString, Print,
         Tokens, KeysOf, DistinctKeys;
    UnfoldEntries(entries, at);
    if entries == [] {
      EntriesEndParse(s, at, tokens, depth, before, keys, limits);
      assert before + [] == before;
    } else {
      var e, rest := entries[0], entries[1..];
      HoldsAtSplit(s, at, PrintEntry(e), PrintEntries(rest));
      HoldsAtSplit(s, at, PrintString(e.key), Print(e.value));
      DistinctTail(entries, keys);
      PrintedValueParses(s, at + |PrintString(e.key)|, tokens + 1, depth + 1, e.value, limits);
      PrintedEntryStep(s, at, tokens, depth, before, keys, e, limits);
      PrintedEntriesParse(s, at + |PrintEntry(e)|, tokens + TokensOfEntry(e), depth,
                          before + [LocateEntry(e, at)], keys + {e.key}, rest, limits);
      ConcatAssociative(before, [LocateEntry(e, at)], LocateEntries(rest, at + |PrintEntry(e)|));
    }
  }

  // ----- parsing then printing ----------------------------------------------------------------

  lemma IntegerIsPrinted(s: Bytes, at: nat, limits: Limits) returns (n: int)
    requires at < |s| && s[at] == INTEGER_MARK && ParseInteger(s, at, limits).Parsed?
    ensures HoldsAt(s, at, PrintInteger(n)) && -(I64_MAX as int) - 1 <= n <= I64_MAX
    ensures |Decimal(if n < 0 then -n else n)| <= limits.maxIntegerDigits
  {
    hide Decimal, DigitRunEnd, Number, ParseInteger;
    n := ParseInteger(s, at, limits).value.integer;
    var sign, d := IntegerShape(s, at, limits);
    var magnitude := Number(d);
    CanonicalIsDecimal(d);
    DecimalIsCanonical(magnitude);
    assert n < 0 <==> sign == [MINUS];
    IntegerReassembles(s, at, sign, d);
    assert PrintInteger(n) == [INTEGER_MARK] + sign + d + [END_MARK];
  }

  lemma HoldsOne(s: Bytes, at: nat)
    requires at < |s|
    ensures HoldsAt(s, at, [s[at]])
  {
  }

  /** The sign and the digits of an accepted integer. */
  lemma IntegerShape(s: Bytes, at: nat, limits: Limits) returns (sign: Bytes, d: Bytes)
    requires at < |s| && s[at] == INTEGER_MARK && ParseInteger(s, at, limits).Parsed?
    ensures HoldsAt(s, at + 1, sign) && HoldsAt(s, at + 1 + |sign|, d)
    ensures at + 1 + |sign| + |d| < |s| && s[at + 1 + |sign| + |d|] == END_MARK
    ensures Canonical(d) && |d| <= limits.maxIntegerDigits
    ensures sign == [] || (sign == [MINUS] && d[0] != DIGIT_ZERO)
    ensures var n := ParseInteger(s, at, limits).value.integer;
            && (if sign == [] then n == Number(d) else -n == Number(d))
            && -(I64_MAX as int) - 1 <= n <= I64_MAX
  {
    hide DigitRunEnd, Number;
    if at + 1 < |s| && s[at + 1] == MINUS {
      sign, d := [MINUS], s[at + 2..DigitRunEnd(s, at + 2)];
      HoldsOne(s, at + 1);
    } else {
      sign, d := [], s[at + 1..DigitRunEnd(s, at + 1)];
      assert s[at + 1..at + 1] == [];
    }
  }

  lemma IntegerReassembles(s: Bytes, at: nat, sign: Bytes, d: Bytes)
    requires at < |s| && s[at] == INTEGER_MARK && HoldsAt(s, at + 1, sign) && HoldsAt(s, at + 1 + |sign|, d)
    requires at + 1 + |sign| + |d| < |s| && s[at + 1 + |sign| + |d|] == END_MARK
    ensures HoldsAt(s, at, [INTEGER_MARK] + sign + d + [END_MARK])
  {
    assert HoldsAt(s, at, [INTEGER_MARK]) && HoldsAt(s, at + 1 + |sign| + |d|, [END_MARK]);
    HoldsAtSplit(s, at, [INTEGER_MARK], sign);
    HoldsAtSplit(s, at, [INTEGER_MARK] + sign, d);
    HoldsAtSplit(s, at, [INTEGER_MARK] + sign + d, [END_MARK]);
  }

  lemma StringIsPrinted(s: Bytes, at: nat, limits: Limits) returns (content: Bytes)
    requires at <= |s| && ParseString(s, at, limits).Parsed?
    ensures HoldsAt(s, at, PrintString(content)) && |content| <= limits.maxStringBytes
  {
    var end := DigitRunEnd(s, at);
    var d := s[at..end];
    CanonicalIsDecimal(d);
    content := s[end + 1..end + 1 + Number(d)];
    assert s[at..end + 1 + Number(d)] == d + [COLON] + content;
  }

  /** An accepted text is the print of a value within the limits. */
  lemma {:induction false} ParsedValueIsPrinted(s: Bytes, at: nat, tokens: nat, depth: nat, limits: Limits)
    returns (v: Value)
    requires at <= |s| && ParseValue(s, at, tokens, depth, limits).Parsed?
    ensures HoldsAt(s, at, Print(v)) && Fits(v, depth, limits) && tokens + Tokens(v) <= limits.maxTokens
    decreases |s| - at, 0
  {
    hide ParseItems, ParseEntries, ParseInteger, ParseString, PrintItems, PrintEntries, PrintInteger, PrintString;
    if s[at] == INTEGER_MARK {
      var n := IntegerIsPrinted(s, at, limits);
      v := IntegerValue(n);
    } else if s[at] == LIST_MARK {
      var items := ParsedItemsArePrinted(s, at + 1, tokens + 1, depth, [], limits);
      v := ListValue(items);
      ContainerLayout(s, at, LIST_MARK, PrintItems(items));
    } else if s[at] == DICTIONARY_MARK {
      var entries := ParsedEntriesArePrinted(s, at + 1, tokens + 1, depth, [], {}, limits);
      v := DictionaryValue(entries);
      ContainerLayout(s, at, DICTIONARY_MARK, PrintEntries(entries));
    } else {
      var content := StringIsPrinted(s, at, limits);
      v := StringValue(content);
    }
  }

  lemma {:induction false} ParsedItemsArePrinted(s: Bytes, at: nat, tokens: nat, depth: nat, before: seq<Node>,
                                                 limits: Limits)
    returns (items: seq<Value>)
    requires at <= |s| && ParseItems(s, at, tokens, depth, before, limits).Parsed? && tokens <= limits.maxTokens
    requires |before| <= limits.maxContainerEntries
    ensures HoldsAt(s, at, PrintItems(items))
    ensures at + |PrintItems(items)| < |s| && s[at + |PrintItems(items)|] == END_MARK
    ensures ItemsFit(items, depth + 1, limits) && |before| + |items| <= limits.maxContainerEntries
    ensures tokens + ItemTokens(items) <= limits.maxTokens
    decreases |s| - at, 1
  {
    hide ParseValue, Print, Fits, Tokens, Locate, Decimal, DigitRunEnd;
    if s[at] == END_MARK {
      items := [];
    } else {
      var v := ParsedValueIsPrinted(s, at, tokens, depth + 1, limits);
      PrintedValueParses(s, at, tokens, depth + 1, v, limits);
      var rest := ParsedItemsArePrinted(s, at + |Print(v)|, tokens + Tokens(v), depth, before + [Locate(v, at)],
                                        limits);
      items := [v] + rest;
      HoldsAtSplit(s, at, Print(v), PrintItems(rest));
    }
  }

  lemma NoPart(s: Bytes, at: nat)
    requires at <= |s|
    ensures HoldsAt(s, at, [])
  {
  }

  lemma {:induction false} ParsedEntriesArePrinted(s: Bytes, at: nat, tokens: nat, depth: nat, before: seq<NodeEntry>,
                                                   keys: set<Bytes>, limits: Limits)
    returns (entries: seq<Entry>)
    requires at <= |s| && ParseEntries(s, at, tokens, depth, before, keys, limits).Parsed?
    requires tokens <= limits.maxTokens && |before| <= limits.maxContainerEntries
    ensures HoldsAt(s, at, PrintEntries(entries))
    ensures at + |PrintEntries(entries)| < |s| && s[at + |PrintEntries(entries)|] == END_MARK
    ensures EntriesFit(entries, depth + 1, limits) && |before| + |entries| <= limits.maxContainerEntries
    ensures DistinctKeys(entries) && keys !! KeysOf(entries)
    ensures tokens + EntryTokens(entries) <= limits.maxTokens
    decreases |s| - at, 1
  {
    hide ParseValue, ParseString, PrintString, Print, Fits, Tokens, Locate, KeySpan, KeysOf, DistinctKeys, HoldsAt,
         DigitRunEnd, Decimal, IsDigit;
    if s[at] == END_MARK {
      entries := [];
      NoKeys(keys);
      NoPart(s, at);
    } else {
      var key := StringIsPrinted(s, at, limits);
      StringParses(s, at, key, limits);
      KeySpanHolds(key, at, s);
      var after := at + |PrintString(key)|;
      var v := ParsedValueIsPrinted(s, after, tokens + 1, depth + 1, limits);
      PrintedValueParses(s, after, tokens + 1, depth + 1, v, limits);
      var e := Entry(key, v);
      var rest := ParsedEntriesArePrinted(s, at + |PrintEntry(e)|, tokens + TokensOfEntry(e), depth,
                                          before + [LocateEntry(e, at)], keys + {key}, limits);
      entries := [e] + rest;
      HoldsAtSplit(s, at, PrintString(key), Print(v));
      HoldsAtSplit(s, at, PrintEntry(e), PrintEntries(rest));
      assert entries[1..] == rest;
      DistinctCons(e, rest, keys);
    }
  }

  // ----- the two directions together ------------------------------------------------------------

  /** What decode accepts is the print of exactly one decodable value, located at offset zero. */
  lemma {:induction false} DecodeInvertsPrint(s: Bytes, limits: Limits)
    ensures Decode(s, limits).Parsed? ==>
              var v := ValueOf(Decode(s, limits).value, s);
              s == Print(v) && Decodable(v, limits) && Decode(s, limits).value == Locate(v, 0)
  {
    if Decode(s, limits).Parsed? {
      var v := ParsedValueIsPrinted(s, 0, 0, 0, limits);
      PrintedValueParses(s, 0, 0, 0, v, limits);
      LocateReadsBack(v, 0, s);
      assert s[0..|Print(v)|] == s;
    }
  }

  lemma PrintInvertsDecode(v: Value, limits: Limits)
    requires Decodable(v, limits)
    ensures Decode(Print(v), limits) == Parsed(Locate(v, 0), |Print(v)|, Tokens(v))
    ensures ValueOf(Decode(Print(v), limits).value, Print(v)) == v
  {
    var s := Print(v);
    assert s[0..|s|] == s;
    PrintedValueParses(s, 0, 0, 0, v, limits);
    LocateReadsBack(v, 0, s);
  }

  /** Decode accepts exactly the prints of decodable values. */
  lemma {:induction false} DecodeAcceptsExactlyPrints(s: Bytes, limits: Limits)
    ensures Decode(s, limits).Parsed? <==> exists v :: Decodable(v, limits) && Print(v) == s
  {
    if Decode(s, limits).Parsed? {
      DecodeInvertsPrint(s, limits);
    } else if exists v :: Decodable(v, limits) && Print(v) == s {
      var v :| Decodable(v, limits) && Print(v) == s;
      PrintInvertsDecode(v, limits);
    }
  }

  lemma PrintIsInjective(v: Value, w: Value, limits: Limits)
    requires Decodable(v, limits) && Decodable(w, limits) && Print(v) == Print(w)
    ensures v == w
  {
    PrintInvertsDecode(v, limits);
    PrintInvertsDecode(w, limits);
  }

  /** Every node of an accepted tree carries the span of its own print. */
  lemma {:induction false} DecodedSpansCoverPrints(s: Bytes, limits: Limits, sub: Node)
    requires Decode(s, limits).Parsed? && Occurs(sub, Decode(s, limits).value)
    ensures Raw(s, sub.encoded) == Print(ValueOf(sub, s))
    ensures sub.StringNode? ==> Print(ValueOf(sub, s)) == PrintString(Raw(s, sub.content))
  {
    DecodeInvertsPrint(s, limits);
    var v := ValueOf(Decode(s, limits).value, s);
    assert s[0..|s|] == s;
    SpansCoverPrints(v, 0, s, sub);
  }

  lemma OverflowIff(n: U64, digit: U64)
    requires digit < 10
    ensures n > (U64_MAX - digit) / 10 <==> n * 10 + digit > U64_MAX
  {
  }

  lemma NothingIsZero(d: Bytes)
    ensures Number(d[..0]) == 0
  {
  }

  // ----- the program ------------------------------------------------------------------------------

  class Parser {
    const input: Bytes
    const limits: Limits
    var position: nat
    var tokens: nat

    constructor (input: Bytes, limits: Limits)
      ensures this.input == input && this.limits == limits && position == 0 && tokens == 0
    {
      this.input := input;
      this.limits := limits;
      position, tokens := 0, 0;
    }

    /** The answer and the new state are those of `expected`. */
    ghost predicate Answers<T>(r: Option<T>, expected: Parsed<T>)
      reads this
    {
      match expected
      case Rejected => r == None
      case Parsed(value, end, used) => r == Some(value) && position == end && tokens == used
    }

    method Parse() returns (r: Option<Node>)
      requires position == 0 && tokens == 0
      modifies this
      ensures r == match Decode(input, limits) { case Rejected => None case Parsed(node, _, _) => Some(node) }
    {
      if |input| > limits.maxInputBytes { return None; }
      r := ReadValue(0);
      if r == None || position != |input| { return None; }
    }

    method ReadValue(depth: nat) returns (r: Option<Node>)
      requires position <= |input|
      modifies this
      ensures Answers(r, ParseValue(input, old(position), old(tokens), depth, limits))
      decreases |input| - position, 1
    {
      hide ParseInteger, ParseString, ParseItems, ParseEntries;
      if depth > limits.maxDepth { return None; }
      tokens := tokens + 1;
      if tokens > limits.maxTokens { return None; }
      if position >= |input| { return None; }
      var start := position;
      if input[start] == INTEGER_MARK {
        r := ReadInteger(start);
      } else if input[start] == LIST_MARK {
        r := ReadList(start, depth);
      } else if input[start] == DICTIONARY_MARK {
        r := ReadDictionary(start, depth);
      } else {
        r := ReadString(start);
      }
    }

    method ReadInteger(start: nat) returns (r: Option<Node>)
      requires start == position < |input| && input[start] == INTEGER_MARK
      modifies this`position
      ensures Answers(r, match ParseInteger(input, start, limits) {
                           case Rejected => Rejected
                           case Parsed(node, end, _) => Parsed(node, end, tokens) })
    {
      hide Number, DigitRunEnd;
      position := position + 1;
      var negative := false;
      if position < |input| && input[position] == MINUS {
        negative := true;
        position := position + 1;
      }
      var first := position;
      SkipDigits();
      var digits := position - first;
      if digits == 0 || digits > limits.maxIntegerDigits || position >= |input| || input[position] != END_MARK
         || (digits > 1 && input[first] == DIGIT_ZERO)
         || (negative && digits == 1 && input[first] == DIGIT_ZERO) {
        return None;
      }
      var magnitude := ReadMagnitude(first);
      if magnitude == None { return None; }
      position := position + 1;
      var integer: int := magnitude.value;
      if (!negative && integer > I64_MAX) || (negative && integer > I64_MAX + 1) { return None; }
      r := Some(IntegerNode(Span(start, position - start), if negative then -integer else integer));
    }

    method SkipDigits()
      requires position <= |input|
      modifies this`position
      ensures position == DigitRunEnd(input, old(position))
    {
      while position < |input| && IsDigit(input[position])
        invariant position <= |input|
        invariant DigitRunEnd(input, position) == DigitRunEnd(input, old(position))
      {
        position := position + 1;
      }
    }

    /** The magnitude loop of `integer`: no step leaves the range of uint64. */
    method ReadMagnitude(first: nat) returns (r: Option<U64>)
      requires first <= position <= |input| && AllDigits(input[first..position])
      ensures var n := Number(input[first..position]); if n <= U64_MAX then r == Some(n) else r == None
    {
      hide Number;
      ghost var d := input[first..position];
      NothingIsZero(d);
      var magnitude: U64 := 0;
      var index := first;
      while index < position
        invariant first <= index <= position
        invariant magnitude == Number(d[..index - first])
      {
        var digit: U64 := input[index] - DIGIT_ZERO;
        ghost var k := index - first;
        NumberStep(d, k);
        assert d[k] == input[index];
        OverflowIff(magnitude, digit);
        if magnitude > (U64_MAX - digit) / 10 {
          NumberMonotone(d, k + 1);
          return None;
        }
        magnitude := magnitude * 10 + digit;
        index := index + 1;
      }
      assert d[..|d|] == d;
      r := Some(magnitude);
    }

    method ReadString(start: nat) returns (r: Option<Node>)
      requires start == position <= |input|
      modifies this`position
      ensures Answers(r, match ParseString(input, start, limits) {
                           case Rejected => Rejected
                           case Parsed(node, end, _) => Parsed(node, end, tokens) })
      ensures r.Some? ==> r.value.StringNode?
    {
      hide Number, DigitRunEnd;
      var length := ReadLength();
      if length == None { return None; }
      var digits := position - start;
      if digits == 0 || (digits > 1 && input[start] == DIGIT_ZERO) || position >= |input| || input[position] != COLON
         || length.value > limits.maxStringBytes {
        return None;
      }
      position := position + 1;
      if length.value > |input| - position { return None; }
      var contentStart := position;
      position := position + length.value;
      r := Some(StringNode(Span(start, position - start), Span(contentStart, length.value)));
    }

    /** The digit loop of `string`: at most twenty digits, and no step leaves the range of uint64. */
    method ReadLength() returns (r: Option<U64>)
      requires position <= |input|
      modifies this`position
      ensures var end := DigitRunEnd(input, old(position));
              var n := Number(input[old(position)..end]);
              if end - old(position) <= 20 && n <= U64_MAX then r == Some(n) && position == end else r == None
    {
      hide Number, DigitRunEnd;
      ghost var start, end := position, DigitRunEnd(input, position);
      ghost var d := input[start..end];
      NothingIsZero(d);
      var length: U64 := 0;
      var digits := 0;
      while position < |input| && IsDigit(input[position])
        invariant start <= position <= end && digits == position - start <= 20
        invariant DigitRunEnd(input, position) == end
        invariant length == Number(d[..digits])
      {
        DigitRunStep(input, position);
        digits := digits + 1;
        if digits > 20 { return None; }
        var digit: U64 := input[position] - DIGIT_ZERO;
        NumberStep(d, digits - 1);
        assert d[digits - 1] == input[position];
        position := position + 1;
        OverflowIff(length, digit);
        if length > (U64_MAX - digit) / 10 {
          NumberMonotone(d, digits);
          return None;
        }
        length := length * 10 + digit;
      }
      DigitRunStep(input, position);
      assert d[..|d|] == d;
      r := Some(length);
    }

    method ReadList(start: nat, depth: nat) returns (r: Option<Node>)
      requires start == position < |input| && input[start] == LIST_MARK
      modifies this
      ensures Answers(r, match ParseItems(input, start + 1, old(tokens), depth, [], limits) {
                           case Rejected => Rejected
                           case Parsed(items, end, used) =>
                             Parsed(ListNode(Span(start, end - start), items), end, used) })
      decreases |input| - position, 0
    {
      hide ParseString, ParseValue, ParseEntries;
      position := position + 1;
      var values: seq<Node> := [];
      while position < |input| && input[position] != END_MARK
        invariant start < position <= |input|
        invariant ParseItems(input, position, tokens, depth, values, limits)
               == ParseItems(input, start + 1, old(tokens), depth, [], limits)
        decreases |input| - position
      {
        if |values| >= limits.maxContainerEntries { return None; }
        var child := ReadValue(depth + 1);
        if child == None { return None; }
        values := values + [child.value];
      }
      if position >= |input| { return None; }
      position := position + 1;
      r := Some(ListNode(Span(start, position - start), values));
    }

    method ReadDictionary(start: nat, depth: nat) returns (r: Option<Node>)
      requires start == position < |input| && input[start] == DICTIONARY_MARK
      modifies this
      ensures Answers(r, match ParseEntries(input, start + 1, old(tokens), depth, [], {}, limits) {
                           case Rejected => Rejected
                           case Parsed(entries, end, used) =>
                             Parsed(DictionaryNode(Span(start, end - start), entries), end, used) })
      decreases |input| - position, 0
    {
      hide ParseString, ParseValue, ParseItems, Raw;
      position := position + 1;
      var values: seq<NodeEntry> := [];
      var keys: set<Bytes> := {};
      while position < |input| && input[position] != END_MARK
        invariant start < position <= |input|
        invariant ParseEntries(input, position, tokens, depth, values, keys, limits)
               == ParseEntries(input, start + 1, old(tokens), depth, [], {}, limits)
        decreases |input| - position
      {
        if |values| >= limits.maxContainerEntries { return None; }
        tokens := tokens + 1;
        if tokens > limits.maxTokens { return None; }
        var key := ReadString(position);
        if key == None { return None; }
        var name := Raw(input, key.value.content);
        if name in keys { return None; }
        keys := keys + {name};
        var child := ReadValue(depth + 1);
        if child == None { return None; }
        values := values + [NodeEntry(key.value.content, child.value)];
      }
      if position >= |input| { return None; }
      position := position + 1;
      r := Some(DictionaryNode(Span(start, position - start), values));
    }
  }
}
