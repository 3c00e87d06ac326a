/**
  Bencoded values, the printer of the editor, and the span trees the parser returns.

  A `Value` is the meaning of a bencoded text; a dictionary is an ordered sequence of entries,
  because the parser accepts keys in any order. A `Node` is what the parser returns: the same
  tree with offsets into the source bytes instead of contents.
*/
module Bencode {
  import opened ByteStrings

  const INTEGER_MARK: Byte := 0x69
  const LIST_MARK: Byte := 0x6C
  const DICTIONARY_MARK: Byte := 0x64
  const END_MARK: Byte := 0x65

  datatype Value =
    | IntegerValue(integer: int)
    | StringValue(content: Bytes)
    | ListValue(items: seq<Value>)
    | DictionaryValue(entries: seq<Entry>)

  datatype Entry = Entry(key: Bytes, value: Value)

  datatype Span = Span(offset: nat, size: nat)

  datatype Node =
    | IntegerNode(encoded: Span, integer: int)
    | StringNode(encoded: Span, content: Span)
    | ListNode(encoded: Span, items: seq<Node>)
    | DictionaryNode(encoded: Span, entries: seq<NodeEntry>)

  datatype NodeEntry = NodeEntry(key: Span, value: Node)

  // ----- printer ----------------------------------------------------------------------------

  function PrintInteger(n: int): Bytes {
    [INTEGER_MARK] + (if n < 0 then [MINUS] + Decimal(-n) else Decimal(n)) + [END_MARK]
  }

  function PrintString(content: Bytes): (b: Bytes)
    ensures |b| > |content| + 1
  {
    Decimal(|content|) + [COLON] + content
  }

  function Print(v: Value): (b: Bytes)
    ensures |b| > 0
    decreases v, 1
  {
    match v
    case IntegerValue(n) => PrintInteger(n)
    case StringValue(content) => PrintString(content)
    case ListValue(items) => [LIST_MARK] + PrintItems(items) + [END_MARK]
    case DictionaryValue(entries) => [DICTIONARY_MARK] + PrintEntries(entries) + [END_MARK]
  }

  lemma PrintedExample()
    ensures Print(ListValue([IntegerValue(-1), DictionaryValue([])])) == Ascii("li-1edee")
  {
    var items := [IntegerValue(-1), DictionaryValue([])];
    assert PrintItems(items[1..]) == Print(items[1]) + PrintItems([]);
  }

  function PrintItems(items: seq<Value>): Bytes
    decreases items, 0
  {
    if items == [] then [] else Print(items[0]) + PrintItems(items[1..])
  }

  function PrintEntry(e: Entry): Bytes
    decreases e, 0
  {
    PrintString(e.key) + Print(e.value)
  }

  function PrintEntries(entries: seq<Entry>): Bytes
    decreases entries, 0
  {
    if entries == [] then [] else PrintEntry(entries[0]) + PrintEntries(entries[1..])
  }

  lemma {:induction false} PrintEntriesAppend(a: seq<Entry>, b: seq<Entry>)
    ensures PrintEntries(a + b) == PrintEntries(a) + PrintEntries(b)
  {
    if a == [] {
      assert a + b == b;
    } else {
      var rest := a[1..] + b;
      assert a + b == [a[0]] + rest && (a + b)[1..] == rest;
      PrintEntriesAppend(a[1..], b);
      ConcatAssociative(PrintEntry(a[0]), PrintEntries(a[1..]), PrintEntries(b));
    }
  }

  /** A printed container: its mark, its body, and the end mark. */
  lemma ContainerLayout(s: Bytes, at: nat, mark: Byte, body: Bytes)
    ensures HoldsAt(s, at, [mark] + body + [END_MARK]) <==>
              && at + 1 + |body| < |s| && s[at] == mark && HoldsAt(s, at + 1, body)
              && s[at + 1 + |body|] == END_MARK
  {
    HoldsAtSplit(s, at, [mark] + body, [END_MARK]);
    HoldsAtSplit(s, at, [mark], body);
    if at + 1 + |body| < |s| {
      assert s[at..at + 1] == [s[at]];
      assert s[at + 1 + |body|..at + 1 + |body| + 1] == [s[at + 1 + |body|]];
    }
  }

  // ----- the span tree of a printed value ---------------------------------------------------

  /** The span tree of `Print(v)` when it starts at offset `at`. */
  function Locate(v: Value, at: nat): Node
    decreases v, 1
  {
    var span := Span(at, |Print(v)|);
    match v
    case IntegerValue(n) => IntegerNode(span, n)
    case StringValue(content) => StringNode(span, KeySpan(content, at))
    case ListValue(items) => ListNode(span, LocateItems(items, at + 1))
    case DictionaryValue(entries) => DictionaryNode(span, LocateEntries(entries, at + 1))
  }

  /** Where the content of a printed byte string lies. */
  function KeySpan(content: Bytes, at: nat): Span {
    Span(at + |Decimal(|content|)| + 1, |content|)
  }

  function LocateItems(items: seq<Value>, at: nat): (nodes: seq<Node>)
    ensures |nodes| == |items|
    decreases items, 0
  {
    if items == [] then []
    else [Locate(items[0], at)] + LocateItems(items[1..], at + |Print(items[0])|)
  }

  function LocateEntry(e: Entry, at: nat): NodeEntry
    decreases e, 0
  {
    NodeEntry(KeySpan(e.key, at), Locate(e.value, at + |PrintString(e.key)|))
  }

  function LocateEntries(entries: seq<Entry>, at: nat): (nodes: seq<NodeEntry>)
    ensures |nodes| == |entries|
    decreases entries, 0
  {
    if entries == [] then []
    else [LocateEntry(entries[0], at)] + LocateEntries(entries[1..], at + |PrintEntry(entries[0])|)
  }

  /** The i-th located entry starts where the entries before it end. */
  lemma {:induction false} LocateEntriesAt(entries: seq<Entry>, at: nat, i: nat)
    requires i < |entries|
    ensures LocateEntries(entries, at)[i] == LocateEntry(entries[i], at + |PrintEntries(entries[..i])|)
  {
    if i > 0 {
      LocateEntriesAt(entries[1..], at + |PrintEntry(entries[0])|, i - 1);
      assert entries[..i][1..] == entries[1..][..i - 1];
    }
  }

  // ----- reading a span tree back -----------------------------------------------------------

  /** The bytes a span covers (`raw`). */
  function Raw(s: Bytes, span: Span): Bytes {
    if span.offset + span.size <= |s| then s[span.offset..span.offset + span.size] else []
  }

  function ValueOf(node: Node, s: Bytes): Value
    decreases node, 1
  {
    match node
    case IntegerNode(_, n) => IntegerValue(n)
    case StringNode(_, content) => StringValue(Raw(s, content))
    case ListNode(_, items) => ListValue(ItemsOf(items, s))
    case DictionaryNode(_, entries) => DictionaryValue(EntriesOf(entries, s))
  }

  function ItemsOf(items: seq<Node>, s: Bytes): (values: seq<Value>)
    ensures |values| == |items|
    decreases items, 0
  {
    if items == [] then [] else [ValueOf(items[0], s)] + ItemsOf(items[1..], s)
  }

  function EntryOf(e: NodeEntry, s: Bytes): Entry
    decreases e, 0
  {
    Entry(Raw(s, e.key), ValueOf(e.value, s))
  }

  function EntriesOf(entries: seq<NodeEntry>, s: Bytes): (values: seq<Entry>)
    ensures |values| == |entries|
    decreases entries, 0
  {
    if entries == [] then []
    else [EntryOf(entries[0], s)] + EntriesOf(entries[1..], s)
  }

  lemma {:induction false} KeySpanHolds(content: Bytes, at: nat, s: Bytes)
    requires HoldsAt(s, at, PrintString(content))
    ensures Raw(s, KeySpan(content, at)) == content
  {
    HoldsAtSplit(s, at, Decimal(|content|) + [COLON], content);
  }

  /** Locating a printed value and reading it back gives the value. */
  lemma {:induction false} LocateReadsBack(v: Value, at: nat, s: Bytes)
    requires HoldsAt(s, at, Print(v))
    ensures ValueOf(Locate(v, at), s) == v
    decreases v, 1
  {
    match v
    case IntegerValue(_) =>
    case StringValue(content) => KeySpanHolds(content, at, s);
    case ListValue(items) =>
      ContainerLayout(s, at, LIST_MARK, PrintItems(items));
      LocateItemsReadsBack(items, at + 1, s);
    case DictionaryValue(entries) =>
      ContainerLayout(s, at, DICTIONARY_MARK, PrintEntries(entries));
      LocateEntriesReadsBack(entries, at + 1, s);
  }

  lemma {:induction false} LocateItemsReadsBack(items: seq<Value>, at: nat, s: Bytes)
    requires HoldsAt(s, at, PrintItems(items))
    ensures ItemsOf(LocateItems(items, at), s) == items
    decreases items, 0
  {
    if items != [] {
      HoldsAtSplit(s, at, Print(items[0]), PrintItems(items[1..]));
      LocateReadsBack(items[0], at, s);
      LocateItemsReadsBack(items[1..], at + |Print(items[0])|, s);
    }
  }

  lemma {:induction false} LocateEntriesReadsBack(entries: seq<Entry>, at: nat, s: Bytes)
    requires HoldsAt(s, at, PrintEntries(entries))
    ensures EntriesOf(LocateEntries(entries, at), s) == entries
    decreases entries, 0
  {
    hide Print, PrintString, Locate, KeySpan, HoldsAt;
    if entries != [] {
      var e := entries[0];
      HoldsAtSplit(s, at, PrintEntry(e), PrintEntries(entries[1..]));
      HoldsAtSplit(s, at, PrintString(e.key), Print(e.value));
      KeySpanHolds(e.key, at, s);
      LocateReadsBack(e.value, at + |PrintString(e.key)|, s);
      LocateEntriesReadsBack(entries[1..], at + |PrintEntry(e)|, s);
    }
  }

  // ----- every span of a located tree covers the print of its own node -----------------------

  predicate Occurs(sub: Node, node: Node)
    decreases node, 1
  {
    sub == node
    || (node.ListNode? && OccursInItems(sub, node.items))
    || (node.DictionaryNode? && OccursInEntries(sub, node.entries))
  }

  predicate OccursInItems(sub: Node, items: seq<Node>)
    decreases items, 0
  {
    items != [] && (Occurs(sub, items[0]) || OccursInItems(sub, items[1..]))
  }

  predicate OccursInEntry(sub: Node, e: NodeEntry)
    decreases e, 0
  {
    Occurs(sub, e.value)
  }

  predicate OccursInEntries(sub: Node, entries: seq<NodeEntry>)
    decreases entries, 0
  {
    entries != [] && (OccursInEntry(sub, entries[0]) || OccursInEntries(sub, entries[1..]))
  }

  lemma {:induction false} SpansCoverPrints(v: Value, at: nat, s: Bytes, sub: Node)
    requires HoldsAt(s, at, Print(v)) && Occurs(sub, Locate(v, at))
    ensures Raw(s, sub.encoded) == Print(ValueOf(sub, s))
    ensures sub == Locate(ValueOf(sub, s), sub.encoded.offset)
    decreases v, 1
  {
    if sub == Locate(v, at) {
      LocateReadsBack(v, at, s);
    } else if v.ListValue? {
      ContainerLayout(s, at, LIST_MARK, PrintItems(v.items));
      ItemSpansCoverPrints(v.items, at + 1, s, sub);
    } else {
      ContainerLayout(s, at, DICTIONARY_MARK, PrintEntries(v.entries));
      EntrySpansCoverPrints(v.entries, at + 1, s, sub);
    }
  }

  lemma {:induction false} ItemSpansCoverPrints(items: seq<Value>, at: nat, s: Bytes, sub: Node)
    requires HoldsAt(s, at, PrintItems(items)) && OccursInItems(sub, LocateItems(items, at))
    ensures Raw(s, sub.encoded) == Print(ValueOf(sub, s))
    ensures sub == Locate(ValueOf(sub, s), sub.encoded.offset)
    decreases items, 0
  {
    HoldsAtSplit(s, at, Print(items[0]), PrintItems(items[1..]));
    if Occurs(sub, Locate(items[0], at)) {
      SpansCoverPrints(items[0], at, s, sub);
    } else {
      ItemSpansCoverPrints(items[1..], at + |Print(items[0])|, s, sub);
    }
  }

  lemma {:induction false} EntrySpansCoverPrints(entries: seq<Entry>, at: nat, s: Bytes, sub: Node)
    requires HoldsAt(s, at, PrintEntries(entries)) && OccursInEntries(sub, LocateEntries(entries, at))
    ensures Raw(s, sub.encoded) == Print(ValueOf(sub, s))
    ensures sub == Locate(ValueOf(sub, s), sub.encoded.offset)
    decreases entries, 0
  {
    var e := entries[0];
    HoldsAtSplit(s, at, PrintEntry(e), PrintEntries(entries[1..]));
    HoldsAtSplit(s, at, PrintString(e.key), Print(e.value));
    if OccursInEntry(sub, LocateEntry(e, at)) {
      SpansCoverPrints(e.value, at + |PrintString(e.key)|, s, sub);
    } else {
      EntrySpansCoverPrints(entries[1..], at + |PrintEntry(e)|, s, sub);
    }
  }
}
