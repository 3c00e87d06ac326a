/**
  The program behind `TopLevelPatch.EncodeTopLevel`: a vector of keys and already printed values
  is filled from retained spans, edited field by field, sorted and printed.
*/
module TopLevelEncoder {
  import opened ByteStrings
  import opened Bencode
  import opened Wrappers
  import opened TopLevelFields
  import opened TopLevelPatch

  datatype EncodedEntry = EncodedEntry(key: Bytes, value: Bytes)

  /** The vector that stands for `entries`. */
  function Encoded(entries: seq<Entry>): (r: seq<EncodedEntry>)
    ensures |r| == |entries|
  {
    seq(|entries|, i requires 0 <= i < |entries| => EncodedEntry(entries[i].key, Print(entries[i].value)))
  }

  lemma EncodedAppend(a: seq<Entry>, b: seq<Entry>)
    ensures Encoded(a + b) == Encoded(a) + Encoded(b)
  {
  }

  // ----- printing values -----------------------------------------------------------------------------

  lemma PrintItemsSnoc(items: seq<Value>, v: Value)
    ensures PrintItems(items + [v]) == PrintItems(items) + Print(v)
  {
    hide Print;
    if items == [] {
      assert [v][1..] == [];
      assert items + [v] == [v];
    } else {
      PrintItemsSnoc(items[1..], v);
      assert (items + [v])[1..] == items[1..] + [v];
      ConcatAssociative(Print(items[0]), PrintItems(items[1..]), Print(v));
    }
  }

  method EncodeStringList(values: seq<Bytes>) returns (output: Bytes)
    ensures output == Print(StringsValue(values))
  {
    ghost var items := StringsValue(values).items;
    output := [LIST_MARK];
    for i := 0 to |values|
      invariant output == [LIST_MARK] + PrintItems(items[..i])
    {
      PrintItemsSnoc(items[..i], items[i]);
      assert items[..i + 1] == items[..i] + [items[i]];
      output := output + PrintString(values[i]);
    }
    assert items[..|values|] == items;
    output := output + [END_MARK];
  }

  method EncodeDhtNodes(nodes: seq<DhtNode>) returns (output: Bytes)
    ensures output == Print(NodesValue(nodes))
  {
    hide PrintString, PrintInteger;
    ghost var items := NodesValue(nodes).items;
    output := [LIST_MARK];
    for i := 0 to |nodes|
      invariant output == [LIST_MARK] + PrintItems(items[..i])
    {
      ghost var before := output;
      output := output + [LIST_MARK];
      output := output + PrintString(nodes[i].host);
      output := output + PrintInteger(nodes[i].port);
      output := output + [END_MARK];
      NodePrints(nodes[i]);
      assert output == before + Print(items[i]);
      PrintItemsSnoc(items[..i], items[i]);
      assert items[..i + 1] == items[..i] + [items[i]];
    }
    assert items[..|nodes|] == items;
    output := output + [END_MARK];
  }

  lemma NodePrints(n: DhtNode)
    ensures Print(NodeValue(n)) == [LIST_MARK] + PrintString(n.host) + PrintInteger(n.port) + [END_MARK]
  {
    hide PrintString, PrintInteger;
    var host, port := StringValue(n.host), IntegerValue(n.port);
    PrintItemsSnoc([host], port);
    PrintItemsSnoc([], host);
    assert [host, port] == [host] + [port] && [host] == [] + [host];
  }

  /** The inner loop: one tier is appended. */
  method EncodeTier(before: Bytes, tier: Tier) returns (output: Bytes)
    ensures output == before + Print(TierValue(tier))
  {
    hide PrintString;
    output := before + [LIST_MARK];
    ghost var urls := TierValue(tier).items;
    for k := 0 to |tier|
      invariant output == before + ([LIST_MARK] + PrintItems(urls[..k]))
    {
      PrintItemsSnoc(urls[..k], urls[k]);
      assert urls[..k + 1] == urls[..k] + [urls[k]];
      output := output + PrintString(tier[k].value);
    }
    assert urls[..|tier|] == urls;
    output := output + [END_MARK];
  }

  method EncodeTrackers(tiers: seq<Tier>) returns (output: Bytes)
    ensures output == Print(TrackersValue(tiers))
  {
    hide PrintString;
    ghost var items := TrackersValue(tiers).items;
    output := [LIST_MARK];
    for i := 0 to |tiers|
      invariant output == [LIST_MARK] + PrintItems(items[..i])
    {
      output := EncodeTier(output, tiers[i]);
      PrintItemsSnoc(items[..i], items[i]);
      assert items[..i + 1] == items[..i] + [items[i]];
    }
    assert items[..|tiers|] == items;
    output := output + [END_MARK];
  }

  // ----- the vector of entries --------------------------------------------------------------------------

  /** erase_entry */
  method EraseEntry(entries: seq<EncodedEntry>, key: Bytes, ghost meaning: seq<Entry>) returns (r: seq<EncodedEntry>)
    requires entries == Encoded(meaning)
    ensures r == Encoded(Without(meaning, {key}))
  {
    hide Print;
    r := [];
    for i := 0 to |entries|
      invariant r == Encoded(Without(meaning[..i], {key}))
    {
      assert meaning[..i + 1][..i] == meaning[..i];
      if entries[i].key != key {
        EncodedAppend(Without(meaning[..i], {key}), [meaning[i]]);
        r := r + [entries[i]];
      }
    }
    assert meaning[..|entries|] == meaning;
  }

  lemma {:induction false} WithoutTwice(entries: seq<Entry>, a: set<Bytes>, b: set<Bytes>)
    ensures Without(Without(entries, a), b) == Without(entries, a + b)
  {
    if entries != [] {
      var n := |entries| - 1;
      WithoutTwice(entries[..n], a, b);
      var front := Without(entries[..n], a);
      if entries[n].key !in a {
        assert (front + [entries[n]])[..|front|] == front;
      }
    }
  }

  lemma {:induction false} WithoutNothing(entries: seq<Entry>)
    ensures Without(entries, {}) == entries
  {
    if entries != [] {
      WithoutNothing(entries[..|entries| - 1]);
    }
  }

  /** set_entry, on a list that no longer holds the key of any entry but those it replaces. */
  method SetEntry(entries: seq<EncodedEntry>, key: Bytes, value: Bytes, ghost meaning: seq<Entry>, ghost v: Value)
    returns (r: seq<EncodedEntry>)
    requires entries == Encoded(meaning) && value == Print(v)
    ensures r == Encoded(Without(meaning, {key}) + [Entry(key, v)])
  {
    hide Print;
    r := EraseEntry(entries, key, meaning);
    EncodedAppend(Without(meaning, {key}), [Entry(key, v)]);
    r := r + [EncodedEntry(key, value)];
  }

  /** Setting a key right after erasing it. */
  lemma EraseThenSet(entries: seq<Entry>, keys: set<Bytes>, key: Bytes, v: Value)
    requires key in keys
    ensures Without(Without(entries, keys), {key}) + [Entry(key, v)] == Apply(entries, Edit(keys, [Entry(key, v)]))
  {
    WithoutTwice(entries, keys, {key});
    assert keys + {key} == keys;
  }

  lemma EraseOnly(entries: seq<Entry>, keys: set<Bytes>)
    ensures Without(entries, keys) == Apply(entries, Edit(keys, []))
  {
  }

  lemma NoEditApplies(entries: seq<Entry>)
    ensures Apply(entries, NO_EDIT) == entries
  {
    WithoutNothing(entries);
  }

  method ApplyText(entries: seq<EncodedEntry>, key: Bytes, before: Option<Bytes>, after: Option<Bytes>,
                   ghost meaning: seq<Entry>)
    returns (r: seq<EncodedEntry>)
    requires entries == Encoded(meaning)
    ensures r == Encoded(Apply(meaning, TextEdit(key, before, after)))
  {
    hide Encoded, Apply, Without;
    r := entries;
    if after == before {
      NoEditApplies(meaning);
    } else {
      r := EraseEntry(r, key, meaning);
      if after.Some? {
        r := SetEntry(r, key, PrintString(after.value), Without(meaning, {key}), StringValue(after.value));
        EraseThenSet(meaning, {key}, key, StringValue(after.value));
      } else {
        EraseOnly(meaning, {key});
      }
    }
  }

  method ApplyDate(entries: seq<EncodedEntry>, before: Option<int>, after: Option<int>, ghost meaning: seq<Entry>)
    returns (r: seq<EncodedEntry>)
    requires entries == Encoded(meaning)
    ensures r == Encoded(Apply(meaning, DateEdit(before, after)))
  {
    hide Encoded, Apply, Without;
    r := entries;
    if after == before {
      NoEditApplies(meaning);
    } else {
      r := EraseEntry(r, CREATION_DATE, meaning);
      if after.Some? {
        r := SetEntry(r, CREATION_DATE, PrintInteger(after.value), Without(meaning, {CREATION_DATE}),
                      IntegerValue(after.value));
        EraseThenSet(meaning, {CREATION_DATE}, CREATION_DATE, IntegerValue(after.value));
      } else {
        EraseOnly(meaning, {CREATION_DATE});
      }
    }
  }

  method ApplySeeds(entries: seq<EncodedEntry>, before: seq<Bytes>, after: seq<Bytes>, ghost meaning: seq<Entry>)
    returns (r: seq<EncodedEntry>)
    requires entries == Encoded(meaning)
    ensures r == Encoded(Apply(meaning, SeedsEdit(before, after)))
  {
    hide Encoded, Apply, Without;
    r := entries;
    if after == before {
      NoEditApplies(meaning);
    } else {
      ghost var erased := Without(meaning, {URL_LIST, HTTP_SEEDS});
      r := EraseEntry(r, URL_LIST, meaning);
      r := EraseEntry(r, HTTP_SEEDS, Without(meaning, {URL_LIST}));
      WithoutTwice(meaning, {URL_LIST}, {HTTP_SEEDS});
      assert {URL_LIST} + {HTTP_SEEDS} == {URL_LIST, HTTP_SEEDS};
      if after != [] {
        var value := EncodeStringList(after);
        r := SetEntry(r, URL_LIST, value, erased, StringsValue(after));
        EraseThenSet(meaning, {URL_LIST, HTTP_SEEDS}, URL_LIST, StringsValue(after));
      } else {
        EraseOnly(meaning, {URL_LIST, HTTP_SEEDS});
      }
    }
  }

  method ApplyCollections(entries: seq<EncodedEntry>, before: seq<Bytes>, after: seq<Bytes>, ghost meaning: seq<Entry>)
    returns (r: seq<EncodedEntry>)
    requires entries == Encoded(meaning)
    ensures r == Encoded(Apply(meaning, CollectionsEdit(before, after)))
  {
    hide Encoded, Apply, Without;
    r := entries;
    if after == before {
      NoEditApplies(meaning);
    } else {
      r := EraseEntry(r, COLLECTIONS, meaning);
      if after != [] {
        var value := EncodeStringList(after);
        r := SetEntry(r, COLLECTIONS, value, Without(meaning, {COLLECTIONS}), StringsValue(after));
        EraseThenSet(meaning, {COLLECTIONS}, COLLECTIONS, StringsValue(after));
      } else {
        EraseOnly(meaning, {COLLECTIONS});
      }
    }
  }

  method ApplyNodes(entries: seq<EncodedEntry>, before: seq<DhtNode>, after: seq<DhtNode>, ghost meaning: seq<Entry>)
    returns (r: seq<EncodedEntry>)
    requires entries == Encoded(meaning)
    ensures r == Encoded(Apply(meaning, NodesEdit(before, after)))
  {
    hide Encoded, Apply, Without;
    r := entries;
    if after == before {
      NoEditApplies(meaning);
    } else {
      r := EraseEntry(r, NODES, meaning);
      if after != [] {
        var value := EncodeDhtNodes(after);
        r := SetEntry(r, NODES, value, Without(meaning, {NODES}), NodesValue(after));
        EraseThenSet(meaning, {NODES}, NODES, NodesValue(after));
      } else {
        EraseOnly(meaning, {NODES});
      }
    }
  }

  /** Setting a second key after a first one was set. */
  lemma EraseThenSetTwo(entries: seq<Entry>, a: Entry, b: Entry)
    requires a.key != b.key
    ensures Without(Without(Without(entries, {a.key, b.key}), {a.key}) + [a], {b.key}) + [b]
         == Apply(entries, Edit({a.key, b.key}, [a, b]))
  {
    EraseThenSet(entries, {a.key, b.key}, a.key, a.value);
    var once := Without(entries, {a.key, b.key});
    WithoutTwice(entries, {a.key, b.key}, {b.key});
    assert {a.key, b.key} + {b.key} == {a.key, b.key};
    assert (once + [a])[..|once|] == once;
    assert once + [a] + [b] == once + [a, b];
  }

  method ApplyTrackers(entries: seq<EncodedEntry>, before: seq<Tier>, after: seq<Tier>, ghost meaning: seq<Entry>)
    returns (r: seq<EncodedEntry>)
    requires entries == Encoded(meaning) && forall tier :: tier in after ==> tier != []
    ensures r == Encoded(Apply(meaning, TrackersEdit(before, after)))
  {
    hide Encoded, Apply, Without, Print, TrackersValue, Ascii;
    r := entries;
    if SameTrackers(before, after) {
      NoEditApplies(meaning);
    } else {
      ghost var erased := Without(meaning, {ANNOUNCE, ANNOUNCE_LIST});
      r := EraseEntry(r, ANNOUNCE, meaning);
      r := EraseEntry(r, ANNOUNCE_LIST, Without(meaning, {ANNOUNCE}));
      WithoutTwice(meaning, {ANNOUNCE}, {ANNOUNCE_LIST});
      assert {ANNOUNCE} + {ANNOUNCE_LIST} == {ANNOUNCE, ANNOUNCE_LIST};
      if after != [] {
        assert after[0] in after;
        var first := after[0][0].value;
        PrintOfString(first);
        r := SetEntry(r, ANNOUNCE, PrintString(first), erased, StringValue(first));
        var value := EncodeTrackers(after);
        ghost var a, b := Entry(ANNOUNCE, StringValue(first)), Entry(ANNOUNCE_LIST, TrackersValue(after));
        r := SetEntry(r, ANNOUNCE_LIST, value, Without(erased, {ANNOUNCE}) + [a], TrackersValue(after));
        KeysDiffer();
        EraseThenSetTwo(meaning, a, b);
      } else {
        EraseOnly(meaning, {ANNOUNCE, ANNOUNCE_LIST});
      }
    }
  }

  lemma PrintOfString(content: Bytes)
    ensures Print(StringValue(content)) == PrintString(content)
  {
  }

  // ----- sorting and printing the vector --------------------------------------------------------------------

  function InsertEncoded(e: EncodedEntry, sorted: seq<EncodedEntry>): seq<EncodedEntry> {
    if sorted == [] || Less(e.key, sorted[0].key) then [e] + sorted
    else [sorted[0]] + InsertEncoded(e, sorted[1..])
  }

  /** What std::sort leaves; `TopLevelFields.SortedIsUnique` shows that no other order is possible. */
  function SortedEncoded(entries: seq<EncodedEntry>): seq<EncodedEntry> {
    if entries == [] then [] else InsertEncoded(entries[0], SortedEncoded(entries[1..]))
  }

  lemma {:induction false} InsertCommutes(e: Entry, sorted: seq<Entry>)
    ensures InsertEncoded(EncodedEntry(e.key, Print(e.value)), Encoded(sorted)) == Encoded(Insert(e, sorted))
  {
    hide Print, Less;
    if sorted == [] || Less(e.key, sorted[0].key) {
      EncodedAppend([e], sorted);
    } else {
      InsertCommutes(e, sorted[1..]);
      assert Encoded(sorted)[1..] == Encoded(sorted[1..]);
      EncodedAppend([sorted[0]], Insert(e, sorted[1..]));
    }
  }

  lemma {:induction false} SortCommutes(entries: seq<Entry>)
    ensures SortedEncoded(Encoded(entries)) == Encoded(Sorted(entries))
  {
    hide Print;
    if entries != [] {
      SortCommutes(entries[1..]);
      assert Encoded(entries)[1..] == Encoded(entries[1..]);
      InsertCommutes(entries[0], Sorted(entries[1..]));
    }
  }

  method PrintDictionary(entries: seq<EncodedEntry>, ghost meaning: seq<Entry>) returns (output: Bytes)
    requires entries == Encoded(meaning)
    ensures output == Print(DictionaryValue(meaning))
  {
    hide PrintString;
    output := [DICTIONARY_MARK];
    for i := 0 to |entries|
      invariant output == [DICTIONARY_MARK] + PrintEntries(meaning[..i])
    {
      assert meaning[..i + 1] == meaning[..i] + [meaning[i]];
      PrintEntriesAppend(meaning[..i], [meaning[i]]);
      assert [meaning[i]][1..] == [];
      output := output + PrintString(entries[i].key);
      output := output + entries[i].value;
    }
    assert meaning[..|entries|] == meaning;
    output := output + [END_MARK];
  }

  /** encode_patch, for a candidate with the retained info and source. */
  method EncodePatch(r: Retained, c: Candidate) returns (output: Bytes)
    requires forall tier :: tier in c.trackers ==> tier != []
    ensures output == Print(DictionaryValue(Patched(r, c)))
  {
    hide Print, Apply, Encoded, Ascii, TextEdit, DateEdit, SeedsEdit, CollectionsEdit, NodesEdit, TrackersEdit, Sorted;
    ghost var edits := Edits(r, c);
    var entries := Encoded(r.tops);
    ghost var m0 := r.tops;
    entries := ApplyText(entries, COMMENT, r.metadata.comment, c.metadata.comment, m0);
    ghost var m1 := Apply(m0, edits[0]);
    entries := ApplyText(entries, CREATED_BY, r.metadata.creator, c.metadata.creator, m1);
    ghost var m2 := Apply(m1, edits[1]);
    entries := ApplyDate(entries, r.metadata.creationTime, c.metadata.creationTime, m2);
    ghost var m3 := Apply(m2, edits[2]);
    entries := ApplySeeds(entries, r.metadata.webSeeds, c.metadata.webSeeds, m3);
    ghost var m4 := Apply(m3, edits[3]);
    entries := ApplyCollections(entries, r.metadata.collections, c.metadata.collections, m4);
    ghost var m5 := Apply(m4, edits[4]);
    entries := ApplyNodes(entries, r.metadata.dhtNodes, c.metadata.dhtNodes, m5);
    ghost var m6 := Apply(m5, edits[5]);
    entries := ApplyTrackers(entries, r.trackers, c.trackers, m6);
    ghost var m7 := Apply(m6, edits[6]);
    SevenEdits(r.tops, edits);
    SortCommutes(m7);
    output := PrintDictionary(SortedEncoded(entries), Sorted(m7));
  }

  lemma SevenEdits(entries: seq<Entry>, e: seq<Edit>)
    requires |e| == 7
    ensures ApplyAll(entries, e)
         == Apply(Apply(Apply(Apply(Apply(Apply(Apply(entries, e[0]), e[1]), e[2]), e[3]), e[4]), e[5]), e[6])
  {
    hide Apply;
    ApplyAllStep(entries, e, 1);
    ApplyAllStep(entries, e, 2);
    ApplyAllStep(entries, e, 3);
    ApplyAllStep(entries, e, 4);
    ApplyAllStep(entries, e, 5);
    ApplyAllStep(entries, e, 6);
    ApplyAllStep(entries, e, 7);
    assert e[..7] == e && e[..0] == [];
  }

  lemma ApplyAllStep(entries: seq<Entry>, e: seq<Edit>, n: nat)
    requires 0 < n <= |e|
    ensures ApplyAll(entries, e[..n]) == Apply(ApplyAll(entries, e[..n - 1]), e[n - 1])
  {
    assert e[..n][..n - 1] == e[..n - 1];
  }

  /** encode_top_level_patch; `original` are the retained bytes. */
  method EncodeTopLevelPatch(retained: Option<Retained>, original: Bytes, c: Candidate) returns (r: Encoding)
    requires forall tier :: tier in c.trackers ==> tier != []
    requires retained.Some? ==> original == Print(DictionaryValue(retained.value.tops))
    ensures r == EncodeTopLevel(retained, c)
  {
    if retained == None || !c.sameInfo { return NeedRebuild; }
    var state := retained.value;
    if c.metadata.source != state.metadata.source { return NeedRebuild; }
    if c.metadata == state.metadata && SameTrackers(c.trackers, state.trackers) {
      return Encoding.Encoded(original);
    }
    var bytes := EncodePatch(state, c);
    r := Encoding.Encoded(bytes);
  }
}
