/** The reader loops of the program, each proved against its reader in `TopLevelFields`. */
module TopLevelReaders {
  import opened ByteStrings
  import opened Bencode
  import opened Wrappers
  import opened Urls
  import opened TopLevelFields
  import Trackers
  import Utf8

  /** One more item of a reader loop. */
  lemma ReadEachStep<T>(items: seq<Value>, i: nat, read: Value -> Result<seq<T>>)
    requires i < |items|
    ensures ReadEach(items[..i + 1], read)
         == match ReadEach(items[..i], read)
            case Failure => Failure
            case Success(front) =>
              match read(items[i])
              case Failure => Failure
              case Success(last) => Success(front + last)
  {
    assert items[..i + 1][..i] == items[..i];
  }

  lemma {:induction false} ReadEachFails<T>(items: seq<Value>, i: nat, read: Value -> Result<seq<T>>)
    requires i <= |items| && ReadEach(items[..i], read) == Failure
    ensures ReadEach(items, read) == Failure
    decreases |items| - i
  {
    if i == |items| {
      assert items[..i] == items;
    } else {
      ReadEachStep(items, i, read);
      ReadEachFails(items, i + 1, read);
    }
  }

  /** append_web_seed */
  method AppendWebSeed(v: Value, mode: Mode, output: seq<Bytes>) returns (r: Result<seq<Bytes>>)
    ensures r == match ReadSeed(v, mode) { case Failure => Failure case Success(s) => Success(output + s) }
  {
    if !v.StringValue? { return Failure; }
    if ParseUrl(v.content, WEB_SEED_SCHEMES).Some? { return Success(output + [v.content]); }
    if mode == Strict { return Failure; }
    assert output + [] == output;
    r := Success(output);
  }

  /** read_web_seed_field, appending to what was read before. */
  method ReadWebSeedField(tops: seq<Entry>, key: Bytes, mode: Mode, before: seq<Bytes>) returns (r: Result<seq<Bytes>>)
    ensures r == match ReadSeeds(Lookup(tops, key), mode) {
                   case Failure => Failure
                   case Success(s) => Success(before + s) }
  {
    hide ReadSeed;
    var node := Lookup(tops, key);
    if node == None {
      assert before + [] == before;
      return Success(before);
    }
    if node.value.StringValue? {
      r := AppendWebSeed(node.value, mode, before);
      return;
    }
    if !node.value.ListValue? { return Failure; }
    ghost var read := (item: Value) => ReadSeed(item, mode);
    var items := node.value.items;
    var output := before;
    assert before + [] == before;
    for i := 0 to |items|
      invariant ReadEach(items[..i], read).Success? && output == before + ReadEach(items[..i], read).value
    {
      ReadEachStep(items, i, read);
      var appended := AppendWebSeed(items[i], mode, output);
      if appended == Failure {
        ReadEachFails(items, i + 1, read);
        return Failure;
      }
      output := appended.value;
    }
    assert items[..|items|] == items;
    r := Success(output);
  }

  method ReadCollectionsField(tops: seq<Entry>, mode: Mode) returns (r: Result<seq<Bytes>>)
    ensures r == ReadCollections(Lookup(tops, COLLECTIONS), mode)
  {
    hide Utf8.WellFormed;
    var node := Lookup(tops, COLLECTIONS);
    if node == None { return Success([]); }
    if !node.value.ListValue? { return Failure; }
    ghost var read := (item: Value) => ReadCollection(item, mode);
    var items := node.value.items;
    var output: seq<Bytes> := [];
    for i := 0 to |items|
      invariant ReadEach(items[..i], read) == Success(output)
    {
      ReadEachStep(items, i, read);
      if !items[i].StringValue? {
        ReadEachFails(items, i + 1, read);
        return Failure;
      }
      var content := items[i].content;
      var valid := Utf8.MetadataValidUtf8(content);
      if content == [] || !valid {
        if mode == Strict {
          ReadEachFails(items, i + 1, read);
          return Failure;
        }
        assert output + [] == output;
      } else {
        output := output + [content];
      }
    }
    assert items[..|items|] == items;
    r := Success(output);
  }

  method ReadDhtNodesField(tops: seq<Entry>, mode: Mode) returns (r: Result<seq<DhtNode>>)
    ensures r == ReadNodes(Lookup(tops, NODES), mode)
  {
    hide ValidNode;
    var node := Lookup(tops, NODES);
    if node == None { return Success([]); }
    if !node.value.ListValue? { return Failure; }
    ghost var read := (item: Value) => ReadNode(item, mode);
    var items := node.value.items;
    var output: seq<DhtNode> := [];
    for i := 0 to |items|
      invariant ReadEach(items[..i], read) == Success(output)
    {
      ReadEachStep(items, i, read);
      var item := items[i];
      if !item.ListValue? || |item.items| != 2 || !item.items[0].StringValue? || !item.items[1].IntegerValue?
         || item.items[1].integer < 0 || item.items[1].integer > 0xFFFF_FFFF {
        ReadEachFails(items, i + 1, read);
        return Failure;
      }
      var parsed := DhtNode(item.items[0].content, item.items[1].integer);
      if ValidNode(parsed) {
        output := output + [parsed];
      } else if mode == Strict {
        ReadEachFails(items, i + 1, read);
        return Failure;
      } else {
        assert output + [] == output;
      }
    }
    assert items[..|items|] == items;
    r := Success(output);
  }

  /** One tier of `announce-list`. */
  method ReadTierUrls(items: seq<Value>, mode: Mode) returns (r: Result<seq<Trackers.TrackerUrl>>)
    ensures r == ReadEach(items, (item: Value) => ReadUrl(item, mode))
  {
    hide ReadUrl;
    ghost var read := (item: Value) => ReadUrl(item, mode);
    var urls: seq<Trackers.TrackerUrl> := [];
    for i := 0 to |items|
      invariant ReadEach(items[..i], read) == Success(urls)
    {
      ReadEachStep(items, i, read);
      var url := ReadUrl(items[i], mode);
      if url == Failure {
        ReadEachFails(items, i + 1, read);
        return Failure;
      }
      urls := urls + url.value;
    }
    assert items[..|items|] == items;
    r := Success(urls);
  }

  /** read_trackers */
  method ReadTrackerList(tops: seq<Entry>, mode: Mode) returns (r: Result<seq<Tier>>)
    ensures r == ReadTrackers(tops, mode)
  {
    hide ReadUrl, Lookup, Trackers.Deduplicated;
    var tiers: seq<Tier> := [];
    var announceList := Lookup(tops, ANNOUNCE_LIST);
    if announceList.Some? {
      if !announceList.value.ListValue? { return Failure; }
      ghost var read := (item: Value) => ReadTier(item, mode);
      var items := announceList.value.items;
      for i := 0 to |items|
        invariant ReadEach(items[..i], read) == Success(tiers)
      {
        ReadEachStep(items, i, read);
        if !items[i].ListValue? {
          ReadEachFails(items, i + 1, read);
          return Failure;
        }
        var urls := ReadTierUrls(items[i].items, mode);
        if urls == Failure {
          ReadEachFails(items, i + 1, read);
          return Failure;
        }
        if urls.value != [] {
          var tier := Trackers.CreateTier(urls.value);
          tiers := tiers + [tier.value];
        } else {
          assert tiers + [] == tiers;
        }
      }
      assert items[..|items|] == items;
    }
    var announce := Lookup(tops, ANNOUNCE);
    if announce.Some? && tiers == [] {
      var url := ReadUrl(announce.value, mode);
      if url == Failure { return Failure; }
      if url.value != [] {
        var tier := Trackers.CreateTier(url.value);
        tiers := [tier.value];
      }
    }
    r := Success(tiers);
  }

  // ----- what the readers accept ----------------------------------------------------------------------------

  /** The items a predicate accepts, in order. */
  ghost function Kept(items: seq<Value>, keep: Value -> bool): seq<Value> {
    if items == [] then []
    else (if keep(items[0]) then [items[0]] else []) + Kept(items[1..], keep)
  }

  lemma {:induction false} KeptAppend(items: seq<Value>, v: Value, keep: Value -> bool)
    ensures Kept(items + [v], keep) == Kept(items, keep) + (if keep(v) then [v] else [])
  {
    if items != [] {
      KeptAppend(items[1..], v, keep);
      assert (items + [v])[1..] == items[1..] + [v];
    }
  }

  /** A strict loop succeeds iff it gets one value from every item, and these are its result. */
  lemma {:induction false} StrictLoop<T>(items: seq<Value>, read: Value -> Result<seq<T>>, values: seq<T>)
    requires forall v :: read(v).Success? ==> |read(v).value| == 1
    ensures ReadEach(items, read) == Success(values)
       <==> |values| == |items| && forall i :: 0 <= i < |items| ==> read(items[i]) == Success([values[i]])
  {
    if items != [] {
      var n := |items| - 1;
      if |values| == |items| {
        assert values == values[..n] + [values[n]];
        StrictLoop(items[..n], read, values[..n]);
      }
      var front := ReadEach(items[..n], read);
      if front.Success? { StrictLoop(items[..n], read, front.value); }
    }
  }

  lemma OneItem<T>(v: Value, read: Value -> Result<seq<T>>)
    ensures ReadEach([v], read) == read(v)
  {
    assert [v][..0] == [] && [v][0] == v;
    if read(v).Success? { assert [] + read(v).value == read(v).value; }
  }

  /** A loop succeeds iff every item does. */
  lemma {:induction false} LoopSucceeds<T>(items: seq<Value>, read: Value -> Result<seq<T>>)
    ensures ReadEach(items, read).Success? <==> forall i :: 0 <= i < |items| ==> read(items[i]).Success?
  {
    if items != [] {
      LoopSucceeds(items[..|items| - 1], read);
    }
  }

  /** A lenient loop that succeeds reads what a strict one reads from the valid items. */
  lemma {:induction false} LenientLoop<T>(items: seq<Value>, lenient: Value -> Result<seq<T>>,
                                          strict: Value -> Result<seq<T>>, keep: Value -> bool)
    requires forall v :: keep(v) ==> lenient(v) == strict(v)
    requires forall v :: !keep(v) ==> lenient(v) == Failure || lenient(v) == Success([])
    ensures ReadEach(items, lenient).Success? ==> ReadEach(items, lenient) == ReadEach(Kept(items, keep), strict)
  {
    if items != [] {
      var n := |items| - 1;
      LenientLoop(items[..n], lenient, strict, keep);
      assert items == items[..n] + [items[n]];
      KeptAppend(items[..n], items[n], keep);
      var kept := Kept(items[..n], keep);
      if keep(items[n]) {
        ReadEachStep(kept + [items[n]], |kept|, strict);
        assert (kept + [items[n]])[..|kept| + 1] == kept + [items[n]] && (kept + [items[n]])[..|kept|] == kept;
      } else {
        assert kept + [] == kept;
        var front := ReadEach(items[..n], lenient);
        if front.Success? { assert front.value + [] == front.value; }
      }
    }
  }

  ghost predicate IsSeed(v: Value) {
    v.StringValue? && ParseUrl(v.content, {Ascii("http"), Ascii("https")}).Some?
  }

  /** A string is a list of one; strictly every item must be valid, leniently the others are dropped. */
  lemma {:induction false} SeedsAreRead(items: seq<Value>, url: Bytes, values: seq<Bytes>, mode: Mode)
    ensures ReadSeeds(Some(StringValue(url)), mode) == ReadSeeds(Some(ListValue([StringValue(url)])), mode)
    ensures ReadSeeds(Some(ListValue(items)), Strict) == Success(values)
       <==> items == StringsValue(values).items && forall v :: v in items ==> IsSeed(v)
    ensures ReadSeeds(Some(ListValue(items)), Lenient).Success? <==> forall v :: v in items ==> v.StringValue?
    ensures ReadSeeds(Some(ListValue(items)), Lenient).Success? ==>
              ReadSeeds(Some(ListValue(items)), Lenient) == ReadSeeds(Some(ListValue(Kept(items, IsSeed))), Strict)
  {
    hide ParseUrl, Ascii;
    var strict, lenient := (item: Value) => ReadSeed(item, Strict), (item: Value) => ReadSeed(item, Lenient);
    StrictLoop(items, strict, values);
    LoopSucceeds(items, lenient);
    LenientLoop(items, lenient, strict, IsSeed);
    OneItem(StringValue(url), (item: Value) => ReadSeed(item, mode));
  }

  ghost predicate IsCollection(v: Value) {
    v.StringValue? && v.content != [] && Utf8.WellFormed(v.content)
  }

  /** Likewise; anything but a list fails. */
  lemma CollectionsAreRead(v: Value, values: seq<Bytes>, mode: Mode)
    ensures !v.ListValue? ==> ReadCollections(Some(v), mode) == Failure
    ensures v.ListValue? ==> (ReadCollections(Some(v), Strict) == Success(values)
                              <==> v == StringsValue(values) && forall item :: item in v.items ==> IsCollection(item))
    ensures v.ListValue? ==> (ReadCollections(Some(v), Lenient).Success?
                              <==> forall item :: item in v.items ==> item.StringValue?)
    ensures ReadCollections(Some(v), Lenient).Success? ==>
              ReadCollections(Some(v), Lenient) == ReadCollections(Some(ListValue(Kept(v.items, IsCollection))), Strict)
  {
    hide Utf8.WellFormed;
    if v.ListValue? {
      var strict := (item: Value) => ReadCollection(item, Strict);
      var lenient := (item: Value) => ReadCollection(item, Lenient);
      StrictLoop(v.items, strict, values);
      LoopSucceeds(v.items, lenient);
      LenientLoop(v.items, lenient, strict, IsCollection);
    }
  }

  predicate NodeShaped(v: Value) {
    v.ListValue? && |v.items| == 2 && v.items[0].StringValue? && v.items[1].IntegerValue?
  }

  predicate PortFits(v: Value) { NodeShaped(v) && 0 <= v.items[1].integer < 0x1_0000_0000 }

  ghost predicate IsNode(v: Value) {
    && NodeShaped(v)
    && v.items[0].content != [] && Utf8.WellFormed(v.items[0].content) && Printable(v.items[0].content)
    && 1 <= v.items[1].integer <= 65535
  }

  /** Ports beyond 32 bits fail in both modes, other invalid ones only strictly. */
  lemma NodesAreRead(v: Value, nodes: seq<DhtNode>, mode: Mode)
    ensures !v.ListValue? ==> ReadNodes(Some(v), mode) == Failure
    ensures v.ListValue? ==> (ReadNodes(Some(v), Strict) == Success(nodes)
                              <==> v == NodesValue(nodes) && forall item :: item in v.items ==> IsNode(item))
    ensures v.ListValue? ==> (ReadNodes(Some(v), Lenient).Success?
                              <==> forall item :: item in v.items ==> PortFits(item))
    ensures ReadNodes(Some(v), Lenient).Success? ==>
              ReadNodes(Some(v), Lenient) == ReadNodes(Some(ListValue(Kept(v.items, IsNode))), Strict)
  {
    hide Utf8.WellFormed, Printable;
    if v.ListValue? {
      var strict, lenient := (item: Value) => ReadNode(item, Strict), (item: Value) => ReadNode(item, Lenient);
      StrictLoop(v.items, strict, nodes);
      LoopSucceeds(v.items, lenient);
      LenientLoop(v.items, lenient, strict, IsNode);
      forall i | 0 <= i < |v.items| ensures lenient(v.items[i]).Success? <==> PortFits(v.items[i]) {
        LenientNode(v.items[i]);
      }
      if |nodes| == |v.items| {
        forall i | 0 <= i < |nodes|
          ensures strict(v.items[i]) == Success([nodes[i]]) <==> v.items[i] == NodeValue(nodes[i]) && IsNode(v.items[i])
        {
          StrictNode(v.items[i], nodes[i]);
        }
      }
    }
  }

  lemma LenientNode(v: Value)
    ensures ReadNode(v, Lenient).Success? <==> PortFits(v)
  {
    hide Utf8.WellFormed, Printable;
  }

  lemma StrictNode(v: Value, n: DhtNode)
    ensures ReadNode(v, Strict) == Success([n]) <==> v == NodeValue(n) && IsNode(v)
  {
    hide Utf8.WellFormed, Printable;
    if NodeShaped(v) { assert v.items == [v.items[0], v.items[1]]; }
  }

  ghost predicate IsTracker(v: Value) {
    v.StringValue? && Trackers.ParseTracker(v.content).Some?
  }

  /** Lists of URLs that all parse. */
  ghost predicate AllParse(lists: seq<Tier>) {
    forall tier, t :: tier in lists && t in tier ==> Trackers.ParseTracker(t.value) == Some(t)
  }

  lemma StrictTier(tier: Tier)
    requires forall t :: t in tier ==> Trackers.ParseTracker(t.value) == Some(t)
    ensures ReadTier(TierValue(tier), Strict) == Success(Trackers.MadeList([tier]))
  {
    hide Trackers.ParseTracker, Trackers.Deduplicated;
    var read := (item: Value) => ReadUrl(item, Strict);
    StrictLoop(TierValue(tier).items, read, tier);
    MadeOfOne(tier);
  }

  lemma MadeOfOne(tier: Tier)
    ensures Trackers.MadeList([tier]) == if tier == [] then [] else [Trackers.Deduplicated(tier)]
  {
    hide Trackers.Deduplicated;
    assert [tier][..0] == [];
  }

  /** Lists of valid URLs read as the tiers made of them: empty ones dropped, equal trackers once. */
  lemma {:induction false} ValidListsAreRead(lists: seq<Tier>)
    requires AllParse(lists)
    ensures ReadAnnounceList(Some(TrackersValue(lists)), Strict) == Success(Trackers.MadeList(lists))
  {
    hide Trackers.ParseTracker, ReadTier, TierValue, Trackers.Deduplicated;
    if lists != [] {
      var n := |lists| - 1;
      ValidListsAreRead(lists[..n]);
      StrictTier(lists[n]);
      MadeOfOne(lists[n]);
      assert TrackersValue(lists).items[..n] == TrackersValue(lists[..n]).items;
      assert Trackers.MadeList(lists[..n]) + [] == Trackers.MadeList(lists[..n]);
    }
  }

  /** What is left of the tiers when invalid URLs are dropped. */
  ghost function KeptTiers(items: seq<Value>): seq<Value> {
    seq(|items|, i requires 0 <= i < |items| =>
          if items[i].ListValue? then ListValue(Kept(items[i].items, IsTracker)) else items[i])
  }

  /** A tier must be a list of strings, strictly of valid URLs. */
  ghost predicate TierShaped(v: Value, mode: Mode) {
    v.ListValue? && forall url :: url in v.items ==> url.StringValue? && (mode == Strict ==> IsTracker(url))
  }

  lemma TierReads(v: Value, mode: Mode)
    ensures ReadTier(v, mode).Success? <==> TierShaped(v, mode)
  {
    hide Trackers.ParseTracker, Trackers.Deduplicated;
    if v.ListValue? {
      LoopSucceeds(v.items, (item: Value) => ReadUrl(item, mode));
    }
  }

  /** A strict list must consist of lists of valid URLs, a lenient one of lists of strings. */
  lemma AnnounceListIsRead(v: Value, mode: Mode)
    ensures ReadAnnounceList(Some(v), mode).Success?
       <==> v.ListValue? && forall tier :: tier in v.items ==> TierShaped(tier, mode)
    ensures ReadAnnounceList(Some(v), Lenient).Success? ==>
              ReadAnnounceList(Some(v), Lenient) == ReadAnnounceList(Some(ListValue(KeptTiers(v.items))), Strict)
  {
    hide TierShaped, ReadTier;
    if v.ListValue? {
      LoopSucceeds(v.items, (item: Value) => ReadTier(item, mode));
      LoopSucceeds(v.items, (item: Value) => ReadTier(item, Lenient));
      forall tier | tier in v.items ensures ReadTier(tier, mode).Success? <==> TierShaped(tier, mode) {
        TierReads(tier, mode);
      }
      if ReadAnnounceList(Some(v), Lenient).Success? { LenientTiers(v.items); }
    }
  }

  lemma LenientTier(v: Value)
    requires ReadTier(v, Lenient).Success?
    ensures ReadTier(v, Lenient) == ReadTier(ListValue(Kept(v.items, IsTracker)), Strict)
  {
    hide Trackers.ParseTracker, Trackers.Deduplicated;
    LenientLoop(v.items, (item: Value) => ReadUrl(item, Lenient), (item: Value) => ReadUrl(item, Strict), IsTracker);
  }

  lemma {:induction false} LenientTiers(items: seq<Value>)
    requires forall v :: v in items ==> ReadTier(v, Lenient).Success?
    ensures forall v :: v in items ==> v.ListValue?
    ensures ReadEach(items, (item: Value) => ReadTier(item, Lenient))
         == ReadEach(KeptTiers(items), (item: Value) => ReadTier(item, Strict))
  {
    hide Kept, Trackers.Deduplicated, ReadEach;
    assert forall v :: v in items ==> v.ListValue?;
    if items == [] {
      assert KeptTiers(items) == [];
      NoItems((item: Value) => ReadTier(item, Lenient));
      NoItems((item: Value) => ReadTier(item, Strict));
    } else {
      var n := |items| - 1;
      LenientTiers(items[..n]);
      LenientTier(items[n]);
      ReadEachStep(items, n, (item: Value) => ReadTier(item, Lenient));
      ReadEachStep(KeptTiers(items), n, (item: Value) => ReadTier(item, Strict));
      assert items[..n + 1] == items && KeptTiers(items)[..n + 1] == KeptTiers(items);
      assert KeptTiers(items)[..n] == KeptTiers(items[..n]);
    }
  }

  lemma NoItems<T>(read: Value -> Result<seq<T>>)
    ensures ReadEach([], read) == Success([])
  {
  }

  /** The first tiers found win: `announce` is read iff the list gives none, and is then the only tracker. */
  lemma AnnounceIsRead(tops: seq<Entry>, mode: Mode)
    ensures var list := ReadAnnounceList(Lookup(tops, Ascii("announce-list")), mode);
            var r := ReadTrackers(tops, mode);
            && (list == Failure || list.value != [] ==> r == list)
            && (list == Success([]) ==>
                match Lookup(tops, Ascii("announce"))
                case None => r == Success([])
                case Some(StringValue(url)) =>
                  && (forall t :: Trackers.ParseTracker(url) == Some(t) ==> r == Success([[t]]))
                  && (Trackers.ParseTracker(url) == None ==> r == if mode == Strict then Failure else Success([]))
                case _ => r == Failure)
    ensures Lookup(tops, Ascii("announce-list")) == None ==> ReadAnnounceList(None, mode) == Success([])
  {
    hide Trackers.ParseTracker, Lookup, Ascii;
    var v := Lookup(tops, ANNOUNCE);
    if v.Some? && v.value.StringValue? {
      var t := Trackers.ParseTracker(v.value.content);
      if t.Some? {
        assert [t.value][..0] == [];
        assert Trackers.Deduplicated([t.value]) == [t.value];
      }
    }
  }

  predicate TextShaped(v: Option<Value>, mode: Mode) {
    v.Some? ==> v.value.StringValue? && (mode == Strict ==> Utf8.WellFormed(v.value.content))
  }

  predicate HoldsText(v: Option<Value>, text: Bytes) {
    v == Some(StringValue(text)) && Utf8.WellFormed(text)
  }

  lemma TextIsRead(v: Option<Value>, mode: Mode)
    ensures ReadText(v, mode).Success? <==> TextShaped(v, mode)
    ensures ReadText(v, mode).Success? ==> forall s :: ReadText(v, mode).value == Some(s) <==> HoldsText(v, s)
  {
    hide Utf8.WellFormed;
  }

  /**
    Every field comes from its key: `source` from the info dictionary when that has one, and the web seeds
    of `httpseeds` behind those of `url-list`.
  */
  lemma MetadataIsRead(tops: seq<Entry>, info: seq<Entry>, mode: Mode)
    requires Lookup(tops, Ascii("info")) == Some(DictionaryValue(info))
    ensures var inner := Lookup(info, Ascii("source"));
            var source := if inner.Some? then inner else Lookup(tops, Ascii("source"));
            var date := Lookup(tops, CREATION_DATE);
            var first := ReadSeeds(Lookup(tops, URL_LIST), mode);
            var second := ReadSeeds(Lookup(tops, HTTP_SEEDS), mode);
            var collections := ReadCollections(Lookup(tops, COLLECTIONS), mode);
            var nodes := ReadNodes(Lookup(tops, NODES), mode);
            && (ReadMetadata(tops, mode).Success?
                <==> && TextShaped(Lookup(tops, COMMENT), mode) && TextShaped(Lookup(tops, CREATED_BY), mode)
                     && TextShaped(source, mode) && (date.Some? ==> date.value.IntegerValue?)
                     && first.Success? && second.Success? && collections.Success? && nodes.Success?)
            && (ReadMetadata(tops, mode).Success? ==>
                  var m := ReadMetadata(tops, mode).value;
                  && (forall s :: m.comment == Some(s) <==> HoldsText(Lookup(tops, COMMENT), s))
                  && (forall s :: m.creator == Some(s) <==> HoldsText(Lookup(tops, CREATED_BY), s))
                  && (forall s :: m.source == Some(s) <==> HoldsText(source, s))
                  && (forall n :: m.creationTime == Some(n) <==> date == Some(IntegerValue(n)))
                  && m.webSeeds == first.value + second.value
                  && m.collections == collections.value && m.dhtNodes == nodes.value)
  {
    hide ReadText, TextShaped, HoldsText, Lookup, ReadSeeds, ReadCollections, ReadNodes, Ascii;
    TextIsRead(Lookup(tops, COMMENT), mode);
    TextIsRead(Lookup(tops, CREATED_BY), mode);
    TextIsRead(SourceNode(tops), mode);
  }

  /** A missing key reads as nothing, and web seeds that are neither string nor list fail. */
  lemma MissingReadsAsNothing(v: Value, mode: Mode)
    ensures ReadSeeds(None, mode) == Success([]) && ReadCollections(None, mode) == Success([])
    ensures ReadNodes(None, mode) == Success([])
    ensures !v.StringValue? && !v.ListValue? ==> ReadSeeds(Some(v), mode) == Failure
  {
  }
}
