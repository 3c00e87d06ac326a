/**
  The top-level fields of a torrent: how read_metadata and read_trackers read them, what a change
  of a field erases and writes, and the lists of entries both work on.
*/
module TopLevelFields {
  import opened ByteStrings
  import opened Bencode
  import opened BencodeParser
  import opened Wrappers
  import opened Urls
  import Trackers
  import Utf8

  type Tier = Trackers.Tier

  datatype DhtNode = DhtNode(host: Bytes, port: int)

  datatype Metadata = Metadata(
    comment: Option<Bytes>,
    creator: Option<Bytes>,
    source: Option<Bytes>,
    creationTime: Option<int>,
    webSeeds: seq<Bytes>,
    collections: seq<Bytes>,
    dhtNodes: seq<DhtNode>)

  datatype Mode = Lenient | Strict

  const COMMENT: Bytes := Ascii("comment")
  const CREATED_BY: Bytes := Ascii("created by")
  const SOURCE: Bytes := Ascii("source")
  const CREATION_DATE: Bytes := Ascii("creation date")
  const URL_LIST: Bytes := Ascii("url-list")
  const HTTP_SEEDS: Bytes := Ascii("httpseeds")
  const COLLECTIONS: Bytes := Ascii("collections")
  const NODES: Bytes := Ascii("nodes")
  const ANNOUNCE: Bytes := Ascii("announce")
  const ANNOUNCE_LIST: Bytes := Ascii("announce-list")
  const INFO: Bytes := Ascii("info")

  // ----- readers ---------------------------------------------------------------------------------

  function Lookup(entries: seq<Entry>, key: Bytes): Option<Value> {
    if entries == [] then None
    else if entries[0].key == key then Some(entries[0].value)
    else Lookup(entries[1..], key)
  }

  function ReadText(node: Option<Value>, mode: Mode): Result<Option<Bytes>> {
    match node
    case None => Success(None)
    case Some(v) =>
      if !v.StringValue? then Failure
      else if Utf8.WellFormed(v.content) then Success(Some(v.content))
      else if mode == Strict then Failure
      else Success(None)
  }

  function ReadDate(node: Option<Value>): Result<Option<int>> {
    match node
    case None => Success(None)
    case Some(v) => if v.IntegerValue? then Success(Some(v.integer)) else Failure
  }

  /** What one list item contributes: nothing when it is invalid and the mode is lenient. */
  function ReadSeed(v: Value, mode: Mode): Result<seq<Bytes>> {
    if !v.StringValue? then Failure
    else if ParseUrl(v.content, WEB_SEED_SCHEMES).Some? then Success([v.content])
    else if mode == Strict then Failure
    else Success([])
  }

  function ReadCollection(v: Value, mode: Mode): Result<seq<Bytes>> {
    if !v.StringValue? then Failure
    else if v.content != [] && Utf8.WellFormed(v.content) then Success([v.content])
    else if mode == Strict then Failure
    else Success([])
  }

  predicate ValidNode(n: DhtNode) {
    n.host != [] && Utf8.WellFormed(n.host) && Printable(n.host) && 1 <= n.port <= 65535
  }

  function ReadNode(v: Value, mode: Mode): Result<seq<DhtNode>> {
    if !v.ListValue? || |v.items| != 2 || !v.items[0].StringValue? || !v.items[1].IntegerValue?
       || !(0 <= v.items[1].integer <= 0xFFFF_FFFF) then Failure
    else
      var n := DhtNode(v.items[0].content, v.items[1].integer);
      if ValidNode(n) then Success([n]) else if mode == Strict then Failure else Success([])
  }

  function ReadUrl(v: Value, mode: Mode): Result<seq<Trackers.TrackerUrl>> {
    if !v.StringValue? then Failure
    else
      match Trackers.ParseTracker(v.content)
      case Some(t) => Success([t])
      case None => if mode == Strict then Failure else Success([])
  }

  /** A tier without a valid URL is dropped. */
  function ReadTier(v: Value, mode: Mode): Result<seq<Tier>> {
    if !v.ListValue? then Failure
    else
      match ReadEach(v.items, (item: Value) => ReadUrl(item, mode))
      case Failure => Failure
      case Success(urls) => if urls == [] then Success([]) else Success([Trackers.Deduplicated(urls)])
  }

  /** The loop every list reader runs: items in order, stopping at the first failure. */
  function ReadEach<T>(items: seq<Value>, read: Value -> Result<seq<T>>): Result<seq<T>> {
    if items == [] then Success([])
    else
      var n := |items| - 1;
      match ReadEach(items[..n], read)
      case Failure => Failure
      case Success(front) =>
        match read(items[n])
        case Failure => Failure
        case Success(last) => Success(front + last)
  }

  function ReadSeeds(node: Option<Value>, mode: Mode): Result<seq<Bytes>> {
    match node
    case None => Success([])
    case Some(v) =>
      if v.StringValue? then ReadSeed(v, mode)
      else if v.ListValue? then ReadEach(v.items, (item: Value) => ReadSeed(item, mode))
      else Failure
  }

  function ReadCollections(node: Option<Value>, mode: Mode): Result<seq<Bytes>> {
    match node
    case None => Success([])
    case Some(v) =>
      if v.ListValue? then ReadEach(v.items, (item: Value) => ReadCollection(item, mode)) else Failure
  }

  function ReadNodes(node: Option<Value>, mode: Mode): Result<seq<DhtNode>> {
    match node
    case None => Success([])
    case Some(v) =>
      if v.ListValue? then ReadEach(v.items, (item: Value) => ReadNode(item, mode)) else Failure
  }

  function ReadAnnounceList(node: Option<Value>, mode: Mode): Result<seq<Tier>> {
    match node
    case None => Success([])
    case Some(v) =>
      if v.ListValue? then ReadEach(v.items, (item: Value) => ReadTier(item, mode)) else Failure
  }

  /** `announce` counts only when `announce-list` gives no tier. */
  function ReadTrackers(tops: seq<Entry>, mode: Mode): Result<seq<Tier>> {
    match ReadAnnounceList(Lookup(tops, ANNOUNCE_LIST), mode)
    case Failure => Failure
    case Success(tiers) =>
      match Lookup(tops, ANNOUNCE)
      case None => Success(tiers)
      case Some(v) =>
        if tiers != [] then Success(tiers)
        else
          match ReadUrl(v, mode)
          case Failure => Failure
          case Success(urls) => if urls == [] then Success([]) else Success([Trackers.Deduplicated(urls)])
  }

  lemma {:induction false} ReadEachSatisfies<T>(items: seq<Value>, read: Value -> Result<seq<T>>, p: T -> bool)
    requires forall v, t :: v in items && read(v).Success? && t in read(v).value ==> p(t)
    requires ReadEach(items, read).Success?
    ensures forall t :: t in ReadEach(items, read).value ==> p(t)
  {
    if items != [] {
      var n := |items| - 1;
      assert items[n] in items && forall v :: v in items[..n] ==> v in items;
      ReadEachSatisfies(items[..n], read, p);
    }
  }

  lemma {:induction false} DeduplicatedMembers(trackers: Tier)
    ensures forall t :: t in Trackers.Deduplicated(trackers) ==> t in trackers
    ensures trackers != [] ==> Trackers.Deduplicated(trackers) != []
  {
    if trackers != [] {
      var n := |trackers| - 1;
      DeduplicatedMembers(trackers[..n]);
      assert forall t :: t in trackers[..n] ==> t in trackers;
      if n == 0 { assert Trackers.Deduplicated(trackers[..n]) == []; }
    }
  }

  lemma DeduplicatedIsValid(urls: Tier)
    requires urls != [] && forall t :: t in urls ==> Trackers.ParseTracker(t.value) == Some(t)
    ensures Trackers.ValidTier(Trackers.Deduplicated(urls))
  {
    hide Trackers.ParseTracker;
    DeduplicatedMembers(urls);
    Trackers.DeduplicatedKeepsFirsts(urls);
  }

  lemma ReadTierIsValid(v: Value, mode: Mode)
    ensures ReadTier(v, mode).Success? ==> forall tier :: tier in ReadTier(v, mode).value ==> Trackers.ValidTier(tier)
  {
    hide Trackers.ValidTier, Trackers.Deduplicated;
    if ReadTier(v, mode).Success? {
      var read := (item: Value) => ReadUrl(item, mode);
      var urls := ReadEach(v.items, read);
      assert urls.Success?;
      ReadEachSatisfies(v.items, read, (t: Trackers.TrackerUrl) => Trackers.ParseTracker(t.value) == Some(t));
      if urls.value != [] { DeduplicatedIsValid(urls.value); }
    }
  }

  /** Whatever is read, in either mode, is a valid list of tiers. */
  lemma ReadTrackersAreValid(tops: seq<Entry>, mode: Mode)
    requires ReadTrackers(tops, mode).Success?
    ensures Trackers.ValidList(ReadTrackers(tops, mode).value)
  {
    hide Trackers.ValidTier, Trackers.Deduplicated, ReadTier;
    var list := Lookup(tops, ANNOUNCE_LIST);
    if list.Some? {
      var read := (item: Value) => ReadTier(item, mode);
      forall v, tier | v in list.value.items && read(v).Success? && tier in read(v).value
        ensures Trackers.ValidTier(tier)
      {
        ReadTierIsValid(v, mode);
      }
      ReadEachSatisfies(list.value.items, read, (tier: Tier) => Trackers.ValidTier(tier));
    }
    var announce := Lookup(tops, ANNOUNCE);
    if announce.Some? && ReadUrl(announce.value, mode).Success? && ReadUrl(announce.value, mode).value != [] {
      DeduplicatedIsValid(ReadUrl(announce.value, mode).value);
    }
  }

  /** `source` of the info dictionary hides a top-level `source`. */
  function SourceNode(tops: seq<Entry>): Option<Value> {
    match Lookup(tops, INFO)
    case Some(DictionaryValue(info)) =>
      if Lookup(info, SOURCE).Some? then Lookup(info, SOURCE) else Lookup(tops, SOURCE)
    case _ => Lookup(tops, SOURCE)
  }

  function ReadMetadata(tops: seq<Entry>, mode: Mode): Result<Metadata> {
    var comment := ReadText(Lookup(tops, COMMENT), mode);
    var creator := ReadText(Lookup(tops, CREATED_BY), mode);
    var source := ReadText(SourceNode(tops), mode);
    var date := ReadDate(Lookup(tops, CREATION_DATE));
    var urlList := ReadSeeds(Lookup(tops, URL_LIST), mode);
    var httpSeeds := ReadSeeds(Lookup(tops, HTTP_SEEDS), mode);
    var collections := ReadCollections(Lookup(tops, COLLECTIONS), mode);
    var nodes := ReadNodes(Lookup(tops, NODES), mode);
    if comment == Failure || creator == Failure || source == Failure || date == Failure || urlList == Failure
       || httpSeeds == Failure || collections == Failure || nodes == Failure then Failure
    else
      Success(Metadata(comment.value, creator.value, source.value, date.value,
                       urlList.value + httpSeeds.value, collections.value, nodes.value))
  }

  // ----- what a change of a field writes -----------------------------------------------------------

  function StringsValue(values: seq<Bytes>): Value {
    ListValue(seq(|values|, i requires 0 <= i < |values| => StringValue(values[i])))
  }

  function NodeValue(n: DhtNode): Value {
    ListValue([StringValue(n.host), IntegerValue(n.port)])
  }

  function NodesValue(nodes: seq<DhtNode>): Value {
    ListValue(seq(|nodes|, i requires 0 <= i < |nodes| => NodeValue(nodes[i])))
  }

  function TierValue(tier: Tier): Value {
    ListValue(seq(|tier|, i requires 0 <= i < |tier| => StringValue(tier[i].value)))
  }

  function TrackersValue(tiers: seq<Tier>): Value {
    ListValue(seq(|tiers|, i requires 0 <= i < |tiers| => TierValue(tiers[i])))
  }

  /** Keys to erase, and the entries written instead. */
  datatype Edit = Edit(erased: set<Bytes>, put: seq<Entry>)

  const NO_EDIT := Edit({}, [])

  function TextEdit(key: Bytes, before: Option<Bytes>, after: Option<Bytes>): Edit {
    if before == after then NO_EDIT
    else Edit({key}, if after.Some? then [Entry(key, StringValue(after.value))] else [])
  }

  function DateEdit(before: Option<int>, after: Option<int>): Edit {
    if before == after then NO_EDIT
    else Edit({CREATION_DATE}, if after.Some? then [Entry(CREATION_DATE, IntegerValue(after.value))] else [])
  }

  function SeedsEdit(before: seq<Bytes>, after: seq<Bytes>): Edit {
    if before == after then NO_EDIT
    else Edit({URL_LIST, HTTP_SEEDS}, if after != [] then [Entry(URL_LIST, StringsValue(after))] else [])
  }

  function CollectionsEdit(before: seq<Bytes>, after: seq<Bytes>): Edit {
    if before == after then NO_EDIT
    else Edit({COLLECTIONS}, if after != [] then [Entry(COLLECTIONS, StringsValue(after))] else [])
  }

  function NodesEdit(before: seq<DhtNode>, after: seq<DhtNode>): Edit {
    if before == after then NO_EDIT
    else Edit({NODES}, if after != [] then [Entry(NODES, NodesValue(after))] else [])
  }

  /** same_trackers compares URLs, tier by tier. */
  predicate SameTrackers(a: seq<Tier>, b: seq<Tier>) {
    TrackersValue(a) == TrackersValue(b)
  }

  function TrackersEdit(before: seq<Tier>, after: seq<Tier>): Edit
    requires forall tier :: tier in after ==> tier != []
  {
    if SameTrackers(before, after) then NO_EDIT
    else Edit({ANNOUNCE, ANNOUNCE_LIST},
              if after != [] then
                assert after[0] in after;
                [Entry(ANNOUNCE, StringValue(after[0][0].value)), Entry(ANNOUNCE_LIST, TrackersValue(after))]
              else [])
  }

  // ----- editing entry lists -------------------------------------------------------------------------

  function Without(entries: seq<Entry>, keys: set<Bytes>): seq<Entry> {
    if entries == [] then []
    else
      var front, last := Without(entries[..|entries| - 1], keys), entries[|entries| - 1];
      if last.key in keys then front else front + [last]
  }

  function Apply(entries: seq<Entry>, edit: Edit): seq<Entry> {
    Without(entries, edit.erased) + edit.put
  }

  function ApplyAll(entries: seq<Entry>, edits: seq<Edit>): seq<Entry> {
    if edits == [] then entries
    else Apply(ApplyAll(entries, edits[..|edits| - 1]), edits[|edits| - 1])
  }

  /** An edit only writes keys it erases, each once. */
  predicate ProperEdit(edit: Edit) {
    DistinctKeys(edit.put) && forall e :: e in edit.put ==> e.key in edit.erased
  }

  lemma {:induction false} LookupMember(entries: seq<Entry>, key: Bytes)
    ensures Lookup(entries, key).Some? ==> Entry(key, Lookup(entries, key).value) in entries
    ensures Lookup(entries, key) == None <==> forall e :: e in entries ==> e.key != key
  {
    if entries != [] {
      LookupMember(entries[1..], key);
      assert entries == [entries[0]] + entries[1..];
    }
  }

  /** With distinct keys, lookup finds every entry. */
  lemma LookupOf(entries: seq<Entry>, e: Entry)
    requires DistinctKeys(entries) && e in entries
    ensures Lookup(entries, e.key) == Some(e.value)
  {
    LookupMember(entries, e.key);
  }

  /** Lists with distinct keys and the same members answer every lookup alike. */
  lemma SameMembersSameLookup(a: seq<Entry>, b: seq<Entry>, key: Bytes)
    requires DistinctKeys(a) && DistinctKeys(b) && forall e :: e in a <==> e in b
    ensures Lookup(a, key) == Lookup(b, key)
  {
    LookupMember(a, key);
    LookupMember(b, key);
    if Lookup(a, key).Some? { LookupOf(b, Entry(key, Lookup(a, key).value)); }
  }

  lemma {:induction false} WithoutMembers(entries: seq<Entry>, keys: set<Bytes>)
    ensures forall e :: e in Without(entries, keys) <==> e in entries && e.key !in keys
    ensures DistinctKeys(entries) ==> DistinctKeys(Without(entries, keys))
  {
    if entries != [] {
      var n := |entries| - 1;
      WithoutMembers(entries[..n], keys);
      assert entries == entries[..n] + [entries[n]];
      var front := Without(entries[..n], keys);
      if DistinctKeys(entries) {
        forall i | 0 <= i < |front| ensures front[i].key != entries[n].key {
          assert front[i] in front;
        }
      }
    }
  }

  lemma ApplyMembers(entries: seq<Entry>, edit: Edit)
    requires ProperEdit(edit)
    ensures forall e :: e in Apply(entries, edit) <==> (e in entries && e.key !in edit.erased) || e in edit.put
    ensures DistinctKeys(entries) ==> DistinctKeys(Apply(entries, edit))
  {
    WithoutMembers(entries, edit.erased);
    var kept := Without(entries, edit.erased);
    if DistinctKeys(entries) {
      forall i, j | 0 <= i < |kept| && 0 <= j < |edit.put| ensures kept[i].key != edit.put[j].key {
        assert kept[i] in kept && edit.put[j] in edit.put;
      }
    }
  }

  predicate TouchedBy(edits: seq<Edit>, key: Bytes) {
    exists i :: 0 <= i < |edits| && key in edits[i].erased
  }

  predicate PutBy(edits: seq<Edit>, e: Entry) {
    exists i :: 0 <= i < |edits| && e in edits[i].put
  }

  predicate ProperEdits(edits: seq<Edit>) {
    && (forall i :: 0 <= i < |edits| ==> ProperEdit(edits[i]))
    && (forall i, j :: 0 <= i < j < |edits| ==> edits[i].erased !! edits[j].erased)
  }

  /** What the last of proper edits adds. */
  lemma LastEdit(edits: seq<Edit>, e: Entry)
    requires edits != [] && ProperEdits(edits)
    ensures var front, last := edits[..|edits| - 1], edits[|edits| - 1];
            && (TouchedBy(edits, e.key) <==> TouchedBy(front, e.key) || e.key in last.erased)
            && (PutBy(edits, e) <==> PutBy(front, e) || e in last.put)
            && (PutBy(front, e) ==> e.key !in last.erased)
  {
    var n := |edits| - 1;
    var front := edits[..n];
    if PutBy(front, e) {
      var i :| 0 <= i < n && e in front[i].put;
      assert ProperEdit(edits[i]) && edits[i].erased !! edits[n].erased;
    }
    if TouchedBy(front, e.key) {
      var i :| 0 <= i < n && e.key in front[i].erased;
      assert edits[i] == front[i];
    }
    if PutBy(edits, e) && e !in edits[n].put {
      var i :| 0 <= i <= n && e in edits[i].put;
      assert front[i] == edits[i];
    }
    if TouchedBy(edits, e.key) && e.key !in edits[n].erased {
      var i :| 0 <= i <= n && e.key in edits[i].erased;
      assert front[i] == edits[i];
    }
  }

  /** The result holds the untouched entries and everything written, and nothing else. */
  lemma {:induction false} ApplyAllMembers(entries: seq<Entry>, edits: seq<Edit>)
    requires ProperEdits(edits)
    ensures forall e :: e in ApplyAll(entries, edits)
                   <==> (e in entries && !TouchedBy(edits, e.key)) || PutBy(edits, e)
    ensures DistinctKeys(entries) ==> DistinctKeys(ApplyAll(entries, edits))
  {
    if edits != [] {
      var n := |edits| - 1;
      var front := edits[..n];
      ApplyAllMembers(entries, front);
      ApplyMembers(ApplyAll(entries, front), edits[n]);
      hide Apply, ApplyAll, DistinctKeys, TouchedBy, PutBy, ProperEdits;
      forall e
        ensures e in ApplyAll(entries, edits)
           <==> (e in entries && !TouchedBy(edits, e.key)) || PutBy(edits, e)
      {
        LastEdit(edits, e);
      }
    }
  }

  // ----- sorting -----------------------------------------------------------------------------------------

  predicate Ascending(entries: seq<Entry>) {
    forall i, j :: 0 <= i < j < |entries| ==> Less(entries[i].key, entries[j].key)
  }

  function Insert(e: Entry, sorted: seq<Entry>): seq<Entry> {
    if sorted == [] || Less(e.key, sorted[0].key) then [e] + sorted
    else [sorted[0]] + Insert(e, sorted[1..])
  }

  function Sorted(entries: seq<Entry>): seq<Entry> {
    if entries == [] then [] else Insert(entries[0], Sorted(entries[1..]))
  }

  lemma AscendingCons(e: Entry, sorted: seq<Entry>)
    requires Ascending(sorted) && forall x :: x in sorted ==> Less(e.key, x.key)
    ensures Ascending([e] + sorted)
  {
    hide Less;
    assert forall j :: 0 <= j < |sorted| ==> sorted[j] in sorted;
  }

  lemma LessThanAll(e: Entry, sorted: seq<Entry>)
    requires Ascending(sorted) && sorted != [] && Less(e.key, sorted[0].key)
    ensures forall x :: x in sorted ==> Less(e.key, x.key)
  {
    hide Less;
    forall j | 0 <= j < |sorted| ensures Less(e.key, sorted[j].key) {
      if j > 0 { LessIsTransitive(e.key, sorted[0].key, sorted[j].key); }
    }
  }

  lemma {:induction false} InsertSorts(e: Entry, sorted: seq<Entry>)
    requires Ascending(sorted) && forall x :: x in sorted ==> x.key != e.key
    ensures Ascending(Insert(e, sorted)) && multiset(Insert(e, sorted)) == multiset{e} + multiset(sorted)
  {
    hide Less;
    if sorted == [] {
      assert Insert(e, sorted) == [e];
    } else if Less(e.key, sorted[0].key) {
      LessThanAll(e, sorted);
      AscendingCons(e, sorted);
    } else {
      var first, rest := sorted[0], sorted[1..];
      assert sorted == [first] + rest && first in sorted;
      InsertSorts(e, rest);
      LessIsTotal(first.key, e.key);
      forall x | x in Insert(e, rest) ensures Less(first.key, x.key) {
        assert x in multiset(Insert(e, rest));
        assert x == e || x in rest;
      }
      AscendingCons(first, Insert(e, rest));
    }
  }

  lemma AscendingIsDistinct(entries: seq<Entry>)
    requires Ascending(entries)
    ensures DistinctKeys(entries)
  {
    forall i, j | 0 <= i < j < |entries| ensures entries[i].key != entries[j].key {
      LessIsAsymmetric(entries[i].key, entries[j].key);
    }
  }

  lemma {:induction false} SortedSorts(entries: seq<Entry>)
    requires DistinctKeys(entries)
    ensures Ascending(Sorted(entries)) && multiset(Sorted(entries)) == multiset(entries)
    ensures forall e :: e in Sorted(entries) <==> e in entries
  {
    if entries != [] {
      var rest := entries[1..];
      SortedSorts(rest);
      assert entries == [entries[0]] + rest;
      InsertSorts(entries[0], Sorted(rest));
    }
    forall e ensures e in Sorted(entries) <==> e in entries {
      assert e in Sorted(entries) <==> e in multiset(Sorted(entries));
    }
  }

  lemma FirstIsLeast(a: seq<Entry>, b: seq<Entry>)
    requires Ascending(a) && a != [] && b != [] && multiset(a) == multiset(b)
    ensures a[0] == b[0] || Less(a[0].key, b[0].key)
  {
    hide Less;
    assert b[0] in multiset(a);
    var j :| 0 <= j < |a| && a[j] == b[0];
  }

  /** Any ascending rearrangement is this one, so the choice of sorting algorithm is immaterial. */
  lemma {:induction false} SortedIsUnique(a: seq<Entry>, b: seq<Entry>)
    requires Ascending(a) && Ascending(b) && multiset(a) == multiset(b)
    ensures a == b
  {
    hide *;
    assert |a| == |multiset(a)| && |b| == |multiset(b)|;
    if a != [] {
      FirstIsLeast(a, b);
      FirstIsLeast(b, a);
      LessIsAsymmetric(a[0].key, b[0].key);
      TailOfAscending(a);
      TailOfAscending(b);
      SortedIsUnique(a[1..], b[1..]);
      assert a == [a[0]] + a[1..] && b == [b[0]] + b[1..];
    }
  }

  lemma TailOfAscending(a: seq<Entry>)
    requires Ascending(a) && a != []
    ensures Ascending(a[1..]) && multiset(a[1..]) == multiset(a) - multiset{a[0]}
  {
    hide Less;
    assert a == [a[0]] + a[1..];
  }
}
