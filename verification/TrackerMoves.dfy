/** The editing operations on tracker lists (tracker_engine.cpp). */
module TrackerMoves {
  import opened ByteStrings
  import opened Trackers
  import opened Wrappers

  function Without<T>(s: seq<T>, i: nat): (r: seq<T>)
    requires i < |s|
    ensures |r| == |s| - 1
  {
    s[..i] + s[i + 1..]
  }

  function Inserted<T>(s: seq<T>, i: nat, x: T): (r: seq<T>)
    requires i <= |s|
    ensures |r| == |s| + 1
  {
    s[..i] + [x] + s[i..]
  }

  /** One element taken out and put in elsewhere. */
  function Moved<T>(s: seq<T>, from: nat, to: nat): (r: seq<T>)
    requires from < |s| && to < |s|
    ensures |r| == |s|
  {
    Inserted(Without(s, from), to, s[from])
  }

  lemma WithoutCounts<T>(s: seq<T>, i: nat)
    requires i < |s|
    ensures multiset(s) == multiset(Without(s, i)) + multiset{s[i]}
  {
    assert s == s[..i] + [s[i]] + s[i + 1..];
  }

  lemma InsertedCounts<T>(s: seq<T>, i: nat, x: T)
    requires i <= |s|
    ensures multiset(Inserted(s, i, x)) == multiset(s) + multiset{x}
    ensures Inserted(s, i, x)[i] == x && Without(Inserted(s, i, x), i) == s
  {
    assert s == s[..i] + s[i..];
  }

  lemma PutBack<T>(s: seq<T>, i: nat)
    requires i < |s|
    ensures Inserted(Without(s, i), i, s[i]) == s
  {
  }

  /** Moving back undoes a move, and a move loses and duplicates nothing and leaves the others in their order. */
  lemma {:induction false} MoveBack<T>(s: seq<T>, from: nat, to: nat)
    requires from < |s| && to < |s|
    ensures Moved(s, from, to)[to] == s[from] && Moved(Moved(s, from, to), to, from) == s
    ensures multiset(Moved(s, from, to)) == multiset(s)
    ensures Moved(s, from, to)[..to] + Moved(s, from, to)[to + 1..] == s[..from] + s[from + 1..]
  {
    WithoutCounts(s, from);
    InsertedCounts(Without(s, from), to, s[from]);
    PutBack(s, from);
    assert Without(Moved(s, from, to), to) == Without(s, from);
    hide Inserted;
  }

  /** A tier with a tracker added, unless it has an equal one. */
  function Joined(tier: Tier, tracker: TrackerUrl): Tier {
    if tracker.key in KeysOf(tier) then tier else tier + [tracker]
  }

  lemma AddedIsJoined(tier: Tier, tracker: TrackerUrl)
    requires DistinctTrackers(tier)
    ensures Deduplicated(tier + [tracker]) == Joined(tier, tracker)
  {
    DistinctIsUnchanged(tier);
    assert (tier + [tracker])[..|tier|] == tier;
  }

  lemma KeyOfMember(tier: Tier, key: Bytes)
    ensures key in KeysOf(tier) <==> exists i :: 0 <= i < |tier| && tier[i].key == key
  {
  }

  lemma JoinedIsValid(tier: Tier, tracker: TrackerUrl)
    requires ValidTier(tier) && ParseTracker(tracker.value) == Some(tracker)
    ensures ValidTier(Joined(tier, tracker))
  {
    hide ParseTracker;
    KeyOfMember(tier, tracker.key);
  }

  lemma WithoutIsValid(tier: Tier, i: nat)
    requires ValidTier(tier) && i < |tier| && |tier| > 1
    ensures ValidTier(Without(tier, i))
  {
    hide ParseTracker;
    assert forall t :: t in Without(tier, i) ==> t in tier;
  }

  lemma MovedIsValid(tier: Tier, from: nat, to: nat)
    requires ValidTier(tier) && from < |tier| && to < |tier|
    ensures ValidTier(Moved(tier, from, to))
  {
    hide ParseTracker;
    MoveBack(tier, from, to);
    var moved := Moved(tier, from, to);
    forall t | t in moved ensures t in tier { assert t in multiset(moved); }
    MovedIsDistinct(tier, from, to);
  }

  lemma MovedAt<T>(s: seq<T>, from: nat, to: nat, i: nat)
    requires from < |s| && to < |s| && i < |s|
    ensures Source(from, to, i) < |s| && Moved(s, from, to)[i] == s[Source(from, to, i)]
  {
  }

  lemma MovedIsDistinct(tier: Tier, from: nat, to: nat)
    requires DistinctTrackers(tier) && from < |tier| && to < |tier|
    ensures DistinctTrackers(Moved(tier, from, to))
  {
    hide Moved;
    var moved := Moved(tier, from, to);
    forall i, j | 0 <= i < j < |moved| ensures moved[i].key != moved[j].key {
      MovedAt(tier, from, to, i);
      MovedAt(tier, from, to, j);
    }
  }

  /** Where an element of a moved sequence comes from. */
  function Source(from: nat, to: nat, i: nat): nat {
    if i == to then from
    else
      var k := if i < to then i else i - 1;
      if k < from then k else k + 1
  }

  /** make_list changes nothing but the one tier that may hold duplicates. */
  lemma {:induction false} MadeWithOneChange(tiers: seq<Tier>, k: nat)
    requires k < |tiers| && tiers[k] != [] && forall i :: 0 <= i < |tiers| && i != k ==> ValidTier(tiers[i])
    ensures MadeList(tiers) == tiers[k := Deduplicated(tiers[k])]
  {
    hide ParseTracker, Deduplicated, DistinctTrackers;
    var n := |tiers| - 1;
    if k == n {
      assert ValidList(tiers[..n]);
      ValidListIsMade(tiers[..n]);
    } else {
      MadeWithOneChange(tiers[..n], k);
      DistinctIsUnchanged(tiers[n]);
      assert tiers == tiers[..n] + [tiers[n]];
    }
  }

  lemma ListValidAt(tiers: seq<Tier>, i: nat)
    requires ValidList(tiers) && i < |tiers|
    ensures ValidTier(tiers[i])
  {
    assert tiers[i] in tiers;
  }

  /** add_to_tier: a tracker equal to one of the tier is not added again. */
  method AddToTier(tiers: seq<Tier>, tierIndex: nat, tracker: TrackerUrl) returns (r: Option<seq<Tier>>)
    requires ValidList(tiers) && ParseTracker(tracker.value) == Some(tracker)
    ensures r.Some? <==> tierIndex < |tiers|
    ensures r.Some? ==> r.value == tiers[tierIndex := Joined(tiers[tierIndex], tracker)] && ValidList(r.value)
  {
    hide ParseTracker, Deduplicated, DistinctTrackers, KeysOf, ValidTier;
    if tierIndex >= |tiers| { return None; }
    var copy := tiers[tierIndex := tiers[tierIndex] + [tracker]];
    forall i | 0 <= i < |tiers| ensures ValidTier(tiers[i]) { ListValidAt(tiers, i); }
    MadeWithOneChange(copy, tierIndex);
    TierIsDistinct(tiers[tierIndex]);
    AddedIsJoined(tiers[tierIndex], tracker);
    JoinedIsValid(tiers[tierIndex], tracker);
    var list := MakeList(copy);
    r := Some(list);
  }

  lemma TierIsDistinct(tier: Tier)
    requires ValidTier(tier)
    ensures DistinctTrackers(tier) && tier != []
  {
  }

  /** add_tier. */
  method AddTier(tiers: seq<Tier>, tier: Tier) returns (r: seq<Tier>)
    requires ValidList(tiers) && ValidTier(tier)
    ensures r == tiers + [tier] && ValidList(r)
  {
    hide ValidTier;
    ValidListIsMade(tiers + [tier]);
    r := MakeList(tiers + [tier]);
  }

  /** The list without one tracker; a tier that becomes empty disappears. */
  function Removed(tiers: seq<Tier>, tierIndex: nat, trackerIndex: nat): seq<Tier>
    requires tierIndex < |tiers| && trackerIndex < |tiers[tierIndex]|
  {
    if |tiers[tierIndex]| == 1 then Without(tiers, tierIndex)
    else tiers[tierIndex := Without(tiers[tierIndex], trackerIndex)]
  }

  lemma RemovedIsValid(tiers: seq<Tier>, tierIndex: nat, trackerIndex: nat)
    requires ValidList(tiers) && tierIndex < |tiers| && trackerIndex < |tiers[tierIndex]|
    ensures ValidList(Removed(tiers, tierIndex, trackerIndex))
  {
    ListValidAt(tiers, tierIndex);
    hide ValidTier, Without;
    if |tiers[tierIndex]| > 1 {
      WithoutIsValid(tiers[tierIndex], trackerIndex);
    } else {
      assert forall tier :: tier in Without(tiers, tierIndex) ==> tier in tiers by {
        WithoutIsSubset(tiers, tierIndex);
      }
    }
  }

  lemma WithoutIsSubset<T>(s: seq<T>, i: nat)
    requires i < |s|
    ensures forall x :: x in Without(s, i) ==> x in s
  {
  }

  /** remove_tracker. */
  method RemoveTracker(tiers: seq<Tier>, tierIndex: nat, trackerIndex: nat) returns (r: Option<seq<Tier>>)
    requires ValidList(tiers)
    ensures r.Some? <==> tierIndex < |tiers| && trackerIndex < |tiers[tierIndex]|
    ensures r.Some? ==> r.value == Removed(tiers, tierIndex, trackerIndex) && ValidList(r.value)
  {
    hide ValidList;
    if tierIndex >= |tiers| { return None; }
    if trackerIndex >= |tiers[tierIndex]| { return None; }
    var copy := tiers[tierIndex := tiers[tierIndex][..trackerIndex] + tiers[tierIndex][trackerIndex + 1..]];
    if copy[tierIndex] == [] { copy := copy[..tierIndex] + copy[tierIndex + 1..]; }
    assert copy == Removed(tiers, tierIndex, trackerIndex);
    RemovedIsValid(tiers, tierIndex, trackerIndex);
    ValidListIsMade(copy);
    var list := MakeList(copy);
    r := Some(list);
  }

  /** Removing a tracker that was just added restores the list. */
  lemma {:induction false} AddThenRemove(tiers: seq<Tier>, tierIndex: nat, tracker: TrackerUrl)
    requires ValidList(tiers) && tierIndex < |tiers| && tracker.key !in KeysOf(tiers[tierIndex])
    ensures Removed(tiers[tierIndex := Joined(tiers[tierIndex], tracker)], tierIndex, |tiers[tierIndex]|) == tiers
  {
    ListValidAt(tiers, tierIndex);
    var tier := tiers[tierIndex];
    assert Without(tier + [tracker], |tier|) == tier;
  }

  /** The list after a tracker went from one tier to another, whatever order the steps were taken in. */
  function Transferred(tiers: seq<Tier>, from: nat, trackerIndex: nat, to: nat): seq<Tier>
    requires from < |tiers| && to < |tiers| && from != to && trackerIndex < |tiers[from]|
  {
    Removed(tiers[to := Joined(tiers[to], tiers[from][trackerIndex])], from, trackerIndex)
  }

  lemma TransferredIsValid(tiers: seq<Tier>, from: nat, trackerIndex: nat, to: nat)
    requires ValidList(tiers) && from < |tiers| && to < |tiers| && from != to && trackerIndex < |tiers[from]|
    ensures ValidList(Transferred(tiers, from, trackerIndex, to))
  {
    hide ParseTracker, Joined, Removed;
    ListValidAt(tiers, from);
    ListValidAt(tiers, to);
    assert tiers[from][trackerIndex] in tiers[from];
    JoinedIsValid(tiers[to], tiers[from][trackerIndex]);
    hide ValidTier;
    RemovedIsValid(tiers[to := Joined(tiers[to], tiers[from][trackerIndex])], from, trackerIndex);
  }

  /**
    move_tracker: the source tier loses the tracker before the destination gains it, and the
    destination index shifts when the source tier disappears.
  */
  method MoveTracker(tiers: seq<Tier>, from: nat, trackerIndex: nat, to: nat) returns (r: Option<seq<Tier>>)
    requires ValidList(tiers)
    ensures r.Some? <==> from < |tiers| && to < |tiers| && trackerIndex < |tiers[from]| && from != to
    ensures r.Some? ==> r.value == Transferred(tiers, from, trackerIndex, to) && ValidList(r.value)
  {
    hide ValidList, ParseTracker, Deduplicated, DistinctTrackers, KeysOf, ValidTier, MadeList;
    if from >= |tiers| || to >= |tiers| { return None; }
    if trackerIndex >= |tiers[from]| { return None; }
    if from == to { return None; }
    var tracker := tiers[from][trackerIndex];
    var copy := tiers[from := tiers[from][..trackerIndex] + tiers[from][trackerIndex + 1..]];
    var destination := to;
    if copy[from] == [] {
      copy := copy[..from] + copy[from + 1..];
      if from < to { destination := destination - 1; }
    }
    assert copy == Removed(tiers, from, trackerIndex) && copy[destination] == tiers[to];
    copy := copy[destination := copy[destination] + [tracker]];
    RemovedThenAdded(tiers, from, trackerIndex, to, destination);
    TransferredIsValid(tiers, from, trackerIndex, to);
    var list := MakeList(copy);
    r := Some(list);
  }

  /** Removing first and adding to the shifted destination gives the same list. */
  lemma RemovedThenAdded(tiers: seq<Tier>, from: nat, trackerIndex: nat, to: nat, destination: nat)
    requires ValidList(tiers) && from < |tiers| && to < |tiers| && from != to && trackerIndex < |tiers[from]|
    requires destination == if |tiers[from]| == 1 && from < to then to - 1 else to
    ensures var rest := Removed(tiers, from, trackerIndex);
            destination < |rest| && rest[destination] == tiers[to]
            && MadeList(rest[destination := rest[destination] + [tiers[from][trackerIndex]]])
               == Transferred(tiers, from, trackerIndex, to)
  {
    var rest := Removed(tiers, from, trackerIndex);
    var tracker := tiers[from][trackerIndex];
    RemovedIsValid(tiers, from, trackerIndex);
    UpdatesCommute(tiers, from, trackerIndex, to, Joined(tiers[to], tracker));
    ListValidAt(tiers, to);
    TierIsDistinct(tiers[to]);
    hide ParseTracker, Deduplicated, DistinctTrackers, KeysOf, ValidTier, ValidList, Joined, Removed, MadeList;
    forall i | 0 <= i < |rest| ensures ValidTier(rest[i]) { ListValidAt(rest, i); }
    MadeWithOneChange(rest[destination := rest[destination] + [tracker]], destination);
    AddedIsJoined(tiers[to], tracker);
  }

  /** Updating one tier and removing from another can be done in either order. */
  lemma UpdatesCommute(tiers: seq<Tier>, from: nat, trackerIndex: nat, to: nat, tier: Tier)
    requires from < |tiers| && to < |tiers| && from != to && trackerIndex < |tiers[from]|
    ensures var destination := if |tiers[from]| == 1 && from < to then to - 1 else to;
            && destination < |Removed(tiers, from, trackerIndex)|
            && Removed(tiers, from, trackerIndex)[destination] == tiers[to]
            && Removed(tiers, from, trackerIndex)[destination := tier] == Removed(tiers[to := tier], from, trackerIndex)
  {
    if |tiers[from]| == 1 {
      if from < to {
        assert Without(tiers, from)[to - 1 := tier] == Without(tiers[to := tier], from);
      } else {
        assert Without(tiers, from)[to := tier] == Without(tiers[to := tier], from);
      }
    } else {
      assert tiers[from := Without(tiers[from], trackerIndex)][to := tier]
          == tiers[to := tier][from := Without(tiers[from], trackerIndex)];
    }
  }

  /** A tracker is added at the end of a tier, unless the tier has an equal one. */
  lemma JoinedIs(tier: Tier, tracker: TrackerUrl)
    ensures (exists i :: 0 <= i < |tier| && tier[i].key == tracker.key) ==> Joined(tier, tracker) == tier
    ensures (forall i :: 0 <= i < |tier| ==> tier[i].key != tracker.key) ==> Joined(tier, tracker) == tier + [tracker]
  {
    KeyOfMember(tier, tracker.key);
  }

  /** Removing a tracker takes away that one, closes up its tier or drops it, and leaves all other tiers. */
  lemma {:induction false} RemovedTiers(tiers: seq<Tier>, from: nat, trackerIndex: nat)
    requires from < |tiers| && trackerIndex < |tiers[from]|
    ensures var tier, r := tiers[from], Removed(tiers, from, trackerIndex);
            if |tier| == 1 then r == tiers[..from] + tiers[from + 1..]
            else r == tiers[..from] + [tier[..trackerIndex] + tier[trackerIndex + 1..]] + tiers[from + 1..]
  {
  }

  /** A transfer takes the tracker out of its tier, adds it to the other one, and leaves all other tiers. */
  lemma {:induction false} TransferredTiers(tiers: seq<Tier>, from: nat, trackerIndex: nat, to: nat, i: nat)
    requires from < |tiers| && to < |tiers| && from != to && trackerIndex < |tiers[from]|
    requires i < |tiers| && i != from
    ensures var tier, r := tiers[from], Transferred(tiers, from, trackerIndex, to);
            var at: nat := if |tier| == 1 && from < i then i - 1 else i;
            && |r| == |tiers| - (if |tier| == 1 then 1 else 0) && at < |r|
            && r[at] == (if i == to then Joined(tiers[to], tier[trackerIndex]) else tiers[i])
            && (|tier| > 1 ==> r[from] == tier[..trackerIndex] + tier[trackerIndex + 1..])
  {
    hide Joined;
  }

  predicate Listed(tiers: seq<Tier>, key: Bytes) {
    exists i, j :: 0 <= i < |tiers| && 0 <= j < |tiers[i]| && tiers[i][j].key == key
  }

  /** Moving a tracker loses no tracker of the list and adds none. */
  lemma {:induction false} TransferKeepsTrackers(tiers: seq<Tier>, from: nat, trackerIndex: nat, to: nat, key: Bytes)
    requires from < |tiers| && to < |tiers| && from != to && trackerIndex < |tiers[from]|
    ensures Listed(Transferred(tiers, from, trackerIndex, to), key) <==> Listed(tiers, key)
  {
    var tracker := tiers[from][trackerIndex];
    var grown := tiers[to := Joined(tiers[to], tracker)];
    var result := Transferred(tiers, from, trackerIndex, to);
    KeyOfMember(tiers[to], tracker.key);
    hide Joined, Removed;
    JoinedLists(tiers[to], tracker, key);
    RemovedLists(grown, from, trackerIndex, key);
    if Listed(tiers, key) {
      var i, j :| 0 <= i < |tiers| && 0 <= j < |tiers[i]| && tiers[i][j].key == key;
      if i == to || (i == from && j == trackerIndex) {
        assert ListedIn(grown[to], key);
        StillListed(grown, from, trackerIndex, to, key);
      } else if i == from {
        OtherListed(grown, from, trackerIndex, j);
      } else {
        assert ListedIn(grown[i], key);
        StillListed(grown, from, trackerIndex, i, key);
      }
    }
    if Listed(result, key) {
      assert Listed(grown, key);
      var i, j :| 0 <= i < |grown| && 0 <= j < |grown[i]| && grown[i][j].key == key;
      if i != to { assert tiers[i][j].key == key; }
    }
  }

  predicate ListedIn(tier: Tier, key: Bytes) { exists j :: 0 <= j < |tier| && tier[j].key == key }

  lemma JoinedLists(tier: Tier, tracker: TrackerUrl, key: Bytes)
    ensures ListedIn(Joined(tier, tracker), key) <==> ListedIn(tier, key) || tracker.key == key
  {
    KeyOfMember(tier, tracker.key);
    var joined := Joined(tier, tracker);
    if ListedIn(tier, key) {
      var j :| 0 <= j < |tier| && tier[j].key == key;
      assert joined[j].key == key;
    }
    if tracker.key == key && joined != tier { assert joined[|tier|].key == key; }
  }

  lemma RemovedLists(tiers: seq<Tier>, from: nat, trackerIndex: nat, key: Bytes)
    requires from < |tiers| && trackerIndex < |tiers[from]|
    ensures Listed(Removed(tiers, from, trackerIndex), key) ==> Listed(tiers, key)
  {
    var result := Removed(tiers, from, trackerIndex);
    if Listed(result, key) {
      var i, j :| 0 <= i < |result| && 0 <= j < |result[i]| && result[i][j].key == key;
      if |tiers[from]| == 1 {
        assert tiers[if i < from then i else i + 1][j].key == key;
      } else if i == from {
        assert tiers[i][if j < trackerIndex then j else j + 1].key == key;
      } else {
        assert tiers[i][j].key == key;
      }
    }
  }

  lemma StillListed(tiers: seq<Tier>, from: nat, trackerIndex: nat, i: nat, key: Bytes)
    requires from < |tiers| && trackerIndex < |tiers[from]| && i < |tiers| && i != from && ListedIn(tiers[i], key)
    ensures Listed(Removed(tiers, from, trackerIndex), key)
  {
    var j :| 0 <= j < |tiers[i]| && tiers[i][j].key == key;
    var result: seq<Tier> := Removed(tiers, from, trackerIndex);
    var at: nat := if |tiers[from]| == 1 && from < i then i - 1 else i;
    var tier: Tier := result[at];
    assert tier[j].key == key;
  }

  lemma OtherListed(tiers: seq<Tier>, from: nat, trackerIndex: nat, j: nat)
    requires from < |tiers| && trackerIndex < |tiers[from]| && j < |tiers[from]| && j != trackerIndex
    ensures Listed(Removed(tiers, from, trackerIndex), tiers[from][j].key)
  {
    var result := Removed(tiers, from, trackerIndex);
    assert result[from][if j < trackerIndex then j else j - 1] == tiers[from][j];
  }

  /** move_tracker_within_tier: a permutation of one tier, undone by the opposite move. */
  method MoveTrackerWithinTier(tiers: seq<Tier>, tierIndex: nat, from: nat, to: nat) returns (r: Option<seq<Tier>>)
    requires ValidList(tiers)
    ensures r.Some? <==> tierIndex < |tiers| && from < |tiers[tierIndex]| && to < |tiers[tierIndex]|
    ensures r.Some? ==> r.value == tiers[tierIndex := Moved(tiers[tierIndex], from, to)] && ValidList(r.value)
  {
    hide ValidTier;
    if tierIndex >= |tiers| { return None; }
    var tier := tiers[tierIndex];
    if from >= |tier| { return None; }
    var tracker := tier[from];
    tier := tier[..from] + tier[from + 1..];
    if to > |tier| { return None; }
    tier := tier[..to] + [tracker] + tier[to..];
    ListValidAt(tiers, tierIndex);
    MovedIsValid(tiers[tierIndex], from, to);
    var copy := tiers[tierIndex := tier];
    assert ValidList(copy);
    ValidListIsMade(copy);
    var list := MakeList(copy);
    r := Some(list);
  }

  /** move_tier: a permutation of the tiers, undone by the opposite move. */
  method MoveTier(tiers: seq<Tier>, from: nat, to: nat) returns (r: Option<seq<Tier>>)
    requires ValidList(tiers)
    ensures r.Some? <==> from < |tiers| && to < |tiers|
    ensures r.Some? ==> r.value == Moved(tiers, from, to) && ValidList(r.value)
  {
    hide ValidTier;
    if from >= |tiers| { return None; }
    var tier := tiers[from];
    var copy := tiers[..from] + tiers[from + 1..];
    if to > |copy| { return None; }
    copy := copy[..to] + [tier] + copy[to..];
    MoveBack(tiers, from, to);
    forall t | t in copy ensures t in tiers { assert t in multiset(copy); }
    ValidListIsMade(copy);
    var list := MakeList(copy);
    r := Some(list);
  }
}
