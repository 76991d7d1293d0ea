/** What compaction does to slots and tags. */
module SlotCompaction {
  import opened Collections
  import opened IndexSlots
  import opened Compaction

  /** The tag maps after the tagged locations have moved to their ranks. */
  ghost predicate TagsMoved(s: Slots, tagToLocation: map<int, nat>, locationToTag: map<nat, int>) {
    && tagToLocation.Keys == s.tagToLocation.Keys
    && (forall t :: t in tagToLocation ==> tagToLocation[t] == Rank(s.locationToTag.Keys, s.tagToLocation[t]))
    && (forall t :: t in tagToLocation ==> tagToLocation[t] in locationToTag && locationToTag[tagToLocation[t]] == t)
    && (forall x :: x in locationToTag ==> locationToTag[x] in tagToLocation && tagToLocation[locationToTag[x]] == x)
  }

  /** Slots after compaction: the live points fill the first nd slots. */
  ghost predicate SlotsCompacted(s: Slots, t: Slots) {
    && t.maxPoints == s.maxPoints && t.nd == s.nd && t.empty == Interval(s.nd, s.maxPoints)
    && t.deleted == t.pending == {} && !t.consolidating && t.compacted
    && TagsMoved(s, t.tagToLocation, t.locationToTag)
  }

  /** With no deletion outstanding the points counted are the tagged ones. */
  lemma LiveCount(s: Slots)
    requires s.Valid() && s.deleted == {} && s.pending == {}
    ensures s.nd == |s.locationToTag| == |s.locationToTag.Keys| <= s.maxPoints
    ensures LiveBelow(s.locationToTag.Keys, s.maxPoints)
  {
    CountSlots(s);
  }

  lemma RanksAreBelow(s: Slots, x: nat)
    requires s.Valid() && s.deleted == {} && s.pending == {} && x in s.locationToTag
    ensures Rank(s.locationToTag.Keys, x) < s.nd
  {
    LiveCount(s);
    RankBelow(s.locationToTag.Keys, s.maxPoints, x);
  }

  lemma SlotIsFilled(s: Slots, t: Slots, y: nat)
    requires s.Valid() && s.deleted == {} && s.pending == {} && SlotsCompacted(s, t) && y < s.nd
    ensures y in t.locationToTag
  {
    LiveCount(s);
    var live := s.locationToTag.Keys;
    RankOfAll(live, s.maxPoints, s.maxPoints);
    var x := RanksFill(live, s.maxPoints, y);
    var tag := s.locationToTag[x];
    assert tag in t.tagToLocation;
    assert s.tagToLocation[tag] == x;
    assert t.tagToLocation[tag] == y;
    assert t.tagToLocation[tag] in t.locationToTag;
  }

  /** Compaction keeps the slots valid, and puts exactly the slots behind the live points into the empty set. */
  lemma CompactedSlotsValid(s: Slots, t: Slots)
    requires s.Valid() && s.deleted == {} && s.pending == {} && SlotsCompacted(s, t)
    ensures t.Valid() && t.locationToTag.Keys == Interval(0, s.nd)
  {
    LiveCount(s);
    forall y | y in t.locationToTag ensures y < s.nd {
      var tag := t.locationToTag[y];
      assert tag in t.tagToLocation && t.tagToLocation[tag] == y;
      assert tag in s.tagToLocation;
      assert s.tagToLocation[tag] in s.locationToTag;
      RanksAreBelow(s, s.tagToLocation[tag]);
    }
    forall y: nat | y < s.nd ensures y in t.locationToTag {
      SlotIsFilled(s, t, y);
    }
    IntervalSize(s.nd, s.maxPoints);
  }

  /** The tag maps are rebuilt from the new locations. */
  method MoveTags(ghost s: Slots, tagged: map<nat, int>, maxPoints: nat, newLocation: seq<nat>)
    returns (tagToLocation: map<int, nat>, locationToTag: map<nat, int>)
    requires s.Valid() && s.deleted == {} && s.pending == {} && tagged == s.locationToTag && maxPoints == s.maxPoints
    requires s.maxPoints <= |newLocation| && Assigned(newLocation, tagged.Keys, s.maxPoints)
    ensures TagsMoved(s, tagToLocation, locationToTag)
  {
    assert forall x, y :: x in tagged && y in tagged && tagged[x] == tagged[y] ==> s.tagToLocation[tagged[x]] == x == y;
    tagToLocation := RenameTags(tagged, newLocation, maxPoints);
    forall t, u | t in tagToLocation && u in tagToLocation && tagToLocation[t] == tagToLocation[u] ensures t == u {
      SameNewLocation(tagged, newLocation, s.maxPoints, tagToLocation, t, u);
    }
    locationToTag := InvertTags(tagToLocation);
    SameTags(s, tagToLocation, newLocation);
  }

  lemma SameTags(s: Slots, tagToLocation: map<int, nat>, newLocation: seq<nat>)
    requires s.Valid() && s.maxPoints <= |newLocation| && Assigned(newLocation, s.locationToTag.Keys, s.maxPoints)
    requires forall x :: x in s.locationToTag ==>
      s.locationToTag[x] in tagToLocation && tagToLocation[s.locationToTag[x]] == newLocation[x]
    requires forall t :: t in tagToLocation ==> exists x :: x in s.locationToTag && s.locationToTag[x] == t
    ensures tagToLocation.Keys == s.tagToLocation.Keys
    ensures forall t :: t in tagToLocation ==> tagToLocation[t] == Rank(s.locationToTag.Keys, s.tagToLocation[t])
  {
    forall t | t in s.tagToLocation
      ensures t in tagToLocation && tagToLocation[t] == Rank(s.locationToTag.Keys, s.tagToLocation[t])
    {
      assert s.locationToTag[s.tagToLocation[t]] == t;
    }
    forall t | t in tagToLocation ensures t in s.tagToLocation {
      var x :| x in s.locationToTag && s.locationToTag[x] == t;
    }
  }

  /** Reported tags are the same before and after. */
  lemma TagsFollow(s: Slots, t: Slots, total: nat)
    requires s.Valid() && s.deleted == {} && s.pending == {} && SlotsCompacted(s, t) && s.maxPoints <= total
    ensures var r := Renaming(s.locationToTag.Keys, s.maxPoints, total);
      && (forall x :: x in r ==> (x in s.locationToTag <==> r[x] in t.locationToTag))
      && (forall x :: x in r && x in s.locationToTag ==> s.locationToTag[x] == t.locationToTag[r[x]])
  {
    CompactedSlotsValid(s, t);
    LiveCount(s);
    var r := Renaming(s.locationToTag.Keys, s.maxPoints, total);
    forall x | x in r && x in s.locationToTag
      ensures r[x] in t.locationToTag && t.locationToTag[r[x]] == s.locationToTag[x] {
      var tag := s.locationToTag[x];
      assert tag in t.tagToLocation;
      assert s.tagToLocation[tag] == x;
      assert t.tagToLocation[tag] == r[x];
      assert t.tagToLocation[tag] in t.locationToTag;
    }
  }
}
