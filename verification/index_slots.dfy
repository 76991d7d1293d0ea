/** The life of a slot: empty, tagged, lazily deleted, being consolidated, empty again. */
module IndexSlots {
  import opened Collections

  /** Tags are the caller's names for points; 0 is reserved. `pending` is the delete set a running consolidation took
      away. */
  datatype Slots = Slots(
    maxPoints: nat, nd: nat, empty: set<nat>, deleted: set<nat>, pending: set<nat>, consolidating: bool,
    tagToLocation: map<int, nat>, locationToTag: map<nat, int>, compacted: bool)
  {
    ghost predicate Valid() {
      && Partition()
      && MutuallyInverse()
      && |empty| + nd == maxPoints
      && (!consolidating ==> pending == {})
      && 0 !in tagToLocation
    }

    /** Every slot below maxPoints is in exactly one of the four classes, and nothing else is. */
    ghost predicate Partition() {
      && (forall x :: x in empty ==> x < maxPoints && x !in deleted && x !in pending && x !in locationToTag)
      && (forall x :: x in deleted ==> x < maxPoints && x !in pending && x !in locationToTag)
      && (forall x :: x in pending ==> x < maxPoints && x !in locationToTag)
      && (forall x :: x in locationToTag ==> x < maxPoints)
      && (forall x: nat :: x < maxPoints ==> x in empty || x in Occupied())
    }

    ghost predicate MutuallyInverse() {
      && (forall t :: t in tagToLocation ==> tagToLocation[t] in locationToTag && locationToTag[tagToLocation[t]] == t)
      && (forall x :: x in locationToTag ==> locationToTag[x] in tagToLocation && tagToLocation[locationToTag[x]] == x)
    }

    /** The slots that still hold a point. */
    ghost function Occupied(): set<nat> {
      deleted + pending + locationToTag.Keys
    }
  }

  /** A fresh dynamic index: enable_delete has put every slot into the empty set. */
  function FreshSlots(maxPoints: nat): Slots {
    Slots(maxPoints, 0, Interval(0, maxPoints), {}, {}, false, map[], map[], true)
  }

  datatype Event =
    | Insert(tag: int, pick: nat)
    | LazyDelete(tag: int)
    | StartConsolidation
    | EndConsolidation

  /** The slot a reservation hands out; pick stands for the arbitrary element that pop_any takes. */
  function ReservedSlot(s: Slots, pick: nat): nat {
    if s.compacted && s.empty == {} then s.nd else pick
  }

  /** reserve_location succeeds: the slot leaves the empty set. */
  function Reserve(s: Slots, pick: nat): Slots {
    if s.compacted && s.empty == {} then s.(nd := s.nd + 1)
    else s.(nd := s.nd + 1, empty := s.empty - {pick}, deleted := s.deleted - {pick})
  }

  function Release(s: Slots, location: nat): Slots
    requires 0 < s.nd
  {
    s.(nd := s.nd - 1, empty := s.empty + {location})
  }

  /** Insertion is refused for the reserved tag, when no slot is left, and for a tag in use. */
  predicate InsertAccepted(s: Slots, tag: int) {
    tag != 0 && s.nd < s.maxPoints && tag !in s.tagToLocation
  }

  /** What an insertion does under the tag lock. */
  function InsertTag(s: Slots, tag: int, pick: nat): Slots {
    if tag == 0 || s.nd >= s.maxPoints then s
    else
      var location := ReservedSlot(s, pick);
      var r := Reserve(s, pick);
      if tag in s.tagToLocation then Release(r, location)
      else r.(tagToLocation := r.tagToLocation[tag := location], locationToTag := r.locationToTag[location := tag])
  }

  /** A deletion only moves the slot into the delete set; a missing tag changes nothing but the flag. */
  function DeleteTag(s: Slots, tag: int): Slots {
    if tag !in s.tagToLocation then s.(compacted := false)
    else
      var location := s.tagToLocation[tag];
      s.(compacted := false, deleted := s.deleted + {location},
         locationToTag := s.locationToTag - {location}, tagToLocation := s.tagToLocation - {tag})
  }

  /** A consolidation takes the lock and the whole delete set. */
  function TakeDeletes(s: Slots): Slots {
    s.(consolidating := true, pending := s.deleted, deleted := {})
  }

  /** At its end it hands the taken slots back. */
  function HandBack(s: Slots): Slots {
    s.(consolidating := false, pending := {}, empty := s.empty + s.pending,
       nd := if |s.pending| <= s.nd then s.nd - |s.pending| else 0)
  }

  /** The consistency checks at the start of consolidate_deletes. */
  datatype Admission = Admitted | CountError | Locked | Inconsistent

  function Admit(s: Slots): Admission {
    if |s.empty| + s.nd != s.maxPoints then CountError
    else if |s.locationToTag| + |s.deleted| != s.nd then Inconsistent
    else if |s.locationToTag| != |s.tagToLocation| then CountError
    else if s.consolidating then Locked
    else Admitted
  }

  ghost predicate Enabled(s: Slots, e: Event) {
    match e
    case Insert(tag, pick) => s.empty != {} ==> pick in s.empty
    case LazyDelete(tag) => true
    case StartConsolidation => Admit(s) == Admitted
    case EndConsolidation => s.consolidating
  }

  function Apply(s: Slots, e: Event): Slots {
    match e
    case Insert(tag, pick) => InsertTag(s, tag, pick)
    case LazyDelete(tag) => DeleteTag(s, tag)
    case StartConsolidation => TakeDeletes(s)
    case EndConsolidation => HandBack(s)
  }

  lemma CountSlots(s: Slots)
    requires s.Partition()
    ensures |s.empty| + |s.deleted| + |s.pending| + |s.locationToTag| == s.maxPoints
  {
    IntervalSize(0, s.maxPoints);
    assert s.empty + s.deleted + s.pending + s.locationToTag.Keys == Interval(0, s.maxPoints);
  }

  lemma {:induction false} InverseSetsSameSize(s: set<int>, t: set<nat>, a: map<int, nat>, b: map<nat, int>)
    requires forall x :: x in s ==> x in a && a[x] in t && a[x] in b && b[a[x]] == x
    requires forall y :: y in t ==> y in b && b[y] in s && b[y] in a && a[b[y]] == y
    ensures |s| == |t|
  {
    if s != {} {
      var x := Member(s);
      InverseSetsSameSize(s - {x}, t - {a[x]}, a, b);
    } else if t != {} {
      var y := Member(t);
    }
  }

  lemma InverseMapsSameSize(a: map<int, nat>, b: map<nat, int>)
    requires forall t :: t in a ==> a[t] in b && b[a[t]] == t
    requires forall x :: x in b ==> b[x] in a && a[b[x]] == x
    ensures |a| == |b|
  {
    InverseSetsSameSize(a.Keys, b.Keys, a, b);
  }

  lemma PendingFits(s: Slots)
    requires s.Valid()
    ensures |s.pending| <= s.nd
  {
    CountSlots(s);
  }

  lemma FreshValid(maxPoints: nat)
    ensures FreshSlots(maxPoints).Valid()
  {
    IntervalSize(0, maxPoints);
  }

  /** In a valid state the early path of a reservation is never taken: there are empty slots as long as nd is below the
      limit. */
  lemma ReservationPops(s: Slots, pick: nat)
    requires s.Valid() && s.nd < s.maxPoints && (s.empty != {} ==> pick in s.empty)
    ensures pick in s.empty && ReservedSlot(s, pick) == pick
    ensures pick < s.maxPoints && pick !in s.Occupied()
  {
    assert s.empty != {};
  }

  /** s with an empty slot taken for a new tag. */
  function Tagged(s: Slots, tag: int, x: nat): Slots {
    s.(nd := s.nd + 1, empty := s.empty - {x},
       tagToLocation := s.tagToLocation[tag := x], locationToTag := s.locationToTag[x := tag])
  }

  lemma TaggedKeepsPartition(s: Slots, tag: int, x: nat)
    requires s.Partition() && x in s.empty
    ensures Tagged(s, tag, x).Partition()
  {
    var t := Tagged(s, tag, x);
    assert t.Occupied() == s.Occupied() + {x};
  }

  lemma TaggedKeepsInverse(s: Slots, tag: int, x: nat)
    requires s.MutuallyInverse() && x !in s.locationToTag && tag !in s.tagToLocation
    ensures Tagged(s, tag, x).MutuallyInverse()
  {
  }

  lemma TaggedKeepsValid(s: Slots, tag: int, x: nat)
    requires s.Valid() && x in s.empty && tag != 0 && tag !in s.tagToLocation
    ensures Tagged(s, tag, x).Valid()
  {
    TaggedKeepsPartition(s, tag, x);
    TaggedKeepsInverse(s, tag, x);
  }

  /** An accepted insertion gets an empty slot: none that is tagged, deleted, or still being consolidated. */
  lemma InsertIntoEmpty(s: Slots, tag: int, pick: nat)
    requires s.Valid() && pick in s.empty && InsertAccepted(s, tag)
    ensures InsertTag(s, tag, pick) == Tagged(s, tag, pick)
    ensures Tagged(s, tag, pick).Valid()
  {
    InsertIsTagged(s, tag, pick);
    TaggedKeepsValid(s, tag, pick);
  }

  lemma InsertIsTagged(s: Slots, tag: int, pick: nat)
    requires pick in s.empty && pick !in s.deleted && InsertAccepted(s, tag)
    ensures InsertTag(s, tag, pick) == Tagged(s, tag, pick)
  {
    assert s.deleted - {pick} == s.deleted;
  }

  lemma InsertKeepsValid(s: Slots, tag: int, pick: nat)
    requires s.Valid() && Enabled(s, Insert(tag, pick))
    ensures InsertTag(s, tag, pick).Valid()
    ensures InsertAccepted(s, tag) ==> pick in s.empty && pick !in s.Occupied()
    ensures !InsertAccepted(s, tag) ==> InsertTag(s, tag, pick) == s
  {
    if tag != 0 && s.nd < s.maxPoints {
      ReservationPops(s, pick);
      if tag !in s.tagToLocation {
        InsertIntoEmpty(s, tag, pick);
      } else {
        assert s.deleted - {pick} == s.deleted;
        assert s.empty - {pick} + {pick} == s.empty;
      }
    }
  }

  /** s with a tagged slot moved to the delete set. */
  function Untagged(s: Slots, tag: int, x: nat): Slots {
    s.(compacted := false, deleted := s.deleted + {x},
       locationToTag := s.locationToTag - {x}, tagToLocation := s.tagToLocation - {tag})
  }

  lemma UntaggedKeepsPartition(s: Slots, tag: int, x: nat)
    requires s.Partition() && x in s.locationToTag
    ensures Untagged(s, tag, x).Partition() && Untagged(s, tag, x).Occupied() == s.Occupied()
  {
    var t := Untagged(s, tag, x);
    assert t.locationToTag.Keys == s.locationToTag.Keys - {x};
    assert t.Occupied() == s.Occupied();
  }

  lemma UntaggedKeepsInverse(s: Slots, tag: int, x: nat)
    requires s.MutuallyInverse() && tag in s.tagToLocation && s.tagToLocation[tag] == x
    ensures Untagged(s, tag, x).MutuallyInverse()
  {
  }

  lemma UntaggedKeepsValid(s: Slots, tag: int, x: nat)
    requires s.Valid() && tag in s.tagToLocation && s.tagToLocation[tag] == x
    ensures Untagged(s, tag, x).Valid() && Untagged(s, tag, x).Occupied() == s.Occupied()
  {
    UntaggedKeepsPartition(s, tag, x);
    UntaggedKeepsInverse(s, tag, x);
  }

  lemma DeleteKeepsValid(s: Slots, tag: int)
    requires s.Valid()
    ensures DeleteTag(s, tag).Valid()
    ensures DeleteTag(s, tag).Occupied() == s.Occupied()
  {
    if tag in s.tagToLocation {
      assert DeleteTag(s, tag) == Untagged(s, tag, s.tagToLocation[tag]);
      UntaggedKeepsValid(s, tag, s.tagToLocation[tag]);
    } else {
      FlagDoesNotMatter(s);
    }
  }

  lemma FlagDoesNotMatter(s: Slots)
    requires s.Valid()
    ensures s.(compacted := false).Valid() && s.(compacted := false).Occupied() == s.Occupied()
  {
  }

  lemma TakeKeepsValid(s: Slots)
    requires s.Valid() && !s.consolidating
    ensures TakeDeletes(s).Valid() && TakeDeletes(s).Occupied() == s.Occupied()
  {
    var t := TakeDeletes(s);
    assert t.Occupied() == s.Occupied();
    assert t.Partition();
  }

  lemma HandBackKeepsValid(s: Slots)
    requires s.Valid()
    ensures |s.pending| <= s.nd
    ensures HandBack(s).Valid() && HandBack(s).Occupied() == s.Occupied() - s.pending
  {
    PendingFits(s);
    HandBackKeepsPartition(s);
    assert |HandBack(s).empty| == |s.empty| + |s.pending|;
  }

  lemma HandBackKeepsPartition(s: Slots)
    requires s.Partition()
    ensures HandBack(s).Partition() && HandBack(s).Occupied() == s.Occupied() - s.pending
  {
    assert HandBack(s).Occupied() == s.Occupied() - s.pending;
  }

  /** A consolidation is admitted exactly when none is running; while one holds taken slots the counts do not add up. */
  lemma AdmittedIffIdle(s: Slots)
    requires s.Valid()
    ensures Admit(s) == Admitted <==> !s.consolidating
    ensures Admit(s) == Inconsistent <==> s.pending != {}
    ensures Admit(s) != CountError
  {
    CountSlots(s);
    InverseMapsSameSize(s.tagToLocation, s.locationToTag);
    assert |s.pending| == 0 <==> s.pending == {};
  }

  lemma ApplyKeepsValid(s: Slots, e: Event)
    requires s.Valid() && Enabled(s, e)
    ensures Apply(s, e).Valid() && Apply(s, e).maxPoints == s.maxPoints
  {
    match e
    case Insert(tag, pick) => InsertKeepsValid(s, tag, pick);
    case LazyDelete(tag) => DeleteKeepsValid(s, tag);
    case StartConsolidation => AdmittedIffIdle(s); TakeKeepsValid(s);
    case EndConsolidation => HandBackKeepsValid(s);
  }

  /** No event but the deletion of a tag moves its point. */
  lemma ApplyKeepsTag(s: Slots, e: Event, tag: int)
    requires s.Valid() && Enabled(s, e) && tag in s.tagToLocation && e != LazyDelete(tag)
    ensures tag in Apply(s, e).tagToLocation && Apply(s, e).tagToLocation[tag] == s.tagToLocation[tag]
  {
    if e.Insert? { InsertKeepsTag(s, e.tag, e.pick, tag); }
  }

  lemma InsertKeepsTag(s: Slots, newTag: int, pick: nat, tag: int)
    requires s.Valid() && Enabled(s, Insert(newTag, pick)) && tag in s.tagToLocation
    ensures var t := InsertTag(s, newTag, pick); tag in t.tagToLocation && t.tagToLocation[tag] == s.tagToLocation[tag]
  {
    InsertKeepsValid(s, newTag, pick);
    if InsertAccepted(s, newTag) { InsertIntoEmpty(s, newTag, pick); }
  }

  /** A deleted slot leaves the delete set only into a consolidation, and that only by its end. */
  lemma ApplyKeepsDeleted(s: Slots, e: Event, x: nat)
    requires s.Valid() && Enabled(s, e)
    ensures x in s.deleted ==> x in Apply(s, e).deleted || (e == StartConsolidation && x in Apply(s, e).pending)
    ensures x in s.pending ==> x in Apply(s, e).pending || e == EndConsolidation
  {
    if e.Insert? {
      InsertKeepsValid(s, e.tag, e.pick);
      if InsertAccepted(s, e.tag) { InsertIntoEmpty(s, e.tag, e.pick); }
    } else if e == StartConsolidation {
      AdmittedIffIdle(s);
    }
  }

  // ------------------------------------------------------------------ whole runs

  /** trace is a run of the events from a fresh index: any interleaving of the four lock-protected steps. */
  ghost predicate Run(trace: seq<Slots>, events: seq<Event>, maxPoints: nat) {
    && |trace| == |events| + 1
    && trace[0] == FreshSlots(maxPoints)
    && forall i {:trigger StepAt(trace, events, i)} :: 0 <= i < |events| ==> StepAt(trace, events, i)
  }

  ghost predicate StepAt(trace: seq<Slots>, events: seq<Event>, i: nat)
    requires i < |events| < |trace|
  {
    Enabled(trace[i], events[i]) && trace[i + 1] == Apply(trace[i], events[i])
  }

  lemma {:induction false} RunIsValid(trace: seq<Slots>, events: seq<Event>, maxPoints: nat, i: nat)
    requires Run(trace, events, maxPoints) && i < |trace|
    ensures trace[i].Valid() && trace[i].maxPoints == maxPoints
  {
    if i == 0 {
      FreshValid(maxPoints);
    } else {
      RunIsValid(trace, events, maxPoints, i - 1);
      assert StepAt(trace, events, i - 1);
      ApplyKeepsValid(trace[i - 1], events[i - 1]);
    }
  }

  /** In every run an insertion is accepted exactly when the index says so, and its slot held no point before. */
  lemma InsertionsAreSafe(trace: seq<Slots>, events: seq<Event>, maxPoints: nat, i: nat)
    requires Run(trace, events, maxPoints) && i < |events| && events[i].Insert?
    ensures var s, t := trace[i], events[i].tag;
      && (InsertAccepted(s, t) <==> trace[i + 1] != s)
      && (InsertAccepted(s, t) ==>
            && trace[i + 1].tagToLocation == s.tagToLocation[t := events[i].pick]
            && events[i].pick < maxPoints
            && events[i].pick !in s.locationToTag && events[i].pick !in s.deleted && events[i].pick !in s.pending)
  {
    RunIsValid(trace, events, maxPoints, i);
    assert StepAt(trace, events, i);
    InsertKeepsValid(trace[i], events[i].tag, events[i].pick);
    if InsertAccepted(trace[i], events[i].tag) {
      InsertIntoEmpty(trace[i], events[i].tag, events[i].pick);
    }
  }

  /** A point keeps its location for as long as nobody deletes its tag. */
  lemma {:induction false} LocationIsStable(trace: seq<Slots>, events: seq<Event>, maxPoints: nat, tag: int, i: nat,
                                            j: nat)
    requires Run(trace, events, maxPoints) && i <= j < |trace|
    requires tag in trace[i].tagToLocation
    requires forall k :: i <= k < j ==> events[k] != LazyDelete(tag)
    ensures tag in trace[j].tagToLocation && trace[j].tagToLocation[tag] == trace[i].tagToLocation[tag]
    decreases j
  {
    if i < j {
      assert StepAt(trace, events, j - 1) && events[j - 1] != LazyDelete(tag);
      LocationIsStable(trace, events, maxPoints, tag, i, j - 1);
      RunIsValid(trace, events, maxPoints, j - 1);
      ApplyKeepsTag(trace[j - 1], events[j - 1], tag);
    }
  }

  /** A consolidation that began at step i or later, and before step j. */
  ghost predicate Began(events: seq<Event>, i: nat, j: nat) {
    exists a :: i <= a < j <= |events| && events[a] == StartConsolidation
  }

  /** One that began and ended between the steps i and j. */
  ghost predicate BeganAndEnded(events: seq<Event>, i: nat, j: nat) {
    exists a, b :: i <= a < b < j <= |events| && events[a] == StartConsolidation && events[b] == EndConsolidation
  }

  /** How far the reclamation of slot x has come since step i. */
  ghost predicate Reclaiming(s: Slots, events: seq<Event>, x: nat, i: nat, j: nat) {
    x in s.deleted || (x in s.pending && Began(events, i, j)) || BeganAndEnded(events, i, j)
  }

  lemma BeganStays(events: seq<Event>, i: nat, j: nat)
    requires j < |events|
    ensures Began(events, i, j) ==> Began(events, i, j + 1)
    ensures BeganAndEnded(events, i, j) ==> BeganAndEnded(events, i, j + 1)
    ensures i <= j && events[j] == StartConsolidation ==> Began(events, i, j + 1)
  {
  }

  lemma EndsWhatBegan(events: seq<Event>, i: nat, j: nat)
    requires j < |events| && Began(events, i, j) && events[j] == EndConsolidation
    ensures BeganAndEnded(events, i, j + 1)
  {
    var a :| i <= a < j && events[a] == StartConsolidation;
    assert events[a] == StartConsolidation && events[j] == EndConsolidation;
  }

  lemma ReclaimingStep(s: Slots, events: seq<Event>, x: nat, i: nat, j: nat)
    requires s.Valid() && i <= j < |events| && Enabled(s, events[j]) && Reclaiming(s, events, x, i, j)
    ensures Reclaiming(Apply(s, events[j]), events, x, i, j + 1)
  {
    ApplyKeepsDeleted(s, events[j], x);
    BeganStays(events, i, j);
    if x in s.pending && Began(events, i, j) && events[j] == EndConsolidation { EndsWhatBegan(events, i, j); }
  }

  lemma {:induction false} DeletedStaysReclaiming(trace: seq<Slots>, events: seq<Event>, maxPoints: nat, x: nat, i: nat,
                                                  j: nat)
    requires Run(trace, events, maxPoints) && i <= j < |trace| && x in trace[i].deleted
    ensures Reclaiming(trace[j], events, x, i, j)
    decreases j
  {
    if i < j {
      DeletedStaysReclaiming(trace, events, maxPoints, x, i, j - 1);
      ReclaimingGoesOn(trace, events, maxPoints, x, i, j - 1);
    }
  }

  lemma ReclaimingGoesOn(trace: seq<Slots>, events: seq<Event>, maxPoints: nat, x: nat, i: nat, j: nat)
    requires Run(trace, events, maxPoints) && i <= j < |events| && Reclaiming(trace[j], events, x, i, j)
    ensures Reclaiming(trace[j + 1], events, x, i, j + 1)
  {
    RunIsValid(trace, events, maxPoints, j);
    assert StepAt(trace, events, j);
    ReclaimingStep(trace[j], events, x, i, j);
  }

  /** A deleted slot is handed out again only after a consolidation that began after the deletion has ended. */
  lemma ReuseNeedsConsolidation(trace: seq<Slots>, events: seq<Event>, maxPoints: nat, i: nat, j: nat)
    requires Run(trace, events, maxPoints) && i <= j < |events|
    requires events[j].Insert? && InsertAccepted(trace[j], events[j].tag)
    requires events[j].pick in trace[i].deleted
    ensures exists a, b :: i <= a < b < j && events[a] == StartConsolidation && events[b] == EndConsolidation
  {
    DeletedStaysReclaiming(trace, events, maxPoints, events[j].pick, i, j);
    InsertionsAreSafe(trace, events, maxPoints, j);
  }

  /** Deletions do not make room: the capacity counts live points, deleted ones and those being consolidated. */
  lemma CapacityLaw(s: Slots, tag: int)
    requires s.Valid()
    ensures InsertAccepted(s, tag) <==>
      tag != 0 && tag !in s.tagToLocation && |s.tagToLocation| + |s.deleted| + |s.pending| < s.maxPoints
  {
    CountSlots(s);
    InverseMapsSameSize(s.tagToLocation, s.locationToTag);
  }

  /** The flag is right after an accepted insertion into a compact index exactly when the reservation took the next
      slot. */
  lemma CompactedFlagRight(s: Slots, tag: int, pick: nat)
    requires s.Valid() && s.locationToTag.Keys == Interval(0, s.nd) && pick in s.empty && InsertAccepted(s, tag)
    ensures InsertTag(s, tag, pick).compacted == s.compacted
    ensures InsertTag(s, tag, pick).locationToTag.Keys == Interval(0, s.nd + 1) <==> pick == s.nd
  {
    InsertIntoEmpty(s, tag, pick);
    KeysGrow(s.locationToTag, pick, tag, s.nd);
  }

  lemma KeysGrow(m: map<nat, int>, x: nat, tag: int, n: nat)
    requires m.Keys == Interval(0, n) && x !in m
    ensures m[x := tag].Keys == Interval(0, n + 1) <==> x == n
  {
    var k := m[x := tag].Keys;
    assert x in k;
    assert k == m.Keys + {x};
    if x == n {
      assert k == Interval(0, n + 1);
    } else {
      assert n !in k && n in Interval(0, n + 1);
    }
  }

  /** Seen from the state before: whatever slot the reservation may take, the flag stays right, exactly when only the
      slot behind the live points is left. */
  lemma CompactedFlagSafe(s: Slots, tag: int)
    requires s.Valid() && s.locationToTag.Keys == Interval(0, s.nd) && InsertAccepted(s, tag)
    ensures (forall pick :: pick in s.empty ==> InsertTag(s, tag, pick).locationToTag.Keys == Interval(0, s.nd + 1))
      <==> s.empty == {s.nd}
  {
    forall pick | pick in s.empty
      ensures InsertTag(s, tag, pick).locationToTag.Keys == Interval(0, s.nd + 1) <==> pick == s.nd
    {
      CompactedFlagRight(s, tag, pick);
    }
    assert s.empty != {};
    var some := Member(s.empty);
  }

  /** Compaction will leave, or has left, the live points in the first slots. */
  predicate Compactable(s: Slots) {
    !s.compacted || s.locationToTag.Keys == Interval(0, s.nd)
  }

  /** Nothing clears the compacted flag on insertion: it can stay up while the live points are not the first nd
      slots. */
  lemma CompactedFlagCanLie()
    ensures var s := InsertTag(FreshSlots(2), 7, 1);
      && Enabled(FreshSlots(2), Insert(7, 1)) && s.Valid()
      && s.compacted && s.nd == 1 && s.locationToTag.Keys != Interval(0, 1)
  {
    FreshValid(2);
    InsertIntoEmpty(FreshSlots(2), 7, 1);
    CompactedFlagRight(FreshSlots(2), 7, 1);
  }

  /** After one insertion into two slots compaction is not due, and the point is in the first slot or it is not. */
  lemma OneOfTwoSlots(loc: nat)
    requires loc < 2
    ensures var s := Tagged(FreshSlots(2), 7, loc);
      s.tagToLocation.Keys == {7} && s.deleted == {} && (Compactable(s) <==> loc == 0)
  {
    var s := Tagged(FreshSlots(2), 7, loc);
    assert s.locationToTag.Keys == {loc} && s.tagToLocation.Keys == {7};
    assert Interval(0, 1) == {0};
  }
}
