/**
 * The flow table and its timer wheel: 512 one-second buckets ahead of the last
 * second drained, an overflow list beyond them, and slots that are only hints
 * to the exact deadlines kept with the flows.
 */
module FlowTable {
  import opened Bytes
  import Guards

  const WHEEL_BUCKETS: nat := 512

  /** Instants are nanoseconds since the wheel's epoch. */
  const NANOS: nat := Guards.NANOS

  function Second(instant: nat): nat {
    instant / NANOS
  }

  datatype Slot<+K> = Slot(second: nat, key: K)

  /** `drained` is the first second not yet drained. */
  datatype Wheel<+K> = Wheel(buckets: seq<seq<Slot<K>>>, overflow: seq<Slot<K>>, drained: nat)

  /** A bucket holds one second of the window ahead; what is in overflow is not
      drained yet either. */
  ghost predicate Sound<K(!new)>(wheel: Wheel<K>) {
    && |wheel.buckets| == WHEEL_BUCKETS
    && (forall b, slot :: 0 <= b < WHEEL_BUCKETS && slot in wheel.buckets[b] ==> InWindow(wheel, b, slot))
    && (forall slot :: slot in wheel.overflow ==> wheel.drained <= slot.second)
  }

  ghost predicate InWindow<K>(wheel: Wheel<K>, b: nat, slot: Slot<K>) {
    slot.second % WHEEL_BUCKETS == b && wheel.drained <= slot.second < wheel.drained + WHEEL_BUCKETS
  }

  ghost predicate Near<K>(wheel: Wheel<K>, slot: Slot<K>)
    requires |wheel.buckets| == WHEEL_BUCKETS
  {
    slot in wheel.buckets[slot.second % WHEEL_BUCKETS]
  }

  ghost predicate Has<K>(wheel: Wheel<K>, slot: Slot<K>)
    requires |wheel.buckets| == WHEEL_BUCKETS
  {
    slot in wheel.overflow || Near(wheel, slot)
  }

  function Bucketed<K>(wheel: Wheel<K>, slot: Slot<K>): Wheel<K>
    requires |wheel.buckets| == WHEEL_BUCKETS
  {
    var b := slot.second % WHEEL_BUCKETS;
    wheel.(buckets := wheel.buckets[b := wheel.buckets[b] + [slot]])
  }

  /** `TimerWheel::insert`: never before the second already drained. */
  function Inserted<K>(wheel: Wheel<K>, second: nat, key: K): Wheel<K>
    requires |wheel.buckets| == WHEEL_BUCKETS
  {
    var slot := Slot(Max(second, wheel.drained), key);
    if slot.second >= wheel.drained + WHEEL_BUCKETS then wheel.(overflow := wheel.overflow + [slot])
    else Bucketed(wheel, slot)
  }

  lemma {:induction false} BucketedHas<K(!new)>(wheel: Wheel<K>, slot: Slot<K>)
    requires Sound(wheel) && wheel.drained <= slot.second < wheel.drained + WHEEL_BUCKETS
    ensures Sound(Bucketed(wheel, slot))
    ensures forall other :: Near(Bucketed(wheel, slot), other) <==> Near(wheel, other) || other == slot
  {
  }

  lemma {:induction false} InsertedHas<K(!new)>(wheel: Wheel<K>, second: nat, key: K)
    requires Sound(wheel)
    ensures Sound(Inserted(wheel, second, key)) && Inserted(wheel, second, key).drained == wheel.drained
    ensures forall slot :: Has(Inserted(wheel, second, key), slot) <==>
              Has(wheel, slot) || slot == Slot(Max(second, wheel.drained), key)
  {
    var slot := Slot(Max(second, wheel.drained), key);
    if slot.second < wheel.drained + WHEEL_BUCKETS {
      BucketedHas(wheel, slot);
    }
  }

  /** The overflow pass of `take_due`: due slots surface, slots within the window
      as it stands move to their buckets, the rest stay. */
  method SweepOverflow<K(!new)>(wheel: Wheel<K>, horizon: nat) returns (swept: Wheel<K>, surfaced: seq<Slot<K>>)
    requires Sound(wheel)
    ensures Sound(swept) && swept.drained == wheel.drained
    ensures forall slot :: Near(swept, slot) <==>
              Near(wheel, slot) || (slot in wheel.overflow && horizon < slot.second < wheel.drained + WHEEL_BUCKETS)
    ensures forall slot :: slot in swept.overflow <==>
              slot in wheel.overflow && slot.second > horizon && slot.second >= wheel.drained + WHEEL_BUCKETS
    ensures forall slot :: slot in surfaced <==> slot in wheel.overflow && slot.second <= horizon
  {
    swept, surfaced := wheel.(overflow := []), [];
    for i := 0 to |wheel.overflow|
      invariant Sound(swept) && swept.drained == wheel.drained
      invariant forall slot :: Near(swept, slot) <==>
                  Near(wheel, slot) || (slot in wheel.overflow[..i] && horizon < slot.second < wheel.drained + WHEEL_BUCKETS)
      invariant forall slot :: slot in swept.overflow <==>
                  slot in wheel.overflow[..i] && slot.second > horizon && slot.second >= wheel.drained + WHEEL_BUCKETS
      invariant forall slot :: slot in surfaced <==> slot in wheel.overflow[..i] && slot.second <= horizon
    {
      var slot := wheel.overflow[i];
      assert wheel.overflow[..i + 1] == wheel.overflow[..i] + [slot];
      if slot.second <= horizon {
        surfaced := surfaced + [slot];
      } else if slot.second < wheel.drained + WHEEL_BUCKETS {
        BucketedHas(swept, slot);
        swept := Bucketed(swept, slot);
      } else {
        swept := swept.(overflow := swept.overflow + [slot]);
      }
    }
    assert wheel.overflow[..|wheel.overflow|] == wheel.overflow;
  }

  /** Which of these slots have arrived by `horizon`. */
  method SplitDue<K>(slots: seq<Slot<K>>, horizon: nat) returns (due: seq<Slot<K>>, later: seq<Slot<K>>)
    ensures forall slot :: slot in later <==> slot in slots && slot.second > horizon
    ensures forall slot :: slot in due <==> slot in slots && slot.second <= horizon
    ensures (forall i :: 0 <= i < |slots| ==> slots[i].second <= horizon) ==> later == []
  {
    due, later := [], [];
    for i := 0 to |slots|
      invariant forall slot :: slot in later <==> slot in slots[..i] && slot.second > horizon
      invariant forall slot :: slot in due <==> slot in slots[..i] && slot.second <= horizon
      invariant (forall j :: 0 <= j < i ==> slots[j].second <= horizon) ==> later == []
    {
      assert slots[..i + 1] == slots[..i] + [slots[i]];
      if slots[i].second <= horizon {
        due := due + [slots[i]];
      } else {
        later := later + [slots[i]];
      }
    }
    assert slots[..|slots|] == slots;
  }

  /** Slots surfaced too soon go back to their own buckets. */
  function Rebucketed<K>(wheel: Wheel<K>, slots: seq<Slot<K>>): Wheel<K>
    requires |wheel.buckets| == WHEEL_BUCKETS
    decreases |slots|
  {
    if slots == [] then wheel else Rebucketed(Bucketed(wheel, slots[0]), slots[1..])
  }

  /** A bucket holds nothing but the second it stands for, so a drained one
      leaves nothing to put back. */
  lemma {:induction false} BucketIsOneSecond<K(!new)>(wheel: Wheel<K>, slot: Slot<K>)
    requires Sound(wheel) && slot in wheel.buckets[wheel.drained % WHEEL_BUCKETS]
    ensures slot.second == wheel.drained
  {
    assert InWindow(wheel, wheel.drained % WHEEL_BUCKETS, slot);
  }

  /** One second of the drain loop of `take_due`. */
  method DrainSecond<K(!new)>(wheel: Wheel<K>, horizon: nat) returns (next: Wheel<K>, due: seq<Slot<K>>)
    requires Sound(wheel) && wheel.drained <= horizon
    requires forall slot :: slot in wheel.overflow ==> slot.second > horizon
    ensures Sound(next) && next.drained == wheel.drained + 1 && next.overflow == wheel.overflow
    ensures forall slot :: Near(next, slot) <==> Near(wheel, slot) && slot.second != wheel.drained
    ensures forall slot :: slot in due <==> Near(wheel, slot) && slot.second == wheel.drained
  {
    var b := wheel.drained % WHEEL_BUCKETS;
    var later;
    due, later := SplitDue(wheel.buckets[b], horizon);
    forall slot | slot in wheel.buckets[b]
      ensures slot.second == wheel.drained
    {
      BucketIsOneSecond(wheel, slot);
    }
    var emptied := wheel.(buckets := wheel.buckets[b := []]);
    next := Rebucketed(emptied, later).(drained := wheel.drained + 1);
    forall c, slot | 0 <= c < WHEEL_BUCKETS && slot in next.buckets[c]
      ensures InWindow(next, c, slot)
    {
      assert InWindow(wheel, c, slot);
    }
  }

  /** `take_due`: every slot whose second has arrived surfaces, every other slot
      stays, and the window moves past `horizon`. */
  method TakeDue<K(!new)>(wheel: Wheel<K>, horizon: nat) returns (next: Wheel<K>, surfaced: seq<Slot<K>>)
    requires Sound(wheel)
    ensures Sound(next) && next.drained == Max(wheel.drained, horizon + 1)
    ensures forall slot :: Has(next, slot) <==> Has(wheel, slot) && slot.second > horizon
    ensures forall slot :: slot in surfaced <==> Has(wheel, slot) && slot.second <= horizon
    ensures forall slot :: slot in next.overflow <==>
              slot in wheel.overflow && slot.second > horizon && slot.second >= wheel.drained + WHEEL_BUCKETS
    ensures forall slot :: Near(next, slot) <==>
              && slot.second > horizon
              && (Near(wheel, slot) || (slot in wheel.overflow && slot.second < wheel.drained + WHEEL_BUCKETS))
  {
    next, surfaced := SweepOverflow(wheel, horizon);
    ghost var swept := next;
    ghost var early := surfaced;
    while next.drained <= horizon
      invariant Sound(next) && wheel.drained <= next.drained <= Max(wheel.drained, horizon + 1)
      invariant next.overflow == swept.overflow
      invariant forall slot :: Near(next, slot) <==> Near(swept, slot) && slot.second >= next.drained
      invariant forall slot :: slot in surfaced <==>
                  slot in early || (Near(swept, slot) && slot.second < next.drained)
      decreases horizon + 1 - next.drained
    {
      var due;
      next, due := DrainSecond(next, horizon);
      surfaced := surfaced + due;
    }
  }

  /** A slot on the wheel is not before the first undrained second. */
  lemma {:induction false} NotBeforeDrained<K(!new)>(wheel: Wheel<K>, slot: Slot<K>)
    requires Sound(wheel) && Has(wheel, slot)
    ensures wheel.drained <= slot.second
  {
    if Near(wheel, slot) {
      assert InWindow(wheel, slot.second % WHEEL_BUCKETS, slot);
    }
  }

  // ------------------------------------------------------------ the next deadline

  /** The second `next_due` names: the first occupied one of the window, or its
      end when the window is empty. */
  ghost predicate Names<K(!new)>(wheel: Wheel<K>, second: nat)
    requires |wheel.buckets| == WHEEL_BUCKETS
  {
    && (forall slot :: Near(wheel, slot) ==> second <= slot.second)
    && ((exists slot :: Near(wheel, slot) && slot.second == second)
        || (second == wheel.drained + WHEEL_BUCKETS && forall slot :: !Near(wheel, slot)))
  }

  /** Overflow holds something due by this second of the window, and no bucket
      does: what waits there is not looked at. */
  ghost predicate Stranded<K(!new)>(wheel: Wheel<K>, second: nat)
    requires |wheel.buckets| == WHEEL_BUCKETS
  {
    && wheel.drained <= second < wheel.drained + WHEEL_BUCKETS
    && (exists slot :: slot in wheel.overflow && slot.second <= second)
    && (forall slot :: Near(wheel, slot) ==> slot.second > second)
  }

  /** `next_due`: the first occupied second of the window, else its end when
      something waits in overflow. It is later than a slot on the wheel exactly
      when that slot is stranded in overflow. */
  method NextDue<K(!new)>(wheel: Wheel<K>) returns (next: Option<nat>)
    requires Sound(wheel)
    ensures next.None? <==> forall slot :: !Has(wheel, slot)
    ensures next.Some? ==> Names(wheel, next.value)
    ensures next.Some? ==> forall slot :: Has(wheel, slot) ==> (next.value > slot.second <==> Stranded(wheel, slot.second))
  {
    next := FirstOccupied(wheel);
    if next.Some? {
      forall slot | Has(wheel, slot)
        ensures next.value > slot.second <==> Stranded(wheel, slot.second)
      {
        NamedLate(wheel, next.value, slot);
      }
    }
  }

  method FirstOccupied<K(!new)>(wheel: Wheel<K>) returns (next: Option<nat>)
    requires Sound(wheel)
    ensures next.None? <==> forall slot :: !Has(wheel, slot)
    ensures next.Some? ==> Names(wheel, next.value)
  {
    assert forall slot :: Near(wheel, slot) ==> InWindow(wheel, slot.second % WHEEL_BUCKETS, slot);
    var second := wheel.drained;
    while second < wheel.drained + WHEEL_BUCKETS
      invariant wheel.drained <= second <= wheel.drained + WHEEL_BUCKETS
      invariant forall slot :: Near(wheel, slot) ==> second <= slot.second
    {
      var bucket := wheel.buckets[second % WHEEL_BUCKETS];
      if bucket != [] {
        assert bucket[0] in bucket && InWindow(wheel, second % WHEEL_BUCKETS, bucket[0]);
        assert Near(wheel, bucket[0]) && bucket[0].second == second;
        assert Has(wheel, bucket[0]);
        return Some(second);
      }
      second := second + 1;
    }
    if wheel.overflow != [] {
      assert wheel.overflow[0] in wheel.overflow && Has(wheel, wheel.overflow[0]);
      return Some(second);
    }
    return None;
  }

  /** What is named lies in the window or at its end. */
  lemma {:induction false} NamedInWindow<K(!new)>(wheel: Wheel<K>, named: nat)
    requires Sound(wheel) && Names(wheel, named)
    ensures wheel.drained <= named <= wheel.drained + WHEEL_BUCKETS
  {
    if slot :| Near(wheel, slot) && slot.second == named {
      assert InWindow(wheel, slot.second % WHEEL_BUCKETS, slot);
    }
  }

  lemma {:induction false} NamedLate<K(!new)>(wheel: Wheel<K>, named: nat, slot: Slot<K>)
    requires Sound(wheel) && Names(wheel, named) && Has(wheel, slot)
    ensures named > slot.second <==> Stranded(wheel, slot.second)
  {
    NamedInWindow(wheel, named);
    NotBeforeDrained(wheel, slot);
  }

  function EmptyWheel<K>(): (wheel: Wheel<K>) {
    Wheel(seq(WHEEL_BUCKETS, i => []), [], 0)
  }

  /** A deadline reported late. One slot at second `due`, put on a wheel whose
      window ends before it; a drain that stops short of it but whose new window
      reaches it; and the wheel then names the end of that window instead. With
      120-second timeouts this is a first flow more than 392 seconds after the
      last drain, such as `due` 1120 and `now` 1000. */
  method ReportedLate(due: nat, now: nat) returns (next: Option<nat>)
    requires WHEEL_BUCKETS <= due && now < due < now + 1 + WHEEL_BUCKETS
    ensures next == Some(now + 1 + WHEEL_BUCKETS) && next.value > due
  {
    var wheel: Wheel<nat> := EmptyWheel();
    wheel := Inserted(wheel, due, 0);
    assert forall slot :: !Near(wheel, slot);
    assert wheel.overflow == [Slot(due, 0)];
    var surfaced;
    wheel, surfaced := TakeDue(wheel, now);
    assert Slot(due, 0) in wheel.overflow;
    next := NextDue(wheel);
  }

  // ------------------------------------------------------------ the table

  datatype Flow<+V> = Flow(value: V, deadline: nat)

  datatype Admission = Opened | Refreshed | AtCeiling

  /** Some slot brings this key up no later than its deadline's second, or the
      first undrained one if that has passed. */
  ghost predicate Indexed<K(!new)>(wheel: Wheel<K>, deadline: nat, key: K)
    requires |wheel.buckets| == WHEEL_BUCKETS
  {
    exists slot :: Has(wheel, slot) && slot.key == key && slot.second <= Max(Second(deadline), wheel.drained)
  }

  lemma {:induction false} LaterSecond(second: nat, instant: nat)
    ensures second * NANOS > instant <==> second > Second(instant)
    ensures second <= Second(instant) + 1 ==> second * NANOS <= instant + NANOS
  {
  }

  /** An indexed deadline is named late exactly when its own second has been
      drained already, or when it is stranded. */
  lemma {:induction false} LateExactly<K(!new)>(wheel: Wheel<K>, named: nat, deadline: nat, key: K)
    requires Sound(wheel) && Names(wheel, named) && Indexed(wheel, deadline, key)
    ensures named * NANOS > deadline <==> Second(deadline) < wheel.drained || Stranded(wheel, Second(deadline))
    ensures !Stranded(wheel, Max(Second(deadline), wheel.drained)) ==> named <= Max(Second(deadline), wheel.drained)
  {
    NamedInWindow(wheel, named);
    LaterSecond(named, deadline);
    var slot :| Has(wheel, slot) && slot.key == key && slot.second <= Max(Second(deadline), wheel.drained);
    if Near(wheel, slot) {
      assert named <= slot.second;
    } else {
      assert slot in wheel.overflow && wheel.drained <= slot.second;
    }
  }

  ghost predicate Surfaced<K>(slots: seq<Slot<K>>, key: K) {
    exists slot :: slot in slots && slot.key == key
  }

  /** A later deadline is found by the same slot: a refresh files nothing. */
  lemma {:induction false} LaterStillIndexed<K(!new)>(wheel: Wheel<K>, sooner: nat, later: nat, key: K)
    requires |wheel.buckets| == WHEEL_BUCKETS && sooner <= later && Indexed(wheel, sooner, key)
    ensures Indexed(wheel, later, key)
  {
    var slot :| Has(wheel, slot) && slot.key == key && slot.second <= Max(Second(sooner), wheel.drained);
    assert Has(wheel, slot) && slot.key == key && slot.second <= Max(Second(later), wheel.drained);
  }

  ghost predicate MoreSlots<K(!new)>(wheel: Wheel<K>, more: Wheel<K>)
    requires |wheel.buckets| == |more.buckets| == WHEEL_BUCKETS
  {
    wheel.drained <= more.drained && forall slot :: Has(wheel, slot) ==> Has(more, slot)
  }

  lemma {:induction false} MoreSlotsIndex<K(!new)>(wheel: Wheel<K>, more: Wheel<K>, deadline: nat, key: K)
    requires |wheel.buckets| == |more.buckets| == WHEEL_BUCKETS && MoreSlots(wheel, more)
    requires Indexed(wheel, deadline, key)
    ensures Indexed(more, deadline, key)
  {
    var slot :| Has(wheel, slot) && slot.key == key && slot.second <= Max(Second(deadline), wheel.drained);
    assert Has(more, slot) && slot.key == key && slot.second <= Max(Second(deadline), more.drained);
  }

  lemma {:induction false} InsertedIndexes<K(!new)>(wheel: Wheel<K>, deadline: nat, key: K)
    requires Sound(wheel)
    ensures Indexed(Inserted(wheel, Second(deadline), key), deadline, key)
    ensures forall other, due: nat :: Indexed(wheel, due, other) ==>
              Indexed(Inserted(wheel, Second(deadline), key), due, other)
  {
    InsertedHas(wheel, Second(deadline), key);
    var next := Inserted(wheel, Second(deadline), key);
    assert Has(next, Slot(Max(Second(deadline), wheel.drained), key));
    forall other, due: nat | Indexed(wheel, due, other)
      ensures Indexed(next, due, other)
    {
      MoreSlotsIndex(wheel, next, due, other);
    }
  }

  /** After a drain an indexed key has surfaced or is still indexed; and it has
      surfaced if its second had arrived and was not drained before. */
  lemma {:induction false} DrainedOrIndexed<K(!new)>(
      wheel: Wheel<K>, horizon: nat, next: Wheel<K>, surfaced: seq<Slot<K>>, deadline: nat, key: K)
    requires Sound(wheel) && Sound(next) && next.drained == Max(wheel.drained, horizon + 1)
    requires forall slot :: Has(next, slot) <==> Has(wheel, slot) && slot.second > horizon
    requires forall slot :: slot in surfaced <==> Has(wheel, slot) && slot.second <= horizon
    requires Indexed(wheel, deadline, key)
    ensures Surfaced(surfaced, key) || Indexed(next, deadline, key)
    ensures wheel.drained <= horizon && Second(deadline) <= horizon ==> Surfaced(surfaced, key)
  {
    var slot :| Has(wheel, slot) && slot.key == key && slot.second <= Max(Second(deadline), wheel.drained);
    if slot.second <= horizon {
      assert slot in surfaced && slot.key == key;
    } else {
      assert Has(next, slot) && slot.second <= Max(Second(deadline), next.drained);
    }
  }

  lemma {:induction false} SurfacedSplits<K>(slots: seq<Slot<K>>, n: nat, key: K)
    requires n < |slots|
    ensures Surfaced(slots[..n + 1], key) <==> Surfaced(slots[..n], key) || key == slots[n].key
    ensures Surfaced(slots[n..], key) <==> Surfaced(slots[n + 1..], key) || key == slots[n].key
  {
    assert slots[..n + 1] == slots[..n] + [slots[n]];
    assert slots[n..] == [slots[n]] + slots[n + 1..];
  }

  /** A second already drained holds nothing any more. */
  lemma {:induction false} NothingSurfaces<K(!new)>(wheel: Wheel<K>, horizon: nat, surfaced: seq<Slot<K>>, key: K)
    requires Sound(wheel)
    requires forall slot :: slot in surfaced <==> Has(wheel, slot) && slot.second <= horizon
    ensures wheel.drained > horizon ==> !Surfaced(surfaced, key)
  {
    if slot :| slot in surfaced && slot.key == key {
      NotBeforeDrained(wheel, slot);
    }
  }

  lemma {:induction false} SecondsOrder(sooner: nat, later: nat)
    ensures sooner <= later ==> Second(sooner) <= Second(later)
  {
  }

  lemma {:induction false} FewerKeys<K>(fewer: set<K>, more: set<K>)
    requires fewer <= more
    ensures |fewer| <= |more|
  {
    assert more == fewer + (more - fewer);
  }

  /** Every flow is indexed, none has a deadline past `limit`, and none before the
      last second drained. */
  ghost predicate Held<K(!new), V>(wheel: Wheel<K>, flows: map<K, Flow<V>>, limit: nat)
    requires |wheel.buckets| == WHEEL_BUCKETS
  {
    forall key <- flows ::
      && Indexed(wheel, flows[key].deadline, key)
      && flows[key].deadline <= limit
      && wheel.drained <= Second(flows[key].deadline) + 1
  }

  /** What a new slot adds to overflow: itself, if it lies past the window. */
  ghost function Spill<K>(second: nat, drained: nat, key: K): seq<Slot<K>> {
    if second >= drained + WHEEL_BUCKETS then [Slot(second, key)] else []
  }

  lemma {:induction false} RefreshHeld<K(!new), V>(
      wheel: Wheel<K>, flows: map<K, Flow<V>>, limit: nat, deadline: nat, key: K)
    requires |wheel.buckets| == WHEEL_BUCKETS && Held(wheel, flows, limit) && limit <= deadline && key in flows
    requires wheel.drained <= Second(deadline) + 1
    ensures Held(wheel, flows[key := flows[key].(deadline := deadline)], deadline)
    ensures |flows[key := flows[key].(deadline := deadline)]| == |flows|
  {
    LaterStillIndexed(wheel, flows[key].deadline, deadline, key);
    assert flows[key := flows[key].(deadline := deadline)].Keys == flows.Keys;
  }

  lemma {:induction false} OpenHeld<K(!new), V>(
      wheel: Wheel<K>, flows: map<K, Flow<V>>, limit: nat, flow: Flow<V>, key: K)
    requires Sound(wheel) && Held(wheel, flows, limit) && limit <= flow.deadline && key !in flows
    requires wheel.drained <= Second(flow.deadline) + 1
    ensures Sound(Inserted(wheel, Second(flow.deadline), key))
    ensures Held(Inserted(wheel, Second(flow.deadline), key), flows[key := flow], flow.deadline)
    ensures |flows[key := flow]| == |flows| + 1
  {
    InsertedHas(wheel, Second(flow.deadline), key);
    InsertedIndexes(wheel, flow.deadline, key);
    assert flows[key := flow].Keys == flows.Keys + {key};
  }

  /** Every deadline lies inside the window. */
  ghost predicate AllNear<K(!new), V>(flows: map<K, Flow<V>>, drained: nat) {
    forall key <- flows :: Second(flows[key].deadline) < drained + WHEEL_BUCKETS
  }

  ghost function Alive<K, V>(flows: map<K, Flow<V>>, now: nat): map<K, Flow<V>> {
    map key | key in flows && flows[key].deadline > now :: flows[key]
  }

  ghost predicate EvictedFrom<K(!new), V>(
      before: map<K, Flow<V>>, after: map<K, Flow<V>>, slots: seq<Slot<K>>, now: nat)
  {
    && after.Keys <= before.Keys
    && (forall key <- before :: key !in after <==> before[key].deadline <= now && Surfaced(slots, key))
    && (forall key <- after :: after[key] == before[key])
  }

  lemma {:induction false} EvictedExactly<K(!new), V>(
      before: map<K, Flow<V>>, after: map<K, Flow<V>>, slots: seq<Slot<K>>, now: nat)
    requires EvictedFrom(before, after, slots, now)
    ensures |after| <= |before|
    ensures (forall key <- before :: before[key].deadline <= now ==> Surfaced(slots, key)) ==> after == Alive(before, now)
    ensures (forall key <- before :: !Surfaced(slots, key)) ==> after == before
  {
    FewerKeys(after.Keys, before.Keys);
  }

  /** How a reported instant stands to a deadline: later exactly when a pass has
      been made in the deadline's own second, or when the deadline is stranded;
      and by a second at most unless something is stranded. */
  ghost predicate Due<K(!new)>(wheel: Wheel<K>, reported: nat, deadline: nat)
    requires |wheel.buckets| == WHEEL_BUCKETS
  {
    && (reported > deadline <==> Second(deadline) + 1 == wheel.drained || Stranded(wheel, Second(deadline)))
    && (!Stranded(wheel, Max(Second(deadline), wheel.drained)) ==> reported <= deadline + NANOS)
  }

  /** A deadline in the last second drained, named at the end of the window. */
  const LATEST: nat := (WHEEL_BUCKETS + 1) * NANOS

  /** No deadline is further back than this. */
  ghost predicate InReach<K(!new), V>(flows: map<K, Flow<V>>, instant: nat, late: nat) {
    forall key <- flows :: instant <= flows[key].deadline + late
  }

  lemma {:induction false} DueExactly<K(!new)>(wheel: Wheel<K>, named: nat, deadline: nat, key: K)
    requires Sound(wheel) && Names(wheel, named) && Indexed(wheel, deadline, key) && wheel.drained <= Second(deadline) + 1
    ensures Due(wheel, named * NANOS, deadline)
  {
    LateExactly(wheel, named, deadline, key);
    LaterSecond(named, deadline);
  }

  const MIN_IDLE_TIMEOUT: nat := Guards.MIN_IDLE_TIMEOUT

  /** Slots in overflow after a pass at `now` over a wheel drained up to `drained`. */
  ghost predicate Remaining<K(!new)>(before: seq<Slot<K>>, drained: nat, now: nat, after: seq<Slot<K>>) {
    forall slot :: slot in after <==>
      slot in before && slot.second > Second(now) && slot.second >= drained + WHEEL_BUCKETS
  }

  lemma {:induction false} NoneRemain<K(!new)>(before: seq<Slot<K>>, drained: nat, now: nat, after: seq<Slot<K>>)
    requires Remaining(before, drained, now, after)
    ensures after != [] ==> before != []
  {
    if after != [] {
      assert after[0] in after;
    }
  }

  /** A deadline within 512 seconds of the pass goes back into the window. */
  lemma {:induction false} WithinWindow(deadline: nat, now: nat, idleTimeout: nat)
    requires deadline <= now + idleTimeout && idleTimeout <= WHEEL_BUCKETS * NANOS
    ensures Second(deadline) < Second(now) + 1 + WHEEL_BUCKETS
  {
  }

  class UdpFlowTable<K(!new, ==), V> {
    const idleTimeout: nat
    const ceiling: nat
    var flows: map<K, Flow<V>>
    var wheel: Wheel<K>

    /** The latest instant the table has been told of. */
    ghost var clock: nat

    ghost predicate Valid()
      reads this
    {
      && Sound(wheel)
      && MIN_IDLE_TIMEOUT <= idleTimeout
      && |flows| <= ceiling
      && wheel.drained <= Second(clock) + 1
      && Held(wheel, flows, clock + idleTimeout)
    }

    /** See `Open` for the timeouts refused. */
    constructor (idleTimeout: nat, ceiling: nat)
      requires MIN_IDLE_TIMEOUT <= idleTimeout
      ensures Valid() && flows == map[] && clock == 0 && wheel.drained == 0 && wheel.overflow == []
      ensures this.idleTimeout == idleTimeout && this.ceiling == ceiling
    {
      this.idleTimeout := idleTimeout;
      this.ceiling := ceiling;
      flows := map[];
      wheel := EmptyWheel();
      clock := 0;
    }

    /** `get_or_insert_with`: a live flow is refreshed in place, a new one takes
        one slot, and at the ceiling only a new one is refused. The slot goes to
        overflow exactly when its second lies 512 or more past the last drained. */
    method GetOrInsert(key: K, now: nat, value: V) returns (admission: Admission)
      requires Valid() && clock <= now
      modifies this
      ensures Valid() && clock == now && wheel.drained == old(wheel.drained)
      ensures admission.Refreshed? <==> key in old(flows)
      ensures admission.AtCeiling? <==> key !in old(flows) && |old(flows)| >= ceiling
      ensures admission.Refreshed? ==>
                flows == old(flows)[key := Flow(old(flows)[key].value, now + idleTimeout)] && wheel == old(wheel)
      ensures admission.Opened? ==> flows == old(flows)[key := Flow(value, now + idleTimeout)]
      ensures admission.AtCeiling? ==> flows == old(flows)
      ensures wheel.overflow == old(wheel.overflow)
                + if admission.Opened? then Spill(Second(now + idleTimeout), wheel.drained, key) else []
    {
      assert wheel.overflow + [] == wheel.overflow;
      if key in flows {
        Refresh(key, now);
        admission := Refreshed;
      } else if |flows| >= ceiling {
        Tick(now);
        admission := AtCeiling;
      } else {
        OpenAt(key, value, now);
        admission := Opened;
      }
    }

    ghost method Tick(now: nat)
      requires Valid() && clock <= now
      modifies `clock
      ensures Valid() && clock == now
    {
      SecondsOrder(clock, now);
      clock := now;
    }

    method Refresh(key: K, now: nat)
      requires Valid() && clock <= now && key in flows
      modifies `flows, `clock
      ensures Valid() && clock == now
      ensures flows == old(flows)[key := Flow(old(flows)[key].value, now + idleTimeout)]
    {
      Tick(now);
      SecondsOrder(now, now + idleTimeout);
      RefreshHeld(wheel, flows, now + idleTimeout, now + idleTimeout, key);
      flows := flows[key := flows[key].(deadline := now + idleTimeout)];
    }

    method OpenAt(key: K, value: V, now: nat)
      requires Valid() && clock <= now && key !in flows && |flows| < ceiling
      modifies `flows, `wheel, `clock
      ensures Valid() && clock == now
      ensures wheel.drained == old(wheel.drained) && flows == old(flows)[key := Flow(value, now + idleTimeout)]
      ensures wheel.overflow == old(wheel.overflow) + Spill(Second(now + idleTimeout), wheel.drained, key)
    {
      var deadline := now + idleTimeout;
      SecondsOrder(clock, deadline);
      FileNew(key, value, deadline);
      SecondsOrder(clock, now);
      clock := now;
    }

    method FileNew(key: K, value: V, deadline: nat)
      requires Valid() && clock + idleTimeout <= deadline && key !in flows && |flows| < ceiling
      requires wheel.drained <= Second(deadline) + 1
      modifies `flows, `wheel
      ensures Sound(wheel) && Held(wheel, flows, deadline) && |flows| <= ceiling
      ensures wheel.drained == old(wheel.drained) && flows == old(flows)[key := Flow(value, deadline)]
      ensures wheel.overflow == old(wheel.overflow) + Spill(Second(deadline), wheel.drained, key)
    {
      OpenHeld(wheel, flows, clock + idleTimeout, Flow(value, deadline), key);
      wheel := Inserted(wheel, Second(deadline), key);
      flows := flows[key := Flow(value, deadline)];
    }

    /** `retain`: removing flows leaves their slots behind as stale hints. */
    method Retain(kept: set<K>)
      requires Valid()
      modifies `flows
      ensures Valid()
      ensures flows == map key | key in old(flows) && key in kept :: old(flows)[key]
    {
      ghost var before := flows;
      flows := map key | key in flows && key in kept :: flows[key];
      assert flows.Keys <= before.Keys;
      FewerKeys(flows.Keys, before.Keys);
    }

    /** One surfaced key: evicted when its own deadline has arrived, else filed again. */
    method Settle(key: K, now: nat)
      requires Sound(wheel)
      modifies `flows, `wheel
      ensures Sound(wheel) && wheel.drained == old(wheel).drained
      ensures MoreSlots(old(wheel), wheel)
      ensures flows == if key in old(flows) && old(flows)[key].deadline <= now then old(flows) - {key} else old(flows)
      ensures key in flows ==> Indexed(wheel, flows[key].deadline, key)
      ensures key in flows && Second(flows[key].deadline) < wheel.drained + WHEEL_BUCKETS ==> wheel.overflow == old(wheel.overflow)
      ensures key !in flows ==> wheel.overflow == old(wheel.overflow)
    {
      if key in flows {
        if flows[key].deadline <= now {
          flows := flows - {key};
        } else {
          InsertedHas(wheel, Second(flows[key].deadline), key);
          wheel := Inserted(wheel, Second(flows[key].deadline), key);
          assert Has(wheel, Slot(Max(Second(flows[key].deadline), wheel.drained), key));
        }
      }
    }

    /** Where a pass over the surfaced slots stands after `n` of them. */
    ghost predicate Settled(before: map<K, Flow<V>>, slots: seq<Slot<K>>, n: nat, now: nat)
      requires n <= |slots|
      reads this
    {
      && Sound(wheel)
      && EvictedFrom(before, flows, slots[..n], now)
      && (forall key <- flows :: Surfaced(slots[n..], key) || Indexed(wheel, flows[key].deadline, key))
    }

    method SettleNext(ghost before: map<K, Flow<V>>, slots: seq<Slot<K>>, n: nat, now: nat)
      requires n < |slots| && Settled(before, slots, n, now)
      modifies `flows, `wheel
      ensures Settled(before, slots, n + 1, now) && wheel.drained == old(wheel.drained)
      ensures AllNear(before, wheel.drained) ==> wheel.overflow == old(wheel.overflow)
    {
      ghost var was, held := wheel, flows;
      Settle(slots[n].key, now);
      forall key
        ensures Surfaced(slots[..n + 1], key) <==> Surfaced(slots[..n], key) || key == slots[n].key
        ensures Surfaced(slots[n..], key) <==> Surfaced(slots[n + 1..], key) || key == slots[n].key
      {
        SurfacedSplits(slots, n, key);
      }
      forall key | key in flows && !Surfaced(slots[n + 1..], key)
        ensures Indexed(wheel, flows[key].deadline, key)
      {
        if key != slots[n].key {
          MoreSlotsIndex(was, wheel, held[key].deadline, key);
        }
      }
    }

    method SettleAll(ghost before: map<K, Flow<V>>, slots: seq<Slot<K>>, now: nat)
      requires Sound(wheel) && flows == before
      requires forall key <- flows :: Surfaced(slots, key) || Indexed(wheel, flows[key].deadline, key)
      modifies `flows, `wheel
      ensures Sound(wheel) && wheel.drained == old(wheel.drained)
      ensures EvictedFrom(before, flows, slots, now)
      ensures forall key <- flows :: Indexed(wheel, flows[key].deadline, key)
      ensures AllNear(before, wheel.drained) ==> wheel.overflow == old(wheel.overflow)
    {
      assert slots[0..] == slots;
      for n := 0 to |slots|
        invariant Settled(before, slots, n, now) && wheel.drained == old(wheel.drained)
        invariant AllNear(before, wheel.drained) ==> wheel.overflow == old(wheel.overflow)
      {
        SettleNext(before, slots, n, now);
      }
      assert slots[..|slots|] == slots;
    }

    method Drain(now: nat) returns (slots: seq<Slot<K>>)
      requires Sound(wheel) && forall key <- flows :: Indexed(wheel, flows[key].deadline, key)
      modifies `wheel
      ensures Sound(wheel) && wheel.drained == Max(old(wheel.drained), Second(now) + 1)
      ensures Remaining(old(wheel).overflow, old(wheel).drained, now, wheel.overflow)
      ensures forall key <- flows :: Surfaced(slots, key) || Indexed(wheel, flows[key].deadline, key)
      ensures old(wheel.drained) <= Second(now) ==>
                forall key <- flows :: flows[key].deadline <= now ==> Surfaced(slots, key)
      ensures old(wheel.drained) > Second(now) ==> forall key <- flows :: !Surfaced(slots, key)
    {
      ghost var was := wheel;
      wheel, slots := TakeDue(wheel, Second(now));
      forall key | key in flows
        ensures Surfaced(slots, key) || Indexed(wheel, flows[key].deadline, key)
        ensures was.drained <= Second(now) && flows[key].deadline <= now ==> Surfaced(slots, key)
        ensures was.drained > Second(now) ==> !Surfaced(slots, key)
      {
        DrainedOrIndexed(was, Second(now), wheel, slots, flows[key].deadline, key);
        SecondsOrder(flows[key].deadline, now);
        NothingSurfaces(was, Second(now), slots, key);
      }
    }

    /** `expire`: no flow is evicted before its deadline; and unless this second
        has been drained already, exactly the flows whose deadline has arrived
        are. Within a second already drained nothing is evicted at all. With
        timeouts up to 512 seconds a pass puts nothing into overflow. */
    method Expire(now: nat)
      requires Valid() && clock <= now
      modifies this
      ensures Valid() && clock == now && wheel.drained == Second(now) + 1
      ensures old(wheel.drained) <= Second(now) ==> flows == Alive(old(flows), now)
      ensures old(wheel.drained) > Second(now) ==> flows == old(flows)
      ensures idleTimeout <= WHEEL_BUCKETS * NANOS ==>
                Remaining(old(wheel).overflow, old(wheel).drained, now, wheel.overflow)
    {
      ghost var before := flows;
      SecondsOrder(clock, now);
      var slots := Drain(now);
      if idleTimeout <= WHEEL_BUCKETS * NANOS {
        forall key | key in before
          ensures Second(before[key].deadline) < wheel.drained + WHEEL_BUCKETS
        {
          WithinWindow(before[key].deadline, now, idleTimeout);
        }
      }
      SettleAll(before, slots, now);
      EvictedExactly(before, flows, slots, now);
      clock := now;
    }

    /** `next_deadline`, documented as never late. It is later than a flow's
        deadline exactly when a pass has already been made in that deadline's own
        second, and then by a second at most; or when the deadline is stranded. */
    method NextDeadline() returns (next: Option<nat>)
      requires Valid()
      ensures next.None? ==> flows == map[] && wheel.overflow == []
      ensures next.Some? ==> forall key <- flows :: Due(wheel, next.value, flows[key].deadline)
      ensures next.Some? ==> wheel.drained * NANOS <= next.value && InReach(flows, next.value, LATEST)
      ensures next.Some? && wheel.overflow == [] ==> InReach(flows, next.value, NANOS)
    {
      var second := FirstOccupied(wheel);
      HeldIsFound(wheel, flows, clock + idleTimeout);
      if second.None? {
        return None;
      }
      AllDue(wheel, flows, clock + idleTimeout, second.value);
      NamedInWindow(wheel, second.value);
      assert wheel.overflow == [] ==> forall at :: !Stranded(wheel, at);
      return Some(second.value * NANOS);
    }
  }

  lemma {:induction false} HeldIsFound<K(!new), V>(wheel: Wheel<K>, flows: map<K, Flow<V>>, limit: nat)
    requires Sound(wheel) && Held(wheel, flows, limit)
    ensures flows != map[] || wheel.overflow != [] ==> exists slot :: Has(wheel, slot)
  {
    if flows != map[] {
      var key :| key in flows;
      assert Indexed(wheel, flows[key].deadline, key);
    } else if wheel.overflow != [] {
      assert Has(wheel, wheel.overflow[0]);
    }
  }

  lemma {:induction false} AllDue<K(!new), V>(wheel: Wheel<K>, flows: map<K, Flow<V>>, limit: nat, named: nat)
    requires Sound(wheel) && Held(wheel, flows, limit) && Names(wheel, named)
    ensures forall key <- flows :: Due(wheel, named * NANOS, flows[key].deadline)
    ensures InReach(flows, named * NANOS, LATEST)
  {
    NamedInWindow(wheel, named);
    forall key | key in flows
      ensures Due(wheel, named * NANOS, flows[key].deadline)
      ensures named * NANOS <= flows[key].deadline + LATEST
    {
      DueExactly(wheel, named, flows[key].deadline, key);
      NamedAfter(named, flows[key].deadline);
    }
  }

  lemma {:induction false} NamedAfter(named: nat, deadline: nat)
    requires named <= Second(deadline) + 1 + WHEEL_BUCKETS
    ensures named * NANOS <= deadline + LATEST
  {
  }

  /** `UdpFlowTable::new`. */
  method Open<K(!new, ==), V>(idleTimeout: nat, ceiling: nat) returns (table: Option<UdpFlowTable<K, V>>)
    ensures table.None? <==> idleTimeout < 120 * NANOS
    ensures table.Some? ==> table.value.Valid() && table.value.flows == map[] && table.value.wheel.overflow == []
  {
    if idleTimeout < MIN_IDLE_TIMEOUT {
      return None;
    }
    var made := new UdpFlowTable<K, V>(idleTimeout, ceiling);
    return Some(made);
  }

  // ------------------------------------------------------------ runs of the table

  datatype Use<+K> = Insert(key: K, now: nat) | Pass(now: nat) | Keep(keys: set<K>)

  /** The latest instant a run has reached. */
  ghost function Reached<K>(run: seq<Use<K>>): nat {
    if run == [] then 0
    else if run[|run| - 1].Keep? then Reached(run[..|run| - 1])
    else run[|run| - 1].now
  }

  ghost predicate InTime<K(!new)>(run: seq<Use<K>>) {
    forall i :: 0 <= i < |run| && !run[i].Keep? ==> Reached(run[..i]) <= run[i].now
  }

  /** The first second the passes of a run have not drained. */
  ghost function DrainedBy<K>(run: seq<Use<K>>): nat {
    if run == [] then 0
    else if run[|run| - 1].Pass? then Second(run[|run| - 1].now) + 1
    else DrainedBy(run[..|run| - 1])
  }

  /** No flow is opened so long after the last pass that its deadline lies beyond
      the window that pass left. */
  ghost predicate Attended<K(!new)>(run: seq<Use<K>>, idleTimeout: nat) {
    forall i :: 0 <= i < |run| && run[i].Insert? ==>
      Second(run[i].now + idleTimeout) < DrainedBy(run[..i]) + WHEEL_BUCKETS
  }

  method UseOnce<K(!new, ==), V>(table: UdpFlowTable<K, V>, use: Use<K>, value: V)
    requires table.Valid() && (!use.Keep? ==> table.clock <= use.now)
    requires table.idleTimeout <= WHEEL_BUCKETS * NANOS && table.wheel.overflow == []
    requires use.Insert? ==> Second(use.now + table.idleTimeout) < table.wheel.drained + WHEEL_BUCKETS
    modifies table
    ensures table.Valid() && table.wheel.overflow == []
    ensures table.clock == if use.Keep? then old(table.clock) else use.now
    ensures table.wheel.drained == if use.Pass? then Second(use.now) + 1 else old(table.wheel.drained)
    ensures use.Keep? ==> table.flows == map key | key in old(table.flows) && key in use.keys :: old(table.flows)[key]
  {
    match use {
      case Insert(key, now) =>
        var admission := table.GetOrInsert(key, now, value);
      case Pass(now) =>
        ghost var before := table.wheel;
        table.Expire(now);
        NoneRemain(before.overflow, before.drained, now, table.wheel.overflow);
      case Keep(keys) =>
        table.Retain(keys);
    }
  }

  /** Over every attended run with timeouts up to 512 seconds nothing is ever
      stranded, so the deadline reported is later than a flow's own exactly when
      the last pass was made in that deadline's second, and then by a second at
      most. */
  method Attend<K(!new, ==), V>(idleTimeout: nat, ceiling: nat, run: seq<Use<K>>, value: V)
    returns (table: UdpFlowTable<K, V>, next: Option<nat>)
    requires MIN_IDLE_TIMEOUT <= idleTimeout <= WHEEL_BUCKETS * NANOS
    requires InTime(run) && Attended(run, idleTimeout)
    ensures table.Valid() && (next.None? ==> table.flows == map[])
    ensures next.Some? ==> forall key <- table.flows ::
              && (next.value > table.flows[key].deadline <==> Second(table.flows[key].deadline) + 1 == DrainedBy(run))
              && next.value <= table.flows[key].deadline + NANOS
  {
    table := new UdpFlowTable<K, V>(idleTimeout, ceiling);
    for i := 0 to |run|
      invariant table.Valid() && table.idleTimeout == idleTimeout && table.wheel.overflow == []
      invariant table.clock == Reached(run[..i]) && table.wheel.drained == DrainedBy(run[..i])
    {
      assert run[..i + 1][..i] == run[..i] && run[..i + 1][i] == run[i];
      UseOnce(table, run[i], value);
    }
    assert run[..|run|] == run;
    next := table.NextDeadline();
    assert forall second :: !Stranded(table.wheel, second);
  }

  // ------------------------------------------------------------ a driver that wakes as told

  ghost predicate OnlyFrom<K(!new), V>(flows: map<K, Flow<V>>, before: map<K, Flow<V>>) {
    forall key <- flows :: key in before && flows[key] == before[key]
  }

  /** Nothing whose deadline is still to come is gone. */
  ghost predicate NoneEarly<K(!new), V>(before: map<K, Flow<V>>, flows: map<K, Flow<V>>, now: nat) {
    forall key <- before :: before[key].deadline > now ==> key in flows
  }

  /** Passes are made at the deadlines reported until `until` is reached. */
  method Wake<K(!new, ==), V>(table: UdpFlowTable<K, V>, from: nat, until: nat)
    requires table.Valid() && table.clock == from <= until
    modifies table
    ensures table.Valid() && table.clock <= until
    ensures OnlyFrom(table.flows, old(table.flows)) && NoneEarly(old(table.flows), table.flows, until)
    ensures InReach(table.flows, until, LATEST)
    ensures table.wheel.overflow == [] ==> InReach(table.flows, until, NANOS)
  {
    var now := from;
    var next := table.NextDeadline();
    while next.Some? && next.value <= until
      invariant table.Valid() && table.clock == now <= until
      invariant OnlyFrom(table.flows, old(table.flows)) && NoneEarly(old(table.flows), table.flows, until)
      invariant next.None? ==> table.flows == map[]
      invariant next.Some? ==> table.wheel.drained * NANOS <= next.value && InReach(table.flows, next.value, LATEST)
      invariant next.Some? && table.wheel.overflow == [] ==> InReach(table.flows, next.value, NANOS)
      invariant next.Some? && next.value <= until ==> table.wheel.drained <= Second(until)
      decreases next.Some? && next.value <= until, Second(until) - table.wheel.drained
    {
      now := Max(now, next.value);
      Drained(table.wheel.drained, next.value, now, until);
      table.Expire(now);
      next := table.NextDeadline();
      if next.Some? {
        Drained(table.wheel.drained, next.value, next.value, until);
      }
    }
  }

  lemma {:induction false} Drained(drained: nat, named: nat, now: nat, until: nat)
    requires drained * NANOS <= named <= now
    ensures drained <= Second(now)
    ensures now <= until ==> drained <= Second(until) && Second(now) <= Second(until)
  {
  }

  /** No flow is kept 513 seconds past its deadline, nor one second with nothing in
      overflow. */
  ghost predicate Punctual<K(!new), V>(table: UdpFlowTable<K, V>, now: nat)
    reads table
  {
    InReach(table.flows, now, LATEST) && (table.wheel.overflow == [] ==> InReach(table.flows, now, NANOS))
  }

  /** What a use of the table comes to with such a driver: what it inserts is there
      for the whole timeout unless the table is full, what it removes is gone, and
      nothing else goes before its deadline or comes. */
  ghost predicate Awake<K(!new), V>(
      before: map<K, Flow<V>>, after: map<K, Flow<V>>, use: Use<K>, idleTimeout: nat, ceiling: nat)
  {
    match use
    case Insert(key, now) =>
      && OnlyFrom(after - {key}, before) && NoneEarly(before, after, now)
      && if key in after then after[key].deadline == now + idleTimeout else |after| >= ceiling
    case Pass(now) => OnlyFrom(after, before) && NoneEarly(before, after, now)
    case Keep(keys) => after == map key | key in before && key in keys :: before[key]
  }

  /** A pass leaves nothing overdue by more than what is left of its second. */
  method PassAt<K(!new, ==), V>(table: UdpFlowTable<K, V>, from: nat, now: nat)
    requires table.Valid() && table.clock == from <= now
    modifies table
    ensures table.Valid() && table.clock == now && Punctual(table, now)
    ensures OnlyFrom(table.flows, old(table.flows)) && NoneEarly(old(table.flows), table.flows, now)
  {
    Wake(table, from, now);
    table.Expire(now);
    forall key | key in table.flows
      ensures now <= table.flows[key].deadline + NANOS
    {
      LaterSecond(Second(now), table.flows[key].deadline);
    }
  }

  lemma {:induction false} InsertedAwake<K(!new), V>(
      before: map<K, Flow<V>>, left: map<K, Flow<V>>, after: map<K, Flow<V>>, key: K, now: nat, idleTimeout: nat, ceiling: nat)
    requires OnlyFrom(left, before) && NoneEarly(before, left, now)
    requires || (key in after && after == left[key := after[key]] && after[key].deadline == now + idleTimeout)
             || (after == left && key !in left && |left| >= ceiling)
    ensures Awake(before, after, Insert(key, now), idleTimeout, ceiling)
    ensures InReach(left, now, LATEST) ==> InReach(after, now, LATEST)
    ensures InReach(left, now, NANOS) ==> InReach(after, now, NANOS)
  {
    forall other | other in after - {key}
      ensures other in before && (after - {key})[other] == before[other]
    {
      assert other in left;
    }
  }

  method InsertAt<K(!new, ==), V>(table: UdpFlowTable<K, V>, key: K, value: V, from: nat, now: nat)
    requires table.Valid() && table.clock == from <= now
    modifies table
    ensures table.Valid() && table.clock == now && Punctual(table, now)
    ensures Awake(old(table.flows), table.flows, Insert(key, now), table.idleTimeout, table.ceiling) == true
  {
    ghost var before := table.flows;
    Wake(table, from, now);
    ghost var left := table.flows;
    var admission := table.GetOrInsert(key, now, value);
    InsertedAwake(before, left, table.flows, key, now, table.idleTimeout, table.ceiling);
  }

  method UseAwake<K(!new, ==), V>(table: UdpFlowTable<K, V>, use: Use<K>, value: V, from: nat) returns (now: nat)
    requires table.Valid() && table.clock == from && (!use.Keep? ==> from <= use.now)
    requires Punctual(table, from)
    modifies table
    ensures table.Valid() && table.clock == now == if use.Keep? then from else use.now
    ensures Punctual(table, now)
    ensures Awake(old(table.flows), table.flows, use, table.idleTimeout, table.ceiling) == true
  {
    now := from;
    match use {
      case Insert(key, at) =>
        InsertAt(table, key, value, from, at);
        now := at;
      case Pass(at) =>
        PassAt(table, from, at);
        now := at;
      case Keep(keys) =>
        table.Retain(keys);
    }
  }

  /** The flows between the uses of a run. */
  ghost predicate Stays<K(!new), V>(run: seq<Use<K>>, states: seq<map<K, Flow<V>>>, idleTimeout: nat, ceiling: nat) {
    && |states| == |run| + 1 && states[0] == map[]
    && forall i :: 0 <= i < |run| ==> Awake(states[i], states[i + 1], run[i], idleTimeout, ceiling)
  }

  lemma {:induction false} StaysOn<K(!new), V>(
      run: seq<Use<K>>, n: nat, states: seq<map<K, Flow<V>>>, next: map<K, Flow<V>>, idleTimeout: nat, ceiling: nat)
    requires n < |run| && Stays(run[..n], states, idleTimeout, ceiling)
    requires Awake(states[n], next, run[n], idleTimeout, ceiling)
    ensures Stays(run[..n + 1], states + [next], idleTimeout, ceiling)
  {
    var longer := states + [next];
    forall i | 0 <= i < n + 1
      ensures Awake(longer[i], longer[i + 1], run[..n + 1][i], idleTimeout, ceiling)
    {
      if i < n {
        assert Awake(states[i], states[i + 1], run[..n][i], idleTimeout, ceiling);
      }
    }
  }

  /** Over every run of a driver that makes a pass at each deadline reported, no flow
      goes before its deadline, and none outlives it by more than 513 seconds,
      whatever is stranded; nor by more than one while nothing is in overflow. */
  method DriveAwake<K(!new, ==), V>(idleTimeout: nat, ceiling: nat, run: seq<Use<K>>, value: V)
    returns (table: UdpFlowTable<K, V>, ghost states: seq<map<K, Flow<V>>>)
    requires MIN_IDLE_TIMEOUT <= idleTimeout && InTime(run)
    ensures Stays(run, states, idleTimeout, ceiling) && states[|run|] == table.flows
    ensures table.Valid() && table.clock == Reached(run) && Punctual(table, Reached(run))
  {
    table := new UdpFlowTable<K, V>(idleTimeout, ceiling);
    states := [table.flows];
    var now := 0;
    for i := 0 to |run|
      invariant table.Valid() && fresh(table) && table.clock == now == Reached(run[..i]) && Punctual(table, now)
      invariant table.idleTimeout == idleTimeout && table.ceiling == ceiling
      invariant |states| == i + 1 && states[i] == table.flows && Stays(run[..i], states, idleTimeout, ceiling) == true
    {
      assert run[..i + 1][..i] == run[..i] && run[..i + 1][i] == run[i];
      now := UseAwake(table, run[i], value, now);
      StaysOn(run, i, states, table.flows, idleTimeout, ceiling);
      states := states + [table.flows];
    }
    assert run[..|run|] == run;
  }

  /** Late by a pass in the deadline's own second, with nothing in overflow: the
      ordinary case, since a timer set by `next_deadline` fires at the start of
      that second. */
  method NamedAfterAPass(pass: nat, deadline: nat) returns (next: Option<nat>)
    requires 120 * NANOS <= pass < deadline && Second(pass) == Second(deadline)
    ensures next.Some? && deadline < next.value <= deadline + NANOS
  {
    assert Second(deadline) == Second(pass);
    var table := new UdpFlowTable<nat, nat>(120 * NANOS, 1);
    var admission := table.GetOrInsert(0, deadline - 120 * NANOS, 0);
    table.Expire(pass);
    assert table.flows[0].deadline == deadline;
    next := table.NextDeadline();
  }

  /** Two passes in one second: a flow whose deadline falls between them outlives
      it, and the first pass of any later second evicts it. */
  method KeptPastItsDeadline(first: nat, deadline: nat, second: nat, later: nat) returns (kept: bool, gone: bool)
    requires 120 * NANOS <= first < deadline <= second && Second(first) == Second(second) < Second(later)
    ensures kept && gone
  {
    var table := new UdpFlowTable<nat, nat>(120 * NANOS, 1);
    var admission := table.GetOrInsert(0, deadline - 120 * NANOS, 0);
    table.Expire(first);
    assert 0 in table.flows && table.flows[0].deadline == deadline;
    table.Expire(second);
    kept := 0 in table.flows;
    SecondsOrder(later, deadline);
    table.Expire(later);
    gone := 0 !in table.flows;
  }
}
