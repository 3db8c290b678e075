/**
 * The table of datagrams under reassembly: one for each key, at most so many, and
 * an index of their deadlines in which each is filed once, under the deadline it
 * had when it was last filed.
 */
module Reassembler {
  import opened Bytes
  import opened Reassembly

  /** When a datagram is due, and where the index has it. */
  datatype Expiry = Expiry(at: nat, slot: nat)

  // ------------------------------------------------------------ the index

  ghost predicate FiledAt<K>(index: map<nat, seq<K>>, slot: nat, key: K) {
    slot in index && key in index[slot]
  }

  ghost predicate Distinct<K>(keys: seq<K>) {
    forall i, j :: 0 <= i < j < |keys| ==> keys[i] != keys[j]
  }

  /** Each key but the loose ones is filed once, under its slot, and nothing else
      is; there are no empty buckets. */
  ghost predicate Files<K(!new)>(index: map<nat, seq<K>>, expiry: map<K, Expiry>, loose: set<K>) {
    && (forall slot, key {:trigger FiledAt(index, slot, key)} ::
          FiledAt(index, slot, key) <==> key in expiry && key !in loose && expiry[key].slot == slot)
    && (forall slot <- index :: index[slot] != [] && Distinct(index[slot]))
  }

  function Bucket<K>(index: map<nat, seq<K>>, slot: nat): seq<K> {
    if slot in index then index[slot] else []
  }

  function Filed<K>(index: map<nat, seq<K>>, slot: nat, key: K): map<nat, seq<K>> {
    index[slot := Bucket(index, slot) + [key]]
  }

  lemma {:induction false} FiledFiles<K(!new)>(
      index: map<nat, seq<K>>, expiry: map<K, Expiry>, loose: set<K>, key: K)
    requires Files(index, expiry, loose) && key in expiry && key in loose
    ensures Files(Filed(index, expiry[key].slot, key), expiry, loose - {key})
  {
    var slot := expiry[key].slot;
    assert !FiledAt(index, slot, key);
    var filed := Filed(index, slot, key);
    assert forall other :: other in filed[slot] <==> other in Bucket(index, slot) || other == key;
    assert forall other :: other in Bucket(index, slot) <==> FiledAt(index, slot, other);
    forall at, other
      ensures FiledAt(filed, at, other) <==> FiledAt(index, at, other) || (at == slot && other == key)
    {
    }
  }

  /** The last key of the bucket takes the place of the one removed. */
  function SwapRemoved<K(==)>(keys: seq<K>, at: nat): seq<K>
    requires at < |keys|
  {
    if at == |keys| - 1 then keys[..at] else keys[..|keys| - 1][at := keys[|keys| - 1]]
  }

  lemma {:induction false} SwapRemovedHas<K(!new)>(keys: seq<K>, at: nat)
    requires at < |keys| && Distinct(keys)
    ensures Distinct(SwapRemoved(keys, at))
    ensures forall key :: key in SwapRemoved(keys, at) <==> key in keys && key != keys[at]
  {
    var rest := SwapRemoved(keys, at);
    forall key
      ensures key in rest <==> key in keys && key != keys[at]
    {
      if key in rest {
        var i :| 0 <= i < |rest| && rest[i] == key;
        assert key == keys[if i == at then |keys| - 1 else i];
      }
      if key in keys && key != keys[at] {
        var i :| 0 <= i < |keys| && keys[i] == key;
        assert rest[if i == |keys| - 1 then at else i] == key;
      }
    }
  }

  method Unfile<K(!new, ==)>(index: map<nat, seq<K>>, ghost expiry: map<K, Expiry>, slot: nat, key: K)
    returns (rest: map<nat, seq<K>>)
    requires Files(index, expiry, {}) && key in expiry && expiry[key].slot == slot
    ensures Files(rest, expiry - {key}, {})
  {
    assert FiledAt(index, slot, key);
    var keys := index[slot];
    var at := 0;
    assert keys[0..] == keys;
    while keys[at] != key
      invariant 0 <= at < |keys| && key in keys[at..]
      decreases |keys| - at
    {
      assert keys[at..] == [keys[at]] + keys[at + 1..];
      at := at + 1;
    }
    var left := SwapRemoved(keys, at);
    SwapRemovedHas(keys, at);
    rest := if left == [] then index - {slot} else index[slot := left];
    forall other, where
      ensures FiledAt(rest, where, other) <==> FiledAt(index, where, other) && other != key
    {
      assert FiledAt(index, where, key) ==> where == slot;
      assert where == slot ==> (FiledAt(rest, where, other) <==> other in left);
    }
  }

  /** The earliest slot, which is what `next_deadline` reports. */
  method Earliest<K(!new)>(index: map<nat, seq<K>>) returns (first: Option<nat>)
    ensures first.None? <==> index == map[]
    ensures first.Some? ==> first.value in index && forall slot <- index :: first.value <= slot
  {
    first := None;
    var left := index.Keys;
    while left != {}
      invariant left <= index.Keys && (first.None? <==> left == index.Keys)
      invariant first.Some? ==> first.value in index && forall slot :: slot in index && slot !in left ==> first.value <= slot
      decreases left
    {
      var slot :| slot in left;
      first := Some(if first.None? then slot else Min(first.value, slot));
      left := left - {slot};
    }
  }

  // ------------------------------------------------------------ expiry

  /** What is left once everything due by `now` is gone. */
  ghost predicate Outlives<K(!new)>(before: map<K, Expiry>, after: map<K, Expiry>, now: nat) {
    && (forall key :: key in after <==> key in before && before[key].at > now)
    && (forall key <- after :: after[key].at == before[key].at)
  }

  /** No entry is filed later than it is due. */
  ghost predicate Early<K(!new)>(expiry: map<K, Expiry>) {
    forall key <- expiry :: expiry[key].slot <= expiry[key].at
  }

  /** Where a pass stands: what is gone was due, the keys in `again` wait to be
      filed under their own deadlines, and those in `due` wait to be looked at. */
  ghost predicate Sweeping<K(!new)>(
      before: map<K, Expiry>, expiry: map<K, Expiry>, index: map<nat, seq<K>>, due: seq<K>, again: seq<K>, now: nat)
  {
    && Files(index, expiry, set key | key in due + again)
    && Distinct(due + again) && Early(expiry)
    && (forall key :: key in expiry ==> key in before && expiry[key].at == before[key].at)
    && (forall key :: key in before && key !in expiry ==> before[key].at <= now)
    && (forall key <- again :: key in expiry && expiry[key].slot == expiry[key].at > now)
    && (forall key <- due :: key in expiry)
  }

  /** A key taken off the index: evicted if it is due, else to be filed again. */
  method Sweep<K(!new, ==)>(
      ghost before: map<K, Expiry>, expiry: map<K, Expiry>, ghost index: map<nat, seq<K>>,
      due: seq<K>, again: seq<K>, now: nat)
    returns (next: map<K, Expiry>, more: seq<K>)
    requires due != [] && Sweeping(before, expiry, index, due, again, now)
    ensures Sweeping(before, next, index, due[1..], more, now)
  {
    var key := due[0];
    assert key in due + again;
    assert (due + again)[0] == key && forall i :: 0 < i < |due + again| ==> (due + again)[i] != key;
    if expiry[key].at <= now {
      next, more := expiry - {key}, again;
    } else {
      next, more := expiry[key := Expiry(expiry[key].at, expiry[key].at)], again + [key];
    }
    Regrouped(due, again, key);
    ghost var loose := set other | other in due + again;
    ghost var still := set other | other in due[1..] + more;
    assert forall other :: other in still <==> other in loose && (other != key || expiry[key].at > now);
    forall slot, other
      ensures FiledAt(index, slot, other) <==> other in next && other !in still && next[other].slot == slot
    {
      assert key in loose;
    }
  }

  /** Moving the first key to the end, or off, keeps them distinct. */
  lemma {:induction false} Regrouped<K(!new)>(due: seq<K>, again: seq<K>, key: K)
    requires due != [] && due[0] == key && Distinct(due + again)
    ensures Distinct(due[1..] + again) && Distinct(due[1..] + (again + [key]))
    ensures forall other :: other in due + again <==> other in due[1..] + again || other == key
    ensures forall other :: other in due[1..] + (again + [key]) <==> other in due + again
    ensures key !in due[1..] + again
  {
    var all, rest := due + again, due[1..] + again;
    assert all == [key] + rest;
    assert due[1..] + (again + [key]) == rest + [key];
    forall i | 0 <= i < |rest|
      ensures rest[i] != key
    {
      assert all[i + 1] == rest[i] && all[0] == key;
    }
    forall i, j | 0 <= i < j < |rest|
      ensures rest[i] != rest[j]
    {
      assert all[i + 1] == rest[i] && all[j + 1] == rest[j];
    }
  }

  /** A bucket taken off the index leaves its keys to be looked at. */
  lemma {:induction false} BucketTaken<K(!new)>(
      before: map<K, Expiry>, expiry: map<K, Expiry>, index: map<nat, seq<K>>, slot: nat, again: seq<K>, now: nat)
    requires Sweeping(before, expiry, index, [], again, now) && slot in index
    ensures Sweeping(before, expiry, index - {slot}, index[slot], again, now)
  {
    var due, rest := index[slot], index - {slot};
    assert [] + again == again;
    assert forall key :: key in due <==> FiledAt(index, slot, key);
    forall key | key in due
      ensures key in expiry && key !in again
    {
      assert FiledAt(index, slot, key);
    }
    forall at, key
      ensures FiledAt(rest, at, key) <==> FiledAt(index, at, key) && key !in due
    {
      assert FiledAt(index, at, key) && key in due ==> FiledAt(index, slot, key) && at == slot;
    }
    var all := due + again;
    forall i, j | 0 <= i < j < |all|
      ensures all[i] != all[j]
    {
      if i < |due| <= j {
        assert all[i] in due && all[j] in again;
      } else if |due| <= i {
        assert again[i - |due|] != again[j - |due|];
      }
    }
  }

  method SweepBucket<K(!new, ==)>(
      ghost before: map<K, Expiry>, expiry: map<K, Expiry>, ghost index: map<nat, seq<K>>,
      bucket: seq<K>, again: seq<K>, now: nat)
    returns (next: map<K, Expiry>, more: seq<K>)
    requires Sweeping(before, expiry, index, bucket, again, now)
    ensures Sweeping(before, next, index, [], more, now)
  {
    next, more := expiry, again;
    var due := bucket;
    while due != []
      invariant Sweeping(before, next, index, due, more, now)
      decreases |due|
    {
      next, more := Sweep(before, next, index, due, more, now);
      due := due[1..];
    }
  }

  method SweepDue<K(!new, ==)>(expiry: map<K, Expiry>, index: map<nat, seq<K>>, now: nat)
    returns (next: map<K, Expiry>, rest: map<nat, seq<K>>, again: seq<K>)
    requires Files(index, expiry, {}) && Early(expiry)
    ensures Sweeping(expiry, next, rest, [], again, now) && forall slot <- rest :: slot > now
  {
    next, rest, again := expiry, index, [];
    var first := Earliest(rest);
    while first.Some? && first.value <= now
      invariant Sweeping(expiry, next, rest, [], again, now)
      invariant first.None? <==> rest == map[]
      invariant first.Some? ==> first.value in rest && forall slot <- rest :: first.value <= slot
      decreases rest.Keys
    {
      ghost var keys := rest.Keys;
      BucketTaken(expiry, next, rest, first.value, again, now);
      var bucket := rest[first.value];
      rest := rest - {first.value};
      assert rest.Keys < keys;
      next, again := SweepBucket(expiry, next, rest, bucket, again, now);
      first := Earliest(rest);
    }
  }

  /** Where filing stands after `n` of the keys put aside. */
  method FileAgain<K(!new, ==)>(index: map<nat, seq<K>>, expiry: map<K, Expiry>, again: seq<K>) returns (rest: map<nat, seq<K>>)
    requires Files(index, expiry, set key | key in again) && Distinct(again)
    requires forall key <- again :: key in expiry
    ensures Files(rest, expiry, {})
  {
    rest := index;
    var left := again;
    while left != []
      invariant Files(rest, expiry, set key | key in left) && Distinct(left)
      invariant forall key <- left :: key in expiry
      decreases |left|
    {
      var key := left[0];
      FiledFiles(rest, expiry, (set other | other in left), key);
      rest := Filed(rest, expiry[key].slot, key);
      assert left == [key] + left[1..];
      assert (set other | other in left) - {key} == set other | other in left[1..];
      left := left[1..];
    }
    assert (set key | key in left) == {};
  }

  lemma {:induction false} SweptOutlives<K(!new)>(
      before: map<K, Expiry>, expiry: map<K, Expiry>, index: map<nat, seq<K>>, again: seq<K>, now: nat)
    requires Sweeping(before, expiry, index, [], again, now) && forall slot <- index :: slot > now
    ensures Outlives(before, expiry, now)
  {
    forall key | key in expiry
      ensures expiry[key].at > now
    {
      if key !in [] + again {
        assert FiledAt(index, expiry[key].slot, key);
      }
    }
  }

  // ------------------------------------------------------------ the calendar

  /** Deadlines, and the index that files each key once and never late. */
  datatype Calendar<K> = Calendar(expiry: map<K, Expiry>, index: map<nat, seq<K>>)

  /** A datagram under reassembly, and when it is due. */
  datatype Open = Open(progress: Progress, at: nat)

  /** The calendar is in order and has the deadline of each, none after `limit`. */
  ghost predicate Dated<K(!new)>(calendar: Calendar<K>, view: map<K, Open>, limit: nat) {
    forall token {:trigger Shown(token)} :: Shown(token) ==>
      && Files(calendar.index, calendar.expiry, {}) && Early(calendar.expiry)
      && calendar.expiry.Keys == view.Keys
      && forall key <- view :: calendar.expiry[key].at == view[key].at <= limit
  }

  /** What a pass leaves: exactly the datagrams not yet due, as they are. */
  ghost function Alive<K(!new)>(view: map<K, Open>, now: nat): map<K, Open> {
    map key | key in view && view[key].at > now :: view[key]
  }

  /** A new key is filed under its deadline. */
  method Enter<K(!new, ==)>(calendar: Calendar<K>, key: K, deadline: nat, ghost view: map<K, Open>, ghost limit: nat)
    returns (next: Calendar<K>)
    requires Dated(calendar, view, limit) && key !in view && limit <= deadline
    ensures Dated(next, view[key := Open(BLANK, deadline)], deadline)
  {
    assert Shown(0);
    var expiry := calendar.expiry[key := Expiry(deadline, deadline)];
    forall slot, other
      ensures FiledAt(calendar.index, slot, other) <==> other in expiry && other !in {key} && expiry[other].slot == slot
    {
    }
    FiledFiles(calendar.index, expiry, {key}, key);
    assert {key} - {key} == {};
    next := Calendar(expiry, Filed(calendar.index, deadline, key));
  }

  /** A deadline is moved without moving its key in the index. */
  method Postpone<K(!new, ==)>(calendar: Calendar<K>, key: K, deadline: nat, ghost view: map<K, Open>, ghost limit: nat)
    returns (next: Calendar<K>)
    requires Dated(calendar, view, limit) && key in view && limit <= deadline
    ensures Dated(next, view[key := Open(view[key].progress, deadline)], deadline)
  {
    assert Shown(0);
    next := calendar.(expiry := calendar.expiry[key := calendar.expiry[key].(at := deadline)]);
  }

  method Leave<K(!new, ==)>(calendar: Calendar<K>, key: K, ghost view: map<K, Open>, ghost limit: nat) returns (next: Calendar<K>)
    requires Dated(calendar, view, limit) && key in view
    ensures Dated(next, view - {key}, limit)
  {
    assert Shown(0);
    var index := Unfile(calendar.index, calendar.expiry, calendar.expiry[key].slot, key);
    next := Calendar(calendar.expiry - {key}, index);
  }

  /** `expire`: exactly the keys whose own deadline has arrived go, however they
      were filed; the others keep their deadlines. */
  method ExpireDue<K(!new, ==)>(calendar: Calendar<K>, now: nat, ghost view: map<K, Open>, ghost limit: nat)
    returns (next: Calendar<K>, left: set<K>)
    requires Dated(calendar, view, limit)
    ensures Dated(next, Alive(view, now), limit) && left == Alive(view, now).Keys
  {
    assert Shown(0);
    var expiry, index, again := SweepDue(calendar.expiry, calendar.index, now);
    SweptOutlives(calendar.expiry, expiry, index, again, now);
    assert [] + again == again;
    index := FileAgain(index, expiry, again);
    next, left := Calendar(expiry, index), expiry.Keys;
  }

  /** The earliest slot is never later than any deadline. */
  method Soonest<K(!new, ==)>(calendar: Calendar<K>, ghost view: map<K, Open>, ghost limit: nat) returns (next: Option<nat>)
    requires Dated(calendar, view, limit)
    ensures next.None? <==> view == map[]
    ensures next.Some? ==> forall key <- view :: next.value <= view[key].at
  {
    assert Shown(0);
    next := Earliest(calendar.index);
    forall key | key in calendar.expiry
      ensures calendar.expiry[key].slot in calendar.index
    {
      assert FiledAt(calendar.index, calendar.expiry[key].slot, key);
    }
    if next.Some? {
      assert FiledAt(calendar.index, next.value, calendar.index[next.value][0]);
      assert calendar.index[next.value][0] in view;
    } else {
      assert forall key :: key !in view;
    }
  }

  lemma {:induction false} Later<K(!new)>(calendar: Calendar<K>, view: map<K, Open>, limit: nat, later: nat)
    requires Dated(calendar, view, limit) && limit <= later
    ensures Dated(calendar, view, later)
  {
    assert Shown(0);
  }

  lemma {:induction false} StillDated<K(!new)>(calendar: Calendar<K>, view: map<K, Open>, limit: nat, key: K, progress: Progress)
    requires Dated(calendar, view, limit) && key in view
    ensures Dated(calendar, view[key := Open(progress, view[key].at)], limit)
  {
    assert Shown(0);
  }

  // ------------------------------------------------------------ the table

  ghost predicate Sized<K>(keys: set<K>, size: int) {
    |keys| == size
  }

  /** There are at most so many keys. */
  ghost predicate AtMost<K>(keys: set<K>, limit: int) {
    forall size {:trigger Sized(keys, size)} :: Sized(keys, size) ==> size <= limit
  }

  lemma {:induction false} OneMoreKey<K>(keys: set<K>, key: K, limit: int)
    requires AtMost(keys, limit - 1)
    ensures AtMost(keys + {key}, limit)
  {
    assert Sized(keys, |keys|);
    forall size | Sized(keys + {key}, size)
      ensures size <= limit
    {
      assert keys + {key} == keys + ({key} - keys);
    }
  }

  lemma {:induction false} FewerKeys<K>(fewer: set<K>, more: set<K>, limit: int)
    requires fewer <= more && AtMost(more, limit)
    ensures AtMost(fewer, limit)
  {
    assert Sized(more, |more|);
    forall size | Sized(fewer, size)
      ensures size <= limit
    {
      assert more == fewer + (more - fewer);
    }
  }

  lemma {:induction false} StrictlyFewer<K>(fewer: set<K>, more: set<K>, limit: int)
    requires fewer < more && AtMost(more, limit)
    ensures AtMost(fewer, limit - 1)
  {
    assert Sized(more, |more|);
    forall size | Sized(fewer, size)
      ensures size <= limit - 1
    {
      var key :| key in more && key !in fewer;
      assert more == (fewer + {key}) + (more - fewer - {key});
    }
  }

  // ------------------------------------------------------------ the table as a value

  ghost function ProgressOf<K>(view: map<K, Open>, key: K): Progress {
    if key in view then view[key].progress else BLANK
  }

  ghost predicate Room<K>(view: map<K, Open>, capacity: nat) {
    AtMost(view.Keys, capacity - 1)
  }

  ghost predicate AnyDue<K(!new)>(view: map<K, Open>, now: nat) {
    exists key :: key in view && view[key].at <= now
  }

  /** The fragment's datagram is there, or there is room for it, or will be once a
      pass is made. */
  ghost predicate Admits<K(!new)>(view: map<K, Open>, key: K, now: nat, capacity: nat) {
    key in view || Room(view, capacity) || AnyDue(view, now)
  }

  /** The datagram under the key becomes `next`; a whole one leaves. */
  ghost function Lodged<K>(view: map<K, Open>, key: K, whole: bool, next: Progress, deadline: nat): map<K, Open> {
    if whole then view - {key} else view[key := Open(next, deadline)]
  }

  /** A whole datagram is handed on as the packet made of it, if one can be. */
  function Rebuilt<K>(
      rebuild: (K, Datagram) -> Option<seq<byte>>, key: K, outcome: Outcome<Datagram>): Outcome<seq<byte>>
  {
    match outcome
    case Pending => Pending
    case Discarded => Discarded
    case Complete(datagram) =>
      match rebuild(key, datagram)
      case None => Discarded
      case Some(packet) => Complete(packet)
  }

  /** The table after a fragment: a malformed one leaves no mark, nor does one that
      is not admitted. Any other is answered by the datagram under its key alone,
      opened anew if there is none; a pass is made only for a new datagram in a
      full table. */
  ghost predicate Pushed<K(!new)>(
      view: map<K, Open>, after: map<K, Open>, key: K, fragment: Fragment, now: nat, timeout: nat, capacity: nat,
      rebuild: (K, Datagram) -> Option<seq<byte>>, outcome: Outcome<seq<byte>>)
  {
    if !Formed(fragment) || !Admits(view, key, now, capacity) then after == view && outcome == Discarded
    else
      var ready := if key in view || Room(view, capacity) then view else Alive(view, now);
      exists answer, next {:trigger Took(ProgressOf(view, key), fragment, answer, next)} ::
        && Took(ProgressOf(view, key), fragment, answer, next)
        && after == Lodged(ready, key, answer.Complete?, next, now + timeout)
        && outcome == Rebuilt(rebuild, key, answer)
  }

  /** A pass over a full table makes room exactly if one is due. */
  lemma {:induction false} SomeGone<K(!new)>(view: map<K, Open>, now: nat, capacity: nat)
    requires AtMost(view.Keys, capacity) && !Room(view, capacity)
    ensures Room(Alive(view, now), capacity) <==> AnyDue(view, now)
    ensures !AnyDue(view, now) ==> Alive(view, now) == view
  {
    if key :| key in view && view[key].at <= now {
      assert key !in Alive(view, now);
      StrictlyFewer(Alive(view, now).Keys, view.Keys, capacity);
    } else {
      assert Alive(view, now) == view;
    }
  }

  class Table<K(!new, ==)> {
    const timeout: nat
    const capacity: nat
    /** The packet made of a whole datagram, if one can be made. */
    const rebuild: (K, Datagram) -> Option<seq<byte>>
    var pending: map<K, PendingDatagram>
    var calendar: Calendar<K>

    /** The table as a value. */
    ghost var view: map<K, Open>

    /** The latest instant the table has been told of. */
    ghost var clock: nat

    ghost predicate Datagrams()
      reads `pending, `view, pending.Values
    {
      && pending.Keys == view.Keys
      && (forall key <- pending :: pending[key].Holds(view[key].progress))
      && (forall key, other :: key in pending && other in pending && key != other ==> pending[key] != pending[other])
    }

    ghost predicate Valid()
      reads this, pending.Values
    {
      Datagrams() && AtMost(view.Keys, capacity) && Dated(calendar, view, clock + timeout) == true
    }

    constructor (timeout: nat, capacity: nat, rebuild: (K, Datagram) -> Option<seq<byte>>)
      requires capacity > 0
      ensures Valid() && view == map[] && clock == 0 && pending == map[]
      ensures this.timeout == timeout && this.capacity == capacity && this.rebuild == rebuild
    {
      this.timeout, this.capacity, this.rebuild := timeout, capacity, rebuild;
      pending, calendar, view, clock := map[], Calendar(map[], map[]), map[], 0;
    }

    /** `next_deadline`: never later than any datagram's own. */
    method NextDeadline() returns (next: Option<nat>)
      requires Valid()
      ensures next.None? <==> pending == map[]
      ensures next.Some? ==> forall key <- view :: next.value <= view[key].at
    {
      next := Soonest(calendar, view, clock + timeout);
      assert view == map[] <==> view.Keys == {};
      assert pending == map[] <==> pending.Keys == {};
    }

    /** `expire`: exactly the datagrams due go, and the others are not touched. */
    method Expire(now: nat)
      requires Valid() && clock <= now
      modifies `pending, `calendar, `view, `clock
      ensures Valid() && clock == now && view == Alive(old(view), now)
      ensures pending.Keys <= old(pending).Keys && forall key <- pending :: pending[key] == old(pending)[key]
    {
      var left;
      calendar, left := ExpireDue(calendar, now, view, clock + timeout);
      Later(calendar, Alive(view, now), clock + timeout, now + timeout);
      Forget(now, left);
      clock := now;
    }

    method Forget(ghost now: nat, left: set<K>)
      requires Datagrams() && AtMost(view.Keys, capacity) && left == Alive(view, now).Keys
      modifies `pending, `view
      ensures Datagrams() && AtMost(view.Keys, capacity) && view == Alive(old(view), now)
      ensures pending.Keys <= old(pending).Keys && forall key <- pending :: pending[key] == old(pending)[key]
    {
      FewerKeys(left, view.Keys, capacity);
      view := Alive(view, now);
      pending := map key | key in pending && key in left :: pending[key];
      assert pending.Keys == left;
    }

    method IsFull() returns (full: bool)
      requires Valid()
      ensures full <==> !Room(view, capacity)
    {
      full := |pending| >= capacity;
      assert |pending| == |pending.Keys| && Sized(pending.Keys, |pending.Keys|);
    }

    /** The datagram under a key, opened if there is none, with its deadline moved
        but not its place in the index. */
    method Refresh(key: K, now: nat)
      requires Valid() && clock <= now && (key in pending || Room(view, capacity))
      modifies `pending, `calendar, `view, `clock
      ensures Valid() && clock == now && view == old(view)[key := Open(ProgressOf(old(view), key), now + timeout)]
      ensures pending - {key} == old(pending) - {key} && key in pending
      ensures if key in old(pending) then pending[key] == old(pending)[key] else fresh(pending[key])
    {
      if key in pending {
        Renew(key, now);
      } else {
        Begin(key, now);
      }
    }

    method Renew(key: K, now: nat)
      requires Valid() && clock <= now && key in pending
      modifies `calendar, `view, `clock
      ensures Valid() && clock == now && view == old(view)[key := Open(old(view)[key].progress, now + timeout)]
    {
      calendar := Postpone(calendar, key, now + timeout, view, clock + timeout);
      Defer(key, now + timeout);
      clock := now;
    }

    method Begin(key: K, now: nat)
      requires Valid() && clock <= now && key !in pending && Room(view, capacity)
      modifies `pending, `calendar, `view, `clock
      ensures Valid() && clock == now && view == old(view)[key := Open(BLANK, now + timeout)]
      ensures pending - {key} == old(pending) - {key} && key in pending && fresh(pending[key])
    {
      calendar := Enter(calendar, key, now + timeout, view, clock + timeout);
      OpenNew(key, now + timeout);
      clock := now;
    }

    ghost method Defer(key: K, deadline: nat)
      requires Datagrams() && AtMost(view.Keys, capacity) && key in pending
      modifies `view
      ensures Datagrams() && AtMost(view.Keys, capacity)
      ensures view == old(view)[key := Open(old(view)[key].progress, deadline)]
    {
      ghost var seen := view;
      view := view[key := Open(view[key].progress, deadline)];
      assert view.Keys == seen.Keys;
    }

    method OpenNew(key: K, ghost deadline: nat)
      requires Datagrams() && key !in pending && Room(view, capacity)
      modifies `pending, `view
      ensures Datagrams() && AtMost(view.Keys, capacity) && key in pending && fresh(pending[key])
      ensures pending - {key} == old(pending) - {key} && view == old(view)[key := Open(BLANK, deadline)]
    {
      ghost var was, seen := pending, view;
      var datagram := new PendingDatagram();
      OneMoreKey(view.Keys, key, capacity);
      pending, view := pending[key := datagram], view[key := Open(BLANK, deadline)];
      assert view.Keys == seen.Keys + {key} && pending - {key} == was - {key};
    }

    method Close(key: K)
      requires Valid() && key in pending
      modifies `pending, `calendar, `view
      ensures Valid() && pending == old(pending) - {key} && view == old(view) - {key}
    {
      calendar := Leave(calendar, key, view, clock + timeout);
      Drop(key);
    }

    method Drop(key: K)
      requires Datagrams() && AtMost(view.Keys, capacity)
      modifies `pending, `view
      ensures Datagrams() && AtMost(view.Keys, capacity)
      ensures pending == old(pending) - {key} && view == old(view) - {key}
    {
      FewerKeys((view - {key}).Keys, view.Keys, capacity);
      pending, view := pending - {key}, view - {key};
      assert pending.Keys == view.Keys;
    }

    method Absorb(key: K, fragment: Fragment) returns (answer: Outcome<Datagram>, ghost next: Progress)
      requires Datagrams() && AtMost(view.Keys, capacity) && key in pending && Aligned(fragment)
      modifies `view, pending[key]
      ensures Datagrams() && AtMost(view.Keys, capacity)
      ensures Took(old(view)[key].progress, fragment, answer, next)
      ensures view == old(view)[key := Open(next, old(view)[key].at)]
    {
      ghost var seen := view;
      answer, next := pending[key].Offer(fragment, view[key].progress);
      view := view[key := Open(next, view[key].at)];
      assert view.Keys == seen.Keys;
    }

    /** One fragment of a datagram that is there. */
    method Take(key: K, fragment: Fragment) returns (outcome: Outcome<seq<byte>>, ghost answer: Outcome<Datagram>, ghost next: Progress)
      requires Valid() && key in pending && Aligned(fragment)
      modifies `pending, `calendar, `view, pending[key]
      ensures Valid() && Took(old(view)[key].progress, fragment, answer, next) && outcome == Rebuilt(rebuild, key, answer)
      ensures view == Lodged(old(view), key, answer.Complete?, next, old(view)[key].at)
      ensures pending == if answer.Complete? then old(pending) - {key} else old(pending)
    {
      ghost var seen := view;
      var heard;
      heard, next := Absorb(key, fragment);
      StillDated(calendar, seen, clock + timeout, key, next);
      answer := heard;
      outcome := Rebuilt(rebuild, key, heard);
      if heard.Complete? {
        Close(key);
      }
    }

    /** One fragment, for which there is a datagram or room for one. */
    method Place(key: K, fragment: Fragment, now: nat) returns (outcome: Outcome<seq<byte>>, ghost answer: Outcome<Datagram>, ghost next: Progress)
      requires Valid() && Aligned(fragment) && clock <= now && (key in pending || Room(view, capacity))
      modifies this, if key in pending then {pending[key]} else {}
      ensures Valid() && clock == now && Took(ProgressOf(old(view), key), fragment, answer, next)
      ensures view == Lodged(old(view), key, answer.Complete?, next, now + timeout) && outcome == Rebuilt(rebuild, key, answer)
      ensures pending - {key} == old(pending) - {key}
      ensures key in pending ==> if key in old(pending) then pending[key] == old(pending)[key] else fresh(pending[key])
      ensures OnlyNew(old(pending), pending)
    {
      ghost var was := pending;
      Refresh(key, now);
      outcome, answer, next := Take(key, fragment);
      forall other | other in pending && other != key
        ensures other in was && pending[other] == was[other]
      {
        assert other in pending - {key};
      }
    }

    /** A datagram that was not there is new. */
    twostate predicate OnlyNew(before: map<K, PendingDatagram>, new after: map<K, PendingDatagram>) {
      forall key <- after :: after[key] in before.Values || fresh(after[key])
    }

    /** A new datagram for a full table: there is room exactly when a pass evicts. */
    method PushFull(key: K, fragment: Fragment, now: nat) returns (outcome: Outcome<seq<byte>>)
      requires Valid() && Aligned(fragment) && Formed(fragment) && clock <= now && key !in pending && !Room(view, capacity)
      modifies this
      ensures Valid() && clock == now && Pushed(old(view), view, key, fragment, now, timeout, capacity, rebuild, outcome)
      ensures OnlyNew(old(pending), pending)
    {
      SomeGone(view, now, capacity);
      Expire(now);
      var full := IsFull();
      if full {
        return Discarded;
      }
      ghost var answer, next;
      assert ProgressOf(old(view), key) == ProgressOf(view, key) == BLANK;
      outcome, answer, next := Place(key, fragment, now);
    }

    /** `push`: a malformed fragment leaves no mark; a new datagram in a full table
        is discarded unless a pass makes room; any other fragment is answered by the
        datagram under its key alone, opened anew if there is none, and no other
        datagram changes. A whole one leaves the table and the index. */
    method Push(key: K, fragment: Fragment, now: nat) returns (outcome: Outcome<seq<byte>>)
      requires Valid() && Aligned(fragment) && clock <= now
      modifies this, if key in pending then {pending[key]} else {}
      ensures Valid() && clock <= now && Pushed(old(view), view, key, fragment, now, timeout, capacity, rebuild, outcome)
      ensures OnlyNew(old(pending), pending)
    {
      if !Formed(fragment) {
        return Discarded;
      }
      var full := IsFull();
      if key !in pending && full {
        outcome := PushFull(key, fragment, now);
      } else {
        ghost var answer, next;
        outcome, answer, next := Place(key, fragment, now);
      }
    }
  }

  // ------------------------------------------------------------ runs

  datatype Step<K> = Pushing(key: K, fragment: Fragment, now: nat) | Expiring(now: nat)

  ghost predicate Follows<K(!new)>(
      view: map<K, Open>, after: map<K, Open>, step: Step<K>, timeout: nat, capacity: nat,
      rebuild: (K, Datagram) -> Option<seq<byte>>, outcome: Option<Outcome<seq<byte>>>)
  {
    match step
    case Pushing(key, fragment, now) =>
      outcome.Some? && Pushed(view, after, key, fragment, now, timeout, capacity, rebuild, outcome.value)
    case Expiring(now) => outcome.None? && after == Alive(view, now)
  }

  /** A run as it went: the table before each step and at the end. */
  ghost predicate Went<K(!new)>(
      run: seq<Step<K>>, views: seq<map<K, Open>>, timeout: nat, capacity: nat,
      rebuild: (K, Datagram) -> Option<seq<byte>>, outcomes: seq<Option<Outcome<seq<byte>>>>)
  {
    && |views| == |run| + 1 && |outcomes| == |run| && views[0] == map[]
    && forall i :: 0 <= i < |run| ==> Follows(views[i], views[i + 1], run[i], timeout, capacity, rebuild, outcomes[i])
  }

  ghost predicate Runs<K(!new)>(run: seq<Step<K>>) {
    && (forall i :: 0 <= i < |run| && run[i].Pushing? ==> Aligned(run[i].fragment))
    && (forall i, j :: 0 <= i < j < |run| ==> run[i].now <= run[j].now)
  }

  method Advance<K(!new, ==)>(table: Table<K>, step: Step<K>) returns (outcome: Option<Outcome<seq<byte>>>)
    requires table.Valid() && table.clock <= step.now && (step.Pushing? ==> Aligned(step.fragment))
    modifies table, table.pending.Values
    ensures table.Valid() && table.clock <= step.now && table.OnlyNew(old(table.pending), table.pending)
    ensures Follows(old(table.view), table.view, step, table.timeout, table.capacity, table.rebuild, outcome)
  {
    match step {
      case Pushing(key, fragment, now) =>
        var reply := table.Push(key, fragment, now);
        outcome := Some(reply);
      case Expiring(now) =>
        table.Expire(now);
        outcome := None;
    }
  }

  /** Every run of fragments and passes, from an empty table. */
  method Serve<K(!new, ==)>(timeout: nat, capacity: nat, rebuild: (K, Datagram) -> Option<seq<byte>>, run: seq<Step<K>>)
    returns (outcomes: seq<Option<Outcome<seq<byte>>>>, ghost views: seq<map<K, Open>>)
    requires capacity > 0 && Runs(run)
    ensures Went(run, views, timeout, capacity, rebuild, outcomes)
  {
    var table := new Table(timeout, capacity, rebuild);
    outcomes, views := [], [table.view];
    for n := 0 to |run|
      invariant table.Valid() && fresh(table) && fresh(table.pending.Values) && (n < |run| ==> table.clock <= run[n].now)
      invariant table.timeout == timeout && table.capacity == capacity && table.rebuild == rebuild
      invariant Went(run[..n], views, timeout, capacity, rebuild, outcomes) && views[n] == table.view
    {
      var outcome := Advance(table, run[n]);
      outcomes, views := outcomes + [outcome], views + [table.view];
      assert run[..n + 1] == run[..n] + [run[n]];
    }
    assert run[..|run|] == run;
  }

  // ------------------------------------------------------------ key by key

  ghost predicate Pushes<K(!new)>(run: seq<Step<K>>, i: nat, key: K) {
    i < |run| && run[i].Pushing? && run[i].key == key
  }

  /** The fragments under a key among the first `n` steps. */
  ghost function Mine<K(!new)>(run: seq<Step<K>>, n: nat, key: K): seq<Fragment>
    requires n <= |run|
  {
    if n == 0 then []
    else Mine(run, n - 1, key) + if Pushes(run, n - 1, key) then [run[n - 1].fragment] else []
  }

  /** When the last of them came. */
  ghost function LastAt<K(!new)>(run: seq<Step<K>>, n: nat, key: K): nat
    requires n <= |run|
  {
    if n == 0 then 0 else if Pushes(run, n - 1, key) then run[n - 1].now else LastAt(run, n - 1, key)
  }

  /** Under the key come pieces of `whole`, no two in one block. */
  ghost predicate Sends<K(!new)>(run: seq<Step<K>>, n: nat, key: K, whole: seq<byte>)
    requires n <= |run|
  {
    && (forall i: nat :: i < n && Pushes(run, i, key) ==> PieceOf(run[i].fragment, whole))
    && (forall i: nat, j: nat :: i < j < n && Pushes(run, i, key) && Pushes(run, j, key) ==>
          PieceOf(run[i].fragment, whole) && PieceOf(run[j].fragment, whole) && Apart(run[i].fragment, run[j].fragment))
  }

  /** Once a piece has come, nothing happens a timeout or more after the last. */
  ghost predicate Prompt<K(!new)>(run: seq<Step<K>>, n: nat, key: K, timeout: nat)
    requires n <= |run|
  {
    forall i: nat :: i < n && Mine(run, i, key) != [] ==> run[i].now < LastAt(run, i, key) + timeout
  }

  /** The first piece finds room. */
  ghost predicate FindsRoom<K(!new)>(run: seq<Step<K>>, views: seq<map<K, Open>>, n: nat, key: K, capacity: nat)
    requires n <= |run| && |views| == |run| + 1
  {
    forall i: nat :: i < n && Pushes(run, i, key) && Mine(run, i, key) == [] ==> Admits(views[i], key, run[i].now, capacity)
  }

  /** What the table holds of a datagram of which these pieces have come. */
  ghost predicate Collects<K(!new)>(view: map<K, Open>, key: K, mine: seq<Fragment>, deadline: nat, whole: seq<byte>) {
    if mine == [] then key !in view
    else key in view && view[key].at == deadline && view[key].progress.kept == mine && Gathers(view[key].progress, whole)
  }

  lemma {:induction false} MineApart<K(!new)>(run: seq<Step<K>>, n: nat, m: nat, key: K, whole: seq<byte>)
    requires n <= m < |run| && Sends(run, m + 1, key, whole) && Pushes(run, m, key)
    ensures Clear(Mine(run, n, key), run[m].fragment)
  {
    if n > 0 {
      MineApart(run, n - 1, m, key, whole);
    }
  }

  /** One more piece under the key. */
  lemma {:induction false} PieceComes<K(!new)>(
      view: map<K, Open>, after: map<K, Open>, key: K, fragment: Fragment, now: nat, timeout: nat, capacity: nat,
      rebuild: (K, Datagram) -> Option<seq<byte>>, outcome: Outcome<seq<byte>>,
      mine: seq<Fragment>, deadline: nat, whole: seq<byte>)
    returns (answer: Outcome<Datagram>)
    requires Pushed(view, after, key, fragment, now, timeout, capacity, rebuild, outcome)
    requires Collects(view, key, mine, deadline, whole) && (mine == [] ==> Admits(view, key, now, capacity))
    requires PieceOf(fragment, whole) && Clear(mine, fragment)
    ensures AnswersPiece(answer, mine + [fragment], whole) && outcome == Rebuilt(rebuild, key, answer)
    ensures !Covers(mine + [fragment], |whole|) ==> Collects(after, key, mine + [fragment], now + timeout, whole)
  {
    var next;
    answer, next :| Took(ProgressOf(view, key), fragment, answer, next) && outcome == Rebuilt(rebuild, key, answer)
      && after == Lodged(if key in view || Room(view, capacity) then view else Alive(view, now), key, answer.Complete?, next, now + timeout);
    TookIs(ProgressOf(view, key), fragment, answer, next);
    PieceFits(ProgressOf(view, key), fragment, whole);
  }

  /** Nothing else that happens before the deadline touches the key. */
  lemma {:induction false} OtherComes<K(!new)>(
      view: map<K, Open>, after: map<K, Open>, step: Step<K>, timeout: nat, capacity: nat,
      rebuild: (K, Datagram) -> Option<seq<byte>>, outcome: Option<Outcome<seq<byte>>>,
      key: K, mine: seq<Fragment>, deadline: nat, whole: seq<byte>)
    requires Follows(view, after, step, timeout, capacity, rebuild, outcome) && (step.Pushing? ==> step.key != key)
    requires Collects(view, key, mine, deadline, whole) && (mine != [] ==> step.now < deadline)
    ensures Collects(after, key, mine, deadline, whole)
  {
  }

  lemma {:induction false} Collected<K(!new)>(
      run: seq<Step<K>>, views: seq<map<K, Open>>, timeout: nat, capacity: nat,
      rebuild: (K, Datagram) -> Option<seq<byte>>, outcomes: seq<Option<Outcome<seq<byte>>>>,
      key: K, whole: seq<byte>, n: nat, m: nat)
    requires Went(run, views, timeout, capacity, rebuild, outcomes) && n <= m < |run|
    requires Pushes(run, m, key) && Sends(run, m + 1, key, whole) && Prompt(run, m, key, timeout)
    requires FindsRoom(run, views, m, key, capacity)
    ensures Collects(views[n], key, Mine(run, n, key), LastAt(run, n, key) + timeout, whole)
  {
    if n > 0 {
      var k := n - 1;
      Collected(run, views, timeout, capacity, rebuild, outcomes, key, whole, k, m);
      assert Follows(views[k], views[k + 1], run[k], timeout, capacity, rebuild, outcomes[k]);
      if Pushes(run, k, key) {
        MineApart(run, k, k, key, whole);
        var answer := PieceComes(views[k], views[n], key, run[k].fragment, run[k].now, timeout, capacity, rebuild,
                                 outcomes[k].value, Mine(run, k, key), LastAt(run, k, key) + timeout, whole);
        MineApart(run, n, m, key, whole);
        NotYetCovered(Mine(run, n, key), run[m].fragment, whole);
      } else {
        OtherComes(views[k], views[n], run[k], timeout, capacity, rebuild, outcomes[k], key,
                   Mine(run, k, key), LastAt(run, k, key) + timeout, whole);
      }
    }
  }

  /** Key by key: whatever comes under other keys, and whenever a pass is made, the
      pieces of a datagram are answered as if it were the only one, if the first
      finds room and nothing before the last comes a timeout or more after the piece
      before it. */
  lemma {:induction false} KeyByKey<K(!new)>(
      run: seq<Step<K>>, views: seq<map<K, Open>>, timeout: nat, capacity: nat,
      rebuild: (K, Datagram) -> Option<seq<byte>>, outcomes: seq<Option<Outcome<seq<byte>>>>,
      key: K, whole: seq<byte>, n: nat)
    returns (answer: Outcome<Datagram>)
    requires Went(run, views, timeout, capacity, rebuild, outcomes)
    requires Pushes(run, n, key) && Sends(run, n + 1, key, whole)
    requires Prompt(run, n, key, timeout) && FindsRoom(run, views, n + 1, key, capacity)
    ensures AnswersPiece(answer, Mine(run, n + 1, key), whole)
    ensures outcomes[n] == Some(Rebuilt(rebuild, key, answer))
  {
    Collected(run, views, timeout, capacity, rebuild, outcomes, key, whole, n, n);
    assert Follows(views[n], views[n + 1], run[n], timeout, capacity, rebuild, outcomes[n]);
    MineApart(run, n, n, key, whole);
    answer := PieceComes(views[n], views[n + 1], key, run[n].fragment, run[n].now, timeout, capacity, rebuild,
                         outcomes[n].value, Mine(run, n, key), LastAt(run, n, key) + timeout, whole);
  }
}
