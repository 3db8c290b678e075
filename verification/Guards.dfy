/**
 * The datapath's two guards: the token bucket that bounds generated ICMP errors,
 * and the bounded set of addresses whose flows are inspected for a while.
 */
module Guards {
  import opened Bytes

  const ICMP_ERRORS_PER_SECOND: nat := 100

  /** Instants are nanoseconds. */
  const NANOS: nat := 1_000_000_000

  /** RFC 4787 REQ-5: a mapping lives two minutes at least. */
  const MIN_IDLE_TIMEOUT: nat := 120 * NANOS

  // ------------------------------------------------------------ ICMP errors

  datatype Bucket = Bucket(tokens: nat, refilled: nat)

  predicate RefillDue(bucket: Bucket, now: nat) {
    now >= bucket.refilled + NANOS
  }

  function Refilled(bucket: Bucket, now: nat): Bucket {
    if RefillDue(bucket, now) then Bucket(ICMP_ERRORS_PER_SECOND, now) else bucket
  }

  function Spent(bucket: Bucket): Bucket {
    if bucket.tokens == 0 then bucket else bucket.(tokens := bucket.tokens - 1)
  }

  /** How many of the requests at `times` are granted. */
  function Granted(bucket: Bucket, times: seq<nat>): nat
    decreases |times|
  {
    if times == [] then 0
    else
      var ready := Refilled(bucket, times[0]);
      (if ready.tokens == 0 then 0 else 1) + Granted(Spent(ready), times[1..])
  }

  /** The bucket after the requests at `times`. */
  function AfterAll(bucket: Bucket, times: seq<nat>): Bucket
    decreases |times|
  {
    if times == [] then bucket else AfterAll(Spent(Refilled(bucket, times[0])), times[1..])
  }

  class IcmpBudget {
    var tokens: nat
    var refilled: nat

    ghost function State(): Bucket
      reads this
    {
      Bucket(tokens, refilled)
    }

    constructor (now: nat)
      ensures State() == Bucket(ICMP_ERRORS_PER_SECOND, now)
    {
      tokens, refilled := ICMP_ERRORS_PER_SECOND, now;
    }

    /** A grant is one token of the bucket as refilled. */
    method Take(now: nat) returns (granted: bool)
      modifies this
      ensures State() == Spent(Refilled(old(State()), now))
      ensures granted <==> Refilled(old(State()), now).tokens > 0
    {
      if now >= refilled + NANOS {
        tokens := ICMP_ERRORS_PER_SECOND;
        refilled := now;
      }
      if tokens == 0 {
        return false;
      }
      tokens := tokens - 1;
      return true;
    }

    /** A whole run of requests grants as many as the bucket's arithmetic says. */
    method TakeAll(times: seq<nat>) returns (granted: nat)
      modifies this
      ensures granted == Granted(old(State()), times)
      ensures State() == AfterAll(old(State()), times)
    {
      granted := 0;
      for i := 0 to |times|
        invariant AfterAll(State(), times[i..]) == AfterAll(old(State()), times)
        invariant granted + Granted(State(), times[i..]) == Granted(old(State()), times)
      {
        var grant := Take(times[i]);
        assert times[i..][1..] == times[i + 1..];
        granted := granted + if grant then 1 else 0;
      }
    }
  }

  ghost predicate NonDecreasing(times: seq<nat>) {
    forall i, j :: 0 <= i < j < |times| ==> times[i] <= times[j]
  }

  ghost predicate NoRefill(bucket: Bucket, times: seq<nat>) {
    forall i :: 0 <= i < |times| ==> !RefillDue(bucket, times[i])
  }

  /** Between two refills at most the tokens in hand are granted. */
  lemma {:induction false} BetweenRefills(bucket: Bucket, times: seq<nat>)
    requires NoRefill(bucket, times)
    ensures Granted(bucket, times) <= bucket.tokens
    decreases |times|
  {
    if times != [] {
      assert !RefillDue(bucket, times[0]);
      BetweenRefills(Spent(bucket), times[1..]);
    }
  }

  /** Refills are a second apart, so since `start` there were at most one more
      than the whole seconds elapsed; `refills` of them are behind already. */
  lemma {:induction false} GrantsSince(bucket: Bucket, times: seq<nat>, start: nat, last: nat, refills: nat)
    requires NonDecreasing(times) && start <= last
    requires forall i :: 0 <= i < |times| ==> start <= times[i] <= last
    requires refills >= 1 ==> start + (refills - 1) * NANOS <= bucket.refilled <= last
    ensures Granted(bucket, times) <= bucket.tokens + ICMP_ERRORS_PER_SECOND * ((last - start) / NANOS + 1 - refills)
    ensures refills <= (last - start) / NANOS + 1
    decreases |times|
  {
    if refills >= 1 {
      WholeSeconds(last - start, refills - 1);
    }
    if times != [] {
      var rest := times[1..];
      if RefillDue(bucket, times[0]) {
        GrantsSince(Bucket(ICMP_ERRORS_PER_SECOND - 1, times[0]), rest, start, last, refills + 1);
      } else {
        GrantsSince(Spent(bucket), rest, start, last, refills);
      }
    }
  }

  lemma {:induction false} WholeSeconds(elapsed: nat, n: nat)
    requires n * NANOS <= elapsed
    ensures n <= elapsed / NANOS
  {
  }

  /** In any stretch of a run, at most a hundred for each whole second it spans
      and two hundred more. */
  lemma {:induction false} RateBound(bucket: Bucket, times: seq<nat>)
    requires bucket.tokens <= ICMP_ERRORS_PER_SECOND && NonDecreasing(times) && times != []
    ensures Granted(bucket, times) <=
              ICMP_ERRORS_PER_SECOND * ((times[|times| - 1] - times[0]) / NANOS + 2)
  {
    GrantsSince(bucket, times, times[0], times[|times| - 1], 0);
  }

  /** A run goes on from where its first part left the bucket, which never holds
      more than a second's worth. */
  lemma {:induction false} GrantedSplit(bucket: Bucket, before: seq<nat>, stretch: seq<nat>)
    requires bucket.tokens <= ICMP_ERRORS_PER_SECOND
    ensures Granted(bucket, before + stretch) == Granted(bucket, before) + Granted(AfterAll(bucket, before), stretch)
    ensures AfterAll(bucket, before).tokens <= ICMP_ERRORS_PER_SECOND
    decreases |before|
  {
    if before == [] {
      assert before + stretch == stretch;
    } else {
      assert (before + stretch)[1..] == before[1..] + stretch;
      GrantedSplit(Spent(Refilled(bucket, before[0])), before[1..], stretch);
    }
  }

  /** So the bound holds of every stretch of every run, whatever came before it. */
  lemma {:induction false} EveryStretch(bucket: Bucket, before: seq<nat>, stretch: seq<nat>)
    requires bucket.tokens <= ICMP_ERRORS_PER_SECOND && NonDecreasing(stretch) && stretch != []
    ensures Granted(bucket, before + stretch) - Granted(bucket, before) <=
              ICMP_ERRORS_PER_SECOND * ((stretch[|stretch| - 1] - stretch[0]) / NANOS + 2)
  {
    GrantedSplit(bucket, before, stretch);
    RateBound(AfterAll(bucket, before), stretch);
  }

  // ------------------------------------------------------------ inspected addresses

  ghost function Unexpired(until: map<nat, nat>, now: nat): map<nat, nat> {
    map address | address in until && until[address] > now :: until[address]
  }

  /** Whether an address is inspected at `now`. */
  predicate LiveIn(until: map<nat, nat>, address: nat, now: nat) {
    address in until && until[address] > now
  }

  method Soonest(until: map<nat, nat>) returns (soonest: Option<nat>)
    ensures soonest.None? <==> until == map[]
    ensures soonest.Some? ==> exists address <- until :: until[address] == soonest.value
    ensures soonest.Some? ==> forall address <- until :: soonest.value <= until[address]
  {
    var rest := until.Keys;
    soonest := None;
    while rest != {}
      invariant rest <= until.Keys
      invariant soonest.None? <==> rest == until.Keys
      invariant soonest.Some? ==> exists address <- until :: until[address] == soonest.value
      invariant soonest.Some? ==> forall address <- until.Keys - rest :: soonest.value <= until[address]
      decreases |rest|
    {
      var address :| address in rest;
      rest := rest - {address};
      soonest := Some(if soonest.None? then until[address] else Min(soonest.value, until[address]));
      assert address in until.Keys - rest;
    }
    assert until.Keys - {} == until.Keys;
  }

  predicate TurnedAway(until: map<nat, nat>, address: nat, capacity: nat) {
    address !in until && |until| >= capacity
  }

  /** The addresses stored after an admission, each taken or turned away in turn. */
  function Admitted(until: map<nat, nat>, addresses: seq<nat>, deadline: nat, capacity: nat): map<nat, nat>
    decreases |addresses|
  {
    if addresses == [] then until
    else
      var address := addresses[|addresses| - 1];
      var before := Admitted(until, addresses[..|addresses| - 1], deadline, capacity);
      if TurnedAway(before, address, capacity) then before else before[address := deadline]
  }

  /** How many of them were turned away. */
  function Denied(until: map<nat, nat>, addresses: seq<nat>, deadline: nat, capacity: nat): nat
    decreases |addresses|
  {
    if addresses == [] then 0
    else
      var first := addresses[..|addresses| - 1];
      var before := Admitted(until, first, deadline, capacity);
      Denied(until, first, deadline, capacity)
      + if TurnedAway(before, addresses[|addresses| - 1], capacity) then 1 else 0
  }

  /** Those of `addresses` that are stored expire at `deadline`, the others as they
      did; nothing stored is forgotten, and nothing else is stored. */
  lemma {:induction false} AdmittedIs(until: map<nat, nat>, addresses: seq<nat>, deadline: nat, capacity: nat, address: nat)
    ensures var after := Admitted(until, addresses, deadline, capacity);
      && (address in until ==> address in after)
      && (address in after ==>
            if address in addresses then after[address] == deadline
            else address in until && after[address] == until[address])
    decreases |addresses|
  {
    if addresses != [] {
      var first := addresses[..|addresses| - 1];
      assert addresses == first + [addresses[|addresses| - 1]];
      AdmittedIs(until, first, deadline, capacity, address);
    }
  }

  ghost predicate AllStored(until: map<nat, nat>, addresses: seq<nat>) {
    forall address <- addresses :: address in until
  }

  /** Once one is turned away the set is full and takes no new address, so nothing
      turned away is stored by the end. */
  lemma {:induction false} DeniedIs(until: map<nat, nat>, addresses: seq<nat>, deadline: nat, capacity: nat)
    ensures var refused, after := Denied(until, addresses, deadline, capacity), Admitted(until, addresses, deadline, capacity);
      && refused <= |addresses|
      && (refused == 0 <==> AllStored(after, addresses))
      && (refused > 0 ==> |after| >= capacity)
    decreases |addresses|
  {
    if addresses != [] {
      var n := |addresses| - 1;
      var before := Admitted(until, addresses[..n], deadline, capacity);
      DeniedIs(until, addresses[..n], deadline, capacity);
      assert addresses == addresses[..n] + [addresses[n]];
      if !TurnedAway(before, addresses[n], capacity) && addresses[n] in before {
        assert before[addresses[n] := deadline].Keys == before.Keys;
      }
    }
  }

  /** An admission took all but so many. */
  ghost predicate AdmittedAll(
      before: map<nat, nat>, after: map<nat, nat>, addresses: seq<nat>, now: nat, window: nat, capacity: nat, refused: nat)
  {
    forall token {:trigger Shown(token)} :: Shown(token) ==>
      && after == Admitted(before, addresses, now + window, capacity)
      && refused == Denied(before, addresses, now + window, capacity)
  }

  /** Those stored last until the deadline. */
  ghost predicate AllLast(until: map<nat, nat>, addresses: seq<nat>, deadline: nat) {
    forall address <- addresses :: address in until ==> until[address] == deadline
  }

  /** Those it stored last the whole window, and none was refused exactly if all
      are stored. */
  lemma {:induction false} AdmissionTells(
      before: map<nat, nat>, after: map<nat, nat>, addresses: seq<nat>, now: nat, window: nat, capacity: nat, refused: nat)
    requires AdmittedAll(before, after, addresses, now, window, capacity, refused)
    ensures AllLast(after, addresses, now + window)
    ensures refused == 0 <==> AllStored(after, addresses)
  {
    assert Shown(0);
    DeniedIs(before, addresses, now + window, capacity);
    forall address | address in addresses
      ensures address in after ==> after[address] == now + window
    {
      AdmittedIs(before, addresses, now + window, capacity, address);
    }
  }

  class InspectedAddresses {
    const window: nat
    const capacity: nat
    var until: map<nat, nat>
    var earliest: Option<nat>

    /** `earliest` is a lower bound on every deadline, and is absent exactly when
        nothing is stored. */
    ghost predicate Valid()
      reads this
    {
      && |until| <= capacity
      && (earliest.None? <==> until == map[])
      && (earliest.Some? ==> forall address <- until :: earliest.value <= until[address])
    }

    constructor (window: nat, capacity: nat)
      ensures Valid() && until == map[]
      ensures this.window == window && this.capacity == capacity
    {
      this.window, this.capacity := window, capacity;
      until, earliest := map[], None;
    }

    method AdmitOne(address: nat, deadline: nat) returns (refused: bool)
      requires Valid()
      modifies this
      ensures Valid()
      ensures refused <==> TurnedAway(old(until), address, capacity)
      ensures until == if refused then old(until) else old(until)[address := deadline]
    {
      if address !in until && |until| >= capacity {
        return true;
      }
      ghost var was := until;
      until := until[address := deadline];
      earliest := Some(if earliest.None? then deadline else Min(earliest.value, deadline));
      assert address in until;
      assert until.Keys == was.Keys + {address};
      return false;
    }

    /** `admit`: every address is inspected for the whole window from now, or was
        refused at capacity. */
    method Admit(addresses: seq<nat>, now: nat) returns (refused: nat)
      requires Valid()
      modifies this
      ensures Valid()
      ensures AdmittedAll(old(until), until, addresses, now, window, capacity, refused)
    {
      refused := 0;
      for i := 0 to |addresses|
        invariant Valid()
        invariant until == Admitted(old(until), addresses[..i], now + window, capacity)
        invariant refused == Denied(old(until), addresses[..i], now + window, capacity)
      {
        var full := AdmitOne(addresses[i], now + window);
        assert addresses[..i + 1][..i] == addresses[..i];
        if full {
          refused := refused + 1;
        }
      }
      assert addresses[..|addresses|] == addresses;
    }

    /** `live` answers the same before and after the entries it would refuse are
        removed. */
    method Live(address: nat, now: nat) returns (live: bool)
      ensures live <==> LiveIn(until, address, now)
    {
      live := address in until && until[address] > now;
    }

    /** `expire` removes exactly the entries whose deadline has arrived, though it
        only looks at them when the lower bound has. */
    method Expire(now: nat)
      requires Valid()
      modifies this
      ensures Valid()
      ensures until == Unexpired(old(until), now)
      ensures forall address, later: nat :: now <= later ==>
                (LiveIn(until, address, later) <==> LiveIn(old(until), address, later))
    {
      if earliest.None? || earliest.value > now {
        return;
      }
      ghost var was := until;
      until := map address | address in until && until[address] > now :: until[address];
      assert until.Keys <= was.Keys;
      assert was.Keys == until.Keys + (was.Keys - until.Keys);
      earliest := Soonest(until);
    }
  }

  // ------------------------------------------------------------ runs of inspection

  datatype Watching = Admitting(addresses: seq<nat>, now: nat) | Expiring(now: nat)

  ghost function Watched(until: map<nat, nat>, step: Watching, window: nat, capacity: nat): map<nat, nat> {
    match step
    case Admitting(addresses, now) => Admitted(until, addresses, now + window, capacity)
    case Expiring(now) => Unexpired(until, now)
  }

  ghost function DeniedBy(until: map<nat, nat>, step: Watching, window: nat, capacity: nat): nat {
    match step
    case Admitting(addresses, now) => Denied(until, addresses, now + window, capacity)
    case Expiring(_) => 0
  }

  method WatchOn(inspected: InspectedAddresses, step: Watching) returns (refused: nat)
    requires inspected.Valid()
    modifies inspected
    ensures inspected.Valid() && inspected.until == Watched(old(inspected.until), step, inspected.window, inspected.capacity)
    ensures refused == DeniedBy(old(inspected.until), step, inspected.window, inspected.capacity)
  {
    match step {
      case Admitting(addresses, now) =>
        refused := inspected.Admit(addresses, now);
        assert Shown(0);
      case Expiring(now) =>
        inspected.Expire(now);
        refused := 0;
    }
  }

  /** What is stored after the first `n` steps of a run. */
  ghost function Stored(run: seq<Watching>, n: nat, window: nat, capacity: nat): map<nat, nat>
    requires n <= |run|
  {
    if n == 0 then map[] else Watched(Stored(run, n - 1, window, capacity), run[n - 1], window, capacity)
  }

  /** How many addresses they turned away. */
  ghost function Refusals(run: seq<Watching>, n: nat, window: nat, capacity: nat): nat
    requires n <= |run|
  {
    if n == 0 then 0
    else Refusals(run, n - 1, window, capacity) + DeniedBy(Stored(run, n - 1, window, capacity), run[n - 1], window, capacity)
  }

  ghost predicate InTime(run: seq<Watching>, now: nat) {
    && (forall i :: 0 <= i < |run| ==> run[i].now <= now)
    && (forall i, j :: 0 <= i < j < |run| ==> run[i].now <= run[j].now)
  }

  /** Step `i` named the address less than a window ago. */
  ghost predicate NamedAt(run: seq<Watching>, i: nat, window: nat, address: nat, now: nat) {
    i < |run| && run[i].Admitting? && address in run[i].addresses && now < run[i].now + window
  }

  /** One of the first `n` steps named the address less than a window ago, and did
      not turn it away. */
  ghost predicate Entered(run: seq<Watching>, n: nat, window: nat, capacity: nat, address: nat, now: nat)
    requires n <= |run|
  {
    exists i: nat {:trigger NamedAt(run, i, window, address, now)} ::
      i < n && NamedAt(run, i, window, address, now) && address in Stored(run, i + 1, window, capacity)
  }

  ghost predicate Named(run: seq<Watching>, window: nat, address: nat, now: nat) {
    exists i: nat :: NamedAt(run, i, window, address, now)
  }

  lemma {:induction false} EnteredOn(run: seq<Watching>, n: nat, window: nat, capacity: nat, address: nat, now: nat)
    requires n < |run|
    ensures Entered(run, n + 1, window, capacity, address, now) <==>
              || Entered(run, n, window, capacity, address, now)
              || (NamedAt(run, n, window, address, now) && address in Stored(run, n + 1, window, capacity))
  {
  }

  /** Whatever was admitted, refused and expired before: an address is live exactly
      less than a window after it was last named and not turned away. */
  lemma {:induction false} LiveExactly(run: seq<Watching>, n: nat, window: nat, capacity: nat, address: nat, now: nat)
    requires n <= |run| && InTime(run, now)
    ensures LiveIn(Stored(run, n, window, capacity), address, now) <==> Entered(run, n, window, capacity, address, now)
  {
    if n > 0 {
      LiveExactly(run, n - 1, window, capacity, address, now);
      EnteredOn(run, n - 1, window, capacity, address, now);
      if run[n - 1].Admitting? {
        AdmittedIs(Stored(run, n - 1, window, capacity), run[n - 1].addresses, run[n - 1].now + window, capacity, address);
      }
    }
  }

  /** If none was turned away, exactly less than a window after it was last named. */
  lemma {:induction false} EnteredIsNamed(run: seq<Watching>, n: nat, window: nat, capacity: nat)
    requires n <= |run| && Refusals(run, n, window, capacity) == 0
    ensures forall i: nat, address :: i < n && run[i].Admitting? && address in run[i].addresses ==>
              address in Stored(run, i + 1, window, capacity)
  {
    if n > 0 {
      EnteredIsNamed(run, n - 1, window, capacity);
      if run[n - 1].Admitting? {
        DeniedIs(Stored(run, n - 1, window, capacity), run[n - 1].addresses, run[n - 1].now + window, capacity);
      }
    }
  }

  ghost function Members(addresses: seq<nat>): set<nat> {
    set address | address in addresses
  }

  /** Every address the first `n` steps name. */
  ghost function NamedBy(run: seq<Watching>, n: nat): set<nat>
    requires n <= |run|
  {
    if n == 0 then {}
    else NamedBy(run, n - 1) + if run[n - 1].Admitting? then Members(run[n - 1].addresses) else {}
  }

  lemma {:induction false} SmallerSet(fewer: set<nat>, more: set<nat>)
    requires fewer <= more
    ensures |fewer| <= |more|
  {
    assert more == fewer + (more - fewer);
  }

  lemma {:induction false} RoomFor(until: map<nat, nat>, addresses: seq<nat>, deadline: nat, capacity: nat, all: set<nat>)
    requires until.Keys <= all && (forall address <- addresses :: address in all) && |all| <= capacity
    ensures Denied(until, addresses, deadline, capacity) == 0
    ensures Admitted(until, addresses, deadline, capacity).Keys <= all
    decreases |addresses|
  {
    if addresses != [] {
      var n := |addresses| - 1;
      var before := Admitted(until, addresses[..n], deadline, capacity);
      RoomFor(until, addresses[..n], deadline, capacity, all);
      SmallerSet(before.Keys + {addresses[n]}, all);
    }
  }

  /** A run that names no more addresses than there is room for turns none away. */
  lemma {:induction false} RoomForAll(run: seq<Watching>, n: nat, window: nat, capacity: nat, all: set<nat>)
    requires n <= |run| && NamedBy(run, n) <= all && |all| <= capacity
    ensures Refusals(run, n, window, capacity) == 0
    ensures Stored(run, n, window, capacity).Keys <= all
  {
    if n > 0 {
      RoomForAll(run, n - 1, window, capacity, all);
      if run[n - 1].Admitting? {
        assert Members(run[n - 1].addresses) <= all;
        RoomFor(Stored(run, n - 1, window, capacity), run[n - 1].addresses, run[n - 1].now + window, capacity, all);
      }
    }
  }

  lemma {:induction false} RoomSuffices(run: seq<Watching>, window: nat, capacity: nat, address: nat, now: nat)
    ensures |NamedBy(run, |run|)| <= capacity ==> Refusals(run, |run|, window, capacity) == 0
    ensures Refusals(run, |run|, window, capacity) == 0 ==>
              (Entered(run, |run|, window, capacity, address, now) <==> Named(run, window, address, now))
  {
    if |NamedBy(run, |run|)| <= capacity {
      RoomForAll(run, |run|, window, capacity, NamedBy(run, |run|));
    }
    if Refusals(run, |run|, window, capacity) == 0 {
      EnteredIsNamed(run, |run|, window, capacity);
    }
  }

  method WatchAll(window: nat, capacity: nat, run: seq<Watching>) returns (inspected: InspectedAddresses, refused: nat)
    ensures fresh(inspected) && inspected.until == Stored(run, |run|, window, capacity)
    ensures refused == Refusals(run, |run|, window, capacity)
  {
    inspected := new InspectedAddresses(window, capacity);
    refused := 0;
    for i := 0 to |run|
      invariant fresh(inspected) && inspected.Valid() && inspected.window == window && inspected.capacity == capacity
      invariant inspected.until == Stored(run, i, window, capacity) && refused == Refusals(run, i, window, capacity)
    {
      ghost var before := inspected.until;
      var more := WatchOn(inspected, run[i]);
      assert Stored(run, i + 1, window, capacity) == Watched(before, run[i], window, capacity);
      refused := refused + more;
    }
  }

  /** A run from nothing: what is live at its end, and how many were turned away. An
      address is live exactly less than a window after it was last named and taken;
      none is turned away if no more are named than there is room for, and then
      every one that is named is taken. */
  method Watch(window: nat, capacity: nat, run: seq<Watching>, address: nat, now: nat) returns (live: bool, refused: nat)
    requires InTime(run, now)
    ensures live <==> Entered(run, |run|, window, capacity, address, now)
    ensures refused == Refusals(run, |run|, window, capacity)
    ensures |NamedBy(run, |run|)| <= capacity ==> refused == 0
    ensures refused == 0 ==> (live <==> Named(run, window, address, now))
  {
    var inspected;
    inspected, refused := WatchAll(window, capacity, run);
    live := inspected.Live(address, now);
    LiveExactly(run, |run|, window, capacity, address, now);
    RoomSuffices(run, window, capacity, address, now);
  }
}
