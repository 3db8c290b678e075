/**
 * The single-flight connection: a guarded state that callers read and spawned
 * dials write, as atomic steps in any interleaving. Callers may give up, and a
 * dial's report may trail its write of the state by any number of steps.
 */
module Live {
  import opened Bytes

  datatype Outcome<+C> = Opened(connection: C) | Refused(kind: nat)

  datatype State<+C> = Down | Opening(channel: nat) | Up(connection: C)

  /** One spawned dial: running, done writing the state, or done reporting. */
  datatype Dial<+C> = Dialing | Wrote(outcome: Outcome<C>) | Reported(outcome: Outcome<C>)

  /** One call of `get`, from its critical section on. */
  datatype Caller<+C> =
    | Served(connection: C)
    | Waiting(channel: nat)
    | Got(channel: nat, outcome: Outcome<C>)
    | GaveUp(channel: nat)

  /** Dials are numbered as they are spawned; a dial's number is its channel. */
  datatype World<+C> = World(state: State<C>, dials: seq<Dial<C>>, callers: seq<Caller<C>>)

  function Start<C>(): World<C> {
    World(Down, [], [])
  }

  // ------------------------------------------------------------ atomic steps

  /** The critical section of `get`: serve, join, or spawn a dial. */
  function Enter<C>(world: World<C>, alive: bool): World<C> {
    match world.state
    case Opening(channel) => world.(callers := world.callers + [Waiting(channel)])
    case Up(connection) =>
      if alive then world.(callers := world.callers + [Served(connection)]) else Spawn(world)
    case Down => Spawn(world)
  }

  function Spawn<C>(world: World<C>): World<C> {
    var channel := |world.dials|;
    World(Opening(channel), world.dials + [Dialing], world.callers + [Waiting(channel)])
  }

  /** A dial finishes and writes the state, whatever it finds there. */
  function Finish<C>(world: World<C>, dial: nat, outcome: Outcome<C>): World<C>
    requires dial < |world.dials| && world.dials[dial].Dialing?
  {
    world.(state := if outcome.Opened? then Up(outcome.connection) else Down,
           dials := world.dials[dial := Wrote(outcome)])
  }

  function Report<C>(world: World<C>, dial: nat): World<C>
    requires dial < |world.dials| && world.dials[dial].Wrote?
  {
    world.(dials := world.dials[dial := Reported(world.dials[dial].outcome)])
  }

  /** A waiting caller finds its channel's report. */
  function Wake<C>(world: World<C>, caller: nat): World<C>
    requires caller < |world.callers| && world.callers[caller].Waiting?
    requires world.callers[caller].channel < |world.dials| && world.dials[world.callers[caller].channel].Reported?
  {
    var channel := world.callers[caller].channel;
    world.(callers := world.callers[caller := Got(channel, world.dials[channel].outcome)])
  }

  function Cancel<C>(world: World<C>, caller: nat): World<C>
    requires caller < |world.callers| && world.callers[caller].Waiting?
  {
    world.(callers := world.callers[caller := GaveUp(world.callers[caller].channel)])
  }

  ghost predicate Finishes<C(!new)>(before: World<C>, after: World<C>) {
    exists dial: nat, outcome ::
      dial < |before.dials| && before.dials[dial].Dialing? && after == Finish(before, dial, outcome)
  }

  ghost predicate Reports<C(!new)>(before: World<C>, after: World<C>) {
    exists dial: nat :: dial < |before.dials| && before.dials[dial].Wrote? && after == Report(before, dial)
  }

  ghost predicate CanWake<C>(world: World<C>, caller: nat) {
    && caller < |world.callers| && world.callers[caller].Waiting?
    && world.callers[caller].channel < |world.dials| && world.dials[world.callers[caller].channel].Reported?
  }

  ghost predicate Wakes<C(!new)>(before: World<C>, after: World<C>) {
    exists caller: nat :: CanWake(before, caller) && after == Wake(before, caller)
  }

  ghost predicate Cancels<C(!new)>(before: World<C>, after: World<C>) {
    exists caller: nat ::
      caller < |before.callers| && before.callers[caller].Waiting? && after == Cancel(before, caller)
  }

  ghost predicate Step<C(!new)>(before: World<C>, after: World<C>) {
    || after == Enter(before, true)
    || after == Enter(before, false)
    || Finishes(before, after)
    || Reports(before, after)
    || Wakes(before, after)
    || Cancels(before, after)
  }

  // ------------------------------------------------------------ what every step keeps

  ghost predicate HasOutcome<C>(dial: Dial<C>, outcome: Outcome<C>) {
    !dial.Dialing? && dial.outcome == outcome
  }

  ghost predicate Opens<C>(world: World<C>, connection: C) {
    exists dial :: 0 <= dial < |world.dials| && HasOutcome(world.dials[dial], Opened(connection))
  }

  /** A dial is running exactly when the state is `Opening`, and then it is the
      one whose channel the state holds, the latest. */
  ghost predicate SingleFlight<C>(world: World<C>) {
    && (forall dial :: 0 <= dial < |world.dials| && world.dials[dial].Dialing? ==> world.state == Opening(dial))
    && (world.state.Opening? ==>
          world.state.channel == |world.dials| - 1 && world.dials[world.state.channel].Dialing?)
  }

  /** Whoever was told an outcome was told that of the dial it joined; whoever
      was handed a connection was handed one a dial opened. */
  ghost predicate Truthful<C>(world: World<C>) {
    && (world.state.Up? ==> Opens(world, world.state.connection))
    && forall caller :: 0 <= caller < |world.callers| ==> Told(world, world.callers[caller])
  }

  ghost predicate Told<C>(world: World<C>, caller: Caller<C>) {
    match caller
    case Served(connection) => Opens(world, connection)
    case Waiting(channel) => channel < |world.dials|
    case GaveUp(channel) => channel < |world.dials|
    case Got(channel, outcome) => channel < |world.dials| && world.dials[channel] == Reported(outcome)
  }

  ghost predicate Inv<C>(world: World<C>) {
    SingleFlight(world) && Truthful(world)
  }

  /** How dials may move: on, never back, and keeping their outcome. */
  ghost predicate Moved<C>(before: seq<Dial<C>>, after: seq<Dial<C>>) {
    && |before| <= |after|
    && forall dial :: 0 <= dial < |before| && !before[dial].Dialing? ==>
         HasOutcome(after[dial], before[dial].outcome) && (before[dial].Reported? ==> after[dial].Reported?)
  }

  /** How callers may move: a waiting one gives up or hears from its channel. */
  ghost predicate Followed<C>(before: Caller<C>, after: Caller<C>) {
    || after == before
    || (before.Waiting? && (after.GaveUp? || after.Got?) && after.channel == before.channel)
  }

  ghost predicate AllFollowed<C>(before: seq<Caller<C>>, after: seq<Caller<C>>) {
    |before| <= |after| && forall caller :: 0 <= caller < |before| ==> Followed(before[caller], after[caller])
  }

  lemma {:induction false} OpensKept<C>(before: World<C>, after: World<C>, connection: C)
    requires Moved(before.dials, after.dials) && Opens(before, connection)
    ensures Opens(after, connection)
  {
    var dial :| 0 <= dial < |before.dials| && HasOutcome(before.dials[dial], Opened(connection));
    assert HasOutcome(after.dials[dial], Opened(connection));
  }

  lemma {:induction false} ToldKept<C>(before: World<C>, after: World<C>, caller: Caller<C>)
    requires Moved(before.dials, after.dials) && Told(before, caller)
    ensures Told(after, caller)
  {
    if caller.Served? {
      OpensKept(before, after, caller.connection);
    }
  }

  /** No dial overwrites another's connection or another's attempt: the state a
      finishing dial replaces is its own `Opening`. */
  lemma {:induction false} OverwritesOnlyItself<C>(world: World<C>, dial: nat)
    requires Inv(world) && dial < |world.dials| && world.dials[dial].Dialing?
    ensures world.state == Opening(dial) && dial == |world.dials| - 1
    ensures forall other :: 0 <= other < |world.dials| && other != dial ==> !world.dials[other].Dialing?
  {
  }

  lemma {:induction false} EnterKeeps<C>(world: World<C>, alive: bool)
    requires Inv(world)
    ensures Inv(Enter(world, alive)) && Moved(world.dials, Enter(world, alive).dials)
  {
    var after := Enter(world, alive);
    assert Moved(world.dials, after.dials);
    if after.state.Up? {
      OpensKept(world, after, after.state.connection);
    }
    forall caller | 0 <= caller < |after.callers|
      ensures Told(after, after.callers[caller])
    {
      if caller < |world.callers| {
        ToldKept(world, after, world.callers[caller]);
      }
    }
  }

  lemma {:induction false} FinishKeeps<C>(world: World<C>, dial: nat, outcome: Outcome<C>)
    requires Inv(world) && dial < |world.dials| && world.dials[dial].Dialing?
    ensures Inv(Finish(world, dial, outcome)) && Moved(world.dials, Finish(world, dial, outcome).dials)
  {
    var after := Finish(world, dial, outcome);
    assert Moved(world.dials, after.dials);
    if after.state.Up? {
      assert HasOutcome(after.dials[dial], Opened(after.state.connection));
    }
    forall caller | 0 <= caller < |after.callers|
      ensures Told(after, after.callers[caller])
    {
      ToldKept(world, after, world.callers[caller]);
    }
  }

  lemma {:induction false} ReportKeeps<C>(world: World<C>, dial: nat)
    requires Inv(world) && dial < |world.dials| && world.dials[dial].Wrote?
    ensures Inv(Report(world, dial)) && Moved(world.dials, Report(world, dial).dials)
  {
    var after := Report(world, dial);
    assert Moved(world.dials, after.dials);
    if after.state.Up? {
      OpensKept(world, after, after.state.connection);
    }
    forall caller | 0 <= caller < |after.callers|
      ensures Told(after, after.callers[caller])
    {
      ToldKept(world, after, world.callers[caller]);
    }
  }

  /** Only a caller's own entry changes when it wakes or gives up. */
  lemma {:induction false} CallerKeeps<C>(world: World<C>, caller: nat, entry: Caller<C>)
    requires Inv(world) && caller < |world.callers| && Told(world, entry)
    ensures Inv(world.(callers := world.callers[caller := entry]))
  {
    var after := world.(callers := world.callers[caller := entry]);
    assert Moved(world.dials, after.dials);
    if after.state.Up? {
      OpensKept(world, after, after.state.connection);
    }
    forall other | 0 <= other < |after.callers|
      ensures Told(after, after.callers[other])
    {
      ToldKept(world, after, if other == caller then entry else world.callers[other]);
    }
  }

  lemma {:induction false} StepKeeps<C(!new)>(before: World<C>, after: World<C>)
    requires Inv(before) && Step(before, after)
    ensures Inv(after) && Moved(before.dials, after.dials) && AllFollowed(before.callers, after.callers)
  {
    if after == Enter(before, true) {
      EnterKeeps(before, true);
    } else if after == Enter(before, false) {
      EnterKeeps(before, false);
    } else if Finishes(before, after) {
      var dial: nat, outcome :|
        dial < |before.dials| && before.dials[dial].Dialing? && after == Finish(before, dial, outcome);
      FinishKeeps(before, dial, outcome);
    } else if Reports(before, after) {
      var dial: nat :| dial < |before.dials| && before.dials[dial].Wrote? && after == Report(before, dial);
      ReportKeeps(before, dial);
    } else if Wakes(before, after) {
      var caller: nat :| CanWake(before, caller) && after == Wake(before, caller);
      CallerKeeps(before, caller, after.callers[caller]);
    } else {
      var caller: nat :|
        caller < |before.callers| && before.callers[caller].Waiting? && after == Cancel(before, caller);
      CallerKeeps(before, caller, after.callers[caller]);
    }
  }

  // ------------------------------------------------------------ whole runs

  ghost predicate Run<C(!new)>(trace: seq<World<C>>) {
    && trace != [] && trace[0] == Start()
    && forall i :: 0 <= i < |trace| - 1 ==> Step(trace[i], trace[i + 1])
  }

  /** In every state of every run, a dial is running exactly when the state says
      `Opening`, and everyone has been told the truth. */
  lemma {:induction false} RunKeeps<C(!new)>(trace: seq<World<C>>, i: nat)
    requires Run(trace) && i < |trace|
    ensures Inv(trace[i])
    decreases i
  {
    if i > 0 {
      RunKeeps(trace, i - 1);
      assert Step(trace[i - 1], trace[i - 1 + 1]);
      StepKeeps(trace[i - 1], trace[i]);
    }
  }

  /** Dials never lose an outcome, however much later. */
  lemma {:induction false} RunMoves<C(!new)>(trace: seq<World<C>>, i: nat, j: nat)
    requires Run(trace) && i <= j < |trace|
    ensures Moved(trace[i].dials, trace[j].dials) && AllFollowed(trace[i].callers, trace[j].callers)
    decreases j
  {
    if i < j {
      RunMoves(trace, i, j - 1);
      RunKeeps(trace, j - 1);
      assert Step(trace[j - 1], trace[j - 1 + 1]);
      StepKeeps(trace[j - 1], trace[j]);
    }
  }

  /** Whoever joined a dial hears that dial's outcome and no other, whether the
      dial wrote the state before or after the caller is looked at, and even if
      a later dial has written the state since. */
  lemma {:induction false} WaiterHearsItsDial<C(!new)>(trace: seq<World<C>>, i: nat, j: nat, k: nat, caller: nat)
    requires Run(trace) && i <= j < |trace| && k < |trace|
    requires caller < |trace[i].callers| && trace[i].callers[caller].Waiting?
    ensures caller < |trace[j].callers|
    ensures var channel := trace[i].callers[caller].channel;
            match trace[j].callers[caller]
            case Served(_) => false
            case Waiting(same) => same == channel
            case GaveUp(same) => same == channel
            case Got(same, outcome) =>
              same == channel && (channel < |trace[k].dials| && !trace[k].dials[channel].Dialing? ==>
                                    trace[k].dials[channel].outcome == outcome)
  {
    RunMoves(trace, i, j);
    RunKeeps(trace, j);
    assert Followed(trace[i].callers[caller], trace[j].callers[caller]);
    assert Told(trace[j], trace[j].callers[caller]);
    if k <= j {
      RunMoves(trace, k, j);
    } else {
      RunMoves(trace, j, k);
    }
  }

  /** No two dials overlap: while one runs no other is spawned, and all before
      it have written their outcome. */
  lemma {:induction false} DialsNeverOverlap<C(!new)>(trace: seq<World<C>>, i: nat, first: nat, second: nat)
    requires Run(trace) && i < |trace| && first < second < |trace[i].dials|
    ensures !trace[i].dials[first].Dialing?
    ensures trace[i].state.Opening? && i + 1 < |trace| ==> |trace[i + 1].dials| == |trace[i].dials|
  {
    RunKeeps(trace, i);
    if i + 1 < |trace| {
      assert Step(trace[i], trace[i + 1]);
    }
  }

  /** How many steps of its dial and itself a caller is from its answer. */
  function Distance<C>(world: World<C>, caller: nat): nat
    requires caller < |world.callers|
  {
    match world.callers[caller]
    case Waiting(channel) =>
      if channel >= |world.dials| || world.dials[channel].Dialing? then 3
      else if world.dials[channel].Wrote? then 2
      else 1
    case Served(_) => 0
    case Got(_, _) => 0
    case GaveUp(_) => 0
  }

  /** No waiter is ever stuck: its dial, or it, always has a step to take that
      brings the answer nearer, in the gap between write and report as well. */
  lemma {:induction false} WaiterAdvances<C(!new)>(world: World<C>, caller: nat, outcome: Outcome<C>) returns (after: World<C>)
    requires Inv(world) && caller < |world.callers| && world.callers[caller].Waiting?
    ensures Step(world, after) && caller < |after.callers| && Distance(after, caller) < Distance(world, caller)
  {
    var channel := world.callers[caller].channel;
    assert Told(world, world.callers[caller]);
    match world.dials[channel]
    case Dialing =>
      after := Finish(world, channel, outcome);
      assert Finishes(world, after);
    case Wrote(_) =>
      after := Report(world, channel);
      assert Reports(world, after);
    case Reported(_) =>
      assert CanWake(world, caller);
      after := Wake(world, caller);
      assert Wakes(world, after);
  }

  // ------------------------------------------------------------ the object

  /** The guarded cell, the spawned dials and the callers in flight. */
  class Live<C(!new)> {
    var state: State<C>
    var dials: seq<Dial<C>>
    var callers: seq<Caller<C>>

    ghost function View(): World<C>
      reads this
    {
      World(state, dials, callers)
    }

    constructor ()
      ensures View() == Start() && Inv(View())
    {
      state, dials, callers := Down, [], [];
    }

    /** Reads the state and starts nothing. */
    method Peek() returns (connection: Option<C>)
      requires Inv(View())
      ensures connection.Some? <==> state.Up?
      ensures connection.Some? ==> Opens(View(), connection.value)
    {
      match state
      case Up(up) =>
        return Some(up);
      case Opening(_) =>
        return None;
      case Down =>
        return None;
    }

    /** `get` up to its wait: which caller it became. */
    method Get(alive: C -> bool) returns (caller: nat)
      requires Inv(View())
      modifies this
      ensures Inv(View()) && Step(old(View()), View())
      ensures caller == |old(callers)| && |callers| == caller + 1
      ensures callers[caller].Waiting? ==> state == Opening(callers[caller].channel)
      ensures |dials| > |old(dials)| <==> old(state).Down? || (old(state).Up? && !alive(old(state).connection))
    {
      caller := |callers|;
      EnterKeeps(View(), state.Up? && alive(state.connection));
      if state.Up? && alive(state.connection) {
        callers := callers + [Served(state.connection)];
        return;
      }
      if state.Opening? {
        callers := callers + [Waiting(state.channel)];
        return;
      }
      var channel := |dials|;
      state := Opening(channel);
      dials := dials + [Dialing];
      callers := callers + [Waiting(channel)];
    }

    /** A dial's end: the state is written first, the report comes as a later step. */
    method WriteState(dial: nat, outcome: Outcome<C>)
      requires Inv(View()) && dial < |dials| && dials[dial].Dialing?
      modifies this
      ensures Inv(View()) && Step(old(View()), View())
      ensures old(state) == Opening(dial)
      ensures outcome.Refused? ==> state == Down
      ensures outcome.Opened? ==> state == Up(outcome.connection)
    {
      FinishKeeps(View(), dial, outcome);
      ghost var before := View();
      match outcome {
        case Opened(connection) => state := Up(connection);
        case Refused(_) => state := Down;
      }
      dials := dials[dial := Wrote(outcome)];
      assert View() == Finish(before, dial, outcome);
      assert Finishes(before, View());
    }

    method SendReport(dial: nat)
      requires Inv(View()) && dial < |dials| && dials[dial].Wrote?
      modifies `dials
      ensures Inv(View()) && Step(old(View()), View())
      ensures dials[dial] == Reported(old(dials)[dial].outcome)
    {
      ReportKeeps(View(), dial);
      ghost var before := View();
      dials := dials[dial := Reported(dials[dial].outcome)];
      assert View() == Report(before, dial);
      assert Reports(before, View());
    }

    /** The rest of `get`: the outcome of the dial the caller joined. */
    method Await(caller: nat) returns (outcome: Option<Outcome<C>>)
      requires Inv(View()) && caller < |callers| && callers[caller].Waiting?
      modifies `callers
      ensures Inv(View())
      ensures outcome.Some? <==> dials[old(callers)[caller].channel].Reported?
      ensures outcome.Some? ==> Step(old(View()), View())
                                && dials[old(callers)[caller].channel].outcome == outcome.value
      ensures outcome.None? ==> View() == old(View())
    {
      assert Told(View(), callers[caller]);
      var channel := callers[caller].channel;
      if !dials[channel].Reported? {
        return None;
      }
      outcome := Some(dials[channel].outcome);
      ghost var before := View();
      assert CanWake(before, caller);
      CallerKeeps(before, caller, Got(channel, outcome.value));
      callers := callers[caller := Got(channel, outcome.value)];
      assert View() == Wake(before, caller);
      assert Wakes(before, View());
    }
  }
}
