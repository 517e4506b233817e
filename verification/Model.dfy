/** The standard model: its lifecycle, its step loop over a scheduler and an event queue, and runs. */
module Model {
  import opened Prelude
  import opened Scheduler
  import P = PriorityScheduler
  import Q = EventQueue

  // ---------------------------------------------------------------------------------------
  // The scheduler behind the model

  /** The schedulers whose step comes to an end by itself. */
  datatype AnyScheduler = ByCursor(cursor: CursorScheduler) | ByPriority(priority: P.PriorityScheduler)
  {
    ghost function Repr(): set<object> {
      match this
      case ByCursor(c) => {c}
      case ByPriority(p) => {p}
    }

    ghost predicate Valid()
      reads Repr()
    {
      match this
      case ByCursor(c) => c.Valid()
      case ByPriority(p) => p.Valid()
    }

    ghost function Registered(): set<AgentId>
      reads Repr()
    {
      match this
      case ByCursor(c) => Elements(c.agents)
      case ByPriority(p) => p.priorities.Keys
    }

    /** The agents still to be handed out in this step. */
    ghost function Left(): seq<AgentId>
      requires Valid()
      reads Repr()
    {
      match this
      case ByCursor(c) => c.agents[c.currentIndex..]
      case ByPriority(p) => P.AgentsOf(p.queue)
    }

    /** A cursor's list and generator, which decide all later orders. */
    ghost function Source(): Cursor
      requires ByCursor?
      reads Repr()
    {
      cursor.State().(index := 0)
    }

    method Initialize(ids: seq<AgentId>)
      requires Valid() && NoDup(ids)
      modifies Repr()
      ensures Valid() && Registered() == Elements(ids)
      ensures ByCursor? ==> Source() == Restarted(Cursor(ids, 0, old(cursor.rng)), cursor.kind, cursor.shuffle)
    {
      match this {
        case ByCursor(c) =>
          c.Initialize(ids);
          SameElements(c.agents, ids);
        case ByPriority(p) => p.Initialize(ids);
      }
    }

    method Add(id: AgentId)
      requires Valid()
      modifies Repr()
      ensures Valid() && Registered() == old(Registered()) + {id}
      ensures ByCursor? ==> cursor.rng == old(cursor.rng)
    {
      match this {
        case ByCursor(c) => c.Add(id);
        case ByPriority(p) => p.Add(id);
      }
    }

    method Remove(id: AgentId)
      requires Valid()
      modifies Repr()
      ensures Valid() && Registered() == old(Registered()) - {id}
      ensures ByCursor? ==> cursor.rng == old(cursor.rng)
    {
      match this {
        case ByCursor(c) =>
          ghost var before := c.State();
          c.Remove(id);
          forall a: AgentId ensures a in c.agents <==> a in before.agents && a != id { RemovedStays(before, id, a); }
        case ByPriority(p) => p.Remove(id);
      }
    }

    method ResetStep()
      requires Valid()
      modifies Repr()
      ensures Valid() && Registered() == old(Registered())
      ensures NoDup(Left()) && Elements(Left()) == Registered()
      ensures ByCursor? ==>
                Source() == Restarted(old(Source()), cursor.kind, cursor.shuffle) && Left() == Source().agents
    {
      match this {
        case ByCursor(c) =>
          ghost var before := c.agents;
          c.ResetStep();
          SameElements(c.agents, before);
        case ByPriority(p) => p.ResetStep();
      }
    }

    predicate HasNext()
      reads Repr()
      ensures Valid() ==> (HasNext() <==> Left() != [])
    {
      match this
      case ByCursor(c) => c.HasNext()
      case ByPriority(p) => p.HasNext()
    }

    method Next() returns (batch: seq<AgentId>)
      requires Valid()
      modifies Repr()
      ensures Valid() && Registered() == old(Registered())
      ensures P.Split(old(Left()), batch, Left())
      ensures old(HasNext()) ==> batch != []
      ensures ByCursor? ==> old(Left()) == batch + Left() && Source() == old(Source())
    {
      match this {
        case ByCursor(c) => batch := c.Next();
        case ByPriority(p) => ghost var i; batch, i := p.Next();
      }
    }
  }

  lemma SameElements(a: seq<AgentId>, b: seq<AgentId>)
    requires multiset(a) == multiset(b)
    ensures Elements(a) == Elements(b)
  {
    assert forall x: AgentId :: x in a <==> x in multiset(a);
    assert forall x: AgentId :: x in b <==> x in multiset(b);
  }

  // ---------------------------------------------------------------------------------------
  // The sorted id list

  ghost predicate Ascending(ids: seq<AgentId>) {
    forall i, j :: 0 <= i < j < |ids| ==> ids[i] < ids[j]
  }

  predicate IsGreatest(s: set<AgentId>, m: AgentId) {
    m in s && forall x: AgentId :: x in s ==> x <= m
  }

  lemma {:induction false} GreatestAgent(s: set<AgentId>) returns (m: AgentId)
    requires s != {}
    ensures IsGreatest(s, m)
    decreases |s|
  {
    var n :| n in s;
    m := n;
    if s - {n} != {} {
      var k := GreatestAgent(s - {n});
      if k > n { m := k; }
      assert forall x: AgentId :: x in s ==> x == n || x in s - {n};
    } else {
      assert forall x: AgentId :: x in s ==> x == n || x in s - {n};
    }
  }

  lemma AscendingLast(a: seq<AgentId>)
    requires Ascending(a) && a != []
    ensures var m := |a| - 1;
            && Ascending(a[..m]) && Elements(a[..m]) == Elements(a) - {a[m]}
            && a[m] in Elements(a) && forall x: AgentId :: x in Elements(a) ==> x <= a[m]
  {
    assert a == a[..|a| - 1] + [a[|a| - 1]];
  }

  /** An ascending list is determined by its elements. */
  lemma {:induction false} AscendingUnique(a: seq<AgentId>, b: seq<AgentId>)
    requires Ascending(a) && Ascending(b) && Elements(a) == Elements(b)
    ensures a == b
    decreases |a|
  {
    assert a != [] ==> a[0] in Elements(a);
    assert b != [] ==> b[0] in Elements(b);
    if a != [] && b != [] {
      hide Elements, Ascending;
      var m, n := |a| - 1, |b| - 1;
      AscendingLast(a);
      AscendingLast(b);
      AscendingUnique(a[..m], b[..n]);
      assert a == a[..m] + [a[m]] && b == b[..n] + [b[n]];
    }
  }

  ghost predicate AllBelow(s: set<AgentId>, ids: seq<AgentId>) {
    forall x: AgentId, y: AgentId :: x in s && y in ids ==> x < y
  }

  lemma AscendingCons(s: set<AgentId>, m: AgentId, a: seq<AgentId>)
    requires Ascending(a) && AllBelow(s, a) && IsGreatest(s, m)
    ensures Ascending([m] + a) && Elements([m] + a) == Elements(a) + {m} && AllBelow(s - {m}, [m] + a)
  {
    assert forall i :: 0 <= i < |a| ==> a[i] in a;
  }

  /** `agent_ids`: the ids of the set in ascending order, whatever order they were added in. */
  method SortedIds(agents: set<AgentId>) returns (ids: seq<AgentId>)
    ensures Ascending(ids) && Elements(ids) == agents
  {
    ids := [];
    var rest := agents;
    while rest != {}
      invariant rest <= agents && Ascending(ids) && Elements(ids) == agents - rest
      invariant AllBelow(rest, ids)
      decreases |rest|
    {
      hide Ascending, Elements, IsGreatest, AllBelow;
      ghost var k := GreatestAgent(rest);
      var m: AgentId :| m in rest && IsGreatest(rest, m);
      AscendingCons(rest, m, ids);
      ids := [m] + ids;
      rest := rest - {m};
    }
  }

  // ---------------------------------------------------------------------------------------
  // Traces

  datatype Activation = Activation(agent: AgentId, at: real)

  /** Which agents' steps succeed, tick by tick. */
  type Outcomes = (nat, AgentId) -> bool

  function Stamped(order: seq<AgentId>, at: real): seq<Activation> {
    seq(|order|, i requires 0 <= i < |order| => Activation(order[i], at))
  }

  lemma StampedConcat(a: seq<AgentId>, b: seq<AgentId>, at: real)
    ensures Stamped(a + b, at) == Stamped(a, at) + Stamped(b, at)
  {
  }

  lemma StampedNothing(at: real)
    ensures Stamped([], at) == []
  {
  }

  /** The time of the `n`-th tick after `t`. */
  function TickTime(t: real, dt: real, n: nat): real {
    t + n as real * dt
  }

  lemma TickTimeNext(t: real, dt: real, n: nat)
    ensures TickTime(t, dt, n + 1) == TickTime(t, dt, n) + dt
    ensures TickTime(t, dt, 0) == t
  {
  }

  /** The activations of successive ticks, each with its own order of agents. */
  function Ticks(orders: seq<seq<AgentId>>, t: real, dt: real): seq<Activation> {
    if orders == [] then []
    else
      var n := |orders| - 1;
      Ticks(orders[..n], t, dt) + Stamped(orders[n], TickTime(t, dt, n))
  }

  lemma NoTicks(t: real, dt: real, agents: set<AgentId>)
    ensures Ticks([], t, dt) == [] && EachOncePerTick([], agents) && TickTime(t, dt, 0) == t
  {
  }

  /** Every agent runs exactly once in every tick. */
  ghost predicate EachOncePerTick(orders: seq<seq<AgentId>>, agents: set<AgentId>) {
    forall i :: 0 <= i < |orders| ==> NoDup(orders[i]) && Elements(orders[i]) == agents
  }

  lemma TicksGrow(orders: seq<seq<AgentId>>, order: seq<AgentId>, t: real, dt: real, agents: set<AgentId>)
    requires EachOncePerTick(orders, agents) && NoDup(order) && Elements(order) == agents
    ensures Ticks(orders + [order], t, dt) == Ticks(orders, t, dt) + Stamped(order, TickTime(t, dt, |orders|))
    ensures EachOncePerTick(orders + [order], agents)
    ensures TickTime(t, dt, |orders + [order]|) == TickTime(t, dt, |orders|) + dt
  {
    assert (orders + [order])[..|orders|] == orders;
    TickTimeNext(t, dt, |orders|);
  }

  const IDENTITY: Shuffle := (s, g) => (s, g)

  function TickOutcome(outcome: Outcomes, tick: nat): AgentId -> bool {
    (a: AgentId) => outcome(tick, a)
  }

  /** The part of an order that is run: up to and including the first agent that fails. */
  function UntilFailure(order: seq<AgentId>, ok: AgentId -> bool): (r: seq<AgentId>)
    ensures r <= order
  {
    if order == [] then []
    else if !ok(order[0]) then order[..1]
    else [order[0]] + UntilFailure(order[1..], ok)
  }

  predicate AllOk(order: seq<AgentId>, ok: AgentId -> bool) {
    forall i :: 0 <= i < |order| ==> ok(order[i])
  }

  /** The scheduler's list and generator after `n` ticks. */
  function AfterTicks(c: Cursor, kind: Kind, shuffle: Shuffle, n: nat): Cursor {
    if n == 0 then c else Restarted(AfterTicks(c, kind, shuffle, n - 1), kind, shuffle)
  }

  /** What a run of `ticks` ticks over a cursor scheduler activates, as a function of the list and
      generator the scheduler starts from. */
  function CursorTrace(c: Cursor, kind: Kind, shuffle: Shuffle, t: real, dt: real, ticks: nat, outcome: Outcomes,
                       tick: nat): seq<Activation>
    decreases ticks
  {
    if ticks == 0 then []
    else
      var d := Restarted(c, kind, shuffle);
      var ok := TickOutcome(outcome, tick);
      Stamped(UntilFailure(d.agents, ok), t) +
      if AllOk(d.agents, ok) then CursorTrace(d, kind, shuffle, t + dt, dt, ticks - 1, outcome, tick + 1) else []
  }

  // ---------------------------------------------------------------------------------------
  // How many ticks

  function Ceil(x: real): int {
    -((-x).Floor)
  }

  /** How many steps of `dt` are needed to cover `x`. */
  function StepsToCover(x: real, dt: real): (n: int)
    requires dt > 0.0
  {
    Ceil(x / dt)
  }

  /** The number of steps is the least that reaches the goal. */
  lemma StepsAreLeast(x: real, dt: real, n: int)
    requires dt > 0.0
    ensures x <= n as real * dt <==> StepsToCover(x, dt) <= n
  {
    var q := x / dt;
    assert q * dt == x;
    ScaleCompare(q, n as real, dt);
  }

  function Earlier(a: real, b: real): real {
    if a < b then a else b
  }

  /** Ticks of a run that starts at `t`: the loop makes at least one step when `t` lies before the
      target, and ends at the target or when a step passes the end of the model. */
  function RunTicks(t: real, target: real, end: real, dt: real): (n: nat)
    requires dt > 0.0
  {
    if t >= target then 0
    else
      var n := StepsToCover(Earlier(target, end) - t, dt);
      if n < 1 then 1 else n
  }

  lemma RunContinues(t: real, target: real, end: real, dt: real, n: nat)
    requires dt > 0.0
    ensures n < RunTicks(t, target, end, dt) <==>
      t < target && (n == 0 || (TickTime(t, dt, n) < target && TickTime(t, dt, n) < end))
  {
    StepsAreLeast(Earlier(target, end) - t, dt, n);
  }

  // ---------------------------------------------------------------------------------------
  // The model

  datatype ModelState = Created | Initialized | Running | Paused | Completed

  datatype Config = Config(start: real, end: real, dt: real, maxAgents: Option<nat>)

  datatype ModelError = ExecutionFailed | ResourceExhausted | AgentFailed(id: AgentId)

  class StandardModel {
    const config: Config
    const scheduler: AnyScheduler
    const events: Q.EventQueue
    var state: ModelState
    var currentTime: real
    var stepCount: nat
    var agents: set<AgentId>
    ghost var trace: seq<Activation>  // every agent step ever started

    ghost predicate Valid()
      reads this, scheduler.Repr(), events
    {
      && config.dt > 0.0
      && this !in scheduler.Repr() && (events as object) !in scheduler.Repr()
      && scheduler.Valid() && events.Valid()
      && scheduler.Registered() == agents
      && (state.Initialized? || state.Running? || state.Paused? ==> events.now == currentTime)
      && (state.Created? ==> stepCount == 0)
    }

    predicate CanStep()
      reads this
    {
      state.Initialized? || state.Running?
    }

    constructor (config: Config, kind: Kind, shuffle: Shuffle, seed: Rng)
      requires config.dt > 0.0 && Permutes(shuffle)
      ensures Valid() && fresh(scheduler.Repr()) && fresh(events)
      ensures this.config == config && state == Created && agents == {} && trace == [] && stepCount == 0
      ensures scheduler.ByCursor? && scheduler.cursor.kind == kind && scheduler.cursor.shuffle == shuffle
      ensures scheduler.cursor.rng == seed && events.heap == []
    {
      this.config := config;
      var cursor := new CursorScheduler(kind, shuffle, seed);
      scheduler := ByCursor(cursor);
      events := new Q.EventQueue();
      state, currentTime, stepCount, agents, trace := Created, 0.0, 0, {}, [];
    }

    constructor WithPriorities(config: Config)
      requires config.dt > 0.0
      ensures Valid() && fresh(scheduler.Repr()) && fresh(events)
      ensures this.config == config && state == Created && agents == {} && trace == [] && stepCount == 0
      ensures scheduler.ByPriority? && events.heap == []
    {
      this.config := config;
      var priority := new P.PriorityScheduler();
      scheduler := ByPriority(priority);
      events := new Q.EventQueue();
      state, currentTime, stepCount, agents, trace := Created, 0.0, 0, {}, [];
    }

    /** Allowed once. The scheduler is filled from the sorted id list; `agentsReady` says whether
        the agents' own initialisation succeeded. */
    method Initialize(agentsReady: bool) returns (r: Result<(), ModelError>)
      requires Valid()
      modifies this`state, this`currentTime, scheduler.Repr(), events
      ensures Valid()
      ensures r.Ok? <==> old(state) == Created && agentsReady
      ensures old(state) != Created ==> state == old(state) && currentTime == old(currentTime)
      ensures old(state) == Created ==> currentTime == config.start
      ensures old(state) == Created && !agentsReady ==> state == Created
      ensures r.Err? ==> unchanged(scheduler.Repr()) && unchanged(events)
      ensures r.Ok? ==> state == Initialized
      ensures r.Ok? ==> multiset(events.heap) == Q.Total(old(events.heap), Q.UnexpiredAt(config.start))
      ensures r.Ok? && scheduler.ByCursor? ==>
                exists ids: seq<AgentId> :: Ascending(ids) && Elements(ids) == agents
                  && scheduler.Source() == Restarted(Cursor(ids, 0, old(scheduler.cursor.rng)),
                                               scheduler.cursor.kind, scheduler.cursor.shuffle)
    {
      if state != Created {
        return Err(ExecutionFailed);
      }
      currentTime := config.start;
      if !agentsReady {
        return Err(ExecutionFailed);
      }
      var ids := SortedIds(agents);
      scheduler.Initialize(ids);
      events.SetCurrentTime(currentTime);
      state := Initialized;
      r := Ok(());
    }

    /** Steps the agents of a batch one after another, up to the first failure. */
    method RunBatch(batch: seq<AgentId>, ok: AgentId -> bool)
      returns (r: Result<(), ModelError>, ghost done: seq<AgentId>)
      requires forall a: AgentId :: a in batch ==> a in agents
      modifies this`trace
      ensures trace == old(trace) + Stamped(done, currentTime)
      ensures done <= batch && StopsWell(done, ok, r)
      ensures r.Ok? ==> done == batch
    {
      done := [];
      for j := 0 to |batch|
        invariant done == batch[..j] && StopsWell(done, ok, FINE)
        invariant trace == old(trace) + Stamped(done, currentTime)
      {
        var id := batch[j];
        if id in agents {
          trace := trace + [Activation(id, currentTime)];
          StampedConcat(done, [id], currentTime);
          assert Stamped([id], currentTime) == [Activation(id, currentTime)];
          done := done + [id];
          if !ok(id) {
            return Err(AgentFailed(id)), done;
          }
        }
      }
      r := Ok(());
    }

    /** In the middle of a step: `all` was to be run, `order` was. */
    ghost predicate MidStep(all: seq<AgentId>, order: seq<AgentId>, ok: AgentId -> bool)
      reads this, scheduler.Repr(), events
    {
      && Valid() && Elements(all) == agents
      && P.Split(all, order, scheduler.Left()) && StopsWell(order, ok, FINE)
      && (scheduler.ByCursor? ==> all == order + scheduler.Left())
    }

    /** Asks the scheduler for a batch and runs it. */
    method RunNextBatch(ok: AgentId -> bool, ghost all: seq<AgentId>, ghost order: seq<AgentId>)
      returns (r: Result<(), ModelError>, ghost done: seq<AgentId>)
      requires MidStep(all, order, ok) && scheduler.HasNext()
      modifies scheduler.Repr(), this`trace
      ensures Valid() && trace == old(trace) + Stamped(done, currentTime)
      ensures r.Ok? ==> MidStep(all, order + done, ok) && |scheduler.Left()| < |old(scheduler.Left())|
      ensures StopsWell(order + done, ok, r) && Elements(order + done) <= agents
      ensures scheduler.ByCursor? ==> order + done <= all && scheduler.Source() == old(scheduler.Source())
    {
      hide NoDup, StopsWell, Elements, P.Split, Stamped, AnyScheduler.Valid, AnyScheduler.Left, Q.EventQueue.Valid;
      ghost var left := scheduler.Left();
      var batch := scheduler.Next();
      SplitAgain(all, order, left, batch, scheduler.Left());
      SplitPrefix(all, order + batch, scheduler.Left(), order + batch);
      InAll(order, batch, agents);
      r, done := RunBatch(batch, ok);
      StopsLater(order, done, ok, r);
      SplitPrefix(all, order + batch, scheduler.Left(), order + done);
      if scheduler.ByCursor? { CursorPrefix(all, order, left, batch, scheduler.Left(), done); }
    }

    /** Runs the agents in the order the scheduler dictates, stopping at the first failure. */
    method RunAgents(ok: AgentId -> bool) returns (r: Result<(), ModelError>, ghost order: seq<AgentId>)
      requires Valid() && NoDup(scheduler.Left()) && Elements(scheduler.Left()) == agents
      modifies scheduler.Repr(), this`trace
      ensures Valid()
      ensures trace == old(trace) + Stamped(order, currentTime)
      ensures StopsWell(order, ok, r) && Elements(order) <= agents
      ensures r.Ok? ==> NoDup(order) && Elements(order) == agents
      ensures scheduler.ByCursor? ==>
                && order <= old(scheduler.Left()) && (r.Ok? ==> order == old(scheduler.Left()))
                && scheduler.Source() == old(scheduler.Source())
    {
      hide NoDup, StopsWell, Elements, P.Split, AnyScheduler.Valid, Q.EventQueue.Valid, Stamped;
      ghost var all := scheduler.Left();
      order := [];
      NothingRun(ok);
      SplitFirst(all);
      StampedNothing(currentTime);
      while scheduler.HasNext()
        invariant MidStep(all, order, ok)
        invariant trace == old(trace) + Stamped(order, currentTime)
        invariant scheduler.ByCursor? ==> scheduler.Source() == old(scheduler.Source())
        decreases |scheduler.Left()|
      {
        var ran;
        ghost var done;
        ran, done := RunNextBatch(ok, all, order);
        StampedConcat(order, done, currentTime);
        order := order + done;
        if ran.Err? {
          return ran, order;
        }
      }
      SplitEnd(all, order);
      r := FINE;
    }

    /** The events due now are delivered. */
    method DeliverEvents()
      requires Valid() && CanStep() && !Q.HasUnlimited(events.heap, currentTime)
      modifies events
      ensures Valid() && multiset(events.heap) <= multiset(old(events.heap))
      ensures events.processed == old(events.processed) + |Q.Promise(old(events.heap), currentTime)|
    {
      hide Q.Promise, Q.HasUnlimited, Q.Later;
      var delivered := events.Drain();
      Drained(events.heap, old(events.heap), currentTime);
    }

    /** Moves the clock of the model and of its event queue. */
    method AdvanceClock()
      requires Valid() && state == Running
      modifies this`currentTime, this`stepCount, events
      ensures Valid() && currentTime == old(currentTime) + config.dt && stepCount == old(stepCount) + 1
      ensures multiset(events.heap) <= multiset(old(events.heap)) && events.processed == old(events.processed)
    {
      hide Q.Total;
      currentTime := currentTime + config.dt;
      stepCount := stepCount + 1;
      events.SetCurrentTime(currentTime);
      Shrunk(events.heap, old(events.heap), currentTime);
    }

    /** One tick. Events due are drained, every agent runs once, the clock moves by `dt`; the
        answer says whether the model should go on. A failing agent ends the tick half-way. */
    method Step(ok: AgentId -> bool) returns (r: Result<bool, ModelError>, ghost order: seq<AgentId>)
      requires Valid() && (CanStep() ==> !Q.HasUnlimited(events.heap, currentTime))
      modifies this`state, this`currentTime, this`stepCount, this`trace, scheduler.Repr(), events
      ensures Valid()
      ensures !old(CanStep()) ==>
                && r == (if old(state) == Paused || old(state) == Completed then Ok(false) else Err(ExecutionFailed))
                && state == old(state) && currentTime == old(currentTime) && stepCount == old(stepCount)
                && trace == old(trace) && unchanged(scheduler.Repr()) && unchanged(events)
      ensures old(CanStep()) ==>
                && trace == old(trace) + Stamped(order, old(currentTime))
                && multiset(events.heap) <= multiset(old(events.heap))
                && events.processed == old(events.processed) + |Q.Promise(old(events.heap), old(currentTime))|
      ensures old(CanStep()) && r.Ok? ==>
                && NoDup(order) && Elements(order) == agents
                && currentTime == old(currentTime) + config.dt && stepCount == old(stepCount) + 1
                && r.value == (currentTime < config.end)
                && state == (if currentTime < config.end then Running else Completed)
      ensures old(CanStep()) && r.Err? ==>
                && state == Running && currentTime == old(currentTime) && stepCount == old(stepCount)
      ensures old(CanStep()) ==> StopsWell(order, ok, r) && Elements(order) <= agents
      ensures old(CanStep()) && scheduler.ByCursor? ==>
                var next := Restarted(old(scheduler.Source()), scheduler.cursor.kind, scheduler.cursor.shuffle);
                && scheduler.Source() == next && order <= next.agents && (r.Ok? ==> order == next.agents)
    {
      hide StopsWell, NoDup, Elements, Stamped, Restarted, Q.Promise, Q.HasUnlimited, Q.EventQueue.Valid,
        CursorScheduler.Valid, P.PriorityScheduler.Valid;
      order := [];
      if state.Paused? || state.Completed? {
        return Ok(false), [];
      }
      if !CanStep() {
        return Err(ExecutionFailed), [];
      }
      DeliverEvents();
      state := Running;
      scheduler.ResetStep();
      var ran;
      ran, order := RunAgents(ok);
      if ran.Err? {
        StopsSame(order, ok, ran, Err(ran.error));
        return Err(ran.error), order;
      }
      AdvanceClock();
      StopsSame(order, ok, ran, Ok(currentTime < config.end));
      if currentTime < config.end {
        return Ok(true), order;
      }
      state := Completed;
      return Ok(false), order;
    }

    ghost function RunsTo(duration: Option<real>): real
      reads this
    {
      if duration.Some? then currentTime + duration.value else config.end
    }

    /** Ticks until the target time, until a step passes the end of the model, or until an agent
        fails. */
    method Run(duration: Option<real>, outcome: Outcomes)
      returns (r: Result<(), ModelError>, ghost orders: seq<seq<AgentId>>)
      requires Valid()
      requires CanStep() ==> TicksEnd(events.heap, currentTime, config.dt,
                 RunTicks(currentTime, RunsTo(duration), config.end, config.dt), agents, outcome, stepCount)
      modifies this`state, this`currentTime, this`stepCount, this`trace, scheduler.Repr(), events
      ensures Valid()
      ensures !old(CanStep()) ==> r.Ok? && orders == [] && trace == old(trace) && state == old(state)
      ensures EachOncePerTick(orders, agents)
      ensures currentTime == TickTime(old(currentTime), config.dt, |orders|) && stepCount == old(stepCount) + |orders|
      ensures r.Ok? ==> trace == old(trace) + Ticks(orders, old(currentTime), config.dt)
      ensures old(CanStep()) && r.Ok? ==>
                && |orders| == RunTicks(old(currentTime), old(RunsTo(duration)), config.end, config.dt)
                && state == (if orders == [] then old(state)
                             else if currentTime < config.end then Running else Completed)
      ensures r.Err? ==>
                && state == Running
                && exists a: AgentId :: r.error == AgentFailed(a) && a in agents && !outcome(stepCount, a)
      ensures old(CanStep()) && scheduler.ByCursor? ==>
                trace == old(trace) +
                  CursorTrace(old(scheduler.Source()), scheduler.cursor.kind, scheduler.cursor.shuffle,
                    old(currentTime), config.dt,
                    RunTicks(old(currentTime), old(RunsTo(duration)), config.end, config.dt), outcome, old(stepCount))
      ensures scheduler.ByCursor? && r.Ok? ==>
                scheduler.Source() == AfterTicks(old(scheduler.Source()), scheduler.cursor.kind,
                    scheduler.cursor.shuffle, |orders|)
    {
      hide EachOncePerTick, Ticks, Stamped, CursorTrace, StopsWell, TicksEnd, Reaches, RunTicks, TickTime, NoDup,
        Elements, Restarted, AnyScheduler.Valid, Q.EventQueue.Valid, Q.HasUnlimited, Q.Promise;
      var target := if duration.Some? then currentTime + duration.value else config.end;
      ghost var t0, goal := currentTime, RunTicks(currentTime, target, config.end, config.dt);
      ghost var kind, shuffle := Sequential, IDENTITY;
      ghost var first := Cursor([], 0, 0);
      if scheduler.ByCursor? {
        kind, shuffle, first := scheduler.cursor.kind, scheduler.cursor.shuffle, scheduler.Source();
      }
      ghost var source := first;
      orders := [];
      NoTicks(t0, config.dt, agents);
      assert Reaches(agents, outcome, stepCount, 0) by { ReachesFirst(agents, outcome, stepCount); }
      RunContinues(t0, target, config.end, config.dt, 0);
      while currentTime < target && CanStep()
        invariant Valid() && multiset(events.heap) <= multiset(old(events.heap))
        invariant Reaches(agents, outcome, old(stepCount), |orders|)
        invariant currentTime == TickTime(t0, config.dt, |orders|) && stepCount == old(stepCount) + |orders|
        invariant trace == old(trace) + Ticks(orders, t0, config.dt) && EachOncePerTick(orders, agents)
        invariant state == (if orders == [] then old(state)
                            else if currentTime < config.end then Running else Completed)
        invariant old(CanStep()) ==> |orders| <= goal && (|orders| < goal <==> currentTime < target && CanStep())
        invariant !old(CanStep()) ==> orders == []
        invariant scheduler.ByCursor? ==> scheduler.Source() == source == AfterTicks(first, kind, shuffle, |orders|)
        invariant old(CanStep()) && scheduler.ByCursor? ==>
                    trace + CursorTrace(source, kind, shuffle, currentTime, config.dt, goal - |orders|, outcome,
                        stepCount)
                    == old(trace) + CursorTrace(first, kind, shuffle, t0, config.dt, goal, outcome, old(stepCount))
        decreases goal - |orders|
      {
        TickEnds(old(events.heap), t0, config.dt, goal, agents, outcome, old(stepCount), |orders|, events.heap);
        ghost var at, tick := currentTime, stepCount;
        var answer;
        ghost var order;
        answer, order := Step(TickOutcome(outcome, stepCount));
        if scheduler.ByCursor? {
          CursorTraceStep(source, kind, shuffle, at, config.dt, goal - |orders|, outcome, tick, order, answer);
          source := Restarted(source, kind, shuffle);
        }
        if answer.Err? {
          WhoFailed(order, outcome, tick, answer, agents);
          return Err(answer.error), orders;
        }
        ReachesNext(agents, outcome, old(stepCount), |orders|, order, answer);
        TicksGrow(orders, order, t0, config.dt, agents);
        orders := orders + [order];
        RunContinues(t0, target, config.end, config.dt, |orders|);
      }
      CursorTraceEnds(source, kind, shuffle, currentTime, config.dt, outcome, stepCount);
      assert trace + [] == trace;
      r := FINE;
    }

    method Pause()
      requires Valid()
      modifies this`state
      ensures Valid() && state == if old(state) == Running then Paused else old(state)
    {
      if state == Running { state := Paused; }
    }

    method Resume()
      requires Valid()
      modifies this`state
      ensures Valid() && state == if old(state) == Paused then Running else old(state)
    {
      if state == Paused { state := Running; }
    }

    method Stop()
      requires Valid()
      modifies this`state
      ensures Valid() && state == Completed
    {
      state := Completed;
    }

    /** Back to the created state. Agents stay, and so does the generator of the scheduler. */
    method Reset()
      requires Valid()
      modifies this`state, this`currentTime, this`stepCount, events
      ensures Valid() && state == Created && currentTime == config.start && stepCount == 0
      ensures events.heap == []
    {
      currentTime, stepCount, state := config.start, 0, Created;
      events.Clear();
    }

    /** Refused when the limit is reached, even for an id that is already present. */
    method AddAgent(id: AgentId) returns (r: Result<AgentId, ModelError>)
      requires Valid()
      modifies this`agents, scheduler.Repr()
      ensures Valid()
      ensures r == (if config.maxAgents.Some? && |old(agents)| >= config.maxAgents.value then Err(ResourceExhausted)
                else Ok(id))
      ensures agents == (if r.Ok? then old(agents) + {id} else old(agents))
      ensures r.Err? ==> unchanged(scheduler.Repr())
      ensures scheduler.ByCursor? ==> scheduler.cursor.rng == old(scheduler.cursor.rng)
    {
      if config.maxAgents.Some? && |agents| >= config.maxAgents.value {
        return Err(ResourceExhausted);
      }
      scheduler.Add(id);
      agents := agents + {id};
      r := Ok(id);
    }

    method RemoveAgent(id: AgentId)
      requires Valid()
      modifies this`agents, scheduler.Repr()
      ensures Valid() && agents == old(agents) - {id}
      ensures scheduler.ByCursor? ==> scheduler.cursor.rng == old(scheduler.cursor.rng)
    {
      scheduler.Remove(id);
      agents := agents - {id};
    }

    method AddAgents(ids: seq<AgentId>)
      requires Valid() && agents == {} && (config.maxAgents.Some? ==> |ids| <= config.maxAgents.value)
      modifies this`agents, scheduler.Repr()
      ensures Valid() && agents == Elements(ids)
      ensures scheduler.ByCursor? ==> scheduler.cursor.rng == old(scheduler.cursor.rng)
    {
      for i := 0 to |ids|
        invariant Valid() && agents == Elements(ids[..i]) && |agents| <= i
        invariant scheduler.ByCursor? ==> scheduler.cursor.rng == old(scheduler.cursor.rng)
      {
        hide AnyScheduler.Valid, Q.EventQueue.Valid, Elements;
        ElementsGrow(ids, i);
        var r := AddAgent(ids[i]);
      }
      assert ids[..|ids|] == ids;
    }
  }

  ghost predicate AlwaysSucceeds(outcome: Outcomes) {
    forall tick: nat, a: AgentId :: outcome(tick, a)
  }

  /** A freshly initialised model with `start < end` and succeeding agents runs to completion: the
      tick count is the rounded-up quotient, and every agent steps once per tick. */
  method RunToEnd(m: StandardModel, outcome: Outcomes) returns (ghost orders: seq<seq<AgentId>>)
    requires m.Valid() && m.state == Created && m.config.start < m.config.end && AlwaysSucceeds(outcome)
    requires TicksEnd(m.events.heap, m.config.start, m.config.dt,
               RunTicks(m.config.start, m.config.end, m.config.end, m.config.dt), m.agents, outcome, 0)
    modifies m, m.scheduler.Repr(), m.events
    ensures m.Valid() && m.state == Completed && m.agents == old(m.agents)
    ensures |orders| == StepsToCover(m.config.end - m.config.start, m.config.dt) && m.stepCount == |orders|
    ensures m.currentTime == TickTime(m.config.start, m.config.dt, |orders|) >= m.config.end
    ensures EachOncePerTick(orders, m.agents) && m.trace == old(m.trace) + Ticks(orders, m.config.start, m.config.dt)
  {
    hide EachOncePerTick, Ticks, Elements, Restarted, AnyScheduler.Valid, Q.EventQueue.Valid, Q.Total;
    var start, end, dt := m.config.start, m.config.end, m.config.dt;
    ghost var heap := m.events.heap;
    var ready := m.Initialize(true);
    Shrunk(m.events.heap, heap, start);
    TicksEndShrinks(heap, m.events.heap, start, dt, RunTicks(start, end, end, dt), m.agents, outcome, 0);
    var r;
    r, orders := m.Run(None, outcome);
    StepsAreLeast(end - start, dt, 0);
    StepsAreLeast(end - start, dt, |orders|);
  }

  /** Same seed and same set of agents give the same trace, whatever the order in which the agents
      were added and however long the run: initialisation re-reads the sorted id list. */
  method SameSeedSameTrace(config: Config, kind: Kind, shuffle: Shuffle, seed: Rng, idsA: seq<AgentId>,
                           idsB: seq<AgentId>, duration: Option<real>, outcome: Outcomes)
    returns (a: StandardModel, b: StandardModel)
    requires config.dt > 0.0 && Permutes(shuffle) && Elements(idsA) == Elements(idsB)
    requires config.maxAgents.Some? ==> |idsA| <= config.maxAgents.value && |idsB| <= config.maxAgents.value
    ensures a.agents == b.agents == Elements(idsA)
    ensures a.trace == b.trace
  {
    hide Elements, Restarted, CursorTrace, EachOncePerTick, Ticks, RunTicks, StandardModel.Valid, Q.Total,
      AnyScheduler.Valid;
    ghost var ids1, ids2;
    a, ids1 := BuildAndRun(config, kind, shuffle, seed, idsA, duration, outcome);
    b, ids2 := BuildAndRun(config, kind, shuffle, seed, idsB, duration, outcome);
    AscendingUnique(ids1, ids2);
  }

  /** A fresh model's trace is a function of its configuration, seed and set of agents. */
  method BuildAndRun(config: Config, kind: Kind, shuffle: Shuffle, seed: Rng, ids: seq<AgentId>,
                     duration: Option<real>, outcome: Outcomes) returns (m: StandardModel, ghost sorted: seq<AgentId>)
    requires config.dt > 0.0 && Permutes(shuffle)
    requires config.maxAgents.Some? ==> |ids| <= config.maxAgents.value
    ensures fresh(m) && m.Valid() && m.agents == Elements(ids) && Ascending(sorted) && Elements(sorted) == Elements(ids)
    ensures var target := if duration.Some? then config.start + duration.value else config.end;
            m.trace == CursorTrace(Restarted(Cursor(sorted, 0, seed), kind, shuffle), kind, shuffle, config.start,
                config.dt,
                         RunTicks(config.start, target, config.end, config.dt), outcome, 0)
  {
    hide Elements, Restarted, CursorTrace, EachOncePerTick, Ticks, RunTicks, Q.Total, AnyScheduler.Valid,
      Q.EventQueue.Valid;
    m := new StandardModel(config, kind, shuffle, seed);
    m.AddAgents(ids);
    Q.TotalEmpty(m.events.heap, Q.UnexpiredAt(config.start));
    var ready := m.Initialize(true);
    sorted :| Ascending(sorted) && Elements(sorted) == m.agents
      && m.scheduler.Source() == Restarted(Cursor(sorted, 0, seed), kind, shuffle);
    ghost var orders;
    var r;
    r, orders := m.Run(duration, outcome);
  }

  /** Agents run until one fails; the failing agent is the last that was run. */
  ghost predicate StopsWell<T>(order: seq<AgentId>, ok: AgentId -> bool, r: Result<T, ModelError>) {
    match r
    case Ok(_) => forall i :: 0 <= i < |order| ==> ok(order[i])
    case Err(e) =>
      && order != [] && e == AgentFailed(order[|order| - 1]) && !ok(order[|order| - 1])
      && forall i :: 0 <= i < |order| - 1 ==> ok(order[i])
  }

  const FINE: Result<(), ModelError> := Ok(())

  lemma NothingRun(ok: AgentId -> bool)
    ensures StopsWell([], ok, FINE)
  {
  }

  lemma StopsLater(before: seq<AgentId>, done: seq<AgentId>, ok: AgentId -> bool, r: Result<(), ModelError>)
    requires StopsWell(before, ok, FINE) && StopsWell(done, ok, r)
    ensures StopsWell(before + done, ok, r) && (r.Ok? ==> StopsWell(before + done, ok, FINE))
  {
  }

  lemma StopsSame(order: seq<AgentId>, ok: AgentId -> bool, r: Result<(), ModelError>, t: Result<bool, ModelError>)
    requires StopsWell(order, ok, r) && (if r.Ok? then t.Ok? else t == Err(r.error))
    ensures StopsWell(order, ok, t)
  {
  }

  lemma InAll(a: seq<AgentId>, b: seq<AgentId>, agents: set<AgentId>)
    requires Elements(a + b) <= agents
    ensures forall x: AgentId :: x in b ==> x in agents
  {
    assert forall x: AgentId :: x in b ==> x in a + b && x in Elements(a + b);
  }

  lemma CursorPrefix(all: seq<AgentId>, order: seq<AgentId>, left: seq<AgentId>, batch: seq<AgentId>,
                     left': seq<AgentId>, done: seq<AgentId>)
    requires all == order + left && left == batch + left' && done <= batch
    ensures order + done <= all && (done == batch ==> all == order + done + left')
  {
  }

  lemma WhoFailed(order: seq<AgentId>, outcome: Outcomes, tick: nat, r: Result<bool, ModelError>, agents: set<AgentId>)
    requires StopsWell(order, TickOutcome(outcome, tick), r) && r.Err? && Elements(order) <= agents
    ensures exists a: AgentId :: r.error == AgentFailed(a) && a in agents && !outcome(tick, a)
  {
    var a := order[|order| - 1];
    assert a in Elements(order);
    assert !outcome(tick, a);
  }

  lemma SplitFirst(all: seq<AgentId>)
    ensures P.Split(all, [], all)
  {
  }

  lemma SplitEnd(all: seq<AgentId>, order: seq<AgentId>)
    requires P.Split(all, order, []) && NoDup(all)
    ensures NoDup(order) && Elements(order) == Elements(all)
  {
    P.SplitDistinct(all, order, []);
  }

  lemma SplitPrefix(all: seq<AgentId>, taken: seq<AgentId>, left: seq<AgentId>, order: seq<AgentId>)
    requires P.Split(all, taken, left) && order <= taken
    ensures Elements(order) <= Elements(all)
  {
    forall a: AgentId | a in order ensures a in Elements(all) {
      assert a in multiset(taken);
      assert a in multiset(all);
    }
  }

  lemma ElementsGrow(ids: seq<AgentId>, i: nat)
    requires i < |ids|
    ensures Elements(ids[..i + 1]) == Elements(ids[..i]) + {ids[i]}
  {
    assert ids[..i + 1] == ids[..i] + [ids[i]];
  }

  lemma SplitAgain(all: seq<AgentId>, taken: seq<AgentId>, left: seq<AgentId>, batch: seq<AgentId>, left': seq<AgentId>)
    requires P.Split(all, taken, left) && P.Split(left, batch, left')
    ensures P.Split(all, taken + batch, left')
  {
  }

  lemma {:induction false} StopsUnique(all: seq<AgentId>, order: seq<AgentId>, ok: AgentId -> bool,
                                       r: Result<bool, ModelError>)
    requires order <= all && StopsWell(order, ok, r) && (r.Ok? ==> order == all)
    ensures order == UntilFailure(all, ok) && (r.Ok? <==> AllOk(all, ok))
    decreases |all|
  {
    if all != [] {
      if ok(all[0]) {
        assert forall i :: 0 <= i < |order| - 1 ==> order[1..][i] == order[i + 1];
        assert forall i :: 0 <= i < |all| - 1 ==> all[1..][i] == all[i + 1];
        StopsUnique(all[1..], order[1..], ok, r);
      }
    }
  }

  lemma CursorTraceStep(c: Cursor, kind: Kind, shuffle: Shuffle, t: real, dt: real, ticks: nat, outcome: Outcomes,
                        tick: nat, order: seq<AgentId>, r: Result<bool, ModelError>)
    requires ticks > 0
    requires var d := Restarted(c, kind, shuffle); order <= d.agents && (r.Ok? ==> order == d.agents)
    requires StopsWell(order, TickOutcome(outcome, tick), r)
    ensures CursorTrace(c, kind, shuffle, t, dt, ticks, outcome, tick)
         == Stamped(order, t) +
            (if r.Ok? then
               CursorTrace(Restarted(c, kind, shuffle), kind, shuffle, t + dt, dt, ticks - 1, outcome, tick + 1)
             else [])
  {
    StopsUnique(Restarted(c, kind, shuffle).agents, order, TickOutcome(outcome, tick), r);
  }

  lemma CursorTraceEnds(c: Cursor, kind: Kind, shuffle: Shuffle, t: real, dt: real, outcome: Outcomes, tick: nat)
    ensures CursorTrace(c, kind, shuffle, t, dt, 0, outcome, tick) == []
  {
  }

  predicate TickOk(agents: set<AgentId>, outcome: Outcomes, tick: nat) {
    forall a: AgentId :: a in agents ==> outcome(tick, a)
  }

  /** No agent fails in the first `k` ticks from step count `step`. */
  ghost predicate Reaches(agents: set<AgentId>, outcome: Outcomes, step: nat, k: nat) {
    forall tick: nat :: step <= tick < step + k ==> TickOk(agents, outcome, tick)
  }

  /** At each of the next `ticks` ticks that is reached, no event of unlimited recurrence is live. */
  ghost predicate TicksEnd(h: seq<Q.Event>, t: real, dt: real, ticks: nat, agents: set<AgentId>, outcome: Outcomes,
                           step: nat) {
    forall k: nat :: k < ticks && Reaches(agents, outcome, step, k) ==> !Q.HasUnlimited(h, TickTime(t, dt, k))
  }

  lemma UnlimitedShrinks(before: seq<Q.Event>, h: seq<Q.Event>, now: real)
    requires multiset(h) <= multiset(before) && Q.HasUnlimited(h, now)
    ensures Q.HasUnlimited(before, now)
  {
    var i :| 0 <= i < |h| && h[i].maxExecutions == 0 && h[i].IsLive(now);
    assert h[i] in multiset(h);
    assert h[i] in multiset(before);
    var j :| 0 <= j < |before| && before[j] == h[i];
  }

  lemma TickEnds(before: seq<Q.Event>, t: real, dt: real, ticks: nat, agents: set<AgentId>, outcome: Outcomes,
                 step: nat, k: nat, h: seq<Q.Event>)
    requires TicksEnd(before, t, dt, ticks, agents, outcome, step) && k < ticks && Reaches(agents, outcome, step, k)
    requires multiset(h) <= multiset(before)
    ensures !Q.HasUnlimited(h, TickTime(t, dt, k))
  {
    hide Q.HasUnlimited, Reaches;
    if Q.HasUnlimited(h, TickTime(t, dt, k)) { UnlimitedShrinks(before, h, TickTime(t, dt, k)); }
  }

  lemma TicksEndShrinks(before: seq<Q.Event>, h: seq<Q.Event>, t: real, dt: real, ticks: nat, agents: set<AgentId>,
                        outcome: Outcomes, step: nat)
    requires TicksEnd(before, t, dt, ticks, agents, outcome, step) && multiset(h) <= multiset(before)
    ensures TicksEnd(h, t, dt, ticks, agents, outcome, step)
  {
    hide Q.HasUnlimited, Reaches;
    forall k: nat | k < ticks && Reaches(agents, outcome, step, k) ensures !Q.HasUnlimited(h, TickTime(t, dt, k)) {
      TickEnds(before, t, dt, ticks, agents, outcome, step, k, h);
    }
  }

  lemma ReachesFirst(agents: set<AgentId>, outcome: Outcomes, step: nat)
    ensures Reaches(agents, outcome, step, 0)
  {
  }

  lemma ReachesNext(agents: set<AgentId>, outcome: Outcomes, step: nat, k: nat, order: seq<AgentId>,
                    r: Result<bool, ModelError>)
    requires Reaches(agents, outcome, step, k)
    requires r.Ok? && StopsWell(order, TickOutcome(outcome, step + k), r) && Elements(order) == agents
    ensures Reaches(agents, outcome, step, k + 1)
  {
    forall a: AgentId | a in agents ensures outcome(step + k, a) {
      assert a in Elements(order);
      var i :| 0 <= i < |order| && order[i] == a;
      assert TickOutcome(outcome, step + k)(order[i]);
    }
    assert TickOk(agents, outcome, step + k);
  }

  lemma Drained(h: seq<Q.Event>, before: seq<Q.Event>, now: real)
    requires multiset(h) == Q.Later(before, now)
    ensures multiset(h) <= multiset(before)
  {
    Q.TotalSubset(before, Q.LaterThan(now));
  }

  lemma Shrunk(h: seq<Q.Event>, before: seq<Q.Event>, now: real)
    requires multiset(h) == Q.Total(before, Q.UnexpiredAt(now))
    ensures multiset(h) <= multiset(before)
  {
    Q.TotalSubset(before, Q.UnexpiredAt(now));
  }
}
