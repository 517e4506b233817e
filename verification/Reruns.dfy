/** Running a model again after a reset: `reset` leaves the generator of the scheduler where the
    first run left it. */
module Reruns {
  import opened Prelude
  import opened Scheduler
  import opened Model
  import Q = EventQueue

  /** The trace of a run to the end of a freshly initialised model. */
  function FreshTrace(sorted: seq<AgentId>, seed: Rng, kind: Kind, shuffle: Shuffle, config: Config,
                      outcome: Outcomes): seq<Activation>
    requires config.dt > 0.0
  {
    CursorTrace(Restarted(Cursor(sorted, 0, seed), kind, shuffle), kind, shuffle, config.start, config.dt,
      TicksOf(config), outcome, 0)
  }

  function TicksOf(config: Config): nat
    requires config.dt > 0.0
  {
    RunTicks(config.start, config.end, config.end, config.dt)
  }

  /** Where that run leaves the generator. */
  function RngAfterRun(sorted: seq<AgentId>, seed: Rng, kind: Kind, shuffle: Shuffle, config: Config): Rng
    requires config.dt > 0.0
  {
    AfterTicks(Restarted(Cursor(sorted, 0, seed), kind, shuffle), kind, shuffle, TicksOf(config)).rng
  }

  /** The run after a reset is the run before it. */
  predicate Repeats(sorted: seq<AgentId>, seed: Rng, kind: Kind, shuffle: Shuffle, config: Config, outcome: Outcomes)
    requires config.dt > 0.0
  {
    FreshTrace(sorted, seed, kind, shuffle, config, outcome)
    == FreshTrace(sorted, RngAfterRun(sorted, seed, kind, shuffle, config), kind, shuffle, config, outcome)
  }

  /** What a caller can see of a model for which a reset repeats the run. */
  predicate OrderIsFixed(sorted: seq<AgentId>, kind: Kind, config: Config) {
    kind != Random || |sorted| <= 1 || config.start >= config.end
  }

  // ---------------------------------------------------------------------------------------
  // Where the order is fixed

  /** A shuffle has nothing to do, or is not used. */
  lemma SameList(c: Cursor, d: Cursor, kind: Kind, shuffle: Shuffle)
    requires c.agents == d.agents && Permutes(shuffle) && (kind != Random || |c.agents| <= 1)
    ensures Restarted(c, kind, shuffle).agents == Restarted(d, kind, shuffle).agents == c.agents
  {
    if kind == Random {
      OnlyOrder(c.agents, shuffle(c.agents, c.rng).0);
      OnlyOrder(c.agents, shuffle(c.agents, d.rng).0);
    }
  }

  lemma OnlyOrder(s: seq<AgentId>, t: seq<AgentId>)
    requires multiset(s) == multiset(t) && |s| <= 1
    ensures s == t
  {
    assert |t| == |multiset(t)| == |s|;
    if s != [] { assert s[0] in multiset(t); }
  }

  lemma {:induction false} CursorTraceIgnoresRng(c: Cursor, d: Cursor, kind: Kind, shuffle: Shuffle, t: real, dt: real,
                                                 ticks: nat, outcome: Outcomes, tick: nat)
    requires c.agents == d.agents && Permutes(shuffle) && (kind != Random || |c.agents| <= 1)
    ensures CursorTrace(c, kind, shuffle, t, dt, ticks, outcome, tick)
              == CursorTrace(d, kind, shuffle, t, dt, ticks, outcome, tick)
    decreases ticks
  {
    hide Stamped, UntilFailure, AllOk, TickOutcome, Restarted, Permutes;
    if ticks > 0 {
      var c1, d1 := Restarted(c, kind, shuffle), Restarted(d, kind, shuffle);
      SameList(c, d, kind, shuffle);
      CursorTraceIgnoresRng(c1, d1, kind, shuffle, t + dt, dt, ticks - 1, outcome, tick + 1);
    }
  }

  lemma FixedOrderRepeats(sorted: seq<AgentId>, seed: Rng, kind: Kind, shuffle: Shuffle, config: Config,
                          outcome: Outcomes)
    requires config.dt > 0.0 && Permutes(shuffle) && OrderIsFixed(sorted, kind, config)
    ensures Repeats(sorted, seed, kind, shuffle, config, outcome)
  {
    hide Permutes;
    if config.start < config.end {
      var g := RngAfterRun(sorted, seed, kind, shuffle, config);
      var c, d := Cursor(sorted, 0, seed), Cursor(sorted, 0, g);
      SameList(c, d, kind, shuffle);
      CursorTraceIgnoresRng(Restarted(c, kind, shuffle), Restarted(d, kind, shuffle), kind, shuffle,
        config.start, config.dt, TicksOf(config), outcome, 0);
    }
  }

  // ---------------------------------------------------------------------------------------
  // Where it is not

  /** Swaps the first two agents exactly when the generator is in state `k`. */
  function SwapAt(k: Rng): Shuffle {
    (s: seq<AgentId>, g: Rng) => (if g == k && |s| > 1 then [s[1], s[0]] + s[2..] else s, g + 1)
  }

  lemma SwapAtPermutes(k: Rng)
    ensures Permutes(SwapAt(k))
  {
    forall s: seq<AgentId>, g: Rng ensures multiset(SwapAt(k)(s, g).0) == multiset(s) {
      if |s| > 1 { assert s == [s[0], s[1]] + s[2..]; }
    }
  }

  lemma SwapAtRestarts(c: Cursor, k: Rng)
    ensures var d := Restarted(c, Random, SwapAt(k));
            && d.rng == c.rng + 1 && d.index == 0
            && (c.rng != k ==> d.agents == c.agents)
            && (c.rng == k && |c.agents| > 1 ==> |d.agents| == |c.agents| && d.agents[0] == c.agents[1])
  {
  }

  lemma {:induction false} SwapAtTicks(c: Cursor, k: Rng, n: nat)
    ensures AfterTicks(c, Random, SwapAt(k), n).rng == c.rng + n
  {
    if n > 0 { SwapAtTicks(c, k, n - 1); }
  }

  /** A run that has a tick and an agent starts by activating the first agent of its order. */
  lemma FirstAgent(c: Cursor, kind: Kind, shuffle: Shuffle, t: real, dt: real, ticks: nat, outcome: Outcomes, tick: nat)
    requires ticks > 0 && Restarted(c, kind, shuffle).agents != []
    ensures var run := CursorTrace(c, kind, shuffle, t, dt, ticks, outcome, tick);
            run != [] && run[0].agent == Restarted(c, kind, shuffle).agents[0]
  {
    hide Restarted;
    var order := Restarted(c, kind, shuffle).agents;
    var part := UntilFailure(order, TickOutcome(outcome, tick));
    assert part != [] && part[0] == order[0];
    assert Stamped(part, t)[0].agent == order[0];
  }

  /** The first run swaps the first two agents in its first tick, the second one never does. */
  lemma SwapAtDiffers(sorted: seq<AgentId>, seed: Rng, config: Config, outcome: Outcomes)
    requires config.dt > 0.0 && NoDup(sorted) && |sorted| > 1 && config.start < config.end
    ensures !Repeats(sorted, seed, Random, SwapAt(seed + 1), config, outcome)
  {
    hide CursorTrace, Restarted, AfterTicks, RunTicks;
    var k, ticks := seed + 1, TicksOf(config);
    assert ticks > 0 by { RunContinues(config.start, config.end, config.end, config.dt, 0); }
    var c := Restarted(Cursor(sorted, 0, seed), Random, SwapAt(k));
    SwapAtRestarts(Cursor(sorted, 0, seed), k);
    SwapAtRestarts(c, k);
    SwapAtTicks(c, k, ticks);
    var g := RngAfterRun(sorted, seed, Random, SwapAt(k), config);
    var d := Restarted(Cursor(sorted, 0, g), Random, SwapAt(k));
    SwapAtRestarts(Cursor(sorted, 0, g), k);
    SwapAtRestarts(d, k);
    FirstAgent(c, Random, SwapAt(k), config.start, config.dt, ticks, outcome, 0);
    FirstAgent(d, Random, SwapAt(k), config.start, config.dt, ticks, outcome, 0);
  }

  /** A reset followed by another run repeats the first run under every shuffle exactly when the
      scheduler is not Random, or has at most one agent, or the run has no tick. */
  lemma RepeatsIff(sorted: seq<AgentId>, seed: Rng, kind: Kind, config: Config, outcome: Outcomes)
    requires config.dt > 0.0 && NoDup(sorted)
    ensures (forall shuffle: Shuffle :: Permutes(shuffle) ==> Repeats(sorted, seed, kind, shuffle, config, outcome))
       <==> OrderIsFixed(sorted, kind, config)
  {
    hide Repeats, Permutes;
    if OrderIsFixed(sorted, kind, config) {
      forall shuffle: Shuffle | Permutes(shuffle) ensures Repeats(sorted, seed, kind, shuffle, config, outcome) {
        FixedOrderRepeats(sorted, seed, kind, shuffle, config, outcome);
      }
    } else {
      SwapAtPermutes(seed + 1);
      SwapAtDiffers(sorted, seed, config, outcome);
    }
  }

  // ---------------------------------------------------------------------------------------
  // On the model itself

  /** Runs, resets and runs again: the second run starts from the generator the first one left. */
  method RunTwice(m: StandardModel, outcome: Outcomes)
    returns (ghost sorted: seq<AgentId>, ghost first: seq<Activation>, ghost second: seq<Activation>)
    requires m.Valid() && m.state == Created && m.scheduler.ByCursor? && AlwaysSucceeds(outcome)
    requires TicksEnd(m.events.heap, m.config.start, m.config.dt, TicksOf(m.config), m.agents, outcome, 0)
    modifies m, m.scheduler.Repr(), m.events
    ensures m.Valid() && Ascending(sorted) && Elements(sorted) == m.agents == old(m.agents)
    ensures m.trace == old(m.trace) + first + second
    ensures var kind, shuffle, seed := m.scheduler.cursor.kind, m.scheduler.cursor.shuffle, old(m.scheduler.cursor.rng);
            && first == FreshTrace(sorted, seed, kind, shuffle, m.config, outcome)
            && second == FreshTrace(sorted, RngAfterRun(sorted, seed, kind, shuffle, m.config), kind, shuffle,
                m.config, outcome)
            && (OrderIsFixed(sorted, kind, m.config) ==> first == second)
  {
    assert Permutes(m.scheduler.cursor.shuffle);
    hide Elements, FreshTrace, RngAfterRun, TicksEnd, AnyScheduler.Valid, Q.EventQueue.Valid, Permutes;
    ghost var seed, kind, shuffle := m.scheduler.cursor.rng, m.scheduler.cursor.kind, m.scheduler.cursor.shuffle;
    sorted, first := StartAndRun(m, outcome);
    m.Reset();
    EmptyTicksEnd(m.config, m.agents, outcome);
    ghost var again;
    again, second := StartAndRun(m, outcome);
    AscendingUnique(sorted, again);
    if OrderIsFixed(sorted, kind, m.config) {
      FixedOrderRepeats(sorted, seed, kind, shuffle, m.config, outcome);
    }
  }

  lemma EmptyTicksEnd(config: Config, agents: set<AgentId>, outcome: Outcomes)
    requires config.dt > 0.0
    ensures TicksEnd([], config.start, config.dt, TicksOf(config), agents, outcome, 0)
  {
  }

  method StartAndRun(m: StandardModel, outcome: Outcomes)
    returns (ghost sorted: seq<AgentId>, ghost run: seq<Activation>)
    requires m.Valid() && m.state == Created && m.scheduler.ByCursor? && AlwaysSucceeds(outcome)
    requires TicksEnd(m.events.heap, m.config.start, m.config.dt, TicksOf(m.config), m.agents, outcome, 0)
    modifies m, m.scheduler.Repr(), m.events
    ensures m.Valid() && Ascending(sorted) && Elements(sorted) == m.agents == old(m.agents)
    ensures m.trace == old(m.trace) + run
    ensures var kind, shuffle, seed := m.scheduler.cursor.kind, m.scheduler.cursor.shuffle, old(m.scheduler.cursor.rng);
            && run == FreshTrace(sorted, seed, kind, shuffle, m.config, outcome)
            && m.scheduler.cursor.rng == RngAfterRun(sorted, seed, kind, shuffle, m.config)
  {
    hide Elements, Restarted, CursorTrace, EachOncePerTick, Ticks, RunTicks, AfterTicks, TicksEnd, Q.Total,
      AnyScheduler.Valid, Q.EventQueue.Valid;
    ghost var seed, kind, shuffle := m.scheduler.cursor.rng, m.scheduler.cursor.kind, m.scheduler.cursor.shuffle;
    ghost var heap := m.events.heap;
    var ready := m.Initialize(true);
    Shrunk(m.events.heap, heap, m.config.start);
    TicksEndShrinks(heap, m.events.heap, m.config.start, m.config.dt, TicksOf(m.config), m.agents, outcome, 0);
    sorted :| Ascending(sorted) && Elements(sorted) == m.agents
      && m.scheduler.Source() == Restarted(Cursor(sorted, 0, seed), kind, shuffle);
    run := FreshTrace(sorted, seed, kind, shuffle, m.config, outcome);
    ghost var orders;
    var r;
    r, orders := m.Run(None, outcome);
  }
}
