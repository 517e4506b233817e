/** The event-based scheduler: agents wait in a list ordered by time, and only those that are due
    are handed out. */
module EventScheduler {
  import opened Prelude
  import opened Scheduler

  datatype Scheduled = Scheduled(agent: AgentId, time: real)

  ghost predicate Sorted(queue: seq<Scheduled>) {
    forall i, j :: 0 <= i < j < |queue| ==> queue[i].time <= queue[j].time
  }

  function AgentsOf(queue: seq<Scheduled>): (r: seq<AgentId>)
    ensures |r| == |queue| && forall i :: 0 <= i < |r| ==> r[i] == queue[i].agent
  {
    seq(|queue|, i requires 0 <= i < |queue| => queue[i].agent)
  }

  function Reversed(s: seq<AgentId>): (r: seq<AgentId>)
    ensures |r| == |s| && forall i :: 0 <= i < |r| ==> r[i] == s[|s| - 1 - i]
  {
    seq(|s|, i requires 0 <= i < |s| => s[|s| - 1 - i])
  }

  ghost predicate AllDue(queue: seq<Scheduled>, now: real) {
    forall i :: 0 <= i < |queue| ==> queue[i].time <= now
  }

  /** What one call of `next_batch` leaves in the list. */
  function Turn(queue: seq<Scheduled>, now: real): seq<Scheduled> {
    if queue != [] && queue[0].time <= now then queue[1..] else queue
  }

  function Turns(queue: seq<Scheduled>, now: real, k: nat): seq<Scheduled> {
    if k == 0 then queue else Turns(Turn(queue, now), now, k - 1)
  }

  /** How many events at the front of the list are due. */
  function DueCount(queue: seq<Scheduled>, now: real): (n: nat)
    ensures n <= |queue|
    ensures forall i :: 0 <= i < n ==> queue[i].time <= now
    ensures n < |queue| ==> queue[n].time > now
  {
    if queue != [] && queue[0].time <= now then 1 + DueCount(queue[1..], now) else 0
  }

  lemma {:induction false} TurnsTakeDue(queue: seq<Scheduled>, now: real, k: nat)
    ensures var n := DueCount(queue, now); Turns(queue, now, k) == queue[if k < n then k else n..]
    decreases k
  {
    if k > 0 {
      TurnsTakeDue(Turn(queue, now), now, k - 1);
    }
  }

  ghost predicate Joins(all: seq<AgentId>, a: seq<AgentId>, b: seq<AgentId>) {
    all == a + b
  }

  lemma JoinFirst(all: seq<AgentId>)
    ensures Joins(all, [], all)
  {
  }

  lemma JoinStep(all: seq<AgentId>, log: seq<AgentId>, before: seq<AgentId>, batch: seq<AgentId>, left: seq<AgentId>)
    requires Joins(all, log, before) && before == batch + left
    ensures Joins(all, log + batch, left) && |batch| == |before| - |left|
  {
  }

  lemma AllDueCount(queue: seq<Scheduled>, now: real)
    requires Sorted(queue)
    ensures AllDue(queue, now) <==> DueCount(queue, now) == |queue|
  {
  }

  ghost predicate IsDrop(left: seq<Scheduled>, all: seq<Scheduled>, n: nat) {
    n <= |all| && left == all[n..]
  }

  lemma DropNothing(all: seq<Scheduled>)
    ensures IsDrop(all, all, 0)
  {
  }

  lemma DropSize(left: seq<Scheduled>, all: seq<Scheduled>, n: nat)
    requires IsDrop(left, all, n)
    ensures |left| == |all| - n
  {
  }

  lemma TurnAfterTurns(queue: seq<Scheduled>, left: seq<Scheduled>, now: real, k: nat)
    requires var n := DueCount(queue, now); IsDrop(left, queue, if k < n then k else n)
    ensures var n := DueCount(queue, now); IsDrop(Turn(left, now), queue, if k + 1 < n then k + 1 else n)
  {
  }

  /** The loop that asks for batches while some event is left comes to an end exactly when every
      event is due; an event of the future keeps it spinning. */
  lemma StepLoopEnds(queue: seq<Scheduled>, now: real)
    requires Sorted(queue)
    ensures (exists k: nat :: Turns(queue, now, k) == []) <==> AllDue(queue, now)
  {
    var n := DueCount(queue, now);
    if AllDue(queue, now) {
      TurnsTakeDue(queue, now, |queue|);
      assert Turns(queue, now, |queue|) == [];
    } else {
      assert n < |queue|;
      forall k: nat ensures Turns(queue, now, k) != [] { TurnsTakeDue(queue, now, k); }
    }
  }

  class EventScheduler {
    var queue: seq<Scheduled>
    var activeAgents: nat
    var decisions: nat

    ghost predicate Valid()
      reads this
    {
      Sorted(queue)
    }

    constructor ()
      ensures Valid() && queue == [] && activeAgents == 0
    {
      queue, activeAgents, decisions := [], 0, 0;
    }

    /** Inserts before the first event that is not earlier: among equal times the latest insertion
        comes first. */
    method ScheduleAt(agent: AgentId, time: real)
      requires Valid()
      modifies this`queue
      ensures Valid()
      ensures exists i: nat :: i <= |old(queue)| && queue == InsertAt(old(queue), i, Scheduled(agent, time))
                && (forall j :: 0 <= j < i ==> old(queue)[j].time < time)
                && (forall j :: i <= j < |old(queue)| ==> time <= old(queue)[j].time)
    {
      var i := 0;
      while i < |queue| && time > queue[i].time
        invariant 0 <= i <= |queue|
        invariant forall j :: 0 <= j < i ==> queue[j].time < time
      {
        i := i + 1;
      }
      queue := InsertAt(queue, i, Scheduled(agent, time));
    }

    /** All agents become due at time zero, in reverse order. */
    method Initialize(ids: seq<AgentId>)
      modifies this
      ensures Valid() && AgentsOf(queue) == Reversed(ids) && activeAgents == |ids|
      ensures forall i :: 0 <= i < |queue| ==> queue[i].time == 0.0
    {
      queue := [];
      for i := 0 to |ids|
        invariant Valid() && AgentsOf(queue) == Reversed(ids[..i])
        invariant forall j :: 0 <= j < |queue| ==> queue[j].time == 0.0
      {
        ghost var before := queue;
        ScheduleAt(ids[i], 0.0);
        assert queue == [Scheduled(ids[i], 0.0)] + before;
      }
      assert ids[..|ids|] == ids;
      activeAgents := |ids|;
    }

    method Add(id: AgentId)
      requires Valid()
      modifies this
      ensures Valid() && activeAgents == old(activeAgents) + 1
      ensures multiset(queue) == multiset(old(queue)) + multiset{Scheduled(id, 0.0)}
    {
      ScheduleAt(id, 0.0);
      ghost var i: nat :| i <= |old(queue)| && queue == InsertAt(old(queue), i, Scheduled(id, 0.0));
      InsertAtMultiset(old(queue), i, Scheduled(id, 0.0));
      activeAgents := activeAgents + 1;
    }

    /** Drops every event of the agent, keeping the others in order. The counter goes down even if
        there was none. */
    method Remove(id: AgentId)
      requires Valid()
      modifies this
      ensures Valid() && queue == Without(old(queue), id) && activeAgents == SaturatingSub(old(activeAgents), 1)
    {
      var kept: seq<Scheduled> := [];
      for i := 0 to |queue|
        invariant kept == Without(queue[..i], id)
      {
        assert queue[..i + 1][..i] == queue[..i];
        if queue[i].agent != id { kept := kept + [queue[i]]; }
      }
      assert queue[..|queue|] == queue;
      WithoutSorted(queue, id);
      queue := kept;
      activeAgents := SaturatingSub(activeAgents, 1);
    }

    method Next(now: real) returns (batch: seq<AgentId>)
      requires Valid()
      modifies this`queue, this`decisions
      ensures Valid() && queue == Turn(old(queue), now)
      ensures AgentsOf(old(queue)) == batch + AgentsOf(queue)
      ensures batch == [] <==> DueCount(old(queue), now) == 0
    {
      if queue != [] && queue[0].time <= now {
        batch := [queue[0].agent];
        queue := queue[1..];
        decisions := decisions + 1;
      } else {
        batch := [];
      }
    }

    predicate HasNext()
      reads this
    {
      queue != []
    }

    /** The step loop of a model, cut off after `limit` rounds. It hands out the due agents in
        order of time and then, if any event lies in the future, never finishes by itself. */
    method StepRounds(now: real, limit: nat) returns (log: seq<AgentId>, rounds: nat)
      requires Valid()
      modifies this`queue, this`decisions
      ensures Valid() && Joins(AgentsOf(old(queue)), log, AgentsOf(queue))
      ensures |log| == (if limit < DueCount(old(queue), now) then limit else DueCount(old(queue), now))
      ensures !AllDue(old(queue), now) ==> rounds == limit && HasNext()
      ensures AllDue(old(queue), now) && limit >= |old(queue)| ==> rounds == |old(queue)| && !HasNext()
    {
      hide Turn, AgentsOf, DueCount, AllDue, Sorted, Joins, IsDrop;
      ghost var q, due := queue, DueCount(queue, now);
      AllDueCount(q, now);
      log, rounds := [], 0;
      JoinFirst(AgentsOf(queue));
      assert IsDrop(queue, q, 0) by { DropNothing(queue); }
      while rounds < limit && HasNext()
        invariant rounds <= limit && Valid()
        invariant IsDrop(queue, q, if rounds < due then rounds else due)
        invariant Joins(AgentsOf(q), log, AgentsOf(queue))
        invariant |queue| == |q| - (if rounds < due then rounds else due)
        invariant |log| == (if rounds < due then rounds else due) && (due == |q| ==> rounds <= due)
        decreases limit - rounds
      {
        TurnAfterTurns(q, queue, now, rounds);
        ghost var before := AgentsOf(queue);
        var batch := Next(now);
        JoinStep(AgentsOf(q), log, before, batch, AgentsOf(queue));
        log := log + batch;
        rounds := rounds + 1;
        DropSize(queue, q, if rounds < due then rounds else due);
      }
    }
  }

  function Without(queue: seq<Scheduled>, id: AgentId): seq<Scheduled> {
    if queue == [] then []
    else
      var rest, last := Without(queue[..|queue| - 1], id), queue[|queue| - 1];
      if last.agent != id then rest + [last] else rest
  }

  lemma {:induction false} WithoutSorted(queue: seq<Scheduled>, id: AgentId)
    requires Sorted(queue)
    ensures Sorted(Without(queue, id))
    ensures forall e :: e in Without(queue, id) <==> e in queue && e.agent != id
    decreases |queue|
  {
    if queue != [] {
      var p, last := queue[..|queue| - 1], queue[|queue| - 1];
      assert queue == p + [last];
      WithoutSorted(p, id);
      var rest := Without(p, id);
      forall i | 0 <= i < |rest| ensures rest[i].time <= last.time { assert rest[i] in p; }
    }
  }

  // ---------------------------------------------------------------------------------------
  // Whole runs

  /** After `Initialize` the first step of a run comes to an end exactly when the run does not
      start before time zero, or there is no agent. */
  lemma FirstStepEnds(queue: seq<Scheduled>, start: real)
    requires forall i :: 0 <= i < |queue| ==> queue[i].time == 0.0
    ensures (exists k: nat :: Turns(queue, start, k) == []) <==> start >= 0.0 || queue == []
  {
    StepLoopEnds(queue, start);
    assert queue != [] ==> (AllDue(queue, start) ==> queue[0].time <= start);
  }

  lemma AllInOneStep(all: seq<AgentId>, log: seq<AgentId>, queue: seq<Scheduled>)
    requires Joins(all, log, AgentsOf(queue)) && queue == []
    ensures log == all
  {
  }

  lemma NothingToDo(log: seq<AgentId>, left: seq<AgentId>)
    requires Joins([], log, left)
    ensures log == []
  {
  }

  /** A run that starts at or after time zero and in which nothing is scheduled later: all agents
      run in the first tick, in reverse order, and nobody ever again. */
  method WholeRun(s: EventScheduler, ids: seq<AgentId>, start: real, dt: real, ticks: nat)
    returns (logs: seq<seq<AgentId>>)
    requires start >= 0.0 && dt > 0.0
    modifies s
    ensures s.Valid() && |logs| == ticks
    ensures ticks > 0 ==> logs[0] == Reversed(ids) && !s.HasNext()
    ensures forall k :: 0 < k < ticks ==> logs[k] == []
  {
    hide Joins, AgentsOf, Reversed, DueCount, Sorted;
    s.Initialize(ids);
    logs := [];
    for k := 0 to ticks
      invariant s.Valid() && |logs| == k
      invariant k == 0 ==> AgentsOf(s.queue) == Reversed(ids) && AllDue(s.queue, start)
      invariant k > 0 ==> logs[0] == Reversed(ids) && s.queue == []
      invariant forall j :: 0 < j < k ==> logs[j] == []
    {
      ghost var before := s.queue;
      var log, rounds := s.StepRounds(start + k as real * dt, |s.queue|);
      if k == 0 {
        AllInOneStep(Reversed(ids), log, s.queue);
      } else {
        NothingToDo(log, AgentsOf(s.queue));
      }
      logs := logs + [log];
    }
  }
}
