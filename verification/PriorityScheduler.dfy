/** The priority scheduler: a table of priorities and a heap rebuilt from it at every step. */
module PriorityScheduler {
  import opened Prelude
  import opened Scheduler

  datatype Item = Item(agent: AgentId, priority: int)

  function AgentsOf(queue: seq<Item>): (r: seq<AgentId>)
    ensures |r| == |queue| && forall i :: 0 <= i < |r| ==> r[i] == queue[i].agent
  {
    seq(|queue|, i requires 0 <= i < |queue| => queue[i].agent)
  }

  predicate Greatest(queue: seq<Item>, i: nat) {
    i < |queue| && forall j :: 0 <= j < |queue| ==> queue[j].priority <= queue[i].priority
  }

  lemma {:induction false} GreatestExists(queue: seq<Item>) returns (i: nat)
    requires queue != []
    ensures Greatest(queue, i)
  {
    if |queue| == 1 {
      i := 0;
    } else {
      var k := GreatestExists(queue[1..]);
      assert forall j :: 0 < j < |queue| ==> queue[j] == queue[1..][j - 1];
      i := if queue[0].priority > queue[k + 1].priority then 0 else k + 1;
    }
  }

  /** Queued items carry the priorities of the table. */
  ghost predicate Matches(queue: seq<Item>, priorities: map<AgentId, int>) {
    forall i :: 0 <= i < |queue| ==> queue[i].agent in priorities && queue[i].priority == priorities[queue[i].agent]
  }

  /** Ordered by falling priority. */
  ghost predicate Falling(log: seq<AgentId>, priorities: map<AgentId, int>)
    requires forall a: AgentId :: a in log ==> a in priorities
  {
    forall i, j :: 0 <= i < j < |log| ==> priorities[log[i]] >= priorities[log[j]]
  }

  /** Everything served so far came in falling order, and nothing left outranks it. */
  ghost predicate Served(log: seq<AgentId>, queue: seq<Item>, priorities: map<AgentId, int>) {
    && (forall a: AgentId :: a in log ==> a in priorities)
    && Falling(log, priorities) && Matches(queue, priorities)
    && forall i, j :: 0 <= i < |log| && 0 <= j < |queue| ==> priorities[log[i]] >= queue[j].priority
  }

  lemma ServedFirst(queue: seq<Item>, priorities: map<AgentId, int>)
    requires Matches(queue, priorities)
    ensures Served([], queue, priorities)
  {
  }

  lemma ServedNext(log: seq<AgentId>, queue: seq<Item>, i: nat, priorities: map<AgentId, int>)
    requires Served(log, queue, priorities) && Greatest(queue, i)
    ensures Served(log + [queue[i].agent], RemoveAt(queue, i), priorities)
  {
  }

  /** Over a history with `removals` removals: nobody ran or is queued more often than these
      allow, and whoever is registered has run or is queued. */
  ghost predicate Account(log: seq<AgentId>, queued: seq<AgentId>, registered: set<AgentId>, removals: nat) {
    && (forall a: AgentId :: Occurs(log, a) + Occurs(queued, a) <= removals + (if a in registered then 1 else 0))
    && (forall a: AgentId :: a in registered ==> a in log || a in queued)
  }

  lemma AccountNext(log: seq<AgentId>, queued: seq<AgentId>, registered: set<AgentId>, removals: nat,
                    activated: seq<AgentId>, left: seq<AgentId>)
    requires Account(log, queued, registered, removals) && Split(queued, activated, left)
    ensures Account(log + activated, left, registered, removals)
  {
    assert forall a: AgentId :: a in queued <==> a in multiset(queued);
    forall a: AgentId ensures Occurs(log + activated, a) == Occurs(log, a) + Occurs(activated, a) {
      OccursConcat(log, activated, a);
    }
  }

  lemma AccountAdd(log: seq<AgentId>, queued: seq<AgentId>, registered: set<AgentId>, removals: nat, id: AgentId)
    requires Account(log, queued, registered, removals) && id !in registered
    ensures Account(log, queued + [id], registered + {id}, removals)
  {
    forall a: AgentId ensures Occurs(queued + [id], a) == Occurs(queued, a) + Occurs([id], a) {
      OccursConcat(queued, [id], a);
    }
  }

  lemma AccountRemove(log: seq<AgentId>, queued: seq<AgentId>, registered: set<AgentId>, removals: nat,
                      id: AgentId, rebuilt: seq<AgentId>)
    requires Account(log, queued, registered, removals)
    requires NoDup(rebuilt) && Elements(rebuilt) == registered - {id}
    ensures Account(log, rebuilt, registered - {id}, removals + 1)
  {
    NoDupOccurs(rebuilt);
    forall a: AgentId ensures Occurs(log, a) + Occurs(rebuilt, a) <= removals + 1
        + (if a in registered - {id} then 1 else 0) {
      assert a in rebuilt <==> a in Elements(rebuilt);
      assert a in rebuilt <==> Occurs(rebuilt, a) > 0;
    }
  }

  lemma AccountFirst(queued: seq<AgentId>, registered: set<AgentId>)
    requires NoDup(queued) && Elements(queued) == registered
    ensures Account([], queued, registered, 0)
  {
    NoDupOccurs(queued);
    forall a: AgentId ensures Occurs(queued, a) <= (if a in registered then 1 else 0)
        && (a in registered ==> a in queued) {
      assert a in queued <==> a in Elements(queued);
      assert a in queued <==> Occurs(queued, a) > 0;
    }
  }

  lemma AccountMore(log: seq<AgentId>, queued: seq<AgentId>, registered: set<AgentId>, removals: nat)
    requires Account(log, queued, registered, removals)
    ensures Account(log, queued, registered, removals + 1)
  {
  }

  lemma AccountLast(log: seq<AgentId>, queued: seq<AgentId>, registered: set<AgentId>, removals: nat)
    requires Account(log, queued, registered, removals)
    ensures forall a: AgentId :: Occurs(log, a) <= 1 + removals
    ensures queued == [] ==> forall a: AgentId :: a in registered ==> a in log
  {
  }

  lemma TakenAgents(queue: seq<Item>, i: nat)
    requires i < |queue|
    ensures AgentsOf(RemoveAt(queue, i)) == RemoveAt(AgentsOf(queue), i)
    ensures multiset(AgentsOf(queue)) == multiset{queue[i].agent} + multiset(AgentsOf(RemoveAt(queue, i)))
  {
    RemoveAtMultiset(AgentsOf(queue), i);
  }

  /** What holds of a queue and what was taken from it. */
  ghost predicate Split(all: seq<AgentId>, taken: seq<AgentId>, left: seq<AgentId>) {
    multiset(all) == multiset(taken) + multiset(left)
  }

  lemma SplitDistinct(all: seq<AgentId>, taken: seq<AgentId>, left: seq<AgentId>)
    requires Split(all, taken, left) && NoDup(all)
    ensures NoDup(taken + left) && NoDup(taken) && NoDup(left)
    ensures forall a: AgentId :: a in all <==> a in taken || a in left
    ensures forall a: AgentId :: a in taken ==> a !in left
  {
    var both := taken + left;
    assert multiset(both) == multiset(all);
    NoDupOccurs(all);
    assert forall a: AgentId :: Occurs(both, a) == Occurs(all, a);
    NoDupOccurs(both);
    assert forall i :: 0 <= i < |taken| ==> both[i] == taken[i];
    assert forall i :: 0 <= i < |left| ==> both[|taken| + i] == left[i];
    assert forall a: AgentId :: (a in all <==> a in multiset(all)) && (a in both <==> a in multiset(both));
  }

  lemma NoDupBoth(a: seq<AgentId>, b: seq<AgentId>)
    requires NoDup(a) && NoDup(b)
    ensures NoDup(a + b) <==> forall x: AgentId :: x in a ==> x !in b
  {
    if forall x: AgentId :: x in a ==> x !in b {
      NoDupConcat(a, b);
    } else {
      var x: AgentId :| x in a && x in b;
      var i :| 0 <= i < |a| && a[i] == x;
      var j :| 0 <= j < |b| && b[j] == x;
      assert (a + b)[i] == (a + b)[|a| + j];
    }
  }

  class PriorityScheduler {
    var queue: seq<Item>  // the heap; its internal order is not part of its meaning
    var priorities: map<AgentId, int>
    var decisions: nat

    /** Queued agents are registered, and each is queued once. */
    ghost predicate Valid()
      reads this
    {
      NoDup(AgentsOf(queue)) && forall a: AgentId :: a in AgentsOf(queue) ==> a in priorities
    }

    /** As left by a rebuild: every registered agent is queued with its current priority. */
    ghost predicate Full()
      reads this
    {
      Valid() && Matches(queue, priorities) && forall a: AgentId :: a in priorities ==> a in AgentsOf(queue)
    }

    constructor ()
      ensures Full() && queue == [] && priorities == map[]
    {
      queue, priorities, decisions := [], map[], 0;
    }

    method SetPriority(id: AgentId, priority: int)
      requires Valid()
      modifies this`priorities
      ensures Valid() && priorities == old(priorities)[id := priority]
    {
      priorities := priorities[id := priority];
    }

    method RebuildQueue()
      modifies this`queue
      ensures Full()
    {
      queue := [];
      var rest := priorities.Keys;
      while rest != {}
        invariant rest <= priorities.Keys
        invariant Valid() && Matches(queue, priorities)
        invariant forall a: AgentId :: a in priorities ==> (a in AgentsOf(queue) <==> a !in rest)
        decreases |rest|
      {
        var id :| id in rest;
        ghost var before := queue;
        queue := queue + [Item(id, priorities[id])];
        assert AgentsOf(queue) == AgentsOf(before) + [id];
        rest := rest - {id};
      }
    }

    /** Registers the agents anew, all with priority zero: earlier priorities are forgotten. */
    method Initialize(ids: seq<AgentId>)
      modifies this
      ensures Full() && priorities.Keys == Elements(ids) && decisions == old(decisions)
      ensures forall a: AgentId :: a in priorities ==> priorities[a] == 0
    {
      priorities := map[];
      for i := 0 to |ids|
        invariant priorities.Keys == Elements(ids[..i]) && decisions == old(decisions)
        invariant forall a: AgentId :: a in priorities ==> priorities[a] == 0
      {
        assert ids[..i + 1] == ids[..i] + [ids[i]];
        priorities := priorities[ids[i] := 0];
      }
      assert ids[..|ids|] == ids;
      RebuildQueue();
    }

    method Add(id: AgentId)
      requires Valid()
      modifies this`queue, this`priorities
      ensures Valid()
      ensures id in old(priorities) ==> queue == old(queue) && priorities == old(priorities)
      ensures id !in old(priorities) ==>
                priorities == old(priorities)[id := 0] && queue == old(queue) + [Item(id, 0)]
                && AgentsOf(queue) == AgentsOf(old(queue)) + [id]
    {
      if id !in priorities {
        priorities := priorities[id := 0];
        queue := queue + [Item(id, 0)];
        assert AgentsOf(queue) == AgentsOf(old(queue)) + [id];
        assert id !in AgentsOf(old(queue));
      }
    }

    /** Removing a registered agent rebuilds the whole queue. */
    method Remove(id: AgentId)
      requires Valid()
      modifies this`queue, this`priorities
      ensures Valid() && priorities == old(priorities) - {id}
      ensures id in old(priorities) ==> Full()
      ensures id !in old(priorities) ==> queue == old(queue)
    {
      if id in priorities {
        priorities := priorities - {id};
        RebuildQueue();
      }
    }

    /** Takes out some item of greatest priority. */
    method PopHeap() returns (item: Item, ghost i: nat)
      requires queue != []
      modifies this`queue
      ensures Greatest(old(queue), i) && item == old(queue)[i] && queue == RemoveAt(old(queue), i)
    {
      ghost var k := GreatestExists(queue);
      var n: nat :| n < |queue| && Greatest(queue, n);
      item, i := queue[n], n;
      queue := RemoveAt(queue, n);
    }

    /** Hands out the queued agents by priority. In a valid scheduler the check for removed agents
        never fires, because a removal rebuilds the queue. */
    method Next() returns (batch: seq<AgentId>, ghost i: nat)
      modifies this`queue, this`decisions
      ensures old(Valid()) ==> Valid() && Split(AgentsOf(old(queue)), batch, AgentsOf(queue))
      ensures old(Valid()) && old(queue) == [] ==> batch == [] && queue == []
      ensures old(Valid()) && old(queue) != [] ==>
                Greatest(old(queue), i) && batch == [old(queue)[i].agent] && queue == RemoveAt(old(queue), i)
    {
      ghost var stale := false;
      i := 0;
      while queue != []
        invariant if stale then !old(Valid()) else queue == old(queue)
        decreases |queue|
      {
        ghost var h := queue;
        var item;
        item, i := PopHeap();
        TakenAgents(h, i);
        assert AgentsOf(h)[i] == item.agent;
        if item.agent in priorities {
          decisions := decisions + 1;
          if old(Valid()) { SplitDistinct(AgentsOf(h), [item.agent], AgentsOf(queue)); }
          return [item.agent], i;
        }
        stale := true;
      }
      return [], 0;
    }

    predicate HasNext()
      reads this
    {
      queue != []
    }

    method ResetStep()
      modifies this`queue
      ensures Full()
    {
      RebuildQueue();
    }

    /** Asks for up to `limit` further batches. */
    method TakeTurns(limit: nat) returns (log: seq<AgentId>)
      requires Valid()
      modifies this`queue, this`decisions
      ensures Valid() && Split(AgentsOf(old(queue)), log, AgentsOf(queue))
      ensures |log| == (if |old(queue)| < limit then |old(queue)| else limit)
      ensures NoDup(log) && forall a: AgentId :: a in log ==> a in priorities
      ensures |queue| == |old(queue)| - |log|
      ensures Matches(old(queue), priorities) ==> Served(log, queue, priorities)
    {
      hide NoDup, Served, Matches;
      log := [];
      if Matches(old(queue), priorities) { ServedFirst(queue, priorities); }
      while |log| < limit && HasNext()
        invariant Valid() && Split(AgentsOf(old(queue)), log, AgentsOf(queue))
        invariant |log| + |queue| == |old(queue)| && |log| <= limit
        invariant forall a: AgentId :: a in log ==> a in priorities
        invariant Matches(old(queue), priorities) ==> Served(log, queue, priorities)
        decreases |queue|
      {
        ghost var h := queue;
        var batch, i := Next();
        assert AgentsOf(h)[i] in AgentsOf(h);
        if Matches(old(queue), priorities) { ServedNext(log, h, i, priorities); }
        log := log + batch;
      }
      SplitDistinct(AgentsOf(old(queue)), log, AgentsOf(queue));
    }

    /** A step without interference: every registered agent once, by falling priority. */
    method Step() returns (log: seq<AgentId>)
      requires Valid()
      modifies this`queue, this`decisions
      ensures Valid() && queue == [] && priorities == old(priorities)
      ensures IsStepOrder(log, priorities)
    {
      ResetStep();
      ghost var all := AgentsOf(queue);
      log := TakeTurns(|queue|);
      SplitDistinct(all, log, AgentsOf(queue));
    }

    /** Removing an agent in the middle of a step: all other agents are queued again, so that the
        agents that have already run will run twice. No agent runs twice exactly when nothing is
        registered under the removed id or nobody but the removed agent has run. */
    method RemoveMidStep(turns: nat, id: AgentId) returns (first: seq<AgentId>, second: seq<AgentId>)
      requires Valid()
      modifies this
      ensures Valid() && queue == [] && NoDup(first) && NoDup(second)
      ensures |first| == (if |old(priorities)| < turns then |old(priorities)| else turns)
      ensures id in old(priorities) ==> forall a: AgentId :: a in second <==> a in old(priorities) && a != id
      ensures id !in old(priorities) ==> forall a: AgentId :: a in second <==> a in old(priorities) && a !in first
      ensures NoDup(first + second) <==> id !in old(priorities) || forall a: AgentId :: a in first ==> a == id
    {
      hide NoDup, Split, Served, Matches, Falling;
      ResetStep();
      ghost var all := AgentsOf(queue);
      DistinctSize(all);
      assert Elements(all) == priorities.Keys;
      first := TakeTurns(turns);
      SplitDistinct(all, first, AgentsOf(queue));
      Remove(id);
      ghost var left := AgentsOf(queue);
      second := TakeTurns(|queue|);
      SplitDistinct(left, second, AgentsOf(queue));
      NoDupBoth(first, second);
    }

    method Perform(op: Op) returns (activated: seq<AgentId>)
      requires Valid()
      modifies this
      ensures Valid()
      ensures op.NextBatch? ==> Split(AgentsOf(old(queue)), activated, AgentsOf(queue)) && priorities == old(priorities)
      ensures !op.NextBatch? ==> activated == []
      ensures op.AddAgent? ==> priorities.Keys == old(priorities).Keys + {op.id}
      ensures op.AddAgent? ==>
                AgentsOf(queue) == AgentsOf(old(queue)) + (if op.id in old(priorities) then [] else [op.id])
      ensures op.RemoveAgent? ==> priorities == old(priorities) - {op.id}
      ensures op.RemoveAgent? && op.id in old(priorities) ==> Full()
      ensures op.RemoveAgent? && op.id !in old(priorities) ==> queue == old(queue)
    {
      activated := [];
      match op
      case NextBatch => ghost var i; activated, i := Next();
      case AddAgent(id) => Add(id); assert AgentsOf(old(queue)) + [] == AgentsOf(old(queue));
      case RemoveAgent(id) => Remove(id);
    }

    /** A step under any interleaving of batches, additions and removals: an agent runs at most
        once more than there are removals, and once the queue is empty every registered agent
        has run. */
    method InterruptedStep(ops: seq<Op>) returns (log: seq<AgentId>)
      requires Valid()
      modifies this
      ensures Valid()
      ensures forall a: AgentId :: Occurs(log, a) <= 1 + Removals(ops)
      ensures queue == [] ==> forall a: AgentId :: a in priorities ==> a in log
    {
      hide Account, NoDup;
      ResetStep();
      assert Elements(AgentsOf(queue)) == priorities.Keys;
      log := [];
      AccountFirst(AgentsOf(queue), priorities.Keys);
      for n := 0 to |ops|
        invariant Valid() && Account(log, AgentsOf(queue), priorities.Keys, Removals(ops[..n]))
      {
        assert ops[..n + 1][..n] == ops[..n];
        ghost var queued, registered, removals := AgentsOf(queue), priorities.Keys, Removals(ops[..n]);
        var activated := Perform(ops[n]);
        if ops[n].NextBatch? {
          AccountNext(log, queued, registered, removals, activated, AgentsOf(queue));
        } else if ops[n].AddAgent? {
          if ops[n].id !in registered { AccountAdd(log, queued, registered, removals, ops[n].id); }
          assert ops[n].id in registered ==> priorities.Keys == registered && AgentsOf(queue) == queued + [] == queued;
        } else if ops[n].id in registered {
          assert Elements(AgentsOf(queue)) == priorities.Keys == registered - {ops[n].id};
          AccountRemove(log, queued, registered, removals, ops[n].id, AgentsOf(queue));
        } else {
          assert priorities.Keys == registered;
          AccountMore(log, queued, registered, removals);
        }
        assert log + [] == log;
        log := log + activated;
      }
      assert ops[..|ops|] == ops;
      AccountLast(log, AgentsOf(queue), priorities.Keys, Removals(ops));
    }
  }

  function Removals(ops: seq<Op>): nat {
    if ops == [] then 0
    else Removals(ops[..|ops| - 1]) + (if ops[|ops| - 1].RemoveAgent? then 1 else 0)
  }

  // ---------------------------------------------------------------------------------------
  // Is the order of a step determined

  /** Every registered agent once, by falling priority. */
  ghost predicate IsStepOrder(log: seq<AgentId>, priorities: map<AgentId, int>) {
    NoDup(log) && (forall a: AgentId :: a in log <==> a in priorities) && Falling(log, priorities)
  }

  ghost predicate DistinctPriorities(priorities: map<AgentId, int>) {
    forall a: AgentId, b: AgentId :: a in priorities && b in priorities && a != b ==> priorities[a] != priorities[b]
  }

  ghost predicate IsGreatest(priorities: map<AgentId, int>, g: AgentId) {
    g in priorities && forall a: AgentId :: a in priorities ==> priorities[a] <= priorities[g]
  }

  lemma {:induction false} GreatestAgent(priorities: map<AgentId, int>) returns (g: AgentId)
    requires priorities != map[]
    ensures IsGreatest(priorities, g)
    decreases |priorities|
  {
    var x :| x in priorities;
    g := x;
    var rest := priorities - {x};
    if rest != map[] {
      var k := GreatestAgent(rest);
      if priorities[k] > priorities[x] { g := k; }
    }
    forall a: AgentId | a in priorities ensures priorities[a] <= priorities[g] {
      if a != x { assert a in rest; }
    }
  }

  lemma ConsOrder(priorities: map<AgentId, int>, g: AgentId, rest: seq<AgentId>)
    requires IsGreatest(priorities, g) && IsStepOrder(rest, priorities - {g})
    ensures IsStepOrder([g] + rest, priorities)
  {
    var log := [g] + rest;
    assert forall a: AgentId :: a in log <==> a == g || a in rest;
    assert forall i :: 0 <= i < |rest| ==> rest[i] in rest;
    NoDupConcat([g], rest);
  }

  lemma TailOrder(priorities: map<AgentId, int>, log: seq<AgentId>)
    requires IsStepOrder(log, priorities) && log != []
    ensures IsGreatest(priorities, log[0]) && IsStepOrder(log[1..], priorities - {log[0]})
  {
    var rest := log[1..];
    assert log == [log[0]] + rest;
    forall a: AgentId | a in priorities ensures priorities[a] <= priorities[log[0]] {
      assert a in log;
      var i :| 0 <= i < |log| && log[i] == a;
    }
    assert forall i :: 0 <= i < |rest| ==> rest[i] == log[i + 1];
    assert forall a: AgentId :: a in rest <==> a in log && a != log[0];
  }

  lemma {:induction false} SomeOrder(priorities: map<AgentId, int>) returns (log: seq<AgentId>)
    ensures IsStepOrder(log, priorities)
    decreases |priorities|
  {
    if priorities == map[] {
      log := [];
    } else {
      var g := GreatestAgent(priorities);
      var rest := SomeOrder(priorities - {g});
      ConsOrder(priorities, g, rest);
      log := [g] + rest;
    }
  }

  /** Two agents of equal priority can change places. */
  lemma {:induction false} TwoOrders(priorities: map<AgentId, int>, x: AgentId, y: AgentId)
    returns (a: seq<AgentId>, b: seq<AgentId>)
    requires x in priorities && y in priorities && x != y && priorities[x] == priorities[y]
    ensures IsStepOrder(a, priorities) && IsStepOrder(b, priorities) && a != b
    decreases |priorities|
  {
    var g := GreatestAgent(priorities);
    if priorities[g] == priorities[x] {
      var restX := SomeOrder(priorities - {x});
      var restY := SomeOrder(priorities - {y});
      ConsOrder(priorities, x, restX);
      ConsOrder(priorities, y, restY);
      a, b := [x] + restX, [y] + restY;
      assert a[0] != b[0];
    } else {
      var restA, restB := TwoOrders(priorities - {g}, x, y);
      ConsOrder(priorities, g, restA);
      ConsOrder(priorities, g, restB);
      a, b := [g] + restA, [g] + restB;
      assert a[1..] == restA && b[1..] == restB;
    }
  }

  lemma OneGreatest(priorities: map<AgentId, int>, g: AgentId, h: AgentId)
    requires DistinctPriorities(priorities) && IsGreatest(priorities, g) && IsGreatest(priorities, h)
    ensures g == h && DistinctPriorities(priorities - {g})
  {
  }

  lemma NobodyLeft(priorities: map<AgentId, int>, a: seq<AgentId>, b: seq<AgentId>)
    requires IsStepOrder(a, priorities) && IsStepOrder(b, priorities)
    ensures a == [] <==> b == []
  {
    assert a != [] ==> a[0] in priorities;
    assert b != [] ==> b[0] in priorities;
  }

  lemma {:induction false} OneOrder(priorities: map<AgentId, int>, a: seq<AgentId>, b: seq<AgentId>)
    requires DistinctPriorities(priorities) && IsStepOrder(a, priorities) && IsStepOrder(b, priorities)
    ensures a == b
    decreases |a|
  {
    hide IsStepOrder, DistinctPriorities, IsGreatest;
    NobodyLeft(priorities, a, b);
    if a != [] {
      TailOrder(priorities, a);
      TailOrder(priorities, b);
      OneGreatest(priorities, a[0], b[0]);
      OneOrder(priorities - {a[0]}, a[1..], b[1..]);
      assert a == [a[0]] + a[1..] && b == [b[0]] + b[1..];
    }
  }

  /** The priorities determine the order of a step exactly when they are all different. */
  lemma OrderDeterminedIff(priorities: map<AgentId, int>)
    ensures (forall a, b :: IsStepOrder(a, priorities) && IsStepOrder(b, priorities) ==> a == b)
       <==> DistinctPriorities(priorities)
  {
    hide IsStepOrder;
    if DistinctPriorities(priorities) {
      forall a, b | IsStepOrder(a, priorities) && IsStepOrder(b, priorities) ensures a == b {
        OneOrder(priorities, a, b);
      }
    } else {
      var x: AgentId, y: AgentId :| x in priorities && y in priorities && x != y && priorities[x] == priorities[y];
      var a, b := TwoOrders(priorities, x, y);
    }
  }

  /** After `Initialize` the order is determined only for at most one agent. */
  lemma ZeroPriorities(priorities: map<AgentId, int>)
    requires forall a: AgentId :: a in priorities ==> priorities[a] == 0
    ensures DistinctPriorities(priorities) <==> |priorities| <= 1
  {
    if |priorities| > 1 {
      var x :| x in priorities;
      assert |priorities.Keys| == |priorities| && priorities.Keys != {x};
      assert exists y: AgentId :: y in priorities && y != x;
    } else {
      forall a: AgentId, b: AgentId | a in priorities && b in priorities ensures a == b {
        SubsetSize({a, b}, priorities.Keys);
        assert |priorities.Keys| == |priorities|;
      }
    }
  }

  /** `log` can come out of a heap with these items, popping some greatest one at a time. */
  ghost predicate CanServe(queue: seq<Item>, log: seq<AgentId>)
    decreases |log|
  {
    if log == [] then queue == []
    else exists i: nat :: Greatest(queue, i) && queue[i].agent == log[0] && CanServe(RemoveAt(queue, i), log[1..])
  }

  /** Every step order can come out of the heap, so the heap's contract determines no more. */
  lemma {:induction false} HeapAllows(queue: seq<Item>, priorities: map<AgentId, int>, log: seq<AgentId>)
    requires NoDup(AgentsOf(queue)) && Matches(queue, priorities)
    requires IsStepOrder(log, priorities) && forall a: AgentId :: a in priorities ==> a in AgentsOf(queue)
    ensures CanServe(queue, log)
    decreases |log|
  {
    assert queue != [] ==> queue[0].agent in priorities && queue[0].agent in log;
    if log != [] {
      TailOrder(priorities, log);
      var agents := AgentsOf(queue);
      var i :| 0 <= i < |agents| && agents[i] == log[0];
      assert Greatest(queue, i);
      TakenAgents(queue, i);
      RemoveDistinctAgents(queue, i);
      HeapAllows(RemoveAt(queue, i), priorities - {log[0]}, log[1..]);
    }
  }

  lemma RemoveDistinctAgents(queue: seq<Item>, i: nat)
    requires i < |queue| && NoDup(AgentsOf(queue))
    ensures var left := AgentsOf(RemoveAt(queue, i));
            NoDup(left) && forall a: AgentId :: a in left <==> a in AgentsOf(queue) && a != queue[i].agent
  {
    TakenAgents(queue, i);
    forall a: AgentId { RemoveDistinct(AgentsOf(queue), i, a); }
  }
}
