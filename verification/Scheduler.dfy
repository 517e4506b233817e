/** The interchangeable schedulers. Random, Sequential and Parallel walk a cursor over a list of
    agents; Priority drains a heap; EventBased serves a time-ordered list. */
module Scheduler {
  import opened Prelude

  type AgentId = nat

  /** The state of the random generator. */
  type Rng = nat

  /** A seeded shuffle: the shuffled list and the generator's next state. */
  type Shuffle = (seq<AgentId>, Rng) -> (seq<AgentId>, Rng)

  ghost predicate Permutes(shuffle: Shuffle) {
    forall s: seq<AgentId>, g: Rng :: multiset(shuffle(s, g).0) == multiset(s)
  }

  datatype Kind = Random | Sequential | Parallel(size: nat)

  function BatchSize(kind: Kind): nat {
    if kind.Parallel? && kind.size > 1 then kind.size else 1
  }

  // ---------------------------------------------------------------------------------------
  // The cursor

  datatype Cursor = Cursor(agents: seq<AgentId>, index: nat, rng: Rng)

  ghost predicate Consistent(c: Cursor) {
    NoDup(c.agents) && c.index <= |c.agents|
  }

  function Position(s: seq<AgentId>, x: AgentId): (i: nat)
    ensures i <= |s| && x !in s[..i] && (i < |s| ==> s[i] == x)
  {
    if s == [] || s[0] == x then 0
    else
      var i := Position(s[1..], x) + 1;
      assert s[..i] == [s[0]] + s[1..][..i - 1];
      i
  }

  function Shuffled(c: Cursor, kind: Kind, shuffle: Shuffle): Cursor {
    if kind.Random? then
      var (agents, rng) := shuffle(c.agents, c.rng);
      Cursor(agents, c.index, rng)
    else c
  }

  function Restarted(c: Cursor, kind: Kind, shuffle: Shuffle): Cursor {
    Shuffled(c, kind, shuffle).(index := 0)
  }

  function Added(c: Cursor, id: AgentId): Cursor {
    if id in c.agents then c else c.(agents := c.agents + [id])
  }

  /** Removing an agent that already had its turn moves the cursor back with the list. */
  function Removed(c: Cursor, id: AgentId): Cursor {
    var p := Position(c.agents, id);
    if p == |c.agents| then c
    else Cursor(RemoveAt(c.agents, p), if p < c.index then SaturatingSub(c.index, 1) else c.index, c.rng)
  }

  function EndIndex(c: Cursor, size: nat): nat {
    if c.index + size < |c.agents| then c.index + size else |c.agents|
  }

  function Batch(c: Cursor, size: nat): seq<AgentId> {
    if c.index < EndIndex(c, size) then c.agents[c.index..EndIndex(c, size)] else []
  }

  function Advanced(c: Cursor, size: nat): Cursor {
    if c.index < EndIndex(c, size) then c.(index := EndIndex(c, size)) else c
  }

  datatype Op = NextBatch | AddAgent(id: AgentId) | RemoveAgent(id: AgentId)

  function After(c: Cursor, size: nat, op: Op): Cursor {
    match op
    case NextBatch => Advanced(c, size)
    case AddAgent(id) => Added(c, id)
    case RemoveAgent(id) => Removed(c, id)
  }

  function Activated(c: Cursor, size: nat, op: Op): seq<AgentId> {
    if op.NextBatch? then Batch(c, size) else []
  }

  function Final(c: Cursor, size: nat, ops: seq<Op>): Cursor
    decreases |ops|
  {
    if ops == [] then c else Final(After(c, size, ops[0]), size, ops[1..])
  }

  /** Every agent activated over a history, in order. */
  function Log(c: Cursor, size: nat, ops: seq<Op>): seq<AgentId>
    decreases |ops|
  {
    if ops == [] then [] else Activated(c, size, ops[0]) + Log(After(c, size, ops[0]), size, ops[1..])
  }

  predicate HasHadTurn(c: Cursor, a: AgentId)
    requires c.index <= |c.agents|
  {
    a in c.agents[..c.index]
  }

  lemma RemoveDistinct(s: seq<AgentId>, p: nat, a: AgentId)
    requires p < |s| && NoDup(s)
    ensures NoDup(RemoveAt(s, p)) && (a in RemoveAt(s, p) <==> a in s && a != s[p])
  {
    var r := RemoveAt(s, p);
    assert forall k :: 0 <= k < |r| ==> r[k] == s[if k < p then k else k + 1];
    if a in s && a != s[p] {
      var k :| 0 <= k < |s| && s[k] == a;
      assert r[if k < p then k else k - 1] == a;
    }
  }

  lemma RemovedStays(c: Cursor, id: AgentId, a: AgentId)
    requires Consistent(c)
    ensures var d := Removed(c, id);
            && Consistent(d)
            && (a in d.agents <==> a in c.agents && a != id)
            && (HasHadTurn(d, a) <==> HasHadTurn(c, a) && a != id)
  {
  }

  lemma AddedStays(c: Cursor, id: AgentId, a: AgentId)
    requires Consistent(c)
    ensures var d := Added(c, id);
            && Consistent(d)
            && (a in d.agents <==> a in c.agents || a == id)
            && (HasHadTurn(d, a) <==> HasHadTurn(c, a))
  {
    assert Added(c, id).agents[..c.index] == c.agents[..c.index];
  }

  lemma AdvancedMoves(c: Cursor, size: nat, a: AgentId)
    requires Consistent(c)
    ensures var d := Advanced(c, size);
            && Consistent(d) && d.agents == c.agents
            && (HasHadTurn(d, a) <==> HasHadTurn(c, a) || a in Batch(c, size))
            && Occurs(Batch(c, size), a) <= (if HasHadTurn(c, a) then 0 else 1)
  {
    var d, b := Advanced(c, size), Batch(c, size);
    assert d.agents[..d.index] == c.agents[..c.index] + b;
    assert NoDup(c.agents[..c.index] + b);
    NoDupOccurs(c.agents[..c.index] + b);
    OccursConcat(c.agents[..c.index], b, a);
    assert HasHadTurn(c, a) ==> Occurs(c.agents[..c.index], a) > 0;
  }

  /** Between two activations of an agent it was removed: over any history that follows a reset,
      an agent is activated at most once more than it is removed. */
  lemma {:induction false} AtMostOncePerRegistration(c: Cursor, size: nat, ops: seq<Op>, a: AgentId)
    requires Consistent(c)
    ensures Consistent(Final(c, size, ops))
    ensures Occurs(Log(c, size, ops), a) <= Occurs(ops, RemoveAgent(a)) + (if HasHadTurn(c, a) then 0 else 1)
    decreases |ops|
  {
    if ops != [] {
      var op := ops[0];
      AtMostOncePerRegistration(After(c, size, op), size, ops[1..], a) by {
        TurnStep(c, size, op, a);
      }
      TurnStep(c, size, op, a);
      OccursConcat(Activated(c, size, op), Log(After(c, size, op), size, ops[1..]), a);
      assert ops == [op] + ops[1..];
      OccursConcat([op], ops[1..], RemoveAgent(a));
    }
  }

  lemma TurnStep(c: Cursor, size: nat, op: Op, a: AgentId)
    requires Consistent(c)
    ensures var d := After(c, size, op);
            && Consistent(d)
            && (HasHadTurn(d, a) <==> (HasHadTurn(c, a) || a in Activated(c, size, op)) && op != RemoveAgent(a))
            && (a in d.agents <==> (a in c.agents || op == AddAgent(a)) && op != RemoveAgent(a))
            && Occurs(Activated(c, size, op), a) <= (if HasHadTurn(c, a) then 0 else 1)
  {
    if op.NextBatch? {
      AdvancedMoves(c, size, a);
    } else if op.AddAgent? {
      AddedStays(c, op.id, a);
    } else {
      RemovedStays(c, op.id, a);
    }
  }

  /** Once nothing is left in the step, every agent still registered has had its turn. */
  lemma {:induction false} NoneMissed(c: Cursor, size: nat, ops: seq<Op>, a: AgentId)
    requires Consistent(c)
    requires Final(c, size, ops).index >= |Final(c, size, ops).agents| && a in Final(c, size, ops).agents
    ensures HasHadTurn(c, a) || a in Log(c, size, ops)
    decreases |ops|
  {
    if ops != [] {
      TurnStep(c, size, ops[0], a);
      NoneMissed(After(c, size, ops[0]), size, ops[1..], a);
    }
  }

  /** An agent is registered at the end when it was registered or added and never removed. */
  lemma {:induction false} StaysRegistered(c: Cursor, size: nat, ops: seq<Op>, a: AgentId)
    requires Consistent(c) && RemoveAgent(a) !in ops
    ensures a in Final(c, size, ops).agents <==> a in c.agents || AddAgent(a) in ops
    decreases |ops|
  {
    if ops != [] {
      TurnStep(c, size, ops[0], a);
      assert ops == [ops[0]] + ops[1..];
      StaysRegistered(After(c, size, ops[0]), size, ops[1..], a);
    }
  }

  /** From a reset until nothing is left, under any interleaving of batches, additions and
      removals: an agent registered or added and never removed is activated exactly once. */
  lemma ActivatedExactlyOnce(c: Cursor, size: nat, ops: seq<Op>, a: AgentId)
    requires Consistent(c) && c.index == 0
    requires Final(c, size, ops).index >= |Final(c, size, ops).agents|
    requires RemoveAgent(a) !in ops && (a in c.agents || AddAgent(a) in ops)
    ensures Occurs(Log(c, size, ops), a) == 1
  {
    StaysRegistered(c, size, ops, a);
    NoneMissed(c, size, ops, a);
    AtMostOncePerRegistration(c, size, ops, a);
  }

  function Batches(k: nat): seq<Op> {
    seq(k, _ => NextBatch)
  }

  /** Without additions and removals the batches, put together, are the list in order, whatever
      the batch size. */
  lemma {:induction false} BatchesInOrder(c: Cursor, size: nat, k: nat)
    requires c.index <= |c.agents|
    ensures var d := Final(c, size, Batches(k));
            && d.agents == c.agents && c.index <= d.index <= |c.agents|
            && Log(c, size, Batches(k)) == c.agents[c.index..d.index]
            && (size > 0 && k >= |c.agents| - c.index ==> d.index == |c.agents|)
    decreases k
  {
    if k > 0 {
      assert Batches(k)[1..] == Batches(k - 1) && Batches(k)[0] == NextBatch;
      var c1 := Advanced(c, size);
      BatchesInOrder(c1, size, k - 1);
      var d := Final(c1, size, Batches(k - 1));
      assert Final(c, size, Batches(k)) == d;
      assert c.agents[c.index..d.index] == c.agents[c.index..c1.index] + c.agents[c1.index..d.index];
    }
  }

  /** A Parallel step hands out the Sequential order, for every batch size. */
  lemma ParallelEqualsSequential(c: Cursor, size: nat, k: nat, j: nat)
    requires c.index <= |c.agents| && size > 0
    requires Final(c, size, Batches(k)).index == |c.agents| == Final(c, 1, Batches(j)).index
    ensures Log(c, size, Batches(k)) == Log(c, 1, Batches(j))
  {
    BatchesInOrder(c, size, k);
    BatchesInOrder(c, 1, j);
  }

  class CursorScheduler {
    const kind: Kind
    const shuffle: Shuffle
    var agents: seq<AgentId>
    var currentIndex: nat
    var rng: Rng
    var decisions: nat

    ghost function State(): Cursor
      reads this
    {
      Cursor(agents, currentIndex, rng)
    }

    ghost predicate Valid()
      reads this
    {
      Permutes(shuffle) && Consistent(State())
    }

    constructor (kind: Kind, shuffle: Shuffle, seed: Rng)
      requires Permutes(shuffle)
      ensures Valid() && this.kind == kind && this.shuffle == shuffle
      ensures State() == Cursor([], 0, seed)
    {
      this.kind, this.shuffle := kind, shuffle;
      agents, currentIndex, rng, decisions := [], 0, seed, 0;
    }

    method Shuffle()
      requires Permutes(shuffle) && NoDup(agents)
      modifies this`agents, this`rng
      ensures multiset(agents) == multiset(old(agents)) && NoDup(agents)
      ensures kind.Random? ==> (agents, rng) == shuffle(old(agents), old(rng))
      ensures !kind.Random? ==> agents == old(agents) && rng == old(rng)
    {
      if kind.Random? {
        ghost var before := agents;
        var (shuffled, next) := shuffle(agents, rng);
        agents, rng := shuffled, next;
        NoDupOccurs(before);
        NoDupOccurs(agents);
        assert forall x :: Occurs(agents, x) == Occurs(before, x);
      }
    }

    method Initialize(ids: seq<AgentId>)
      requires Valid() && NoDup(ids)
      modifies this
      ensures Valid() && multiset(agents) == multiset(ids)
      ensures State() == Restarted(Cursor(ids, 0, old(rng)), kind, shuffle)
      ensures decisions == old(decisions)
    {
      agents := ids;
      Shuffle();
      currentIndex := 0;
    }

    method Add(id: AgentId)
      requires Valid()
      modifies this
      ensures Valid() && State() == Added(old(State()), id) && decisions == old(decisions)
    {
      AddedStays(State(), id, id);
      if id !in agents {
        agents := agents + [id];
      }
    }

    method Remove(id: AgentId)
      requires Valid()
      modifies this
      ensures Valid() && State() == Removed(old(State()), id) && decisions == old(decisions)
    {
      RemovedStays(State(), id, id);
      var position := Position(agents, id);
      if position < |agents| {
        agents := RemoveAt(agents, position);
        if position < currentIndex {
          currentIndex := SaturatingSub(currentIndex, 1);
        }
      }
    }

    method Next() returns (batch: seq<AgentId>)
      requires Valid()
      modifies this
      ensures Valid() && agents == old(agents) && rng == old(rng)
      ensures batch + agents[currentIndex..] == old(agents[currentIndex..])
      ensures |batch| == (if |old(agents[currentIndex..])| < BatchSize(kind) then |old(agents[currentIndex..])|
                else BatchSize(kind))
      ensures batch == Batch(old(State()), BatchSize(kind)) && State() == Advanced(old(State()), BatchSize(kind))
      ensures decisions == old(decisions) + (if batch == [] then 0 else 1)
    {
      var end := if currentIndex + BatchSize(kind) < |agents| then currentIndex + BatchSize(kind) else |agents|;
      if currentIndex < end {
        batch := agents[currentIndex..end];
        currentIndex := end;
        decisions := decisions + 1;
      } else {
        batch := [];
      }
    }

    predicate HasNext()
      reads this
    {
      currentIndex < |agents|
    }

    method ResetStep()
      requires Valid()
      modifies this
      ensures Valid() && multiset(agents) == multiset(old(agents)) && currentIndex == 0
      ensures State() == Restarted(old(State()), kind, shuffle) && decisions == old(decisions)
    {
      Shuffle();
      currentIndex := 0;
    }

    method Perform(op: Op) returns (activated: seq<AgentId>)
      requires Valid()
      modifies this
      ensures Valid()
      ensures activated == Activated(old(State()), BatchSize(kind), op)
      ensures State() == After(old(State()), BatchSize(kind), op)
    {
      activated := [];
      match op
      case NextBatch => activated := Next();
      case AddAgent(id) => Add(id);
      case RemoveAgent(id) => Remove(id);
    }

    method PerformAll(ops: seq<Op>) returns (log: seq<AgentId>)
      requires Valid()
      modifies this
      ensures Valid()
      ensures log == Log(old(State()), BatchSize(kind), ops) && State() == Final(old(State()), BatchSize(kind), ops)
    {
      ghost var c, size := State(), BatchSize(kind);
      log := [];
      assert ops[0..] == ops;
      for i := 0 to |ops|
        invariant Valid()
        invariant log + Log(State(), size, ops[i..]) == Log(c, size, ops)
        invariant Final(State(), size, ops[i..]) == Final(c, size, ops)
      {
        assert ops[i..][1..] == ops[i + 1..];
        var activated := Perform(ops[i]);
        log := log + activated;
      }
    }

    /** A step: a reset, then any interleaving of batches, additions and removals. */
    method Step(ops: seq<Op>) returns (log: seq<AgentId>)
      requires Valid()
      modifies this
      ensures Valid()
      ensures forall a: AgentId :: Occurs(log, a) <= 1 + Occurs(ops, RemoveAgent(a))
      ensures !HasNext() ==> forall a: AgentId :: a in agents ==> a in log
      ensures !HasNext() ==> forall a: AgentId :: RemoveAgent(a) !in ops && (a in old(agents) || AddAgent(a) in ops) ==>
                Occurs(log, a) == 1
    {
      hide Log, Final, NoDup, Permutes;
      ghost var before := agents;
      ResetStep();
      ghost var c := State();
      log := PerformAll(ops);
      StepFacts(c, BatchSize(kind), ops, before);
    }
  }

  lemma StepFacts(c: Cursor, size: nat, ops: seq<Op>, before: seq<AgentId>)
    requires Consistent(c) && c.index == 0 && multiset(c.agents) == multiset(before)
    ensures forall a: AgentId :: Occurs(Log(c, size, ops), a) <= 1 + Occurs(ops, RemoveAgent(a))
    ensures var d := Final(c, size, ops);
            d.index >= |d.agents| ==>
              && (forall a: AgentId :: a in d.agents ==> a in Log(c, size, ops))
              && forall a: AgentId :: RemoveAgent(a) !in ops && (a in before || AddAgent(a) in ops) ==>
                  Occurs(Log(c, size, ops), a) == 1
  {
    hide Log, Final, NoDup, Occurs;
    var d := Final(c, size, ops);
    forall a: AgentId ensures Occurs(Log(c, size, ops), a) <= 1 + Occurs(ops, RemoveAgent(a)) {
      AtMostOncePerRegistration(c, size, ops, a);
    }
    if d.index >= |d.agents| {
      forall a: AgentId | a in d.agents ensures a in Log(c, size, ops) { NoneMissed(c, size, ops, a); }
      forall a: AgentId | RemoveAgent(a) !in ops && (a in before || AddAgent(a) in ops)
        ensures Occurs(Log(c, size, ops), a) == 1 {
        assert a in before ==> a in multiset(before);
        ActivatedExactlyOnce(c, size, ops, a);
      }
    }
  }
}
