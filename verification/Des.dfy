/** The discrete event simulator: its event queue and counters, its run loop, checkpoints and
    rollback. */
module Des {
  import opened Prelude

  type EventId = nat
  type Value = nat

  datatype Priority = Critical | High | Normal | Low | Background {
    function Value(): int {
      match this
      case Critical => 0
      case High => 1
      case Normal => 5
      case Low => 10
      case Background => 15
    }
  }

  datatype EventData = StateChange(value: Value) | Other

  datatype Event = Event(id: EventId, time: real, priority: Priority, data: EventData) {
    function Rank(): Key {
      Key(time, priority)
    }
  }

  datatype Key = Key(time: real, priority: Priority)

  predicate KeyLess(a: Key, b: Key) {
    a.time < b.time || (a.time == b.time && a.priority.Value() < b.priority.Value())
  }

  /** The queue pops the greatest key: the latest time and, among equal times, the least urgent
      priority. */
  predicate IsGreatest(queue: map<EventId, Key>, id: EventId) {
    id in queue && forall j: EventId :: j in queue ==> !KeyLess(queue[id], queue[j])
  }

  lemma {:induction false} GreatestExists(queue: map<EventId, Key>) returns (id: EventId)
    requires queue != map[]
    ensures IsGreatest(queue, id)
    decreases |queue|
  {
    var a :| a in queue;
    id := a;
    var rest := queue - {a};
    if rest != map[] {
      var k := GreatestExists(rest);
      if KeyLess(queue[a], queue[k]) { id := k; }
    }
    forall j: EventId | j in queue ensures !KeyLess(queue[id], queue[j]) {
      if j != a { assert j in rest; }
    }
  }

  // ---------------------------------------------------------------------------------------
  // Counters

  function Count(distribution: map<Priority, nat>, p: Priority): nat {
    if p in distribution then distribution[p] else 0
  }

  function Sum(distribution: map<Priority, nat>): nat {
    Count(distribution, Critical) + Count(distribution, High) + Count(distribution, Normal)
    + Count(distribution, Low) + Count(distribution, Background)
  }

  function PendingWith(events: map<EventId, Event>, p: Priority): set<EventId> {
    set id | id in events && events[id].priority == p
  }

  /** The distribution counts at least the pending events of each priority. */
  ghost predicate Covered(events: map<EventId, Event>, distribution: map<Priority, nat>) {
    forall p :: |PendingWith(events, p)| <= Count(distribution, p)
  }

  /** The queue and the event table hold the same ids, with matching keys. */
  ghost predicate Paired(queue: map<EventId, Key>, events: map<EventId, Event>) {
    && queue.Keys == events.Keys
    && forall id :: id in events ==> events[id].id == id && events[id].time >= 0.0 && queue[id] == events[id].Rank()
  }

  function Recount(distribution: map<Priority, nat>, p: Priority, n: nat): map<Priority, nat> {
    distribution[p := n]
  }

  lemma RecountChanges(distribution: map<Priority, nat>, p: Priority, n: nat)
    ensures Sum(Recount(distribution, p, n)) == Sum(distribution) - Count(distribution, p) + n
    ensures forall q :: Count(Recount(distribution, p, n), q) == if q == p then n else Count(distribution, q)
  {
    var after := Recount(distribution, p, n);
    forall q ensures Count(after, q) == if q == p then n else Count(distribution, q) {}
  }

  lemma PendingInsert(events: map<EventId, Event>, e: Event, p: Priority)
    ensures |PendingWith(events[e.id := e], p)| <= |PendingWith(events, p)| + (if p == e.priority then 1 else 0)
  {
    var after := PendingWith(events[e.id := e], p);
    SubsetSize(after, if p == e.priority then PendingWith(events, p) + {e.id} else PendingWith(events, p));
  }

  lemma PendingRemove(events: map<EventId, Event>, id: EventId, p: Priority)
    requires id in events
    ensures |PendingWith(events - {id}, p)| == |PendingWith(events, p)| - (if p == events[id].priority then 1 else 0)
  {
    var before := PendingWith(events, p);
    assert PendingWith(events - {id}, p) == before - {id};
    assert p == events[id].priority ==> id in before;
  }

  lemma CoveredInsert(events: map<EventId, Event>, e: Event, distribution: map<Priority, nat>)
    requires Covered(events, distribution)
    ensures var counts := Recount(distribution, e.priority, Count(distribution, e.priority) + 1);
            Covered(events[e.id := e], counts) && Sum(counts) == Sum(distribution) + 1
  {
    hide PendingWith, Recount, Count, Sum;
    RecountChanges(distribution, e.priority, Count(distribution, e.priority) + 1);
    forall p ensures |PendingWith(events[e.id := e], p)| <= |PendingWith(events, p)|
        + (if p == e.priority then 1 else 0) {
      PendingInsert(events, e, p);
    }
  }

  lemma CoveredRemove(events: map<EventId, Event>, id: EventId, distribution: map<Priority, nat>)
    requires Covered(events, distribution) && id in events
    ensures Covered(events - {id}, distribution) && Count(distribution, events[id].priority) > 0
    ensures var counts := Recount(distribution, events[id].priority, Count(distribution, events[id].priority) - 1);
            Covered(events - {id}, counts) && Sum(counts) == Sum(distribution) - 1
  {
    hide PendingWith, Recount, Count, Sum;
    var p := events[id].priority;
    forall q ensures |PendingWith(events - {id}, q)| == |PendingWith(events, q)| - (if q == p then 1 else 0) {
      PendingRemove(events, id, q);
    }
    assert |PendingWith(events - {id}, p)| == |PendingWith(events, p)| - 1;
    RecountChanges(distribution, p, Count(distribution, p) - 1);
  }

  lemma PairedInsert(queue: map<EventId, Key>, events: map<EventId, Event>, e: Event)
    requires Paired(queue, events) && e.time >= 0.0
    ensures Paired(queue[e.id := e.Rank()], events[e.id := e])
    ensures |queue[e.id := e.Rank()]| == |queue| + (if e.id in events then 0 else 1)
  {
    InsertSize(queue, e.id, e.Rank());
  }

  lemma InsertSize(queue: map<EventId, Key>, id: EventId, key: Key)
    ensures queue[id := key].Keys == queue.Keys + {id}
    ensures |queue[id := key]| == |queue| + (if id in queue then 0 else 1)
  {
    var after := queue[id := key];
    assert after.Keys == queue.Keys + {id};
    assert |after| == |after.Keys| && |queue| == |queue.Keys|;
    assert id in queue ==> after.Keys == queue.Keys;
  }

  lemma PairedRemove(queue: map<EventId, Key>, events: map<EventId, Event>, id: EventId)
    requires Paired(queue, events) && id in events
    ensures Paired(queue - {id}, events - {id}) && |queue| > 0 && |queue - {id}| == |queue| - 1
  {
    assert queue.Keys == (queue - {id}).Keys + {id};
  }

  /** Whether a call on the queue went through, was refused, or waits for a lock for ever. */
  datatype Outcome = Done | Refused | Blocked

  class EventQueue {
    var queue: map<EventId, Key>
    var events: map<EventId, Event>
    var locked: bool  // the queue's write lock is held by the caller
    var total: nat
    var processed: nat
    var pending: nat
    var distribution: map<Priority, nat>
    ghost var cancelled: nat
    ghost var drift: nat  // by how much `pending` overstates the queue

    ghost predicate Valid()
      reads this
    {
      && Paired(queue, events) && Covered(events, distribution)
      && pending == |queue| + drift
      && total == processed + pending + cancelled
      && Sum(distribution) == processed + pending
    }

    constructor ()
      ensures Valid() && queue == map[] && events == map[] && !locked && drift == 0 && processed == 0
    {
      queue, events, locked, distribution := map[], map[], false, map[];
      total, processed, pending, cancelled, drift := 0, 0, 0, 0, 0;
    }

    /** Negative times are refused. Scheduling an id that is still pending replaces the event, but
        is counted again. */
    method ScheduleEvent(event: Event) returns (r: Outcome)
      requires Valid()
      modifies this
      ensures Valid() && locked == old(locked)
      ensures r == if event.time < 0.0 then Refused else if old(locked) then Blocked else Done
      ensures r != Done ==> unchanged(this)
      ensures r == Done ==>
                && events == old(events)[event.id := event] && processed == old(processed)
                && cancelled == old(cancelled)
                && total == old(total) + 1 && drift == old(drift) + (if event.id in old(events) then 1 else 0)
    {
      hide Covered, Paired, Sum, Count, Recount;
      if event.time < 0.0 {
        return Refused;
      }
      if locked {
        return Blocked;
      }
      CoveredInsert(events, event, distribution);
      PairedInsert(queue, events, event);
      drift := if event.id in events then drift + 1 else drift;
      queue := queue[event.id := event.Rank()];
      events := events[event.id := event];
      total := total + 1;
      pending := pending + 1;
      distribution := Recount(distribution, event.priority, Count(distribution, event.priority) + 1);
      r := Done;
    }

    /** The table never misses an id of the queue, so looking the event up cannot fail. */
    method PeekNextEvent() returns (r: Option<Event>)
      requires Valid()
      ensures r.None? <==> queue == map[]
      ensures r.Some? ==> r.value.id in events && events[r.value.id] == r.value && IsGreatest(queue, r.value.id)
    {
      if queue == map[] {
        return None;
      }
      ghost var k := GreatestExists(queue);
      var id: EventId :| id in queue && IsGreatest(queue, id);
      r := Some(events[id]);
    }

    method PopNextEvent() returns (r: Option<Event>)
      requires Valid()
      modifies this
      ensures Valid() && drift == old(drift) && cancelled == old(cancelled) && total == old(total)
                && locked == old(locked)
      ensures r.None? <==> old(queue) == map[]
      ensures r.None? ==> unchanged(this)
      ensures r.Some? ==>
                && IsGreatest(old(queue), r.value.id) && old(events)[r.value.id] == r.value
                && events == old(events) - {r.value.id} && processed == old(processed) + 1
    {
      hide Covered, Paired, Sum, Count, IsGreatest;
      var next := PeekNextEvent();
      if next.None? {
        return None;
      }
      var event := next.value;
      var id := event.id;
      CoveredRemove(events, id, distribution);
      PairedRemove(queue, events, id);
      queue := queue - {id};
      events := events - {id};
      pending := pending - 1;
      processed := processed + 1;
      r := Some(event);
    }

    method CancelEvent(id: EventId) returns (r: Outcome)
      requires Valid()
      modifies this
      ensures Valid() && drift == old(drift) && processed == old(processed) && total == old(total)
                && locked == old(locked)
      ensures r == if id in old(events) then Done else Refused
      ensures r == Refused ==> unchanged(this)
      ensures r == Done ==> events == old(events) - {id} && cancelled == old(cancelled) + 1
    {
      hide Covered, Paired, Sum, Count, Recount;
      if id !in events {
        return Refused;
      }
      CoveredRemove(events, id, distribution);
      PairedRemove(queue, events, id);
      var p := events[id].priority;
      events := events - {id};
      queue := queue - {id};
      pending := pending - 1;
      cancelled := cancelled + 1;
      distribution := Recount(distribution, p, Count(distribution, p) - 1);
      r := Done;
    }

    /** `clear` on the queue and the table: the counters are left behind. */
    method ForgetPending()
      requires Valid()
      modifies this`queue, this`events, this`drift
      ensures Valid() && queue == map[] && events == map[] && drift == old(drift) + |old(queue)|
    {
      drift := drift + |queue|;
      queue, events := map[], map[];
      assert forall p :: PendingWith(events, p) == {};
    }

    method SetLocked(held: bool)
      requires Valid()
      modifies this`locked
      ensures Valid() && locked == held
    {
      locked := held;
    }

    /** The pending events, in the queue's own order. */
    method PendingEvents() returns (list: seq<Event>)
      requires Valid()
      ensures Lists(list, events) && |list| == |queue|
    {
      list := [];
      var rest := queue.Keys;
      while rest != {}
        invariant rest <= queue.Keys && |list| + |rest| == |queue|
        invariant Lists(list, events - rest)
        decreases |rest|
      {
        var id :| id in rest;
        ListsGrow(list, events, rest, id);
        list := list + [events[id]];
        rest := rest - {id};
      }
      assert events - {} == events;
    }
  }

  /** `list` names exactly the events of the table, each once. */
  ghost predicate Lists(list: seq<Event>, events: map<EventId, Event>) {
    && (forall i, j :: 0 <= i < j < |list| ==> list[i].id != list[j].id)
    && (forall i :: 0 <= i < |list| ==> list[i].id in events && events[list[i].id] == list[i])
    && (forall id: EventId :: id in events ==> events[id] in list)
  }

  lemma ListsGrow(list: seq<Event>, events: map<EventId, Event>, rest: set<EventId>, id: EventId)
    requires Lists(list, events - rest) && id in rest && id in events && events[id].id == id
    ensures Lists(list + [events[id]], events - (rest - {id}))
  {
    var longer, more := list + [events[id]], events - (rest - {id});
    forall i | 0 <= i < |list| ensures list[i].id != id {}
    forall x: EventId | x in more ensures more[x] in longer {
      if x != id {
        assert x in events - rest;
        assert more[x] in list;
      } else {
        assert longer[|list|] == more[x];
      }
    }
  }

  datatype QueueOp = Schedule(event: Event) | Pop | Cancel(id: EventId)

  ghost predicate FreshIds(ops: seq<QueueOp>, events: map<EventId, Event>) {
    && (forall i, j :: 0 <= i < j < |ops| && ops[i].Schedule? && ops[j].Schedule? ==>
        ops[i].event.id != ops[j].event.id)
    && forall i :: 0 <= i < |ops| && ops[i].Schedule? ==> ops[i].event.id !in events
  }

  lemma FreshAfter(ops: seq<QueueOp>, events: map<EventId, Event>)
    requires ops != [] && FreshIds(ops, events)
    ensures ops[0].Schedule? ==>
              ops[0].event.id !in events && FreshIds(ops[1..], events[ops[0].event.id := ops[0].event])
    ensures FreshIds(ops[1..], events)
    ensures forall id: EventId :: FreshIds(ops[1..], events - {id})
  {
  }

  /** Over any history with fresh ids the counters are exact: pending is the queue's size, and the
      total is split into processed, pending and cancelled. */
  method QueueHistory(q: EventQueue, ops: seq<QueueOp>)
    requires q.Valid() && q.drift == 0 && !q.locked && FreshIds(ops, q.events)
    modifies q
    ensures q.Valid() && q.pending == |q.queue| == |q.events|
    ensures q.total == q.processed + q.pending + q.cancelled && Sum(q.distribution) == q.processed + q.pending
  {
    for i := 0 to |ops|
      invariant q.Valid() && q.drift == 0 && !q.locked
      invariant FreshIds(ops[i..], q.events)
    {
      hide Paired, Covered, Sum, FreshIds;
      assert ops[i] == ops[i..][0] && ops[i + 1..] == ops[i..][1..];
      FreshAfter(ops[i..], q.events);
      match ops[i]
      case Schedule(e) => var r := q.ScheduleEvent(e);
      case Pop => var e := q.PopNextEvent();
      case Cancel(id) => var r := q.CancelEvent(id);
    }
    assert q.queue.Keys == q.events.Keys;
    assert |q.queue| == |q.queue.Keys| && |q.events| == |q.events.Keys|;
  }

  // ---------------------------------------------------------------------------------------
  // Checkpoints

  type CheckpointId = nat

  datatype Checkpoint = Checkpoint(id: CheckpointId, time: real, state: map<real, Value>, pending: seq<Event>)

  const RETAINED := 10

  ghost predicate WellFormed(pending: seq<Event>) {
    && (forall i, j :: 0 <= i < j < |pending| ==> pending[i].id != pending[j].id)
    && forall i :: 0 <= i < |pending| ==> pending[i].time >= 0.0
  }

  /** The retained times are the greatest ones ever checkpointed. */
  ghost predicate KeepsGreatest(kept: set<real>, ever: set<real>) {
    && kept <= ever
    && |kept| == (if |ever| < RETAINED then |ever| else RETAINED)
    && forall k: real, t: real :: k in kept && t in ever && t !in kept ==> t < k
  }

  predicate IsLeast(s: set<real>, m: real) {
    m in s && forall x: real :: x in s ==> m <= x
  }

  predicate IsLastUpTo(s: set<real>, target: real, m: real) {
    m in s && m <= target && forall x: real :: x in s && x <= target ==> x <= m
  }

  lemma {:induction false} LeastExists(s: set<real>) returns (m: real)
    requires exists x: real :: x in s
    ensures IsLeast(s, m)
    decreases |s|
  {
    var a: real :| a in s;
    m := a;
    var rest := s - {a};
    if exists x: real :: x in rest {
      var k := LeastExists(rest);
      if k < a { m := k; }
    }
    forall x: real | x in s ensures m <= x {
      if x != a { assert x in rest; }
    }
  }

  lemma {:induction false} LastUpToExists(s: set<real>, target: real) returns (m: real)
    requires exists x: real :: x in s && x <= target
    ensures IsLastUpTo(s, target, m)
    decreases |s|
  {
    var a: real :| a in s && a <= target;
    m := a;
    var rest := s - {a};
    if exists x: real :: x in rest && x <= target {
      var k := LastUpToExists(rest, target);
      if k > a { m := k; }
    }
    forall x: real | x in s && x <= target ensures x <= m {
      if x != a { assert x in rest; }
    }
  }

  /** Checkpointing one more time and, beyond ten, dropping the least keeps the ten greatest. */
  lemma GreatestStayKept(kept: set<real>, ever: set<real>, now: real, least: real)
    requires KeepsGreatest(kept, ever) && IsLeast(kept + {now}, least)
    ensures KeepsGreatest(if |kept + {now}| > RETAINED then kept + {now} - {least} else kept + {now}, ever + {now})
  {
    if now in ever {
      assert ever + {now} == ever;
      if now in kept {
        assert kept + {now} == kept;
      } else {
        SubsetSize(kept, ever);
        assert least == now && kept + {now} - {least} == kept;
      }
    } else {
      SubsetSize(kept, ever);
      if |kept| < RETAINED {
        assert kept == ever;
      }
    }
  }

  /** Of a checkpoint's pending events, those at or after the target. */
  function Restored(pending: seq<Event>, target: real): map<EventId, Event> {
    if pending == [] then map[]
    else
      var n := |pending| - 1;
      var before := Restored(pending[..n], target);
      if pending[n].time >= target then before[pending[n].id := pending[n]] else before
  }

  lemma {:induction false} RestoredExact(pending: seq<Event>, target: real)
    requires WellFormed(pending)
    ensures forall e: Event :: e.id in Restored(pending, target) && Restored(pending, target)[e.id] == e
              <==> e in pending && e.time >= target
    ensures forall id: EventId :: id in Restored(pending, target) ==> Restored(pending, target)[id].id == id
    decreases |pending|
  {
    if pending != [] {
      var n := |pending| - 1;
      assert pending == pending[..n] + [pending[n]];
      RestoredExact(pending[..n], target);
      var before := Restored(pending[..n], target);
      assert forall e: Event :: e in pending[..n] ==> e.id != pending[n].id;
      assert forall id: EventId :: id in before ==> before[id] in pending[..n] && before[id].id == id;
    }
  }

  datatype RollbackOutcome = RolledBack | FutureTime | NoCheckpoint | Deadlocked

  /** Events applied to the state history in order. */
  function Replayed(history: map<real, Value>, out: seq<Event>): map<real, Value> {
    if out == [] then history
    else
      var n := |out| - 1;
      var before := Replayed(history, out[..n]);
      if out[n].data.StateChange? then before[out[n].time := out[n].data.value] else before
  }

  /** What is kept after a checkpoint was inserted. */
  function Kept(checkpoints: map<real, Checkpoint>, c: Checkpoint, least: real): map<real, Checkpoint> {
    var all := checkpoints[c.time := c];
    if |all| > RETAINED then all - {least} else all
  }

  ghost predicate CheckpointsOk(checkpoints: map<real, Checkpoint>, nextId: CheckpointId, ever: set<real>) {
    KeepsGreatest(checkpoints.Keys, ever) && EachOk(checkpoints, nextId) && DistinctCheckpoints(checkpoints)
  }

  ghost predicate EachOk(checkpoints: map<real, Checkpoint>, nextId: CheckpointId) {
    forall t: real :: t in checkpoints ==>
      checkpoints[t].time == t && WellFormed(checkpoints[t].pending) && checkpoints[t].id < nextId
  }

  ghost predicate DistinctCheckpoints(checkpoints: map<real, Checkpoint>) {
    forall t: real, u: real :: t in checkpoints && u in checkpoints && checkpoints[t].id == checkpoints[u].id ==> t == u
  }

  /** The new checkpoint itself goes when ten later ones are retained. */
  lemma KeptContents(checkpoints: map<real, Checkpoint>, c: Checkpoint, least: real)
    requires |checkpoints| <= RETAINED && IsLeast(checkpoints.Keys + {c.time}, least)
    ensures Replaces(checkpoints, c, Kept(checkpoints, c, least))
  {
    var all := checkpoints[c.time := c];
    assert all.Keys == checkpoints.Keys + {c.time};
    assert |all| == |all.Keys| && |checkpoints| == |checkpoints.Keys|;
    if c.time in checkpoints {
      assert all.Keys == checkpoints.Keys;
    } else if least != c.time {
      assert least in checkpoints && least < c.time;
    }
  }

  lemma KeptKeys(checkpoints: map<real, Checkpoint>, c: Checkpoint, least: real)
    ensures var times := checkpoints.Keys + {c.time};
            Kept(checkpoints, c, least).Keys == if |times| > RETAINED then times - {least} else times
  {
    var all := checkpoints[c.time := c];
    assert all.Keys == checkpoints.Keys + {c.time};
    assert |all| == |all.Keys|;
    assert (all - {least}).Keys == all.Keys - {least};
  }

  lemma KeptEach(checkpoints: map<real, Checkpoint>, c: Checkpoint, least: real)
    requires EachOk(checkpoints, c.id) && DistinctCheckpoints(checkpoints) && WellFormed(c.pending)
    ensures EachOk(Kept(checkpoints, c, least), c.id + 1) && DistinctCheckpoints(Kept(checkpoints, c, least))
  {
    hide WellFormed;
  }

  lemma KeptOk(checkpoints: map<real, Checkpoint>, c: Checkpoint, least: real, ever: set<real>)
    requires CheckpointsOk(checkpoints, c.id, ever) && WellFormed(c.pending)
    requires IsLeast(checkpoints.Keys + {c.time}, least)
    ensures CheckpointsOk(Kept(checkpoints, c, least), c.id + 1, ever + {c.time})
  {
    hide WellFormed, KeepsGreatest, IsLeast, Kept, EachOk, DistinctCheckpoints;
    GreatestStayKept(checkpoints.Keys, ever, c.time, least);
    KeptKeys(checkpoints, c, least);
    KeptEach(checkpoints, c, least);
  }

  lemma ReplayedNext(history: map<real, Value>, out: seq<Event>, e: Event)
    ensures Replayed(history, []) == history
    ensures Replayed(history, out + [e]) ==
      if e.data.StateChange? then Replayed(history, out)[e.time := e.data.value] else Replayed(history, out)
  {
    assert (out + [e])[..|out|] == out;
  }

  /** `kept` holds the new checkpoint beside old ones; the new one is missing only when ten later
      ones were retained already. */
  ghost predicate Replaces(checkpoints: map<real, Checkpoint>, c: Checkpoint, kept: map<real, Checkpoint>) {
    && (c.time in kept ==> kept[c.time] == c)
    && (forall t: real :: t in kept && t != c.time ==> t in checkpoints && kept[t] == checkpoints[t])
    && (c.time in kept <==>
          c.time in checkpoints || |checkpoints| < RETAINED || exists t: real :: t in checkpoints && t < c.time)
  }

  lemma KeptFacts(checkpoints: map<real, Checkpoint>, c: Checkpoint, least: real, ever: set<real>)
    requires CheckpointsOk(checkpoints, c.id, ever) && WellFormed(c.pending)
    requires IsLeast(checkpoints.Keys + {c.time}, least)
    ensures CheckpointsOk(Kept(checkpoints, c, least), c.id + 1, ever + {c.time})
    ensures Replaces(checkpoints, c, Kept(checkpoints, c, least))
  {
    hide WellFormed, KeepsGreatest, IsLeast, Kept, EachOk, DistinctCheckpoints;
    KeptOk(checkpoints, c, least, ever);
    AtMostTen(checkpoints, c.id, ever);
    KeptContents(checkpoints, c, least);
  }

  /** No checkpoint holds a pending event later than its own time. */
  ghost predicate Past(checkpoints: map<real, Checkpoint>) {
    forall t: real, i :: t in checkpoints && 0 <= i < |checkpoints[t].pending| ==> checkpoints[t].pending[i].time <= t
  }

  lemma PastReplaces(checkpoints: map<real, Checkpoint>, c: Checkpoint, kept: map<real, Checkpoint>,
                     events: map<EventId, Event>)
    requires Replaces(checkpoints, c, kept) && Past(checkpoints)
    requires Lists(c.pending, events) && AllWithin(events, c.time)
    ensures Past(kept)
  {
  }

  lemma ReplacesNew(checkpoints: map<real, Checkpoint>, c: Checkpoint, kept: map<real, Checkpoint>)
    requires Replaces(checkpoints, c, kept)
    ensures c.time in kept ==> kept[c.time] == c
  {
  }

  function LaterTimes(ever: set<real>, t: real): set<real> {
    set u | u in ever && u > t
  }

  /** A time once checkpointed is retained exactly while fewer than ten later ones were. */
  lemma RetainedIff(kept: set<real>, ever: set<real>, t: real)
    requires KeepsGreatest(kept, ever) && t in ever
    ensures t in kept <==> |LaterTimes(ever, t)| < RETAINED
  {
    var later := LaterTimes(ever, t);
    if t in kept {
      assert later <= kept - {t};
      SubsetSize(later, kept - {t});
    } else {
      assert kept <= later;
      SubsetSize(kept, later);
      SubsetSize(kept, ever);
    }
  }

  /** Only the retained times matter for how many are later. */
  lemma LaterKept(kept: set<real>, ever: set<real>, more: set<real>, t: real)
    requires KeepsGreatest(kept, ever)
    ensures |LaterTimes(ever + more, t)| < RETAINED <==> |LaterTimes(kept + more, t)| < RETAINED
  {
    var all, some := LaterTimes(ever + more, t), LaterTimes(kept + more, t);
    SubsetSize(some, all);
    if u: real :| u in ever && u !in kept && u > t {
      SubsetSize(kept, ever);
      SubsetSize(kept, some);
    } else {
      assert all == some;
    }
  }

  /** The times at which checkpoints fall due while `out` is processed. */
  function Marked(out: seq<Event>, due: nat -> bool): set<real> {
    if out == [] then {}
    else Marked(out[..|out| - 1], due) + (if due(|out|) then {out[|out| - 1].time} else {})
  }

  lemma MarkedNext(out: seq<Event>, e: Event, due: nat -> bool)
    ensures Marked(out + [e], due) == Marked(out, due) + (if due(|out| + 1) then {e.time} else {})
  {
    assert (out + [e])[..|out|] == out;
  }

  lemma ResumePoint(before: map<real, Checkpoint>, id: CheckpointId, ever: set<real>, marked: set<real>,
                    checkpoints: map<real, Checkpoint>, nextId: CheckpointId, t: real)
    requires CheckpointsOk(before, id, ever) && CheckpointsOk(checkpoints, nextId, ever + marked + {t})
    ensures t in checkpoints <==> |LaterTimes(before.Keys + marked, t)| < RETAINED
  {
    RetainedIff(checkpoints.Keys, ever + marked + {t}, t);
    LaterKept(before.Keys, ever, marked, t);
    assert LaterTimes(ever + marked + {t}, t) == LaterTimes(ever + marked, t);
  }

  class DiscreteEventSimulator {
    const queue: EventQueue
    const maxTime: real
    const maxEvents: Option<nat>
    const checkpointing: bool
    var currentTime: real
    var history: map<real, Value>
    var checkpoints: map<real, Checkpoint>
    var rollbacks: nat
    var nextId: CheckpointId
    ghost var ever: set<real>  // every time a checkpoint was made at

    ghost predicate Valid()
      reads this, queue
    {
      queue.Valid() && CheckpointsOk(checkpoints, nextId, ever)
    }

    constructor (maxTime: real, maxEvents: Option<nat>, checkpointing: bool)
      ensures Valid() && Past(checkpoints) && fresh(queue) && !queue.locked && queue.events == map[]
      ensures this.maxTime == maxTime && this.maxEvents == maxEvents && this.checkpointing == checkpointing
      ensures currentTime == 0.0 && history == map[] && checkpoints == map[] && ever == {}
    {
      queue := new EventQueue();
      this.maxTime, this.maxEvents, this.checkpointing := maxTime, maxEvents, checkpointing;
      currentTime, history, checkpoints, rollbacks, nextId, ever := 0.0, map[], map[], 0, 0, {};
    }

    method ScheduleEvent(event: Event) returns (r: Outcome)
      requires Valid() && !queue.locked
      modifies queue
      ensures Valid() && !queue.locked
      ensures r == if event.time < currentTime || event.time < 0.0 then Refused else Done
      ensures queue.events == if r == Done then old(queue.events)[event.id := event] else old(queue.events)
    {
      if event.time < currentTime {
        return Refused;
      }
      r := queue.ScheduleEvent(event);
    }

    /** Takes a checkpoint of the clock, the state history and the pending events; beyond ten, the
        one with the least time goes, which may be the new one. */
    method CreateCheckpoint()
      requires Valid()
      modifies this`checkpoints, this`nextId, this`ever
      ensures Valid() && ever == old(ever) + {currentTime} && nextId == old(nextId) + 1
      ensures AllWithin(queue.events, currentTime) && Past(old(checkpoints)) ==> Past(checkpoints)
      ensures currentTime in checkpoints ==>
                var c := checkpoints[currentTime]; c.state == history && Lists(c.pending, queue.events)
      ensures exists c: Checkpoint ::
                && c.id == old(nextId) && c.time == currentTime && c.state == history && Lists(c.pending, queue.events)
                && Replaces(old(checkpoints), c, checkpoints)
    {
      hide CheckpointsOk, Kept, Replaces, Lists, WellFormed, IsLeast, EachOk, DistinctCheckpoints, KeepsGreatest,
        EventQueue.Valid, AllWithin, Past;
      var pending := PendingList();
      ghost var c, before := Checkpoint(nextId, currentTime, history, pending), checkpoints;
      ghost var least := KeepRecent(Checkpoint(nextId, currentTime, history, pending));
      KeptFacts(before, c, least, ever);
      assert c.time in checkpoints ==> checkpoints[c.time] == c by { ReplacesNew(before, c, checkpoints); }
      if AllWithin(queue.events, currentTime) && Past(before) { PastReplaces(before, c, checkpoints, queue.events); }
      nextId := nextId + 1;
      ever := ever + {currentTime};
    }

    method PendingList() returns (pending: seq<Event>)
      requires Valid()
      ensures Lists(pending, queue.events) && WellFormed(pending)
    {
      pending := queue.PendingEvents();
      ListsWellFormed(pending, queue.queue, queue.events);
    }

    /** Inserts a checkpoint and, when there are more than ten, drops the least time. */
    method KeepRecent(c: Checkpoint) returns (ghost least: real)
      modifies this`checkpoints
      ensures IsLeast(old(checkpoints).Keys + {c.time}, least)
      ensures checkpoints == Kept(old(checkpoints), c, least)
    {
      checkpoints := checkpoints[c.time := c];
      assert checkpoints.Keys == old(checkpoints).Keys + {c.time};
      ghost var k := LeastExists(checkpoints.Keys);
      var oldest: real :| oldest in checkpoints.Keys && IsLeast(checkpoints.Keys, oldest);
      least := oldest;
      if |checkpoints| > RETAINED {
        checkpoints := checkpoints - {oldest};
      }
    }

    /** Schedules again the pending events of a checkpoint that are not before the target. With
        the queue's lock held by the caller, the first of them waits for ever. */
    method RestoreEvents(pending: seq<Event>, target: real) returns (ok: bool)
      requires queue.Valid() && queue.events == map[] && WellFormed(pending)
      modifies queue
      ensures queue.Valid() && queue.locked == old(queue.locked) && queue.drift == old(queue.drift)
      ensures ok <==> !(queue.locked && AnyDue(pending, target))
      ensures queue.events == if ok then Restored(pending, target) else map[]
    {
      hide EventQueue.Valid;
      for i := 0 to |pending|
        invariant queue.Valid() && queue.events == Restored(pending[..i], target)
        invariant queue.locked == old(queue.locked) && queue.drift == old(queue.drift)
        invariant queue.locked ==> !AnyDue(pending[..i], target) && queue.events == map[]
      {
        assert pending[..i + 1][..i] == pending[..i];
        if pending[i].time >= target {
          RestoredIds(pending, i, target);
          var r := queue.ScheduleEvent(pending[i]);
          if r == Blocked {
            assert AnyDue(pending, target);
            return false;
          }
        }
      }
      assert pending[..|pending|] == pending;
      return true;
    }

    /** Goes back to the last retained checkpoint at or before `target`. `holdsLock` says that the
        queue's lock is still held while events are scheduled again, as the code does; then the
        rollback hangs exactly when some event is to be restored. */
    method RollbackToTime(target: real, holdsLock: bool) returns (r: RollbackOutcome, ghost at: real)
      requires Valid() && !queue.locked
      modifies this`currentTime, this`history, this`rollbacks, queue
      ensures Valid()
      ensures r == FutureTime <==> target > old(currentTime)
      ensures r == NoCheckpoint <==> target <= old(currentTime) && !HasUpTo(checkpoints.Keys, target)
      ensures r == FutureTime || r == NoCheckpoint ==> unchanged(this) && unchanged(queue)
      ensures r == RolledBack || r == Deadlocked ==>
                && IsLastUpTo(checkpoints.Keys, target, at)
                && currentTime == at && history == checkpoints[at].state
                && (r == Deadlocked <==> holdsLock && AnyDue(checkpoints[at].pending, target))
                && queue.drift == old(queue.drift) + |old(queue.queue)|
      ensures r == RolledBack ==>
                queue.events == Restored(checkpoints[at].pending, target) && rollbacks == old(rollbacks) + 1
                    && !queue.locked
      ensures r == Deadlocked ==> queue.events == map[] && rollbacks == old(rollbacks) && queue.locked
      ensures Past(checkpoints) && (r == RolledBack || r == Deadlocked) ==>
                && (AnyDue(checkpoints[at].pending, target)
                    <==> at == target && AnyTied(checkpoints[at].pending, target))
                && (forall id: EventId :: id in queue.events ==> at == queue.events[id].time == target)
    {
      hide EventQueue.Valid, WellFormed, Restored, AnyDue, AnyTied, Past, KeepsGreatest, DistinctCheckpoints;
      if target > currentTime {
        return FutureTime, 0.0;
      }
      if !HasUpTo(checkpoints.Keys, target) {
        return NoCheckpoint, 0.0;
      }
      ghost var k := LastUpToExists(checkpoints.Keys, target);
      var time: real :| time in checkpoints.Keys && IsLastUpTo(checkpoints.Keys, target, time);
      at := time;
      var checkpoint := checkpoints[time];
      currentTime := checkpoint.time;
      history := checkpoint.state;
      if Past(checkpoints) { PastRollback(checkpoints, nextId, ever, time, target); }
      queue.ForgetPending();
      queue.SetLocked(holdsLock);
      var ok := RestoreEvents(checkpoint.pending, target);
      if !ok {
        return Deadlocked, at;
      }
      queue.SetLocked(false);
      rollbacks := rollbacks + 1;
      r := RolledBack;
    }

    /** Going back to a retained checkpoint by its id restores exactly that one. */
    method RollbackToCheckpoint(id: CheckpointId, holdsLock: bool) returns (r: RollbackOutcome, ghost at: real)
      requires Valid() && !queue.locked
      modifies this`currentTime, this`history, this`rollbacks, queue
      ensures Valid()
      ensures !(exists t: real :: t in checkpoints && checkpoints[t].id == id) ==> r == NoCheckpoint
      ensures forall t: real :: t in checkpoints && checkpoints[t].id == id ==>
                (r == FutureTime <==> t > old(currentTime))
      ensures (exists t: real :: t in checkpoints && checkpoints[t].id == id) && r != FutureTime ==>
                && at in checkpoints && checkpoints[at].id == id && currentTime == at
                && history == checkpoints[at].state
                && (r == RolledBack || r == Deadlocked)
                && (r == RolledBack ==> queue.events == Restored(checkpoints[at].pending, at))
                && (r == Deadlocked <==> holdsLock && AnyDue(checkpoints[at].pending, at))
                && (Past(checkpoints) ==> (r == Deadlocked <==> holdsLock && AnyTied(checkpoints[at].pending, at)))
    {
      hide EventQueue.Valid, WellFormed, Restored, AnyDue, AnyTied, Past, KeepsGreatest;
      at := 0.0;
      if t: real :| t in checkpoints && checkpoints[t].id == id {
        assert t <= t && t in checkpoints.Keys;
        r, at := RollbackToTime(checkpoints[t].time, holdsLock);
      } else {
        r := NoCheckpoint;
      }
    }

    /** Takes the next event and applies it: state changes go into the history at their time. */
    method ProcessNext(peeked: Event, ghost all: map<EventId, Event>, ghost out: seq<Event>) returns (event: Event)
      requires Valid() && !queue.locked
      requires IsGreatest(queue.queue, peeked.id) && peeked.id in queue.events && queue.events[peeked.id] == peeked
      requires Taken(all, out, queue.events) && RunsFalling(out, queue.events)
      modifies this`currentTime, this`history, queue
      ensures Valid() && !queue.locked
      ensures Taken(all, out + [event], queue.events) && RunsFalling(out + [event], queue.events)
      ensures currentTime == event.time && queue.processed == old(queue.processed) + 1
      ensures history == if event.data.StateChange? then old(history)[event.time := event.data.value] else old(history)
      ensures |queue.events| < |old(queue.events)|
    {
      hide CheckpointsOk, Taken, RunsFalling, IsGreatest, Covered, Sum;
      ghost var before, left := queue.queue, queue.events;
      var popped := queue.PopNextEvent();
      assert before != map[] by { assert peeked.id in before; }
      event := popped.value;
      SameGreatest(before, peeked.id, event.id);
      TakenNext(all, out, left, event);
      FallingNext(out, before, left, event);
      SmallerTable(left, event.id);
      if event.data.StateChange? {
        history := history[event.time := event.data.value];
      }
      currentTime := peeked.time;
    }

    /** The event to be run next, if the run goes on. */
    method NextToRun(out: seq<Event>, ghost all: map<EventId, Event>) returns (next: Option<Event>)
      requires Valid() && Taken(all, out, queue.events)
      requires out != [] ==> AllWithin(all, maxTime)
      requires maxEvents.Some? ==> |out| <= maxEvents.value
      ensures next.Some? ==>
                && IsGreatest(queue.queue, next.value.id)
                && next.value.id in queue.events && queue.events[next.value.id] == next.value
                && AllWithin(all, maxTime) && (maxEvents.Some? ==> |out| < maxEvents.value)
      ensures next.None? ==> |out| == RunLength(all, maxTime, maxEvents)
    {
      hide Paired, Covered, Sum, CheckpointsOk, Taken, AllWithin, IsGreatest;
      next := queue.PeekNextEvent();
      if next.None? {
        RunOut(all, out, queue.queue, queue.events, maxTime);
        return;
      }
      NextBounds(all, out, queue.queue, queue.events, next.value, maxTime);
      if next.value.time > maxTime || (maxEvents.Some? && |out| >= maxEvents.value) {
        return None;
      }
    }

    /** One round of the run loop: the next event, and a checkpoint if the interval has elapsed. */
    method RunNext(peeked: Event, checkpointDue: nat -> bool, out: seq<Event>, ghost all: map<EventId, Event>,
                   ghost before: map<real, Value>, ghost was: set<real>) returns (event: Event)
      requires Valid() && !queue.locked
      requires IsGreatest(queue.queue, peeked.id) && peeked.id in queue.events && queue.events[peeked.id] == peeked
      requires Taken(all, out, queue.events) && RunsFalling(out, queue.events) && history == Replayed(before, out)
      requires checkpointing ==> ever == was + Marked(out, checkpointDue)
      modifies this`currentTime, this`history, this`checkpoints, this`nextId, this`ever, queue
      ensures Valid() && !queue.locked
      ensures Taken(all, out + [event], queue.events) && RunsFalling(out + [event], queue.events)
      ensures currentTime == event.time && history == Replayed(before, out + [event])
      ensures queue.processed == old(queue.processed) + 1 && |queue.events| < |old(queue.events)|
      ensures if checkpointing then ever == was + Marked(out + [event], checkpointDue)
              else checkpoints == old(checkpoints) && ever == old(ever)
      ensures Past(old(checkpoints)) ==> Past(checkpoints)
    {
      hide Paired, Covered, Sum, CheckpointsOk, Lists, Replaces, Taken, RunsFalling, AllWithin, IsGreatest, Replayed,
        Past, Marked, EventQueue.Valid;
      event := ProcessNext(peeked, all, out);
      ReplayedNext(before, out, event);
      MarkedNext(out, event, checkpointDue);
      LeftIsPast(out + [event], queue.events);
      if checkpointing && checkpointDue(|out| + 1) {
        CreateCheckpoint();
      }
    }

    /** The sequential run loop; `checkpointDue` says after which events the checkpoint interval
        has elapsed. Nothing runs when some pending event lies beyond the horizon; otherwise
        events run in falling order of time, so that the clock runs backwards. */
    method Run(checkpointDue: nat -> bool) returns (out: seq<Event>)
      requires Valid() && !queue.locked
      modifies this`currentTime, this`history, this`checkpoints, this`nextId, this`ever, queue
      ensures Valid() && !queue.locked
      ensures |out| == RunLength(old(queue.events), maxTime, maxEvents)
      ensures Taken(old(queue.events), out, queue.events) && RunsFalling(out, queue.events)
      ensures currentTime == if out == [] then old(currentTime) else out[|out| - 1].time
      ensures history == Replayed(old(history), out)
      ensures queue.processed == old(queue.processed) + |out|
      ensures Past(old(checkpoints)) ==> Past(checkpoints)
      ensures !checkpointing || out == [] ==> checkpoints == old(checkpoints) && ever == old(ever)
      ensures checkpointing && out != [] ==> ever == old(ever) + Marked(out, checkpointDue) + {currentTime}
      ensures checkpointing && out != [] ==>
                && (currentTime in checkpoints
                    <==> |LaterTimes(old(checkpoints).Keys + Marked(out, checkpointDue), currentTime)| < RETAINED)
                && (currentTime in checkpoints ==>
                      var c := checkpoints[currentTime]; c.state == history && Lists(c.pending, queue.events))
    {
      hide CheckpointsOk, Lists, LaterTimes, Replaces, Taken, RunsFalling, AllWithin, IsGreatest, Replayed, Past,
        Marked, RunLength, EventQueue.Valid;
      out := [];
      ghost var all := queue.events;
      RunStarts(all);
      assert Marked([], checkpointDue) == {} by { NothingMarked(checkpointDue); }
      ReplayedNext(history, [], Event(0, 0.0, Normal, Other));
      while true
        invariant Valid() && !queue.locked
        invariant Taken(all, out, queue.events) && RunsFalling(out, queue.events)
        invariant out != [] ==> AllWithin(all, maxTime)
        invariant maxEvents.Some? ==> |out| <= maxEvents.value
        invariant currentTime == if out == [] then old(currentTime) else out[|out| - 1].time
        invariant history == Replayed(old(history), out)
        invariant queue.processed == old(queue.processed) + |out|
        invariant !checkpointing || out == [] ==> checkpoints == old(checkpoints) && ever == old(ever)
        invariant checkpointing ==> ever == old(ever) + Marked(out, checkpointDue)
        invariant Past(old(checkpoints)) ==> Past(checkpoints)
        decreases |queue.events|
      {
        var next := NextToRun(out, all);
        if next.None? {
          break;
        }
        var event := RunNext(next.value, checkpointDue, out, all, old(history), old(ever));
        out := out + [event];
      }
      LeftIsPast(out, queue.events);
      if checkpointing && out != [] {
        LeaveResumePoint(old(checkpoints), old(nextId), old(ever), Marked(out, checkpointDue));
      }
    }

    /** The checkpoint at the end of a run. */
    method LeaveResumePoint(ghost before: map<real, Checkpoint>, ghost id: CheckpointId, ghost was: set<real>,
                            ghost marked: set<real>)
      requires Valid() && CheckpointsOk(before, id, was) && ever == was + marked
      modifies this`checkpoints, this`nextId, this`ever
      ensures Valid() && ever == old(ever) + {currentTime}
      ensures AllWithin(queue.events, currentTime) && Past(old(checkpoints)) ==> Past(checkpoints)
      ensures currentTime in checkpoints <==> |LaterTimes(before.Keys + marked, currentTime)| < RETAINED
      ensures currentTime in checkpoints ==>
                var c := checkpoints[currentTime]; c.state == history && Lists(c.pending, queue.events)
    {
      hide CheckpointsOk, Lists, LaterTimes, Replaces, AllWithin, Past, EventQueue.Valid;
      CreateCheckpoint();
      ResumePoint(before, id, was, marked, checkpoints, nextId, currentTime);
    }

    /** Pops everything that is pending. */
    method PopAll() returns (out: seq<Event>)
      requires Valid() && !queue.locked
      modifies queue
      ensures Valid() && !queue.locked && queue.events == map[]
      ensures Taken(old(queue.events), out, map[]) && queue.processed == old(queue.processed) + |out|
    {
      hide Paired, Covered, Sum, CheckpointsOk, Taken, IsGreatest;
      out := [];
      ghost var all := queue.events;
      RunStarts(all);
      while true
        invariant Valid() && !queue.locked
        invariant Taken(all, out, queue.events) && queue.processed == old(queue.processed) + |out|
        decreases |queue.events|
      {
        ghost var keys, left := queue.queue, queue.events;
        var next := queue.PopNextEvent();
        if next.None? {
          NoneLeft(queue.queue, left);
          break;
        }
        GreatestInTable(keys, left, next.value.id);
        TakenNext(all, out, left, next.value);
        SmallerTable(left, next.value.id);
        out := out + [next.value];
      }
    }

    /** The run loop with parallel execution. One round hands the whole queue to tasks, which write
        the state history in the order `finish` in which they finish; so the event limit only
        matters when it is zero, and the clock ends at the greatest time. */
    method RunParallel(finish: seq<Event> -> seq<Event>, checkpointDue: nat -> bool) returns (out: seq<Event>)
      requires Valid() && !queue.locked && forall s :: multiset(finish(s)) == multiset(s)
      modifies this`currentTime, this`history, this`checkpoints, this`nextId, this`ever, queue
      ensures Valid() && !queue.locked
      ensures |out| == if RunLength(old(queue.events), maxTime, maxEvents) == 0 then 0 else |old(queue.events)|
      ensures Taken(old(queue.events), out, queue.events) && queue.processed == old(queue.processed) + |out|
      ensures history == if out == [] then old(history) else Replayed(old(history), finish(out))
      ensures out == [] ==> currentTime == old(currentTime) && checkpoints == old(checkpoints)
      ensures out != [] ==>
                && AllWithin(old(queue.events), currentTime)
                && exists id: EventId :: id in old(queue.events) && old(queue.events)[id].time == currentTime
      ensures Past(old(checkpoints)) ==> Past(checkpoints)
      ensures checkpointing && out != [] ==>
                (currentTime in checkpoints <==> |LaterTimes(old(checkpoints).Keys, currentTime)| < RETAINED)
    {
      hide Paired, Covered, Sum, CheckpointsOk, Lists, LaterTimes, Replaces, Taken, AllWithin, IsGreatest, Replayed,
        Past;
      out := [];
      ghost var all := queue.events;
      RunStarts(all);
      var next := queue.PeekNextEvent();
      if next.None? {
        RunOut(all, [], queue.queue, queue.events, maxTime);
        return;
      }
      NextBounds(all, [], queue.queue, queue.events, next.value, maxTime);
      GreatestBounds(queue.queue, queue.events, next.value.id, next.value.time);
      if next.value.time > maxTime || (maxEvents.Some? && 0 >= maxEvents.value) {
        return;
      }
      out := PopAll();
      TakenEverything(all, out);
      history := ApplyAll(history, finish(out));
      currentTime := next.value.time;
      assert AllWithin(queue.events, currentTime) by { NothingLater(currentTime); }
      if checkpointing && checkpointDue(1) {
        CreateCheckpoint();
      }
      if checkpointing {
        assert ever == old(ever) + if checkpointDue(1) then {currentTime} else {};
        LeaveResumePoint(old(checkpoints), old(nextId), old(ever), if checkpointDue(1) then {currentTime} else {});
        LaterThanItself(old(checkpoints).Keys, currentTime, if checkpointDue(1) then {currentTime} else {});
      }
    }

    /** The tasks' writes to the state history, one after another. */
    static method ApplyAll(history: map<real, Value>, order: seq<Event>) returns (r: map<real, Value>)
      ensures r == Replayed(history, order)
    {
      r := history;
      for i := 0 to |order|
        invariant r == Replayed(history, order[..i])
      {
        assert order[..i + 1] == order[..i] + [order[i]];
        ReplayedNext(history, order[..i], order[i]);
        if order[i].data.StateChange? {
          r := r[order[i].time := order[i].data.value];
        }
      }
      assert order[..|order|] == order;
    }
  }

  /** How many events a run processes. */
  ghost function RunLength(events: map<EventId, Event>, maxTime: real, maxEvents: Option<nat>): nat {
    if !AllWithin(events, maxTime) then 0
    else if maxEvents.Some? && maxEvents.value < |events| then maxEvents.value
    else |events|
  }

  ghost predicate AllWithin(events: map<EventId, Event>, maxTime: real) {
    forall id: EventId :: id in events ==> events[id].time <= maxTime
  }

  /** Nothing processed is outranked by what came later or by what is left. */
  ghost predicate RunsFalling(out: seq<Event>, left: map<EventId, Event>) {
    && (forall i, j :: 0 <= i < j < |out| ==> !KeyLess(out[i].Rank(), out[j].Rank()))
    && (forall i, id: EventId :: 0 <= i < |out| && id in left ==> !KeyLess(out[i].Rank(), left[id].Rank()))
  }

  /** The events of the table are those taken, each once, and those left. */
  ghost predicate Taken(all: map<EventId, Event>, out: seq<Event>, left: map<EventId, Event>) {
    && (forall i :: 0 <= i < |out| ==> out[i].id in all && all[out[i].id] == out[i] && out[i].id !in left)
    && (forall i, j :: 0 <= i < j < |out| ==> out[i].id != out[j].id)
    && (forall id: EventId :: id in left ==> id in all && all[id] == left[id])
    && |out| + |left| == |all|
  }

  lemma TakenNext(all: map<EventId, Event>, out: seq<Event>, left: map<EventId, Event>, e: Event)
    requires Taken(all, out, left) && e.id in left && left[e.id] == e
    ensures Taken(all, out + [e], left - {e.id})
  {
    assert left.Keys == (left - {e.id}).Keys + {e.id};
    assert |left| == |left.Keys| && |left - {e.id}| == |(left - {e.id}).Keys|;
  }

  lemma SmallerTable(events: map<EventId, Event>, id: EventId)
    requires id in events
    ensures |events - {id}| < |events|
  {
    assert events.Keys == (events - {id}).Keys + {id};
    assert |events| == |events.Keys| && |events - {id}| == |(events - {id}).Keys|;
  }

  lemma GreatestInTable(queue: map<EventId, Key>, events: map<EventId, Event>, id: EventId)
    requires Paired(queue, events) && IsGreatest(queue, id)
    ensures id in events
  {
  }

  lemma NoneLeft(queue: map<EventId, Key>, left: map<EventId, Event>)
    requires Paired(queue, left) && queue == map[]
    ensures left == map[]
  {
  }

  lemma TakenEverything(all: map<EventId, Event>, out: seq<Event>)
    requires Taken(all, out, map[])
    ensures |out| == |all|
  {
  }

  lemma NothingLater(t: real)
    ensures AllWithin(map[], t)
  {
  }

  lemma LaterThanItself(times: set<real>, t: real, marked: set<real>)
    requires marked <= {t}
    ensures LaterTimes(times + marked, t) == LaterTimes(times, t)
  {
  }

  lemma NothingMarked(due: nat -> bool)
    ensures Marked([], due) == {}
  {
  }

  /** What is left is not later than what was processed last. */
  lemma LeftIsPast(out: seq<Event>, left: map<EventId, Event>)
    requires RunsFalling(out, left)
    ensures out != [] ==> AllWithin(left, out[|out| - 1].time)
  {
  }

  lemma RunStarts(all: map<EventId, Event>)
    ensures Taken(all, [], all) && RunsFalling([], all)
  {
  }

  lemma RunOut(all: map<EventId, Event>, out: seq<Event>, queue: map<EventId, Key>, left: map<EventId, Event>,
               maxTime: real)
    requires Taken(all, out, left) && Paired(queue, left) && queue == map[]
    ensures |out| == |all| && (out == [] ==> AllWithin(all, maxTime))
  {
    assert |left| == |left.Keys| == 0;
    assert |all| == |all.Keys|;
  }

  /** The key of the next event tells whether any event at all lies beyond the horizon. */
  lemma NextBounds(all: map<EventId, Event>, out: seq<Event>, queue: map<EventId, Key>, left: map<EventId, Event>,
                   e: Event, maxTime: real)
    requires Taken(all, out, left) && Paired(queue, left) && IsGreatest(queue, e.id) && left[e.id] == e
    ensures e.time > maxTime ==> !AllWithin(all, maxTime)
    ensures e.time <= maxTime && out == [] ==> AllWithin(all, maxTime)
    ensures |out| < |all|
  {
    GreatestBounds(queue, left, e.id, maxTime);
    assert |left| == |left.Keys| && |all| == |all.Keys|;
    SubsetSize({e.id}, left.Keys);
    SubsetSize(left.Keys, all.Keys);
  }

  lemma FallingNext(out: seq<Event>, queue: map<EventId, Key>, left: map<EventId, Event>, e: Event)
    requires RunsFalling(out, left) && Paired(queue, left) && IsGreatest(queue, e.id) && left[e.id] == e
    ensures RunsFalling(out + [e], left - {e.id})
  {
  }

  lemma GreatestBounds(queue: map<EventId, Key>, events: map<EventId, Event>, id: EventId, maxTime: real)
    requires Paired(queue, events) && IsGreatest(queue, id)
    ensures AllWithin(events, maxTime) <==> events[id].time <= maxTime
  {
    forall j: EventId | j in events ensures events[j].time <= events[id].time {
      assert !KeyLess(queue[id], queue[j]);
    }
  }

  lemma SameGreatest(queue: map<EventId, Key>, a: EventId, b: EventId)
    requires IsGreatest(queue, a) && IsGreatest(queue, b)
    ensures queue[a].time == queue[b].time
  {
    assert !KeyLess(queue[a], queue[b]) && !KeyLess(queue[b], queue[a]);
  }

  predicate HasUpTo(s: set<real>, target: real) {
    exists x: real :: x in s && x <= target
  }

  predicate AnyDue(pending: seq<Event>, target: real) {
    exists i :: 0 <= i < |pending| && pending[i].time >= target
  }

  predicate AnyTied(pending: seq<Event>, target: real) {
    exists i :: 0 <= i < |pending| && pending[i].time == target
  }

  /** Of pending events that are not later than their checkpoint, a rollback restores those at
      the very time of checkpoint and target, and no others. */
  lemma OnlyTied(pending: seq<Event>, at: real, target: real)
    requires WellFormed(pending) && at <= target
    requires forall i :: 0 <= i < |pending| ==> pending[i].time <= at
    ensures AnyDue(pending, target) <==> at == target && AnyTied(pending, target)
    ensures forall id: EventId :: id in Restored(pending, target) ==> at == Restored(pending, target)[id].time == target
  {
    RestoredExact(pending, target);
    forall id: EventId | id in Restored(pending, target) ensures at == Restored(pending, target)[id].time == target {
      assert Restored(pending, target)[id] in pending;
    }
  }

  lemma PastRollback(checkpoints: map<real, Checkpoint>, nextId: CheckpointId, ever: set<real>, at: real, target: real)
    requires CheckpointsOk(checkpoints, nextId, ever) && Past(checkpoints) && IsLastUpTo(checkpoints.Keys, target, at)
    ensures var pending := checkpoints[at].pending;
            && (AnyDue(pending, target) <==> at == target && AnyTied(pending, target))
            && (forall id: EventId :: id in Restored(pending, target) ==>
                  at == Restored(pending, target)[id].time == target)
  {
    hide AnyDue, AnyTied, Restored, WellFormed;
    OnlyTied(checkpoints[at].pending, at, target);
  }

  lemma RestoredIds(pending: seq<Event>, i: nat, target: real)
    requires WellFormed(pending) && i < |pending|
    ensures pending[i].id !in Restored(pending[..i], target)
  {
    RestoredExact(pending[..i], target);
    var before := Restored(pending[..i], target);
    assert forall e: Event :: e in pending[..i] ==> e.id != pending[i].id;
    assert forall id: EventId :: id in before ==> before[id] in pending[..i] && before[id].id == id;
  }

  lemma AtMostTen(checkpoints: map<real, Checkpoint>, nextId: CheckpointId, ever: set<real>)
    requires CheckpointsOk(checkpoints, nextId, ever)
    ensures |checkpoints| <= RETAINED
  {
    assert |checkpoints| == |checkpoints.Keys|;
  }

  lemma ListsWellFormed(list: seq<Event>, queue: map<EventId, Key>, events: map<EventId, Event>)
    requires Lists(list, events) && Paired(queue, events)
    ensures WellFormed(list)
  {
  }
}
