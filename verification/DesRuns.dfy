/** Whole runs of the discrete event simulator: what can be said of them before they start, and
    runs that end in the situations the simulator is not prepared for. */
module DesRuns {
  import opened Prelude
  import opened Des

  // ---------------------------------------------------------------------------------------
  // The times of a run are determined by what is pending

  function Ids(out: seq<Event>): set<EventId> {
    set i | 0 <= i < |out| :: out[i].id
  }

  lemma {:induction false} IdsSize(out: seq<Event>)
    requires forall i, j :: 0 <= i < j < |out| ==> out[i].id != out[j].id
    ensures |Ids(out)| == |out|
  {
    if out != [] {
      var n := |out| - 1;
      IdsSize(out[..n]);
      assert Ids(out) == Ids(out[..n]) + {out[n].id};
    }
  }

  /** An event that is later than the `i`-th one was processed before it. */
  lemma LaterCameBefore(all: map<EventId, Event>, out: seq<Event>, left: map<EventId, Event>, i: nat, id: EventId)
    requires Taken(all, out, left) && RunsFalling(out, left)
    requires i < |out| && id in all && all[id].time > out[i].time
    ensures id in Ids(out[..i])
  {
    assert forall k: EventId :: k in left ==> !KeyLess(out[i].Rank(), left[k].Rank());
    assert forall j :: i < j < |out| ==> !KeyLess(out[i].Rank(), out[j].Rank());
    WhereTaken(all, out, left, id);
    var j :| 0 <= j < |out| && out[j].id == id;
    assert out[..i][j].id == id;
  }

  /** At no position is one run ahead of another in time: too many events would be later. */
  lemma NotLater(all: map<EventId, Event>, a: seq<Event>, leftA: map<EventId, Event>,
                 b: seq<Event>, leftB: map<EventId, Event>, i: nat)
    requires Taken(all, a, leftA) && RunsFalling(a, leftA) && Taken(all, b, leftB) && RunsFalling(b, leftB)
    requires |a| == |b| && i < |a|
    ensures a[i].time <= b[i].time
  {
    var early, late := a[..i + 1], b[..i];
    IdsSize(early);
    IdsSize(late);
    forall k | 0 <= k <= i ensures a[k].time >= a[i].time {
      assert k < i ==> !KeyLess(a[k].Rank(), a[i].Rank());
    }
    if a[i].time > b[i].time {
      forall k | 0 <= k < |early| ensures early[k].id in Ids(late) { LaterCameBefore(all, b, leftB, i, a[k].id); }
      SubsetSize(Ids(early), Ids(late));
    }
  }

  lemma WhereTaken(all: map<EventId, Event>, out: seq<Event>, left: map<EventId, Event>, id: EventId)
    requires Taken(all, out, left) && id in all
    ensures id in left || exists i :: 0 <= i < |out| && out[i].id == id
  {
    IdsSize(out);
    var known := Ids(out) + left.Keys;
    assert Ids(out) !! left.Keys && known <= all.Keys;
    assert |all| == |all.Keys| && |left| == |left.Keys|;
    SubsetSize(known, all.Keys);
    assert id in known;
  }

  lemma SameTimes(all: map<EventId, Event>, a: seq<Event>, leftA: map<EventId, Event>,
                  b: seq<Event>, leftB: map<EventId, Event>)
    requires Taken(all, a, leftA) && RunsFalling(a, leftA) && Taken(all, b, leftB) && RunsFalling(b, leftB)
    requires |a| == |b|
    ensures forall i :: 0 <= i < |a| ==> a[i].time == b[i].time
  {
    hide Taken, RunsFalling;
    forall i: nat | i < |a| ensures a[i].time == b[i].time {
      NotLater(all, a, leftA, b, leftB, i);
      NotLater(all, b, leftB, a, leftA, i);
    }
  }

  lemma {:induction false} SameMarked(a: seq<Event>, b: seq<Event>, due: nat -> bool)
    requires |a| == |b| && forall i :: 0 <= i < |a| ==> a[i].time == b[i].time
    ensures Marked(a, due) == Marked(b, due)
    decreases |a|
  {
    if a != [] { SameMarked(a[..|a| - 1], b[..|b| - 1], due); }
  }

  /** Said of the pending events before a run: however ties are broken, fewer than ten of the
      retained times and of those at which a checkpoint falls due lie after the last time. */
  ghost predicate LeavesResumePoint(events: map<EventId, Event>, retained: set<real>, length: nat, due: nat -> bool)
    requires length > 0
  {
    forall out: seq<Event>, left: map<EventId, Event> ::
      Taken(events, out, left) && RunsFalling(out, left) && |out| == length ==>
        |LaterTimes(retained + Marked(out, due), out[length - 1].time)| < RETAINED
  }

  /** A run with checkpointing leaves a checkpoint of its final state exactly when that can be
      foreseen from the pending events and the retained checkpoints. */
  method RunAndResume(sim: DiscreteEventSimulator, due: nat -> bool) returns (out: seq<Event>)
    requires sim.Valid() && !sim.queue.locked && sim.checkpointing
    requires RunLength(sim.queue.events, sim.maxTime, sim.maxEvents) > 0
    modifies sim, sim.queue
    ensures sim.Valid() && |out| == RunLength(old(sim.queue.events), sim.maxTime, sim.maxEvents)
    ensures sim.currentTime in sim.checkpoints
       <==> LeavesResumePoint(old(sim.queue.events), old(sim.checkpoints).Keys, |out|, due)
    ensures sim.currentTime in sim.checkpoints ==>
              var c := sim.checkpoints[sim.currentTime];
              c.state == sim.history && Lists(c.pending, sim.queue.events)
  {
    hide Taken, RunsFalling, Lists, LaterTimes, Marked, RunLength, LeavesResumePoint, Past, CheckpointsOk;
    ghost var all, retained := sim.queue.events, sim.checkpoints.Keys;
    out := sim.Run(due);
    Foreseen(all, retained, out, sim.queue.events, due);
  }

  lemma Foreseen(all: map<EventId, Event>, retained: set<real>, out: seq<Event>, left: map<EventId, Event>,
                 due: nat -> bool)
    requires out != [] && Taken(all, out, left) && RunsFalling(out, left)
    ensures LeavesResumePoint(all, retained, |out|, due)
       <==> |LaterTimes(retained + Marked(out, due), out[|out| - 1].time)| < RETAINED
  {
    hide Taken, RunsFalling, LaterTimes, Marked;
    forall other: seq<Event>, rest: map<EventId, Event>
      | Taken(all, other, rest) && RunsFalling(other, rest) && |other| == |out|
      ensures Marked(other, due) == Marked(out, due) && other[|out| - 1].time == out[|out| - 1].time
    {
      SameTimes(all, out, left, other, rest);
      SameMarked(out, other, due);
    }
  }

  // ---------------------------------------------------------------------------------------
  // A run that loses its resume point

  /** With a checkpoint after every event and times all different, each event before the last
      leaves a later checkpoint. */
  lemma {:induction false} AllMarked(out: seq<Event>, due: nat -> bool)
    requires forall k: nat :: due(k)
    ensures forall t: real :: t in Marked(out, due) <==> exists i :: 0 <= i < |out| && out[i].time == t
    decreases |out|
  {
    if out != [] {
      var n := |out| - 1;
      AllMarked(out[..n], due);
      forall t: real ensures t in Marked(out, due) <==> exists i :: 0 <= i < |out| && out[i].time == t {
        if i :| 0 <= i < |out| && out[i].time == t {
          assert i < n ==> out[..n][i].time == t;
        }
      }
    }
  }

  function Times(out: seq<Event>): set<real> {
    set i | 0 <= i < |out| :: out[i].time
  }

  lemma {:induction false} TimesSize(out: seq<Event>)
    requires forall i, j :: 0 <= i < j < |out| ==> out[i].time != out[j].time
    ensures |Times(out)| == |out|
  {
    if out != [] {
      var n := |out| - 1;
      TimesSize(out[..n]);
      assert Times(out) == Times(out[..n]) + {out[n].time};
    }
  }

  lemma LaterCount(out: seq<Event>, left: map<EventId, Event>, due: nat -> bool)
    requires out != [] && RunsFalling(out, left) && forall k: nat :: due(k)
    requires forall i, j :: 0 <= i < j < |out| ==> out[i].time != out[j].time
    ensures |LaterTimes(Marked(out, due), out[|out| - 1].time)| == |out| - 1
  {
    var n := |out| - 1;
    AllMarked(out, due);
    TimesSize(out[..n]);
    forall i | 0 <= i < n ensures out[i].time > out[n].time {
      assert !KeyLess(out[i].Rank(), out[n].Rank());
    }
    var later := LaterTimes(Marked(out, due), out[n].time);
    forall t: real ensures t in later <==> t in Times(out[..n]) {
      if t in Times(out[..n]) {
        var i :| 0 <= i < n && out[..n][i].time == t;
        assert out[i].time == t;
      }
      if t in later {
        var i :| 0 <= i < |out| && out[i].time == t;
        assert out[..n][i].time == t;
      }
    }
    assert later == Times(out[..n]);
  }

  /** Events with the ids and times 1 to `n`. */
  ghost predicate OnePerTime(events: map<EventId, Event>, n: nat) {
    && (forall id: EventId :: id in events <==> 1 <= id <= n)
    && (forall id: EventId :: id in events ==> events[id].time == id as real)
    && |events| == n
  }

  lemma OnePerTimeGrows(events: map<EventId, Event>, n: nat, e: Event)
    requires OnePerTime(events, n) && e.id == n + 1 && e.time == (n + 1) as real
    ensures OnePerTime(events[e.id := e], n + 1)
  {
    var more := events[e.id := e];
    assert more.Keys == events.Keys + {e.id} && e.id !in events.Keys;
    assert |more| == |more.Keys| && |events| == |events.Keys|;
  }

  lemma OnePerTimeDistinct(events: map<EventId, Event>, n: nat, out: seq<Event>, left: map<EventId, Event>)
    requires OnePerTime(events, n) && Taken(events, out, left)
    ensures forall i, j :: 0 <= i < j < |out| ==> out[i].time != out[j].time
  {
  }

  /** A new simulator runs `n` events at different times, with a checkpoint after each: it is left
      without a checkpoint of its final state exactly when there were more than ten. */
  method RunOnePerTime(n: nat) returns (sim: DiscreteEventSimulator)
    requires n > 0
    ensures fresh(sim) && sim.Valid() && sim.queue.events == map[] && sim.currentTime == 1.0
    ensures sim.currentTime in sim.checkpoints <==> n <= RETAINED
  {
    hide Taken, RunsFalling, Lists, LaterTimes, Marked, Past, CheckpointsOk, EventQueue.Valid;
    sim := new DiscreteEventSimulator(n as real, None, true);
    for k := 0 to n
      invariant sim.Valid() && !sim.queue.locked && fresh(sim.queue)
      invariant sim.currentTime == 0.0 && sim.checkpoints == map[] && OnePerTime(sim.queue.events, k)
    {
      OnePerTimeGrows(sim.queue.events, k, Event(k + 1, (k + 1) as real, Normal, Other));
      var r := sim.ScheduleEvent(Event(k + 1, (k + 1) as real, Normal, Other));
    }
    ghost var all := sim.queue.events;
    var due: nat -> bool := _ => true;
    var out := sim.Run(due);
    OnePerTimeDistinct(all, n, out, sim.queue.events);
    LaterCount(out, sim.queue.events, due);
    assert {} + Marked(out, due) == Marked(out, due);
    LastIsFirst(all, n, out, sim.queue.events);
  }

  lemma LastIsFirst(all: map<EventId, Event>, n: nat, out: seq<Event>, left: map<EventId, Event>)
    requires OnePerTime(all, n) && n > 0 && Taken(all, out, left) && RunsFalling(out, left) && |out| == |all|
    ensures left == map[] && out != [] && out[|out| - 1].time == 1.0
  {
    assert |left| == |left.Keys|;
    WhereTaken(all, out, left, 1);
    var i :| 0 <= i < |out| && out[i].id == 1;
    var last := out[|out| - 1];
    assert i < |out| - 1 ==> !KeyLess(out[i].Rank(), last.Rank());
    assert last.id in all && last.time >= 1.0;
  }

  // ---------------------------------------------------------------------------------------
  // A rollback that hangs

  /** Two events at the same time, and a limit of one: the checkpoint at the end of the run holds
      the other event, tied with it. Rolling back to that time hangs while the lock is held, and
      restores the event when it is released. */
  method RollbackToTie(holdsLock: bool) returns (sim: DiscreteEventSimulator, r: RollbackOutcome)
    ensures fresh(sim) && sim.Valid()
    ensures r == if holdsLock then Deadlocked else RolledBack
    ensures sim.queue.locked == holdsLock && |sim.queue.events| == if holdsLock then 0 else 1
  {
    hide Past, CheckpointsOk, EventQueue.Valid, LaterTimes, Marked, RunsFalling, Taken, Lists, AnyTied, WellFormed;
    sim := RunOneOfTwo();
    ghost var left, pending := sim.queue.events, sim.checkpoints[1.0].pending;
    TiedPending(pending, left);
    ghost var at;
    r, at := sim.RollbackToTime(1.0, holdsLock);
  }

  method RunOneOfTwo() returns (sim: DiscreteEventSimulator)
    ensures fresh(sim) && fresh(sim.queue) && sim.Valid() && !sim.queue.locked && sim.currentTime == 1.0
    ensures 1.0 in sim.checkpoints && Lists(sim.checkpoints[1.0].pending, sim.queue.events)
    ensures |sim.queue.events| == 1
    ensures forall id: EventId :: id in sim.queue.events ==> sim.queue.events[id].time == 1.0
  {
    hide Past, CheckpointsOk, EventQueue.Valid, LaterTimes, Marked, RunsFalling, Taken, Lists;
    sim := new DiscreteEventSimulator(1.0, Some(1), true);
    var a := sim.ScheduleEvent(Event(0, 1.0, Normal, Other));
    var b := sim.ScheduleEvent(Event(1, 1.0, Normal, Other));
    ghost var all := sim.queue.events;
    var due: nat -> bool := _ => false;
    var out := sim.Run(due);
    OneOfTwo(all, out, sim.queue.events);
    NoneLater(out, due);
  }

  lemma OneOfTwo(all: map<EventId, Event>, out: seq<Event>, left: map<EventId, Event>)
    requires |all| == 2 && Taken(all, out, left) && |out| == 1
    requires forall id: EventId :: id in all ==> all[id].time == 1.0
    ensures |left| == 1 && out[0].time == 1.0
    ensures forall id: EventId :: id in left ==> left[id].time == 1.0
  {
  }

  /** The one event that was run is not later than itself. */
  lemma NoneLater(out: seq<Event>, due: nat -> bool)
    requires |out| == 1 && !due(1)
    ensures LaterTimes({} + Marked(out, due), out[0].time) == {}
  {
    assert out[..0] == [];
  }

  lemma TiedPending(pending: seq<Event>, left: map<EventId, Event>)
    requires Lists(pending, left) && |left| == 1 && forall id: EventId :: id in left ==> left[id].time == 1.0
    ensures AnyDue(pending, 1.0) && |Restored(pending, 1.0)| == 1
  {
    var id :| id in left;
    assert left.Keys == {id} by { SubsetSize({id}, left.Keys); assert |left| == |left.Keys|; }
    IdsSize(pending);
    SubsetSize(Ids(pending), left.Keys);
    assert left[id] in pending;
    assert pending == [left[id]];
    assert Restored(pending, 1.0) == map[pending[0].id := pending[0]] by { assert pending[..0] == []; }
  }

  // ---------------------------------------------------------------------------------------
  // Parallel tasks and the state history

  /** Both write the state history at the same time. */
  predicate BothChange(e: Event, f: Event) {
    e.data.StateChange? && f.data.StateChange? && e.time == f.time
  }

  /** Any two state changes at the same time agree on the value. */
  ghost predicate ChangesAgree(out: seq<Event>) {
    forall i, j :: 0 <= i < |out| && 0 <= j < |out| && BothChange(out[i], out[j]) ==> out[i].data == out[j].data
  }

  ghost predicate Changes(out: seq<Event>, t: real, v: Value) {
    exists i :: 0 <= i < |out| && out[i].time == t && out[i].data == StateChange(v)
  }

  /** The history after some events, time by time. */
  lemma {:induction false} ReplayedAt(history: map<real, Value>, out: seq<Event>, t: real, v: Value)
    requires ChangesAgree(out)
    ensures Changes(out, t, v) ==> t in Replayed(history, out) && Replayed(history, out)[t] == v
    ensures (forall w :: !Changes(out, t, w)) ==>
              (t in Replayed(history, out) <==> t in history)
              && (t in history ==> Replayed(history, out)[t] == history[t])
    decreases |out|
  {
    if out != [] {
      var n := |out| - 1;
      var p, e := out[..n], out[n];
      ReplayedAt(history, p, t, v);
      forall w ensures Changes(out, t, w) <==> Changes(p, t, w) || (e.time == t && e.data == StateChange(w)) {
        if i :| 0 <= i < |out| && out[i].time == t && out[i].data == StateChange(w) {
          assert i < n ==> p[i] == out[i];
        }
      }
    }
  }

  lemma ChangesPermuted(a: seq<Event>, b: seq<Event>, t: real, v: Value)
    requires multiset(a) == multiset(b) && Changes(a, t, v)
    ensures Changes(b, t, v)
  {
    var i :| 0 <= i < |a| && a[i].time == t && a[i].data == StateChange(v);
    assert a[i] in multiset(b);
    var j :| 0 <= j < |b| && b[j] == a[i];
  }

  lemma AgreePermuted(a: seq<Event>, b: seq<Event>)
    requires multiset(a) == multiset(b) && ChangesAgree(a)
    ensures ChangesAgree(b)
  {
    forall i, j | 0 <= i < |b| && 0 <= j < |b| && BothChange(b[i], b[j])
      ensures b[i].data == b[j].data
    {
      assert b[i] in multiset(a) && b[j] in multiset(a);
      var k :| 0 <= k < |a| && a[k] == b[i];
      var l :| 0 <= l < |a| && a[l] == b[j];
    }
  }

  lemma SameHistory(history: map<real, Value>, a: seq<Event>, b: seq<Event>)
    requires multiset(a) == multiset(b) && ChangesAgree(a)
    ensures Replayed(history, a) == Replayed(history, b)
  {
    hide ChangesAgree, Changes, Replayed;
    AgreePermuted(a, b);
    forall t: real
      ensures t in Replayed(history, a) <==> t in Replayed(history, b)
      ensures t in Replayed(history, a) ==> Replayed(history, a)[t] == Replayed(history, b)[t]
    {
      if v :| Changes(a, t, v) {
        ChangesPermuted(a, b, t, v);
        ReplayedAt(history, a, t, v);
        ReplayedAt(history, b, t, v);
      } else {
        forall v ensures !Changes(b, t, v) { if Changes(b, t, v) { ChangesPermuted(b, a, t, v); } }
        ReplayedAt(history, a, t, 0);
        ReplayedAt(history, b, t, 0);
      }
    }
  }

  /** `s` with element `i` at the end. */
  function MovedLast(s: seq<Event>, i: nat): seq<Event>
    requires i < |s|
  {
    RemoveAt(s, i) + [s[i]]
  }

  lemma LastChangeWins(history: map<real, Value>, s: seq<Event>, i: nat)
    requires i < |s| && s[i].data.StateChange?
    ensures multiset(MovedLast(s, i)) == multiset(s)
    ensures var r := Replayed(history, MovedLast(s, i)); s[i].time in r && r[s[i].time] == s[i].data.value
  {
    RemoveAtMultiset(s, i);
    ReplayedNext(history, RemoveAt(s, i), s[i]);
  }

  /** The order in which parallel tasks finish leaves no trace in the state history exactly when
      state changes at the same time agree on the value. */
  lemma FinishOrderIrrelevantIff(history: map<real, Value>, out: seq<Event>)
    ensures (forall a, b :: multiset(a) == multiset(out) == multiset(b) ==>
                              Replayed(history, a) == Replayed(history, b))
       <==> ChangesAgree(out)
  {
    hide Replayed;
    if ChangesAgree(out) {
      forall a, b | multiset(a) == multiset(out) == multiset(b) ensures Replayed(history, a) == Replayed(history, b) {
        AgreePermuted(out, a);
        SameHistory(history, a, b);
      }
    } else {
      var i, j :| 0 <= i < |out| && 0 <= j < |out| && BothChange(out[i], out[j]) && out[i].data != out[j].data;
      LastChangeWins(history, out, i);
      LastChangeWins(history, out, j);
    }
  }
}
