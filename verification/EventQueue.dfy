/** The core event queue: a heap ordered by time and priority, a lookup table beside it, and
    events that may be delivered several times. */
module EventQueue {
  import opened Prelude

  type EventId = nat

  datatype Event = Event(
    id: EventId,
    time: real,
    kind: nat,
    priority: int,
    expiresAt: Option<real>,
    createdAt: real,
    maxExecutions: nat,  // zero means unlimited
    executions: nat)
  {
    predicate IsExpired(now: real) {
      expiresAt.Some? && now > expiresAt.value
    }

    predicate CanExecute() {
      maxExecutions == 0 || executions < maxExecutions
    }

    predicate IsRecurring() {
      maxExecutions == 0 || maxExecutions > 1
    }

    /** Will be delivered when it reaches the front at time `now`. */
    predicate IsLive(now: real) {
      time <= now && !IsExpired(now) && CanExecute()
    }

    function Executed(): Event {
      this.(executions := executions + 1)
    }

    /** The event apart from its id and creation time, which rescheduling changes. */
    function Payload(): Event {
      this.(id := 0, createdAt := 0.0)
    }
  }

  /** Earlier events come first, and higher priority first at the same time. */
  predicate Outranks(a: Event, b: Event) {
    a.time < b.time || (a.time == b.time && a.priority > b.priority)
  }

  predicate IsTop(h: seq<Event>, i: nat) {
    i < |h| && forall j :: 0 <= j < |h| ==> !Outranks(h[j], h[i])
  }

  lemma {:induction false} TopExists(h: seq<Event>) returns (i: nat)
    requires h != []
    ensures IsTop(h, i)
  {
    if |h| == 1 {
      i := 0;
    } else {
      var k := TopExists(h[1..]);
      assert forall j :: 0 < j < |h| ==> h[j] == h[1..][j - 1];
      i := if Outranks(h[0], h[k + 1]) then 0 else k + 1;
    }
  }

  // ---------------------------------------------------------------------------------------
  // What a heap will deliver

  /** Adds up what `f` says about each event of the heap. */
  ghost function Total(h: seq<Event>, f: Event -> multiset<Event>): multiset<Event> {
    if h == [] then multiset{} else Total(h[..|h| - 1], f) + f(h[|h| - 1])
  }

  lemma TotalPush(h: seq<Event>, e: Event, f: Event -> multiset<Event>)
    ensures Total(h + [e], f) == Total(h, f) + f(e)
  {
    assert (h + [e])[..|h|] == h;
  }

  lemma {:induction false} TotalRemove(h: seq<Event>, i: nat, f: Event -> multiset<Event>)
    requires i < |h|
    ensures Total(h, f) == Total(RemoveAt(h, i), f) + f(h[i])
    decreases |h|
  {
    var n := |h| - 1;
    if i == n {
      assert RemoveAt(h, i) == h[..n];
    } else {
      TotalRemove(h[..n], i, f);
      assert RemoveAt(h, i) == RemoveAt(h[..n], i) + [h[n]];
      TotalPush(RemoveAt(h[..n], i), h[n], f);
    }
  }

  lemma {:induction false} TotalEmpty(h: seq<Event>, f: Event -> multiset<Event>)
    requires forall i :: 0 <= i < |h| ==> f(h[i]) == multiset{}
    ensures Total(h, f) == multiset{}
    decreases |h|
  {
    if h != [] { TotalEmpty(h[..|h| - 1], f); }
  }

  lemma {:induction false} TotalAll(h: seq<Event>, f: Event -> multiset<Event>)
    requires forall i :: 0 <= i < |h| ==> f(h[i]) == multiset{h[i]}
    ensures Total(h, f) == multiset(h)
    decreases |h|
  {
    if h != [] {
      assert h == h[..|h| - 1] + [h[|h| - 1]];
      TotalAll(h[..|h| - 1], f);
    }
  }

  /** The deliveries still owed to a limited event: executions `executions + 1` up to the limit. */
  function Owed(e: Event): (m: multiset<Event>)
    ensures |m| == if e.executions < e.maxExecutions then e.maxExecutions - e.executions else 0
    ensures forall d :: d in m ==>
              d == e.Payload().(executions := d.executions) && e.executions < d.executions <= e.maxExecutions
    decreases e.maxExecutions - e.executions
  {
    if e.executions < e.maxExecutions then multiset{e.Executed().Payload()} + Owed(e.Executed())
    else multiset{}
  }

  function OwedAt(now: real): Event -> multiset<Event> {
    (e: Event) => if e.IsLive(now) then Owed(e) else multiset{}
  }

  function LaterThan(now: real): Event -> multiset<Event> {
    (e: Event) => if e.time > now then multiset{e} else multiset{}
  }

  function UnexpiredAt(now: real): Event -> multiset<Event> {
    (e: Event) => if e.IsExpired(now) then multiset{} else multiset{e}
  }

  /** Everything the limited events due at `now` are still owed. */
  ghost function Promise(h: seq<Event>, now: real): multiset<Event> {
    Total(h, OwedAt(now))
  }

  ghost function Later(h: seq<Event>, now: real): multiset<Event> {
    Total(h, LaterThan(now))
  }

  ghost predicate HasUnlimited(h: seq<Event>, now: real) {
    exists i :: 0 <= i < |h| && h[i].maxExecutions == 0 && h[i].IsLive(now)
  }

  ghost predicate NoneOutranks(h: seq<Event>, e: Event) {
    forall i :: 0 <= i < |h| ==> !Outranks(h[i], e)
  }

  lemma OwedIgnoresIdentity(a: Event, b: Event)
    requires a.Payload() == b.Payload()
    ensures Owed(a) == Owed(b)
    decreases a.maxExecutions - a.executions
  {
    if a.executions < a.maxExecutions {
      assert a.Executed().Payload() == b.Executed().Payload() by {
        assert a.Payload().(executions := a.executions + 1) == b.Payload().(executions := b.executions + 1);
      }
      OwedIgnoresIdentity(a.Executed(), b.Executed());
    }
  }

  const MAX_QUEUE := 1_000_000

  ghost predicate DistinctIds(h: seq<Event>) {
    forall i, j :: 0 <= i < j < |h| ==> h[i].id != h[j].id
  }

  /** The lookup table holds exactly the queued events that were not cancelled. */
  ghost predicate LookupExact(h: seq<Event>, byId: map<EventId, Event>, cancelled: set<EventId>) {
    && (forall id :: id in byId ==> id !in cancelled && byId[id].id == id && byId[id] in h)
    && (forall e :: e in h && e.id !in cancelled ==> e.id in byId && byId[e.id] == e)
    && (forall id :: id in cancelled ==> HasId(h, id))
  }

  ghost predicate HasId(h: seq<Event>, id: EventId) {
    exists e :: e in h && e.id == id
  }

  lemma PopKeepsLookup(h: seq<Event>, i: nat, byId: map<EventId, Event>, cancelled: set<EventId>)
    requires i < |h| && DistinctIds(h) && LookupExact(h, byId, cancelled)
    ensures DistinctIds(RemoveAt(h, i)) && !HasId(RemoveAt(h, i), h[i].id)
    ensures LookupExact(RemoveAt(h, i), byId - {h[i].id}, cancelled - {h[i].id})
  {
  }

  lemma PushKeepsLookup(h: seq<Event>, e: Event, byId: map<EventId, Event>, cancelled: set<EventId>)
    requires DistinctIds(h) && LookupExact(h, byId, cancelled) && !HasId(h, e.id)
    ensures DistinctIds(h + [e]) && LookupExact(h + [e], byId[e.id := e], cancelled)
  {
    forall id | id in cancelled ensures HasId(h + [e], id) {
      var x :| x in h && x.id == id;
      assert x in h + [e];
    }
  }

  /** Taking event `i` out of the heap takes exactly its share out of every account. */
  lemma PopEffects(h: seq<Event>, i: nat, now: real)
    requires i < |h|
    ensures Promise(h, now) == Promise(RemoveAt(h, i), now) + OwedAt(now)(h[i])
    ensures Later(h, now) == Later(RemoveAt(h, i), now) + LaterThan(now)(h[i])
    ensures HasUnlimited(h, now) <==> HasUnlimited(RemoveAt(h, i), now) || (h[i].maxExecutions == 0 && h[i].IsLive(now))
  {
    hide Total;
    TotalRemove(h, i, OwedAt(now));
    TotalRemove(h, i, LaterThan(now));
    var r := RemoveAt(h, i);
    forall j | 0 <= j < |h| && j != i ensures h[j] == r[if j < i then j else j - 1] {}
    forall j | 0 <= j < |r| ensures r[j] == h[if j < i then j else j + 1] {}
  }

  lemma PushEffects(h: seq<Event>, e: Event, now: real)
    ensures Promise(h + [e], now) == Promise(h, now) + OwedAt(now)(e)
    ensures Later(h + [e], now) == Later(h, now) + LaterThan(now)(e)
    ensures HasUnlimited(h + [e], now) <==> HasUnlimited(h, now) || (e.maxExecutions == 0 && e.IsLive(now))
  {
    hide Total;
    TotalPush(h, e, OwedAt(now));
    TotalPush(h, e, LaterThan(now));
    forall j | 0 <= j < |h| ensures h[j] == (h + [e])[j] {}
    assert (h + [e])[|h|] == e;
  }

  /** What a single call of `NextEvent` promises about the heap it leaves behind. */
  ghost predicate Delivers(h: seq<Event>, h': seq<Event>, now: real, r: Option<Event>) {
    && Later(h', now) == Later(h, now)
    && Promise(h, now)
       == (if r.Some? && r.value.maxExecutions > 0 then multiset{r.value.Payload()} else multiset{}) + Promise(h', now)
    && (HasUnlimited(h', now) <==> HasUnlimited(h, now))
    && (HasUnlimited(h, now) ==> r.Some?)
    && (r.Some? ==>
          && NoneOutranks(h', r.value)
          && exists i :: 0 <= i < |h| && h[i].IsLive(now) && r.value == h[i].Executed())
    && (r.None? ==> forall i :: 0 <= i < |h'| ==> h'[i].time > now)
    && (forall e :: e in h' ==> e in h || (r.Some? && e.Payload() == r.value.Payload()))
  }

  /** Equal apart from id, creation time and the number of executions: copies of one event. */
  predicate Kin(a: Event, b: Event) {
    a.Payload().(executions := 0) == b.Payload().(executions := 0)
  }

  /** `e` is a delivery of an unlimited event that is live in the heap. */
  ghost predicate HasKin(h: seq<Event>, e: Event, now: real) {
    exists j :: 0 <= j < |h| && h[j].maxExecutions == 0 && h[j].IsLive(now) && Kin(e, h[j])
  }

  ghost predicate Descends(h: seq<Event>, h0: seq<Event>) {
    forall e :: e in h ==> exists d :: d in h0 && Kin(e, d)
  }

  function LimitedCount(out: seq<Event>): nat {
    if out == [] then 0
    else LimitedCount(out[..|out| - 1]) + (if out[|out| - 1].maxExecutions > 0 then 1 else 0)
  }

  lemma {:induction false} SomeUnlimited(out: seq<Event>)
    requires LimitedCount(out) < |out|
    ensures exists i :: 0 <= i < |out| && out[i].maxExecutions == 0
  {
    var n := |out| - 1;
    if out[n].maxExecutions > 0 {
      SomeUnlimited(out[..n]);
      var i :| 0 <= i < n && out[..n][i].maxExecutions == 0;
      assert out[i].maxExecutions == 0;
    }
  }

  lemma CountNext(out: seq<Event>, e: Event)
    ensures LimitedCount(out + [e]) == LimitedCount(out) + (if e.maxExecutions > 0 then 1 else 0)
  {
    assert (out + [e])[..|out|] == out;
  }

  lemma DescendsStep(h0: seq<Event>, h: seq<Event>, h': seq<Event>, now: real, e: Event)
    requires Descends(h, h0) && Delivers(h, h', now, Some(e))
    ensures Descends(h', h0) && (e.maxExecutions == 0 ==> HasKin(h0, e, now))
    ensures |Promise(h, now)| == |Promise(h', now)| + (if e.maxExecutions > 0 then 1 else 0)
  {
    hide Promise, Later, HasUnlimited;
    var i :| 0 <= i < |h| && h[i].IsLive(now) && e == h[i].Executed();
    assert h[i] in h;
    var d :| d in h0 && Kin(h[i], d);
    assert Kin(e, d);
    var j :| 0 <= j < |h0| && h0[j] == d;
    forall x | x in h' ensures exists y :: y in h0 && Kin(x, y) {
      if x !in h { assert Kin(x, d); }
    }
  }

  class EventQueue {
    var heap: seq<Event>
    var byId: map<EventId, Event>
    var now: real
    var processed: nat
    var scheduled: nat
    var inQueue: nat
    var peak: nat
    var expired: nat
    var nextId: EventId             // source of fresh ids
    ghost var cleared: nat          // events dropped by Clear
    ghost var cancelled: set<EventId>

    /** The heap and the lookup table. */
    ghost predicate Core()
      reads this
    {
      && |heap| <= MAX_QUEUE
      && DistinctIds(heap) && LookupExact(heap, byId, cancelled)
      && forall i :: 0 <= i < |heap| ==> heap[i].id < nextId
    }

    /** Every event ever scheduled was delivered, dropped as expired, cleared, or is queued. */
    ghost predicate Valid()
      reads this
    {
      && Core()
      && inQueue == |heap| <= peak
      && scheduled == processed + expired + |heap| + cleared
    }

    constructor ()
      ensures Valid()
      ensures heap == [] && now == 0.0 && cleared == 0 && cancelled == {}
    {
      heap, byId, now := [], map[], 0.0;
      processed, scheduled, inQueue, peak, expired := 0, 0, 0, 0, 0;
      nextId, cleared, cancelled := 0, 0, {};
    }

    /** A fresh event id. */
    method NewId() returns (id: EventId)
      requires Core()
      modifies this`nextId
      ensures nextId == old(nextId) + 1 && id == old(nextId)
      ensures Core() && !HasId(heap, id)
      ensures old(Valid()) ==> Valid()
    {
      id := nextId;
      nextId := nextId + 1;
    }

    method Schedule(event: Event) returns (r: Result<EventId, string>)
      requires Core() && event.id < nextId && !HasId(heap, event.id)
      modifies this`heap, this`byId, this`scheduled, this`inQueue, this`peak
      ensures Core() && (old(Valid()) ==> Valid())
      ensures r.Err? <==> |old(heap)| >= MAX_QUEUE
      ensures r.Err? ==> unchanged(this)
      ensures r.Ok? ==>
                && r.value == event.id
                && heap == old(heap) + [event.(createdAt := now)]
                && scheduled == old(scheduled) + 1 && inQueue == |heap|
                && peak == (if |heap| > old(peak) then |heap| else old(peak))
    {
      if |heap| >= MAX_QUEUE {
        return Err("event queue overflow");
      }
      var e := event.(createdAt := now);
      PushKeepsLookup(heap, e, byId, cancelled);
      heap := heap + [e];
      byId := byId[e.id := e];
      scheduled := scheduled + 1;
      inQueue := |heap|;
      peak := if |heap| > peak then |heap| else peak;
      r := Ok(event.id);
    }

    /** `heap.pop`: takes out some event that no other outranks. */
    method PopHeap() returns (event: Event, ghost i: nat)
      requires heap != []
      modifies this`heap
      ensures IsTop(old(heap), i) && event == old(heap)[i] && heap == RemoveAt(old(heap), i)
    {
      ghost var k := TopExists(heap);
      var n: nat :| n < |heap| && IsTop(heap, n);
      event, i := heap[n], n;
      heap := RemoveAt(heap, n);
    }

    /** Pops an event and drops its lookup entry. */
    method Pop() returns (event: Event, ghost i: nat)
      requires Core() && heap != []
      modifies this`heap, this`byId, this`cancelled
      ensures Core() && IsTop(old(heap), i) && event == old(heap)[i]
      ensures heap == RemoveAt(old(heap), i)
    {
      event, i := PopHeap();
      PopKeepsLookup(old(heap), i, byId, cancelled);
      byId := byId - {event.id};
      cancelled := cancelled - {event.id};
    }

    /** Puts a copy of a recurring event back under a fresh id; the limit cannot be hit, because
        the event has just left the heap. */
    method Reschedule(event: Event)
      requires Core() && |heap| < MAX_QUEUE
      modifies this`heap, this`byId, this`scheduled, this`inQueue, this`peak, this`nextId
      ensures Core() && |heap| == |old(heap)| + 1
      ensures heap == old(heap) + [event.(id := old(nextId), createdAt := now)]
      ensures scheduled == old(scheduled) + 1 && peak >= |heap| && peak >= old(peak)
    {
      var id := NewId();
      var _ := Schedule(event.(id := id));
    }

    /** Hands out an event that was just popped and is live, rescheduling it if it recurs. */
    method Deliver(event: Event, ghost h: seq<Event>, ghost i: nat) returns (done: Event)
      requires Core() && IsTop(h, i) && event == h[i] && event.IsLive(now)
      requires heap == RemoveAt(h, i) && |h| <= MAX_QUEUE
      requires scheduled == processed + expired + |h| + cleared && |h| <= peak
      modifies this`heap, this`byId, this`processed, this`scheduled, this`inQueue, this`peak, this`nextId
      ensures Valid() && Delivers(h, heap, now, Some(done))
      ensures processed == old(processed) + 1
      ensures scheduled >= old(scheduled)
    {
      hide Promise, Later, HasUnlimited, Delivers, LookupExact, DistinctIds;
      done := event.Executed();
      if done.IsRecurring() && done.CanExecute() {
        ghost var id := nextId;
        Reschedule(done);
        DeliverAgain(h, i, id, now, now);
      } else {
        DeliverLast(h, i, now);
      }
      processed := processed + 1;
      inQueue := |heap|;
    }

    /** Pops until a live event turns up, which is delivered and possibly rescheduled, or until
        the first event of the heap lies in the future. */
    method NextEvent() returns (r: Option<Event>)
      requires Valid()
      modifies this`heap, this`byId, this`cancelled, this`processed, this`scheduled, this`inQueue, this`peak,
               this`expired, this`nextId
      ensures Valid()
      ensures Delivers(old(heap), heap, now, r)
      ensures processed == old(processed) + (if r.Some? then 1 else 0)
    {
      hide Promise, Later, HasUnlimited, Delivers, LookupExact, DistinctIds, IsTop;
      ghost var h0 := heap;
      assert SameDue(h0, heap, now);
      while heap != []
        invariant Valid()
        invariant SameDue(h0, heap, now)
        invariant processed == old(processed)
        decreases |heap|
      {
        ghost var k := TopExists(heap);
        var t: nat :| IsTop(heap, t);
        assert t < |heap| by { TopInside(heap, t); }
        if heap[t].time > now {
          break;
        }
        ghost var h := heap;
        var event, i := Pop();
        assert event.time <= now && i < |h| by { TopsTie(h, t, i); }
        if !event.IsExpired(now) && event.CanExecute() {
          var done := Deliver(event, h, i);
          SameDueDelivers(h0, h, heap, now, Some(done));
          return Some(done);
        }
        DropDead(h0, h, i, now);
        expired := expired + 1;
        inQueue := |heap|;
      }
      NothingLeft(h0, heap, now);
      return None;
    }

    /** Delivers until nothing is due. With only limited events due, this ends; everything they
        are owed is delivered, in order, and exactly the events of the future stay. */
    method Drain() returns (out: seq<Event>)
      requires Valid() && !HasUnlimited(heap, now)
      modifies this`heap, this`byId, this`cancelled, this`processed, this`scheduled, this`inQueue, this`peak,
               this`expired, this`nextId
      ensures Valid() && processed == old(processed) + |out|
      ensures multiset(Payloads(out)) == Promise(old(heap), now)
      ensures multiset(heap) == Later(old(heap), now)
      ensures forall i, j :: 0 <= i < j < |out| ==> !Outranks(out[j], out[i])
    {
      hide Promise, Later, HasUnlimited, Delivers, LookupExact, DistinctIds;
      ghost var h0 := heap;
      out := [];
      while true
        invariant Valid() && processed == old(processed) + |out|
        invariant !HasUnlimited(heap, now) && Later(heap, now) == Later(h0, now)
        invariant multiset(Payloads(out)) + Promise(heap, now) == Promise(h0, now)
        invariant InOrder(out) && (out != [] ==> NoneOutranks(heap, out[|out| - 1]))
        decreases |Promise(heap, now)|
      {
        ghost var h := heap;
        var r := NextEvent();
        if r.None? {
          DrainEnds(h, heap, now);
          break;
        }
        DrainAdvances(h, heap, now, r.value, out);
        out := out + [r.value];
      }
    }

    /** At most `limit` deliveries. While an unlimited event is due, the queue always has another
        one to deliver: it comes back at the same time for ever. */
    method TakeAtMost(limit: nat) returns (out: seq<Event>)
      requires Valid()
      modifies this`heap, this`byId, this`cancelled, this`processed, this`scheduled, this`inQueue, this`peak,
               this`expired, this`nextId
      ensures Valid() && |out| <= limit
      ensures HasUnlimited(old(heap), now) ==> |out| == limit && HasUnlimited(heap, now)
      ensures LimitedCount(out) + |Promise(heap, now)| == |Promise(old(heap), now)|
      ensures forall i :: 0 <= i < |out| && out[i].maxExecutions == 0 ==> HasKin(old(heap), out[i], now)
    {
      hide Promise, Later, HasUnlimited, HasKin, Descends, LookupExact, DistinctIds;
      out := [];
      assert Descends(heap, heap) by { DescendsSelf(heap); }
      while |out| < limit
        invariant Valid() && |out| <= limit
        invariant HasUnlimited(heap, now) <==> HasUnlimited(old(heap), now)
        invariant LimitedCount(out) + |Promise(heap, now)| == |Promise(old(heap), now)|
        invariant Descends(heap, old(heap))
        invariant forall i :: 0 <= i < |out| && out[i].maxExecutions == 0 ==> HasKin(old(heap), out[i], now)
      {
        ghost var h := heap;
        var r := NextEvent();
        if r.None? {
          SamePromise(h, heap, now);
          break;
        }
        DescendsStep(old(heap), h, heap, now, r.value);
        CountNext(out, r.value);
        out := out + [r.value];
      }
    }

    /** Only the lookup table forgets the event: the heap, and with it every later delivery, is
        left as it was. */
    method Cancel(id: EventId) returns (found: bool)
      requires Valid()
      modifies this`byId, this`cancelled
      ensures Valid()
      ensures found <==> id in old(byId)
      ensures byId == old(byId) - {id}
      ensures cancelled == old(cancelled) + (if found then {id} else {})
    {
      if id in byId {
        assert byId[id] in heap;
        byId := byId - {id};
        cancelled := cancelled + {id};
        return true;
      }
      assert byId - {id} == byId;
      return false;
    }

    method Clear()
      requires Valid()
      modifies this`heap, this`byId, this`cancelled, this`inQueue, this`cleared
      ensures Valid() && heap == [] && byId == map[]
      ensures cleared == old(cleared) + |old(heap)|
    {
      cleared := cleared + |heap|;
      heap, byId, cancelled, inQueue := [], map[], {}, 0;
    }

    /** Moves the clock and throws out what has expired by then. */
    method SetCurrentTime(time: real)
      requires Valid()
      modifies this`heap, this`byId, this`cancelled, this`now, this`inQueue, this`expired
      ensures Valid() && now == time
      ensures multiset(heap) == Total(old(heap), UnexpiredAt(time))
      ensures forall i :: 0 <= i < |heap| ==> !heap[i].IsExpired(time)
      ensures expired + |heap| == old(expired) + |old(heap)|
    {
      now := time;
      RemoveExpired();
    }

    method RemoveExpired()
      requires Valid()
      modifies this`heap, this`byId, this`cancelled, this`inQueue, this`expired
      ensures Valid()
      ensures multiset(heap) == Total(old(heap), UnexpiredAt(now))
      ensures forall i :: 0 <= i < |heap| ==> !heap[i].IsExpired(now)
      ensures expired + |heap| == old(expired) + |old(heap)|
    {
      hide Total, LookupExact, DistinctIds, IsTop;
      var valid := PopUnexpired();
      for k := 0 to |valid|
        invariant heap == valid[..k]
        modifies this`heap
      {
        heap := heap + [valid[k]];
      }
      assert heap == valid;
      inQueue := |heap|;
      forall i | 0 <= i < |heap| ensures heap[i].id < nextId { assert heap[i] in old(heap); }
    }

    /** Empties the heap; the events that have not expired are returned. */
    method PopUnexpired() returns (valid: seq<Event>)
      requires Core()
      modifies this`heap, this`byId, this`cancelled, this`expired
      ensures heap == []
      ensures DistinctIds(valid) && LookupExact(valid, byId, cancelled)
      ensures multiset(valid) == Total(old(heap), UnexpiredAt(now))
      ensures forall e :: e in valid ==> e in old(heap) && !e.IsExpired(now)
      ensures expired + |valid| == old(expired) + |old(heap)| && expired >= old(expired)
    {
      hide Total, LookupExact, DistinctIds, IsTop;
      valid := [];
      assert heap + valid == heap;
      while heap != []
        invariant DistinctIds(heap + valid) && LookupExact(heap + valid, byId, cancelled)
        invariant multiset(valid) + Total(heap, UnexpiredAt(now)) == Total(old(heap), UnexpiredAt(now))
        invariant forall e :: e in valid ==> !e.IsExpired(now)
        invariant forall e :: e in heap + valid ==> e in old(heap)
        invariant expired + |heap| + |valid| == old(expired) + |old(heap)| && expired >= old(expired)
        decreases |heap|
      {
        ghost var h := heap;
        var event, i := PopHeap();
        assert i < |h| by { TopInside(h, i); }
        TotalRemove(h, i, UnexpiredAt(now));
        if !event.IsExpired(now) {
          KeepUnexpired(h, i, valid, byId, cancelled);
          valid := valid + [event];
        } else {
          DropExpired(h, i, valid, byId, cancelled);
          byId := byId - {event.id};
          cancelled := cancelled - {event.id};
          expired := expired + 1;
        }
      }
      TotalEmpty(heap, UnexpiredAt(now));
      assert heap + valid == valid;
    }
  }

  lemma DescendsSelf(h: seq<Event>)
    ensures Descends(h, h)
  {
    forall e | e in h ensures exists d :: d in h && Kin(e, d) { assert Kin(e, e); }
  }

  lemma SamePromise(h: seq<Event>, h': seq<Event>, now: real)
    requires Delivers(h, h', now, None)
    ensures Promise(h, now) == Promise(h', now)
  {
  }

  lemma DistinctPermuted(h: seq<Event>, h': seq<Event>)
    requires multiset(h) == multiset(h') && DistinctIds(h)
    ensures DistinctIds(h')
  {
    assert NoDup(h);
    NoDupOccurs(h);
    NoDupOccurs(h');
    assert forall e :: Occurs(h', e) == Occurs(h, e);
    forall i, j | 0 <= i < j < |h'| ensures h'[i].id != h'[j].id {
      assert h'[i] in multiset(h) && h'[j] in multiset(h);
      var a :| 0 <= a < |h| && h[a] == h'[i];
      var b :| 0 <= b < |h| && h[b] == h'[j];
      assert a != b;
    }
  }

  lemma LookupPermuted(h: seq<Event>, h': seq<Event>, byId: map<EventId, Event>, cancelled: set<EventId>)
    requires multiset(h) == multiset(h') && LookupExact(h, byId, cancelled)
    ensures LookupExact(h', byId, cancelled)
  {
    assert forall e :: e in h <==> e in multiset(h);
    assert forall e :: e in h' <==> e in multiset(h');
    forall id | id in cancelled ensures HasId(h', id) {
      var e :| e in h && e.id == id;
      assert e in h';
    }
  }

  lemma KeepUnexpired(h: seq<Event>, i: nat, valid: seq<Event>, byId: map<EventId, Event>, cancelled: set<EventId>)
    requires i < |h| && DistinctIds(h + valid) && LookupExact(h + valid, byId, cancelled)
    ensures var all := RemoveAt(h, i) + (valid + [h[i]]);
            DistinctIds(all) && LookupExact(all, byId, cancelled) && forall e :: e in all ==> e in h + valid
  {
    hide DistinctIds, LookupExact;
    var all := RemoveAt(h, i) + (valid + [h[i]]);
    assert multiset(all) == multiset(h + valid) by { assert h == h[..i] + [h[i]] + h[i + 1..]; }
    DistinctPermuted(h + valid, all);
    LookupPermuted(h + valid, all, byId, cancelled);
    forall e | e in all ensures e in h + valid { assert e in multiset(all); }
  }

  lemma DropExpired(h: seq<Event>, i: nat, valid: seq<Event>, byId: map<EventId, Event>, cancelled: set<EventId>)
    requires i < |h| && DistinctIds(h + valid) && LookupExact(h + valid, byId, cancelled)
    ensures DistinctIds(RemoveAt(h, i) + valid)
    ensures LookupExact(RemoveAt(h, i) + valid, byId - {h[i].id}, cancelled - {h[i].id})
    ensures forall e :: e in RemoveAt(h, i) + valid ==> e in h + valid
  {
    hide DistinctIds, LookupExact;
    assert RemoveAt(h + valid, i) == RemoveAt(h, i) + valid;
    PopKeepsLookup(h + valid, i, byId, cancelled);
  }

  function Payloads(out: seq<Event>): (r: seq<Event>)
    ensures |r| == |out| && forall i :: 0 <= i < |out| ==> r[i] == out[i].Payload()
  {
    seq(|out|, i requires 0 <= i < |out| => out[i].Payload())
  }

  ghost predicate InOrder(out: seq<Event>) {
    forall i, j :: 0 <= i < j < |out| ==> !Outranks(out[j], out[i])
  }

  lemma DrainAdvances(h: seq<Event>, h': seq<Event>, now: real, e: Event, out: seq<Event>)
    requires Delivers(h, h', now, Some(e)) && !HasUnlimited(h, now)
    requires InOrder(out) && (out != [] ==> NoneOutranks(h, out[|out| - 1]))
    ensures !HasUnlimited(h', now) && Later(h', now) == Later(h, now)
    ensures Promise(h, now) == multiset{e.Payload()} + Promise(h', now)
    ensures multiset(Payloads(out + [e])) == multiset(Payloads(out)) + multiset{e.Payload()}
    ensures InOrder(out + [e]) && NoneOutranks(h', e)
  {
    hide Promise, Later;
    assert Payloads(out + [e]) == Payloads(out) + [e.Payload()];
    var i :| 0 <= i < |h| && h[i].IsLive(now) && e == h[i].Executed();
    if out != [] {
      assert !Outranks(h[i], out[|out| - 1]);
    }
  }

  lemma DrainEnds(h: seq<Event>, h': seq<Event>, now: real)
    requires Delivers(h, h', now, None)
    ensures Promise(h, now) == Promise(h', now) == multiset{}
    ensures multiset(h') == Later(h, now)
  {
    TotalEmpty(h', OwedAt(now));
    TotalAll(h', LaterThan(now));
  }

  lemma TopInside(h: seq<Event>, t: nat)
    requires IsTop(h, t)
    ensures t < |h|
  {
  }

  lemma TopsTie(h: seq<Event>, t: nat, i: nat)
    requires IsTop(h, t) && IsTop(h, i)
    ensures i < |h| && t < |h| && h[i].time == h[t].time && h[i].priority == h[t].priority
  {
    assert !Outranks(h[i], h[t]) && !Outranks(h[t], h[i]);
  }

  /** Dropping events that are due but not live changes no account. */
  ghost predicate SameDue(h: seq<Event>, h': seq<Event>, now: real) {
    && Later(h', now) == Later(h, now)
    && Promise(h', now) == Promise(h, now)
    && (HasUnlimited(h', now) <==> HasUnlimited(h, now))
    && forall e :: e in h' ==> e in h
  }

  lemma SameDueDelivers(h0: seq<Event>, h: seq<Event>, h': seq<Event>, now: real, r: Option<Event>)
    requires SameDue(h0, h, now) && Delivers(h, h', now, r)
    ensures Delivers(h0, h', now, r)
  {
    hide Promise, Later, HasUnlimited;
    if r.Some? {
      var i :| 0 <= i < |h| && h[i].IsLive(now) && r.value == h[i].Executed();
      assert h[i] in h0;
    }
  }

  lemma DropDead(h0: seq<Event>, h: seq<Event>, i: nat, now: real)
    requires SameDue(h0, h, now) && i < |h| && h[i].time <= now && !h[i].IsLive(now)
    ensures SameDue(h0, RemoveAt(h, i), now)
  {
    hide Promise, Later, HasUnlimited;
    PopEffects(h, i, now);
  }

  lemma NothingLeft(h0: seq<Event>, h: seq<Event>, now: real)
    requires SameDue(h0, h, now)
    requires h != [] ==> exists t: nat :: IsTop(h, t) && h[t].time > now
    ensures Delivers(h0, h, now, None)
  {
    if h != [] {
      var t: nat :| IsTop(h, t) && h[t].time > now;
      assert forall i :: 0 <= i < |h| ==> !Outranks(h[i], h[t]);
    }
    TotalEmpty(h, OwedAt(now));
  }

  lemma DeliverLast(h: seq<Event>, i: nat, now: real)
    requires IsTop(h, i) && h[i].IsLive(now)
    requires var done := h[i].Executed(); !(done.IsRecurring() && done.CanExecute())
    ensures Delivers(h, RemoveAt(h, i), now, Some(h[i].Executed()))
  {
    hide Promise, Later, HasUnlimited;
    var e, r := h[i], RemoveAt(h, i);
    PopEffects(h, i, now);
    assert Owed(e) == multiset{e.Executed().Payload()} + Owed(e.Executed());
    assert Owed(e.Executed()) == multiset{};
    forall j | 0 <= j < |r| ensures !Outranks(r[j], e.Executed()) { assert r[j] == h[if j < i then j else j + 1]; }
  }

  /** Going round once more costs one owed execution and nothing else. */
  lemma OwedOnce(e: Event, id: EventId, created: real, now: real)
    requires e.IsLive(now) && e.Executed().CanExecute()
    ensures var copy := e.Executed().(id := id, createdAt := created);
            && copy.IsLive(now) && copy.time == e.time && copy.priority == e.priority
            && copy.maxExecutions == e.maxExecutions
            && Owed(e) == (if e.maxExecutions > 0 then multiset{e.Executed().Payload()} else multiset{}) + Owed(copy)
  {
    var copy := e.Executed().(id := id, createdAt := created);
    OwedIgnoresIdentity(copy, e.Executed());
  }

  lemma DeliverAgain(h: seq<Event>, i: nat, id: EventId, created: real, now: real)
    requires IsTop(h, i) && h[i].IsLive(now) && h[i].Executed().CanExecute()
    ensures Delivers(h, RemoveAt(h, i) + [h[i].Executed().(id := id, createdAt := created)], now, Some(h[i].Executed()))
  {
    hide Promise, Later, HasUnlimited, Owed;
    var e, r := h[i], RemoveAt(h, i);
    var copy := e.Executed().(id := id, createdAt := created);
    OwedOnce(e, id, created, now);
    PopEffects(h, i, now);
    PushEffects(r, copy, now);
    forall x | x in r + [copy] ensures !Outranks(x, e.Executed()) { RemainsOutranked(h, i, x, copy); }
  }

  lemma RemainsOutranked(h: seq<Event>, i: nat, x: Event, copy: Event)
    requires IsTop(h, i) && x in RemoveAt(h, i) + [copy]
    requires copy.time == h[i].time && copy.priority == h[i].priority
    ensures !Outranks(x, h[i].Executed())
  {
    if x in RemoveAt(h, i) {
      var j :| 0 <= j < |h| && h[j] == x;
      assert !Outranks(h[j], h[i]);
    }
  }

  lemma {:induction false} TotalSubset(h: seq<Event>, f: Event -> multiset<Event>)
    requires forall e :: f(e) <= multiset{e}
    ensures Total(h, f) <= multiset(h)
    decreases |h|
  {
    if h != [] {
      assert h == h[..|h| - 1] + [h[|h| - 1]];
      TotalSubset(h[..|h| - 1], f);
    }
  }

  lemma {:induction false} OwedHas(e: Event, k: nat)
    requires e.executions < k <= e.maxExecutions
    ensures e.Payload().(executions := k) in Owed(e)
    decreases k - e.executions
  {
    if k > e.executions + 1 { OwedHas(e.Executed(), k); }
  }

  /** Without the event at `i` the queue would deliver the same, exactly when that event is owed
      nothing now: it is not live, or it is not limited. */
  lemma PromiseWithout(h: seq<Event>, i: nat, now: real)
    requires i < |h|
    ensures Promise(h, now) == Promise(RemoveAt(h, i), now) <==> !(h[i].IsLive(now) && h[i].maxExecutions > 0)
  {
    hide Promise;
    PopEffects(h, i, now);
    assert |OwedAt(now)(h[i])| > 0 <==> h[i].IsLive(now) && h[i].maxExecutions > 0;
    assert |Promise(h, now)| == |Promise(RemoveAt(h, i), now)| + |OwedAt(now)(h[i])|;
  }

  lemma InTotal(h: seq<Event>, i: nat, f: Event -> multiset<Event>)
    requires i < |h|
    ensures f(h[i]) <= Total(h, f)
  {
    TotalRemove(h, i, f);
  }

  /** Cancelling a queued event and draining: the deliveries are those of the queue without the
      event exactly when it was not live, so that nothing was left to cancel. A live one is
      delivered as often as it is owed; one that lies in the future stays queued. */
  method CancelledIsStillDelivered(q: EventQueue, id: EventId) returns (found: bool, out: seq<Event>, ghost at: nat)
    requires q.Valid() && !HasUnlimited(q.heap, q.now)
    modifies q
    ensures found <==> id in old(q.byId)
    ensures multiset(Payloads(out)) == Promise(old(q.heap), q.now)
    ensures found ==> at < |old(q.heap)| && old(q.heap)[at].id == id
    ensures found ==> NotCancelled(old(q.heap), at, q.now, out, q.heap)
  {
    hide Promise, Later, HasUnlimited, DistinctIds, NotCancelled;
    ghost var h, now := q.heap, q.now;
    at := 0;
    found := q.Cancel(id);
    if found {
      at :| at < |h| && h[at] == old(q.byId)[id];
    }
    out := q.Drain();
    if found {
      CancelledShares(h, at, now, out, q.heap);
    }
  }

  /** What became of event `at` of the heap `h` when `out` was delivered and `left` stayed. */
  ghost predicate NotCancelled(h: seq<Event>, at: nat, now: real, out: seq<Event>, left: seq<Event>)
    requires at < |h|
  {
    && (multiset(Payloads(out)) == Promise(RemoveAt(h, at), now) <==> !h[at].IsLive(now))
    && (h[at].IsLive(now) ==>
          forall k: nat :: h[at].executions < k <= h[at].maxExecutions ==>
            h[at].Payload().(executions := k) in Payloads(out))
    && (h[at].time > now ==> h[at] in left)
  }

  lemma CancelledShares(h: seq<Event>, at: nat, now: real, out: seq<Event>, left: seq<Event>)
    requires at < |h| && !HasUnlimited(h, now)
    requires multiset(Payloads(out)) == Promise(h, now) && multiset(left) == Later(h, now)
    ensures NotCancelled(h, at, now, out, left)
  {
    PromiseWithout(h, at, now);
    InTotal(h, at, OwedAt(now));
    InTotal(h, at, LaterThan(now));
    if h[at].IsLive(now) {
      forall k: nat | h[at].executions < k <= h[at].maxExecutions
        ensures h[at].Payload().(executions := k) in Payloads(out)
      {
        OwedHas(h[at], k);
        assert h[at].Payload().(executions := k) in multiset(Payloads(out));
      }
    }
    if h[at].time > now { assert h[at] in multiset(left); }
  }

  /** Cancelling a live event without execution limit: the queue still has a delivery to make
      whenever it is asked. If without that event it would run dry, the event itself is among the
      deliveries as soon as there are more than the limited events are owed. */
  method CancelledUnlimitedKeepsComing(q: EventQueue, id: EventId, ghost at: nat, limit: nat)
    returns (found: bool, out: seq<Event>)
    requires q.Valid() && at < |q.heap| && q.heap[at].id == id
    requires q.heap[at].IsLive(q.now) && q.heap[at].maxExecutions == 0
    modifies q
    ensures found <==> id in old(q.byId)
    ensures |out| == limit && HasUnlimited(q.heap, q.now)
    ensures !HasUnlimited(RemoveAt(old(q.heap), at), q.now) && limit > |Promise(old(q.heap), q.now)| ==>
              exists i :: 0 <= i < |out| && Kin(out[i], old(q.heap)[at])
  {
    hide Promise, HasUnlimited, HasKin, LookupExact, DistinctIds, Kin, LimitedCount, Total;
    ghost var h, now := q.heap, q.now;
    IsUnlimited(h, at, now);
    found := q.Cancel(id);
    out := q.TakeAtMost(limit);
    if !HasUnlimited(RemoveAt(h, at), now) && limit > |Promise(h, now)| {
      SomeUnlimited(out);
      var i :| 0 <= i < |out| && out[i].maxExecutions == 0;
      OnlyKin(h, at, out[i], now);
    }
  }

  lemma IsUnlimited(h: seq<Event>, at: nat, now: real)
    requires at < |h| && h[at].IsLive(now) && h[at].maxExecutions == 0
    ensures HasUnlimited(h, now)
  {
  }

  lemma OnlyKin(h: seq<Event>, at: nat, e: Event, now: real)
    requires at < |h| && !HasUnlimited(RemoveAt(h, at), now) && HasKin(h, e, now)
    ensures Kin(e, h[at])
  {
    var r := RemoveAt(h, at);
    var j :| 0 <= j < |h| && h[j].maxExecutions == 0 && h[j].IsLive(now) && Kin(e, h[j]);
    assert forall k :: 0 <= k < |h| && k != at ==> h[k] == r[if k < at then k else k - 1];
  }
}
