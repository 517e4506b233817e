/** The work-stealing thread pool as a transition system.

    Any number of threads call `submit`, any number of workers run `worker_loop`, and every
    atomic access (counter update, channel operation, queue pop, flag load) is one step, so
    that a run is an arbitrary interleaving. A task is represented by its id: the channel is
    first-in first-out whatever the priority. The fields below `stolen` are history. */
module ThreadPool {
  import opened Prelude

  type TaskId = nat

  /** Where a thread stands inside `submit`. */
  datatype Submitter =
    | Outside
    | Numbered(id: TaskId)  // drew an id, `active_tasks` not yet incremented
    | Counted(id: TaskId)   // counted, not yet sent
    | Sent(id: TaskId)      // in the channel, `tasks_submitted` not yet incremented
    | Refused(id: TaskId)   // the channel is disconnected, count not yet taken back

  /** Where a worker stands inside `worker_loop`. */
  datatype Worker =
    | CheckFlag
    | TryLocal
    | TryGlobal
    | TrySteal(victim: nat)
    | Stole(id: TaskId)     // `tasks_stolen` not yet incremented
    | Holding(id: TaskId)   // about to run the closure
    | Ran(id: TaskId)       // closure finished, `tasks_completed` not yet incremented
    | Logged(id: TaskId)    // `active_tasks` not yet decremented
    | Stopped

  datatype Pool = Pool(
    capacity: nat,
    stealing: bool,
    channel: seq<TaskId>,
    locals: seq<seq<TaskId>>,
    submitters: seq<Submitter>,
    workers: seq<Worker>,
    active: int,
    shutdown: bool,
    nextId: TaskId,
    submitted: nat,
    completed: nat,
    stolen: nat,
    sent: seq<TaskId>,       // successful sends, in order
    taken: seq<TaskId>,      // tasks that left the channel towards a worker, in order
    executed: seq<TaskId>,   // closures run, in order
    returned: set<TaskId>,   // ids that `submit` has returned
    discarded: seq<TaskId>)  // queued when the last receiver went away

  datatype Action =
    | DrawId(t: nat) | Count(t: nat) | Send(t: nat) | HandOver(t: nat, w: nat) | Refuse(t: nat)
    | TakeBack(t: nat) | Return(t: nat)
    | Check(w: nat) | PopLocal(w: nat) | Receive(w: nat) | Steal(w: nat) | CountSteal(w: nat)
    | Execute(w: nat) | Log(w: nat) | Release(w: nat)
    | Shutdown

  predicate AllStopped(ws: seq<Worker>) {
    forall i :: 0 <= i < |ws| ==> ws[i] == Stopped
  }

  predicate Init(s: Pool) {
    && |s.workers| > 0 && |s.locals| == |s.workers|
    && s.channel == s.sent == s.taken == s.executed == s.discarded == []
    && (forall i :: 0 <= i < |s.locals| ==> s.locals[i] == [])
    && (forall i :: 0 <= i < |s.submitters| ==> s.submitters[i] == Outside)
    && (forall i :: 0 <= i < |s.workers| ==> s.workers[i] == CheckFlag)
    && s.active == s.submitted == s.completed == s.stolen == s.nextId == 0
    && !s.shutdown && s.returned == {}
  }

  predicate IsSubmitterAction(a: Action) {
    a.DrawId? || a.Count? || a.Send? || a.Refuse? || a.TakeBack? || a.Return?
  }

  predicate HasTask(a: Action) {
    a.CountSteal? || a.Execute? || a.Log? || a.Release?
  }

  predicate IsWorkerAction(a: Action) {
    a.Check? || a.PopLocal? || a.Receive? || a.Steal? || HasTask(a)
  }

  /** One step of a submitting thread; `None` when the thread is not at that point or blocked. */
  function SubmitterStep(s: Pool, a: Action): Option<Pool>
    requires IsSubmitterAction(a)
  {
    if a.t >= |s.submitters| then None
    else
      var pc := s.submitters[a.t];
      match a
      case DrawId(t) =>
        if pc == Outside then
          Some(s.(submitters := s.submitters[t := Numbered(s.nextId)], nextId := s.nextId + 1))
        else None
      case Count(t) =>
        if pc.Numbered? then
          Some(s.(submitters := s.submitters[t := Counted(pc.id)], active := s.active + 1))
        else None
      case Send(t) =>
        if pc.Counted? && !AllStopped(s.workers) && |s.channel| < s.capacity then
          Some(s.(submitters := s.submitters[t := Sent(pc.id)],
                  channel := s.channel + [pc.id], sent := s.sent + [pc.id]))
        else None
      case Refuse(t) =>
        if pc.Counted? && AllStopped(s.workers) then
          Some(s.(submitters := s.submitters[t := Refused(pc.id)]))
        else None
      case TakeBack(t) =>
        if pc.Refused? then
          Some(s.(submitters := s.submitters[t := Outside], active := s.active - 1))
        else None
      case Return(t) =>
        if pc.Sent? then
          Some(s.(submitters := s.submitters[t := Outside], submitted := s.submitted + 1,
                  returned := s.returned + {pc.id}))
        else None
  }

  /** The queue a worker looks at when it tries its `k`-th victim (its own queue is left out). */
  function Victim(w: nat, k: nat): nat {
    if k < w then k else k + 1
  }

  /** A stopping worker; the last one drops the receiver and with it everything still queued. */
  function Stop(s: Pool, w: nat): Pool
    requires w < |s.workers|
  {
    var ws := s.workers[w := Stopped];
    if AllStopped(ws)
    then s.(workers := ws, discarded := s.discarded + s.channel, channel := [])
    else s.(workers := ws)
  }

  function CheckStep(s: Pool, w: nat): Option<Pool>
    requires w < |s.workers|
  {
    if s.workers[w] != CheckFlag then None
    else if s.shutdown then Some(Stop(s, w))
    else Some(s.(workers := s.workers[w := TryLocal]))
  }

  function PopLocalStep(s: Pool, w: nat): Option<Pool>
    requires w < |s.workers|
  {
    if s.workers[w] != TryLocal || w >= |s.locals| then None
    else
      var q := s.locals[w];
      if q == [] then Some(s.(workers := s.workers[w := TryGlobal]))
      else Some(s.(workers := s.workers[w := Holding(q[0])], locals := s.locals[w := q[1..]]))
  }

  function ReceiveStep(s: Pool, w: nat): Option<Pool>
    requires w < |s.workers|
  {
    if s.workers[w] != TryGlobal then None
    else if s.channel == [] then
      Some(s.(workers := s.workers[w := if s.stealing then TrySteal(0) else CheckFlag]))
    else
      var id := s.channel[0];
      Some(s.(workers := s.workers[w := Holding(id)], channel := s.channel[1..], taken := s.taken + [id]))
  }

  function StealStep(s: Pool, w: nat): Option<Pool>
    requires w < |s.workers|
  {
    if !s.workers[w].TrySteal? then None
    else
      var k := s.workers[w].victim;
      var v := Victim(w, k);
      if v >= |s.locals| then Some(s.(workers := s.workers[w := CheckFlag]))
      else
        var q := s.locals[v];
        if q == [] then Some(s.(workers := s.workers[w := TrySteal(k + 1)]))
        else Some(s.(workers := s.workers[w := Stole(q[|q| - 1])], locals := s.locals[v := q[..|q| - 1]]))
  }

  /** The steps of a worker that has a task. */
  function RunStep(s: Pool, a: Action): Option<Pool>
    requires HasTask(a) && a.w < |s.workers|
  {
    var pc := s.workers[a.w];
    match a
    case CountSteal(w) =>
      if pc.Stole? then Some(s.(workers := s.workers[w := Holding(pc.id)], stolen := s.stolen + 1)) else None
    case Execute(w) =>
      if pc.Holding? then Some(s.(workers := s.workers[w := Ran(pc.id)], executed := s.executed + [pc.id])) else None
    case Log(w) =>
      if pc.Ran? then Some(s.(workers := s.workers[w := Logged(pc.id)], completed := s.completed + 1)) else None
    case Release(w) =>
      if pc.Logged? then Some(s.(workers := s.workers[w := CheckFlag], active := s.active - 1)) else None
  }

  function WorkerStep(s: Pool, a: Action): Option<Pool>
    requires IsWorkerAction(a)
  {
    if a.w >= |s.workers| then None
    else
      match a
      case Check(w) => CheckStep(s, w)
      case PopLocal(w) => PopLocalStep(s, w)
      case Receive(w) => ReceiveStep(s, w)
      case Steal(w) => StealStep(s, w)
      case _ => RunStep(s, a)
  }

  /** A channel of capacity zero hands a task directly from a waiting sender to a receiver. */
  function HandOverStep(s: Pool, t: nat, w: nat): Option<Pool> {
    if t < |s.submitters| && w < |s.workers| && s.capacity == 0
       && s.submitters[t].Counted? && s.workers[w] == TryGlobal then
      var id := s.submitters[t].id;
      Some(s.(submitters := s.submitters[t := Sent(id)], workers := s.workers[w := Holding(id)],
              sent := s.sent + [id], taken := s.taken + [id]))
    else None
  }

  function Next(s: Pool, a: Action): Option<Pool> {
    if a.Shutdown? then Some(s.(shutdown := true))
    else if a.HandOver? then HandOverStep(s, a.t, a.w)
    else if IsSubmitterAction(a) then SubmitterStep(s, a)
    else WorkerStep(s, a)
  }

  /** A run: `tr[i + 1]` follows from `tr[i]` by the action `acts[i]`. */
  ghost predicate IsRun(tr: seq<Pool>, acts: seq<Action>) {
    && |tr| == |acts| + 1
    && Init(tr[0])
    && forall i :: 0 <= i < |acts| ==> Next(tr[i], acts[i]) == Some(tr[i + 1])
  }

  // ---------------------------------------------------------------------------------------
  // What the counters mean

  function Pending(p: Submitter): nat {
    if p.Counted? || p.Refused? then 1 else 0
  }

  function Returning(p: Submitter): nat {
    if p.Sent? then 1 else 0
  }

  function InFlight(p: Worker): nat {
    if p.Stole? || p.Holding? || p.Ran? || p.Logged? then 1 else 0
  }

  function Unlogged(p: Worker): nat {
    if p.Ran? then 1 else 0
  }

  function Length(q: seq<TaskId>): nat {
    |q|
  }

  function UnsentOf(id: TaskId): Submitter -> nat {
    (p: Submitter) => if (p.Numbered? || p.Counted?) && p.id == id then 1 else 0
  }

  function UnstartedOf(id: TaskId): Worker -> nat {
    (p: Worker) => if (p.Stole? || p.Holding?) && p.id == id then 1 else 0
  }

  function QueuedOf(id: TaskId): seq<TaskId> -> nat {
    (q: seq<TaskId>) => multiset(q)[id]
  }

  /** Everything `active_tasks` is meant to count: counted submissions that are not sent yet,
      tasks in the channel or a local queue, tasks a worker has not finished with, and tasks
      lost with the receiver. */
  ghost function Outstanding(s: Pool): nat {
    Tally(s.submitters, Pending) + |s.channel| + Tally(s.locals, Length)
    + Tally(s.workers, InFlight) + |s.discarded|
  }

  /** How many copies of a task wait in a queue or in the hands of a worker that has not run it. */
  ghost function Waiting(s: Pool, id: TaskId): nat {
    Occurs(s.channel, id) + Tally(s.locals, QueuedOf(id)) + Tally(s.workers, UnstartedOf(id))
  }

  ghost predicate ActiveExact(s: Pool) {
    s.active == Outstanding(s)
  }

  /** Every sent task is waiting, executed or discarded, and nothing else is. */
  ghost predicate Conserved(s: Pool) {
    forall id: TaskId {:trigger Waiting(s, id)} ::
      Occurs(s.sent, id) == Waiting(s, id) + Occurs(s.executed, id) + Occurs(s.discarded, id)
  }

  ghost predicate StatsExact(s: Pool) {
    && |s.executed| == s.completed + Tally(s.workers, Unlogged)
    && |s.sent| == s.submitted + Tally(s.submitters, Returning)
  }

  ghost function Issued(s: Pool, id: TaskId): nat {
    Occurs(s.sent, id) + Tally(s.submitters, UnsentOf(id))
  }

  /** Ids are never shared, and an id not drawn yet is nowhere. */
  ghost predicate Unique(s: Pool) {
    forall id: TaskId {:trigger Issued(s, id)} :: Issued(s, id) <= (if id < s.nextId then 1 else 0)
  }

  ghost predicate Bookkept(s: Pool) {
    && |s.locals| == |s.workers| > 0
    && (forall id: TaskId :: id in s.returned ==> id in s.sent)
    && (forall i :: 0 <= i < |s.submitters| && s.submitters[i].Sent? ==> s.submitters[i].id in s.sent)
    && (!s.shutdown ==> forall i :: 0 <= i < |s.workers| ==> s.workers[i] != Stopped)
    && (s.discarded != [] ==> AllStopped(s.workers))
    && (AllStopped(s.workers) ==> s.channel == [])
    && (forall i :: 0 <= i < |s.submitters| && s.submitters[i].Refused? ==> AllStopped(s.workers))
    && |s.channel| <= s.capacity
  }

  /** Nothing ever puts a task into a local queue, so nothing is ever stolen. */
  ghost predicate NoLocalWork(s: Pool) {
    && (forall i :: 0 <= i < |s.locals| ==> s.locals[i] == [])
    && (forall i :: 0 <= i < |s.workers| ==> !s.workers[i].Stole?)
    && s.stolen == 0
  }

  /** The channel is first-in first-out. */
  ghost predicate InOrder(s: Pool) {
    s.sent == s.taken + s.channel + s.discarded
  }

  /** A lone worker runs tasks in the order in which it takes them. */
  ghost predicate LoneWorker(s: Pool) {
    |s.workers| == 1 ==>
      s.taken == s.executed + (if s.workers[0].Holding? then [s.workers[0].id] else [])
  }

  /** The part of the invariant that does not involve totals. */
  ghost predicate Orderly(s: Pool) {
    Bookkept(s) && NoLocalWork(s) && InOrder(s) && LoneWorker(s)
  }

  ghost predicate Inv(s: Pool) {
    ActiveExact(s) && Conserved(s) && StatsExact(s) && Unique(s) && Orderly(s)
  }

  // ---------------------------------------------------------------------------------------
  // Every step keeps the invariant

  lemma InitInv(s: Pool)
    requires Init(s)
    ensures ActiveExact(s) && Conserved(s) && Unique(s) && StatsExact(s)
    ensures Orderly(s)
  {
    TallyZero(s.submitters, Pending);
    TallyZero(s.submitters, Returning);
    TallyZero(s.workers, InFlight);
    TallyZero(s.workers, Unlogged);
    TallyZero(s.locals, Length);
    forall id: TaskId ensures Waiting(s, id) == 0 && Issued(s, id) == 0 {
      TallyZero(s.submitters, UnsentOf(id));
      TallyZero(s.workers, UnstartedOf(id));
      TallyZero(s.locals, QueuedOf(id));
    }
  }

  lemma SubmitterKeepsCounts(s: Pool, a: Action, s': Pool)
    requires IsSubmitterAction(a) && SubmitterStep(s, a) == Some(s')
    requires ActiveExact(s) && StatsExact(s)
    ensures ActiveExact(s') && StatsExact(s')
  {
    hide Tally;
    TallyUpdate(s.submitters, a.t, s'.submitters[a.t], Pending);
    TallyUpdate(s.submitters, a.t, s'.submitters[a.t], Returning);
  }

  lemma SubmitterKeepsTasks(s: Pool, a: Action, s': Pool)
    requires IsSubmitterAction(a) && SubmitterStep(s, a) == Some(s')
    requires Conserved(s) && Unique(s)
    ensures Conserved(s') && Unique(s')
  {
    hide Tally;
    forall id: TaskId ensures Occurs(s'.sent, id)
        == Waiting(s', id) + Occurs(s'.executed, id) + Occurs(s'.discarded, id)
                              && Issued(s', id) <= (if id < s'.nextId then 1 else 0)
    {
      assert Waiting(s, id) >= 0 && Issued(s, id) >= 0;
      TallyUpdate(s.submitters, a.t, s'.submitters[a.t], UnsentOf(id));
      if a.Send? {
        OccursConcat(s.sent, [s.submitters[a.t].id], id);
        OccursConcat(s.channel, [s.submitters[a.t].id], id);
      }
    }
  }

  lemma SubmitterKeepsOrder(s: Pool, a: Action, s': Pool)
    requires IsSubmitterAction(a) && SubmitterStep(s, a) == Some(s')
    requires Orderly(s)
    ensures Orderly(s')
  {
  }

  /** What one worker action does to the queues, told per task and in total. */
  ghost predicate MovesOnly(s: Pool, s': Pool) {
    && s'.active - Outstanding(s') == s.active - Outstanding(s)
    && |s'.executed| - s'.completed - Tally(s'.workers, Unlogged)
        == |s.executed| - s.completed - Tally(s.workers, Unlogged)
    && (forall id: TaskId {:trigger Waiting(s', id)} ::
          Waiting(s', id) + Occurs(s'.executed, id) + Occurs(s'.discarded, id)
          == Waiting(s, id) + Occurs(s.executed, id) + Occurs(s.discarded, id))
  }

  lemma PopLocalMoves(s: Pool, w: nat, s': Pool)
    requires w < |s.workers| && PopLocalStep(s, w) == Some(s')
    ensures MovesOnly(s, s')
  {
    hide Tally;
    var q, pc := s.locals[w], s'.workers[w];
    TallyUpdate(s.workers, w, pc, InFlight);
    TallyUpdate(s.workers, w, pc, Unlogged);
    if q != [] { TallyUpdate(s.locals, w, q[1..], Length); }
    forall id: TaskId ensures Waiting(s', id) == Waiting(s, id) {
      TallyUpdate(s.workers, w, pc, UnstartedOf(id));
      if q != [] {
        TallyUpdate(s.locals, w, q[1..], QueuedOf(id));
        assert q == [q[0]] + q[1..];
        OccursConcat([q[0]], q[1..], id);
      }
    }
  }

  lemma ReceiveMoves(s: Pool, w: nat, s': Pool)
    requires w < |s.workers| && ReceiveStep(s, w) == Some(s')
    ensures MovesOnly(s, s')
  {
    hide Tally;
    var q, pc := s.channel, s'.workers[w];
    TallyUpdate(s.workers, w, pc, InFlight);
    TallyUpdate(s.workers, w, pc, Unlogged);
    forall id: TaskId ensures Waiting(s', id) == Waiting(s, id) {
      TallyUpdate(s.workers, w, pc, UnstartedOf(id));
      if q != [] {
        assert q == [q[0]] + q[1..];
        OccursConcat([q[0]], q[1..], id);
      }
    }
  }

  lemma StealMoves(s: Pool, w: nat, s': Pool)
    requires w < |s.workers| && StealStep(s, w) == Some(s')
    ensures MovesOnly(s, s')
  {
    hide Tally;
    var v, pc := Victim(w, s.workers[w].victim), s'.workers[w];
    TallyUpdate(s.workers, w, pc, InFlight);
    TallyUpdate(s.workers, w, pc, Unlogged);
    if v < |s.locals| && s.locals[v] != [] {
      TallyUpdate(s.locals, v, s'.locals[v], Length);
    }
    forall id: TaskId ensures Waiting(s', id) == Waiting(s, id) { StealKeepsWaiting(s, w, s', id); }
  }

  lemma StealKeepsWaiting(s: Pool, w: nat, s': Pool, id: TaskId)
    requires w < |s.workers| && StealStep(s, w) == Some(s')
    ensures Waiting(s', id) == Waiting(s, id)
  {
    hide Tally;
    var v := Victim(w, s.workers[w].victim);
    TallyUpdate(s.workers, w, s'.workers[w], UnstartedOf(id));
    if v < |s.locals| && s.locals[v] != [] {
      var q := s.locals[v];
      var last := |q| - 1;
      TallyUpdate(s.locals, v, q[..last], QueuedOf(id));
      assert q == q[..last] + [q[last]];
      OccursConcat(q[..last], [q[last]], id);
    }
  }

  lemma CheckMoves(s: Pool, w: nat, s': Pool)
    requires w < |s.workers| && CheckStep(s, w) == Some(s')
    ensures MovesOnly(s, s')
  {
    hide Tally;
    var pc := s'.workers[w];
    TallyUpdate(s.workers, w, pc, InFlight);
    TallyUpdate(s.workers, w, pc, Unlogged);
    forall id: TaskId ensures Waiting(s', id) + Occurs(s'.discarded, id) == Waiting(s, id) + Occurs(s.discarded, id) {
      TallyUpdate(s.workers, w, pc, UnstartedOf(id));
      OccursConcat(s.discarded, s.channel, id);
    }
  }

  lemma RunMoves(s: Pool, a: Action, s': Pool)
    requires HasTask(a) && a.w < |s.workers| && RunStep(s, a) == Some(s')
    ensures MovesOnly(s, s')
  {
    hide Tally;
    var pc := s'.workers[a.w];
    TallyUpdate(s.workers, a.w, pc, InFlight);
    TallyUpdate(s.workers, a.w, pc, Unlogged);
    forall id: TaskId ensures Waiting(s', id) + Occurs(s'.executed, id) == Waiting(s, id) + Occurs(s.executed, id) {
      TallyUpdate(s.workers, a.w, pc, UnstartedOf(id));
      if a.Execute? { OccursConcat(s.executed, [s.workers[a.w].id], id); }
    }
  }

  lemma WorkerKeepsTasks(s: Pool, a: Action, s': Pool)
    requires IsWorkerAction(a) && WorkerStep(s, a) == Some(s')
    requires ActiveExact(s) && StatsExact(s) && Conserved(s) && Unique(s)
    ensures ActiveExact(s') && StatsExact(s') && Conserved(s') && Unique(s')
  {
    hide Tally;
    assert MovesOnly(s, s') && SameHistory(s, s') by {
      if a.PopLocal? {
        PopLocalMoves(s, a.w, s');
      } else if a.Receive? {
        ReceiveMoves(s, a.w, s');
      } else if a.Steal? {
        StealMoves(s, a.w, s');
      } else if a.Check? {
        CheckMoves(s, a.w, s');
      } else {
        RunMoves(s, a, s');
      }
    }
    MovesKeepTasks(s, s');
  }

  ghost predicate SameHistory(s: Pool, s': Pool) {
    s'.sent == s.sent && s'.submitters == s.submitters && s'.nextId == s.nextId && s'.submitted == s.submitted
  }

  lemma MovesKeepTasks(s: Pool, s': Pool)
    requires MovesOnly(s, s') && SameHistory(s, s')
    requires ActiveExact(s) && StatsExact(s) && Conserved(s) && Unique(s)
    ensures ActiveExact(s') && StatsExact(s') && Conserved(s') && Unique(s')
  {
    hide Tally;
    forall id: TaskId ensures Occurs(s'.sent, id)
        == Waiting(s', id) + Occurs(s'.executed, id) + Occurs(s'.discarded, id)
                              && Issued(s', id) <= (if id < s'.nextId then 1 else 0)
    {
      assert Waiting(s, id) >= 0 && Waiting(s', id) >= 0 && Issued(s, id) >= 0;
    }
  }

  lemma CheckKeepsOrder(s: Pool, w: nat, s': Pool)
    requires w < |s.workers| && CheckStep(s, w) == Some(s') && Orderly(s)
    ensures Orderly(s')
  {
    assert s.workers[w] == CheckFlag && !AllStopped(s.workers);
    if !s.shutdown {
      assert s'.workers[w] == TryLocal && !AllStopped(s'.workers);
    }
  }

  lemma PopLocalKeepsOrder(s: Pool, w: nat, s': Pool)
    requires w < |s.workers| && PopLocalStep(s, w) == Some(s') && Orderly(s)
    ensures Orderly(s')
  {
    assert s.workers[w] == TryLocal && s'.workers[w] == TryGlobal;
    assert !AllStopped(s.workers) && !AllStopped(s'.workers);
  }

  lemma ReceiveKeepsOrder(s: Pool, w: nat, s': Pool)
    requires w < |s.workers| && ReceiveStep(s, w) == Some(s') && Orderly(s)
    ensures Orderly(s')
  {
    assert s.workers[w] == TryGlobal && s'.workers[w] != Stopped;
    assert !AllStopped(s.workers) && !AllStopped(s'.workers);
    if s.channel != [] {
      assert s.channel == [s.channel[0]] + s.channel[1..];
    }
  }

  lemma StealKeepsOrder(s: Pool, w: nat, s': Pool)
    requires w < |s.workers| && StealStep(s, w) == Some(s') && Orderly(s)
    ensures Orderly(s')
  {
    assert s.workers[w].TrySteal? && (s'.workers[w].TrySteal? || s'.workers[w] == CheckFlag);
    assert !AllStopped(s.workers) && !AllStopped(s'.workers);
  }

  lemma RunKeepsOrder(s: Pool, a: Action, s': Pool)
    requires HasTask(a) && a.w < |s.workers| && RunStep(s, a) == Some(s') && Orderly(s)
    ensures Orderly(s')
  {
    assert s.workers[a.w] != Stopped && s'.workers[a.w] != Stopped;
    assert !AllStopped(s.workers) && !AllStopped(s'.workers);
  }

  lemma WorkerKeepsOrder(s: Pool, a: Action, s': Pool)
    requires IsWorkerAction(a) && WorkerStep(s, a) == Some(s') && Orderly(s)
    ensures Orderly(s')
  {
    hide Orderly;
    if a.PopLocal? {
      PopLocalKeepsOrder(s, a.w, s');
    } else if a.Receive? {
      ReceiveKeepsOrder(s, a.w, s');
    } else if a.Steal? {
      StealKeepsOrder(s, a.w, s');
    } else if a.Check? {
      CheckKeepsOrder(s, a.w, s');
    } else {
      RunKeepsOrder(s, a, s');
    }
  }

  lemma HandOverKeepsCounts(s: Pool, t: nat, w: nat, s': Pool)
    requires HandOverStep(s, t, w) == Some(s')
    requires ActiveExact(s) && StatsExact(s)
    ensures ActiveExact(s') && StatsExact(s')
  {
    hide Tally;
    TallyUpdate(s.submitters, t, s'.submitters[t], Pending);
    TallyUpdate(s.submitters, t, s'.submitters[t], Returning);
    TallyUpdate(s.workers, w, s'.workers[w], InFlight);
    TallyUpdate(s.workers, w, s'.workers[w], Unlogged);
  }

  lemma HandOverKeepsTasks(s: Pool, t: nat, w: nat, s': Pool)
    requires HandOverStep(s, t, w) == Some(s')
    requires Conserved(s) && Unique(s)
    ensures Conserved(s') && Unique(s')
  {
    hide Tally;
    forall id: TaskId ensures Occurs(s'.sent, id)
        == Waiting(s', id) + Occurs(s'.executed, id) + Occurs(s'.discarded, id)
                              && Issued(s', id) <= (if id < s'.nextId then 1 else 0)
    {
      assert Waiting(s, id) >= 0 && Issued(s, id) >= 0;
      TallyUpdate(s.submitters, t, s'.submitters[t], UnsentOf(id));
      TallyUpdate(s.workers, w, s'.workers[w], UnstartedOf(id));
      OccursConcat(s.sent, [s.submitters[t].id], id);
    }
  }

  lemma HandOverKeepsOrder(s: Pool, t: nat, w: nat, s': Pool)
    requires HandOverStep(s, t, w) == Some(s')
    requires Orderly(s)
    ensures Orderly(s')
  {
    hide Tally, Waiting, Issued;
    assert s.workers[w] == TryGlobal;
  }

  lemma ShutdownKeepsInv(s: Pool)
    requires Inv(s)
    ensures Inv(s.(shutdown := true))
  {
    var s' := s.(shutdown := true);
    assert forall id: TaskId :: Waiting(s', id) == Waiting(s, id) && Issued(s', id) == Issued(s, id);
  }

  lemma NextKeepsInv(s: Pool, a: Action, s': Pool)
    requires Inv(s) && Next(s, a) == Some(s')
    ensures Inv(s')
  {
    hide Tally, SubmitterStep, WorkerStep, HandOverStep, ActiveExact, StatsExact, Conserved, Unique, Orderly;
    if a.Shutdown? {
      ShutdownKeepsInv(s);
    } else if a.HandOver? {
      HandOverKeepsCounts(s, a.t, a.w, s');
      HandOverKeepsTasks(s, a.t, a.w, s');
      HandOverKeepsOrder(s, a.t, a.w, s');
    } else if IsSubmitterAction(a) {
      SubmitterKeepsCounts(s, a, s');
      SubmitterKeepsTasks(s, a, s');
      SubmitterKeepsOrder(s, a, s');
    } else {
      WorkerKeepsTasks(s, a, s');
      WorkerKeepsOrder(s, a, s');
    }
  }

  lemma {:induction false} RunInv(tr: seq<Pool>, acts: seq<Action>, i: nat)
    requires IsRun(tr, acts) && i < |tr|
    ensures Inv(tr[i])
  {
    hide Inv, Next;
    if i == 0 {
      InitHolds(tr[0]);
    } else {
      RunInv(tr, acts, i - 1);
      NextKeepsInv(tr[i - 1], acts[i - 1], tr[i]);
    }
  }

  lemma InitHolds(s: Pool)
    requires Init(s)
    ensures Inv(s)
  {
    InitInv(s);
  }

  // ---------------------------------------------------------------------------------------
  // Properties of every run

  /** A pool with nothing left to do. */
  ghost predicate Quiet(s: Pool) {
    && s.channel == [] && s.discarded == []
    && (forall i :: 0 <= i < |s.locals| ==> s.locals[i] == [])
    && (forall i :: 0 <= i < |s.submitters| ==> !s.submitters[i].Counted? && !s.submitters[i].Refused?)
    && (forall i :: 0 <= i < |s.workers| ==> InFlight(s.workers[i]) == 0)
  }

  /** `active_tasks` is zero exactly when nothing is outstanding anywhere, and then every sent
      task has been executed once and `tasks_completed` is the number of successful sends. */
  lemma ZeroMeansDone(tr: seq<Pool>, acts: seq<Action>, i: nat)
    requires IsRun(tr, acts) && i < |tr|
    ensures tr[i].active >= 0
    ensures tr[i].active == 0 <==> Quiet(tr[i])
    ensures tr[i].active == 0 ==> multiset(tr[i].executed) == multiset(tr[i].sent) && tr[i].completed == |tr[i].sent|
  {
    var s := tr[i];
    RunInv(tr, acts, i);
    TallyZero(s.submitters, Pending);
    TallyZero(s.locals, Length);
    TallyZero(s.workers, InFlight);
    TallyZero(s.workers, Unlogged);
    if s.active == 0 {
      forall id: TaskId ensures multiset(s.executed)[id] == multiset(s.sent)[id] {
        assert Waiting(s, id) == 0 by {
          TallyZero(s.workers, UnstartedOf(id));
          TallyZero(s.locals, QueuedOf(id));
        }
        assert Occurs(s.sent, id) == Waiting(s, id) + Occurs(s.executed, id) + Occurs(s.discarded, id);
      }
      assert multiset(s.executed) == multiset(s.sent);
      assert |s.executed| == |multiset(s.executed)| && |s.sent| == |multiset(s.sent)|;
    }
  }

  /** No task runs twice, whatever the interleaving of local pops, receives and steals; and
      until `shutdown` every sent task is either executed once or still waiting once. */
  lemma ExactlyOnce(tr: seq<Pool>, acts: seq<Action>, i: nat)
    requires IsRun(tr, acts) && i < |tr|
    ensures NoDup(tr[i].executed) && NoDup(tr[i].sent)
    ensures forall id :: id in tr[i].executed ==> id in tr[i].sent
    ensures !tr[i].shutdown ==>
              forall id: TaskId :: id in tr[i].sent ==> Occurs(tr[i].executed, id) + Waiting(tr[i], id) == 1
  {
    var s := tr[i];
    RunInv(tr, acts, i);
    NoDupOccurs(s.executed);
    NoDupOccurs(s.sent);
    forall id: TaskId ensures Occurs(s.executed, id) <= Occurs(s.sent, id) <= 1
                              && (s.discarded == [] ==> Occurs(s.executed, id) + Waiting(s, id) == Occurs(s.sent, id))
    {
      assert Issued(s, id) <= 1;
      assert Waiting(s, id) >= 0;
    }
    assert forall id: TaskId :: id in s.sent <==> Occurs(s.sent, id) > 0;
    assert forall id: TaskId :: id in s.executed <==> Occurs(s.executed, id) > 0;
  }

  ghost predicate Grows(s: Pool, s': Pool) {
    s.returned <= s'.returned && s.discarded <= s'.discarded
  }

  lemma WorkerGrows(s: Pool, a: Action, s': Pool)
    requires IsWorkerAction(a) && WorkerStep(s, a) == Some(s')
    ensures Grows(s, s')
  {
  }

  /** What `submit` has returned stays returned, what is lost stays lost. */
  lemma {:induction false} HistoryGrows(tr: seq<Pool>, acts: seq<Action>, i: nat, j: nat)
    requires IsRun(tr, acts) && i <= j < |tr|
    ensures Grows(tr[i], tr[j])
  {
    hide WorkerStep;
    if i < j {
      HistoryGrows(tr, acts, i, j - 1);
      var a := acts[j - 1];
      assert Next(tr[j - 1], a) == Some(tr[j]);
      if IsWorkerAction(a) { WorkerGrows(tr[j - 1], a, tr[j]); }
    }
  }

  /** `wait_idle`: once it reads zero, every task whose `submit` had returned is finished. */
  lemma WaitIdleWaits(tr: seq<Pool>, acts: seq<Action>, i: nat, j: nat, id: TaskId)
    requires IsRun(tr, acts) && i <= j < |tr|
    requires id in tr[i].returned
    requires tr[j].active == 0
    ensures Occurs(tr[j].executed, id) == 1
    ensures forall w :: 0 <= w < |tr[j].workers| ==> tr[j].workers[w] !in {Holding(id), Ran(id), Logged(id)}
  {
    HistoryGrows(tr, acts, i, j);
    RunInv(tr, acts, j);
    ZeroMeansDone(tr, acts, j);
    ExactlyOnce(tr, acts, j);
    assert id in tr[j].sent;
    assert id in multiset(tr[j].executed);
    NoDupOccurs(tr[j].executed);
    forall w | 0 <= w < |tr[j].workers| ensures tr[j].workers[w] !in {Holding(id), Ran(id), Logged(id)} {
      assert InFlight(tr[j].workers[w]) == 0;
    }
  }

  /** With one worker, tasks run in the order in which they were sent. */
  lemma OneWorkerKeepsOrder(tr: seq<Pool>, acts: seq<Action>, i: nat)
    requires IsRun(tr, acts) && i < |tr| && |tr[i].workers| == 1
    ensures tr[i].executed <= tr[i].sent
  {
    RunInv(tr, acts, i);
  }

  /** The local queues are never filled, so work stealing never happens. */
  lemma NeverSteals(tr: seq<Pool>, acts: seq<Action>, i: nat)
    requires IsRun(tr, acts) && i < |tr|
    ensures tr[i].stolen == 0
    ensures forall q :: q in tr[i].locals ==> q == []
  {
    RunInv(tr, acts, i);
  }

  // ---------------------------------------------------------------------------------------
  // Before `shutdown`, `wait_idle` can always return

  /** The state after a sequence of actions, if all of them are possible. */
  ghost function After(s: Pool, acts: seq<Action>): Option<Pool>
    decreases |acts|
  {
    if acts == [] then Some(s)
    else
      var n := Next(s, acts[0]);
      if n.None? then None else After(n.value, acts[1..])
  }

  function WorkerLoad(p: Worker): nat {
    match p
    case Stole(_) => 4 case Holding(_) => 3 case Ran(_) => 2 case Logged(_) => 1
    case _ => 0
  }

  function SubmitterLoad(p: Submitter): nat {
    if p.Counted? then 6 else if p.Refused? then 1 else 0
  }

  /** Past the check of the shutdown flag, and therefore still able to take one task. */
  function Catching(p: Worker): nat {
    if p == TryLocal || p == TryGlobal then 1 else 0
  }

  ghost function Catchers(s: Pool): nat {
    Tally(s.workers, Catching)
  }

  /** An upper bound on the work still to be done for outstanding tasks. */
  ghost function Load(s: Pool): nat {
    Tally(s.submitters, SubmitterLoad) + 5 * |s.channel| + Tally(s.workers, WorkerLoad)
  }

  /** How far an idle worker is from trying the channel again. */
  function Phase(s: Pool): nat
    requires |s.workers| > 0
  {
    match s.workers[0]
    case TryGlobal => 0
    case TryLocal => 1
    case CheckFlag => 2
    case TrySteal(k) => 3 + (if Victim(0, k) < |s.locals| then |s.locals| - Victim(0, k) else 0)
    case _ => 0
  }

  /** A worker that has a task can always go on with it. */
  lemma BusyWorkerAdvances(s: Pool, w: nat) returns (a: Action, s': Pool)
    requires Inv(s)
    requires w < |s.workers| && InFlight(s.workers[w]) > 0
    ensures Next(s, a) == Some(s') && Load(s') < Load(s)
    ensures s'.shutdown == s.shutdown && s'.channel == s.channel && s'.discarded == s.discarded
    ensures Catchers(s') == Catchers(s)
  {
    hide Tally, Waiting, Issued;
    a := match s.workers[w]
         case Holding(_) => Execute(w)
         case Ran(_) => Log(w)
         case _ => Release(w);
    assert Orderly(s);
    s' := RunStep(s, a).value;
    TallyUpdate(s.workers, w, s'.workers[w], WorkerLoad);
    TallyUpdate(s.workers, w, s'.workers[w], Catching);
  }

  /** When every worker is free, the first one comes closer to the channel. */
  lemma FreeWorkerAdvances(s: Pool) returns (a: Action, s': Pool)
    requires Inv(s) && !s.shutdown
    requires InFlight(s.workers[0]) == 0 && s.workers[0] != TryGlobal
    ensures Next(s, a) == Some(s') && !s'.shutdown && Inv(s')
    ensures Load(s') == Load(s) && Phase(s') < Phase(s)
  {
    hide Tally, Waiting, Issued, ActiveExact, Conserved, StatsExact, Unique;
    assert Orderly(s);
    a := if s.workers[0] == TryLocal then PopLocal(0)
         else if s.workers[0] == CheckFlag then Check(0)
         else Steal(0);
    s' := WorkerStep(s, a).value;
    TallyUpdate(s.workers, 0, s'.workers[0], WorkerLoad);
    NextKeepsInv(s, a, s');
  }

  /** A worker at the channel receives, or a counted submitter sends. */
  lemma ChannelAdvances(s: Pool) returns (a: Action, s': Pool)
    requires Inv(s) && !s.shutdown && s.active > 0
    requires forall w :: 0 <= w < |s.workers| ==> InFlight(s.workers[w]) == 0
    requires s.workers[0] == TryGlobal
    ensures Next(s, a) == Some(s') && !s'.shutdown && Load(s') < Load(s)
  {
    hide Tally, Waiting, Issued, Conserved, StatsExact, Unique;
    assert Orderly(s);
    if s.channel != [] {
      a := Receive(0);
      s' := ReceiveStep(s, 0).value;
      TallyUpdate(s.workers, 0, s'.workers[0], WorkerLoad);
    } else {
      TallyZero(s.workers, InFlight);
      TallyZero(s.locals, Length);
      TallyZero(s.submitters, Pending);
      assert !AllStopped(s.workers);
      var t :| 0 <= t < |s.submitters| && Pending(s.submitters[t]) != 0;
      assert s.submitters[t].Counted?;
      if s.capacity == 0 {
        a := HandOver(t, 0);
        s' := HandOverStep(s, t, 0).value;
        TallyUpdate(s.workers, 0, s'.workers[0], WorkerLoad);
      } else {
        a := Send(t);
        s' := SubmitterStep(s, a).value;
      }
      TallyUpdate(s.submitters, t, s'.submitters[t], SubmitterLoad);
    }
  }

  /** From every reachable state before `shutdown`, the threads can go on so that the count
      reaches zero: no interleaving leaves the pool stuck. */
  lemma {:induction false} CanAlwaysDrain(s: Pool) returns (acts: seq<Action>, s': Pool)
    requires Inv(s) && !s.shutdown
    ensures After(s, acts) == Some(s') && Inv(s') && s'.active == 0 && !s'.shutdown
    decreases Load(s), Phase(s)
  {
    hide Load, Phase, Next, ActiveExact, Conserved, StatsExact, Unique, InFlight;
    if s.active == 0 {
      return [], s;
    }
    assert s.active > 0 by { ActiveIsNatural(s); }
    var a, n;
    if w: nat :| w < |s.workers| && InFlight(s.workers[w]) > 0 {
      a, n := BusyWorkerAdvances(s, w);
    } else if s.workers[0] == TryGlobal {
      a, n := ChannelAdvances(s);
    } else {
      a, n := FreeWorkerAdvances(s);
    }
    NextKeepsInv(s, a, n);
    var rest, e := CanAlwaysDrain(n);
    acts, s' := [a] + rest, e;
    assert acts[1..] == rest;
  }

  lemma ActiveIsNatural(s: Pool)
    requires Inv(s)
    ensures s.active >= 0
  {
  }

  // ---------------------------------------------------------------------------------------
  // After `shutdown`: when can `wait_idle` still return

  ghost predicate ReachesIdle(s: Pool, acts: seq<Action>) {
    var e := After(s, acts);
    e.Some? && e.value.active == 0
  }

  /** After shutdown more tasks are queued than workers can still take, or some are lost already. */
  ghost predicate Doomed(s: Pool) {
    s.shutdown && (s.discarded != [] || |s.channel| > Catchers(s))
  }

  /** A doomed pool has a task that nobody will ever run. */
  lemma DoomedIsActive(s: Pool)
    requires Inv(s) && Doomed(s)
    ensures s.active > 0
  {
    hide Tally;
  }

  lemma CheckStaysDoomed(s: Pool, w: nat, s': Pool)
    requires Inv(s) && Doomed(s) && w < |s.workers| && CheckStep(s, w) == Some(s')
    ensures Doomed(s')
  {
    hide Tally, Waiting, Issued;
    TallyUpdate(s.workers, w, s'.workers[w], Catching);
  }

  lemma ReceiveStaysDoomed(s: Pool, w: nat, s': Pool)
    requires Inv(s) && Doomed(s) && w < |s.workers| && ReceiveStep(s, w) == Some(s')
    ensures Doomed(s')
  {
    hide Tally, Waiting, Issued;
    TallyUpdate(s.workers, w, s'.workers[w], Catching);
    assert Orderly(s);
  }

  lemma PopStaysDoomed(s: Pool, w: nat, s': Pool)
    requires Inv(s) && Doomed(s) && w < |s.workers|
    requires PopLocalStep(s, w) == Some(s') || StealStep(s, w) == Some(s')
    ensures Doomed(s')
  {
    hide Tally, Waiting, Issued;
    TallyUpdate(s.workers, w, s'.workers[w], Catching);
    assert Orderly(s);
  }

  lemma RunStaysDoomed(s: Pool, a: Action, s': Pool)
    requires Doomed(s) && HasTask(a) && a.w < |s.workers| && RunStep(s, a) == Some(s')
    ensures Doomed(s')
  {
    hide Tally;
    TallyUpdate(s.workers, a.w, s'.workers[a.w], Catching);
  }

  lemma StaysDoomed(s: Pool, a: Action, s': Pool)
    requires Inv(s) && Doomed(s) && Next(s, a) == Some(s')
    ensures Doomed(s')
  {
    hide Tally, Waiting, Issued, CheckStep, PopLocalStep, ReceiveStep, StealStep, RunStep;
    if a.HandOver? {
      assert Orderly(s);
    } else if IsWorkerAction(a) {
      if a.Check? {
        CheckStaysDoomed(s, a.w, s');
      } else if a.PopLocal? || a.Steal? {
        PopStaysDoomed(s, a.w, s');
      } else if a.Receive? {
        ReceiveStaysDoomed(s, a.w, s');
      } else {
        RunStaysDoomed(s, a, s');
      }
    }
  }

  lemma {:induction false} DoomedForever(s: Pool, acts: seq<Action>)
    requires Inv(s) && Doomed(s)
    ensures !ReachesIdle(s, acts)
    decreases |acts|
  {
    hide Inv, Doomed, Next;
    if acts == [] {
      DoomedIsActive(s);
    } else if Next(s, acts[0]).Some? {
      var n := Next(s, acts[0]).value;
      NextKeepsInv(s, acts[0], n);
      StaysDoomed(s, acts[0], n);
      DoomedForever(n, acts[1..]);
    }
  }

  /** How far a worker without a task is from stopping, in a pool of `n` workers. */
  function Distance(n: nat): Worker -> nat {
    (p: Worker) =>
      match p
      case Stopped => 0
      case CheckFlag => 1
      case TrySteal(k) => 2 + SaturatingSub(n, k)
      case TryGlobal => 3 + n
      case TryLocal => 4 + n
      case _ => 0
  }

  ghost function Distances(s: Pool): nat {
    Tally(s.workers, Distance(|s.locals|))
  }

  /** A worker without a task goes on towards stopping; at the channel it takes a task if there is
      one. Either way the pool does not become doomed. */
  lemma IdleWorkerAdvances(s: Pool, w: nat) returns (a: Action, s': Pool)
    requires Inv(s) && s.shutdown && !Doomed(s)
    requires w < |s.workers| && InFlight(s.workers[w]) == 0 && s.workers[w] != Stopped
    requires s.channel == [] || Catching(s.workers[w]) == 1
    ensures Next(s, a) == Some(s') && s'.shutdown && !Doomed(s')
    ensures Load(s') < Load(s) || (Load(s') == Load(s) && Distances(s') < Distances(s))
  {
    hide Tally, Waiting, Issued, ActiveExact, Conserved, StatsExact, Unique;
    assert Orderly(s);
    a := match s.workers[w]
         case CheckFlag => Check(w)
         case TryLocal => PopLocal(w)
         case TryGlobal => Receive(w)
         case _ => Steal(w);
    s' := WorkerStep(s, a).value;
    TallyUpdate(s.workers, w, s'.workers[w], WorkerLoad);
    TallyUpdate(s.workers, w, s'.workers[w], Catching);
    TallyUpdate(s.workers, w, s'.workers[w], Distance(|s.locals|));
  }

  /** With every worker stopped, a counted submitter is refused and takes its count back. */
  lemma SubmitterGivesUp(s: Pool) returns (a: Action, s': Pool)
    requires Inv(s) && s.shutdown && !Doomed(s) && AllStopped(s.workers) && s.active > 0
    ensures Next(s, a) == Some(s') && s'.shutdown && !Doomed(s') && Load(s') < Load(s)
  {
    hide Tally, Waiting, Issued, Conserved, StatsExact, Unique;
    assert Orderly(s);
    TallyZero(s.workers, InFlight);
    TallyZero(s.locals, Length);
    TallyZero(s.submitters, Pending);
    var t :| 0 <= t < |s.submitters| && Pending(s.submitters[t]) != 0;
    a := if s.submitters[t].Counted? then Refuse(t) else TakeBack(t);
    s' := SubmitterStep(s, a).value;
    TallyUpdate(s.submitters, t, s'.submitters[t], SubmitterLoad);
  }

  lemma {:induction false} DrainAfterShutdown(s: Pool) returns (acts: seq<Action>)
    requires Inv(s) && s.shutdown && !Doomed(s)
    ensures ReachesIdle(s, acts)
    decreases Load(s), Distances(s)
  {
    hide Load, Distances, Next, ActiveExact, Conserved, StatsExact, Unique, InFlight, Tally;
    if s.active == 0 {
      return [];
    }
    assert s.active > 0 by { ActiveIsNatural(s); }
    var a, n;
    if w: nat :| w < |s.workers| && InFlight(s.workers[w]) > 0 {
      a, n := BusyWorkerAdvances(s, w);
    } else if AllStopped(s.workers) {
      a, n := SubmitterGivesUp(s);
    } else if s.channel == [] {
      var w: nat :| w < |s.workers| && s.workers[w] != Stopped;
      a, n := IdleWorkerAdvances(s, w);
    } else {
      TallyZero(s.workers, Catching);
      var w: nat :| w < |s.workers| && Catching(s.workers[w]) != 0;
      a, n := IdleWorkerAdvances(s, w);
    }
    NextKeepsInv(s, a, n);
    var rest := DrainAfterShutdown(n);
    acts := [a] + rest;
    assert acts[1..] == rest;
  }

  /** `wait_idle` can still return exactly when the pool is not shut down, or nothing is lost and
      every queued task has a worker that is already past the check of the flag. */
  lemma WaitIdleCanReturn(s: Pool)
    requires Inv(s)
    ensures (exists acts :: ReachesIdle(s, acts))
       <==> !s.shutdown || (s.discarded == [] && |s.channel| <= Catchers(s))
  {
    hide Inv, ReachesIdle, Catchers;
    if !s.shutdown {
      var acts, e := CanAlwaysDrain(s);
      assert ReachesIdle(s, acts) by { ReachedIdle(s, acts); }
    } else if Doomed(s) {
      forall acts ensures !ReachesIdle(s, acts) { DoomedForever(s, acts); }
    } else {
      var acts := DrainAfterShutdown(s);
    }
  }

  lemma ReachedIdle(s: Pool, acts: seq<Action>)
    requires After(s, acts).Some? && After(s, acts).value.active == 0
    ensures ReachesIdle(s, acts)
  {
  }

  // ---------------------------------------------------------------------------------------
  // Losing a task

  ghost predicate Loses(s: Pool, acts: seq<Action>) {
    var e := After(s, acts);
    e.Some? && e.value.discarded != []
  }

  lemma LosesLater(s: Pool, a: Action, acts: seq<Action>)
    requires Next(s, a).Some? && Loses(Next(s, a).value, acts)
    ensures Loses(s, [a] + acts)
  {
    assert ([a] + acts)[1..] == acts;
  }

  /** The workers read the shutdown flag one after another; the last one loses the channel. */
  lemma {:induction false} StopAll(s: Pool, w: nat) returns (acts: seq<Action>)
    requires s.shutdown && s.channel != [] && w < |s.workers|
    requires forall i :: 0 <= i < |s.workers| ==> s.workers[i] == if i < w then Stopped else CheckFlag
    ensures Loses(s, acts)
    decreases |s.workers| - w
  {
    var n := Next(s, Check(w)).value;
    if w == |s.workers| - 1 {
      assert AllStopped(n.workers);
      acts := [];
    } else {
      assert n.workers[w + 1] != Stopped;
      acts := StopAll(n, w + 1);
    }
    LosesLater(s, Check(w), acts);
    acts := [Check(w)] + acts;
  }

  lemma LossRun(s: Pool) returns (acts: seq<Action>)
    requires Init(s) && s.capacity > 0 && |s.submitters| > 0
    ensures Loses(s, acts)
  {
    hide Loses;
    var s1 := Next(s, DrawId(0)).value;
    var s2 := Next(s1, Count(0)).value;
    assert s2.workers[0] != Stopped;
    var s3 := Next(s2, Send(0)).value;
    var s4 := Next(s3, Action.Shutdown).value;
    acts := StopAll(s4, 0);
    LosesLater(s3, Action.Shutdown, acts);
    acts := [Action.Shutdown] + acts;
    LosesLater(s2, Send(0), acts);
    acts := [Send(0)] + acts;
    LosesLater(s1, Count(0), acts);
    acts := [Count(0)] + acts;
    LosesLater(s, DrawId(0), acts);
    acts := [DrawId(0)] + acts;
  }

  /** Without buffer or without submitting threads the channel is always empty. */
  ghost predicate NothingBuffered(s: Pool) {
    s.discarded == [] && s.channel == [] && (s.capacity == 0 || |s.submitters| == 0)
  }

  lemma NothingGetsBuffered(s: Pool, a: Action, s': Pool)
    requires NothingBuffered(s) && Next(s, a) == Some(s')
    ensures NothingBuffered(s')
  {
  }

  lemma {:induction false} NeverLoses(s: Pool, acts: seq<Action>)
    requires NothingBuffered(s)
    ensures !Loses(s, acts)
    decreases |acts|
  {
    hide Next;
    if acts != [] && Next(s, acts[0]).Some? {
      var n := Next(s, acts[0]).value;
      NothingGetsBuffered(s, acts[0], n);
      NeverLoses(n, acts[1..]);
    }
  }

  /** A pool loses a task in some run exactly when its channel has room and somebody submits. */
  lemma LossIsPossible(s: Pool)
    requires Init(s)
    ensures (exists acts :: Loses(s, acts)) <==> s.capacity > 0 && |s.submitters| > 0
  {
    hide Loses;
    if s.capacity > 0 && |s.submitters| > 0 {
      var acts := LossRun(s);
    } else {
      forall acts ensures !Loses(s, acts) { NeverLoses(s, acts); }
    }
  }

  // ---------------------------------------------------------------------------------------
  // A bound on the work of every run

  /** The steps that carry a task on: sending, receiving, running, and giving up. */
  predicate IsWork(s: Pool, a: Action) {
    || a.Send? || a.HandOver? || a.Refuse? || a.TakeBack? || (a.Receive? && s.channel != [])
    || a.Execute? || a.Log? || a.Release?
  }

  ghost function Work(tr: seq<Pool>, acts: seq<Action>, i: nat, j: nat): nat
    requires i <= j < |tr| == |acts| + 1
    decreases j
  {
    if i == j then 0 else Work(tr, acts, i, j - 1) + (if IsWork(tr[j - 1], acts[j - 1]) then 1 else 0)
  }

  function Submissions(acts: seq<Action>, i: nat, j: nat): nat
    requires i <= j <= |acts|
    decreases j
  {
    if i == j then 0 else Submissions(acts, i, j - 1) + (if acts[j - 1].Count? then 1 else 0)
  }

  lemma SubmitterSpendsLoad(s: Pool, a: Action, s': Pool)
    requires IsSubmitterAction(a) && SubmitterStep(s, a) == Some(s')
    ensures Load(s') + (if IsWork(s, a) then 1 else 0) <= Load(s) + (if a.Count? then 6 else 0)
  {
    hide Tally;
    TallyUpdate(s.submitters, a.t, s'.submitters[a.t], SubmitterLoad);
  }

  lemma HandOverSpendsLoad(s: Pool, t: nat, w: nat, s': Pool)
    requires HandOverStep(s, t, w) == Some(s')
    ensures Load(s') + 1 <= Load(s)
  {
    hide Tally;
    TallyUpdate(s.submitters, t, s'.submitters[t], SubmitterLoad);
    TallyUpdate(s.workers, w, s'.workers[w], WorkerLoad);
  }

  lemma WorkerSpendsLoad(s: Pool, a: Action, s': Pool)
    requires Orderly(s) && IsWorkerAction(a) && WorkerStep(s, a) == Some(s')
    ensures Load(s') + (if IsWork(s, a) then 1 else 0) <= Load(s)
  {
    hide Tally;
    TallyUpdate(s.workers, a.w, s'.workers[a.w], WorkerLoad);
  }

  lemma StepSpendsLoad(s: Pool, a: Action, s': Pool)
    requires Inv(s) && Next(s, a) == Some(s')
    ensures Load(s') + (if IsWork(s, a) then 1 else 0) <= Load(s) + (if a.Count? then 6 else 0)
  {
    hide Tally, SubmitterStep, WorkerStep, HandOverStep;
    assert Orderly(s);
    if a.HandOver? {
      HandOverSpendsLoad(s, a.t, a.w, s');
    } else if IsSubmitterAction(a) {
      SubmitterSpendsLoad(s, a, s');
    } else if !a.Shutdown? {
      WorkerSpendsLoad(s, a, s');
    }
  }

  /** In every run the steps that carry tasks on are bounded by what was outstanding and what is
      submitted meanwhile: six steps per counted submission, five per queued task, and so on. */
  lemma {:induction false} WorkIsBounded(tr: seq<Pool>, acts: seq<Action>, i: nat, j: nat)
    requires IsRun(tr, acts) && i <= j < |tr|
    ensures Work(tr, acts, i, j) + Load(tr[j]) <= Load(tr[i]) + 6 * Submissions(acts, i, j)
    decreases j
  {
    hide Load, Next, Inv, IsWork;
    if i < j {
      WorkIsBounded(tr, acts, i, j - 1);
      RunInv(tr, acts, j - 1);
      StepSpendsLoad(tr[j - 1], acts[j - 1], tr[j]);
    }
  }
}
