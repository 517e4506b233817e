/** The lock-free object pool as a transition system. The queue operations are atomic, but every
    counter moves in a separate atomic step, so between calls of several threads the counters
    are only correct up to the steps that are still outstanding. */
module ObjectPool {
  import opened Prelude

  /** `current_size` and `peak_size` are machine words and wrap around. */
  const WORD: int := 0x1_0000_0000_0000_0000

  /** Where a thread stands inside `acquire`, `release` or `clear`. */
  datatype Thread =
    | Idle
    | Acquiring                     // counted in total_acquired, about to pop
    | PoppedHit                     // holds an object, cache_hits outstanding
    | HitCounted                    // current_size outstanding
    | MissSeen                      // nothing popped, cache_misses outstanding
    | MissCounted                   // total_created outstanding
    | Releasing                     // counted in total_returned, about to push
    | Pushed                        // current_size outstanding
    | PushFailed                    // pool full, total_destroyed outstanding
    | PeakStart                     // about to load current_size
    | PeakRead(cur: int)            // about to load peak_size
    | PeakTry(cur: int, seen: int)  // in the compare-and-exchange loop
    | Clearing                      // about to pop
    | ClearPopped                   // total_destroyed outstanding
    | ClearDestroyed                // current_size outstanding

  datatype Pool = Pool(
    capacity: nat,
    stored: nat,
    current: int,
    peak: int,
    created: nat, acquired: nat, returned: nat, destroyed: nat, hits: nat, misses: nat,
    threads: seq<Thread>,
    excess: nat,    // history: pre-warmed objects that did not fit
    highest: nat)   // history: largest storage length so far

  datatype Action =
    | Acquire | Pop | CountHit | SubtractHit | CountMiss | Create
    | Release | Push | AddPushed | Destroy | LoadCurrent | LoadPeak | Exchange | ExchangeFails | PeakDone
    | Clear | ClearPop | CountCleared | SubtractCleared

  function Max(a: int, b: int): int {
    if a < b then b else a
  }

  /** A pool right after construction; with `preWarm`, `initial` objects are created and pushed,
      and pushes beyond the capacity are dropped without notice. */
  predicate Init(s: Pool, initial: nat, maxCapacity: nat, preWarm: bool) {
    var fill := if preWarm then initial else 0;
    && s.capacity == (if maxCapacity > 0 then maxCapacity else Max(initial, 1024))
    && s.stored == (if fill <= s.capacity then fill else s.capacity)
    && s.created == fill && s.current == fill % WORD && s.peak == fill % WORD
    && s.acquired == s.returned == s.destroyed == s.hits == s.misses == 0
    && (forall i :: 0 <= i < |s.threads| ==> s.threads[i] == Idle)
    && s.excess == fill - s.stored && s.highest == s.stored
  }

  predicate InAcquire(a: Action) {
    a.Acquire? || a.Pop? || a.CountHit? || a.SubtractHit? || a.CountMiss? || a.Create?
  }

  predicate InClear(a: Action) {
    a.Clear? || a.ClearPop? || a.CountCleared? || a.SubtractCleared?
  }

  function AcquireStep(s: Pool, t: nat, a: Action): Option<Pool>
    requires t < |s.threads| && InAcquire(a)
  {
    var pc := s.threads[t];
    match a
    case Acquire =>
      if pc == Idle then Some(s.(threads := s.threads[t := Acquiring], acquired := s.acquired + 1)) else None
    case Pop =>
      if pc != Acquiring then None
      else if s.stored > 0 then Some(s.(threads := s.threads[t := PoppedHit], stored := s.stored - 1))
      else Some(s.(threads := s.threads[t := MissSeen]))
    case CountHit =>
      if pc == PoppedHit then Some(s.(threads := s.threads[t := HitCounted], hits := s.hits + 1)) else None
    case SubtractHit =>
      if pc == HitCounted then Some(s.(threads := s.threads[t := Idle], current := (s.current - 1) % WORD)) else None
    case CountMiss =>
      if pc == MissSeen then Some(s.(threads := s.threads[t := MissCounted], misses := s.misses + 1)) else None
    case Create =>
      if pc == MissCounted then Some(s.(threads := s.threads[t := Idle], created := s.created + 1)) else None
  }

  function ReleaseStep(s: Pool, t: nat, a: Action): Option<Pool>
    requires t < |s.threads| && !InAcquire(a) && !InClear(a)
  {
    var pc := s.threads[t];
    match a
    case Release =>
      if pc == Idle then Some(s.(threads := s.threads[t := Releasing], returned := s.returned + 1)) else None
    case Push =>
      if pc != Releasing then None
      else if s.stored < s.capacity then
        Some(s.(threads := s.threads[t := Pushed], stored := s.stored + 1, highest := Max(s.highest, s.stored + 1)))
      else Some(s.(threads := s.threads[t := PushFailed]))
    case AddPushed =>
      if pc == Pushed then Some(s.(threads := s.threads[t := PeakStart], current := (s.current + 1) % WORD)) else None
    case Destroy =>
      if pc == PushFailed then Some(s.(threads := s.threads[t := Idle], destroyed := s.destroyed + 1)) else None
    case LoadCurrent => if pc == PeakStart then Some(s.(threads := s.threads[t := PeakRead(s.current)])) else None
    case LoadPeak => if pc.PeakRead? then Some(s.(threads := s.threads[t := PeakTry(pc.cur, s.peak)])) else None
    case Exchange =>
      if pc.PeakTry? && pc.cur > pc.seen && s.peak == pc.seen
      then Some(s.(threads := s.threads[t := Idle], peak := pc.cur)) else None
    case ExchangeFails =>  // also possible without a conflicting update
      if pc.PeakTry? && pc.cur > pc.seen then Some(s.(threads := s.threads[t := PeakTry(pc.cur, s.peak)])) else None
    case PeakDone => if pc.PeakTry? && pc.cur <= pc.seen then Some(s.(threads := s.threads[t := Idle])) else None
  }

  function ClearStep(s: Pool, t: nat, a: Action): Option<Pool>
    requires t < |s.threads| && InClear(a)
  {
    var pc := s.threads[t];
    match a
    case Clear => if pc == Idle then Some(s.(threads := s.threads[t := Clearing])) else None
    case ClearPop =>
      if pc != Clearing then None
      else if s.stored > 0 then Some(s.(threads := s.threads[t := ClearPopped], stored := s.stored - 1))
      else Some(s.(threads := s.threads[t := Idle]))
    case CountCleared =>
      if pc == ClearPopped then
        Some(s.(threads := s.threads[t := ClearDestroyed], destroyed := s.destroyed + 1))
      else None
    case SubtractCleared =>
      if pc == ClearDestroyed then
        Some(s.(threads := s.threads[t := Clearing], current := (s.current - 1) % WORD))
      else None
  }

  /** The step `a` of thread `t`; `None` when the thread is not at that point. */
  function Next(s: Pool, t: nat, a: Action): Option<Pool>
    requires t < |s.threads|
  {
    if InAcquire(a) then AcquireStep(s, t, a) else if InClear(a) then ClearStep(s, t, a) else ReleaseStep(s, t, a)
  }

  datatype Step = Step(thread: nat, action: Action)

  ghost predicate IsRun(tr: seq<Pool>, steps: seq<Step>) {
    && |tr| == |steps| + 1
    && (exists initial, maxCapacity, preWarm :: Init(tr[0], initial, maxCapacity, preWarm))
    && forall i :: 0 <= i < |steps| ==>
         steps[i].thread < |tr[i].threads| && Next(tr[i], steps[i].thread, steps[i].action) == Some(tr[i + 1])
  }

  // ---------------------------------------------------------------------------------------
  // Steps still outstanding

  /** Popped but not yet subtracted from `current_size`. */
  function ToSubtract(p: Thread): nat {
    if p.PoppedHit? || p.HitCounted? || p.ClearPopped? || p.ClearDestroyed? then 1 else 0
  }

  /** Pushed but not yet added to `current_size`. */
  function ToAdd(p: Thread): nat {
    if p.Pushed? then 1 else 0
  }

  /** Acquired but counted neither as hit nor as miss. */
  function Undecided(p: Thread): nat {
    if p.Acquiring? || p.PoppedHit? || p.MissSeen? then 1 else 0
  }

  /** Acquired without an object having come out of the pool or the factory yet. */
  function Unserved(p: Thread): nat {
    if p.Acquiring? || p.MissSeen? || p.MissCounted? then 1 else 0
  }

  /** Objects on their way into or out of the pool that no counter has seen yet. */
  function InTransit(p: Thread): nat {
    if p.Releasing? || p.ClearPopped? || p.PushFailed? then 1 else 0
  }

  /** What `current_size` stands for, before wrapping around. */
  ghost function Size(s: Pool): int {
    s.stored + Tally(s.threads, ToSubtract) - Tally(s.threads, ToAdd) + s.excess
  }

  ghost predicate Inv(s: Pool) {
    && s.stored <= s.capacity
    && s.current == Size(s) % WORD
    && s.acquired == s.hits + s.misses + Tally(s.threads, Undecided)
    && s.created - s.destroyed
       == s.stored + s.acquired - s.returned + s.excess - Tally(s.threads, Unserved) + Tally(s.threads, InTransit)
  }

  lemma WrapShift(x: int, d: int)
    ensures (x % WORD + d) % WORD == (x + d) % WORD
  {
    var q := x / WORD;
    assert x == q * WORD + x % WORD;
    WrapMultiple(x % WORD + d, q);
  }

  lemma WrapMultiple(y: int, q: int)
    ensures (q * WORD + y) % WORD == y % WORD
  {
    var r := y % WORD;
    var k := y / WORD;
    assert q * WORD + y == (q + k) * WORD + r;
    assert ((q + k) * WORD + r) % WORD == r;
  }

  lemma InitInv(s: Pool, initial: nat, maxCapacity: nat, preWarm: bool)
    requires Init(s, initial, maxCapacity, preWarm)
    ensures Inv(s)
  {
    TallyZero(s.threads, ToSubtract);
    TallyZero(s.threads, ToAdd);
    TallyZero(s.threads, Undecided);
    TallyZero(s.threads, Unserved);
    TallyZero(s.threads, InTransit);
  }

  lemma AcquireInv(s: Pool, t: nat, a: Action, s': Pool)
    requires Inv(s) && t < |s.threads| && InAcquire(a) && AcquireStep(s, t, a) == Some(s')
    ensures Inv(s') && s'.excess == s.excess && s'.peak >= s.peak
  {
    hide Tally;
    var pc := s'.threads[t];
    TallyUpdate(s.threads, t, pc, ToSubtract);
    TallyUpdate(s.threads, t, pc, ToAdd);
    TallyUpdate(s.threads, t, pc, Undecided);
    TallyUpdate(s.threads, t, pc, Unserved);
    TallyUpdate(s.threads, t, pc, InTransit);
    WrapShift(Size(s), Size(s') - Size(s));
  }

  lemma ReleaseInv(s: Pool, t: nat, a: Action, s': Pool)
    requires Inv(s) && t < |s.threads| && !InAcquire(a) && !InClear(a) && ReleaseStep(s, t, a) == Some(s')
    ensures Inv(s') && s'.excess == s.excess && s'.peak >= s.peak
  {
    hide Tally;
    var pc := s'.threads[t];
    TallyUpdate(s.threads, t, pc, ToSubtract);
    TallyUpdate(s.threads, t, pc, ToAdd);
    TallyUpdate(s.threads, t, pc, Undecided);
    TallyUpdate(s.threads, t, pc, Unserved);
    TallyUpdate(s.threads, t, pc, InTransit);
    WrapShift(Size(s), Size(s') - Size(s));
  }

  lemma ClearInv(s: Pool, t: nat, a: Action, s': Pool)
    requires Inv(s) && t < |s.threads| && InClear(a) && ClearStep(s, t, a) == Some(s')
    ensures Inv(s') && s'.excess == s.excess && s'.peak >= s.peak
  {
    hide Tally;
    var pc := s'.threads[t];
    TallyUpdate(s.threads, t, pc, ToSubtract);
    TallyUpdate(s.threads, t, pc, ToAdd);
    TallyUpdate(s.threads, t, pc, Undecided);
    TallyUpdate(s.threads, t, pc, Unserved);
    TallyUpdate(s.threads, t, pc, InTransit);
    WrapShift(Size(s), Size(s') - Size(s));
  }

  lemma {:induction false} RunInv(tr: seq<Pool>, steps: seq<Step>, i: nat)
    requires IsRun(tr, steps) && i < |tr|
    ensures Inv(tr[i]) && tr[i].excess == tr[0].excess
  {
    hide Inv, AcquireStep, ReleaseStep, ClearStep;
    if i == 0 {
      var initial, maxCapacity, preWarm :| Init(tr[0], initial, maxCapacity, preWarm);
      InitInv(tr[0], initial, maxCapacity, preWarm);
    } else {
      RunInv(tr, steps, i - 1);
      NextInv(tr[i - 1], steps[i - 1].thread, steps[i - 1].action, tr[i]);
    }
  }

  lemma NextInv(s: Pool, t: nat, a: Action, s': Pool)
    requires Inv(s) && t < |s.threads| && Next(s, t, a) == Some(s')
    ensures Inv(s') && s'.excess == s.excess && s'.peak >= s.peak
  {
    hide Inv, AcquireStep, ReleaseStep, ClearStep;
    if InAcquire(a) {
      AcquireInv(s, t, a, s');
    } else if InClear(a) {
      ClearInv(s, t, a, s');
    } else {
      ReleaseInv(s, t, a, s');
    }
  }

  // ---------------------------------------------------------------------------------------
  // Properties of every run

  predicate Quiescent(s: Pool) {
    forall i :: 0 <= i < |s.threads| ==> s.threads[i] == Idle
  }

  /** In every interleaving, `current_size` is the storage length corrected by the pops not yet
      subtracted and the pushes not yet added, plus what pre-warming counted but dropped. */
  lemma CurrentSizeTracksStorage(tr: seq<Pool>, steps: seq<Step>, i: nat)
    requires IsRun(tr, steps) && i < |tr|
    ensures tr[i].current
              == (tr[i].stored + Tally(tr[i].threads, ToSubtract) - Tally(tr[i].threads, ToAdd) + tr[0].excess) % WORD
    ensures tr[i].stored <= tr[i].capacity
  {
    RunInv(tr, steps, i);
  }

  /** Between calls the counters are exact: with pre-warming that fits, `current_size` is the
      storage length and every object created is stored, handed out or destroyed; with
      pre-warming that does not fit, both are off for ever, by exactly the objects dropped. */
  lemma ExactWhenQuiescent(tr: seq<Pool>, steps: seq<Step>, i: nat)
    requires IsRun(tr, steps) && i < |tr| && Quiescent(tr[i])
    requires tr[i].capacity < WORD && tr[0].created < WORD
    ensures var s := tr[i];
            && s.acquired == s.hits + s.misses
            && s.created - s.destroyed == s.stored + (s.acquired - s.returned) + s.excess
            && (s.current == s.stored <==> s.excess == 0)
            && (s.excess == 0 <==> tr[0].created <= tr[0].capacity)
  {
    RunInv(tr, steps, i);
    var s := tr[i];
    TallyZero(s.threads, ToSubtract);
    TallyZero(s.threads, ToAdd);
    TallyZero(s.threads, Undecided);
    TallyZero(s.threads, Unserved);
    TallyZero(s.threads, InTransit);
    var initial, maxCapacity, preWarm :| Init(tr[0], initial, maxCapacity, preWarm);
    CapacityStays(tr, steps, i);
    OffByExcess(s.stored, s.excess);
  }

  lemma OffByExcess(stored: nat, excess: nat)
    requires stored < WORD && excess < WORD
    ensures (stored + excess) % WORD == stored <==> excess == 0
  {
    if stored + excess >= WORD {
      assert stored + excess == 1 * WORD + (stored + excess - WORD);
      WrapMultiple(stored + excess - WORD, 1);
    }
  }

  lemma {:induction false} CapacityStays(tr: seq<Pool>, steps: seq<Step>, i: nat)
    requires IsRun(tr, steps) && i < |tr|
    ensures tr[i].capacity == tr[0].capacity && |tr[i].threads| == |tr[0].threads|
  {
    if i > 0 {
      CapacityStays(tr, steps, i - 1);
      assert Next(tr[i - 1], steps[i - 1].thread, steps[i - 1].action) == Some(tr[i]);
    }
  }

  /** `peak_size` never decreases. */
  lemma {:induction false} PeakNeverDecreases(tr: seq<Pool>, steps: seq<Step>, i: nat, j: nat)
    requires IsRun(tr, steps) && i <= j < |tr|
    ensures tr[i].peak <= tr[j].peak
  {
    hide Inv, AcquireStep, ReleaseStep, ClearStep;
    if i < j {
      PeakNeverDecreases(tr, steps, i, j - 1);
      RunInv(tr, steps, j - 1);
      NextInv(tr[j - 1], steps[j - 1].thread, steps[j - 1].action, tr[j]);
    }
  }

  // ---------------------------------------------------------------------------------------
  // What `peak_size` is worth

  /** The other threads are outside every call. */
  predicate Alone(s: Pool, t: nat) {
    forall u :: 0 <= u < |s.threads| && u != t ==> s.threads[u] == Idle
  }

  /** One call at a time. */
  ghost predicate Sequential(tr: seq<Pool>) {
    forall i :: 0 <= i < |tr| ==> exists t :: 0 <= t < |tr[i].threads| && Alone(tr[i], t)
  }

  /** The counters of a pool that is used sequentially, at every point of a call. */
  ghost predicate PeakFacts(s: Pool, p: Thread) {
    match p
    case PoppedHit => s.current == s.stored + 1 && s.peak == s.highest > s.stored
    case HitCounted => s.current == s.stored + 1 && s.peak == s.highest > s.stored
    case ClearPopped => s.current == s.stored + 1 && s.peak == s.highest > s.stored
    case ClearDestroyed => s.current == s.stored + 1 && s.peak == s.highest > s.stored
    case Pushed => s.current + 1 == s.stored && s.highest == Max(s.peak, s.stored)
    case PeakStart => s.current == s.stored && s.highest == Max(s.peak, s.stored)
    case PeakRead(cur) => cur == s.current == s.stored && s.highest == Max(s.peak, s.stored)
    case PeakTry(cur, seen) => cur == s.current == s.stored && seen == s.peak && s.highest == Max(s.peak, s.stored)
    case _ => s.current == s.stored && s.peak == s.highest
  }

  ghost predicate PeakInv(s: Pool) {
    && s.stored <= s.capacity < WORD && s.stored <= s.highest
    && forall t :: 0 <= t < |s.threads| && Alone(s, t) ==> PeakFacts(s, s.threads[t])
  }

  lemma PeakStep(s: Pool, t: nat, a: Action, s': Pool)
    requires PeakInv(s) && t < |s.threads| && Next(s, t, a) == Some(s') && Alone(s, t)
    ensures PeakInv(s')
  {
    assert PeakFacts(s, s.threads[t]);
    assert PeakFacts(s', s'.threads[t]);
    forall u | 0 <= u < |s'.threads| && Alone(s', u) ensures PeakFacts(s', s'.threads[u]) {
      if u != t { assert s'.threads[t] == Idle; }
    }
  }

  lemma MoverIsAlone(s: Pool, m: nat, a: Action, s': Pool, u: nat, t: nat)
    requires m < |s.threads| && Next(s, m, a) == Some(s')
    requires u < |s.threads| && Alone(s, u) && t < |s'.threads| && Alone(s', t)
    ensures Alone(s, m)
  {
    assert s'.threads == s.threads[m := s'.threads[m]];
    if u != m {
      assert s.threads[m] == Idle && s'.threads[m] != Idle;
      assert t == m;
      forall v | 0 <= v < |s.threads| && v != m ensures s.threads[v] == Idle { assert s'.threads[v] == Idle; }
    }
  }

  /** If calls never overlap, `peak_size` is the largest number of objects ever stored, whenever
      no call is in progress. */
  lemma {:induction false} SequentialPeakIsExact(tr: seq<Pool>, steps: seq<Step>, i: nat)
    requires IsRun(tr, steps) && i < |tr| && Sequential(tr)
    requires tr[0].capacity < WORD && tr[0].excess == 0
    ensures PeakInv(tr[i])
    ensures Quiescent(tr[i]) ==> tr[i].peak == tr[i].highest
  {
    hide Next;
    var t :| 0 <= t < |tr[i].threads| && Alone(tr[i], t);
    if i == 0 {
      assert tr[0].stored % WORD == tr[0].stored;
    } else {
      SequentialPeakIsExact(tr, steps, i - 1);
      var st := steps[i - 1];
      var u :| 0 <= u < |tr[i - 1].threads| && Alone(tr[i - 1], u);
      MoverIsAlone(tr[i - 1], st.thread, st.action, tr[i], u, t);
      PeakStep(tr[i - 1], st.thread, st.action, tr[i]);
    }
  }

  // With overlapping calls the peak is off: an object popped but not subtracted yet is counted
  // together with the one pushed in its place.

  function After(s: Pool, steps: seq<Step>): Option<Pool>
    decreases |steps|
  {
    if steps == [] then Some(s)
    else if steps[0].thread >= |s.threads| then None
    else
      var n := Next(s, steps[0].thread, steps[0].action);
      if n.None? then None else After(n.value, steps[1..])
  }

  lemma {:induction false} OneMore(s: Pool, steps: seq<Step>, st: Step)
    requires After(s, steps).Some? && st.thread < |After(s, steps).value.threads|
    ensures After(s, steps + [st]) == Next(After(s, steps).value, st.thread, st.action)
    decreases |steps|
  {
    if steps != [] {
      assert (steps + [st])[1..] == steps[1..] + [st];
      OneMore(Next(s, steps[0].thread, steps[0].action).value, steps[1..], st);
    }
  }

  lemma Go(start: Pool, steps: seq<Step>, s: Pool, t: nat, a: Action) returns (steps': seq<Step>, s': Pool)
    requires After(start, steps) == Some(s) && t < |s.threads| && Next(s, t, a).Some?
    ensures s' == Next(s, t, a).value && After(start, steps') == Some(s')
  {
    OneMore(start, steps, Step(t, a));
    steps', s' := steps + [Step(t, a)], Next(s, t, a).value;
  }

  lemma NoStep(s: Pool)
    ensures After(s, []) == Some(s)
  {
  }

  /** Between calls: every thread idle, the size exact. */
  predicate Settled(s: Pool) {
    Quiescent(s) && s.current == s.stored <= s.capacity
  }

  /** Thread `t` of a settled pool with room stores an object, as far as counting it. */
  lemma StoreOne(start: Pool, before: seq<Step>, s: Pool) returns (steps: seq<Step>, s': Pool)
    requires After(start, before) == Some(s) && |s.threads| > 0
    requires Settled(s) && s.stored == s.peak == s.highest == 0 && s.capacity > 0
    ensures After(start, steps) == Some(s') && Settled(s') && |s'.threads| == |s.threads|
    ensures s'.stored == s'.peak == s'.highest == 1 && s'.capacity == s.capacity
  {
    hide After;
    steps, s' := Go(start, before, s, 0, Release);
    steps, s' := Go(start, steps, s', 0, Push);
    steps, s' := Go(start, steps, s', 0, AddPushed);
    steps, s' := Go(start, steps, s', 0, LoadCurrent);
    steps, s' := Go(start, steps, s', 0, LoadPeak);
    steps, s' := Go(start, steps, s', 0, Exchange);
  }

  /** Thread 1 takes an object and counts the hit. */
  lemma TakeOneHit(start: Pool, before: seq<Step>, s: Pool) returns (steps: seq<Step>, s': Pool)
    requires After(start, before) == Some(s) && |s.threads| > 1 && Settled(s) && s.stored > 0
    ensures After(start, steps) == Some(s')
    ensures s' == s.(threads := s.threads[1 := HitCounted], stored := s.stored - 1, acquired := s.acquired + 1,
              hits := s.hits + 1)
  {
    hide After;
    steps, s' := Go(start, before, s, 1, Acquire);
    steps, s' := Go(start, steps, s', 1, Pop);
    steps, s' := Go(start, steps, s', 1, CountHit);
    assert s'.threads == s.threads[1 := HitCounted];
  }

  /** Before it subtracts it, thread 0 stores one in its place. */
  lemma TakeAndStore(start: Pool, before: seq<Step>, s: Pool) returns (steps: seq<Step>, s': Pool)
    requires After(start, before) == Some(s) && |s.threads| > 1
    requires Settled(s) && s.stored == s.highest > 0 && s.stored + 1 < WORD
    ensures After(start, steps) == Some(s')
    ensures s'.stored == s'.highest == s.highest && s'.peak == s.peak && s'.capacity == s.capacity
    ensures s'.current == s.stored + 1 && s'.threads == s.threads[0 := PeakStart][1 := HitCounted]
  {
    hide After;
    steps, s' := TakeOneHit(start, before, s);
    steps, s' := Go(start, steps, s', 0, Release);
    steps, s' := Go(start, steps, s', 0, Push);
    steps, s' := Go(start, steps, s', 0, AddPushed);
  }

  /** Thread 0 reads a size that counts both objects. */
  lemma Overshoot(start: Pool, before: seq<Step>, s: Pool) returns (steps: seq<Step>, s': Pool)
    requires After(start, before) == Some(s) && |s.threads| > 1
    requires Settled(s) && s.stored == s.peak == s.highest > 0 && s.stored + 1 < WORD
    ensures After(start, steps) == Some(s') && Settled(s')
    ensures s'.highest == s.highest && s'.peak == s.highest + 1
  {
    hide After;
    steps, s' := TakeAndStore(start, before, s);
    steps, s' := Go(start, steps, s', 0, LoadCurrent);
    steps, s' := Go(start, steps, s', 0, LoadPeak);
    steps, s' := Go(start, steps, s', 0, Exchange);
    steps, s' := Go(start, steps, s', 1, SubtractHit);
  }

  ghost predicate PeakOff(s: Pool, steps: seq<Step>) {
    var e := After(s, steps);
    e.Some? && Quiescent(e.value) && e.value.peak != e.value.highest
  }

  /** One step with a single thread, or none. */
  lemma LoneStep(s: Pool, st: Step)
    requires PeakInv(s) && |s.threads| <= 1 && st.thread < |s.threads| && Next(s, st.thread, st.action).Some?
    ensures var n := Next(s, st.thread, st.action).value; PeakInv(n) && |n.threads| == |s.threads|
  {
    PeakStep(s, st.thread, st.action, Next(s, st.thread, st.action).value);
  }

  lemma {:induction false} LonePeakIsExact(s: Pool, steps: seq<Step>)
    requires PeakInv(s) && |s.threads| <= 1 && (|s.threads| == 0 ==> s.peak == s.highest)
    ensures !PeakOff(s, steps)
    decreases |steps|
  {
    hide PeakInv, Next;
    if steps == [] {
      if Quiescent(s) { SettledPeak(s); }
    } else if steps[0].thread < |s.threads| && Next(s, steps[0].thread, steps[0].action).Some? {
      LoneStep(s, steps[0]);
      LonePeakIsExact(Next(s, steps[0].thread, steps[0].action).value, steps[1..]);
    }
  }

  lemma SettledPeak(s: Pool)
    requires PeakInv(s) && |s.threads| <= 1 && (|s.threads| == 0 ==> s.peak == s.highest) && Quiescent(s)
    ensures s.peak == s.highest
  {
    if |s.threads| == 1 { assert Alone(s, 0); }
  }

  /** A pool as large as the word size and full from the start: the peak cannot leave its maximum. */
  ghost predicate AtCeiling(s: Pool) {
    && s.peak == s.highest == s.capacity == WORD - 1 && 0 <= s.current < WORD
    && forall t :: 0 <= t < |s.threads| ==>
         && (s.threads[t].PeakRead? || s.threads[t].PeakTry? ==> s.threads[t].cur < WORD)
         && (s.threads[t].PeakTry? ==> s.threads[t].seen == WORD - 1)
  }

  lemma StaysAtCeiling(s: Pool, st: Step)
    requires AtCeiling(s) && st.thread < |s.threads| && Next(s, st.thread, st.action).Some?
    ensures AtCeiling(Next(s, st.thread, st.action).value)
  {
  }

  lemma {:induction false} CeilingPeakIsExact(s: Pool, steps: seq<Step>)
    requires AtCeiling(s)
    ensures !PeakOff(s, steps)
    decreases |steps|
  {
    hide Next;
    if steps != [] && steps[0].thread < |s.threads| && Next(s, steps[0].thread, steps[0].action).Some? {
      StaysAtCeiling(s, steps[0]);
      CeilingPeakIsExact(Next(s, steps[0].thread, steps[0].action).value, steps[1..]);
    }
  }

  /** Between calls `peak_size` is the largest number of objects ever stored, in every run of a
      pool, exactly when at most one thread uses it (or it starts out full with 2^64 - 1 objects). */
  lemma PeakIsExactIff(s: Pool, initial: nat, maxCapacity: nat, preWarm: bool)
    requires Init(s, initial, maxCapacity, preWarm) && s.excess == 0 && s.capacity < WORD
    ensures (forall steps :: !PeakOff(s, steps)) <==> |s.threads| <= 1 || s.stored == WORD - 1
  {
    hide After;
    assert s.stored % WORD == s.stored;
    if |s.threads| <= 1 {
      assert PeakInv(s);
      forall steps ensures !PeakOff(s, steps) { LonePeakIsExact(s, steps); }
    } else if s.stored == WORD - 1 {
      forall steps ensures !PeakOff(s, steps) { CeilingPeakIsExact(s, steps); }
    } else {
      NoStep(s);
      var steps, e := [], s;
      if s.stored == 0 { steps, e := StoreOne(s, steps, e); }
      steps, e := Overshoot(s, steps, e);
      assert PeakOff(s, steps);
    }
  }

  /** Thread 1 takes the only object and counts it as gone, while others are inside `release`. */
  lemma TakeOne(start: Pool, before: seq<Step>, s: Pool) returns (steps: seq<Step>, s': Pool)
    requires After(start, before) == Some(s)
    requires |s.threads| > 1 && s.threads[1] == Idle && s.stored > 0
    ensures After(start, steps) == Some(s')
    ensures s' == s.(stored := s.stored - 1, current := (s.current - 1) % WORD, acquired := s.acquired + 1,
              hits := s.hits + 1)
  {
    hide After;
    steps, s' := Go(start, before, s, 1, Acquire);
    steps, s' := Go(start, steps, s', 1, Pop);
    steps, s' := Go(start, steps, s', 1, CountHit);
    steps, s' := Go(start, steps, s', 1, SubtractHit);
    assert s'.threads == s.threads;
  }

  /** Two objects are stored and taken by thread 1 before they are counted. */
  lemma TakeUncounted(s: Pool, initial: nat, maxCapacity: nat) returns (steps: seq<Step>, end: Pool)
    requires Init(s, initial, maxCapacity, false) && |s.threads| >= 3
    ensures After(s, steps) == Some(end) && end.threads == s.threads[2 := PeakStart][0 := Pushed]
    ensures end.highest == 1 && end.current == WORD - 1 && end.peak == end.stored == 0
  {
    hide After;
    NoStep(s);
    steps, end := Go(s, [], s, 2, Release);
    steps, end := Go(s, steps, end, 2, Push);
    steps, end := TakeOne(s, steps, end);
    assert end.current == WORD - 1;
    steps, end := Go(s, steps, end, 2, AddPushed);
    assert end.current == 0;
    steps, end := Go(s, steps, end, 0, Release);
    steps, end := Go(s, steps, end, 0, Push);
    steps, end := TakeOne(s, steps, end);
  }

  /** How far off: every empty pool with at least three threads has a run after which no call is
      in progress and the peak is the largest machine word. */
  lemma PeakCanWrap(s: Pool, initial: nat, maxCapacity: nat) returns (steps: seq<Step>, end: Pool)
    requires Init(s, initial, maxCapacity, false) && |s.threads| >= 3
    ensures After(s, steps) == Some(end) && Quiescent(end)
    ensures end.highest == 1 && end.peak == WORD - 1
  {
    hide After;
    steps, end := TakeUncounted(s, initial, maxCapacity);
    steps, end := Go(s, steps, end, 2, LoadCurrent);
    steps, end := Go(s, steps, end, 2, LoadPeak);
    steps, end := Go(s, steps, end, 2, Exchange);
    steps, end := Go(s, steps, end, 0, AddPushed);
    steps, end := Go(s, steps, end, 0, LoadCurrent);
    steps, end := Go(s, steps, end, 0, LoadPeak);
    steps, end := Go(s, steps, end, 0, PeakDone);
  }
}
