// What every run of the scheduler and the blocking primitives guarantees.
module SchedRuns {
  import opened Lists
  import opened Words
  import opened Objects
  import opened Sched

  ghost predicate Runs(s: Sys, ops: seq<Op>, s': Sys)
    decreases |ops|
  {
    if ops == [] then s' == s else Allowed(s, ops[0]) && Runs(Step(s, ops[0]), ops[1..], s')
  }

  lemma {:induction false} RunKeeps(s: Sys, ops: seq<Op>, s': Sys)
    requires Inv(s) && Runs(s, ops, s')
    ensures Inv(s')
    decreases |ops|
  {
    if ops != [] {
      StepKeeps(s, ops[0]);
      RunKeeps(Step(s, ops[0]), ops[1..], s');
    }
  }

  function BootKeys(kmain: Task, mutexes: set<Mutex>, semaphores: set<Semaphore>, events: set<Event>): set<Key> {
    (set m | m in mutexes :: OnMutex(m)) + (set x | x in semaphores :: OnSemaphore(x)) + (set e | e in events :: OnEvent(e)) + {OnTask(kmain)}
  }

  /** scheduler_init, with the primitives that the kernel initialises. */
  function Boot(kmain: Task, mutexes: set<Mutex>, semaphores: map<Semaphore, nat>, events: set<Event>): Sys {
    Sys([kmain], kmain, None, 0, map[kmain := Running], map[kmain := 0],
        map k | k in BootKeys(kmain, mutexes, semaphores.Keys, events) :: [],
        map m | m in mutexes :: false, semaphores, map e | e in events :: false,
        map[], map m | m in mutexes :: {}, map x | x in semaphores :: Ledger(semaphores[x], 0, 0), kmain)
  }

  lemma BootKeeps(kmain: Task, mutexes: set<Mutex>, semaphores: map<Semaphore, nat>, events: set<Event>)
    ensures Inv(Boot(kmain, mutexes, semaphores, events))
  {
    var s := Boot(kmain, mutexes, semaphores, events);
    BootChains(kmain, mutexes, semaphores, events);
    assert s.list == [kmain] && s.state == map[kmain := Running] && s.waitsOn == map[];
    BootLists(s, kmain);
    BootWaits(s.chain, s.state, kmain);
    BootGuards(s);
    hide Listed, Quiet, Chained, Waiters, DeadAlone, MutexesOk, SemaphoresOk, EventsOk, Boot;
  }

  lemma BootChains(kmain: Task, mutexes: set<Mutex>, semaphores: map<Semaphore, nat>, events: set<Event>)
    ensures var chain := Boot(kmain, mutexes, semaphores, events).chain;
            && OnTask(kmain) in chain
            && (forall k :: k in chain ==> chain[k] == [])
            && (forall k :: k in chain && k.OnTask? ==> k.t == kmain)
            && (forall m :: m in mutexes ==> OnMutex(m) in chain)
            && (forall x :: x in semaphores ==> OnSemaphore(x) in chain)
            && (forall e :: e in events ==> OnEvent(e) in chain)
  {
  }

  lemma BootLists(s: Sys, kmain: Task)
    requires s.list == [kmain] && s.current == kmain && s.idle == kmain && s.doomed == None
    requires s.state == map[kmain := Running] && s.wake == map[kmain := 0]
    requires OnTask(kmain) in s.chain && forall k :: k in s.chain && k.OnTask? ==> k.t == kmain
    ensures Listed(s) && Quiet(s)
  {
    assert Distinct(s.list) && kmain in s.list;
    hide Distinct;
  }

  lemma BootGuards(s: Sys)
    requires forall k :: k in s.chain ==> s.chain[k] == []
    requires forall m :: m in s.locked ==> OnMutex(m) in s.chain && !s.locked[m] && m in s.holders && s.holders[m] == {}
    requires forall x :: x in s.count ==> OnSemaphore(x) in s.chain && x in s.ledger && s.ledger[x] == Ledger(s.count[x], 0, 0)
    requires forall e :: e in s.signaled ==> OnEvent(e) in s.chain && !s.signaled[e]
    ensures MutexesOk(s.chain, s.locked, s.holders)
    ensures SemaphoresOk(s.chain, s.count, s.ledger)
    ensures EventsOk(s.chain, s.signaled)
  {
  }

  lemma BootWaits(chain: map<Key, seq<Task>>, state: map<Task, TaskState>, kmain: Task)
    requires (forall k :: k in chain ==> chain[k] == []) && state == map[kmain := Running]
    ensures Chained(chain, map[]) && Waiters(map[], state) && DeadAlone(chain, state)
  {
  }

  // ---------------------------------------------------------------------------
  // Safety of every reachable state

  /** Exactly the current task runs, it is in the list once, and a pending dead task is
      another one, alone and on no chain. */
  lemma OneRunning(s: Sys, ops: seq<Op>, s': Sys)
    requires Inv(s) && Runs(s, ops, s')
    ensures Distinct(s'.list) && s'.current in s'.list
    ensures forall t :: t in s'.list ==> t in s'.state && (s'.state[t] == Running <==> t == s'.current)
    ensures forall t :: t in s'.list && s'.state[t] == Dead ==> s'.doomed == Some(t) && t != s'.current
  {
    RunKeeps(s, ops, s');
    hide Distinct, Waiting, Guarded;
  }

  /** No chain repeats a task, no task is on two chains, and the tasks on chains are
      exactly the blocked ones. */
  ghost predicate Partition(chain: map<Key, seq<Task>>, state: map<Task, TaskState>) {
    && (forall k :: k in chain ==> Distinct(chain[k]))
    && (forall k, j, t :: k in chain && j in chain && t in chain[k] && t in chain[j] ==> k == j)
    && (forall k, t :: k in chain && t in chain[k] ==> t in state && state[t] == Blocked)
    && (forall t :: t in state && state[t] == Blocked ==> exists k :: k in chain && t in chain[k])
  }

  /** Although all chains share one link per task, they are acyclic and disjoint, and
      together they hold exactly the blocked tasks. */
  lemma ChainsPartitionBlocked(s: Sys, ops: seq<Op>, s': Sys)
    requires Inv(s) && Runs(s, ops, s')
    ensures Partition(s'.chain, s'.state)
  {
    RunKeeps(s, ops, s');
    hide Listed, Quiet, Guarded, Chained, Waiters, DeadAlone, Partition;
    ChainsPartition(s'.chain, s'.waitsOn, s'.state);
  }

  lemma ChainsPartition(chain: map<Key, seq<Task>>, waitsOn: map<Task, Key>, state: map<Task, TaskState>)
    requires Chained(chain, waitsOn) && Waiters(waitsOn, state)
    ensures Partition(chain, state)
  {
    hide Distinct;
    forall k, j, t | k in chain && j in chain && t in chain[k] && t in chain[j] ensures k == j {
      assert waitsOn[t] == k && waitsOn[t] == j;
    }
    forall t | t in state && state[t] == Blocked ensures exists k :: k in chain && t in chain[k] {
      assert waitsOn[t] in chain && t in chain[waitsOn[t]];
    }
  }

  /** At most one task holds a mutex, also while it is handed over, and exactly one when it is locked. */
  lemma MutualExclusion(s: Sys, ops: seq<Op>, s': Sys, m: Mutex)
    requires Inv(s) && Runs(s, ops, s') && m in s'.locked
    ensures m in s'.holders && OnMutex(m) in s'.chain
    ensures forall t, u :: t in s'.holders[m] && u in s'.holders[m] ==> t == u
    ensures s'.locked[m] <==> s'.holders[m] != {}
    ensures s'.chain[OnMutex(m)] != [] ==> s'.locked[m]
  {
    RunKeeps(s, ops, s');
    forall t, u | t in s'.holders[m] && u in s'.holders[m] ensures t == u {
      OnlyHolder(s'.holders[m], t);
    }
  }

  /** Permits are neither lost nor invented, and nobody waits while one is there. */
  lemma SemaphoreConserves(s: Sys, ops: seq<Op>, s': Sys, x: Semaphore)
    requires Inv(s) && Runs(s, ops, s') && x in s'.count
    ensures x in s'.ledger && OnSemaphore(x) in s'.chain
    ensures s'.ledger[x].initial + s'.ledger[x].signals == s'.count[x] + s'.ledger[x].grants
    ensures s'.chain[OnSemaphore(x)] != [] ==> s'.count[x] == 0
  {
    RunKeeps(s, ops, s');
  }

  // ---------------------------------------------------------------------------
  // What becomes of a task that is not running

  /** A ready task stays ready until it runs, a sleeper sleeps until its tick, a dead
      task stays dead or is gone. */
  ghost predicate Evolves(s: Sys, s': Sys, t: Task)
    requires t in s.state && t in s.wake
  {
    && s'.ticks >= s.ticks
    && match s.state[t]
       case Ready => t in s'.state && (s'.state[t] == Ready || s'.current == t)
       case Sleeping => (t in s'.state && t in s'.wake && s'.state[t] == Sleeping && s'.wake[t] == s.wake[t]) || s'.ticks >= s.wake[t]
       case Dead => t !in s'.state || s'.state[t] == Dead
       case _ => true
  }

  lemma ScheduleEvolves(s: Sys, t: Task)
    requires Core(s) && t in s.state
    ensures t in s.wake && Evolves(s, Schedule(s), t)
  {
    hide Core, Reap, Update, SwitchTo, Next, Schedule;
    ReapTask(s, t);
    ScheduleTask(s, t);
    StillGone(s, t);
  }

  /** What one call of the scheduler does to a task that it does not remove. */
  lemma ScheduleTask(s: Sys, t: Task)
    requires Core(s) && t in s.state
    ensures Schedule(s).ticks == s.ticks
    ensures t in Reap(s).state && t in Reap(s).wake && t != Schedule(s).current ==>
              && t in Schedule(s).state && t in Schedule(s).wake && Schedule(s).wake[t] == Reap(s).wake[t]
              && (Reap(s).state[t] == Sleeping && Reap(s).wake[t] <= s.ticks ==> Schedule(s).state[t] == Ready)
              && (Reap(s).state[t] != Running && (Reap(s).state[t] == Sleeping ==> Reap(s).wake[t] > s.ticks) ==>
                    Schedule(s).state[t] == Reap(s).state[t])
    ensures t in Reap(s).state && Schedule(s).current == t ==>
              t in Schedule(s).state && (Reap(s).state[t] == Sleeping && t in Reap(s).wake ==> Reap(s).wake[t] <= s.ticks)
              && Reap(s).state[t] != Dead
  {
    hide Core, Listed, Quiet, Reap, Update, SwitchTo, Next;
    var s1, s2 := Reap(s), Update(Reap(s));
    ReapKeeps(s);
    UpdateKeeps(s1);
    ListedQuiet(s2);
    NextIsReady(s2);
    CurrentKnown(s2);
    UpdateTicks(s1);
    ReapTask(s, t);
    SwitchFields(s2, Next(s2));
    if t in s1.state {
      if t in s1.wake {
        UpdateTask(s1, t);
      }
      SwitchTask(s2, Next(s2), t);
    }
  }

  lemma UpdateTicks(s: Sys)
    ensures Update(s).ticks == s.ticks
  {
  }

  lemma ListedQuiet(s: Sys)
    requires Core(s)
    ensures Listed(s) && Quiet(s)
  {
  }

  /** The scheduler brings no task into being. */
  lemma StillGone(s: Sys, t: Task)
    requires Core(s)
    ensures t !in Reap(s).state ==> t !in Schedule(s).state
  {
    var s1, s2 := Reap(s), Update(Reap(s));
    ReapKeeps(s);
    UpdateKeeps(s1);
    ListedQuiet(s2);
    NextIsReady(s2);
    NextKnown(s2);
    hide Core, Listed, Quiet, Reap, Next, Update, SwitchTo;
    UpdateAdds(s1, t);
    SwitchAdds(s2, Next(s2), t);
  }

  lemma NextKnown(s: Sys)
    requires Listed(s) && Next(s) in s.list
    ensures Next(s) in s.state
  {
    hide Next, Distinct;
  }

  lemma UpdateAdds(s: Sys, t: Task)
    ensures t in Update(s).state <==> t in s.state
  {
  }

  lemma SwitchAdds(s: Sys, n: Task, t: Task)
    requires n in s.state
    ensures t in SwitchTo(s, n).state ==> t in s.state
  {
  }

  /** Steps before the scheduler is called leave every ready, sleeping or dead task alone. */
  ghost predicate Alike(s: Sys, s': Sys, t: Task)
    requires t in s.state
  {
    && s'.ticks >= s.ticks && s'.current == s.current
    && (s.state[t] != Blocked ==> t in s'.state && s'.state[t] == s.state[t])
    && (t in s.wake ==> t in s'.wake && s'.wake[t] == s.wake[t])
  }

  lemma WakeAllAlike(s: Sys, k: Key, t: Task)
    requires Inv(s) && k in s.chain && t in s.state && t != s.current
    ensures Alike(s, WakeAll(s, k), t)
  {
    if t in s.chain[k] {
      assert t in s.waitsOn;
    }
  }

  lemma WakeOneAlike(s: Sys, k: Key, t: Task)
    requires Inv(s) && k in s.chain && s.chain[k] != [] && t in s.state && t != s.current
    ensures Alike(s, WakeOne(s, k), t)
  {
    assert s.chain[k][0] in s.chain[k] && s.chain[k][0] in s.waitsOn;
  }

  /** The state in which a blocking step calls the scheduler. */
  function Before(s: Sys, op: Op): Sys
    requires Allowed(s, op) && (Blocks(s, op) || op.Yield?)
  {
    match op
    case Lock(m) => Block(s, OnMutex(m))
    case Wait(x) => Block(s, OnSemaphore(x))
    case WaitEvent(e) => Block(s, OnEvent(e))
    case Join(t) => Block(s, OnTask(t))
    case Sleep(n) => Doze(s, n)
    case Exit => Die(s)
    case _ => s
  }

  predicate Schedules(s: Sys, op: Op) { Blocks(s, op) || op.Yield? }

  lemma BeforeSchedule(s: Sys, op: Op)
    requires Inv(s) && Allowed(s, op) && Schedules(s, op)
    ensures Step(s, op) == Schedule(Before(s, op)) && Core(Before(s, op))
    ensures Before(s, op).list == s.list && Before(s, op).current == s.current
  {
    hide Listed, Quiet, Waiting, Schedule, WakeAll;
    match op
    case Lock(m) => BlockKeeps(s, OnMutex(m));
    case Wait(x) => BlockKeeps(s, OnSemaphore(x));
    case WaitEvent(e) => BlockKeeps(s, OnEvent(e));
    case Join(t) => JoinMayBlock(s, t); BlockKeeps(s, OnTask(t));
    case Sleep(n) => SleepKeeps(s, n);
    case Exit => ExitKeeps(s); DieFields(s);
    case _ =>
  }

  lemma DieFields(s: Sys)
    ensures Die(s).list == s.list && Die(s).current == s.current
  {
  }

  lemma BeforeAlike(s: Sys, op: Op, t: Task)
    requires Inv(s) && Allowed(s, op) && Schedules(s, op) && t in s.state && t != s.current
    ensures Alike(s, Before(s, op), t)
  {
    if op.Exit? {
      assert OnTask(s.current) in s.chain;
      WakeAllAlike(s, OnTask(s.current), t);
    }
  }

  lemma StepEvolves(s: Sys, op: Op, t: Task)
    requires Inv(s) && Allowed(s, op) && t in s.state && t != s.current
    ensures t in s.wake && Evolves(s, Step(s, op), t)
  {
    if Schedules(s, op) {
      BeforeSchedule(s, op);
      BeforeAlike(s, op, t);
      ScheduleEvolves(Before(s, op), t);
    } else {
      OtherAlike(s, op, t);
    }
  }

  /** What a step that does not call the scheduler leaves alone. */
  ghost predicate Stays(s: Sys, s': Sys) {
    s'.ticks >= s.ticks && s'.current == s.current && s'.list == s.list && s'.wake == s.wake
  }

  lemma ReleaseStays(s: Sys, m: Mutex)
    requires m in s.locked && m in s.holders
    ensures Stays(s, Release(s, m))
    ensures Release(s, m).state == if ChainOf(s, OnMutex(m)) == [] then s.state else WakeOne(s, OnMutex(m)).state
  {
    hide ChainOf;
  }

  lemma PostStays(s: Sys, x: Semaphore)
    requires x in s.count && x in s.ledger
    ensures Stays(s, Post(s, x))
    ensures Post(s, x).state == if ChainOf(s, OnSemaphore(x)) == [] then s.state else WakeOne(s, OnSemaphore(x)).state
  {
  }

  lemma SetStays(s: Sys, e: Event)
    requires Allowed(s, SetEvent(e))
    ensures Stays(s, Step(s, SetEvent(e))) && Step(s, SetEvent(e)).state == WakeAll(s, OnEvent(e)).state
  {
  }

  lemma OtherStays(s: Sys, op: Op)
    requires Allowed(s, op) && !Schedules(s, op) && !op.Add?
    ensures Stays(s, Step(s, op))
    ensures !op.Unlock? && !op.Signal? && !op.SetEvent? ==> Step(s, op).state == s.state
  {
    hide Step, Schedule, Block, Release, Post, WakeAll, WakeOne, Acquire, TakePermit, ChainOf;
    match op
    case Tick => StepTick(s);
    case Unlock(m) => StepUnlock(s, m); ReleaseStays(s, m);
    case Signal(x) => StepSignal(s, x); PostStays(s, x);
    case SetEvent(e) => SetStays(s, e);
    case TryLock(m) => StepTryLock(s, m); AcquireStays(s, m);
    case Lock(m) => StepLock(s, m); AcquireStays(s, m);
    case TryWait(x) => StepTryWait(s, x); TakePermitStays(s, x);
    case Wait(x) => StepWait(s, x); TakePermitStays(s, x);
    case ResetEvent(e) => StepResetEvent(s, e);
    case WaitEvent(e) => StepWaitEvent(s, e);
    case Join(t) => StepJoin(s, t);
  }

  lemma StepTick(s: Sys)
    ensures Step(s, Tick) == s.(ticks := s.ticks + 1)
  {
  }

  lemma AcquireStays(s: Sys, m: Mutex)
    requires m in s.locked && m in s.holders
    ensures Stays(s, Acquire(s, m)) && Acquire(s, m).state == s.state
  {
  }

  lemma TakePermitStays(s: Sys, x: Semaphore)
    requires x in s.count && x in s.ledger
    ensures s.count[x] > 0 ==> Stays(s, TakePermit(s, x)) && TakePermit(s, x).state == s.state
  {
  }

  lemma OtherAlike(s: Sys, op: Op, t: Task)
    requires Inv(s) && Allowed(s, op) && !Schedules(s, op) && t in s.state && t != s.current
    ensures Alike(s, Step(s, op), t)
  {
    hide Core, Step, Alike, Blocks;
    match op
    case Unlock(m) => UnlockAlike(s, m, t);
    case Signal(x) => SignalAlike(s, x, t);
    case SetEvent(e) => SetAlike(s, e, t);
    case _ => PlainAlike(s, op, t);
  }

  /** Only the states and the fields that stay matter to Alike. */
  lemma AlikeBy(s: Sys, s1: Sys, s': Sys, t: Task)
    requires t in s.state && (s1 == s || Alike(s, s1, t))
    requires Stays(s, s') && s'.state == s1.state
    ensures Alike(s, s', t)
  {
  }

  lemma UnlockAlike(s: Sys, m: Mutex, t: Task)
    requires Inv(s) && Allowed(s, Unlock(m)) && t in s.state && t != s.current
    ensures Alike(s, Step(s, Unlock(m)), t)
  {
    assert Step(s, Unlock(m)) == Release(s, m);
    ReleaseStays(s, m);
    hide Core, Release, WakeOne, Alike, Stays, Step;
    if ChainOf(s, OnMutex(m)) == [] {
      AlikeBy(s, s, Release(s, m), t);
    } else {
      WakeOneAlike(s, OnMutex(m), t);
      AlikeBy(s, WakeOne(s, OnMutex(m)), Release(s, m), t);
    }
  }

  lemma SignalAlike(s: Sys, x: Semaphore, t: Task)
    requires Inv(s) && Allowed(s, Signal(x)) && t in s.state && t != s.current
    ensures Alike(s, Step(s, Signal(x)), t)
  {
    assert Step(s, Signal(x)) == Post(s, x);
    assert x in s.count && x in s.ledger;
    hide Allowed;
    PostStays(s, x);
    hide Core, Post, WakeOne, Alike, Stays, Step;
    if ChainOf(s, OnSemaphore(x)) == [] {
      AlikeBy(s, s, Post(s, x), t);
    } else {
      WakeOneAlike(s, OnSemaphore(x), t);
      AlikeBy(s, WakeOne(s, OnSemaphore(x)), Post(s, x), t);
    }
  }

  lemma SetAlike(s: Sys, e: Event, t: Task)
    requires Inv(s) && Allowed(s, SetEvent(e)) && t in s.state && t != s.current
    ensures Alike(s, Step(s, SetEvent(e)), t)
  {
    SetStays(s, e);
    EventKnown(s, e);
    hide Core, WakeAll, Alike, Stays, Step;
    WakeAllAlike(s, OnEvent(e), t);
    AlikeBy(s, WakeAll(s, OnEvent(e)), Step(s, SetEvent(e)), t);
  }

  lemma PlainAlike(s: Sys, op: Op, t: Task)
    requires Inv(s) && Allowed(s, op) && !Schedules(s, op) && !op.Unlock? && !op.Signal? && !op.SetEvent? && t in s.state
    ensures Alike(s, Step(s, op), t)
  {
    hide Core, Step, Schedules;
    if op.Add? {
      AddedAlike(s, op, t);
    } else {
      OtherStays(s, op);
    }
  }

  lemma AddedAlike(s: Sys, op: Op, t: Task)
    requires Allowed(s, op) && op.Add? && t in s.state
    ensures Alike(s, Step(s, op), t)
  {
  }

  lemma EventKnown(s: Sys, e: Event)
    requires Core(s) && e in s.signaled
    ensures OnEvent(e) in s.chain
  {
    hide Listed, Quiet, Waiting;
  }

  // ---------------------------------------------------------------------------
  // Sleeping and dying

  /** A sleeper is not woken, let alone run, before its tick. */
  lemma {:induction false} NoSleeperWakesEarly(s: Sys, ops: seq<Op>, s': Sys, t: Task)
    requires Inv(s) && Runs(s, ops, s') && t in s.state && t in s.wake && s.state[t] == Sleeping
    requires t !in s'.state || s'.state[t] != Sleeping
    ensures s'.ticks >= s.wake[t]
    decreases |ops|
  {
    if ops != [] {
      var s1 := Step(s, ops[0]);
      StepKeeps(s, ops[0]);
      StepEvolves(s, ops[0], t);
      TicksGrow(s1, ops[1..], s');
      if t in s1.state && s1.state[t] == Sleeping && t in s1.wake && s1.wake[t] == s.wake[t] {
        NoSleeperWakesEarly(s1, ops[1..], s', t);
      }
    }
  }

  lemma ScheduleTicks(s: Sys)
    ensures Schedule(s).ticks == s.ticks
  {
    hide Next, Without, IndexOf;
  }

  lemma StepTicks(s: Sys, op: Op)
    requires Allowed(s, op)
    ensures Step(s, op).ticks >= s.ticks
  {
    if Schedules(s, op) {
      hide Schedule, ChainOf, WakeAll;
      ScheduleTicks(Before(s, op));
      BeforeTicks(s, op);
    } else if !op.Add? {
      OtherStays(s, op);
    }
  }

  lemma BeforeTicks(s: Sys, op: Op)
    requires Allowed(s, op) && Schedules(s, op)
    ensures Before(s, op).ticks == s.ticks
  {
    hide ChainOf;
  }

  lemma {:induction false} TicksGrow(s: Sys, ops: seq<Op>, s': Sys)
    requires Runs(s, ops, s')
    ensures s'.ticks >= s.ticks
    decreases |ops|
  {
    if ops != [] {
      StepTicks(s, ops[0]);
      TicksGrow(Step(s, ops[0]), ops[1..], s');
    }
  }

  /** Sleeping for n ticks takes at least n ticks. */
  lemma SleepLasts(s: Sys, n: nat, ops: seq<Op>, s': Sys)
    requires Inv(s) && Allowed(s, Sleep(n)) && Runs(Step(s, Sleep(n)), ops, s') && s'.current == s.current
    ensures s'.ticks >= s.ticks + n
  {
    var s1, t := Step(s, Sleep(n)), s.current;
    StepKeeps(s, Sleep(n));
    RunKeeps(s1, ops, s');
    TicksGrow(s1, ops, s');
    FallsAsleep(s, n);
    CurrentKnown(s');
    hide Core, Step;
    if t in s1.state && s1.state[t] == Sleeping && t in s1.wake && s1.wake[t] == s.ticks + n {
      NoSleeperWakesEarly(s1, ops, s', t);
    }
  }

  lemma FallsAsleep(s: Sys, n: nat)
    requires Inv(s) && Allowed(s, Sleep(n))
    ensures var s1, t := Step(s, Sleep(n)), s.current;
            || (t in s1.state && s1.state[t] == Sleeping && t in s1.wake && s1.wake[t] == s.ticks + n)
            || s1.ticks >= s.ticks + n
  {
    hide Core, Schedule, Doze, Step, Allowed;
    StepSleep(s, n);
    SleepKeeps(s, n);
    CurrentKnown(s);
    DozeFields(s, n);
    SleepsOn(Doze(s, n), s.current, s.ticks + n);
  }

  lemma SleepsOn(s: Sys, t: Task, until: nat)
    requires Core(s) && t in s.state && s.state[t] == Sleeping && t in s.wake && s.wake[t] == until
    ensures var s' := Schedule(s);
            (t in s'.state && s'.state[t] == Sleeping && t in s'.wake && s'.wake[t] == until) || s'.ticks >= until
  {
    hide Core, Schedule;
    ScheduleEvolves(s, t);
  }

  lemma DozeFields(s: Sys, n: nat)
    requires s.current in s.state
    ensures s.current in Doze(s, n).state && Doze(s, n).state[s.current] == Sleeping
    ensures s.current in Doze(s, n).wake && Doze(s, n).wake[s.current] == s.ticks + n
  {
  }

  /** A dead task never comes back. */
  lemma {:induction false} DeadStaysDead(s: Sys, ops: seq<Op>, s': Sys, t: Task)
    requires Inv(s) && Runs(s, ops, s') && (t in s.state ==> s.state[t] == Dead)
    requires forall i :: 0 <= i < |ops| ==> ops[i] != Add(t)
    ensures t in s'.state ==> s'.state[t] == Dead
    decreases |ops|
  {
    if ops != [] {
      StepKeeps(s, ops[0]);
      if t in s.state {
        StepEvolves(s, ops[0], t);
      } else {
        NoNewTask(s, ops[0], t);
      }
      DeadStaysDead(Step(s, ops[0]), ops[1..], s', t);
    }
  }

  lemma NoNewTask(s: Sys, op: Op, t: Task)
    requires Inv(s) && Allowed(s, op) && t !in s.state && op != Add(t)
    ensures t !in Step(s, op).state
  {
    if Schedules(s, op) {
      BeforeSchedule(s, op);
      CurrentKnown(s);
      hide Core, Schedule, WakeAll, Reap;
      StillGone(Before(s, op), t);
      BeforeAdds(s, op, t);
      ReapShrinks(Before(s, op), t);
    } else {
      OtherAdds(s, op, t);
    }
  }

  lemma BeforeAdds(s: Sys, op: Op, t: Task)
    requires Allowed(s, op) && Schedules(s, op) && s.current in s.state && t !in s.state
    ensures t !in Before(s, op).state
  {
    hide ChainOf;
  }

  lemma OtherAdds(s: Sys, op: Op, t: Task)
    requires Inv(s) && Allowed(s, op) && !Schedules(s, op) && t !in s.state && op != Add(t)
    ensures t !in Step(s, op).state
  {
    hide Listed, Quiet, Guarded, Schedule, WakeOne, DeadAlone, Distinct;
    if op.Unlock? && ChainOf(s, OnMutex(op.m)) != [] {
      WakeOneAdds(s, OnMutex(op.m), t);
    } else if op.Signal? && ChainOf(s, OnSemaphore(op.x)) != [] {
      WakeOneAdds(s, OnSemaphore(op.x), t);
      PostStays(s, op.x);
    }
  }

  lemma WakeOneAdds(s: Sys, k: Key, t: Task)
    requires Waiting(s) && ChainOf(s, k) != [] && t !in s.state
    ensures t !in WakeOne(s, k).state
  {
    hide DeadAlone, Distinct;
    assert s.chain[k][0] in s.chain[k] && s.chain[k][0] in s.waitsOn;
  }

  lemma ReapShrinks(s: Sys, t: Task)
    ensures t !in s.state ==> t !in Reap(s).state
  {
    hide Without, IndexOf;
  }

  /** The next call of the scheduler unlinks the pending dead task and keeps the order of
      the others. */
  lemma ReapedByNextSchedule(s: Sys, t: Task)
    requires Core(s) && s.doomed == Some(t)
    ensures Schedule(s).list == Without(s.list, t) && t !in Schedule(s).list && t !in Schedule(s).state
    ensures t in s.state && s.state[t] == Dead && t != s.current
    ensures forall k :: k in s.chain ==> t !in s.chain[k]
  {
    DoomedAlone(s, t);
    WithoutKeeps(s.list, t);
    ReapKeeps(s);
    ListedDoomed(s);
    RemoveFields(s);
    hide Core, Listed, Guarded, Without, Distinct, Schedule, Quiet, Reap;
    ScheduleList(s);
    StillGone(s, t);
  }

  lemma DoomedAlone(s: Sys, t: Task)
    requires Core(s) && s.doomed == Some(t)
    ensures t in s.state && s.state[t] == Dead && t != s.current
    ensures forall k :: k in s.chain ==> t !in s.chain[k]
  {
    hide Guarded, Distinct;
    assert t in s.state && s.state[t] == Dead && t != s.current;
    hide Listed, Quiet;
    assert t !in s.waitsOn;
  }

  lemma ScheduleList(s: Sys)
    ensures Schedule(s).list == Reap(s).list
  {
    hide Next, Reap;
  }

  // ---------------------------------------------------------------------------
  // Bounded bypass

  /** Steps forward round the run list from a to b. */
  function Distance(list: seq<Task>, a: Task, b: Task): int
    requires a in list && b in list
  {
    Gap(IndexOf(list, a), IndexOf(list, b), |list|)
  }

  lemma IndexAfterCut(list: seq<Task>, d: Task, t: Task)
    requires Distinct(list) && d in list && t in list && t != d
    ensures Distinct(Without(list, d)) && t in Without(list, d) && |Without(list, d)| == |list| - 1
    ensures var i := IndexOf(list, t); IndexOf(Without(list, d), t) == if i < IndexOf(list, d) then i else i - 1
  {
    WithoutKeeps(list, d);
    var i, k := IndexOf(list, t), IndexOf(list, d);
    var j := if i < k then i else i - 1;
    assert Without(list, d)[j] == t;
    IndexUnique(Without(list, d), t, j);
  }

  /** Unlinking a third task moves nobody further away. */
  lemma CutBringsCloser(list: seq<Task>, d: Task, a: Task, b: Task)
    requires Distinct(list) && d in list && a in list && b in list && a != d && b != d && a != b
    ensures a in Without(list, d) && b in Without(list, d)
    ensures Distance(Without(list, d), a, b) <= Distance(list, a, b)
  {
    IndexAfterCut(list, d, a);
    IndexAfterCut(list, d, b);
    hide IndexOf, Without, Distinct;
  }

  lemma ReapBringsCloser(s: Sys, t: Task)
    requires Core(s) && t in s.state && s.state[t] == Ready && t != s.current
    ensures s.current in s.list && t in s.list
    ensures s.current in Reap(s).list && t in Reap(s).list
    ensures Distance(Reap(s).list, s.current, t) <= Distance(s.list, s.current, t)
  {
    CurrentKnown(s);
    TaskListed(s, t);
    ReapKeeps(s);
    if s.doomed.Some? {
      DoomedAlone(s, s.doomed.value);
      ListedDoomed(s);
      hide Core, Listed, Reap, Without, Distance;
      CutBringsCloser(s.list, s.doomed.value, s.current, t);
    }
  }

  lemma TaskListed(s: Sys, t: Task)
    requires Core(s) && t in s.state
    ensures t in s.list && Distinct(s.list)
  {
    hide Distinct, Quiet, Waiting, Guarded;
  }

  /** The scheduler goes to a ready task or passes only tasks that are not ready. */
  lemma NextBringsCloser(list: seq<Task>, state: map<Task, TaskState>, a: Task, t: Task)
    requires Distinct(list) && a in list && t in list && t != a
    requires (forall u :: u in list ==> u in state) && state[t] == Ready
    ensures var i := IndexOf(list, a);
            var n := list[Pick(list, state, i, i)];
            n == t || Distance(list, n, t) < Distance(list, a, t)
  {
    var i, k := IndexOf(list, a), IndexOf(list, t);
    var r := Pick(list, state, i, i);
    IndexUnique(list, list[r], r);
    hide IndexOf, Pick, Distinct;
    PickFirstReady(list, state, i, i);
    GapShrinks(i, r, k, |list|);
  }

  lemma GapShrinks(i: nat, r: nat, k: nat, n: nat)
    requires i < n && r < n && k < n && k != i && Gap(i, r, n) <= Gap(i, k, n)
    ensures r == k || Gap(r, k, n) < Gap(i, k, n)
  {
  }

  lemma ScheduleBringsCloser(s: Sys, t: Task)
    requires Core(s) && t in s.state && s.state[t] == Ready && t != s.current
    ensures s.current in s.list && t in s.list && t in Schedule(s).list && Schedule(s).current in Schedule(s).list
    ensures Schedule(s).current == t || Distance(Schedule(s).list, Schedule(s).current, t) < Distance(s.list, s.current, t)
  {
    var s1, s2 := Reap(s), Update(Reap(s));
    ReapBringsCloser(s, t);
    ReapKeeps(s);
    ReapTask(s, t);
    UpdateTask(s1, t);
    UpdateKeeps(s1);
    ListedQuiet(s2);
    NextIsReady(s2);
    CurrentKnown(s2);
    assert s2.list == s1.list && s2.current == s.current;
    hide Core, Reap, Update, SwitchTo, Distance, Quiet;
    SwitchFields(s2, Next(s2));
    AllKnown(s2);
    NextBringsCloser(s2.list, s2.state, s.current, t);
    hide Listed, IndexOf, Pick;
  }

  lemma AllKnown(s: Sys)
    requires Listed(s)
    ensures Distinct(s.list) && forall u :: u in s.list ==> u in s.state
  {
    hide Distinct;
  }

  /** How often a run calls the scheduler. */
  function Calls(s: Sys, ops: seq<Op>, s': Sys): nat
    requires Runs(s, ops, s')
    decreases |ops|
  {
    if ops == [] then 0
    else (if Schedules(s, ops[0]) then 1 else 0) + Calls(Step(s, ops[0]), ops[1..], s')
  }

  /** The task gets the processor at some point of the run. */
  ghost predicate GetsToRun(s: Sys, ops: seq<Op>, t: Task)
    decreases |ops|
  {
    s.current == t || (ops != [] && Allowed(s, ops[0]) && GetsToRun(Step(s, ops[0]), ops[1..], t))
  }

  lemma StepBringsCloser(s: Sys, op: Op, t: Task)
    requires Inv(s) && Allowed(s, op) && !op.Add? && t in s.state && s.state[t] == Ready && t != s.current
    ensures s.current in s.list && t in s.list
    ensures var s' := Step(s, op);
            || s'.current == t
            || (t in s'.state && s'.state[t] == Ready && s'.current in s'.list && t in s'.list
                && Distance(s'.list, s'.current, t) <= Distance(s.list, s.current, t) - if Schedules(s, op) then 1 else 0)
  {
    StepEvolves(s, op, t);
    CurrentKnown(s);
    TaskListed(s, t);
    if Schedules(s, op) {
      BeforeSchedule(s, op);
      BeforeAlike(s, op, t);
      hide Core, Step, Schedule, Distance, Before;
      ScheduleBringsCloser(Before(s, op), t);
    } else {
      OtherStays(s, op);
    }
  }

  /** A ready task at cyclic distance d from the current one runs before the scheduler
      has been called more than d times, whatever else happens, as long as no task is added. */
  lemma {:induction false} BoundedBypass(s: Sys, ops: seq<Op>, s': Sys, t: Task)
    requires Inv(s) && Runs(s, ops, s') && t in s.state && s.state[t] == Ready
    requires s.current in s.list && t in s.list && Calls(s, ops, s') >= Distance(s.list, s.current, t)
    requires forall i :: 0 <= i < |ops| ==> !ops[i].Add?
    ensures GetsToRun(s, ops, t)
    decreases |ops|
  {
    if s.current != t {
      StepKeeps(s, ops[0]);
      StepBringsCloser(s, ops[0], t);
      var s1 := Step(s, ops[0]);
      if s1.current != t {
        BoundedBypass(s1, ops[1..], s', t);
      }
    }
  }
}
