// What each step does to the tasks and the primitives, in the terms of those who call it.
module SchedEffects {
  import opened Lists
  import opened Words
  import opened Objects
  import opened Sched
  import opened SchedRuns
  import opened Primitives

  // ---------------------------------------------------------------------------
  // The scheduler

  /** What becomes of the state of a task that the scheduler does not choose. */
  function Passed(s: Sys, t: Task): TaskState
    requires t in s.state && t in s.wake
  {
    match s.state[t]
    case Running => Ready
    case Sleeping => if s.wake[t] <= s.ticks then Ready else Sleeping
    case _ => s.state[t]
  }

  /** A call of the scheduler removes the pending dead task, runs the task it chooses, wakes
      exactly the sleepers whose tick has come, and takes the processor from nobody else. */
  lemma ScheduleIs(s: Sys, t: Task)
    requires Core(s) && t in s.state
    ensures t in s.wake && (t in Schedule(s).state <==> s.doomed != Some(t))
    ensures var s' := Schedule(s);
            t in s'.state ==> t in s'.wake && s'.wake[t] == s.wake[t]
                              && s'.state[t] == if t == s'.current then Running else Passed(s, t)
    ensures Schedule(s).ticks == s.ticks
  {
    hide Core, Listed, Quiet, Reap, Update, SwitchTo, Next, Schedule;
    ScheduleIsSwitch(s);
    ScheduleTicks(s);
    ReapsExactly(s, t);
    ReapTask(s, t);
    ReapTicks(s);
    if t in Reap(s).state {
      UpdateTask(Reap(s), t);
      ReapWake(s, t);
      var s2 := Update(Reap(s));
      SwitchIs(s2, Next(s2), t);
      ScheduleKeeps(s);
      CurrentRuns(Schedule(s));
    } else {
      StillGone(s, t);
    }
  }

  lemma CurrentRuns(s: Sys)
    requires Inv(s)
    ensures s.current in s.state && s.state[s.current] == Running
  {
    hide Waiting, Guarded, Listed;
  }

  lemma ScheduleIsSwitch(s: Sys)
    requires Core(s)
    ensures var s2 := Update(Reap(s));
            && Schedule(s) == SwitchTo(s2, Next(s2)) && s2.current in s2.state && Next(s2) in s2.state && s2.ticks == s.ticks
            && s2.current == s.current
            && (Next(s2) == s2.current ==> s2.state[s2.current] == Running)
            && forall t :: t in s2.state && s2.state[t] == Running ==> t == s2.current
  {
    ReapKeeps(s);
    ReapTicks(s);
    UpdateKeeps(Reap(s));
    ListedQuiet(Update(Reap(s)));
    NextIsReady(Update(Reap(s)));
    NextKnown(Update(Reap(s)));
    OnlyCurrentRuns(Update(Reap(s)));
    hide Core, Reap, Next, SwitchTo, Listed, Quiet;
  }

  lemma OnlyCurrentRuns(s: Sys)
    requires Quiet(s)
    ensures s.current in s.state && forall t :: t in s.state && s.state[t] == Running ==> t == s.current
  {
  }

  lemma ReapsExactly(s: Sys, t: Task)
    requires Core(s) && t in s.state
    ensures t in Reap(s).state <==> s.doomed != Some(t)
  {
    hide Quiet, Waiting, Guarded, Without, IndexOf, Distinct;
  }

  lemma ReapWake(s: Sys, t: Task)
    requires Core(s) && t in Reap(s).state && t in s.wake
    ensures t in Reap(s).wake && Reap(s).wake[t] == s.wake[t]
  {
    hide Quiet, Waiting, Guarded, Without, IndexOf, Distinct;
  }

  lemma SwitchIs(s: Sys, n: Task, t: Task)
    requires t in s.state && s.current in s.state && n in s.state && (n == s.current ==> s.state[n] == Running)
    requires forall u :: u in s.state && s.state[u] == Running ==> u == s.current
    ensures var s' := SwitchTo(s, n);
            && s'.current == n && t in s'.state && s'.wake == s.wake && s'.ticks == s.ticks
            && s'.state[t] == if t == n then Running else if s.state[t] == Running then Ready else s.state[t]
  {
  }

  /** Nobody sleeps past a call of the scheduler at or after their tick. */
  lemma SleepersWoken(s: Sys, t: Task)
    requires Core(s) && t in Schedule(s).state && Schedule(s).state[t] == Sleeping
    ensures t in Schedule(s).wake && Schedule(s).wake[t] > Schedule(s).ticks
  {
    hide Core, Schedule;
    StillGone0(s, t);
    ScheduleIs(s, t);
  }

  lemma StillGone0(s: Sys, t: Task)
    requires Core(s) && t in Schedule(s).state
    ensures t in s.state
  {
    hide Core, Schedule, Reap;
    StillGone(s, t);
    ReapShrinks(s, t);
  }

  /** The new pending dead task is the one that just left the processor, if it is dead. */
  lemma ScheduleDooms(s: Sys)
    requires Core(s)
    ensures s.current in s.state
    ensures Schedule(s).doomed == if s.state[s.current] == Dead && Schedule(s).current != s.current then Some(s.current) else None
  {
    hide Core, Reap, Next, Update, SwitchTo, Schedule;
    CurrentKnown(s);
    ScheduleIsSwitch(s);
    ReapKeeps(s);
    ReapTask(s, s.current);
    ReapsExactly(s, s.current);
    DoomedOther(s);
    var s2 := Update(Reap(s));
    UpdateTask(Reap(s), s.current);
    UpdateDoomed(Reap(s));
    SwitchDooms(s2, Next(s2));
  }

  lemma UpdateDoomed(s: Sys)
    ensures Update(s).doomed == s.doomed
  {
  }

  lemma SwitchDooms(s: Sys, n: Task)
    requires s.current in s.state && s.doomed == None
    ensures SwitchTo(s, n).current == n
    ensures SwitchTo(s, n).doomed == if s.state[s.current] == Dead && n != s.current then Some(s.current) else None
  {
  }

  lemma DoomedOther(s: Sys)
    requires Core(s)
    ensures s.doomed != Some(s.current)
  {
    hide Quiet, Waiting, Guarded, Distinct;
  }

  /** A task that exits is dead, and the next to be removed. */
  lemma ExitDies(s: Sys)
    requires Inv(s) && Allowed(s, Exit)
    ensures var s' := Step(s, Exit);
            s.current in s'.state && s'.state[s.current] == Dead && s'.doomed == Some(s.current) && s'.current != s.current
  {
    StepExit(s);
    ExitKeeps(s);
    DieState(s);
    DoomedOther(s);
    hide Inv, Core, Die, Schedule, Step, Allowed;
    ScheduleIs(Die(s), s.current);
    ScheduleDooms(Die(s));
    ScheduleKeeps(Die(s));
  }

  lemma DieState(s: Sys)
    requires s.current in s.state
    ensures s.current in Die(s).state && Die(s).state[s.current] == Dead && Die(s).current == s.current && Die(s).doomed == s.doomed
  {
  }

  /** A task that sleeps n ticks from now sleeps exactly until then, unless that is now. */
  lemma SleepsUntil(s: Sys, n: nat)
    requires Inv(s) && Allowed(s, Sleep(n))
    ensures var s' := Step(s, Sleep(n));
            && s.current in s'.state && s.current in s'.wake && s'.wake[s.current] == s.ticks + n
            && s'.state[s.current] == if n == 0 then Ready else Sleeping
  {
    CurrentKnown(s);
    StepSleep(s, n);
    SleepKeeps(s, n);
    DozeFields(s, n);
    DozeDoomed(s, n);
    DoomedOther(s);
    hide Inv, Core, Doze, Schedule, Step, Allowed;
    ScheduleIs(Doze(s, n), s.current);
    ScheduleKeeps(Doze(s, n));
  }

  lemma DozeDoomed(s: Sys, n: nat)
    ensures Doze(s, n).doomed == s.doomed && Doze(s, n).current == s.current && Doze(s, n).ticks == s.ticks
  {
  }

  /** A task that is added is ready, behind all others, and nothing else changes. */
  lemma AddsLast(s: Sys, t: Task)
    requires Allowed(s, Add(t))
    ensures var s' := Step(s, Add(t));
            && s'.list == s.list + [t] && s'.state == s.state[t := Ready] && s'.current == s.current
            && s'.ticks == s.ticks && s'.doomed == s.doomed && OnTask(t) in s'.chain && s'.chain[OnTask(t)] == []
            && (forall k :: k in s.chain && k != OnTask(t) ==> k in s'.chain && s'.chain[k] == s.chain[k])
  {
  }

  // ---------------------------------------------------------------------------
  // Calls that do not block

  /** A mutex that is free is locked for the caller; one that is not is left alone. */
  lemma TryLockTakes(s: Sys, m: Mutex)
    requires Inv(s) && Allowed(s, TryLock(m))
    ensures var s' := Step(s, TryLock(m));
            m in s.locked && (if s.locked[m] then s' == s
            else s'.locked == s.locked[m := true] && m in s'.holders && s'.holders[m] == {s.current} && s'.state == s.state
                 && s'.chain == s.chain && s'.current == s.current)
  {
    hide Listed, Quiet, Waiting, SemaphoresOk, EventsOk;
    StepTryLock(s, m);
    if !s.locked[m] {
      assert s.holders[m] == {};
    }
  }

  /** A permit that is there is taken; when there is none nothing happens. */
  lemma TryWaitTakes(s: Sys, x: Semaphore)
    requires Allowed(s, TryWait(x))
    ensures var s' := Step(s, TryWait(x));
            x in s.count && (if s.count[x] == 0 then s' == s
            else s'.count == s.count[x := s.count[x] - 1] && s'.state == s.state && s'.chain == s.chain && s'.current == s.current)
  {
  }

  lemma ResetsOnly(s: Sys, e: Event)
    requires Allowed(s, ResetEvent(e))
    ensures Step(s, ResetEvent(e)) == s.(signaled := s.signaled[e := false])
  {
  }

  /** Setting an event leaves it set, its chain empty and all who waited on it ready. */
  lemma SetWakesAll(s: Sys, e: Event, t: Task)
    requires Inv(s) && Allowed(s, SetEvent(e)) && t in s.state
    ensures var s' := Step(s, SetEvent(e));
            && s'.signaled == s.signaled[e := true] && OnEvent(e) in s.chain && OnEvent(e) in s'.chain && s'.chain[OnEvent(e)] == []
            && t in s'.state && s'.state[t] == (if t in s.chain[OnEvent(e)] then Ready else s.state[t])
            && s'.current == s.current
  {
    EventKnown(s, e);
    hide Core;
  }

  // ---------------------------------------------------------------------------
  // Calls that block

  /** The caller is blocked, in front of the chain it waits on, and another task runs. */
  ghost predicate Queued(s: Sys, s': Sys, k: Key) {
    && s.current in s'.state && s'.state[s.current] == Blocked && s'.current != s.current
    && k in s.chain && k in s'.chain && s'.chain[k] == [s.current] + s.chain[k]
  }

  lemma BlocksInFront(s: Sys, k: Key)
    requires Inv(s) && MayBlockOn(s, k) && s.current != s.idle && (k.OnTask? ==> s.doomed != Some(k.t))
    ensures Queued(s, Schedule(Block(s, k)), k)
  {
    BlockKeeps(s, k);
    CurrentKnown(s);
    DoomedOther(s);
    BlockIs(s, k);
    hide Inv, Core, Block, Schedule, MayBlockOn;
    ScheduleIs(Block(s, k), s.current);
    ScheduleKeeps(Block(s, k));
    ScheduleChains(Block(s, k), k);
  }

  lemma BlockIs(s: Sys, k: Key)
    requires MayBlockOn(s, k)
    ensures var s' := Block(s, k);
            s'.current == s.current && s'.doomed == s.doomed && k in s.chain && k in s'.chain && s'.chain[k] == [s.current] + s.chain[k]
  {
  }

  /** The scheduler only drops the chain of the dead task it removes. */
  lemma ScheduleChains(s: Sys, k: Key)
    requires k in s.chain && (k.OnTask? ==> s.doomed != Some(k.t))
    ensures k in Schedule(s).chain && Schedule(s).chain[k] == s.chain[k]
  {
    hide Next, Without, IndexOf;
  }

  lemma LockQueues(s: Sys, m: Mutex)
    requires Inv(s) && Allowed(s, Lock(m)) && m in s.locked
    ensures if s.locked[m] then Queued(s, Step(s, Lock(m)), OnMutex(m)) else Step(s, Lock(m)) == Step(s, TryLock(m))
  {
    hide Core, Block, Schedule, Queued;
    StepLock(s, m);
    StepTryLock(s, m);
    if s.locked[m] {
      MayLock(s, m);
      BlocksInFront(s, OnMutex(m));
    }
  }

  lemma WaitQueues(s: Sys, x: Semaphore)
    requires Inv(s) && Allowed(s, Wait(x)) && x in s.count
    ensures if s.count[x] == 0 then Queued(s, Step(s, Wait(x)), OnSemaphore(x)) else Step(s, Wait(x)) == Step(s, TryWait(x))
  {
    hide Core, Block, Schedule, Queued;
    StepWait(s, x);
    StepTryWait(s, x);
    if s.count[x] == 0 {
      MayWait(s, x);
      BlocksInFront(s, OnSemaphore(x));
    }
  }

  lemma WaitEventQueues(s: Sys, e: Event)
    requires Inv(s) && Allowed(s, WaitEvent(e)) && e in s.signaled
    ensures if s.signaled[e] then Step(s, WaitEvent(e)) == s else Queued(s, Step(s, WaitEvent(e)), OnEvent(e))
  {
    hide Core, Block, Schedule, Queued;
    StepWaitEvent(s, e);
    if !s.signaled[e] {
      MayWaitEvent(s, e);
      BlocksInFront(s, OnEvent(e));
    }
  }

  lemma JoinQueues(s: Sys, t: Task)
    requires Inv(s) && Allowed(s, Join(t))
    ensures if t in s.state && s.state[t] != Dead && t != s.current then Queued(s, Step(s, Join(t)), OnTask(t)) else Step(s, Join(t)) == s
  {
    hide Core, Block, Schedule, Queued;
    StepJoin(s, t);
    if t in s.state && s.state[t] != Dead && t != s.current {
      JoinMayBlock(s, t);
      DoomedDead(s, t);
      BlocksInFront(s, OnTask(t));
    }
  }

  lemma DoomedDead(s: Sys, t: Task)
    requires Core(s) && t in s.state && s.state[t] != Dead
    ensures s.doomed != Some(t)
  {
    hide Waiting, Guarded, Distinct;
  }

  // ---------------------------------------------------------------------------
  // What ends a wait

  /** What must happen for a task to stop waiting. */
  ghost predicate Ended(s: Sys, op: Op, s': Sys, t: Task, k: Key) {
    match k
    case OnMutex(m) => op == Unlock(m) && m in s'.holders && s'.holders[m] == {t}
    case OnSemaphore(x) => op == Signal(x) && x in s.count && x in s'.count && s'.count[x] == s.count[x]
    case OnEvent(e) => op == SetEvent(e) && e in s'.signaled && s'.signaled[e]
    case OnTask(u) => op == Exit && s.current == u && u in s'.state && s'.state[u] == Dead
  }

  /** A blocked task goes on only as the new holder of the mutex it waits for, with a permit
      of the semaphore, after the event was set, or when the task it joined has died. */
  lemma WaitEnds(s: Sys, op: Op, t: Task)
    requires Inv(s) && Allowed(s, op) && t in s.waitsOn && t !in Step(s, op).waitsOn
    ensures Ended(s, op, Step(s, op), t, s.waitsOn[t])
  {
    hide Core, Listed, Quiet, Guarded, Schedule, Chained, Waiters, Ended, WakeOne, WakeAll, Release, Post, Block, Acquire, Grant, Doze, Die, Added, ChainOf;
    if Schedules(s, op) {
      BeforeSchedule(s, op);
      ScheduleWaits(Before(s, op));
      if op == Exit {
        ExitEnds(s, t);
      } else {
        BeforeWaits(s, op, t);
      }
    } else {
      match op
      case Unlock(m) => UnlockEnds(s, m, t);
      case Signal(x) => SignalEnds(s, x, t);
      case SetEvent(e) => SetEnds(s, e, t);
      case _ => PlainWaits(s, op, t);
    }
  }

  lemma ScheduleWaits(s: Sys)
    ensures Schedule(s).waitsOn == s.waitsOn
  {
    hide Next, Reap, Update, SwitchTo;
    ReapWaitsOn(s);
    UpdateWaitsOn(Reap(s));
    SwitchWaitsOn(Update(Reap(s)), Next(Update(Reap(s))));
  }

  lemma ReapWaitsOn(s: Sys)
    ensures Reap(s).waitsOn == s.waitsOn
  {
    hide Without, IndexOf;
  }

  lemma UpdateWaitsOn(s: Sys)
    ensures Update(s).waitsOn == s.waitsOn
  {
  }

  lemma SwitchWaitsOn(s: Sys, n: Task)
    ensures SwitchTo(s, n).waitsOn == s.waitsOn
  {
  }

  lemma BeforeWaits(s: Sys, op: Op, t: Task)
    requires Allowed(s, op) && Schedules(s, op) && op != Exit && t in s.waitsOn
    ensures t in Before(s, op).waitsOn
  {
    hide ChainOf;
  }

  lemma PlainWaits(s: Sys, op: Op, t: Task)
    requires Allowed(s, op) && !Schedules(s, op) && t in s.waitsOn && !op.Unlock? && !op.Signal? && !op.SetEvent?
    ensures t in Step(s, op).waitsOn
  {
    hide Schedule, Release, Post, WakeAll, Block;
  }

  /** Whoever is on a chain waits on its owner, and the other way round. */
  lemma WaitersKnown(s: Sys, k: Key, t: Task)
    requires Core(s) && t in s.waitsOn
    ensures s.waitsOn[t] in s.chain && t in s.chain[s.waitsOn[t]]
    ensures k in s.chain && t in s.chain[k] ==> s.waitsOn[t] == k
  {
    hide Listed, Quiet, Guarded, Distinct, DeadAlone, Waiters;
  }

  lemma ExitEnds(s: Sys, t: Task)
    requires Inv(s) && Allowed(s, Exit) && t in s.waitsOn && t !in Die(s).waitsOn
    ensures Ended(s, Exit, Step(s, Exit), t, s.waitsOn[t])
  {
    hide Core, Die, Step, Allowed;
    ExitDies(s);
    WaitersKnown(s, OnTask(s.current), t);
    DieWaits(s, t);
  }

  lemma DieWaits(s: Sys, t: Task)
    requires t in s.waitsOn && t !in Die(s).waitsOn
    ensures OnTask(s.current) in s.chain && t in s.chain[OnTask(s.current)]
  {
  }

  lemma UnlockEnds(s: Sys, m: Mutex, t: Task)
    requires Inv(s) && Allowed(s, Unlock(m)) && t in s.waitsOn && t !in Step(s, Unlock(m)).waitsOn
    ensures Ended(s, Unlock(m), Step(s, Unlock(m)), t, s.waitsOn[t])
  {
    hide Core, Release, Step, Allowed;
    StepUnlock(s, m);
    ReleaseKeeps(s, m);
    WaitersKnown(s, OnMutex(m), t);
    ReleaseWaits(s, m, t);
  }

  lemma ReleaseWaits(s: Sys, m: Mutex, t: Task)
    requires m in s.locked && m in s.holders && t in s.waitsOn && t !in Release(s, m).waitsOn
    ensures OnMutex(m) in s.chain && s.chain[OnMutex(m)] != [] && t == s.chain[OnMutex(m)][0] && t in s.chain[OnMutex(m)]
    ensures ChainOf(s, OnMutex(m)) == s.chain[OnMutex(m)] && m in Release(s, m).holders
  {
  }

  lemma SignalEnds(s: Sys, x: Semaphore, t: Task)
    requires Inv(s) && Allowed(s, Signal(x)) && t in s.waitsOn && t !in Step(s, Signal(x)).waitsOn
    ensures Ended(s, Signal(x), Step(s, Signal(x)), t, s.waitsOn[t])
  {
    hide Core, Post, Step, Allowed;
    StepSignal(s, x);
    WaitersKnown(s, OnSemaphore(x), t);
    PostWaits(s, x, t);
  }

  lemma PostWaits(s: Sys, x: Semaphore, t: Task)
    requires x in s.count && x in s.ledger && t in s.waitsOn && t !in Post(s, x).waitsOn
    ensures OnSemaphore(x) in s.chain && t in s.chain[OnSemaphore(x)] && x in Post(s, x).count && Post(s, x).count[x] == s.count[x]
  {
    hide Post;
    PostIs(s, x);
  }

  lemma PostIs(s: Sys, x: Semaphore)
    requires x in s.count && x in s.ledger
    ensures var s', w := Post(s, x), ChainOf(s, OnSemaphore(x));
            if w == [] then s'.count == s.count[x := s.count[x] + 1] && s'.chain == s.chain && s'.waitsOn == s.waitsOn
            else s'.count == s.count && s'.chain == s.chain[OnSemaphore(x) := w[1..]] && s'.waitsOn == s.waitsOn - {w[0]}
  {
    hide ChainOf;
    assert ChainOf(Posted(s, x), OnSemaphore(x)) == ChainOf(s, OnSemaphore(x)) by { PostedSame(s, x); }
  }

  lemma PostedSame(s: Sys, x: Semaphore)
    requires x in s.ledger
    ensures ChainOf(Posted(s, x), OnSemaphore(x)) == ChainOf(s, OnSemaphore(x))
  {
  }

  lemma SetEnds(s: Sys, e: Event, t: Task)
    requires Inv(s) && Allowed(s, SetEvent(e)) && t in s.waitsOn && t !in Step(s, SetEvent(e)).waitsOn
    ensures Ended(s, SetEvent(e), Step(s, SetEvent(e)), t, s.waitsOn[t])
  {
    hide Core, Step, Allowed;
    StepSetEvent(s, e);
    EventKnown(s, e);
    WaitersKnown(s, OnEvent(e), t);
    SetWaits(s, e, t);
  }

  lemma SetWaits(s: Sys, e: Event, t: Task)
    requires Allowed(s, SetEvent(e)) && OnEvent(e) in s.chain && t in s.waitsOn && t !in Step(s, SetEvent(e)).waitsOn
    ensures t in s.chain[OnEvent(e)] && e in Step(s, SetEvent(e)).signaled && Step(s, SetEvent(e)).signaled[e]
  {
  }

  /** In a reachable state exactly the blocked tasks wait. */
  lemma BlockedWaits(s: Sys, t: Task)
    requires Core(s) && t in s.state
    ensures s.state[t] == Blocked <==> t in s.waitsOn
  {
    hide Listed, Quiet, Guarded, Chained, DeadAlone;
  }

  // ---------------------------------------------------------------------------
  // Permits, counted by calls

  /** Permits that are there, less those that are waited for. */
  function Balance(s: Sys, x: Semaphore): int
    requires x in s.count
  {
    s.count[x] - |ChainOf(s, OnSemaphore(x))|
  }

  /** One more for a signal, one less for a wait, also for one that does not have to block. */
  function Change(s: Sys, op: Op, x: Semaphore): int {
    if op == Signal(x) then 1
    else if op == Wait(x) || (op == TryWait(x) && x in s.count && s.count[x] > 0) then -1
    else 0
  }

  function Changes(s: Sys, ops: seq<Op>, x: Semaphore): int
    decreases |ops|
  {
    if ops == [] || !Allowed(s, ops[0]) then 0 else Change(s, ops[0], x) + Changes(Step(s, ops[0]), ops[1..], x)
  }

  lemma StepBalance(s: Sys, op: Op, x: Semaphore)
    requires Inv(s) && Allowed(s, op) && x in s.count
    ensures x in Step(s, op).count && Balance(Step(s, op), x) == Balance(s, x) + Change(s, op, x)
  {
    hide Core, Schedule, Release, WakeAll;
    if Schedules(s, op) {
      BeforeSchedule(s, op);
      hide Step;
      ScheduleSame(Before(s, op));
      BeforeBalance(s, op, x);
      SemaphoreKnown(s, x);
    } else if op.Unlock? {
      UnlockBalance(s, op.m, x);
    } else if op.SetEvent? {
      SetBalance(s, op.e, x);
    } else if op.Signal? {
      SignalBalance(s, op.x, x);
    } else {
      PlainBalance(s, op, x);
    }
  }

  lemma SemaphoreKnown(s: Sys, x: Semaphore)
    requires Core(s) && x in s.count
    ensures OnSemaphore(x) in s.chain
  {
    hide Listed, Quiet, Waiting;
  }

  lemma BeforeBalance(s: Sys, op: Op, x: Semaphore)
    requires Allowed(s, op) && Schedules(s, op) && x in s.count
    ensures x in Before(s, op).count && Balance(Before(s, op), x) == Balance(s, x) + Change(s, op, x)
    ensures OnSemaphore(x) in s.chain ==> OnSemaphore(x) in Before(s, op).chain
  {
  }

  lemma UnlockBalance(s: Sys, m: Mutex, x: Semaphore)
    requires Allowed(s, Unlock(m)) && x in s.count
    ensures x in Step(s, Unlock(m)).count && Balance(Step(s, Unlock(m)), x) == Balance(s, x)
  {
  }

  lemma SetBalance(s: Sys, e: Event, x: Semaphore)
    requires Allowed(s, SetEvent(e)) && x in s.count
    ensures x in Step(s, SetEvent(e)).count && Balance(Step(s, SetEvent(e)), x) == Balance(s, x)
  {
  }

  lemma SignalBalance(s: Sys, y: Semaphore, x: Semaphore)
    requires Inv(s) && Allowed(s, Signal(y)) && x in s.count
    ensures x in Step(s, Signal(y)).count && Balance(Step(s, Signal(y)), x) == Balance(s, x) + Change(s, Signal(y), x)
  {
    hide Core, Step, Allowed;
    StepSignal(s, y);
    SemaphoreKnown(s, x);
    SemaphoreKnown(s, y);
    PostBalance(s, y, x);
  }

  lemma PostBalance(s: Sys, y: Semaphore, x: Semaphore)
    requires x in s.count && y in s.count && y in s.ledger && OnSemaphore(x) in s.chain && OnSemaphore(y) in s.chain
    ensures x in Post(s, y).count && Balance(Post(s, y), x) == Balance(s, x) + (if y == x then 1 else 0)
  {
    hide Post;
    PostIs(s, y);
  }

  lemma PlainBalance(s: Sys, op: Op, x: Semaphore)
    requires Inv(s) && Allowed(s, op) && !Schedules(s, op) && !op.Unlock? && !op.SetEvent? && !op.Signal? && x in s.count
    ensures x in Step(s, op).count && Balance(Step(s, op), x) == Balance(s, x) + Change(s, op, x)
  {
    hide Core, Schedule, Block, Step, Acquire, TakePermit, Allowed;
    match op
    case Tick => StepTick(s);
    case Add(t) => AddsLast(s, t); AddSame(s, t); SemaphoreKnown(s, x);
    case Lock(m) => StepLock(s, m); AcquireSame(s, m);
    case TryLock(m) => StepTryLock(s, m); AcquireSame(s, m);
    case Wait(y) => StepWait(s, y); if s.count[y] > 0 { TakeSame(s, y); }
    case TryWait(y) => StepTryWait(s, y); if s.count[y] > 0 { TakeSame(s, y); }
    case WaitEvent(e) => StepWaitEvent(s, e);
    case ResetEvent(e) => ResetsOnly(s, e);
    case Join(t) => StepJoin(s, t);
  }

  lemma AddSame(s: Sys, t: Task)
    requires Allowed(s, Add(t))
    ensures Step(s, Add(t)).count == s.count
  {
  }

  lemma AcquireSame(s: Sys, m: Mutex)
    requires m in s.locked && m in s.holders
    ensures Acquire(s, m).count == s.count && Acquire(s, m).chain == s.chain
  {
  }

  lemma TakeSame(s: Sys, y: Semaphore)
    requires y in s.count && y in s.ledger && s.count[y] > 0
    ensures TakePermit(s, y).count == s.count[y := s.count[y] - 1] && TakePermit(s, y).chain == s.chain
  {
  }

  /** Over any run a semaphore's permits, less its waiters, grow by the signals and shrink by
      the waits and the successful attempts. */
  lemma {:induction false} RunBalance(s: Sys, ops: seq<Op>, s': Sys, x: Semaphore)
    requires Inv(s) && Runs(s, ops, s') && x in s.count
    ensures x in s'.count && Balance(s', x) == Balance(s, x) + Changes(s, ops, x)
    decreases |ops|
  {
    hide Core, Step, Balance, Change;
    if ops != [] {
      StepKeeps(s, ops[0]);
      StepBalance(s, ops[0], x);
      RunBalance(Step(s, ops[0]), ops[1..], s', x);
    }
  }

  // ---------------------------------------------------------------------------
  // The start

  /** kmain alone and running; every mutex free, every event clear, every semaphore with the
      count it was given, and nobody waiting. */
  lemma BootIs(kmain: Task, mutexes: set<Mutex>, semaphores: map<Semaphore, nat>, events: set<Event>)
    ensures var s := Boot(kmain, mutexes, semaphores, events);
            && s.list == [kmain] && s.current == kmain && s.idle == kmain && s.state == map[kmain := Running] && s.doomed == None && s.ticks == 0
            && s.locked.Keys == mutexes && (forall m :: m in mutexes ==> !s.locked[m])
            && s.signaled.Keys == events && (forall e :: e in events ==> !s.signaled[e])
            && s.count == semaphores && s.ledger.Keys == semaphores.Keys
            && (forall x :: x in semaphores ==> s.ledger[x] == Ledger(semaphores[x], 0, 0))
            && (forall k :: k in s.chain ==> s.chain[k] == [])
  {
    BootChains(kmain, mutexes, semaphores, events);
  }

  /** From the start on, the count and the calls account for each other. */
  lemma PermitsAccounted(kmain: Task, mutexes: set<Mutex>, semaphores: map<Semaphore, nat>, events: set<Event>,
                         ops: seq<Op>, s: Sys, x: Semaphore)
    requires Runs(Boot(kmain, mutexes, semaphores, events), ops, s) && x in semaphores
    ensures var s0 := Boot(kmain, mutexes, semaphores, events);
            x in s.count && OnSemaphore(x) in s.chain
            && s.count[x] - |s.chain[OnSemaphore(x)]| == semaphores[x] + Changes(s0, ops, x)
            && (s.count[x] == 0 || s.chain[OnSemaphore(x)] == [])
  {
    hide Runs, Boot, Changes, Core;
    var s0 := Boot(kmain, mutexes, semaphores, events);
    BootKeeps(kmain, mutexes, semaphores, events);
    BootIs(kmain, mutexes, semaphores, events);
    RunBalance(s0, ops, s, x);
    SemaphoreConserves(s0, ops, s, x);
  }
}
