// The scheduler over linked records. Every method does to the records in place what the
// corresponding step of the transition system does to its value.
module Kernel {
  import opened Lists
  import opened Words
  import opened Objects
  import opened Sched
  import opened SchedRuns
  import opened Memory
  import opened KernelSteps

  class Kernel {
    var first: Link
    var current: Link
    var taskToDestroy: Link
    var ticks: nat
    var mem: Memory
    ghost var sys: Sys

    /** scheduler_init: the task that is already running, kmain, becomes the first task. */
    constructor (kmain: Task, mutexes: set<Mutex>, semaphores: map<Semaphore, nat>, events: set<Event>)
      ensures Valid() && sys == Boot(kmain, mutexes, semaphores, events)
    {
      first, current, taskToDestroy, ticks := Some(kmain), Some(kmain), None, 0;
      mem := BootMemory(kmain, mutexes, semaphores, events);
      sys := Boot(kmain, mutexes, semaphores, events);
      new;
      BootKeeps(kmain, mutexes, semaphores, events);
      BootShows(kmain, mutexes, semaphores, events);
    }

    /** The records are those of the system value, except perhaps for `current`; those
        that are not in the run list are new or dead. */
    ghost predicate Coupled()
      reads this
    {
      Shows(first, taskToDestroy, ticks, mem, sys) && Buried(mem.tasks, sys.list)
    }

    ghost predicate Valid()
      reads this
    {
      Inv(sys) && Coupled() && current == Some(sys.current)
    }

    /** scheduler_update */
    method SchedulerUpdate()
      requires Coupled() && Distinct(sys.list)
      modifies `mem, `sys
      ensures Coupled() && sys == Update(old(sys))
    {
      ghost var j: nat, list, mem0 := 0, sys.list, mem;
      RefreshNone(mem, ticks);
      RefreshShows(first, taskToDestroy, ticks, mem, sys);
      RefreshBuries(mem, sys, ticks);
      assert Threaded(mem0.tasks, list);
      hide Shows, Update, Refreshed, Distinct, Threaded, Buried;
      var it := first;
      while it != None
        invariant j <= |list| && it == Nth(list, j)
        invariant sys == old(sys) && mem == Refreshed(mem0, list[..j], ticks)
        decreases |list| - j
      {
        assert RefreshedBy(mem, it.value, ticks, Nth(list, j + 1), Refreshed(mem0, list[..j + 1], ticks)) by {
          RefreshStep(mem0, list, j, ticks);
        }
        if mem.tasks[it.value].state == Sleeping && mem.tasks[it.value].wakeTick <= ticks {
          mem := PutTask(mem, it.value, mem.tasks[it.value].(state := Ready));
        }
        it := mem.tasks[it.value].next;
        j := j + 1;
      }
      assert list[..j] == list;
      sys := Update(sys);
    }

    /** scheduler_next: on to the first ready task, or all the way round. */
    method SchedulerNext()
      requires Coupled() && Distinct(sys.list) && current == Some(sys.current) && sys.current in sys.list
      modifies `current
      ensures current == Some(Next(sys))
    {
      ghost var list, state := sys.list, sys.state;
      hide Distinct, ChainsShow, FlagsShow, Buried;
      var start := current;
      ghost var i := IndexOf(list, start.value);
      ghost var j: nat := i;
      while true
        invariant j < |list| && current == Some(list[j])
        invariant Pick(list, state, i, j) == Pick(list, state, i, i)
        decreases Gap(j, i, |list|)
      {
        current := mem.tasks[current.value].next;
        if current == None {
          current := first;
        }
        j := Succ(j, |list|);
        if mem.tasks[current.value].state == Ready {
          break;
        }
        if current == start {
          IndexUnique(list, start.value, j);
          break;
        }
      }
    }

    /** The task before the one looked for, or the last task. */
    method FindBefore(task: Task) returns (it: Task, ghost j: nat)
      requires sys.list != [] && first == Some(sys.list[0]) && Threaded(mem.tasks, sys.list) && first != Some(task)
      ensures j < |sys.list| && it == sys.list[j] && it in mem.tasks
      ensures mem.tasks[it].next == (if task in sys.list then Some(task) else None)
    {
      ghost var list := sys.list;
      it, j := first.value, 0;
      while mem.tasks[it].next != None && mem.tasks[it].next != Some(task)
        invariant j < |list| && it == list[j] && it in mem.tasks && mem.tasks[it].next == Nth(list, j + 1)
        invariant task !in list[..j + 1]
        decreases |list| - j
      {
        it := mem.tasks[it].next.value;
        j := j + 1;
        assert list[..j + 1] == list[..j] + [it];
      }
      assert j + 1 == |list| ==> list[..j + 1] == list;
    }

    /** scheduler_remove */
    method SchedulerRemove(task: Task)
      requires Coupled() && Distinct(sys.list) && |sys.list| >= 2 && current == Some(sys.current)
      modifies `first, `current, `mem, `sys
      ensures Shows(first, taskToDestroy, ticks, mem, sys) && sys == Remove(old(sys), task) && current == Some(sys.current)
      ensures IsDead(old(sys), task) ==> Coupled()
    {
      hide Distinct, Remove, TasksShow, ChainsShow, FlagsShow, Buried, IsDead;
      ghost var s, mem0 := sys, mem;
      if first == Some(task) {
        UnlinkFirst(first, taskToDestroy, ticks, mem, sys);
        FirstDiffers(sys.list);
        if IsDead(s, task) {
          RemoveBuries(mem, mem, s, task, s.list[1], None);
        }
        first := mem.tasks[task].next;
        if current == Some(task) {
          current := first;
        }
      } else {
        var it, j := FindBefore(task);
        if mem.tasks[it].next == None {
          RemoveMissing(sys, task);
          return;
        }
        UnlinkLater(first, taskToDestroy, ticks, mem, sys, j);
        FollowerDiffers(sys.list, j);
        mem := PutTask(mem, it, mem.tasks[it].(next := mem.tasks[task].next));
        if IsDead(s, task) {
          RemoveBuries(mem0, mem, s, task, it, mem0.tasks[task].next);
        }
        if current == Some(task) {
          current := if mem.tasks[it].next != None then mem.tasks[it].next else first;
        }
      }
      hide Shows;
      sys := Remove(sys, task);
    }

    /** The states of the task that leaves and of the task that enters. */
    method SwitchRecords(from: Task)
      requires Coupled() && from == sys.current && from in sys.list
      requires current.Some? && current.value in sys.list && current.value != from
      modifies `taskToDestroy, `mem, `sys
      ensures Coupled() && sys == SwitchTo(old(sys), old(current.value))
    {
      hide Shows, SwitchTo, Buried;
      SwitchReads(first, taskToDestroy, ticks, mem, sys, current.value);
      SwitchBuries(mem, sys, current.value);
      SwitchShows(first, taskToDestroy, ticks, mem, sys, current.value);
      if mem.tasks[from].state == Running {
        mem := PutTask(mem, from, mem.tasks[from].(state := Ready));
      }
      mem := PutTask(mem, current.value, mem.tasks[current.value].(state := Running));
      if mem.tasks[from].state == Dead && taskToDestroy == None {
        taskToDestroy := Some(from);
      }
      sys := SwitchTo(sys, current.value);
    }

    /** The first lines of scheduler_schedule: unlinks the dead task the last call left behind. */
    method ReapDoomed()
      requires Coupled() && Distinct(sys.list) && current == Some(sys.current)
      requires sys.doomed.Some? ==> |sys.list| >= 2 && IsDead(sys, sys.doomed.value)
      modifies `first, `current, `taskToDestroy, `mem, `sys
      ensures Coupled() && sys == Reap(old(sys)) && current == Some(sys.current)
    {
      assert taskToDestroy == sys.doomed;
      hide Shows, Remove, Buried, IsDead;
      ghost var s := sys;
      if taskToDestroy != None {
        SchedulerRemove(taskToDestroy.value);
        DoomShows(first, taskToDestroy, ticks, mem, sys, Reap(s));
        taskToDestroy := None;
        sys := Reap(s);
      }
    }

    /** scheduler_schedule, up to the switch of stacks. */
    method SchedulerSchedule()
      requires Coupled() && Core(sys) && current == Some(sys.current)
      modifies this
      ensures Valid() && sys == Schedule(old(sys))
    {
      hide Core, Inv, Shows, Reap, Update, SwitchTo, Next, Schedule, Buried;
      ScheduleFacts(sys);
      ReapDoomed();
      SchedulerUpdate();
      var from := current;
      SchedulerNext();
      if from != current {
        SwitchRecords(from.value);
      }
    }

    // -------------------------------------------------------------------------
    // task.c

    /** The record of a new task, at an address that the heap has just handed out. */
    method TaskCreate(t: Task)
      requires Valid() && t !in mem.tasks
      modifies `mem
      ensures Valid() && mem == PutTask(old(mem), t, NEW_TASK)
    {
      hide Inv, Shows, Buried;
      CreateBuries(mem, sys.list, t);
      CreateShows(first, taskToDestroy, ticks, mem, sys, t);
      mem := PutTask(mem, t, NEW_TASK);
    }

    method FindLast() returns (it: Task)
      requires sys.list != [] && first == Some(sys.list[0]) && Threaded(mem.tasks, sys.list)
      ensures it == sys.list[|sys.list| - 1]
    {
      ghost var list, j: nat := sys.list, 0;
      assert forall i: nat {:trigger list[i]} :: i < |list| ==> list[i] in mem.tasks && mem.tasks[list[i]].next == Nth(list, i + 1);
      hide Threaded;
      it := first.value;
      while mem.tasks[it].next != None
        invariant j < |list| && it == list[j] && it in mem.tasks && mem.tasks[it].next == Nth(list, j + 1)
        decreases |list| - j
      {
        it := mem.tasks[it].next.value;
        j := j + 1;
      }
    }

    /** scheduler_add */
    method SchedulerAdd(t: Task)
      requires Valid() && Allowed(sys, Add(t)) && t in mem.tasks && mem.tasks[t] == NEW_TASK
      modifies `mem, `sys
      ensures Valid() && sys == Step(old(sys), Add(t))
    {
      hide Inv, Step, Allowed, Threaded, TasksShow, ChainsShow, FlagsShow, Buried;
      AddStep(first, taskToDestroy, ticks, mem, sys, t);
      var it := FindLast();
      hide Shows;
      PutBuries(mem, sys.list, it, mem.tasks[it].(next := Some(t)));
      mem := PutTask(mem, it, mem.tasks[it].(next := Some(t)));
      AddBuries(mem, sys.list, t);
      sys := Step(sys, Add(t));
    }

    method Tick()
      requires Valid()
      modifies `ticks, `sys
      ensures Valid() && sys == Step(old(sys), Op.Tick)
    {
      hide Inv, Shows, Step, Buried;
      TickStep(first, taskToDestroy, ticks, mem, sys);
      ticks := ticks + 1;
      sys := Step(sys, Op.Tick);
    }

    method TaskYield()
      requires Valid()
      modifies this
      ensures Valid() && sys == Step(old(sys), Yield)
    {
      hide Core, Shows, Schedule, Buried;
      SchedulerSchedule();
    }

    /** How every primitive blocks: the current task goes in front of the chain of k. */
    method BlockOn(k: Key)
      requires Valid() && MayBlockOn(sys, k) && sys.current != sys.idle && k != OnTask(sys.current)
      modifies this
      ensures Valid() && sys == Schedule(Block(old(sys), k))
    {
      hide Inv, Core, MayBlockOn, Schedule, Shows, Block, Buried;
      BlockStep(first, taskToDestroy, ticks, mem, sys, k);
      var t := current.value;
      EnqueueBuries(mem, sys.list, t, k);
      LiveAfter(mem, t, mem.tasks[t].(state := Blocked, waitNext := Head(mem, k)), k);
      mem := PutTask(mem, t, mem.tasks[t].(state := Blocked, waitNext := Head(mem, k)));
      mem := PutHead(mem, k, current);
      sys := Block(sys, k);
      SchedulerSchedule();
    }

    /** How every primitive wakes the task that queued last, and takes it off its chain. */
    method WakeHead(k: Key)
      requires Live(mem, k) && Head(mem, k) != None && Head(mem, k).value in mem.tasks
      modifies `mem
      ensures mem == Dequeued(old(mem), Head(old(mem), k).value, k)
    {
      var task := Head(mem, k).value;
      mem := PutHead(mem, k, mem.tasks[task].waitNext);
      mem := PutTask(mem, task, mem.tasks[task].(waitNext := None, state := Ready));
    }

    /** How events and exiting tasks wake everyone. */
    method WakeChain(k: Key, ghost w: seq<Task>)
      requires Live(mem, k) && Strung(mem.tasks, Head(mem, k), w) && Distinct(w)
      modifies `mem
      ensures mem == Cleared(old(mem), k, w)
    {
      ghost var mem0, j: nat := mem, 0;
      WokenNone(mem);
      hide Strung, Woken, Distinct;
      var it := Head(mem, k);
      assert it == Nth(w, 0) by { StrungHead(mem.tasks, it, w); }
      while it != None
        invariant j <= |w| && it == Nth(w, j) && mem == Woken(mem0, w[..j])
        decreases |w| - j
      {
        assert WokenBy(mem, it.value, Nth(w, j + 1), Woken(mem0, w[..j + 1])) by {
          WokenStep(mem0, Head(mem0, k), w, j);
        }
        var next := mem.tasks[it.value].waitNext;
        mem := PutTask(mem, it.value, mem.tasks[it.value].(state := Ready, waitNext := None));
        it := next;
        j := j + 1;
      }
      assert w[..j] == w;
      WokenLive(mem0, w, k);
      mem := PutHead(mem, k, None);
    }

    /** task_sleep */
    method TaskSleep(n: nat)
      requires Valid() && Allowed(sys, Sleep(n))
      modifies this
      ensures Valid() && sys == Step(old(sys), Sleep(n))
    {
      hide Inv, Core, Shows, Allowed, Schedule, Doze, Step, Buried;
      StepSleep(sys, n);
      SleepFacts(first, taskToDestroy, ticks, mem, sys, n);
      var t := current.value;
      PutBuries(mem, sys.list, t, mem.tasks[t].(wakeTick := ticks + n, state := Sleeping));
      mem := PutTask(mem, t, mem.tasks[t].(wakeTick := ticks + n, state := Sleeping));
      sys := Doze(sys, n);
      SchedulerSchedule();
    }

    /** task_exit */
    method TaskExit()
      requires Valid() && Allowed(sys, Exit)
      modifies this
      ensures Valid() && sys == Step(old(sys), Exit)
    {
      hide Inv, Core, Shows, Allowed, Schedule, Die, Step, Cleared, Strung, Buried;
      StepExit(sys);
      ExitFacts(sys);
      DieShows(first, taskToDestroy, ticks, mem, sys);
      var t := current.value;
      ClearBuries(mem, sys.list, OnTask(t), sys.chain[OnTask(t)]);
      WakeChain(OnTask(t), sys.chain[OnTask(t)]);
      PutBuries(mem, sys.list, t, mem.tasks[t].(state := Dead));
      mem := PutTask(mem, t, mem.tasks[t].(state := Dead));
      sys := Die(sys);
      SchedulerSchedule();
    }

    /** task_join, of a task that was added to the scheduler at some time. */
    method TaskJoin(t: Task)
      requires Valid() && Allowed(sys, Join(t)) && (t in sys.list || (t in mem.tasks && mem.tasks[t] != NEW_TASK))
      modifies this
      ensures Valid() && sys == Step(old(sys), Join(t))
    {
      ListedKnown(sys, t);
      assert t !in sys.list ==> mem.tasks[t].state == Dead;
      hide Inv, Core, Shows, Allowed, Schedule, Block, Step, MayBlockOn, Buried;
      StepJoin(sys, t);
      if t in sys.state {
        JoinFacts(first, taskToDestroy, ticks, mem, sys, t);
      }
      if mem.tasks[t].state == Dead || Some(t) == current {
        return;
      }
      BlockOn(OnTask(t));
    }

    // -------------------------------------------------------------------------
    // mutex.c

    method MutexTryLock(m: Mutex) returns (ok: bool)
      requires Valid() && Allowed(sys, TryLock(m)) && m in sys.locked
      modifies `mem, `sys
      ensures Valid() && sys == Step(old(sys), TryLock(m)) && ok == !old(sys).locked[m]
    {
      hide Inv, Shows, Allowed, Acquire, Step, Buried;
      StepTryLock(sys, m);
      StepKeeps(sys, TryLock(m));
      FlagReads(first, taskToDestroy, ticks, mem, sys);
      AcquireShows(first, taskToDestroy, ticks, mem, sys, m);
      if mem.mutexes[m].locked {
        return false;
      }
      mem := PutLocked(mem, m, true);
      sys := Acquire(sys, m);
      return true;
    }

    method MutexLock(m: Mutex)
      requires Valid() && Allowed(sys, Lock(m))
      modifies this
      ensures Valid() && sys == Step(old(sys), Lock(m))
    {
      hide Inv, Shows, Allowed, Acquire, Step, Schedule, Block, MayBlockOn, Buried;
      StepLock(sys, m);
      StepKeeps(sys, Lock(m));
      FlagReads(first, taskToDestroy, ticks, mem, sys);
      if !mem.mutexes[m].locked {
        AcquireShows(first, taskToDestroy, ticks, mem, sys, m);
        mem := PutLocked(mem, m, true);
        sys := Acquire(sys, m);
        return;
      }
      MayLock(sys, m);
      BlockOn(OnMutex(m));
    }

    method MutexUnlock(m: Mutex)
      requires Valid() && Allowed(sys, Unlock(m))
      modifies `mem, `sys
      ensures Valid() && sys == Step(old(sys), Unlock(m))
    {
      hide Inv, Core, Shows, Allowed, Step, Release, Chained, Buried;
      StepUnlock(sys, m);
      StepKeeps(sys, Unlock(m));
      ChainReads(first, taskToDestroy, ticks, mem, sys, OnMutex(m));
      if mem.mutexes[m].waiters == None {
        FreeShows(first, taskToDestroy, ticks, mem, sys, m);
        mem := PutLocked(mem, m, false);
      } else {
        HandOverShows(first, taskToDestroy, ticks, mem, sys, m);
        DequeueBuries(mem, sys.list, sys.chain[OnMutex(m)][0], OnMutex(m));
        WakeHead(OnMutex(m));
      }
      sys := Release(sys, m);
    }

    // -------------------------------------------------------------------------
    // semaphore.c

    method SemaphoreTryWait(x: Semaphore) returns (ok: bool)
      requires Valid() && Allowed(sys, TryWait(x)) && x in sys.count
      modifies `mem, `sys
      ensures Valid() && sys == Step(old(sys), TryWait(x)) && ok == (old(sys).count[x] > 0)
    {
      hide Inv, Shows, Allowed, TakePermit, Step, Buried;
      StepTryWait(sys, x);
      StepKeeps(sys, TryWait(x));
      FlagReads(first, taskToDestroy, ticks, mem, sys);
      if mem.semaphores[x].count == 0 {
        return false;
      }
      PermitShows(first, taskToDestroy, ticks, mem, sys, x);
      mem := PutCount(mem, x, mem.semaphores[x].count - 1);
      sys := TakePermit(sys, x);
      return true;
    }

    method SemaphoreWait(x: Semaphore)
      requires Valid() && Allowed(sys, Wait(x))
      modifies this
      ensures Valid() && sys == Step(old(sys), Wait(x))
    {
      hide Inv, Shows, Allowed, TakePermit, Step, Schedule, Block, MayBlockOn, Buried;
      StepWait(sys, x);
      StepKeeps(sys, Wait(x));
      FlagReads(first, taskToDestroy, ticks, mem, sys);
      if mem.semaphores[x].count > 0 {
        PermitShows(first, taskToDestroy, ticks, mem, sys, x);
        mem := PutCount(mem, x, mem.semaphores[x].count - 1);
        sys := TakePermit(sys, x);
        return;
      }
      MayWait(sys, x);
      BlockOn(OnSemaphore(x));
    }

    method SemaphoreSignal(x: Semaphore)
      requires Valid() && Allowed(sys, Signal(x))
      modifies `mem, `sys
      ensures Valid() && sys == Step(old(sys), Signal(x))
    {
      hide Inv, Core, Shows, Allowed, Step, Post, Chained, Buried;
      StepSignal(sys, x);
      StepKeeps(sys, Signal(x));
      ChainReads(first, taskToDestroy, ticks, mem, sys, OnSemaphore(x));
      if mem.semaphores[x].waiters != None {
        PostHandShows(first, taskToDestroy, ticks, mem, sys, x);
        DequeueBuries(mem, sys.list, sys.chain[OnSemaphore(x)][0], OnSemaphore(x));
        WakeHead(OnSemaphore(x));
      } else {
        FlagReads(first, taskToDestroy, ticks, mem, sys);
        PostFreeShows(first, taskToDestroy, ticks, mem, sys, x);
        mem := PutCount(mem, x, mem.semaphores[x].count + 1);
      }
      sys := Post(sys, x);
    }

    // -------------------------------------------------------------------------
    // event.c

    method EventWait(e: Event)
      requires Valid() && Allowed(sys, WaitEvent(e))
      modifies this
      ensures Valid() && sys == Step(old(sys), WaitEvent(e))
    {
      hide Inv, Shows, Allowed, Step, Schedule, Block, MayBlockOn, Buried;
      StepWaitEvent(sys, e);
      FlagReads(first, taskToDestroy, ticks, mem, sys);
      if mem.events[e].signaled {
        return;
      }
      MayWaitEvent(sys, e);
      BlockOn(OnEvent(e));
    }

    method EventSet(e: Event)
      requires Valid() && Allowed(sys, SetEvent(e))
      modifies `mem, `sys
      ensures Valid() && sys == Step(old(sys), SetEvent(e))
    {
      hide Inv, Core, Shows, Allowed, Step, Chained, Cleared, WakeAll, Strung, Buried;
      StepSetEvent(sys, e);
      StepKeeps(sys, SetEvent(e));
      ChainReads(first, taskToDestroy, ticks, mem, sys, OnEvent(e));
      SetShows(first, taskToDestroy, ticks, mem, sys, e);
      mem := PutSignaled(mem, e, true);
      ClearBuries(mem, sys.list, OnEvent(e), sys.chain[OnEvent(e)]);
      WakeChain(OnEvent(e), sys.chain[OnEvent(e)]);
      sys := Step(sys, SetEvent(e));
    }

    method EventReset(e: Event)
      requires Valid() && Allowed(sys, ResetEvent(e))
      modifies `mem, `sys
      ensures Valid() && sys == Step(old(sys), ResetEvent(e))
    {
      hide Inv, Shows, Allowed, Step, Buried;
      StepResetEvent(sys, e);
      StepKeeps(sys, ResetEvent(e));
      SignaledShows(first, taskToDestroy, ticks, mem, sys, e, false, sys.(signaled := sys.signaled[e := false]));
      mem := PutSignaled(mem, e, false);
      sys := Step(sys, ResetEvent(e));
    }
  }
}
