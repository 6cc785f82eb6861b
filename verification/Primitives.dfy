// The scheduler's mutexes and semaphores seen as the values of module Sync:
// what the queue's proof assumes of them is what the kernel's primitives do.
module Primitives {
  import opened Lists
  import opened Words
  import opened Objects
  import opened Sched
  import Sync

  function MutexOf(s: Sys, m: Mutex): Sync.Mutex<Task>
    requires m in s.locked
  {
    Sync.Mutex(s.locked[m], ChainOf(s, OnMutex(m)))
  }

  function SemaphoreOf(s: Sys, x: Semaphore): Sync.Semaphore<Task>
    requires x in s.count
  {
    Sync.Semaphore(s.count[x], ChainOf(s, OnSemaphore(x)))
  }

  /** The scheduler touches no mutex, semaphore or event. */
  ghost predicate SamePrimitives(s: Sys, s': Sys) {
    && s'.locked == s.locked && s'.count == s.count && s'.signaled == s.signaled
    && forall k: Key :: (k.OnMutex? || k.OnSemaphore? || k.OnEvent?) && k in s.chain ==> k in s'.chain && s'.chain[k] == s.chain[k]
  }

  lemma ScheduleSame(s: Sys)
    ensures SamePrimitives(s, Schedule(s))
  {
    ReapSame(s);
    hide Next, Reap;
  }

  lemma ReapSame(s: Sys)
    ensures SamePrimitives(s, Reap(s))
  {
    hide Remove, SamePrimitives;
    match s.doomed
    case None => SameItself(s);
    case Some(t) => RemoveSame(s, t); SameDoomed(s, Remove(s, t));
  }

  lemma SameItself(s: Sys)
    ensures SamePrimitives(s, s)
  {
  }

  lemma SameDoomed(s: Sys, s': Sys)
    requires SamePrimitives(s, s')
    ensures SamePrimitives(s, s'.(doomed := None))
  {
  }

  lemma RemoveSame(s: Sys, t: Task)
    ensures SamePrimitives(s, Remove(s, t))
  {
    hide IndexOf, Without;
    assert Remove(s, t).chain == if t in s.list then s.chain - {OnTask(t)} else s.chain;
  }

  lemma BlockedOn(s: Sys, k: Key)
    requires !k.OnTask?
    ensures ChainOf(Schedule(Block(s, k)), k) == [s.current] + ChainOf(s, k)
    ensures Schedule(Block(s, k)).locked == s.locked && Schedule(Block(s, k)).count == s.count && Schedule(Block(s, k)).signaled == s.signaled
  {
    ScheduleSame(Block(s, k));
    hide Schedule;
    assert k in Block(s, k).chain;
  }

  lemma LockAgrees(s: Sys, m: Mutex)
    requires Allowed(s, Lock(m))
    ensures var s' := Step(s, Lock(m));
            m in s'.locked && (MutexOf(s', m), !Blocks(s, Lock(m))) == Sync.Lock(MutexOf(s, m), s.current)
  {
    hide Schedule, Block, Step, Allowed;
    StepLock(s, m);
    BlockedOn(s, OnMutex(m));
  }

  /** The lock is free again, or in the hands of the task that waited last, now ready. */
  lemma UnlockAgrees(s: Sys, m: Mutex)
    requires Allowed(s, Unlock(m))
    ensures var s', (m', woken) := Step(s, Unlock(m)), Sync.Unlock(MutexOf(s, m));
            && m in s'.locked && MutexOf(s', m) == m'
            && (woken.Some? ==> Woken(s', woken.value) && m in s'.holders && woken.value in s'.holders[m])
  {
    hide Step, Allowed;
    StepUnlock(s, m);
    if ChainOf(s, OnMutex(m)) != [] {
      WokenFrom(s, OnMutex(m));
      hide WakeOne;
    }
  }

  ghost predicate Woken(s: Sys, t: Task) { t in s.state && s.state[t] == Ready }

  lemma WokenFrom(s: Sys, k: Key)
    requires ChainOf(s, k) != []
    ensures ChainOf(WakeOne(s, k), k) == ChainOf(s, k)[1..] && Woken(WakeOne(s, k), ChainOf(s, k)[0])
    ensures WakeOne(s, k).locked == s.locked && WakeOne(s, k).count == s.count && WakeOne(s, k).holders == s.holders
  {
  }

  lemma WaitAgrees(s: Sys, x: Semaphore)
    requires Allowed(s, Wait(x))
    ensures var s' := Step(s, Wait(x));
            x in s'.count && (SemaphoreOf(s', x), !Blocks(s, Wait(x))) == Sync.Wait(SemaphoreOf(s, x), s.current)
  {
    hide Schedule, Block, Step, Allowed;
    StepWait(s, x);
    BlockedOn(s, OnSemaphore(x));
  }

  /** One more permit, or one handed to the task that waited last, now ready. */
  lemma SignalAgrees(s: Sys, x: Semaphore)
    requires Allowed(s, Signal(x))
    ensures var s', (x', woken) := Step(s, Signal(x)), Sync.Signal(SemaphoreOf(s, x));
            && x in s'.count && SemaphoreOf(s', x) == x'
            && (woken.Some? ==> Woken(s', woken.value))
  {
    hide Step, Allowed;
    StepSignal(s, x);
    if ChainOf(s, OnSemaphore(x)) != [] {
      WokenFrom(Posted(s, x), OnSemaphore(x));
      hide WakeOne;
    }
  }
}
