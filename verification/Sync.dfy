// Mutexes and counting semaphores as values. Waiters form a stack: the last
// task to block is the first to be woken, and what it waited for is handed to it.
module Sync {
  import opened Words

  datatype Mutex<T> = Mutex(locked: bool, waiters: seq<T>)
  datatype Semaphore<T> = Semaphore(count: nat, waiters: seq<T>)

  /** True when the caller has the lock; otherwise it is queued and must block. */
  function Lock<T>(m: Mutex<T>, t: T): (Mutex<T>, bool) {
    if m.locked then (m.(waiters := [t] + m.waiters), false) else (m.(locked := true), true)
  }

  /** The task that the lock is handed to, if one was waiting. */
  function Unlock<T>(m: Mutex<T>): (Mutex<T>, Option<T>) {
    if m.waiters == [] then (m.(locked := false), None)
    else (m.(waiters := m.waiters[1..]), Some(m.waiters[0]))
  }

  function Wait<T>(s: Semaphore<T>, t: T): (Semaphore<T>, bool) {
    if s.count > 0 then (s.(count := s.count - 1), true) else (s.(waiters := [t] + s.waiters), false)
  }

  function Signal<T>(s: Semaphore<T>): (Semaphore<T>, Option<T>) {
    if s.waiters == [] then (s.(count := s.count + 1), None)
    else (s.(waiters := s.waiters[1..]), Some(s.waiters[0]))
  }

  /** A free lock is taken; a task that finds it taken is queued in front, and is the next
      that the lock is handed to. Nobody else moves. */
  lemma LockIs<T>(m: Mutex<T>, t: T)
    ensures !m.locked ==> Lock(m, t) == (Mutex(true, m.waiters), true)
    ensures m.locked ==> !Lock(m, t).1 && Lock(m, t).0.locked && Unlock(Lock(m, t).0) == (m, Some(t))
    ensures m.waiters == [] ==> Unlock(m) == (Mutex(false, []), None)
  {
  }

  /** A permit is taken if there is one; a task that finds none is queued in front, and is the
      next that a permit is handed to. */
  lemma WaitIs<T>(s: Semaphore<T>, t: T)
    ensures s.count > 0 ==> Wait(s, t) == (Semaphore(s.count - 1, s.waiters), true)
    ensures s.count == 0 ==> !Wait(s, t).1 && Wait(s, t).0.count == 0 && Signal(Wait(s, t).0) == (s, Some(t))
    ensures s.waiters == [] ==> Signal(s) == (Semaphore(s.count + 1, []), None)
  {
  }
}
