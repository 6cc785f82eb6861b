// The records that the scheduler and the synchronisation primitives link together. A
// record is named by its address; NULL is None.
module Objects {
  import opened Words

  datatype TaskState = Ready | Running | Sleeping | Blocked | Dead

  datatype Task = TaskAt(address: nat)
  datatype Mutex = MutexAt(address: nat)
  datatype Semaphore = SemaphoreAt(address: nat)
  datatype Event = EventAt(address: nat)

  type Link = Option<Task>

  /** A task has one link in the run list, one link in whatever chain it waits on, and the
      head of the chain of tasks that wait for it to exit. */
  datatype TaskFields = TaskFields(state: TaskState, wakeTick: nat, next: Link, waiters: Link, waitNext: Link)
  datatype MutexFields = MutexFields(locked: bool, waiters: Link)
  datatype SemaphoreFields = SemaphoreFields(count: nat, waiters: Link)
  datatype EventFields = EventFields(signaled: bool, waiters: Link)
}
