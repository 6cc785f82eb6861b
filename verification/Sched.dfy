// Scheduler, tasks and blocking primitives as one transition system: every primitive and
// every call of the scheduler is one atomic step of the current task.
module Sched {
  import opened Lists
  import opened Words
  import opened Objects

  /** What a task can wait on. */
  datatype Key = OnMutex(m: Mutex) | OnSemaphore(x: Semaphore) | OnEvent(e: Event) | OnTask(t: Task)

  /** initial + signals, against permits handed to tasks. */
  datatype Ledger = Ledger(initial: nat, signals: nat, grants: nat)

  /** The run list from `first`, the static variables of the scheduler, the fields of the
      records, and four things the code does not store: what each blocked task waits on,
      who holds each mutex, the ledger of each semaphore, and which task is kmain. */
  datatype Sys = Sys(
    list: seq<Task>, current: Task, doomed: Option<Task>, ticks: nat,
    state: map<Task, TaskState>, wake: map<Task, nat>,
    chain: map<Key, seq<Task>>,
    locked: map<Mutex, bool>, count: map<Semaphore, nat>, signaled: map<Event, bool>,
    waitsOn: map<Task, Key>, holders: map<Mutex, set<Task>>, ledger: map<Semaphore, Ledger>, idle: Task)

  // ---------------------------------------------------------------------------
  // The run list

  function Succ(i: nat, n: nat): nat { if i + 1 >= n then 0 else i + 1 }

  /** Steps from i forward to k around a ring of n, between 1 and n. */
  function Gap(i: nat, k: nat, n: nat): int { if k > i then k - i else k - i + n }

  /** scheduler_next: forward from i to the first ready task, or to the starting point. */
  function Pick(list: seq<Task>, state: map<Task, TaskState>, start: nat, i: nat): (r: nat)
    requires start < |list| && i < |list|
    ensures r < |list|
    decreases Gap(i, start, |list|)
  {
    var j := Succ(i, |list|);
    if (list[j] in state && state[list[j]] == Ready) || j == start then j else Pick(list, state, start, j)
  }

  // ---------------------------------------------------------------------------
  // Scheduling

  function Remove(s: Sys, t: Task): Sys {
    if t !in s.list then s
    else
      var list := Without(s.list, t);
      var i := IndexOf(s.list, t);
      s.(list := list,
         current := if s.current == t && list != [] then (if i < |list| then list[i] else list[0]) else s.current,
         state := s.state - {t}, wake := s.wake - {t}, chain := s.chain - {OnTask(t)})
  }

  function Reap(s: Sys): Sys {
    match s.doomed case None => s case Some(t) => Remove(s, t).(doomed := None)
  }

  /** scheduler_update: sleepers whose time has come are ready. */
  function Update(s: Sys): Sys {
    s.(state := map t | t in s.state ::
         if s.state[t] == Sleeping && t in s.wake && s.wake[t] <= s.ticks then Ready else s.state[t])
  }

  function Next(s: Sys): Task {
    if s.current in s.list then
      var i := IndexOf(s.list, s.current);
      s.list[Pick(s.list, s.state, i, i)]
    else s.current
  }

  function SwitchTo(s: Sys, new_: Task): Sys {
    var old_ := s.current;
    if new_ == old_ || old_ !in s.state then s
    else
      var st := s.state[old_];
      s.(current := new_,
         state := s.state[old_ := if st == Running then Ready else st][new_ := Running],
         doomed := if st == Dead && s.doomed.None? then Some(old_) else s.doomed)
  }

  function Schedule(s: Sys): Sys {
    var s1 := Update(Reap(s));
    SwitchTo(s1, Next(s1))
  }

  // ---------------------------------------------------------------------------
  // Blocking and waking

  function ChainOf(s: Sys, k: Key): seq<Task> {
    if k in s.chain then s.chain[k] else []
  }

  function Block(s: Sys, k: Key): Sys {
    s.(state := s.state[s.current := Blocked],
       chain := s.chain[k := [s.current] + ChainOf(s, k)],
       waitsOn := s.waitsOn[s.current := k])
  }

  function WakeOne(s: Sys, k: Key): Sys
    requires ChainOf(s, k) != []
  {
    var u := ChainOf(s, k)[0];
    s.(state := s.state[u := Ready], chain := s.chain[k := ChainOf(s, k)[1..]], waitsOn := s.waitsOn - {u})
  }

  function WakeAll(s: Sys, k: Key): Sys {
    var w := ChainOf(s, k);
    s.(state := map t | t in s.state :: if t in w then Ready else s.state[t],
       chain := s.chain[k := []],
       waitsOn := map t | t in s.waitsOn && t !in w :: s.waitsOn[t])
  }

  // ---------------------------------------------------------------------------
  // Steps of the current task

  datatype Op =
    | Tick
    | Yield
    | Add(task: Task)
    | Lock(m: Mutex) | TryLock(m: Mutex) | Unlock(m: Mutex)
    | Wait(x: Semaphore) | TryWait(x: Semaphore) | Signal(x: Semaphore)
    | WaitEvent(e: Event) | SetEvent(e: Event) | ResetEvent(e: Event)
    | Sleep(ticks: nat) | Exit | Join(t: Task)

  /** Whether the step takes the current task off the processor. */
  predicate Blocks(s: Sys, op: Op) {
    match op
    case Lock(m) => m in s.locked && s.locked[m]
    case Wait(x) => x in s.count && s.count[x] == 0
    case WaitEvent(e) => e in s.signaled && !s.signaled[e]
    case Sleep(_) => true
    case Exit => true
    case Join(t) => t in s.state && s.state[t] != Dead && t != s.current
    case _ => false
  }

  /** Unlocking is for a holder; it does no harm to a free mutex, or when the holder is
      itself the next one waiting for the mutex. */
  predicate MayUnlock(s: Sys, m: Mutex)
    requires m in s.locked && m in s.holders
  {
    || !s.locked[m] || s.current in s.holders[m]
    || (ChainOf(s, OnMutex(m)) != [] && ChainOf(s, OnMutex(m))[0] in s.holders[m])
  }

  /** Callers use live records, the idle task never blocks, and nobody else unlocks. A
      task that was reaped may still be joined: its record stays, and stays dead. */
  predicate Allowed(s: Sys, op: Op) {
    && (Blocks(s, op) ==> s.current != s.idle)
    && match op
       case Add(t) => t !in s.state && t !in s.list && OnTask(t) !in s.chain
       case Lock(m) => m in s.locked && m in s.holders
       case TryLock(m) => m in s.locked && m in s.holders
       case Unlock(m) => m in s.locked && m in s.holders && MayUnlock(s, m)
       case Wait(x) => x in s.count && x in s.ledger
       case TryWait(x) => x in s.count && x in s.ledger
       case Signal(x) => x in s.count && x in s.ledger
       case WaitEvent(e) => e in s.signaled
       case SetEvent(e) => e in s.signaled
       case ResetEvent(e) => e in s.signaled
       case _ => true
  }

  function Acquire(s: Sys, m: Mutex): Sys
    requires m in s.locked && m in s.holders
  {
    s.(locked := s.locked[m := true], holders := s.holders[m := s.holders[m] + {s.current}])
  }

  function Grant(s: Sys, x: Semaphore): Sys
    requires x in s.ledger
  {
    s.(ledger := s.ledger[x := s.ledger[x].(grants := s.ledger[x].grants + 1)])
  }

  function Release(s: Sys, m: Mutex): Sys
    requires m in s.locked && m in s.holders
  {
    var rest := s.holders[m] - {s.current};
    if ChainOf(s, OnMutex(m)) == [] then s.(locked := s.locked[m := false], holders := s.holders[m := rest])
    else WakeOne(s, OnMutex(m)).(holders := s.holders[m := rest + {ChainOf(s, OnMutex(m))[0]}])
  }

  function Posted(s: Sys, x: Semaphore): Sys
    requires x in s.ledger
  {
    s.(ledger := s.ledger[x := s.ledger[x].(signals := s.ledger[x].signals + 1)])
  }

  function Post(s: Sys, x: Semaphore): Sys
    requires x in s.count && x in s.ledger
  {
    var s1 := Posted(s, x);
    if ChainOf(s, OnSemaphore(x)) == [] then s1.(count := s.count[x := s.count[x] + 1])
    else Grant(WakeOne(s1, OnSemaphore(x)), x)
  }

  function Doze(s: Sys, n: nat): Sys {
    s.(wake := s.wake[s.current := s.ticks + n], state := s.state[s.current := Sleeping])
  }

  function Die(s: Sys): Sys {
    var s1 := WakeAll(s, OnTask(s.current));
    s1.(state := s1.state[s.current := Dead])
  }

  function Added(s: Sys, t: Task): Sys {
    s.(list := s.list + [t], state := s.state[t := Ready], wake := s.wake[t := 0], chain := s.chain[OnTask(t) := []])
  }

  function Step(s: Sys, op: Op): Sys
    requires Allowed(s, op)
  {
    match op
    case Tick => s.(ticks := s.ticks + 1)
    case Yield => Schedule(s)
    case Add(t) => Added(s, t)
    case Lock(m) => if s.locked[m] then Schedule(Block(s, OnMutex(m))) else Acquire(s, m)
    case TryLock(m) => if s.locked[m] then s else Acquire(s, m)
    case Unlock(m) => Release(s, m)
    case Wait(x) =>
      if s.count[x] > 0 then Grant(s.(count := s.count[x := s.count[x] - 1]), x) else Schedule(Block(s, OnSemaphore(x)))
    case TryWait(x) =>
      if s.count[x] > 0 then Grant(s.(count := s.count[x := s.count[x] - 1]), x) else s
    case Signal(x) => Post(s, x)
    case WaitEvent(e) => if s.signaled[e] then s else Schedule(Block(s, OnEvent(e)))
    case SetEvent(e) => WakeAll(s.(signaled := s.signaled[e := true]), OnEvent(e))
    case ResetEvent(e) => s.(signaled := s.signaled[e := false])
    case Sleep(n) => Schedule(Doze(s, n))
    case Exit => Schedule(Die(s))
    case Join(t) =>
      if t !in s.state || s.state[t] == Dead || t == s.current then s else Schedule(Block(s, OnTask(t)))
  }

  // ---------------------------------------------------------------------------
  // Each step by name

  lemma StepLock(s: Sys, m: Mutex)
    requires Allowed(s, Lock(m))
    ensures m in s.locked && m in s.holders
    ensures Step(s, Lock(m)) == if s.locked[m] then Schedule(Block(s, OnMutex(m))) else Acquire(s, m)
    ensures s.locked[m] ==> s.current != s.idle
  {
    hide Schedule, Block, Acquire;
  }

  lemma StepTryLock(s: Sys, m: Mutex)
    requires Allowed(s, TryLock(m))
    ensures m in s.locked && m in s.holders && Step(s, TryLock(m)) == if s.locked[m] then s else Acquire(s, m)
  {
    hide Acquire;
  }

  lemma StepUnlock(s: Sys, m: Mutex)
    requires Allowed(s, Unlock(m))
    ensures m in s.locked && m in s.holders && Step(s, Unlock(m)) == Release(s, m)
  {
    hide Release;
  }

  function TakePermit(s: Sys, x: Semaphore): Sys
    requires x in s.count && s.count[x] > 0 && x in s.ledger
  {
    Grant(s.(count := s.count[x := s.count[x] - 1]), x)
  }

  lemma StepWait(s: Sys, x: Semaphore)
    requires Allowed(s, Wait(x))
    ensures x in s.count && x in s.ledger
    ensures Step(s, Wait(x)) == if s.count[x] > 0 then TakePermit(s, x) else Schedule(Block(s, OnSemaphore(x)))
    ensures s.count[x] == 0 ==> s.current != s.idle
  {
    hide Schedule, Block, Grant;
  }

  lemma StepTryWait(s: Sys, x: Semaphore)
    requires Allowed(s, TryWait(x))
    ensures x in s.count && x in s.ledger && Step(s, TryWait(x)) == if s.count[x] > 0 then TakePermit(s, x) else s
  {
    hide Grant;
  }

  lemma StepSignal(s: Sys, x: Semaphore)
    requires Allowed(s, Signal(x))
    ensures x in s.count && x in s.ledger && Step(s, Signal(x)) == Post(s, x)
  {
    hide Post;
  }

  lemma StepWaitEvent(s: Sys, e: Event)
    requires Allowed(s, WaitEvent(e))
    ensures e in s.signaled
    ensures Step(s, WaitEvent(e)) == if s.signaled[e] then s else Schedule(Block(s, OnEvent(e)))
    ensures !s.signaled[e] ==> s.current != s.idle
  {
    hide Schedule, Block;
  }

  lemma StepSetEvent(s: Sys, e: Event)
    requires Allowed(s, SetEvent(e))
    ensures e in s.signaled && Step(s, SetEvent(e)) == WakeAll(s.(signaled := s.signaled[e := true]), OnEvent(e))
    ensures Step(s, SetEvent(e)).current == s.current
  {
  }

  lemma StepResetEvent(s: Sys, e: Event)
    requires Allowed(s, ResetEvent(e))
    ensures e in s.signaled && Step(s, ResetEvent(e)) == s.(signaled := s.signaled[e := false])
  {
  }

  lemma StepExit(s: Sys)
    requires Allowed(s, Exit)
    ensures s.current != s.idle && Step(s, Exit) == Schedule(Die(s))
  {
    hide Schedule, Die;
  }

  lemma StepJoin(s: Sys, t: Task)
    requires Allowed(s, Join(t))
    ensures Step(s, Join(t)) == if t !in s.state || s.state[t] == Dead || t == s.current then s else Schedule(Block(s, OnTask(t)))
    ensures t in s.state && s.state[t] != Dead && t != s.current ==> s.current != s.idle
  {
    hide Schedule, Block;
  }

  lemma StepSleep(s: Sys, n: nat)
    requires Allowed(s, Sleep(n))
    ensures s.current != s.idle && Step(s, Sleep(n)) == Schedule(Doze(s, n))
  {
    hide Schedule, Doze;
  }

  // ---------------------------------------------------------------------------
  // Invariant

  ghost predicate Listed(s: Sys) {
    && Distinct(s.list)
    && s.current in s.list && s.idle in s.list
    && (forall t :: t in s.list ==> t in s.state && t in s.wake && OnTask(t) in s.chain)
    && (forall t :: t in s.state ==> t in s.list)
    && (forall t :: t in s.wake ==> t in s.list)
    && (forall k :: k in s.chain && k.OnTask? ==> k.t in s.list)
    && (s.doomed.Some? ==> s.doomed.value in s.list && s.doomed.value != s.current)
  }

  /** Apart from the current task: nobody runs, the idle task is ready, and the only dead
      task is the one waiting to be reaped. */
  ghost predicate Quiet(s: Sys) {
    && (forall t :: t in s.state && t != s.current ==>
          && s.state[t] != Running
          && (t == s.idle ==> s.state[t] == Ready)
          && (s.state[t] == Dead <==> s.doomed == Some(t)))
    && s.current in s.state
    && (s.current == s.idle ==> s.state[s.current] == Running)
  }

  /** Every chain is free of repetitions, and a task is on a chain exactly when it waits
      on that chain's owner: so the chains are disjoint. */
  ghost predicate Chained(chain: map<Key, seq<Task>>, waitsOn: map<Task, Key>) {
    && (forall k :: k in chain ==> Distinct(chain[k]))
    && (forall k, t :: k in chain && t in chain[k] ==> t in waitsOn && waitsOn[t] == k)
    && (forall t :: t in waitsOn ==> waitsOn[t] in chain && t in chain[waitsOn[t]])
  }

  ghost predicate Waiters(waitsOn: map<Task, Key>, state: map<Task, TaskState>) {
    && (forall t :: t in waitsOn ==> t in state && state[t] == Blocked)
    && (forall t :: t in state && state[t] == Blocked ==> t in waitsOn)
  }

  ghost predicate DeadAlone(chain: map<Key, seq<Task>>, state: map<Task, TaskState>) {
    forall t :: t in state && state[t] == Dead && OnTask(t) in chain ==> chain[OnTask(t)] == []
  }

  ghost predicate MutexesOk(chain: map<Key, seq<Task>>, locked: map<Mutex, bool>, holders: map<Mutex, set<Task>>) {
    forall m :: m in locked ==>
      && OnMutex(m) in chain && m in holders
      && (chain[OnMutex(m)] != [] ==> locked[m])
      && |holders[m]| == (if locked[m] then 1 else 0)
  }

  ghost predicate SemaphoresOk(chain: map<Key, seq<Task>>, count: map<Semaphore, nat>, ledger: map<Semaphore, Ledger>) {
    forall x :: x in count ==>
      && OnSemaphore(x) in chain && x in ledger
      && (chain[OnSemaphore(x)] != [] ==> count[x] == 0)
      && ledger[x].initial + ledger[x].signals == count[x] + ledger[x].grants
  }

  ghost predicate EventsOk(chain: map<Key, seq<Task>>, signaled: map<Event, bool>) {
    forall e :: e in signaled ==> OnEvent(e) in chain && (signaled[e] ==> chain[OnEvent(e)] == [])
  }

  ghost predicate Guarded(s: Sys) {
    MutexesOk(s.chain, s.locked, s.holders) && SemaphoresOk(s.chain, s.count, s.ledger) && EventsOk(s.chain, s.signaled)
  }

  /** The chains hold exactly the blocked tasks. */
  ghost predicate Waiting(s: Sys) {
    Chained(s.chain, s.waitsOn) && Waiters(s.waitsOn, s.state) && DeadAlone(s.chain, s.state)
  }

  /** What holds while a primitive is about to call the scheduler. */
  ghost predicate Core(s: Sys) {
    Listed(s) && Quiet(s) && Waiting(s) && Guarded(s)
  }

  ghost predicate Inv(s: Sys) {
    Core(s) && s.state[s.current] == Running
  }

  // ---------------------------------------------------------------------------
  // The run list

  /** Where the search for the next task stops: at the first ready task met on the way
      round, or back where it began. */
  lemma {:induction false} PickFirstReady(list: seq<Task>, state: map<Task, TaskState>, start: nat, i: nat)
    requires start < |list| && i < |list| && forall t :: t in list ==> t in state
    ensures var r := Pick(list, state, start, i);
            && (r == start || state[list[r]] == Ready)
            && Gap(i, r, |list|) <= Gap(i, start, |list|)
            && forall k :: 0 <= k < |list| && Gap(i, k, |list|) < Gap(i, r, |list|) ==> state[list[k]] != Ready
    decreases Gap(i, start, |list|)
  {
    var n := |list|;
    var j := Succ(i, n);
    assert forall k :: 0 <= k < n && k != j ==> Gap(j, k, n) == Gap(i, k, n) - 1;
    if state[list[j]] != Ready && j != start {
      PickFirstReady(list, state, start, j);
    }
  }

  // ---------------------------------------------------------------------------
  // The wait chains

  lemma ChainPush(chain: map<Key, seq<Task>>, waitsOn: map<Task, Key>, k: Key, t: Task)
    requires Chained(chain, waitsOn) && k in chain && t !in waitsOn
    ensures Chained(chain[k := [t] + chain[k]], waitsOn[t := k])
  {
    assert t !in chain[k];
    assert Distinct([t] + chain[k]);
    hide Distinct;
  }

  lemma TailKeeps(w: seq<Task>)
    requires w != [] && Distinct(w)
    ensures Distinct(w[1..]) && w[0] !in w[1..]
    ensures forall t :: t in w && t != w[0] ==> t in w[1..]
    ensures forall t :: t in w[1..] ==> t in w
  {
    forall t | t in w && t != w[0] ensures t in w[1..] {
      var i :| 0 <= i < |w| && w[i] == t;
      assert w[1..][i - 1] == t;
    }
  }

  lemma ChainPop(chain: map<Key, seq<Task>>, waitsOn: map<Task, Key>, k: Key)
    requires Chained(chain, waitsOn) && k in chain && chain[k] != []
    ensures chain[k][0] in waitsOn && waitsOn[chain[k][0]] == k
    ensures Chained(chain[k := chain[k][1..]], waitsOn - {chain[k][0]})
  {
    TailKeeps(chain[k]);
    hide Distinct;
    var u := chain[k][0];
    assert u in chain[k];
    var waits := waitsOn - {u};
    forall t | t in waits ensures waits[t] in chain && t in chain[k := chain[k][1..]][waits[t]] {
      assert t in chain[waitsOn[t]];
    }
  }

  lemma ChainClear(chain: map<Key, seq<Task>>, waitsOn: map<Task, Key>, k: Key)
    requires Chained(chain, waitsOn) && k in chain
    ensures Chained(chain[k := []], map t | t in waitsOn && t !in chain[k] :: waitsOn[t])
  {
    var chain': map<Key, seq<Task>> := chain[k := []];
    var waits := map t | t in waitsOn && t !in chain[k] :: waitsOn[t];
    forall j | j in chain' ensures Distinct(chain'[j]) {
      assert j != k ==> chain'[j] == chain[j];
    }
    hide Distinct;
    forall j, t | j in chain' && t in chain'[j] ensures t in waits && waits[t] == j {
      assert t in chain[j] && waitsOn[t] == j;
      assert t !in chain[k];
    }
    forall t | t in waits ensures waits[t] in chain' && t in chain'[waits[t]] {
      assert t in chain[waitsOn[t]];
    }
  }

  lemma ChainDrop(chain: map<Key, seq<Task>>, waitsOn: map<Task, Key>, k: Key)
    requires Chained(chain, waitsOn) && (k in chain ==> chain[k] == [])
    ensures Chained(chain - {k}, waitsOn)
  {
    hide Distinct;
  }

  lemma WaitersSame(waitsOn: map<Task, Key>, state: map<Task, TaskState>, state': map<Task, TaskState>)
    requires Waiters(waitsOn, state)
    requires forall t :: t in state && state[t] == Blocked ==> t in state' && state'[t] == Blocked
    requires forall t :: t in state' && state'[t] == Blocked ==> t in state && state[t] == Blocked
    ensures Waiters(waitsOn, state')
  {
  }

  lemma WaitersPush(waitsOn: map<Task, Key>, state: map<Task, TaskState>, k: Key, t: Task)
    requires Waiters(waitsOn, state)
    ensures Waiters(waitsOn[t := k], state[t := Blocked])
  {
  }

  lemma WaitersPop(waitsOn: map<Task, Key>, state: map<Task, TaskState>, t: Task)
    requires Waiters(waitsOn, state)
    ensures Waiters(waitsOn - {t}, state[t := Ready])
  {
  }

  lemma DeadSame(chain: map<Key, seq<Task>>, state: map<Task, TaskState>, chain': map<Key, seq<Task>>, state': map<Task, TaskState>)
    requires DeadAlone(chain, state)
    requires forall t :: t in state' && state'[t] == Dead ==> t in state && state[t] == Dead
    requires forall k :: k in chain' && k.OnTask? && k.t in state' && state'[k.t] == Dead ==>
               chain'[k] == [] || (k in chain && chain'[k] == chain[k])
    ensures DeadAlone(chain', state')
  {
    forall t | t in state' && state'[t] == Dead && OnTask(t) in chain' ensures chain'[OnTask(t)] == [] {
      assert OnTask(t).OnTask? && OnTask(t).t == t;
    }
  }

  /** Shrinking chains keeps what the records promise about them. */
  lemma GuardedShrinks(s: Sys, chain: map<Key, seq<Task>>)
    requires Guarded(s)
    requires forall k :: k in s.chain && !k.OnTask? ==> k in chain && (s.chain[k] == [] ==> chain[k] == [])
    ensures Guarded(s.(chain := chain))
  {
    forall m | m in s.locked ensures OnMutex(m) in s.chain && (s.chain[OnMutex(m)] == [] ==> chain[OnMutex(m)] == []) {
      assert !OnMutex(m).OnTask?;
    }
    forall x | x in s.count ensures OnSemaphore(x) in s.chain && (s.chain[OnSemaphore(x)] == [] ==> chain[OnSemaphore(x)] == []) {
      assert !OnSemaphore(x).OnTask?;
    }
    forall e | e in s.signaled ensures OnEvent(e) in s.chain && (s.chain[OnEvent(e)] == [] ==> chain[OnEvent(e)] == []) {
      assert !OnEvent(e).OnTask?;
    }
  }

  // ---------------------------------------------------------------------------
  // What one call of the scheduler keeps

  lemma ReapKeeps(s: Sys)
    requires Core(s)
    ensures Core(Reap(s)) && Reap(s).doomed.None? && Reap(s).current == s.current
    ensures Reap(s).list == if s.doomed.Some? then Without(s.list, s.doomed.value) else s.list
  {
    hide Listed, Quiet, Waiting, Guarded, Without, IndexOf;
    if s.doomed.Some? {
      assert s.doomed.value in s.list && s.doomed.value != s.current by { ListedDoomed(s); }
      ReapLists(s);
      ReapWaits(s);
    }
  }

  lemma ListedDoomed(s: Sys)
    requires Listed(s) && s.doomed.Some?
    ensures s.doomed.value in s.list && s.doomed.value != s.current
  {
  }

  lemma ReapTask(s: Sys, t: Task)
    requires Core(s) && t in s.state
    ensures t in s.wake
    ensures s.state[t] != Dead ==>
              t in Reap(s).state && Reap(s).state[t] == s.state[t] && t in Reap(s).wake && Reap(s).wake[t] == s.wake[t]
    ensures t in Reap(s).state ==> Reap(s).state[t] == s.state[t] && t in Reap(s).wake
    ensures Reap(s).ticks == s.ticks
  {
    hide Listed, Quiet, Waiting, Guarded, Reap;
    TaskWakes(s, t);
    ReapTicks(s);
    if s.doomed.Some? {
      DoomedIsOther(s, s.doomed.value);
      RemoveFields(s);
    } else {
      assert Reap(s) == s by { ReapNothing(s); }
    }
  }

  lemma ReapNothing(s: Sys)
    requires s.doomed.None?
    ensures Reap(s) == s
  {
  }

  lemma ReapTicks(s: Sys)
    ensures Reap(s).ticks == s.ticks
  {
    hide Without, IndexOf;
  }

  lemma TaskWakes(s: Sys, t: Task)
    requires Listed(s) && t in s.state
    ensures t in s.wake
  {
    hide Distinct;
  }

  lemma ReapWaits(s: Sys)
    requires Core(s) && s.doomed.Some?
    ensures Waiting(Reap(s)) && Guarded(Reap(s))
  {
    var t, s' := s.doomed.value, Reap(s);
    DoomedIsOther(s, t);
    RemoveFields(s);
    RemoveWaits(s, s', t);
    hide Listed, Quiet, Waiting, Guarded, Reap;
    RemoveGuards(s, s', t);
  }

  lemma RemoveWaits(s: Sys, s': Sys, t: Task)
    requires Waiting(s) && t in s.state && s.state[t] == Dead && Removed(s, s', t) && OnTask(t) in s.chain
    requires s'.waitsOn == s.waitsOn
    ensures Waiting(s')
  {
    ChainDrop(s.chain, s.waitsOn, OnTask(t));
    hide Distinct, Chained, Without, Waiters, DeadAlone;
    WaitersSame(s.waitsOn, s.state, s'.state);
    DeadSame(s.chain, s.state, s'.chain, s'.state);
  }

  lemma RemoveGuards(s: Sys, s': Sys, t: Task)
    requires Guarded(s) && s'.chain == s.chain - {OnTask(t)} && s'.locked == s.locked && s'.holders == s.holders
    requires s'.count == s.count && s'.ledger == s.ledger && s'.signaled == s.signaled
    ensures Guarded(s')
  {
    hide MutexesOk, SemaphoresOk, EventsOk;
    GuardedShrinks(s, s'.chain);
    GuardedSame(s.(chain := s'.chain), s');
  }

  lemma ReapLists(s: Sys)
    requires Core(s) && s.doomed.Some?
    ensures Listed(Reap(s)) && Quiet(Reap(s))
  {
    hide Without, Distinct, Waiting, Guarded, IndexOf, Quiet, Reap, Removed;
    DoomedIsOther(s, s.doomed.value);
    hide Listed;
    RemoveFields(s);
    RemoveListed(s, Reap(s), s.doomed.value);
    RemoveQuiet(s, Reap(s), s.doomed.value);
  }

  ghost predicate Removed(s: Sys, s': Sys, t: Task) {
    && s'.list == Without(s.list, t) && s'.current == s.current && s'.doomed == None && s'.idle == s.idle
    && s'.state == s.state - {t} && s'.wake == s.wake - {t} && s'.chain == s.chain - {OnTask(t)} && s'.waitsOn == s.waitsOn
    && s'.locked == s.locked && s'.holders == s.holders && s'.count == s.count && s'.ledger == s.ledger && s'.signaled == s.signaled
  }

  lemma RemoveFields(s: Sys)
    requires Listed(s) && s.doomed.Some?
    ensures Removed(s, Reap(s), s.doomed.value)
  {
    hide Without, Distinct, IndexOf;
  }

  lemma RemoveListed(s: Sys, s': Sys, t: Task)
    requires Listed(s) && t != s.idle && t != s.current && Removed(s, s', t)
    ensures Listed(s')
  {
    hide Without, Distinct;
    ListWithout(s.list, s'.list, t);
    forall u | u in s'.list ensures u in s'.state && u in s'.wake && OnTask(u) in s'.chain {
    }
    forall u | u in s'.state ensures u in s'.list {
    }
    forall u | u in s'.wake ensures u in s'.list {
    }
    forall k | k in s'.chain && k.OnTask? ensures k.t in s'.list {
    }
  }

  lemma ListWithout(list: seq<Task>, list': seq<Task>, t: Task)
    requires Distinct(list) && list' == Without(list, t)
    ensures Distinct(list') && forall u :: u in list' <==> u in list && u != t
  {
    WithoutKeeps(list, t);
    hide Without, Distinct;
  }

  lemma DoomedIsOther(s: Sys, t: Task)
    requires Listed(s) && Quiet(s) && s.doomed == Some(t)
    ensures t != s.idle && t != s.current && t in s.state && s.state[t] == Dead
  {
    hide Distinct;
  }

  lemma RemoveQuiet(s: Sys, s': Sys, t: Task)
    requires Quiet(s) && s.doomed == Some(t) && t != s.current && Removed(s, s', t)
    ensures Quiet(s')
  {
    hide Without;
  }

  lemma UpdateKeeps(s: Sys)
    requires Core(s)
    ensures Core(Update(s)) && (s.state[s.current] == Running ==> Update(s).state[s.current] == Running)
  {
    hide Listed, Quiet, Waiting, Guarded;
    UpdateLists(s);
    UpdateWaits(s);
    GuardedSame(s, Update(s));
    CurrentListed(s);
  }

  lemma CurrentListed(s: Sys)
    requires Quiet(s)
    ensures s.current in s.state
  {
  }

  lemma UpdateWaits(s: Sys)
    requires Waiting(s)
    ensures Waiting(Update(s))
  {
    hide Chained;
  }

  lemma UpdateTask(s: Sys, t: Task)
    requires t in s.state && t in s.wake
    ensures var s' := Update(s);
            && t in s'.state && s'.wake == s.wake && s'.ticks == s.ticks
            && s'.state[t] == (if s.state[t] == Sleeping && s.wake[t] <= s.ticks then Ready else s.state[t])
  {
  }

  lemma SwitchFields(s: Sys, n: Task)
    requires s.current in s.state
    ensures SwitchTo(s, n).current == n && SwitchTo(s, n).wake == s.wake
    ensures SwitchTo(s, n).ticks == s.ticks && SwitchTo(s, n).list == s.list
  {
  }

  lemma SwitchTask(s: Sys, n: Task, t: Task)
    requires t in s.state && s.current in s.state
    ensures t in SwitchTo(s, n).state
    ensures t != n ==> SwitchTo(s, n).state[t] == if t == s.current && s.state[t] == Running then Ready else s.state[t]
  {
    if n != s.current {
      var st := s.state[s.current];
      var state := s.state[s.current := if st == Running then Ready else st][n := Running];
      assert SwitchTo(s, n).state == state;
    }
  }

  lemma UpdateLists(s: Sys)
    requires Listed(s) && Quiet(s)
    ensures Listed(Update(s)) && Quiet(Update(s))
  {
    hide Distinct;
  }

  lemma GuardedSame(s: Sys, s': Sys)
    requires Guarded(s) && s'.chain == s.chain && s'.locked == s.locked && s'.holders == s.holders
    requires s'.count == s.count && s'.ledger == s.ledger && s'.signaled == s.signaled
    ensures Guarded(s')
  {
  }

  /** The scheduler stays with the current task only if that task runs and nobody is ready. */
  lemma NextIsReady(s: Sys)
    requires Listed(s) && Quiet(s)
    ensures Next(s) in s.list
    ensures if Next(s) == s.current then s.state[s.current] == Running else s.state[Next(s)] == Ready
  {
    var i := IndexOf(s.list, s.current);
    PickFirstReady(s.list, s.state, i, i);
    var r := Pick(s.list, s.state, i, i);
    if s.list[r] == s.current {
      IndexUnique(s.list, s.current, r);
      if s.current != s.idle {
        var k := IndexOf(s.list, s.idle);
        assert false;
      }
    }
  }

  lemma SwitchKeeps(s: Sys)
    requires Core(s) && s.doomed.None?
    ensures Inv(SwitchTo(s, Next(s)))
  {
    hide Next, SwitchTo, Waiting, Guarded, Quiet, Distinct;
    NextIsReady(s);
    SwitchLists(s, Next(s));
    SwitchWaits(s, Next(s));
  }

  lemma SwitchWaits(s: Sys, t: Task)
    requires Waiting(s) && Guarded(s) && t in s.state && s.current in s.state
    requires if t == s.current then s.state[t] == Running else s.state[t] == Ready
    ensures Waiting(SwitchTo(s, t)) && Guarded(SwitchTo(s, t))
  {
    var s' := SwitchTo(s, t);
    SwitchStates(s, t);
    hide Chained, Guarded, Waiters, DeadAlone, SwitchTo;
    WaitersSame(s.waitsOn, s.state, s'.state);
    DeadSame(s.chain, s.state, s'.chain, s'.state);
    GuardedSame(s, s');
  }

  lemma SwitchStates(s: Sys, t: Task)
    requires t in s.state && s.current in s.state
    requires if t == s.current then s.state[t] == Running else s.state[t] == Ready
    ensures var s' := SwitchTo(s, t);
            && (forall u :: u in s.state && s.state[u] == Blocked ==> u in s'.state && s'.state[u] == Blocked)
            && (forall u :: u in s'.state && s'.state[u] == Blocked ==> u in s.state && s.state[u] == Blocked)
            && (forall u :: u in s'.state && s'.state[u] == Dead ==> u in s.state && s.state[u] == Dead)
            && s'.chain == s.chain && s'.waitsOn == s.waitsOn && s'.locked == s.locked && s'.holders == s.holders
            && s'.count == s.count && s'.ledger == s.ledger && s'.signaled == s.signaled
  {
  }

  lemma SwitchLists(s: Sys, t: Task)
    requires Listed(s) && Quiet(s) && s.doomed.None? && t in s.list
    requires if t == s.current then s.state[t] == Running else s.state[t] == Ready
    ensures var s' := SwitchTo(s, t); Listed(s') && Quiet(s') && s'.state[s'.current] == Running && s'.current == t
  {
    hide Distinct;
  }

  /** One call of the scheduler leaves exactly the new current task running; a task that
      gave up the processor does not keep it. */
  lemma ScheduleKeeps(s: Sys)
    requires Core(s)
    ensures Inv(Schedule(s))
    ensures s.state[s.current] != Running ==> Schedule(s).current != s.current
  {
    var s1, s2 := Reap(s), Update(Reap(s));
    ReapKeeps(s);
    UpdateKeeps(s1);
    NextIsReady(s2);
    SwitchKeeps(s2);
    CurrentKnown(s);
    CurrentKnown(s1);
    hide Core, Listed, Quiet, Waiting, Guarded, Next, Reap, Update, SwitchTo;
    ReapTask(s, s.current);
    UpdateTask(s1, s.current);
    SwitchFields(s2, Next(s2));
  }

  lemma CurrentKnown(s: Sys)
    requires Core(s)
    ensures s.current in s.state && s.current in s.list && s.current in s.wake
  {
    hide Quiet, Waiting, Guarded;
  }

  // ---------------------------------------------------------------------------
  // What blocking and waking keep

  ghost predicate MayBlockOn(s: Sys, k: Key) {
    && k in s.chain
    && match k
       case OnMutex(m) => m in s.locked ==> s.locked[m]
       case OnSemaphore(x) => x in s.count ==> s.count[x] == 0
       case OnEvent(e) => e in s.signaled ==> !s.signaled[e]
       case OnTask(t) => t in s.state ==> s.state[t] != Dead
  }

  lemma BlockKeeps(s: Sys, k: Key)
    requires Inv(s) && MayBlockOn(s, k) && s.current != s.idle
    ensures Core(Block(s, k)) && Block(s, k).state[s.current] == Blocked
  {
    hide Listed, Quiet, Waiting, Guarded;
    CurrentNotWaiting(s);
    BlockLists(s, k);
    BlockGuards(s, k);
    BlockWaits(s, k);
  }

  lemma CurrentNotWaiting(s: Sys)
    requires Inv(s)
    ensures s.current !in s.waitsOn && s.current in s.state
  {
    hide Distinct, Chained, Guarded, DeadAlone;
  }

  lemma BlockWaits(s: Sys, k: Key)
    requires Waiting(s) && k in s.chain && s.current !in s.waitsOn && (forall t :: k == OnTask(t) && t in s.state ==> s.state[t] != Dead)
    ensures Waiting(Block(s, k))
  {
    hide Chained, Waiters, DeadAlone;
    ChainPush(s.chain, s.waitsOn, k, s.current);
    WaitersPush(s.waitsOn, s.state, k, s.current);
    DeadSame(s.chain, s.state, Block(s, k).chain, Block(s, k).state);
  }

  lemma BlockLists(s: Sys, k: Key)
    requires Listed(s) && Quiet(s) && s.current != s.idle && k in s.chain
    ensures Listed(Block(s, k)) && Quiet(Block(s, k))
  {
    hide Distinct;
  }

  lemma BlockGuards(s: Sys, k: Key)
    requires Guarded(s) && MayBlockOn(s, k)
    ensures Guarded(Block(s, k))
  {
  }

  lemma WakeOneKeeps(s: Sys, k: Key)
    requires Inv(s) && k in s.chain && s.chain[k] != []
    ensures Inv(WakeOne(s, k)) && WakeOne(s, k).current == s.current
  {
    hide Waiting, Guarded, Listed, Quiet;
    WaiterBlocked(s, k, s.chain[k][0]);
    WakeOneWaits(s, k);
    WokenLists(s, WakeOne(s, k));
  }

  lemma WaiterBlocked(s: Sys, k: Key, t: Task)
    requires Waiting(s) && k in s.chain && t in s.chain[k]
    ensures t in s.waitsOn && t in s.state && s.state[t] == Blocked
  {
    hide Distinct, DeadAlone;
  }

  lemma WakeOneWaits(s: Sys, k: Key)
    requires Waiting(s) && Guarded(s) && k in s.chain && s.chain[k] != []
    ensures Waiting(WakeOne(s, k)) && Guarded(WakeOne(s, k))
  {
    var s', u := WakeOne(s, k), s.chain[k][0];
    ChainPop(s.chain, s.waitsOn, k);
    WaitersPop(s.waitsOn, s.state, u);
    hide Distinct, Chained, Guarded, Waiters, DeadAlone;
    GuardedShrinks(s, s'.chain);
    GuardedSame(s.(chain := s'.chain), s');
    DeadSame(s.chain, s.state, s'.chain, s'.state);
  }

  /** Waking changes blocked tasks to ready ones and nothing else in the list. */
  lemma WokenLists(s: Sys, s': Sys)
    requires Listed(s) && Quiet(s) && s.state[s.current] == Running
    requires s'.list == s.list && s'.current == s.current && s'.idle == s.idle && s'.doomed == s.doomed && s'.wake == s.wake
    requires s'.state.Keys == s.state.Keys && s'.chain.Keys == s.chain.Keys
    requires forall t :: t in s.state ==> s'.state[t] == s.state[t] || (s.state[t] == Blocked && s'.state[t] == Ready)
    ensures Listed(s') && Quiet(s') && s'.state[s'.current] == Running
  {
    hide Distinct;
  }

  lemma WakeAllKeeps(s: Sys, k: Key)
    requires Inv(s) && k in s.chain
    ensures Inv(WakeAll(s, k)) && WakeAll(s, k).current == s.current && WakeAll(s, k).chain[k] == []
  {
    hide Waiting, Guarded, Listed, Quiet;
    forall t | t in s.chain[k] ensures t in s.waitsOn && t in s.state && s.state[t] == Blocked {
      WaiterBlocked(s, k, t);
    }
    WakeAllWaits(s, k);
    WokenLists(s, WakeAll(s, k));
  }

  lemma WakeAllWaits(s: Sys, k: Key)
    requires Waiting(s) && Guarded(s) && k in s.chain
    ensures Waiting(WakeAll(s, k)) && Guarded(WakeAll(s, k))
  {
    var s' := WakeAll(s, k);
    ChainClear(s.chain, s.waitsOn, k);
    WaitersClear(s, k);
    hide Distinct, Chained, Guarded, Waiters, DeadAlone;
    GuardedShrinks(s, s'.chain);
    GuardedSame(s.(chain := s'.chain), s');
    DeadSame(s.chain, s.state, s'.chain, s'.state);
  }

  lemma WaitersClear(s: Sys, k: Key)
    requires Waiting(s) && k in s.chain
    ensures Waiters(WakeAll(s, k).waitsOn, WakeAll(s, k).state)
  {
    hide Distinct, DeadAlone;
  }

  // ---------------------------------------------------------------------------
  // What every step keeps

  lemma AddKeeps(s: Sys, t: Task)
    requires Inv(s) && Allowed(s, Add(t))
    ensures Inv(Step(s, Add(t)))
  {
    hide Distinct, Chained, Guarded, Waiters, DeadAlone;
    var s' := Step(s, Add(t));
    AddChain(s.chain, s.waitsOn, OnTask(t));
    AddLists(s, t);
    AddGuards(s, s');
    hide Listed, Quiet;
    WaitersSame(s.waitsOn, s.state, s'.state);
    DeadSame(s.chain, s.state, s'.chain, s'.state);
  }

  lemma AddChain(chain: map<Key, seq<Task>>, waitsOn: map<Task, Key>, k: Key)
    requires Chained(chain, waitsOn) && k !in chain
    ensures Chained(chain[k := []], waitsOn)
  {
    var chain': map<Key, seq<Task>> := chain[k := []];
    forall j | j in chain' ensures Distinct(chain'[j]) {
      assert j != k ==> chain'[j] == chain[j];
    }
    hide Distinct;
  }

  lemma AddLists(s: Sys, t: Task)
    requires Listed(s) && Quiet(s) && t !in s.state && t !in s.list && OnTask(t) !in s.chain
    ensures Listed(Step(s, Add(t))) && Quiet(Step(s, Add(t)))
  {
    hide Listed, Quiet, Distinct;
    AddListed(s, t, Step(s, Add(t)));
    AddQuiet(s, t, Step(s, Add(t)));
  }

  lemma AddListed(s: Sys, t: Task, s': Sys)
    requires Listed(s) && t !in s.state && t !in s.list && OnTask(t) !in s.chain
    requires s'.list == s.list + [t] && s'.current == s.current && s'.idle == s.idle && s'.doomed == s.doomed
    requires s'.state.Keys == s.state.Keys + {t} && s'.wake.Keys == s.wake.Keys + {t} && s'.chain.Keys == s.chain.Keys + {OnTask(t)}
    ensures Listed(s')
  {
    assert Distinct(s.list + [t]);
    hide Distinct;
  }

  lemma AddQuiet(s: Sys, t: Task, s': Sys)
    requires Listed(s) && Quiet(s) && t !in s.state && t !in s.list
    requires s'.state == s.state[t := Ready] && s'.current == s.current && s'.idle == s.idle && s'.doomed == s.doomed
    ensures Quiet(s')
  {
    hide Distinct;
  }

  lemma AddGuards(s: Sys, s': Sys)
    requires Guarded(s) && s'.locked == s.locked && s'.holders == s.holders
    requires s'.count == s.count && s'.ledger == s.ledger && s'.signaled == s.signaled
    requires forall k :: k in s.chain ==> k in s'.chain && s'.chain[k] == s.chain[k]
    ensures Guarded(s')
  {
  }

  /** Steps that touch neither the list nor the chains nor any task. */
  ghost predicate SameTasks(s: Sys, s': Sys) {
    && s'.list == s.list && s'.current == s.current && s'.doomed == s.doomed && s'.idle == s.idle
    && s'.state == s.state && s'.wake == s.wake && s'.chain == s.chain && s'.waitsOn == s.waitsOn
  }

  lemma SameTasksKeeps(s: Sys, s': Sys)
    requires Inv(s) && SameTasks(s, s') && Guarded(s')
    ensures Inv(s')
  {
    hide Distinct, Guarded, Chained, Waiters, DeadAlone;
  }

  lemma OnlyHolder(holders: set<Task>, t: Task)
    requires |holders| == 1 && t in holders
    ensures holders == {t}
  {
    assert |holders - {t}| == 0;
  }

  lemma HoldersOk(chain: map<Key, seq<Task>>, locked: map<Mutex, bool>, holders: map<Mutex, set<Task>>, m: Mutex, l: bool, h: set<Task>)
    requires MutexesOk(chain, locked, holders) && m in locked && (chain[OnMutex(m)] != [] ==> l) && |h| == (if l then 1 else 0)
    ensures MutexesOk(chain, locked[m := l], holders[m := h])
  {
  }

  lemma AcquireKeeps(s: Sys, m: Mutex)
    requires Inv(s) && m in s.locked && m in s.holders && !s.locked[m]
    ensures Inv(Acquire(s, m)) && Acquire(s, m).holders[m] == {s.current}
  {
    assert s.holders[m] == {};
    hide Listed, Quiet, Waiting, SemaphoresOk, EventsOk;
    HoldersOk(s.chain, s.locked, s.holders, m, true, {s.current});
    hide MutexesOk;
    assert {} + {s.current} == {s.current};
    SameTasksKeeps(s, Acquire(s, m));
  }

  lemma ReleaseKeeps(s: Sys, m: Mutex)
    requires Inv(s) && Allowed(s, Unlock(m))
    ensures Inv(Release(s, m))
    ensures Release(s, m).holders[m] == if ChainOf(s, OnMutex(m)) == [] then {} else {ChainOf(s, OnMutex(m))[0]}
  {
    hide Core, Allowed;
    MutexLeft(s, m);
    if s.chain[OnMutex(m)] == [] {
      SetFree(s, m);
    } else {
      HandOver(s, m);
    }
  }

  /** Who is left holding the mutex when the current task gives it up. */
  lemma MutexLeft(s: Sys, m: Mutex)
    requires Inv(s) && Allowed(s, Unlock(m))
    ensures m in s.locked && m in s.holders && OnMutex(m) in s.chain
    ensures s.chain[OnMutex(m)] == [] ==> s.holders[m] - {s.current} == {}
    ensures s.chain[OnMutex(m)] != [] ==>
              var u := s.chain[OnMutex(m)][0]; s.locked[m] && s.holders[m] - {s.current} + {u} == {u}
  {
    hide Listed, Quiet, Waiting, SemaphoresOk, EventsOk;
    if s.locked[m] {
      OnlyHolder(s.holders[m], if s.current in s.holders[m] then s.current else s.chain[OnMutex(m)][0]);
    }
  }

  lemma SetFree(s: Sys, m: Mutex)
    requires Inv(s) && m in s.locked && m in s.holders && s.holders[m] - {s.current} == {}
    requires OnMutex(m) in s.chain && s.chain[OnMutex(m)] == []
    ensures Inv(Release(s, m)) && Release(s, m).holders[m] == {}
  {
    hide Listed, Quiet, Waiting, MutexesOk, SemaphoresOk, EventsOk;
    HoldersOk(s.chain, s.locked, s.holders, m, false, {});
    SameTasksKeeps(s, Release(s, m));
  }

  lemma HandOver(s: Sys, m: Mutex)
    requires Inv(s) && m in s.locked && m in s.holders && s.locked[m]
    requires OnMutex(m) in s.chain && s.chain[OnMutex(m)] != []
    requires var u := s.chain[OnMutex(m)][0]; s.holders[m] - {s.current} + {u} == {u}
    ensures Inv(Release(s, m)) && Release(s, m).holders[m] == {s.chain[OnMutex(m)][0]}
  {
    hide Listed, Quiet, Waiting, MutexesOk, SemaphoresOk, EventsOk;
    WakeOneKeeps(s, OnMutex(m));
    HandedTo(s, m);
    SameTasksKeeps(WakeOne(s, OnMutex(m)), Release(s, m));
  }

  lemma HandedTo(s: Sys, m: Mutex)
    requires m in s.locked && m in s.holders && s.locked[m]
    requires OnMutex(m) in s.chain && s.chain[OnMutex(m)] != []
    requires var u := s.chain[OnMutex(m)][0]; s.holders[m] - {s.current} + {u} == {u}
    requires Guarded(WakeOne(s, OnMutex(m)))
    ensures Guarded(Release(s, m)) && SameTasks(WakeOne(s, OnMutex(m)), Release(s, m))
    ensures Release(s, m).holders[m] == {s.chain[OnMutex(m)][0]}
  {
    hide SemaphoresOk, EventsOk;
    var s1, u := WakeOne(s, OnMutex(m)), s.chain[OnMutex(m)][0];
    assert Release(s, m) == s1.(holders := s.holders[m := {u}]);
    HoldersOk(s1.chain, s1.locked, s1.holders, m, true, {u});
    assert s1.locked[m := true] == s1.locked;
  }

  /** Unlocking keeps the invariant exactly when the caller may unlock; otherwise a mutex
      is free while it is held, or has two holders. */
  lemma ReleaseKeepsIff(s: Sys, m: Mutex)
    requires Inv(s) && m in s.locked && m in s.holders
    ensures Inv(Release(s, m)) <==> MayUnlock(s, m)
  {
    hide Core, Release, ChainOf;
    if MayUnlock(s, m) {
      assert Allowed(s, Unlock(m));
      ReleaseKeeps(s, m);
    } else {
      ReleaseBreaks(s, m);
    }
  }

  lemma ReleaseBreaks(s: Sys, m: Mutex)
    requires Inv(s) && m in s.locked && m in s.holders && !MayUnlock(s, m)
    ensures !Inv(Release(s, m))
  {
    hide Listed, Quiet, Waiting, SemaphoresOk, EventsOk;
    var s' := Release(s, m);
    assert s.holders[m] - {s.current} == s.holders[m];
    if ChainOf(s, OnMutex(m)) == [] {
      assert !s'.locked[m] && |s'.holders[m]| == 1;
    } else {
      assert s'.locked[m] && |s'.holders[m]| == 2;
    }
    assert !MutexesOk(s'.chain, s'.locked, s'.holders);
  }

  lemma PostKeeps(s: Sys, x: Semaphore)
    requires Inv(s) && Allowed(s, Signal(x))
    ensures Inv(Post(s, x))
  {
    hide Distinct, Listed, Quiet, Waiting;
    if ChainOf(s, OnSemaphore(x)) == [] {
      SameTasksKeeps(s, Post(s, x));
    } else {
      WakeOneKeeps(s, OnSemaphore(x));
      SameTasksKeeps(WakeOne(s, OnSemaphore(x)), Post(s, x));
    }
  }

  lemma SetEventKeeps(s: Sys, e: Event)
    requires Inv(s) && e in s.signaled
    ensures Inv(Step(s, SetEvent(e)))
  {
    hide Distinct, Listed, Quiet, Waiting;
    WakeAllKeeps(s, OnEvent(e));
    SameTasksKeeps(WakeAll(s, OnEvent(e)), Step(s, SetEvent(e)));
  }

  lemma SleepKeeps(s: Sys, n: nat)
    requires Inv(s) && s.current != s.idle
    ensures Core(Doze(s, n)) && Doze(s, n).state[s.current] == Sleeping && Doze(s, n).current == s.current
  {
    hide Guarded, Waiting;
    StopKeeps(s, Doze(s, n));
  }

  /** Taking the current task out of the running state, whatever it becomes. */
  lemma StopKeeps(s: Sys, s': Sys)
    requires Inv(s) && s.current != s.idle
    requires s'.list == s.list && s'.current == s.current && s'.doomed == s.doomed && s'.idle == s.idle
    requires s'.wake.Keys == s.wake.Keys && s'.chain == s.chain && s'.waitsOn == s.waitsOn
    requires s'.locked == s.locked && s'.holders == s.holders && s'.count == s.count && s'.ledger == s.ledger && s'.signaled == s.signaled
    requires s'.state == s.state[s.current := Sleeping] || s'.state == s.state[s.current := Dead]
    requires s'.state[s.current] == Dead ==> ChainOf(s, OnTask(s.current)) == []
    ensures Core(s')
  {
    hide Listed, Quiet, Waiting, Guarded;
    CurrentListed(s);
    StopLists(s, s');
    GuardedSame(s, s');
    StopWaits(s, s');
  }

  lemma StopWaits(s: Sys, s': Sys)
    requires Waiting(s) && s.current in s.state && s.state[s.current] == Running && s'.chain == s.chain && s'.waitsOn == s.waitsOn
    requires s'.state == s.state[s.current := Sleeping] || s'.state == s.state[s.current := Dead]
    requires s'.state[s.current] == Dead ==> ChainOf(s, OnTask(s.current)) == []
    ensures Waiting(s')
  {
    hide Chained;
    WaitersSame(s.waitsOn, s.state, s'.state);
  }

  lemma StopLists(s: Sys, s': Sys)
    requires Listed(s) && Quiet(s) && s.current != s.idle
    requires s'.list == s.list && s'.current == s.current && s'.doomed == s.doomed && s'.idle == s.idle
    requires s'.wake.Keys == s.wake.Keys && s'.chain == s.chain
    requires s'.state == s.state[s.current := Sleeping] || s'.state == s.state[s.current := Dead]
    ensures Listed(s') && Quiet(s')
  {
    hide Distinct;
  }

  lemma ExitKeeps(s: Sys)
    requires Inv(s) && s.current != s.idle
    ensures Core(Die(s)) && Die(s).state[s.current] == Dead && Die(s).current == s.current
  {
    assert OnTask(s.current) in s.chain;
    WakeAllKeeps(s, OnTask(s.current));
    hide Listed, Quiet, Waiting, Guarded;
    StopKeeps(WakeAll(s, OnTask(s.current)), Die(s));
  }

  lemma BlockSchedules(s: Sys, k: Key)
    requires Inv(s) && MayBlockOn(s, k) && s.current != s.idle
    ensures Inv(Schedule(Block(s, k))) && Schedule(Block(s, k)).current != s.current
  {
    BlockKeeps(s, k);
    ScheduleKeeps(Block(s, k));
  }

  lemma GrantKeeps(s: Sys, x: Semaphore)
    requires Inv(s) && x in s.count && x in s.ledger && s.count[x] > 0
    ensures Inv(Grant(s.(count := s.count[x := s.count[x] - 1]), x))
  {
    hide Distinct, Listed, Quiet, Waiting;
    SameTasksKeeps(s, Grant(s.(count := s.count[x := s.count[x] - 1]), x));
  }

  lemma JoinMayBlock(s: Sys, t: Task)
    requires Inv(s) && t in s.state && s.state[t] != Dead
    ensures MayBlockOn(s, OnTask(t))
  {
  }

  lemma MayLock(s: Sys, m: Mutex)
    requires Inv(s) && m in s.locked && s.locked[m]
    ensures MayBlockOn(s, OnMutex(m))
  {
    hide Listed, Quiet, Waiting;
  }

  lemma MayWait(s: Sys, x: Semaphore)
    requires Inv(s) && x in s.count && s.count[x] == 0
    ensures MayBlockOn(s, OnSemaphore(x))
  {
    hide Listed, Quiet, Waiting;
  }

  lemma MayWaitEvent(s: Sys, e: Event)
    requires Inv(s) && e in s.signaled && !s.signaled[e]
    ensures MayBlockOn(s, OnEvent(e))
  {
    hide Listed, Quiet, Waiting;
  }

  /** Every step keeps the invariant, and a step that blocks hands the processor to
      another task. */
  lemma StepKeeps(s: Sys, op: Op)
    requires Inv(s) && Allowed(s, op)
    ensures Inv(Step(s, op))
    ensures Blocks(s, op) ==> Step(s, op).current != s.current
  {
    hide Core, MayBlockOn, Schedule, Block, WakeAll, Release, Post, Acquire, Grant;
    match op
    case Tick => PlainStepKeeps(s, op);
    case Yield => ScheduleKeeps(s);
    case Add(t) => AddKeeps(s, t);
    case Lock(m) => if s.locked[m] { MayLock(s, m); BlockSchedules(s, OnMutex(m)); } else { AcquireKeeps(s, m); }
    case TryLock(m) => if !s.locked[m] { AcquireKeeps(s, m); }
    case Unlock(m) => ReleaseKeeps(s, m);
    case Wait(x) => if s.count[x] > 0 { GrantKeeps(s, x); } else { MayWait(s, x); BlockSchedules(s, OnSemaphore(x)); }
    case TryWait(x) => if s.count[x] > 0 { GrantKeeps(s, x); }
    case Signal(x) => PostKeeps(s, x);
    case WaitEvent(e) => if !s.signaled[e] { MayWaitEvent(s, e); BlockSchedules(s, OnEvent(e)); }
    case SetEvent(e) => SetEventKeeps(s, e);
    case ResetEvent(e) => PlainStepKeeps(s, op);
    case Sleep(n) => StopSchedules(s, op);
    case Exit => StopSchedules(s, op);
    case Join(t) =>
      if t in s.state && s.state[t] != Dead && t != s.current {
        JoinMayBlock(s, t);
        BlockSchedules(s, OnTask(t));
      }
  }

  lemma PlainStepKeeps(s: Sys, op: Op)
    requires Inv(s) && Allowed(s, op) && (op.Tick? || op.ResetEvent?)
    ensures Inv(Step(s, op)) && Step(s, op).current == s.current
  {
    hide Listed, Quiet, Waiting, Schedule, Block, WakeAll, Release, Post, Acquire, Grant;
    SameTasksKeeps(s, Step(s, op));
  }

  lemma StopSchedules(s: Sys, op: Op)
    requires Inv(s) && s.current != s.idle && (op.Sleep? || op.Exit?)
    ensures Inv(Step(s, op)) && Step(s, op).current != s.current
  {
    hide Listed, Quiet, Waiting, Guarded, Schedule, Doze, Die;
    if op.Sleep? {
      SleepKeeps(s, op.ticks);
      ScheduleKeeps(Doze(s, op.ticks));
    } else {
      ExitKeeps(s);
      ScheduleKeeps(Die(s));
    }
  }
}
