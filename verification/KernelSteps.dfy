// What each step does to the records, as facts about values: the records still show the
// system value after the step, and the invariant holds again.
module KernelSteps {
  import opened Lists
  import opened Words
  import opened Objects
  import opened Sched
  import opened SchedRuns
  import opened Memory

  lemma CreateShows(first: Link, doomed: Link, ticks: nat, mem: Memory, s: Sys, t: Task)
    requires Shows(first, doomed, ticks, mem, s) && t !in mem.tasks
    ensures Shows(first, doomed, ticks, PutTask(mem, t, NEW_TASK), s)
  {
    SameLinksShow(mem, PutTask(mem, t, NEW_TASK), s.list, s.chain);
    hide ChainsShow, Threaded;
  }

  lemma AddStep(first: Link, doomed: Link, ticks: nat, mem: Memory, s: Sys, t: Task)
    requires Inv(s) && Shows(first, doomed, ticks, mem, s) && Allowed(s, Add(t)) && t in mem.tasks && mem.tasks[t] == NEW_TASK
    ensures Inv(Step(s, Add(t))) && Step(s, Add(t)).current == s.current && Step(s, Add(t)).list == s.list + [t]
    ensures s.list != [] && s.list[|s.list| - 1] in mem.tasks
    ensures var last := s.list[|s.list| - 1];
            Shows(first, doomed, ticks, PutTask(mem, last, mem.tasks[last].(next := Some(t))), Step(s, Add(t)))
  {
    ListFacts(s);
    StepKeeps(s, Add(t));
    assert t !in s.list && Step(s, Add(t)) == Added(s, t);
    hide Core, Step, Shows;
    AddShows(first, doomed, ticks, mem, s, t);
  }

  lemma TickStep(first: Link, doomed: Link, ticks: nat, mem: Memory, s: Sys)
    requires Inv(s) && Shows(first, doomed, ticks, mem, s)
    ensures Inv(Step(s, Op.Tick)) && Step(s, Op.Tick).current == s.current && Step(s, Op.Tick).list == s.list
    ensures Shows(first, doomed, ticks + 1, mem, Step(s, Op.Tick))
  {
    StepKeeps(s, Op.Tick);
    hide Core, Threaded, TasksShow, ChainsShow, FlagsShow;
  }

  lemma LiveAfter(mem: Memory, t: Task, fields: TaskFields, k: Key)
    requires Live(mem, k)
    ensures Live(PutTask(mem, t, fields), k)
  {
  }

  lemma BlockStep(first: Link, doomed: Link, ticks: nat, mem: Memory, s: Sys, k: Key)
    requires Inv(s) && Shows(first, doomed, ticks, mem, s)
    requires MayBlockOn(s, k) && s.current != s.idle && k != OnTask(s.current)
    ensures Core(Block(s, k)) && Block(s, k).current == s.current && Block(s, k).list == s.list
    ensures s.current in s.list && (k.OnTask? ==> k.t in s.list)
    ensures s.current in mem.tasks && Live(mem, k)
    ensures Shows(first, doomed, ticks, Enqueued(mem, s.current, k), Block(s, k))
  {
    CurrentUnchained(s);
    assert k in s.chain && Block(s, k).current == s.current;
    hide Core, MayBlockOn, Shows, Block, Enqueued, Live;
    BlockKeeps(s, k);
    BlockShows(first, doomed, ticks, mem, s, k);
  }

  lemma CurrentUnchained(s: Sys)
    requires Inv(s)
    ensures s.current in s.list && forall k :: k in s.chain ==> s.current !in s.chain[k]
  {
    assert s.current !in s.waitsOn;
    hide Distinct, Guarded;
  }

  lemma ListFacts(s: Sys)
    requires Core(s)
    ensures Distinct(s.list) && s.current in s.list && Next(s) in s.list
    ensures s.doomed.Some? ==> |s.list| >= 2
  {
    NextIsReady(s);
    hide Distinct, Waiting, Guarded, Next, Quiet;
  }

  lemma ScheduleFacts(s: Sys)
    requires Core(s)
    ensures Distinct(s.list) && (s.doomed.Some? ==> |s.list| >= 2 && s.doomed.value in s.state && s.state[s.doomed.value] == Dead)
    ensures Distinct(Reap(s).list)
    ensures var s2 := Update(Reap(s));
            && Distinct(s2.list) && s2.current in s2.list && Next(s2) in s2.list && s2.current == Reap(s).current
            && Inv(Schedule(s)) && Schedule(s) == (if Next(s2) == s2.current then s2 else SwitchTo(s2, Next(s2)))
            && SwitchTo(s2, Next(s2)).current == Next(s2)
  {
    var s1, s2 := Reap(s), Update(Reap(s));
    assert s2.current == s1.current && SwitchTo(s2, s2.current) == s2;
    ReapKeeps(s);
    UpdateKeeps(s1);
    ScheduleKeeps(s);
    ListFacts(s);
    ListFacts(s1);
    ListFacts(s2);
    CurrentKnown(s2);
    SwitchFields(s2, Next(s2));
    hide Core, Reap, Update, SwitchTo, Next;
  }

  lemma FlagReads(first: Link, doomed: Link, ticks: nat, mem: Memory, s: Sys)
    requires Shows(first, doomed, ticks, mem, s)
    ensures forall m :: m in s.locked ==> m in mem.mutexes && mem.mutexes[m].locked == s.locked[m]
    ensures forall x :: x in s.count ==> x in mem.semaphores && mem.semaphores[x].count == s.count[x]
    ensures forall e :: e in s.signaled ==> e in mem.events && mem.events[e].signaled == s.signaled[e]
  {
    hide Threaded, TasksShow, ChainsShow;
  }

  lemma KeysLive(s: Sys)
    requires Core(s)
    ensures forall m :: m in s.locked ==> OnMutex(m) in s.chain
    ensures forall x :: x in s.count ==> OnSemaphore(x) in s.chain
    ensures forall e :: e in s.signaled ==> OnEvent(e) in s.chain
    ensures forall t :: t in s.state ==> OnTask(t) in s.chain && t in s.list
  {
    hide Distinct, Quiet, Waiting;
  }

  /** Whoever waits, and whatever task is waited for, is in the run list. */
  lemma WaitersListed(s: Sys, k: Key)
    requires Core(s) && k in s.chain
    ensures (forall t :: t in s.chain[k] ==> t in s.list) && (k.OnTask? ==> k.t in s.list)
  {
    hide Distinct, Quiet, Guarded;
  }

  lemma ChainedIn(s: Sys)
    requires Core(s)
    ensures Chained(s.chain, s.waitsOn)
  {
    hide Listed, Quiet, Guarded, Chained, Waiters, DeadAlone;
  }

  // What the writes of each step show.

  lemma AcquireShows(first: Link, doomed: Link, ticks: nat, mem: Memory, s: Sys, m: Mutex)
    requires Shows(first, doomed, ticks, mem, s) && m in s.locked && m in s.holders
    ensures m in mem.mutexes && Shows(first, doomed, ticks, PutLocked(mem, m, true), Acquire(s, m))
    ensures Acquire(s, m).current == s.current && Acquire(s, m).list == s.list
  {
    hide Shows;
    LockedShows(first, doomed, ticks, mem, s, m, true, Acquire(s, m));
  }

  lemma FreeShows(first: Link, doomed: Link, ticks: nat, mem: Memory, s: Sys, m: Mutex)
    requires Shows(first, doomed, ticks, mem, s) && m in s.locked && m in s.holders && ChainOf(s, OnMutex(m)) == []
    ensures m in mem.mutexes && Shows(first, doomed, ticks, PutLocked(mem, m, false), Release(s, m))
    ensures Release(s, m).current == s.current && Release(s, m).list == s.list
  {
    hide Shows;
    LockedShows(first, doomed, ticks, mem, s, m, false, Release(s, m));
  }

  lemma HandOverShows(first: Link, doomed: Link, ticks: nat, mem: Memory, s: Sys, m: Mutex)
    requires Shows(first, doomed, ticks, mem, s) && Chained(s.chain, s.waitsOn)
    requires m in s.locked && m in s.holders && ChainOf(s, OnMutex(m)) != []
    ensures m in mem.mutexes && ChainOf(s, OnMutex(m))[0] in mem.tasks && Release(s, m).current == s.current && Release(s, m).list == s.list
    ensures Shows(first, doomed, ticks, Dequeued(mem, ChainOf(s, OnMutex(m))[0], OnMutex(m)), Release(s, m))
  {
    var k := OnMutex(m);
    assert k in s.chain;
    hide Shows, Chained, WakeOne, Dequeued, Release;
    WakeOneShows(first, doomed, ticks, mem, s, k);
    ReleaseUnseen(s, m);
    HoldersUnseen(first, doomed, ticks, Dequeued(mem, s.chain[k][0], k), WakeOne(s, k), Release(s, m));
  }

  lemma ReleaseUnseen(s: Sys, m: Mutex)
    requires m in s.locked && m in s.holders && ChainOf(s, OnMutex(m)) != []
    ensures var s1, s' := WakeOne(s, OnMutex(m)), Release(s, m);
            SameBut(s1, s') && s'.locked == s1.locked && s'.count == s1.count && s'.signaled == s1.signaled
    ensures Release(s, m).current == s.current && Release(s, m).list == s.list
  {
  }

  /** Holders, ledgers and what tasks wait on are not in the records. */
  lemma HoldersUnseen(first: Link, doomed: Link, ticks: nat, mem: Memory, s: Sys, s': Sys)
    requires Shows(first, doomed, ticks, mem, s) && SameBut(s, s')
    requires s'.locked == s.locked && s'.count == s.count && s'.signaled == s.signaled
    ensures Shows(first, doomed, ticks, mem, s')
  {
    hide Threaded, TasksShow, ChainsShow, FlagsShow;
  }

  lemma PermitShows(first: Link, doomed: Link, ticks: nat, mem: Memory, s: Sys, x: Semaphore)
    requires Shows(first, doomed, ticks, mem, s) && x in s.count && x in s.ledger && s.count[x] > 0
    ensures x in mem.semaphores && Shows(first, doomed, ticks, PutCount(mem, x, s.count[x] - 1), TakePermit(s, x))
    ensures TakePermit(s, x).current == s.current && TakePermit(s, x).list == s.list
  {
    hide Shows;
    CountShows(first, doomed, ticks, mem, s, x, s.count[x] - 1, TakePermit(s, x));
  }

  lemma PostFreeShows(first: Link, doomed: Link, ticks: nat, mem: Memory, s: Sys, x: Semaphore)
    requires Shows(first, doomed, ticks, mem, s) && x in s.count && x in s.ledger && ChainOf(s, OnSemaphore(x)) == []
    ensures x in mem.semaphores && Shows(first, doomed, ticks, PutCount(mem, x, s.count[x] + 1), Post(s, x))
    ensures Post(s, x).current == s.current && Post(s, x).list == s.list
  {
    hide Shows;
    CountShows(first, doomed, ticks, mem, s, x, s.count[x] + 1, Post(s, x));
  }

  lemma PostHandShows(first: Link, doomed: Link, ticks: nat, mem: Memory, s: Sys, x: Semaphore)
    requires Shows(first, doomed, ticks, mem, s) && Chained(s.chain, s.waitsOn)
    requires x in s.count && x in s.ledger && ChainOf(s, OnSemaphore(x)) != []
    ensures x in mem.semaphores && ChainOf(s, OnSemaphore(x))[0] in mem.tasks && Post(s, x).current == s.current && Post(s, x).list == s.list
    ensures Shows(first, doomed, ticks, Dequeued(mem, ChainOf(s, OnSemaphore(x))[0], OnSemaphore(x)), Post(s, x))
  {
    var k := OnSemaphore(x);
    assert k in s.chain;
    hide Shows, Chained, WakeOne, Dequeued, Post;
    WakeOneShows(first, doomed, ticks, mem, s, k);
    PostUnseen(s, x);
    HoldersUnseen(first, doomed, ticks, Dequeued(mem, s.chain[k][0], k), WakeOne(s, k), Post(s, x));
  }

  lemma PostUnseen(s: Sys, x: Semaphore)
    requires x in s.count && x in s.ledger && ChainOf(s, OnSemaphore(x)) != []
    ensures var s1, s' := WakeOne(s, OnSemaphore(x)), Post(s, x);
            SameBut(s1, s') && s'.locked == s1.locked && s'.count == s1.count && s'.signaled == s1.signaled
    ensures Post(s, x).current == s.current && Post(s, x).list == s.list
  {
  }

  lemma ChainStrung(first: Link, doomed: Link, ticks: nat, mem: Memory, s: Sys, k: Key)
    requires Shows(first, doomed, ticks, mem, s) && k in s.chain
    ensures Live(mem, k) && Strung(mem.tasks, Head(mem, k), s.chain[k])
  {
    hide Threaded, TasksShow, FlagsShow;
  }

  lemma SetShows(first: Link, doomed: Link, ticks: nat, mem: Memory, s: Sys, e: Event)
    requires Shows(first, doomed, ticks, mem, s) && Chained(s.chain, s.waitsOn) && e in s.signaled && OnEvent(e) in s.chain
    ensures e in mem.events && Distinct(s.chain[OnEvent(e)])
    ensures var k, mem1, s1 := OnEvent(e), PutSignaled(mem, e, true), s.(signaled := s.signaled[e := true]);
            && Strung(mem1.tasks, Head(mem1, k), s.chain[k])
            && Shows(first, doomed, ticks, Cleared(mem1, k, s.chain[k]), WakeAll(s1, k)) && WakeAll(s1, k).list == s.list
  {
    var k, s1 := OnEvent(e), s.(signaled := s.signaled[e := true]);
    assert WakeAll(s1, k).list == s.list;
    hide Shows, Chained, Cleared, WakeAll, Strung;
    SignaledShows(first, doomed, ticks, mem, s, e, true, s1);
    var mem1 := PutSignaled(mem, e, true);
    WakeAllShows(first, doomed, ticks, mem1, s1, k);
    ChainFacts(s.chain, s.waitsOn, k);
    ChainStrung(first, doomed, ticks, mem1, s1, k);
  }

  lemma DieShows(first: Link, doomed: Link, ticks: nat, mem: Memory, s: Sys)
    requires Shows(first, doomed, ticks, mem, s) && Chained(s.chain, s.waitsOn) && OnTask(s.current) in s.chain && s.current in s.list
    ensures var k := OnTask(s.current);
            && Live(mem, k) && Distinct(s.chain[k]) && Strung(mem.tasks, Head(mem, k), s.chain[k])
            && s.current in Cleared(mem, k, s.chain[k]).tasks
    ensures var mem1 := Cleared(mem, OnTask(s.current), s.chain[OnTask(s.current)]);
            Shows(first, doomed, ticks, PutTask(mem1, s.current, mem1.tasks[s.current].(state := Dead)), Die(s))
  {
    var k := OnTask(s.current);
    assert Die(s) == WithState(WakeAll(s, k), s.current, Dead) && WakeAll(s, k).list == s.list;
    hide Shows, Chained, Cleared, WakeAll, Strung, Die;
    ChainFacts(s.chain, s.waitsOn, k);
    ChainStrung(first, doomed, ticks, mem, s, k);
    WakeAllShows(first, doomed, ticks, mem, s, k);
    PutStateShows(first, doomed, ticks, Cleared(mem, k, s.chain[k]), WakeAll(s, k), s.current, Dead);
  }

  lemma ExitFacts(s: Sys)
    requires Inv(s) && s.current != s.idle
    ensures Core(Die(s)) && Die(s).current == s.current && Die(s).list == s.list && s.current in s.list && OnTask(s.current) in s.chain
    ensures forall t :: t in s.chain[OnTask(s.current)] ==> t in s.list
    ensures Chained(s.chain, s.waitsOn)
  {
    CurrentKnown(s);
    KeysLive(s);
    ChainedIn(s);
    hide Core, Die, Chained;
    ExitKeeps(s);
  }

  lemma JoinFacts(first: Link, doomed: Link, ticks: nat, mem: Memory, s: Sys, t: Task)
    requires Inv(s) && Shows(first, doomed, ticks, mem, s) && t in s.state
    ensures t in mem.tasks && mem.tasks[t].state == s.state[t]
    ensures s.state[t] != Dead ==> MayBlockOn(s, OnTask(t))
  {
    TaskListed(s, t);
    if s.state[t] != Dead {
      JoinMayBlock(s, t);
    }
    hide Core, Shows, MayBlockOn;
    ListedTask(first, doomed, ticks, mem, s, t);
  }

  lemma ChainReads(first: Link, doomed: Link, ticks: nat, mem: Memory, s: Sys, k: Key)
    requires Inv(s) && Shows(first, doomed, ticks, mem, s)
    requires match k
             case OnMutex(m) => m in s.locked
             case OnSemaphore(x) => x in s.count
             case OnEvent(e) => e in s.signaled
             case OnTask(t) => t in s.state
    ensures Chained(s.chain, s.waitsOn) && k in s.chain && Live(mem, k) && Head(mem, k) == Nth(ChainOf(s, k), 0)
    ensures (forall t :: t in s.chain[k] ==> t in s.list) && (k.OnTask? ==> k.t in s.list)
  {
    KeysLive(s);
    ChainedIn(s);
    WaitersListed(s, k);
    hide Core, Shows, Chained, Head;
    HeadReads(first, doomed, ticks, mem, s, k);
  }

  lemma SleepFacts(first: Link, doomed: Link, ticks: nat, mem: Memory, s: Sys, n: nat)
    requires Inv(s) && Shows(first, doomed, ticks, mem, s) && s.current != s.idle
    ensures Core(Doze(s, n)) && Doze(s, n).current == s.current && Doze(s, n).list == s.list && s.current in mem.tasks && s.current in s.list
    ensures Shows(first, doomed, ticks, PutTask(mem, s.current, mem.tasks[s.current].(wakeTick := ticks + n, state := Sleeping)), Doze(s, n))
  {
    CurrentKnown(s);
    hide Core, Shows, Doze;
    SleepKeeps(s, n);
    DozeShows(first, doomed, ticks, mem, s, n);
  }

  /** kmain's record as task_create_current leaves it, and primitives as their init functions do. */
  function BootMemory(kmain: Task, mutexes: set<Mutex>, semaphores: map<Semaphore, nat>, events: set<Event>): Memory {
    Memory(map[kmain := TaskFields(Running, 0, None, None, None)], map m | m in mutexes :: MutexFields(false, None),
           map x | x in semaphores :: SemaphoreFields(semaphores[x], None), map e | e in events :: EventFields(false, None))
  }

  lemma BootShows(kmain: Task, mutexes: set<Mutex>, semaphores: map<Semaphore, nat>, events: set<Event>)
    ensures Shows(Some(kmain), None, 0, BootMemory(kmain, mutexes, semaphores, events), Boot(kmain, mutexes, semaphores, events))
    ensures Buried(BootMemory(kmain, mutexes, semaphores, events).tasks, Boot(kmain, mutexes, semaphores, events).list)
  {
    var mem, s := BootMemory(kmain, mutexes, semaphores, events), Boot(kmain, mutexes, semaphores, events);
    BootChains(kmain, mutexes, semaphores, events);
    assert s.list == [kmain];
    forall k | k in s.chain ensures Live(mem, k) && Strung(mem.tasks, Head(mem, k), s.chain[k]) {
      BootLive(kmain, mutexes, semaphores, events, k);
    }
  }

  lemma BootLive(kmain: Task, mutexes: set<Mutex>, semaphores: map<Semaphore, nat>, events: set<Event>, k: Key)
    requires k in Boot(kmain, mutexes, semaphores, events).chain
    ensures var mem := BootMemory(kmain, mutexes, semaphores, events); Live(mem, k) && Head(mem, k) == None
  {
  }

  lemma ListedKnown(s: Sys, t: Task)
    requires Core(s)
    ensures t in s.list <==> t in s.state
  {
    hide Distinct, Quiet, Waiting, Guarded;
  }

  lemma FirstDiffers(list: seq<Task>)
    requires Distinct(list) && |list| >= 2
    ensures list[1] in list && list[1] != list[0]
  {
  }

  lemma FollowerDiffers(list: seq<Task>, j: nat)
    requires Distinct(list) && j + 1 < |list|
    ensures list[j] in list && list[j] != list[j + 1]
  {
  }

  /** Switching writes two records of the list. */
  lemma SwitchBuries(mem: Memory, s: Sys, n: Task)
    requires Buried(mem.tasks, s.list) && s.current in s.list && n in s.list && s.current in mem.tasks && n in Yielded(mem, s.current).tasks
    ensures var mem1 := Yielded(mem, s.current);
            Buried(PutTask(mem1, n, mem1.tasks[n].(state := Running)).tasks, SwitchTo(s, n).list)
  {
    StaysBuried(mem, PutTask(Yielded(mem, s.current), n, Yielded(mem, s.current).tasks[n].(state := Running)), s.list);
  }
}
