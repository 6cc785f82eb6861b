// The linked records as memory: what their links spell out, and what writing a field does
// to that.
module Memory {
  import opened Lists
  import opened Words
  import opened Objects
  import opened Sched

  datatype Memory = Memory(tasks: map<Task, TaskFields>, mutexes: map<Mutex, MutexFields>,
                           semaphores: map<Semaphore, SemaphoreFields>, events: map<Event, EventFields>)

  predicate Live(mem: Memory, k: Key) {
    match k
    case OnMutex(m) => m in mem.mutexes
    case OnSemaphore(x) => x in mem.semaphores
    case OnEvent(e) => e in mem.events
    case OnTask(t) => t in mem.tasks
  }

  /** The waiters field of the record that k names. */
  function Head(mem: Memory, k: Key): Link
    requires Live(mem, k)
  {
    match k
    case OnMutex(m) => mem.mutexes[m].waiters
    case OnSemaphore(x) => mem.semaphores[x].waiters
    case OnEvent(e) => mem.events[e].waiters
    case OnTask(t) => mem.tasks[t].waiters
  }

  function PutHead(mem: Memory, k: Key, head: Link): Memory
    requires Live(mem, k)
  {
    match k
    case OnMutex(m) => mem.(mutexes := mem.mutexes[m := mem.mutexes[m].(waiters := head)])
    case OnSemaphore(x) => mem.(semaphores := mem.semaphores[x := mem.semaphores[x].(waiters := head)])
    case OnEvent(e) => mem.(events := mem.events[e := mem.events[e].(waiters := head)])
    case OnTask(t) => mem.(tasks := mem.tasks[t := mem.tasks[t].(waiters := head)])
  }

  function PutTask(mem: Memory, t: Task, fields: TaskFields): Memory { mem.(tasks := mem.tasks[t := fields]) }

  /** The next fields spell out the list. */
  ghost predicate Threaded(tasks: map<Task, TaskFields>, list: seq<Task>) {
    forall i: nat {:trigger list[i]} :: i < |list| ==> list[i] in tasks && tasks[list[i]].next == Nth(list, i + 1)
  }

  /** The waitNext fields spell out the chain from its head. */
  ghost predicate Strung(tasks: map<Task, TaskFields>, head: Link, w: seq<Task>) {
    && head == Nth(w, 0)
    && forall i: nat {:trigger w[i]} :: i < |w| ==> w[i] in tasks && tasks[w[i]].waitNext == Nth(w, i + 1)
  }

  ghost predicate TasksShow(tasks: map<Task, TaskFields>, list: seq<Task>, state: map<Task, TaskState>, wake: map<Task, nat>) {
    forall t :: t in list ==>
      t in tasks && t in state && tasks[t].state == state[t] && t in wake && tasks[t].wakeTick == wake[t]
  }

  ghost predicate ChainsShow(mem: Memory, chain: map<Key, seq<Task>>) {
    forall k :: k in chain ==> Live(mem, k) && Strung(mem.tasks, Head(mem, k), chain[k])
  }

  ghost predicate FlagsShow(mem: Memory, locked: map<Mutex, bool>, count: map<Semaphore, nat>, signaled: map<Event, bool>) {
    && (forall m :: m in locked ==> m in mem.mutexes && mem.mutexes[m].locked == locked[m])
    && (forall x :: x in count ==> x in mem.semaphores && mem.semaphores[x].count == count[x])
    && (forall e :: e in signaled ==> e in mem.events && mem.events[e].signaled == signaled[e])
  }

  /** The records and the scheduler's variables are those of the system value. */
  ghost predicate Shows(first: Link, doomed: Link, ticks: nat, mem: Memory, s: Sys) {
    && first == Nth(s.list, 0) && Threaded(mem.tasks, s.list)
    && doomed == s.doomed && ticks == s.ticks
    && TasksShow(mem.tasks, s.list, s.state, s.wake)
    && ChainsShow(mem, s.chain) && FlagsShow(mem, s.locked, s.count, s.signaled)
  }

  // ---------------------------------------------------------------------------
  // Records outside the run list

  const NEW_TASK := TaskFields(Ready, 0, None, None, None)

  /** A record that is not in the run list is new, or that of a task that has died. */
  ghost predicate Buried(tasks: map<Task, TaskFields>, list: seq<Task>) {
    forall t :: t in tasks && t !in list ==> tasks[t] == NEW_TASK || tasks[t].state == Dead
  }

  /** Only records of the list were written. */
  ghost predicate OnlyListed(mem: Memory, mem': Memory, list: seq<Task>) {
    forall t :: t in mem'.tasks && t !in list ==> t in mem.tasks && mem'.tasks[t] == mem.tasks[t]
  }

  lemma StaysBuried(mem: Memory, mem': Memory, list: seq<Task>)
    requires Buried(mem.tasks, list) && OnlyListed(mem, mem', list)
    ensures Buried(mem'.tasks, list)
  {
  }

  lemma PutBuries(mem: Memory, list: seq<Task>, t: Task, fields: TaskFields)
    requires Buried(mem.tasks, list) && t in list
    ensures Buried(PutTask(mem, t, fields).tasks, list)
  {
  }

  lemma CreateBuries(mem: Memory, list: seq<Task>, t: Task)
    requires Buried(mem.tasks, list)
    ensures Buried(PutTask(mem, t, NEW_TASK).tasks, list)
  {
  }

  lemma AddBuries(mem: Memory, list: seq<Task>, t: Task)
    requires Buried(mem.tasks, list)
    ensures Buried(mem.tasks, list + [t])
  {
  }

  lemma RefreshBuries(mem: Memory, s: Sys, ticks: nat)
    requires Buried(mem.tasks, s.list)
    ensures Buried(Refreshed(mem, s.list, ticks).tasks, Update(s).list)
  {
  }

  /** If the task is in the list, it has died. */
  predicate IsDead(s: Sys, t: Task) { t in s.list ==> t in s.state && s.state[t] == Dead }

  /** Unlinking a dead task buries it. */
  lemma RemoveBuries(mem: Memory, mem': Memory, s: Sys, t: Task, it: Task, next: Link)
    requires TasksShow(mem.tasks, s.list, s.state, s.wake) && Buried(mem.tasks, s.list) && Distinct(s.list)
    requires IsDead(s, t)
    requires it in s.list && it != t && (mem' == mem || (it in mem.tasks && mem' == PutTask(mem, it, mem.tasks[it].(next := next))))
    ensures Buried(mem'.tasks, Remove(s, t).list)
  {
    WithoutKeeps(s.list, t);
    hide Without, Distinct;
    assert Remove(s, t).list == Without(s.list, t);
  }

  lemma EnqueueBuries(mem: Memory, list: seq<Task>, t: Task, k: Key)
    requires Buried(mem.tasks, list) && t in mem.tasks && Live(mem, k) && t in list && (k.OnTask? ==> k.t in list)
    ensures Buried(Enqueued(mem, t, k).tasks, list)
  {
    StaysBuried(mem, Enqueued(mem, t, k), list);
  }

  lemma DequeueBuries(mem: Memory, list: seq<Task>, t: Task, k: Key)
    requires Buried(mem.tasks, list) && t in mem.tasks && Live(mem, k) && t in list && (k.OnTask? ==> k.t in list)
    ensures Buried(Dequeued(mem, t, k).tasks, list)
  {
    StaysBuried(mem, Dequeued(mem, t, k), list);
  }

  lemma ClearBuries(mem: Memory, list: seq<Task>, k: Key, w: seq<Task>)
    requires Buried(mem.tasks, list) && Live(mem, k) && (forall t :: t in w ==> t in list) && (k.OnTask? ==> k.t in list)
    ensures Buried(Cleared(mem, k, w).tasks, list)
  {
    StaysBuried(mem, Cleared(mem, k, w), list);
  }

  // ---------------------------------------------------------------------------
  // Chains

  /** Between the two, only the chain of k and the link of one task, or of the tasks in w, are written. */
  ghost predicate Relinks(mem: Memory, mem': Memory, k: Key, w: set<Task>) {
    && (forall j :: Live(mem, j) ==> Live(mem', j) && (j != k ==> Head(mem', j) == Head(mem, j)))
    && (forall u :: u in mem.tasks ==>
          u in mem'.tasks && mem'.tasks[u].next == mem.tasks[u].next
          && (u !in w ==> mem'.tasks[u].waitNext == mem.tasks[u].waitNext))
  }

  lemma StrungSame(tasks: map<Task, TaskFields>, tasks': map<Task, TaskFields>, head: Link, w: seq<Task>)
    requires Strung(tasks, head, w)
    requires forall t :: t in w && t in tasks ==> t in tasks' && tasks'[t].waitNext == tasks[t].waitNext
    ensures Strung(tasks', head, w)
  {
  }

  lemma StrungPush(tasks: map<Task, TaskFields>, head: Link, w: seq<Task>, t: Task)
    requires Strung(tasks, head, w) && t in tasks && tasks[t].waitNext == head
    ensures Strung(tasks, Some(t), [t] + w)
  {
    forall i: nat | i < |w| + 1 ensures ([t] + w)[i] in tasks && tasks[([t] + w)[i]].waitNext == Nth([t] + w, i + 1) {
      if i > 0 {
        assert ([t] + w)[i] == w[i - 1];
      }
    }
  }

  lemma StrungPop(tasks: map<Task, TaskFields>, head: Link, w: seq<Task>)
    requires Strung(tasks, head, w) && w != []
    ensures w[0] in tasks && head == Some(w[0]) && Strung(tasks, tasks[w[0]].waitNext, w[1..])
  {
    forall i: nat | i < |w| - 1 ensures w[1..][i] in tasks && tasks[w[1..][i]].waitNext == Nth(w[1..], i + 1) {
      assert w[1..][i] == w[i + 1];
    }
  }

  /** Putting a task that is on no chain in front of one chain. */
  lemma PushShows(mem: Memory, mem': Memory, chain: map<Key, seq<Task>>, k: Key, t: Task)
    requires ChainsShow(mem, chain) && k in chain && t in mem.tasks && Relinks(mem, mem', k, {t})
    requires forall j :: j in chain ==> t !in chain[j]
    requires Live(mem', k) && Head(mem', k) == Some(t) && t in mem'.tasks && mem'.tasks[t].waitNext == Head(mem, k)
    ensures ChainsShow(mem', chain[k := [t] + chain[k]])
  {
    hide Strung, Head, Live;
    var chain' := chain[k := [t] + chain[k]];
    forall j | j in chain' ensures Live(mem', j) && Strung(mem'.tasks, Head(mem', j), chain'[j]) {
      StrungSame(mem.tasks, mem'.tasks, Head(mem, j), chain[j]);
      if j == k {
        StrungPush(mem'.tasks, Head(mem, k), chain[k], t);
      }
    }
  }

  /** Taking the first task off one chain, and clearing its link. */
  lemma PopShows(mem: Memory, mem': Memory, chain: map<Key, seq<Task>>, k: Key)
    requires ChainsShow(mem, chain) && k in chain && chain[k] != [] && Distinct(chain[k])
    requires Relinks(mem, mem', k, {chain[k][0]})
    requires forall j :: j in chain && j != k ==> chain[k][0] !in chain[j]
    requires var t := chain[k][0]; t in mem.tasks && Live(mem', k) && Head(mem', k) == mem.tasks[t].waitNext
    ensures ChainsShow(mem', chain[k := chain[k][1..]])
  {
    var t, chain' := chain[k][0], chain[k := chain[k][1..]];
    assert t !in chain[k][1..];
    hide Strung, Head, Live, Distinct;
    StrungPop(mem.tasks, Head(mem, k), chain[k]);
    forall j | j in chain' ensures Live(mem', j) && Strung(mem'.tasks, Head(mem', j), chain'[j]) {
      if j == k {
        StrungSame(mem.tasks, mem'.tasks, mem.tasks[t].waitNext, chain[k][1..]);
      } else {
        StrungSame(mem.tasks, mem'.tasks, Head(mem, j), chain[j]);
      }
    }
  }

  /** Waking a whole chain: the links of its tasks are cleared one after the other. */
  lemma ClearShows(mem: Memory, mem': Memory, chain: map<Key, seq<Task>>, k: Key)
    requires ChainsShow(mem, chain) && k in chain && Live(mem', k) && Head(mem', k) == None
    requires Relinks(mem, mem', k, set t | t in chain[k])
    requires forall j, t :: j in chain && j != k && t in chain[j] ==> t !in chain[k]
    ensures ChainsShow(mem', chain[k := []])
  {
    var chain': map<Key, seq<Task>> := chain[k := []];
    forall j | j in chain' ensures Live(mem', j) && Strung(mem'.tasks, Head(mem', j), chain'[j]) {
      if j != k {
        StrungSame(mem.tasks, mem'.tasks, Head(mem, j), chain[j]);
      }
    }
  }

  /** Writes that touch no link. */
  ghost predicate SameLinks(mem: Memory, mem': Memory) {
    && (forall j :: Live(mem, j) ==> Live(mem', j) && Head(mem', j) == Head(mem, j))
    && (forall t :: t in mem.tasks ==>
          t in mem'.tasks && mem'.tasks[t].next == mem.tasks[t].next && mem'.tasks[t].waitNext == mem.tasks[t].waitNext)
  }

  lemma SameLinksShow(mem: Memory, mem': Memory, list: seq<Task>, chain: map<Key, seq<Task>>)
    requires SameLinks(mem, mem') && Threaded(mem.tasks, list) && ChainsShow(mem, chain)
    ensures Threaded(mem'.tasks, list) && ChainsShow(mem', chain)
  {
    forall k | k in chain ensures Live(mem', k) && Strung(mem'.tasks, Head(mem', k), chain[k]) {
      StrungSame(mem.tasks, mem'.tasks, Head(mem, k), chain[k]);
    }
  }

  // ---------------------------------------------------------------------------
  // scheduler_update: the walk over the list

  function Refresh(fields: TaskFields, ticks: nat): TaskFields {
    if fields.state == Sleeping && fields.wakeTick <= ticks then fields.(state := Ready) else fields
  }

  /** The records after the walk over a part of the list. */
  function Refreshed(mem: Memory, done: seq<Task>, ticks: nat): Memory {
    mem.(tasks := map t | t in mem.tasks :: if t in done then Refresh(mem.tasks[t], ticks) else mem.tasks[t])
  }

  lemma RefreshNone(mem: Memory, ticks: nat)
    ensures Refreshed(mem, [], ticks) == mem
  {
    assert Refreshed(mem, [], ticks).tasks == mem.tasks;
  }

  /** One step of the walk: the record of t is refreshed, and its next link leads on. */
  predicate RefreshedBy(mem: Memory, t: Task, ticks: nat, next: Link, mem': Memory) {
    && t in mem.tasks && mem.tasks[t].next == next
    && mem' == if mem.tasks[t].state == Sleeping && mem.tasks[t].wakeTick <= ticks
               then PutTask(mem, t, mem.tasks[t].(state := Ready)) else mem
  }

  lemma RefreshStep(mem: Memory, list: seq<Task>, j: nat, ticks: nat)
    requires Distinct(list) && Threaded(mem.tasks, list) && j < |list|
    ensures RefreshedBy(Refreshed(mem, list[..j], ticks), list[j], ticks, Nth(list, j + 1), Refreshed(mem, list[..j + 1], ticks))
  {
    var t, mid, next := list[j], Refreshed(mem, list[..j], ticks), Refreshed(mem, list[..j + 1], ticks);
    PrefixGrows(list, j);
    hide Distinct;
    assert mid.tasks[t] == mem.tasks[t] && next.tasks[t] == Refresh(mem.tasks[t], ticks);
    assert next.tasks == mid.tasks[t := Refresh(mem.tasks[t], ticks)];
    if mid.tasks[t] == Refresh(mem.tasks[t], ticks) {
      assert mid.tasks[t := mid.tasks[t]] == mid.tasks;
    }
  }

  lemma PrefixGrows(list: seq<Task>, j: nat)
    requires Distinct(list) && j < |list|
    ensures list[j] !in list[..j] && forall u :: u in list[..j + 1] <==> u in list[..j] || u == list[j]
  {
    assert list[..j + 1] == list[..j] + [list[j]];
  }

  lemma RefreshShows(first: Link, doomed: Link, ticks: nat, mem: Memory, s: Sys)
    requires Shows(first, doomed, ticks, mem, s)
    ensures Shows(first, doomed, ticks, Refreshed(mem, s.list, ticks), Update(s))
  {
    SameLinksShow(mem, Refreshed(mem, s.list, ticks), s.list, s.chain);
    RefreshTasks(mem, s);
    hide ChainsShow, Threaded, TasksShow;
  }

  lemma RefreshTasks(mem: Memory, s: Sys)
    requires TasksShow(mem.tasks, s.list, s.state, s.wake)
    ensures TasksShow(Refreshed(mem, s.list, s.ticks).tasks, s.list, Update(s).state, s.wake)
  {
  }

  // ---------------------------------------------------------------------------
  // scheduler_remove: skipping one task

  lemma RemoveAt(s: Sys, t: Task, i: nat)
    requires Distinct(s.list) && |s.list| >= 2 && i < |s.list| && s.list[i] == t
    ensures Remove(s, t).list == s.list[..i] + s.list[i + 1..] && Remove(s, t).list != []
    ensures Remove(s, t).list[0] == if i == 0 then s.list[1] else s.list[0]
    ensures Remove(s, t).current == if s.current != t then s.current else if i + 1 < |s.list| then s.list[i + 1] else s.list[0]
  {
    IndexUnique(s.list, t, i);
    hide IndexOf, Distinct;
  }

  /** Skipping the link of one task threads the list without it. */
  lemma ThreadedWithout(tasks: map<Task, TaskFields>, list: seq<Task>, i: nat)
    requires i < |list| && (i > 0 ==> list[i - 1] in tasks && tasks[list[i - 1]].next == Nth(list, i + 1))
    requires forall k: nat {:trigger list[k]} :: k < |list| && k + 1 != i ==> list[k] in tasks && tasks[list[k]].next == Nth(list, k + 1)
    ensures Threaded(tasks, list[..i] + list[i + 1..])
  {
    var rest := list[..i] + list[i + 1..];
    forall k: nat | k < |rest| ensures rest[k] in tasks && tasks[rest[k]].next == Nth(rest, k + 1) {
      assert rest[k] == list[if k < i then k else k + 1];
    }
  }

  /** Forgetting a task that stays in memory keeps everything but the list. */
  lemma RemoveShows(mem: Memory, s: Sys, t: Task)
    requires TasksShow(mem.tasks, s.list, s.state, s.wake) && ChainsShow(mem, s.chain)
    requires FlagsShow(mem, s.locked, s.count, s.signaled) && Distinct(s.list)
    ensures var s' := Remove(s, t);
            && TasksShow(mem.tasks, s'.list, s'.state, s'.wake) && ChainsShow(mem, s'.chain)
            && FlagsShow(mem, s'.locked, s'.count, s'.signaled) && s'.ticks == s.ticks && s'.doomed == s.doomed
  {
    WithoutKeeps(s.list, t);
    hide Without, IndexOf, Distinct, Strung;
  }

  lemma RemoveMissing(s: Sys, t: Task)
    requires t !in s.list
    ensures Remove(s, t) == s
  {
  }

  /** The run list and the chains use different links. */
  lemma NextIsNoLink(mem: Memory, t: Task, next: Link, s: Sys)
    requires t in mem.tasks
    requires TasksShow(mem.tasks, s.list, s.state, s.wake) && ChainsShow(mem, s.chain) && FlagsShow(mem, s.locked, s.count, s.signaled)
    ensures var mem' := PutTask(mem, t, mem.tasks[t].(next := next));
            TasksShow(mem'.tasks, s.list, s.state, s.wake) && ChainsShow(mem', s.chain) && FlagsShow(mem', s.locked, s.count, s.signaled)
  {
    var mem' := PutTask(mem, t, mem.tasks[t].(next := next));
    forall k | k in s.chain ensures Live(mem', k) && Strung(mem'.tasks, Head(mem', k), s.chain[k]) {
      StrungSame(mem.tasks, mem'.tasks, Head(mem, k), s.chain[k]);
    }
  }

  lemma UnlinkFirst(first: Link, doomed: Link, ticks: nat, mem: Memory, s: Sys)
    requires Shows(first, doomed, ticks, mem, s) && Distinct(s.list) && |s.list| >= 2
    ensures var t := s.list[0];
            && t in mem.tasks && mem.tasks[t].next.Some? && Shows(mem.tasks[t].next, doomed, ticks, mem, Remove(s, t))
            && Some(Remove(s, t).current) == if s.current == t then mem.tasks[t].next else Some(s.current)
  {
    hide Distinct, TasksShow, ChainsShow, FlagsShow, Remove;
    RemoveAt(s, s.list[0], 0);
    ThreadedWithout(mem.tasks, s.list, 0);
    RemoveShows(mem, s, s.list[0]);
  }

  lemma UnlinkLater(first: Link, doomed: Link, ticks: nat, mem: Memory, s: Sys, j: nat)
    requires Shows(first, doomed, ticks, mem, s) && Distinct(s.list) && j + 1 < |s.list|
    ensures var it, t := s.list[j], s.list[j + 1];
            && it in mem.tasks && t in mem.tasks
            && Shows(first, doomed, ticks, PutTask(mem, it, mem.tasks[it].(next := mem.tasks[t].next)), Remove(s, t))
            && Some(Remove(s, t).current) ==
               if s.current != t then Some(s.current) else if mem.tasks[t].next != None then mem.tasks[t].next else first
  {
    hide Distinct, TasksShow, ChainsShow, FlagsShow, Remove;
    var it, t := s.list[j], s.list[j + 1];
    RemoveAt(s, t, j + 1);
    OthersDiffer(s.list, j);
    var mem' := PutTask(mem, it, mem.tasks[it].(next := mem.tasks[t].next));
    NextIsNoLink(mem, it, mem.tasks[t].next, s);
    ThreadedWithout(mem'.tasks, s.list, j + 1);
    RemoveShows(mem', s, t);
  }

  // ---------------------------------------------------------------------------
  // The other steps

  /** Writes of states, wake ticks and flags only. */
  lemma StatesShow(first: Link, doomed: Link, ticks: nat, mem: Memory, s: Sys, mem': Memory, s': Sys)
    requires Shows(first, s.doomed, ticks, mem, s) && SameLinks(mem, mem')
    requires s'.list == s.list && s'.chain == s.chain && s'.ticks == s.ticks && s'.doomed == doomed
    requires TasksShow(mem'.tasks, s.list, s'.state, s'.wake) && FlagsShow(mem', s'.locked, s'.count, s'.signaled)
    ensures Shows(first, doomed, ticks, mem', s')
  {
    hide TasksShow, FlagsShow, SameLinks, Threaded, ChainsShow;
    SameLinksShow(mem, mem', s.list, s.chain);
  }

  lemma PutStateTasks(tasks: map<Task, TaskFields>, s: Sys, t: Task, v: TaskState)
    requires TasksShow(tasks, s.list, s.state, s.wake) && t in tasks
    ensures TasksShow(tasks[t := tasks[t].(state := v)], s.list, s.state[t := v], s.wake)
  {
  }

  lemma PutTaskLinks(mem: Memory, t: Task, state: TaskState, wake: nat)
    requires t in mem.tasks
    ensures SameLinks(mem, PutTask(mem, t, mem.tasks[t].(state := state, wakeTick := wake)))
  {
  }

  lemma PutTaskFlags(mem: Memory, s: Sys, t: Task, fields: TaskFields)
    requires FlagsShow(mem, s.locked, s.count, s.signaled)
    ensures FlagsShow(PutTask(mem, t, fields), s.locked, s.count, s.signaled)
  {
  }

  lemma TaskShown(tasks: map<Task, TaskFields>, s: Sys, t: Task)
    requires TasksShow(tasks, s.list, s.state, s.wake) && t in s.list
    ensures t in tasks && t in s.state && tasks[t].state == s.state[t]
  {
  }

  function WithState(s: Sys, t: Task, v: TaskState): Sys { s.(state := s.state[t := v]) }

  lemma WithStateIs(s: Sys, t: Task, v: TaskState)
    ensures var s' := WithState(s, t, v);
            && SameBut(s.(state := s'.state), s') && s'.state == s.state[t := v] && s'.current == s.current
            && s'.locked == s.locked && s'.count == s.count && s'.signaled == s.signaled
  {
  }

  /** Writing the state of one task. */
  lemma PutStateShows(first: Link, doomed: Link, ticks: nat, mem: Memory, s: Sys, t: Task, v: TaskState)
    requires Shows(first, doomed, ticks, mem, s) && t in s.list
    ensures t in mem.tasks && t in s.state && mem.tasks[t].state == s.state[t]
    ensures Shows(first, doomed, ticks, PutTask(mem, t, mem.tasks[t].(state := v)), WithState(s, t, v))
  {
    hide TasksShow, FlagsShow, SameLinks, Threaded, ChainsShow, WithState;
    WithStateIs(s, t, v);
    TaskShown(mem.tasks, s, t);
    var mem' := PutTask(mem, t, mem.tasks[t].(state := v));
    PutStateTasks(mem.tasks, s, t, v);
    PutTaskLinks(mem, t, v, mem.tasks[t].wakeTick);
    PutTaskFlags(mem, s, t, mem.tasks[t].(state := v));
    StatesShow(first, doomed, ticks, mem, s, mem', WithState(s, t, v));
  }

  /** The record of a task that gives up the processor. */
  function Yielded(mem: Memory, t: Task): Memory
    requires t in mem.tasks
  {
    if mem.tasks[t].state == Running then PutTask(mem, t, mem.tasks[t].(state := Ready)) else mem
  }

  lemma YieldedIsPut(mem: Memory, t: Task)
    requires t in mem.tasks
    ensures var v := if mem.tasks[t].state == Running then Ready else mem.tasks[t].state;
            Yielded(mem, t) == PutTask(mem, t, mem.tasks[t].(state := v))
    ensures Yielded(mem, t).tasks.Keys == mem.tasks.Keys
    ensures Yielded(mem, t).tasks[t].state == Dead <==> mem.tasks[t].state == Dead
  {
    if mem.tasks[t].state != Running {
      assert mem.tasks[t := mem.tasks[t]] == mem.tasks;
    }
  }

  lemma SwitchIsPut(s: Sys, n: Task)
    requires s.current in s.state && n in s.state && n != s.current
    ensures var st := s.state[s.current];
            SwitchTo(s, n) == WithState(WithState(s, s.current, if st == Running then Ready else st), n, Running)
                              .(current := n, doomed := if st == Dead && s.doomed.None? then Some(s.current) else s.doomed)
  {
  }

  lemma SwitchReads(first: Link, doomed: Link, ticks: nat, mem: Memory, s: Sys, n: Task)
    requires Shows(first, doomed, ticks, mem, s) && s.current in s.list && n in s.list
    ensures s.current in mem.tasks && n in mem.tasks && s.current in s.state && n in s.state && doomed == s.doomed
    ensures mem.tasks[s.current].state == s.state[s.current]
    ensures var mem1 := Yielded(mem, s.current);
            n in mem1.tasks && (mem1.tasks[s.current].state == Dead <==> mem.tasks[s.current].state == Dead)
  {
    hide Shows, PutTask, Yielded;
    ListedTask(first, doomed, ticks, mem, s, s.current);
    ListedTask(first, doomed, ticks, mem, s, n);
    YieldedIsPut(mem, s.current);
  }

  lemma SwitchStates(first: Link, doomed: Link, ticks: nat, mem: Memory, s: Sys, n: Task, v: TaskState)
    requires Shows(first, doomed, ticks, mem, s) && s.current in s.list && n in s.list && s.current in s.state && s.current in mem.tasks
    requires v == if s.state[s.current] == Running then Ready else s.state[s.current]
    ensures n in Yielded(mem, s.current).tasks
    ensures var mem1 := Yielded(mem, s.current);
            Shows(first, doomed, ticks, PutTask(mem1, n, mem1.tasks[n].(state := Running)), WithState(WithState(s, s.current, v), n, Running))
  {
    hide Yielded, Shows, PutTask, WithState;
    PutStateShows(first, doomed, ticks, mem, s, s.current, v);
    YieldedIsPut(mem, s.current);
    WithStateIs(s, s.current, v);
    PutStateShows(first, doomed, ticks, Yielded(mem, s.current), WithState(s, s.current, v), n, Running);
  }

  lemma SwitchShows(first: Link, doomed: Link, ticks: nat, mem: Memory, s: Sys, n: Task)
    requires Shows(first, doomed, ticks, mem, s) && s.current in s.list && n in s.list && n != s.current
    ensures s.current in mem.tasks && n in Yielded(mem, s.current).tasks
    ensures var mem1 := Yielded(mem, s.current);
            Shows(first, if mem.tasks[s.current].state == Dead && doomed == None then Some(s.current) else doomed, ticks,
                  PutTask(mem1, n, mem1.tasks[n].(state := Running)), SwitchTo(s, n))
  {
    hide SwitchTo, Yielded, Shows, PutTask, WithState;
    SwitchReads(first, doomed, ticks, mem, s, n);
    var v := if s.state[s.current] == Running then Ready else s.state[s.current];
    SwitchStates(first, doomed, ticks, mem, s, n, v);
    SwitchIsPut(s, n);
    var mem1, s2 := Yielded(mem, s.current), WithState(WithState(s, s.current, v), n, Running);
    DoomShows(first, doomed, ticks, PutTask(mem1, n, mem1.tasks[n].(state := Running)), s2, SwitchTo(s, n));
  }

  lemma ListedTask(first: Link, doomed: Link, ticks: nat, mem: Memory, s: Sys, t: Task)
    requires Shows(first, doomed, ticks, mem, s) && t in s.list
    ensures t in mem.tasks && t in s.state && mem.tasks[t].state == s.state[t] && doomed == s.doomed && first != None
  {
    hide Threaded, ChainsShow, FlagsShow;
  }

  /** The records know neither the current task nor, but for one variable, the doomed one. */
  lemma DoomShows(first: Link, doomed: Link, ticks: nat, mem: Memory, s: Sys, s': Sys)
    requires Shows(first, doomed, ticks, mem, s)
    requires s' == s.(current := s'.current, doomed := s'.doomed)
    ensures Shows(first, s'.doomed, ticks, mem, s')
  {
    hide Threaded, TasksShow, ChainsShow, FlagsShow;
  }

  // ---------------------------------------------------------------------------
  // Blocking and waking

  lemma RelinkShows(first: Link, doomed: Link, ticks: nat, mem: Memory, s: Sys, mem': Memory, s': Sys, k: Key, w: set<Task>)
    requires Shows(first, doomed, ticks, mem, s) && Relinks(mem, mem', k, w)
    requires s'.list == s.list && s'.ticks == s.ticks && s'.doomed == s.doomed
    requires TasksShow(mem'.tasks, s'.list, s'.state, s'.wake)
    requires ChainsShow(mem', s'.chain) && FlagsShow(mem', s'.locked, s'.count, s'.signaled)
    ensures Shows(first, doomed, ticks, mem', s')
  {
    hide TasksShow, FlagsShow, ChainsShow;
  }

  /** The records after the current task t has queued itself on k. */
  function Enqueued(mem: Memory, t: Task, k: Key): Memory
    requires t in mem.tasks && Live(mem, k)
    ensures Live(Enqueued(mem, t, k), k)
  {
    PutHead(PutTask(mem, t, mem.tasks[t].(state := Blocked, waitNext := Head(mem, k))), k, Some(t))
  }

  lemma EnqueueRelinks(mem: Memory, t: Task, k: Key)
    requires t in mem.tasks && Live(mem, k) && k != OnTask(t)
    ensures Relinks(mem, Enqueued(mem, t, k), k, {t})
    ensures Head(Enqueued(mem, t, k), k) == Some(t)
    ensures t in Enqueued(mem, t, k).tasks && Enqueued(mem, t, k).tasks[t].waitNext == Head(mem, k)
  {
  }

  lemma EnqueueTasks(mem: Memory, t: Task, k: Key, s: Sys)
    requires t in mem.tasks && Live(mem, k)
    requires TasksShow(mem.tasks, s.list, s.state, s.wake) && FlagsShow(mem, s.locked, s.count, s.signaled)
    ensures TasksShow(Enqueued(mem, t, k).tasks, s.list, s.state[t := Blocked], s.wake)
    ensures FlagsShow(Enqueued(mem, t, k), s.locked, s.count, s.signaled)
  {
  }

  lemma BlockShows(first: Link, doomed: Link, ticks: nat, mem: Memory, s: Sys, k: Key)
    requires Shows(first, doomed, ticks, mem, s) && s.current in s.list && k in s.chain && k != OnTask(s.current)
    requires forall j :: j in s.chain ==> s.current !in s.chain[j]
    ensures s.current in mem.tasks && Live(mem, k)
    ensures Shows(first, doomed, ticks, Enqueued(mem, s.current, k), Block(s, k))
  {
    var mem' := Enqueued(mem, s.current, k);
    EnqueueRelinks(mem, s.current, k);
    EnqueueTasks(mem, s.current, k, s);
    hide Enqueued, TasksShow, FlagsShow, Threaded, Relinks;
    PushShows(mem, mem', s.chain, k, s.current);
    hide ChainsShow;
    RelinkShows(first, doomed, ticks, mem, s, mem', Block(s, k), k, {s.current});
  }

  /** The records after the first task t of the chain of k has been woken. */
  function Dequeued(mem: Memory, t: Task, k: Key): Memory
    requires t in mem.tasks && Live(mem, k)
    ensures Live(Dequeued(mem, t, k), k)
  {
    var mem1 := PutHead(mem, k, mem.tasks[t].waitNext);
    PutTask(mem1, t, mem1.tasks[t].(waitNext := None, state := Ready))
  }

  lemma DequeueRelinks(mem: Memory, t: Task, k: Key)
    requires t in mem.tasks && Live(mem, k)
    ensures Relinks(mem, Dequeued(mem, t, k), k, {t})
    ensures Head(Dequeued(mem, t, k), k) == mem.tasks[t].waitNext
  {
  }

  lemma DequeueTasks(mem: Memory, t: Task, k: Key, s: Sys)
    requires t in mem.tasks && Live(mem, k)
    requires TasksShow(mem.tasks, s.list, s.state, s.wake) && FlagsShow(mem, s.locked, s.count, s.signaled)
    ensures TasksShow(Dequeued(mem, t, k).tasks, s.list, s.state[t := Ready], s.wake)
    ensures FlagsShow(Dequeued(mem, t, k), s.locked, s.count, s.signaled)
  {
  }

  lemma ChainFacts(chain: map<Key, seq<Task>>, waitsOn: map<Task, Key>, k: Key)
    requires Chained(chain, waitsOn) && k in chain
    ensures Distinct(chain[k])
    ensures forall j, t :: j in chain && j != k && t in chain[j] ==> t !in chain[k]
  {
    hide Distinct;
    forall j, t | j in chain && j != k && t in chain[j] ensures t !in chain[k] {
      assert waitsOn[t] == j;
    }
  }

  lemma HeadReads(first: Link, doomed: Link, ticks: nat, mem: Memory, s: Sys, k: Key)
    requires Shows(first, doomed, ticks, mem, s) && k in s.chain
    ensures Live(mem, k) && Head(mem, k) == Nth(s.chain[k], 0)
    ensures s.chain[k] != [] ==> s.chain[k][0] in mem.tasks
  {
    hide TasksShow, FlagsShow, Threaded, Live, Head;
  }

  lemma WakeOneShows(first: Link, doomed: Link, ticks: nat, mem: Memory, s: Sys, k: Key)
    requires Shows(first, doomed, ticks, mem, s) && Chained(s.chain, s.waitsOn) && k in s.chain && s.chain[k] != []
    ensures Live(mem, k) && s.chain[k][0] in mem.tasks
    ensures Shows(first, doomed, ticks, Dequeued(mem, s.chain[k][0], k), WakeOne(s, k))
  {
    hide Dequeued, TasksShow, FlagsShow, Threaded, Relinks, Strung, Distinct, Chained, ChainsShow, Live, Head;
    ChainFacts(s.chain, s.waitsOn, k);
    HeadReads(first, doomed, ticks, mem, s, k);
    var t := s.chain[k][0];
    var mem' := Dequeued(mem, t, k);
    DequeueRelinks(mem, t, k);
    DequeueTasks(mem, t, k, s);
    assert t in s.chain[k];
    PopShows(mem, mem', s.chain, k);
    RelinkShows(first, doomed, ticks, mem, s, mem', WakeOne(s, k), k, {t});
  }

  /** The records after the walk that wakes the tasks of a chain, up to a point. */
  function Woken(mem: Memory, done: seq<Task>): Memory {
    mem.(tasks := map t | t in mem.tasks ::
           if t in done then mem.tasks[t].(state := Ready, waitNext := None) else mem.tasks[t])
  }

  lemma WokenNone(mem: Memory)
    ensures Woken(mem, []) == mem
  {
    assert Woken(mem, []).tasks == mem.tasks;
  }

  /** One step of the walk: t becomes ready, and its old link leads on. */
  predicate WokenBy(mem: Memory, t: Task, next: Link, mem': Memory) {
    && t in mem.tasks && mem.tasks[t].waitNext == next
    && mem' == PutTask(mem, t, mem.tasks[t].(state := Ready, waitNext := None))
  }

  lemma WokenStep(mem: Memory, head: Link, w: seq<Task>, j: nat)
    requires Distinct(w) && Strung(mem.tasks, head, w) && j < |w|
    ensures WokenBy(Woken(mem, w[..j]), w[j], Nth(w, j + 1), Woken(mem, w[..j + 1]))
  {
    var t, mid, next := w[j], Woken(mem, w[..j]), Woken(mem, w[..j + 1]);
    PrefixGrows(w, j);
    hide Distinct;
    assert next.tasks == PutTask(mid, t, mid.tasks[t].(state := Ready, waitNext := None)).tasks;
  }

  lemma StrungHead(tasks: map<Task, TaskFields>, head: Link, w: seq<Task>)
    requires Strung(tasks, head, w)
    ensures head == Nth(w, 0)
  {
  }

  lemma WokenLive(mem: Memory, w: seq<Task>, k: Key)
    requires Live(mem, k)
    ensures Live(Woken(mem, w), k)
  {
  }

  function Cleared(mem: Memory, k: Key, w: seq<Task>): Memory
    requires Live(mem, k)
    ensures Live(Cleared(mem, k, w), k)
  {
    PutHead(Woken(mem, w), k, None)
  }

  lemma ClearRelinks(mem: Memory, k: Key, w: seq<Task>)
    requires Live(mem, k)
    ensures Relinks(mem, Cleared(mem, k, w), k, set t | t in w) && Head(Cleared(mem, k, w), k) == None
  {
  }

  lemma ClearTasks(mem: Memory, k: Key, s: Sys)
    requires Live(mem, k) && k in s.chain && TasksShow(mem.tasks, s.list, s.state, s.wake)
    ensures TasksShow(Cleared(mem, k, s.chain[k]).tasks, s.list, WakeAll(s, k).state, s.wake)
  {
  }

  lemma ClearFlags(mem: Memory, k: Key, s: Sys)
    requires Live(mem, k) && k in s.chain && FlagsShow(mem, s.locked, s.count, s.signaled)
    ensures FlagsShow(Cleared(mem, k, s.chain[k]), s.locked, s.count, s.signaled)
  {
  }

  lemma WakeAllShows(first: Link, doomed: Link, ticks: nat, mem: Memory, s: Sys, k: Key)
    requires Shows(first, doomed, ticks, mem, s) && Chained(s.chain, s.waitsOn) && k in s.chain
    ensures Live(mem, k) && Shows(first, doomed, ticks, Cleared(mem, k, s.chain[k]), WakeAll(s, k))
  {
    hide TasksShow, FlagsShow, Threaded, Strung, Distinct, Chained, ChainsShow, Live, Head, Cleared, Relinks;
    ChainFacts(s.chain, s.waitsOn, k);
    HeadReads(first, doomed, ticks, mem, s, k);
    var mem' := Cleared(mem, k, s.chain[k]);
    ClearRelinks(mem, k, s.chain[k]);
    ClearTasks(mem, k, s);
    ClearFlags(mem, k, s);
    ClearShows(mem, mem', s.chain, k);
    RelinkShows(first, doomed, ticks, mem, s, mem', WakeAll(s, k), k, set t | t in s.chain[k]);
  }

  // ---------------------------------------------------------------------------
  // Flags, new tasks, sleeping and dying

  function PutLocked(mem: Memory, m: Mutex, v: bool): Memory
    requires m in mem.mutexes
  {
    mem.(mutexes := mem.mutexes[m := mem.mutexes[m].(locked := v)])
  }

  function PutCount(mem: Memory, x: Semaphore, v: nat): Memory
    requires x in mem.semaphores
  {
    mem.(semaphores := mem.semaphores[x := mem.semaphores[x].(count := v)])
  }

  function PutSignaled(mem: Memory, e: Event, v: bool): Memory
    requires e in mem.events
  {
    mem.(events := mem.events[e := mem.events[e].(signaled := v)])
  }

  /** The parts of the system value that the records show. */
  ghost predicate SameBut(s: Sys, s': Sys) {
    && s'.list == s.list && s'.state == s.state && s'.wake == s.wake && s'.chain == s.chain
    && s'.ticks == s.ticks && s'.doomed == s.doomed
  }

  lemma FlagLocked(mem: Memory, locked: map<Mutex, bool>, count: map<Semaphore, nat>, signaled: map<Event, bool>, m: Mutex, v: bool)
    requires FlagsShow(mem, locked, count, signaled) && m in locked
    ensures m in mem.mutexes && mem.mutexes[m].locked == locked[m] && SameLinks(mem, PutLocked(mem, m, v))
    ensures FlagsShow(PutLocked(mem, m, v), locked[m := v], count, signaled)
  {
  }

  lemma FlagCount(mem: Memory, locked: map<Mutex, bool>, count: map<Semaphore, nat>, signaled: map<Event, bool>, x: Semaphore, v: nat)
    requires FlagsShow(mem, locked, count, signaled) && x in count
    ensures x in mem.semaphores && mem.semaphores[x].count == count[x] && SameLinks(mem, PutCount(mem, x, v))
    ensures FlagsShow(PutCount(mem, x, v), locked, count[x := v], signaled)
  {
  }

  lemma FlagSignaled(mem: Memory, locked: map<Mutex, bool>, count: map<Semaphore, nat>, signaled: map<Event, bool>, e: Event, v: bool)
    requires FlagsShow(mem, locked, count, signaled) && e in signaled
    ensures e in mem.events && mem.events[e].signaled == signaled[e] && SameLinks(mem, PutSignaled(mem, e, v))
    ensures FlagsShow(PutSignaled(mem, e, v), locked, count, signaled[e := v])
  {
  }

  lemma LockedShows(first: Link, doomed: Link, ticks: nat, mem: Memory, s: Sys, m: Mutex, v: bool, s': Sys)
    requires Shows(first, doomed, ticks, mem, s) && m in s.locked && SameBut(s, s')
    requires s'.locked == s.locked[m := v] && s'.count == s.count && s'.signaled == s.signaled
    ensures m in mem.mutexes && mem.mutexes[m].locked == s.locked[m] && Shows(first, doomed, ticks, PutLocked(mem, m, v), s')
  {
    hide Threaded, ChainsShow, TasksShow, SameLinks, FlagsShow;
    FlagLocked(mem, s.locked, s.count, s.signaled, m, v);
    StatesShow(first, doomed, ticks, mem, s, PutLocked(mem, m, v), s');
  }

  lemma CountShows(first: Link, doomed: Link, ticks: nat, mem: Memory, s: Sys, x: Semaphore, v: nat, s': Sys)
    requires Shows(first, doomed, ticks, mem, s) && x in s.count && SameBut(s, s')
    requires s'.locked == s.locked && s'.count == s.count[x := v] && s'.signaled == s.signaled
    ensures x in mem.semaphores && mem.semaphores[x].count == s.count[x] && Shows(first, doomed, ticks, PutCount(mem, x, v), s')
  {
    hide Threaded, ChainsShow, TasksShow, SameLinks, FlagsShow;
    FlagCount(mem, s.locked, s.count, s.signaled, x, v);
    StatesShow(first, doomed, ticks, mem, s, PutCount(mem, x, v), s');
  }

  lemma SignaledShows(first: Link, doomed: Link, ticks: nat, mem: Memory, s: Sys, e: Event, v: bool, s': Sys)
    requires Shows(first, doomed, ticks, mem, s) && e in s.signaled && SameBut(s, s')
    requires s'.locked == s.locked && s'.count == s.count && s'.signaled == s.signaled[e := v]
    ensures e in mem.events && mem.events[e].signaled == s.signaled[e] && Shows(first, doomed, ticks, PutSignaled(mem, e, v), s')
  {
    hide Threaded, ChainsShow, TasksShow, SameLinks, FlagsShow;
    FlagSignaled(mem, s.locked, s.count, s.signaled, e, v);
    StatesShow(first, doomed, ticks, mem, s, PutSignaled(mem, e, v), s');
  }

  lemma DozeTasks(tasks: map<Task, TaskFields>, s: Sys, n: nat)
    requires TasksShow(tasks, s.list, s.state, s.wake) && s.current in s.list
    ensures s.current in tasks
    ensures TasksShow(tasks[s.current := tasks[s.current].(wakeTick := s.ticks + n, state := Sleeping)], s.list, Doze(s, n).state, Doze(s, n).wake)
  {
  }

  lemma DozeShows(first: Link, doomed: Link, ticks: nat, mem: Memory, s: Sys, n: nat)
    requires Shows(first, doomed, ticks, mem, s) && s.current in s.list
    ensures s.current in mem.tasks
    ensures Shows(first, doomed, ticks, PutTask(mem, s.current, mem.tasks[s.current].(wakeTick := ticks + n, state := Sleeping)), Doze(s, n))
  {
    DozeTasks(mem.tasks, s, n);
    var fields := mem.tasks[s.current].(wakeTick := ticks + n, state := Sleeping);
    PutTaskLinks(mem, s.current, Sleeping, ticks + n);
    PutTaskFlags(mem, s, s.current, fields);
    hide Threaded, ChainsShow, TasksShow, SameLinks, FlagsShow;
    StatesShow(first, doomed, ticks, mem, s, PutTask(mem, s.current, fields), Doze(s, n));
  }

  /** Appending to the list: the last task's link leads to the new one. */
  lemma ThreadedAdd(tasks: map<Task, TaskFields>, list: seq<Task>, t: Task)
    requires Threaded(tasks, list) && Distinct(list) && list != [] && t !in list && t in tasks && tasks[t].next == None
    ensures var last := list[|list| - 1];
            last in tasks && Threaded(tasks[last := tasks[last].(next := Some(t))], list + [t])
  {
    OthersDiffer(list, |list| - 1);
    hide Distinct;
  }

  lemma AddShows(first: Link, doomed: Link, ticks: nat, mem: Memory, s: Sys, t: Task)
    requires Shows(first, doomed, ticks, mem, s) && Distinct(s.list) && s.list != []
    requires t !in s.list && t in mem.tasks && mem.tasks[t] == NEW_TASK
    ensures s.list[|s.list| - 1] in mem.tasks
    ensures var last := s.list[|s.list| - 1];
            Shows(first, doomed, ticks, PutTask(mem, last, mem.tasks[last].(next := Some(t))), Added(s, t))
  {
    var last, s' := s.list[|s.list| - 1], Added(s, t);
    ThreadedAdd(mem.tasks, s.list, t);
    var mem' := PutTask(mem, last, mem.tasks[last].(next := Some(t)));
    hide Threaded, Distinct, TasksShow, ChainsShow, FlagsShow;
    NextIsNoLink(mem, last, Some(t), s);
    AddTasks(mem'.tasks, s, t);
    AddChains(mem', s.chain, t);
  }

  lemma AddTasks(tasks: map<Task, TaskFields>, s: Sys, t: Task)
    requires TasksShow(tasks, s.list, s.state, s.wake) && t in tasks && tasks[t].state == Ready && tasks[t].wakeTick == 0
    ensures TasksShow(tasks, s.list + [t], s.state[t := Ready], s.wake[t := 0])
  {
  }

  lemma AddChains(mem: Memory, chain: map<Key, seq<Task>>, t: Task)
    requires ChainsShow(mem, chain) && t in mem.tasks && mem.tasks[t].waiters == None
    ensures ChainsShow(mem, chain[OnTask(t) := []])
  {
  }
}
