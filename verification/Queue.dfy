// The bounded queue under every interleaving of its callers: each line of queue_push and
// queue_pop is one atomic step of one thread.
module Queue {
  import opened Lists
  import opened Words
  import opened Sync

  type Tid = nat
  /** A pointer; NULL is 0. */
  type Item = nat
  const NULL: Item := 0

  /** Where a thread is: the line it executes next, or what it is blocked on. */
  datatype Pc =
    | Idle
    | PushEnter(item: Item) | PushBlockedSpace(item: Item)
    | PushLock(item: Item) | PushBlockedLock(item: Item)
    | PushStore(item: Item) | PushTail | PushSize | PushWrap | PushUnlock | PushSignal
    | PopEnter | PopBlockedItems
    | PopLock | PopBlockedLock
    | PopLoad | PopHead(item: Item) | PopSize(item: Item) | PopWrap(item: Item) | PopUnlock(item: Item) | PopSignal(item: Item)

  predicate InCritical(c: Pc) {
    c.PushStore? || c.PushTail? || c.PushSize? || c.PushWrap? || c.PushUnlock?
    || c.PopLoad? || c.PopHead? || c.PopSize? || c.PopWrap? || c.PopUnlock?
  }

  predicate Blocked(c: Pc) {
    c.PushBlockedSpace? || c.PopBlockedItems? || c.PushBlockedLock? || c.PopBlockedLock?
  }

  /** What a thread has been granted and not yet passed on. */
  datatype Phase = Outside | PushGranted | PushStored | PopGranted | PopLoaded

  function PhaseOf(c: Pc): Phase {
    if c.PushLock? || c.PushBlockedLock? || c.PushStore? then PushGranted
    else if c.PushTail? || c.PushSize? || c.PushWrap? || c.PushUnlock? || c.PushSignal? then PushStored
    else if c.PopLock? || c.PopBlockedLock? || c.PopLoad? then PopGranted
    else if c.PopHead? || c.PopSize? || c.PopWrap? || c.PopUnlock? || c.PopSignal? then PopLoaded
    else Outside
  }

  /** The queue record, the threads, and three things the code does not store: who is in
      the critical section and the items stored and loaded so far, in order. */
  datatype Queue = Queue(
    capacity: nat, buffer: seq<Item>, head: nat, tail: nat, size: int,
    items: Semaphore<Tid>, space: Semaphore<Tid>, lock: Mutex<Tid>,
    pc: map<Tid, Pc>,
    owner: Option<Tid>, pushed: seq<Item>, popped: seq<Item>)

  /** queue_init: the size field keeps whatever the memory held. */
  function Init(capacity: nat, buffer: seq<Item>, garbage: int, threads: set<Tid>): Queue {
    Queue(capacity, buffer, 0, 0, garbage, Semaphore(0, []), Semaphore(capacity, []), Mutex(false, []),
          map t | t in threads :: Idle, None, [], [])
  }

  datatype Action = StartPush(t: Tid, item: Item) | StartPop(t: Tid) | Go(t: Tid)

  predicate Enabled(q: Queue, a: Action) {
    && a.t in q.pc
    && (a.Go? <==> !q.pc[a.t].Idle?)
    && !Blocked(q.pc[a.t])
  }

  function Granted(c: Pc): Pc {
    match c
    case PushBlockedSpace(i) => PushLock(i)
    case PopBlockedItems => PopLock
    case PushBlockedLock(i) => PushStore(i)
    case PopBlockedLock => PopLoad
    case _ => c
  }

  /** Lets a woken thread continue with what it was blocked on. */
  function Wake(pc: map<Tid, Pc>, woken: Option<Tid>): map<Tid, Pc> {
    match woken
    case None => pc
    case Some(u) => if u in pc then pc[u := Granted(pc[u])] else pc
  }

  function Step(q: Queue, a: Action): Queue
    requires Enabled(q, a) && |q.buffer| == q.capacity
  {
    var t := a.t;
    match a
    case StartPush(_, item) => if item == NULL then q else q.(pc := q.pc[t := PushEnter(item)])
    case StartPop(_) => q.(pc := q.pc[t := PopEnter])
    case Go(_) =>
      match q.pc[t]
      case PushEnter(item) =>
        var (s, ok) := Wait(q.space, t);
        q.(space := s, pc := q.pc[t := if ok then PushLock(item) else PushBlockedSpace(item)])
      case PushLock(item) =>
        var (m, ok) := Lock(q.lock, t);
        q.(lock := m, pc := q.pc[t := if ok then PushStore(item) else PushBlockedLock(item)],
           owner := if ok then Some(t) else q.owner)
      case PushStore(item) =>
        q.(buffer := if q.tail < |q.buffer| then q.buffer[q.tail := item] else q.buffer,
           pc := q.pc[t := PushTail], pushed := q.pushed + [item])
      case PushTail => q.(tail := q.tail + 1, pc := q.pc[t := PushSize])
      case PushSize => q.(size := q.size + 1, pc := q.pc[t := PushWrap])
      case PushWrap => q.(tail := if q.tail == q.capacity then 0 else q.tail, pc := q.pc[t := PushUnlock])
      case PushUnlock =>
        var (m, woken) := Unlock(q.lock);
        q.(lock := m, pc := Wake(q.pc[t := PushSignal], woken), owner := woken)
      case PushSignal =>
        var (s, woken) := Signal(q.items);
        q.(items := s, pc := Wake(q.pc[t := Idle], woken))
      case PopEnter =>
        var (s, ok) := Wait(q.items, t);
        q.(items := s, pc := q.pc[t := if ok then PopLock else PopBlockedItems])
      case PopLock =>
        var (m, ok) := Lock(q.lock, t);
        q.(lock := m, pc := q.pc[t := if ok then PopLoad else PopBlockedLock],
           owner := if ok then Some(t) else q.owner)
      case PopLoad =>
        if q.head < |q.buffer| then
          var item := q.buffer[q.head];
          q.(pc := q.pc[t := PopHead(item)], popped := q.popped + [item])
        else q
      case PopHead(item) => q.(head := q.head + 1, pc := q.pc[t := PopSize(item)])
      case PopSize(item) => q.(size := q.size - 1, pc := q.pc[t := PopWrap(item)])
      case PopWrap(item) => q.(head := if q.head == q.capacity then 0 else q.head, pc := q.pc[t := PopUnlock(item)])
      case PopUnlock(item) =>
        var (m, woken) := Unlock(q.lock);
        q.(lock := m, pc := Wake(q.pc[t := PopSignal(item)], woken), owner := woken)
      case PopSignal(item) =>
        var (s, woken) := Signal(q.space);
        q.(space := s, pc := Wake(q.pc[t := Idle], woken))
  }

  // ---------------------------------------------------------------------------
  // Invariant

  function In(pc: map<Tid, Pc>, phase: Phase): set<Tid> {
    set t | t in pc && PhaseOf(pc[t]) == phase
  }

  function Count(pc: map<Tid, Pc>, phase: Phase): nat { |In(pc, phase)| }

  /** Permits are conserved: every item and every free slot is counted by a semaphore or
      is in the hands of one thread. */
  ghost predicate Permits(q: Queue) {
    && |q.pushed| - |q.popped| == q.items.count + Count(q.pc, PushStored) + Count(q.pc, PopGranted)
    && q.capacity - (|q.pushed| - |q.popped|) == q.space.count + Count(q.pc, PushGranted) + Count(q.pc, PopLoaded)
  }

  ghost predicate Exclusive(q: Queue) {
    && (q.lock.locked <==> q.owner.Some?)
    && (q.lock.waiters != [] ==> q.lock.locked)
    && (q.owner.Some? ==> q.owner.value in q.pc)
    && (forall t :: t in q.pc ==> (InCritical(q.pc[t]) <==> q.owner == Some(t)))
  }

  datatype Chain = SpaceChain | ItemsChain | LockChain

  predicate On(c: Pc, k: Chain) {
    match k
    case SpaceChain => c.PushBlockedSpace?
    case ItemsChain => c.PopBlockedItems?
    case LockChain => c.PushBlockedLock? || c.PopBlockedLock?
  }

  /** A wait chain holds exactly the threads blocked on it, each once. */
  ghost predicate Chained(w: seq<Tid>, pc: map<Tid, Pc>, k: Chain) {
    Distinct(w) && forall t :: t in w <==> t in pc && On(pc[t], k)
  }

  ghost predicate Chains(q: Queue) {
    && Chained(q.space.waiters, q.pc, SpaceChain)
    && Chained(q.items.waiters, q.pc, ItemsChain)
    && Chained(q.lock.waiters, q.pc, LockChain)
    && (q.space.waiters != [] ==> q.space.count == 0)
    && (q.items.waiters != [] ==> q.items.count == 0)
  }

  function OwnerPc(q: Queue): Pc {
    if q.owner.Some? && q.owner.value in q.pc then q.pc[q.owner.value] else Idle
  }

  /** The slot of the ring for the n-th item. */
  function Slot(n: nat, capacity: nat): nat
    requires capacity > 0
  {
    n % capacity
  }

  /** Head and tail follow the counts of loaded and stored items, except between the
      lines that update them. */
  ghost predicate Indices(q: Queue, garbage: int) {
    && q.capacity > 0 && |q.buffer| == q.capacity
    && (match OwnerPc(q)
        case PushTail => |q.pushed| > 0 && q.tail == Slot(|q.pushed| - 1, q.capacity)
        case PushSize => |q.pushed| > 0 && q.tail == Slot(|q.pushed| - 1, q.capacity) + 1
        case PushWrap => |q.pushed| > 0 && q.tail == Slot(|q.pushed| - 1, q.capacity) + 1
        case _ => q.tail == Slot(|q.pushed|, q.capacity))
    && (match OwnerPc(q)
        case PopHead(_) => |q.popped| > 0 && q.head == Slot(|q.popped| - 1, q.capacity)
        case PopSize(_) => |q.popped| > 0 && q.head == Slot(|q.popped| - 1, q.capacity) + 1
        case PopWrap(_) => |q.popped| > 0 && q.head == Slot(|q.popped| - 1, q.capacity) + 1
        case _ => q.head == Slot(|q.popped|, q.capacity))
    && q.size - garbage == |q.pushed| - |q.popped|
        + (match OwnerPc(q) case PushTail => -1 case PushSize => -1 case PopHead(_) => 1 case PopSize(_) => 1 case _ => 0)
  }

  /** First in, first out: what was loaded is a prefix of what was stored, and the ring
      holds the rest, slot by slot. */
  ghost predicate Fifo(q: Queue) {
    && |q.popped| <= |q.pushed| <= |q.popped| + q.capacity
    && q.popped == q.pushed[..|q.popped|]
    && |q.buffer| == q.capacity > 0
    && (forall i :: |q.popped| <= i < |q.pushed| ==> q.buffer[i % q.capacity] == q.pushed[i])
  }

  ghost predicate Inv(q: Queue, garbage: int) {
    Permits(q) && Exclusive(q) && Chains(q) && Indices(q, garbage) && Fifo(q)
  }

  // ---------------------------------------------------------------------------
  // Counting threads

  lemma CountMove(pc: map<Tid, Pc>, t: Tid, c: Pc, phase: Phase)
    requires t in pc
    ensures Count(pc[t := c], phase) == Count(pc, phase)
                                        - (if PhaseOf(pc[t]) == phase then 1 else 0) + (if PhaseOf(c) == phase then 1 else 0)
  {
    hide PhaseOf;
    var before, after := In(pc, phase), In(pc[t := c], phase);
    assert after - {t} == before - {t};
    SizeWith(before, t);
    SizeWith(after, t);
  }

  lemma SizeWith(s: set<Tid>, t: Tid)
    ensures |s| == |s - {t}| + if t in s then 1 else 0
  {
    if t in s {
      assert s == (s - {t}) + {t};
    } else {
      assert s == s - {t};
    }
  }

  lemma CountMoves(pc: map<Tid, Pc>, t: Tid, c: Pc)
    requires t in pc
    ensures forall phase :: Count(pc[t := c], phase) == Count(pc, phase)
                                                        - (if PhaseOf(pc[t]) == phase then 1 else 0)
                                                        + (if PhaseOf(c) == phase then 1 else 0)
  {
    forall phase
      ensures Count(pc[t := c], phase) == Count(pc, phase)
                                          - (if PhaseOf(pc[t]) == phase then 1 else 0) + (if PhaseOf(c) == phase then 1 else 0)
    {
      CountMove(pc, t, c, phase);
    }
  }

  lemma CountPositive(pc: map<Tid, Pc>, t: Tid)
    requires t in pc
    ensures Count(pc, PhaseOf(pc[t])) > 0
  {
    assert t in In(pc, PhaseOf(pc[t]));
  }

  lemma CountZero(pc: map<Tid, Pc>, phase: Phase)
    requires forall t :: t in pc ==> PhaseOf(pc[t]) != phase
    ensures Count(pc, phase) == 0
  {
    assert In(pc, phase) == {};
  }

  // ---------------------------------------------------------------------------
  // One step

  lemma InitInv(capacity: nat, buffer: seq<Item>, garbage: int, threads: set<Tid>)
    requires capacity > 0 && |buffer| == capacity
    ensures Inv(Init(capacity, buffer, garbage, threads), garbage)
  {
    var q := Init(capacity, buffer, garbage, threads);
    CountZero(q.pc, PushGranted);
    CountZero(q.pc, PushStored);
    CountZero(q.pc, PopGranted);
    CountZero(q.pc, PopLoaded);
  }

  /** A load is about to read a slot of the buffer. */
  predicate LoadInRange(q: Queue, a: Action)
    requires Enabled(q, a)
  {
    a.Go? && q.pc[a.t].PopLoad? ==> q.head < |q.buffer|
  }

  /** The steps that may wake another thread. */
  predicate Handing(c: Pc) {
    c.PushUnlock? || c.PopUnlock? || c.PushSignal? || c.PopSignal?
  }

  lemma PermitsKept(q: Queue, a: Action)
    requires Permits(q) && Chains(q) && Enabled(q, a) && |q.buffer| == q.capacity && LoadInRange(q, a)
    ensures Permits(Step(q, a))
  {
    if a.Go? && Handing(q.pc[a.t]) {
      PermitsHanded(q, a);
    } else {
      PermitsMoved(q, a);
    }
  }

  lemma PermitsMoved(q: Queue, a: Action)
    requires Permits(q) && Enabled(q, a) && |q.buffer| == q.capacity && LoadInRange(q, a) && !(a.Go? && Handing(q.pc[a.t]))
    ensures Permits(Step(q, a))
  {
    hide Count;
    var c, c' := q.pc[a.t], Step(q, a).pc[a.t];
    CountMoves(q.pc, a.t, c');
    assert Step(q, a).pc == q.pc[a.t := c'];
    hide PhaseOf;
    PhaseChange(q, a);
  }

  /** A step that wakes nobody moves at most one permit, and the counters say which. */
  lemma PhaseChange(q: Queue, a: Action)
    requires Enabled(q, a) && |q.buffer| == q.capacity && LoadInRange(q, a) && !(a.Go? && Handing(q.pc[a.t]))
    ensures var q' := Step(q, a);
            var p, p' := PhaseOf(q.pc[a.t]), PhaseOf(q'.pc[a.t]);
            || (p' == p && q'.space.count == q.space.count && q'.items.count == q.items.count && q'.pushed == q.pushed && q'.popped == q.popped)
            || (p == Outside && p' == PushGranted && q'.space.count == q.space.count - 1 && q'.items.count == q.items.count && q'.pushed == q.pushed && q'.popped == q.popped)
            || (p == Outside && p' == PopGranted && q'.items.count == q.items.count - 1 && q'.space.count == q.space.count && q'.pushed == q.pushed && q'.popped == q.popped)
            || (p == PushGranted && p' == PushStored && |q'.pushed| == |q.pushed| + 1 && q'.items.count == q.items.count && q'.space.count == q.space.count && q'.popped == q.popped)
            || (p == PopGranted && p' == PopLoaded && |q'.popped| == |q.popped| + 1 && q'.items.count == q.items.count && q'.space.count == q.space.count && q'.pushed == q.pushed)
  {
  }

  lemma PermitsHanded(q: Queue, a: Action)
    requires Permits(q) && Chains(q) && Enabled(q, a) && |q.buffer| == q.capacity && a.Go? && Handing(q.pc[a.t])
    ensures Permits(Step(q, a))
  {
    hide Count, In, Chains;
    HandedTo(q, a.t);
    WakeMoves(q.pc, a.t, Handed(q, a.t).1, Handed(q, a.t).0);
    HandedFrom(q, a.t);
  }

  /** Whoever is woken was blocked on what is handed over. */
  lemma HandedFrom(q: Queue, t: Tid)
    requires Chains(q) && t in q.pc && Handing(q.pc[t])
    ensures var woken := Handed(q, t).0;
            woken.Some? ==>
              (woken.value in q.pc
               && match q.pc[t]
                  case PushSignal => q.pc[woken.value].PopBlockedItems? && q.items.count == 0
                  case PopSignal(_) => q.pc[woken.value].PushBlockedSpace? && q.space.count == 0
                  case _ => q.pc[woken.value].PushBlockedLock? || q.pc[woken.value].PopBlockedLock?)
  {
    hide Distinct;
  }

  /** Two threads move when one of them wakes the other. */
  lemma WakeMoves(pc: map<Tid, Pc>, t: Tid, c: Pc, woken: Option<Tid>)
    requires t in pc && (woken.Some? ==> woken.value in pc && woken.value != t)
    ensures forall phase ::
              Count(Wake(pc[t := c], woken), phase)
              == Count(pc, phase) - (if PhaseOf(pc[t]) == phase then 1 else 0) + (if PhaseOf(c) == phase then 1 else 0)
                 + (if woken.None? then 0 else (if PhaseOf(Granted(pc[woken.value])) == phase then 1 else 0)
                                               - (if PhaseOf(pc[woken.value]) == phase then 1 else 0))
  {
    hide In;
    CountMoves(pc, t, c);
    if woken.Some? {
      CountMoves(pc[t := c], woken.value, Granted(pc[woken.value]));
    }
  }

  lemma ExclusiveKept(q: Queue, a: Action)
    requires Exclusive(q) && Chains(q) && Enabled(q, a) && |q.buffer| == q.capacity && LoadInRange(q, a)
    ensures Exclusive(Step(q, a))
  {
    assert !a.Go? || (InCritical(q.pc[a.t]) <==> q.owner == Some(a.t));
    if a.Go? && Handing(q.pc[a.t]) {
      ExclusiveHanded(q, a);
    } else {
      ExclusiveMoved(q, a);
    }
  }

  lemma ExclusiveMoved(q: Queue, a: Action)
    requires Exclusive(q) && Enabled(q, a) && |q.buffer| == q.capacity && LoadInRange(q, a) && !(a.Go? && Handing(q.pc[a.t]))
    ensures Exclusive(Step(q, a))
  {
    var t, q' := a.t, Step(q, a);
    assert InCritical(q.pc[t]) <==> q.owner == Some(t);
    assert q'.pc == q.pc[t := q'.pc[t]];
    assert InCritical(q'.pc[t]) <==> q'.owner == Some(t);
    assert q'.owner == q.owner || (q.owner.None? && q'.owner == Some(t));
    assert q'.lock.locked <==> q'.owner.Some?;
    assert q'.lock.waiters != [] ==> q'.lock.locked;
    hide Step, InCritical;
  }

  lemma ExclusiveHanded(q: Queue, a: Action)
    requires Exclusive(q) && Chains(q) && Enabled(q, a) && |q.buffer| == q.capacity && a.Go? && Handing(q.pc[a.t])
    ensures Exclusive(Step(q, a))
  {
    hide Step, InCritical, Handed, Granted, Chains, Exclusive;
    HandingSteps(q, a);
    HandedTo(q, a.t);
    ExclusiveHands(q, Step(q, a), a.t, Handed(q, a.t).1, Handed(q, a.t).0);
  }

  /** What a step that hands something over does to the threads, the lock and its owner. */
  lemma HandingSteps(q: Queue, a: Action)
    requires Enabled(q, a) && |q.buffer| == q.capacity && a.Go? && Handing(q.pc[a.t])
    requires Exclusive(q)
    ensures var t, q', (woken, c) := a.t, Step(q, a), Handed(q, a.t);
            && q'.pc == Wake(q.pc[t := c], woken) && !InCritical(c)
            && (InCritical(q.pc[t]) <==> q.owner == Some(t))
            && q'.owner == (if InCritical(q.pc[t]) then woken else q.owner)
            && (q'.lock.locked <==> q'.owner.Some?) && (q'.lock.waiters != [] ==> q'.lock.locked)
  {
    assert InCritical(q.pc[a.t]) <==> q.owner == Some(a.t);
  }

  lemma HandedTo(q: Queue, t: Tid)
    requires Chains(q) && t in q.pc && Handing(q.pc[t])
    ensures var woken := Handed(q, t).0;
            woken.Some? ==> woken.value in q.pc && woken.value != t && !InCritical(q.pc[woken.value])
                            && (InCritical(Granted(q.pc[woken.value])) <==> InCritical(q.pc[t]))
  {
    hide Distinct;
  }

  lemma ExclusiveHands(q: Queue, q': Queue, t: Tid, c: Pc, woken: Option<Tid>)
    requires Exclusive(q) && t in q.pc && q'.pc == Wake(q.pc[t := c], woken) && !InCritical(c)
    requires InCritical(q.pc[t]) <==> q.owner == Some(t)
    requires q'.owner == (if InCritical(q.pc[t]) then woken else q.owner)
    requires (q'.lock.locked <==> q'.owner.Some?) && (q'.lock.waiters != [] ==> q'.lock.locked)
    requires woken.Some? ==> woken.value in q.pc && woken.value != t && !InCritical(q.pc[woken.value])
                             && (InCritical(Granted(q.pc[woken.value])) <==> InCritical(q.pc[t]))
    ensures Exclusive(q')
  {
    hide InCritical, Granted;
  }

  lemma ChainMove(w: seq<Tid>, pc: map<Tid, Pc>, t: Tid, c: Pc, k: Chain)
    requires Chained(w, pc, k) && t in pc && !Blocked(pc[t])
    ensures Chained(if On(c, k) then [t] + w else w, pc[t := c], k)
  {
    assert t !in w;
  }

  lemma ChainWake(w: seq<Tid>, pc: map<Tid, Pc>, k: Chain, w': seq<Tid>, k': Chain)
    requires Chained(w, pc, k) && w != [] && Chained(w', pc, k')
    ensures w[0] in pc && Blocked(pc[w[0]])
    ensures Chained(if k' == k then w[1..] else w', Wake(pc, Some(w[0])), k')
  {
    if k' == k {
      forall t | t in w && t != w[0] ensures t in w[1..] {
        var i :| 0 <= i < |w| && w[i] == t;
        assert w[1..][i - 1] == t;
      }
      assert w' == w || forall t :: t in w' <==> t in w;
    }
  }

  /** The thread that a step wakes, and where the stepping thread goes. */
  function Handed(q: Queue, t: Tid): (Option<Tid>, Pc)
    requires t in q.pc && Handing(q.pc[t])
  {
    match q.pc[t]
    case PushUnlock => (Unlock(q.lock).1, PushSignal)
    case PopUnlock(i) => (Unlock(q.lock).1, PopSignal(i))
    case PushSignal => (Signal(q.items).1, Idle)
    case PopSignal(_) => (Signal(q.space).1, Idle)
  }

  lemma ChainsMoved(q: Queue, a: Action)
    requires Chains(q) && Enabled(q, a) && |q.buffer| == q.capacity && LoadInRange(q, a) && !(a.Go? && Handing(q.pc[a.t]))
    ensures Chains(Step(q, a))
  {
    hide Chained;
    var c := Step(q, a).pc[a.t];
    ChainMove(q.space.waiters, q.pc, a.t, c, SpaceChain);
    ChainMove(q.items.waiters, q.pc, a.t, c, ItemsChain);
    ChainMove(q.lock.waiters, q.pc, a.t, c, LockChain);
    assert Step(q, a).pc == q.pc[a.t := c];
  }

  lemma ChainsHanded(q: Queue, a: Action)
    requires Chains(q) && Enabled(q, a) && |q.buffer| == q.capacity && a.Go? && Handing(q.pc[a.t])
    ensures Chains(Step(q, a))
  {
    hide Chained;
    var (woken, c) := Handed(q, a.t);
    var pc := q.pc[a.t := c];
    ChainMove(q.space.waiters, q.pc, a.t, c, SpaceChain);
    ChainMove(q.items.waiters, q.pc, a.t, c, ItemsChain);
    ChainMove(q.lock.waiters, q.pc, a.t, c, LockChain);
    if woken.Some? {
      var (w, k) := if q.pc[a.t].PushSignal? then (q.items.waiters, ItemsChain)
                    else if q.pc[a.t].PopSignal? then (q.space.waiters, SpaceChain) else (q.lock.waiters, LockChain);
      ChainWake(w, pc, k, q.space.waiters, SpaceChain);
      ChainWake(w, pc, k, q.items.waiters, ItemsChain);
      ChainWake(w, pc, k, q.lock.waiters, LockChain);
    }
  }

  lemma ChainsKept(q: Queue, a: Action)
    requires Chains(q) && Enabled(q, a) && |q.buffer| == q.capacity && LoadInRange(q, a)
    ensures Chains(Step(q, a))
  {
    if a.Go? && Handing(q.pc[a.t]) {
      ChainsHanded(q, a);
    } else {
      ChainsMoved(q, a);
    }
  }

  // ---------------------------------------------------------------------------
  // The ring

  lemma ModNext(n: nat, c: nat)
    requires c > 0 && n > 0
    ensures n % c == if (n - 1) % c + 1 == c then 0 else (n - 1) % c + 1
  {
    var k, r := (n - 1) / c, (n - 1) % c;
    assert n - 1 == k * c + r;
    if r + 1 == c {
      assert n == (k + 1) * c;
      ModOf(k + 1, 0, c);
    } else {
      ModOf(k, r + 1, c);
    }
  }

  lemma ModOf(k: nat, r: nat, c: nat)
    requires r < c
    ensures (k * c + r) % c == r
  {
    var n := k * c + r;
    var j := n / c;
    assert n == j * c + n % c;
    SmallMultiple(k - j, c, n % c - r);
  }

  lemma SmallMultiple(k: int, c: int, d: int)
    requires k * c == d && -c < d < c
    ensures k == 0
  {
  }

  /** Fewer than c consecutive positions fall into distinct slots. */
  lemma ModDistinct(i: nat, j: nat, c: nat)
    requires i < j < i + c
    ensures i % c != j % c
  {
    if i % c == j % c {
      assert i == i / c * c + i % c && j == j / c * c + j % c;
      SmallMultiple(j / c - i / c, c, j - i);
      assert false;
    }
  }

  lemma OwnerMoves(q: Queue, a: Action)
    requires Exclusive(q) && Chains(q) && Enabled(q, a) && |q.buffer| == q.capacity && LoadInRange(q, a)
    ensures a.Go? && q.owner == Some(a.t) ==> OwnerPc(q) == q.pc[a.t]
    ensures a.Go? && q.owner != Some(a.t) && !q.pc[a.t].PushLock? && !q.pc[a.t].PopLock? ==> OwnerPc(Step(q, a)) == OwnerPc(q)
    ensures !a.Go? ==> OwnerPc(Step(q, a)) == OwnerPc(q)
    ensures a.Go? && (q.pc[a.t].PushLock? || q.pc[a.t].PopLock? || q.pc[a.t].PushUnlock? || q.pc[a.t].PopUnlock?) ==>
              var c := OwnerPc(Step(q, a)); c == OwnerPc(q) || c.Idle? || c.PushStore? || c.PopLoad?
  {
    hide Distinct;
    assert !a.Go? || (InCritical(q.pc[a.t]) <==> q.owner == Some(a.t));
  }

  lemma IndicesKept(q: Queue, a: Action, garbage: int)
    requires Exclusive(q) && Chains(q) && Indices(q, garbage) && Enabled(q, a) && LoadInRange(q, a)
    ensures Indices(Step(q, a), garbage)
  {
    hide Chains;
    OwnerMoves(q, a);
    assert !a.Go? || (InCritical(q.pc[a.t]) <==> q.owner == Some(a.t));
    assert q.lock.locked <==> q.owner.Some?;
    hide Exclusive;
    if a.Go? && (q.pc[a.t].PushWrap? || q.pc[a.t].PopWrap?) {
      IndicesWrap(q, a, garbage);
    } else {
      IndicesMove(q, a, garbage);
    }
  }

  /** The other lines. */
  lemma IndicesMove(q: Queue, a: Action, garbage: int)
    requires Indices(q, garbage) && Enabled(q, a) && LoadInRange(q, a) && (q.lock.locked <==> q.owner.Some?)
    requires a.Go? ==> !q.pc[a.t].PushWrap? && !q.pc[a.t].PopWrap? && (InCritical(q.pc[a.t]) <==> q.owner == Some(a.t))
    requires a.Go? && q.owner == Some(a.t) ==> OwnerPc(q) == q.pc[a.t]
    requires a.Go? && q.owner != Some(a.t) && !q.pc[a.t].PushLock? && !q.pc[a.t].PopLock? ==> OwnerPc(Step(q, a)) == OwnerPc(q)
    requires !a.Go? ==> OwnerPc(Step(q, a)) == OwnerPc(q)
    requires a.Go? && (q.pc[a.t].PushLock? || q.pc[a.t].PopLock? || q.pc[a.t].PushUnlock? || q.pc[a.t].PopUnlock?) ==>
               var c := OwnerPc(Step(q, a)); c == OwnerPc(q) || c.Idle? || c.PushStore? || c.PopLoad?
    ensures Indices(Step(q, a), garbage)
  {
    hide Slot;
  }

  /** The lines that wrap an index round the ring. */
  lemma IndicesWrap(q: Queue, a: Action, garbage: int)
    requires Indices(q, garbage) && Enabled(q, a) && a.Go? && q.owner == Some(a.t)
    requires q.pc[a.t].PushWrap? || q.pc[a.t].PopWrap?
    ensures Indices(Step(q, a), garbage)
  {
    if q.pc[a.t].PushWrap? {
      ModNext(|q.pushed|, q.capacity);
    } else {
      ModNext(|q.popped|, q.capacity);
    }
  }

  lemma FifoKept(q: Queue, a: Action, garbage: int)
    requires Inv(q, garbage) && Enabled(q, a)
    ensures Fifo(Step(q, a))
  {
    hide Distinct, Chains;
    assert !a.Go? || (InCritical(q.pc[a.t]) <==> q.owner == Some(a.t));
    if a.Go? {
      CountPositive(q.pc, a.t);
      if q.pc[a.t].PushStore? {
        forall i | |q.popped| <= i < |q.pushed| ensures i % q.capacity != |q.pushed| % q.capacity {
          ModDistinct(i, |q.pushed|, q.capacity);
        }
      }
    }
  }

  lemma HeadInRange(q: Queue, a: Action, garbage: int)
    requires Exclusive(q) && Indices(q, garbage) && Enabled(q, a)
    ensures LoadInRange(q, a)
  {
    if a.Go? && q.pc[a.t].PopLoad? {
      assert q.owner == Some(a.t);
    }
  }

  lemma StepKeeps(q: Queue, a: Action, garbage: int)
    requires Inv(q, garbage) && Enabled(q, a)
    ensures Inv(Step(q, a), garbage)
  {
    HeadInRange(q, a, garbage);
    PermitsKept(q, a);
    ExclusiveKept(q, a);
    ChainsKept(q, a);
    IndicesKept(q, a, garbage);
    FifoKept(q, a, garbage);
  }

  // ---------------------------------------------------------------------------
  // Every run

  /** A run: each action is enabled where it is taken. */
  ghost predicate IsRun(q: Queue, actions: seq<Action>, q': Queue)
    decreases |actions|
  {
    if actions == [] then q' == q
    else Enabled(q, actions[0]) && |q.buffer| == q.capacity && IsRun(Step(q, actions[0]), actions[1..], q')
  }

  lemma {:induction false} RunKeeps(q: Queue, actions: seq<Action>, q': Queue, garbage: int)
    requires Inv(q, garbage) && IsRun(q, actions, q')
    ensures Inv(q', garbage)
    decreases |actions|
  {
    if actions != [] {
      StepKeeps(q, actions[0], garbage);
      RunKeeps(Step(q, actions[0]), actions[1..], q', garbage);
    }
  }

  /** The n items of a ring from position head on. */
  function Ring(buffer: seq<Item>, head: nat, n: nat): seq<Item>
    requires |buffer| > 0
  {
    if n == 0 then [] else Ring(buffer, head, n - 1) + [buffer[(head + n - 1) % |buffer|]]
  }

  lemma {:induction false} RingIsUnread(q: Queue, n: nat)
    requires Fifo(q) && q.head == |q.popped| % q.capacity && n <= |q.pushed| - |q.popped|
    ensures Ring(q.buffer, q.head, n) == q.pushed[|q.popped|..|q.popped| + n]
  {
    if n > 0 {
      RingIsUnread(q, n - 1);
      ModShift(|q.popped|, n - 1, q.capacity);
      assert q.buffer[(q.head + n - 1) % q.capacity] == q.pushed[|q.popped| + n - 1];
    }
  }

  lemma ModShift(n: nat, k: nat, c: nat)
    requires c > 0
    ensures (n % c + k) % c == (n + k) % c
  {
    var r := n % c + k;
    assert n + k == n / c * c + r;
    assert r == r / c * c + r % c;
    ModOf(n / c + r / c, r % c, c);
    assert (n / c + r / c) * c == n / c * c + r / c * c;
  }

  ghost predicate Reachable(q: Queue, garbage: int) {
    exists buffer: seq<Item>, threads: set<Tid>, actions: seq<Action> ::
      |buffer| > 0 && IsRun(Init(|buffer|, buffer, garbage, threads), actions, q)
  }

  lemma ReachableInv(q: Queue, garbage: int)
    requires Reachable(q, garbage)
    ensures Inv(q, garbage)
  {
    var buffer: seq<Item>, threads: set<Tid>, actions: seq<Action> :|
      |buffer| > 0 && IsRun(Init(|buffer|, buffer, garbage, threads), actions, q);
    InitInv(|buffer|, buffer, garbage, threads);
    RunKeeps(Init(|buffer|, buffer, garbage, threads), actions, q, garbage);
  }

  /** Under every interleaving, the permits in the two semaphores and those in the hands
      of pushers and poppers add up to the capacity. */
  lemma PermitsConserved(q: Queue, garbage: int)
    requires Reachable(q, garbage)
    ensures q.space.count + q.items.count
            + (Count(q.pc, PushGranted) + Count(q.pc, PushStored)) + (Count(q.pc, PopGranted) + Count(q.pc, PopLoaded)) == q.capacity
  {
    ReachableInv(q, garbage);
  }

  lemma MutualExclusion(q: Queue, garbage: int, t: Tid, u: Tid)
    requires Reachable(q, garbage) && t in q.pc && u in q.pc && InCritical(q.pc[t]) && InCritical(q.pc[u])
    ensures t == u && q.lock.locked
  {
    ReachableInv(q, garbage);
  }

  /** Under every interleaving, the items loaded are a prefix of the items stored; when
      nobody is in the critical section, the ring holds the others from head onwards, and
      size has moved from its initial value by their number. */
  lemma FirstInFirstOut(q: Queue, garbage: int)
    requires Reachable(q, garbage)
    ensures |q.popped| <= |q.pushed| && q.popped == q.pushed[..|q.popped|]
    ensures q.owner.None? ==> |q.buffer| > 0 && q.size - garbage == |q.pushed| - |q.popped|
                              && Ring(q.buffer, q.head, |q.pushed| - |q.popped|) == q.pushed[|q.popped|..]
  {
    hide Reachable, Permits, Exclusive, Chains, Indices, Fifo, Ring;
    ReachableInv(q, garbage);
    PrefixLoaded(q);
    if q.owner.None? {
      IdleIndices(q, garbage);
      RingIsUnread(q, |q.pushed| - |q.popped|);
      assert q.pushed[|q.popped|..|q.popped| + (|q.pushed| - |q.popped|)] == q.pushed[|q.popped|..];
    }
  }

  lemma PrefixLoaded(q: Queue)
    requires Fifo(q)
    ensures |q.popped| <= |q.pushed| && q.popped == q.pushed[..|q.popped|] && q.capacity > 0 && |q.buffer| == q.capacity
  {
  }

  lemma IdleIndices(q: Queue, garbage: int)
    requires Indices(q, garbage) && q.owner.None?
    ensures |q.buffer| == q.capacity > 0 && q.size - garbage == |q.pushed| - |q.popped| && q.head == |q.popped| % q.capacity
  {
  }

  /** A store never hits a slot that holds an unread item. */
  lemma StoreHitsFreeSlot(q: Queue, t: Tid, garbage: int)
    requires Reachable(q, garbage) && t in q.pc && q.pc[t].PushStore?
    ensures |q.pushed| - |q.popped| < q.capacity && q.tail < q.capacity
    ensures forall i :: |q.popped| <= i < |q.pushed| ==> i % q.capacity != q.tail
  {
    ReachableInv(q, garbage);
    CountPositive(q.pc, t);
    assert q.owner == Some(t);
    forall i | |q.popped| <= i < |q.pushed| ensures i % q.capacity != q.tail {
      ModDistinct(i, |q.pushed|, q.capacity);
    }
  }

  /** A load reads the oldest item not yet read. */
  lemma LoadReadsOldest(q: Queue, t: Tid, garbage: int)
    requires Reachable(q, garbage) && t in q.pc && q.pc[t].PopLoad?
    ensures |q.popped| < |q.pushed| && q.head < q.capacity == |q.buffer| && q.buffer[q.head] == q.pushed[|q.popped|]
  {
    ReachableInv(q, garbage);
    CountPositive(q.pc, t);
    assert q.owner == Some(t);
  }

  /** No lost wake-up: when no thread can move, nobody waits for the lock, and either the
      ring is full and only pushers wait, or it is empty and only poppers wait. */
  lemma StuckMeansFullOrEmpty(q: Queue, garbage: int)
    requires Reachable(q, garbage) && forall t :: t in q.pc ==> q.pc[t].Idle? || Blocked(q.pc[t])
    ensures q.lock.waiters == [] && !q.lock.locked
    ensures q.space.waiters != [] ==> |q.pushed| - |q.popped| == q.capacity && q.items.waiters == []
    ensures q.items.waiters != [] ==> |q.pushed| == |q.popped| && q.space.waiters == []
  {
    ReachableInv(q, garbage);
    StuckOutside(q);
    hide Count, Indices, Fifo, Chained, InCritical;
    CountZero(q.pc, PushGranted);
    CountZero(q.pc, PushStored);
    CountZero(q.pc, PopGranted);
    CountZero(q.pc, PopLoaded);
  }

  lemma StuckOutside(q: Queue)
    requires Exclusive(q) && Chains(q) && forall t :: t in q.pc ==> q.pc[t].Idle? || Blocked(q.pc[t])
    ensures q.lock.waiters == [] && !q.lock.locked
    ensures forall t :: t in q.pc ==> PhaseOf(q.pc[t]) == Outside
  {
    hide Distinct;
    assert q.owner.Some? ==> InCritical(q.pc[q.owner.value]);
    assert q.lock.waiters == [];
    hide Exclusive, InCritical;
    assert forall t :: t in q.pc ==> !On(q.pc[t], LockChain);
  }
}
