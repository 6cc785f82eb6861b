// What becomes of the items: whatever the threads interleave, the arguments of queue_push are
// what is stored, and what is loaded is what queue_pop returns.
module QueueItems {
  import opened Words
  import opened Q = Queue

  /** A thread and an item that it stored, loaded or returned. */
  type Event = (Tid, Item)

  /** The items of t among the events, in order. */
  function Of(events: seq<Event>, t: Tid): seq<Item> {
    if events == [] then []
    else
      var last := events[|events| - 1];
      Of(events[..|events| - 1], t) + if last.0 == t then [last.1] else []
  }

  function Items(events: seq<Event>): (r: seq<Item>)
    ensures |r| == |events|
  {
    seq(|events|, i requires 0 <= i < |events| => events[i].1)
  }

  /** The arguments of the calls of queue_push by t, in order; a push of NULL returns at once. */
  function Arguments(actions: seq<Action>, t: Tid): seq<Item> {
    if actions == [] then []
    else
      var last := actions[|actions| - 1];
      Arguments(actions[..|actions| - 1], t) + if last.StartPush? && last.t == t && last.item != 0 then [last.item] else []
  }

  /** The calls of queue_pop by t. */
  function Pops(actions: seq<Action>, t: Tid): nat {
    if actions == [] then 0
    else Pops(actions[..|actions| - 1], t) + if actions[|actions| - 1] == StartPop(t) then 1 else 0
  }

  /** What a step stores: the item that lies in the slot at tail afterwards. */
  function Store(q: Queue, a: Action): seq<Event>
    requires Enabled(q, a) && |q.buffer| == q.capacity
  {
    if a.Go? && q.pc[a.t].PushStore? && q.tail < |Step(q, a).buffer| then [(a.t, Step(q, a).buffer[q.tail])] else []
  }

  /** What a step loads: the item that lies in the slot at head. */
  function Load(q: Queue, a: Action): seq<Event>
    requires Enabled(q, a)
  {
    if a.Go? && q.pc[a.t].PopLoad? && q.head < |q.buffer| then [(a.t, q.buffer[q.head])] else []
  }

  /** What a step returns from queue_pop. */
  function Return(q: Queue, a: Action): seq<Event>
    requires Enabled(q, a)
  {
    if a.Go? && q.pc[a.t].PopSignal? then [(a.t, q.pc[a.t].item)] else []
  }

  /** The stores, loads and returns of a run, in order. */
  datatype History = History(actions: seq<Action>, stores: seq<Event>, loads: seq<Event>, returned: seq<Event>)

  function Recorded(h: History, q: Queue, a: Action): History
    requires Enabled(q, a) && |q.buffer| == q.capacity
  {
    History(h.actions + [a], h.stores + Store(q, a), h.loads + Load(q, a), h.returned + Return(q, a))
  }

  /** A run from q to q' that extends the history h to h'. */
  ghost predicate Records(q: Queue, h: History, actions: seq<Action>, q': Queue, h': History)
    decreases |actions|
  {
    if actions == [] then q' == q && h' == h
    else
      && Enabled(q, actions[0]) && |q.buffer| == q.capacity
      && Records(Step(q, actions[0]), Recorded(h, q, actions[0]), actions[1..], q', h')
  }

  /** The argument of a push that has not been stored yet. */
  function Pushing(c: Pc): seq<Item> {
    match c
    case PushEnter(i) => [i]
    case PushBlockedSpace(i) => [i]
    case PushLock(i) => [i]
    case PushBlockedLock(i) => [i]
    case PushStore(i) => [i]
    case _ => []
  }

  /** Whether a pop has not loaded its item yet. */
  predicate Waiting(c: Pc) {
    c.PopEnter? || c.PopBlockedItems? || c.PopLock? || c.PopBlockedLock? || c.PopLoad?
  }

  /** The item of a pop that has been loaded and not returned yet. */
  function Popping(c: Pc): seq<Item> {
    match c
    case PopHead(i) => [i]
    case PopSize(i) => [i]
    case PopWrap(i) => [i]
    case PopUnlock(i) => [i]
    case PopSignal(i) => [i]
    case _ => []
  }

  /** Each thread has stored its arguments, but for the one in flight; it has loaded once for
      each pop, but for the one in flight; and it has returned what it loaded, but for the
      item in flight. */
  ghost predicate Tracks(q: Queue, h: History) {
    && q.pushed == Items(h.stores) && q.popped == Items(h.loads)
    && forall t :: t in q.pc ==> TracksThread(q.pc[t], h, t)
  }

  ghost predicate TracksThread(c: Pc, h: History, t: Tid) {
    && Arguments(h.actions, t) == Of(h.stores, t) + Pushing(c)
    && Pops(h.actions, t) == |Of(h.loads, t)| + (if Waiting(c) then 1 else 0)
    && Of(h.loads, t) == Of(h.returned, t) + Popping(c)
  }

  lemma OfMore(events: seq<Event>, e: seq<Event>, t: Tid)
    requires |e| <= 1
    ensures Of(events + e, t) == Of(events, t) + (if e != [] && e[0].0 == t then [e[0].1] else [])
  {
    if e != [] {
      assert (events + e)[..|events|] == events;
    } else {
      assert events + e == events;
    }
  }

  lemma ItemsMore(events: seq<Event>, e: seq<Event>)
    ensures Items(events + e) == Items(events) + Items(e)
  {
  }

  lemma ActionsMore(actions: seq<Action>, a: Action, t: Tid)
    ensures Arguments(actions + [a], t) == Arguments(actions, t) + (if a.StartPush? && a.t == t && a.item != 0 then [a.item] else [])
    ensures Pops(actions + [a], t) == Pops(actions, t) + (if a == StartPop(t) then 1 else 0)
  {
    assert (actions + [a])[..|actions|] == actions;
  }

  /** The step of another thread may grant t what it waits for, and nothing else. */
  lemma OtherThread(q: Queue, a: Action, t: Tid)
    requires Enabled(q, a) && |q.buffer| == q.capacity && t in q.pc && t != a.t
    ensures t in Step(q, a).pc && (Step(q, a).pc[t] == q.pc[t] || Step(q, a).pc[t] == Granted(q.pc[t]))
  {
  }

  lemma GrantedTracks(c: Pc, h: History, t: Tid)
    requires TracksThread(c, h, t)
    ensures TracksThread(Granted(c), h, t)
  {
    hide Arguments, Of, Pops;
  }

  lemma RingInRange(q: Queue, t: Tid, garbage: int)
    requires Inv(q, garbage) && t in q.pc
    ensures |q.buffer| == q.capacity
    ensures q.pc[t].PushStore? ==> q.tail < |q.buffer|
    ensures q.pc[t].PopLoad? ==> q.head < |q.buffer|
  {
    hide Permits, Chains, Fifo;
    assert q.pc[t].PushStore? || q.pc[t].PopLoad? ==> q.owner == Some(t);
  }

  /** The step of t itself stores what was in hand, loads once and returns what it loaded. */
  ghost predicate Moves(q: Queue, a: Action, c: Pc)
    requires Enabled(q, a) && |q.buffer| == q.capacity
  {
    && Pushing(q.pc[a.t]) + (if a.StartPush? && a.item != 0 then [a.item] else []) == Items(Store(q, a)) + Pushing(c)
    && (if Waiting(q.pc[a.t]) then 1 else 0) + (if a.StartPop? then 1 else 0) == |Load(q, a)| + (if Waiting(c) then 1 else 0)
    && Popping(q.pc[a.t]) + Items(Load(q, a)) == Items(Return(q, a)) + Popping(c)
  }

  lemma OwnStep(q: Queue, a: Action, garbage: int)
    requires Inv(q, garbage) && Enabled(q, a)
    ensures |q.buffer| == q.capacity && a.t in Step(q, a).pc && Moves(q, a, Step(q, a).pc[a.t])
  {
    hide Inv, Step, Moves;
    RingInRange(q, a.t, garbage);
    SameThreads(q, a);
    if a.Go? && Handing(q.pc[a.t]) {
      HandsToOther(q, a, garbage);
      HandingMoves(q, a);
    } else if a.Go? && q.pc[a.t].PushStore? {
      StoreMoves(q, a);
    } else if a.Go? && q.pc[a.t].PopLoad? {
      LoadMoves(q, a);
    } else {
      PlainMoves(q, a);
    }
  }

  lemma HandingMoves(q: Queue, a: Action)
    requires Enabled(q, a) && |q.buffer| == q.capacity && a.Go? && Handing(q.pc[a.t])
    ensures Moves(q, a, Handed(q, a.t).1)
  {
    hide Step;
    assert Store(q, a) == [] && Load(q, a) == [];
  }

  lemma StoreMoves(q: Queue, a: Action)
    requires Enabled(q, a) && |q.buffer| == q.capacity && a.Go? && q.pc[a.t].PushStore? && q.tail < |q.buffer|
    ensures a.t in Step(q, a).pc && Moves(q, a, Step(q, a).pc[a.t])
  {
    var c := q.pc[a.t];
    assert Step(q, a).pc[a.t] == PushTail && Step(q, a).buffer == q.buffer[q.tail := c.item];
    hide Step;
    assert Store(q, a) == [(a.t, c.item)] && Load(q, a) == [] && Return(q, a) == [];
  }

  lemma LoadMoves(q: Queue, a: Action)
    requires Enabled(q, a) && |q.buffer| == q.capacity && a.Go? && q.pc[a.t].PopLoad? && q.head < |q.buffer|
    ensures a.t in Step(q, a).pc && Moves(q, a, Step(q, a).pc[a.t])
  {
    assert Step(q, a).pc[a.t] == PopHead(q.buffer[q.head]);
    hide Step;
    assert Store(q, a) == [] && Load(q, a) == [(a.t, q.buffer[q.head])] && Return(q, a) == [];
  }

  /** The lines that neither store nor load nor hand anything over. */
  lemma PlainMoves(q: Queue, a: Action)
    requires Enabled(q, a) && |q.buffer| == q.capacity
    requires a.Go? ==> !Handing(q.pc[a.t]) && !q.pc[a.t].PushStore? && !q.pc[a.t].PopLoad?
    ensures a.t in Step(q, a).pc && Moves(q, a, Step(q, a).pc[a.t])
  {
    assert Store(q, a) == [] && Load(q, a) == [] && Return(q, a) == [] && Items([]) == [];
    hide Store, Load, Return, Items;
    PlainPc(q, a);
    hide Step;
  }

  lemma PlainPc(q: Queue, a: Action)
    requires Enabled(q, a) && |q.buffer| == q.capacity
    requires a.Go? ==> !Handing(q.pc[a.t]) && !q.pc[a.t].PushStore? && !q.pc[a.t].PopLoad?
    ensures a.t in Step(q, a).pc
    ensures var c, c' := q.pc[a.t], Step(q, a).pc[a.t];
            && Pushing(c') == Pushing(c) + (if a.StartPush? && a.item != 0 then [a.item] else [])
            && (Waiting(c') <==> Waiting(c) || a.StartPop?) && (a.StartPop? ==> !Waiting(c)) && Popping(c') == Popping(c)
  {
  }

  /** Nobody is on a chain while it is at a line that hands something over. */
  lemma HandsToOther(q: Queue, a: Action, garbage: int)
    requires Inv(q, garbage) && Enabled(q, a) && |q.buffer| == q.capacity && a.Go? && Handing(q.pc[a.t])
    ensures Step(q, a).pc[a.t] == Handed(q, a.t).1
  {
    hide Permits, Exclusive, Indices, Fifo;
    HandedOther(q, a.t);
  }

  lemma HandedOther(q: Queue, t: Tid)
    requires Chains(q) && t in q.pc && Handing(q.pc[t])
    ensures Handed(q, t).0.Some? ==> Handed(q, t).0.value != t
  {
  }

  lemma StepRecords(q: Queue, a: Action, garbage: int)
    requires Inv(q, garbage) && Enabled(q, a)
    ensures |q.buffer| == q.capacity
    ensures Step(q, a).pushed == q.pushed + Items(Store(q, a)) && Step(q, a).popped == q.popped + Items(Load(q, a))
  {
    RingInRange(q, a.t, garbage);
    hide Inv;
  }

  lemma OwnTracks(q: Queue, h: History, a: Action, garbage: int)
    requires Inv(q, garbage) && Enabled(q, a) && TracksThread(q.pc[a.t], h, a.t)
    ensures |q.buffer| == q.capacity && a.t in Step(q, a).pc
    ensures TracksThread(Step(q, a).pc[a.t], Recorded(h, q, a), a.t)
  {
    hide Inv, Step, Of, Arguments, Pops, Items, Waiting, Pushing, Popping, Store, Load, Return;
    OwnStep(q, a, garbage);
    Singles(q, a);
    OfOwn(h.stores, Store(q, a), a.t);
    OfOwn(h.loads, Load(q, a), a.t);
    OfOwn(h.returned, Return(q, a), a.t);
    ActionsMore(h.actions, a, a.t);
    var c, c' := q.pc[a.t], Step(q, a).pc[a.t];
    var started := if a.StartPush? && a.item != 0 then [a.item] else [];
    assert Arguments(h.actions + [a], a.t) == Of(h.stores, a.t) + (Pushing(c) + started);
    assert Of(h.stores + Store(q, a), a.t) + Pushing(c') == Of(h.stores, a.t) + (Items(Store(q, a)) + Pushing(c'));
    assert Of(h.loads + Load(q, a), a.t) == Of(h.returned, a.t) + (Popping(c) + Items(Load(q, a)));
    assert Of(h.returned + Return(q, a), a.t) + Popping(c') == Of(h.returned, a.t) + (Items(Return(q, a)) + Popping(c'));
  }

  lemma Singles(q: Queue, a: Action)
    requires Enabled(q, a) && |q.buffer| == q.capacity
    ensures Own(Store(q, a), a.t) && Own(Load(q, a), a.t) && Own(Return(q, a), a.t)
  {
    hide Step;
  }

  /** At most one event, of t. */
  predicate Own(e: seq<Event>, t: Tid) { |e| <= 1 && (e != [] ==> e[0].0 == t) }

  lemma OfOwn(events: seq<Event>, e: seq<Event>, t: Tid)
    requires Own(e, t)
    ensures Of(events + e, t) == Of(events, t) + Items(e) && |Items(e)| == |e|
  {
    OfMore(events, e, t);
    hide Of;
    OneItem(e, t);
  }

  lemma OfOther(events: seq<Event>, e: seq<Event>, t: Tid, u: Tid)
    requires Own(e, u) && u != t
    ensures Of(events + e, t) == Of(events, t)
  {
    OfMore(events, e, t);
  }

  lemma OneItem(e: seq<Event>, t: Tid)
    requires |e| <= 1 && (e != [] ==> e[0].0 == t)
    ensures Items(e) == if e != [] && e[0].0 == t then [e[0].1] else []
  {
  }

  lemma OthersTrack(q: Queue, h: History, a: Action, t: Tid)
    requires Enabled(q, a) && |q.buffer| == q.capacity && t in q.pc && t != a.t && TracksThread(q.pc[t], h, t)
    ensures t in Step(q, a).pc && TracksThread(Step(q, a).pc[t], Recorded(h, q, a), t)
  {
    hide TracksThread, Step, Recorded;
    OtherThread(q, a, t);
    NotMine(q, h, a, t);
    GrantedTracks(q.pc[t], Recorded(h, q, a), t);
  }

  lemma NotMine(q: Queue, h: History, a: Action, t: Tid)
    requires Enabled(q, a) && |q.buffer| == q.capacity && t in q.pc && t != a.t && TracksThread(q.pc[t], h, t)
    ensures TracksThread(q.pc[t], Recorded(h, q, a), t)
  {
    hide Step, Of, Arguments, Pops, Store, Load, Return, Waiting, Pushing, Popping;
    Singles(q, a);
    OfOther(h.stores, Store(q, a), t, a.t);
    OfOther(h.loads, Load(q, a), t, a.t);
    OfOther(h.returned, Return(q, a), t, a.t);
    ActionsMore(h.actions, a, t);
    assert Arguments(h.actions, t) + [] == Arguments(h.actions, t);
  }

  lemma StepTracks(q: Queue, h: History, a: Action, garbage: int)
    requires Inv(q, garbage) && Enabled(q, a) && Tracks(q, h)
    ensures |q.buffer| == q.capacity && Tracks(Step(q, a), Recorded(h, q, a))
  {
    hide Inv, Step, TracksThread, Items;
    StepRecords(q, a, garbage);
    ItemsMore(h.stores, Store(q, a));
    ItemsMore(h.loads, Load(q, a));
    SameThreads(q, a);
    forall t | t in Step(q, a).pc ensures TracksThread(Step(q, a).pc[t], Recorded(h, q, a), t) {
      if t == a.t {
        OwnTracks(q, h, a, garbage);
      } else {
        OthersTrack(q, h, a, t);
      }
    }
  }

  lemma SameThreads(q: Queue, a: Action)
    requires Enabled(q, a) && |q.buffer| == q.capacity
    ensures Step(q, a).pc.Keys == q.pc.Keys
  {
  }

  lemma {:induction false} RunTracks(q: Queue, h: History, actions: seq<Action>, q': Queue, h': History, garbage: int)
    requires Inv(q, garbage) && Tracks(q, h) && Records(q, h, actions, q', h')
    ensures Inv(q', garbage) && Tracks(q', h') && h'.actions == h.actions + actions
    decreases |actions|
  {
    hide Inv, Tracks, Step, Recorded, Enabled;
    if actions == [] {
      assert h.actions + actions == h.actions;
    } else {
      StepTracks(q, h, actions[0], garbage);
      StepKeeps(q, actions[0], garbage);
      RecordedActions(h, q, actions[0]);
      RunTracks(Step(q, actions[0]), Recorded(h, q, actions[0]), actions[1..], q', h', garbage);
      assert h.actions + [actions[0]] + actions[1..] == h.actions + actions;
    }
  }

  lemma RecordedActions(h: History, q: Queue, a: Action)
    requires Enabled(q, a) && |q.buffer| == q.capacity
    ensures Recorded(h, q, a).actions == h.actions + [a]
  {
  }

  /** In every run each thread stores the arguments of its pushes in the order of its calls,
      but for the one in flight; the items loaded are the items stored, in the same order; and
      each thread's pops return what that thread loaded, one item a call. */
  lemma PopsReturnPushes(buffer: seq<Item>, garbage: int, threads: set<Tid>, actions: seq<Action>, q: Queue, h: History, t: Tid)
    requires |buffer| > 0 && Records(Init(|buffer|, buffer, garbage, threads), History([], [], [], []), actions, q, h) && t in q.pc
    ensures h.actions == actions && |h.loads| <= |h.stores| && Items(h.loads) == Items(h.stores)[..|h.loads|]
    ensures Arguments(actions, t) == Of(h.stores, t) + Pushing(q.pc[t])
    ensures Of(h.loads, t) == Of(h.returned, t) + Popping(q.pc[t])
    ensures Pops(actions, t) == |Of(h.loads, t)| + (if Waiting(q.pc[t]) then 1 else 0)
  {
    hide Inv, Step, Of, Arguments, Pops, Records;
    var q0, h0 := Init(|buffer|, buffer, garbage, threads), History([], [], [], []);
    InitInv(|buffer|, buffer, garbage, threads);
    InitTracks(buffer, garbage, threads);
    RunTracks(q0, h0, actions, q, h, garbage);
    InvFifo(q, garbage);
    PrefixLoaded(q);
    assert [] + actions == actions;
  }

  lemma InitTracks(buffer: seq<Item>, garbage: int, threads: set<Tid>)
    ensures Tracks(Init(|buffer|, buffer, garbage, threads), History([], [], [], []))
  {
  }

  lemma InvFifo(q: Queue, garbage: int)
    requires Inv(q, garbage)
    ensures Fifo(q)
  {
  }
}
