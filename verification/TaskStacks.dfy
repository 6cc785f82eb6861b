// Tasks that switch among themselves, each on its own stack: what a task left is what it
// finds again, over every run.
module TaskStacks {
  import opened ContextSwitch

  type Tid = nat

  const TASK_STACK_SIZE := 4096

  /** Where a task keeps its stack pointer while it does not run, and where its stack lies. */
  datatype Place = Place(slot: Address, lo: Address, hi: Address)

  /** What a task saw when it left the processor, or sees when it first gets there. */
  datatype View = View(regs: map<Reg, int>, rsp: Address, rip: int)

  datatype World = World(cpu: Cpu, current: Tid, trampoline: int, places: map<Tid, Place>, views: map<Tid, View>)

  /** The word at an address shares no byte with the stack. */
  ghost predicate Outside(a: Address, p: Place) { a + 8 <= p.lo || a >= p.hi }

  /** Stacks do not overlap, nor do the words that save stack pointers, which lie outside
      of the stacks. */
  ghost predicate Apart(places: map<Tid, Place>) {
    && (forall t, u :: t in places && u in places && t != u ==>
          && (places[t].hi <= places[u].lo || places[u].hi <= places[t].lo)
          && (places[t].slot + 8 <= places[u].slot || places[u].slot + 8 <= places[t].slot))
    && (forall t, u :: t in places && u in places ==> Outside(places[t].slot, places[u]))
  }

  /** The stack of a task that does not run holds its view, fifteen registers and a return
      address, where its saved stack pointer points. */
  ghost predicate Saved(mem: Memory, p: Place, v: View) {
    var sp := Read(mem, p.slot);
    && p.lo <= sp && sp + 128 <= p.hi
    && v.rsp == sp + 128 && v.rip == Read(mem, sp + 120)
    && forall r: Reg :: Get(v.regs, r) == Read(mem, sp + 8 * Index(r))
  }

  ghost predicate Inv(w: World) {
    && Apart(w.places) && w.current in w.places && w.views.Keys == w.places.Keys - {w.current}
    && w.places[w.current].lo <= w.cpu.rsp <= w.places[w.current].hi
    && forall t :: t in w.views ==> Saved(w.cpu.mem, w.places[t], w.views[t])
  }

  datatype Event =
    | Work(c: Cpu)
    | SwitchTo(t: Tid, back: int)
    | Create(t: Tid, slot: Address, stack: Address, entry: int, arg: int)

  /** The memory of a place is not written. */
  ghost predicate Untouched(mem: Memory, mem': Memory, p: Place) {
    && Read(mem', p.slot) == Read(mem, p.slot)
    && forall a: Address :: p.lo <= a < p.hi ==> Read(mem', a) == Read(mem, a)
  }

  /** A running task may do anything but leave its stack or write those of others; a call
      needs room on the stack; a new task gets memory that nobody has. */
  ghost predicate Allowed(w: World, e: Event) {
    match e
    case Work(c) =>
      && w.current in w.places && w.places[w.current].lo <= c.rsp <= w.places[w.current].hi
      && forall t :: t in w.places && t != w.current ==> Untouched(w.cpu.mem, c.mem, w.places[t])
    case SwitchTo(t, _) => t in w.views && w.current in w.places && w.places[w.current].lo <= w.cpu.rsp - 128
    case Create(t, slot, stack, _, _) =>
      t !in w.places && Apart(w.places[t := Place(slot, stack, stack + TASK_STACK_SIZE)]) && stack >= 0
  }

  /** context_switch(&old->rsp, current->rsp), at its first instruction. */
  function Called(w: World, t: Tid, back: int): Cpu
    requires w.current in w.places && t in w.places
  {
    var c := w.cpu;
    c.(regs := c.regs[RDI := w.places[w.current].slot][RSI := Read(c.mem, w.places[t].slot)],
       rsp := c.rsp - 8, mem := c.mem[c.rsp - 8 := back])
  }

  function Zeroed(mem: Memory, base: Address, n: nat): Memory {
    if n == 0 then mem else Zeroed(mem, base, n - 1)[base + 8 * (n - 1) := 0]
  }

  function StackTop(stack: Address): Address { stack + TASK_STACK_SIZE - (stack + TASK_STACK_SIZE) % 16 }

  function ContextBase(stack: Address): Address { StackTop(stack) - 8 - 120 }

  /** The first frame, as task_create builds it: a return address, and a context in which
      only rdi and rsi are not zero. */
  function FirstFrame(mem: Memory, stack: Address, trampoline: int, entry: int, arg: int): Memory {
    var ctx := ContextBase(stack);
    Zeroed(mem[StackTop(stack) - 8 := trampoline], ctx, 15)[ctx + 8 * Index(RDI) := entry][ctx + 8 * Index(RSI) := arg]
  }

  function Step(w: World, e: Event): World
    requires e.SwitchTo? ==> w.current in w.places && e.t in w.places
  {
    match e
    case Work(c) => w.(cpu := c)
    case SwitchTo(t, back) =>
      var c := Called(w, t, back);
      w.(cpu := Execute(c, CONTEXT_SWITCH), current := t,
         views := w.views[w.current := View(c.regs, w.cpu.rsp, back)] - {t})
    case Create(t, slot, stack, entry, arg) =>
      w.(cpu := w.cpu.(mem := FirstFrame(w.cpu.mem, stack, w.trampoline, entry, arg)[slot := ContextBase(stack)]),
         places := w.places[t := Place(slot, stack, stack + TASK_STACK_SIZE)],
         views := w.views[t := View(map[RDI := entry, RSI := arg], StackTop(stack), w.trampoline)])
  }

  // ---------------------------------------------------------------------------
  // Memory

  lemma UntouchedSaved(mem: Memory, mem': Memory, p: Place, v: View)
    requires Saved(mem, p, v) && Untouched(mem, mem', p)
    ensures Saved(mem', p, v)
  {
    hide Read, Get, Index;
    forall r: Reg ensures 0 <= Index(r) < 15 {
      IndexRange(r);
    }
  }

  lemma IndexRange(r: Reg)
    ensures 0 <= Index(r) < 15
  {
  }

  lemma {:induction false} ZeroedReads(mem: Memory, base: Address, n: nat)
    ensures forall k: nat :: k < n ==> Read(Zeroed(mem, base, n), base + 8 * k) == 0
    ensures forall a: Address :: a < base || a >= base + 8 * n ==> Read(Zeroed(mem, base, n), a) == Read(mem, a)
  {
    if n > 0 {
      ZeroedReads(mem, base, n - 1);
    }
  }

  lemma SlotsDiffer(r: Reg)
    ensures r != RDI ==> Index(r) != Index(RDI)
    ensures r != RSI ==> Index(r) != Index(RSI)
  {
  }

  /** The first frame reads as a saved view of the trampoline with the entry and its argument. */
  lemma FrameReads(mem: Memory, stack: Address, trampoline: int, entry: int, arg: int)
    ensures var f, ctx := FirstFrame(mem, stack, trampoline, entry, arg), ContextBase(stack);
            && Read(f, ctx + 120) == trampoline
            && (forall r: Reg :: Read(f, ctx + 8 * Index(r)) == Get(map[RDI := entry, RSI := arg], r))
            && forall a: Address :: a < ctx || a >= ctx + 128 ==> Read(f, a) == Read(mem, a)
  {
    var ctx := ContextBase(stack);
    var mem1 := mem[StackTop(stack) - 8 := trampoline];
    ZeroedReads(mem1, ctx, 15);
    var z := Zeroed(mem1, ctx, 15);
    FrameOver(z, ctx, entry, arg);
    assert FirstFrame(mem, stack, trampoline, entry, arg) == z[ctx + 8 * Index(RDI) := entry][ctx + 8 * Index(RSI) := arg];
    assert ctx + 120 == StackTop(stack) - 8;
    hide Zeroed, Index, FirstFrame;
    forall r: Reg ensures Read(z, ctx + 8 * Index(r)) == 0 {
      IndexRange(r);
    }
  }

  lemma FrameOver(z: Memory, ctx: Address, entry: int, arg: int)
    ensures var f := z[ctx + 8 * Index(RDI) := entry][ctx + 8 * Index(RSI) := arg];
            && (forall r: Reg :: Read(f, ctx + 8 * Index(r)) == if r == RDI then entry else if r == RSI then arg else Read(z, ctx + 8 * Index(r)))
            && forall a: Address :: a < ctx || a >= ctx + 120 ==> Read(f, a) == Read(z, a)
  {
    IndexRange(RDI);
    IndexRange(RSI);
    SlotsDiffer(RSI);
    hide Index;
    forall r: Reg
      ensures r != RDI ==> Index(r) != Index(RDI)
      ensures r != RSI ==> Index(r) != Index(RSI)
    {
      SlotsDiffer(r);
    }
  }

  lemma TopInside(stack: Address)
    requires stack >= 0
    ensures stack <= ContextBase(stack) && StackTop(stack) % 16 == 0
    ensures stack + 4096 - 16 < StackTop(stack) <= stack + 4096 == stack + TASK_STACK_SIZE
  {
  }

  // ---------------------------------------------------------------------------
  // Every step

  lemma PlacesApart(places: map<Tid, Place>, t: Tid, u: Tid)
    requires Apart(places) && t in places && u in places && t != u
    ensures places[t].hi <= places[u].lo || places[u].hi <= places[t].lo
    ensures places[t].slot != places[u].slot && Outside(places[t].slot, places[u]) && Outside(places[u].slot, places[t])
    ensures Outside(places[t].slot, places[t]) && Outside(places[u].slot, places[u])
  {
    hide Outside;
  }

  lemma CalledIs(w: World, t: Tid, back: int)
    requires Inv(w) && Allowed(w, SwitchTo(t, back))
    ensures t in w.places && w.current in w.places && t != w.current
    ensures var c, p := Called(w, t, back), w.places[w.current];
            && Get(c.regs, RDI) == p.slot && Get(c.regs, RSI) == Read(w.cpu.mem, w.places[t].slot) && c.rsp == w.cpu.rsp - 8
            && p.lo <= c.rsp - 120 && c.rsp + 8 <= p.hi && Outside(p.slot, p)
            && Read(c.mem, c.rsp) == back && forall a: Address :: a != c.rsp ==> Read(c.mem, a) == Read(w.cpu.mem, a)
  {
    hide Saved, Outside;
    var p := w.places[w.current];
    assert Outside(p.slot, p);
  }

  /** Switching writes the stack of the task that leaves and its slot, no other's. */
  lemma SwitchUntouched(w: World, t: Tid, back: int, u: Tid)
    requires Inv(w) && Allowed(w, SwitchTo(t, back)) && u in w.places && u != w.current
    ensures t in w.places && w.current in w.places
    ensures Untouched(w.cpu.mem, Execute(Called(w, t, back), CONTEXT_SWITCH).mem, w.places[u])
  {
    CalledIs(w, t, back);
    PlacesApart(w.places, w.current, u);
    hide Apart, Saved, Called, Execute, Read, Get, Index, CONTEXT_SWITCH;
    Switches(Called(w, t, back));
  }

  lemma SavedIn(w: World, t: Tid)
    requires Inv(w) && t in w.views
    ensures t in w.places && t != w.current && w.current in w.places && Saved(w.cpu.mem, w.places[t], w.views[t])
  {
    hide Apart, Saved;
  }

  /** The task that is switched to finds its registers, its stack pointer and its place in
      the code as it left them. */
  lemma SwitchResumes(w: World, t: Tid, back: int)
    requires Inv(w) && Allowed(w, SwitchTo(t, back))
    ensures t in w.places && w.current in w.places
    ensures var w' := Step(w, SwitchTo(t, back));
            && (forall r: Reg :: Get(w'.cpu.regs, r) == Get(w.views[t].regs, r))
            && w'.cpu.rsp == w.views[t].rsp && w'.cpu.rip == w.views[t].rip
  {
    hide Inv, Apart, Called, Execute, Read, Get, Index, CONTEXT_SWITCH, Saved, Outside;
    SavedIn(w, t);
    CalledIs(w, t, back);
    SwitchUntouched(w, t, back, t);
    var c := Called(w, t, back);
    var d := Execute(c, CONTEXT_SWITCH);
    UntouchedSaved(w.cpu.mem, d.mem, w.places[t], w.views[t]);
    ResumesSaved(c, w.cpu.mem, w.places[w.current], w.places[t], w.views[t]);
  }

  lemma ResumesSaved(c: Cpu, mem: Memory, own: Place, p: Place, v: View)
    requires Get(c.regs, RDI) == own.slot && own.lo <= c.rsp - 120 && c.rsp <= own.hi && Outside(own.slot, own)
    requires Get(c.regs, RSI) == Read(mem, p.slot)
    requires var d := Execute(c, CONTEXT_SWITCH); Saved(d.mem, p, v) && Read(d.mem, p.slot) == Read(mem, p.slot)
    ensures var d := Execute(c, CONTEXT_SWITCH);
            (forall r: Reg :: Get(d.regs, r) == Get(v.regs, r)) && d.rsp == v.rsp && d.rip == v.rip
  {
    hide Execute, Read, Get, Index, CONTEXT_SWITCH;
    Switches(c);
  }

  /** The task that leaves has its view saved. */
  lemma SwitchSaves(c: Cpu, own: Place, back: int)
    requires Get(c.regs, RDI) == own.slot && own.lo <= c.rsp - 120 && c.rsp + 8 <= own.hi && Outside(own.slot, own)
    requires Read(c.mem, c.rsp) == back
    ensures Saved(Execute(c, CONTEXT_SWITCH).mem, own, View(c.regs, c.rsp + 8, back))
  {
    hide Execute, Read, Get, Index, CONTEXT_SWITCH;
    Switches(c);
  }

  lemma SwitchSaved(w: World, t: Tid, back: int, u: Tid)
    requires Inv(w) && Allowed(w, SwitchTo(t, back)) && u in w.views
    ensures t in w.places && w.current in w.places && u in w.places
    ensures Saved(Execute(Called(w, t, back), CONTEXT_SWITCH).mem, w.places[u], w.views[u])
  {
    hide Inv, Apart, Called, Execute, Read, Get, Index, CONTEXT_SWITCH, Saved, Untouched, Outside;
    SavedIn(w, u);
    SwitchUntouched(w, t, back, u);
    UntouchedSaved(w.cpu.mem, Execute(Called(w, t, back), CONTEXT_SWITCH).mem, w.places[u], w.views[u]);
  }

  lemma SwitchKeeps(w: World, t: Tid, back: int)
    requires Inv(w) && Allowed(w, SwitchTo(t, back))
    ensures t in w.places && w.current in w.places && Inv(Step(w, SwitchTo(t, back)))
  {
    hide Apart, Called, Execute, Read, Get, Index, CONTEXT_SWITCH, Saved, Outside;
    CalledIs(w, t, back);
    SwitchSaves(Called(w, t, back), w.places[w.current], back);
    SwitchResumes(w, t, back);
    SavedInside(w, t);
    var w' := Step(w, SwitchTo(t, back));
    forall u | u in w'.views ensures Saved(w'.cpu.mem, w'.places[u], w'.views[u]) {
      if u != w.current {
        SwitchSaved(w, t, back, u);
      }
    }
  }

  lemma SavedInside(w: World, t: Tid)
    requires Inv(w) && t in w.views
    ensures t in w.places && w.places[t].lo <= w.views[t].rsp <= w.places[t].hi
  {
    hide Apart;
    SavedIn(w, t);
  }

  /** A new task's frame is a saved view. */
  lemma CreateSaves(mem: Memory, slot: Address, stack: Address, trampoline: int, entry: int, arg: int)
    requires stack >= 0 && Outside(slot, Place(slot, stack, stack + TASK_STACK_SIZE))
    ensures var mem' := FirstFrame(mem, stack, trampoline, entry, arg)[slot := ContextBase(stack)];
            && Saved(mem', Place(slot, stack, stack + TASK_STACK_SIZE), View(map[RDI := entry, RSI := arg], StackTop(stack), trampoline))
            && forall a: Address :: (a < stack || a >= stack + TASK_STACK_SIZE) && a != slot ==> Read(mem', a) == Read(mem, a)
  {
    TopInside(stack);
    FrameReads(mem, stack, trampoline, entry, arg);
    assert ContextBase(stack) + 128 == StackTop(stack);
    hide FirstFrame, StackTop, ContextBase, Get, Index, Zeroed;
    forall r: Reg ensures 0 <= Index(r) < 15 {
      IndexRange(r);
    }
  }

  /** Where the first frame lies: the trampoline last, below it the context, whose fourth and
      fifth words are the argument and the entry. */
  lemma FrameWords(mem: Memory, slot: Address, stack: Address, trampoline: int, entry: int, arg: int)
    requires stack >= 0 && Outside(slot, Place(slot, stack, stack + 4096))
    ensures var mem' := FirstFrame(mem, stack, trampoline, entry, arg)[slot := ContextBase(stack)];
            var ctx := Read(mem', slot);
            && stack <= ctx && (ctx + 128) % 16 == 0 && stack + 4096 - 16 < ctx + 128 <= stack + 4096
            && Read(mem', ctx + 120) == trampoline && Read(mem', ctx + 40) == entry && Read(mem', ctx + 32) == arg
            && forall k: nat :: k < 15 && k != 4 && k != 5 ==> Read(mem', ctx + 8 * k) == 0
  {
    TopInside(stack);
    FrameReads(mem, stack, trampoline, entry, arg);
    assert ContextBase(stack) + 128 == StackTop(stack);
    hide FirstFrame, StackTop, ContextBase, Zeroed;
    var f, ctx := FirstFrame(mem, stack, trampoline, entry, arg), ContextBase(stack);
    assert Read(f, ctx + 8 * Index(RDI)) == entry && Read(f, ctx + 8 * Index(RSI)) == arg;
    forall k: nat | k < 15 && k != 4 && k != 5 ensures Read(f, ctx + 8 * k) == 0 {
      var r := RegAt(k);
      assert Index(r) == k && r != RDI && r != RSI;
    }
  }

  lemma CreateKeeps(w: World, t: Tid, slot: Address, stack: Address, entry: int, arg: int)
    requires Inv(w) && Allowed(w, Create(t, slot, stack, entry, arg))
    ensures Inv(Step(w, Create(t, slot, stack, entry, arg)))
  {
    hide Apart, FirstFrame, StackTop, ContextBase, Get, Index, Read, Saved, Outside, Untouched;
    var w' := Step(w, Create(t, slot, stack, entry, arg));
    SlotOutside(w'.places, t);
    CreateSaves(w.cpu.mem, slot, stack, w.trampoline, entry, arg);
    forall u | u in w'.views ensures Saved(w'.cpu.mem, w'.places[u], w'.views[u]) {
      if u != t {
        CreateUntouched(w.cpu.mem, w'.cpu.mem, w'.places, t, u);
        UntouchedSaved(w.cpu.mem, w'.cpu.mem, w.places[u], w.views[u]);
      }
    }
  }

  lemma SlotOutside(places: map<Tid, Place>, t: Tid)
    requires Apart(places) && t in places
    ensures Outside(places[t].slot, places[t])
  {
    hide Outside;
  }

  lemma CreateUntouched(mem: Memory, mem': Memory, places: map<Tid, Place>, t: Tid, u: Tid)
    requires Apart(places) && t in places && u in places && t != u
    requires forall a: Address :: (a < places[t].lo || a >= places[t].hi) && a != places[t].slot ==> Read(mem', a) == Read(mem, a)
    ensures Untouched(mem, mem', places[u])
  {
    PlacesApart(places, t, u);
    hide Apart, Read;
  }

  lemma WorkKeeps(w: World, c: Cpu)
    requires Inv(w) && Allowed(w, Work(c))
    ensures Inv(Step(w, Work(c)))
  {
    hide Apart, Saved, Untouched;
    forall u | u in w.views ensures Saved(c.mem, w.places[u], w.views[u]) {
      UntouchedSaved(w.cpu.mem, c.mem, w.places[u], w.views[u]);
    }
  }

  lemma StepKeeps(w: World, e: Event)
    requires Inv(w) && Allowed(w, e)
    ensures e.SwitchTo? ==> w.current in w.places && e.t in w.places
    ensures Inv(Step(w, e))
  {
    hide Apart, Saved, Untouched, Step;
    match e
    case Work(c) => WorkKeeps(w, c);
    case SwitchTo(t, back) => SwitchKeeps(w, t, back);
    case Create(t, slot, stack, entry, arg) => CreateKeeps(w, t, slot, stack, entry, arg);
  }

  /** The task that boots the kernel, alone on its stack, with a record outside of it. */
  function BootWorld(cpu: Cpu, t: Tid, p: Place, trampoline: int): World {
    World(cpu, t, trampoline, map[t := p], map[])
  }

  lemma BootKeeps(cpu: Cpu, t: Tid, p: Place, trampoline: int)
    requires Outside(p.slot, p) && p.lo <= cpu.rsp <= p.hi
    ensures Inv(BootWorld(cpu, t, p, trampoline))
  {
    assert BootWorld(cpu, t, p, trampoline).places.Keys - {t} == {};
  }

  // ---------------------------------------------------------------------------
  // Every run

  ghost predicate Runs(w: World, es: seq<Event>, w': World)
    decreases |es|
  {
    if es == [] then w' == w
    else Allowed(w, es[0]) && (es[0].SwitchTo? ==> w.current in w.places && es[0].t in w.places) && Runs(Step(w, es[0]), es[1..], w')
  }

  lemma ViewStays1(w: World, e: Event, t: Tid)
    requires Inv(w) && Allowed(w, e) && t in w.views && !(e.SwitchTo? && e.t == t)
    ensures e.SwitchTo? ==> w.current in w.places && e.t in w.places
    ensures t in Step(w, e).views && Step(w, e).views[t] == w.views[t]
  {
    hide Apart, Saved, Untouched, Called, Execute, CONTEXT_SWITCH, FirstFrame, StackTop;
  }

  /** Until a task is switched to, what it left stays what it left. */
  lemma {:induction false} ViewStays(w: World, es: seq<Event>, w': World, t: Tid)
    requires Inv(w) && Runs(w, es, w') && t in w.views
    requires forall i :: 0 <= i < |es| ==> !(es[i].SwitchTo? && es[i].t == t)
    ensures Inv(w') && t in w'.views && w'.views[t] == w.views[t]
    decreases |es|
  {
    hide Inv, Allowed, Step;
    if es != [] {
      StepKeeps(w, es[0]);
      ViewStays1(w, es[0], t);
      ViewStays(Step(w, es[0]), es[1..], w', t);
    }
  }

  lemma SwitchViews(w: World, u: Tid, back: int)
    requires Inv(w) && Allowed(w, SwitchTo(u, back))
    ensures u in w.places && w.current in w.places
    ensures var w1 := Step(w, SwitchTo(u, back));
            w.current in w1.views && w1.views[w.current] == View(Called(w, u, back).regs, w.cpu.rsp, back)
  {
    hide Apart, Saved, Untouched, Called, Execute, CONTEXT_SWITCH;
    SavedIn(w, u);
  }

  /** A task that is switched away from and later, for the first time, switched to again goes
      on with the fifteen registers, the stack pointer and the return address it had. */
  lemma ResumesAsLeft(w: World, u: Tid, back: int, es: seq<Event>, w': World, back': int)
    requires Inv(w) && Allowed(w, SwitchTo(u, back)) && u in w.places && w.current in w.places
    requires Runs(Step(w, SwitchTo(u, back)), es, w') && Allowed(w', SwitchTo(w.current, back'))
    requires forall i :: 0 <= i < |es| ==> !(es[i].SwitchTo? && es[i].t == w.current)
    ensures w'.current in w'.places && w.current in w'.places
    ensures var c, w2 := Called(w, u, back), Step(w', SwitchTo(w.current, back'));
            && (forall r: Reg :: Get(w2.cpu.regs, r) == Get(c.regs, r)) && w2.cpu.rsp == w.cpu.rsp && w2.cpu.rip == back
  {
    hide Inv, Allowed, Called, Step, Get, Runs;
    SwitchKeeps(w, u, back);
    SwitchViews(w, u, back);
    ViewStays(Step(w, SwitchTo(u, back)), es, w', w.current);
    SwitchResumes(w', w.current, back');
  }

  lemma CreateViews(w: World, t: Tid, slot: Address, stack: Address, entry: int, arg: int)
    requires Inv(w) && Allowed(w, Create(t, slot, stack, entry, arg))
    ensures stack >= 0
    ensures var w1 := Step(w, Create(t, slot, stack, entry, arg));
            t in w1.views && w1.views[t] == View(map[RDI := entry, RSI := arg], StackTop(stack), w.trampoline)
  {
    hide Apart, Saved, FirstFrame, StackTop;
  }

  /** A new task first enters the trampoline, with the entry in rdi and its argument in rsi,
      all else zero, and its stack empty. On entry rsp is a multiple of 16; a function
      called in C would find it 8 more than one. */
  lemma FreshTaskEnters(w: World, t: Tid, slot: Address, stack: Address, entry: int, arg: int, es: seq<Event>, w': World, back: int)
    requires Inv(w) && Allowed(w, Create(t, slot, stack, entry, arg))
    requires Runs(Step(w, Create(t, slot, stack, entry, arg)), es, w') && Allowed(w', SwitchTo(t, back))
    requires forall i :: 0 <= i < |es| ==> !(es[i].SwitchTo? && es[i].t == t)
    ensures w'.current in w'.places && t in w'.places
    ensures var c := Step(w', SwitchTo(t, back)).cpu;
            && c.rip == w.trampoline && Get(c.regs, RDI) == entry && Get(c.regs, RSI) == arg
            && (forall r: Reg :: r != RDI && r != RSI ==> Get(c.regs, r) == 0)
            && c.rsp % 16 == 0 && stack + 4096 - 16 < c.rsp <= stack + 4096
  {
    hide Inv, Allowed, Step, StackTop, ContextBase, Runs;
    CreateKeeps(w, t, slot, stack, entry, arg);
    CreateViews(w, t, slot, stack, entry, arg);
    TopInside(stack);
    BaseBelow(stack);
    ViewStays(Step(w, Create(t, slot, stack, entry, arg)), es, w', t);
    SwitchResumes(w', t, back);
  }

  lemma BaseBelow(stack: Address)
    ensures ContextBase(stack) < StackTop(stack)
  {
  }
}
