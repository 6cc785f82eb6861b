// context_switch and the first frame of a task, on a processor with fifteen registers, a
// stack pointer and a memory of words. Words are only copied, and stack pointers stay
// inside their stacks, so that nothing wraps around.
module ContextSwitch {

  datatype Reg = RAX | RBX | RCX | RDX | RSI | RDI | RBP | R8 | R9 | R10 | R11 | R12 | R13 | R14 | R15

  type Address = int
  type Memory = map<Address, int>

  datatype Cpu = Cpu(regs: map<Reg, int>, rsp: Address, rip: int, mem: Memory)

  datatype Instr = Push(r: Reg) | Pop(r: Reg) | StoreRsp | LoadRsp | Ret

  const PUSH_REGS := [Push(R15), Push(R14), Push(R13), Push(R12), Push(R11), Push(R10), Push(R9), Push(R8),
                      Push(RBP), Push(RDI), Push(RSI), Push(RDX), Push(RCX), Push(RBX), Push(RAX)]
  const POP_REGS := [Pop(RAX), Pop(RBX), Pop(RCX), Pop(RDX), Pop(RSI), Pop(RDI), Pop(RBP),
                     Pop(R8), Pop(R9), Pop(R10), Pop(R11), Pop(R12), Pop(R13), Pop(R14), Pop(R15)]
  /** mov [rdi], rsp and mov rsp, rsi between saving and restoring. */
  const CONTEXT_SWITCH := PUSH_REGS + [StoreRsp, LoadRsp] + POP_REGS + [Ret]

  function Read(mem: Memory, a: Address): int { if a in mem then mem[a] else 0 }

  function Get(regs: map<Reg, int>, r: Reg): int { if r in regs then regs[r] else 0 }

  function Execute1(c: Cpu, i: Instr): Cpu {
    match i
    case Push(r) => c.(rsp := c.rsp - 8, mem := c.mem[c.rsp - 8 := Get(c.regs, r)])
    case Pop(r) => c.(rsp := c.rsp + 8, regs := c.regs[r := Read(c.mem, c.rsp)])
    case StoreRsp => c.(mem := c.mem[Get(c.regs, RDI) := c.rsp])
    case LoadRsp => c.(rsp := Get(c.regs, RSI))
    case Ret => c.(rsp := c.rsp + 8, rip := Read(c.mem, c.rsp))
  }

  function Execute(c: Cpu, code: seq<Instr>): Cpu
    decreases |code|
  {
    if code == [] then c else Execute(Execute1(c, code[0]), code[1..])
  }

  lemma {:induction false} ExecuteBoth(c: Cpu, a: seq<Instr>, b: seq<Instr>)
    ensures Execute(c, a + b) == Execute(Execute(c, a), b)
    decreases |a|
  {
    if a == [] {
      assert a + b == b;
    } else {
      assert (a + b)[1..] == a[1..] + b;
      ExecuteBoth(Execute1(c, a[0]), a[1..], b);
    }
  }

  /** The processor as an object whose fields the instructions write one after the other. */
  class Processor {
    var regs: map<Reg, int>
    var rsp: Address
    var rip: int
    var mem: Memory

    constructor (c: Cpu)
      ensures Value() == c
    {
      regs, rsp, rip, mem := c.regs, c.rsp, c.rip, c.mem;
    }

    ghost function Value(): Cpu
      reads this
    {
      Cpu(regs, rsp, rip, mem)
    }

    method Step(i: Instr)
      modifies this
      ensures Value() == Execute1(old(Value()), i)
    {
      match i
      case Push(r) => rsp := rsp - 8; mem := mem[rsp := Get(regs, r)];
      case Pop(r) => regs := regs[r := Read(mem, rsp)]; rsp := rsp + 8;
      case StoreRsp => mem := mem[Get(regs, RDI) := rsp];
      case LoadRsp => rsp := Get(regs, RSI);
      case Ret => rip := Read(mem, rsp); rsp := rsp + 8;
    }

    method Run(code: seq<Instr>)
      modifies this
      ensures Value() == Execute(old(Value()), code)
    {
      for k := 0 to |code|
        invariant Execute(Value(), code[k..]) == Execute(old(Value()), code)
      {
        assert code[k..][0] == code[k] && code[k..][1..] == code[k + 1..];
        Step(code[k]);
      }
    }
  }

  // ---------------------------------------------------------------------------
  // Saving and restoring

  /** Where a register lies in a saved context, in words. */
  function Index(r: Reg): (k: nat)
    ensures k < 15
  {
    match r
    case RAX => 0 case RBX => 1 case RCX => 2 case RDX => 3
    case RSI => 4 case RDI => 5 case RBP => 6
    case R8 => 7 case R9 => 8 case R10 => 9 case R11 => 10
    case R12 => 11 case R13 => 12 case R14 => 13 case R15 => 14
  }

  /** The registers in the order of context_t. */
  const CONTEXT := [RAX, RBX, RCX, RDX, RSI, RDI, RBP, R8, R9, R10, R11, R12, R13, R14, R15]

  function RegAt(k: nat): (r: Reg)
    requires k < 15
    ensures Index(r) == k
  {
    CONTEXT[k]
  }

  lemma PushesAll(r: Reg)
    ensures PUSH_REGS[14 - Index(r)] == Push(r)
  {
  }

  lemma PopsAll(r: Reg)
    ensures POP_REGS[Index(r)] == Pop(r)
  {
  }

  /** Pushing writes one word after the other downwards, and nothing else. */
  lemma {:induction false} Pushing(c: Cpu, code: seq<Instr>)
    requires forall i: Instr :: i in code ==> i.Push?
    ensures var d := Execute(c, code);
            && d.regs == c.regs && d.rip == c.rip && d.rsp == c.rsp - 8 * |code|
            && (forall k: nat :: k < |code| ==> Read(d.mem, c.rsp - 8 - 8 * k) == Get(c.regs, code[k].r))
            && (forall a: Address :: a < d.rsp || a >= c.rsp ==> Read(d.mem, a) == Read(c.mem, a))
    decreases |code|
  {
    if code != [] {
      var c1 := Execute1(c, code[0]);
      Pushing(c1, code[1..]);
      var d := Execute(c1, code[1..]);
      forall k: nat | k < |code| ensures Read(d.mem, c.rsp - 8 - 8 * k) == Get(c.regs, code[k].r) {
        if k > 0 {
          assert code[k] == code[1..][k - 1];
          assert Read(d.mem, c1.rsp - 8 - 8 * (k - 1)) == Get(c.regs, code[1..][k - 1].r);
        }
      }
    }
  }

  predicate NoRepeats(code: seq<Instr>) {
    forall j, k :: 0 <= j < k < |code| ==> code[j] != code[k]
  }

  /** Popping reads one word after the other upwards. */
  lemma {:induction false} Popping(c: Cpu, code: seq<Instr>)
    requires NoRepeats(code) && forall i: Instr :: i in code ==> i.Pop?
    ensures var d := Execute(c, code);
            && d.mem == c.mem && d.rip == c.rip && d.rsp == c.rsp + 8 * |code|
            && (forall k: nat :: k < |code| ==> Get(d.regs, code[k].r) == Read(c.mem, c.rsp + 8 * k))
            && (forall r: Reg :: Pop(r) !in code ==> Get(d.regs, r) == Get(c.regs, r))
    decreases |code|
  {
    if code != [] {
      var c1 := Execute1(c, code[0]);
      Popping(c1, code[1..]);
      var d := Execute(c1, code[1..]);
      assert Pop(code[0].r) == code[0] && code[0] !in code[1..];
      forall k: nat | k < |code| ensures Get(d.regs, code[k].r) == Read(c.mem, c.rsp + 8 * k) {
        if k > 0 {
          assert code[k] == code[1..][k - 1];
          assert Get(d.regs, code[1..][k - 1].r) == Read(c1.mem, c1.rsp + 8 * (k - 1));
        }
      }
      forall r: Reg | Pop(r) !in code ensures Get(d.regs, r) == Get(c.regs, r) {
        assert Pop(r) !in code[1..];
      }
    }
  }

  lemma CodeFacts()
    ensures |PUSH_REGS| == 15 && |POP_REGS| == 15 && NoRepeats(POP_REGS)
    ensures (forall i: Instr :: i in PUSH_REGS ==> i.Push?) && (forall i: Instr :: i in POP_REGS ==> i.Pop?)
  {
    PopsOnce();
    hide NoRepeats;
  }

  lemma PopsOnce()
    ensures NoRepeats(POP_REGS)
  {
    forall j, k | 0 <= j < k < |POP_REGS| ensures POP_REGS[j] != POP_REGS[k] {
      assert Index(POP_REGS[j].r) == j;
      assert Index(POP_REGS[k].r) == k;
    }
  }

  /** PUSH_REGS leaves a context_t below the stack pointer. */
  lemma PushesContext(c: Cpu)
    ensures var d := Execute(c, PUSH_REGS);
            && d.regs == c.regs && d.rsp == c.rsp - 120
            && (forall r: Reg :: Read(d.mem, d.rsp + 8 * Index(r)) == Get(c.regs, r))
            && (forall a: Address :: a < d.rsp || a >= c.rsp ==> Read(d.mem, a) == Read(c.mem, a))
  {
    CodeFacts();
    hide Execute, Execute1, Read, Get, Index, NoRepeats;
    Pushing(c, PUSH_REGS);
    var d := Execute(c, PUSH_REGS);
    forall r: Reg ensures Read(d.mem, d.rsp + 8 * Index(r)) == Get(c.regs, r) {
      PushesAll(r);
      assert Read(d.mem, c.rsp - 8 - 8 * (14 - Index(r))) == Get(c.regs, PUSH_REGS[14 - Index(r)].r);
    }
  }

  /** POP_REGS takes up the context_t at the stack pointer. */
  lemma PopsContext(c: Cpu)
    ensures var d := Execute(c, POP_REGS);
            && d.mem == c.mem && d.rsp == c.rsp + 120
            && (forall r: Reg :: Get(d.regs, r) == Read(c.mem, c.rsp + 8 * Index(r)))
  {
    CodeFacts();
    hide Execute, Execute1, Read, Get, Index, NoRepeats;
    Popping(c, POP_REGS);
    var d := Execute(c, POP_REGS);
    forall r: Reg ensures Get(d.regs, r) == Read(c.mem, c.rsp + 8 * Index(r)) {
      PopsAll(r);
      assert Get(d.regs, POP_REGS[Index(r)].r) == Read(c.mem, c.rsp + 8 * Index(r));
    }
  }

  /** The saved context word by word, and what the pops make of it. */
  lemma ContextWords(c: Cpu, a: Address)
    ensures var d := Execute(c, PUSH_REGS);
            d.rsp == c.rsp - 120 && forall k: nat :: k < 15 ==>
              Read(d.mem, c.rsp - 120 + 8 * k) ==
                Get(c.regs, [RAX, RBX, RCX, RDX, RSI, RDI, RBP, R8, R9, R10, R11, R12, R13, R14, R15][k])
    ensures var e := Execute(c.(rsp := a), POP_REGS);
            e.rsp == a + 120 && forall k: nat :: k < 15 ==>
              Get(e.regs, [RAX, RBX, RCX, RDX, RSI, RDI, RBP, R8, R9, R10, R11, R12, R13, R14, R15][k]) ==
                Read(c.mem, a + 8 * k)
  {
    PushesContext(c);
    PopsContext(c.(rsp := a));
    hide Execute, Read, Get;
    forall k: nat | k < 15 ensures Index(CONTEXT[k]) == k {
      assert Index(RegAt(k)) == k;
    }
  }

  lemma SwitchParts(c: Cpu)
    ensures Execute(c, CONTEXT_SWITCH) == Execute(Execute(Execute(Execute(c, PUSH_REGS), [StoreRsp, LoadRsp]), POP_REGS), [Ret])
  {
    hide Execute;
    ExecuteBoth(c, PUSH_REGS + [StoreRsp, LoadRsp] + POP_REGS, [Ret]);
    ExecuteBoth(c, PUSH_REGS + [StoreRsp, LoadRsp], POP_REGS);
    ExecuteBoth(c, PUSH_REGS, [StoreRsp, LoadRsp]);
  }

  /** What the whole of context_switch does: rdi says where to leave the stack pointer of the
      task that goes, rsi which one to take up. */
  lemma Switches(c: Cpu)
    requires Get(c.regs, RDI) < c.rsp - 120 || Get(c.regs, RDI) >= c.rsp
    ensures var d, old_, new_ := Execute(c, CONTEXT_SWITCH), c.rsp - 120, Get(c.regs, RSI);
            && (forall r: Reg :: Read(d.mem, old_ + 8 * Index(r)) == Get(c.regs, r))
            && Read(d.mem, Get(c.regs, RDI)) == old_
            && (forall a: Address :: (a < old_ || a >= c.rsp) && a != Get(c.regs, RDI) ==> Read(d.mem, a) == Read(c.mem, a))
            && (forall r: Reg :: Get(d.regs, r) == Read(d.mem, new_ + 8 * Index(r)))
            && d.rsp == new_ + 128 && d.rip == Read(d.mem, new_ + 120)
  {
    hide Execute, Execute1, Read, Get, Index, PUSH_REGS, POP_REGS, CONTEXT_SWITCH;
    SwitchParts(c);
    var c1 := Execute(c, PUSH_REGS);
    var c2 := Execute(c1, [StoreRsp, LoadRsp]);
    PushesContext(c);
    SwapsStacks(c1);
    PopsContext(c2);
    Returns(Execute(c2, POP_REGS));
  }

  lemma SwapsStacks(c: Cpu)
    ensures var d := Execute(c, [StoreRsp, LoadRsp]);
            && d.regs == c.regs && d.rip == c.rip && d.rsp == Get(c.regs, RSI)
            && Read(d.mem, Get(c.regs, RDI)) == c.rsp
            && forall a: Address :: a != Get(c.regs, RDI) ==> Read(d.mem, a) == Read(c.mem, a)
  {
    var d := Execute1(Execute1(c, StoreRsp), LoadRsp);
    assert [StoreRsp, LoadRsp][1..] == [LoadRsp] && [LoadRsp][1..] == [];
    assert Execute(c, [StoreRsp, LoadRsp]) == Execute(Execute1(c, StoreRsp), [LoadRsp]) == Execute(d, []) == d;
  }

  lemma Returns(c: Cpu)
    ensures var d := Execute(c, [Ret]);
            d.regs == c.regs && d.mem == c.mem && d.rsp == c.rsp + 8 && d.rip == Read(c.mem, c.rsp)
  {
    assert [Ret][1..] == [];
    assert Execute(c, [Ret]) == Execute(Execute1(c, Ret), []);
  }
}
