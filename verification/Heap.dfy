// The bump allocator of the kernel heap, grown page by page through the page tables.
module Heap {
  import opened Words
  import opened Pmm
  import opened Vmm
  import opened VmmRange
  import PageTables

  const KERNEL_HEAP_START: nat := 0xFFFF_9000_0000_0000
  const FLAGS: nat := PAGE_PRESENT + PAGE_WRITABLE

  /** Rounding up to 16 in 64-bit arithmetic: sizes near 2^64 wrap to 0. */
  function AlignUp(size: nat): nat { (size + 15) % WORD / 16 * 16 }

  datatype Block = Block(ptr: nat, size: nat)

  /** The allocator's pointers over the page tables. The code stores neither the blocks
      it gave out nor the holes: pages it counts as grown that got no frame. */
  datatype HeapState = HeapState(vm: Vm, end: nat, current: nat, blocks: seq<Block>, holes: set<nat>)

  function GrowPage(h: HeapState): (HeapState, bool) {
    var (vm, ok) := AllocPage(h.vm, h.end, FLAGS);
    if ok then
      (h.(vm := vm, end := h.end + PAGE_SIZE,
       holes := if h.vm.pool.Free() >= 1 + Missing(h.vm, TableLoc(h.end)) then h.holes else h.holes + {h.end}), true)
    else (h.(vm := vm), false)
  }

  function Grow(h: HeapState, need: nat): (HeapState, bool)
    decreases need - h.end
  {
    if need <= h.end then (h, true)
    else
      var (h1, ok) := GrowPage(h);
      if ok then Grow(h1, need) else (h1, false)
  }

  function Bump(h: HeapState, size: nat): (HeapState, nat) {
    if size == 0 then (h, 0)
    else
      var need := (h.current + AlignUp(size)) % WORD;
      var (h1, ok) := Grow(h, need);
      if ok then (h1.(current := need, blocks := h1.blocks + [Block(h.current, size)]), h.current) else (h1, 0)
  }

  function Initial(vm: Vm): HeapState {
    GrowPage(HeapState(vm, KERNEL_HEAP_START, KERNEL_HEAP_START, [], {})).0
  }

  // ---------------------------------------------------------------------------
  // Invariant

  /** The entry of the page is that of a frame it owns, with bits 0 and 1 and no others. */
  ghost predicate Backed(vm: Vm, v: nat) {
    && (exists b :: b in vm.owner && vm.owner[b] == Data(PageOf(v)))
    && Look(vm, PageOf(v)) % 0x1000 == 3 && Look(vm, PageOf(v)) < 0x10_0000_0000_0000
  }

  ghost predicate Bounds(h: HeapState) {
    && KERNEL_HEAP_START <= h.current <= h.end <= WORD
    && h.current % 16 == 0 && h.end % PAGE_SIZE == 0
    && forall v :: v in h.holes ==> v < h.end
  }

  /** Blocks are aligned, lie below the bump pointer and follow one another. */
  ghost predicate Laid(h: HeapState) {
    && (forall i :: 0 <= i < |h.blocks| ==>
          var b := h.blocks[i];
          b.ptr % 16 == 0 && b.size > 0 && KERNEL_HEAP_START <= b.ptr && b.ptr + b.size <= h.current)
    && (forall i, j :: 0 <= i < j < |h.blocks| ==> h.blocks[i].ptr + h.blocks[i].size <= h.blocks[j].ptr)
  }

  /** Every page up to the end has a frame of its own or is a known hole. */
  ghost predicate Mapped(h: HeapState) {
    forall k :: 0 <= k && After(KERNEL_HEAP_START, k) < h.end ==>
      After(KERNEL_HEAP_START, k) in h.holes || Backed(h.vm, After(KERNEL_HEAP_START, k))
  }

  ghost predicate Valid(h: HeapState) {
    Vmm.Inv(h.vm) && Bounds(h) && Laid(h) && Mapped(h)
  }

  lemma GrowPageKeeps(h: HeapState)
    requires Valid(h) && h.end < WORD
    ensures var (h', ok) := GrowPage(h);
            && Valid(h') && (ok <==> h.vm.pool.Free() >= 1)
            && h'.current == h.current && h'.blocks == h.blocks && (!ok ==> h'.end == h.end && h'.vm.pool.Free() == 0)
            && h.holes <= h'.holes
            && (h.vm.pool.Free() >= 4 ==> h'.holes == h.holes && h'.vm.pool.Free() >= h.vm.pool.Free() - 4)
  {
    hide PageOf, TableLoc, Vmm.Inv, Look, AllocPage, Address, AddressOf, Backed;
    assert Mappable(0, FLAGS) && FLAGS % 2 == 1;
    AllocPageBacks(h.vm, h.end, FLAGS);
    MissingAtMostDepth(h.vm, TableLoc(h.end));
    var (h', ok) := GrowPage(h);
    if h.vm.pool.Free() >= 1 {
      AllocPageFrame(h.vm, h.end, FLAGS);
      GrowPageMaps(h);
    } else {
      AllocPageFails(h);
      PoolNotNegative(h);
    }
    assert h.end + PAGE_SIZE <= WORD by { EndFits(h.end); }
  }

  lemma EndFits(end: nat)
    requires end < WORD && end % PAGE_SIZE == 0
    ensures end + PAGE_SIZE <= WORD && (end + PAGE_SIZE) % PAGE_SIZE == 0
  {
    assert WORD == 0x10_0000_0000_0000 * PAGE_SIZE;
  }

  lemma AllocPageFails(h: HeapState)
    requires Valid(h) && h.vm.pool.Free() < 1
    ensures GrowPage(h) == (h, false)
  {
    hide PageOf, TableLoc, Tables, Linked, Owned;
    FullMeansNoneFree(h.vm.pool);
  }

  lemma GrowPageMaps(h: HeapState)
    requires Valid(h) && h.end < WORD && h.vm.pool.Free() >= 1
    ensures Mapped(GrowPage(h).0)
  {
    hide PageOf, TableLoc, Vmm.Inv, Look, Address, AddressOf, After, Backed, GrowPage;
    GrowPageEnd1(h);
    var h' := GrowPage(h).0;
    forall k | 0 <= k && After(KERNEL_HEAP_START, k) < h'.end
      ensures After(KERNEL_HEAP_START, k) in h'.holes || Backed(h'.vm, After(KERNEL_HEAP_START, k))
    {
      HeapPage(h.end, k);
      var v := After(KERNEL_HEAP_START, k);
      if v == h.end {
        GrowPageBacks(h);
      } else if v !in h.holes {
        GrowPageSpares(h, v);
      }
    }
  }

  lemma GrowPageEnd1(h: HeapState)
    requires Valid(h) && h.vm.pool.Free() >= 1
    ensures GrowPage(h).0.end == h.end + PAGE_SIZE && h.holes <= GrowPage(h).0.holes
  {
    hide PageOf, TableLoc, Vmm.Inv, Put, Missing;
    NoZeroFrame(h.vm);
    FullMeansNoneFree(h.vm.pool);
  }

  /** The page that is grown gets a frame, present and writable, or is a hole. */
  lemma GrowPageBacks(h: HeapState)
    requires Valid(h) && h.vm.pool.Free() >= 1
    ensures h.end in GrowPage(h).0.holes || Backed(GrowPage(h).0.vm, h.end)
  {
    hide PageOf, TableLoc, Vmm.Inv, Look, AllocPage, AddressOf, Missing, WellFormed, IndexOf;
    AllocPageBacks(h.vm, h.end, FLAGS);
    if h.vm.pool.Free() >= 1 + Missing(h.vm, TableLoc(h.end)) {
      var b := h.vm.pool.Lowest();
      NoZeroFrame(h.vm);
      FullMeansNoneFree(h.vm.pool);
      FreshFrame(h.vm);
      EntryOfFrame(Alloc(h.vm.pool).1);
      assert GrowPage(h).0.vm.owner[b] == Data(PageOf(h.end));
    }
  }

  lemma EntryOfFrame(frame: nat)
    requires FrameAddress(frame)
    ensures (frame + 3) % 0x1000 == 3 && frame + 3 < 0x10_0000_0000_0000
  {
  }

  lemma GrowPageSpares(h: HeapState, v: nat)
    requires Valid(h) && h.vm.pool.Free() >= 1 && Backed(h.vm, v) && PageOf(v) != PageOf(h.end)
    ensures Backed(GrowPage(h).0.vm, v)
  {
    hide PageOf, TableLoc, Vmm.Inv, Look, AllocPage, Address, AddressOf, Missing;
    AllocPageBacks(h.vm, h.end, FLAGS);
    AllocPageFrame(h.vm, h.end, FLAGS);
    var b :| b in h.vm.owner && h.vm.owner[b] == Data(PageOf(v));
    assert GrowPage(h).0.vm == AllocPage(h.vm, h.end, FLAGS).0;
    assert b in GrowPage(h).0.vm.owner && GrowPage(h).0.vm.owner[b] == Data(PageOf(v));
  }

  /** The end is a page boundary, and no earlier heap page shares its table entry. */
  lemma HeapPage(end: nat, k: nat)
    requires KERNEL_HEAP_START <= end < WORD && end % PAGE_SIZE == 0
    requires After(KERNEL_HEAP_START, k) < end + PAGE_SIZE
    ensures After(KERNEL_HEAP_START, k) <= end
    ensures After(KERNEL_HEAP_START, k) < end ==> PageOf(After(KERNEL_HEAP_START, k)) != PageOf(end)
  {
    hide PageOf;
    var n := (end - KERNEL_HEAP_START) / PAGE_SIZE;
    assert KERNEL_HEAP_START % PAGE_SIZE == 0;
    assert After(KERNEL_HEAP_START, n) == end;
    if k < n {
      NearPagesDiffer(KERNEL_HEAP_START, k, n);
    }
  }

  lemma {:induction false} GrowKeeps(h: HeapState, need: nat)
    requires Valid(h) && need <= WORD
    ensures var (h', ok) := Grow(h, need);
            && Valid(h') && h'.current == h.current && h'.blocks == h.blocks && h.holes <= h'.holes
            && (ok ==> need <= h'.end) && (!ok ==> h'.vm.pool.Free() == 0)
            && (h.vm.pool.Free() >= 4 * PagesOf(if need <= h.end then 0 else need - h.end) ==> ok && h'.holes == h.holes)
    decreases need - h.end
  {
    hide Valid, GrowPage;
    if need > h.end {
      assert Bounds(h) by { GrowBound(h); }
      GrowPageKeeps(h);
      var (h1, ok) := GrowPage(h);
      OnePage(need - h.end);
      if ok {
        GrowPageEnd(h);
        GrowKeeps(h1, need);
      }
    }
  }

  lemma GrowBound(h: HeapState)
    requires Valid(h)
    ensures Bounds(h)
  {
  }

  lemma GrowPageEnd(h: HeapState)
    requires GrowPage(h).1
    ensures GrowPage(h).0.end == h.end + PAGE_SIZE
  {
  }

  lemma OnePage(size: nat)
    requires size > 0
    ensures PagesOf(size) == 1 + PagesOf(if size <= PAGE_SIZE then 0 else size - PAGE_SIZE)
  {
  }

  /** The least multiple of 16 that is not less. */
  lemma AlignUpRounds(size: nat)
    requires 0 < size && size + 15 < 0x1_0000_0000_0000_0000
    ensures size <= AlignUp(size) < size + 16 && AlignUp(size) % 16 == 0
  {
  }

  predicate NoWrap(h: HeapState, size: nat) {
    size + 15 < WORD && h.current + AlignUp(size) < WORD
  }

  /** A request that does not wrap gets the block at the bump pointer, which moves past it
      by the rounded size, or NULL and no block because the last page is taken or the size
      is 0; heap pages stay backed either way. */
  lemma KmallocKeeps(h: HeapState, size: nat)
    requires Valid(h) && NoWrap(h, size)
    ensures var (h', ptr) := Bump(h, size);
            && Valid(h')
            && (ptr != 0 ==> size > 0 && ptr == h.current && h'.current == h.current + AlignUp(size)
                             && h'.blocks == h.blocks + [Block(ptr, size)])
            && (ptr == 0 ==> h'.blocks == h.blocks && h'.current == h.current)
            && (ptr == 0 ==> if size == 0 then h' == h else h'.vm.pool.Free() == 0)
  {
    hide AlignUp, Grow, Vmm.Inv, Mapped, Laid, Bounds;
    if size > 0 {
      AlignUpRounds(size);
      BumpStep(h, size);
    }
  }

  /** The new bump pointer of a request that does not wrap. */
  lemma NeedFits(h: HeapState, size: nat)
    requires Bounds(h) && NoWrap(h, size) && AlignUp(size) % 16 == 0
    ensures var need := h.current + AlignUp(size); need % WORD == need && need % 16 == 0 && need < WORD && h.current > 0
  {
    hide AlignUp;
  }

  lemma BumpStep(h: HeapState, size: nat)
    requires Valid(h) && NoWrap(h, size) && 0 < size <= AlignUp(size) && AlignUp(size) % 16 == 0
    ensures var need := h.current + AlignUp(size);
            var (h1, ok) := Grow(h, need);
            && need % WORD == need && Valid(h1) && h1.current == h.current && h1.blocks == h.blocks
            && (ok ==> Valid(h1.(current := need, blocks := h1.blocks + [Block(h.current, size)])))
            && (!ok ==> h1.vm.pool.Free() == 0) && h.current > 0
  {
    hide AlignUp, Grow, Valid, Bounds, PagesOf;
    GrowBound(h);
    NeedFits(h, size);
    var need := h.current + AlignUp(size);
    GrowKeeps(h, need);
    var (h1, ok) := Grow(h, need);
    if ok {
      Append(h1, need, Block(h.current, size));
    }
  }

  lemma Append(h: HeapState, need: nat, b: Block)
    requires Valid(h) && need <= h.end && b.ptr + b.size <= need && need % 16 == 0 && b.ptr == h.current && b.size > 0
    ensures Valid(h.(current := need, blocks := h.blocks + [b]))
  {
    hide Vmm.Inv, PageOf;
  }

  /** With four spare frames for every page to grow, a request succeeds and leaves no hole. */
  lemma KmallocBacked(h: HeapState, size: nat)
    requires Valid(h) && NoWrap(h, size) && size > 0
    requires h.vm.pool.Free() >= 4 * PagesOf(AlignUp(size))
    ensures Bump(h, size).1 == h.current && Bump(h, size).0.holes == h.holes
  {
    hide AlignUp, Grow, Vmm.Inv, Mapped, PagesOf;
    AlignUpRounds(size);
    var need := h.current + AlignUp(size);
    GrowKeeps(h, need);
    assert PagesOf(0) == 0 by { NoPages(); }
    if need > h.end {
      MorePages(need - h.end, AlignUp(size));
    }
  }

  /** A request succeeds and leaves no hole exactly when there is a frame for each page to
      grow and for each table missing along those pages, counted once. */
  lemma KmallocBackedIff(h: HeapState, size: nat)
    requires Valid(h) && NoWrap(h, size) && size > 0
    ensures var n := PagesOf(Excess(h, h.current + AlignUp(size)));
            Bump(h, size).1 != 0 && Bump(h, size).0.holes == h.holes <==> h.vm.pool.Free() >= n + Needed(h.vm, h.end, n)
  {
    hide AlignUp, Grow, Valid, Bounds, PagesOf, Needed;
    AlignUpRounds(size);
    GrowBound(h);
    NeedFits(h, size);
    GrowBackedIff(h, h.current + AlignUp(size));
    GrowKeepsCurrent(h, h.current + AlignUp(size));
  }

  /** By how much a request exceeds the end of the heap. */
  function Excess(h: HeapState, need: nat): nat { if need <= h.end then 0 else need - h.end }

  lemma {:induction false} GrowBackedIff(h: HeapState, need: nat)
    requires Valid(h) && need <= WORD
    ensures var (h', ok) := Grow(h, need);
            var n := PagesOf(Excess(h, need));
            ok && h'.holes == h.holes <==> h.vm.pool.Free() >= n + Needed(h.vm, h.end, n)
    decreases need - h.end
  {
    hide Valid, GrowPage, PagesOf, Needed, Missing, TableLoc;
    assert Bounds(h) by { GrowBound(h); }
    PoolNotNegative(h);
    NoPages();
    if need <= h.end {
      NeededNone(h.vm, h.end);
    } else {
      var n := PagesOf(Excess(h, need));
      OnePage(need - h.end);
      NeedsFirst(h.vm, h.end, n - 1);
      GrowPageKeeps(h);
      var (h1, ok1) := GrowPage(h);
      if ok1 {
        GrowKeeps(h1, need);
        GrowPageBacked(h, n - 1);
        if h.vm.pool.Free() >= 1 + Missing(h.vm, TableLoc(h.end)) {
          GrowBackedIff(h1, need);
        }
      }
    }
  }

  lemma PoolNotNegative(h: HeapState)
    requires Valid(h)
    ensures h.vm.pool.Free() >= 0
  {
    NoZeroFrame(h.vm);
    FullMeansNoneFree(h.vm.pool);
  }

  /** A page grown leaves a hole or pays for itself and its tables. */
  lemma GrowPageBacked(h: HeapState, n: nat)
    requires Valid(h) && GrowPage(h).1
    ensures var h1 := GrowPage(h).0;
            && h1.end == After(h.end, 1)
            && if h.vm.pool.Free() >= 1 + Missing(h.vm, TableLoc(h.end))
               then h1.holes == h.holes
                    && h1.vm.pool.Free() == h.vm.pool.Free() - 1 - Missing(h.vm, TableLoc(h.end))
                    && Needed(h.vm, h.end, n + 1) == Missing(h.vm, TableLoc(h.end)) + Needed(h1.vm, h1.end, n)
               else h.end in h1.holes && h.end !in h.holes
  {
    hide Vmm.Inv, AllocPage, TableLoc, PageOf, Needed, Missing;
    PoolNotNegative(h);
    if h.vm.pool.Free() >= 1 + Missing(h.vm, TableLoc(h.end)) {
      AllocPageFrame(h.vm, h.end, FLAGS);
      AllocPageAlong(h.vm, h.end, FLAGS);
      NeededFirst(h.vm, GrowPage(h).0.vm, h.end, n);
    }
  }

  lemma NoPages()
    ensures PagesOf(0) == 0
  {
  }

  lemma MorePages(a: nat, b: nat)
    requires a <= b
    ensures PagesOf(a) <= PagesOf(b)
  {
  }

  /** A successful request keeps its block below the bump pointer exactly when neither
      the rounding nor the addition wraps around 2^64. */
  lemma KmallocFitsIff(h: HeapState, size: nat)
    requires Valid(h) && 0 < size < WORD && h.current < WORD && Bump(h, size).1 != 0
    ensures Bump(h, size).1 + size <= Bump(h, size).0.current <==> NoWrap(h, size)
  {
    hide AlignUp, Valid, Grow;
    AlignedSize(size);
    WrapOnce(h.current, AlignUp(size));
    GrowKeepsCurrent(h, (h.current + AlignUp(size)) % WORD);
  }

  lemma WrapOnce(a: nat, b: nat)
    requires a < WORD && b < WORD
    ensures (a + b) % WORD == if a + b < WORD then a + b else a + b - WORD
  {
  }

  lemma AlignedSize(size: nat)
    requires 0 < size < WORD
    ensures AlignUp(size) < WORD
    ensures if size + 15 < WORD then size <= AlignUp(size) else AlignUp(size) == 0
  {
  }

  lemma {:induction false} GrowKeepsCurrent(h: HeapState, need: nat)
    ensures Grow(h, need).0.current == h.current
    decreases need - h.end
  {
    hide AllocPage;
    if need > h.end && GrowPage(h).1 {
      GrowKeepsCurrent(GrowPage(h).0, need);
    }
  }

  /** The largest size wraps to nothing: the call succeeds at once and the next block
      starts at the same address. */
  lemma HugeRequestAliases(h: HeapState)
    requires Valid(h) && h.current < WORD
    ensures Bump(h, WORD - 1) == (h.(blocks := h.blocks + [Block(h.current, WORD - 1)]), h.current)
  {
    hide Vmm.Inv, Mapped, Laid, GrowPage;
    AlignedSize(WORD - 1);
  }

  // ---------------------------------------------------------------------------
  // Runs

  /** What happens to the heap, or to the page tables beneath it. */
  datatype HeapOp = Kmalloc(size: nat) | Other(op: Vmm.Op)

  function Step(h: HeapState, op: HeapOp): HeapState {
    match op
    case Kmalloc(size) => Bump(h, size).0
    case Other(o) => h.(vm := Vmm.Step(h.vm, o))
  }

  /** Nobody else maps or frees the pages of the heap. */
  ghost predicate Allowed(h: HeapState, op: HeapOp) {
    match op
    case Kmalloc(size) => NoWrap(h, size)
    case Other(o) =>
      && Vmm.Allowed(h.vm, o)
      && forall k :: 0 <= k && After(KERNEL_HEAP_START, k) < h.end ==> Target(o) != Some(PageOf(After(KERNEL_HEAP_START, k)))
  }

  function Run(h: HeapState, ops: seq<HeapOp>): HeapState {
    if ops == [] then h else Step(Run(h, ops[..|ops| - 1]), ops[|ops| - 1])
  }

  ghost predicate AllowedRun(h: HeapState, ops: seq<HeapOp>) {
    ops == [] || (AllowedRun(h, ops[..|ops| - 1]) && Allowed(Run(h, ops[..|ops| - 1]), ops[|ops| - 1]))
  }

  /** The heap starts empty at its address, with one page if the pool has one. */
  lemma InitValid(vm: Vm)
    requires Vmm.Inv(vm)
    ensures Valid(Initial(vm)) && Initial(vm).current == 0xFFFF_9000_0000_0000 && Initial(vm).blocks == []
    ensures Initial(vm).end == if vm.pool.Free() >= 1 then 0xFFFF_9000_0000_1000 else 0xFFFF_9000_0000_0000
  {
    if vm.pool.Free() >= 1 {
      GrowPageEnd1(HeapState(vm, KERNEL_HEAP_START, KERNEL_HEAP_START, [], {}));
    }
    hide GrowPage;
    GrowPageKeeps(HeapState(vm, KERNEL_HEAP_START, KERNEL_HEAP_START, [], {}));
  }

  /** The heap survives whatever else is mapped, freed or allocated beside it. */
  lemma OtherKeeps(h: HeapState, op: Vmm.Op)
    requires Valid(h) && Allowed(h, Other(op))
    ensures Valid(Step(h, Other(op)))
  {
    hide Vmm.Inv, PageOf, Vmm.Step, Vmm.Allowed, After, Backed, Target;
    StepKeeps(h.vm, op);
    forall k | 0 <= k && After(KERNEL_HEAP_START, k) < h.end
      ensures After(KERNEL_HEAP_START, k) in h.holes || Backed(Vmm.Step(h.vm, op), After(KERNEL_HEAP_START, k))
    {
      if After(KERNEL_HEAP_START, k) !in h.holes {
        OtherSpares(h.vm, op, After(KERNEL_HEAP_START, k));
      }
    }
  }

  lemma OtherSpares(vm: Vm, op: Vmm.Op, v: nat)
    requires Vmm.Inv(vm) && Vmm.Allowed(vm, op) && Backed(vm, v) && Target(op) != Some(PageOf(v))
    ensures Backed(Vmm.Step(vm, op), v)
  {
    hide Vmm.Inv, PageOf, Vmm.Step, Vmm.Allowed, Target, Effect, Look;
    var b :| b in vm.owner && vm.owner[b] == Data(PageOf(v));
    StepKeepsOwner(vm, op, b);
    StepRefines(vm, op, PageOf(v));
    EffectTarget(vm, op);
  }

  lemma {:induction false} RunKeeps(h: HeapState, ops: seq<HeapOp>)
    requires Valid(h) && AllowedRun(h, ops)
    ensures Valid(Run(h, ops))
  {
    hide Valid, Bump, Vmm.Step, NoWrap;
    if ops != [] {
      var before := Run(h, ops[..|ops| - 1]);
      RunKeeps(h, ops[..|ops| - 1]);
      match ops[|ops| - 1]
      case Kmalloc(size) => KmallocKeeps(before, size);
      case Other(op) => OtherKeeps(before, op);
    }
  }

  /** Every block ever given out is aligned and inside the heap, and each byte of it lies
      on a page with a frame of its own unless that page is a hole. */
  lemma BlocksAreSound(vm: Vm, ops: seq<HeapOp>, i: nat, k: nat)
    requires Vmm.Inv(vm) && AllowedRun(Initial(vm), ops)
    requires var h := Run(Initial(vm), ops); i < |h.blocks| && k < h.blocks[i].size
    ensures var h := Run(Initial(vm), ops); var b := h.blocks[i];
            && b.ptr % 16 == 0 && 0xFFFF_9000_0000_0000 <= b.ptr && b.ptr + b.size <= h.current <= h.end
            && var v := FrameStart(b.ptr + k); (v in h.holes || Backed(h.vm, v))
  {
    hide Vmm.Inv, PageOf, Step, Initial, FrameStart, Mapped, Backed;
    InitValid(vm);
    RunKeeps(Initial(vm), ops);
    var h := Run(Initial(vm), ops);
    ByteOnPage(h, h.blocks[i].ptr + k);
  }

  /** Unless its page is a hole, the processor translates every byte of every block, and
      lets it be written when the boot loader's tables let their pages be written. */
  lemma BlocksAreUsable(vm: Vm, ops: seq<HeapOp>, i: nat, k: nat)
    requires Vmm.Inv(vm) && Writable(vm) && AllowedRun(Initial(vm), ops)
    requires var h := Run(Initial(vm), ops); i < |h.blocks| && k < h.blocks[i].size && FrameStart(h.blocks[i].ptr + k) !in h.holes
    ensures var h := Run(Initial(vm), ops); var a := h.blocks[i].ptr + k; var e := Look(h.vm, PageOf(a));
            && e % 4 == 3 && e < 0x8000_0000_0000_0000
            && HardwareWalk(h.vm.mem, h.vm.root, a) == Some(e - 3 + a % 0x1000)
            && WritablePath(h.vm.mem, h.vm.root, a)
  {
    hide Vmm.Inv, PageOf, Step, Initial, FrameStart, Mapped, Look, HardwareWalk, WritablePath, Writable;
    BlocksAreSound(vm, ops, i, k);
    InitWritable(vm);
    RunWritable(Initial(vm), ops);
    InitValid(vm);
    RunKeeps(Initial(vm), ops);
    var h := Run(Initial(vm), ops);
    var a := h.blocks[i].ptr + k;
    SamePage(a);
    BackedUsable(h.vm, a, Look(h.vm, PageOf(a)));
  }

  lemma BackedUsable(vm: Vm, a: nat, e: nat)
    requires Vmm.Inv(vm) && Writable(vm) && e == Look(vm, PageOf(a)) && e % 0x1000 == 3 && e < 0x10_0000_0000_0000
    ensures e % 4 == 3 && HardwareWalk(vm.mem, vm.root, a) == Some(e - 3 + a % 0x1000) && WritablePath(vm.mem, vm.root, a)
  {
    LowBitsOf(e);
    hide PageOf, Tables, Linked, Backed, Look, HardwareWalk, WritablePath, Writable, Translate, Owned, Reserved;
    TranslateLooks(vm, a);
    TranslateIsHardwareWalk(vm, a);
    WritableIff(vm, a);
  }

  lemma LowBitsOf(e: nat)
    requires e % 0x1000 == 3 && e < 0x10_0000_0000_0000
    ensures e % 2 == 1 && e % 4 == 3 && e % 0x10_0000_0000_0000 / 0x1000 * 0x1000 == e - 3
  {
    assert e % 0x10_0000_0000_0000 == e;
    LowBitsOfSum(e / 0x1000);
  }

  lemma LowBitsOfSum(q: nat)
    ensures (q * 0x1000 + 3) % 2 == 1 && (q * 0x1000 + 3) % 4 == 3
  {
    assert q * 0x1000 + 3 == q * 0x400 * 4 + 3;
    assert q * 0x1000 + 3 == 2 * (q * 0x800 + 1) + 1;
  }

  lemma GrowPageWritable(h: HeapState)
    requires Vmm.Inv(h.vm) && Writable(h.vm)
    ensures Vmm.Inv(GrowPage(h).0.vm) && Writable(GrowPage(h).0.vm)
  {
    hide Vmm.Inv, Writable, AllocPage;
    StepWritable(h.vm, AllocPageOp(h.end, FLAGS));
    StepKeeps(h.vm, AllocPageOp(h.end, FLAGS));
  }

  lemma {:induction false} GrowWritable(h: HeapState, need: nat)
    requires Vmm.Inv(h.vm) && Writable(h.vm)
    ensures Vmm.Inv(Grow(h, need).0.vm) && Writable(Grow(h, need).0.vm)
    decreases need - h.end
  {
    hide Vmm.Inv, Writable, AllocPage;
    if need > h.end {
      GrowPageWritable(h);
      if GrowPage(h).1 {
        GrowWritable(GrowPage(h).0, need);
      }
    }
  }

  lemma InitWritable(vm: Vm)
    requires Vmm.Inv(vm) && Writable(vm)
    ensures Vmm.Inv(Initial(vm).vm) && Writable(Initial(vm).vm)
  {
    hide Vmm.Inv, Writable, GrowPage;
    GrowPageWritable(HeapState(vm, KERNEL_HEAP_START, KERNEL_HEAP_START, [], {}));
  }

  lemma {:induction false} RunWritable(h: HeapState, ops: seq<HeapOp>)
    requires Vmm.Inv(h.vm) && Writable(h.vm) && AllowedRun(h, ops)
    ensures Vmm.Inv(Run(h, ops).vm) && Writable(Run(h, ops).vm)
  {
    hide Vmm.Inv, Writable, Grow, Vmm.Step, AlignUp;
    if ops != [] {
      var before := Run(h, ops[..|ops| - 1]);
      RunWritable(h, ops[..|ops| - 1]);
      match ops[|ops| - 1]
      case Kmalloc(size) => GrowWritable(before, (before.current + AlignUp(size)) % WORD);
      case Other(op) => StepWritable(before.vm, op); StepKeeps(before.vm, op);
    }
  }

  /** Blocks never overlap. */
  lemma BlocksAreDisjoint(vm: Vm, ops: seq<HeapOp>, i: nat, j: nat)
    requires Vmm.Inv(vm) && AllowedRun(Initial(vm), ops) && i < j < |Run(Initial(vm), ops).blocks|
    ensures var b, c := Run(Initial(vm), ops).blocks[i], Run(Initial(vm), ops).blocks[j]; b.ptr + b.size <= c.ptr
  {
    hide Vmm.Inv, Step, Initial, Mapped, Bounds;
    InitValid(vm);
    RunKeeps(Initial(vm), ops);
  }

  /** Two entries that are present and writable, with different frames that are no page
      tables and, when the bitmap fits, hold no byte of it. */
  ghost predicate OwnFrames(vm: Vm, e: nat, f: nat) {
    && e % 0x1000 == 3 && f % 0x1000 == 3 && e != f && e < 0x10_0000_0000_0000 && f < 0x10_0000_0000_0000
    && (forall l :: l in vm.at ==> vm.at[l] != e - 3 && vm.at[l] != f - 3)
    && (BitmapFits(vm.pool.regions) ==>
          forall addr :: InBitmap(vm.pool.regions, addr) ==> !Holds(e - 3, addr) && !Holds(f - 3, addr))
  }

  /** Pages of the heap that are not holes are present and writable, two of them have
      different frames, and no frame of theirs is a page table or, when the bitmap fits,
      contains a byte of it. */
  lemma PagesHaveOwnFrames(vm: Vm, ops: seq<HeapOp>, x: nat, y: nat)
    requires Vmm.Inv(vm) && AllowedRun(Initial(vm), ops)
    requires var h := Run(Initial(vm), ops);
             && 0xFFFF_9000_0000_0000 <= x < y < h.end && FrameStart(x) != FrameStart(y)
             && FrameStart(x) !in h.holes && FrameStart(y) !in h.holes
    ensures var h := Run(Initial(vm), ops); var e, f := Look(h.vm, PageOf(x)), Look(h.vm, PageOf(y)); OwnFrames(h.vm, e, f)
  {
    hide Vmm.Inv, Step, Initial, Mapped, Laid, Bounds, PageOf, Look, Present, Address, FrameStart, BitmapFits, InBitmap, Holds;
    InitValid(vm);
    RunKeeps(Initial(vm), ops);
    var h := Run(Initial(vm), ops);
    ByteOnPage(h, x);
    ByteOnPage(h, y);
    SamePage(x);
    SamePage(y);
    DistinctPages(h, x, y);
    var b :| b in h.vm.owner && h.vm.owner[b] == Data(PageOf(x));
    var c :| c in h.vm.owner && h.vm.owner[c] == Data(PageOf(y));
    FramesApart(h.vm, b, c);
    AddressIs(Look(h.vm, PageOf(x)));
    AddressIs(Look(h.vm, PageOf(y)));
  }

  lemma AddressIs(e: nat)
    requires e % 0x1000 == 3 && e < 0x10_0000_0000_0000
    ensures Address(e) == e - 3
  {
  }

  lemma SamePage(x: nat)
    ensures PageOf(FrameStart(x)) == PageOf(x)
  {
    hide PageOf;
    PageOfIsPageNumber(FrameStart(x), x);
  }

  /** The heap is too small for two of its pages to share a table entry. */
  lemma DistinctPages(h: HeapState, x: nat, y: nat)
    requires Bounds(h) && KERNEL_HEAP_START <= x < y < h.end && FrameStart(x) != FrameStart(y)
    ensures PageOf(x) != PageOf(y)
  {
    hide PageOf;
    PageOfIsPageNumber(x, y);
    SmallShift(x / PAGE_SIZE, y / PAGE_SIZE - x / PAGE_SIZE);
  }

  lemma FramesApart(vm: Vm, b: nat, c: nat)
    requires Vmm.Inv(vm) && b in vm.owner && c in vm.owner && vm.owner[b].Data? && vm.owner[c].Data?
    requires vm.owner[b].page != vm.owner[c].page
    ensures var e, f := Look(vm, vm.owner[b].page), Look(vm, vm.owner[c].page);
            && Present(e) && Present(f) && Address(e) != Address(f)
            && (forall l :: l in vm.at ==> vm.at[l] != Address(e) && vm.at[l] != Address(f))
            && (BitmapFits(vm.pool.regions) ==>
                  forall addr :: InBitmap(vm.pool.regions, addr) ==> !Holds(Address(e), addr) && !Holds(Address(f), addr))
  {
    hide Tables, Linked, Reserved, Look, Address, AddressOf, IndexOf, BitmapFits, InBitmap, Holds;
    forall l | l in vm.at ensures vm.at[l] != Address(Look(vm, vm.owner[b].page)) && vm.at[l] != Address(Look(vm, vm.owner[c].page)) {
      DataIsExclusive(vm, b, c, l);
      DataIsExclusive(vm, c, b, l);
    }
    AddressInjective(vm.pool.regions, b, c);
    forall addr | BitmapFits(vm.pool.regions) && InBitmap(vm.pool.regions, addr)
      ensures !Holds(AddressOf(vm.pool.regions, b), addr) && !Holds(AddressOf(vm.pool.regions, c), addr)
    {
      FrameAvoidsBitmap(vm, addr, b);
      FrameAvoidsBitmap(vm, addr, c);
    }
  }

  lemma ByteOnPage(h: HeapState, addr: nat)
    requires Bounds(h) && Mapped(h) && KERNEL_HEAP_START <= addr < h.end
    ensures FrameStart(addr) in h.holes || Backed(h.vm, FrameStart(addr))
  {
    hide Backed;
    var k := (addr - KERNEL_HEAP_START) / PAGE_SIZE;
    assert KERNEL_HEAP_START % PAGE_SIZE == 0;
    assert After(KERNEL_HEAP_START, k) == FrameStart(addr);
  }

  // ---------------------------------------------------------------------------
  // The allocator itself

  class KernelHeap {
    const vmm: PageTables.Mapper
    var heapStart: nat
    var heapEnd: nat
    var heapCurrent: nat
    ghost var blocks: seq<Block>
    ghost var holes: set<nat>

    ghost function State(): HeapState
      reads this, vmm, vmm.pmm
    {
      HeapState(vmm.State(), heapEnd, heapCurrent, blocks, holes)
    }

    ghost predicate Ready()
      reads this, vmm, vmm.pmm, vmm.pmm.bitmap
    {
      vmm.Valid() && Valid(State())
    }

    constructor (vmm: PageTables.Mapper)
      requires vmm.Valid()
      ensures this.vmm == vmm
    {
      this.vmm := vmm;
    }

    method Init()
      requires vmm.Valid()
      modifies this, vmm`mem, vmm`at, vmm`owner, vmm.pmm`used, vmm.pmm.bitmap
      ensures Ready() && State() == Initial(old(vmm.State()))
    {
      hide Vmm.Inv, GrowPage, Mapped, Laid, Bounds;
      InitValid(vmm.State());
      heapStart := KERNEL_HEAP_START;
      heapCurrent := heapStart;
      heapEnd := heapStart;
      blocks, holes := [], {};
      var _ := GrowOnce();
    }

    /** One page more at the end of the heap, as heap_init and kmalloc both ask for it. */
    method GrowOnce() returns (ok: bool)
      requires vmm.Valid()
      modifies this`heapEnd, this`holes, vmm`mem, vmm`at, vmm`owner, vmm.pmm`used, vmm.pmm.bitmap
      ensures vmm.Valid() && (State(), ok) == GrowPage(old(State()))
    {
      hide Vmm.Inv, AllocPage;
      ghost var h := State();
      ok := vmm.AllocPage(heapEnd, FLAGS);
      if ok {
        if h.vm.pool.Free() < 1 + Missing(h.vm, TableLoc(h.end)) {
          holes := holes + {heapEnd};
        }
        heapEnd := heapEnd + PAGE_SIZE;
      }
    }

    /** NULL is 0. Sums wrap around 2^64 as in the code; a request that does not wrap
        leaves the heap sound. */
    method Kmalloc(size: nat) returns (ptr: nat)
      requires Ready()
      modifies this`heapEnd, this`heapCurrent, this`blocks, this`holes
      modifies vmm`mem, vmm`at, vmm`owner, vmm.pmm`used, vmm.pmm.bitmap
      ensures vmm.Valid() && (State(), ptr) == Bump(old(State()), size)
      ensures NoWrap(old(State()), size) ==> Ready()
    {
      hide Vmm.Inv, AllocPage, GrowPage, Valid, AlignUp, NoWrap;
      ghost var h := State();
      if NoWrap(h, size) {
        KmallocKeeps(h, size);
      }
      if size == 0 {
        return 0;
      }
      var rounded := AlignUp(size);
      ghost var need: nat := (h.current + rounded) % WORD;
      while (heapCurrent + rounded) % WORD > heapEnd
        invariant vmm.Valid() && heapCurrent == h.current && blocks == h.blocks
        invariant Grow(h, need) == Grow(State(), need)
        decreases need - heapEnd
      {
        GrowPageStep(State());
        var ok := GrowOnce();
        if !ok {
          return 0;
        }
      }
      ptr := heapCurrent;
      heapCurrent := (heapCurrent + rounded) % WORD;
      blocks := blocks + [Block(ptr, size)];
    }
  }

  lemma GrowPageStep(h: HeapState)
    ensures GrowPage(h).0.current == h.current && GrowPage(h).0.blocks == h.blocks
    ensures GrowPage(h).1 ==> GrowPage(h).0.end == h.end + PAGE_SIZE
  {
  }
}
