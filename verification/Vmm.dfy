// Four-level page tables built on demand from the page allocator: what the code
// computes, stated on values, and the theorems about every run of it.
module Vmm {
  import opened Words
  import opened Pmm

  const ENTRIES: nat := 512
  const PAGE_PRESENT: nat := 1
  const PAGE_WRITABLE: nat := 2

  // ---------------------------------------------------------------------------
  // Entries and addresses

  predicate Present(e: nat) { e % 2 == 1 }

  predicate Huge(e: nat) { e / 128 % 2 == 1 }

  /** Bits 12-51 of an entry. */
  function Address(e: nat): nat { e % PHYS_LIMIT / PAGE_SIZE * PAGE_SIZE }

  function FrameStart(addr: nat): nat { addr - addr % PAGE_SIZE }

  function Pml4Index(virt: nat): (i: nat) ensures i < ENTRIES { virt / 0x80_0000_0000 % ENTRIES }
  function PdptIndex(virt: nat): (i: nat) ensures i < ENTRIES { virt / 0x4000_0000 % ENTRIES }
  function PdIndex(virt: nat): (i: nat) ensures i < ENTRIES { virt / 0x20_0000 % ENTRIES }
  function PtIndex(virt: nat): (i: nat) ensures i < ENTRIES { virt / 0x1000 % ENTRIES }
  function PageOffset(virt: nat): nat { virt % PAGE_SIZE }

  /** A place in the radix tree: the root table, or entry `index` of the table at `up`.
      Tables sit at depth 0 to 3; a place of depth 4 is a virtual page. */
  datatype Loc = Root | Child(up: Loc, index: nat)

  function Depth(l: Loc): nat {
    match l case Root => 0 case Child(u, _) => 1 + Depth(u)
  }

  function TableLoc(virt: nat): (l: Loc)
    ensures Depth(l) == 3 && Indexed(l)
  {
    var pdpt := Child(Root, Pml4Index(virt));
    var pd := Child(pdpt, PdptIndex(virt));
    assert Depth(pdpt) == 1 && Indexed(pdpt);
    assert Depth(pd) == 2 && Indexed(pd);
    Child(pd, PdIndex(virt))
  }

  function PageOf(virt: nat): (l: Loc)
    ensures Depth(l) == 4 && l.up == TableLoc(virt) && l.index < ENTRIES
  {
    Child(TableLoc(virt), PtIndex(virt))
  }

  predicate Indexed(l: Loc) {
    l.Child? ==> l.index < ENTRIES && Indexed(l.up)
  }

  /** The four indices together are the page number modulo 2^36: addresses name the
      same page exactly when they agree in bits 12-47. */
  lemma PageOfIsPageNumber(v: nat, w: nat)
    ensures PageOf(v) == PageOf(w) <==> v / PAGE_SIZE % 0x10_0000_0000 == w / PAGE_SIZE % 0x10_0000_0000
  {
    IndexDigits(v);
    IndexDigits(w);
    var a, b := Pml4Index(v), Pml4Index(w);
    var c, d := a * ENTRIES + PdptIndex(v), b * ENTRIES + PdptIndex(w);
    var e, f := c * ENTRIES + PdIndex(v), d * ENTRIES + PdIndex(w);
    SameDigits(a, b, PdptIndex(v), PdptIndex(w));
    SameDigits(c, d, PdIndex(v), PdIndex(w));
    SameDigits(e, f, PtIndex(v), PtIndex(w));
  }

  lemma SameDigits(a: nat, b: nat, i: nat, j: nat)
    requires i < ENTRIES && j < ENTRIES
    ensures a * ENTRIES + i == b * ENTRIES + j <==> a == b && i == j
  {
  }

  lemma IndexDigits(v: nat)
    ensures v / PAGE_SIZE % 0x10_0000_0000
            == ((Pml4Index(v) * ENTRIES + PdptIndex(v)) * ENTRIES + PdIndex(v)) * ENTRIES + PtIndex(v)
  {
    var n := v / 0x1000;
    DivTwice(v, 0x1000, 0x200);
    DivTwice(v, 0x1000, 0x4_0000);
    DivTwice(v, 0x1000, 0x800_0000);
    Digits(n);
  }

  lemma Digits(n: nat)
    ensures n % 0x10_0000_0000
            == ((n / 0x800_0000 % ENTRIES * ENTRIES + n / 0x4_0000 % ENTRIES) * ENTRIES + n / 0x200 % ENTRIES) * ENTRIES + n % ENTRIES
  {
    Digit(n, 0x200, 0x800_0000);
    Digit(n / 0x200, 0x200, 0x4_0000);
    Digit(n / 0x4_0000, 0x200, 0x200);
    assert n / 0x200 / 0x200 == n / 0x4_0000;
    assert n / 0x4_0000 / 0x200 == n / 0x800_0000;
  }

  /** The remainder by a product, from the last digit up. */
  lemma Digit(n: nat, a: nat, b: nat)
    requires a == 0x200 && b in {0x200, 0x4_0000, 0x800_0000}
    ensures n % (a * b) == n / a % b * a + n % a
  {
  }

  lemma DivTwice(v: nat, a: nat, b: nat)
    requires a == 0x1000 && b in {0x200, 0x4_0000, 0x800_0000}
    ensures v / (a * b) == v / a / b
  {
  }

  // ---------------------------------------------------------------------------
  // State

  /** What a used frame is used for; a lost frame is used but no longer reachable. */
  datatype Owner = Bitmap | Table(place: Loc) | Data(page: Loc) | Held | Lost

  /** Physical memory by frame, the root table, the page pool, and two maps that the
      code does not store: where each table hangs, and who owns each used index. */
  datatype Vm = Vm(mem: map<nat, seq<nat>>, root: nat, pool: Pool, at: map<Loc, nat>, owner: map<nat, Owner>)

  function Read(mem: map<nat, seq<nat>>, t: nat, i: nat): nat {
    if t in mem && i < |mem[t]| then mem[t][i] else 0
  }

  function Write(mem: map<nat, seq<nat>>, t: nat, i: nat, e: nat): map<nat, seq<nat>> {
    if t in mem && i < |mem[t]| then
      var row: seq<nat> := mem[t][i := e];
      mem[t := row]
    else mem
  }

  function At(s: Vm, l: Loc): nat {
    if l in s.at then s.at[l] else 0
  }

  /** The entry of a virtual page, 0 when its table does not exist. */
  function Look(s: Vm, page: Loc): nat {
    if page.Child? && page.up in s.at then Read(s.mem, s.at[page.up], page.index) else 0
  }

  ghost predicate Tables(s: Vm) {
    Root in s.at && s.at[Root] == s.root && Placed(s.at, s.mem)
  }

  /** Tables are distinct whole frames, each hanging from a table one level up. */
  ghost predicate Placed(at: map<Loc, nat>, mem: map<nat, seq<nat>>) {
    Framed(at, mem) && Hung(at)
  }

  ghost predicate Framed(at: map<Loc, nat>, mem: map<nat, seq<nat>>) {
    && (forall l :: l in at ==> at[l] != 0 && FrameAddress(at[l]))
    && (forall l :: l in at ==> at[l] in mem && |mem[at[l]]| == ENTRIES)
  }

  ghost predicate Hung(at: map<Loc, nat>) {
    && (forall l :: l in at ==> Depth(l) <= 3)
    && (forall l {:trigger l.up} :: l in at && l.Child? ==> l.up in at && l.index < ENTRIES)
    && (forall l, m :: l in at && m in at && l != m ==> at[l] != at[m])
  }

  /** An inner entry is present exactly when the table below it exists, and then it is
      that table's address and not a huge page. */
  ghost predicate Linked(s: Vm) {
    forall l, i: nat :: l in s.at && Depth(l) < 3 && i < ENTRIES ==>
      var e := Read(s.mem, s.at[l], i);
      && (Present(e) <==> Child(l, i) in s.at)
      && (Present(e) ==> Address(e) == s.at[Child(l, i)] && !Huge(e))
  }

  ghost predicate Backed(s: Vm) {
    && s.pool.Valid()
    && (forall b :: 0 <= b < Total(s.pool.regions) ==>
          AddressOf(s.pool.regions, b) in s.mem && |s.mem[AddressOf(s.pool.regions, b)]| == ENTRIES)
    && (forall b :: 0 <= b < Total(s.pool.regions) && AddressOf(s.pool.regions, b) == 0 ==>
          b in s.owner && s.owner[b] == Bitmap)
  }

  /** The set bits of the bitmap are the owned indices; tables and data pages are where
      their owner says. */
  ghost predicate Owned(s: Vm) {
    && s.owner.Keys == s.pool.used
    && (forall l :: l in s.at && IndexOf(s.pool.regions, s.at[l]).Some? ==>
          var b := IndexOf(s.pool.regions, s.at[l]).value; b in s.owner && s.owner[b] == Table(l))
    && (forall b :: b in s.owner && b < Total(s.pool.regions) && s.owner[b].Table? ==>
          s.owner[b].place in s.at && s.at[s.owner[b].place] == AddressOf(s.pool.regions, b))
    && (forall b :: b in s.owner && b < Total(s.pool.regions) && s.owner[b].Data? ==>
          && Depth(s.owner[b].page) == 4
          && Present(Look(s, s.owner[b].page))
          && Address(Look(s, s.owner[b].page)) == AddressOf(s.pool.regions, b))
  }

  /** The frames of the bitmap are exactly those owned by it. */
  ghost predicate Reserved(s: Vm) {
    && (forall b: nat :: b < BitmapPages(s.pool.regions) ==> b in s.owner && s.owner[b] == Bitmap)
    && (forall b :: b in s.owner && s.owner[b] == Bitmap ==> b < BitmapPages(s.pool.regions))
  }

  ghost predicate Inv(s: Vm) {
    Tables(s) && Linked(s) && Backed(s) && Owned(s) && Reserved(s)
  }

  // ---------------------------------------------------------------------------
  // Operations

  function Zeros(): (z: seq<nat>)
    ensures |z| == ENTRIES && forall i :: 0 <= i < ENTRIES ==> z[i] == 0
  {
    seq(ENTRIES, i => 0)
  }

  /** Hangs a cleared table below entry i of the table at l. */
  function AddTable(s: Vm, l: Loc, i: nat): Vm {
    var (pool, frame) := Alloc(s.pool);
    Vm(Write(s.mem[frame := Zeros()], At(s, l), i, Or(frame, PAGE_PRESENT + PAGE_WRITABLE)), s.root,
       pool, s.at[Child(l, i) := frame], s.owner[s.pool.Lowest() := Table(Child(l, i))])
  }

  function EnsureTable(s: Vm, l: Loc, i: nat): (Vm, bool) {
    if Present(Read(s.mem, At(s, l), i)) then (s, true)
    else if Alloc(s.pool).1 == 0 then (s, false)
    else (AddTable(s, l, i), true)
  }

  /** The ensure_table calls down to a table; false when one of them found no page. */
  function Ensure(s: Vm, l: Loc): (Vm, bool) {
    match l
    case Root => (s, true)
    case Child(up, i) =>
      var (s1, ok) := Ensure(s, up);
      if ok then EnsureTable(s1, up, i) else (s1, false)
  }

  /** A data page whose entry is overwritten by something else is lost. */
  function Orphan(s: Vm, page: Loc, e: nat): map<nat, Owner> {
    map b | b in s.owner ::
      if s.owner[b] == Data(page)
         && !(Present(e) && b < Total(s.pool.regions) && Address(e) == AddressOf(s.pool.regions, b))
      then Lost else s.owner[b]
  }

  function SetEntry(s: Vm, page: Loc, e: nat): Vm
    requires page.Child?
  {
    s.(mem := Write(s.mem, At(s, page.up), page.index, e), owner := Orphan(s, page, e))
  }

  function Put(s: Vm, virt: nat, e: nat): Vm {
    var (s1, ok) := Ensure(s, TableLoc(virt));
    if ok then SetEntry(s1, PageOf(virt), e) else s1
  }

  function Map(s: Vm, virt: nat, phys: nat, flags: nat): Vm { Put(s, virt, Or(phys, flags)) }

  function Unmap(s: Vm, virt: nat): Vm { Put(s, virt, 0) }

  function IsMapped(s: Vm, virt: nat): (Vm, bool) {
    var (s1, ok) := Ensure(s, TableLoc(virt));
    (s1, ok && Present(Look(s1, PageOf(virt))))
  }

  function NextTable(mem: map<nat, seq<nat>>, t: nat, i: nat): Option<nat> {
    var e := Read(mem, t, i);
    if Present(e) then Some(Address(e)) else None
  }

  function Translate(mem: map<nat, seq<nat>>, root: nat, virt: nat): nat {
    match NextTable(mem, root, Pml4Index(virt))
    case None => 0
    case Some(pdpt) =>
      match NextTable(mem, pdpt, PdptIndex(virt))
      case None => 0
      case Some(pd) =>
        match NextTable(mem, pd, PdIndex(virt))
        case None => 0
        case Some(pt) =>
          var e := Read(mem, pt, PtIndex(virt));
          if Present(e) then Address(e) + PageOffset(virt) else 0
  }

  /** A frame handed to a caller of the page allocator. */
  function Take(s: Vm): (Vm, nat) {
    var (pool, frame) := Alloc(s.pool);
    (if frame == 0 then s else s.(pool := pool, owner := s.owner[s.pool.Lowest() := Held]), frame)
  }

  function Give(s: Vm, frame: nat): Vm {
    match IndexOf(s.pool.regions, frame)
    case None => s
    case Some(b) => if frame == 0 then s else s.(pool := Release(s.pool, frame), owner := s.owner - {b})
  }

  /** Records what became of a frame that was to back a page. */
  function Reown(s: Vm, b: nat, page: Loc): Vm
  {
    var e := Look(s, page);
    var mapped := Present(e) && b < Total(s.pool.regions) && Address(e) == AddressOf(s.pool.regions, b);
    s.(owner := s.owner[b := if mapped then Data(page) else Lost])
  }

  function AllocPage(s: Vm, virt: nat, flags: nat): (Vm, bool) {
    var (s0, frame) := Take(s);
    if frame == 0 then (s0, false)
    else
      (Reown(Map(s0, virt, frame, flags), s.pool.Lowest(), PageOf(virt)), true)
  }

  function FreePage(s: Vm, virt: nat): Vm {
    var phys := Translate(s.mem, s.root, virt);
    if phys == 0 then s else Give(Unmap(s, virt), FrameStart(phys))
  }

  // ---------------------------------------------------------------------------
  // Growing the tree

  ghost predicate Linkable(s: Vm, l: Loc, i: nat) {
    && Inv(s) && l in s.at && Depth(l) < 3 && i < ENTRIES
    && !Present(Read(s.mem, s.at[l], i)) && Alloc(s.pool).1 != 0
  }

  lemma AddTableReads(s: Vm, l: Loc, i: nat, m: Loc, j: nat)
    requires Linkable(s, l, i) && m in s.at
    ensures Read(AddTable(s, l, i).mem, s.at[m], j)
            == if m == l && j == i then Or(Alloc(s.pool).1, 3) else Read(s.mem, s.at[m], j)
    ensures Read(AddTable(s, l, i).mem, Alloc(s.pool).1, j) == 0
  {
    hide Or, Present, Address, Huge, AddressOf, IndexOf, FrameAddress, Linked, Owned, Backed, Depth, Reserved;
    FreshFrame(s);
  }

  lemma AddTableMemory(s: Vm, l: Loc, i: nat)
    requires Linkable(s, l, i)
    ensures var s', f := AddTable(s, l, i), Alloc(s.pool).1;
            && (forall m, j: nat :: m in s.at && (m != l || j != i) ==> Read(s'.mem, s.at[m], j) == Read(s.mem, s.at[m], j))
            && (forall j: nat :: Read(s'.mem, f, j) == 0)
            && Read(s'.mem, s.at[l], i) == f + 3
            && (forall t :: t in s.mem ==> t in s'.mem && (|s.mem[t]| == ENTRIES ==> |s'.mem[t]| == ENTRIES))
            && Child(l, i) !in s.at
  {
    hide Or, Address, Huge, AddressOf, IndexOf, Backed, Owned, FrameAddress, Read, Reserved;
    var s', f := AddTable(s, l, i), Alloc(s.pool).1;
    FreshFrame(s);
    LinkEntry(f);
    AddTableReads(s, l, i, l, i);
    forall m, j: nat | m in s.at && (m != l || j != i) ensures Read(s'.mem, s.at[m], j) == Read(s.mem, s.at[m], j) {
      AddTableReads(s, l, i, m, j);
    }
    forall j: nat ensures Read(s'.mem, f, j) == 0 {
      AddTableReads(s, l, i, l, j);
    }
  }

  lemma AddTableEntry(s: Vm, l: Loc, i: nat, m: Loc, j: nat)
    requires Linkable(s, l, i) && m in AddTable(s, l, i).at && Depth(m) < 3 && j < ENTRIES
    ensures var s' := AddTable(s, l, i);
            var e := Read(s'.mem, s'.at[m], j);
            && (Present(e) <==> Child(m, j) in s'.at)
            && (Present(e) ==> Address(e) == s'.at[Child(m, j)] && !Huge(e))
  {
    hide Backed, Owned, Or, Huge, Address, FrameAddress, Read, Alloc, AddressOf, IndexOf, Reserved;
    FreshFrame(s);
    LinkEntry(Alloc(s.pool).1);
    AddTableMemory(s, l, i);
    if m == Child(l, i) {
      assert Child(m, j) !in s.at;
    } else {
      assert m in s.at;
    }
  }

  lemma FrameNew(at: map<Loc, nat>, mem: map<nat, seq<nat>>, c: Loc, f: nat)
    requires Framed(at, mem) && f != 0 && FrameAddress(f) && f in mem && |mem[f]| == ENTRIES
    ensures Framed(at[c := f], mem)
  {
    hide FrameAddress;
  }

  lemma HangNew(at: map<Loc, nat>, l: Loc, i: nat, f: nat)
    requires Hung(at) && l in at && Depth(l) < 3 && i < ENTRIES && forall m :: m in at ==> at[m] != f
    ensures Hung(at[Child(l, i) := f])
  {
    assert Depth(Child(l, i)) == 1 + Depth(l);
  }

  lemma AddTableTables(s: Vm, l: Loc, i: nat)
    requires Linkable(s, l, i)
    ensures Tables(AddTable(s, l, i))
  {
    hide Backed, Owned, Linked, Or, FrameAddress, AddressOf, IndexOf, Read, Hung, Reserved;
    FreshFrame(s);
    AddTableMemory(s, l, i);
    var f := Alloc(s.pool).1;
    assert f in AddTable(s, l, i).mem && |AddTable(s, l, i).mem[f]| == ENTRIES;
    FramesLive(s, l, i);
    FrameNew(s.at, AddTable(s, l, i).mem, Child(l, i), f);
    HangNew(s.at, l, i, f);
  }

  lemma FramesLive(s: Vm, l: Loc, i: nat)
    requires Linkable(s, l, i)
    ensures Framed(s.at, AddTable(s, l, i).mem)
  {
    hide Backed, Owned, Linked, Or, FrameAddress, AddressOf, IndexOf, Read, Hung, AddTable, Reserved;
    AddTableMemory(s, l, i);
  }

  lemma AddTableLook(s: Vm, l: Loc, i: nat, page: Loc)
    requires Linkable(s, l, i) && Depth(page) == 4
    ensures Look(AddTable(s, l, i), page) == Look(s, page)
  {
    hide Or, Present, Address, Huge, AddressOf, IndexOf, FrameAddress, Linked, Owned, Backed, Read, Reserved;
    FreshFrame(s);
    AddTableMemory(s, l, i);
  }

  lemma AddTableBacks(s: Vm, l: Loc, i: nat)
    requires Linkable(s, l, i)
    ensures Backed(AddTable(s, l, i))
  {
    FreshFrame(s);
    AddTableMemory(s, l, i);
    hide Tables, Owned, Linked, Or, FrameAddress, AddressOf, IndexOf, Read, Reserved;
  }

  lemma AddTableOwns(s: Vm, l: Loc, i: nat)
    requires Linkable(s, l, i)
    ensures Owned(AddTable(s, l, i))
  {
    hide Linked, Or, FrameAddress, AddressOf, IndexOf, Tables, Look, Read, Reserved;
    var s', f := AddTable(s, l, i), Alloc(s.pool).1;
    FreshFrame(s);
    AddTableMemory(s, l, i);
    forall b | b in s.owner && b < Total(s.pool.regions) && s.owner[b].Data?
      ensures Look(s', s.owner[b].page) == Look(s, s.owner[b].page)
    {
      AddTableLook(s, l, i, s.owner[b].page);
    }
    assert s'.owner == s.owner[s.pool.Lowest() := Table(Child(l, i))];
    assert s'.at == s.at[Child(l, i) := f];
    hide AddTable, Alloc;
  }

  lemma AddTableReserves(s: Vm, l: Loc, i: nat)
    requires Linkable(s, l, i)
    ensures Reserved(AddTable(s, l, i))
  {
    hide Tables, Linked, Backed, Owned, Or, AddressOf, IndexOf, BitmapPages;
    FreshFrame(s);
  }

  /** Linking a fresh cleared table keeps the invariant and changes no translation. */
  lemma AddTableKeeps(s: Vm, l: Loc, i: nat)
    requires Linkable(s, l, i)
    ensures Inv(AddTable(s, l, i)) && Grown(s, AddTable(s, l, i))
    ensures AddTable(s, l, i).pool.Free() == s.pool.Free() - 1
    ensures forall page :: Depth(page) == 4 ==> Look(AddTable(s, l, i), page) == Look(s, page)
  {
    hide Tables, Owned, Or, FrameAddress, AddressOf, IndexOf, Look, Read, Reserved;
    AddTableTables(s, l, i);
    forall m, j: nat | m in AddTable(s, l, i).at && Depth(m) < 3 && j < ENTRIES
      ensures var s' := AddTable(s, l, i);
              var e := Read(s'.mem, s'.at[m], j);
              && (Present(e) <==> Child(m, j) in s'.at)
              && (Present(e) ==> Address(e) == s'.at[Child(m, j)] && !Huge(e))
    {
      AddTableEntry(s, l, i, m, j);
    }
    assert Linked(AddTable(s, l, i));
    AddTableBacks(s, l, i);
    AddTableOwns(s, l, i);
    AddTableReserves(s, l, i);
    FreshFrame(s);
    AllocIsFresh(s.pool);
    AddTableMemory(s, l, i);
    forall page | Depth(page) == 4 ensures Look(AddTable(s, l, i), page) == Look(s, page) {
      AddTableLook(s, l, i, page);
    }
  }

  lemma FreshFrame(s: Vm)
    requires Inv(s) && Alloc(s.pool).1 != 0
    ensures var f := Alloc(s.pool).1;
            && f in s.mem && |s.mem[f]| == ENTRIES && f != 0 && FrameAddress(f)
            && s.pool.Lowest() !in s.owner && s.pool.Lowest() < Total(s.pool.regions)
            && f == AddressOf(s.pool.regions, s.pool.Lowest())
            && IndexOf(s.pool.regions, f) == Some(s.pool.Lowest())
            && Alloc(s.pool).0.Valid()
            && forall l :: l in s.at ==> s.at[l] != f
  {
    AllocIsFresh(s.pool);
    IndexOfAddress(s.pool.regions, s.pool.Lowest());
  }

  lemma LinkEntry(frame: nat)
    requires FrameAddress(frame)
    ensures Or(frame, 3) == frame + 3 && Present(frame + 3) && Address(frame + 3) == frame && !Huge(frame + 3)
  {
    assert FlagBits(3);
    OrIsSum(frame, 3);
    LowBits(frame, 3, 0);
    NotHuge(frame / PAGE_SIZE);
  }

  lemma NotHuge(q: nat)
    ensures !Huge(q * PAGE_SIZE + 3) && Present(q * PAGE_SIZE + 3)
  {
    assert (q * PAGE_SIZE + 3) / 128 == q * 32;
  }

  /** Table pages still needed to reach a table. */
  function Missing(s: Vm, l: Loc): nat {
    match l case Root => 0 case Child(up, _) => Missing(s, up) + (if l in s.at then 0 else 1)
  }

  ghost predicate Reaches(s: Vm, l: Loc, s': Vm, ok: bool) {
    && Inv(s') && Grown(s, s')
    && (forall page :: Depth(page) == 4 ==> Look(s', page) == Look(s, page))
    && (forall m :: m in s'.at && m != l ==> m in s.at)
    && (ok ==> l in s'.at)
    && s'.pool.Free() == s.pool.Free() - (if l !in s.at && l in s'.at then 1 else 0)
  }

  lemma EnsureTableKeeps(s: Vm, l: Loc, i: nat)
    requires Inv(s) && l in s.at && Depth(l) < 3 && i < ENTRIES
    ensures var (s', ok) := EnsureTable(s, l, i);
            && Reaches(s, Child(l, i), s', ok)
            && (ok <==> Child(l, i) in s.at || s.pool.Free() > 0)
  {
    FullMeansNoneFree(s.pool);
    NoZeroFrame(s);
    assert Present(Read(s.mem, s.at[l], i)) <==> Child(l, i) in s.at;
    if Child(l, i) !in s.at && Alloc(s.pool).1 != 0 {
      AddTableReaches(s, l, i);
    }
  }

  lemma AddTableReaches(s: Vm, l: Loc, i: nat)
    requires Linkable(s, l, i)
    ensures Reaches(s, Child(l, i), AddTable(s, l, i), true)
  {
    AddTableKeeps(s, l, i);
    AddTableMemory(s, l, i);
  }

  /** Descending creates the missing tables and changes no translation; it succeeds
      exactly when the pool has a page for each of them. */
  lemma {:induction false} EnsureKeeps(s: Vm, l: Loc)
    requires Inv(s) && Depth(l) <= 3 && Indexed(l)
    ensures var (s', ok) := Ensure(s, l);
            && Inv(s') && Grown(s, s')
            && (forall page :: Depth(page) == 4 ==> Look(s', page) == Look(s, page))
            && (ok <==> s.pool.Free() >= Missing(s, l))
            && (ok ==> l in s'.at && s'.pool.Free() == s.pool.Free() - Missing(s, l))
            && (forall m :: m in s'.at && Depth(m) > Depth(l) ==> m in s.at)
            && 0 <= s'.pool.Free()
  {
    FullMeansNoneFree(s.pool);
    match l
    case Root =>
    case Child(up, i) =>
      EnsureKeeps(s, up);
      var (s1, ok) := Ensure(s, up);
      if ok {
        EnsureTableKeeps(s1, up, i);
        FullMeansNoneFree(EnsureTable(s1, up, i).0.pool);
        assert l in s.at <==> l in s1.at;
      }
  }

  lemma NoZeroFrame(s: Vm)
    requires Inv(s)
    ensures s.pool.Valid()
    ensures Alloc(s.pool).1 == 0 <==> s.pool.Full()
  {
    AllocIsFresh(s.pool);
  }

  /** What growing the tree leaves alone. */
  ghost predicate Grown(s: Vm, s': Vm) {
    && s'.root == s.root && s'.pool.regions == s.pool.regions
    && (forall l :: l in s.at ==> l in s'.at && s'.at[l] == s.at[l])
    && (forall b :: b in s.owner ==> b in s'.owner && s'.owner[b] == s.owner[b])
    && (forall b :: b in s'.owner && b !in s.owner ==> s'.owner[b].Table?)
  }

  // ---------------------------------------------------------------------------
  // Writing an entry

  lemma SetEntryReads(s: Vm, page: Loc, e: nat, l: Loc, i: nat)
    requires Tables(s) && page.Child? && page.up in s.at && page.index < ENTRIES && l in s.at
    ensures Read(SetEntry(s, page, e).mem, s.at[l], i) == if l == page.up && i == page.index then e else Read(s.mem, s.at[l], i)
  {
    hide Orphan, FrameAddress, Depth;
  }

  lemma SetEntryTables(s: Vm, page: Loc, e: nat)
    requires Tables(s) && page.Child? && page.up in s.at && page.index < ENTRIES
    ensures Tables(SetEntry(s, page, e))
  {
    hide FrameAddress, Orphan, Hung;
  }

  lemma SetEntryLinks(s: Vm, page: Loc, e: nat)
    requires Tables(s) && Linked(s) && Depth(page) == 4 && page.up in s.at && page.index < ENTRIES
    ensures Tables(SetEntry(s, page, e)) && Linked(SetEntry(s, page, e))
  {
    hide Address, Present, Huge, Tables, Orphan, Read;
    SetEntryTables(s, page, e);
    assert Depth(page.up) == 3;
    hide Depth;
    forall l, i: nat | l in s.at && Depth(l) < 3 && i < ENTRIES
      ensures Read(SetEntry(s, page, e).mem, s.at[l], i) == Read(s.mem, s.at[l], i)
    {
      SetEntryReads(s, page, e, l, i);
    }
  }

  lemma SetEntryLooks(s: Vm, page: Loc, e: nat, p: Loc)
    requires Tables(s) && Depth(page) == 4 && page.up in s.at && page.index < ENTRIES && Depth(p) == 4
    ensures Look(SetEntry(s, page, e), p) == if p == page then e else Look(s, p)
  {
    hide FrameAddress, Orphan, Read;
    if p.up in s.at {
      SetEntryReads(s, page, e, p.up, p.index);
    }
  }

  lemma SetEntryKeeps(s: Vm, page: Loc, e: nat)
    requires Inv(s) && Depth(page) == 4 && page.up in s.at && page.index < ENTRIES
    ensures Inv(SetEntry(s, page, e))
    ensures forall p :: Depth(p) == 4 ==> Look(SetEntry(s, page, e), p) == if p == page then e else Look(s, p)
  {
    hide Address, Huge, FrameAddress, Read, Look, Tables, Linked, AddressOf, IndexOf, Reserved;
    SetEntryLinks(s, page, e);
    forall p | Depth(p) == 4 ensures Look(SetEntry(s, page, e), p) == if p == page then e else Look(s, p) {
      SetEntryLooks(s, page, e, p);
    }
    SetEntryBacks(s, page, e);
    SetEntryReserves(s, page, e);
    assert SetEntry(s, page, e).owner.Keys == s.owner.Keys;
  }

  lemma SetEntryBacks(s: Vm, page: Loc, e: nat)
    requires Backed(s) && page.Child?
    ensures Backed(SetEntry(s, page, e))
  {
    hide AddressOf, IndexOf;
  }

  lemma SetEntryReserves(s: Vm, page: Loc, e: nat)
    requires Reserved(s) && page.Child?
    ensures Reserved(SetEntry(s, page, e))
  {
    hide AddressOf, BitmapPages;
  }

  /** A put succeeds exactly when the pool can supply the missing tables; then it
      changes the entry of its own page and no other. */
  lemma PutKeeps(s: Vm, virt: nat, e: nat)
    requires Inv(s)
    ensures var s' := Put(s, virt, e);
            && Inv(s') && s'.root == s.root && s'.pool.regions == s.pool.regions
            && (forall p :: Depth(p) == 4 ==>
                  Look(s', p) == if p == PageOf(virt) && s.pool.Free() >= Missing(s, TableLoc(virt)) then e else Look(s, p))
            && (forall l :: l in s.at ==> l in s'.at && s'.at[l] == s.at[l])
            && (forall b :: b in s.owner && s.owner[b] != Data(PageOf(virt)) ==> b in s'.owner && s'.owner[b] == s.owner[b])
            && (forall b :: b in s'.owner && b !in s.owner ==> s'.owner[b].Table?)
  {
    hide PageOf, TableLoc, Or, Tables, Linked, Backed, Owned, AddressOf, Address, Look, Reserved;
    EnsureKeeps(s, TableLoc(virt));
    var (s1, ok) := Ensure(s, TableLoc(virt));
    if ok {
      SetEntryKeeps(s1, PageOf(virt), e);
    }
  }

  // ---------------------------------------------------------------------------
  // Reading

  /** The walk of the code finds the entry of the page, and reads bit 0 and bits 12-51 of it. */
  lemma TranslateLooks(s: Vm, virt: nat)
    requires Tables(s) && Linked(s)
    ensures var e := Look(s, PageOf(virt));
            Translate(s.mem, s.root, virt)
            == if e % 2 == 1 then e % 0x10_0000_0000_0000 / 0x1000 * 0x1000 + virt % 0x1000 else 0
  {
    LooksUp(s, virt);
  }

  lemma LooksUp(s: Vm, virt: nat)
    requires Tables(s) && Linked(s)
    ensures var e := Look(s, PageOf(virt));
            Translate(s.mem, s.root, virt) == if Present(e) then Address(e) + PageOffset(virt) else 0
  {
    hide Address, Huge, FrameAddress, Pml4Index, PdptIndex, PdIndex, PtIndex;
    var l3 := Child(Root, Pml4Index(virt));
    var l2 := Child(l3, PdptIndex(virt));
    assert Depth(Root) == 0 && Depth(l3) == 1 && Depth(l2) == 2;
    assert TableLoc(virt) == Child(l2, PdIndex(virt));
    assert l3 in s.at <==> Present(Read(s.mem, s.root, Pml4Index(virt)));
    if l3 in s.at {
      assert l2 in s.at <==> Present(Read(s.mem, s.at[l3], PdptIndex(virt)));
      if l2 in s.at {
        assert TableLoc(virt) in s.at <==> Present(Read(s.mem, s.at[l2], PdIndex(virt)));
      }
    }
  }

  /** What the processor does with the same tables, section 4.5 of volume 3A of the
      Intel manual. Bit 0 of an entry says that it is present, bits 12-51 hold an address,
      and bit 7 of an inner entry says that it maps a large page; nine bits of the virtual
      address select an entry at each level. */
  function HardwareWalk(mem: map<nat, seq<nat>>, root: nat, virt: nat): Option<nat> {
    var pml4e := Read(mem, root, virt / 0x80_0000_0000 % 0x200);
    if pml4e % 2 == 0 then None else
    var pdpte := Read(mem, pml4e % 0x10_0000_0000_0000 / 0x1000 * 0x1000, virt / 0x4000_0000 % 0x200);
    if pdpte % 2 == 0 then None else
    if pdpte / 0x80 % 2 == 1 then Some(pdpte % 0x10_0000_0000_0000 / 0x4000_0000 * 0x4000_0000 + virt % 0x4000_0000) else
    var pde := Read(mem, pdpte % 0x10_0000_0000_0000 / 0x1000 * 0x1000, virt / 0x20_0000 % 0x200);
    if pde % 2 == 0 then None else
    if pde / 0x80 % 2 == 1 then Some(pde % 0x10_0000_0000_0000 / 0x20_0000 * 0x20_0000 + virt % 0x20_0000) else
    var pte := Read(mem, pde % 0x10_0000_0000_0000 / 0x1000 * 0x1000, virt / 0x1000 % 0x200);
    if pte % 2 == 0 then None else Some(pte % 0x10_0000_0000_0000 / 0x1000 * 0x1000 + virt % 0x1000)
  }

  /** The software walk agrees with the processor, 0 standing for a page fault. */
  lemma TranslateIsHardwareWalk(s: Vm, virt: nat)
    requires Tables(s) && Linked(s)
    ensures match HardwareWalk(s.mem, s.root, virt)
            case Some(phys) => Look(s, PageOf(virt)) % 2 == 1 && Translate(s.mem, s.root, virt) == phys
            case None => Look(s, PageOf(virt)) % 2 == 0 && Translate(s.mem, s.root, virt) == 0
  {
    LooksUp(s, virt);
    hide Translate;
    WalksAlike(s.mem, s.root, virt);
    hide HardwareWalk, Address, Huge, Present, FrameAddress, Pml4Index, PdptIndex, PdIndex, PtIndex, PageOffset;
    WalkFinds(s, virt);
    EntryBits(Look(s, PageOf(virt)));
  }

  /** The processor's walk in the words of the code. */
  function CodeWalk(mem: map<nat, seq<nat>>, root: nat, virt: nat): Option<nat> {
    var pml4e := Read(mem, root, Pml4Index(virt));
    if !Present(pml4e) then None else
    var pdpte := Read(mem, Address(pml4e), PdptIndex(virt));
    if !Present(pdpte) then None else
    if Huge(pdpte) then Some(pdpte % PHYS_LIMIT / 0x4000_0000 * 0x4000_0000 + virt % 0x4000_0000) else
    var pde := Read(mem, Address(pdpte), PdIndex(virt));
    if !Present(pde) then None else
    if Huge(pde) then Some(pde % PHYS_LIMIT / 0x20_0000 * 0x20_0000 + virt % 0x20_0000) else
    var pte := Read(mem, Address(pde), PtIndex(virt));
    if Present(pte) then Some(Address(pte) + PageOffset(virt)) else None
  }

  lemma WalksAlike(mem: map<nat, seq<nat>>, root: nat, virt: nat)
    ensures HardwareWalk(mem, root, virt) == CodeWalk(mem, root, virt)
  {
    hide Read;
  }

  lemma EntryBits(e: nat)
    ensures Present(e) <==> e % 2 == 1
  {
  }

  lemma WalkFinds(s: Vm, virt: nat)
    requires Tables(s) && Linked(s)
    ensures var e := Look(s, PageOf(virt));
            CodeWalk(s.mem, s.root, virt) == if Present(e) then Some(Address(e) + PageOffset(virt)) else None
  {
    hide Address, Huge, FrameAddress, Pml4Index, PdptIndex, PdIndex, PtIndex;
    var l3 := Child(Root, Pml4Index(virt));
    var l2 := Child(l3, PdptIndex(virt));
    assert Depth(Root) == 0 && Depth(l3) == 1 && Depth(l2) == 2;
    assert TableLoc(virt) == Child(l2, PdIndex(virt));
    assert l3 in s.at <==> Present(Read(s.mem, s.root, Pml4Index(virt)));
    if l3 in s.at {
      assert l2 in s.at <==> Present(Read(s.mem, s.at[l3], PdptIndex(virt)));
      if l2 in s.at {
        assert TableLoc(virt) in s.at <==> Present(Read(s.mem, s.at[l2], PdIndex(virt)));
      }
    }
  }

  /** A table that already exists is reached without touching anything. */
  lemma {:induction false} EnsureOfExisting(s: Vm, l: Loc)
    requires Inv(s) && l in s.at
    ensures Ensure(s, l) == (s, true) && Missing(s, l) == 0
  {
    if l.Child? {
      EnsureOfExisting(s, l.up);
      assert Depth(l) == Depth(l.up) + 1;
    }
  }

  /** A page-aligned address of at most 52 bits, and flags in bits 0-11 and 63. */
  predicate Mappable(phys: nat, flags: nat) {
    && phys % 0x1000 == 0 && phys < 0x10_0000_0000_0000
    && flags % 0x8000_0000_0000_0000 < 0x1000 && flags < 0x1_0000_0000_0000_0000
  }

  /** vmm_map of a frame with bit 0 among the flags: the page translates to it, or the
      tables ran out and nothing translates differently. */
  lemma MapTranslates(s: Vm, virt: nat, phys: nat, flags: nat, other: nat)
    requires Inv(s) && Mappable(phys, flags) && flags % 2 == 1
    ensures var s' := Map(s, virt, phys, flags);
            Translate(s'.mem, s'.root, other) ==
            if s.pool.Free() >= Missing(s, TableLoc(virt)) && PageOf(other) == PageOf(virt)
            then phys + other % 0x1000 else Translate(s.mem, s.root, other)
    ensures var s' := Map(s, virt, phys, flags);
            HardwareWalk(s'.mem, s'.root, other) ==
            if s.pool.Free() >= Missing(s, TableLoc(virt)) && PageOf(other) == PageOf(virt)
            then Some(phys + other % 0x1000) else HardwareWalk(s.mem, s.root, other)
    ensures Look(Map(s, virt, phys, flags), PageOf(virt))
            == if s.pool.Free() >= Missing(s, TableLoc(virt)) then phys + flags else Look(s, PageOf(virt))
  {
    hide PageOf, TableLoc, Or, Tables, Linked, Backed, Owned, Reserved, Put, Missing, Translate, Address, HardwareWalk, FlagBits;
    MappableBits(phys, flags);
    OrIsSum(phys, flags);
    PutKeeps(s, virt, Or(phys, flags));
    LooksUp(s, other);
    LooksUp(Map(s, virt, phys, flags), other);
    TranslateIsHardwareWalk(s, other);
    TranslateIsHardwareWalk(Map(s, virt, phys, flags), other);
    EntryOf(phys, flags);
  }

  lemma MappableBits(phys: nat, flags: nat)
    requires Mappable(phys, flags)
    ensures FrameAddress(phys) && FlagBits(flags) && (Present(flags) <==> flags % 2 == 1)
  {
  }

  lemma EntryOf(phys: nat, flags: nat)
    requires FrameAddress(phys) && FlagBits(flags)
    ensures Address(Or(phys, flags)) == phys && (Present(Or(phys, flags)) <==> Present(flags))
  {
    OrIsSum(phys, flags);
    var f, n := flags % NO_EXECUTE, flags / NO_EXECUTE;
    assert phys + flags == phys + f + n * NO_EXECUTE;
    LowBits(phys, f, n);
  }

  lemma LowBits(phys: nat, f: nat, n: nat)
    requires FrameAddress(phys) && f < PAGE_SIZE && n <= 1
    ensures Address(phys + f + n * NO_EXECUTE) == phys
    ensures (phys + f + n * NO_EXECUTE) % 2 == (f + n * NO_EXECUTE) % 2
  {
    DropHigh(phys + f, n);
    FrameOfSum(phys / PAGE_SIZE, f);
    EvenFrame(phys / PAGE_SIZE, f + n * NO_EXECUTE);
  }

  lemma FrameOfSum(q: nat, f: nat)
    requires f < PAGE_SIZE
    ensures (q * PAGE_SIZE + f) / PAGE_SIZE * PAGE_SIZE == q * PAGE_SIZE
  {
  }

  lemma EvenFrame(q: nat, x: nat)
    ensures (q * PAGE_SIZE + x) % 2 == x % 2
  {
    assert q * PAGE_SIZE + x == 2 * (q * 2048) + x;
  }

  lemma DropHigh(x: nat, n: nat)
    requires x < PHYS_LIMIT && n <= 1
    ensures (x + n * NO_EXECUTE) % PHYS_LIMIT == x
  {
    if n == 1 {
      assert x + NO_EXECUTE == x + 2048 * PHYS_LIMIT;
    }
  }

  /** Unmapping takes effect even when its table walk runs out of pages: the page of a
      missing table was not mapped to begin with. */
  lemma UnmapAlwaysWorks(s: Vm, virt: nat)
    requires Inv(s)
    ensures Inv(Unmap(s, virt))
    ensures forall p :: Depth(p) == 4 ==> Look(Unmap(s, virt), p) == if p == PageOf(virt) then 0 else Look(s, p)
  {
    hide PageOf, TableLoc, Or, Tables, Linked, Owned, Reserved, AddressOf;
    PutKeeps(s, virt, 0);
    if TableLoc(virt) in s.at {
      EnsureOfExisting(s, TableLoc(virt));
      FullMeansNoneFree(s.pool);
    }
  }

  /** The query answers the truth and changes no translation, although it may allocate. */
  lemma IsMappedIsExact(s: Vm, virt: nat)
    requires Inv(s)
    ensures IsMapped(s, virt).1 <==> Look(s, PageOf(virt)) % 2 == 1
    ensures IsMapped(s, virt).1 <==> HardwareWalk(s.mem, s.root, virt).Some?
    ensures Inv(IsMapped(s, virt).0)
    ensures forall p :: Depth(p) == 4 ==> Look(IsMapped(s, virt).0, p) == Look(s, p)
  {
    hide PageOf, TableLoc, Or, HardwareWalk, Tables, Linked, Backed, Owned, Reserved, Translate;
    TranslateIsHardwareWalk(s, virt);
    EnsureKeeps(s, TableLoc(virt));
    if TableLoc(virt) in s.at {
      EnsureOfExisting(s, TableLoc(virt));
    }
  }

  // ---------------------------------------------------------------------------
  // Page ownership

  /** Giving out, taking back or relabelling frames that are neither bitmap nor tables. */
  lemma RelabelKeeps(s: Vm, used: set<nat>, owner: map<nat, Owner>)
    requires Inv(s) && owner.Keys == used && forall b :: b in used ==> b < Total(s.pool.regions)
    requires forall b :: b in s.owner && (s.owner[b].Bitmap? || s.owner[b].Table?) ==> b in owner && owner[b] == s.owner[b]
    requires forall b :: b in owner && (owner[b].Bitmap? || owner[b].Table?) ==> b in s.owner && s.owner[b] == owner[b]
    requires forall b :: b in owner && owner[b].Data? ==>
               b in s.owner && (owner[b] == s.owner[b]
                                || (Depth(owner[b].page) == 4 && Present(Look(s, owner[b].page)) && b < Total(s.pool.regions)
                                    && Address(Look(s, owner[b].page)) == AddressOf(s.pool.regions, b)))
    ensures Inv(s.(pool := Pool(s.pool.regions, used), owner := owner))
  {
    var s' := s.(pool := Pool(s.pool.regions, used), owner := owner);
    assert Tables(s') && Linked(s') && Backed(s');
    assert forall p :: Look(s', p) == Look(s, p);
  }

  lemma TakeKeeps(s: Vm)
    requires Inv(s)
    ensures Inv(Take(s).0)
    ensures Take(s).1 == 0 <==> s.pool.Full()
    ensures Take(s).0.mem == s.mem && Take(s).0.at == s.at && Take(s).0.root == s.root
    ensures Take(s).0.pool == Alloc(s.pool).0 && Take(s).1 == Alloc(s.pool).1
    ensures !s.pool.Full() ==> Take(s).0.owner == s.owner[s.pool.Lowest() := Held]
  {
    NoZeroFrame(s);
    if Alloc(s.pool).1 != 0 {
      FreshFrame(s);
      RelabelKeeps(s, s.pool.used + {s.pool.Lowest()}, s.owner[s.pool.Lowest() := Held]);
    }
  }

  predicate Releasable(s: Vm, frame: nat) {
    match IndexOf(s.pool.regions, frame)
    case None => true
    case Some(b) => b in s.owner ==> s.owner[b] == Held || s.owner[b] == Lost
  }

  lemma GiveKeeps(s: Vm, frame: nat)
    requires Inv(s) && Releasable(s, frame)
    ensures Inv(Give(s, frame))
    ensures Give(s, frame).mem == s.mem && Give(s, frame).at == s.at && Give(s, frame).root == s.root
    ensures Give(s, frame).pool == Release(s.pool, frame)
  {
    match IndexOf(s.pool.regions, frame)
    case None =>
    case Some(b) =>
      if frame != 0 {
        RelabelKeeps(s, s.pool.used - {b}, s.owner - {b});
      }
  }

  lemma ReownKeeps(s: Vm, b: nat, page: Loc)
    requires Inv(s) && b < Total(s.pool.regions) && b in s.owner && s.owner[b] == Held && Depth(page) == 4
    ensures Inv(Reown(s, b, page))
    ensures forall p :: Look(Reown(s, b, page), p) == Look(s, p)
    ensures var mapped := Present(Look(s, page)) && Address(Look(s, page)) == AddressOf(s.pool.regions, b);
            Reown(s, b, page).owner[b] == if mapped then Data(page) else Lost
  {
    RelabelKeeps(s, s.pool.used, Reown(s, b, page).owner);
  }

  lemma TakeThenMap(s: Vm, virt: nat, flags: nat)
    requires Inv(s) && !s.pool.Full()
    ensures var (s0, frame) := Take(s);
            var s1 := Map(s0, virt, frame, flags);
            && frame == AddressOf(s.pool.regions, s.pool.Lowest()) && frame != 0
            && Inv(s1) && s1.pool.regions == s.pool.regions
            && (forall p :: Depth(p) == 4 ==>
                  Look(s1, p) == if p == PageOf(virt) && s.pool.Free() >= 1 + Missing(s, TableLoc(virt))
                                 then Or(frame, flags) else Look(s, p))
            && s.pool.Lowest() !in s.owner && s.pool.Lowest() in s1.owner && s1.owner[s.pool.Lowest()] == Held
  {
    hide PageOf, TableLoc, Or, Inv, Put, AddressOf, IndexOf, WellFormed, Missing;
    NoZeroFrame(s);
    TakeKeeps(s);
    FreshFrame(s);
    AllocIsFresh(s.pool);
    var (s0, frame) := Take(s);
    SameMissing(s, s0, TableLoc(virt));
    PutKeeps(s0, virt, Or(frame, flags));
    assert forall p :: Look(s0, p) == Look(s, p);
  }

  /** Backing a page takes one frame for it besides the missing tables. When there are
      too few, the call still reports success but the frame is lost. */
  lemma AllocPageBacks(s: Vm, virt: nat, flags: nat)
    requires Inv(s) && Mappable(0, flags) && flags % 2 == 1
    ensures var (s', ok) := AllocPage(s, virt, flags);
            && Inv(s') && s'.pool.regions == s.pool.regions
            && (ok <==> s.pool.Free() >= 1)
            && (forall p :: Depth(p) == 4 ==>
                  Look(s', p) == if p == PageOf(virt) && s.pool.Free() >= 1 + Missing(s, TableLoc(virt))
                                 then Alloc(s.pool).1 + flags else Look(s, p))
            && (ok ==> var b := s.pool.Lowest();
                       && b in s'.owner && b !in s.owner
                       && s'.owner[b] == if s.pool.Free() >= 1 + Missing(s, TableLoc(virt)) then Data(PageOf(virt)) else Lost)
  {
    hide PageOf, TableLoc, Or, Inv, Put, AddressOf, IndexOf, WellFormed, Missing, Address, FlagBits;
    MappableBits(0, flags);
    NoZeroFrame(s);
    FullMeansNoneFree(s.pool);
    if !s.pool.Full() {
      TakeThenMap(s, virt, flags);
      FreshFrame(s);
      var (s0, frame) := Take(s);
      EntryOf(frame, flags);
      OrIsSum(frame, flags);
      NoTableNoEntry(s, virt);
      ReownKeeps(Map(s0, virt, frame, flags), s.pool.Lowest(), PageOf(virt));
    }
  }

  lemma NoTableNoEntry(s: Vm, virt: nat)
    requires Inv(s)
    ensures Missing(s, TableLoc(virt)) > 0 ==> Look(s, PageOf(virt)) == 0
  {
    if TableLoc(virt) in s.at {
      EnsureOfExisting(s, TableLoc(virt));
    }
  }

  lemma {:induction false} SameMissing(s: Vm, s': Vm, l: Loc)
    requires s.at == s'.at
    ensures Missing(s, l) == Missing(s', l)
  {
    if l.Child? {
      SameMissing(s, s', l.up);
    }
  }

  lemma AllocPageKeeps(s: Vm, virt: nat, flags: nat)
    requires Inv(s)
    ensures Inv(AllocPage(s, virt, flags).0)
  {
    hide PageOf, TableLoc, Or, Inv, Put;
    NoZeroFrame(s);
    if !s.pool.Full() {
      TakeThenMap(s, virt, flags);
      FreshFrame(s);
      var (s0, frame) := Take(s);
      ReownKeeps(Map(s0, virt, frame, flags), s.pool.Lowest(), PageOf(virt));
    }
  }

  /** What a page may map when it is freed: its own data frame, or one a caller holds. */
  predicate Freeable(s: Vm, virt: nat) {
    var phys := Translate(s.mem, s.root, virt);
    phys != 0 ==>
      match IndexOf(s.pool.regions, FrameStart(phys))
      case None => true
      case Some(b) => b in s.owner ==> s.owner[b] in {Held, Lost, Data(PageOf(virt))}
  }

  lemma UnmapExisting(s: Vm, virt: nat)
    requires Inv(s) && TableLoc(virt) in s.at
    ensures Unmap(s, virt) == SetEntry(s, PageOf(virt), 0)
    ensures forall b :: b in s.owner ==>
              Unmap(s, virt).owner[b] == if s.owner[b] == Data(PageOf(virt)) then Lost else s.owner[b]
  {
    hide PageOf, TableLoc, Or;
    EnsureOfExisting(s, TableLoc(virt));
  }

  lemma FrameOfTranslation(s: Vm, virt: nat)
    requires Inv(s) && Translate(s.mem, s.root, virt) != 0
    ensures FrameStart(Translate(s.mem, s.root, virt)) == Address(Look(s, PageOf(virt)))
    ensures Present(Look(s, PageOf(virt))) && TableLoc(virt) in s.at
  {
    hide PageOf, TableLoc, Address, PageOffset, FrameStart, Translate;
    LooksUp(s, virt);
    StartOfSum(Look(s, PageOf(virt)), virt);
  }

  lemma StartOfSum(e: nat, virt: nat)
    ensures FrameStart(Address(e) + PageOffset(virt)) == Address(e)
  {
    var q := e % PHYS_LIMIT / PAGE_SIZE;
    assert (q * PAGE_SIZE + PageOffset(virt)) % PAGE_SIZE == PageOffset(virt);
  }

  lemma FreePageIsGive(s: Vm, virt: nat)
    requires Inv(s) && Freeable(s, virt) && Translate(s.mem, s.root, virt) != 0
    ensures var s1 := SetEntry(s, PageOf(virt), 0); var frame := Address(Look(s, PageOf(virt)));
            FreePage(s, virt) == Give(s1, frame) && Releasable(s1, frame) && PageOf(virt).up in s.at
  {
    hide PageOf, TableLoc, FrameStart, Address, Translate, AddressOf, IndexOf;
    FrameOfTranslation(s, virt);
    UnmapExisting(s, virt);
  }

  lemma FreePageKeeps(s: Vm, virt: nat)
    requires Inv(s) && Freeable(s, virt)
    ensures Inv(FreePage(s, virt))
    ensures forall p :: Depth(p) == 4 ==>
              Look(FreePage(s, virt), p) == if p == PageOf(virt) && Translate(s.mem, s.root, virt) != 0 then 0 else Look(s, p)
  {
    hide PageOf, TableLoc, FrameStart, Address, Translate, AddressOf, IndexOf, Inv, SetEntry, Give;
    if Translate(s.mem, s.root, virt) != 0 {
      FreePageIsGive(s, virt);
      SetEntryKeeps(s, PageOf(virt), 0);
      GiveKeeps(SetEntry(s, PageOf(virt), 0), Address(Look(s, PageOf(virt))));
    }
  }

  /** A frame whose bit may be cleared without taking the bitmap or a table apart. */
  predicate Reusable(s: Vm, frame: nat) {
    match IndexOf(s.pool.regions, frame)
    case None => true
    case Some(b) => frame == 0 || (b in s.owner ==> s.owner[b] != Bitmap && !s.owner[b].Table?)
  }

  lemma GiveKeepsIff(s: Vm, frame: nat)
    requires Inv(s)
    ensures Inv(Give(s, frame)) <==> Reusable(s, frame)
  {
    match IndexOf(s.pool.regions, frame)
    case None =>
    case Some(b) =>
      if frame != 0 {
        if Reusable(s, frame) {
          RelabelKeeps(s, s.pool.used - {b}, s.owner - {b});
        } else {
          GiveBreaks(s, frame, b);
        }
      }
  }

  lemma GiveBreaks(s: Vm, frame: nat, b: nat)
    requires Inv(s) && IndexOf(s.pool.regions, frame) == Some(b) && frame != 0
    requires b in s.owner && (s.owner[b] == Bitmap || s.owner[b].Table?)
    ensures !Inv(Give(s, frame))
  {
    hide Linked, Backed, AddressOf, BitmapPages, Framed, Hung;
    IndexInRange(s.pool.regions, frame);
    var s' := Give(s, frame);
    assert b !in s'.owner;
    if s.owner[b] == Bitmap {
      assert b < BitmapPages(s.pool.regions);
      assert !Reserved(s');
    } else {
      TableFrame(s, b);
      assert s'.at == s.at && s'.pool.regions == s.pool.regions;
      assert !Owned(s');
    }
  }

  lemma TableFrame(s: Vm, b: nat)
    requires Inv(s) && b in s.owner && b < Total(s.pool.regions) && s.owner[b].Table?
    ensures s.owner[b].place in s.at && IndexOf(s.pool.regions, s.at[s.owner[b].place]) == Some(b)
  {
    IndexOfAddress(s.pool.regions, b);
  }

  /** Whoever the frame belongs to, freeing a page keeps the invariant exactly when the
      frame it maps is neither the bitmap's nor a table. */
  lemma FreePageKeepsIff(s: Vm, virt: nat)
    requires Inv(s)
    ensures var phys := Translate(s.mem, s.root, virt);
            Inv(FreePage(s, virt)) <==> phys == 0 || Reusable(s, FrameStart(phys))
  {
    hide PageOf, TableLoc, FrameStart, Address, Translate, AddressOf, IndexOf, Inv, Give;
    if Translate(s.mem, s.root, virt) != 0 {
      FrameOfTranslation(s, virt);
      UnmapExisting(s, virt);
      SetEntryKeeps(s, PageOf(virt), 0);
      GiveKeepsIff(SetEntry(s, PageOf(virt), 0), FrameStart(Translate(s.mem, s.root, virt)));
    }
  }

  /** Freeing a page gives back the frame that backed it, and nothing else. */
  lemma FreePageReturnsItsFrame(s: Vm, virt: nat, b: nat)
    requires Inv(s) && b in s.owner && s.owner[b] == Data(PageOf(virt))
    ensures FreePage(s, virt).owner == s.owner - {b}
    ensures FreePage(s, virt).pool.used == s.pool.used - {b}
    ensures Inv(FreePage(s, virt)) && Translate(FreePage(s, virt).mem, FreePage(s, virt).root, virt) == 0
  {
    hide PageOf, TableLoc, FrameStart, Translate, AddressOf, IndexOf, Tables, Linked, Backed, Owned, Look, Freeable, Address, Reserved;
    DataFreeable(s, virt, b);
    FreePageIsGive(s, virt);
    FreePageKeeps(s, virt);
    TranslateLooks(FreePage(s, virt), virt);
    DataBackedOnce(s, b, PageOf(virt));
    var s1 := SetEntry(s, PageOf(virt), 0);
    assert s1.owner - {b} == s.owner - {b};
  }

  lemma DataFreeable(s: Vm, virt: nat, b: nat)
    requires Inv(s) && b in s.owner && s.owner[b] == Data(PageOf(virt))
    ensures Translate(s.mem, s.root, virt) != 0 && Freeable(s, virt)
    ensures Address(Look(s, PageOf(virt))) != 0 && IndexOf(s.pool.regions, Address(Look(s, PageOf(virt)))) == Some(b)
  {
    hide PageOf, TableLoc, FrameStart, Translate, Address, PageOffset;
    LooksUp(s, virt);
    IndexOfAddress(s.pool.regions, b);
    FrameOfTranslation(s, virt);
  }

  lemma DataBackedOnce(s: Vm, b: nat, page: Loc)
    requires Inv(s) && b in s.owner && s.owner[b] == Data(page)
    ensures forall c :: c in s.owner && s.owner[c] == Data(page) ==> c == b
  {
    forall c | c in s.owner && s.owner[c] == Data(page) ensures c == b {
      AddressInjective(s.pool.regions, b, c);
    }
  }

  /** Two backed pages never share a frame, and no backed page is a page table. */
  lemma DataIsExclusive(s: Vm, b: nat, c: nat, l: Loc)
    requires Inv(s) && b in s.owner && c in s.owner && s.owner[b].Data? && s.owner[c].Data? && l in s.at
    ensures s.owner[b].page != s.owner[c].page ==>
              Address(Look(s, s.owner[b].page)) != Address(Look(s, s.owner[c].page))
    ensures Address(Look(s, s.owner[b].page)) != s.at[l]
  {
    AddressInjective(s.pool.regions, b, c);
    IndexOfAddress(s.pool.regions, b);
  }

  lemma {:induction false} MissingAtMostDepth(s: Vm, l: Loc)
    ensures Missing(s, l) <= Depth(l)
  {
    if l.Child? {
      MissingAtMostDepth(s, l.up);
    }
  }

  lemma PutPages(s: Vm, virt: nat, e: nat)
    requires Inv(s) && s.pool.Free() >= Missing(s, TableLoc(virt))
    ensures Put(s, virt, e).pool.Free() == s.pool.Free() - Missing(s, TableLoc(virt))
  {
    hide PageOf, TableLoc, Or, Inv;
    EnsureKeeps(s, TableLoc(virt));
  }

  /** What a call that backs a page costs, and that it leaves every other page's frame alone. */
  lemma AllocPageFrame(s: Vm, virt: nat, flags: nat)
    requires Inv(s) && s.pool.Free() >= 1
    ensures var s' := AllocPage(s, virt, flags).0;
            && (s.pool.Free() >= 1 + Missing(s, TableLoc(virt)) ==>
                  s'.pool.Free() == s.pool.Free() - 1 - Missing(s, TableLoc(virt)))
            && (forall b :: b in s.owner && s.owner[b] != Data(PageOf(virt)) ==> b in s'.owner && s'.owner[b] == s.owner[b])
  {
    hide PageOf, TableLoc, Or, Tables, Linked, Owned, Look, Address, AddressOf, IndexOf, Reserved;
    FullMeansNoneFree(s.pool);
    NoZeroFrame(s);
    TakeKeeps(s);
    FreshFrame(s);
    AllocIsFresh(s.pool);
    var (s0, frame) := Take(s);
    SameMissing(s, s0, TableLoc(virt));
    PutKeeps(s0, virt, Or(frame, flags));
    if s.pool.Free() >= 1 + Missing(s, TableLoc(virt)) {
      PutPages(s0, virt, Or(frame, flags));
    }
  }

  // ---------------------------------------------------------------------------
  // Whole runs

  datatype Op =
    | MapOp(virt: nat, phys: nat, flags: nat)
    | UnmapOp(virt: nat)
    | IsMappedOp(virt: nat)
    | AllocPageOp(virt: nat, flags: nat)
    | FreePageOp(virt: nat)
    | TakeOp
    | GiveOp(frame: nat)

  function Step(s: Vm, op: Op): Vm {
    match op
    case MapOp(v, p, f) => Map(s, v, p, f)
    case UnmapOp(v) => Unmap(s, v)
    case IsMappedOp(v) => IsMapped(s, v).0
    case AllocPageOp(v, f) => AllocPage(s, v, f).0
    case FreePageOp(v) => FreePage(s, v)
    case TakeOp => Take(s).0
    case GiveOp(f) => Give(s, f)
  }

  /** Callers only free what is theirs. */
  predicate Allowed(s: Vm, op: Op) {
    match op
    case FreePageOp(v) => Freeable(s, v)
    case GiveOp(f) => Releasable(s, f)
    case _ => true
  }

  function Run(s: Vm, ops: seq<Op>): Vm {
    if ops == [] then s else Step(Run(s, ops[..|ops| - 1]), ops[|ops| - 1])
  }

  predicate AllowedRun(s: Vm, ops: seq<Op>) {
    ops == [] || (AllowedRun(s, ops[..|ops| - 1]) && Allowed(Run(s, ops[..|ops| - 1]), ops[|ops| - 1]))
  }

  /** The page an operation changes and the entry it gives it, if it changes any. */
  function Effect(s: Vm, op: Op): Option<(Loc, nat)> {
    match op
    case MapOp(v, p, f) => if s.pool.Free() >= Missing(s, TableLoc(v)) then Some((PageOf(v), Or(p, f))) else None
    case UnmapOp(v) => Some((PageOf(v), 0))
    case AllocPageOp(v, f) =>
      if s.pool.Free() >= 1 + Missing(s, TableLoc(v)) then Some((PageOf(v), Or(Alloc(s.pool).1, f))) else None
    case FreePageOp(v) => if Translate(s.mem, s.root, v) != 0 then Some((PageOf(v), 0)) else None
    case _ => None
  }

  lemma StepKeeps(s: Vm, op: Op)
    requires Inv(s) && Allowed(s, op)
    ensures Inv(Step(s, op))
  {
    hide PageOf, TableLoc, Or, Inv, Put, IsMapped, AllocPage, FreePage, Take, Give, Unmap, Look, Freeable, Releasable;
    match op
    case MapOp(v, p, f) => PutKeeps(s, v, Or(p, f));
    case UnmapOp(v) => UnmapAlwaysWorks(s, v);
    case IsMappedOp(v) => IsMappedIsExact(s, v);
    case AllocPageOp(v, f) => AllocPageKeeps(s, v, f);
    case FreePageOp(v) => FreePageKeeps(s, v);
    case TakeOp => TakeKeeps(s);
    case GiveOp(f) => GiveKeeps(s, f);
  }

  /** The page whose entry an operation may change. */
  function Target(op: Op): Option<Loc> {
    match op
    case MapOp(v, _, _) => Some(PageOf(v))
    case UnmapOp(v) => Some(PageOf(v))
    case AllocPageOp(v, _) => Some(PageOf(v))
    case FreePageOp(v) => Some(PageOf(v))
    case _ => None
  }

  lemma EffectTarget(s: Vm, op: Op)
    ensures match Effect(s, op) case Some((p, _)) => Target(op) == Some(p) case None => true
  {
    hide PageOf, TableLoc, Or, Missing, Translate;
  }

  /** Bitmap frames and tables stay what they are, and so does the frame behind a page
      that the operation does not name. */
  lemma StepKeepsOwner(s: Vm, op: Op, b: nat)
    requires Inv(s) && Allowed(s, op) && b in s.owner && s.owner[b] != Held && s.owner[b] != Lost
    requires s.owner[b].Data? ==> Target(op) != Some(s.owner[b].page)
    ensures b in Step(s, op).owner && Step(s, op).owner[b] == s.owner[b]
  {
    hide PageOf, TableLoc, Or, Inv, Put, Missing, Translate, AddressOf, Address, Depth, Look, IndexOf;
    match op
    case MapOp(v, p, f) => PutKeeps(s, v, Or(p, f));
    case UnmapOp(v) => PutKeeps(s, v, 0);
    case IsMappedOp(v) => EnsureKeeps(s, TableLoc(v));
    case AllocPageOp(v, f) =>
      NoZeroFrame(s);
      FullMeansNoneFree(s.pool);
      if s.pool.Free() >= 1 {
        AllocPageFrame(s, v, f);
      }
    case FreePageOp(v) =>
      if Translate(s.mem, s.root, v) != 0 {
        FreePageIsGive(s, v);
      }
    case TakeOp =>
      NoZeroFrame(s);
      if !s.pool.Full() {
        FreshFrame(s);
      }
    case GiveOp(f) =>
  }

  /** Each operation refines one update of a partial map from pages to entries. */
  lemma StepRefines(s: Vm, op: Op, page: Loc)
    requires Inv(s) && Allowed(s, op) && Depth(page) == 4
    ensures Look(Step(s, op), page) ==
            match Effect(s, op) case Some((p, e)) => (if p == page then e else Look(s, page)) case None => Look(s, page)
  {
    hide PageOf, TableLoc, Or, Tables, Linked, Owned, Put, IsMapped, FreePage, Unmap, Translate, Missing, FrameStart, AddressOf, IndexOf, WellFormed, Reserved;
    match op
    case MapOp(v, p, f) => PutKeeps(s, v, Or(p, f));
    case UnmapOp(v) => UnmapAlwaysWorks(s, v);
    case IsMappedOp(v) => IsMappedIsExact(s, v);
    case AllocPageOp(v, f) =>
      FullMeansNoneFree(s.pool);
      NoZeroFrame(s);
      if !s.pool.Full() {
        TakeThenMap(s, v, f);
        FreshFrame(s);
        var (s0, frame) := Take(s);
        ReownKeeps(Map(s0, v, frame, f), s.pool.Lowest(), PageOf(v));
      }
    case FreePageOp(v) => FreePageKeeps(s, v);
    case TakeOp => TakeKeeps(s);
    case GiveOp(f) => GiveKeeps(s, f);
  }

  /** Every reachable state is a tree of tables with conserved page ownership. */
  lemma {:induction false} RunKeeps(s: Vm, ops: seq<Op>)
    requires Inv(s) && AllowedRun(s, ops)
    ensures Inv(Run(s, ops))
  {
    if ops != [] {
      RunKeeps(s, ops[..|ops| - 1]);
      StepKeeps(Run(s, ops[..|ops| - 1]), ops[|ops| - 1]);
    }
  }

  /** The entry last given to a page in a run. */
  function Latest(s: Vm, ops: seq<Op>, page: Loc): nat {
    if ops == [] then Look(s, page)
    else
      var before := ops[..|ops| - 1];
      match Effect(Run(s, before), ops[|ops| - 1])
      case Some((p, e)) => if p == page then e else Latest(s, before, page)
      case None => Latest(s, before, page)
  }

  /** After any run an address translates as the last write to its page says: the
      tables refine a map. */
  lemma {:induction false} RunRefines(s: Vm, ops: seq<Op>, virt: nat)
    requires Inv(s) && AllowedRun(s, ops)
    ensures var s' := Run(s, ops); var e := Latest(s, ops, PageOf(virt));
            && Translate(s'.mem, s'.root, virt)
               == (if e % 2 == 1 then e % 0x10_0000_0000_0000 / 0x1000 * 0x1000 + virt % 0x1000 else 0)
            && (HardwareWalk(s'.mem, s'.root, virt) == None <==> e % 2 == 0)
            && (e % 2 == 1 ==> HardwareWalk(s'.mem, s'.root, virt) == Some(Translate(s'.mem, s'.root, virt)))
  {
    hide HardwareWalk, Translate, Tables, Linked, Backed, Owned, Reserved, PageOf;
    RunKeeps(s, ops);
    LatestIsLook(s, ops, PageOf(virt));
    TranslateLooks(Run(s, ops), virt);
    TranslateIsHardwareWalk(Run(s, ops), virt);
  }

  lemma {:induction false} LatestIsLook(s: Vm, ops: seq<Op>, page: Loc)
    requires Inv(s) && AllowedRun(s, ops) && Depth(page) == 4
    ensures Look(Run(s, ops), page) == Latest(s, ops, page)
  {
    if ops != [] {
      LatestIsLook(s, ops[..|ops| - 1], page);
      RunKeeps(s, ops[..|ops| - 1]);
      StepRefines(Run(s, ops[..|ops| - 1]), ops[|ops| - 1], page);
    }
  }

  // ---------------------------------------------------------------------------
  // Write access

  /** Bit 1 of every entry on the way allows writing, section 4.6 of volume 3A of the Intel manual. */
  predicate WritablePath(mem: map<nat, seq<nat>>, root: nat, virt: nat) {
    var pml4e := Read(mem, root, virt / 0x80_0000_0000 % 0x200);
    var pdpte := Read(mem, pml4e % 0x10_0000_0000_0000 / 0x1000 * 0x1000, virt / 0x4000_0000 % 0x200);
    var pde := Read(mem, pdpte % 0x10_0000_0000_0000 / 0x1000 * 0x1000, virt / 0x20_0000 % 0x200);
    var pte := Read(mem, pde % 0x10_0000_0000_0000 / 0x1000 * 0x1000, virt / 0x1000 % 0x200);
    pml4e % 4 == 3 && pdpte % 4 == 3 && pde % 4 == 3 && pte % 4 == 3
  }

  /** Every table can be written through. */
  ghost predicate Writable(s: Vm) {
    forall l, i: nat :: l in s.at && Depth(l) < 3 && i < ENTRIES && Read(s.mem, s.at[l], i) % 2 == 1 ==>
      Read(s.mem, s.at[l], i) % 4 == 3
  }

  lemma InnerEntry(s: Vm, l: Loc, i: nat)
    requires Linked(s) && Writable(s) && l in s.at && Depth(l) < 3 && i < ENTRIES
    ensures Read(s.mem, s.at[l], i) % 4 == 3 <==> Child(l, i) in s.at
    ensures Child(l, i) in s.at ==> Address(Read(s.mem, s.at[l], i)) == s.at[Child(l, i)]
  {
    hide Address, Huge, Read;
    assert Present(Read(s.mem, s.at[l], i)) <==> Child(l, i) in s.at;
  }

  /** Then a page can be written exactly when its own entry says so. */
  lemma WritableIff(s: Vm, virt: nat)
    requires Tables(s) && Linked(s) && Writable(s)
    ensures WritablePath(s.mem, s.root, virt) <==> Look(s, PageOf(virt)) % 4 == 3
  {
    PathsAlike(s.mem, s.root, virt);
    hide WritablePath, Address, Pml4Index, PdptIndex, PdIndex, PtIndex, Linked, Writable, Placed, Read;
    var l3 := Child(Root, Pml4Index(virt));
    var l2 := Child(l3, PdptIndex(virt));
    assert Depth(Root) == 0 && Depth(l3) == 1 && Depth(l2) == 2;
    assert TableLoc(virt) == Child(l2, PdIndex(virt));
    InnerEntry(s, Root, Pml4Index(virt));
    if l3 in s.at {
      InnerEntry(s, l3, PdptIndex(virt));
      if l2 in s.at {
        InnerEntry(s, l2, PdIndex(virt));
      } else {
        NotHung(s, TableLoc(virt));
      }
    } else {
      NotHung(s, l2);
      NotHung(s, TableLoc(virt));
    }
  }

  lemma NotHung(s: Vm, l: Loc)
    requires Tables(s) && l.Child? && l.up !in s.at
    ensures l !in s.at
  {
  }

  lemma PathsAlike(mem: map<nat, seq<nat>>, root: nat, virt: nat)
    ensures WritablePath(mem, root, virt) <==>
              var pml4e := Read(mem, root, Pml4Index(virt));
              var pdpte := Read(mem, Address(pml4e), PdptIndex(virt));
              var pde := Read(mem, Address(pdpte), PdIndex(virt));
              pml4e % 4 == 3 && pdpte % 4 == 3 && pde % 4 == 3 && Read(mem, Address(pde), PtIndex(virt)) % 4 == 3
  {
    hide Read;
  }

  lemma AddTableWritable(s: Vm, l: Loc, i: nat)
    requires Linkable(s, l, i) && Writable(s)
    ensures Writable(AddTable(s, l, i))
  {
    hide Tables, Linked, Backed, Owned, Reserved, Or, FrameAddress, AddressOf, IndexOf, Read;
    AddTableMemory(s, l, i);
    FreshFrame(s);
    FrameEntry(Alloc(s.pool).1);
    var s' := AddTable(s, l, i);
    forall m, j: nat | m in s'.at && Depth(m) < 3 && j < ENTRIES && Read(s'.mem, s'.at[m], j) % 2 == 1
      ensures Read(s'.mem, s'.at[m], j) % 4 == 3
    {
      if m != Child(l, i) {
        assert m in s.at;
      }
    }
  }

  lemma FrameEntry(frame: nat)
    requires FrameAddress(frame)
    ensures (frame + 3) % 4 == 3
  {
    assert frame == frame / PAGE_SIZE * 1024 * 4;
  }

  lemma {:induction false} EnsureWritable(s: Vm, l: Loc)
    requires Inv(s) && Writable(s) && Depth(l) <= 3 && Indexed(l)
    ensures Writable(Ensure(s, l).0)
  {
    hide Inv, Writable, AddTable, Read;
    match l
    case Root =>
    case Child(up, i) =>
      EnsureKeeps(s, up);
      EnsureWritable(s, up);
      var (s1, ok) := Ensure(s, up);
      if ok {
        TableOrLink(s1, up, i);
        if Linkable(s1, up, i) {
          AddTableWritable(s1, up, i);
        }
      }
  }

  lemma TableOrLink(s: Vm, l: Loc, i: nat)
    requires Inv(s) && l in s.at && Depth(l) < 3 && i < ENTRIES
    ensures EnsureTable(s, l, i).0 == if Linkable(s, l, i) then AddTable(s, l, i) else s
  {
    hide Tables, Linked, Backed, Owned, Reserved, AddTable;
  }

  lemma PutWritable(s: Vm, virt: nat, e: nat)
    requires Inv(s) && Writable(s)
    ensures Writable(Put(s, virt, e))
  {
    hide PageOf, TableLoc, Inv, Writable, SetEntry;
    EnsureKeeps(s, TableLoc(virt));
    EnsureWritable(s, TableLoc(virt));
    var (s1, ok) := Ensure(s, TableLoc(virt));
    if ok {
      SetEntryWritable(s1, PageOf(virt), e);
    }
  }

  lemma SetEntryWritable(s: Vm, page: Loc, e: nat)
    requires Inv(s) && Writable(s) && Depth(page) == 4 && page.up in s.at && page.index < ENTRIES
    ensures Writable(SetEntry(s, page, e))
  {
    hide Linked, Backed, Owned, Reserved, FrameAddress, Orphan, Read, Placed;
    assert Depth(page.up) == 3;
    forall l, i: nat | l in s.at && Depth(l) < 3 && i < ENTRIES
      ensures Read(SetEntry(s, page, e).mem, s.at[l], i) == Read(s.mem, s.at[l], i)
    {
      SetEntryReads(s, page, e, l, i);
    }
  }

  /** Tables stay writable in every run: those added are linked with bits 0 and 1. */
  lemma StepWritable(s: Vm, op: Op)
    requires Inv(s) && Allowed(s, op) && Writable(s)
    ensures Writable(Step(s, op))
  {
    hide PageOf, TableLoc, Or, Inv, Put, Look, Freeable, Releasable, Missing, Translate, IndexOf, AddressOf, Depth, SetEntry, Read, Ensure;
    match op
    case MapOp(v, p, f) => PutWritable(s, v, Or(p, f));
    case UnmapOp(v) => PutWritable(s, v, 0);
    case IsMappedOp(v) => EnsureWritable(s, TableLoc(v));
    case AllocPageOp(v, f) =>
      TakeKeeps(s);
      PutWritable(Take(s).0, v, Or(Take(s).1, f));
    case FreePageOp(v) => PutWritable(s, v, 0);
    case _ =>
  }

  // ---------------------------------------------------------------------------
  // The bitmap in memory

  predicate Holds(frame: nat, addr: nat) { frame <= addr < frame + PAGE_SIZE }

  lemma FrameAvoidsBitmap(s: Vm, addr: nat, b: nat)
    requires Inv(s) && BitmapFits(s.pool.regions) && InBitmap(s.pool.regions, addr) && b < Total(s.pool.regions)
    requires b in s.owner ==> s.owner[b] != Bitmap
    ensures !Holds(AddressOf(s.pool.regions, b), addr)
  {
    hide Tables, Linked, Owned, AddressOf, IndexOf, BitmapPages, InBitmap, BitmapFits, Total;
    BitmapIsCovered(s.pool.regions, addr, b);
  }

  lemma TableAvoidsBitmap(s: Vm, addr: nat, l: Loc)
    requires Inv(s) && BitmapFits(s.pool.regions) && InBitmap(s.pool.regions, addr) && l in s.at
    ensures !Holds(s.at[l], addr)
  {
    hide Linked, AddressOf, IndexOf, BitmapPages, InBitmap, BitmapFits, WellFormed, Total;
    BitmapFitsIff(s.pool.regions);
    if Holds(s.at[l], addr) {
      FrameHoldsByte(s.pool.regions, addr, s.at[l]);
    }
  }

  /** The bytes of a frame share its bit. */
  lemma FrameHoldsByte(rs: seq<Region>, addr: nat, frame: nat)
    requires WellFormed(rs) && frame % PAGE_SIZE == 0 && Holds(frame, addr)
    ensures IndexOf(rs, addr) == IndexOf(rs, frame)
  {
    hide IndexOf, WellFormed;
    SamePage(rs, addr);
    assert addr - addr % PAGE_SIZE == frame;
  }

  /** The byte lies in a frame that is owned by the bitmap. */
  predicate InOwnFrame(s: Vm, addr: nat) {
    IndexOf(s.pool.regions, addr).Some?
    && IndexOf(s.pool.regions, addr).value in s.owner && s.owner[IndexOf(s.pool.regions, addr).value] == Bitmap
  }

  /** In every state of a run, exactly when the bitmap fits do all its bytes lie in its own frames. */
  lemma BitmapOwnsItsBytesIff(s: Vm)
    requires Inv(s)
    ensures BitmapFits(s.pool.regions) <==> forall addr :: InBitmap(s.pool.regions, addr) ==> InOwnFrame(s, addr)
  {
    hide Tables, Linked, Owned, AddressOf, IndexOf, BitmapPages, InBitmap, BitmapFits, WellFormed, Total;
    BitmapFitsIff(s.pool.regions);
    assert forall addr :: Leading(s.pool.regions, addr) <==> InOwnFrame(s, addr);
  }

  lemma StepRegions(s: Vm, op: Op)
    requires Inv(s) && Allowed(s, op)
    ensures Step(s, op).pool.regions == s.pool.regions
  {
    hide PageOf, TableLoc, Or, Inv, Put, Look, Freeable, Releasable, Missing, Translate, IndexOf, AddressOf, Depth, SetEntry;
    match op
    case MapOp(v, p, f) => PutKeeps(s, v, Or(p, f));
    case UnmapOp(v) => PutKeeps(s, v, 0);
    case IsMappedOp(v) => EnsureKeeps(s, TableLoc(v));
    case AllocPageOp(v, f) =>
      TakeKeeps(s);
      PutKeeps(Take(s).0, v, Or(Take(s).1, f));
    case FreePageOp(v) => PutKeeps(s, v, 0);
    case _ =>
  }

  /** When the bitmap fits, in every reachable state no page table, no frame that backs a
      page, none that a caller holds and none still to be given out contains a byte of it. */
  lemma {:induction false} RunAvoidsBitmap(s: Vm, ops: seq<Op>, addr: nat)
    requires Inv(s) && AllowedRun(s, ops) && BitmapFits(s.pool.regions) && InBitmap(s.pool.regions, addr)
    ensures Run(s, ops).pool.regions == s.pool.regions
    ensures var s' := Run(s, ops);
            && (forall l :: l in s'.at ==> !Holds(s'.at[l], addr))
            && (forall b :: 0 <= b < Total(s.pool.regions) && (b in s'.owner ==> s'.owner[b] != Bitmap) ==>
                  !Holds(AddressOf(s.pool.regions, b), addr))
  {
    hide Inv, Step, Holds, BitmapFits, InBitmap, AddressOf, Total;
    RunKeeps(s, ops);
    var s' := Run(s, ops);
    if ops != [] {
      var before := ops[..|ops| - 1];
      RunAvoidsBitmap(s, before, addr);
      RunKeeps(s, before);
      StepRegions(Run(s, before), ops[|ops| - 1]);
    }
    forall l | l in s'.at ensures !Holds(s'.at[l], addr) {
      TableAvoidsBitmap(s', addr, l);
    }
    forall b | 0 <= b < Total(s.pool.regions) && (b in s'.owner ==> s'.owner[b] != Bitmap)
      ensures !Holds(AddressOf(s.pool.regions, b), addr)
    {
      FrameAvoidsBitmap(s', addr, b);
    }
  }
}
