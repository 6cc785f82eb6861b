// The page-table code itself: tables written in place, frames taken from the page
// allocator, each method tied to what module Vmm says it computes.
module PageTables {
  import opened Words
  import opened Pmm
  import opened Vmm
  import opened VmmBoot
  import opened VmmRange

  class Mapper {
    /** Frames of physical memory, as reached through the higher-half window. */
    var mem: map<nat, seq<nat>>
    var pml4: nat
    const pmm: Allocator
    ghost var at: map<Loc, nat>
    ghost var owner: map<nat, Owner>

    ghost function State(): Vm
      reads this, pmm
    {
      Vm(mem, pml4, pmm.State(), at, owner)
    }

    ghost predicate Valid()
      reads this, pmm, pmm.bitmap
    {
      pmm.Valid() && Inv(State())
    }

    /** Adopts the tables that the boot loader left in CR3. */
    constructor (cr3: nat, mem: map<nat, seq<nat>>, pmm: Allocator, ghost at: map<Loc, nat>, ghost owner: map<nat, Owner>)
      requires pmm.Valid() && Inv(Vm(mem, cr3, pmm.State(), at, owner))
      ensures Valid() && State() == Vm(mem, cr3, pmm.State(), at, owner) && this.pmm == pmm
    {
      this.mem, this.pml4, this.pmm, this.at, this.owner := mem, cr3, pmm, at, owner;
    }

    /** NULL is 0. */
    method NextTable(table: nat, index: nat) returns (next: nat)
      ensures next == match Vmm.NextTable(mem, table, index) case None => 0 case Some(t) => t
      ensures var e := Read(mem, table, index);
              next == if e % 2 == 1 then e % 0x10_0000_0000_0000 / 0x1000 * 0x1000 else 0
    {
      var entry := Read(mem, table, index);
      next := if Present(entry) then Address(entry) else 0;
    }

    method TranslateAddress(virt: nat) returns (phys: nat)
      requires Valid()
      ensures phys == Translate(mem, pml4, virt)
      ensures phys == match HardwareWalk(mem, pml4, virt) case None => 0 case Some(p) => p
    {
      TranslateIsHardwareWalk(State(), virt);
      WalkHasNoNullTable(State(), virt);
      var pdpt := NextTable(pml4, Pml4Index(virt));
      if pdpt == 0 {
        return 0;
      }
      var pd := NextTable(pdpt, PdptIndex(virt));
      if pd == 0 {
        return 0;
      }
      var pt := NextTable(pd, PdIndex(virt));
      if pt == 0 {
        return 0;
      }
      var pte := Read(mem, pt, PtIndex(virt));
      if !Present(pte) {
        return 0;
      }
      phys := Address(pte) + PageOffset(virt);
    }

    method ClearTable(table: nat)
      requires table in mem && |mem[table]| == ENTRIES
      modifies this`mem
      ensures mem == old(mem)[table := Zeros()]
    {
      for i := 0 to ENTRIES
        invariant table in mem && |mem[table]| == ENTRIES
        invariant mem == old(mem)[table := mem[table]]
        invariant forall j :: 0 <= j < i ==> mem[table][j] == 0
      {
        mem := Write(mem, table, i, 0);
      }
      assert mem[table] == Zeros();
    }

    method EnsureTable(table: nat, index: nat, ghost l: Loc) returns (next: nat)
      requires Valid() && l in at && at[l] == table && Depth(l) < 3 && index < ENTRIES
      modifies this`mem, this`at, this`owner, pmm`used, pmm.bitmap
      ensures Valid()
      ensures (State(), next != 0) == Vmm.EnsureTable(old(State()), l, index)
      ensures next != 0 ==> Child(l, index) in at && next == at[Child(l, index)]
    {
      ghost var s := State();
      EnsureTableKeeps(s, l, index);
      var entry := Read(mem, table, index);
      if Present(entry) {
        next := NextTable(table, index);
        return;
      }
      NoZeroFrame(s);
      next := AddTable(table, index, l);
    }

    /** The rest of ensure_table, when the entry is not present. */
    method AddTable(table: nat, index: nat, ghost l: Loc) returns (phys: nat)
      requires Valid() && l in at && at[l] == table && Depth(l) < 3 && index < ENTRIES
      requires !Present(Read(mem, table, index))
      modifies this`mem, this`at, this`owner, pmm`used, pmm.bitmap
      ensures Valid() && phys == Alloc(old(State()).pool).1
      ensures State() == if phys == 0 then old(State()) else Vmm.AddTable(old(State()), l, index)
    {
      hide Inv, Or, Depth;
      ghost var s := State();
      NoZeroFrame(s);
      phys := pmm.AllocPage();
      if phys == 0 {
        assert State() == s;
        return;
      }
      AddTableKeeps(s, l, index);
      FreshFrame(s);
      ClearTable(phys);
      mem := Write(mem, table, index, Or(phys, PAGE_PRESENT + PAGE_WRITABLE));
      at := at[Child(l, index) := phys];
      owner := owner[s.pool.Lowest() := Table(Child(l, index))];
      assert State() == Vmm.AddTable(s, l, index);
    }

    /** The three ensure_table calls that vmm_map, vmm_unmap and vmm_is_mapped start with. */
    method EnsureTables(virt: nat) returns (pt: nat)
      requires Valid()
      modifies this`mem, this`at, this`owner, pmm`used, pmm.bitmap
      ensures Valid()
      ensures (State(), pt != 0) == Ensure(old(State()), TableLoc(virt))
      ensures pt != 0 ==> TableLoc(virt) in at && pt == at[TableLoc(virt)]
    {
      ghost var l3 := Child(Root, Pml4Index(virt));
      ghost var l2 := Child(l3, PdptIndex(virt));
      assert Depth(l3) == 1 && Depth(l2) == 2;
      ghost var s := State();
      assert Ensure(s, Root) == (s, true);
      var pdpt := EnsureTable(pml4, Pml4Index(virt), Root);
      assert Ensure(s, l3) == (State(), pdpt != 0);
      if pdpt == 0 {
        assert !Ensure(s, l2).1 && Ensure(s, l2).0 == State();
        return 0;
      }
      var pd := EnsureTable(pdpt, PdptIndex(virt), l3);
      assert Ensure(s, l2) == (State(), pd != 0);
      if pd == 0 {
        return 0;
      }
      pt := EnsureTable(pd, PdIndex(virt), l2);
    }

    method SetEntry(virt: nat, pt: nat, entry: nat)
      requires Valid() && TableLoc(virt) in at && pt == at[TableLoc(virt)]
      modifies this`mem, this`owner
      ensures Valid() && State() == Vmm.SetEntry(old(State()), PageOf(virt), entry)
    {
      hide Inv, TableLoc;
      SetEntryKeeps(State(), PageOf(virt), entry);
      owner := Orphan(State(), PageOf(virt), entry);
      mem := Write(mem, pt, PtIndex(virt), entry);
    }

    method Map(virt: nat, phys: nat, flags: nat)
      requires Valid()
      modifies this`mem, this`at, this`owner, pmm`used, pmm.bitmap
      ensures Valid() && State() == Vmm.Map(old(State()), virt, phys, flags)
    {
      var pt := EnsureTables(virt);
      if pt == 0 {
        return;
      }
      SetEntry(virt, pt, Or(phys, flags));
    }

    method Unmap(virt: nat)
      requires Valid()
      modifies this`mem, this`at, this`owner, pmm`used, pmm.bitmap
      ensures Valid() && State() == Vmm.Unmap(old(State()), virt)
    {
      var pt := EnsureTables(virt);
      if pt == 0 {
        return;
      }
      SetEntry(virt, pt, 0);
    }

    method IsMapped(virt: nat) returns (mapped: bool)
      requires Valid()
      modifies this`mem, this`at, this`owner, pmm`used, pmm.bitmap
      ensures Valid() && (State(), mapped) == Vmm.IsMapped(old(State()), virt)
      ensures mapped <==> HardwareWalk(old(mem), old(pml4), virt).Some?
    {
      IsMappedIsExact(State(), virt);
      var pt := EnsureTables(virt);
      if pt == 0 {
        return false;
      }
      mapped := Present(Read(mem, pt, PtIndex(virt)));
    }

    method AllocPage(virt: nat, flags: nat) returns (ok: bool)
      requires Valid()
      modifies this`mem, this`at, this`owner, pmm`used, pmm.bitmap
      ensures Valid() && (State(), ok) == Vmm.AllocPage(old(State()), virt, flags)
    {
      hide Inv, PageOf, TableLoc, Or, Put;
      ghost var s := State();
      AllocPageKeeps(s, virt, flags);
      TakeKeeps(s);
      NoZeroFrame(s);
      var phys := pmm.AllocPage();
      if phys == 0 {
        return false;
      }
      ghost var b := s.pool.Lowest();
      owner := owner[b := Held];
      Map(virt, phys, flags);
      owner := Reown(State(), b, PageOf(virt)).owner;
      ok := true;
    }

    method FreePage(virt: nat)
      requires Valid() && Freeable(State(), virt)
      modifies this`mem, this`at, this`owner, pmm`used, pmm.bitmap
      ensures Valid() && State() == Vmm.FreePage(old(State()), virt)
    {
      hide PageOf, TableLoc, Inv, Put, Vmm.SetEntry, Look, Address, Freeable, Translate, FrameStart;
      ghost var s := State();
      FreePageKeeps(s, virt);
      var phys := TranslateAddress(virt);
      if phys == 0 {
        return;
      }
      FrameOfTranslation(s, virt);
      FreePageIsGive(s, virt);
      Unmap(virt);
      var frame := FrameStart(phys);
      owner := Give(State(), frame).owner;
      var _ := pmm.FreePage(frame);
      assert State() == Vmm.FreePage(s, virt);
    }

    /** Addresses wrap around 2^64. With a larger size the offset would wrap too, and the
        loop would not end. */
    method MapRange(virt: nat, phys: nat, size: nat, flags: nat)
      requires Valid() && size <= WORD - PAGE_SIZE
      modifies this`mem, this`at, this`owner, pmm`used, pmm.bitmap
      ensures Valid() && State() == VmmRange.MapRange(old(State()), virt, phys, PagesOf(size), flags)
    {
      hide PageOf, TableLoc, Inv, Or, Put;
      ghost var s := State();
      var offset := 0;
      ghost var pages := 0;
      while offset < size
        invariant offset == After(0, pages)
        invariant Valid() && State() == VmmRange.MapRange(s, virt, phys, pages, flags)
        invariant pages <= PagesOf(size)
        decreases size - offset
      {
        RangeBound(size, pages);
        MapRangeNext(s, virt, phys, pages, offset, flags);
        Map((virt + offset) % WORD, (phys + offset) % WORD, flags);
        offset, pages := offset + PAGE_SIZE, pages + 1;
      }
      RangeBound(size, pages);
    }
  }

  /** The start of the memory code in kmain: the page allocator first, which writes its
      bitmap into memory, then the tables. False stands for the halt of the kernel when no
      region has a page. Later the bitmap's frames are read and written through its bytes. */
  method Boot(memory: seq<MemoryRegion>, cr3: nat, mem: map<nat, seq<nat>>, ghost at: map<Loc, nat>)
    returns (ok: bool, mapper: Mapper?)
    requires |UsableRegions(memory)| <= MAX_REGIONS
    requires Bootable(mem, cr3, UsableRegions(memory), at) && BitmapFits(UsableRegions(memory))
    ensures ok <==> FirstNonEmpty(UsableRegions(memory)).Some?
    ensures ok ==> mapper != null && mapper.Valid()
                   && mapper.State() == Booted(mem, cr3, UsableRegions(memory), at, mapper.pmm.bitmap[..])
  {
    hide AddressOf, IndexOf, Total, Linked, Tables, BitmapPages, BitmapFits, Stored;
    ghost var rs := UsableRegions(memory);
    var pmm := new Allocator();
    ok := pmm.Init(memory);
    mapper := null;
    if ok {
      BootKeeps(mem, cr3, rs, at, pmm.bitmap[..]);
      ghost var s := Booted(mem, cr3, rs, at, pmm.bitmap[..]);
      mapper := new Mapper(cr3, Stored(mem, pmm.bitmapPhys, pmm.bitmap[..]), pmm, at, s.owner);
    }
  }

  lemma MapRangeNext(s: Vm, virt: nat, phys: nat, pages: nat, offset: nat, flags: nat)
    requires offset == After(0, pages)
    ensures offset + PAGE_SIZE == After(0, pages + 1)
    ensures VmmRange.MapRange(s, virt, phys, pages + 1, flags)
            == Vmm.Map(VmmRange.MapRange(s, virt, phys, pages, flags), (virt + offset) % WORD, (phys + offset) % WORD, flags)
  {
    assert After(virt, pages) == virt + offset && After(phys, pages) == phys + offset;
  }

  lemma RangeBound(size: nat, pages: nat)
    ensures After(0, pages) < size <==> pages < PagesOf(size)
  {
  }

  /** No table on the walk sits at physical address 0, so NULL is unambiguous. */
  lemma WalkHasNoNullTable(s: Vm, virt: nat)
    requires Inv(s)
    ensures forall l, i: nat :: l in s.at && Depth(l) < 3 && i < ENTRIES ==>
              match Vmm.NextTable(s.mem, s.at[l], i)
              case None => Child(l, i) !in s.at
              case Some(t) => t != 0 && Child(l, i) in s.at && t == s.at[Child(l, i)]
    ensures Depth(Root) == 0 && Depth(Child(Root, Pml4Index(virt))) == 1
    ensures Depth(Child(Child(Root, Pml4Index(virt)), PdptIndex(virt))) == 2
  {
    assert Depth(Child(Root, Pml4Index(virt))) == 1;
  }
}
