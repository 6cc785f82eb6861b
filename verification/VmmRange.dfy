// vmm_map_range: which pages it maps, and what the tables on their way cost.
module VmmRange {
  import opened Words
  import opened Pmm
  import opened Vmm

  function MapRange(s: Vm, virt: nat, phys: nat, pages: nat, flags: nat): Vm {
    if pages == 0 then s
    else Map(MapRange(s, virt, phys, pages - 1, flags), After(virt, pages - 1) % WORD, After(phys, pages - 1) % WORD, flags)
  }

  /** Bits 48-63 of an address take no part in the walk. */
  lemma WrapPage(v: nat)
    ensures TableLoc(v % WORD) == TableLoc(v) && PageOf(v % WORD) == PageOf(v)
  {
    var q, r := v / WORD, v % WORD;
    assert v == q * WORD + r;
    assert v / PAGE_SIZE == q * 0x10_0000_0000_0000 + r / PAGE_SIZE;
    DropMultiple(r / PAGE_SIZE, q * 0x1_0000);
    PageOfIsPageNumber(v, r);
    hide TableLoc;
    assert PageOf(v).up == PageOf(r).up;
  }

  lemma DropMultiple(x: nat, k: nat)
    ensures (x + k * 0x10_0000_0000) % 0x10_0000_0000 == x % 0x10_0000_0000
  {
  }

  /** One turn of the loop, as a write to the page of the address that does not wrap. */
  lemma MapRangeTurn(s: Vm, virt: nat, phys: nat, n: nat, flags: nat)
    ensures MapRange(s, virt, phys, n + 1, flags)
            == Put(MapRange(s, virt, phys, n, flags), After(virt, n), Or(After(phys, n) % WORD, flags))
  {
    hide TableLoc, PageOf, Or, After;
    WrapPage(After(virt, n));
  }

  function PagesOf(size: nat): nat { (size + PAGE_SIZE - 1) / PAGE_SIZE }

  /** The virtual pages of a range, in order. */
  function RangePages(virt: nat, n: nat): (r: seq<Loc>)
    ensures |r| == n
  {
    if n == 0 then [] else RangePages(virt, n - 1) + [PageOf(After(virt, n - 1))]
  }

  /** The entries the pages of a range are given, in order. */
  function RangeEntries(phys: nat, flags: nat, n: nat): (r: seq<nat>)
    ensures |r| == n
  {
    if n == 0 then [] else RangeEntries(phys, flags, n - 1) + [Or(After(phys, n - 1) % WORD, flags)]
  }

  lemma {:induction false} RangeEntryAt(phys: nat, flags: nat, n: nat, i: nat)
    requires i < n
    ensures RangeEntries(phys, flags, n)[i] == Or(After(phys, i) % WORD, flags)
  {
    if i < n - 1 {
      RangeEntryAt(phys, flags, n - 1, i);
    }
  }

  lemma {:induction false} RangePageAt(virt: nat, n: nat, i: nat)
    requires i < n
    ensures RangePages(virt, n)[i] == PageOf(After(virt, i))
  {
    if i < n - 1 {
      RangePageAt(virt, n - 1, i);
    }
  }

  lemma RangePagesDiffer(virt: nat, n: nat)
    requires n < 0x10_0000_0000
    ensures forall i :: 0 <= i < n ==> Depth(RangePages(virt, n)[i]) == 4 && RangePages(virt, n)[i] != PageOf(After(virt, n))
  {
    forall i | 0 <= i < n
      ensures Depth(RangePages(virt, n)[i]) == 4 && RangePages(virt, n)[i] != PageOf(After(virt, n))
    {
      RangePageAt(virt, n, i);
      NearPagesDiffer(virt, i, n);
    }
  }

  predicate Gives(s: Vm, pages: seq<Loc>, entries: seq<nat>) {
    |pages| == |entries| && forall i :: 0 <= i < |pages| ==> Look(s, pages[i]) == entries[i]
  }

  /** The tables on the way to a table, the root excepted. */
  function Path(l: Loc): set<Loc> {
    match l case Root => {} case Child(up, _) => Path(up) + {l}
  }

  /** The tables on the way to the pages of a range. */
  function Along(virt: nat, n: nat): set<Loc> {
    if n == 0 then {} else Along(virt, n - 1) + Path(TableLoc(After(virt, n - 1)))
  }

  /** How many tables a range still needs, each counted once. */
  function Needed(s: Vm, virt: nat, n: nat): nat { |Along(virt, n) - s.at.Keys| }

  lemma {:induction false} PathDepth(l: Loc)
    ensures forall m :: m in Path(l) ==> Depth(m) <= Depth(l)
  {
    if l.Child? {
      PathDepth(l.up);
    }
  }

  lemma CountOne<T>(a: set<T>, x: T, c: set<T>)
    requires x !in a
    ensures |(a + {x}) - c| == |a - c| + (if x in c then 0 else 1)
  {
    if x in c {
      assert (a + {x}) - c == a - c;
    } else {
      assert (a + {x}) - c == (a - c) + {x};
    }
  }

  lemma CountOnce<T>(a: set<T>, b: set<T>, c: set<T>)
    ensures |(a + b) - c| == |a - c| + |b - (c + a)|
  {
    assert (a + b) - c == (a - c) + (b - (c + a));
  }

  lemma {:induction false} MissingIsPath(s: Vm, l: Loc)
    ensures Missing(s, l) == |Path(l) - s.at.Keys|
  {
    if l.Child? {
      MissingIsPath(s, l.up);
      PathDepth(l.up);
      CountOne(Path(l.up), l, s.at.Keys);
    }
  }

  lemma UpIndexed(l: Loc)
    requires l.Child? && Indexed(l)
    ensures Indexed(l.up) && l.index < ENTRIES
  {
  }

  lemma EnsureTableAdds(s: Vm, l: Loc, i: nat)
    requires Inv(s) && l in s.at && Depth(l) < 3 && i < ENTRIES && EnsureTable(s, l, i).1
    ensures EnsureTable(s, l, i).0.at.Keys == s.at.Keys + {Child(l, i)}
  {
    hide Inv, EnsureTable, Depth;
    EnsureTableKeeps(s, l, i);
  }

  /** A descent that succeeds adds the tables on its way and no others. */
  lemma {:induction false} EnsureAddsPath(s: Vm, l: Loc)
    requires Inv(s) && Depth(l) <= 3 && Indexed(l) && s.pool.Free() >= Missing(s, l)
    ensures Ensure(s, l).0.at.Keys == s.at.Keys + Path(l)
  {
    hide Inv, EnsureTable, Indexed, Grown;
    if l.Child? {
      UpIndexed(l);
      EnsureAddsPath(s, l.up);
      EnsureReaches(s, l.up);
      EnsureReaches(s, l);
      EnsureTableAdds(Ensure(s, l.up).0, l.up, l.index);
    }
  }

  lemma EnsureReaches(s: Vm, l: Loc)
    requires Inv(s) && Depth(l) <= 3 && Indexed(l) && s.pool.Free() >= Missing(s, l)
    ensures Ensure(s, l).1 && Inv(Ensure(s, l).0) && l in Ensure(s, l).0.at
  {
    hide Inv, Ensure, Missing;
    EnsureKeeps(s, l);
  }

  /** A descent that fails has used up the pool and does not reach its table. */
  lemma {:induction false} EnsureFails(s: Vm, l: Loc)
    requires Inv(s) && Depth(l) <= 3 && Indexed(l) && s.pool.Free() < Missing(s, l)
    ensures Ensure(s, l).0.pool.Free() == 0 && l !in Ensure(s, l).0.at
  {
    hide Linked, Backed, Owned, Reserved;
    EnsureKeeps(s, l);
    EnsureKeeps(s, l.up);
    var s1 := Ensure(s, l.up).0;
    if s.pool.Free() < Missing(s, l.up) {
      EnsureFails(s, l.up);
    } else {
      EnsureTableKeeps(s1, l.up, l.index);
    }
  }

  lemma {:induction false} EnsureOfFull(s: Vm, l: Loc)
    requires Inv(s) && s.pool.Free() == 0
    ensures Ensure(s, l).0 == s
  {
    hide Inv, Read, Present, AddTable;
    NoZeroFrame(s);
    FullMeansNoneFree(s.pool);
    if l.Child? {
      EnsureOfFull(s, l.up);
    }
  }

  lemma PutAlong(s: Vm, virt: nat, e: nat)
    requires Inv(s)
    ensures s.pool.Free() >= Missing(s, TableLoc(virt)) ==> Put(s, virt, e).at.Keys == s.at.Keys + Path(TableLoc(virt))
    ensures s.pool.Free() < Missing(s, TableLoc(virt)) ==>
              Put(s, virt, e).pool.Free() == 0 && TableLoc(virt) !in Put(s, virt, e).at
    ensures s.pool.Free() == 0 ==> Put(s, virt, e).at == s.at && Put(s, virt, e).pool == s.pool
  {
    hide Inv, TableLoc, PageOf, Missing, Ensure;
    EnsureKeeps(s, TableLoc(virt));
    if s.pool.Free() >= Missing(s, TableLoc(virt)) {
      EnsureAddsPath(s, TableLoc(virt));
    } else {
      EnsureFails(s, TableLoc(virt));
    }
    if s.pool.Free() == 0 {
      EnsureOfFull(s, TableLoc(virt));
    }
  }

  /** The first page of a range and the rest. */
  lemma {:induction false} AlongFront(virt: nat, n: nat)
    ensures Along(virt, n + 1) == Path(TableLoc(virt)) + Along(After(virt, 1), n)
  {
    hide TableLoc, Path;
    if n == 0 {
      assert After(virt, 0) == virt && Along(virt, 0) == {};
    } else {
      AlongFront(virt, n - 1);
      assert After(After(virt, 1), n - 1) == After(virt, n);
    }
  }

  lemma NeededFirst(s: Vm, s1: Vm, virt: nat, n: nat)
    requires s1.at.Keys == s.at.Keys + Path(TableLoc(virt))
    ensures Needed(s, virt, n + 1) == Missing(s, TableLoc(virt)) + Needed(s1, After(virt, 1), n)
  {
    hide TableLoc, After, Path, Missing, Along;
    AlongFront(virt, n);
    CountOnce(Path(TableLoc(virt)), Along(After(virt, 1), n), s.at.Keys);
    MissingIsPath(s, TableLoc(virt));
  }

  lemma NeedsFirst(s: Vm, virt: nat, n: nat)
    ensures Needed(s, virt, n + 1) >= Missing(s, TableLoc(virt))
  {
    hide TableLoc, After, Path, Missing, Along;
    AlongFront(virt, n);
    MissingIsPath(s, TableLoc(virt));
    SubsetSize(Path(TableLoc(virt)) - s.at.Keys, Along(virt, n + 1) - s.at.Keys);
  }

  /** A page that gets backed completes the tables on its way. */
  lemma AllocPageAlong(s: Vm, virt: nat, flags: nat)
    requires Inv(s) && s.pool.Free() >= 1 + Missing(s, TableLoc(virt))
    ensures AllocPage(s, virt, flags).0.at.Keys == s.at.Keys + Path(TableLoc(virt))
  {
    hide TableLoc, PageOf, Or, Inv, Put, Path, Missing;
    NoZeroFrame(s);
    FullMeansNoneFree(s.pool);
    AllocIsFresh(s.pool);
    TakeKeeps(s);
    var (s0, frame) := Take(s);
    SameMissing(s, s0, TableLoc(virt));
    PutAlong(s0, virt, Or(frame, flags));
  }

  lemma NeededNext(s: Vm, s1: Vm, virt: nat, n: nat)
    requires s1.at.Keys == s.at.Keys + Along(virt, n)
    ensures Needed(s, virt, n + 1) == Needed(s, virt, n) + Missing(s1, TableLoc(After(virt, n)))
    ensures Along(virt, n + 1) == Along(virt, n) + Path(TableLoc(After(virt, n)))
  {
    hide TableLoc, After, Path, Missing;
    CountOnce(Along(virt, n), Path(TableLoc(After(virt, n))), s.at.Keys);
    MissingIsPath(s1, TableLoc(After(virt, n)));
  }

  /** With a spare page for each missing table, every page of the range is mapped to the
      corresponding frame. */
  lemma {:induction false} MapRangeMaps(s: Vm, virt: nat, phys: nat, pages: nat, flags: nat)
    requires Inv(s) && s.pool.Free() >= Needed(s, virt, pages) && pages <= 0x10_0000_0000
    ensures var s' := MapRange(s, virt, phys, pages, flags);
            && Inv(s') && s'.at.Keys == s.at.Keys + Along(virt, pages)
            && s'.pool.Free() == s.pool.Free() - Needed(s, virt, pages)
            && Gives(s', RangePages(virt, pages), RangeEntries(phys, flags, pages))
  {
    hide PageOf, TableLoc, Inv, Look, Put, Or, After, Missing, Needed, Along, Path;
    if pages == 0 {
      NeededNone(s, virt);
    } else {
      var n := pages - 1;
      var s1 := MapRange(s, virt, phys, n, flags);
      NeededGrows(s, virt, n);
      MapRangeMaps(s, virt, phys, n, flags);
      NeededNext(s, s1, virt, n);
      RangePagesDiffer(virt, n);
      MapRangeTurn(s, virt, phys, n, flags);
      PutBeside(s1, After(virt, n), Or(After(phys, n) % WORD, flags), RangePages(virt, n), RangeEntries(phys, flags, n));
    }
  }

  lemma NeededGrows(s: Vm, virt: nat, n: nat)
    ensures Needed(s, virt, n) <= Needed(s, virt, n + 1)
  {
    hide TableLoc, After, Path;
    SubsetSize(Along(virt, n) - s.at.Keys, Along(virt, n + 1) - s.at.Keys);
  }

  lemma NeededNone(s: Vm, virt: nat)
    ensures Needed(s, virt, 0) == 0 && Along(virt, 0) == {}
  {
  }

  lemma PutBeside(s: Vm, virt: nat, e: nat, pages: seq<Loc>, entries: seq<nat>)
    requires Inv(s) && s.pool.Free() >= Missing(s, TableLoc(virt)) && Gives(s, pages, entries)
    requires forall i :: 0 <= i < |pages| ==> Depth(pages[i]) == 4 && pages[i] != PageOf(virt)
    ensures var s' := Put(s, virt, e);
            && Inv(s') && s'.at.Keys == s.at.Keys + Path(TableLoc(virt))
            && s'.pool.Free() == s.pool.Free() - Missing(s, TableLoc(virt))
            && Gives(s', pages + [PageOf(virt)], entries + [e])
  {
    hide PageOf, TableLoc, Or, Inv, Put, Missing;
    PutAlong(s, virt, e);
    PutKeeps(s, virt, e);
    PutPages(s, virt, e);
  }

  /** With fewer, the call is silent about it but leaves a page of the range unmapped. */
  lemma {:induction false} MapRangeFails(s: Vm, virt: nat, phys: nat, pages: nat, flags: nat)
    requires Inv(s) && s.pool.Free() < Needed(s, virt, pages) && pages <= 0x10_0000_0000
    ensures var s' := MapRange(s, virt, phys, pages, flags);
            && Inv(s') && s'.pool.Free() == 0
            && exists i :: 0 <= i < pages && TableLoc(After(virt, i)) !in s'.at
  {
    hide PageOf, TableLoc, Inv, Look, Put, Or, After, Missing;
    NoZeroFrame(s);
    FullMeansNoneFree(s.pool);
    var n, l := pages - 1, TableLoc(After(virt, pages - 1));
    var s1 := MapRange(s, virt, phys, n, flags);
    if s.pool.Free() < Needed(s, virt, n) {
      MapRangeFails(s, virt, phys, n, flags);
    } else {
      MapRangeMaps(s, virt, phys, n, flags);
      NeededNext(s, s1, virt, n);
    }
    MapRangeTurn(s, virt, phys, n, flags);
    PutKeeps(s1, After(virt, n), Or(After(phys, n) % WORD, flags));
    PutAlong(s1, After(virt, n), Or(After(phys, n) % WORD, flags));
  }

  /** Every page of a range ends up mapped exactly when the pool has a page for each
      missing table. */
  lemma MapRangeMapsIff(s: Vm, virt: nat, phys: nat, pages: nat, flags: nat)
    requires Inv(s) && pages <= 0x10_0000_0000 && Mappable(phys, flags) && flags % 2 == 1
    requires phys + pages * 0x1000 <= 0x10_0000_0000_0000
    ensures var s' := MapRange(s, virt, phys, pages, flags);
            s.pool.Free() >= Needed(s, virt, pages)
            <==> forall i :: 0 <= i < pages ==> Look(s', PageOf(After(virt, i))) == phys + i * 0x1000 + flags
    ensures var s' := MapRange(s, virt, phys, pages, flags);
            s.pool.Free() >= Needed(s, virt, pages) ==>
              forall i :: 0 <= i < pages ==> FoundAt(s', After(virt, i), phys + i * 0x1000 + After(virt, i) % 0x1000)
  {
    hide PageOf, TableLoc, Inv, Or, After, Needed, MapRange, Mappable, FoundAt, Look;
    var s' := MapRange(s, virt, phys, pages, flags);
    RangeEntryIs(phys, pages, flags);
    if s.pool.Free() < Needed(s, virt, pages) {
      MapRangeFails(s, virt, phys, pages, flags);
      var i :| 0 <= i < pages && TableLoc(After(virt, i)) !in s'.at;
      NoTableNoLook(s', After(virt, i));
      assert phys + i * 0x1000 + flags != 0 by { MappableOdd(phys, flags); }
    } else {
      MapRangeMaps(s, virt, phys, pages, flags);
      forall i | 0 <= i < pages
        ensures Look(s', PageOf(After(virt, i))) == phys + i * 0x1000 + flags
        ensures FoundAt(s', After(virt, i), phys + i * 0x1000 + After(virt, i) % 0x1000)
      {
        RangePageAt(virt, pages, i);
        RangeEntryAt(phys, flags, pages, i);
        EntryFound(s', After(virt, i), phys + i * 0x1000, flags);
      }
    }
  }

  /** The code's walk and the processor's both find the address. */
  predicate FoundAt(s: Vm, virt: nat, phys: nat) {
    Translate(s.mem, s.root, virt) == phys && HardwareWalk(s.mem, s.root, virt) == Some(phys)
  }

  lemma EntryFound(s: Vm, virt: nat, phys: nat, flags: nat)
    requires Inv(s) && Mappable(phys, flags) && flags % 2 == 1 && Look(s, PageOf(virt)) == phys + flags
    ensures FoundAt(s, virt, phys + virt % 0x1000)
  {
    hide PageOf, TableLoc, Tables, Linked, Backed, Owned, Reserved, Or, Look, Translate, HardwareWalk, Address, Mappable;
    MappableBits(phys, flags);
    OrIsSum(phys, flags);
    EntryOf(phys, flags);
    LooksUp(s, virt);
    TranslateIsHardwareWalk(s, virt);
    EntryBits(phys + flags);
  }

  lemma NoTableNoLook(s: Vm, virt: nat)
    requires TableLoc(virt) !in s.at
    ensures Look(s, PageOf(virt)) == 0
  {
  }

  lemma MappableOdd(phys: nat, flags: nat)
    requires flags % 2 == 1
    ensures flags > 0
  {
  }

  lemma RangeEntryIs(phys: nat, pages: nat, flags: nat)
    requires Mappable(phys, flags) && phys + pages * 0x1000 <= 0x10_0000_0000_0000
    ensures forall i :: 0 <= i < pages ==>
              Mappable(phys + i * 0x1000, flags) && Or(After(phys, i) % WORD, flags) == phys + i * 0x1000 + flags
  {
    forall i | 0 <= i < pages
      ensures Mappable(phys + i * 0x1000, flags) && Or(After(phys, i) % WORD, flags) == phys + i * 0x1000 + flags
    {
      FrameAfter(phys, i, pages);
      hide Or;
      MappableBits(phys + i * 0x1000, flags);
      OrIsSum(phys + i * 0x1000, flags);
    }
  }

  /** The pages of a range are those in which some byte of it would lie if it began at a page. */
  lemma PagesCover(size: nat, offset: nat)
    ensures offset < size ==> offset / 0x1000 < PagesOf(size)
    ensures offset / 0x1000 < PagesOf(size) ==> offset / 0x1000 * 0x1000 < size
  {
  }

  lemma FrameAfter(phys: nat, i: nat, n: nat)
    requires phys % PAGE_SIZE == 0 && After(phys, n) <= PHYS_LIMIT && i < n
    ensures FrameAddress(After(phys, i)) && After(phys, i) % WORD == After(phys, i)
  {
  }

  /** Pages outside the range keep their entries whether or not the tables run out. */
  lemma {:induction false} MapRangeElsewhere(s: Vm, virt: nat, phys: nat, pages: nat, flags: nat, page: Loc)
    requires Inv(s) && Depth(page) == 4 && forall i :: 0 <= i < pages ==> page != PageOf(After(virt, i))
    ensures var s' := MapRange(s, virt, phys, pages, flags); Inv(s') && Look(s', page) == Look(s, page)
  {
    hide PageOf, TableLoc, Inv, Look, Put, Or, After, Missing;
    if pages > 0 {
      MapRangeElsewhere(s, virt, phys, pages - 1, flags, page);
      MapRangeTurn(s, virt, phys, pages - 1, flags);
      PutKeeps(MapRange(s, virt, phys, pages - 1, flags), After(virt, pages - 1), Or(After(phys, pages - 1) % WORD, flags));
    }
  }

  lemma NearPagesDiffer(virt: nat, i: nat, j: nat)
    requires i < j < 0x10_0000_0000
    ensures PageOf(After(virt, i)) != PageOf(After(virt, j))
  {
    PageOfIsPageNumber(After(virt, i), After(virt, j));
    var n := virt / PAGE_SIZE;
    assert After(virt, i) / PAGE_SIZE == n + i;
    assert After(virt, j) / PAGE_SIZE == n + j;
    SmallShift(n + i, j - i);
  }

  lemma SmallShift(n: nat, d: nat)
    requires 0 < d < 0x10_0000_0000
    ensures n % 0x10_0000_0000 != (n + d) % 0x10_0000_0000
  {
  }
}
