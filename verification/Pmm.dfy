// Physical page allocator: a bitmap over several disjoint usable regions.
module Pmm {
  import opened Words

  /** The size of the table of usable regions, which the code fills without a check. */
  const MAX_REGIONS: nat := 256

  datatype MemoryType = Usable | Unusable
  datatype MemoryRegion = MemoryRegion(base: nat, length: nat, kind: MemoryType)

  /** A usable region: `pages` frames starting at `base`. */
  datatype Region = Region(base: nat, pages: nat) {
    function End(): nat { base + pages * PAGE_SIZE }
    predicate Contains(addr: nat) { base <= addr < End() }
  }

  // ---------------------------------------------------------------------------
  // Indices and addresses

  function Total(rs: seq<Region>): nat {
    if rs == [] then 0 else rs[0].pages + Total(rs[1..])
  }

  function AddressOf(rs: seq<Region>, index: nat): nat
    requires index < Total(rs)
  {
    if index < rs[0].pages then rs[0].base + index * PAGE_SIZE
    else AddressOf(rs[1..], index - rs[0].pages)
  }

  function IndexOf(rs: seq<Region>, addr: nat): Option<nat> {
    if rs == [] then None
    else if rs[0].Contains(addr) then Some((addr - rs[0].base) / PAGE_SIZE)
    else Shift(IndexOf(rs[1..], addr), rs[0].pages)
  }

  function Shift(i: Option<nat>, amount: nat): Option<nat> {
    match i case None => None case Some(k) => Some(k + amount)
  }

  ghost predicate WellFormed(rs: seq<Region>) {
    && (forall i :: 0 <= i < |rs| ==> rs[i].base % PAGE_SIZE == 0 && rs[i].End() <= PHYS_LIMIT)
    && (forall i, j :: 0 <= i < j < |rs| ==> rs[i].End() <= rs[j].base || rs[j].End() <= rs[i].base)
  }

  /** Every allocatable address is a frame address inside one of the regions. */
  lemma {:induction false} AddressInRegion(rs: seq<Region>, index: nat) returns (r: nat)
    requires WellFormed(rs) && index < Total(rs)
    ensures r < |rs| && rs[r].Contains(AddressOf(rs, index)) && FrameAddress(AddressOf(rs, index))
  {
    if index < rs[0].pages {
      r := 0;
    } else {
      r := AddressInRegion(rs[1..], index - rs[0].pages);
      r := r + 1;
    }
  }

  /** Freeing finds the very bit that allocating set. */
  lemma {:induction false} IndexOfAddress(rs: seq<Region>, index: nat)
    requires WellFormed(rs) && index < Total(rs)
    ensures IndexOf(rs, AddressOf(rs, index)) == Some(index)
  {
    if index >= rs[0].pages {
      IndexOfAddress(rs[1..], index - rs[0].pages);
      var r := AddressInRegion(rs[1..], index - rs[0].pages);
      assert rs[r + 1].Contains(AddressOf(rs, index));
    }
  }

  /** Indices count the pages of one region after the other, each from its base upwards. */
  lemma {:induction false} AddressAt(rs: seq<Region>, r: nat, k: nat)
    requires r < |rs| && k < rs[r].pages
    ensures Total(rs[..r]) + k < Total(rs)
    ensures AddressOf(rs, Total(rs[..r]) + k) == rs[r].base + k * 0x1000
  {
    if r > 0 {
      AddressAt(rs[1..], r - 1, k);
      assert rs[..r][1..] == rs[1..][..r - 1] && rs[..r][0] == rs[0];
    } else {
      assert rs[..0] == [];
    }
  }

  lemma {:induction false} IndexInRange(rs: seq<Region>, addr: nat)
    requires IndexOf(rs, addr).Some?
    ensures IndexOf(rs, addr).value < Total(rs)
  {
    if !rs[0].Contains(addr) {
      IndexInRange(rs[1..], addr);
    }
  }

  /** The bit found for an address stands for the frame that holds the address. */
  lemma {:induction false} AddressOfIndex(rs: seq<Region>, addr: nat)
    requires WellFormed(rs) && IndexOf(rs, addr).Some?
    ensures IndexOf(rs, addr).value < Total(rs)
    ensures AddressOf(rs, IndexOf(rs, addr).value) == addr - addr % PAGE_SIZE
  {
    if rs[0].Contains(addr) {
      assert (addr - rs[0].base) / PAGE_SIZE * PAGE_SIZE == addr - addr % PAGE_SIZE - rs[0].base;
    } else {
      AddressOfIndex(rs[1..], addr);
    }
  }

  lemma AddressInjective(rs: seq<Region>, i: nat, j: nat)
    requires WellFormed(rs) && i < Total(rs) && j < Total(rs)
    ensures AddressOf(rs, i) == AddressOf(rs, j) ==> i == j
  {
    IndexOfAddress(rs, i);
    IndexOfAddress(rs, j);
  }

  // ---------------------------------------------------------------------------
  // The allocator as a set of used indices

  datatype Pool = Pool(regions: seq<Region>, used: set<nat>) {
    ghost predicate Valid() {
      WellFormed(regions) && forall b :: b in used ==> b < Total(regions)
    }
    function Lowest(): nat { LowestFrom(used, 0, Total(regions)) }
    predicate Full() { Lowest() == Total(regions) }
    function Free(): int { Total(regions) - |used| }
  }

  function LowestFrom(used: set<nat>, k: nat, n: nat): (b: nat)
    requires k <= n
    ensures k <= b <= n
    ensures forall i :: k <= i < b ==> i in used
    ensures b < n ==> b !in used
    decreases n - k
  {
    if k == n || k !in used then k else LowestFrom(used, k + 1, n)
  }

  /** NULL is address 0, which is also what handing out physical page 0 would return. */
  function Alloc(p: Pool): (Pool, nat) {
    if p.Full() then (p, 0) else (p.(used := p.used + {p.Lowest()}), AddressOf(p.regions, p.Lowest()))
  }

  function Release(p: Pool, addr: nat): Pool {
    if addr == 0 then p
    else match IndexOf(p.regions, addr)
         case None => p
         case Some(b) => p.(used := p.used - {b})
  }

  /** An allocation returns a frame no live allocation has; it is NULL only when the
      pool is full or the lowest free frame is physical page 0. */
  lemma AllocIsFresh(p: Pool)
    requires p.Valid()
    ensures Alloc(p).0.Valid()
    ensures if p.Full() then Alloc(p) == (p, 0)
            else p.Lowest() !in p.used
                 && Alloc(p) == (Pool(p.regions, p.used + {p.Lowest()}), AddressOf(p.regions, p.Lowest()))
    ensures Alloc(p).1 == 0 <==> p.Full() || AddressOf(p.regions, p.Lowest()) == 0
    ensures forall b :: b in p.used ==> AddressOf(p.regions, b) != Alloc(p).1 || Alloc(p).1 == 0
    ensures forall b: nat :: b < Total(p.regions) && b !in p.used ==> p.Lowest() <= b
    ensures !p.Full() ==> Alloc(p).0.Free() == p.Free() - 1
    ensures !p.Full() ==> FrameAddress(Alloc(p).1)
  {
    if !p.Full() {
      var r := AddressInRegion(p.regions, p.Lowest());
      forall b | b in p.used ensures AddressOf(p.regions, b) != AddressOf(p.regions, p.Lowest()) {
        AddressInjective(p.regions, b, p.Lowest());
      }
    }
  }

  /** The pool is full exactly when no index is free. */
  lemma FullMeansNoneFree(p: Pool)
    requires p.Valid()
    ensures 0 <= p.Free()
    ensures p.Full() <==> p.Free() == 0
  {
    var all := Range(Total(p.regions));
    SubsetSize(p.used, all);
    if p.Full() {
      assert p.used == all;
    } else {
      SubsetSize(p.used, all - {p.Lowest()});
    }
  }

  function Range(n: nat): (r: set<nat>)
    ensures |r| == n && forall b: nat :: b in r <==> b < n
  {
    if n == 0 then {} else Range(n - 1) + {n - 1}
  }

  lemma {:induction false} SubsetSize<T>(a: set<T>, b: set<T>)
    requires a <= b
    ensures |a| <= |b|
  {
    if a != {} {
      var x :| x in a;
      SubsetSize(a - {x}, b - {x});
    }
  }

  // ---------------------------------------------------------------------------
  // The bitmap bytes

  function Mask(k: nat): bv8
    requires k < 8
  {
    (1 as bv8) << k
  }

  function SetIn(x: bv8, k: nat): bv8
    requires k < 8
  {
    x | Mask(k)
  }

  function ClearIn(x: bv8, k: nat): bv8
    requires k < 8
  {
    x & !Mask(k)
  }

  predicate TestIn(x: bv8, k: nat)
    requires k < 8
  {
    x & Mask(k) != 0
  }

  predicate Test(bytes: seq<bv8>, bit: nat) {
    bit / 8 < |bytes| && TestIn(bytes[bit / 8], bit % 8)
  }

  function Set(bytes: seq<bv8>, bit: nat): seq<bv8>
    requires bit / 8 < |bytes|
  {
    bytes[bit / 8 := SetIn(bytes[bit / 8], bit % 8)]
  }

  function Clear(bytes: seq<bv8>, bit: nat): seq<bv8>
    requires bit / 8 < |bytes|
  {
    bytes[bit / 8 := ClearIn(bytes[bit / 8], bit % 8)]
  }

  lemma MaskValue(k: nat)
    requires k < 8
    ensures Mask(k) == if k == 0 then 1 else if k == 1 then 2 else if k == 2 then 4 else if k == 3 then 8
                       else if k == 4 then 16 else if k == 5 then 32 else if k == 6 then 64 else 128
  {
  }

  const MASKS: seq<bv8> := [0x01, 0x02, 0x04, 0x08, 0x10, 0x20, 0x40, 0x80]

  /** Bit b of the bitmap is bit b mod 8, the lowest first, of byte b / 8. */
  lemma BitTested(bytes: seq<bv8>, b: nat)
    ensures Test(bytes, b) <==> b / 8 < |bytes| && bytes[b / 8] & MASKS[b % 8] != 0
  {
    MaskAt(b % 8);
    hide Mask, MASKS;
  }

  /** Setting a bit sets it in its byte. */
  lemma BitSet(bytes: seq<bv8>, b: nat)
    requires b / 8 < |bytes|
    ensures Set(bytes, b) == bytes[b / 8 := bytes[b / 8] | MASKS[b % 8]]
  {
    MaskAt(b % 8);
    hide Mask, MASKS, SetIn;
    SetInIs(bytes[b / 8], b % 8);
  }

  /** Clearing a bit clears it in its byte. */
  lemma BitCleared(bytes: seq<bv8>, b: nat)
    requires b / 8 < |bytes|
    ensures Clear(bytes, b) == bytes[b / 8 := bytes[b / 8] & !MASKS[b % 8]]
  {
    MaskAt(b % 8);
    hide Mask, MASKS, ClearIn;
    ClearInIs(bytes[b / 8], b % 8);
  }

  lemma SetInIs(x: bv8, k: nat)
    requires k < 8 && |MASKS| == 8
    ensures SetIn(x, k) == x | MASKS[k]
  {
    MaskAt(k);
    hide Mask, MASKS;
  }

  lemma ClearInIs(x: bv8, k: nat)
    requires k < 8 && |MASKS| == 8
    ensures ClearIn(x, k) == x & !MASKS[k]
  {
    MaskAt(k);
    hide Mask, MASKS;
  }

  lemma MaskAt(k: nat)
    requires k < 8
    ensures |MASKS| == 8 && Mask(k) == MASKS[k]
  {
    MaskValue(k);
  }

  lemma MasksDisjoint(i: nat, j: nat)
    requires i < 8 && j < 8
    ensures Mask(i) != 0 && (i != j ==> Mask(i) & Mask(j) == 0)
  {
    MaskValue(i);
    MaskValue(j);
  }

  lemma SameMask(x: bv8, m: bv8)
    requires m != 0
    ensures (x | m) & m != 0 && (x & !m) & m == 0
    ensures x & m == 0 ==> (x | m) & !m == x
  {
  }

  lemma OtherMask(x: bv8, m: bv8, n: bv8)
    requires m & n == 0
    ensures (x | m) & n == x & n && (x & !m) & n == x & n
  {
  }

  lemma InByte(x: bv8, i: nat)
    requires i < 8
    ensures TestIn(SetIn(x, i), i) && !TestIn(ClearIn(x, i), i)
    ensures !TestIn(x, i) ==> ClearIn(SetIn(x, i), i) == x
  {
    MasksDisjoint(i, i);
    SameMask(x, Mask(i));
  }

  lemma BesideInByte(x: bv8, i: nat, j: nat)
    requires i < 8 && j < 8 && i != j
    ensures TestIn(SetIn(x, i), j) <==> TestIn(x, j)
    ensures TestIn(ClearIn(x, i), j) <==> TestIn(x, j)
  {
    MasksDisjoint(i, j);
    OtherMask(x, Mask(i), Mask(j));
  }

  lemma SameBit(a: nat, b: nat)
    ensures a == b <==> a / 8 == b / 8 && a % 8 == b % 8
  {
  }

  /** Setting or clearing one bit changes the test of that bit only. */
  lemma BitFrame(bytes: seq<bv8>, bit: nat, other: nat)
    requires bit / 8 < |bytes| && other / 8 < |bytes|
    ensures Test(Set(bytes, bit), other) <==> other == bit || Test(bytes, other)
    ensures Test(Clear(bytes, bit), other) <==> other != bit && Test(bytes, other)
  {
    hide SetIn, ClearIn, TestIn;
    SameBit(other, bit);
    InByte(bytes[bit / 8], bit % 8);
    if bit % 8 != other % 8 {
      BesideInByte(bytes[bit / 8], bit % 8, other % 8);
    }
  }

  lemma ZeroBytes(bytes: seq<bv8>)
    requires forall i :: 0 <= i < |bytes| ==> bytes[i] == 0
    ensures forall b: nat :: !Test(bytes, b)
  {
    forall b: nat ensures !Test(bytes, b) {
      if b / 8 < |bytes| {
        MaskValue(b % 8);
      }
    }
  }

  /** A byte none of whose bits is set is zero. */
  lemma ZeroByte(bytes: seq<bv8>, j: nat)
    requires j < |bytes| && forall b: nat :: 8 * j <= b < 8 * j + 8 ==> !Test(bytes, b)
    ensures bytes[j] == 0
  {
    forall k: nat | k < 8 ensures !TestIn(bytes[j], k) {
      assert (8 * j + k) / 8 == j && (8 * j + k) % 8 == k && !Test(bytes, 8 * j + k);
    }
    hide Test;
    NoBits(bytes[j]);
  }

  lemma NoBits(x: bv8)
    requires forall k: nat :: k < 8 ==> !TestIn(x, k)
    ensures x == 0
  {
    assert !TestIn(x, 0) && !TestIn(x, 1) && !TestIn(x, 2) && !TestIn(x, 3);
    assert !TestIn(x, 4) && !TestIn(x, 5) && !TestIn(x, 6) && !TestIn(x, 7);
    MaskValue(0);
    MaskValue(1);
    MaskValue(2);
    MaskValue(3);
    MaskValue(4);
    MaskValue(5);
    MaskValue(6);
    MaskValue(7);
  }

  /** Freeing right after allocating gives back every byte of the bitmap. */
  lemma ClearUndoesSet(bytes: seq<bv8>, bit: nat)
    requires bit / 8 < |bytes| && !Test(bytes, bit)
    ensures Clear(Set(bytes, bit), bit) == bytes
  {
    hide SetIn, ClearIn, TestIn;
    InByte(bytes[bit / 8], bit % 8);
  }

  /** The bitmap bytes hold the pool: one bit for each index. */
  ghost predicate Shows(p: Pool, bytes: seq<bv8>) {
    && Total(p.regions) <= 8 * |bytes|
    && forall b :: 0 <= b < Total(p.regions) ==> (b in p.used <==> Test(bytes, b))
  }

  /** Freeing a frame right after it was allocated gives back the pool and every byte of
      the bitmap. */
  lemma FreeUndoesAlloc(p: Pool, bytes: seq<bv8>)
    requires p.Valid() && Shows(p, bytes) && Alloc(p).1 != 0
    ensures var (q, page) := Alloc(p);
            && p.Lowest() < Total(p.regions) && IndexOf(p.regions, page) == Some(p.Lowest())
            && Release(q, page) == p
            && Clear(Set(bytes, p.Lowest()), p.Lowest()) == bytes
  {
    hide Test, Set, Clear;
    IndexOfAddress(p.regions, p.Lowest());
    assert p.used + {p.Lowest()} - {p.Lowest()} == p.used;
    ClearUndoesSet(bytes, p.Lowest());
  }

  /** Freeing any live frame, after whatever other calls, frees that frame and no other,
      in the pool and in the bitmap; when it is the lowest, allocating gives it back. */
  lemma FreeIsExact(p: Pool, bytes: seq<bv8>, b: nat)
    requires p.Valid() && Shows(p, bytes) && b in p.used && AddressOf(p.regions, b) != 0
    ensures var q := Release(p, AddressOf(p.regions, b));
            && q.Valid() && q.used == p.used - {b} && q.Free() == p.Free() + 1
            && Shows(q, Clear(bytes, b)) && Set(Clear(bytes, b), b) == bytes
            && (b < p.Lowest() ==> Alloc(q) == (p, AddressOf(p.regions, b)))
  {
    hide Test, Set, Clear, WellFormed, Total, AddressOf, Alloc;
    IndexOfAddress(p.regions, b);
    var q := p.(used := p.used - {b});
    assert |q.used| == |p.used| - 1;
    ClearShows(p, bytes, b);
    SetUndoesClear(bytes, b);
    if b < p.Lowest() {
      LowestAgain(p, b);
    }
  }

  lemma ClearShows(p: Pool, bytes: seq<bv8>, b: nat)
    requires Shows(p, bytes) && b < Total(p.regions)
    ensures Shows(p.(used := p.used - {b}), Clear(bytes, b))
  {
    hide Test, Clear, Total;
    ClearLength(bytes, b);
    forall c | 0 <= c < Total(p.regions) ensures c in p.used - {b} <==> Test(Clear(bytes, b), c) {
      BitFrame(bytes, b, c);
    }
  }

  lemma LowestAgain(p: Pool, b: nat)
    requires b in p.used && b < p.Lowest()
    ensures Alloc(p.(used := p.used - {b})) == (p, AddressOf(p.regions, b))
  {
    hide Total, AddressOf;
    var q := p.(used := p.used - {b});
    assert q.Lowest() == b;
    assert q.used + {b} == p.used;
  }

  lemma ClearLength(bytes: seq<bv8>, bit: nat)
    requires bit / 8 < |bytes|
    ensures |Clear(bytes, bit)| == |bytes|
  {
  }

  lemma SetUndoesClear(bytes: seq<bv8>, bit: nat)
    requires bit / 8 < |bytes| && Test(bytes, bit)
    ensures Set(Clear(bytes, bit), bit) == bytes
  {
    hide SetIn, ClearIn, TestIn;
    SetAfterClear(bytes[bit / 8], bit % 8);
  }

  lemma SetAfterClear(x: bv8, i: nat)
    requires i < 8 && TestIn(x, i)
    ensures SetIn(ClearIn(x, i), i) == x
  {
    MaskValue(i);
  }

  // ---------------------------------------------------------------------------
  // Placement of the bitmap

  function BitmapSize(rs: seq<Region>): nat { (Total(rs) + 7) / 8 }

  function BitmapPages(rs: seq<Region>): nat { (BitmapSize(rs) + PAGE_SIZE - 1) / PAGE_SIZE }

  /** The fewest bytes with a bit for every page, and the fewest pages with room for them. */
  lemma BitmapSizes(rs: seq<Region>)
    ensures 8 * BitmapSize(rs) >= Total(rs) > 8 * (BitmapSize(rs) - 1)
    ensures 0x1000 * BitmapPages(rs) >= BitmapSize(rs) > 0x1000 * (BitmapPages(rs) - 1)
  {
    hide Total;
  }

  lemma BitmapPagesFit(n: nat)
    requires n > 0
    ensures ((n + 7) / 8 + PAGE_SIZE - 1) / PAGE_SIZE <= n
  {
    assert (n + 7) / 8 <= n;
  }

  /** The region that receives the bitmap: the first one that has a page. */
  function FirstNonEmpty(rs: seq<Region>): Option<Region> {
    if rs == [] then None else if rs[0].pages > 0 then Some(rs[0]) else FirstNonEmpty(rs[1..])
  }

  lemma {:induction false} FirstNonEmptyIs(rs: seq<Region>, i: nat)
    requires i < |rs| && rs[i].pages > 0 && forall j :: 0 <= j < i ==> rs[j].pages == 0
    ensures FirstNonEmpty(rs) == Some(rs[i])
  {
    if i > 0 {
      FirstNonEmptyIs(rs[1..], i - 1);
    }
  }

  lemma {:induction false} NoneNonEmpty(rs: seq<Region>)
    ensures FirstNonEmpty(rs) == None <==> forall j :: 0 <= j < |rs| ==> rs[j].pages == 0
  {
    if rs != [] {
      NoneNonEmpty(rs[1..]);
      assert rs[0].pages == 0 && (forall j :: 0 <= j < |rs[1..]| ==> rs[1..][j].pages == 0) ==>
          forall j :: 0 <= j < |rs| ==> rs[j].pages == 0 by {
        assert forall j :: 0 < j < |rs| ==> rs[j] == rs[1..][j - 1];
      }
      assert forall j :: 0 <= j < |rs[1..]| ==> rs[1..][j] == rs[j + 1];
    }
  }

  lemma {:induction false} LeadingIndices(rs: seq<Region>, k: nat)
    requires FirstNonEmpty(rs).Some? && k < FirstNonEmpty(rs).value.pages
    ensures k < Total(rs) && AddressOf(rs, k) == FirstNonEmpty(rs).value.base + k * PAGE_SIZE
  {
    if rs[0].pages == 0 {
      LeadingIndices(rs[1..], k);
    }
  }

  /** An address inside the bitmap, which starts where the first region with a page does. */
  predicate InBitmap(rs: seq<Region>, addr: nat) {
    && FirstNonEmpty(rs).Some?
    && FirstNonEmpty(rs).value.base <= addr < FirstNonEmpty(rs).value.base + BitmapSize(rs)
  }

  /** The bit that stands for an address is one of the leading bits, which pmm_init sets. */
  predicate Leading(rs: seq<Region>, addr: nat) {
    IndexOf(rs, addr).Some? && IndexOf(rs, addr).value < BitmapPages(rs)
  }

  /** Every page of the bitmap has a leading bit. The code does not test this: it looks
      neither at the size of the region nor at what follows it. */
  predicate BitmapFits(rs: seq<Region>) {
    FirstNonEmpty(rs).Some? ==>
      forall k: nat :: k < BitmapPages(rs) ==> Leading(rs, After(FirstNonEmpty(rs).value.base, k))
  }

  /** The bits that pmm_init sets stand for every byte of the bitmap exactly when each
      of the bitmap's pages has a leading bit. */
  lemma BitmapFitsIff(rs: seq<Region>)
    requires WellFormed(rs)
    ensures BitmapFits(rs) <==> forall addr :: InBitmap(rs, addr) ==> Leading(rs, addr)
  {
    hide Total, IndexOf, AddressOf, WellFormed, BitmapPages, BitmapSize;
    if BitmapFits(rs) {
      forall addr | InBitmap(rs, addr) ensures Leading(rs, addr) {
        BytePage(rs, addr);
      }
    } else {
      var k: nat :| k < BitmapPages(rs) && !Leading(rs, After(FirstNonEmpty(rs).value.base, k));
      PageInBitmap(rs, k);
    }
  }

  /** A byte of the bitmap lies on one of its pages, and has the bit of that page. */
  lemma BytePage(rs: seq<Region>, addr: nat)
    requires WellFormed(rs) && InBitmap(rs, addr)
    ensures var k := (addr - FirstNonEmpty(rs).value.base) / PAGE_SIZE;
            k < BitmapPages(rs) && IndexOf(rs, addr) == IndexOf(rs, After(FirstNonEmpty(rs).value.base, k))
  {
    hide Total;
    var base := FirstNonEmpty(rs).value.base;
    BaseAligned(rs);
    SamePage(rs, addr);
    PageStart(base, addr);
  }

  lemma PageStart(base: nat, addr: nat)
    requires base % PAGE_SIZE == 0 && base <= addr
    ensures addr - addr % PAGE_SIZE == After(base, (addr - base) / PAGE_SIZE)
  {
  }

  lemma {:induction false} BaseAligned(rs: seq<Region>)
    requires WellFormed(rs) && FirstNonEmpty(rs).Some?
    ensures FirstNonEmpty(rs).value.base % PAGE_SIZE == 0
  {
    if rs[0].pages == 0 {
      BaseAligned(rs[1..]);
    }
  }

  /** Regions begin and end at page boundaries. */
  lemma {:induction false} SamePage(rs: seq<Region>, addr: nat)
    requires WellFormed(rs)
    ensures IndexOf(rs, addr - addr % PAGE_SIZE) == IndexOf(rs, addr)
  {
    if rs != [] {
      assert WellFormed(rs[1..]);
      SamePage(rs[1..], addr);
      assert rs[0].base % PAGE_SIZE == 0;
      hide WellFormed;
      StartInRegion(rs[0], addr);
    }
  }

  lemma StartInRegion(r: Region, addr: nat)
    requires r.base % PAGE_SIZE == 0
    ensures r.Contains(addr - addr % PAGE_SIZE) <==> r.Contains(addr)
    ensures r.Contains(addr) ==> (addr - addr % PAGE_SIZE - r.base) / PAGE_SIZE == (addr - r.base) / PAGE_SIZE
  {
    var q, b := addr / PAGE_SIZE, r.base / PAGE_SIZE;
    assert addr - addr % PAGE_SIZE == q * PAGE_SIZE && r.base == b * PAGE_SIZE;
    if r.base <= addr {
      assert addr - r.base == (q - b) * PAGE_SIZE + addr % PAGE_SIZE;
    }
  }

  lemma PageInBitmap(rs: seq<Region>, k: nat)
    requires FirstNonEmpty(rs).Some? && k < BitmapPages(rs)
    ensures InBitmap(rs, After(FirstNonEmpty(rs).value.base, k))
  {
    hide Total;
  }

  /** A first region with room for the bitmap is enough. */
  lemma LargeRegionFits(rs: seq<Region>)
    requires WellFormed(rs) && (FirstNonEmpty(rs).Some? ==> BitmapPages(rs) <= FirstNonEmpty(rs).value.pages)
    ensures BitmapFits(rs)
  {
    hide Total, IndexOf, AddressOf, WellFormed, BitmapPages;
    if FirstNonEmpty(rs).Some? {
      forall k: nat | k < BitmapPages(rs) ensures Leading(rs, After(FirstNonEmpty(rs).value.base, k)) {
        LeadingIndices(rs, k);
        IndexOfAddress(rs, k);
      }
    }
  }

  /** Then a frame with any other bit shares no byte with the bitmap. */
  lemma BitmapIsCovered(rs: seq<Region>, addr: nat, b: nat)
    requires WellFormed(rs) && BitmapFits(rs) && InBitmap(rs, addr) && BitmapPages(rs) <= b < Total(rs)
    ensures !(AddressOf(rs, b) <= addr < AddressOf(rs, b) + PAGE_SIZE)
  {
    hide Total, IndexOf, BitmapPages, InBitmap, BitmapFits;
    BitmapFitsIff(rs);
    if AddressOf(rs, b) <= addr < AddressOf(rs, b) + PAGE_SIZE {
      FrameOfByte(rs, addr, b);
    }
  }

  lemma FrameOfByte(rs: seq<Region>, addr: nat, b: nat)
    requires WellFormed(rs) && b < Total(rs) && AddressOf(rs, b) <= addr < AddressOf(rs, b) + PAGE_SIZE
    ensures IndexOf(rs, addr) == Some(b)
  {
    hide Total, IndexOf, AddressOf, WellFormed;
    var r := AddressInRegion(rs, b);
    IndexOfAddress(rs, b);
    SamePage(rs, addr);
    assert addr - addr % PAGE_SIZE == AddressOf(rs, b);
  }

  function TwoRegions(): seq<Region> { [Region(0x1000, 1), Region(0x10_0000, 0x1_0000)] }

  lemma TwoRegionsFacts()
    ensures var rs := TwoRegions();
            Total(rs) == 0x1_0001 && FirstNonEmpty(rs) == Some(rs[0]) && BitmapSize(rs) == 0x2001 && BitmapPages(rs) == 3
  {
    assert TwoRegions()[1..] == [Region(0x10_0000, 0x1_0000)] && TwoRegions()[1..][1..] == [];
  }

  /** One page followed by a large region elsewhere: the bitmap of three pages spills out
      of its region, onto memory that is in no region. */
  lemma BitmapCanSpill()
    ensures var rs := TwoRegions();
            && WellFormed(rs) && BitmapPages(rs) == 3 && InBitmap(rs, 0x2000) && IndexOf(rs, 0x2000) == None && !BitmapFits(rs)
  {
    var rs := TwoRegions();
    TwoRegionsFacts();
    assert rs[1..] == [Region(0x10_0000, 0x1_0000)] && rs[1..][1..] == [];
    assert !Leading(rs, 0x2000) && After(0x1000, 1) == 0x2000;
  }

  function ThreeRegions(): seq<Region> { [Region(0x1000, 1), Region(0x10_0000, 0x1_0000), Region(0x2000, 1)] }

  lemma ThreeRegionsFacts()
    ensures var rs := ThreeRegions();
            && Total(rs) == 0x1_0002 && FirstNonEmpty(rs) == Some(rs[0])
            && AddressOf(rs, 0x1_0001) == 0x2000 && IndexOf(rs, 0x2000) == Some(0x1_0001)
  {
    var rs := ThreeRegions();
    assert rs[1..] == [Region(0x10_0000, 0x1_0000), Region(0x2000, 1)];
    assert rs[1..][1..] == [Region(0x2000, 1)] && rs[1..][1..][1..] == [];
    assert Total(rs[1..][1..]) == 1;
    assert AddressOf(rs[1..][1..], 0) == 0x2000 && IndexOf(rs[1..][1..], 0x2000) == Some(0);
  }

  /** When the page after it is usable too, but listed last, the bitmap spills onto a page
      whose bit is not set. */
  lemma BitmapCanCoverFreePage()
    ensures var rs := ThreeRegions();
            && WellFormed(rs) && BitmapPages(rs) == 3 && InBitmap(rs, 0x2000)
            && 0x1_0001 < Total(rs) && AddressOf(rs, 0x1_0001) == 0x2000 && 0x1_0001 !in Range(BitmapPages(rs)) && !BitmapFits(rs)
  {
    hide Total, AddressOf, IndexOf, FirstNonEmpty;
    ThreeRegionsFacts();
    assert !Leading(ThreeRegions(), 0x2000) && After(0x1000, 1) == 0x2000;
  }

  // ---------------------------------------------------------------------------
  // The allocator itself

  function UsableRegions(memory: seq<MemoryRegion>): seq<Region> {
    if memory == [] then []
    else
      var m := memory[|memory| - 1];
      UsableRegions(memory[..|memory| - 1]) + (if m.kind.Usable? then [Region(m.base, m.length / PAGE_SIZE)] else [])
  }

  /** How many of the first n entries are usable. */
  function UsableBefore(memory: seq<MemoryRegion>, n: nat): nat
    requires n <= |memory|
  {
    if n == 0 then 0 else UsableBefore(memory, n - 1) + (if memory[n - 1].kind == Usable then 1 else 0)
  }

  lemma {:induction false} UsableBeforePrefix(memory: seq<MemoryRegion>, n: nat)
    requires n < |memory|
    ensures UsableBefore(memory[..|memory| - 1], n) == UsableBefore(memory, n)
  {
    if n > 0 {
      UsableBeforePrefix(memory, n - 1);
    }
  }

  /** Each usable entry has its region, in whole pages, in the order of the entries. */
  lemma {:induction false} RegionOfEntry(memory: seq<MemoryRegion>, j: nat)
    requires j < |memory| && memory[j].kind == Usable
    ensures UsableBefore(memory, j) < |UsableRegions(memory)|
    ensures UsableRegions(memory)[UsableBefore(memory, j)] == Region(memory[j].base, memory[j].length / 0x1000)
  {
    var before := memory[..|memory| - 1];
    UsableBeforePrefix(memory, j);
    if j < |memory| - 1 {
      assert before[j] == memory[j];
      RegionOfEntry(before, j);
    } else {
      RegionCount(before);
      assert UsableRegions(memory) == UsableRegions(before) + [Region(memory[j].base, memory[j].length / PAGE_SIZE)];
    }
  }

  /** There are no other regions. */
  lemma {:induction false} RegionCount(memory: seq<MemoryRegion>)
    ensures |UsableRegions(memory)| == UsableBefore(memory, |memory|)
  {
    if memory != [] {
      RegionCount(memory[..|memory| - 1]);
      UsableBeforePrefix(memory, |memory| - 1);
    }
  }

  lemma {:induction false} EntryOfRegion(memory: seq<MemoryRegion>, k: nat) returns (j: nat)
    requires k < |UsableRegions(memory)|
    ensures j < |memory| && memory[j].kind == Usable && UsableBefore(memory, j) == k
  {
    RegionCount(memory);
    j := |memory| - 1;
    var before := memory[..j];
    UsableBeforePrefix(memory, j);
    RegionCount(before);
    if k < |UsableRegions(before)| {
      j := EntryOfRegion(before, k);
      UsableBeforePrefix(memory, j);
    }
  }

  /** An address lies in a region exactly when it lies in the whole pages of a usable entry. */
  lemma RegionsAreUsable(memory: seq<MemoryRegion>, a: nat)
    ensures (exists k :: 0 <= k < |UsableRegions(memory)| && UsableRegions(memory)[k].Contains(a))
            <==> exists j :: 0 <= j < |memory| && WholePages(memory[j], a)
  {
    if k :| 0 <= k < |UsableRegions(memory)| && UsableRegions(memory)[k].Contains(a) {
      var j := EntryOfRegion(memory, k);
      RegionOfEntry(memory, j);
      assert WholePages(memory[j], a);
    }
    if j :| 0 <= j < |memory| && WholePages(memory[j], a) {
      RegionOfEntry(memory, j);
      assert UsableRegions(memory)[UsableBefore(memory, j)].Contains(a);
    }
  }

  predicate WholePages(m: MemoryRegion, a: nat) {
    m.kind == Usable && m.base <= a < m.base + m.length / 0x1000 * 0x1000
  }

  /** So no allocatable frame has a byte outside of usable memory. */
  lemma FramesAreUsable(memory: seq<MemoryRegion>, b: nat, a: nat)
    requires var rs := UsableRegions(memory); WellFormed(rs) && b < Total(rs) && AddressOf(rs, b) <= a < AddressOf(rs, b) + 0x1000
    ensures exists j :: 0 <= j < |memory| && WholePages(memory[j], a)
  {
    hide UsableRegions, WholePages, Total, AddressOf;
    var rs := UsableRegions(memory);
    FrameInRegion(rs, b, a);
    RegionsAreUsable(memory, a);
  }

  lemma FrameInRegion(rs: seq<Region>, b: nat, a: nat)
    requires WellFormed(rs) && b < Total(rs) && AddressOf(rs, b) <= a < AddressOf(rs, b) + 0x1000
    ensures exists k :: 0 <= k < |rs| && rs[k].Contains(a)
  {
    FrameOfByte(rs, a, b);
    IndexMeansContained(rs, a);
  }

  lemma {:induction false} IndexMeansContained(rs: seq<Region>, a: nat)
    requires IndexOf(rs, a).Some?
    ensures exists k :: 0 <= k < |rs| && rs[k].Contains(a)
  {
    if rs[0].Contains(a) {
    } else {
      IndexMeansContained(rs[1..], a);
      var k :| 0 <= k < |rs[1..]| && rs[1..][k].Contains(a);
      assert rs[k + 1].Contains(a);
    }
  }

  lemma {:induction false} TotalOfPrefix(rs: seq<Region>, i: nat)
    requires i < |rs|
    ensures Total(rs[..i + 1]) == Total(rs[..i]) + rs[i].pages
  {
    if i == 0 {
      assert rs[..1][1..] == [];
    } else {
      assert rs[..i + 1][1..] == rs[1..][..i] && rs[..i][1..] == rs[1..][..i - 1];
      TotalOfPrefix(rs[1..], i - 1);
    }
  }

  lemma {:induction false} FirstNonEmptySkips(rs: seq<Region>, i: nat)
    requires i <= |rs| && forall j :: 0 <= j < i ==> rs[j].pages == 0
    ensures FirstNonEmpty(rs) == FirstNonEmpty(rs[i..])
  {
    if i > 0 {
      FirstNonEmptySkips(rs[1..], i - 1);
      assert rs[1..][i - 1..] == rs[i..];
    } else {
      assert rs[0..] == rs;
    }
  }

  /** The bit that stands for an address is set. */
  predicate Marked(p: Pool, addr: nat) {
    IndexOf(p.regions, addr).Some? && IndexOf(p.regions, addr).value in p.used
  }

  lemma BitmapIsMarkedIff(rs: seq<Region>)
    requires WellFormed(rs)
    ensures BitmapFits(rs) <==> forall addr :: InBitmap(rs, addr) ==> Marked(Pool(rs, Range(BitmapPages(rs))), addr)
  {
    hide Total, IndexOf, WellFormed, BitmapPages, BitmapFits, InBitmap;
    BitmapFitsIff(rs);
    assert forall addr :: Leading(rs, addr) <==> Marked(Pool(rs, Range(BitmapPages(rs))), addr);
  }

  class Allocator {
    var usable: seq<Region>
    var pageCount: nat
    var bitmap: array<bv8>
    var bitmapPhys: nat
    ghost var used: set<nat>  // indices whose bit is set

    ghost predicate Valid()
      reads this, bitmap
    {
      State().Valid() && pageCount == Total(usable) && Shows(State(), bitmap[..])
    }

    ghost function State(): Pool
      reads this
    {
      Pool(usable, used)
    }

    constructor ()
      ensures Valid() && State() == Pool([], {})
    {
      usable, pageCount, bitmapPhys := [], 0, 0;
      bitmap := new bv8[0];
      used := {};
    }

    /** The first loop of pmm_init. */
    method FillRegions(memory: seq<MemoryRegion>)
      requires |UsableRegions(memory)| <= MAX_REGIONS
      modifies this`usable
      ensures usable == UsableRegions(memory)
    {
      usable := [];
      for i := 0 to |memory|
        invariant usable == UsableRegions(memory[..i])
      {
        assert memory[..i + 1][..i] == memory[..i];
        if memory[i].kind.Usable? {
          usable := usable + [Region(memory[i].base, memory[i].length / PAGE_SIZE)];
        }
      }
      assert memory[..|memory|] == memory;
    }

    /** False stands for the halt of the kernel when no region has a page. */
    method Init(memory: seq<MemoryRegion>) returns (ok: bool)
      requires WellFormed(UsableRegions(memory)) && |UsableRegions(memory)| <= MAX_REGIONS
      modifies this
      ensures ok <==> FirstNonEmpty(UsableRegions(memory)).Some?
      ensures ok ==> Valid() && fresh(bitmap)
      ensures ok ==> State() == Pool(UsableRegions(memory), Range(BitmapPages(usable)))
      ensures ok ==> bitmapPhys == FirstNonEmpty(usable).value.base && bitmap.Length == BitmapSize(usable)
      ensures ok ==> (BitmapFits(usable) <==> forall addr :: InBitmap(usable, addr) ==> Marked(State(), addr))
    {
      hide IndexOf, AddressOf, BitmapFits, Marked, InBitmap, Shows;
      pageCount := 0;
      FillRegions(memory);
      assert usable[..0] == [];
      for i := 0 to |usable|
        invariant usable == UsableRegions(memory)
        invariant i <= |usable| && pageCount == Total(usable[..i])
      {
        TotalOfPrefix(usable, i);
        pageCount := pageCount + usable[i].pages;
      }
      assert usable[..|usable|] == usable;
      ok := false;
      for i := 0 to |usable|
        invariant usable == UsableRegions(memory) && pageCount == Total(usable)
        invariant !ok && i <= |usable| && forall j :: 0 <= j < i ==> usable[j].pages == 0
      {
        FirstNonEmptySkips(usable, i);
        if usable[i].pages * PAGE_SIZE != 0 {
          bitmapPhys, ok := usable[i].base, true;
          break;
        }
      }
      if !ok {
        FirstNonEmptySkips(usable, |usable|);
        return;
      }
      LeadingIndices(usable, 0);
      InitBitmap();
      BitmapIsMarkedIff(usable);
    }

    method InitBitmap()
      requires WellFormed(usable) && pageCount == Total(usable) > 0
      modifies this`bitmap, this`used
      ensures Valid() && fresh(bitmap) && bitmap.Length == BitmapSize(usable)
      ensures used == Range(BitmapPages(usable))
    {
      var size := (pageCount + 7) / 8;
      bitmap := new bv8[size];
      for i := 0 to size
        invariant fresh(bitmap) && bitmap.Length == size
        invariant forall j :: 0 <= j < i ==> bitmap[j] == 0
      {
        bitmap[i] := 0;
      }
      used := {};
      ZeroBytes(bitmap[..]);
      BitmapPagesFit(pageCount);
      hide Test;
      SetFirst((size + PAGE_SIZE - 1) / PAGE_SIZE);
    }

    /** The last loop of pmm_init. */
    method SetFirst(bitmapPages: nat)
      requires Valid() && used == {} && bitmapPages <= pageCount
      modifies this`used, bitmap
      ensures Valid() && used == Range(bitmapPages)
    {
      hide Test, Set, Total, WellFormed;
      for i := 0 to bitmapPages
        invariant Valid() && used == Range(i)
      {
        SetBit(i);
      }
    }

    method SetBit(bit: nat)
      requires Valid() && bit < pageCount
      modifies this`used, bitmap
      ensures Valid() && used == old(used) + {bit}
      ensures bitmap[..] == Set(old(bitmap[..]), bit)
    {
      hide SetIn, Test;
      bitmap[bit / 8] := SetIn(bitmap[bit / 8], bit % 8);
      used := used + {bit};
      forall b | 0 <= b < pageCount ensures b in used <==> Test(bitmap[..], b) {
        BitFrame(old(bitmap[..]), bit, b);
      }
    }

    method ClearBit(bit: nat)
      requires Valid() && bit < pageCount
      modifies this`used, bitmap
      ensures Valid() && used == old(used) - {bit}
      ensures bitmap[..] == Clear(old(bitmap[..]), bit)
    {
      hide ClearIn, Test;
      bitmap[bit / 8] := ClearIn(bitmap[bit / 8], bit % 8);
      used := used - {bit};
      forall b | 0 <= b < pageCount ensures b in used <==> Test(bitmap[..], b) {
        BitFrame(old(bitmap[..]), bit, b);
      }
    }

    /** The walk over the regions that turns an index into the address of a page. */
    method PageAt(bitmapIndex: nat) returns (page: nat)
      requires bitmapIndex < Total(usable)
      ensures page == AddressOf(usable, bitmapIndex)
    {
      var index: nat, i := bitmapIndex, 0;
      assert usable[0..] == usable;
      while i < |usable|
        invariant i <= |usable| && index < Total(usable[i..])
        invariant AddressOf(usable, bitmapIndex) == AddressOf(usable[i..], index)
      {
        assert usable[i..][1..] == usable[i + 1..];
        if index < usable[i].pages {
          return usable[i].base + index * PAGE_SIZE;
        }
        index := index - usable[i].pages;
        i := i + 1;
      }
    }

    method AllocPage() returns (page: nat)
      requires Valid()
      modifies this`used, bitmap
      ensures Valid()
      ensures (State(), page) == Alloc(old(State()))
      ensures old(State()).Full() ==> bitmap[..] == old(bitmap[..])
      ensures !old(State()).Full() ==> bitmap[..] == Set(old(bitmap[..]), old(State()).Lowest())
    {
      var bitmapIndex: nat := 0;
      while bitmapIndex < pageCount
        invariant bitmapIndex <= pageCount
        invariant forall b :: 0 <= b < bitmapIndex ==> b in used
        invariant Valid() && used == old(used) && bitmap[..] == old(bitmap[..])
      {
        if !Test(bitmap[..], bitmapIndex) {
          assert State().Lowest() == bitmapIndex;
          SetBit(bitmapIndex);
          page := PageAt(bitmapIndex);
          return;
        }
        bitmapIndex := bitmapIndex + 1;
      }
      page := 0;
    }

    /** `valid` is false when the invalid-free message is printed. */
    method FreePage(page: nat) returns (valid: bool)
      requires Valid()
      modifies this`used, bitmap
      ensures Valid()
      ensures State() == Release(old(State()), page)
      ensures valid <==> page == 0 || IndexOf(usable, page).Some?
      ensures page == 0 || IndexOf(usable, page).None? ==> bitmap[..] == old(bitmap[..])
      ensures page != 0 && IndexOf(usable, page).Some? ==>
                IndexOf(usable, page).value < pageCount && bitmap[..] == Clear(old(bitmap[..]), IndexOf(usable, page).value)
    {
      hide WellFormed, Test, Clear;
      if page == 0 {
        return true;
      }
      var bitmapIndex: nat, i := 0, 0;
      assert usable[0..] == usable;
      valid := false;
      while i < |usable|
        modifies {}
        invariant i <= |usable|
        invariant IndexOf(usable, page) == Shift(IndexOf(usable[i..], page), bitmapIndex)
      {
        assert usable[i..][1..] == usable[i + 1..];
        if usable[i].Contains(page) {
          bitmapIndex, valid := bitmapIndex + (page - usable[i].base) / PAGE_SIZE, true;
          break;
        }
        bitmapIndex := bitmapIndex + usable[i].pages;
        i := i + 1;
      }
      if valid {
        assert IndexOf(usable, page) == Some(bitmapIndex);
        IndexInRange(usable, page);
        ClearBit(bitmapIndex);
      }
    }
  }
}
