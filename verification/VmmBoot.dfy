// What the boot loader and the two initialisers leave: from it every run of the page
// tables starts.
module VmmBoot {
  import opened Words
  import opened Pmm
  import opened Vmm

  /** The word at an address after its low k bytes were written where the bytes cover them. */
  function Overlay(word: nat, addr: nat, base: nat, bytes: seq<bv8>, k: nat): nat
    decreases k
  {
    if k == 0 then word
    else
      var low: nat := if base <= addr < base + |bytes| then bytes[addr - base] as nat else word % 256;
      low + 256 * Overlay(word / 256, addr + 1, base, bytes, k - 1)
  }

  function OverlayRow(row: seq<nat>, frame: nat, base: nat, bytes: seq<bv8>): (r: seq<nat>)
    ensures |r| == |row|
  {
    seq(|row|, i requires 0 <= i < |row| => Overlay(row[i], frame + 8 * i, base, bytes, 8))
  }

  /** Memory after the bytes were written from an address on, through all frames they reach. */
  function Stored(mem: map<nat, seq<nat>>, base: nat, bytes: seq<bv8>): map<nat, seq<nat>> {
    map t | t in mem :: OverlayRow(mem[t], t, base, bytes)
  }

  lemma {:induction false} OverlayElsewhere(word: nat, addr: nat, base: nat, bytes: seq<bv8>, k: nat)
    requires addr + k <= base || base + |bytes| <= addr || bytes == []
    ensures Overlay(word, addr, base, bytes, k) == word
    decreases k
  {
    if k > 0 {
      OverlayElsewhere(word / 256, addr + 1, base, bytes, k - 1);
    }
  }

  /** Byte j of a word, the lowest first. */
  function ByteOf(word: nat, j: nat): nat
    decreases j
  {
    if j == 0 then word % 256 else ByteOf(word / 256, j - 1)
  }

  /** The bytes that are written lie at their addresses, and the others stay. */
  lemma {:induction false} OverlayBytes(word: nat, addr: nat, base: nat, bytes: seq<bv8>, k: nat, j: nat)
    requires j < k
    ensures ByteOf(Overlay(word, addr, base, bytes, k), j)
            == if base <= addr + j < base + |bytes| then bytes[addr + j - base] as nat else ByteOf(word, j)
    decreases k
  {
    OverlayUnfold(word, addr, base, bytes, k);
    hide Overlay;
    if j > 0 {
      OverlayBytes(word / 256, addr + 1, base, bytes, k - 1, j - 1);
    }
  }

  lemma OverlayUnfold(word: nat, addr: nat, base: nat, bytes: seq<bv8>, k: nat)
    requires k > 0
    ensures var w := Overlay(word, addr, base, bytes, k);
            && w % 256 == (if base <= addr < base + |bytes| then bytes[addr - base] as nat else word % 256)
            && w / 256 == Overlay(word / 256, addr + 1, base, bytes, k - 1)
  {
    var low: nat := if base <= addr < base + |bytes| then bytes[addr - base] as nat else word % 256;
    var rest := Overlay(word / 256, addr + 1, base, bytes, k - 1);
    assert Overlay(word, addr, base, bytes, k) == low + 256 * rest;
    hide Overlay;
    SplitByte(low, rest);
  }

  lemma SplitByte(low: nat, rest: nat)
    requires low < 256
    ensures (low + 256 * rest) % 256 == low && (low + 256 * rest) / 256 == rest
  {
  }

  /** A frame that the bytes do not reach is as it was. */
  lemma StoredElsewhere(mem: map<nat, seq<nat>>, base: nat, bytes: seq<bv8>, t: nat)
    requires t in mem && |mem[t]| == ENTRIES && forall addr :: base <= addr < base + |bytes| ==> !Holds(t, addr)
    ensures Stored(mem, base, bytes)[t] == mem[t]
  {
    hide Overlay;
    assert t + PAGE_SIZE <= base || base + |bytes| <= t || bytes == [] by {
      ApartFrom(t, base, |bytes|);
    }
    forall i | 0 <= i < ENTRIES ensures Overlay(mem[t][i], t + 8 * i, base, bytes, 8) == mem[t][i] {
      OverlayElsewhere(mem[t][i], t + 8 * i, base, bytes, 8);
    }
  }

  lemma ApartFrom(t: nat, base: nat, n: nat)
    requires forall addr :: base <= addr < base + n ==> !Holds(t, addr)
    ensures t + PAGE_SIZE <= base || base + n <= t || n == 0
  {
    if n > 0 {
      var addr := if base < t then t else base;
      assert addr < base + n ==> !Holds(t, addr);
    }
  }

  function BitmapBase(rs: seq<Region>): nat {
    if FirstNonEmpty(rs).Some? then FirstNonEmpty(rs).value.base else 0
  }

  /** The machine with its bitmap's own pages in use and every other page free. */
  function Loaded(mem: map<nat, seq<nat>>, root: nat, rs: seq<Region>, at: map<Loc, nat>): Vm {
    Vm(mem, root, Pool(rs, Range(BitmapPages(rs))), at, map b | b in Range(BitmapPages(rs)) :: Bitmap)
  }

  /** What pmm_init and vmm_init make of the boot loader's memory: the bytes of the bitmap
      have been written over it. */
  function Booted(mem: map<nat, seq<nat>>, root: nat, rs: seq<Region>, at: map<Loc, nat>, bytes: seq<bv8>): Vm {
    Loaded(Stored(mem, BitmapBase(rs), bytes), root, rs, at)
  }

  /** The boot loader's tables are a tree without huge pages in memory that is not
      usable; usable memory is there, and physical page 0 can only hold the bitmap. */
  ghost predicate Bootable(mem: map<nat, seq<nat>>, root: nat, rs: seq<Region>, at: map<Loc, nat>) {
    && WellFormed(rs) && Tables(Loaded(mem, root, rs, at)) && Linked(Loaded(mem, root, rs, at))
    && (forall l :: l in at ==> IndexOf(rs, at[l]).None?)
    && (forall b :: 0 <= b < Total(rs) ==> AddressOf(rs, b) in mem && |mem[AddressOf(rs, b)]| == ENTRIES)
    && (forall b :: BitmapPages(rs) <= b < Total(rs) ==> AddressOf(rs, b) != 0)
  }

  /** When the bitmap fits, writing it leaves the boot loader's tables alone, and what the
      two initialisers leave satisfies the invariant. */
  lemma BootKeeps(mem: map<nat, seq<nat>>, root: nat, rs: seq<Region>, at: map<Loc, nat>, bytes: seq<bv8>)
    requires Bootable(mem, root, rs, at) && BitmapFits(rs) && |bytes| == BitmapSize(rs)
    ensures Inv(Booted(mem, root, rs, at, bytes))
  {
    hide AddressOf, IndexOf, Total, Linked, Tables, BitmapPages, WellFormed, BitmapFits, Stored, BitmapBase, BitmapSize, Backed, Owned, Reserved;
    var mem', s := Stored(mem, BitmapBase(rs), bytes), Booted(mem, root, rs, at, bytes);
    StoredLengths(mem, BitmapBase(rs), bytes);
    LoadedOwns(mem', root, rs, at);
    forall l | l in at ensures at[l] in mem && at[l] in mem' && mem'[at[l]] == mem[at[l]] {
      TableSpared(mem, root, rs, at, bytes, l);
    }
    SameTables(Loaded(mem, root, rs, at), s);
  }

  lemma StoredLengths(mem: map<nat, seq<nat>>, base: nat, bytes: seq<bv8>)
    ensures forall t :: t in mem ==> t in Stored(mem, base, bytes) && |Stored(mem, base, bytes)[t]| == |mem[t]|
  {
    hide Overlay;
  }

  lemma LoadedOwns(mem: map<nat, seq<nat>>, root: nat, rs: seq<Region>, at: map<Loc, nat>)
    requires WellFormed(rs) && forall l :: l in at ==> IndexOf(rs, at[l]).None?
    requires forall b :: 0 <= b < Total(rs) ==> AddressOf(rs, b) in mem && |mem[AddressOf(rs, b)]| == ENTRIES
    requires forall b :: BitmapPages(rs) <= b < Total(rs) ==> AddressOf(rs, b) != 0
    ensures var s := Loaded(mem, root, rs, at); Backed(s) && Owned(s) && Reserved(s)
  {
    var s := Loaded(mem, root, rs, at);
    hide AddressOf, IndexOf, Total, BitmapPages, WellFormed;
    BitmapInPool(rs);
    assert s.owner.Keys == s.pool.used;
  }

  /** What the boot loader has to provide, bit by bit: a tree of distinct tables outside of
      usable memory, at most four levels deep, whose inner entries are not present or
      the address of the table below and no large page. */
  lemma TreeIsBootable(mem: map<nat, seq<nat>>, root: nat, rs: seq<Region>, at: map<Loc, nat>)
    requires forall i :: 0 <= i < |rs| ==> rs[i].base % 0x1000 == 0 && rs[i].base + rs[i].pages * 0x1000 <= 0x10_0000_0000_0000
    requires forall i, j :: 0 <= i < j < |rs| ==>
               rs[i].base + rs[i].pages * 0x1000 <= rs[j].base || rs[j].base + rs[j].pages * 0x1000 <= rs[i].base
    requires Root in at && at[Root] == root
    requires forall l :: l in at ==>
               && at[l] != 0 && at[l] % 0x1000 == 0 && at[l] < 0x10_0000_0000_0000 && IndexOf(rs, at[l]).None?
               && at[l] in mem && |mem[at[l]]| == 512
    requires forall l :: l in at ==> Depth(l) <= 3
    requires forall l {:trigger l.up} :: l in at && l.Child? ==> l.up in at && l.index < 512
    requires forall l, m :: l in at && m in at && l != m ==> at[l] != at[m]
    requires forall l, i: nat :: l in at && Depth(l) < 3 && i < 512 ==>
               var e := Read(mem, at[l], i);
               if e % 2 == 1 then Child(l, i) in at && at[Child(l, i)] == e % 0x10_0000_0000_0000 / 0x1000 * 0x1000 && e / 0x80 % 2 == 0
               else Child(l, i) !in at
    requires forall b :: 0 <= b < Total(rs) ==> AddressOf(rs, b) in mem && |mem[AddressOf(rs, b)]| == 512
    requires forall b :: BitmapPages(rs) <= b < Total(rs) ==> AddressOf(rs, b) != 0
    ensures Bootable(mem, root, rs, at)
  {
    hide AddressOf, IndexOf, Total, BitmapPages, Depth, Read;
    assert WellFormed(rs);
    assert Hung(at);
    assert Framed(at, mem);
  }

  /** If all inner entries of the boot loader's tables allow writing, so does the machine at boot. */
  lemma BootWritable(mem: map<nat, seq<nat>>, root: nat, rs: seq<Region>, at: map<Loc, nat>, bytes: seq<bv8>)
    requires Bootable(mem, root, rs, at) && BitmapFits(rs) && |bytes| == BitmapSize(rs)
    requires forall l, i: nat :: l in at && Depth(l) < 3 && i < 512 && Read(mem, at[l], i) % 2 == 1 ==> Read(mem, at[l], i) % 4 == 3
    ensures Writable(Booted(mem, root, rs, at, bytes))
  {
    hide AddressOf, IndexOf, Total, Linked, Tables, BitmapPages, WellFormed, BitmapFits, Stored, BitmapBase, BitmapSize, Depth, Bootable;
    forall l | l in at ensures at[l] in mem && at[l] in Stored(mem, BitmapBase(rs), bytes) && Stored(mem, BitmapBase(rs), bytes)[at[l]] == mem[at[l]] {
      TableSpared(mem, root, rs, at, bytes, l);
    }
    var mem' := Stored(mem, BitmapBase(rs), bytes);
    assert forall l, i: nat :: l in at ==> Read(mem', at[l], i) == Read(mem, at[l], i);
    hide Read;
    var s := Booted(mem, root, rs, at, bytes);
    assert s.mem == mem' && s.at == at;
  }

  lemma TableSpared(mem: map<nat, seq<nat>>, root: nat, rs: seq<Region>, at: map<Loc, nat>, bytes: seq<bv8>, l: Loc)
    requires Bootable(mem, root, rs, at) && BitmapFits(rs) && |bytes| == BitmapSize(rs) && l in at
    ensures at[l] in mem && |mem[at[l]]| == ENTRIES
    ensures at[l] in Stored(mem, BitmapBase(rs), bytes) && Stored(mem, BitmapBase(rs), bytes)[at[l]] == mem[at[l]]
  {
    hide AddressOf, IndexOf, Total, Linked, BitmapPages, WellFormed, BitmapFits, Stored, BitmapSize, Holds;
    assert at[l] in mem && |mem[at[l]]| == ENTRIES && at[l] % PAGE_SIZE == 0;
    StoredLengths(mem, BitmapBase(rs), bytes);
    NothingToStore(rs);
    forall addr | BitmapBase(rs) <= addr < BitmapBase(rs) + |bytes| ensures !Holds(at[l], addr) {
      assert InBitmap(rs, addr);
      BitmapFitsIff(rs);
      if Holds(at[l], addr) {
        FrameHoldsByte(rs, addr, at[l]);
      }
    }
    StoredElsewhere(mem, BitmapBase(rs), bytes, at[l]);
  }

  lemma NothingToStore(rs: seq<Region>)
    ensures FirstNonEmpty(rs).None? ==> BitmapSize(rs) == 0
  {
    NoPagesNoTotal(rs);
  }

  lemma {:induction false} NoPagesNoTotal(rs: seq<Region>)
    ensures FirstNonEmpty(rs).None? ==> Total(rs) == 0
  {
    if rs != [] {
      NoPagesNoTotal(rs[1..]);
    }
  }

  lemma PowerStep(k: nat)
    requires k > 0
    ensures Pow2(8 * k) == 256 * Pow2(8 * (k - 1))
  {
    hide Pow2;
    var n := 8 * (k - 1);
    FourTimes(n);
    FourTimes(n + 2);
    FourTimes(n + 4);
    FourTimes(n + 6);
  }

  lemma FourTimes(n: nat)
    ensures Pow2(n + 2) == 4 * Pow2(n)
  {
    assert Pow2(n + 1) == 2 * Pow2(n);
    assert Pow2(n + 2) == 2 * Pow2(n + 1);
  }

  lemma {:induction false} OverlayZeros(word: nat, addr: nat, base: nat, bytes: seq<bv8>, k: nat)
    requires base <= addr && addr + k <= base + |bytes| && word < Pow2(8 * k)
    requires forall j :: addr - base <= j < addr - base + k ==> bytes[j] == 0
    ensures Overlay(word, addr, base, bytes, k) == 0
    decreases k
  {
    if k > 0 {
      PowerStep(k);
      OverlayZeros(word / 256, addr + 1, base, bytes, k - 1);
    }
  }

  /** Behind its first byte, the bitmap of these two regions starts out clear. */
  lemma SpilledBytes(bytes: seq<bv8>, j: nat)
    requires var rs := TwoRegions(); |bytes| == BitmapSize(rs) && Shows(Pool(rs, Range(BitmapPages(rs))), bytes)
    requires 0x1000 <= j < 0x2000
    ensures |bytes| == 0x2001 && bytes[j] == 0
  {
    hide Total, Test, Range;
    TwoRegionsFacts();
    forall b: nat | 8 * j <= b < 8 * j + 8 ensures !Test(bytes, b) {
      assert b !in Range(3);
    }
    ZeroByte(bytes, j);
  }

  /** A region of one page with a root table in the memory right after it, and a large
      region further on: writing the bitmap that pmm_init starts with clears the whole
      root table. */
  lemma BitmapCanClearRoot(mem: map<nat, seq<nat>>, bytes: seq<bv8>, i: nat)
    requires var rs := TwoRegions(); |bytes| == BitmapSize(rs) && Shows(Pool(rs, Range(BitmapPages(rs))), bytes)
    requires 0x2000 in mem && |mem[0x2000]| == ENTRIES && i < ENTRIES && mem[0x2000][i] < WORD
    ensures var rs := TwoRegions();
            && WellFormed(rs) && IndexOf(rs, 0x2000) == None && !BitmapFits(rs)
            && Read(Stored(mem, BitmapBase(rs), bytes), 0x2000, i) == 0
  {
    hide Total, IndexOf, AddressOf, Shows, Overlay, WellFormed, BitmapFits, BitmapPages, BitmapSize, Pow2;
    BitmapCanSpill();
    TwoRegionsFacts();
    forall j | 0x1000 <= j < 0x2000 ensures |bytes| == 0x2001 && bytes[j] == 0 {
      SpilledBytes(bytes, j);
    }
    WordPower();
    OverlayZeros(mem[0x2000][i], 0x2000 + 8 * i, 0x1000, bytes, 8);
  }

  lemma WordPower()
    ensures Pow2(64) == WORD
  {
    PowerStep(8);
    PowerStep(7);
    PowerValues();
    assert Pow2(48) == 0x1_0000_0000_0000;
  }

  /** Tables and links depend on the tables' memory only. */
  lemma SameTables(s: Vm, s': Vm)
    requires Tables(s) && Linked(s) && s'.root == s.root && s'.at == s.at
    requires forall l :: l in s.at ==> s.at[l] in s.mem && s.at[l] in s'.mem && s'.mem[s.at[l]] == s.mem[s.at[l]]
    ensures Tables(s') && Linked(s')
  {
    hide Address, Present, Huge, FrameAddress, Depth, Hung;
    assert forall l, i: nat :: l in s.at ==> Read(s'.mem, s.at[l], i) == Read(s.mem, s.at[l], i);
  }

  lemma BitmapInPool(rs: seq<Region>)
    ensures BitmapPages(rs) <= Total(rs)
  {
    if Total(rs) > 0 {
      BitmapPagesFit(Total(rs));
    }
  }
}
