// 64-bit words as natural numbers: constants of the paging hardware and the
// bitwise operations the memory code applies to addresses and entries.
module Words {

  const PAGE_SIZE: nat := 4096
  const WORD: nat := 0x1_0000_0000_0000_0000
  /** Physical addresses have at most 52 bits on x86-64. */
  const PHYS_LIMIT: nat := 0x10_0000_0000_0000
  const NO_EXECUTE: nat := 0x8000_0000_0000_0000

  datatype Option<+T> = None | Some(value: T)

  function Pow2(k: nat): (p: nat)
    ensures p > 0
  {
    if k == 0 then 1 else 2 * Pow2(k - 1)
  }

  /** The address i pages after another. */
  function After(addr: nat, i: nat): nat { addr + i * PAGE_SIZE }

  /** Bitwise or, one bit at a time. */
  function Or(a: nat, b: nat): nat
    decreases a + b
  {
    if a == 0 && b == 0 then 0
    else 2 * Or(a / 2, b / 2) + (if a % 2 == 1 || b % 2 == 1 then 1 else 0)
  }

  lemma {:induction false} OrZero(a: nat)
    ensures Or(a, 0) == a && Or(0, a) == a
  {
    if a > 0 {
      OrZero(a / 2);
    }
  }

  lemma OrUnfold(a: nat, b: nat)
    ensures Or(a, b) == 2 * Or(a / 2, b / 2) + (if a % 2 == 1 || b % 2 == 1 then 1 else 0)
  {
  }

  /** Bit k of a word. */
  predicate Bit(x: nat, k: nat)
    decreases k
  {
    if k == 0 then x % 2 == 1 else Bit(x / 2, k - 1)
  }

  /** Each bit of the or is the or of the bits. */
  lemma {:induction false} OrBits(a: nat, b: nat, k: nat)
    ensures Bit(Or(a, b), k) <==> Bit(a, k) || Bit(b, k)
    decreases k
  {
    OrUnfold(a, b);
    hide Or;
    if k > 0 {
      OrBits(a / 2, b / 2, k - 1);
    }
  }

  lemma OrDoubled(a: nat, b: nat, c: nat, d: nat, o: nat)
    requires Or(a / 2 + c, b / 2 + d) == Or(a / 2, b / 2) + o
    ensures Or(a + 2 * c, b + 2 * d) == Or(a, b) + 2 * o
  {
    OrUnfold(a, b);
    OrUnfold(a + 2 * c, b + 2 * d);
    assert (a + 2 * c) / 2 == a / 2 + c && (b + 2 * d) / 2 == b / 2 + d;
    assert (a + 2 * c) % 2 == a % 2 && (b + 2 * d) % 2 == b % 2;
  }

  /** c shifted left by k bits. */
  function Shl(c: nat, k: nat): nat {
    if k == 0 then c else 2 * Shl(c, k - 1)
  }

  lemma {:induction false} ShlIsProduct(c: nat, k: nat)
    ensures Shl(c, k) == c * Pow2(k)
  {
    if k > 0 {
      ShlIsProduct(c, k - 1);
      DoubleProduct(c, Pow2(k - 1));
    }
  }

  lemma DoubleProduct(c: nat, p: nat)
    ensures c * (2 * p) == 2 * (c * p)
  {
  }

  /** Or works on the low k bits and on the remaining high bits separately. */
  lemma {:induction false} OrSplit(a: nat, b: nat, c: nat, d: nat, k: nat)
    requires a < Pow2(k) && b < Pow2(k)
    ensures Or(a + Shl(c, k), b + Shl(d, k)) == Or(a, b) + Shl(Or(c, d), k)
  {
    if k > 0 {
      hide Or;
      OrSplit(a / 2, b / 2, c, d, k - 1);
      OrDoubled(a, b, Shl(c, k - 1), Shl(d, k - 1), Shl(Or(c, d), k - 1));
    }
  }

  lemma PowerValues()
    ensures Pow2(12) == 4096 && Pow2(51) == 0x8_0000_0000_0000
  {
    assert Pow2(6) == 64;
    assert Pow2(12) == 4096;
    assert Pow2(18) == 0x4_0000;
    assert Pow2(24) == 0x100_0000;
    assert Pow2(30) == 0x4000_0000;
    assert Pow2(36) == 0x10_0000_0000;
    assert Pow2(42) == 0x400_0000_0000;
    assert Pow2(48) == 0x1_0000_0000_0000;
    assert Pow2(51) == 0x8_0000_0000_0000;
  }

  /** Flag bits sit in bits 0-11 and 63, clear of every page-aligned physical address. */
  predicate FlagBits(flags: nat) {
    flags % NO_EXECUTE < PAGE_SIZE && flags / NO_EXECUTE <= 1
  }

  predicate FrameAddress(phys: nat) {
    phys % PAGE_SIZE == 0 && phys < PHYS_LIMIT
  }

  /** Oring a frame address with flag bits is addition: no bit is shared. */
  lemma OrIsSum(phys: nat, flags: nat)
    requires FrameAddress(phys) && FlagBits(flags)
    ensures Or(phys, flags) == phys + flags
  {
    var p, f, n := phys / 4096, flags % NO_EXECUTE, flags / NO_EXECUTE;
    OrHigh(p, n);
    OrLow(p, f, n);
  }

  lemma OrHigh(p: nat, n: nat)
    requires p < 0x100_0000_0000
    ensures Or(p, n * 0x8_0000_0000_0000) == p + n * 0x8_0000_0000_0000
  {
    PowerValues();
    ShlIsProduct(n, 51);
    ShlIsProduct(0, 51);
    OrSplit(p, 0, 0, n, 51);
    OrZero(p);
    OrZero(n);
  }

  lemma OrLow(p: nat, f: nat, n: nat)
    requires f < 4096 && Or(p, n * 0x8_0000_0000_0000) == p + n * 0x8_0000_0000_0000
    ensures Or(p * 4096, f + n * NO_EXECUTE) == p * 4096 + f + n * NO_EXECUTE
  {
    PowerValues();
    var h := n * 0x8_0000_0000_0000;
    ShlIsProduct(p, 12);
    ShlIsProduct(h, 12);
    ShlIsProduct(p + h, 12);
    OrSplit(0, f, p, h, 12);
    OrZero(f);
  }
}
