/** 64-bit words as used by the packed masks: numbers below 2^64 with the
    bitwise operators of a `u64`, and what each operator does to every bit. */
module Bits {

  type u64 = w: int | 0 <= w <= 0xFFFF_FFFF_FFFF_FFFF

  const U64_MAX: u64 := 0xFFFF_FFFF_FFFF_FFFF
  const TOP_BIT: u64 := 0x8000_0000_0000_0000

  function Pow2(n: nat): (p: nat)
    ensures 0 < p
  {
    if n == 0 then 1 else 2 * Pow2(n - 1)
  }

  /** Bit `j` of `w`, counted from the least significant. */
  predicate Bit(w: nat, j: nat) {
    if j == 0 then w % 2 == 1 else Bit(w / 2, j - 1)
  }

  function Or(a: nat, b: nat): nat
    decreases a + b
  {
    if a == 0 && b == 0 then 0
    else (if a % 2 == 1 || b % 2 == 1 then 1 else 0) + 2 * Or(a / 2, b / 2)
  }

  function And(a: nat, b: nat): (r: nat)
    ensures r <= a && r <= b
  {
    if a == 0 || b == 0 then 0
    else (if a % 2 == 1 && b % 2 == 1 then 1 else 0) + 2 * And(a / 2, b / 2)
  }

  /** `w | v` on words. */
  function OrWord(w: u64, v: u64): u64 {
    WordBounds();
    OrFits(w, v, 64);
    Or(w, v)
  }

  /** `w << 1` on a word: the top bit falls off. */
  function Shl1(w: u64): u64 {
    if w >= TOP_BIT then 2 * (w - TOP_BIT) else 2 * w
  }

  /** `w << s`. */
  function Shl(w: u64, s: nat): u64 {
    if s == 0 then w else Shl1(Shl(w, s - 1))
  }

  /** `w >> s`. */
  function Shr(w: u64, s: nat): u64 {
    if s == 0 then w else Shr(w / 2, s - 1)
  }

  /** The sizes of a word and of its top bit, as powers of two. */
  lemma WordBounds()
    ensures Pow2(63) == TOP_BIT && Pow2(64) == U64_MAX + 1
  {
    Pow2Byte(0); Pow2Byte(8); Pow2Byte(16); Pow2Byte(24);
    Pow2Byte(32); Pow2Byte(40); Pow2Byte(48);
    assert Pow2(64) == 2 * Pow2(63);
    Pow2Byte(56);
  }

  lemma Pow2Byte(n: nat)
    ensures Pow2(n + 8) == 256 * Pow2(n)
  {
    assert Pow2(n + 4) == 16 * Pow2(n) by {
      assert Pow2(n + 2) == 4 * Pow2(n);
      assert Pow2(n + 4) == 2 * Pow2(n + 3) == 4 * Pow2(n + 2);
    }
    assert Pow2(n + 6) == 2 * Pow2(n + 5) == 4 * Pow2(n + 4);
    assert Pow2(n + 8) == 2 * Pow2(n + 7) == 4 * Pow2(n + 6);
  }

  lemma {:induction false} OrFits(a: nat, b: nat, n: nat)
    requires a < Pow2(n) && b < Pow2(n)
    ensures Or(a, b) < Pow2(n)
    decreases n
  {
    if n > 0 { OrFits(a / 2, b / 2, n - 1); }
  }

  lemma {:induction false} OrBit(a: nat, b: nat, j: nat)
    ensures Bit(Or(a, b), j) == (Bit(a, j) || Bit(b, j))
    decreases j
  {
    if a == 0 && b == 0 {
    } else if j > 0 {
      OrBit(a / 2, b / 2, j - 1);
    }
  }

  lemma {:induction false} ZeroBit(j: nat)
    ensures !Bit(0, j)
  {
    if j > 0 { ZeroBit(j - 1); }
  }

  lemma {:induction false} AndBit(a: nat, b: nat, j: nat)
    ensures Bit(And(a, b), j) == (Bit(a, j) && Bit(b, j))
    decreases j
  {
    ZeroBit(j);
    if a != 0 && b != 0 && j > 0 {
      AndBit(a / 2, b / 2, j - 1);
    }
  }

  /** Subtracting 2^m from a number that is at least 2^m leaves the bits below m. */
  lemma {:induction false} LowBitsKept(w: nat, m: nat, j: nat)
    requires Pow2(m) <= w && j < m
    ensures Bit(w - Pow2(m), j) == Bit(w, j)
  {
    if j > 0 {
      assert (w - Pow2(m)) / 2 == w / 2 - Pow2(m - 1);
      LowBitsKept(w / 2, m - 1, j - 1);
    }
  }

  lemma Shl1Bit(w: u64, j: nat)
    requires j < 64
    ensures Bit(Shl1(w), j) == (j > 0 && Bit(w, j - 1))
  {
    WordBounds();
    if j > 0 && w >= TOP_BIT { LowBitsKept(w, 63, j - 1); }
  }

  lemma {:induction false} ShlBit(w: u64, s: nat, j: nat)
    requires j < 64
    ensures Bit(Shl(w, s), j) == (j >= s && Bit(w, j - s))
  {
    if s > 0 {
      Shl1Bit(Shl(w, s - 1), j);
      if j > 0 { ShlBit(w, s - 1, j - 1); }
    }
  }

  lemma {:induction false} ShrBit(w: u64, s: nat, j: nat)
    ensures Bit(Shr(w, s), j) == Bit(w, j + s)
  {
    if s > 0 { ShrBit(w / 2, s - 1, j); }
  }

  /** `(1 << n) - 1` has exactly the bits below `n`. */
  lemma {:induction false} OnesBit(n: nat, j: nat)
    ensures Bit(Pow2(n) - 1, j) == (j < n)
  {
    if n == 0 {
      ZeroBit(j);
    } else if j > 0 {
      assert (Pow2(n) - 1) / 2 == Pow2(n - 1) - 1;
      OnesBit(n - 1, j - 1);
    }
  }

  lemma {:induction false} ShlOne(n: nat)
    requires n < 64
    ensures Shl(1, n) == Pow2(n)
    ensures Pow2(n) <= TOP_BIT
  {
    if n > 0 {
      ShlOne(n - 1);
      Pow2Monotone(n, 63);
      WordBounds();
    }
  }

  lemma {:induction false} Pow2Monotone(m: nat, n: nat)
    requires m <= n
    ensures Pow2(m) <= Pow2(n)
  {
    if m < n { Pow2Monotone(m, n - 1); }
  }

  /** No number below 2^n has a bit at or above `n`. */
  lemma {:induction false} HighBitsClear(w: nat, n: nat, j: nat)
    requires w < Pow2(n) && n <= j
    ensures !Bit(w, j)
  {
    if n == 0 {
      ZeroBit(j);
    } else {
      HighBitsClear(w / 2, n - 1, j - 1);
    }
  }
}
