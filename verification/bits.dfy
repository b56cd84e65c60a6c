/** Single bits of a 32-bit word, which is kept as a natural number. */
module Bits {
  const FULL := 0xFFFF_FFFF

  type Word = w: int | 0 <= w <= FULL

  /** w & (1 << j), as a truth value. */
  predicate Bit(w: nat, j: nat) {
    if j == 0 then w % 2 == 1 else Bit(w / 2, j - 1)
  }

  /** w | (1 << j) */
  function SetBit(w: nat, j: nat): nat {
    if j == 0 then w / 2 * 2 + 1 else w % 2 + 2 * SetBit(w / 2, j - 1)
  }

  /** w & ~(1 << j) */
  function ClearBit(w: nat, j: nat): nat {
    if j == 0 then w / 2 * 2 else w % 2 + 2 * ClearBit(w / 2, j - 1)
  }

  /** The n bits from position `lo` on set. */
  function SetBits(w: nat, lo: nat, n: nat): nat {
    if n == 0 then w else SetBit(SetBits(w, lo, n - 1), lo + n - 1)
  }

  function Pow2(n: nat): nat { if n == 0 then 1 else 2 * Pow2(n - 1) }

  /** Bit j is what remains of w / 2^j after division by 2. */
  lemma {:induction false} BitIs(w: nat, j: nat)
    ensures Pow2(j) > 0 && (Bit(w, j) <==> w / Pow2(j) % 2 == 1)
  {
    if j > 0 {
      BitIs(w / 2, j - 1);
      DivTwice(w, Pow2(j - 1));
    }
  }

  lemma DivTwice(w: nat, p: nat)
    requires p > 0
    ensures w / 2 / p == w / (2 * p)
  {
    var q := w / (2 * p);
    var r := w - q * (2 * p);
    assert w == q * (2 * p) + r && 0 <= r < 2 * p;
    assert w / 2 == q * p + r / 2;
    DivIs(w / 2, p, q, r / 2);
  }

  lemma DivIs(x: nat, p: nat, q: nat, r: nat)
    requires p > 0 && x == q * p + r && r < p
    ensures x / p == q
  {
    QuotientOnce(p, x / p, x % p, q, r);
  }

  lemma QuotientOnce(p: nat, a: int, r: int, b: int, s: int)
    requires a * p + r == b * p + s && 0 <= r < p && 0 <= s < p
    ensures a == b
  {
    assert (a - b) * p == s - r;
    if a > b { Multiple(a - b, p); }
    if a < b { Multiple(b - a, p); }
  }

  lemma Multiple(n: int, p: nat)
    requires n >= 1
    ensures n * p >= p && (-n) * p <= 0 - p
  {
    assert n * p == p + (n - 1) * p;
  }

  lemma {:induction false} SetBitAt(w: nat, j: nat, k: nat)
    ensures Bit(SetBit(w, j), k) <==> Bit(w, k) || j == k
  {
    if j > 0 && k > 0 { SetBitAt(w / 2, j - 1, k - 1); }
  }

  lemma {:induction false} ClearBitAt(w: nat, j: nat, k: nat)
    ensures Bit(ClearBit(w, j), k) <==> Bit(w, k) && j != k
  {
    if j > 0 && k > 0 { ClearBitAt(w / 2, j - 1, k - 1); }
  }

  lemma {:induction false} SetBitsAt(w: nat, lo: nat, n: nat, k: nat)
    ensures Bit(SetBits(w, lo, n), k) <==> Bit(w, k) || lo <= k < lo + n
  {
    if n > 0 {
      SetBitsAt(w, lo, n - 1, k);
      SetBitAt(SetBits(w, lo, n - 1), lo + n - 1, k);
    }
  }

  lemma {:induction false} SetBitsBound(w: nat, lo: nat, n: nat, m: nat)
    requires w < Pow2(m) && lo + n <= m
    ensures SetBits(w, lo, n) < Pow2(m)
  {
    if n > 0 {
      SetBitsBound(w, lo, n - 1, m);
      BitBound(SetBits(w, lo, n - 1), lo + n - 1, m);
    }
  }

  lemma {:induction false} BitBound(w: nat, j: nat, n: nat)
    requires w < Pow2(n) && j < n
    ensures SetBit(w, j) < Pow2(n) && ClearBit(w, j) < Pow2(n)
  {
    if j > 0 { BitBound(w / 2, j - 1, n - 1); }
  }

  lemma {:induction false} FullHasBit(n: nat, j: nat)
    requires j < n
    ensures Pow2(n) >= 1 && Bit(Pow2(n) - 1, j)
  {
    PowPositive(n - 1);
    assert (Pow2(n) - 1) / 2 == Pow2(n - 1) - 1;
    if j > 0 { FullHasBit(n - 1, j - 1); }
  }

  lemma {:induction false} PowPositive(n: nat)
    ensures Pow2(n) >= 1
  {
    if n > 0 { PowPositive(n - 1); }
  }

  /** The bits of the n lowest positions that are clear; empty only for the largest word. */
  lemma {:induction false} ClearBitExists(w: nat, n: nat) returns (j: nat)
    requires w < Pow2(n) && w != Pow2(n) - 1
    ensures j < n && !Bit(w, j)
  {
    if w % 2 == 0 {
      j := 0;
    } else {
      j := ClearBitExists(w / 2, n - 1);
      j := j + 1;
      assert !Bit(w, j);
    }
  }

  /** A word has all n bits set exactly when it is the largest one. */
  lemma AllBits(w: nat, n: nat)
    requires w < Pow2(n)
    ensures (forall j :: 0 <= j < n ==> Bit(w, j)) <==> w == Pow2(n) - 1
  {
    if w == Pow2(n) - 1 {
      forall j | 0 <= j < n ensures Bit(w, j) { FullHasBit(n, j); }
    } else {
      var j := ClearBitExists(w, n);
    }
  }

  lemma FullPow()
    ensures Pow2(32) == FULL + 1
  {
    assert Pow2(8) == 0x100;
    assert Pow2(16) == 0x1_0000;
    assert Pow2(24) == 0x100_0000;
  }

  lemma WordBits(w: Word, j: nat)
    requires j < 32
    ensures SetBit(w, j) <= FULL && ClearBit(w, j) <= FULL
    ensures (forall k :: 0 <= k < 32 ==> Bit(w, k)) <==> w == FULL
  {
    FullPow();
    BitBound(w, j, 32);
    AllBits(w, 32);
  }
}
