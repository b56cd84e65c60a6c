/** Bytes and the little-endian words packed into them. */
module Bytes {
  type Byte = b: int | 0 <= b < 0x100

  function GetU16(s: seq<Byte>, i: nat): (v: int)
    requires i + 1 < |s|
    ensures 0 <= v < 0x1_0000
  {
    var low: int, high: int := s[i], s[i + 1];
    low + 0x100 * high
  }

  function PutU16(s: seq<Byte>, i: nat, v: int): (t: seq<Byte>)
    requires i + 1 < |s| && 0 <= v < 0x1_0000
    ensures |t| == |s| && GetU16(t, i) == v
    ensures forall j :: 0 <= j < |s| && j != i && j != i + 1 ==> t[j] == s[j]
  {
    s[i := v % 0x100][i + 1 := v / 0x100]
  }

  function GetU32(s: seq<Byte>, i: nat): (v: int)
    requires i + 3 < |s|
    ensures 0 <= v < 0x1_0000_0000
  {
    GetU16(s, i) + 0x1_0000 * GetU16(s, i + 2)
  }

  function PutU32(s: seq<Byte>, i: nat, v: int): (t: seq<Byte>)
    requires i + 3 < |s| && 0 <= v < 0x1_0000_0000
    ensures |t| == |s| && GetU32(t, i) == v
    ensures forall j :: 0 <= j < |s| && !(i <= j < i + 4) ==> t[j] == s[j]
  {
    PutU16(PutU16(s, i, v % 0x1_0000), i + 2, v / 0x1_0000)
  }

  /** The bytes of a 16-bit word, low byte first. */
  function Le16(v: int): (s: seq<Byte>)
    requires 0 <= v < 0x1_0000
    ensures |s| == 2
  {
    [v % 0x100, v / 0x100]
  }

  /** The bytes of a 32-bit word, low byte first. */
  function Le32(v: int): (s: seq<Byte>)
    requires 0 <= v < 0x1_0000_0000
    ensures |s| == 4
  {
    [v % 0x100, v / 0x100 % 0x100, v / 0x1_0000 % 0x100, v / 0x100_0000]
  }

  /** What is read is the word whose bytes lie there. */
  lemma GetIs16(s: seq<Byte>, i: nat, v: int)
    requires i + 1 < |s| && 0 <= v < 0x1_0000
    ensures GetU16(s, i) == v <==> s[i..i + 2] == Le16(v)
  {
    if GetU16(s, i) == v {
      LowByte(s[i], s[i + 1]);
      assert s[i..i + 2] == [s[i], s[i + 1]];
    } else {
      assert s[i] == s[i..i + 2][0] && s[i + 1] == s[i..i + 2][1];
    }
  }

  lemma GetIs32(s: seq<Byte>, i: nat, v: int)
    requires i + 3 < |s| && 0 <= v < 0x1_0000_0000
    ensures GetU32(s, i) == v <==> s[i..i + 4] == Le32(v)
  {
    Halves(v);
    GetIs16(s, i, v % 0x1_0000);
    GetIs16(s, i + 2, v / 0x1_0000);
    assert s[i..i + 4] == s[i..i + 2] + s[i + 2..i + 4];
    assert s[i..i + 4][..2] == s[i..i + 2] && s[i..i + 4][2..] == s[i + 2..i + 4];
    if GetU32(s, i) == v { HalvesOf(GetU16(s, i), GetU16(s, i + 2)); }
  }

  lemma LowByte(a: int, b: int)
    requires 0 <= a < 0x100
    ensures (a + 0x100 * b) % 0x100 == a && (a + 0x100 * b) / 0x100 == b
  {
  }

  lemma HalvesOf(a: int, b: int)
    requires 0 <= a < 0x1_0000
    ensures (a + 0x1_0000 * b) % 0x1_0000 == a && (a + 0x1_0000 * b) / 0x1_0000 == b
  {
  }

  /** A double word is its two words one after the other. */
  lemma Halves(v: int)
    requires 0 <= v < 0x1_0000_0000
    ensures Le32(v) == Le16(v % 0x1_0000) + Le16(v / 0x1_0000)
  {
    var a, b := v % 0x1_0000, v / 0x1_0000;
    assert v == a + 0x1_0000 * b;
    LowByte(a % 0x100, a / 0x100 + 0x100 * b);
    LowByte(a / 0x100, b);
    LowByte(b % 0x100, b / 0x100);
    assert v / 0x100 == a / 0x100 + 0x100 * b;
    assert v / 0x100_0000 == b / 0x100;
  }

  /** The value a C `int` shows after a conversion from a 32-bit unsigned word. */
  function AsInt32(w: int): int {
    var r := w % 0x1_0000_0000;
    if r < 0x8000_0000 then r else r - 0x1_0000_0000
  }

  /** It is the word itself, or the word less 2^32, whichever an `int` can hold. */
  lemma AsInt32Is(w: int)
    requires 0 <= w < 0x1_0000_0000
    ensures AsInt32(w) == w || AsInt32(w) == w - 0x1_0000_0000
    ensures -0x8000_0000 <= AsInt32(w) <= 0x7FFF_FFFF
  {
  }

  /** A product of naturals, kept apart so that its sign needs no arithmetic. */
  function Times(a: nat, b: nat): nat { a * b }

  lemma MulOrder(a: int, b: int, k: int)
    requires a < b && 0 <= k
    ensures a * k + k <= b * k
  {
    assert b * k == a * k + k + (b - a - 1) * k;
  }

  /** A product lies between its factors' bounds. */
  lemma MulBounds(n: nat, k: nat, a: nat, b: nat)
    requires n <= a && k <= b
    ensures 0 <= n * k <= a * b
  {
    assert n * k <= a * k by { assert (a - n) * k >= 0; }
    assert a * k <= a * b by { assert a * (b - k) >= 0; }
  }

  lemma MulAtLeast(n: nat, k: nat)
    requires n >= 1
    ensures n * k >= k && (n >= 2 ==> n * k >= 2 * k)
  {
    assert (n - 1) * k >= 0;
    assert n >= 2 ==> (n - 2) * k >= 0;
  }
}
