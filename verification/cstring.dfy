/** C strings as byte sequences: the text before the terminating zero. */
module CString {
  import opened Bytes

  /** The byte a C program reads at index i of a zero-terminated string. */
  function At(s: seq<Byte>, i: nat): Byte { if i < |s| then s[i] else 0 }

  predicate Plain(s: seq<Byte>) { forall i :: 0 <= i < |s| ==> s[i] != 0 }

  function Length(s: seq<Byte>): (n: nat)
    ensures n <= |s| && At(s, n) == 0
    ensures forall i :: 0 <= i < n ==> s[i] != 0
  {
    if s == [] || s[0] == 0 then 0 else
      var m := Length(s[1..]);
      assert forall i :: 1 <= i < 1 + m ==> s[i] == s[1..][i - 1];
      assert At(s, 1 + m) == At(s[1..], m);
      1 + m
  }

  /** What the buffer `s` holds as a C string. */
  function Text(s: seq<Byte>): seq<Byte> { s[..Length(s)] }

  function Upper(c: Byte): Byte { if 0x61 <= c <= 0x7A then c - 32 else c }

  function UpperAll(s: seq<Byte>): (t: seq<Byte>)
    ensures |t| == |s|
    ensures forall i :: 0 <= i < |s| ==> t[i] == Upper(s[i])
  {
    seq(|s|, i requires 0 <= i < |s| => Upper(s[i]))
  }

  predicate SameText(a: seq<Byte>, b: seq<Byte>) { UpperAll(Text(a)) == UpperAll(Text(b)) }

  lemma PlainText(s: seq<Byte>)
    requires Plain(s)
    ensures Text(s) == s
  {
  }

  /** strcasecmp returns 0 exactly when the texts agree up to the case of ASCII letters. */
  method Strcasecmp(a: seq<Byte>, b: seq<Byte>) returns (r: int)
    ensures r == 0 <==> SameText(a, b)
  {
    var i := 0;
    while At(a, i) != 0 && At(b, i) != 0
      invariant i <= Length(a) && i <= Length(b)
      invariant forall j :: 0 <= j < i ==> Upper(a[j]) == Upper(b[j])
      decreases |a| - i
    {
      var ca: int, cb: int := Upper(At(a, i)), Upper(At(b, i));
      if ca != cb {
        assert UpperAll(Text(a))[i] != UpperAll(Text(b))[i];
        return ca - cb;
      }
      i := i + 1;
    }
    assert i == Length(a) || i == Length(b);
    var ra: int, rb: int := At(a, i), At(b, i);
    return ra - rb;
  }

  /** The part of `src` that fits into `size` bytes together with the terminating zero. */
  function Fitting(src: seq<Byte>, size: nat): seq<Byte> {
    if |src| < size then src else if size == 0 then [] else src[..size - 1]
  }

  /** What fits into a buffer of `size` bytes: all but the last of them can be used. */
  lemma FittingIs(src: seq<Byte>, size: nat)
    requires size > 0
    ensures Fitting(src, size) <= src && |Fitting(src, size)| == if |src| < size - 1 then |src| else size - 1
  {
  }

  /** strlcpy copies what fits at dst[at..at + size], terminates it, touches nothing else
      and returns the length of the source. */
  method Strlcpy(dst: array<Byte>, at: nat, src: seq<Byte>, size: nat) returns (n: nat)
    requires at + size <= dst.Length && Plain(src)
    modifies dst
    ensures n == |src|
    ensures size == 0 ==> dst[..] == old(dst[..])
    ensures size > 0 ==> dst[..] == old(dst[..at]) + Fitting(src, size) + [0]
                                       + old(dst[at + |Fitting(src, size)| + 1..])
  {
    var i := 0;
    if size > 0 {
      while i < size - 1 && At(src, i) != 0
        invariant i <= |src| && i <= size - 1
        invariant forall k :: 0 <= k < dst.Length ==> dst[k] == if at <= k < at + i then src[k - at] else old(dst[k])
      {
        dst[at + i] := src[i];
        i := i + 1;
      }
      dst[at + i] := 0;
    }
    while At(src, i) != 0
      invariant i <= |src|
      decreases |src| - i
    {
      i := i + 1;
    }
    n := i;
  }
}
