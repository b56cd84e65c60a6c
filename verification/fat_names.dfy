/** 8.3 names: the padded fields of a directory entry and the text a user types. */
module FatNames {
  import opened Bytes
  import opened CString
  import opened FatEntryCodec

  function Spaces(n: nat): (s: seq<Byte>)
    ensures |s| == n && forall i :: 0 <= i < n ==> s[i] == SPACE
  {
    seq(n, _ => SPACE)
  }

  /** `s` without its trailing spaces. */
  function Trim(s: seq<Byte>): (t: seq<Byte>)
    ensures |t| <= |s| && t == s[..|t|]
    ensures t != [] ==> t[|t| - 1] != SPACE
    ensures forall i :: |t| <= i < |s| ==> s[i] == SPACE
  {
    if s == [] || s[|s| - 1] != SPACE then s else Trim(s[..|s| - 1])
  }

  /** An entry's name as text. */
  function Text83(e: DirEntry): seq<Byte>
    requires e.Shaped()
  {
    Trim(e.name) + (if e.ext[0] != SPACE then [DOT] + Trim(e.ext) else [])
  }

  /** The index of the first dot, or the length. */
  function DotAt(name: seq<Byte>): (d: nat)
    ensures d <= |name| && (d < |name| ==> name[d] == DOT)
    ensures forall i :: 0 <= i < d ==> name[i] != DOT
  {
    if name == [] || name[0] == DOT then 0 else
      var d := DotAt(name[1..]);
      assert forall i :: 1 <= i < 1 + d ==> name[i] == name[1..][i - 1];
      1 + d
  }

  function BasePart(name: seq<Byte>): seq<Byte> { name[..DotAt(name)] }

  function ExtPart(name: seq<Byte>): seq<Byte> {
    if DotAt(name) < |name| then name[DotAt(name) + 1..] else []
  }

  predicate Accepted(name: seq<Byte>) {
    1 <= |BasePart(name)| <= 8 && |ExtPart(name)| <= 3
  }

  function Field(s: seq<Byte>, width: nat): (f: seq<Byte>)
    requires |s| <= width
    ensures |f| == width
  {
    UpperAll(s) + Spaces(width - |s|)
  }

  // ---- The two conversions ----

  method Format83(e: DirEntry, dst: array<Byte>)
    requires e.Shaped() && dst.Length >= 13
    modifies dst
    ensures dst[..|Text83(e)| + 1] == Text83(e) + [0]
  {
    hide Trim, Text83;
    var j := AppendTrimmed(e.name, dst, 0);
    if e.ext[0] != SPACE {
      dst[j] := DOT;
      j := j + 1;
      assert dst[..j] == Trim(e.name) + [DOT];
      j := AppendTrimmed(e.ext, dst, j);
    }
    TextIs(e, dst[..j]);
    dst[j] := 0;
    assert dst[..j + 1] == Text83(e) + [0];
  }

  lemma TextIs(e: DirEntry, s: seq<Byte>)
    requires e.Shaped()
    requires e.ext[0] == SPACE ==> s == Trim(e.name)
    requires e.ext[0] != SPACE ==> s == Trim(e.name) + [DOT] + Trim(e.ext)
    ensures s == Text83(e)
  {
  }

  /** Appends a padded field without its trailing spaces at dst[j]. */
  method AppendTrimmed(field: seq<Byte>, dst: array<Byte>, start: nat) returns (j: nat)
    requires start + |field| <= dst.Length
    modifies dst
    ensures start <= j <= start + |field|
    ensures dst[..j] == old(dst[..start]) + Trim(field)
  {
    var last := |field| - 1;
    while last >= 0 && field[last] == SPACE
      invariant -1 <= last < |field|
      invariant forall i :: last < i < |field| ==> field[i] == SPACE
    {
      last := last - 1;
    }
    TrimIs(field, last + 1);
    j := start;
    for k := 0 to last + 1
      invariant j == start + k && dst[..j] == old(dst[..start]) + field[..k]
    {
      dst[j] := field[k];
      j := j + 1;
    }
  }

  lemma {:induction false} TrimIs(s: seq<Byte>, n: nat)
    requires n <= |s| && (n > 0 ==> s[n - 1] != SPACE)
    requires forall i :: n <= i < |s| ==> s[i] == SPACE
    ensures Trim(s) == s[..n]
    decreases |s|
  {
    if |s| > n {
      TrimIs(s[..|s| - 1], n);
      assert s[..|s| - 1][..n] == s[..n];
    }
  }

  /** memset to spaces */
  method FillSpaces(out: array<Byte>)
    modifies out
    ensures forall k :: 0 <= k < out.Length ==> out[k] == SPACE
  {
    for i := 0 to out.Length
      invariant forall k :: 0 <= k < i ==> out[k] == SPACE
    {
      out[i] := SPACE;
    }
  }

  method FormatName83(name: seq<Byte>, outName: array<Byte>, outExt: array<Byte>) returns (r: int)
    requires Plain(name) && outName != outExt && outName.Length == 8 && outExt.Length == 3
    modifies outName, outExt
    ensures r == (if Accepted(name) then 0 else -1)
    ensures r == 0 ==> outName[..] == Field(BasePart(name), 8) && outExt[..] == Field(ExtPart(name), 3)
  {
    hide Field, UpperAll, DotAt, BasePart, ExtPart, Accepted;
    FillSpaces(outName);
    FillSpaces(outExt);
    var len := 0;
    while At(name, len) != 0
      invariant len <= |name|
      decreases |name| - len
    {
      len := len + 1;
    }
    var dot := FindDot(name, len);
    var nameLen := if dot >= 0 then dot else len;
    var extLen := if dot >= 0 then len - dot - 1 else 0;
    var extFrom := if dot >= 0 then dot + 1 else 0;
    NamePieces(name, dot, nameLen, extFrom, extLen);
    if nameLen == 0 || nameLen > 8 { return -1; }
    if extLen > 3 { return -1; }
    UpperInto(name, 0, nameLen, outName);
    UpperInto(name, extFrom, extLen, outExt);
    return 0;
  }

  /** Where the two parts of a name lie. */
  lemma NamePieces(name: seq<Byte>, dot: int, nameLen: int, extFrom: int, extLen: int)
    requires dot == if DotAt(name) < |name| then DotAt(name) else -1
    requires if dot >= 0 then nameLen == dot && extFrom == dot + 1 && extLen == |name| - dot - 1
             else nameLen == |name| && extFrom == 0 && extLen == 0
    ensures 0 <= nameLen <= |name| && 0 <= extFrom <= extFrom + extLen <= |name|
    ensures name[0..0 + nameLen] == BasePart(name) && name[extFrom..extFrom + extLen] == ExtPart(name)
    ensures Accepted(name) <==> 1 <= nameLen <= 8 && extLen <= 3
  {
    hide DotAt;
    assert nameLen == DotAt(name) && name[0..nameLen] == name[..nameLen];
    if dot >= 0 {
      assert extFrom + extLen == |name| && name[extFrom..|name|] == name[extFrom..];
    } else {
      assert name[0..0] == [];
    }
  }

  method FindDot(name: seq<Byte>, len: nat) returns (dot: int)
    requires len == |name|
    ensures dot == if DotAt(name) < |name| then DotAt(name) else -1
  {
    dot := -1;
    for i := 0 to len
      invariant dot == -1 && forall k :: 0 <= k < i ==> name[k] != DOT
    {
      if name[i] == DOT {
        return i;
      }
    }
  }

  method UpperInto(name: seq<Byte>, from: nat, n: nat, out: array<Byte>)
    requires from + n <= |name| && n <= out.Length
    requires forall k :: 0 <= k < out.Length ==> out[k] == SPACE
    modifies out
    ensures out[..] == Field(name[from..from + n], out.Length)
  {
    for i := 0 to n
      invariant forall k :: 0 <= k < i ==> out[k] == Upper(name[from + k])
      invariant forall k :: i <= k < out.Length ==> out[k] == SPACE
    {
      out[i] := Upper(name[from + i]);
    }
  }

  // ---- Round trips ----

  predicate EndsInSpace(s: seq<Byte>) { s != [] && s[|s| - 1] == SPACE }

  /** The names whose stored form still reads as the same name. */
  predicate Faithful(name: seq<Byte>) {
    && !EndsInSpace(BasePart(name))
    && (DotAt(name) < |name| ==>
          ExtPart(name) != [] && ExtPart(name)[0] != SPACE && !EndsInSpace(ExtPart(name)))
  }

  function FieldsOf(name: seq<Byte>): (e: DirEntry)
    requires Accepted(name)
    ensures e.Shaped()
  {
    DirEntry(Field(BasePart(name), 8), Field(ExtPart(name), 3), 0, 0, 0)
  }

  lemma TrimField(s: seq<Byte>, width: nat)
    requires |s| <= width
    ensures !EndsInSpace(s) ==> Trim(Field(s, width)) == UpperAll(s)
    ensures EndsInSpace(s) ==> |Trim(Field(s, width))| < |s|
  {
    var f := Field(s, width);
    if EndsInSpace(s) {
      assert f[|s| - 1] == SPACE;
    } else {
      TrimIs(f, |s|);
    }
  }

  lemma NameParts(name: seq<Byte>)
    ensures name == BasePart(name) + (if DotAt(name) < |name| then [DOT] + ExtPart(name) else [])
  {
    hide DotAt;
    var d := DotAt(name);
    if d < |name| {
      SplitAround(name, d);
      assert BasePart(name) == name[..d] && ExtPart(name) == name[d + 1..];
    } else {
      assert BasePart(name) == name;
    }
  }

  lemma SplitAround(s: seq<Byte>, d: nat)
    requires d < |s|
    ensures s == s[..d] + ([s[d]] + s[d + 1..])
  {
  }

  /** An accepted name reads back as itself, up to case, exactly when it is faithful. */
  lemma NameRoundTrip(name: seq<Byte>)
    requires Accepted(name)
    ensures UpperAll(Text83(FieldsOf(name))) == UpperAll(name) <==> Faithful(name)
  {
    var ext := ExtPart(name);
    if EndsInSpace(BasePart(name)) {
      CutBase(name);
    } else if ext == [] || ext[0] == SPACE {
      NoExtension(name);
    } else {
      WithExtension(name);
    }
  }

  lemma NoExtension(name: seq<Byte>)
    requires Accepted(name) && !EndsInSpace(BasePart(name))
    requires ExtPart(name) == [] || ExtPart(name)[0] == SPACE
    ensures UpperAll(Text83(FieldsOf(name))) == UpperAll(name) <==> DotAt(name) == |name|
  {
    var base, ext := BasePart(name), ExtPart(name);
    TrimField(base, 8);
    UpperKeeps(base);
    assert Field(ext, 3)[0] == SPACE;
    assert Text83(FieldsOf(name)) == UpperAll(base);
    if DotAt(name) == |name| {
      assert base == name;
    }
  }

  lemma WithExtension(name: seq<Byte>)
    requires Accepted(name) && !EndsInSpace(BasePart(name))
    requires ExtPart(name) != [] && ExtPart(name)[0] != SPACE
    ensures UpperAll(Text83(FieldsOf(name))) == UpperAll(name) <==> !EndsInSpace(ExtPart(name))
  {
    var base, ext := BasePart(name), ExtPart(name);
    TrimField(base, 8);
    TrimField(ext, 3);
    assert Field(ext, 3)[0] == Upper(ext[0]);
    var kept := Trim(Field(ext, 3));
    assert Text83(FieldsOf(name)) == UpperAll(base) + ([DOT] + kept);
    NameParts(name);
    if !EndsInSpace(ext) {
      UpperConcat(UpperAll(base), [DOT] + kept);
      UpperConcat([DOT], kept);
      UpperConcat(base, [DOT] + ext);
      UpperConcat([DOT], ext);
      UpperKeeps(base);
      UpperKeeps(ext);
    } else {
      assert |UpperAll(Text83(FieldsOf(name)))| < |UpperAll(name)|;
    }
  }

  lemma UpperKeeps(s: seq<Byte>)
    ensures UpperAll(UpperAll(s)) == UpperAll(s)
  {
  }

  lemma UpperConcat(a: seq<Byte>, b: seq<Byte>)
    ensures UpperAll(a + b) == UpperAll(a) + UpperAll(b)
  {
  }

  lemma CutBase(name: seq<Byte>)
    requires Accepted(name) && EndsInSpace(BasePart(name))
    ensures UpperAll(Text83(FieldsOf(name))) != UpperAll(name)
  {
    var n := |Trim(FieldsOf(name).name)|;
    var text := Text83(FieldsOf(name));
    TrimField(BasePart(name), 8);
    assert name[n] == BasePart(name)[n] != DOT;
    if n < |text| {
      assert text[n] == DOT;
      assert UpperAll(text)[n] == DOT && UpperAll(name)[n] == Upper(name[n]);
    }
  }

  /** Fields that a name could have produced: padded at the end only, no lower case, no
      zero byte, and a base that is not empty and has no dot. */
  predicate Canonical(e: DirEntry) {
    && e.Shaped() && Plain(e.name) && Plain(e.ext)
    && UpperAll(e.name) == e.name && UpperAll(e.ext) == e.ext
    && Trim(e.name) != [] && DOT !in e.name
    && (e.ext[0] == SPACE ==> Trim(e.ext) == [])
  }

  /** format_name_83 recovers the fields from the text that format_83 renders. */
  lemma FieldsRoundTrip(e: DirEntry)
    requires Canonical(e)
    ensures var name := Text83(e);
      Plain(name) && Accepted(name) && Field(BasePart(name), 8) == e.name && Field(ExtPart(name), 3) == e.ext
  {
    TextParts(e);
    TextPlain(e);
    FieldOfTrim(e.name);
    FieldOfTrim(e.ext);
  }

  lemma TextParts(e: DirEntry)
    requires Canonical(e)
    ensures BasePart(Text83(e)) == Trim(e.name) && ExtPart(Text83(e)) == Trim(e.ext)
  {
    assert forall i :: 0 <= i < |Trim(e.name)| ==> Trim(e.name)[i] == e.name[i];
    if e.ext[0] != SPACE {
      PartsWithDot(Trim(e.name), Trim(e.ext));
      assert Text83(e) == Trim(e.name) + ([DOT] + Trim(e.ext));
    } else {
      DotIs(Trim(e.name), |Trim(e.name)|);
      assert Text83(e) == Trim(e.name);
    }
  }

  lemma TextPlain(e: DirEntry)
    requires e.Shaped() && Plain(e.name) && Plain(e.ext)
    ensures Plain(Text83(e))
  {
  }

  lemma PartsWithDot(base: seq<Byte>, ext: seq<Byte>)
    requires DOT !in base
    ensures BasePart(base + ([DOT] + ext)) == base && ExtPart(base + ([DOT] + ext)) == ext
  {
    DotIs(base + ([DOT] + ext), |base|);
  }

  lemma DotIs(name: seq<Byte>, n: nat)
    requires n <= |name| && (n < |name| ==> name[n] == DOT)
    requires forall i :: 0 <= i < n ==> name[i] != DOT
    ensures DotAt(name) == n
  {
  }

  lemma FieldOfTrim(f: seq<Byte>)
    requires UpperAll(f) == f
    ensures Field(Trim(f), |f|) == f
  {
    forall i | 0 <= i < |f| ensures Field(Trim(f), |f|)[i] == f[i] {
      if i < |Trim(f)| { assert Upper(f[i]) == UpperAll(f)[i]; }
    }
  }
}
