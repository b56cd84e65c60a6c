/** Paths: their components, and walking them through a filesystem's lookup function. */
module VfsPath {
  import opened Bytes
  import opened CString
  import opened VfsNode

  const SLASH: Byte := 0x2F
  const COMPONENT_MAX := 127

  /** What a filesystem's finddir reports about an entry. */
  datatype Info = Info(name: seq<Byte>, flags: int, size: int, inode: int, dirLba: int, dirIndex: int)

  datatype Lookup = Missing | Hit(info: Info)

  /** A filesystem's finddir, by directory inode and name. */
  type FindDir = (int, seq<Byte>) -> Lookup

  predicate HasFlag(flags: int, bit: int)
    requires bit > 0
  {
    flags / bit % 2 == 1
  }

  ghost function InfoOf(node: Node): Info
    reads node
  {
    Info(node.name, node.flags, node.size, node.inode, node.dirLba, node.dirIndex)
  }

  // ---- Paths ----

  function NextSlash(p: seq<Byte>, limit: nat): (n: nat)
    ensures n <= |p| && n <= limit
    ensures n < |p| && n < limit ==> p[n] == SLASH
    ensures forall i :: 0 <= i < n ==> p[i] != SLASH
  {
    if p == [] || limit == 0 || p[0] == SLASH then 0 else
      var n := NextSlash(p[1..], limit - 1);
      assert forall i :: 1 <= i < 1 + n ==> p[i] == p[1..][i - 1];
      1 + n
  }

  /** What is left behind one component and the slash after it, if there is one. */
  function Behind(p: seq<Byte>, n: nat): seq<Byte>
    requires n <= |p|
  {
    if n < |p| && p[n] == SLASH then p[n + 1..] else p[n..]
  }

  /** The components the walk looks up: cut at slashes, and after 127 bytes. */
  function Components(p: seq<Byte>): seq<seq<Byte>>
    decreases |p|
  {
    if p == [] then [] else
      var n := NextSlash(p, COMPONENT_MAX);
      [p[..n]] + Components(Behind(p, n))
  }

  function WithoutSlash(path: seq<Byte>): seq<Byte> {
    if path != [] && path[0] == SLASH then path[1..] else path
  }

  /** Looking the components up one after the other, each in the directory found before. */
  function Fold(find: FindDir, at: Info, names: seq<seq<Byte>>): Lookup
    decreases |names|
  {
    if names == [] then Hit(at)
    else if !HasFlag(at.flags, VFS_DIR) then Missing
    else match find(at.inode, names[0])
      case Missing => Missing
      case Hit(next) => Fold(find, next, names[1..])
  }

  lemma FoldFirst(find: FindDir, at: Info, p: seq<Byte>)
    requires p != []
    ensures var n := NextSlash(p, COMPONENT_MAX);
      Fold(find, at, Components(p)) ==
        match Fold(find, at, [p[..n]])
        case Missing => Missing
        case Hit(next) => if |Behind(p, n)| < |p| then Fold(find, next, Components(Behind(p, n))) else Missing
  {
    var n := NextSlash(p, COMPONENT_MAX);
    FoldAppend(find, at, [p[..n]], Components(Behind(p, n)));
  }

  /** Copies one component into a buffer of 128 bytes and moves past the slash behind it. */
  method TakeComponent(p: seq<Byte>) returns (component: seq<Byte>, rest: seq<Byte>)
    requires p != [] && Plain(p)
    ensures component == p[..NextSlash(p, COMPONENT_MAX)]
    ensures rest == Behind(p, NextSlash(p, COMPONENT_MAX)) && |rest| < |p| && Plain(rest)
  {
    var buffer := new Byte[128];
    var i := 0;
    while At(p, i) != 0 && At(p, i) != SLASH && i < 127
      invariant i <= |p| && i <= 127
      invariant buffer[..i] == p[..i]
      invariant forall k :: 0 <= k < i ==> p[k] != SLASH
      decreases |p| - i
    {
      buffer[i] := p[i];
      i := i + 1;
    }
    NextSlashIs(p, COMPONENT_MAX, i);
    component := buffer[..i];
    rest := p[i..];
    if At(p, i) == SLASH { rest := p[i + 1..]; }
  }

  lemma NextSlashIs(p: seq<Byte>, limit: nat, n: nat)
    requires n <= |p| && n <= limit && (n < |p| && n < limit ==> p[n] == SLASH)
    requires forall i :: 0 <= i < n ==> p[i] != SLASH
    ensures NextSlash(p, limit) == n
  {
  }

  // ---- What the walk means ----

  lemma {:induction false} FoldAppend(find: FindDir, at: Info, a: seq<seq<Byte>>, b: seq<seq<Byte>>)
    ensures Fold(find, at, a + b) ==
      match Fold(find, at, a) case Missing => Missing case Hit(mid) => Fold(find, mid, b)
    decreases |a|
  {
    if a == [] {
      assert a + b == b;
    } else {
      assert (a + b)[0] == a[0] && (a + b)[1..] == a[1..] + b;
      if HasFlag(at.flags, VFS_DIR) {
        match find(at.inode, a[0])
        case Missing =>
        case Hit(next) => FoldAppend(find, next, a[1..], b);
      }
    }
  }

  predicate ValidName(name: seq<Byte>) {
    0 < |name| <= COMPONENT_MAX && SLASH !in name
  }

  function Join(names: seq<seq<Byte>>): seq<Byte> {
    if names == [] then []
    else if |names| == 1 then names[0]
    else names[0] + [SLASH] + Join(names[1..])
  }

  /** Splitting gives back the names that were joined. */
  lemma {:induction false} SplitJoin(names: seq<seq<Byte>>)
    requires forall i :: 0 <= i < |names| ==> ValidName(names[i])
    ensures Components(Join(names)) == names
  {
    if |names| == 1 {
      OnlyName(names[0]);
    } else if names != [] {
      SplitJoin(names[1..]);
      Head(names[0], Join(names[1..]));
    }
  }

  /** A path of names, with or without a leading slash (0x2F), is those names. */
  lemma {:induction false} PathNames(names: seq<seq<Byte>>)
    requires names != [] && forall i :: 0 <= i < |names| ==> ValidName(names[i])
    ensures Components(WithoutSlash(Join(names))) == names && Components(WithoutSlash([0x2F] + Join(names))) == names
    ensures |names| > 1 ==> Join(names) == names[0] + [0x2F] + Join(names[1..])
  {
    SplitJoin(names);
    JoinStart(names);
    assert ([0x2F] + Join(names))[1..] == Join(names);
  }

  /** Without a slash, up to 127 bytes are one component, and of more the first 127. */
  lemma LongName(p: seq<Byte>)
    requires p != [] && 0x2F !in p
    ensures |p| <= 127 ==> Components(p) == [p]
    ensures |p| > 127 ==> Components(p) == [p[..127]] + Components(p[127..])
  {
    if |p| <= 127 {
      OnlyName(p);
    } else {
      NextSlashIs(p, COMPONENT_MAX, 127);
      assert p[127] in p;
    }
  }

  lemma JoinStart(names: seq<seq<Byte>>)
    requires names != [] && ValidName(names[0])
    ensures Join(names) != [] && Join(names)[0] != SLASH
  {
    assert Join(names)[0] == names[0][0] && names[0][0] in names[0];
  }

  lemma {:induction false} JoinAppend(a: seq<seq<Byte>>, b: seq<seq<Byte>>)
    requires a != [] && b != []
    ensures Join(a + b) == Join(a) + [SLASH] + Join(b)
  {
    if |a| == 1 {
      assert (a + b)[0] == a[0] && (a + b)[1..] == b;
    } else {
      assert (a + b)[0] == a[0] && (a + b)[1..] == a[1..] + b;
      JoinAppend(a[1..], b);
    }
  }

  lemma {:induction false} JoinEnd(names: seq<seq<Byte>>)
    requires names != [] && forall i :: 0 <= i < |names| ==> ValidName(names[i])
    ensures Join(names) != [] && Join(names)[|Join(names)| - 1] != SLASH
  {
    if |names| > 1 {
      JoinEnd(names[1..]);
    } else {
      assert names[0][|names[0]| - 1] in names[0];
    }
  }

  lemma OnlyName(name: seq<Byte>)
    requires ValidName(name)
    ensures Components(name) == [name]
  {
    NextSlashIs(name, COMPONENT_MAX, |name|);
    assert name[..|name|] == name && Behind(name, |name|) == [];
  }

  lemma Head(name: seq<Byte>, rest: seq<Byte>)
    requires ValidName(name)
    ensures Components(name + [SLASH] + rest) == [name] + Components(rest)
  {
    var p := name + [SLASH] + rest;
    NextSlashIs(p, COMPONENT_MAX, |name|);
    assert p[..|name|] == name && Behind(p, |name|) == rest;
  }

  /** A last name behind a slash is looked up last. */
  lemma {:induction false} SplitLast(p: seq<Byte>, base: seq<Byte>)
    requires p != [] && p[|p| - 1] != SLASH && ValidName(base)
    ensures Components(p + [SLASH] + base) == Components(p) + [base]
    decreases |p|
  {
    var q := p + [SLASH] + base;
    var n := NextSlash(p, COMPONENT_MAX);
    NextSlashIs(q, COMPONENT_MAX, n);
    assert q[..n] == p[..n];
    if n == |p| {
      assert Behind(q, n) == base;
      OnlyName(base);
      assert Components(p) == [p[..n]] + Components([]);
    } else {
      BehindMore(p, n, [SLASH] + base);
      assert q == p + ([SLASH] + base);
      assert Behind(q, n) == Behind(p, n) + [SLASH] + base;
      SplitLast(Behind(p, n), base);
    }
  }

  /** A component that does not reach the end leaves the end behind it. */
  lemma BehindMore(p: seq<Byte>, n: nat, more: seq<Byte>)
    requires n < |p| && p[|p| - 1] != SLASH
    ensures var rest := Behind(p, n);
      rest != [] && rest[|rest| - 1] == p[|p| - 1] && Behind(p + more, n) == rest + more
  {
  }
}
