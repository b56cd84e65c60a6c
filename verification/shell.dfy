/** The shell's path helpers and the loop that prints a file. */
module Shell {
  import opened Bytes
  import opened CString
  import opened FatLayout
  import opened FatTable
  import opened FatVolume
  import opened FatFiles
  import opened FatLookup
  import opened Heap
  import opened KernelHeap
  import opened OpenFile
  import opened Vfs
  import opened VfsPath
  import opened VfsNode

  // ---- cat ----

  datatype Reply = NotFound | IsDirectory | Printed(text: seq<Byte>)

  /** What the path leads to: the root itself, or the fold of finddir over its components. */
  ghost function Target(g: Geometry, disk: seq<Sector>, own: Ownership, root: Info, path: seq<Byte>): Lookup
    requires Sound(g, disk, own)
  {
    Fold(FatFind(g, disk, own), root, Components(WithoutSlash(path)))
  }

  /** cmd_cat on a resolved path: every node it opens is closed again, the heap is what it was,
      and what it prints is the file that the path leads to. It needs room in the heap for the
      nodes of the walk, and then for one cluster. */
  method CmdCat(fs: Vfs, path: seq<Byte>, ghost own: Ownership) returns (reply: Reply)
    requires fs.Valid() && Sound(fs.v.g, fs.v.disk, own) && Plain(path)
    requires fs.root != null && fs.root.flags == VFS_DIR && fs.root.inode == 0
    modifies fs, fs.heap
    ensures fs.Valid() && fs.held == old(fs.held) && fs.heap.blocks == old(fs.heap.blocks)
    ensures var n := |Components(WithoutSlash(path))|;
      match Target(fs.v.g, fs.v.disk, own, InfoOf(fs.root), path)
      case Missing => reply == NotFound
      case Hit(i) =>
        if !RoomInTurn(fs.heap.blocks, NODE_SIZE, n) then reply == NotFound
        else if HasFlag(i.flags, VFS_DIR) then reply == IsDirectory
        else LiveFile(fs.v.g, fs.v.disk, own, Place(i))
             && reply == Printed(if HasBlock(AfterTurns(fs.heap.blocks, NODE_SIZE, n), fs.v.g.ClusterBytes())
                                 then FileAt(fs.v.g, fs.v.disk, own, Place(i)) else [])
  {
    hide Sound, FatFind, LookUp, Fold, LiveFile, FileAt, Vfs.AtTurn, HasBlock, RoomInTurn, AfterTurns, Vfs.Valid;
    hide Known, HasFlag, Components, WithoutSlash, Plain, Canonical, Live;
    ghost var before, was := fs.heap.blocks, fs.held;
    fs.Started();
    var file := fs.Open(path, own);
    if file == null { return NotFound; }
    fs.AtTurnHeld(before, was, file, |Components(WithoutSlash(path))|);
    if HasFlag(file.flags, VFS_DIR) {
      reply := IsDirectory;
    } else {
      reply := PrintFile(fs, file, own);
    }
    fs.CloseBack(file, before, was);
  }

  method PrintFile(fs: Vfs, file: Node, ghost own: Ownership) returns (reply: Reply)
    requires fs.Valid() && Known(fs.v.g, fs.v.disk, own, InfoOf(file)) && !HasFlag(file.flags, VFS_DIR)
    modifies fs.heap
    ensures fs.Valid() && fs.heap.blocks == old(fs.heap.blocks)
    ensures var s := Place(InfoOf(file));
      && LiveFile(fs.v.g, fs.v.disk, own, s)
      && reply == Printed(if HasBlock(fs.heap.blocks, fs.v.g.ClusterBytes())
                          then FileAt(fs.v.g, fs.v.disk, own, s) else [])
  {
    hide LiveFile, FileAt, HasBlock, Known, Handle, HasFlag, Heap.Valid;
    OpenedFile(fs.v.g, fs.v.disk, own, file);
    var text := Cat(fs.v, fs.heap, file, own, Place(InfoOf(file)));
    reply := Printed(text);
  }

  /** An opened file's node is a handle of a live file. */
  lemma OpenedFile(g: Geometry, disk: seq<Sector>, own: Ownership, node: Node)
    requires Known(g, disk, own, InfoOf(node)) && !HasFlag(node.flags, VFS_DIR)
    ensures LiveFile(g, disk, own, Place(InfoOf(node))) && Handle(g, disk, own, Place(InfoOf(node)), [], node)
  {
  }

  /** The read loop of cmd_cat prints the whole file exactly once if the heap has room for a
      cluster, and otherwise nothing. */
  method Cat(v: Volume, heap: Heap, file: Node, ghost own: Ownership, ghost s: Slot) returns (printed: seq<Byte>)
    requires LiveFile(v.g, v.disk, own, s) && Handle(v.g, v.disk, own, s, [], file) && heap.Valid()
    modifies heap
    ensures heap.Valid() && heap.blocks == old(heap.blocks)
    ensures printed == if HasBlock(heap.blocks, v.g.ClusterBytes()) then FileAt(v.g, v.disk, own, s) else []
  {
    hide LiveFile, Handle, FileAt, HasBlock, Heap.Valid;
    ghost var data := FileAt(v.g, v.disk, own, s);
    SizeFits32(v.g, v.disk, own, s);
    var buf := new Byte[512];
    var offset := 0;
    printed := [];
    while true
      invariant heap.Valid() && heap.blocks == old(heap.blocks)
      invariant offset <= |data| && printed == data[..offset]
      invariant !HasBlock(heap.blocks, v.g.ClusterBytes()) ==> offset == 0
      decreases |data| - offset
    {
      var bytes := ReadBuffered(v, heap, file, offset, 512, buf, own, s);
      if bytes <= 0 { return; }
      printed := Print(printed, buf, bytes);
      offset := offset + bytes;
    }
  }

  lemma SizeFits32(g: Geometry, disk: seq<Sector>, own: Ownership, s: Slot)
    requires LiveFile(g, disk, own, s)
    ensures |FileAt(g, disk, own, s)| < 0x1_0000_0000
  {
    PastChain(g, disk, own, s, 0);
  }

  method Print(printed: seq<Byte>, buf: array<Byte>, n: nat) returns (more: seq<Byte>)
    requires n <= buf.Length
    ensures more == printed + buf[..n]
  {
    more := printed;
    for i := 0 to n
      invariant more == printed + buf[..i]
    {
      more := more + [buf[i]];
    }
  }

  // ---- Paths ----

  /** The absolute path that `arg` stands for. */
  function Resolved(current: seq<Byte>, arg: seq<Byte>): seq<Byte> {
    if arg == [] then current
    else if arg[0] == SLASH then arg
    else if current != [] && current[|current| - 1] != SLASH then current + [SLASH] + arg
    else current + arg
  }

  /** A relative path leads on from the current directory, an absolute one from the root: with
      current directory /a1/../an, the path b1/../bk stands for /a1/../an/b1/../bk. */
  lemma ResolvedNames(current: seq<seq<Byte>>, names: seq<seq<Byte>>)
    requires names != [] && forall i :: 0 <= i < |names| ==> ValidName(names[i])
    requires forall i :: 0 <= i < |current| ==> ValidName(current[i])
    ensures Resolved([0x2F] + Join(current), Join(names)) == [0x2F] + Join(current + names)
    ensures Components(WithoutSlash(Resolved([0x2F] + Join(current), Join(names)))) == current + names
    ensures Resolved([0x2F] + Join(current), [0x2F] + Join(names)) == [0x2F] + Join(names)
    ensures Resolved([0x2F] + Join(current), []) == [0x2F] + Join(current)
  {
    hide Components, WithoutSlash, Join, Resolved, ValidName;
    PathNames(current + names);
    RelativeJoin(current, names);
    AbsoluteJoin(current, names);
  }

  lemma RelativeJoin(current: seq<seq<Byte>>, names: seq<seq<Byte>>)
    requires names != [] && forall i :: 0 <= i < |names| ==> ValidName(names[i])
    requires forall i :: 0 <= i < |current| ==> ValidName(current[i])
    ensures Resolved([0x2F] + Join(current), Join(names)) == [0x2F] + Join(current + names)
  {
    var c := [0x2F] + Join(current);
    JoinStart(names);
    if current == [] {
      assert current + names == names && c == [0x2F];
    } else {
      hide Join, ValidName;
      JoinEnd(current);
      JoinAppend(current, names);
      assert c[|c| - 1] == Join(current)[|Join(current)| - 1];
    }
  }

  lemma AbsoluteJoin(current: seq<seq<Byte>>, names: seq<seq<Byte>>)
    ensures Resolved([0x2F] + Join(current), [0x2F] + Join(names)) == [0x2F] + Join(names)
    ensures Resolved([0x2F] + Join(current), []) == [0x2F] + Join(current)
  {
    hide Join;
  }

  /** path_resolve leaves the resolved path, cut to what the buffer holds. */
  method PathResolve(current: seq<Byte>, arg: seq<Byte>, out: array<Byte>, size: nat)
    requires Plain(current) && Plain(arg) && 0 < size <= out.Length
    modifies out
    ensures Text(out[..]) == Fitting(Resolved(current, arg), size)
  {
    if arg == [] {
      CopyText(out, current, size);
      return;
    }
    if arg[0] == SLASH {
      CopyText(out, arg, size);
      return;
    }
    CopyText(out, current, size);
    AppendPath(Fitting(current, size), arg, out, size);
    FittingAppend(current, arg, size);
  }

  /** What the relative case appends to the (cut) current path `c`. */
  function Separator(c: seq<Byte>, size: nat): seq<Byte> {
    if c != [] && c[|c| - 1] != SLASH && |c| + 1 < size then [SLASH] else []
  }

  method AppendPath(c: seq<Byte>, arg: seq<Byte>, out: array<Byte>, size: nat)
    requires Plain(c) && Plain(arg) && |c| < size <= out.Length
    requires out[..|c| + 1] == c + [0]
    modifies out
    ensures Text(out[..]) == c + Separator(c, size) + Fitting(arg, size - |c| - |Separator(c, size)|)
  {
    hide Text, Length;
    TextHead(out[..], c);
    assert out[..|c|] == c;
    var len := |c|;
    if len > 0 && out[len - 1] != SLASH && len < size - 1 {
      out[len] := SLASH;
      out[len + 1] := 0;
      len := len + 1;
    }
    ghost var head := c + Separator(c, size);
    assert out[..len] == head;
    var _ := Strlcpy(out, len, arg, size - len);
    TextIs(out[..], head + Fitting(arg, size - len));
  }

  /** Cutting at every step leaves the same as cutting the whole path once. */
  lemma FittingAppend(current: seq<Byte>, arg: seq<Byte>, size: nat)
    requires arg != [] && arg[0] != SLASH && 0 < size
    ensures var c := Fitting(current, size); var sep := Separator(c, size);
      c + sep + Fitting(arg, size - |c| - |sep|) == Fitting(Resolved(current, arg), size)
  {
    var c := Fitting(current, size);
    if |current| >= size {
      assert Resolved(current, arg)[..size - 1] == current[..size - 1];
    }
  }

  method CopyText(out: array<Byte>, src: seq<Byte>, size: nat)
    requires Plain(src) && 0 < size <= out.Length
    modifies out
    ensures Text(out[..]) == Fitting(src, size)
    ensures out[..|Fitting(src, size)| + 1] == Fitting(src, size) + [0]
  {
    var _ := Strlcpy(out, 0, src, size);
    TextIs(out[..], Fitting(src, size));
  }

  lemma TextIs(s: seq<Byte>, t: seq<Byte>)
    requires Plain(t) && |t| < |s| && s[..|t| + 1] == t + [0]
    ensures Text(s) == t
  {
    assert forall i :: 0 <= i < |t| ==> s[i] == s[..|t| + 1][i] == t[i];
    assert s[|t|] == s[..|t| + 1][|t|] == 0;
    assert Length(s) == |t|;
  }

  lemma TextHead(s: seq<Byte>, t: seq<Byte>)
    requires |t| < |s| && s[..|t| + 1] == t + [0]
    ensures s[..|t|] == t
  {
    assert s[..|t|] == s[..|t| + 1][..|t|];
  }

  /** The index of the last slash, or 0. */
  function LastSlash(p: seq<Byte>): (k: nat)
    ensures k < |p| || k == 0
    ensures k > 0 ==> p[k] == SLASH
    ensures forall i :: k < i < |p| ==> p[i] != SLASH
  {
    if p == [] then 0
    else if p[|p| - 1] == SLASH then |p| - 1
    else LastSlash(p[..|p| - 1])
  }

  function ParentOf(p: seq<Byte>): seq<Byte> { if LastSlash(p) == 0 then [SLASH] else p[..LastSlash(p)] }

  function BaseOf(p: seq<Byte>): seq<Byte>
    requires p != []
  {
    p[LastSlash(p) + 1..]
  }

  /** path_parent_and_name fills in both parts, cut to what the buffers hold. */
  method PathParentAndName(resolved: seq<Byte>, parent: array<Byte>, psz: nat, base: array<Byte>, bsz: nat)
    requires Plain(resolved) && resolved != [] && parent != base
    requires 0 < psz <= parent.Length && 0 < bsz <= base.Length
    modifies parent, base
    ensures Text(parent[..]) == Fitting(ParentOf(resolved), psz)
    ensures Text(base[..]) == Fitting(BaseOf(resolved), bsz)
  {
    var last := FindLastSlash(resolved);
    if last == 0 {
      CopyText(parent, [SLASH], psz);
    } else {
      CopyParent(resolved, last, parent, psz);
    }
    CopyText(base, resolved[last + 1..], bsz);
  }

  method FindLastSlash(resolved: seq<Byte>) returns (last: nat)
    requires Plain(resolved)
    ensures last == LastSlash(resolved)
  {
    last := 0;
    var k := 0;
    while At(resolved, k) != 0
      invariant k <= |resolved| && last == LastSlash(resolved[..k])
      decreases |resolved| - k
    {
      assert resolved[..k + 1][..k] == resolved[..k];
      if resolved[k] == SLASH { last := k; }
      k := k + 1;
    }
    assert resolved[..k] == resolved;
  }

  method CopyParent(resolved: seq<Byte>, last: nat, parent: array<Byte>, psz: nat)
    requires Plain(resolved) && last < |resolved| && 0 < psz <= parent.Length
    modifies parent
    ensures Text(parent[..]) == Fitting(resolved[..last], psz)
  {
    var i := 0;
    while i < last && i < psz - 1
      invariant i <= last && i <= psz - 1 && parent[..i] == resolved[..i]
    {
      parent[i] := resolved[i];
      i := i + 1;
    }
    parent[i] := 0;
    TextIs(parent[..], resolved[..i]);
    assert resolved[..i] == Fitting(resolved[..last], psz);
  }

  /** Opening an absolute path is looking its base up in its opened parent. */
  lemma OpenIsLookupInParent(find: FindDir, root: Info, path: seq<Byte>)
    requires path != [] && path[0] == SLASH && ValidName(BaseOf(path))
    requires LastSlash(path) > 0 ==> path[LastSlash(path) - 1] != SLASH
    ensures Fold(find, root, Components(WithoutSlash(path))) ==
      match Fold(find, root, Components(WithoutSlash(ParentOf(path))))
      case Missing => Missing
      case Hit(dir) => Fold(find, dir, [BaseOf(path)])
  {
    var last := LastSlash(path);
    if last == 0 {
      assert WithoutSlash(path) == BaseOf(path);
      OnlyName(BaseOf(path));
    } else {
      var p := path[1..last];
      assert WithoutSlash(path) == p + [SLASH] + BaseOf(path);
      assert WithoutSlash(ParentOf(path)) == p;
      SplitLast(p, BaseOf(path));
      FoldAppend(find, root, Components(p), [BaseOf(path)]);
    }
  }
}
