/** The kernel heap: a first-fit allocator over one fixed region, kept as a
    doubly linked list of headers that lie between the payloads. */
module Heap {
  const HEADER_SIZE := 16
  const HEAP_SIZE := 0x10_0000
  const WORD := 0x1_0000_0000

  /** One header as it lies in memory; `next` and `prev` are addresses, 0 is null. */
  datatype Header = Header(size: int, isFree: bool, next: int, prev: int)

  /** One block of the list, with the address of its header. */
  datatype Block = Block(addr: int, size: int, isFree: bool)

  /** What a caller holds: the block's address and the bytes granted to it. */
  datatype Grant = Grant(addr: int, size: int)

  function End(b: Block): int { b.addr + HEADER_SIZE + b.size }

  /** The blocks cover [lo, hi) without gap or overlap. */
  ghost predicate Tiled(bs: seq<Block>, lo: int, hi: int) {
    && (forall i :: 0 <= i < |bs| ==> 0 <= bs[i].size)
    && (forall i, j :: 0 <= i < j < |bs| && j == i + 1 ==> bs[j].addr == End(bs[i]))
    && |bs| > 0 && bs[0].addr == lo && End(bs[|bs| - 1]) == hi
  }

  ghost predicate Coalesced(bs: seq<Block>) {
    forall i, j :: 0 <= i < j < |bs| && j == i + 1 ==> !bs[i].isFree || !bs[j].isFree
  }

  ghost predicate Canonical(bs: seq<Block>, lo: int, hi: int) {
    Tiled(bs, lo, hi) && Coalesced(bs)
  }

  function GrantOf(b: Block): Grant { Grant(b.addr, b.size) }

  /** The live blocks: everything that is not free. */
  ghost function Live(bs: seq<Block>): set<Grant> {
    set i | 0 <= i < |bs| && !bs[i].isFree :: GrantOf(bs[i])
  }

  lemma {:induction false} Ordered(bs: seq<Block>, lo: int, hi: int, i: nat, j: nat)
    requires Tiled(bs, lo, hi) && i < j < |bs|
    ensures lo <= bs[i].addr && End(bs[i]) <= bs[j].addr && End(bs[j]) <= hi
    decreases |bs| - i
  {
    if i > 0 { Below(bs, lo, hi, i); }
    if j < |bs| - 1 { Above(bs, lo, hi, j); }
    if i + 1 < j { Ordered(bs, lo, hi, i + 1, j); }
  }

  lemma {:induction false} Below(bs: seq<Block>, lo: int, hi: int, i: nat)
    requires Tiled(bs, lo, hi) && i < |bs|
    ensures lo <= bs[i].addr
  {
    if i > 0 { Below(bs, lo, hi, i - 1); assert bs[i].addr == End(bs[i - 1]); }
  }

  lemma {:induction false} Above(bs: seq<Block>, lo: int, hi: int, i: nat)
    requires Tiled(bs, lo, hi) && i < |bs|
    ensures End(bs[i]) <= hi
    decreases |bs| - i
  {
    if i < |bs| - 1 { Above(bs, lo, hi, i + 1); assert bs[i + 1].addr == End(bs[i]); }
  }

  lemma InLive(bs: seq<Block>, i: nat)
    requires i < |bs| && !bs[i].isFree
    ensures GrantOf(bs[i]) in Live(bs)
  {
  }

  /** If the first block of `bs` is live then `cs` starts with the same block. */
  lemma LiveHead(bs: seq<Block>, cs: seq<Block>, lo: int, hi: int)
    requires Tiled(bs, lo, hi) && Tiled(cs, lo, hi) && Live(bs) == Live(cs)
    requires !bs[0].isFree
    ensures bs[0] == cs[0]
  {
    InLive(bs, 0);
    var j :| 0 <= j < |cs| && !cs[j].isFree && GrantOf(cs[j]) == GrantOf(bs[0]);
    if j > 0 { Ordered(cs, lo, hi, 0, j); }
  }

  /** A free first block of `bs` cannot be shorter than the free first block of `cs`. */
  lemma FreeHead(bs: seq<Block>, cs: seq<Block>, lo: int, hi: int)
    requires Canonical(bs, lo, hi) && Canonical(cs, lo, hi) && Live(bs) == Live(cs)
    requires bs[0].isFree && cs[0].isFree
    ensures bs[0].size >= cs[0].size
  {
    if bs[0].size < cs[0].size {
      Above(cs, lo, hi, 0);
      assert |bs| > 1;
      InLive(bs, 1);
      var j :| 0 <= j < |cs| && !cs[j].isFree && GrantOf(cs[j]) == GrantOf(bs[1]);
      Ordered(cs, lo, hi, 0, j);
    }
  }

  lemma DropHead(bs: seq<Block>, lo: int, hi: int)
    requires Canonical(bs, lo, hi) && |bs| > 1
    ensures Canonical(bs[1..], End(bs[0]), hi)
    ensures Live(bs[1..]) == Live(bs) - {GrantOf(bs[0])}
  {
    var rest := bs[1..];
    assert Tiled(rest, End(bs[0]), hi);
    forall i | 0 <= i < |bs| - 1 ensures rest[i] == bs[i + 1] && bs[i + 1].addr != bs[0].addr {
      Ordered(bs, lo, hi, 0, i + 1);
    }
    forall g | g in Live(bs) - {GrantOf(bs[0])} ensures g in Live(rest) {
      var i :| 0 <= i < |bs| && !bs[i].isFree && GrantOf(bs[i]) == g;
      InLive(rest, i - 1);
    }
  }

  /** The block list is determined by the live blocks alone. */
  lemma {:induction false} CanonicalUnique(bs: seq<Block>, cs: seq<Block>, lo: int, hi: int)
    requires Canonical(bs, lo, hi) && Canonical(cs, lo, hi)
    requires Live(bs) == Live(cs)
    ensures bs == cs
    decreases |bs|
  {
    if !bs[0].isFree {
      LiveHead(bs, cs, lo, hi);
    } else if !cs[0].isFree {
      LiveHead(cs, bs, lo, hi);
    } else {
      FreeHead(bs, cs, lo, hi);
      FreeHead(cs, bs, lo, hi);
    }
    if |bs| > 1 {
      Ordered(bs, lo, hi, 0, |bs| - 1);
      assert |cs| > 1;
      DropHead(bs, lo, hi);
      DropHead(cs, lo, hi);
      CanonicalUnique(bs[1..], cs[1..], End(bs[0]), hi);
      assert bs == [bs[0]] + bs[1..] && cs == [cs[0]] + cs[1..];
    } else {
      if |cs| > 1 { Ordered(cs, lo, hi, 0, |cs| - 1); }
    }
  }

  // ---- What kmalloc does to the list ----

  predicate Fits(b: Block, n: int) { b.isFree && b.size >= n }

  /** The index of the first block that fits, or the length of the list. */
  function FirstFit(bs: seq<Block>, n: int): (k: nat)
    ensures k <= |bs|
    ensures forall j :: 0 <= j < k ==> !Fits(bs[j], n)
    ensures k < |bs| ==> Fits(bs[k], n)
  {
    if bs == [] || Fits(bs[0], n) then 0 else
      var r := FirstFit(bs[1..], n);
      assert forall j :: 1 <= j < r + 1 ==> bs[j] == bs[1..][j - 1];
      1 + r
  }

  function Splits(b: Block, n: int): bool { b.size >= n + HEADER_SIZE + 1 }

  function GrantedSize(b: Block, n: int): int { if Splits(b, n) then n else b.size }

  function Carved(b: Block, n: int): seq<Block> {
    if Splits(b, n) then
      [Block(b.addr, n, false), Block(b.addr + HEADER_SIZE + n, b.size - n - HEADER_SIZE, true)]
    else [Block(b.addr, b.size, false)]
  }

  function Allocated(bs: seq<Block>, k: nat, n: int): seq<Block>
    requires k < |bs|
  {
    bs[..k] + Carved(bs[k], n) + bs[k + 1..]
  }

  lemma AllocatedAt(bs: seq<Block>, k: nat, n: int, i: nat)
    requires k < |bs| && i < |Allocated(bs, k, n)|
    ensures |Allocated(bs, k, n)| == |bs| - 1 + |Carved(bs[k], n)|
    ensures Allocated(bs, k, n)[i] ==
      if i < k then bs[i] else if i < k + |Carved(bs[k], n)| then Carved(bs[k], n)[i - k]
      else bs[i + 1 - |Carved(bs[k], n)|]
  {
  }

  lemma AllocatedKeeps(bs: seq<Block>, k: nat, n: int, lo: int, hi: int)
    requires Canonical(bs, lo, hi) && k < |bs| && Fits(bs[k], n) && 0 <= n
    ensures Canonical(Allocated(bs, k, n), lo, hi)
  {
    var cs := Allocated(bs, k, n);
    forall i | 0 <= i < |cs| ensures 0 <= cs[i].size { AllocatedAt(bs, k, n, i); }
    forall i, j | 0 <= i < j < |cs| && j == i + 1
      ensures cs[j].addr == End(cs[i]) && (!cs[i].isFree || !cs[j].isFree)
    {
      AllocatedAt(bs, k, n, i);
      AllocatedAt(bs, k, n, j);
    }
    AllocatedAt(bs, k, n, 0);
    AllocatedAt(bs, k, n, |cs| - 1);
  }

  /** Allocation adds exactly one live block, which was not live before. */
  lemma AllocatedLive(bs: seq<Block>, k: nat, n: int, lo: int, hi: int)
    requires Canonical(bs, lo, hi) && k < |bs| && Fits(bs[k], n) && 0 <= n
    ensures var g := Grant(bs[k].addr, GrantedSize(bs[k], n));
      g !in Live(bs) && Live(Allocated(bs, k, n)) == Live(bs) + {g}
  {
    var cs := Allocated(bs, k, n);
    var g := Grant(bs[k].addr, GrantedSize(bs[k], n));
    forall i | 0 <= i < |bs| && !bs[i].isFree ensures GrantOf(bs[i]) != g {
      if i < k { Ordered(bs, lo, hi, i, k); } else if k < i { Ordered(bs, lo, hi, k, i); }
    }
    forall h | h in Live(bs) + {g} ensures h in Live(cs) {
      if h == g {
        AllocatedAt(bs, k, n, k);
        InLive(cs, k);
      } else {
        var i :| 0 <= i < |bs| && !bs[i].isFree && GrantOf(bs[i]) == h;
        var j := if i < k then i else i - 1 + |Carved(bs[k], n)|;
        AllocatedAt(bs, k, n, j);
        InLive(cs, j);
      }
    }
    forall h | h in Live(cs) ensures h in Live(bs) + {g} {
      var j :| 0 <= j < |cs| && !cs[j].isFree && GrantOf(cs[j]) == h;
      AllocatedAt(bs, k, n, j);
      if j < k { InLive(bs, j); }
      if j >= k + |Carved(bs[k], n)| { InLive(bs, j + 1 - |Carved(bs[k], n)|); }
    }
  }

  /** Nothing is wasted: the block granted is the first that fits, cut to the size asked for
      when at least one byte is left behind a header for the rest, which is free then. */
  lemma AllocatedTight(bs: seq<Block>, k: nat, n: int, lo: int, hi: int)
    requires Canonical(bs, lo, hi) && k < |bs| && Fits(bs[k], n) && 0 <= n
    ensures var b, cs := bs[k], Allocated(bs, k, n);
      if b.size > n + 16
      then k + 1 < |cs| && cs[k] == Block(b.addr, n, false)
           && cs[k + 1] == Block(b.addr + 16 + n, b.size - n - 16, true)
      else k < |cs| && cs[k] == Block(b.addr, b.size, false) && n <= b.size <= n + 16
  {
    AllocatedAt(bs, k, n, k);
    if bs[k].size > n + 16 { AllocatedAt(bs, k, n, k + 1); }
  }

  /** Block i is free and large enough, and none before it is. */
  predicate FirstToFit(bs: seq<Block>, n: int, i: nat) {
    i < |bs| && bs[i].isFree && bs[i].size >= n && forall j :: 0 <= j < i ==> !(bs[j].isFree && bs[j].size >= n)
  }

  /** So when the first block that fits n has room for k bytes more and their header, kmalloc(n)
      leaves room for kmalloc(k). */
  lemma RoomBehind(bs: seq<Block>, n: int, p: int, cs: seq<Block>, k: int, lo: int, hi: int)
    requires Canonical(bs, lo, hi) && Step(bs, Malloc(n, p), cs) && 1 <= k
    requires exists i: nat :: FirstToFit(bs, n, i) && bs[i].size >= n + 16 + k
    ensures exists i :: 0 <= i < |cs| && cs[i].isFree && cs[i].size >= k
  {
    var i := FirstFit(bs, n);
    AllocatedTight(bs, i, n, lo, hi);
    assert cs[i + 1].isFree && cs[i + 1].size >= k;
  }

  // ---- What kfree does to the list ----

  function Released(bs: seq<Block>, k: nat): seq<Block>
    requires k < |bs|
  {
    bs[k := bs[k].(isFree := true)]
  }

  /** Block k swallows its right neighbour. */
  function Merged(bs: seq<Block>, k: nat): seq<Block>
    requires k + 1 < |bs|
  {
    bs[..k] + [bs[k].(size := bs[k].size + HEADER_SIZE + bs[k + 1].size)] + bs[k + 2..]
  }

  function MergedRight(bs: seq<Block>, k: nat): seq<Block>
    requires k < |bs|
  {
    if k + 1 < |bs| && bs[k + 1].isFree then Merged(bs, k) else bs
  }

  function MergedLeft(bs: seq<Block>, k: nat): seq<Block>
    requires k < |bs|
  {
    if k > 0 && bs[k - 1].isFree then Merged(bs, k - 1) else bs
  }

  lemma ReleasedLive(bs: seq<Block>, k: nat, lo: int, hi: int)
    requires Tiled(bs, lo, hi) && k < |bs| && !bs[k].isFree
    ensures Tiled(Released(bs, k), lo, hi)
    ensures Live(Released(bs, k)) == Live(bs) - {GrantOf(bs[k])}
  {
    var cs := Released(bs, k);
    forall i | 0 <= i < |bs| && i != k ensures bs[i].addr != bs[k].addr {
      if i < k { Ordered(bs, lo, hi, i, k); } else { Ordered(bs, lo, hi, k, i); }
    }
    forall h | h in Live(bs) - {GrantOf(bs[k])} ensures h in Live(cs) {
      var i :| 0 <= i < |bs| && !bs[i].isFree && GrantOf(bs[i]) == h;
      InLive(cs, i);
    }
  }

  lemma MergedTiled(bs: seq<Block>, k: nat, lo: int, hi: int)
    requires Tiled(bs, lo, hi) && k + 1 < |bs|
    ensures Tiled(Merged(bs, k), lo, hi)
  {
    var cs := Merged(bs, k);
    assert forall i :: 0 <= i < |cs| ==> cs[i] == if i < k then bs[i] else if i == k
      then bs[k].(size := bs[k].size + HEADER_SIZE + bs[k + 1].size) else bs[i + 1];
  }

  lemma MergedLive(bs: seq<Block>, k: nat, lo: int, hi: int)
    requires Tiled(bs, lo, hi) && k + 1 < |bs| && bs[k].isFree && bs[k + 1].isFree
    ensures Tiled(Merged(bs, k), lo, hi)
    ensures Live(Merged(bs, k)) == Live(bs)
  {
    hide Tiled;
    MergedTiled(bs, k, lo, hi);
    var cs := Merged(bs, k);
    forall h | h in Live(bs) ensures h in Live(cs) {
      var i :| 0 <= i < |bs| && !bs[i].isFree && GrantOf(bs[i]) == h;
      InLive(cs, if i < k then i else i - 1);
    }
    forall h | h in Live(cs) ensures h in Live(bs) {
      var i :| 0 <= i < |cs| && !cs[i].isFree && GrantOf(cs[i]) == h;
      InLive(bs, if i < k then i else i + 1);
    }
  }

  /** Free block k, the only place where two free blocks may touch, is merged away. */
  lemma MergesCoalesce(bs: seq<Block>, k: nat)
    requires k < |bs| && bs[k].isFree
    requires forall i, j :: 0 <= i < j < |bs| && j == i + 1 && i != k && j != k ==>
      !bs[i].isFree || !bs[j].isFree
    ensures k < |MergedRight(bs, k)| && MergedRight(bs, k)[k].isFree
    ensures k > 0 ==> MergedRight(bs, k)[k - 1] == bs[k - 1]
    ensures Coalesced(MergedLeft(MergedRight(bs, k), k))
  {
  }

  function Freed(bs: seq<Block>, k: nat): seq<Block>
    requires k < |bs|
  {
    var right := MergedRight(Released(bs, k), k);
    if k < |right| then MergedLeft(right, k) else right
  }

  /** Freeing removes exactly one live block and leaves the list canonical. */
  lemma FreedKeeps(bs: seq<Block>, k: nat, lo: int, hi: int)
    requires Canonical(bs, lo, hi) && k < |bs| && !bs[k].isFree
    ensures Canonical(Freed(bs, k), lo, hi)
    ensures Live(Freed(bs, k)) == Live(bs) - {GrantOf(bs[k])}
  {
    var released := Released(bs, k);
    ReleasedLive(bs, k, lo, hi);
    MergesCoalesce(released, k);
    if k + 1 < |released| && released[k + 1].isFree { MergedLive(released, k, lo, hi); }
    var right := MergedRight(released, k);
    if k > 0 && right[k - 1].isFree { MergedLive(right, k - 1, lo, hi); }
  }

  // ---- Runs ----

  /** A call together with its pointer: kmalloc's result or kfree's argument. */
  datatype Op = Malloc(n: int, p: int) | Free(p: int)

  ghost predicate Step(bs: seq<Block>, op: Op, cs: seq<Block>) {
    match op
    case Malloc(n, p) =>
      var k := FirstFit(bs, n);
      0 <= n < WORD &&
      if k == |bs| then p == 0 && cs == bs
      else p == bs[k].addr + HEADER_SIZE && cs == Allocated(bs, k, n)
    case Free(p) =>
      if p == 0 then cs == bs
      else exists k :: 0 <= k < |bs| && FreesAt(bs, k, p, cs)
  }

  ghost predicate FreesAt(bs: seq<Block>, k: nat, p: int, cs: seq<Block>)
    requires k < |bs|
  {
    !bs[k].isFree && bs[k].addr + HEADER_SIZE == p && cs == Freed(bs, k)
  }

  lemma StepKeeps(bs: seq<Block>, op: Op, cs: seq<Block>, lo: int, hi: int)
    requires Canonical(bs, lo, hi) && Step(bs, op, cs)
    ensures Canonical(cs, lo, hi)
  {
    match op
    case Malloc(n, p) =>
      var k := FirstFit(bs, n);
      if k < |bs| { AllocatedKeeps(bs, k, n, lo, hi); }
    case Free(p) =>
      if p != 0 {
        var k :| 0 <= k < |bs| && FreesAt(bs, k, p, cs);
        FreedKeeps(bs, k, lo, hi);
      }
  }

  function Initial(lo: int, hi: int): seq<Block> { [Block(lo, hi - lo - HEADER_SIZE, true)] }

  /** A run from the initial heap: states[i + 1] follows from states[i] by ops[i]. */
  ghost predicate IsRun(states: seq<seq<Block>>, ops: seq<Op>, lo: int, hi: int) {
    && |states| == |ops| + 1 && states[0] == Initial(lo, hi) && lo + HEADER_SIZE <= hi
    && forall i :: 0 <= i < |ops| ==> Step(states[i], ops[i], states[i + 1])
  }

  /** Every state of every run tiles the region, with no two free neighbours. */
  lemma {:induction false} RunCanonical(states: seq<seq<Block>>, ops: seq<Op>, lo: int, hi: int, i: nat)
    requires IsRun(states, ops, lo, hi) && i < |states|
    ensures Canonical(states[i], lo, hi)
  {
    if i > 0 {
      RunCanonical(states, ops, lo, hi, i - 1);
      StepKeeps(states[i - 1], ops[i - 1], states[i], lo, hi);
    }
  }

  /** Whenever the same blocks are live, the list is the same, whatever happened in between. */
  lemma BalancedRunRestores(states: seq<seq<Block>>, ops: seq<Op>, lo: int, hi: int, i: nat, j: nat)
    requires IsRun(states, ops, lo, hi) && i < |states| && j < |states|
    requires Live(states[i]) == Live(states[j])
    ensures states[i] == states[j]
  {
    RunCanonical(states, ops, lo, hi, i);
    RunCanonical(states, ops, lo, hi, j);
    CanonicalUnique(states[i], states[j], lo, hi);
  }

  lemma AllFreedIsInitial(states: seq<seq<Block>>, ops: seq<Op>, lo: int, hi: int, i: nat)
    requires IsRun(states, ops, lo, hi) && i < |states|
    requires Live(states[i]) == {}
    ensures states[i] == Initial(lo, hi)
  {
    BalancedRunRestores(states, ops, lo, hi, 0, i);
  }

  /** The pointer alone decides which block kfree removes. */
  lemma FreeLive(bs: seq<Block>, k: nat, p: int, cs: seq<Block>, lo: int, hi: int)
    requires Canonical(bs, lo, hi) && k < |bs| && !bs[k].isFree && bs[k].addr + HEADER_SIZE == p != 0
    requires Step(bs, Free(p), cs)
    ensures Canonical(cs, lo, hi) && Live(cs) == Live(bs) - {GrantOf(bs[k])}
  {
    var j :| 0 <= j < |bs| && FreesAt(bs, j, p, cs);
    if j < k { Ordered(bs, lo, hi, j, k); } else if k < j { Ordered(bs, lo, hi, k, j); }
    FreedKeeps(bs, k, lo, hi);
  }

  /** kfree undoes kmalloc on the whole list. */
  lemma FreeUndoesMalloc(bs: seq<Block>, n: int, p: int, cs: seq<Block>, ds: seq<Block>, lo: int, hi: int)
    requires 0 < lo && Canonical(bs, lo, hi)
    requires Step(bs, Malloc(n, p), cs) && Step(cs, Free(p), ds)
    ensures ds == bs
  {
    var k := FirstFit(bs, n);
    if k < |bs| {
      Below(bs, lo, hi, k);
      AllocatedKeeps(bs, k, n, lo, hi);
      AllocatedLive(bs, k, n, lo, hi);
      AllocatedAt(bs, k, n, k);
      if p != 0 {
        FreeLive(cs, k, p, ds, lo, hi);
        CanonicalUnique(ds, bs, lo, hi);
      }
    }
  }

  /** Two live blocks never share a byte, and every payload lies inside the region. */
  lemma LiveDisjoint(bs: seq<Block>, lo: int, hi: int, g: Grant, h: Grant)
    requires Tiled(bs, lo, hi) && g in Live(bs) && h in Live(bs)
    ensures lo <= g.addr && g.addr + HEADER_SIZE + g.size <= hi
    ensures g == h || g.addr + HEADER_SIZE + g.size <= h.addr || h.addr + HEADER_SIZE + h.size <= g.addr
  {
    var i :| 0 <= i < |bs| && !bs[i].isFree && GrantOf(bs[i]) == g;
    var j :| 0 <= j < |bs| && !bs[j].isFree && GrantOf(bs[j]) == h;
    Below(bs, lo, hi, i);
    Above(bs, lo, hi, i);
    if i < j { Ordered(bs, lo, hi, i, j); } else if j < i { Ordered(bs, lo, hi, j, i); }
  }

  /** An address names at most one live block. */
  lemma GrantAt(bs: seq<Block>, lo: int, hi: int, g: Grant, h: Grant)
    requires Tiled(bs, lo, hi) && g in Live(bs) && h in Live(bs) && g.addr == h.addr
    ensures g == h
  {
    LiveDisjoint(bs, lo, hi, g, h);
    var i :| 0 <= i < |bs| && !bs[i].isFree && GrantOf(bs[i]) == g;
    assert bs[i].size >= 0;
  }

  // ---- The list in memory ----

  function NextAddr(bs: seq<Block>, i: nat): int { if i + 1 < |bs| then bs[i + 1].addr else 0 }

  function PrevAddr(bs: seq<Block>, i: nat): int
    requires i <= |bs|
  {
    if i > 0 then bs[i - 1].addr else 0
  }

  function HeaderOf(bs: seq<Block>, i: nat): Header
    requires i < |bs|
  {
    Header(bs[i].size, bs[i].isFree, NextAddr(bs, i), PrevAddr(bs, i))
  }

  /** Every block's header lies at its address, linked both ways. */
  ghost predicate Linked(mem: map<int, Header>, bs: seq<Block>) {
    forall i :: 0 <= i < |bs| ==> LinkedAt(mem, bs, i)
  }

  ghost predicate LinkedAt(mem: map<int, Header>, bs: seq<Block>, i: nat)
    requires i < |bs|
  {
    bs[i].addr in mem && mem[bs[i].addr] == HeaderOf(bs, i)
  }

  lemma LinkedBlock(mem: map<int, Header>, bs: seq<Block>, i: nat)
    requires Linked(mem, bs) && i < |bs|
    ensures LinkedAt(mem, bs, i)
  {
  }

  lemma AddressesDistinct(bs: seq<Block>, lo: int, hi: int, k: nat)
    requires Tiled(bs, lo, hi) && k < |bs|
    ensures forall i :: 0 <= i < |bs| && i != k ==> bs[i].addr != bs[k].addr
  {
    forall i | 0 <= i < |bs| && i != k ensures bs[i].addr != bs[k].addr {
      if i < k { Ordered(bs, lo, hi, i, k); } else { Ordered(bs, lo, hi, k, i); }
    }
  }

  lemma MarkLinked(mem: map<int, Header>, bs: seq<Block>, k: nat, free: bool)
    requires Linked(mem, bs) && k < |bs|
    requires forall i :: 0 <= i < |bs| && i != k ==> bs[i].addr != bs[k].addr
    ensures bs[k].addr in mem
    ensures Linked(mem[bs[k].addr := mem[bs[k].addr].(isFree := free)], bs[k := bs[k].(isFree := free)])
  {
    assert LinkedAt(mem, bs, k);
    var mem', cs := mem[bs[k].addr := mem[bs[k].addr].(isFree := free)], bs[k := bs[k].(isFree := free)];
    forall i | 0 <= i < |cs| ensures LinkedAt(mem', cs, i) {
      assert LinkedAt(mem, bs, i);
    }
  }

  /** What absorbing the right neighbour stores: one header grows, one back link moves. */
  function MergeMem(mem: map<int, Header>, at: int): map<int, Header>
    requires at in mem && mem[at].next in mem && (mem[mem[at].next].next != 0 ==> mem[mem[at].next].next in mem)
  {
    var h := mem[at];
    var right := mem[h.next];
    var m := mem[at := h.(size := h.size + HEADER_SIZE + right.size, next := right.next)];
    if right.next == 0 then m else m[right.next := m[right.next].(prev := at)]
  }

  lemma MergeLinked(mem: map<int, Header>, bs: seq<Block>, k: nat, lo: int, hi: int)
    requires Linked(mem, bs) && Tiled(bs, lo, hi) && k + 1 < |bs| && 0 < lo
    ensures bs[k].addr in mem && mem[bs[k].addr].next in mem
    ensures var right := mem[mem[bs[k].addr].next]; right.next != 0 ==> right.next in mem
    ensures Linked(MergeMem(mem, bs[k].addr), Merged(bs, k))
  {
    assert LinkedAt(mem, bs, k) && LinkedAt(mem, bs, k + 1);
    if k + 2 < |bs| { assert LinkedAt(mem, bs, k + 2); }
    var cs := Merged(bs, k);
    forall i | 0 <= i < |cs| ensures LinkedAt(MergeMem(mem, bs[k].addr), cs, i) {
      MergeLinkedAt(mem, bs, k, lo, hi, i);
    }
  }

  /** Addresses grow along the list, with whole blocks in between. */
  lemma Before(bs: seq<Block>, lo: int, hi: int, i: nat, j: nat)
    requires Tiled(bs, lo, hi) && i < j < |bs|
    ensures lo <= bs[i].addr < End(bs[i]) <= bs[j].addr
  {
    Ordered(bs, lo, hi, i, j);
  }

  lemma MergeLinkedAt(mem: map<int, Header>, bs: seq<Block>, k: nat, lo: int, hi: int, i: nat)
    requires Linked(mem, bs) && Tiled(bs, lo, hi) && k + 1 < |bs| && 0 < lo && i < |bs| - 1
    requires LinkedAt(mem, bs, k) && LinkedAt(mem, bs, k + 1)
    requires k + 2 < |bs| ==> LinkedAt(mem, bs, k + 2)
    ensures LinkedAt(MergeMem(mem, bs[k].addr), Merged(bs, k), i)
  {
    hide Linked, Tiled;
    var cs := Merged(bs, k);
    assert forall j :: 0 <= j < |cs| && j != k ==> cs[j] == if j < k then bs[j] else bs[j + 1];
    Below(bs, lo, hi, k);
    Before(bs, lo, hi, k, k + 1);
    if k + 2 < |bs| { Before(bs, lo, hi, k + 1, k + 2); }
    if i < k {
      LinkedBlock(mem, bs, i);
      Before(bs, lo, hi, i, k);
    } else if i > k {
      LinkedBlock(mem, bs, i + 1);
      if i > k + 1 { Before(bs, lo, hi, k + 2, i + 1); }
    }
  }

  /** What a split stores: the new header, and its address in both neighbours. */
  function SplitMem(mem: map<int, Header>, at: int, n: int): map<int, Header>
    requires at in mem && (mem[at].next != 0 ==> mem[at].next in mem)
  {
    var newBlock := at + HEADER_SIZE + n;
    var h := mem[at];
    var m := mem[newBlock := Header(h.size - n - HEADER_SIZE, true, h.next, at)];
    (if h.next == 0 then m else m[h.next := m[h.next].(prev := newBlock)])
      [at := h.(next := newBlock, size := n)]
  }

  lemma SplitLinked(mem: map<int, Header>, bs: seq<Block>, k: nat, n: int, lo: int, hi: int, mem': map<int, Header>)
    requires Linked(mem, bs) && Tiled(bs, lo, hi) && k < |bs| && Splits(bs[k], n) && 0 < lo && 0 <= n
    requires bs[k].isFree && bs[k].addr in mem && (NextAddr(bs, k) != 0 ==> NextAddr(bs, k) in mem)
    requires mem[bs[k].addr] == HeaderOf(bs, k)
    requires mem' == SplitMem(mem, bs[k].addr, n)
    ensures Linked(mem', Allocated(bs, k, n)[k := Block(bs[k].addr, n, true)])
  {
    var cs := Allocated(bs, k, n)[k := Block(bs[k].addr, n, true)];
    assert |cs| == |bs| + 1;
    forall i | 0 <= i < |cs| ensures LinkedAt(mem', cs, i) {
      SplitLinkedAt(mem, bs, k, n, lo, hi, i);
    }
  }

  lemma SplitLinkedAt(mem: map<int, Header>, bs: seq<Block>, k: nat, n: int, lo: int, hi: int, i: nat)
    requires Linked(mem, bs) && Tiled(bs, lo, hi) && k < |bs| && Splits(bs[k], n) && 0 < lo && 0 <= n
    requires bs[k].isFree && bs[k].addr in mem && (NextAddr(bs, k) != 0 ==> NextAddr(bs, k) in mem)
    requires mem[bs[k].addr] == HeaderOf(bs, k)
    requires i <= |bs|
    ensures LinkedAt(SplitMem(mem, bs[k].addr, n), Allocated(bs, k, n)[k := Block(bs[k].addr, n, true)], i)
  {
    hide Linked, Tiled;
    var cs := Allocated(bs, k, n)[k := Block(bs[k].addr, n, true)];
    Below(bs, lo, hi, k);
    AllocatedAt(bs, k, n, i);
    if i > 0 { AllocatedAt(bs, k, n, i - 1); }
    if i + 1 < |cs| { AllocatedAt(bs, k, n, i + 1); }
    if k + 1 < |bs| { LinkedBlock(mem, bs, k + 1); Before(bs, lo, hi, k, k + 1); }
    if i < k {
      LinkedBlock(mem, bs, i);
      Before(bs, lo, hi, i, k);
    } else if i > k + 1 {
      LinkedBlock(mem, bs, i - 1);
      Before(bs, lo, hi, k, i - 1);
      if i > k + 2 { Before(bs, lo, hi, k + 1, i - 1); }
    }
  }

  class Heap {
    var mem: map<int, Header>
    const start: int
    ghost var blocks: seq<Block>

    ghost predicate Valid()
      reads this
    {
      && 0 < start && start + HEAP_SIZE <= WORD
      && Canonical(blocks, start, start + HEAP_SIZE)
      && Linked(mem, blocks)
    }

    /** kheap_init: one free block spans the region. */
    constructor (at: int)
      requires 0 < at && at + HEAP_SIZE <= WORD
      ensures Valid() && start == at
      ensures blocks == [Block(at, HEAP_SIZE - HEADER_SIZE, true)] && Live(blocks) == {}
    {
      start := at;
      mem := map[at := Header(HEAP_SIZE - HEADER_SIZE, true, 0, 0)];
      blocks := [Block(at, HEAP_SIZE - HEADER_SIZE, true)];
    }

    method Kmalloc(n: int) returns (p: int)
      requires Valid() && 0 <= n < WORD
      modifies this
      ensures Valid()
      ensures Step(old(blocks), Malloc(n, p), blocks)
      ensures p == 0 <==> forall i :: 0 <= i < |old(blocks)| ==> !(old(blocks)[i].isFree && old(blocks)[i].size >= n)
      ensures p != 0 ==>
        var b := old(blocks)[FirstFit(old(blocks), n)];
        p == b.addr + HEADER_SIZE &&
        var g := Grant(b.addr, GrantedSize(b, n));
        g.size >= n && g !in Live(old(blocks)) && Live(blocks) == Live(old(blocks)) + {g}
      ensures p != 0 ==>
        var b := old(blocks)[FirstFit(old(blocks), n)];
        if b.size > n + 16
        then Block(b.addr, n, false) in blocks && Block(b.addr + 16 + n, b.size - n - 16, true) in blocks
        else Block(b.addr, b.size, false) in blocks && n <= b.size <= n + 16
    {
      hide Carved, Allocated, Live, Coalesced;
      ghost var k := 0;
      ghost var fit := FirstFit(blocks, n);
      var current := start;
      while current != 0
        invariant Valid() && blocks == old(blocks) && mem == old(mem)
        invariant k <= fit && k <= |blocks|
        invariant current == if k < |blocks| then blocks[k].addr else 0
        decreases |blocks| - k
      {
        assert LinkedAt(mem, blocks, k);
        if mem[current].isFree && mem[current].size >= n {
          assert Fits(blocks[k], n);
          Below(blocks, start, start + HEAP_SIZE, k);
          AllocatedLive(blocks, k, n, start, start + HEAP_SIZE);
          AllocatedTight(blocks, k, n, start, start + HEAP_SIZE);
          Take(current, n, k);
          return current + HEADER_SIZE;
        }
        if k + 1 < |blocks| { Below(blocks, start, start + HEAP_SIZE, k + 1); }
        current := mem[current].next;
        k := k + 1;
      }
      if k < |blocks| { Below(blocks, start, start + HEAP_SIZE, k); }
      assert k == fit == |blocks|;
      p := 0;
    }

    /** kfree: the pointer is null or names a live block. */
    method Kfree(p: int)
      requires Valid()
      requires p != 0 ==> exists g :: g in Live(blocks) && g.addr + HEADER_SIZE == p
      modifies this
      ensures Valid() && Step(old(blocks), Free(p), blocks)
      ensures p != 0 ==> exists g :: g in Live(old(blocks)) && g.addr + HEADER_SIZE == p &&
                                     Live(blocks) == Live(old(blocks)) - {g}
    {
      ghost var before := blocks;
      if p == 0 { return; }
      var header := p - HEADER_SIZE;
      ghost var g :| g in Live(blocks) && g.addr + HEADER_SIZE == p;
      ghost var k :| 0 <= k < |blocks| && !blocks[k].isFree && GrantOf(blocks[k]) == g;
      FreedKeeps(blocks, k, start, start + HEAP_SIZE);
      FreeBlock(header, k);
      assert g in Live(before) && Live(blocks) == Live(before) - {g};
    }

    method FreeBlock(header: int, ghost k: nat)
      requires Valid() && k < |blocks| && !blocks[k].isFree && blocks[k].addr == header
      modifies this
      ensures FreesAt(old(blocks), k, header + HEADER_SIZE, blocks) && Linked(mem, blocks)
    {
      Release(header, k);
      MergesCoalesce(blocks, k);
      CoalesceNext(header, k);
      CoalescePrev(header, k);
    }

    method Release(header: int, ghost k: nat)
      requires Valid() && k < |blocks| && !blocks[k].isFree && blocks[k].addr == header
      modifies this
      ensures blocks == Released(old(blocks), k)
      ensures Tiled(blocks, start, start + HEAP_SIZE) && Linked(mem, blocks)
    {
      AddressesDistinct(blocks, start, start + HEAP_SIZE, k);
      MarkLinked(mem, blocks, k, true);
      ReleasedLive(blocks, k, start, start + HEAP_SIZE);
      mem := mem[header := mem[header].(isFree := true)];
      blocks := Released(blocks, k);
    }

    method CoalesceNext(header: int, ghost k: nat)
      requires 0 < start && Tiled(blocks, start, start + HEAP_SIZE) && Linked(mem, blocks)
      requires k < |blocks| && blocks[k].isFree && blocks[k].addr == header
      modifies this
      ensures blocks == MergedRight(old(blocks), k) && k < |blocks| && blocks[k].addr == header
      ensures Tiled(blocks, start, start + HEAP_SIZE) && Linked(mem, blocks)
    {
      assert LinkedAt(mem, blocks, k);
      if k + 1 < |blocks| { assert LinkedAt(mem, blocks, k + 1); Below(blocks, start, start + HEAP_SIZE, k + 1); }
      if mem[header].next != 0 && mem[mem[header].next].isFree {
        AbsorbNext(header, k);
      }
    }

    method CoalescePrev(header: int, ghost k: nat)
      requires 0 < start && Tiled(blocks, start, start + HEAP_SIZE) && Linked(mem, blocks)
      requires k < |blocks| && blocks[k].isFree && blocks[k].addr == header
      modifies this
      ensures blocks == MergedLeft(old(blocks), k)
      ensures Tiled(blocks, start, start + HEAP_SIZE) && Linked(mem, blocks)
    {
      assert LinkedAt(mem, blocks, k);
      if k > 0 { assert LinkedAt(mem, blocks, k - 1); Below(blocks, start, start + HEAP_SIZE, k - 1); }
      if mem[header].prev != 0 && mem[mem[header].prev].isFree {
        AbsorbNext(mem[header].prev, k - 1);
      }
    }

    /** The block at `at` swallows its free right neighbour. */
    method AbsorbNext(at: int, ghost k: nat)
      requires 0 < start && Tiled(blocks, start, start + HEAP_SIZE) && Linked(mem, blocks)
      requires k + 1 < |blocks| && blocks[k].isFree && blocks[k + 1].isFree && blocks[k].addr == at
      modifies this
      ensures blocks == Merged(old(blocks), k)
      ensures Tiled(blocks, start, start + HEAP_SIZE) && Linked(mem, blocks)
    {
      MergedLive(blocks, k, start, start + HEAP_SIZE);
      assert LinkedAt(mem, blocks, k) && LinkedAt(mem, blocks, k + 1);
      if k + 2 < |blocks| { assert LinkedAt(mem, blocks, k + 2); Below(blocks, start, start + HEAP_SIZE, k + 2); }
      Below(blocks, start, start + HEAP_SIZE, k + 1);
      var next := mem[at].next;
      var after := mem[next].next;
      mem := mem[at := mem[at].(size := mem[at].size + HEADER_SIZE + mem[next].size)];
      mem := mem[at := mem[at].(next := after)];
      if after != 0 {
        mem := mem[after := mem[after].(prev := at)];
      }
      blocks := Merged(blocks, k);
      assert mem == MergeMem(old(mem), at);
      MergeLinked(old(mem), old(blocks), k, start, start + HEAP_SIZE);
    }

    /** The found block is split when enough is left over, and handed out. */
    method Take(current: int, n: int, ghost k: nat)
      requires Valid() && 0 <= n < WORD
      requires k < |blocks| && Fits(blocks[k], n) && current == blocks[k].addr
      modifies this
      ensures Valid() && blocks == Allocated(old(blocks), k, n)
    {
      hide Live, Coalesced;
      assert LinkedAt(mem, blocks, k);
      Above(blocks, start, start + HEAP_SIZE, k);
      Below(blocks, start, start + HEAP_SIZE, k);
      AllocatedKeeps(blocks, k, n, start, start + HEAP_SIZE);
      // The 32-bit sum cannot wrap: the block is already known to hold n bytes.
      if mem[current].size >= (n + HEADER_SIZE + 1) % WORD {
        Split(current, n, k);
      }
      AddressesDistinct(Allocated(old(blocks), k, n), start, start + HEAP_SIZE, k);
      assert forall i :: 0 <= i < |blocks| ==> blocks[i].addr == Allocated(old(blocks), k, n)[i].addr;
      MarkLinked(mem, blocks, k, false);
      mem := mem[current := mem[current].(isFree := false)];
      blocks := blocks[k := blocks[k].(isFree := false)];
      assert blocks == Allocated(old(blocks), k, n);
    }

    method Split(current: int, n: int, ghost k: nat)
      requires Valid() && 0 <= n < WORD
      requires k < |blocks| && Fits(blocks[k], n) && Splits(blocks[k], n) && current == blocks[k].addr
      modifies this
      ensures blocks == Allocated(old(blocks), k, n)[k := Block(current, n, true)]
      ensures Linked(mem, blocks)
    {
      Below(blocks, start, start + HEAP_SIZE, k);
      assert LinkedAt(mem, blocks, k);
      if k + 1 < |blocks| { assert LinkedAt(mem, blocks, k + 1); Below(blocks, start, start + HEAP_SIZE, k + 1); }
      var newBlock := current + HEADER_SIZE + n;
      var next := mem[current].next;
      mem := mem[newBlock := Header(mem[current].size - n - HEADER_SIZE, true, next, current)];
      if next != 0 {
        mem := mem[next := mem[next].(prev := newBlock)];
      }
      mem := mem[current := mem[current].(next := newBlock)];
      mem := mem[current := mem[current].(size := n)];
      blocks := Allocated(blocks, k, n)[k := Block(current, n, true)];
      SplitLinked(old(mem), old(blocks), k, n, start, start + HEAP_SIZE, mem);
    }
  }
}
