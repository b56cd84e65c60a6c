/** Cluster chains: what the links of a FAT mean, how they grow and how they are freed. */
module FatChain {
  import opened Collections
  import opened Bytes
  import opened FatLayout
  import opened FatTable

  predicate EndMark(c: int) { c < 2 || c >= EOF_LO }

  // ---- Chains ----

  predicate Follows(value: int, ch: seq<int>, j: nat) {
    if j < |ch| then value == ch[j] else EndMark(value)
  }

  predicate LinkAt(fat: seq<int>, ch: seq<int>, i: nat)
    requires i < |ch|
  {
    2 <= ch[i] < |fat| && fat[ch[i]] != 0 && Follows(fat[ch[i]], ch, i + 1)
  }

  /** `ch` lists the clusters reached from `first`; it is in range, allocated and ends. */
  ghost predicate Chain(fat: seq<int>, first: int, ch: seq<int>) {
    Follows(first, ch, 0) && forall i :: 0 <= i < |ch| ==> LinkAt(fat, ch, i)
  }

  lemma {:induction false} SameTail(fat: seq<int>, first: int, a: seq<int>, b: seq<int>, i: nat, j: nat, k: nat)
    requires Chain(fat, first, a) && Chain(fat, first, b) && |fat| <= EOF_LO
    requires i + k < |a| && j < |b| && a[i] == b[j]
    ensures j + k < |b| && b[j + k] == a[i + k]
  {
    if k > 0 {
      SameTail(fat, first, a, b, i, j, k - 1);
      assert LinkAt(fat, a, i + k - 1) && LinkAt(fat, b, j + k - 1) && LinkAt(fat, a, i + k);
    }
  }

  /** A chain that ends never meets itself. */
  lemma ChainDistinct(fat: seq<int>, first: int, ch: seq<int>)
    requires Chain(fat, first, ch) && |fat| <= EOF_LO
    ensures Distinct(ch)
  {
    forall i, j | 0 <= i < j < |ch| ensures ch[i] != ch[j] {
      if ch[i] == ch[j] { SameTail(fat, first, ch, ch, i, j, |ch| - 1 - i); }
    }
  }

  /** The first cluster decides the whole chain. */
  lemma ChainUnique(fat: seq<int>, first: int, a: seq<int>, b: seq<int>)
    requires Chain(fat, first, a) && Chain(fat, first, b) && |fat| <= EOF_LO
    ensures a == b
  {
    if a != [] { assert LinkAt(fat, a, 0); }
    if b != [] { assert LinkAt(fat, b, 0); }
    if a != [] && b != [] {
      SameTail(fat, first, a, b, 0, 0, |a| - 1);
      SameTail(fat, first, b, a, 0, 0, |b| - 1);
      forall k | 0 <= k < |a| ensures a[k] == b[k] { SameTail(fat, first, a, b, 0, 0, k); }
    }
  }

  /** A chain depends only on its own links. */
  lemma ChainFrame(fat: seq<int>, fat': seq<int>, first: int, ch: seq<int>)
    requires Chain(fat, first, ch) && |fat'| == |fat|
    requires forall i :: 0 <= i < |ch| && 0 <= ch[i] < |fat| ==> fat'[ch[i]] == fat[ch[i]]
    ensures Chain(fat', first, ch)
  {
    forall i | 0 <= i < |ch| ensures LinkAt(fat', ch, i) { assert LinkAt(fat, ch, i); }
  }

  /** Linking a fresh cluster behind the last one extends the chain by it. */
  lemma ChainExtend(fat: seq<int>, first: int, ch: seq<int>, c: int)
    requires Chain(fat, first, ch) && ch != [] && |fat| <= EOF_LO
    requires 2 <= c < |fat| && fat[c] == 0
    ensures 2 <= ch[|ch| - 1] < |fat|
    ensures Chain(fat[c := 0xFFFF][ch[|ch| - 1] := c], first, ch + [c])
  {
    var last := |ch| - 1;
    assert LinkAt(fat, ch, last);
    var fat', ch' := fat[c := 0xFFFF][ch[last] := c], ch + [c];
    ChainDistinct(fat, first, ch);
    forall i | 0 <= i < |ch'| ensures LinkAt(fat', ch', i) {
      if i < |ch| { assert LinkAt(fat, ch, i); }
    }
  }

  // ---- Allocation ----

  /** The clusters that are free to be handed out. */
  ghost function FreeSet(fat: seq<int>): set<int> {
    set c | 2 <= c < |fat| && fat[c] == 0
  }

  lemma EntryInSector(g: Geometry, disk: seq<Sector>, s: nat, i: nat)
    requires g.Fits(disk) && s < g.fatSize && i < 256
    ensures 0 <= g.FatLba() + s < |disk| && s * 256 + i < g.Entries()
    ensures Fat(g, disk)[s * 256 + i] == GetU16(disk[g.FatLba() + s], i * 2)
  {
    FatRegion(g, disk);
    assert (s * 256 + i) / 256 == s && (s * 256 + i) % 256 == i;
    assert Fat(g, disk)[s * 256 + i] == FatAt(g, disk, 0, s * 256 + i);
  }

  /** fat_alloc_cluster: the least free cluster, marked as end of chain; 0 when there is none. */
  method FatAllocCluster(v: Volume) returns (c: int)
    requires v.Ready()
    modifies v
    ensures v.Ready() && SameOutsideFat(v.g, old(v.disk), v.disk)
    ensures CopiesAgree(v.g, old(v.disk)) ==> CopiesAgree(v.g, v.disk)
    ensures var fat := Fat(v.g, old(v.disk));
      if c == 0 then FreeSet(fat) == {} && v.disk == old(v.disk)
      else c in FreeSet(fat) && (forall d :: d in FreeSet(fat) ==> c <= d)
           && Fat(v.g, v.disk) == fat[c := 0xFFFF]
  {
    hide Fat, Geometry.Fits;
    FatRegion(v.g, v.disk);
    ghost var fat := Fat(v.g, v.disk);
    for s := 0 to v.g.fatSize
      invariant v.disk == old(v.disk)
      invariant forall d :: 2 <= d < s * 256 ==> fat[d] != 0
    {
      var buf: Sector := v.disk[v.g.FatLba() + s];
      for i := 0 to 256
        invariant v.disk == old(v.disk)
        invariant forall d :: 2 <= d < s * 256 + i ==> fat[d] != 0
      {
        var cluster := s * 256 + i;
        if cluster < 2 { continue; }
        EntryInSector(v.g, v.disk, s, i);
        if GetU16(buf, i * 2) == 0 {
          FatSetEntry(v, cluster, 0xFFFF);
          return cluster;
        }
      }
    }
    return 0;
  }

  // ---- Freeing ----

  /** The cluster after k links, which stays put once an end mark is reached. */
  ghost function Walk(fat: seq<int>, c: int, k: nat): int {
    if k == 0 then c else
      var d := Walk(fat, c, k - 1);
      if 2 <= d < |fat| then fat[d] else d
  }

  ghost predicate Reachable(fat: seq<int>, c: int, d: int) {
    2 <= d < |fat| && exists k: nat :: Walk(fat, c, k) == d
  }

  /** Every link met on the way from `c` stays inside the table. */
  ghost predicate InRangeFrom(fat: seq<int>, c: int) {
    && (EndMark(c) || c < |fat|)
    && forall d :: Reachable(fat, c, d) ==> EndMark(fat[d]) || fat[d] < |fat|
  }

  ghost function NonZero(fat: seq<int>): nat {
    if fat == [] then 0 else (if fat[0] != 0 then 1 else 0) + NonZero(fat[1..])
  }

  lemma {:induction false} NonZeroDrops(fat: seq<int>, c: nat)
    requires c < |fat| && fat[c] != 0
    ensures NonZero(fat[c := 0]) == NonZero(fat) - 1
  {
    if c == 0 {
      assert fat[c := 0][1..] == fat[1..];
    } else {
      assert fat[c := 0][1..] == fat[1..][c - 1 := 0];
      NonZeroDrops(fat[1..], c - 1);
    }
  }

  /** A set that holds the start and every link out of it holds all that is reachable. */
  lemma {:induction false} ClosedHoldsWalk(fat: seq<int>, c: int, zeroed: set<int>, k: nat)
    requires forall x :: x in zeroed ==> 2 <= x < |fat| && (EndMark(fat[x]) || fat[x] in zeroed)
    requires c in zeroed || EndMark(c)
    requires |fat| <= EOF_LO
    ensures Walk(fat, c, k) in zeroed || EndMark(Walk(fat, c, k))
  {
    if k > 0 { ClosedHoldsWalk(fat, c, zeroed, k - 1); }
  }

  lemma ReachNext(fat: seq<int>, c: int, d: int)
    requires Reachable(fat, c, d) && 2 <= fat[d] < |fat|
    ensures Reachable(fat, c, fat[d])
  {
    var k: nat :| Walk(fat, c, k) == d;
    assert Walk(fat, c, k + 1) == fat[d];
  }

  /** fat_free_chain ends on every in-range table, cyclic or not, and zeroes exactly
      the clusters reachable from the start. */
  method FatFreeChain(v: Volume, start: int)
    requires v.Ready() && 0 <= start < 0x1_0000
    requires InRangeFrom(Fat(v.g, v.disk), start)
    modifies v
    ensures v.Ready() && SameOutsideFat(v.g, old(v.disk), v.disk)
    ensures CopiesAgree(v.g, old(v.disk)) ==> CopiesAgree(v.g, v.disk)
    ensures var fat := Fat(v.g, old(v.disk));
      forall d :: 0 <= d < |fat| ==>
        Fat(v.g, v.disk)[d] == if Reachable(fat, start, d) then 0 else fat[d]
  {
    ghost var fat := Fat(v.g, v.disk);
    ghost var zeroed: set<int> := {};
    var cluster := start;
    hide Freeing, Fat, Reachable, InRangeFrom;
    FreeingStart(fat, start);
    while 2 <= cluster < EOF_LO
      invariant v.Ready() && SameOutsideFat(v.g, old(v.disk), v.disk)
      invariant CopiesAgree(v.g, old(v.disk)) ==> CopiesAgree(v.g, v.disk)
      invariant Freeing(fat, start, Fat(v.g, v.disk), zeroed, cluster)
      decreases NonZero(Fat(v.g, v.disk)), if EndMark(cluster) then 0 else 1
    {
      ghost var now := Fat(v.g, v.disk);
      FreeingStep(fat, start, now, zeroed, cluster);
      var next := FatEntry(v, cluster);
      FatSetEntry(v, cluster, 0);
      zeroed := zeroed + {cluster};
      cluster := next;
    }
    FreedAll(fat, start, Fat(v.g, v.disk), zeroed, cluster);
  }

  /** The state of the loop: the zeroed clusters are reachable, and all links out of them lead
      to zeroed clusters, to an end mark, or to the cluster that is next. */
  ghost predicate Freeing(fat: seq<int>, start: int, now: seq<int>, zeroed: set<int>, cluster: int) {
    && |now| == |fat| <= EOF_LO
    && (forall d :: 0 <= d < |fat| ==> now[d] == if d in zeroed then 0 else fat[d])
    && (EndMark(cluster) || Reachable(fat, start, cluster))
    && (forall x :: x in zeroed ==> Reachable(fat, start, x))
    && (forall x :: x in zeroed ==> EndMark(fat[x]) || fat[x] in zeroed || fat[x] == cluster)
    && (start in zeroed || start == cluster)
  }

  lemma FreeingStart(fat: seq<int>, start: int)
    requires InRangeFrom(fat, start) && |fat| <= EOF_LO
    ensures Freeing(fat, start, fat, {}, start)
  {
    assert !EndMark(start) ==> Walk(fat, start, 0) == start;
  }

  /** One turn of the loop, and why the loop ends: either one entry fewer is non-zero, or the
      entry was zero already and the next cluster is an end mark. */
  lemma FreeingStep(fat: seq<int>, start: int, now: seq<int>, zeroed: set<int>, cluster: int)
    requires InRangeFrom(fat, start) && Freeing(fat, start, now, zeroed, cluster) && 2 <= cluster < EOF_LO
    ensures cluster < |now| && Freeing(fat, start, now[cluster := 0], zeroed + {cluster}, now[cluster])
    ensures NonZero(now[cluster := 0]) < NonZero(now)
         || (NonZero(now[cluster := 0]) == NonZero(now) && EndMark(now[cluster]))
  {
    assert cluster < |now|;
    if now[cluster] != 0 {
      NonZeroDrops(now, cluster);
      if !EndMark(now[cluster]) { ReachNext(fat, start, cluster); }
    } else {
      assert now[cluster := 0] == now;
    }
  }

  lemma FreedAll(fat: seq<int>, start: int, now: seq<int>, zeroed: set<int>, cluster: int)
    requires Freeing(fat, start, now, zeroed, cluster) && EndMark(cluster)
    ensures forall d :: 0 <= d < |fat| ==> now[d] == if Reachable(fat, start, d) then 0 else fat[d]
  {
    forall d | Reachable(fat, start, d) ensures d in zeroed {
      var k: nat :| Walk(fat, start, k) == d;
      ClosedHoldsWalk(fat, start, zeroed, k);
    }
  }

  lemma {:induction false} WalkInChain(fat: seq<int>, first: int, ch: seq<int>, k: nat)
    requires Chain(fat, first, ch) && |fat| <= EOF_LO
    ensures if k < |ch| then Walk(fat, first, k) == ch[k] else EndMark(Walk(fat, first, k))
  {
    if 0 < k {
      WalkInChain(fat, first, ch, k - 1);
      if k - 1 < |ch| { assert LinkAt(fat, ch, k - 1); }
    } else if ch != [] {
      assert LinkAt(fat, ch, 0);
    }
  }

  /** Freeing from the first cluster of a chain frees exactly that chain. */
  lemma ReachableIsChain(fat: seq<int>, first: int, ch: seq<int>, d: int)
    requires Chain(fat, first, ch) && |fat| <= EOF_LO
    ensures Reachable(fat, first, d) <==> d in ch
  {
    if Reachable(fat, first, d) {
      var k: nat :| Walk(fat, first, k) == d;
      WalkInChain(fat, first, ch, k);
    }
    if d in ch {
      var k :| 0 <= k < |ch| && ch[k] == d;
      assert LinkAt(fat, ch, k);
      WalkInChain(fat, first, ch, k);
    }
  }
}
