/** The chain allocator of libocfs2/chainalloc.c: a region bitmap whose regions are the
    allocation groups, with free counts kept in each group descriptor, in the chain
    record each group hangs on, and in the inode. */
module ChainAlloc {
  import opened Basics
  import opened Bitops
  import opened SetAlgebra
  import opened Regions
  import opened RegionLists
  import opened RegionBitmap

  // ---------------------------------------------------------------------
  // The three layers of counters

  /** A group descriptor: bg_bits, bg_free_bits_count and bg_chain. */
  datatype Group = Group(bits: nat, free: int, chain: nat)

  /** A chain record: c_free, c_total and c_blkno. */
  datatype Rec = Rec(free: int, total: int, head: nat)

  function Sum(xs: seq<int>): int {
    if xs == [] then 0 else xs[0] + Sum(xs[1..])
  }

  lemma {:induction false} SumConcat(a: seq<int>, b: seq<int>)
    ensures Sum(a + b) == Sum(a) + Sum(b)
  {
    if a == [] {
      assert a + b == b;
    } else {
      SumConcat(a[1..], b);
      assert (a + b)[1..] == a[1..] + b;
    }
  }

  lemma SumInsert(xs: seq<int>, k: nat, x: int)
    requires k <= |xs|
    ensures Sum(xs[..k] + [x] + xs[k..]) == Sum(xs) + x
  {
    SumConcat(xs[..k] + [x], xs[k..]);
    SumConcat(xs[..k], [x]);
    SumConcat(xs[..k], xs[k..]);
    assert xs == xs[..k] + xs[k..];
    assert Sum([x]) == x + Sum([]);
  }

  lemma SumUpdate(xs: seq<int>, i: nat, x: int)
    requires i < |xs|
    ensures Sum(xs[i := x]) == Sum(xs) - xs[i] + x
  {
    var others := xs[..i] + xs[i + 1..];
    SumInsert(others, i, x);
    SumInsert(others, i, xs[i]);
    assert others[..i] == xs[..i] && others[i..] == xs[i + 1..];
    assert xs[i := x] == xs[..i] + [x] + xs[i + 1..];
    assert xs == xs[..i] + [xs[i]] + xs[i + 1..];
  }

  /** The group counts for chain `c`, or for all chains when `c` is negative. */
  predicate OnChain(g: Group, c: int) {
    c < 0 || g.chain == c
  }

  function Frees(groups: seq<Group>, c: int): seq<int> {
    seq(|groups|, i requires 0 <= i < |groups| => if OnChain(groups[i], c) then groups[i].free else 0)
  }

  function Sizes(groups: seq<Group>, c: int): seq<int> {
    seq(|groups|, i requires 0 <= i < |groups| => if OnChain(groups[i], c) then groups[i].bits else 0)
  }

  /** Each group's free count is the number of its clear bits. */
  ghost predicate GroupsExact(groups: seq<Group>, areas: seq<Area>) {
    && |groups| == |areas|
    && forall i :: 0 <= i < |groups| ==>
        groups[i].bits == areas[i].total && groups[i].free == areas[i].total - areas[i].setBits
  }

  ghost predicate OnChains(groups: seq<Group>, recs: seq<Rec>) {
    forall i :: 0 <= i < |groups| ==> groups[i].chain < |recs|
  }

  /** Each chain record adds up its groups. */
  ghost predicate ChainsExact(groups: seq<Group>, recs: seq<Rec>) {
    && OnChains(groups, recs)
    && forall c {:trigger recs[c]} :: 0 <= c < |recs| ==>
        recs[c].free == Sum(Frees(groups, c)) && recs[c].total == Sum(Sizes(groups, c))
  }

  /** The inode adds up all groups. */
  ghost predicate InodeExact(groups: seq<Group>, used: int, total: int) {
    total == Sum(Sizes(groups, -1)) && used == total - Sum(Frees(groups, -1))
  }

  lemma FreesUpdate(groups: seq<Group>, i: nat, d: int, c: int)
    requires i < |groups|
    ensures var g := groups[i := groups[i].(free := groups[i].free + d)];
      && Sum(Frees(g, c)) == Sum(Frees(groups, c)) + (if OnChain(groups[i], c) then d else 0)
      && Sizes(g, c) == Sizes(groups, c)
  {
    var g := groups[i := groups[i].(free := groups[i].free + d)];
    if OnChain(groups[i], c) {
      SumUpdate(Frees(groups, c), i, groups[i].free + d);
      assert Frees(g, c) == Frees(groups, c)[i := groups[i].free + d];
    } else {
      assert Frees(g, c) == Frees(groups, c);
    }
    assert Sizes(g, c) == Sizes(groups, c);
  }

  lemma GroupsInsert(groups: seq<Group>, k: nat, x: Group, c: int)
    requires k <= |groups|
    ensures var g := groups[..k] + [x] + groups[k..];
      && Sum(Frees(g, c)) == Sum(Frees(groups, c)) + (if OnChain(x, c) then x.free else 0)
      && Sum(Sizes(g, c)) == Sum(Sizes(groups, c)) + (if OnChain(x, c) then x.bits else 0)
  {
    ListsInsert(groups, k, x, c);
    SumInsert(Frees(groups, c), k, if OnChain(x, c) then x.free else 0);
    SumInsert(Sizes(groups, c), k, if OnChain(x, c) then x.bits else 0);
  }

  lemma ListsInsert(groups: seq<Group>, k: nat, x: Group, c: int)
    requires k <= |groups|
    ensures var g, f, s := groups[..k] + [x] + groups[k..], Frees(groups, c), Sizes(groups, c);
      && Frees(g, c) == f[..k] + [if OnChain(x, c) then x.free else 0] + f[k..]
      && Sizes(g, c) == s[..k] + [if OnChain(x, c) then x.bits else 0] + s[k..]
  {
    var g, f, s := groups[..k] + [x] + groups[k..], Frees(groups, c), Sizes(groups, c);
    var f' := f[..k] + [if OnChain(x, c) then x.free else 0] + f[k..];
    var s' := s[..k] + [if OnChain(x, c) then x.bits else 0] + s[k..];
    forall i | 0 <= i < |g|
      ensures Frees(g, c)[i] == f'[i] && Sizes(g, c)[i] == s'[i]
    {
      assert i != k ==> g[i] == groups[if i < k then i else i - 1];
    }
  }

  /** Adding `d` to the free count of a group, to that of its chain, and taking it from
      the inode's use, keeps chains and inode exact. */
  lemma NotifyKeeps(groups: seq<Group>, recs: seq<Rec>, used: int, total: int, i: nat, d: int)
    requires i < |groups| && ChainsExact(groups, recs) && InodeExact(groups, used, total)
    ensures groups[i].chain < |recs|
    ensures var c := groups[i].chain;
      && ChainsExact(groups[i := groups[i].(free := groups[i].free + d)], recs[c := recs[c].(free := recs[c].free + d)])
      && InodeExact(groups[i := groups[i].(free := groups[i].free + d)], used - d, total)
  {
    var g, at := groups[i := groups[i].(free := groups[i].free + d)], groups[i].chain;
    forall c | 0 <= c < |recs|
      ensures Sum(Frees(g, c)) == recs[c].free + (if c == at then d else 0) && Sum(Sizes(g, c)) == recs[c].total
    {
      FreesUpdate(groups, i, d, c);
    }
    FreesUpdate(groups, i, d, -1);
  }

  /** A new group whose bits and free bits are added to its chain and to the inode. */
  lemma AddKeeps(groups: seq<Group>, recs: seq<Rec>, used: int, total: int, k: nat, x: Group, head: nat)
    requires k <= |groups| && x.chain < |recs| && ChainsExact(groups, recs) && InodeExact(groups, used, total)
    ensures var g := groups[..k] + [x] + groups[k..];
      && ChainsExact(g, recs[x.chain := AddedRec(recs[x.chain], x, head)])
      && InodeExact(g, used + x.bits - x.free, total + x.bits)
  {
    var g := groups[..k] + [x] + groups[k..];
    forall c | 0 <= c < |recs|
      ensures Sum(Frees(g, c)) == recs[c].free + (if c == x.chain then x.free else 0)
      ensures Sum(Sizes(g, c)) == recs[c].total + (if c == x.chain then x.bits else 0)
    {
      GroupsInsert(groups, k, x, c);
    }
    GroupsInsert(groups, k, x, -1);
  }

  function AddedRec(rec: Rec, x: Group, head: nat): Rec {
    Rec(rec.free + x.free, rec.total + x.bits, head)
  }

  lemma InsertExact(groups: seq<Group>, areas: seq<Area>, k: nat, x: Group, br: Area)
    requires GroupsExact(groups, areas) && k <= |areas| && x.bits == br.total && x.free == br.total - br.setBits
    ensures GroupsExact(groups[..k] + [x] + groups[k..], Inserted(areas, k, br))
  {
    var g, a := groups[..k] + [x] + groups[k..], Inserted(areas, k, br);
    forall i | 0 <= i < |g|
      ensures g[i].bits == a[i].total && g[i].free == a[i].total - a[i].setBits
    {
      var j := if i < k then i else i - 1;
      assert i != k ==> g[i] == groups[j] && a[i] == areas[j];
    }
  }

  /** The region of a new group: its first bit, which stands for the descriptor, is set. */
  method GroupRegion(start: nat, bits: nat, free: nat) returns (br: Area)
    requires 0 < bits <= INT_MAX && free == bits - 1
    ensures Good(br) && br.start == start && br.total == bits && br.setBits == bits - free && Members(br) == {start}
  {
    var empty := NewRegion(start, bits);
    FlipGood(empty, start, true);
    br := Area(start, bits, bits - free, WithBit(empty.buf, 0, true));
    assert br == Flip(empty, start, true);
  }

  /** What a changed bit adds to the free counts. */
  function Gain(v: bool): int {
    if v then -1 else 1
  }

  function Notified(groups: seq<Group>, i: nat, v: bool): seq<Group>
    requires i < |groups|
  {
    groups[i := groups[i].(free := groups[i].free + Gain(v))]
  }

  lemma FlipExact(groups: seq<Group>, areas: seq<Area>, i: nat, n: nat, v: bool)
    requires GroupsExact(groups, areas) && i < |areas| && Sized(areas[i]) && Covers(areas[i], n)
    ensures GroupsExact(if Has(areas[i], n) == v then groups else Notified(groups, i, v),
      areas[i := Flip(areas[i], n, v)])
  {
  }

  lemma TailLists(groups: seq<Group>, areas: seq<Area>)
    requires groups != [] && Ordered(areas) && AllGood(areas) && GroupsExact(groups, areas)
    ensures Ordered(areas[1..]) && AllGood(areas[1..]) && GroupsExact(groups[1..], areas[1..])
    ensures Frees(groups, -1)[1..] == Frees(groups[1..], -1) && Sizes(groups, -1)[1..] == Sizes(groups[1..], -1)
    ensures MembersOf(areas)[1..] == MembersOf(areas[1..])
  {
    forall i: nat, j: nat
      ensures Before(areas[1..], i, j)
    {
      assert Before(areas, i + 1, j + 1);
    }
    assert forall i :: 0 <= i < |areas[1..]| ==> areas[1..][i] == areas[i + 1];
  }

  /** The bits not free are the members. */
  lemma {:induction false} UsedCounts(groups: seq<Group>, areas: seq<Area>)
    requires Ordered(areas) && AllGood(areas) && GroupsExact(groups, areas)
    ensures Sum(Sizes(groups, -1)) - Sum(Frees(groups, -1)) == |Rep(areas)|
  {
    if groups != [] {
      TailLists(groups, areas);
      UsedCounts(groups[1..], areas[1..]);
      var rest := Rep(areas[1..]);
      forall n | n in rest
        ensures n !in Members(areas[0])
      {
        var i := RepFind(areas[1..], n);
        assert Before(areas, 0, i + 1);
      }
      assert Good(areas[0]) && Rep(areas) == Members(areas[0]) + rest;
      assert Members(areas[0]) * rest == {};
    }
  }

  // ---------------------------------------------------------------------
  // The allocator

  /** The parts of the inode that the allocator changes: the chain list, i_clusters,
      i_size and the i_used and i_total of its bitmap. */
  datatype Inode = Inode(recs: seq<Rec>, nextFree: nat, clusters: int, size: int, used: int, total: int)

  /** The inode with a group added to one of its chains. */
  function Grow(inode: Inode, x: Group, blkno: nat, cpg: nat, clusterSize: nat): Inode
    requires x.chain < |inode.recs|
  {
    var clusters := inode.clusters + cpg;
    Inode(inode.recs[x.chain := AddedRec(inode.recs[x.chain], x, blkno)],
          if inode.nextFree == x.chain then x.chain + 1 else inode.nextFree,
          clusters, clusters * clusterSize, inode.used + (x.bits - x.free), inode.total + x.bits)
  }

  /** What ocfs2_chain_add_group() does to the inode when it gives up. */
  function RollBack(inode: Inode, x: Group, oldBlkno: nat, cpg: nat, clusterSize: nat): Inode
    requires x.chain < |inode.recs|
  {
    var rec := inode.recs[x.chain];
    var clusters := inode.clusters - cpg;
    Inode(inode.recs[x.chain := Rec(rec.free - x.free, rec.total - x.bits, oldBlkno)],
          if inode.nextFree == x.chain + 1 && oldBlkno == 0 then x.chain else inode.nextFree,
          clusters, clusters * clusterSize, inode.used - (x.bits - x.free), inode.total - x.bits)
  }

  /** The records in use come first, and the size follows the clusters. */
  ghost predicate InodeShape(inode: Inode, clusterSize: nat) {
    && 0 < |inode.recs| && inode.nextFree <= |inode.recs|
    && (forall c :: 0 <= c < |inode.recs| ==> (inode.recs[c].head != 0 <==> c < inode.nextFree))
    && inode.size == inode.clusters * clusterSize
  }

  function EmptyInode(count: nat): Inode {
    Inode(seq(count, _ => Rec(0, 0, 0)), 0, 0, 0, 0, 0)
  }

  lemma NoGroups(count: nat, clusterSize: nat)
    requires 0 < count
    ensures InodeShape(EmptyInode(count), clusterSize)
    ensures ChainsExact([], EmptyInode(count).recs) && InodeExact([], 0, 0)
  {
  }

  /** The chain a new group goes to. */
  function PickChain(inode: Inode, cpg: nat): (c: nat)
    requires 0 < |inode.recs| && 0 < cpg
    ensures c < |inode.recs| && c <= inode.nextFree
  {
    if inode.nextFree < |inode.recs| then inode.nextFree else (inode.clusters / cpg) % |inode.recs|
  }

  /** Giving up after the inode was changed restores it, counts, chain head and
      cl_next_free_rec included. */
  lemma RollBackRestores(inode: Inode, x: Group, blkno: nat, cpg: nat, clusterSize: nat)
    requires InodeShape(inode, clusterSize) && 0 < cpg && x.chain == PickChain(inode, cpg)
    ensures RollBack(Grow(inode, x, blkno, cpg, clusterSize), x, inode.recs[x.chain].head, cpg, clusterSize) == inode
  {
    var r := RollBack(Grow(inode, x, blkno, cpg, clusterSize), x, inode.recs[x.chain].head, cpg, clusterSize);
    assert r.recs == inode.recs;
  }

  lemma GrowShape(inode: Inode, x: Group, blkno: nat, cpg: nat, clusterSize: nat)
    requires InodeShape(inode, clusterSize) && 0 < cpg && x.chain == PickChain(inode, cpg) && blkno != 0
    ensures InodeShape(Grow(inode, x, blkno, cpg, clusterSize), clusterSize)
  {
  }

  // ---------------------------------------------------------------------
  // How evenly groups are spread over the chains

  /** The number of groups on a chain. */
  function Load(groups: seq<Group>, c: nat): nat {
    if groups == [] then 0 else (if groups[0].chain == c then 1 else 0) + Load(groups[1..], c)
  }

  lemma {:induction false} LoadConcat(a: seq<Group>, b: seq<Group>, c: nat)
    ensures Load(a + b, c) == Load(a, c) + Load(b, c)
  {
    if a == [] {
      assert a + b == b;
    } else {
      LoadConcat(a[1..], b, c);
      assert (a + b)[1..] == a[1..] + b;
    }
  }

  lemma LoadInsert(groups: seq<Group>, k: nat, x: Group, c: nat)
    requires k <= |groups|
    ensures Load(groups[..k] + [x] + groups[k..], c) == Load(groups, c) + if x.chain == c then 1 else 0
  {
    LoadConcat(groups[..k] + [x], groups[k..], c);
    LoadConcat(groups[..k], [x], c);
    LoadConcat(groups[..k], groups[k..], c);
    assert groups == groups[..k] + groups[k..];
    assert Load([x], c) == (if x.chain == c then 1 else 0) + Load([], c);
  }

  /** Groups that hang on the same chains. */
  predicate SameChains(a: seq<Group>, b: seq<Group>) {
    |a| == |b| && forall i :: 0 <= i < |a| ==> a[i].chain == b[i].chain
  }

  lemma {:induction false} LoadSame(a: seq<Group>, b: seq<Group>, c: nat)
    requires SameChains(a, b)
    ensures Load(a, c) == Load(b, c)
  {
    if a != [] {
      LoadSame(a[1..], b[1..], c);
    }
  }

  /** What chain `c` of `k` has of `n` groups dealt out in turn. */
  function Share(n: nat, k: nat, c: nat): nat
    requires 0 < k
  {
    n / k + if c < n % k then 1 else 0
  }

  lemma ShareStep(n: nat, k: nat, c: nat)
    requires c < k
    ensures Share(n + 1, k, c) == Share(n, k, c) + if c == n % k then 1 else 0
  {
    var q, r := n / k, n % k;
    if r + 1 < k {
      DivUnique(n + 1, k, q, r + 1);
    } else {
      Distribute(k, q, 1);
      DivUnique(n + 1, k, q + 1, 0);
    }
  }

  ghost predicate Shares(groups: seq<Group>, k: nat)
    requires 0 < k
  {
    forall c {:trigger Load(groups, c)} :: 0 <= c < k ==> Load(groups, c) == Share(|groups|, k, c)
  }

  /** The groups were dealt out to the chains in turn. */
  ghost predicate Dealt(groups: seq<Group>, inode: Inode, cpg: nat) {
    && 0 < |inode.recs| && inode.clusters == |groups| * cpg
    && inode.nextFree == (if |groups| < |inode.recs| then |groups| else |inode.recs|)
    && Shares(groups, |inode.recs|)
  }

  /** Then chains in use differ by one group at most, and none has a second before all have one. */
  lemma DealtEven(groups: seq<Group>, inode: Inode, cpg: nat, c: nat, d: nat)
    requires Dealt(groups, inode, cpg) && c < |inode.recs| && d < |inode.recs|
    ensures Load(groups, c) <= Load(groups, d) + 1
    ensures Load(groups, c) > 0 <==> c < inode.nextFree
    ensures Load(groups, c) >= 2 ==> Load(groups, d) >= 1
  {
    var n, k := |groups|, |inode.recs|;
    assert Load(groups, c) == Share(n, k, c) && Load(groups, d) == Share(n, k, d);
    if n < k {
      DivUnique(n, k, 0, n);
    }
  }

  lemma DealtEmpty(count: nat, cpg: nat)
    requires 0 < count
    ensures Dealt([], EmptyInode(count), cpg)
  {
    DivUnique(0, count, 0, 0);
  }

  /** A dealt out group goes to the chain whose turn it is. */
  lemma PickTurn(groups: seq<Group>, inode: Inode, cpg: nat)
    requires Dealt(groups, inode, cpg) && 0 < cpg
    ensures PickChain(inode, cpg) == |groups| % |inode.recs|
  {
    if |groups| < |inode.recs| {
      DivUnique(|groups|, |inode.recs|, 0, |groups|);
    } else {
      DivUnique(|groups| * cpg, cpg, |groups|, 0);
    }
  }

  lemma DealtGrows(groups: seq<Group>, inode: Inode, x: Group, blkno: nat, cpg: nat, clusterSize: nat, k: nat)
    requires Dealt(groups, inode, cpg) && 0 < cpg && k <= |groups| && x.chain == PickChain(inode, cpg)
    ensures Dealt(groups[..k] + [x] + groups[k..], Grow(inode, x, blkno, cpg, clusterSize), cpg)
  {
    var more := groups[..k] + [x] + groups[k..];
    PickTurn(groups, inode, cpg);
    forall c | 0 <= c < |inode.recs|
      ensures Load(more, c) == Share(|more|, |inode.recs|, c)
    {
      LoadInsert(groups, k, x, c);
      ShareStep(|groups|, |inode.recs|, c);
      assert Load(groups, c) == Share(|groups|, |inode.recs|, c);
    }
    if |groups| < |inode.recs| {
      DivUnique(|groups|, |inode.recs|, 0, |groups|);
    }
  }

  lemma DealtStays(groups: seq<Group>, groups': seq<Group>, inode: Inode, inode': Inode, cpg: nat)
    requires Dealt(groups, inode, cpg) && SameChains(groups, groups')
    requires |inode'.recs| == |inode.recs| && inode'.nextFree == inode.nextFree && inode'.clusters == inode.clusters
    ensures Dealt(groups', inode', cpg)
  {
    forall c | 0 <= c < |inode.recs|
      ensures Load(groups', c) == Load(groups, c)
    {
      LoadSame(groups, groups', c);
    }
  }

  /** How the steps of ocfs2_chain_add_group() that reach outside turn out: memory, the
      first block of the new clusters or 0, the two writes, reading the descriptor back,
      and the first bit of the group. */
  datatype Outside = Outside(memory: bool, blkno: nat, descWritten: bool, inodeWritten: bool, read: bool, start: nat)

  datatype AddResult = Added | NoMemory | NoClusters | DescFailed | InodeFailed | GroupFailed

  datatype Ret = Ok | BadBit | BitNotFound | NotSet | Internal

  class Allocator {
    const bitmap: Bitmap
    const cpg: nat
    /** The bits of a group, cl_cpg times cl_bpc. */
    const groupBits: nat
    const clusterSize: nat
    var groups: seq<Group>
    var inode: Inode
    /** The groups for which clusters are taken from the global bitmap, by first block. */
    var owned: set<nat>

    /** Every count is what it should be. */
    ghost predicate InStep()
      reads this, bitmap
    {
      && GroupsExact(groups, bitmap.regions) && ChainsExact(groups, inode.recs)
      && InodeExact(groups, inode.used, inode.total)
    }

    ghost predicate Shape()
      reads this
    {
      0 < cpg && 0 < groupBits < 0x10000 && InodeShape(inode, clusterSize)
    }

    /** Groups, regions and chains fit together, whatever the counts. */
    ghost predicate Fitting()
      reads this, bitmap
    {
      && bitmap.Valid() && !bitmap.merges && |groups| == |bitmap.regions| && OnChains(groups, inode.recs)
      && Shape()
    }

    ghost predicate Valid()
      reads this, bitmap
    {
      Fitting() && InStep()
    }

    /** The groups are spread evenly. */
    ghost predicate Even()
      reads this
    {
      Dealt(groups, inode, cpg)
    }

    /** i_used is the number of bits set. */
    lemma UsedIsCount()
      requires Fitting() && InStep()
      ensures inode.used == |bitmap.Bits()|
    {
      UsedCounts(groups, bitmap.regions);
    }

    /** An inode with no groups yet. */
    constructor (totalBits: nat, cpg: nat, groupBits: nat, clusterSize: nat, count: nat)
      requires 0 < cpg && 0 < groupBits < 0x10000 && 0 < count
      ensures Valid() && Even() && fresh(bitmap) && bitmap.Bits() == {} && groups == []
    {
      this.cpg, this.groupBits, this.clusterSize := cpg, groupBits, clusterSize;
      this.groups, this.owned := [], {};
      this.inode := EmptyInode(count);
      this.bitmap := new Bitmap(totalBits, false);
      new;
      Begun(count);
    }

    lemma Begun(count: nat)
      requires 0 < cpg && 0 < groupBits < 0x10000 && 0 < count
      requires groups == [] && inode == EmptyInode(count) && bitmap.regions == []
      ensures InStep() && Shape() && Even()
    {
      NoGroups(count, clusterSize);
      DealtEmpty(count, cpg);
    }

    /** chainalloc_bit_change_notify() */
    method Notify(i: nat, v: bool)
      requires i < |groups| && OnChains(groups, inode.recs) && Shape()
      modifies this
      ensures OnChains(groups, inode.recs) && Shape()
      ensures old(Even()) ==> Even()
      ensures old(ChainsExact(groups, inode.recs)) && old(InodeExact(groups, inode.used, inode.total)) ==>
        ChainsExact(groups, inode.recs) && InodeExact(groups, inode.used, inode.total)
      ensures groups == Notified(old(groups), i, v) && owned == old(owned)
      ensures inode.used == old(inode.used) - Gain(v) && inode.total == old(inode.total)
    {
      var d := Gain(v);
      if ChainsExact(groups, inode.recs) && InodeExact(groups, inode.used, inode.total) {
        NotifyKeeps(groups, inode.recs, inode.used, inode.total, i, d);
      }
      var c := groups[i].chain;
      var rec := inode.recs[c];
      groups := groups[i := groups[i].(free := groups[i].free + d)];
      inode := inode.(recs := inode.recs[c := rec.(free := rec.free + d)], used := inode.used - d);
      assert old(Even()) ==> Even() by {
        if old(Even()) {
          DealtStays(old(groups), groups, old(inode), inode, cpg);
        }
      }
    }

    /** set_generic_shared() and clear_generic_shared(), with the notification. */
    method FlipAt(at: nat, bitno: nat, v: bool) returns (was: bool)
      requires Fitting() && at < |bitmap.regions| && Covers(bitmap.regions[at], bitno)
      modifies this, bitmap
      ensures old(Even()) ==> Even()
      ensures Fitting() && (old(InStep()) ==> InStep()) && was == (bitno in old(bitmap.Bits()))
      ensures Sized(old(bitmap.regions)[at])
      ensures bitmap.regions == old(bitmap.regions)[at := Flip(old(bitmap.regions)[at], bitno, v)]
      ensures bitmap.Bits() == if v then old(bitmap.Bits()) + {bitno} else old(bitmap.Bits()) - {bitno}
      ensures bitmap.Cover() == old(bitmap.Cover())
      ensures inode.total == old(inode.total) && owned == old(owned)
      ensures inode.used == old(inode.used) - (if was == v then 0 else Gain(v))
    {
      var regions := bitmap.regions;
      assert Good(regions[at]);
      FlipRep(regions, at, bitno, v);
      ReplaceDomain(regions, at, Flip(regions[at], bitno, v));
      if GroupsExact(groups, regions) {
        FlipExact(groups, regions, at, bitno, v);
      }
      var br;
      br, was := ChangeBit(regions[at], bitno, v);
      bitmap.regions := regions[at := br];
      if was != v {
        Notify(at, v);
      }
    }

    /** ocfs2_chain_force_val(), by way of ocfs2_bitmap_set() and ocfs2_bitmap_clear(). */
    method ForceVal(bitno: nat, v: bool) returns (ok: bool, was: bool)
      requires Fitting()
      modifies this, bitmap
      ensures old(Even()) ==> Even()
      ensures Fitting() && (old(InStep()) ==> InStep())
      ensures (ok <==> bitno < bitmap.totalBits && bitno in old(bitmap.Cover()))
      ensures ok ==> was == (bitno in old(bitmap.Bits()))
      ensures ok ==> bitmap.Bits() == if v then old(bitmap.Bits()) + {bitno} else old(bitmap.Bits()) - {bitno}
      ensures ok ==> inode.used == old(inode.used) - (if was == v then 0 else Gain(v))
      ensures bitmap.Cover() == old(bitmap.Cover())
      ensures inode.total == old(inode.total) && owned == old(owned)
      ensures !ok ==> bitmap.Bits() == old(bitmap.Bits()) && inode == old(inode)
    {
      if bitno >= bitmap.totalBits {
        return false, false;
      }
      var i;
      ok, i := bitmap.LookupBit(bitno);
      was := false;
      if ok {
        was := FlipAt(i, bitno, v);
      }
    }

    /** ocfs2_chain_alloc(): the least clear bit, which becomes set. */
    method Alloc() returns (ret: Ret, bitno: nat)
      requires Valid()
      modifies this, bitmap
      ensures old(Even()) ==> Even()
      ensures Valid()
      ensures ret == Ok ==> NextIn(old(Matching(bitmap.regions, false)), 0, true, bitno)
      ensures ret == Ok ==> bitmap.Bits() == old(bitmap.Bits()) + {bitno} && inode.used == old(inode.used) + 1
      ensures ret == BitNotFound ==> bitmap.totalBits > 0 && NextIn(old(Matching(bitmap.regions, false)), 0, false, 0)
      ensures ret == BadBit ==> bitmap.totalBits == 0 || NextIn(old(Matching(bitmap.regions, false)), 0, true, bitno)
      ensures ret == BadBit ==> bitno >= bitmap.totalBits
      ensures ret in {Ok, BitNotFound, BadBit}
      ensures ret != Ok ==> bitmap.Bits() == old(bitmap.Bits()) && inode == old(inode)
    {
      bitno := 0;
      if bitmap.totalBits == 0 {
        return BadBit, bitno;
      }
      var found;
      found, bitno := bitmap.FindNext(0, false);
      if !found {
        return BitNotFound, 0;
      }
      var ok, was := ForceVal(bitno, true);
      if !ok {
        return BadBit, bitno;
      }
      if was {
        return Internal, bitno;
      }
      return Ok, bitno;
    }

    /** ocfs2_chain_free() */
    method Free(bitno: nat) returns (ret: Ret)
      requires Valid()
      modifies this, bitmap
      ensures old(Even()) ==> Even()
      ensures Valid() && bitmap.Bits() == old(bitmap.Bits()) - (if ret == Ok then {bitno} else {})
      ensures ret == BadBit <==> !(bitno < bitmap.totalBits && bitno in old(bitmap.Cover()))
      ensures ret == Ok <==> bitno < bitmap.totalBits && bitno in old(bitmap.Bits())
      ensures ret in {Ok, BadBit, NotSet}
      ensures inode.used == old(inode.used) - (if ret == Ok then 1 else 0)
    {
      RepCovered(bitmap.regions, bitno);
      var ok, was := ForceVal(bitno, false);
      if !ok {
        return BadBit;
      }
      if !was {
        return NotSet;
      }
      return Ok;
    }

    /** The bits `lo..hi` of one group, one after another. */
    method FillAt(at: nat, lo: nat, hi: nat, v: bool)
      requires Valid() && at < |bitmap.regions|
      requires bitmap.regions[at].start <= lo <= hi <= End(bitmap.regions[at])
      modifies this, bitmap
      ensures old(Even()) ==> Even()
      ensures Valid() && bitmap.regions == AfterFill(old(bitmap.regions), at, lo, hi, v)
      ensures inode.total == old(inode.total) && owned == old(owned)
    {
      ghost var regions := bitmap.regions;
      assert Good(regions[at]);
      var n := lo;
      assert AfterFill(regions, at, lo, lo, v) == regions;
      while n < hi
        invariant lo <= n <= hi && Valid() && bitmap.regions == AfterFill(regions, at, lo, n, v)
        invariant inode.total == old(inode.total) && owned == old(owned) && (old(Even()) ==> Even())
      {
        AfterFillStep(regions, at, lo, n, v);
        var was := FlipAt(at, n, v);
        n := n + 1;
      }
    }

    /** ocfs2_chain_alloc_range() */
    method AllocRange(min: nat, len: nat) returns (st: Status, at: nat, first: nat, count: nat)
      requires Valid()
      modifies this, bitmap
      ensures old(Even()) ==> Even()
      ensures Valid()
      ensures st == InvalidArgument <==> min == 0 || len == 0 || len >= bitmap.totalBits || min > len
      ensures st == Done ==> Chosen(old(bitmap.regions), at, first, first + count, min, len)
      ensures st == Done ==> bitmap.regions == AfterFill(old(bitmap.regions), at, first, first + count, true)
      ensures st == NotFound ==> Exhausted(old(bitmap.regions), |bitmap.regions|, min)
      ensures st == Done || st == NotFound || st == InvalidArgument
      ensures st != Done ==> bitmap.regions == old(bitmap.regions) && inode == old(inode) && groups == old(groups)
    {
      at, first, count := 0, 0, 0;
      if min == 0 || len == 0 || len >= bitmap.totalBits || min > len {
        return InvalidArgument, at, first, count;
      }
      var found, hi;
      found, at, first, hi := bitmap.Choose(min, len);
      if !found {
        return NotFound, at, first, count;
      }
      count := hi - first;
      FillAt(at, first, first + count, true);
      return Done, at, first, count;
    }

    /** ocfs2_chain_free_range(), for a range that lies in one group or meets none. */
    method FreeRange(len: nat, first: nat) returns (st: Status, at: nat)
      requires Valid() && Within(bitmap.regions, first, len)
      modifies this, bitmap
      ensures old(Even()) ==> Even()
      ensures Valid()
      ensures st == InvalidArgument <==> len == 0 || len + first > bitmap.totalBits
      ensures st == InvalidBit <==> st != InvalidArgument && NoneMeets(old(bitmap.regions), first, len)
      ensures st == Done || st == InvalidBit || st == InvalidArgument
      ensures st == Done ==> at < |old(bitmap.regions)| && Meets(old(bitmap.regions)[at], first, len)
      ensures st == Done ==> bitmap.regions == AfterFill(old(bitmap.regions), at, first, first + len, false)
      ensures st != Done ==> bitmap.regions == old(bitmap.regions) && inode == old(inode) && groups == old(groups)
    {
      at := 0;
      if len == 0 || len + first > bitmap.totalBits {
        return InvalidArgument, at;
      }
      var found;
      found, at := bitmap.Lookup(first, len);
      if !found {
        return InvalidBit, at;
      }
      FillAt(at, first, first + len, false);
      return Done, at;
    }

    /** chainalloc_process_group(), on the descriptor of a new group. */
    method ProcessGroup(x: Group, read: bool, start: nat) returns (ok: bool, k: nat)
      requires bitmap.Valid() && !bitmap.merges && GroupsExact(groups, bitmap.regions)
      requires 0 < x.bits <= INT_MAX && x.free == x.bits - 1
      modifies this`groups, bitmap
      ensures bitmap.Valid() && GroupsExact(groups, bitmap.regions)
      ensures ok <==> read && start <= bitmap.totalBits && NoneMeets(old(bitmap.regions), start, x.bits)
      ensures ok ==> k <= old(|groups|) && groups == old(groups)[..k] + [x] + old(groups)[k..]
      ensures ok ==> bitmap.Bits() == old(bitmap.Bits()) + {start}
      ensures !ok ==> groups == old(groups) && bitmap.regions == old(bitmap.regions)
    {
      ok, k := false, 0;
      if read {
        var br := GroupRegion(start, x.bits, x.free);
        ok, k := bitmap.Insert(br);
        if ok {
          InsertExact(groups, old(bitmap.regions), k, x, br);
          groups := groups[..k] + [x] + groups[k..];
        }
      }
    }

    /** The part of ocfs2_chain_add_group() from the write of the group descriptor on. */
    method WriteGroup(x: Group, io: Outside) returns (ret: AddResult)
      requires Valid() && io.blkno != 0 && x == NewGroup(inode)
      modifies this`groups, this`inode, bitmap
      ensures ret in {Added, DescFailed, InodeFailed, GroupFailed}
      ensures ret == DescFailed <==> !io.descWritten
      ensures ret == InodeFailed <==> io.descWritten && !io.inodeWritten
      ensures ret == Added ==> Valid() && bitmap.Bits() == old(bitmap.Bits()) + {io.start}
      ensures ret == Added ==> inode == Grow(old(inode), x, io.blkno, cpg, clusterSize)
      ensures ret == Added ==> forall c: nat :: Load(groups, c) == Load(old(groups), c) + if c == x.chain then 1 else 0
      ensures ret == Added && old(Even()) ==> Even()
      ensures ret == InodeFailed || ret == GroupFailed ==> inode == old(inode)
      ensures ret == DescFailed ==> inode == RollBack(old(inode), x, old(inode).recs[x.chain].head, cpg, clusterSize)
      ensures ret != Added ==> groups == old(groups) && bitmap.regions == old(bitmap.regions)
    {
      var before := inode;
      var oldBlkno := inode.recs[x.chain].head;
      ret := DescFailed;
      if io.descWritten {
        inode := Grow(before, x, io.blkno, cpg, clusterSize);
        ret := InodeFailed;
        if io.inodeWritten {
          ghost var was := groups;
          var ok, k := ProcessGroup(x, io.read, io.start);
          if ok {
            AddKeeps(was, before.recs, before.used, before.total, k, x, io.blkno);
            GrowShape(before, x, io.blkno, cpg, clusterSize);
            forall c: nat
              ensures Load(groups, c) == Load(was, c) + if c == x.chain then 1 else 0
            {
              LoadInsert(was, k, x, c);
            }
            if Dealt(was, before, cpg) {
              DealtGrows(was, before, x, io.blkno, cpg, clusterSize, k);
            }
            return Added;
          }
          ret := GroupFailed;
        }
        RollBackRestores(before, x, io.blkno, cpg, clusterSize);
      }
      inode := RollBack(inode, x, oldBlkno, cpg, clusterSize);
    }

    /** The descriptor ocfs2_init_group_desc() makes for a new group. */
    function NewGroup(inode: Inode): Group
      requires 0 < |inode.recs| && 0 < cpg && 0 < groupBits
    {
      Group(groupBits, groupBits - 1, PickChain(inode, cpg))
    }

    /** ocfs2_chain_add_group() */
    method AddGroup(io: Outside) returns (ret: AddResult)
      requires Valid()
      modifies this, bitmap
      ensures ret == DescFailed <==> io.memory && io.blkno != 0 && !io.descWritten
      ensures Valid() <==> ret != DescFailed
      ensures ret == Added ==> bitmap.Bits() == old(bitmap.Bits()) + {io.start} && owned == old(owned) + {io.blkno}
      ensures ret == Added ==> inode == Grow(old(inode), NewGroup(old(inode)), io.blkno, cpg, clusterSize)
      ensures ret == Added && old(inode.nextFree < |inode.recs|) ==>
        && inode.nextFree == old(inode.nextFree) + 1 && inode.recs[old(inode.nextFree)].head == io.blkno
        && forall c: nat :: Load(groups, c) == Load(old(groups), c) + if c == old(inode.nextFree) then 1 else 0
      ensures ret != DescFailed && old(Even()) ==> Even()
      ensures ret != Added && ret != DescFailed ==> inode == old(inode)
      ensures ret != Added ==> groups == old(groups) && bitmap.regions == old(bitmap.regions)
      ensures ret != Added && io.blkno !in old(owned) ==> owned == old(owned)
    {
      if !io.memory {
        return NoMemory;
      }
      if io.blkno == 0 {
        return NoClusters;
      }
      owned := owned + {io.blkno};
      ret := WriteGroup(NewGroup(inode), io);
      if ret != Added {
        owned := owned - {io.blkno};
      }
    }
  }
}
