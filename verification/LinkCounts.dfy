/** The link counts of fsck.ocfs2: the index of fsck.ocfs2/icount.c, a bitmap for the many
    inodes with one link and a tree for those with more, and the sweep of pass 4
    (fsck.ocfs2/pass4.c) that brings directory entries and inodes into line. */
module LinkCounts {
  import opened SetAlgebra
  import opened Regions
  import opened RegionLists
  import opened RegionBitmap
  import opened Oracle

  // ---------------------------------------------------------------------
  // The tree, as a sorted sequence

  datatype Node = Node(blkno: nat, count: nat)

  predicate Less(nodes: seq<Node>, i: nat, j: nat) {
    i < j < |nodes| ==> nodes[i].blkno < nodes[j].blkno
  }

  ghost predicate Sorted(nodes: seq<Node>) {
    forall i: nat, j: nat :: Less(nodes, i, j)
  }

  /** The nodes before `i` lie below `blkno`, and those from `i` on above it. */
  ghost predicate Gap(nodes: seq<Node>, i: nat, blkno: nat) {
    && (forall k :: 0 <= k < i && k < |nodes| ==> nodes[k].blkno < blkno)
    && (forall k :: i <= k < |nodes| ==> blkno < nodes[k].blkno)
  }

  /** The tree as a table. */
  ghost function Tree(nodes: seq<Node>): map<nat, nat> {
    if nodes == [] then map[] else Tree(nodes[..|nodes| - 1])[nodes[|nodes| - 1].blkno := nodes[|nodes| - 1].count]
  }

  /** In a sorted sequence the table has exactly the nodes. */
  lemma {:induction false} TreeAt(nodes: seq<Node>)
    requires Sorted(nodes)
    ensures forall i :: 0 <= i < |nodes| ==>
      nodes[i].blkno in Tree(nodes) && Tree(nodes)[nodes[i].blkno] == nodes[i].count
    ensures forall b :: b in Tree(nodes) ==> exists i :: 0 <= i < |nodes| && nodes[i].blkno == b
  {
    if nodes != [] {
      var n := |nodes| - 1;
      SortedPart(nodes, n);
      TreeAt(nodes[..n]);
      forall i | 0 <= i < n
        ensures nodes[i].blkno < nodes[n].blkno && nodes[..n][i] == nodes[i]
      {
        assert Less(nodes, i, n);
      }
    }
  }

  lemma SortedPart(nodes: seq<Node>, n: nat)
    requires Sorted(nodes) && n <= |nodes|
    ensures Sorted(nodes[..n])
  {
    forall i: nat, j: nat
      ensures Less(nodes[..n], i, j)
    {
      assert Less(nodes, i, j);
    }
  }

  lemma TreeIs(nodes: seq<Node>, t: map<nat, nat>)
    requires Sorted(nodes)
    requires forall i :: 0 <= i < |nodes| ==> nodes[i].blkno in t && t[nodes[i].blkno] == nodes[i].count
    requires forall b :: b in t ==> exists i :: 0 <= i < |nodes| && nodes[i].blkno == b
    ensures Tree(nodes) == t
  {
    TreeAt(nodes);
    assert Tree(nodes).Keys == t.Keys;
  }

  lemma SortedInsert(nodes: seq<Node>, i: nat, x: Node)
    requires Sorted(nodes) && i <= |nodes| && Gap(nodes, i, x.blkno)
    ensures Sorted(nodes[..i] + [x] + nodes[i..])
  {
    var r := nodes[..i] + [x] + nodes[i..];
    forall a: nat, b: nat
      ensures Less(r, a, b)
    {
      assert a < b && a != i && b != i ==> Less(nodes, if a < i then a else a - 1, if b < i then b else b - 1);
    }
  }

  lemma TreeInsert(nodes: seq<Node>, i: nat, x: Node)
    requires Sorted(nodes) && i <= |nodes| && Gap(nodes, i, x.blkno)
    ensures var r := nodes[..i] + [x] + nodes[i..]; Sorted(r) && Tree(r) == Tree(nodes)[x.blkno := x.count]
  {
    var r := nodes[..i] + [x] + nodes[i..];
    SortedInsert(nodes, i, x);
    TreeAt(nodes);
    var t := Tree(nodes)[x.blkno := x.count];
    forall k | 0 <= k < |r|
      ensures r[k].blkno in t && t[r[k].blkno] == r[k].count
    {
      assert k == i || r[k] == nodes[if k < i then k else k - 1];
    }
    forall b | b in t
      ensures exists k :: 0 <= k < |r| && r[k].blkno == b
    {
      if b == x.blkno {
        assert r[i].blkno == b;
      } else {
        var k :| 0 <= k < |nodes| && nodes[k].blkno == b;
        assert r[if k < i then k else k + 1].blkno == b;
      }
    }
    TreeIs(r, t);
  }

  lemma TreeUpdate(nodes: seq<Node>, i: nat, c: nat)
    requires Sorted(nodes) && i < |nodes|
    ensures var r := nodes[i := nodes[i].(count := c)]; Sorted(r) && Tree(r) == Tree(nodes)[nodes[i].blkno := c]
  {
    var r := nodes[i := nodes[i].(count := c)];
    forall a: nat, b: nat
      ensures Less(r, a, b)
    {
      assert Less(nodes, a, b);
    }
    TreeAt(nodes);
    var t := Tree(nodes)[nodes[i].blkno := c];
    forall k | 0 <= k < |r|
      ensures r[k].blkno in t && t[r[k].blkno] == r[k].count
    {
      assert Less(nodes, k, i) && Less(nodes, i, k);
    }
    forall b | b in t
      ensures exists k :: 0 <= k < |r| && r[k].blkno == b
    {
      var k :| 0 <= k < |nodes| && nodes[k].blkno == b;
      assert r[k].blkno == b;
    }
    TreeIs(r, t);
  }

  lemma TreeErase(nodes: seq<Node>, i: nat)
    requires Sorted(nodes) && i < |nodes|
    ensures var r := nodes[..i] + nodes[i + 1..]; Sorted(r) && Tree(r) == Tree(nodes) - {nodes[i].blkno}
  {
    var r := nodes[..i] + nodes[i + 1..];
    forall a: nat, b: nat
      ensures Less(r, a, b)
    {
      assert Less(nodes, if a < i then a else a + 1, if b < i then b else b + 1);
    }
    TreeAt(nodes);
    var t := Tree(nodes) - {nodes[i].blkno};
    forall k | 0 <= k < |r|
      ensures r[k].blkno in t && t[r[k].blkno] == r[k].count
    {
      var k' := if k < i then k else k + 1;
      assert r[k] == nodes[k'] && Less(nodes, k', i) && Less(nodes, i, k');
    }
    forall b | b in t
      ensures exists k :: 0 <= k < |r| && r[k].blkno == b
    {
      var k :| 0 <= k < |nodes| && nodes[k].blkno == b;
      assert r[if k < i then k else k - 1].blkno == b;
    }
    TreeIs(r, t);
  }

  lemma NextInTree(nodes: seq<Node>, i: nat, start: nat, found: bool)
    requires Sorted(nodes)
    requires if found then i < |nodes| && nodes[i].blkno == start else Gap(nodes, i, start)
    ensures NextIn(Tree(nodes).Keys, start, i < |nodes|, if i < |nodes| then nodes[i].blkno else 0)
  {
    TreeAt(nodes);
    forall m | m in Tree(nodes) && start <= m
      ensures i < |nodes| && nodes[i].blkno <= m
    {
      var k: nat :| k < |nodes| && nodes[k].blkno == m;
      assert Less(nodes, i, k) && Less(nodes, k, i);
    }
  }

  /** The nearer of two is the next in the union. */
  lemma NextInBoth(s: set<nat>, t: set<nat>, start: nat, f: bool, a: nat, g: bool, b: nat)
    requires NextIn(s, start, f, a) && NextIn(t, start, g, b)
    ensures NextIn(s + t, start, f || g, if f && (!g || a < b) then a else b)
  {
  }

  // ---------------------------------------------------------------------
  // The index

  /** The counts that a bitmap of ones and a tree stand for; the others are 0. */
  ghost function Table(ones: set<nat>, tree: map<nat, nat>): map<nat, nat> {
    map b | b in ones + tree.Keys :: if b in ones then 1 else tree[b]
  }

  function CountOf(counts: map<nat, nat>, b: nat): nat {
    if b in counts then counts[b] else 0
  }

  /** The counts with that of `b` changed. */
  function WithCount(counts: map<nat, nat>, b: nat, c: nat): map<nat, nat> {
    if c == 0 then counts - {b} else counts[b := c]
  }

  /** No inode in both, and only counts from 2 up in the tree. */
  ghost predicate Split(ones: set<nat>, tree: map<nat, nat>) {
    ones !! tree.Keys && forall b :: b in tree ==> 2 <= tree[b] < 0x10000
  }

  lemma TableSet(ones: set<nat>, tree: map<nat, nat>, b: nat, c: nat)
    requires Split(ones, tree) && c < 0x10000
    ensures var ones' := if c == 1 then ones + {b} else ones - {b};
      var tree' := if c >= 2 then tree[b := c] else tree - {b};
      Split(ones', tree') && Table(ones', tree') == WithCount(Table(ones, tree), b, c)
  {
  }

  /** o2fsck_icount */
  class Icount {
    const single: Bitmap
    var nodes: seq<Node>
    /** The counts that are not 0. */
    ghost var counts: map<nat, nat>

    ghost predicate Valid()
      reads this, single
    {
      && single.Valid() && Sorted(nodes) && Split(single.Bits(), Tree(nodes))
      && counts == Table(single.Bits(), Tree(nodes))
      && forall b :: b in counts ==> b < single.totalBits
    }

    /** o2fsck_icount_new() */
    constructor (blocks: nat)
      ensures Valid() && fresh(single) && counts == map[] && single.totalBits == blocks
    {
      nodes, counts := [], map[];
      single := new Bitmap(blocks, true);
    }

    /** icount_search(): the node for `blkno`, or the place of the next one. */
    method Search(blkno: nat) returns (found: bool, i: nat)
      requires Valid()
      ensures found <==> blkno in Tree(nodes)
      ensures found ==> i < |nodes| && nodes[i].blkno == blkno && Tree(nodes)[blkno] == nodes[i].count
      ensures !found ==> i <= |nodes| && Gap(nodes, i, blkno)
    {
      TreeAt(nodes);
      var hi;
      i, hi := 0, |nodes|;
      while i < hi
        invariant i <= hi <= |nodes|
        invariant forall k :: 0 <= k < i ==> nodes[k].blkno < blkno
        invariant forall k :: hi <= k < |nodes| ==> blkno < nodes[k].blkno
        decreases hi - i
      {
        var mid :| i <= mid < hi;
        if blkno < nodes[mid].blkno {
          forall k | mid < k < |nodes|
            ensures blkno < nodes[k].blkno
          {
            assert Less(nodes, mid, k);
          }
          hi := mid;
        } else if blkno > nodes[mid].blkno {
          forall k | 0 <= k < mid
            ensures nodes[k].blkno < blkno
          {
            assert Less(nodes, k, mid);
          }
          i := mid + 1;
        } else {
          return true, mid;
        }
      }
      found := false;
    }

    /** The tree half of o2fsck_icount_set(). */
    method SetNode(blkno: nat, count: nat, memory: bool) returns (ok: bool)
      requires Valid()
      modifies this`nodes
      ensures Sorted(nodes)
      ensures ok <==> !(count >= 2 && blkno !in old(Tree(nodes)) && !memory)
      ensures Tree(nodes) == if ok && count >= 2 then old(Tree(nodes))[blkno := count] else old(Tree(nodes)) - {blkno}
    {
      var found, i := Search(blkno);
      ok := true;
      if found {
        if count < 2 {
          TreeErase(nodes, i);
          nodes := nodes[..i] + nodes[i + 1..];
        } else {
          TreeUpdate(nodes, i, count);
          nodes := nodes[i := nodes[i].(count := count)];
        }
      } else if count > 1 {
        if !memory {
          return false;
        }
        TreeInsert(nodes, i, Node(blkno, count));
        nodes := nodes[..i] + [Node(blkno, count)] + nodes[i..];
      }
    }

    /** o2fsck_icount_set().  Without memory for a node the count is lost. */
    method Set(blkno: nat, count: nat, memory: bool) returns (ok: bool)
      requires Valid() && blkno < single.totalBits && count < 0x10000
      modifies this, single
      ensures Valid() && counts == WithCount(old(counts), blkno, if ok then count else 0)
      ensures memory ==> ok
    {
      ok := SetNode(blkno, count, memory);
      TableSet(single.Bits(), old(Tree(nodes)), blkno, if ok then count else 0);
      if count == 1 {
        var fine, was := single.SetHoles(blkno);
      } else {
        var fine := single.ClearHoles(blkno);
      }
      counts := WithCount(counts, blkno, if ok then count else 0);
    }

    /** o2fsck_icount_get() */
    method Get(blkno: nat) returns (count: nat)
      requires Valid() && blkno < single.totalBits
      ensures count == CountOf(counts, blkno) < 0x10000
    {
      var one := single.TestHoles(blkno);
      if one {
        return 1;
      }
      var found, i := Search(blkno);
      count := if found then nodes[i].count else 0;
    }

    /** o2fsck_icount_delta(): a count that would fall below 0 or rise above 65535 wraps
        around. */
    method Delta(blkno: nat, delta: int, memory: bool) returns (ok: bool)
      requires Valid() && blkno < single.totalBits
      modifies this, single
      ensures Valid() && (memory ==> ok)
      ensures counts == if delta == 0 then old(counts)
        else WithCount(old(counts), blkno, if ok then (CountOf(old(counts), blkno) + delta) % 0x10000 else 0)
    {
      if delta == 0 {
        return true;
      }
      var prev := Get(blkno);
      ok := Set(blkno, (prev + delta) % 0x10000, memory);
    }

    /** o2fsck_icount_next_blkno() */
    method NextBlkno(start: nat) returns (found: bool, b: nat)
      requires Valid()
      ensures NextIn(counts.Keys, start, found, b)
    {
      found, b := false, 0;
      if start < single.totalBits {
        found, b := single.FindNext(start, true);
      } else {
        assert forall m :: m in single.Bits() ==> m in counts;
      }
      assert NextIn(single.Bits(), start, found, b);
      var inTree, i := Search(start);
      NextInTree(nodes, i, start, inTree);
      var next := if i < |nodes| then nodes[i].blkno else 0;
      NextInBoth(single.Bits(), Tree(nodes).Keys, start, found, b, i < |nodes|, next);
      assert counts.Keys == single.Bits() + Tree(nodes).Keys;
      if i < |nodes| {
        b := if found && b < next then b else next;
        found := true;
      }
    }
  }

  // ---------------------------------------------------------------------
  // The sweep

  /** The two agree but for `b`. */
  ghost predicate SameBut(x: map<nat, nat>, y: map<nat, nat>, b: nat) {
    x - {b} == y - {b}
  }

  ghost predicate Positive(x: map<nat, nat>) {
    forall b :: b in x ==> x[b] > 0
  }

  ghost predicate Ascending(s: seq<nat>) {
    forall i, j :: 0 <= i < j < |s| ==> s[i] < s[j]
  }

  lemma CountsEqual(x: map<nat, nat>, y: map<nat, nat>)
    requires Positive(x) && Positive(y) && forall b: nat :: CountOf(x, b) == CountOf(y, b)
    ensures x == y
  {
    assert forall b :: b in x ==> CountOf(y, b) > 0;
    assert forall b :: b in y ==> CountOf(x, b) > 0;
    assert x.Keys == y.Keys;
    forall b | b in x
      ensures x[b] == y[b]
    {
      assert CountOf(x, b) == CountOf(y, b);
    }
  }

  lemma PositiveTable(ones: set<nat>, tree: map<nat, nat>)
    requires Split(ones, tree)
    ensures Positive(Table(ones, tree))
  {
  }

  /** From `start` up nothing has changed. */
  ghost predicate Unswept(before: map<nat, nat>, now: map<nat, nat>, start: nat) {
    forall b: nat :: b >= start ==> CountOf(now, b) == CountOf(before, b)
  }

  /** Below `start` the two agree. */
  ghost predicate Agree(x: map<nat, nat>, y: map<nat, nat>, start: nat) {
    forall b: nat :: b < start ==> CountOf(x, b) == CountOf(y, b)
  }

  /** What was looked at: every inode below `start` with a count, in order. */
  ghost predicate Swept(r: map<nat, nat>, i: map<nat, nat>, visited: seq<nat>, start: nat) {
    Ascending(visited) && forall b: nat :: b in visited <==> b < start && (b in r || b in i)
  }

  lemma SweptStep(r: map<nat, nat>, i: map<nat, nat>, x: map<nat, nat>, y: map<nat, nat>, visited: seq<nat>,
      start: nat, blkno: nat)
    requires Positive(r) && Positive(i) && Positive(x) && Positive(y)
    requires Swept(r, i, visited, start) && Unswept(r, x, start) && Unswept(i, y, start)
    requires NextIn(x.Keys + y.Keys, start, true, blkno)
    ensures Swept(r, i, visited + [blkno], blkno + 1)
  {
    forall b: nat
      ensures b >= start ==> (b in r || b in i <==> b in x || b in y)
    {
      assert b >= start ==> CountOf(x, b) == CountOf(r, b) && CountOf(y, b) == CountOf(i, b);
    }
    forall k | 0 <= k < |visited|
      ensures visited[k] < blkno
    {
      assert visited[k] in visited;
    }
  }

  lemma SweptEnd(r: map<nat, nat>, i: map<nat, nat>, x: map<nat, nat>, y: map<nat, nat>, visited: seq<nat>,
      start: nat, b: nat)
    requires Positive(r) && Positive(i) && Positive(x) && Positive(y)
    requires Swept(r, i, visited, start) && Unswept(r, x, start) && Unswept(i, y, start)
    requires NextIn(x.Keys + y.Keys, start, false, 0)
    ensures b in visited <==> b in r || b in i
  {
    assert b >= start ==> CountOf(x, b) == CountOf(r, b) && CountOf(y, b) == CountOf(i, b);
    assert b in x.Keys + y.Keys ==> b < start;
  }

  lemma UnsweptStep(r: map<nat, nat>, x: map<nat, nat>, x': map<nat, nat>, start: nat, blkno: nat)
    requires Unswept(r, x, start) && SameBut(x', x, blkno) && start <= blkno
    ensures Unswept(r, x', blkno + 1)
  {
    forall b: nat | b >= blkno + 1
      ensures CountOf(x', b) == CountOf(r, b)
    {
      SameAway(x', x, blkno, b);
      assert CountOf(x, b) == CountOf(r, b);
    }
  }

  lemma SameAway(x: map<nat, nat>, y: map<nat, nat>, blkno: nat, b: nat)
    requires SameBut(x, y, blkno) && b != blkno
    ensures CountOf(x, b) == CountOf(y, b)
  {
    var x', y' := x - {blkno}, y - {blkno};
    assert b in x <==> b in x';
    assert b in y <==> b in y';
  }

  lemma AgreeStep(x: map<nat, nat>, y: map<nat, nat>, x': map<nat, nat>, y': map<nat, nat>, start: nat, blkno: nat)
    requires Agree(x, y, start) && NextIn(x.Keys + y.Keys, start, true, blkno)
    requires SameBut(x', x, blkno) && SameBut(y', y, blkno) && CountOf(x', blkno) == CountOf(y', blkno)
    ensures Agree(x', y', blkno + 1)
  {
    forall b: nat | b < blkno + 1
      ensures CountOf(x', b) == CountOf(y', b)
    {
      if b != blkno {
        SameAway(x', x, blkno, b);
        SameAway(y', y, blkno, b);
        assert b < start ==> CountOf(x, b) == CountOf(y, b);
        assert b in x.Keys + y.Keys ==> b < start;
      }
    }
  }

  lemma AgreeEnd(x: map<nat, nat>, y: map<nat, nat>, start: nat)
    requires Positive(x) && Positive(y) && Agree(x, y, start) && NextIn(x.Keys + y.Keys, start, false, 0)
    ensures x == y
  {
    forall b: nat
      ensures CountOf(x, b) == CountOf(y, b)
    {
      assert b in x.Keys + y.Keys ==> b < start;
    }
    CountsEqual(x, y);
  }

  /** The count an inode should end up with: the entries found for it, or one for an inode
      without entries that is moved to lost+found. */
  function Due(r: map<nat, nat>, i: map<nat, nat>, b: nat): nat {
    if b in r then r[b] else if b in i then 1 else 0
  }

  /** All below `start` have it. */
  ghost predicate Settled(r: map<nat, nat>, i: map<nat, nat>, x: map<nat, nat>, start: nat) {
    forall b: nat :: b < start ==> CountOf(x, b) == Due(r, i, b)
  }

  lemma SettledStep(r: map<nat, nat>, i: map<nat, nat>, x: map<nat, nat>, y: map<nat, nat>, x': map<nat, nat>,
      start: nat, blkno: nat)
    requires Positive(r) && Positive(i) && Positive(x) && Positive(y) && Settled(r, i, x, start)
    requires Unswept(r, x, start) && Unswept(i, y, start) && NextIn(x.Keys + y.Keys, start, true, blkno)
    requires SameBut(x', x, blkno) && CountOf(x', blkno) == if blkno in x then x[blkno] else 1
    ensures Settled(r, i, x', blkno + 1)
  {
    forall b: nat | b < blkno + 1
      ensures CountOf(x', b) == Due(r, i, b)
    {
      if b != blkno {
        SameAway(x', x, blkno, b);
      }
      assert b >= start ==> CountOf(x, b) == CountOf(r, b) && CountOf(y, b) == CountOf(i, b);
      assert b in x.Keys + y.Keys ==> b < start || b == blkno;
    }
  }

  lemma SettledEnd(r: map<nat, nat>, i: map<nat, nat>, x: map<nat, nat>, y: map<nat, nat>, start: nat)
    requires Positive(r) && Positive(i) && Positive(x) && Positive(y) && Settled(r, i, x, start)
    requires Unswept(r, x, start) && Unswept(i, y, start) && NextIn(x.Keys + y.Keys, start, false, 0)
    ensures forall b: nat :: CountOf(x, b) == Due(r, i, b)
  {
    forall b: nat
      ensures CountOf(x, b) == Due(r, i, b)
    {
      assert b >= start ==> CountOf(x, b) == CountOf(r, b) && CountOf(y, b) == CountOf(i, b);
      assert b in x.Keys + y.Keys ==> b < start;
    }
  }

  /** Two tables give every inode the same count. */
  ghost predicate SameCounts(x: map<nat, nat>, y: map<nat, nat>) {
    forall b: nat :: CountOf(x, b) == CountOf(y, b)
  }

  lemma SameCountsStep(x: map<nat, nat>, y: map<nat, nat>, x': map<nat, nat>, y': map<nat, nat>, blkno: nat)
    requires SameCounts(x, y) && SameBut(x', x, blkno) && SameBut(y', y, blkno)
    requires CountOf(x', blkno) == CountOf(y', blkno)
    ensures SameCounts(x', y')
  {
    forall b: nat
      ensures CountOf(x', b) == CountOf(y', b)
    {
      if b != blkno {
        SameAway(x', x, blkno, b);
        SameAway(y', y, blkno, b);
        assert CountOf(x, b) == CountOf(y, b);
      }
    }
  }

  /** Pass 4 of fsck.ocfs2: the counts from directory entries, the counts found in the
      inodes, and the i_links_count of the inodes on disk. */
  class Sweep {
    const refs: Icount
    const inodes: Icount
    /** Every question is answered with yes, and every repair succeeds. */
    const smooth: bool
    var links: map<nat, nat>

    ghost predicate Valid()
      reads this, refs, refs.single, inodes, inodes.single
    {
      && refs != inodes && refs.single != inodes.single && refs.Valid() && inodes.Valid()
      && refs.single.totalBits == inodes.single.totalBits
    }

    constructor (refs: Icount, inodes: Icount, smooth: bool, links: map<nat, nat>)
      requires refs != inodes && refs.single != inodes.single && refs.Valid() && inodes.Valid()
      requires refs.single.totalBits == inodes.single.totalBits
      ensures Valid() && this.refs == refs && this.inodes == inodes && this.smooth == smooth && this.links == links
    {
      this.refs, this.inodes, this.smooth, this.links := refs, inodes, smooth, links;
    }

    lemma AllPositive()
      requires Valid()
      ensures Positive(refs.counts) && Positive(inodes.counts)
    {
      PositiveTable(refs.single.Bits(), Tree(refs.nodes));
      PositiveTable(inodes.single.Bits(), Tree(inodes.nodes));
    }

    /** What o2fsck_reconnect_file() does to the count of the inode. */
    method Reconnect(blkno: nat)
      requires refs.Valid() && blkno < refs.single.totalBits
      modifies refs, refs.single
      ensures refs.Valid() && SameBut(refs.counts, old(refs.counts), blkno)
      ensures smooth ==>
        refs.counts == WithCount(old(refs.counts), blkno, (CountOf(old(refs.counts), blkno) + 1) % 0x10000)
    {
      var done := Chance(smooth);
      if done {
        var memory := Chance(smooth);
        var ok := refs.Delta(blkno, 1, memory);
      }
    }

    /** check_link_counts() */
    method Check(blkno: nat)
      requires Valid() && blkno < refs.single.totalBits
      modifies this, refs, refs.single, inodes, inodes.single
      ensures Valid() && SameBut(refs.counts, old(refs.counts), blkno)
      ensures SameBut(inodes.counts, old(inodes.counts), blkno)
      ensures smooth ==> CountOf(refs.counts, blkno) == CountOf(inodes.counts, blkno)
      ensures smooth ==>
        CountOf(refs.counts, blkno) == (if blkno in old(refs.counts) then old(refs.counts)[blkno] else 1)
      ensures smooth && CountOf(refs.counts, blkno) != CountOf(old(inodes.counts), blkno) ==>
        links == old(links)[blkno := CountOf(refs.counts, blkno)]
      ensures CountOf(refs.counts, blkno) == CountOf(old(inodes.counts), blkno) ==>
        links == old(links) && inodes.counts == old(inodes.counts)
      ensures smooth && old(SameCounts(links, inodes.counts)) ==> SameCounts(links, inodes.counts)
    {
      var count := CountRefs(blkno);
      var inInode := inodes.Get(blkno);
      if count != inInode {
        Update(blkno, count);
        if smooth && old(SameCounts(links, inodes.counts)) {
          assert SameBut(links, old(links), blkno);
          SameCountsStep(old(links), old(inodes.counts), links, inodes.counts, blkno);
        }
      }
    }

    /** The entries found for an inode, after one with none was moved to lost+found. */
    method CountRefs(blkno: nat) returns (count: nat)
      requires refs.Valid() && blkno < refs.single.totalBits
      modifies refs, refs.single
      ensures refs.Valid() && SameBut(refs.counts, old(refs.counts), blkno)
      ensures count == CountOf(refs.counts, blkno) < 0x10000
      ensures smooth ==> count == (if blkno in old(refs.counts) then old(refs.counts)[blkno] else 1)
    {
      PositiveTable(refs.single.Bits(), Tree(refs.nodes));
      count := refs.Get(blkno);
      if count == 0 {
        var move := Chance(smooth);
        if move {
          Reconnect(blkno);
          count := refs.Get(blkno);
        }
      }
    }

    /** The second half of check_link_counts(). */
    method Update(blkno: nat, count: nat)
      requires inodes.Valid() && blkno < inodes.single.totalBits && count < 0x10000
      modifies this`links, inodes, inodes.single
      ensures inodes.Valid() && SameBut(inodes.counts, old(inodes.counts), blkno)
      ensures smooth ==> CountOf(inodes.counts, blkno) == count && links == old(links)[blkno := count]
    {
      var read := Chance(smooth);
      if !read {
        return;
      }
      var agreed := Chance(smooth);
      if agreed {
        var memory := Chance(smooth);
        var ok := inodes.Set(blkno, count, memory);
        var written := Chance(smooth);
        if written {
          links := links[blkno := count];
        }
      }
    }

    /** next_inode_any_ref() */
    method NextAny(start: nat) returns (found: bool, blkno: nat)
      requires Valid()
      ensures NextIn(refs.counts.Keys + inodes.counts.Keys, start, found, blkno)
    {
      var f, a := refs.NextBlkno(start);
      var g, b := inodes.NextBlkno(start);
      NextInBoth(refs.counts.Keys, inodes.counts.Keys, start, f, a, g, b);
      found, blkno := f, a;
      if g && (!f || b < a) {
        found, blkno := true, b;
      }
    }

    /** Pass 4b of o2fsck_pass4().  `visited` lists the inodes looked at. */
    method Run() returns (visited: seq<nat>)
      requires Valid()
      modifies this, refs, refs.single, inodes, inodes.single
      ensures Valid() && Ascending(visited)
      ensures forall b :: b in visited <==> b in old(refs.counts) || b in old(inodes.counts)
      ensures smooth ==> refs.counts == inodes.counts
      ensures smooth ==>
        forall b: nat :: CountOf(refs.counts, b) == Due(old(refs.counts), old(inodes.counts), b)
      ensures smooth && old(SameCounts(links, inodes.counts)) ==> SameCounts(links, inodes.counts)
    {
      ghost var r, i := refs.counts, inodes.counts;
      AllPositive();
      visited := [];
      var start := 0;
      var found, blkno := NextAny(start);
      while found
        invariant Valid() && Swept(r, i, visited, start)
        invariant Unswept(r, refs.counts, start) && Unswept(i, inodes.counts, start)
        invariant NextIn(refs.counts.Keys + inodes.counts.Keys, start, found, blkno)
        invariant smooth ==> Agree(refs.counts, inodes.counts, start) && Settled(r, i, refs.counts, start)
        invariant smooth && old(SameCounts(links, inodes.counts)) ==> SameCounts(links, inodes.counts)
        decreases refs.single.totalBits - start
      {
        AllPositive();
        ghost var x, y := refs.counts, inodes.counts;
        SweptStep(r, i, x, y, visited, start, blkno);
        Check(blkno);
        UnsweptStep(r, x, refs.counts, start, blkno);
        UnsweptStep(i, y, inodes.counts, start, blkno);
        if smooth {
          AgreeStep(x, y, refs.counts, inodes.counts, start, blkno);
          SettledStep(r, i, x, y, refs.counts, start, blkno);
        }
        visited := visited + [blkno];
        start := blkno + 1;
        found, blkno := NextAny(start);
      }
      AllPositive();
      forall b: nat
        ensures b in visited <==> b in r || b in i
      {
        SweptEnd(r, i, refs.counts, inodes.counts, visited, start, b);
      }
      if smooth {
        SettledEnd(r, i, refs.counts, inodes.counts, start);
        AgreeEnd(refs.counts, inodes.counts, start);
      }
    }
  }
}
