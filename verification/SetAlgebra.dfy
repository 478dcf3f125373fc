/** Sets of naturals: intervals, and unions of sequences of sets. */
module SetAlgebra {

  predicate Between(lo: nat, n: nat, hi: nat) {
    lo <= n < hi
  }

  ghost function Interval(lo: nat, hi: nat): set<nat> {
    set n: nat | lo <= n < hi && Between(lo, n, hi)
  }

  lemma {:induction false} IntervalSize(lo: nat, hi: nat)
    requires lo <= hi
    ensures |Interval(lo, hi)| == hi - lo
    decreases hi - lo
  {
    if lo == hi {
      assert Interval(lo, hi) == {};
    } else {
      IntervalSize(lo + 1, hi);
      assert Interval(lo, hi) == {lo} + Interval(lo + 1, hi);
    }
  }

  lemma IntervalJoin(lo: nat, mid: nat, hi: nat)
    requires lo <= mid <= hi
    ensures Interval(lo, hi) == Interval(lo, mid) + Interval(mid, hi)
  {
  }

  lemma DisjointSizes(a: set<nat>, b: set<nat>, all: set<nat>)
    requires a !! b && a <= all && b <= all
    ensures |a| + |b| <= |all|
  {
    SubsetSize(a + b, all);
    assert |a + b| == |a| + |b|;
  }

  lemma IntervalInside(lo: nat, hi: nat, from: nat, to: nat)
    requires from <= lo && hi <= to
    ensures Interval(lo, hi) <= Interval(from, to)
  {
  }

  lemma AddOne(r: set<nat>, m: set<nat>, n: nat)
    requires n !in r
    ensures r + (m + {n}) == r + m + {n} && r + (m - {n}) == r + m - {n}
  {
  }

  lemma AddMany(r: set<nat>, m: set<nat>, s: set<nat>)
    requires r !! s
    ensures r + (m + s) == r + m + s && r + (m - s) == r + m - s
  {
  }

  lemma UnionMiddle(a: set<nat>, m: set<nat>, b: set<nat>)
    ensures a + m + b == a + b + m
  {
  }

  lemma UnionAgain(a: set<nat>, b: set<nat>, c: set<nat>, d: set<nat>)
    ensures a + (b + c) + d == a + b + (c + d)
  {
  }

  lemma UnionAssoc(a: set<nat>, b: set<nat>, c: set<nat>)
    ensures a + b + c == a + (b + c)
  {
  }

  lemma {:induction false} SubsetSize(a: set<nat>, b: set<nat>)
    requires a <= b
    ensures |a| <= |b|
  {
    assert b == a + (b - a);
  }

  // ---------------------------------------------------------------------
  // The union of a sequence of sets

  ghost function Union(ss: seq<set<nat>>): set<nat> {
    if ss == [] then {} else ss[0] + Union(ss[1..])
  }

  lemma {:induction false} UnionConcat(a: seq<set<nat>>, b: seq<set<nat>>)
    ensures Union(a + b) == Union(a) + Union(b)
  {
    if a == [] {
      assert a + b == b;
    } else {
      UnionConcat(a[1..], b);
      assert (a + b)[1..] == a[1..] + b;
      UnionAssoc(a[0], Union(a[1..]), Union(b));
    }
  }

  lemma UnionSplit(a: seq<set<nat>>, x: set<nat>, b: seq<set<nat>>)
    ensures Union(a + [x] + b) == Union(a) + x + Union(b)
  {
    UnionConcat(a + [x], b);
    UnionConcat(a, [x]);
    assert Union([x]) == x + Union([]);
  }

  /** The union of all but one set. */
  ghost function Others(ss: seq<set<nat>>, i: nat): set<nat>
    requires i < |ss|
  {
    Union(ss[..i]) + Union(ss[i + 1..])
  }

  lemma UnionReplace(ss: seq<set<nat>>, i: nat, x: set<nat>)
    requires i < |ss|
    ensures Union(ss[i := x]) == Others(ss, i) + x
    ensures Union(ss) == Others(ss, i) + ss[i]
  {
    assert ss[i := x] == ss[..i] + [x] + ss[i + 1..];
    assert ss == ss[..i] + [ss[i]] + ss[i + 1..];
    UnionSplit(ss[..i], x, ss[i + 1..]);
    UnionSplit(ss[..i], ss[i], ss[i + 1..]);
    UnionMiddle(Union(ss[..i]), x, Union(ss[i + 1..]));
    UnionMiddle(Union(ss[..i]), ss[i], Union(ss[i + 1..]));
  }

  lemma UnionInsert(ss: seq<set<nat>>, k: nat, x: set<nat>)
    requires k <= |ss|
    ensures Union(ss[..k] + [x] + ss[k..]) == Union(ss) + x
  {
    UnionSplit(ss[..k], x, ss[k..]);
    UnionConcat(ss[..k], ss[k..]);
    assert ss == ss[..k] + ss[k..];
    UnionMiddle(Union(ss[..k]), x, Union(ss[k..]));
  }

  lemma UnionCons(x: set<nat>, b: seq<set<nat>>)
    ensures Union([x] + b) == x + Union(b)
  {
    assert ([x] + b)[1..] == b;
  }

  lemma UnionTwo(a: seq<set<nat>>, x: set<nat>, y: set<nat>, b: seq<set<nat>>)
    ensures Union(a + [x + y] + b) == Union(a + [x] + ([y] + b))
  {
    UnionSplit(a, x + y, b);
    UnionSplit(a, x, [y] + b);
    UnionCons(y, b);
    UnionAgain(Union(a), x, y, Union(b));
  }

  lemma Pair(ss: seq<set<nat>>, i: nat)
    requires i + 1 < |ss|
    ensures ss == ss[..i] + [ss[i]] + ([ss[i + 1]] + ss[i + 2..])
  {
  }

  lemma UnionPair(ss: seq<set<nat>>, i: nat)
    requires i + 1 < |ss|
    ensures Union(ss[..i] + [ss[i] + ss[i + 1]] + ss[i + 2..]) == Union(ss)
  {
    UnionTwo(ss[..i], ss[i], ss[i + 1], ss[i + 2..]);
    Pair(ss, i);
  }

  /** A member of the union is a member of some set, and the other way round. */
  lemma {:induction false} UnionFind(ss: seq<set<nat>>, n: nat) returns (i: nat)
    requires n in Union(ss)
    ensures i < |ss| && n in ss[i]
  {
    if n in ss[0] {
      i := 0;
    } else {
      i := UnionFind(ss[1..], n);
      i := i + 1;
    }
  }

  lemma {:induction false} UnionHas(ss: seq<set<nat>>, i: nat, n: nat)
    requires i < |ss| && n in ss[i]
    ensures n in Union(ss)
  {
    if i > 0 {
      UnionHas(ss[1..], i - 1, n);
    }
  }

  lemma OthersFind(ss: seq<set<nat>>, i: nat, n: nat) returns (k: nat)
    requires i < |ss| && n in Others(ss, i)
    ensures k < |ss| && k != i && n in ss[k]
  {
    if n in Union(ss[..i]) {
      k := UnionFind(ss[..i], n);
    } else {
      k := UnionFind(ss[i + 1..], n);
      k := i + 1 + k;
    }
  }
}
