/** Ordered collections of regions, as values, and the set of naturals they stand for. */
module RegionLists {
  import opened Bitops
  import opened SetAlgebra
  import opened Regions

  predicate Before(areas: seq<Area>, i: nat, j: nat) {
    i < j < |areas| ==> End(areas[i]) <= areas[j].start
  }

  /** In order, and no two overlap. */
  ghost predicate Ordered(areas: seq<Area>) {
    forall i: nat, j: nat :: Before(areas, i, j)
  }

  ghost predicate AllGood(areas: seq<Area>) {
    forall i {:trigger Good(areas[i])} :: 0 <= i < |areas| ==> Good(areas[i])
  }

  /** The first `j` regions end before `start`. */
  ghost predicate Behind(areas: seq<Area>, j: nat, start: nat) {
    forall i :: 0 <= i < j && i < |areas| ==> End(areas[i]) <= start
  }

  /** From region `j` on all start at `end` or later. */
  ghost predicate Past(areas: seq<Area>, j: nat, end: nat) {
    forall i :: j <= i < |areas| ==> end <= areas[i].start
  }

  lemma BehindHere(areas: seq<Area>, j: nat, start: nat)
    requires Ordered(areas) && j < |areas| && End(areas[j]) <= start
    ensures Behind(areas, j + 1, start)
  {
    forall i | 0 <= i < j
      ensures End(areas[i]) <= start
    {
      assert Before(areas, i, j);
    }
  }

  lemma PastHere(areas: seq<Area>, j: nat, end: nat)
    requires Ordered(areas) && j < |areas| && end <= areas[j].start
    ensures Past(areas, j, end)
  {
    forall i | j < i < |areas|
      ensures end <= areas[i].start
    {
      assert Before(areas, j, i);
    }
  }

  ghost function MembersOf(areas: seq<Area>): seq<set<nat>> {
    seq(|areas|, i requires 0 <= i < |areas| => Members(areas[i]))
  }

  /** The set the collection stands for. */
  ghost function Rep(areas: seq<Area>): set<nat> {
    Union(MembersOf(areas))
  }

  lemma RepFind(areas: seq<Area>, n: nat) returns (i: nat)
    requires n in Rep(areas)
    ensures i < |areas| && n in Members(areas[i])
  {
    i := UnionFind(MembersOf(areas), n);
  }

  ghost function CoverOf(areas: seq<Area>): seq<set<nat>> {
    seq(|areas|, i requires 0 <= i < |areas| => Interval(areas[i].start, End(areas[i])))
  }

  /** The numbers the regions cover. */
  ghost function Domain(areas: seq<Area>): set<nat> {
    Union(CoverOf(areas))
  }

  /** The region that covers `n`, or -1. */
  ghost function Locate(areas: seq<Area>, n: nat): (i: int)
    ensures -1 <= i < |areas|
    ensures i >= 0 ==> Covers(areas[i], n)
    ensures i < 0 ==> forall k :: 0 <= k < |areas| ==> !Covers(areas[k], n)
  {
    if areas == [] then -1
    else if Covers(areas[|areas| - 1], n) then |areas| - 1
    else Locate(areas[..|areas| - 1], n)
  }

  lemma LocateUnique(areas: seq<Area>, n: nat, i: nat)
    requires Ordered(areas) && i < |areas| && Covers(areas[i], n)
    ensures Locate(areas, n) == i
  {
    var k := Locate(areas, n);
    assert Before(areas, k, i) && Before(areas, i, k);
  }

  /** What lies outside region `i` of what the collection stands for. */
  ghost function Rest(areas: seq<Area>, i: nat): set<nat>
    requires i < |areas|
  {
    Others(MembersOf(areas), i)
  }

  lemma RepRest(areas: seq<Area>, i: nat, x: Area)
    requires i < |areas|
    ensures Rep(areas[i := x]) == Rest(areas, i) + Members(x)
    ensures Rep(areas) == Rest(areas, i) + Members(areas[i])
  {
    UnionReplace(MembersOf(areas), i, Members(x));
    assert MembersOf(areas[i := x]) == MembersOf(areas)[i := Members(x)];
  }

  lemma RestOutside(areas: seq<Area>, i: nat, n: nat)
    requires Ordered(areas) && i < |areas| && Covers(areas[i], n)
    ensures n !in Rest(areas, i)
  {
    LocateUnique(areas, n, i);
    if n in Rest(areas, i) {
      var k := OthersFind(MembersOf(areas), i, n);
      LocateUnique(areas, n, k);
    }
  }

  /** Whether a number is in the set depends only on the region that covers it. */
  lemma RepLocal(areas: seq<Area>, i: nat, n: nat)
    requires Ordered(areas) && i < |areas| && Covers(areas[i], n)
    ensures n in Rep(areas) <==> Has(areas[i], n)
  {
    RepRest(areas, i, areas[i]);
    RestOutside(areas, i, n);
  }

  /** Exchanging region `i` for one with the same place keeps the collection in shape. */
  lemma ReplaceGood(areas: seq<Area>, i: nat, x: Area)
    requires Ordered(areas) && AllGood(areas) && i < |areas| && Good(x)
    requires x.start == areas[i].start && x.total == areas[i].total
    ensures Ordered(areas[i := x]) && AllGood(areas[i := x])
  {
    var r := areas[i := x];
    forall j: nat, k: nat
      ensures Before(r, j, k)
    {
      assert Before(areas, j, k);
    }
    assert forall j :: 0 <= j < |r| ==> Good(if j == i then x else areas[j]);
  }

  /** The collection with `lo..hi` of region `i` made `v`. */
  ghost function AfterFill(areas: seq<Area>, i: nat, lo: nat, hi: nat, v: bool): seq<Area> {
    if i < |areas| && Sized(areas[i]) && areas[i].start <= lo <= hi <= End(areas[i])
    then areas[i := Fill(areas[i], lo, hi, v)] else areas
  }

  lemma AfterFillStep(areas: seq<Area>, i: nat, lo: nat, n: nat, v: bool)
    requires i < |areas| && Sized(areas[i]) && areas[i].start <= lo <= n < End(areas[i])
    ensures var r := AfterFill(areas, i, lo, n, v);
      && |r| == |areas| && Sized(r[i]) && Covers(r[i], n)
      && r[i := Flip(r[i], n, v)] == AfterFill(areas, i, lo, n + 1, v)
  {
    FillLast(areas[i], lo, n, v);
  }

  /** Filling a range of one region adds it to the set, or takes it away. */
  lemma FillRep(areas: seq<Area>, i: nat, lo: nat, hi: nat, v: bool)
    requires Ordered(areas) && AllGood(areas) && i < |areas| && Good(areas[i])
    requires areas[i].start <= lo <= hi <= End(areas[i])
    ensures var r := AfterFill(areas, i, lo, hi, v);
      && Ordered(r) && AllGood(r)
      && Rep(r) == if v then Rep(areas) + Interval(lo, hi) else Rep(areas) - Interval(lo, hi)
  {
    var x := Fill(areas[i], lo, hi, v);
    FillGood(areas[i], lo, hi, v);
    ReplaceGood(areas, i, x);
    RepRest(areas, i, x);
    forall n | n in Interval(lo, hi)
      ensures n !in Rest(areas, i)
    {
      RestOutside(areas, i, n);
    }
    AddMany(Rest(areas, i), Members(areas[i]), Interval(lo, hi));
  }

  /** A number is covered when some region covers it. */
  lemma DomainLocate(areas: seq<Area>, n: nat)
    ensures n in Domain(areas) <==> Locate(areas, n) >= 0
  {
    if n in Domain(areas) {
      var i := UnionFind(CoverOf(areas), n);
      assert Covers(areas[i], n);
    }
    if Locate(areas, n) >= 0 {
      UnionHas(CoverOf(areas), Locate(areas, n), n);
    }
  }

  /** The region meets `bitno .. bitno + count`. */
  predicate Meets(a: Area, bitno: nat, count: nat) {
    bitno < End(a) && a.start < bitno + count
  }

  ghost predicate NoneMeets(areas: seq<Area>, bitno: nat, count: nat) {
    forall i :: 0 <= i < |areas| ==> !Meets(areas[i], bitno, count)
  }

  /** The collection with bit `n` made `v`. */
  ghost function AfterFlip(areas: seq<Area>, n: nat, v: bool): seq<Area> {
    var i := Locate(areas, n);
    if i >= 0 && Sized(areas[i]) then areas[i := Flip(areas[i], n, v)] else areas
  }

  /** Changing one bit changes the set by one number. */
  lemma FlipRep(areas: seq<Area>, i: nat, n: nat, v: bool)
    requires Ordered(areas) && AllGood(areas) && i < |areas| && Good(areas[i]) && Covers(areas[i], n)
    ensures var r := AfterFlip(areas, n, v);
      && r == areas[i := Flip(areas[i], n, v)] && Ordered(r) && AllGood(r)
      && Rep(r) == (if v then Rep(areas) + {n} else Rep(areas) - {n})
    ensures Has(areas[i], n) <==> n in Rep(areas)
  {
    LocateUnique(areas, n, i);
    var x := Flip(areas[i], n, v);
    FlipGood(areas[i], n, v);
    ReplaceGood(areas, i, x);
    RepRest(areas, i, x);
    RestOutside(areas, i, n);
    AddOne(Rest(areas, i), Members(areas[i]), n);
    RepLocal(areas, i, n);
  }

  lemma ReplaceDomain(areas: seq<Area>, i: nat, x: Area)
    requires i < |areas| && x.start == areas[i].start && x.total == areas[i].total
    ensures Domain(areas[i := x]) == Domain(areas)
  {
    assert CoverOf(areas[i := x]) == CoverOf(areas);
  }

  /** What the collection holds, it covers. */
  lemma RepCovered(areas: seq<Area>, n: nat)
    ensures n in Rep(areas) ==> n in Domain(areas)
  {
    DomainLocate(areas, n);
    if n in Rep(areas) {
      var i := RepFind(areas, n);
      assert Covers(areas[i], n);
    }
  }

  lemma NotMet(areas: seq<Area>, n: nat)
    requires n !in Domain(areas)
    ensures NoneMeets(areas, n, 1)
  {
    DomainLocate(areas, n);
    assert forall i :: 0 <= i < |areas| ==> !Covers(areas[i], n);
  }

  // ---------------------------------------------------------------------
  // The search for the next set or clear bit

  predicate Holds(a: Area, n: nat, want: bool) {
    Covers(a, n) && Has(a, n) == want
  }

  /** The numbers that are set, or covered and clear. */
  ghost function Matching(areas: seq<Area>, want: bool): set<nat> {
    if want then Rep(areas) else Domain(areas) - Rep(areas)
  }

  lemma MatchingFind(areas: seq<Area>, n: nat, want: bool) returns (i: nat)
    requires Ordered(areas) && n in Matching(areas, want)
    ensures i < |areas| && Holds(areas[i], n, want)
  {
    RepCovered(areas, n);
    DomainLocate(areas, n);
    i := Locate(areas, n);
    RepLocal(areas, i, n);
  }

  lemma MatchingHas(areas: seq<Area>, n: nat, want: bool, i: nat)
    requires Ordered(areas) && i < |areas| && Holds(areas[i], n, want)
    ensures n in Matching(areas, want)
  {
    RepLocal(areas, i, n);
    LocateUnique(areas, n, i);
    DomainLocate(areas, n);
  }

  /** `n` is the least number of `s` from `start` up, if there is one. */
  ghost predicate NextIn(s: set<nat>, start: nat, found: bool, n: nat) {
    (found ==> start <= n && n in s) && forall m :: m in s && start <= m ==> found && n <= m
  }

  /** Nothing wanted from `start` up in the first `j` regions. */
  ghost predicate Passed(areas: seq<Area>, j: nat, start: nat, want: bool) {
    forall i: nat, m: nat :: i < j && i < |areas| && Holds(areas[i], m, want) ==> m < start
  }

  /** Region `j` covers `start`, or lies past it like all that follow. */
  ghost predicate Ahead(areas: seq<Area>, j: nat, start: nat) {
    forall i :: j <= i < |areas| ==> start < areas[i].start || (i == j && Covers(areas[i], start))
  }

  lemma StartSearch(areas: seq<Area>, start: nat, want: bool, inside: bool, j: nat)
    requires Ordered(areas)
    requires inside ==> j < |areas| && Covers(areas[j], start)
    requires !inside ==> Behind(areas, j, start) && Past(areas, j, start + 1)
    ensures Behind(areas, j, start) && Passed(areas, j, start, want) && Ahead(areas, j, start)
  {
    forall i | 0 <= i < j && i < |areas|
      ensures End(areas[i]) <= start
    {
      assert inside ==> Before(areas, i, j);
    }
    forall i | j < i < |areas|
      ensures start < areas[i].start
    {
      assert inside ==> Before(areas, j, i);
    }
  }

  /** The numbers wanted in region `j` from `start` up, the first of them at `r`. */
  lemma InRegion(a: Area, start: nat, want: bool, offset: nat, r: nat, m: nat)
    requires Good(a) && offset == (if start > a.start then start - a.start else 0)
    requires r == NextBit(a.buf, a.total, offset, want) && Holds(a, m, want)
    ensures start <= m ==> a.start + r <= m && r < a.total
  {
    var k: nat := m - a.start;
    assert k < a.total && Bit(a.buf, k) == want;
  }

  lemma Found(areas: seq<Area>, j: nat, start: nat, want: bool, offset: nat, r: nat)
    requires Ordered(areas) && j < |areas| && Good(areas[j]) && Passed(areas, j, start, want)
    requires offset == (if start > areas[j].start then start - areas[j].start else 0)
    requires r == NextBit(areas[j].buf, areas[j].total, offset, want) && r < areas[j].total
    ensures NextIn(Matching(areas, want), start, true, areas[j].start + r)
  {
    assert Holds(areas[j], areas[j].start + r, want);
    MatchingHas(areas, areas[j].start + r, want, j);
    forall m | m in Matching(areas, want) && start <= m
      ensures areas[j].start + r <= m
    {
      var i := MatchingFind(areas, m, want);
      assert Before(areas, j, i);
      if i == j {
        InRegion(areas[j], start, want, offset, r, m);
      }
    }
  }

  lemma NotFound(areas: seq<Area>, j: nat, start: nat, want: bool, offset: nat)
    requires Ordered(areas) && j < |areas| && Good(areas[j]) && Passed(areas, j, start, want) && Ahead(areas, j, start)
    requires offset == (if start > areas[j].start then start - areas[j].start else 0)
    requires NextBit(areas[j].buf, areas[j].total, offset, want) == areas[j].total
    ensures Passed(areas, j + 1, start, want) && Ahead(areas, j + 1, start)
  {
    forall m: nat | Holds(areas[j], m, want)
      ensures m < start
    {
      InRegion(areas[j], start, want, offset, areas[j].total, m);
    }
  }

  /** What one region contributes to the search. */
  ghost predicate Probed(areas: seq<Area>, j: nat, start: nat, want: bool, found: bool, n: nat) {
    if found then NextIn(Matching(areas, want), start, found, n)
    else Passed(areas, j + 1, start, want) && Ahead(areas, j + 1, start)
  }

  lemma Probing(areas: seq<Area>, j: nat, start: nat, want: bool, r: nat)
    requires Ordered(areas) && j < |areas| && Good(areas[j]) && Passed(areas, j, start, want) && Ahead(areas, j, start)
    requires r == NextBit(areas[j].buf, areas[j].total, Offset(areas[j], start), want)
    ensures Probed(areas, j, start, want, r != areas[j].total, areas[j].start + r)
  {
    if r == areas[j].total {
      NotFound(areas, j, start, want, Offset(areas[j], start));
    } else {
      Found(areas, j, start, want, Offset(areas[j], start), r);
    }
  }

  lemma SearchEnd(areas: seq<Area>, j: nat, start: nat, want: bool)
    requires Ordered(areas) && Passed(areas, j, start, want) && j >= |areas|
    ensures NextIn(Matching(areas, want), start, false, 0)
  {
    forall m | m in Matching(areas, want)
      ensures m < start
    {
      var i := MatchingFind(areas, m, want);
    }
  }

  ghost function Inserted(areas: seq<Area>, k: nat, x: Area): seq<Area>
    requires k <= |areas|
  {
    areas[..k] + [x] + areas[k..]
  }

  ghost predicate Fits(areas: seq<Area>, k: nat, x: Area) {
    Behind(areas, k, x.start) && Past(areas, k, End(x))
  }

  /** Between its neighbours a new region finds its place. */
  lemma InsertGood(areas: seq<Area>, k: nat, x: Area)
    requires Ordered(areas) && AllGood(areas) && Good(x) && k <= |areas| && Fits(areas, k, x)
    ensures Ordered(Inserted(areas, k, x)) && AllGood(Inserted(areas, k, x))
    ensures Rep(Inserted(areas, k, x)) == Rep(areas) + Members(x)
  {
    InsertRep(areas, k, x);
    InsertOrdered(areas, k, x);
    forall i | 0 <= i < |areas| + 1
      ensures Good(Inserted(areas, k, x)[i])
    {
      assert i != k ==> Good(areas[if i < k then i else i - 1]);
    }
  }

  lemma InsertRep(areas: seq<Area>, k: nat, x: Area)
    requires k <= |areas|
    ensures Rep(Inserted(areas, k, x)) == Rep(areas) + Members(x)
  {
    var ss := MembersOf(areas);
    UnionInsert(ss, k, Members(x));
    assert MembersOf(Inserted(areas, k, x)) == ss[..k] + [Members(x)] + ss[k..];
  }

  lemma InsertOrdered(areas: seq<Area>, k: nat, x: Area)
    requires Ordered(areas) && k <= |areas| && Fits(areas, k, x)
    ensures Ordered(Inserted(areas, k, x))
  {
    var r := Inserted(areas, k, x);
    forall i: nat, j: nat
      ensures Before(r, i, j)
    {
      var i', j' := if i < k then i else i - 1, if j < k then j else j - 1;
      assert i < j && i != k && j != k ==> Before(areas, i', j');
    }
  }

  lemma InsertDomain(areas: seq<Area>, k: nat, x: Area)
    requires k <= |areas|
    ensures Domain(Inserted(areas, k, x)) == Domain(areas) + Interval(x.start, End(x))
  {
    var ss := CoverOf(areas);
    UnionInsert(ss, k, Interval(x.start, End(x)));
    assert CoverOf(Inserted(areas, k, x)) == ss[..k] + [Interval(x.start, End(x))] + ss[k..];
  }

  ghost function Joined(areas: seq<Area>, i: nat, x: Area): seq<Area>
    requires i + 1 < |areas|
  {
    areas[..i] + [x] + areas[i + 2..]
  }

  lemma JoinGood(areas: seq<Area>, i: nat, x: Area)
    requires Ordered(areas) && AllGood(areas) && i + 1 < |areas| && Takes(areas[i], areas[i + 1], x)
    ensures Ordered(Joined(areas, i, x)) && AllGood(Joined(areas, i, x))
    ensures Rep(Joined(areas, i, x)) == Rep(areas) && Domain(Joined(areas, i, x)) == Domain(areas)
  {
    JoinRep(areas, i, x);
    JoinOrdered(areas, i, x);
    JoinDomain(areas, i, x);
    forall k | 0 <= k < |areas| - 1
      ensures Good(Joined(areas, i, x)[k])
    {
      JoinedAt(areas, i, x, k);
      assert k != i ==> Good(areas[if k < i then k else k + 1]);
    }
  }

  lemma JoinedAt(areas: seq<Area>, i: nat, x: Area, k: nat)
    requires i + 1 < |areas| && k < |areas| - 1
    ensures Joined(areas, i, x)[k] == if k == i then x else areas[if k < i then k else k + 1]
  {
  }

  lemma JoinRep(areas: seq<Area>, i: nat, x: Area)
    requires i + 1 < |areas| && Members(x) == Members(areas[i]) + Members(areas[i + 1])
    ensures Rep(Joined(areas, i, x)) == Rep(areas)
  {
    var ss := MembersOf(areas);
    UnionPair(ss, i);
    assert MembersOf(Joined(areas, i, x)) == ss[..i] + [ss[i] + ss[i + 1]] + ss[i + 2..];
  }

  lemma JoinOrdered(areas: seq<Area>, i: nat, x: Area)
    requires Ordered(areas) && i + 1 < |areas| && x.start == areas[i].start && End(x) == End(areas[i + 1])
    ensures Ordered(Joined(areas, i, x))
  {
    var r := Joined(areas, i, x);
    forall j: nat, k: nat
      ensures Before(r, j, k)
    {
      assert Before(areas, if j < i then j else j + 1, if k <= i then k else k + 1);
    }
  }

  lemma JoinDomain(areas: seq<Area>, i: nat, x: Area)
    requires i + 1 < |areas| && End(areas[i]) == areas[i + 1].start
    requires x.start == areas[i].start && End(x) == End(areas[i + 1])
    ensures Domain(Joined(areas, i, x)) == Domain(areas)
  {
    var ss := CoverOf(areas);
    UnionPair(ss, i);
    IntervalJoin(x.start, End(areas[i]), End(x));
    assert CoverOf(Joined(areas, i, x)) == ss[..i] + [ss[i] + ss[i + 1]] + ss[i + 2..];
  }

  // ---------------------------------------------------------------------
  // The choice of a range

  datatype Status = Done | NotFound | InvalidBit | InvalidArgument

  /** The first `upto` regions have no run of `min` clear bits. */
  ghost predicate Exhausted(areas: seq<Area>, upto: nat, min: nat) {
    forall i :: 0 <= i < upto && i < |areas| && min > 0 ==> LongestRun(areas[i], min - 1)
  }

  /** `lo..hi` is a clear run of region `at`, the first that has one of `min` bits; it has
      `len` bits, or is the longest of that region. */
  ghost predicate Chosen(areas: seq<Area>, at: nat, lo: nat, hi: nat, min: nat, len: nat) {
    && at < |areas| && ClearRun(areas[at], lo, hi) && min <= hi - lo <= len
    && (hi - lo < len ==> LongestRun(areas[at], hi - lo))
    && Exhausted(areas, at, min)
  }

  /** No region meets only a part of `first .. first + len`. */
  ghost predicate Within(areas: seq<Area>, first: nat, len: nat) {
    forall i :: 0 <= i < |areas| && Meets(areas[i], first, len) ==>
      areas[i].start <= first && first + len <= End(areas[i])
  }

  /** A range in one region meets no other. */
  lemma OneMeets(areas: seq<Area>, at: nat, first: nat, len: nat)
    requires Ordered(areas) && at < |areas| && 0 < len && areas[at].start <= first && first + len <= End(areas[at])
    ensures Within(areas, first, len) && forall i :: 0 <= i < |areas| ==> (Meets(areas[i], first, len) <==> i == at)
  {
    forall i | 0 <= i < |areas| && i != at
      ensures !Meets(areas[i], first, len)
    {
      if i < at {
        assert Before(areas, i, at);
      } else {
        assert Before(areas, at, i);
      }
    }
  }

  /** Clearing the range that was allocated gives back the bitmap there was before. */
  lemma RangeRestored(areas: seq<Area>, at: nat, lo: nat, hi: nat, min: nat, len: nat)
    requires Chosen(areas, at, lo, hi, min, len) && Good(areas[at])
    ensures AfterFill(AfterFill(areas, at, lo, hi, true), at, lo, hi, false) == areas
  {
    FillUndo(areas[at], lo, hi);
  }

  /** The range that was allocated can be cleared. */
  lemma RangeToClear(areas: seq<Area>, after: seq<Area>, at: nat, first: nat, count: nat, min: nat, len: nat)
    requires Chosen(areas, at, first, first + count, min, len) && Good(areas[at]) && 0 < min
    requires after == AfterFill(areas, at, first, first + count, true) && Ordered(after)
    ensures Within(after, first, count) && AfterFill(after, at, first, first + count, false) == areas
    ensures forall i :: 0 <= i < |after| ==> (Meets(after[i], first, count) <==> i == at)
  {
    RangeRestored(areas, at, first, first + count, min, len);
    OneMeets(after, at, first, count);
  }

  ghost predicate HasRun(a: Area, min: nat) {
    exists lo: nat, hi: nat :: ClearRun(a, lo, hi) && hi - lo == min
  }

  /** An allocation succeeds exactly when some region has `min` clear bits in a row. */
  lemma SucceedsIff(areas: seq<Area>, min: nat)
    requires min > 0
    ensures Exhausted(areas, |areas|, min) <==> forall i :: 0 <= i < |areas| ==> !HasRun(areas[i], min)
  {
    forall i | 0 <= i < |areas|
      ensures LongestRun(areas[i], min - 1) <==> !HasRun(areas[i], min)
    {
      forall lo: nat, hi: nat | ClearRun(areas[i], lo, hi) && hi - lo >= min
        ensures HasRun(areas[i], min)
      {
        ShorterRun(areas[i], lo, hi, lo + min);
      }
    }
  }

  // ---------------------------------------------------------------------
  // The search for a clear bit when holes count as clear

  ghost predicate AllSet(areas: seq<Area>, lo: nat, hi: nat) {
    forall m: nat :: lo <= m < hi ==> m in Rep(areas)
  }

  /** Some region reaches past `start`, and from `start` to the end of the last region
      there is neither a clear bit nor a hole. */
  ghost predicate SolidFrom(areas: seq<Area>, start: nat) {
    && |areas| > 0 && start < End(areas[|areas| - 1])
    && AllSet(areas, start, End(areas[|areas| - 1]))
  }

  /** Up to `seen` all is set, and region `j` is next. */
  ghost predicate Scanning(areas: seq<Area>, j: nat, start: nat, seen: nat) {
    && start <= seen && AllSet(areas, start, seen) && (j < |areas| ==> start < End(areas[j]))
    && (j < |areas| ==> seen <= areas[j].start || (seen == start && Covers(areas[j], start)))
    && Behind(areas, j, seen)
  }

  /** Between two regions, and past the last, nothing is set. */
  lemma HoleFound(areas: seq<Area>, j: nat, n: nat)
    requires Ordered(areas) && (j < |areas| ==> n < areas[j].start) && Behind(areas, j, n)
    ensures n !in Rep(areas)
  {
    forall i | j < i < |areas|
      ensures n < areas[i].start
    {
      assert Before(areas, j, i);
    }
    if n in Rep(areas) {
      var i := RepFind(areas, n);
    }
  }

  /** The set bits of region `j` from `start` up to the first clear one. */
  lemma SetUpTo(areas: seq<Area>, j: nat, start: nat, r: nat)
    requires Ordered(areas) && j < |areas| && Good(areas[j])
    requires r == NextBit(areas[j].buf, areas[j].total, Offset(areas[j], start), false)
    ensures forall m: nat :: start <= m && areas[j].start <= m < areas[j].start + r ==> m in Rep(areas)
  {
    forall m: nat | start <= m && areas[j].start <= m < areas[j].start + r
      ensures m in Rep(areas)
    {
      assert Bit(areas[j].buf, m - areas[j].start) != false;
      RepLocal(areas, j, m);
    }
  }

  lemma SetThrough(areas: seq<Area>, j: nat, start: nat, seen: nat, r: nat)
    requires Ordered(areas) && j < |areas| && Good(areas[j]) && AllSet(areas, start, seen) && areas[j].start <= seen
    requires r == NextBit(areas[j].buf, areas[j].total, Offset(areas[j], start), false)
    ensures AllSet(areas, start, areas[j].start + r)
  {
    SetUpTo(areas, j, start, r);
  }

  lemma ClearFound(areas: seq<Area>, j: nat, start: nat, r: nat)
    requires Ordered(areas) && j < |areas| && Good(areas[j])
    requires r == NextBit(areas[j].buf, areas[j].total, Offset(areas[j], start), false) && r < areas[j].total
    ensures start <= areas[j].start + r && areas[j].start + r !in Rep(areas)
  {
    NotHas(areas[j], r);
    RepLocal(areas, j, areas[j].start + r);
  }

  lemma NotHas(a: Area, r: nat)
    requires Sized(a) && r < a.total && !Bit(a.buf, r)
    ensures Covers(a, a.start + r) && !Has(a, a.start + r)
  {
    assert a.start + r - a.start == r;
  }

  lemma SolidStep(areas: seq<Area>, j: nat, start: nat, seen: nat)
    requires Ordered(areas) && j < |areas| && Scanning(areas, j, start, seen) && AllSet(areas, start, End(areas[j]))
    ensures Scanning(areas, j + 1, start, End(areas[j]))
  {
    assert Before(areas, j, j + 1);
    forall i | 0 <= i < j
      ensures End(areas[i]) <= End(areas[j])
    {
      assert Before(areas, i, j);
    }
  }

  lemma LastEnd(areas: seq<Area>, j: nat)
    requires Ordered(areas) && j < |areas|
    ensures End(areas[j]) <= End(areas[|areas| - 1])
  {
    assert Before(areas, j, |areas| - 1);
  }

  /** Where the search fails it misses a clear number exactly when the last region ends
      before the bitmap does. */
  lemma SolidMissed(areas: seq<Area>, start: nat, totalBits: nat)
    requires Ordered(areas) && SolidFrom(areas, start) && End(areas[|areas| - 1]) <= totalBits
    ensures (exists n: nat :: start <= n < totalBits && n !in Rep(areas)) <==> End(areas[|areas| - 1]) < totalBits
  {
    forall i | 0 <= i < |areas|
      ensures End(areas[i]) <= End(areas[|areas| - 1])
    {
      LastEnd(areas, i);
    }
    HoleFound(areas, |areas|, End(areas[|areas| - 1]));
  }
}
