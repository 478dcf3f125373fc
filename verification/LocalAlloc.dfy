/** The window of clusters a slot has set aside: what pass 1 of fsck.ocfs2 reserves of it
    (fsck.ocfs2/pass1.c), and what recovery of the slot gives back
    (fsck.ocfs2/slot_recovery.c). */
module LocalAlloc {
  import opened Bitops
  import opened SetAlgebra
  import opened Oracle

  /** A local alloc inode: its flags are right, i_total, i_used, la_bm_off, la_size and the
      bitmap of the window. */
  datatype Window = Window(flagged: bool, total: nat, used: nat, off: nat, size: nat, bitmap: seq<Byte>)

  /** The bitmap has room for the bits that are said to be there. */
  predicate Roomy(w: Window) {
    w.total <= 8 * |w.bitmap|
  }

  predicate Unused(w: Window, c: nat)
    requires Roomy(w)
  {
    w.off <= c < w.off + w.total && !Bit(w.bitmap, c - w.off)
  }

  /** The clusters of the window that the slot has not used. */
  ghost function UnusedOf(w: Window): set<nat>
    requires Roomy(w)
  {
    set c | w.off <= c < w.off + w.total && Unused(w, c)
  }

  /** Those below bit `upto` of the window. */
  ghost function UnusedBelow(w: Window, upto: nat): set<nat>
    requires Roomy(w)
  {
    UnusedOf(w) * Interval(w.off, w.off + upto)
  }

  lemma UnusedNone(w: Window, from: nat, to: nat)
    requires Roomy(w) && from <= to <= w.total && forall b :: from <= b < to ==> Bit(w.bitmap, b)
    ensures UnusedBelow(w, to) == UnusedBelow(w, from)
  {
    forall c: nat | c in UnusedBelow(w, to)
      ensures c in UnusedBelow(w, from)
    {
      assert Between(w.off, c, w.off + to) && Unused(w, c);
      var b: nat := c - w.off;
      assert Between(w.off, c, w.off + from);
    }
    forall c: nat | c in UnusedBelow(w, from)
      ensures c in UnusedBelow(w, to)
    {
      assert Between(w.off, c, w.off + from);
      assert Between(w.off, c, w.off + to);
    }
  }

  lemma UnusedAll(w: Window, from: nat, to: nat)
    requires Roomy(w) && from <= to <= w.total && forall b :: from <= b < to ==> !Bit(w.bitmap, b)
    ensures UnusedBelow(w, to) == UnusedBelow(w, from) + Interval(w.off + from, w.off + to)
  {
    forall c: nat
      ensures c in UnusedBelow(w, to) <==> c in UnusedBelow(w, from) + Interval(w.off + from, w.off + to)
    {
      assert c in Interval(w.off, w.off + to) <==> Between(w.off, c, w.off + to);
      assert c in Interval(w.off, w.off + from) <==> Between(w.off, c, w.off + from);
      assert c in Interval(w.off + from, w.off + to) <==> Between(w.off + from, c, w.off + to);
      if Between(w.off + from, c, w.off + to) {
        var b: nat := c - w.off;
        assert !Bit(w.bitmap, b) && Unused(w, c);
      }
    }
  }

  lemma UnusedWhole(w: Window)
    requires Roomy(w)
    ensures UnusedBelow(w, w.total) == UnusedOf(w) && UnusedBelow(w, 0) == {}
  {
    forall c: nat | c in UnusedOf(w)
      ensures c in Interval(w.off, w.off + w.total)
    {
      assert Between(w.off, c, w.off + w.total);
    }
    assert Interval(w.off, w.off) == {};
  }

  lemma GrowInterval(lo: nat, c: nat)
    requires lo <= c
    ensures Interval(lo, c + 1) == Interval(lo, c) + {c}
  {
    IntervalJoin(lo, c, c + 1);
    assert Interval(c, c + 1) == {c};
  }

  lemma EmptyInterval(lo: nat, hi: nat)
    requires hi <= lo
    ensures Interval(lo, hi) == {}
  {
  }

  // ---------------------------------------------------------------------
  // Reserving

  /** The window makes sense: the guards of mark_local_allocs(). */
  predicate Sane(w: Window, maxSize: nat, clusters: nat) {
    && w.total > 0 && w.size <= maxSize && w.used <= w.total && w.total <= 8 * w.size
    && w.off < clusters && w.off + w.total <= clusters
  }

  /** mark_local_allocs(), for one slot: the clusters it marks as in use. */
  method Reserve(w: Window, maxSize: nat, clusters: nat) returns (reserved: set<nat>)
    requires |w.bitmap| == w.size
    ensures Sane(w, maxSize, clusters) ==> Roomy(w) && reserved == UnusedOf(w)
    ensures !Sane(w, maxSize, clusters) ==> reserved == {}
    ensures forall c :: c in reserved ==> w.off <= c < clusters
  {
    reserved := {};
    if w.total == 0 {
      return;
    }
    if w.size > maxSize || w.used > w.total || w.total > w.size * 8 {
      return;
    }
    if w.off >= clusters || w.off + w.total > clusters {
      return;
    }
    UnusedWhole(w);
    var bit := 0;
    while bit < w.total
      invariant bit <= w.total && reserved == UnusedBelow(w, bit)
    {
      ghost var from := bit;
      var next := FindNextBitClear(w.bitmap, w.total, bit);
      if next < w.total {
        UnusedNone(w, from, next);
        UnusedAll(w, next, next + 1);
        assert Interval(w.off + next, w.off + next + 1) == {w.off + next};
        reserved := reserved + {next + w.off};
        bit := next + 1;
      } else {
        UnusedNone(w, from, w.total);
        bit := w.total;
      }
    }
  }

  // ---------------------------------------------------------------------
  // Giving back

  /** The bits `lo..hi` of the window. */
  datatype Run = Run(lo: nat, hi: nat)

  /** A run of clear bits that cannot be made longer at either end. */
  ghost predicate MaximalRun(w: Window, r: Run)
    requires Roomy(w)
  {
    && r.lo < r.hi <= w.total && (forall b :: r.lo <= b < r.hi ==> !Bit(w.bitmap, b))
    && (r.lo > 0 ==> Bit(w.bitmap, r.lo - 1)) && (r.hi < w.total ==> Bit(w.bitmap, r.hi))
  }

  /** Maximal runs, in order and apart, that lie below bit `upto`. */
  ghost predicate RunsBelow(w: Window, runs: seq<Run>, upto: nat)
    requires Roomy(w)
  {
    && (forall i :: 0 <= i < |runs| ==> MaximalRun(w, runs[i]) && runs[i].hi <= upto)
    && (forall i, j :: 0 <= i < j < |runs| ==> runs[i].hi <= runs[j].lo)
  }

  /** The run being gathered: `count` clear bits before `start`, with a set bit or nothing
      before them. */
  ghost predicate Gathering(w: Window, start: nat, count: nat)
    requires Roomy(w)
  {
    && count <= start <= w.total && (forall b :: start - count <= b < start ==> !Bit(w.bitmap, b))
    && (start > count ==> Bit(w.bitmap, start - count - 1)) && (count == 0 ==> start == 0)
  }

  lemma RunDone(w: Window, runs: seq<Run>, start: nat, count: nat)
    requires Roomy(w) && Gathering(w, start, count) && count > 0 && (start < w.total ==> Bit(w.bitmap, start))
    requires RunsBelow(w, runs, start - count)
    ensures RunsBelow(w, runs + [Run(start - count, start)], start)
  {
    var r := runs + [Run(start - count, start)];
    assert MaximalRun(w, Run(start - count, start));
    forall i | 0 <= i < |r|
      ensures MaximalRun(w, r[i]) && r[i].hi <= start
    {
      assert i < |runs| ==> r[i] == runs[i];
    }
  }

  ghost function Intervals(w: Window, runs: seq<Run>): seq<set<nat>> {
    seq(|runs|, i requires 0 <= i < |runs| => Interval(w.off + runs[i].lo, w.off + runs[i].hi))
  }

  /** The clusters of a list of runs. */
  ghost function Clusters(w: Window, runs: seq<Run>): set<nat> {
    Union(Intervals(w, runs))
  }

  lemma ClustersAdd(w: Window, runs: seq<Run>, r: Run)
    ensures Clusters(w, runs + [r]) == Clusters(w, runs) + Interval(w.off + r.lo, w.off + r.hi)
  {
    var x := Interval(w.off + r.lo, w.off + r.hi);
    UnionConcat(Intervals(w, runs), [x]);
    assert Intervals(w, runs + [r]) == Intervals(w, runs) + [x];
    assert Union([x]) == x + Union([]);
  }

  /** Of the clusters in use the unused ones below bit `upto`, all of them set, are freed. */
  ghost predicate Given(w: Window, before: set<nat>, now: set<nat>, upto: nat)
    requires Roomy(w)
  {
    UnusedBelow(w, upto) <= before && now == before - UnusedBelow(w, upto)
  }

  lemma GivenRun(w: Window, before: set<nat>, now: set<nat>, lo: nat, hi: nat)
    requires Roomy(w) && lo <= hi <= w.total && (forall b :: lo <= b < hi ==> !Bit(w.bitmap, b))
    requires Given(w, before, now, lo)
    ensures Interval(w.off + lo, w.off + hi) <= now ==> Given(w, before, now - Interval(w.off + lo, w.off + hi), hi)
    ensures !(Interval(w.off + lo, w.off + hi) <= now) ==> !(UnusedOf(w) <= before)
  {
    UnusedAll(w, lo, hi);
    var run := Interval(w.off + lo, w.off + hi);
    assert run !! UnusedBelow(w, lo) by {
      forall c: nat | c in run
        ensures c !in UnusedBelow(w, lo)
      {
        assert Between(w.off + lo, c, w.off + hi) && !Between(w.off, c, w.off + lo);
      }
    }
    assert run <= UnusedOf(w);
  }

  /** Up to bit `upto` the unused clusters were given back, run by run. */
  ghost predicate Giving(w: Window, before: set<nat>, now: set<nat>, freed: seq<Run>, upto: nat)
    requires Roomy(w)
  {
    Given(w, before, now, upto) && RunsBelow(w, freed, upto) && Clusters(w, freed) == UnusedBelow(w, upto)
  }

  lemma GivingRun(w: Window, before: set<nat>, now: set<nat>, freed: seq<Run>, start: nat, count: nat)
    requires Roomy(w) && Gathering(w, start, count) && count > 0 && (start < w.total ==> Bit(w.bitmap, start))
    requires Giving(w, before, now, freed, start - count)
    ensures var run := Interval(w.off + start - count, w.off + start);
      if run <= now then Giving(w, before, now - run, freed + [Run(start - count, start)], start)
      else !(UnusedOf(w) <= before)
  {
    GivenRun(w, before, now, start - count, start);
    RunDone(w, freed, start, count);
    ClustersAdd(w, freed, Run(start - count, start));
    UnusedAll(w, start - count, start);
  }

  lemma GivingOn(w: Window, before: set<nat>, now: set<nat>, freed: seq<Run>, from: nat, to: nat)
    requires Roomy(w) && from <= to <= w.total && (forall b :: from <= b < to ==> Bit(w.bitmap, b))
    requires Giving(w, before, now, freed, from)
    ensures Giving(w, before, now, freed, to)
  {
    UnusedNone(w, from, to);
  }

  datatype Ret = Ok | BadInode | NotSet | Failed

  /** The recovery of one slot: the local alloc inode on disk, and the clusters that are
      set in the global bitmap. */
  class Recovery {
    var window: Window
    var inUse: set<nat>
    /** Reading and writing succeeds. */
    const smooth: bool

    constructor (window: Window, inUse: set<nat>, smooth: bool)
      ensures this.window == window && this.inUse == inUse && this.smooth == smooth
    {
      this.window, this.inUse, this.smooth := window, inUse, smooth;
    }

    /** Testing that clusters are set and freeing them. */
    method Give(lo: nat, hi: nat) returns (ret: Ret)
      requires lo <= hi
      modifies this`inUse
      ensures ret in {Ok, NotSet, Failed} && (smooth ==> ret != Failed)
      ensures ret == Ok ==> Interval(lo, hi) <= old(inUse) && inUse == old(inUse) - Interval(lo, hi)
      ensures ret == NotSet ==> !(Interval(lo, hi) <= old(inUse))
      ensures ret != Ok ==> inUse == old(inUse)
    {
      var read := Chance(smooth);
      if !read {
        return Failed;
      }
      var c, left := lo, inUse;
      EmptyInterval(lo, lo);
      while c < hi
        invariant lo <= c <= hi && inUse == old(inUse)
        invariant Interval(lo, c) <= inUse && left == inUse - Interval(lo, c)
      {
        if c !in inUse {
          assert c in Interval(lo, hi) by {
            assert Between(lo, c, hi);
          }
          return NotSet;
        }
        GrowInterval(lo, c);
        left := left - {c};
        c := c + 1;
      }
      var freed := Chance(smooth);
      if !freed {
        return Failed;
      }
      inUse := left;
      return Ok;
    }

    /** Giving back the run that was gathered, if any. */
    method Flush(runs: seq<Run>, start: nat, count: nat, ghost before: set<nat>) returns (ret: Ret, freed: seq<Run>)
      requires Roomy(window) && Gathering(window, start, count) && (start < window.total ==> Bit(window.bitmap, start))
      requires Giving(window, before, inUse, runs, start - count)
      modifies this`inUse
      ensures ret in {Ok, NotSet, Failed} && (smooth ==> ret != Failed)
      ensures ret == Ok ==> Giving(window, before, inUse, freed, start)
      ensures ret == NotSet ==> !(UnusedOf(window) <= before)
      ensures ret != Ok ==> Giving(window, before, inUse, freed, start - count)
    {
      ret, freed := Ok, runs;
      if count > 0 {
        GivingRun(window, before, inUse, runs, start, count);
        ret := Give(window.off + start - count, window.off + start);
        if ret == Ok {
          freed := runs + [Run(start - count, start)];
        }
      }
    }

    /** The loop of ocfs2_clear_local_alloc(). */
    method GiveBack() returns (ret: Ret, freed: seq<Run>)
      requires Roomy(window)
      modifies this`inUse
      ensures RunsBelow(window, freed, window.total) && inUse == old(inUse) - Clusters(window, freed)
      ensures ret == Ok ==> UnusedOf(window) <= old(inUse) && Clusters(window, freed) == UnusedOf(window)
      ensures ret == NotSet ==> !(UnusedOf(window) <= old(inUse))
      ensures ret in {Ok, NotSet, Failed} && (smooth ==> ret != Failed)
    {
      var w := window;
      UnusedWhole(w);
      var start, count := 0, 0;
      freed := [];
      while true
        invariant window == w && Gathering(w, start, count) && Giving(w, old(inUse), inUse, freed, start - count)
        decreases w.total - start
      {
        var bit := FindNextBitClear(w.bitmap, w.total, start);
        if bit < w.total && bit == start {
          count := count + 1;
          start := start + 1;
          continue;
        }
        ret, freed := Flush(freed, start, count, old(inUse));
        if ret != Ok {
          return;
        }
        GivingOn(w, old(inUse), inUse, freed, start, if bit < w.total then bit else w.total);
        if bit >= w.total {
          break;
        }
        count := 1;
        start := bit + 1;
      }
      ret := Ok;
    }

    /** ocfs2_clear_local_alloc() */
    method ClearLocalAlloc() returns (ret: Ret, freed: seq<Run>)
      requires Roomy(window)
      modifies this
      ensures ret == BadInode <==> !old(window).flagged
      ensures RunsBelow(old(window), freed, old(window).total) && inUse == old(inUse) - Clusters(old(window), freed)
      ensures ret == Ok ==>
        Clusters(old(window), freed) == if old(window).used == old(window).total then {} else UnusedOf(old(window))
      ensures ret == Ok && old(window).total > 0 ==> window.total == 0 && window.used == 0 && window.off == 0
      ensures ret == Ok && old(window).total > 0 ==>
        |window.bitmap| == |old(window).bitmap| && ZeroPadded(window.bitmap, 0)
      ensures ret == NotSet ==> !(UnusedOf(old(window)) <= old(inUse))
      ensures smooth && old(window).flagged && old(window).used == old(window).total ==> ret == Ok
      ensures smooth && old(window).flagged && UnusedOf(old(window)) <= old(inUse) ==> ret == Ok
      ensures ret != Ok || old(window).total == 0 ==> window == old(window)
    {
      freed := [];
      ret := Ok;
      if !window.flagged {
        return BadInode, freed;
      }
      if window.total == 0 {
        UnusedWhole(window);
        return;
      }
      if window.used != window.total {
        ret, freed := GiveBack();
        if ret != Ok {
          return;
        }
      }
      var written := Chance(smooth);
      if !written {
        return Failed, freed;
      }
      window := window.(total := 0, used := 0, off := 0, bitmap := seq(|window.bitmap|, _ => ZERO));
    }
  }
}
