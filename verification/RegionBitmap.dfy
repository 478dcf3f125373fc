/** The region bitmaps of libocfs2/bitmap.c.  The red-black tree is a sorted sequence,
    searched by probing it anywhere, so that what is proved holds for every shape of
    the tree. */
module RegionBitmap {
  import opened Bitops
  import opened SetAlgebra
  import opened Regions
  import opened RegionLists

  /** struct _ocfs2_bitmap.  `merges` says whether its operations let regions merge. */
  class Bitmap {
    const totalBits: nat
    const merges: bool
    var regions: seq<Area>

    ghost predicate Valid()
      reads this
    {
      Ordered(regions) && AllGood(regions)
    }

    /** The set of naturals the bitmap stands for. */
    ghost function Bits(): set<nat>
      reads this
    {
      Rep(regions)
    }

    /** The numbers there is memory for. */
    ghost function Cover(): set<nat>
      reads this
    {
      Domain(regions)
    }

    /** ocfs2_bitmap_new() */
    constructor (totalBits: nat, merges: bool)
      ensures Valid() && regions == [] && Bits() == {} && Cover() == {}
      ensures this.totalBits == totalBits && this.merges == merges
    {
      this.totalBits := totalBits;
      this.merges := merges;
      this.regions := [];
    }

    /** ocfs2_bitmap_lookup(): a region that meets `bitno .. bitno + count`, or the place
        of the first region past them. */
    method Lookup(bitno: nat, count: nat) returns (found: bool, i: nat)
      requires Valid()
      ensures found ==> i < |regions| && Meets(regions[i], bitno, count)
      ensures !found ==> i <= |regions| && Behind(regions, i, bitno) && Past(regions, i, bitno + count)
    {
      var hi;
      i, hi := 0, |regions|;
      while i < hi
        invariant i <= hi <= |regions| && Behind(regions, i, bitno) && Past(regions, hi, bitno + count)
        decreases hi - i
      {
        var mid :| i <= mid < hi;
        var br := regions[mid];
        if bitno + count <= br.start {
          PastHere(regions, mid, bitno + count);
          hi := mid;
        } else if bitno >= br.start + br.total {
          BehindHere(regions, mid, bitno);
          i := mid + 1;
        } else {
          return true, mid;
        }
      }
      found := false;
    }

    /** The region that covers one bit. */
    method LookupBit(bitno: nat) returns (found: bool, i: nat)
      requires Valid()
      ensures found <==> bitno in Cover()
      ensures found ==> i < |regions| && Covers(regions[i], bitno)
    {
      found, i := Lookup(bitno, 1);
      DomainLocate(regions, bitno);
      if found {
        LocateUnique(regions, bitno, i);
      }
    }

    /** ocfs2_bitmap_test_generic() */
    method TestGeneric(bitno: nat) returns (ok: bool, val: bool)
      requires Valid()
      ensures ok <==> bitno in Cover()
      ensures ok ==> (val <==> bitno in Bits())
    {
      var i;
      ok, i := LookupBit(bitno);
      val := false;
      if ok {
        RepLocal(regions, i, bitno);
        assert Good(regions[i]);
        val := Bit(regions[i].buf, bitno - regions[i].start);
      }
    }

    // -------------------------------------------------------------------
    // Adding regions

    /** ocfs2_bitmap_merge_region(), of region `i` and the one behind it, which is erased.
        The reallocation may fail for want of memory. */
    method Merge(i: nat) returns (ok: bool)
      requires Valid() && i + 1 < |regions|
      modifies this
      ensures Valid() && Bits() == old(Bits()) && Cover() == old(Cover())
      ensures ok ==> merges && End(old(regions)[i]) == old(regions)[i + 1].start && |regions| == old(|regions|) - 1
      ensures !ok ==> regions == old(regions)
    {
      var prev, next := regions[i], regions[i + 1];
      if prev.start + prev.total != next.start || !merges {
        return false;
      }
      var newBits := prev.total + next.total;
      var memory: bool := *;
      if newBits > INT_MAX || prev.start + newBits > totalBits || !memory {
        return false;
      }
      assert Good(regions[i]) && Good(regions[i + 1]);
      var joined := Absorb(prev, next);
      JoinGood(regions, i, joined);
      regions := regions[..i] + [joined] + regions[i + 2..];
      return true;
    }

    /** ocfs2_bitmap_insert_region(): the region is linked in, then merged with its
        neighbours where that can be done.  `k` is where it went. */
    method Insert(br: Area) returns (ok: bool, k: nat)
      requires Valid() && Good(br)
      modifies this
      ensures Valid()
      ensures ok <==> br.start <= totalBits && NoneMeets(old(regions), br.start, br.total)
      ensures ok ==> k <= old(|regions|) && Bits() == old(Bits()) + Members(br)
      ensures ok ==> Cover() == old(Cover()) + Interval(br.start, End(br))
      ensures ok && !merges ==> regions == Inserted(old(regions), k, br)
      ensures !ok ==> regions == old(regions)
    {
      ok, k := Admit(br);
      if ok {
        InsertGood(regions, k, br);
        InsertDomain(regions, k, br);
        regions := regions[..k] + [br] + regions[k..];
        MergeAround(k);
      }
    }

    /** The checks of ocfs2_bitmap_insert_region(), and the place for the region. */
    method Admit(br: Area) returns (ok: bool, k: nat)
      requires Valid()
      ensures ok <==> br.start <= totalBits && NoneMeets(regions, br.start, br.total)
      ensures ok ==> k <= |regions| && Fits(regions, k, br)
    {
      ok, k := false, 0;
      if br.start <= totalBits {
        var found;
        found, k := Lookup(br.start, br.total);
        ok := !found;
      }
    }

    /** The two attempts to merge a region with its neighbours. */
    method MergeAround(k: nat)
      requires Valid() && k < |regions|
      modifies this
      ensures Valid() && Bits() == old(Bits()) && Cover() == old(Cover())
      ensures !merges ==> regions == old(regions)
    {
      var i := k;
      if i > 0 {
        i := i - 1;
        var merged := Merge(i);
      }
      if i + 1 < |regions| {
        var merged := Merge(i);
      }
    }

    // -------------------------------------------------------------------
    // Setting and clearing bits

    /** ocfs2_bitmap_set_generic() and ocfs2_bitmap_clear_generic(). */
    method Change(bitno: nat, v: bool) returns (ok: bool, was: bool)
      requires Valid()
      modifies this
      ensures Valid() && (ok <==> bitno in old(Cover())) && Cover() == old(Cover())
      ensures ok ==> was == (bitno in old(Bits())) && regions == AfterFlip(old(regions), bitno, v)
      ensures ok ==> Bits() == if v then old(Bits()) + {bitno} else old(Bits()) - {bitno}
      ensures !ok ==> regions == old(regions)
    {
      var i;
      ok, i := LookupBit(bitno);
      was := false;
      if ok {
        assert Good(regions[i]);
        FlipRep(regions, i, bitno, v);
        ReplaceDomain(regions, i, Flip(regions[i], bitno, v));
        var br;
        br, was := ChangeBit(regions[i], bitno, v);
        regions := regions[i := br];
      }
    }

    /** ocfs2_bitmap_set_holes(): memory is allocated for a bit that has none. */
    method SetHoles(bitno: nat) returns (ok: bool, was: bool)
      requires Valid()
      modifies this
      ensures Valid() && (ok <==> bitno in old(Cover()) || bitno <= totalBits)
      ensures ok ==> was == (bitno in old(Bits())) && Bits() == old(Bits()) + {bitno}
      ensures !ok ==> Bits() == old(Bits())
    {
      ok, was := Change(bitno, true);
      if !ok {
        ok := AddBit(bitno);
        if ok {
          ok, was := Change(bitno, true);
        }
      }
    }

    /** A region of one bit for a bit that has none. */
    method AddBit(bitno: nat) returns (ok: bool)
      requires Valid() && bitno !in Cover()
      modifies this
      ensures Valid() && Bits() == old(Bits()) && bitno !in Bits() && (ok <==> bitno <= totalBits)
      ensures ok ==> bitno in Cover()
    {
      var br := NewRegion(bitno, 1);
      NotMet(regions, bitno);
      RepCovered(regions, bitno);
      var k;
      ok, k := Insert(br);
      assert bitno in Interval(bitno, bitno + 1);
    }

    /** ocfs2_bitmap_clear_holes() */
    method ClearHoles(bitno: nat) returns (ok: bool)
      requires Valid()
      modifies this
      ensures Valid() && (ok <==> bitno in old(Cover()) || bitno <= totalBits)
      ensures Bits() == old(Bits()) - {bitno}
    {
      var was;
      ok, was := Change(bitno, false);
      if !ok {
        ok := AddBit(bitno);
      }
    }

    /** ocfs2_bitmap_test_holes() */
    method TestHoles(bitno: nat) returns (val: bool)
      requires Valid()
      ensures val <==> bitno in Bits()
    {
      var ok;
      ok, val := TestGeneric(bitno);
      RepCovered(regions, bitno);
      if !ok {
        val := false;
      }
    }

    // -------------------------------------------------------------------
    // Searching

    /** Where a search from `start` begins. */
    method FirstRegion(start: nat, ghost want: bool) returns (j: nat)
      requires Valid()
      ensures j <= |regions| && Passed(regions, j, start, want) && Ahead(regions, j, start) && Behind(regions, j, start)
    {
      var inside;
      inside, j := Lookup(start, 1);
      StartSearch(regions, start, want, inside, j);
    }

    /** ocfs2_bitmap_find_next_set_generic() and ocfs2_bitmap_find_next_clear_generic():
        the least number from `start` up that is covered and set, or covered and clear. */
    method FindNext(start: nat, want: bool) returns (found: bool, n: nat)
      requires Valid()
      ensures NextIn(Matching(regions, want), start, found, n)
    {
      var j := FirstRegion(start, want);
      while j < |regions|
        invariant j <= |regions| && Passed(regions, j, start, want) && Ahead(regions, j, start)
      {
        var br := regions[j];
        assert Good(regions[j]);
        var ret := FindInRegion(br, start, want);
        Probing(regions, j, start, want, ret);
        if ret != br.total {
          return true, br.start + ret;
        }
        j := j + 1;
      }
      SearchEnd(regions, j, start, want);
      return false, 0;
    }

    method ProbeHoles(j: nat, start: nat, seen: nat) returns (found: bool, n: nat)
      requires Valid() && j < |regions| && Scanning(regions, j, start, seen)
      ensures found ==> start <= n < End(regions[j]) && n !in Bits() && AllSet(regions, start, n)
      ensures !found ==> n == End(regions[j]) && Scanning(regions, j + 1, start, n)
    {
      var br := regions[j];
      assert Good(regions[j]);
      if seen < br.start {
        HoleFound(regions, j, seen);
        return true, seen;
      }
      var ret := FindInRegion(br, start, false);
      SetThrough(regions, j, start, seen, ret);
      if ret == br.total {
        SolidStep(regions, j, start, seen);
      } else {
        ClearFound(regions, j, start, ret);
      }
      return ret != br.total, br.start + ret;
    }

    /** ocfs2_bitmap_find_next_clear_holes(): the least number from `start` up that is not
        in the set, unless the regions are solid from `start` to their end. */
    method FindNextClearHoles(start: nat) returns (found: bool, n: nat)
      requires Valid()
      ensures found <==> !SolidFrom(regions, start)
      ensures found ==> start <= n && n !in Bits() && AllSet(regions, start, n)
    {
      var j := FirstRegion(start, true);
      if j == |regions| {
        HoleFound(regions, j, start);
        return true, start;
      }
      var seen := start;
      while j < |regions|
        invariant 0 <= j <= |regions| && Scanning(regions, j, start, seen)
        invariant j == |regions| ==> seen == End(regions[j - 1]) && start < seen
      {
        found, n := ProbeHoles(j, start, seen);
        if found {
          LastEnd(regions, j);
          return;
        }
        seen := n;
        j := j + 1;
      }
      return false, 0;
    }

    // -------------------------------------------------------------------
    // Ranges

    /** The choice of region and range in ocfs2_bitmap_alloc_range_generic(). */
    method Choose(min: nat, len: nat) returns (found: bool, at: nat, lo: nat, hi: nat)
      requires Valid() && 0 < min <= len
      ensures found ==> Chosen(regions, at, lo, hi, min, len)
      ensures !found ==> Exhausted(regions, |regions|, min)
    {
      at := 0;
      while at < |regions|
        invariant at <= |regions| && Exhausted(regions, at, min)
      {
        assert Good(regions[at]);
        found, lo, hi := SearchRegion(regions[at], min, len);
        if found {
          return;
        }
        at := at + 1;
      }
      return false, at, 0, 0;
    }

    /** The bits `lo..hi` of region `i`. */
    method FillAt(i: nat, lo: nat, hi: nat, v: bool)
      requires Valid() && i < |regions| && regions[i].start <= lo <= hi <= End(regions[i])
      modifies this
      ensures Valid() && Cover() == old(Cover())
      ensures regions == AfterFill(old(regions), i, lo, hi, v)
      ensures Bits() == if v then old(Bits()) + Interval(lo, hi) else old(Bits()) - Interval(lo, hi)
    {
      assert Good(regions[i]);
      FillRep(regions, i, lo, hi, v);
      ReplaceDomain(regions, i, Fill(regions[i], lo, hi, v));
      var br := ChangeRange(regions[i], lo, hi, v);
      regions := regions[i := br];
    }

    /** ocfs2_bitmap_alloc_range(): a range of clear bits of one region becomes set. */
    method AllocRange(min: nat, len: nat) returns (st: Status, at: nat, first: nat, count: nat)
      requires Valid()
      modifies this
      ensures Valid() && Cover() == old(Cover())
      ensures st == InvalidArgument <==> min == 0 || len == 0 || len >= totalBits || min > len
      ensures st == Done ==> Chosen(old(regions), at, first, first + count, min, len)
      ensures st == Done ==> regions == AfterFill(old(regions), at, first, first + count, true)
      ensures st == Done ==> Bits() == old(Bits()) + Interval(first, first + count)
      ensures st == NotFound ==> Exhausted(old(regions), |regions|, min)
      ensures st == Done || st == NotFound || st == InvalidArgument
      ensures st != Done ==> regions == old(regions)
    {
      at, first, count := 0, 0, 0;
      if min == 0 || len == 0 || len >= totalBits || min > len {
        return InvalidArgument, at, first, count;
      }
      var found, hi;
      found, at, first, hi := Choose(min, len);
      if !found {
        return NotFound, at, first, count;
      }
      count := hi - first;
      FillAt(at, first, first + count, true);
      return Done, at, first, count;
    }

    /** ocfs2_bitmap_clear_range(), for a range that lies in one region or meets none. */
    method ClearRange(len: nat, first: nat) returns (st: Status, at: nat)
      requires Valid() && Within(regions, first, len)
      modifies this
      ensures Valid() && Cover() == old(Cover())
      ensures st == InvalidArgument <==> len == 0 || len + first > totalBits
      ensures st == InvalidBit <==> st != InvalidArgument && NoneMeets(old(regions), first, len)
      ensures st == Done || st == InvalidBit || st == InvalidArgument
      ensures st == Done ==> at < |old(regions)| && Meets(old(regions)[at], first, len)
      ensures st == Done ==> regions == AfterFill(old(regions), at, first, first + len, false)
      ensures st == Done ==> Bits() == old(Bits()) - Interval(first, first + len)
      ensures st != Done ==> regions == old(regions)
    {
      at := 0;
      if len == 0 || len + first > totalBits {
        return InvalidArgument, at;
      }
      var found;
      found, at := Lookup(first, len);
      if !found {
        return InvalidBit, at;
      }
      FillAt(at, first, first + len, false);
      return Done, at;
    }

    /** A range allocated and then cleared: the bitmap is what it was, if and only if the range
        does not reach past the end of the bitmap, which only clearing looks at. */
    method AllocThenClear(min: nat, len: nat) returns (taken: Status, cleared: Status, first: nat, count: nat)
      requires Valid()
      modifies this
      ensures Valid() && (taken != Done ==> regions == old(regions))
      ensures taken == Done ==>
        && 0 < min <= count <= len
        && (cleared == Done <==> first + count <= totalBits) && (cleared != Done ==> cleared == InvalidArgument)
        && (cleared == Done ==> regions == old(regions))
        && (cleared != Done ==> Bits() == old(Bits()) + Interval(first, first + count))
    {
      var at, where;
      taken, at, first, count := AllocRange(min, len);
      cleared := taken;
      if taken == Done {
        assert Good(old(regions)[at]);
        RangeToClear(old(regions), regions, at, first, count, min, len);
        cleared, where := ClearRange(count, first);
      }
    }
  }
}
