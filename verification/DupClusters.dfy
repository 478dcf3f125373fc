/** Deleting and cloning inodes that share clusters, in pass 1d of fsck.ocfs2/pass1b.c.
    An inode is its list of data clusters and its size; the disk is the inodes and the
    global cluster bitmap. */
module DupClusters {
  import opened Basics

  datatype Inode = Inode(clusters: seq<nat>, size: nat)

  /** What passes 1 and 1b found: the multiply-claimed clusters and, for each, its
      owners in list order; and which inodes are chain allocators or system files. */
  datatype Context =
    Context(dups: set<nat>, owners: map<nat, seq<nat>>, chains: set<nat>, system: set<nat>, clusterSize: Positive)

  type Positive = n: nat | n > 0 witness 1

  /** ocfs2_clusters_in_bytes() */
  function ClustersIn(ctx: Context, bytes: nat): (n: nat)
    ensures bytes <= n * ctx.clusterSize < bytes + ctx.clusterSize
  {
    (bytes + ctx.clusterSize - 1) / ctx.clusterSize
  }

  /** Inodes on disk, set bits of the cluster bitmap, inodes already dealt with. */
  datatype State = State(inodes: map<nat, Inode>, bitmap: set<nat>, handled: set<nat>)

  const GONE := Inode([], 0)

  function Get(s: State, ino: nat): Inode {
    if ino in s.inodes then s.inodes[ino] else GONE
  }

  function Put(s: State, ino: nat, inode: Inode): State {
    s.(inodes := s.inodes[ino := inode])
  }

  predicate Claims(s: State, ino: nat, c: nat) {
    c in Get(s, ino).clusters
  }

  // ---------------------------------------------------------------------
  // Freeing

  /** How many of the listed inodes still await treatment. */
  function Unhandled(list: seq<nat>, handled: set<nat>): nat {
    if list == [] then 0 else (if list[0] in handled then 0 else 1) + Unhandled(list[1..], handled)
  }

  /** A cluster may be freed when at most one unhandled owner is left. */
  predicate Freeable(ctx: Context, handled: set<nat>, c: nat) {
    c in ctx.dups && c in ctx.owners ==> Unhandled(ctx.owners[c], handled) <= 1
  }

  function Freed(ctx: Context, handled: set<nat>, list: seq<nat>): set<nat> {
    set c | c in list && Freeable(ctx, handled, c)
  }

  /** How a truncate ends: all the way, or stopped by an error or a failed assertion
      after `done` clusters, before the inode is written back. */
  datatype Ending = Complete | Stopped(done: nat, crashed: bool)

  function Truncate(ctx: Context, s: State, ino: nat, end: Ending): State
    requires end.Stopped? ==> end.done <= |Get(s, ino).clusters|
  {
    var inode := Get(s, ino);
    if inode.size == 0 then s
    else match end
      case Complete => Put(s, ino, GONE).(bitmap := s.bitmap - Freed(ctx, s.handled, inode.clusters))
      case Stopped(done, _) => s.(bitmap := s.bitmap - Freed(ctx, s.handled, inode.clusters[..done]))
  }

  /** delete_one_inode(): truncate, then release the inode itself. */
  function Delete(ctx: Context, s: State, ino: nat, end: Ending, released: bool): State
    requires end.Stopped? ==> end.done <= |Get(s, ino).clusters|
  {
    var t := Truncate(ctx, s, ino, end);
    if end.Complete? && released then Put(t, ino, GONE) else t
  }

  // ---------------------------------------------------------------------
  // Cloning

  /** How far the clone got before the temporary inode was deleted. */
  datatype Progress =
    | NotSwapped      // copying, or writing the temporary inode, failed
    | HalfSwapped     // the temporary inode was written, the original was not
    | Swapped

  /** new_clone(): a temporary inode of the same size with newly allocated clusters. */
  function Allocate(s: State, orig: nat, temp: nat, grabbed: seq<nat>): State {
    Put(s, temp, Inode(grabbed, Get(s, orig).size)).(bitmap := s.bitmap + (set c | c in grabbed))
  }

  /** swap_clone(), first write: the temporary inode takes the original's clusters. */
  function WriteTemp(s: State, orig: nat, temp: nat): State {
    Put(s, temp, Get(s, temp).(clusters := Get(s, orig).clusters))
  }

  /** swap_clone(), second write: the original takes the new clusters. */
  function WriteOrig(s: State, orig: nat, grabbed: seq<nat>): State {
    Put(s, orig, Get(s, orig).(clusters := grabbed))
  }

  function SwapTo(s: State, orig: nat, temp: nat, grabbed: seq<nat>, progress: Progress): State {
    var a := Allocate(s, orig, temp, grabbed);
    match progress
    case NotSwapped => a
    case HalfSwapped => WriteTemp(a, orig, temp)
    case Swapped => WriteOrig(WriteTemp(a, orig, temp), orig, grabbed)
  }

  function Clone(ctx: Context, s: State, orig: nat, temp: nat, grabbed: seq<nat>,
      progress: Progress, end: Ending, released: bool): State
    requires end.Stopped? ==> end.done <= |Get(SwapTo(s, orig, temp, grabbed, progress), temp).clusters|
  {
    Delete(ctx, SwapTo(s, orig, temp, grabbed, progress), temp, end, released)
  }

  function MarkHandled(s: State, ino: nat): State {
    s.(handled := s.handled + {ino})
  }

  // ---------------------------------------------------------------------
  // The invariant

  /** Every claimed cluster is set in the bitmap. */
  ghost predicate Safe(s: State) {
    forall ino, c :: Claims(s, ino, c) ==> c in s.bitmap
  }

  /** `ino` is an owner of `c` that still awaits treatment. */
  predicate Waiting(ctx: Context, s: State, c: nat, ino: nat) {
    c in ctx.dups && c in ctx.owners && ino in ctx.owners[c] && ino !in s.handled
  }

  /** Only unhandled owners of a multiply-claimed cluster share it. */
  ghost predicate SharedByOwners(ctx: Context, s: State) {
    forall i, j, c :: i != j && Claims(s, i, c) && Claims(s, j, c) ==> Waiting(ctx, s, c, i)
  }

  ghost predicate Inv(ctx: Context, s: State) {
    && (forall c :: c in ctx.owners ==> Distinct(ctx.owners[c]))
    && Safe(s) && SharedByOwners(ctx, s)
  }

  lemma {:induction false} UnhandledAtLeast(list: seq<nat>, handled: set<nat>, i: nat)
    requires i in list && i !in handled
    ensures Unhandled(list, handled) >= 1
  {
    if list[0] != i {
      UnhandledAtLeast(list[1..], handled, i);
    }
  }

  lemma {:induction false} UnhandledAtLeastTwo(list: seq<nat>, handled: set<nat>, i: nat, j: nat)
    requires i in list && j in list && i != j && i !in handled && j !in handled
    ensures Unhandled(list, handled) >= 2
  {
    if list[0] == i {
      UnhandledAtLeast(list[1..], handled, j);
    } else if list[0] == j {
      UnhandledAtLeast(list[1..], handled, i);
    } else {
      UnhandledAtLeastTwo(list[1..], handled, i, j);
    }
  }

  /** A cluster that may be freed has no second claimant. */
  lemma FreeableUnshared(ctx: Context, s: State, i: nat, j: nat, c: nat)
    requires SharedByOwners(ctx, s) && i != j && Claims(s, i, c) && Freeable(ctx, s.handled, c)
    ensures !Claims(s, j, c)
  {
    if Claims(s, j, c) {
      assert Waiting(ctx, s, c, i) && Waiting(ctx, s, c, j);
      UnhandledAtLeastTwo(ctx.owners[c], s.handled, i, j);
    }
  }

  /** Nothing that truncating `ino` may free is claimed by another inode. */
  ghost predicate Exclusive(ctx: Context, s: State, ino: nat) {
    forall j, c :: j != ino && Claims(s, ino, c) && Freeable(ctx, s.handled, c) ==> !Claims(s, j, c)
  }

  lemma OwnerExclusive(ctx: Context, s: State, ino: nat)
    requires SharedByOwners(ctx, s)
    ensures Exclusive(ctx, s, ino)
  {
    forall j, c | j != ino && Claims(s, ino, c) && Freeable(ctx, s.handled, c)
      ensures !Claims(s, j, c)
    {
      FreeableUnshared(ctx, s, ino, j, c);
    }
  }

  // ---------------------------------------------------------------------
  // Deleting

  /** At every point of a truncate, what other inodes claim stays set. */
  lemma OthersStaySet(ctx: Context, s: State, ino: nat, k: nat)
    requires Safe(s) && Exclusive(ctx, s, ino) && k <= |Get(s, ino).clusters|
    ensures forall j, c :: j != ino && Claims(s, j, c) ==>
      c in s.bitmap - Freed(ctx, s.handled, Get(s, ino).clusters[..k])
  {
  }

  lemma DeleteSafe(ctx: Context, s: State, ino: nat, released: bool)
    requires Safe(s) && Exclusive(ctx, s, ino)
    ensures Safe(Delete(ctx, s, ino, Complete, released))
    ensures forall j, c :: Claims(Delete(ctx, s, ino, Complete, released), j, c) ==> Claims(s, j, c)
    ensures forall j :: j != ino ==> Get(Delete(ctx, s, ino, Complete, released), j) == Get(s, j)
  {
    var n := |Get(s, ino).clusters|;
    OthersStaySet(ctx, s, ino, n);
    assert Get(s, ino).clusters[..n] == Get(s, ino).clusters;
    var d := Delete(ctx, s, ino, Complete, released);
    forall j, c | Claims(d, j, c)
      ensures c in d.bitmap && Claims(s, j, c)
    {
      assert Claims(s, j, c);
      if j == ino {
        assert d == s;
      }
    }
  }

  /** Deleting an owner keeps the invariant, whether or not the inode is released. */
  lemma DeleteKeepsInv(ctx: Context, s: State, ino: nat, released: bool)
    requires Inv(ctx, s)
    ensures Inv(ctx, Delete(ctx, s, ino, Complete, released))
  {
    OwnerExclusive(ctx, s, ino);
    DeleteSafe(ctx, s, ino, released);
  }

  /** A truncate that stops half way leaves the inode claiming what was freed.  It is
      harmless exactly when nothing it got to could be freed. */
  lemma DeleteStoppedIff(ctx: Context, s: State, ino: nat, done: nat, crashed: bool, released: bool)
    requires Safe(s) && done <= |Get(s, ino).clusters| && Get(s, ino).size > 0
    ensures Safe(Delete(ctx, s, ino, Stopped(done, crashed), released))
       <==> Freed(ctx, s.handled, Get(s, ino).clusters[..done]) == {}
  {
    var d := Delete(ctx, s, ino, Stopped(done, crashed), released);
    var freed := Freed(ctx, s.handled, Get(s, ino).clusters[..done]);
    if freed == {} {
      assert d.bitmap == s.bitmap;
      assert forall j, c :: Claims(d, j, c) ==> Claims(s, j, c);
    } else {
      var c :| c in freed;
      assert Claims(d, ino, c) && c !in d.bitmap;
    }
  }

  // ---------------------------------------------------------------------
  // Cloning

  /** A clone uses an unused inode number and free clusters. */
  ghost predicate Available(s: State, orig: nat, temp: nat, grabbed: seq<nat>) {
    && temp != orig && Get(s, temp) == GONE
    && forall c :: c in grabbed ==> c !in s.bitmap
  }

  /** Every stage of a clone, also between the two writes of the swap, is safe. */
  lemma SwapSafe(s: State, orig: nat, temp: nat, grabbed: seq<nat>, progress: Progress)
    requires Safe(s) && Available(s, orig, temp, grabbed)
    ensures Safe(SwapTo(s, orig, temp, grabbed, progress))
  {
    var t := SwapTo(s, orig, temp, grabbed, progress);
    forall ino, c | Claims(t, ino, c)
      ensures c in t.bitmap
    {
      assert c in grabbed || Claims(s, ino, c) || Claims(s, orig, c);
    }
  }

  /** Truncating the temporary inode frees nothing that another inode claims, unless
      the original still has its old clusters. */
  lemma TempExclusive(ctx: Context, s: State, orig: nat, temp: nat, grabbed: seq<nat>, progress: Progress)
    requires Inv(ctx, s) && Available(s, orig, temp, grabbed) && progress != HalfSwapped
    ensures Exclusive(ctx, SwapTo(s, orig, temp, grabbed, progress), temp)
  {
    var t := SwapTo(s, orig, temp, grabbed, progress);
    OwnerExclusive(ctx, s, orig);
    forall j, c | j != temp && Claims(t, temp, c) && Freeable(ctx, t.handled, c)
      ensures !Claims(t, j, c)
    {
      assert j != orig ==> Claims(t, j, c) == Claims(s, j, c);
      if progress == Swapped {
        assert Claims(s, orig, c);
        assert Claims(t, orig, c) == (c in grabbed);
      } else {
        assert c in grabbed && Claims(t, orig, c) == Claims(s, orig, c);
      }
    }
  }

  ghost predicate Unshared(s: State, ino: nat) {
    forall j, c :: j != ino && Claims(s, ino, c) ==> !Claims(s, j, c)
  }

  /** Apart from the temporary inode, only the original's claims change, and what it
      gets was claimed by no one. */
  lemma ClaimsAfterSwap(s: State, orig: nat, temp: nat, grabbed: seq<nat>, progress: Progress, j: nat, c: nat)
    requires Safe(s) && Available(s, orig, temp, grabbed) && j != temp
    ensures var t := SwapTo(s, orig, temp, grabbed, progress);
      && (j != orig || progress != Swapped ==> Claims(t, j, c) == Claims(s, j, c))
      && (j == orig && progress == Swapped ==> Claims(t, j, c) == (c in grabbed))
      && (c in grabbed ==> !Claims(s, j, c))
  {
  }

  /** A clone that ends with the temporary inode emptied keeps the invariant; when the
      swap was made the original shares nothing any more. */
  lemma CloneKeepsInv(ctx: Context, s: State, orig: nat, temp: nat, grabbed: seq<nat>,
      progress: Progress, released: bool)
    requires Inv(ctx, s) && Available(s, orig, temp, grabbed)
    requires progress != HalfSwapped && (released || Get(s, orig).size > 0)
    ensures var t := Clone(ctx, s, orig, temp, grabbed, progress, Complete, released);
      Inv(ctx, t) && (progress == Swapped ==> Unshared(t, orig))
  {
    var t := SwapTo(s, orig, temp, grabbed, progress);
    var d := Delete(ctx, t, temp, Complete, released);
    SwapSafe(s, orig, temp, grabbed, progress);
    TempExclusive(ctx, s, orig, temp, grabbed, progress);
    DeleteSafe(ctx, t, temp, released);
    forall i, j, c | i != j && Claims(d, i, c) && Claims(d, j, c)
      ensures Waiting(ctx, d, c, i) && (progress == Swapped ==> i != orig)
    {
      assert Get(d, temp).clusters == [];
      ClaimsAfterSwap(s, orig, temp, grabbed, progress, i, c);
      ClaimsAfterSwap(s, orig, temp, grabbed, progress, j, c);
      assert Claims(s, i, c) && Claims(s, j, c);
    }
  }

  /** The second write of the swap failing is the one dangerous outcome: the original
      still claims the clusters that deleting the temporary inode gives back.  It is
      harmless exactly when none of the original's clusters could be freed. */
  lemma HalfSwapIff(ctx: Context, s: State, orig: nat, temp: nat, grabbed: seq<nat>, released: bool)
    requires Inv(ctx, s) && Available(s, orig, temp, grabbed) && Get(s, orig).size > 0
    ensures Safe(Clone(ctx, s, orig, temp, grabbed, HalfSwapped, Complete, released))
       <==> Freed(ctx, s.handled, Get(s, orig).clusters) == {}
  {
    var t := SwapTo(s, orig, temp, grabbed, HalfSwapped);
    var d := Clone(ctx, s, orig, temp, grabbed, HalfSwapped, Complete, released);
    var freed := Freed(ctx, s.handled, Get(s, orig).clusters);
    SwapSafe(s, orig, temp, grabbed, HalfSwapped);
    assert Get(d, orig) == Get(s, orig);
    if freed == {} {
      assert d.bitmap == t.bitmap;
      assert forall j, c :: Claims(d, j, c) ==> Claims(t, j, c);
    } else {
      var c :| c in freed;
      assert Claims(d, orig, c) && c !in d.bitmap;
    }
  }

  /** Marking an inode that shares nothing keeps the invariant. */
  lemma MarkKeepsInv(ctx: Context, s: State, ino: nat)
    requires Inv(ctx, s) && Unshared(s, ino)
    ensures Inv(ctx, MarkHandled(s, ino))
  {
    var m := MarkHandled(s, ino);
    forall i, j, c | i != j && Claims(m, i, c) && Claims(m, j, c)
      ensures Waiting(ctx, m, c, i)
    {
      assert Claims(s, i, c) && Claims(s, j, c);
    }
    assert forall i, c :: Claims(m, i, c) ==> Claims(s, i, c);
  }

  ghost predicate PairwiseDisjoint(s: State) {
    forall i, j, c :: i != j && Claims(s, i, c) ==> !Claims(s, j, c)
  }

  /** With fewer than two unhandled owners left for every cluster, no two inodes share one. */
  lemma NothingShared(ctx: Context, s: State)
    requires Inv(ctx, s)
    requires forall c :: c in ctx.owners ==> Unhandled(ctx.owners[c], s.handled) < 2
    ensures PairwiseDisjoint(s)
  {
    forall i, j, c | i != j && Claims(s, i, c)
      ensures !Claims(s, j, c)
    {
      if Claims(s, j, c) {
        assert Waiting(ctx, s, c, i) && Waiting(ctx, s, c, j);
        UnhandledAtLeastTwo(ctx.owners[c], s.handled, i, j);
      }
    }
  }

  lemma {:induction false} UnhandledShrinks(list: seq<nat>, small: set<nat>, large: set<nat>)
    requires small <= large
    ensures Unhandled(list, large) <= Unhandled(list, small)
  {
    if list != [] {
      UnhandledShrinks(list[1..], small, large);
    }
  }

  lemma {:induction false} NoneUnhandled(list: seq<nat>, handled: set<nat>)
    requires forall i :: i in list ==> i in handled
    ensures Unhandled(list, handled) == 0
  {
    if list != [] {
      NoneUnhandled(list[1..], handled);
    }
  }
  // ---------------------------------------------------------------------
  // There is always an unused inode number and a free cluster

  lemma UnusedExists(s: State, a: nat, b: nat)
    ensures exists t: nat :: t != a && t != b && Get(s, t) == GONE
  {
    var t := UnusedNumber(s, a, b);
    assert Get(s, t) == GONE;
  }

  lemma FreeExists(numbers: set<nat>)
    ensures exists c: nat :: c !in numbers
  {
    var t := Above(numbers);
    assert t !in numbers;
  }

  lemma UnusedNumber(s: State, a: nat, b: nat) returns (t: nat)
    ensures t !in s.inodes && t != a && t != b
  {
    t := Above(s.inodes.Keys + {a, b});
  }

  lemma {:induction false} Above(numbers: set<nat>) returns (t: nat)
    ensures forall n :: n in numbers ==> n < t
  {
    if numbers == {} {
      t := 0;
    } else {
      var n :| n in numbers;
      var u := Above(numbers - {n});
      t := if u <= n then n + 1 else u;
      assert forall m :: m in numbers ==> m == n || m in numbers - {n};
    }
  }

  lemma {:induction false} UnhandledStep(list: seq<nat>, handled: set<nat>, ino: nat)
    requires Distinct(list) && Unhandled(list, handled + {ino}) == 0
    ensures Unhandled(list, handled) <= 1
  {
    if list != [] {
      UnhandledStep(list[1..], handled, ino);
      if list[0] == ino {
        assert ino !in list[1..];
        SameCount(list[1..], handled, ino);
      }
    }
  }

  lemma {:induction false} SameCount(list: seq<nat>, handled: set<nat>, ino: nat)
    requires ino !in list
    ensures Unhandled(list, handled + {ino}) == Unhandled(list, handled)
  {
    if list != [] {
      SameCount(list[1..], handled, ino);
    }
  }
}
