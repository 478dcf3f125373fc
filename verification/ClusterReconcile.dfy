/** The reconciliation of the global cluster bitmap with the clusters found in use, at the
    end of pass 1 of fsck.ocfs2 (fsck.ocfs2/pass1.c). */
module ClusterReconcile {
  import opened SetAlgebra
  import opened Regions
  import opened RegionLists
  import opened RegionBitmap
  import opened ChainAlloc
  import opened Oracle

  /** Whether cluster `b` should be set in the end: it is in use, or it was set and holds a
      backup superblock. */
  predicate Wanted(found: set<nat>, before: set<nat>, backups: seq<nat>, b: nat) {
    b in found || (b in before && b in backups)
  }

  /** The bit of cluster `b` is wrong. */
  predicate Differs(found: set<nat>, before: set<nat>, backups: seq<nat>, b: nat) {
    Wanted(found, before, backups, b) != (b in before)
  }

  /** The clusters below `upto` were looked at: all that differ were asked about, in
      order, and nothing from `upto` on has changed. */
  ghost predicate Looked(found: set<nat>, before: set<nat>, backups: seq<nat>, now: set<nat>, asked: seq<nat>,
      upto: nat)
  {
    && (forall b: nat :: b in asked <==> b < upto && Differs(found, before, backups, b))
    && (forall i, j :: 0 <= i < j < |asked| ==> asked[i] < asked[j])
    && (forall b: nat :: b >= upto ==> (b in now <==> b in before))
  }

  /** And all that differed were put right: what is in use is set, what is not is clear, and a
      backup superblock is left alone. */
  ghost predicate Righted(found: set<nat>, before: set<nat>, backups: seq<nat>, now: set<nat>, upto: nat) {
    forall b: nat :: b < upto ==>
      && (b in found ==> b in now)
      && (b !in found && b in backups ==> (b in now <==> b in before))
      && (b !in found && b !in backups ==> b !in now)
  }

  /** Clusters that are not set and not in use need nothing. */
  lemma LookPast(found: set<nat>, before: set<nat>, backups: seq<nat>, now: set<nat>, asked: seq<nat>, from: nat,
      to: nat)
    requires Looked(found, before, backups, now, asked, from) && from <= to
    requires forall b: nat :: from <= b < to ==> b !in found && b !in now
    ensures Looked(found, before, backups, now, asked, to)
    ensures Righted(found, before, backups, now, from) ==> Righted(found, before, backups, now, to)
  {
    forall b: nat | from <= b < to
      ensures b !in before && !Wanted(found, before, backups, b) && b !in now
    {
      assert b in now <==> b in before;
    }
  }

  /** A cluster whose bit is right needs nothing. */
  lemma LookRight(found: set<nat>, before: set<nat>, backups: seq<nat>, now: set<nat>, asked: seq<nat>, b: nat)
    requires Looked(found, before, backups, now, asked, b) && !Differs(found, before, backups, b)
    ensures Looked(found, before, backups, now, asked, b + 1)
    ensures Righted(found, before, backups, now, b) ==> Righted(found, before, backups, now, b + 1)
  {
    assert b in now <==> b in before;
  }

  /** A cluster whose bit is wrong is asked about. */
  lemma LookWrong(found: set<nat>, before: set<nat>, backups: seq<nat>, now: set<nat>, now': set<nat>,
      asked: seq<nat>, b: nat)
    requires Looked(found, before, backups, now, asked, b) && Differs(found, before, backups, b)
    requires now' - {b} == now - {b}
    ensures Looked(found, before, backups, now', asked + [b], b + 1)
    ensures Righted(found, before, backups, now, b) && (b in now' <==> b !in before) ==>
      Righted(found, before, backups, now', b + 1)
  {
    forall c: nat | c != b
      ensures c in now' <==> c in now
    {
      assert c in now' - {b} <==> c in now - {b};
    }
    forall i | 0 <= i < |asked|
      ensures asked[i] < b
    {
      assert asked[i] in asked;
    }
  }

  /** bit_in_backup_super() */
  method InBackup(bit: nat, backups: seq<nat>) returns (found: bool)
    ensures found <==> bit in backups
  {
    for i := 0 to |backups|
      invariant bit !in backups[..i]
    {
      if bit == backups[i] {
        return true;
      }
    }
    return false;
  }

  class Reconciler {
    const clusters: nat
    /** ost_allocated_clusters, the clusters found in use. */
    const found: Bitmap
    /** The cluster chain allocator of the global bitmap. */
    const chains: Allocator
    /** The clusters of the backup superblocks, none without that feature. */
    const backups: seq<nat>
    /** Every question is answered with yes. */
    const smooth: bool

    ghost predicate Valid()
      reads this, found, chains, chains.bitmap
    {
      && found != chains.bitmap && found.Valid() && chains.Fitting()
      && found.totalBits == clusters && chains.bitmap.totalBits == clusters
      && (forall b :: b in found.Bits() || b in chains.bitmap.Bits() ==> b < clusters)
    }

    /** The bitmap covers all clusters. */
    ghost predicate Complete()
      reads this, chains, chains.bitmap
    {
      forall b: nat :: b < clusters ==> b in chains.bitmap.Cover()
    }

    constructor (clusters: nat, found: Bitmap, chains: Allocator, backups: seq<nat>, smooth: bool)
      requires found != chains.bitmap && found.Valid() && chains.Fitting()
      requires found.totalBits == clusters && chains.bitmap.totalBits == clusters
      requires forall b :: b in found.Bits() || b in chains.bitmap.Bits() ==> b < clusters
      ensures Valid() && this.clusters == clusters && this.found == found && this.chains == chains
      ensures this.backups == backups && this.smooth == smooth
    {
      this.clusters, this.found, this.chains, this.backups, this.smooth := clusters, found, chains, backups, smooth;
    }

    /** force_cluster_bit() */
    method ForceBit(bit: nat, v: bool)
      requires Valid() && bit < clusters && v != (bit in chains.bitmap.Bits())
      modifies chains, chains.bitmap
      ensures Valid() && chains.bitmap.Cover() == old(chains.bitmap.Cover())
      ensures old(chains.InStep()) ==> chains.InStep()
      ensures chains.bitmap.Bits() - {bit} == old(chains.bitmap.Bits()) - {bit}
      ensures smooth && old(Complete()) ==> (bit in chains.bitmap.Bits() <==> v)
    {
      var yes := Chance(smooth);
      if yes {
        var ok, was := chains.ForceVal(bit, v);
      }
    }

    /** The next cluster from `from` up that is set, or the number of clusters. */
    method NextSet(bitmap: Bitmap, from: nat) returns (n: nat)
      requires bitmap.Valid() && bitmap.totalBits == clusters && from <= clusters
      requires forall b :: b in bitmap.Bits() ==> b < clusters
      ensures from <= n <= clusters && (n < clusters ==> n in bitmap.Bits())
      ensures forall b: nat :: from <= b < n ==> b !in bitmap.Bits()
    {
      n := from;
      if from < bitmap.totalBits {
        var some;
        some, n := bitmap.FindNext(from, true);
        assert some ==> n in bitmap.Bits();
        if !some {
          n := clusters;
        }
      }
    }

    /** Whether bit `cf`, which is set below the next cluster in use, is wrong, and if so
        asking to clear it. */
    method Unset(cf: nat, asked: seq<nat>, ghost before: set<nat>) returns (asked': seq<nat>)
      requires Valid() && cf < clusters && cf in chains.bitmap.Bits() && cf !in found.Bits()
      requires Looked(found.Bits(), before, backups, chains.bitmap.Bits(), asked, cf)
      modifies chains, chains.bitmap
      ensures Valid() && chains.bitmap.Cover() == old(chains.bitmap.Cover())
      ensures old(chains.InStep()) ==> chains.InStep()
      ensures Looked(found.Bits(), before, backups, chains.bitmap.Bits(), asked', cf + 1)
      ensures smooth && Complete() && old(Righted(found.Bits(), before, backups, chains.bitmap.Bits(), cf)) ==>
        Righted(found.Bits(), before, backups, chains.bitmap.Bits(), cf + 1)
    {
      ghost var now := chains.bitmap.Bits();
      asked' := asked;
      var backup := InBackup(cf, backups);
      assert cf in before;
      if backup {
        LookRight(found.Bits(), before, backups, now, asked, cf);
      } else {
        ForceBit(cf, false);
        LookWrong(found.Bits(), before, backups, now, chains.bitmap.Bits(), asked, cf);
        asked' := asked + [cf];
      }
    }

    /** The inner loop of write_cluster_alloc(): from `last` to the next cluster in use,
        `cbit`, no bit should be set. */
    method ClearTo(last: nat, cbit: nat, asked: seq<nat>, ghost before: set<nat>) returns (asked': seq<nat>, cf: nat)
      requires Valid() && last <= cbit <= clusters && (forall b: nat :: last <= b < cbit ==> b !in found.Bits())
      requires Looked(found.Bits(), before, backups, chains.bitmap.Bits(), asked, last)
      modifies chains, chains.bitmap
      ensures Valid() && chains.bitmap.Cover() == old(chains.bitmap.Cover())
      ensures old(chains.InStep()) ==> chains.InStep()
      ensures Looked(found.Bits(), before, backups, chains.bitmap.Bits(), asked', cbit)
      ensures smooth && Complete() && old(Righted(found.Bits(), before, backups, chains.bitmap.Bits(), last)) ==>
        Righted(found.Bits(), before, backups, chains.bitmap.Bits(), cbit)
      ensures cbit < clusters ==> (cf == cbit <==> cbit in chains.bitmap.Bits())
    {
      asked' := asked;
      cf := NextSet(chains.bitmap, last);
      ghost var upto := if cf < cbit then cf else cbit;
      LookPast(found.Bits(), before, backups, chains.bitmap.Bits(), asked', last, upto);
      while cf < cbit
        invariant Valid() && chains.bitmap.Cover() == old(chains.bitmap.Cover())
        invariant old(chains.InStep()) ==> chains.InStep()
        invariant last <= cf <= clusters && (cf < clusters ==> cf in chains.bitmap.Bits())
        invariant upto == (if cf < cbit then cf else cbit)
        invariant forall b: nat :: upto <= b < cf ==> b !in chains.bitmap.Bits()
        invariant Looked(found.Bits(), before, backups, chains.bitmap.Bits(), asked', upto)
        invariant smooth && Complete() && old(Righted(found.Bits(), before, backups, chains.bitmap.Bits(), last)) ==>
          Righted(found.Bits(), before, backups, chains.bitmap.Bits(), upto)
        decreases clusters - cf
      {
        asked' := Unset(cf, asked', before);
        ghost var from := cf + 1;
        cf := NextSet(chains.bitmap, cf + 1);
        upto := if cf < cbit then cf else cbit;
        LookPast(found.Bits(), before, backups, chains.bitmap.Bits(), asked', from, upto);
      }
    }

    /** Cluster `cbit`, which is in use, and `cf`, the first from there that is set. */
    method Ensure(cbit: nat, cf: nat, asked: seq<nat>, ghost before: set<nat>) returns (asked': seq<nat>)
      requires Valid() && cbit < clusters && cbit in found.Bits() && (cf == cbit <==> cbit in chains.bitmap.Bits())
      requires Looked(found.Bits(), before, backups, chains.bitmap.Bits(), asked, cbit)
      modifies chains, chains.bitmap
      ensures Valid() && chains.bitmap.Cover() == old(chains.bitmap.Cover())
      ensures old(chains.InStep()) ==> chains.InStep()
      ensures Looked(found.Bits(), before, backups, chains.bitmap.Bits(), asked', cbit + 1)
      ensures smooth && Complete() && old(Righted(found.Bits(), before, backups, chains.bitmap.Bits(), cbit)) ==>
        Righted(found.Bits(), before, backups, chains.bitmap.Bits(), cbit + 1)
    {
      ghost var now := chains.bitmap.Bits();
      asked' := asked;
      assert cbit in now <==> cbit in before;
      if cf != cbit {
        ForceBit(cbit, true);
        LookWrong(found.Bits(), before, backups, now, chains.bitmap.Bits(), asked, cbit);
        asked' := asked + [cbit];
      } else {
        LookRight(found.Bits(), before, backups, now, asked, cbit);
      }
    }

    /** write_cluster_alloc(), from its outer loop on.  `asked` lists the questions. */
    method Run() returns (asked: seq<nat>)
      requires Valid()
      modifies chains, chains.bitmap
      ensures Valid() && Looked(found.Bits(), old(chains.bitmap.Bits()), backups, chains.bitmap.Bits(), asked, clusters)
      ensures smooth && old(Complete()) ==>
        Righted(found.Bits(), old(chains.bitmap.Bits()), backups, chains.bitmap.Bits(), clusters)
      ensures old(chains.InStep()) ==> chains.InStep() && chains.inode.used == |chains.bitmap.Bits()|
    {
      ghost var before := chains.bitmap.Bits();
      asked := [];
      var cbit, last := 0, 0;
      while cbit < clusters
        invariant Valid() && chains.bitmap.Cover() == old(chains.bitmap.Cover()) && last == cbit
        invariant old(chains.InStep()) ==> chains.InStep()
        invariant Looked(found.Bits(), before, backups, chains.bitmap.Bits(), asked,
          if cbit < clusters then cbit else clusters)
        invariant smooth && old(Complete()) ==>
          Righted(found.Bits(), before, backups, chains.bitmap.Bits(), if cbit < clusters then cbit else clusters)
      {
        cbit := NextSet(found, cbit);
        var cf;
        asked, cf := ClearTo(last, cbit, asked, before);
        if cbit != clusters {
          asked := Ensure(cbit, cf, asked, before);
        }
        cbit := cbit + 1;
        last := cbit;
      }
      if chains.InStep() {
        chains.UsedIsCount();
      }
    }
  }
}
