/** Lists of writes of which some are made, and what making them again comes to. */
module JournalJobs {
  import opened Basics
  import opened Journal

  /** The file system: its blocks, and the journal superblocks by slot. */
  datatype Fs = Fs(disk: Disk, supers: map<nat, Super>)

  // ---------------------------------------------------------------------
  // Writes in order

  datatype Event = BlockWrite(target: nat, block: Block) | SuperWrite(slot: nat, super: Super)

  function Step(fs: Fs, e: Event): Fs {
    match e
    case BlockWrite(target, block) => fs.(disk := fs.disk[target := block])
    case SuperWrite(slot, super) => fs.(supers := fs.supers[slot := super])
  }

  function RunEvents(fs: Fs, events: seq<Event>): Fs
    decreases |events|
  {
    if events == [] then fs else RunEvents(Step(fs, events[0]), events[1..])
  }

  function BlockEvents(writes: seq<Write>): (es: seq<Event>)
    ensures |es| == |writes|
    ensures forall i :: 0 <= i < |es| ==> es[i] == BlockWrite(writes[i].target, writes[i].block)
  {
    seq(|writes|, i requires 0 <= i < |writes| => BlockWrite(writes[i].target, writes[i].block))
  }

  lemma {:induction false} RunConcat(fs: Fs, a: seq<Event>, b: seq<Event>)
    ensures RunEvents(fs, a + b) == RunEvents(RunEvents(fs, a), b)
    decreases |a|
  {
    if a == [] {
      assert a + b == b;
    } else {
      RunConcat(Step(fs, a[0]), a[1..], b);
      assert (a + b)[1..] == a[1..] + b;
    }
  }

  ghost predicate SameAt<T>(a: map<nat, T>, b: map<nat, T>, k: nat) {
    (k in a <==> k in b) && (k in a ==> a[k] == b[k])
  }

  lemma SameMaps<T>(a: map<nat, T>, b: map<nat, T>)
    requires forall k :: SameAt(a, b, k)
    ensures a == b
  {
    assert forall k :: k in a ==> SameAt(a, b, k);
    assert forall k :: k in b ==> SameAt(a, b, k);
    assert a.Keys == b.Keys;
  }

  // ---------------------------------------------------------------------
  // Writes outside the journals

  ghost predicate WritesOutside(log: set<nat>, disk: Disk, writes: seq<Write>) {
    forall i :: 0 <= i < |writes| ==> writes[i].target in disk && writes[i].target !in log
  }

  lemma OutsideConcat(log: set<nat>, disk: Disk, a: seq<Write>, b: seq<Write>)
    requires WritesOutside(log, disk, a) && WritesOutside(log, disk, b)
    ensures WritesOutside(log, disk, a + b)
  {
  }

  lemma {:induction false} KeptOutside(log: set<nat>, disk: Disk, writes: seq<Write>, keep: seq<bool>)
    requires |keep| == |writes| && WritesOutside(log, disk, writes)
    ensures WritesOutside(log, disk, Kept(writes, keep))
  {
    if writes != [] {
      KeptOutside(log, disk, writes[1..], keep[1..]);
    }
  }

  lemma {:induction false} ApplyIntact(log: set<nat>, disk: Disk, writes: seq<Write>)
    requires WritesOutside(log, disk, writes)
    ensures LogIntact(log, disk, Apply(disk, writes))
    decreases |writes|
  {
    if writes != [] {
      var disk' := disk[writes[0].target := writes[0].block];
      assert LogIntact(log, disk, disk');
      ApplyIntact(log, disk', writes[1..]);
    }
  }

  // ---------------------------------------------------------------------
  // A replay in which reads and writes may fail

  /** What is to be done for a slot: the blocks to write and then, if it is dirty, its
      superblock. */
  datatype Job = Job(writes: seq<Write>, dirty: bool, super: Super)

  /** What became of it: which of the blocks were written, and whether the superblock was. */
  datatype Outcome = Outcome(keep: seq<bool>, cleared: bool)

  /** A superblock is written only when all the blocks were. */
  predicate Possible(job: Job, o: Outcome) {
    |o.keep| == |job.writes| && (o.cleared ==> job.dirty && false !in o.keep)
  }

  predicate AllPossible(jobs: seq<Job>, os: seq<Outcome>) {
    && |jobs| == |os|
    && forall i {:trigger Possible(jobs[i], os[i])} :: 0 <= i < |jobs| ==> Possible(jobs[i], os[i])
  }

  function JobPart(i: nat, job: Job, o: Outcome): seq<Event>
    requires Possible(job, o)
  {
    BlockEvents(Kept(job.writes, o.keep)) + if o.cleared then [SuperWrite(i, job.super)] else []
  }

  /** The writes that were made, in order. */
  function Part(jobs: seq<Job>, os: seq<Outcome>): seq<Event>
    requires AllPossible(jobs, os)
  {
    if jobs == [] then [] else Part(Front(jobs), Front(os)) + JobPart(|jobs| - 1, Last(jobs), Last(os))
  }

  /** Everything is written. */
  function FullOne(job: Job): (o: Outcome)
    ensures Possible(job, o) && false !in o.keep
  {
    Outcome(seq(|job.writes|, _ => true), job.dirty)
  }

  function Full(jobs: seq<Job>): (os: seq<Outcome>)
    ensures AllPossible(jobs, os) && forall i :: 0 <= i < |os| ==> os[i] == FullOne(jobs[i])
  {
    seq(|jobs|, i requires 0 <= i < |jobs| => FullOne(jobs[i]))
  }

  lemma FrontFull(jobs: seq<Job>)
    requires jobs != []
    ensures Front(Full(jobs)) == Full(Front(jobs)) && Last(Full(jobs)) == FullOne(Last(jobs))
  {
  }

  // ---------------------------------------------------------------------
  // What it leaves on disk

  function KeptWrites(jobs: seq<Job>, os: seq<Outcome>): seq<Write>
    requires AllPossible(jobs, os)
  {
    if jobs == [] then []
    else
      assert Possible(Last(jobs), Last(os));
      KeptWrites(Front(jobs), Front(os)) + Kept(Last(jobs).writes, Last(os).keep)
  }

  function SupersAfter(supers: map<nat, Super>, jobs: seq<Job>, os: seq<Outcome>): map<nat, Super>
    requires |jobs| == |os|
  {
    if jobs == [] then supers
    else
      var before := SupersAfter(supers, Front(jobs), Front(os));
      if Last(os).cleared then before[|jobs| - 1 := Last(jobs).super] else before
  }

  function After(fs: Fs, jobs: seq<Job>, os: seq<Outcome>): Fs
    requires AllPossible(jobs, os)
  {
    Fs(Apply(fs.disk, KeptWrites(jobs, os)), SupersAfter(fs.supers, jobs, os))
  }

  lemma {:induction false} RunBlockEvents(fs: Fs, writes: seq<Write>)
    ensures RunEvents(fs, BlockEvents(writes)) == fs.(disk := Apply(fs.disk, writes))
    decreases |writes|
  {
    if writes != [] {
      var e := BlockEvents(writes);
      assert e[1..] == BlockEvents(writes[1..]);
      RunBlockEvents(Step(fs, e[0]), writes[1..]);
    }
  }

  lemma RunJob(now: Fs, i: nat, job: Job, o: Outcome)
    requires Possible(job, o)
    ensures RunEvents(now, JobPart(i, job, o))
         == Fs(Apply(now.disk, Kept(job.writes, o.keep)), if o.cleared then now.supers[i := job.super] else now.supers)
  {
    var w := Kept(job.writes, o.keep);
    RunBlockEvents(now, w);
    if o.cleared {
      var last := SuperWrite(i, job.super);
      RunConcat(now, BlockEvents(w), [last]);
      var mid := RunEvents(now, BlockEvents(w));
      assert RunEvents(mid, [last]) == Step(mid, last);
    } else {
      assert BlockEvents(w) + [] == BlockEvents(w);
    }
  }

  /** The effect of the writes of a replay, in order. */
  lemma {:induction false} RunPart(fs: Fs, jobs: seq<Job>, os: seq<Outcome>)
    requires AllPossible(jobs, os)
    ensures RunEvents(fs, Part(jobs, os)) == After(fs, jobs, os)
  {
    if jobs != [] {
      RunPart(fs, Front(jobs), Front(os));
      RunConcat(fs, Part(Front(jobs), Front(os)), JobPart(|jobs| - 1, Last(jobs), Last(os)));
      RunJob(After(fs, Front(jobs), Front(os)), |jobs| - 1, Last(jobs), Last(os));
      ApplyConcat(fs.disk, KeptWrites(Front(jobs), Front(os)), Kept(Last(jobs).writes, Last(os).keep));
    }
  }

  lemma {:induction false} KeptWritesOutside(log: set<nat>, disk: Disk, jobs: seq<Job>, os: seq<Outcome>)
    requires AllPossible(jobs, os) && forall i :: 0 <= i < |jobs| ==> WritesOutside(log, disk, jobs[i].writes)
    ensures WritesOutside(log, disk, KeptWrites(jobs, os))
  {
    if jobs != [] {
      KeptWritesOutside(log, disk, Front(jobs), Front(os));
      assert Possible(Last(jobs), Last(os));
      KeptOutside(log, disk, Last(jobs).writes, Last(os).keep);
    }
  }

  /** A superblock is written or as it was. */
  lemma {:induction false} SupersAt(supers: map<nat, Super>, jobs: seq<Job>, os: seq<Outcome>, k: nat)
    requires |jobs| == |os|
    ensures var after := SupersAfter(supers, jobs, os);
      if k < |jobs| && os[k].cleared then k in after && after[k] == jobs[k].super else SameAt(after, supers, k)
  {
    if jobs != [] {
      SupersAt(supers, Front(jobs), Front(os), k);
    }
  }

  // ---------------------------------------------------------------------
  // Doing again what was not completed

  /** The last copy of a block in a list of writes. */
  function LastCopy(writes: seq<Write>, b: nat): Option<Block> {
    if writes == [] then None
    else
      var later := LastCopy(writes[1..], b);
      if later.Some? then later else if writes[0].target == b then Some(writes[0].block) else None
  }

  function OrElse<T>(a: Option<T>, b: Option<T>): Option<T> {
    if a.Some? then a else b
  }

  function Lookup(disk: Disk, b: nat): Option<Block> {
    if b in disk then Some(disk[b]) else None
  }

  lemma {:induction false} LastCopyConcat(x: seq<Write>, y: seq<Write>, b: nat)
    ensures LastCopy(x + y, b) == OrElse(LastCopy(y, b), LastCopy(x, b))
  {
    if x == [] {
      assert x + y == y;
    } else {
      LastCopyConcat(x[1..], y, b);
      assert (x + y)[1..] == x[1..] + y;
    }
  }

  lemma {:induction false} ApplyAt(disk: Disk, writes: seq<Write>, b: nat)
    ensures Lookup(Apply(disk, writes), b) == OrElse(LastCopy(writes, b), Lookup(disk, b))
    decreases |writes|
  {
    if writes != [] {
      ApplyAt(disk[writes[0].target := writes[0].block], writes[1..], b);
    }
  }

  lemma SameDisks(x: Disk, y: Disk)
    requires forall b :: Lookup(x, b) == Lookup(y, b)
    ensures x == y
  {
    forall b
      ensures SameAt(x, y, b)
    {
      assert Lookup(x, b) == Lookup(y, b);
    }
    SameMaps(x, y);
  }

  /** The last copy of a block among all jobs, or among those not completed. */
  function LastLogged(jobs: seq<Job>, os: seq<Outcome>, all: bool, b: nat): Option<Block>
    requires |jobs| == |os|
  {
    if jobs == [] then None
    else if Last(os).cleared && !all then LastLogged(Front(jobs), Front(os), all, b)
    else OrElse(LastCopy(Last(jobs).writes, b), LastLogged(Front(jobs), Front(os), all, b))
  }

  /** A slot that is replayed again brings back a copy of `b` other than the last, which a
      slot has that was completed. */
  predicate Overtaken(jobs: seq<Job>, os: seq<Outcome>, b: nat)
    requires |jobs| == |os|
  {
    var again := LastLogged(jobs, os, false, b);
    again.Some? && again != LastLogged(jobs, os, true, b)
  }

  /** The jobs left: those completed have nothing to write but their superblock. */
  ghost predicate LeftOver(jobs: seq<Job>, os: seq<Outcome>, left: seq<Job>) {
    && |jobs| == |os| == |left|
    && forall i :: 0 <= i < |jobs| ==> left[i] == if os[i].cleared then jobs[i].(writes := []) else jobs[i]
  }

  /** An undisturbed replay leaves the last copy of all. */
  lemma {:induction false} FullCopy(jobs: seq<Job>, os: seq<Outcome>, b: nat)
    requires |jobs| == |os|
    ensures LastCopy(KeptWrites(jobs, Full(jobs)), b) == LastLogged(jobs, os, true, b)
  {
    if jobs != [] {
      FrontFull(jobs);
      FullCopy(Front(jobs), Front(os), b);
      KeptAll(Last(jobs).writes, FullOne(Last(jobs)).keep);
      LastCopyConcat(KeptWrites(Front(jobs), Full(Front(jobs))), Last(jobs).writes, b);
    }
  }

  /** A second one writes the last copy of those jobs not completed. */
  lemma {:induction false} SecondCopy(jobs: seq<Job>, os: seq<Outcome>, left: seq<Job>, b: nat)
    requires LeftOver(jobs, os, left)
    ensures LastCopy(KeptWrites(left, Full(left)), b) == LastLogged(jobs, os, false, b)
  {
    if jobs != [] {
      FrontFull(left);
      SecondCopy(Front(jobs), Front(os), Front(left), b);
      KeptAll(Last(left).writes, FullOne(Last(left)).keep);
      LastCopyConcat(KeptWrites(Front(left), Full(Front(left))), Last(left).writes, b);
    }
  }

  lemma {:induction false} NoCopy(writes: seq<Write>, keep: seq<bool>, b: nat)
    requires |keep| == |writes| && LastCopy(writes, b).None?
    ensures LastCopy(Kept(writes, keep), b).None?
  {
    if writes != [] {
      NoCopy(writes[1..], keep[1..], b);
      var first := if keep[0] then [writes[0]] else [];
      LastCopyConcat(first, Kept(writes[1..], keep[1..]), b);
      assert LastCopy(first, b).None?;
    }
  }

  /** What only completed jobs have logged is on disk already. */
  lemma {:induction false} FirstCopy(jobs: seq<Job>, os: seq<Outcome>, b: nat)
    requires AllPossible(jobs, os) && LastLogged(jobs, os, false, b).None?
    ensures LastCopy(KeptWrites(jobs, os), b) == LastLogged(jobs, os, true, b)
  {
    if jobs != [] {
      FirstCopy(Front(jobs), Front(os), b);
      assert Possible(Last(jobs), Last(os));
      LastCopyConcat(KeptWrites(Front(jobs), Front(os)), Kept(Last(jobs).writes, Last(os).keep), b);
      if Last(os).cleared {
        KeptAll(Last(jobs).writes, Last(os).keep);
      } else {
        NoCopy(Last(jobs).writes, Last(os).keep, b);
      }
    }
  }

  lemma {:induction false} SomeCopy(jobs: seq<Job>, os: seq<Outcome>, b: nat)
    requires |jobs| == |os|
    ensures LastLogged(jobs, os, false, b).Some? ==> LastLogged(jobs, os, true, b).Some?
  {
    if jobs != [] {
      SomeCopy(Front(jobs), Front(os), b);
    }
  }

  /** Block `b` after jobs that may have failed, and the rest of them. */
  lemma BlockAgain(fs: Fs, jobs: seq<Job>, os: seq<Outcome>, left: seq<Job>, b: nat)
    requires AllPossible(jobs, os) && LeftOver(jobs, os, left)
    ensures
      var x, y := After(After(fs, jobs, os), left, Full(left)).disk, After(fs, jobs, Full(jobs)).disk;
      Lookup(x, b) == Lookup(y, b) <==> !Overtaken(jobs, os, b)
  {
    var disk := After(fs, jobs, os).disk;
    ApplyAt(fs.disk, KeptWrites(jobs, os), b);
    ApplyAt(disk, KeptWrites(left, Full(left)), b);
    ApplyAt(fs.disk, KeptWrites(jobs, Full(jobs)), b);
    FullCopy(jobs, os, b);
    SecondCopy(jobs, os, left, b);
    SomeCopy(jobs, os, b);
    if LastLogged(jobs, os, false, b).None? {
      FirstCopy(jobs, os, b);
    }
  }

  lemma SupersAgain(supers: map<nat, Super>, jobs: seq<Job>, os: seq<Outcome>, left: seq<Job>)
    requires AllPossible(jobs, os) && LeftOver(jobs, os, left)
    ensures SupersAfter(SupersAfter(supers, jobs, os), left, Full(left)) == SupersAfter(supers, jobs, Full(jobs))
  {
    var mid := SupersAfter(supers, jobs, os);
    forall k: nat
      ensures SameAt(SupersAfter(mid, left, Full(left)), SupersAfter(supers, jobs, Full(jobs)), k)
    {
      assert k < |jobs| ==> Possible(jobs[k], os[k]);
      SupersAt(mid, left, Full(left), k);
      SupersAt(supers, jobs, Full(jobs), k);
      SupersAt(supers, jobs, os, k);
    }
    SameMaps(SupersAfter(mid, left, Full(left)), SupersAfter(supers, jobs, Full(jobs)));
  }

  lemma AgainIff(fs: Fs, jobs: seq<Job>, os: seq<Outcome>, left: seq<Job>)
    requires AllPossible(jobs, os) && LeftOver(jobs, os, left)
    ensures After(After(fs, jobs, os), left, Full(left)) == After(fs, jobs, Full(jobs))
       <==> forall b :: !Overtaken(jobs, os, b)
  {
    var x, y := After(After(fs, jobs, os), left, Full(left)), After(fs, jobs, Full(jobs));
    SupersAgain(fs.supers, jobs, os, left);
    forall b
      ensures Lookup(x.disk, b) == Lookup(y.disk, b) <==> !Overtaken(jobs, os, b)
    {
      BlockAgain(fs, jobs, os, left, b);
    }
    if forall b :: !Overtaken(jobs, os, b) {
      SameDisks(x.disk, y.disk);
    }
  }

  // ---------------------------------------------------------------------
  // Stopping in the middle

  /** The first `j` blocks are written. */
  function SomeOf(job: Job, j: nat): (o: Outcome)
    ensures Possible(job, o)
  {
    Outcome(seq(|job.writes|, k => k < j), false)
  }

  lemma {:induction false} KeptFirst(writes: seq<Write>, keep: seq<bool>, j: nat)
    requires |keep| == |writes| && j <= |writes| && forall k :: 0 <= k < |keep| ==> (keep[k] <==> k < j)
    ensures Kept(writes, keep) == writes[..j]
  {
    if writes != [] {
      KeptFirst(writes[1..], keep[1..], if j > 0 then j - 1 else 0);
      assert j > 0 ==> writes[..j] == [writes[0]] + writes[1..][..j - 1];
    }
  }

  /** Stopping within the writes of a slot, before its superblock's. */
  lemma JobCut(i: nat, job: Job, j: nat)
    requires j <= |job.writes|
    ensures |JobPart(i, job, FullOne(job))| == |job.writes| + if job.dirty then 1 else 0
    ensures JobPart(i, job, SomeOf(job, j)) == JobPart(i, job, FullOne(job))[..j]
  {
    KeptAll(job.writes, FullOne(job).keep);
    KeptFirst(job.writes, SomeOf(job, j).keep, j);
  }

  /** The jobs below `m` were completed, and those above were not. */
  predicate InOrder(jobs: seq<Job>, os: seq<Outcome>, m: nat) {
    |jobs| == |os| && forall i :: 0 <= i < |os| ==> (os[i].cleared <==> jobs[i].dirty && i < m)
  }

  /** The number of writes of all jobs. */
  function Length(jobs: seq<Job>): nat {
    if jobs == [] then 0 else Length(Front(jobs)) + |Last(jobs).writes| + if Last(jobs).dirty then 1 else 0
  }

  lemma {:induction false} PartLength(jobs: seq<Job>)
    ensures |Part(jobs, Full(jobs))| == Length(jobs)
  {
    if jobs != [] {
      PartLength(Front(jobs));
      FrontFull(jobs);
      JobCut(|jobs| - 1, Last(jobs), 0);
    }
  }

  /** `os` is how the jobs fare when stopped after `k` writes, `m` of them being completed. */
  ghost predicate Cuts(jobs: seq<Job>, os: seq<Outcome>, m: nat, k: nat) {
    && AllPossible(jobs, os) && InOrder(jobs, os, m) && m <= |jobs| && k <= |Part(jobs, Full(jobs))| == Length(jobs)
    && Part(jobs, os) == Part(jobs, Full(jobs))[..k]
  }

  lemma {:induction false} AddOutcome(jobs: seq<Job>, os: seq<Outcome>, o: Outcome, m: nat)
    requires jobs != [] && AllPossible(Front(jobs), os) && Possible(Last(jobs), o)
    ensures AllPossible(jobs, os + [o]) && Front(os + [o]) == os
    ensures InOrder(Front(jobs), os, m) && (o.cleared <==> Last(jobs).dirty && |jobs| <= m) ==>
      InOrder(jobs, os + [o], m)
    ensures Part(jobs, os + [o]) == Part(Front(jobs), os) + JobPart(|jobs| - 1, Last(jobs), o)
  {
    assert Front(os + [o]) == os;
  }

  lemma {:induction false} PartFull(jobs: seq<Job>)
    requires jobs != []
    ensures Part(jobs, Full(jobs))
         == Part(Front(jobs), Full(Front(jobs))) + JobPart(|jobs| - 1, Last(jobs), FullOne(Last(jobs)))
  {
    FrontFull(jobs);
  }

  lemma {:induction false} CutNone(jobs: seq<Job>) returns (os: seq<Outcome>, m: nat)
    ensures Cuts(jobs, os, m, Length(jobs))
  {
    PartLength(jobs);
    os, m := Full(jobs), |jobs|;
    var part := Part(jobs, Full(jobs));
    assert part[..|part|] == part;
  }

  /** The last job is not begun. */
  lemma {:induction false} CutBefore(jobs: seq<Job>, front: seq<Outcome>, m: nat, k: nat) returns (os: seq<Outcome>)
    requires jobs != [] && Cuts(Front(jobs), front, m, k)
    ensures Cuts(jobs, os, m, k)
  {
    PartLength(jobs);
    os := front + [SomeOf(Last(jobs), 0)];
    AddOutcome(jobs, front, SomeOf(Last(jobs), 0), m);
    PartFull(jobs);
    JobCut(|jobs| - 1, Last(jobs), 0);
    TakeWithin(Part(Front(jobs), Full(Front(jobs))), JobPart(|jobs| - 1, Last(jobs), FullOne(Last(jobs))), k);
  }

  lemma {:induction false} PartWithin(jobs: seq<Job>, os: seq<Outcome>, j: nat)
    requires jobs != [] && j <= |Last(jobs).writes| && AllPossible(jobs, os)
    requires Front(os) == Full(Front(jobs)) && Last(os) == SomeOf(Last(jobs), j)
    ensures Length(Front(jobs)) + j <= |Part(jobs, Full(jobs))| == Length(jobs)
    ensures Part(jobs, os) == Part(jobs, Full(jobs))[..Length(Front(jobs)) + j]
  {
    PartLength(jobs);
    PartLength(Front(jobs));
    PartFull(jobs);
    assert Part(jobs, os) == Part(Front(jobs), Front(os)) + JobPart(|jobs| - 1, Last(jobs), Last(os));
    JobCut(|jobs| - 1, Last(jobs), j);
    TakeBeyond(Part(Front(jobs), Full(Front(jobs))), JobPart(|jobs| - 1, Last(jobs), FullOne(Last(jobs))), j);
  }

  /** It stops within the last job. */
  lemma {:induction false} CutWithin(jobs: seq<Job>, j: nat) returns (os: seq<Outcome>, m: nat)
    requires jobs != [] && j <= |Last(jobs).writes|
    ensures Cuts(jobs, os, m, Length(Front(jobs)) + j)
  {
    os, m := Full(Front(jobs)) + [SomeOf(Last(jobs), j)], |jobs| - 1;
    AddOutcome(jobs, Full(Front(jobs)), SomeOf(Last(jobs), j), m);
    PartWithin(jobs, os, j);
  }

  lemma {:induction false} CutOffAt(jobs: seq<Job>, k: nat) returns (os: seq<Outcome>, m: nat)
    requires k <= Length(jobs)
    ensures Cuts(jobs, os, m, k)
  {
    if k == Length(jobs) {
      os, m := CutNone(jobs);
    } else if k < Length(Front(jobs)) {
      os, m := CutOffAt(Front(jobs), k);
      os := CutBefore(jobs, os, m, k);
    } else {
      os, m := CutWithin(jobs, k - Length(Front(jobs)));
    }
  }

  /** With the jobs done in order no block is overtaken. */
  lemma {:induction false} InOrderCopy(jobs: seq<Job>, os: seq<Outcome>, m: nat, b: nat)
    requires InOrder(jobs, os, m) && forall i :: 0 <= i < |jobs| && !jobs[i].dirty ==> jobs[i].writes == []
    ensures LastLogged(jobs, os, false, b).Some? ==>
      m < |jobs| && LastLogged(jobs, os, false, b) == LastLogged(jobs, os, true, b)
  {
    if jobs != [] {
      InOrderCopy(Front(jobs), Front(os), m, b);
    }
  }
}
