/** Short logs, and what fsck.ocfs2/journal.c makes of them. */
module JournalExamples {
  import opened Basics
  import opened Journal
  import opened JournalJobs
  import opened JournalRecovery
  import opened JournalRevokes
  import opened JournalSlots
  import opened Words

  /** A descriptor with one tag for block `target`, its data at `d`, and a commit block at `c`,
      behind which comes `e`. */
  ghost predicate OneTransaction(extent: seq<nat>, sb: Super, disk: Disk, target: nat, d: nat, c: nat, e: nat) {
    && Readable(extent, sb, disk) && Distinct(extent) && sb.sequence < WORD32 && target in disk
    && 0 < sb.start < sb.maxlen && d == Wrap(sb, sb.start + 1) && c == Wrap(sb, d + 1) && e == Wrap(sb, c + 1)
    && 0 < d && 0 < c && 0 < e && sb.start != d && sb.start != c && c != d && c != e && d != e
    && Header(disk[extent[sb.start]], Descriptor, sb.sequence)
    && disk[extent[sb.start]].tags == [Tag(target, false, true)]
    && Header(disk[extent[c]], Commit, sb.sequence)
  }

  /** At `e` there is something else, a header left from before, or the descriptor again when the
      log is full. */
  ghost predicate OneLogged(extent: seq<nat>, sb: Super, disk: Disk, target: nat, d: nat, c: nat, e: nat) {
    && OneTransaction(extent, sb, disk, target, d, c, e)
    && (e != sb.start ==> disk[extent[e]].magic != MAGIC || disk[extent[e]].sq != Bump(sb.sequence))
  }

  predicate Header(b: Block, kind: Kind, sq: nat) {
    b.magic == MAGIC && b.kind == kind && b.sq == sq
  }

  lemma {:induction false} OneTag(disk: Disk, target: nat)
    requires target in disk
    ensures TagRun([Tag(target, false, true)]) == 1 && CountTags(disk, [Tag(target, false, true)]) == Some(1)
  {
  }

  lemma {:induction false} ScanOn(extent: seq<nat>, sb: Super, disk: Disk, p: Pos, used: set<nat>, luck: Luck, q: Pos,
      rest: Scan)
    requires sb.first < sb.maxlen && p.block < |extent| && extent[p.block] !in used && extent[p.block] in disk
    requires luck != Some(0) && Advance(sb, disk, disk[extent[p.block]], p) == Go(q)
    requires rest == ScanFrom(extent, sb, disk, q, used + {extent[p.block]}, Later(luck))
    ensures ScanFrom(extent, sb, disk, p, used, luck) == rest.(trace := [p] + rest.trace)
  {
  }

  lemma {:induction false} ScanEnds(extent: seq<nat>, sb: Super, disk: Disk, p: Pos, used: set<nat>)
    requires sb.first < sb.maxlen && p.block < |extent| && extent[p.block] in disk
    requires extent[p.block] !in used ==> disk[extent[p.block]].magic != MAGIC || disk[extent[p.block]].sq != p.sq
    ensures ScanFrom(extent, sb, disk, p, used, None)
         == Scan([], p.sq, extent[p.block] in used, used + {extent[p.block]})
  {
    if extent[p.block] in used {
      assert used + {extent[p.block]} == used;
    }
  }

  /** The headers of such a log, and the blocks marked by the first walk. */
  function Headers(sb: Super, c: nat): seq<Pos> {
    [Pos(sb.start, sb.sequence), Pos(c, sb.sequence)]
  }

  function OneMarked(extent: seq<nat>, sb: Super, c: nat, e: nat): set<nat>
    requires sb.start < |extent| && c < |extent| && e < |extent|
  {
    {extent[0]} + {extent[sb.start]} + {extent[c]} + {extent[e]}
  }

  /** The first walk over such a transaction. */
  lemma {:induction false} OneBegun(extent: seq<nat>, sb: Super, disk: Disk, target: nat, d: nat, c: nat, e: nat,
      rest: Scan)
    requires OneTransaction(extent, sb, disk, target, d, c, e)
    requires rest == ScanFrom(extent, sb, disk, Pos(e, Bump(sb.sequence)),
                              {extent[0]} + {extent[sb.start]} + {extent[c]}, None)
    ensures Scanned(extent, sb, disk, {extent[0]}, None) == rest.(trace := Headers(sb, c) + rest.trace)
  {
    var p0, p1, p2 := Pos(sb.start, sb.sequence), Pos(c, sb.sequence), Pos(e, Bump(sb.sequence));
    var u1 := {extent[0]} + {extent[sb.start]};
    OneMoves(extent, sb, disk, target, d, c, e);
    ScanOn(extent, sb, disk, p1, u1, None, p2, rest);
    ScanOn(extent, sb, disk, p0, {extent[0]}, None, p1, ScanFrom(extent, sb, disk, p1, u1, None));
    assert [p0] + ([p1] + rest.trace) == Headers(sb, c) + rest.trace;
  }

  lemma {:induction false} OneMoves(extent: seq<nat>, sb: Super, disk: Disk, target: nat, d: nat, c: nat, e: nat)
    requires OneTransaction(extent, sb, disk, target, d, c, e)
    ensures Advance(sb, disk, disk[extent[sb.start]], Pos(sb.start, sb.sequence)) == Go(Pos(c, sb.sequence))
    ensures Advance(sb, disk, disk[extent[c]], Pos(c, sb.sequence)) == Go(Pos(e, Bump(sb.sequence)))
    ensures extent[sb.start] != extent[0] && extent[c] !in {extent[0]} + {extent[sb.start]}
  {
    OneTag(disk, target);
  }

  /** What the first walk makes of it: when the log is full, it comes to a block that is
      marked already. */
  lemma {:induction false} OneScanned(extent: seq<nat>, sb: Super, disk: Disk, target: nat, d: nat, c: nat, e: nat)
    requires OneLogged(extent, sb, disk, target, d, c, e)
    ensures Scanned(extent, sb, disk, {extent[0]}, None)
         == Scan(Headers(sb, c), Bump(sb.sequence), e == sb.start, OneMarked(extent, sb, c, e))
    ensures Records(extent, disk, Headers(sb, c)) == map[]
  {
    var u2 := {extent[0]} + {extent[sb.start]} + {extent[c]};
    var p2 := Pos(e, Bump(sb.sequence));
    ScanEnds(extent, sb, disk, p2, u2);
    OneBegun(extent, sb, disk, target, d, c, e, ScanFrom(extent, sb, disk, p2, u2, None));
    assert Headers(sb, c) + [] == Headers(sb, c);
    RecordsStay(extent, disk, Headers(sb, c), 0);
  }

  /** Headers other than revoke blocks leave no records. */
  lemma {:induction false} RecordsStay(extent: seq<nat>, disk: Disk, trace: seq<Pos>, k: nat)
    requires k <= |trace| && forall j :: k <= j < |trace| ==> KindAt(extent, disk, trace[j]) != Revoke
    ensures Records(extent, disk, trace) == Records(extent, disk, trace[..k])
  {
    if k == |trace| {
      assert trace[..k] == trace;
    } else {
      RecordsStay(extent, disk, Front(trace), k);
      assert Front(trace)[..k] == trace[..k];
    }
  }

  lemma {:induction false} OneDone(extent: seq<nat>, sb: Super, disk: Disk, target: nat, d: nat, c: nat, e: nat)
    requires OneTransaction(extent, sb, disk, target, d, c, e)
    ensures Committed(extent, disk, Headers(sb, c)) == Headers(sb, c)
  {
    var p0, p1 := Pos(sb.start, sb.sequence), Pos(c, sb.sequence);
    assert Headers(sb, c) == [p0] + [p1] && [p0, p1][1..] == [p1] && [p1][1..] == [];
    assert Commits(extent, disk, [p1]) == 1 && Committed(extent, disk, [p1]) == [p1];
  }

  /** The whole log is committed, and calls for one write unless that is revoked. */
  lemma {:induction false} OneCommitted(extent: seq<nat>, sb: Super, disk: Disk, rv: Revokes, target: nat, d: nat,
      c: nat, e: nat)
    requires OneTransaction(extent, sb, disk, target, d, c, e)
    ensures var revoked := Judge(rv, target, sb.sequence) == Revoked;
      && WritesOf(extent, sb, disk, rv, Headers(sb, c)) == (if revoked then [] else [Write(target, disk[extent[d]])])
      && DataOf(extent, sb, disk, rv, Headers(sb, c)) == (if revoked then [] else [extent[d]])
  {
    var p0, p1 := Pos(sb.start, sb.sequence), Pos(c, sb.sequence);
    OneTag(disk, target);
    assert Headers(sb, c) == [p0] + [p1];
    WritesConcat(extent, sb, disk, rv, [p0], [p1]);
    DataConcat(extent, sb, disk, rv, [p0], [p1]);
    OneHeader(extent, sb, disk, rv, p0);
    OneHeader(extent, sb, disk, rv, p1);
    var tags := disk[extent[sb.start]].tags;
    assert TagWrites(extent, sb, disk, rv, sb.sequence, tags, d, 1, 1) == [];
    assert DataBlocks(extent, sb, rv, sb.sequence, tags, d, 1, 1) == [];
  }

  /** Recovery goes astray exactly when the data is on the last block. */
  lemma {:induction false} OneAstray(extent: seq<nat>, sb: Super, disk: Disk, rv: Revokes, target: nat, d: nat, c: nat,
      e: nat)
    requires OneTransaction(extent, sb, disk, target, d, c, e)
    ensures NoneAstray(extent, sb, disk, Headers(sb, c)) <==> d != sb.maxlen - 1
    ensures d == sb.maxlen - 1 ==> Reached(extent, sb, disk, rv, Headers(sb, c)) == [Pos(sb.start, sb.sequence)]
    ensures NoneSpins(extent, disk, rv, Headers(sb, c)) <==> Judge(rv, target, sb.sequence) != Spins
  {
    OneTag(disk, target);
    var p0, p1 := Headers(sb, c)[0], Headers(sb, c)[1];
    assert LeadsAstray(extent, sb, disk, p0) <==> d == sb.maxlen - 1;
    assert !LeadsAstray(extent, sb, disk, p1);
    assert disk[extent[sb.start]].tags[0].target == target;
    assert HeaderSpins(extent, disk, rv, p0) <==> Judge(rv, target, sb.sequence) == Spins;
    assert !HeaderSpins(extent, disk, rv, p1);
  }

  /** Such a log can be replayed, if recovery does not go astray. */
  lemma {:induction false} OneSound(log: set<nat>, slot: Slot, sb: Super, disk: Disk, target: nat, d: nat, c: nat,
      e: nat)
    requires OneTransaction(slot.extent, sb, disk, target, d, c, e) && target !in log && d != sb.maxlen - 1
    requires SlotCommitted(slot, sb, disk, None) == Headers(sb, c)
    ensures SlotSound(log, slot, sb, disk)
  {
    OneTag(disk, target);
    OneAstray(slot.extent, sb, disk, map[], target, d, c, e);
    assert forall i :: 0 <= i < 2 ==> HeaderReplayable(log, slot.extent, disk, Headers(sb, c)[i]);
  }

  lemma {:induction false} OneUnmarked(extent: seq<nat>, sb: Super, disk: Disk, target: nat, d: nat, c: nat, e: nat)
    requires OneTransaction(extent, sb, disk, target, d, c, e)
    ensures Unmarked(OneMarked(extent, sb, c, e), [extent[d]])
  {
    assert [extent[d]][1..] == [];
  }

  lemma {:induction false} OneSeen(slot: Slot, sb: Super, disk: Disk, target: nat, d: nat, c: nat, e: nat)
    requires OneLogged(slot.extent, sb, disk, target, d, c, e)
    ensures SlotCommitted(slot, sb, disk, None) == Headers(sb, c) && SlotRevokes(slot, sb, disk, None) == map[]
    ensures Marks(slot, sb, disk, None) == OneMarked(slot.extent, sb, c, e)
  {
    OneScanned(slot.extent, sb, disk, target, d, c, e);
    OneDone(slot.extent, sb, disk, target, d, c, e);
  }

  lemma {:induction false} OneClean(log: set<nat>, slot: Slot, sb: Super, disk: Disk, target: nat, d: nat, c: nat,
      e: nat)
    requires OneLogged(slot.extent, sb, disk, target, d, c, e) && target !in log && d != sb.maxlen - 1
    ensures SlotSound(log, slot, sb, disk) && NoOverlap(slot, sb, disk, None) && ComesAway(slot, sb, disk, None)
    ensures SlotCommitted(slot, sb, disk, None) == Headers(sb, c) && SlotRevokes(slot, sb, disk, None) == map[]
  {
    OneSeen(slot, sb, disk, target, d, c, e);
    OneSound(log, slot, sb, disk, target, d, c, e);
    OneCommitted(slot.extent, sb, disk, map[], target, d, c, e);
    OneAstray(slot.extent, sb, disk, map[], target, d, c, e);
    OneUnmarked(slot.extent, sb, disk, target, d, c, e);
  }

  /** Slot `i` has such a log. */
  ghost predicate SlotLogged(slots: seq<Slot>, fs: Fs, i: nat, target: nat, d: nat, c: nat, e: nat, copy: Block) {
    && i < |slots| && slots[i].dirty && i in fs.supers && target !in AllBlocks(slots)
    && OneLogged(slots[i].extent, fs.supers[i], fs.disk, target, d, c, e)
    && d != fs.supers[i].maxlen - 1 && fs.disk[slots[i].extent[d]] == copy
  }

  lemma {:induction false} OneJob(slots: seq<Slot>, fs: Fs, i: nat, target: nat, d: nat, c: nat, e: nat, copy: Block)
    requires Sound(slots, fs) && SlotLogged(slots, fs, i, target, d, c, e, copy)
    ensures AllJobs(slots, fs)[i].writes == [Write(target, copy)] && AllJobs(slots, fs)[i].dirty
  {
    OneClean(AllBlocks(slots), slots[i], fs.supers[i], fs.disk, target, d, c, e);
    OneCommitted(slots[i].extent, fs.supers[i], fs.disk, map[], target, d, c, e);
  }

  // ---------------------------------------------------------------------
  // A journal whose first walk fails

  lemma {:induction false} OneReplayed(slots: seq<Slot>, fs: Fs, target: nat, d: nat, c: nat, e: nat, copy: Block)
    requires |slots| == 1 && SlotLogged(slots, fs, 0, target, d, c, e, copy)
    ensures Good(slots, fs) && RunEvents(fs, Plan(slots, fs)).disk == fs.disk[target := copy]
  {
    OneGood(slots, fs, target, d, c, e, copy);
    OneJob(slots, fs, 0, target, d, c, e, copy);
    RunPart(fs, AllJobs(slots, fs), Full(AllJobs(slots, fs)));
    OneWrite(fs, AllJobs(slots, fs), Write(target, copy));
  }

  /** The first walk over a full log fails, and the log is replayed all the same. */
  lemma {:induction false} FailedButReplayed(slots: seq<Slot>, fs: Fs, target: nat, d: nat, c: nat, copy: Block)
    requires |slots| == 1 && 0 in fs.supers && SlotLogged(slots, fs, 0, target, d, c, fs.supers[0].start, copy)
    ensures Scanned(slots[0].extent, fs.supers[0], fs.disk, {slots[0].extent[0]}, None).failed
    ensures Good(slots, fs) && RunEvents(fs, Plan(slots, fs)).disk == fs.disk[target := copy]
  {
    OneScanned(slots[0].extent, fs.supers[0], fs.disk, target, d, c, fs.supers[0].start);
    OneReplayed(slots, fs, target, d, c, fs.supers[0].start, copy);
  }

  /** All that `Good` asks of slot `i`. */
  ghost predicate GoodSlot(slots: seq<Slot>, fs: Fs, i: nat)
    requires i < |slots|
  {
    && slots[i].dirty && i in fs.supers && SlotSound(AllBlocks(slots), slots[i], fs.supers[i], fs.disk)
    && NoOverlap(slots[i], fs.supers[i], fs.disk, None) && ComesAway(slots[i], fs.supers[i], fs.disk, None)
  }

  lemma {:induction false} SlotsGood(slots: seq<Slot>, fs: Fs)
    requires Apart(slots) && forall i :: 0 <= i < |slots| ==> GoodSlot(slots, fs, i)
    ensures Good(slots, fs)
  {
    forall i | 0 <= i < |slots|
      ensures i in fs.supers && SlotSound(AllBlocks(slots), slots[i], fs.supers[i], fs.disk)
    {
      assert GoodSlot(slots, fs, i);
    }
    forall i | 0 <= i < |slots|
      ensures Clean(slots, fs, i, None)
    {
      assert GoodSlot(slots, fs, i);
    }
  }

  lemma {:induction false} SingleGood(slots: seq<Slot>, fs: Fs)
    requires |slots| == 1 && GoodSlot(slots, fs, 0)
    ensures Good(slots, fs)
  {
    assert slots[1..] == [];
    SlotsGood(slots, fs);
  }

  lemma {:induction false} OneGood(slots: seq<Slot>, fs: Fs, target: nat, d: nat, c: nat, e: nat, copy: Block)
    requires |slots| == 1 && SlotLogged(slots, fs, 0, target, d, c, e, copy)
    ensures Good(slots, fs)
  {
    OneClean(AllBlocks(slots), slots[0], fs.supers[0], fs.disk, target, d, c, e);
    SingleGood(slots, fs);
  }

  lemma {:induction false} OneWrite(fs: Fs, jobs: seq<Job>, w: Write)
    requires |jobs| == 1 && jobs[0].writes == [w]
    ensures After(fs, jobs, Full(jobs)).disk == fs.disk[w.target := w.block]
  {
    FrontFull(jobs);
    KeptAll([w], FullOne(jobs[0]).keep);
    assert KeptWrites(jobs, Full(jobs)) == [] + [w] == [w];
    assert Apply(fs.disk, [w]) == fs.disk[w.target := w.block];
  }

  // ---------------------------------------------------------------------
  // Two slots that logged the same block

  lemma {:induction false} TwoGood(slots: seq<Slot>, fs: Fs, target: nat, d: nat, c: nat, e: nat, a: Block, b: Block)
    requires |slots| == 2 && Apart(slots)
    requires SlotLogged(slots, fs, 0, target, d, c, e, a) && SlotLogged(slots, fs, 1, target, d, c, e, b)
    ensures Good(slots, fs)
  {
    forall i | 0 <= i < |slots|
      ensures GoodSlot(slots, fs, i)
    {
      OneClean(AllBlocks(slots), slots[i], fs.supers[i], fs.disk, target, d, c, e);
    }
    SlotsGood(slots, fs);
  }

  /** The first slot's write fails and the second slot is completed.  Replaying again then
      puts the first slot's copy over that of the second. */
  lemma {:induction false} OlderCopyWins(slots: seq<Slot>, fs: Fs, os: seq<Outcome>, target: nat, d: nat, c: nat,
      e: nat, a: Block, b: Block)
    requires |slots| == 2 && Apart(slots) && a != b && os == [Outcome([false], false), Outcome([true], true)]
    requires SlotLogged(slots, fs, 0, target, d, c, e, a) && SlotLogged(slots, fs, 1, target, d, c, e, b)
    ensures Good(slots, fs) && AllPossible(AllJobs(slots, fs), os)
    ensures !Recovers(slots, RunEvents(fs, Part(AllJobs(slots, fs), os)), RunEvents(fs, Plan(slots, fs)))
  {
    TwoGood(slots, fs, target, d, c, e, a, b);
    OneJob(slots, fs, 0, target, d, c, e, a);
    OneJob(slots, fs, 1, target, d, c, e, b);
    TwoCopies(AllJobs(slots, fs), os, target, a, b);
    ReplayAgainIff(slots, fs, os);
  }

  lemma {:induction false} TwoCopies(jobs: seq<Job>, os: seq<Outcome>, target: nat, a: Block, b: Block)
    requires |jobs| == 2 && jobs[0].writes == [Write(target, a)] && jobs[1].writes == [Write(target, b)] && a != b
    requires |os| == 2 && !os[0].cleared && os[1].cleared
    ensures Overtaken(jobs, os, target)
  {
    assert LastCopy([Write(target, a)], target) == Some(a) && LastCopy([Write(target, b)], target) == Some(b);
    assert LastLogged(Front(jobs), Front(os), false, target) == Some(a);
    assert LastLogged(jobs, os, false, target) == Some(a);
    assert LastLogged(jobs, os, true, target) == Some(b);
  }

  // ---------------------------------------------------------------------
  // A revoke block behind the last commit

  /** At `e` there is a revoke block of the next transaction, which names the target; and
      nothing at `f` behind it. */
  ghost predicate ThenRevoked(extent: seq<nat>, sb: Super, disk: Disk, target: nat, d: nat, c: nat, e: nat, f: nat) {
    && OneTransaction(extent, sb, disk, target, d, c, e) && e != sb.start && f == Wrap(sb, e + 1) && 0 < f
    && Header(disk[extent[e]], Revoke, Bump(sb.sequence)) && Named(disk[extent[e]]) == [target]
    && disk[extent[f]].magic != MAGIC
  }

  lemma {:induction false} RevokedTrace(extent: seq<nat>, sb: Super, disk: Disk, target: nat, d: nat, c: nat, e: nat,
      f: nat)
    requires ThenRevoked(extent, sb, disk, target, d, c, e, f)
    ensures Scanned(extent, sb, disk, {extent[0]}, None).trace == Headers(sb, c) + [Pos(e, Bump(sb.sequence))]
  {
    var u2 := {extent[0]} + {extent[sb.start]} + {extent[c]};
    var p2, p3 := Pos(e, Bump(sb.sequence)), Pos(f, Bump(sb.sequence));
    ScanEnds(extent, sb, disk, p3, u2 + {extent[e]});
    ScanOn(extent, sb, disk, p2, u2, None, p3, ScanFrom(extent, sb, disk, p3, u2 + {extent[e]}, None));
    OneBegun(extent, sb, disk, target, d, c, e, ScanFrom(extent, sb, disk, p2, u2, None));
    assert [p2] + [] == [p2];
  }

  lemma {:induction false} RevokedScanned(extent: seq<nat>, sb: Super, disk: Disk, target: nat, d: nat, c: nat, e: nat,
      f: nat)
    requires ThenRevoked(extent, sb, disk, target, d, c, e, f)
    ensures var trace := Headers(sb, c) + [Pos(e, Bump(sb.sequence))];
      && Committed(extent, disk, trace) == Headers(sb, c)
      && Records(extent, disk, trace) == map[target := Bump(sb.sequence)]
  {
    var p2 := Pos(e, Bump(sb.sequence));
    OneDone(extent, sb, disk, target, d, c, e);
    TakeWithin(Headers(sb, c), [p2], 2);
    CommittedPrefix(extent, disk, Headers(sb, c) + [p2], 2);
    RecordsStay(extent, disk, Headers(sb, c), 0);
    RecordsEnd(extent, disk, Headers(sb, c), p2);
    assert Front([target]) == [];
    assert RecordAll(map[], [target], Bump(sb.sequence)) == map[target := Bump(sb.sequence)];
  }

  lemma {:induction false} RevokedSlot(log: set<nat>, slot: Slot, sb: Super, disk: Disk, target: nat, d: nat, c: nat,
      e: nat, f: nat)
    requires ThenRevoked(slot.extent, sb, disk, target, d, c, e, f) && target !in log && d != sb.maxlen - 1
    ensures SlotSound(log, slot, sb, disk) && NoOverlap(slot, sb, disk, None) && ComesAway(slot, sb, disk, None)
    ensures SlotCommitted(slot, sb, disk, None) == Headers(sb, c) && WritesSeen(slot, sb, disk, None) == []
  {
    RevokedTrace(slot.extent, sb, disk, target, d, c, e, f);
    RevokedScanned(slot.extent, sb, disk, target, d, c, e, f);
    OneSound(log, slot, sb, disk, target, d, c, e);
    var rv := map[target := Bump(sb.sequence)];
    assert Judge(rv, target, sb.sequence) == Revoked;
    OneCommitted(slot.extent, sb, disk, rv, target, d, c, e);
    OneAstray(slot.extent, sb, disk, rv, target, d, c, e);
  }

  /** The committed write is not made, nothing fails, and the log is marked empty. */
  lemma {:induction false} RevokedLater(slots: seq<Slot>, fs: Fs, target: nat, d: nat, c: nat, e: nat, f: nat)
    requires |slots| == 1 && slots[0].dirty && 0 in fs.supers && target !in AllBlocks(slots)
    requires ThenRevoked(slots[0].extent, fs.supers[0], fs.disk, target, d, c, e, f) && d != fs.supers[0].maxlen - 1
    ensures Good(slots, fs) && SlotCommitted(slots[0], fs.supers[0], fs.disk, None) == Headers(fs.supers[0], c)
    ensures var after := RunEvents(fs, Plan(slots, fs));
      after.disk == fs.disk && 0 in after.supers && after.supers[0].start == 0
  {
    RevokedSlot(AllBlocks(slots), slots[0], fs.supers[0], fs.disk, target, d, c, e, f);
    SingleGood(slots, fs);
    NoWrite(fs, AllJobs(slots, fs), Full(AllJobs(slots, fs)));
  }

  lemma {:induction false} NoWrite(fs: Fs, jobs: seq<Job>, os: seq<Outcome>)
    requires |jobs| == 1 && jobs[0].dirty && jobs[0].writes == [] && os == [Outcome([], true)]
    ensures RunEvents(fs, Part(jobs, os)) == Fs(fs.disk, fs.supers[0 := jobs[0].super])
  {
    assert Possible(jobs[0], os[0]);
    RunPart(fs, jobs, os);
    assert Front(jobs) == [] && Front(os) == [];
    assert KeptWrites(jobs, os) == [] + [];
  }

  // ---------------------------------------------------------------------
  // A commit block that the first walk cannot read

  /** The first walk reads the descriptor, and fails to read the commit block. */
  lemma {:induction false} UnreadScanned(extent: seq<nat>, sb: Super, disk: Disk, target: nat, d: nat, c: nat, e: nat)
    requires OneTransaction(extent, sb, disk, target, d, c, e)
    ensures var r := Scanned(extent, sb, disk, {extent[0]}, Some(1));
      r.trace == [Pos(sb.start, sb.sequence)] && Committed(extent, disk, r.trace) == []
  {
    OneTag(disk, target);
    var p0, p1 := Pos(sb.start, sb.sequence), Pos(c, sb.sequence);
    var rest := ScanFrom(extent, sb, disk, p1, {extent[0]} + {extent[sb.start]}, Some(0));
    assert rest.trace == [];
    ScanOn(extent, sb, disk, p0, {extent[0]}, Some(1), p1, rest);
    assert [p0] + [] == [p0];
    assert [p0][1..] == [];
    assert Commits(extent, disk, [p0]) == 0;
  }

  /** The transaction is lost: the log is marked empty, and what a replay would have written
      was not, and never will be. */
  lemma {:induction false} UnreadLost(slots: seq<Slot>, fs: Fs, os: seq<Outcome>, target: nat, d: nat, c: nat, e: nat,
      copy: Block)
    requires |slots| == 1 && SlotLogged(slots, fs, 0, target, d, c, e, copy) && fs.disk[target] != copy
    requires os == [Outcome([], true)]
    ensures Good(slots, fs) && Clean(slots, fs, 0, Some(1)) && AllPossible(Jobs(slots, fs, [Some(1)]), os)
    ensures var now := RunEvents(fs, Part(Jobs(slots, fs, [Some(1)]), os));
      && now.disk == fs.disk && RunEvents(fs, Plan(slots, fs)).disk == fs.disk[target := copy]
      && !Recovers(slots, now, RunEvents(fs, Plan(slots, fs)))
  {
    OneGood(slots, fs, target, d, c, e, copy);
    UnreadScanned(slots[0].extent, fs.supers[0], fs.disk, target, d, c, e);
    var jobs := Jobs(slots, fs, [Some(1)]);
    assert jobs[0].writes == [] && Possible(jobs[0], os[0]);
    NoWrite(fs, jobs, os);
    OneJob(slots, fs, 0, target, d, c, e, copy);
    RunPart(fs, AllJobs(slots, fs), Full(AllJobs(slots, fs)));
    OneWrite(fs, AllJobs(slots, fs), Write(target, copy));
    StaysLost(slots, RunEvents(fs, Part(jobs, os)), target, RunEvents(fs, Plan(slots, fs)));
  }

  /** With an empty log, a replay writes no blocks. */
  lemma {:induction false} StaysLost(slots: seq<Slot>, now: Fs, target: nat, end: Fs)
    requires |slots| == 1 && slots[0].dirty && 0 in now.supers && now.supers[0].start == 0
    requires target in now.disk && target in end.disk && now.disk[target] != end.disk[target]
    ensures !Recovers(slots, now, end)
  {
    if Good(slots, now) {
      NoWrite(now, AllJobs(slots, now), Full(AllJobs(slots, now)));
    }
  }

  // ---------------------------------------------------------------------
  // Such logs

  function Plain(n: int): Block {
    Block(0, Unknown, 0, [], 0, [], n)
  }

  const DESCRIBE := Block(MAGIC, Descriptor, 7, [Tag(100, false, true)], 0, [], 0)
  const COMMIT := Block(MAGIC, Commit, 7, [], 0, [], 0)

  /** Two entries, of which the first is read. */
  function Revoking(sq: nat): Block {
    Block(MAGIC, Revoke, sq, [], 24, [100, 101], 0)
  }

  const DISK: Disk := map[
    10 := Plain(0), 11 := DESCRIBE, 12 := Plain(1), 13 := COMMIT, 14 := Plain(0), 15 := Plain(0),
    20 := Plain(0), 21 := DESCRIBE, 22 := Plain(2), 23 := COMMIT, 24 := Plain(0), 25 := Plain(0),
    30 := Plain(0), 31 := COMMIT, 32 := Plain(0), 33 := DESCRIBE, 34 := Plain(3), 100 := Plain(9)]

  lemma {:induction false} DiskLogged(disk: Disk, extent: seq<nat>, sb: Super, base: nat, d: nat, c: nat, e: nat)
    requires disk == DISK && sb.first == 1 && sb.start == 1 && sb.sequence == 7 && (base == 10 || base == 20)
    requires (sb.maxlen == 6 && e == 4 && |extent| == 6) || (sb.maxlen == 4 && e == 1 && |extent| == 4)
    requires d == 2 && c == 3 && forall i :: 0 <= i < |extent| ==> extent[i] == base + i
    ensures OneLogged(extent, sb, disk, 100, d, c, e) && disk[extent[d]] == Plain(base / 10)
  {
  }

  lemma {:induction false} DiskApart(slots: seq<Slot>)
    requires slots == [Slot([10, 11, 12, 13, 14, 15], true), Slot([20, 21, 22, 23, 24, 25], true)]
    ensures Apart(slots) && 100 !in AllBlocks(slots)
  {
    assert slots[1..] == [slots[1]] && slots[1..][1..] == [];
  }

  /** Slots 0 and 1 logged block 100. */
  lemma {:induction false} OlderCopyExample(disk: Disk, slots: seq<Slot>, fs: Fs, os: seq<Outcome>)
    requires disk == DISK && slots == [Slot([10, 11, 12, 13, 14, 15], true), Slot([20, 21, 22, 23, 24, 25], true)]
    requires fs.disk == disk && fs.supers == map[0 := Super(1, 6, 1, 7), 1 := Super(1, 6, 1, 7)]
    requires os == [Outcome([false], false), Outcome([true], true)]
    ensures Good(slots, fs) && AllPossible(AllJobs(slots, fs), os)
    ensures !Recovers(slots, RunEvents(fs, Part(AllJobs(slots, fs), os)), RunEvents(fs, Plan(slots, fs)))
  {
    DiskApart(slots);
    DiskLogged(disk, slots[0].extent, fs.supers[0], 10, 2, 3, 4);
    DiskLogged(disk, slots[1].extent, fs.supers[1], 20, 2, 3, 4);
    OlderCopyWins(slots, fs, os, 100, 2, 3, 4, Plain(1), Plain(2));
  }

  /** A log of four blocks, all of them in use. */
  lemma {:induction false} FailedExample(disk: Disk, slots: seq<Slot>, fs: Fs)
    requires disk == DISK && slots == [Slot([10, 11, 12, 13], true)]
    requires fs.disk == disk && fs.supers == map[0 := Super(1, 4, 1, 7)]
    ensures Scanned(slots[0].extent, fs.supers[0], fs.disk, {slots[0].extent[0]}, None).failed
    ensures Good(slots, fs) && RunEvents(fs, Plan(slots, fs)).disk == disk[100 := Plain(1)]
  {
    assert slots[1..] == [];
    DiskLogged(disk, slots[0].extent, fs.supers[0], 10, 2, 3, 1);
    FailedButReplayed(slots, fs, 100, 2, 3, Plain(1));
  }

  /** A log that wraps around after the data of its descriptor: recovery comes to the
      descriptor only, and not to the commit block. */
  lemma {:induction false} AstrayExample(disk: Disk, extent: seq<nat>, sb: Super)
    requires disk == DISK && extent == [30, 31, 32, 33, 34] && sb == Super(1, 5, 3, 7)
    ensures Readable(extent, sb, disk) && !Scanned(extent, sb, disk, {30}, None).failed
    ensures var all := Committed(extent, disk, Scanned(extent, sb, disk, {30}, None).trace);
      && all == [Pos(3, 7), Pos(1, 7)] && !NoneAstray(extent, sb, disk, all)
      && Reached(extent, sb, disk, map[], all) == [Pos(3, 7)]
  {
    assert Wrap(sb, 4) == 4 && Wrap(sb, 5) == 1 && Wrap(sb, 2) == 2;
    OneScanned(extent, sb, disk, 100, 4, 1, 2);
    OneDone(extent, sb, disk, 100, 4, 1, 2);
    OneAstray(extent, sb, disk, map[], 100, 4, 1, 2);
  }

  lemma {:induction false} DiskRevoked(disk: Disk, extent: seq<nat>, sb: Super)
    requires disk == DISK[14 := Revoking(8)] && extent == [10, 11, 12, 13, 14, 15] && sb == Super(1, 6, 1, 7)
    ensures ThenRevoked(extent, sb, disk, 100, 2, 3, 4, 5)
  {
    assert Wrap(sb, 2) == 2 && Wrap(sb, 3) == 3 && Wrap(sb, 4) == 4 && Wrap(sb, 5) == 5;
    assert Named(Revoking(8)) == [100];
  }

  /** The transaction in blocks 11 to 13 is committed; the revoke block behind it is not, and
      takes effect. */
  lemma {:induction false} RevokedExample(disk: Disk, slots: seq<Slot>, fs: Fs)
    requires disk == DISK[14 := Revoking(8)] && slots == [Slot([10, 11, 12, 13, 14, 15], true)]
    requires fs.disk == disk && fs.supers == map[0 := Super(1, 6, 1, 7)]
    ensures Good(slots, fs) && SlotCommitted(slots[0], fs.supers[0], disk, None) == [Pos(1, 7), Pos(3, 7)]
    ensures var after := RunEvents(fs, Plan(slots, fs));
      after.disk == disk && 0 in after.supers && after.supers[0].start == 0
  {
    assert slots[1..] == [];
    DiskRevoked(disk, slots[0].extent, fs.supers[0]);
    RevokedLater(slots, fs, 100, 2, 3, 4, 5);
  }

  /** Transaction 7 revokes block 100, and transaction 8 logs it. */
  ghost predicate SpinDisk(disk: Disk, extent: seq<nat>, sb: Super) {
    && extent == [40, 41, 42, 43, 44, 45, 46] && sb == Super(1, 7, 1, 7)
    && disk == map[40 := Plain(0), 41 := Revoking(7), 42 := COMMIT, 43 := DESCRIBE.(sq := 8), 44 := Plain(4),
                   45 := COMMIT.(sq := 8), 46 := Plain(0), 100 := Plain(9)]
  }

  const SPIN_TRACE := [Pos(1, 7), Pos(2, 7), Pos(3, 8), Pos(5, 8)]

  /** The log is sound, and the search for the block that is named does not end. */
  lemma {:induction false} SpinExample(log: set<nat>, slot: Slot, sb: Super, disk: Disk)
    requires SpinDisk(disk, slot.extent, sb) && 100 !in log
    ensures SlotSound(log, slot, sb, disk) && !ComesAway(slot, sb, disk, None)
  {
    SpinScanned(disk, slot.extent, sb);
    SpinCommitted(disk, slot.extent, sb);
    SpinRecords(disk, slot.extent, sb);
    SpinHeaders(log, disk, slot.extent, sb);
  }

  lemma {:induction false} SpinHeaders(log: set<nat>, disk: Disk, extent: seq<nat>, sb: Super)
    requires SpinDisk(disk, extent, sb) && 100 !in log
    ensures Readable(extent, sb, disk) && Replayable(log, extent, sb, disk, SPIN_TRACE)
    ensures NoneAstray(extent, sb, disk, SPIN_TRACE) && !NoneSpins(extent, disk, map[100 := 7], SPIN_TRACE)
  {
    OneTag(disk, 100);
    assert disk[43].tags[0].target == 100;
    assert HeaderSpins(extent, disk, map[100 := 7], SPIN_TRACE[2]);
    assert !LeadsAstray(extent, sb, disk, SPIN_TRACE[2]);
  }

  lemma {:induction false} SpinScanned(disk: Disk, extent: seq<nat>, sb: Super)
    requires SpinDisk(disk, extent, sb)
    ensures Scanned(extent, sb, disk, {40}, None).trace == SPIN_TRACE
  {
    var p1, p2, p3, p5, p6 := Pos(1, 7), Pos(2, 7), Pos(3, 8), Pos(5, 8), Pos(6, 9);
    OneTag(disk, 100);
    assert Wrap(sb, 2) == 2 && Wrap(sb, 3) == 3 && Wrap(sb, 4) == 4 && Wrap(sb, 5) == 5 && Wrap(sb, 6) == 6;
    var u1 := {40} + {41};
    var u2 := u1 + {42};
    var u3 := u2 + {43};
    var u5 := u3 + {45};
    ScanEnds(extent, sb, disk, p6, u5);
    ScanOn(extent, sb, disk, p5, u3, None, p6, ScanFrom(extent, sb, disk, p6, u5, None));
    ScanOn(extent, sb, disk, p3, u2, None, p5, ScanFrom(extent, sb, disk, p5, u3, None));
    ScanOn(extent, sb, disk, p2, u1, None, p3, ScanFrom(extent, sb, disk, p3, u2, None));
    ScanOn(extent, sb, disk, p1, {40}, None, p2, ScanFrom(extent, sb, disk, p2, u1, None));
    assert [p1] + ([p2] + ([p3] + ([p5] + []))) == [p1, p2, p3, p5];
  }

  lemma {:induction false} SpinCommitted(disk: Disk, extent: seq<nat>, sb: Super)
    requires SpinDisk(disk, extent, sb)
    ensures Committed(extent, disk, SPIN_TRACE) == SPIN_TRACE
  {
    assert KindAt(extent, disk, SPIN_TRACE[3]) == Commit;
    CommittedMeans(extent, disk, SPIN_TRACE, 3);
  }

  lemma {:induction false} SpinRecords(disk: Disk, extent: seq<nat>, sb: Super)
    requires SpinDisk(disk, extent, sb)
    ensures Records(extent, disk, SPIN_TRACE) == map[100 := 7]
  {
    RecordsStay(extent, disk, SPIN_TRACE, 1);
    RecordsEnd(extent, disk, [], Pos(1, 7));
    assert SPIN_TRACE[..1] == [] + [Pos(1, 7)];
    assert Named(Revoking(7)) == [100] && Front([100]) == [];
    assert RecordAll(map[], [100], 7) == map[100 := 7];
  }

  /** The commit block 13 is not read. */
  lemma {:induction false} UnreadExample(disk: Disk, slots: seq<Slot>, fs: Fs, os: seq<Outcome>)
    requires disk == DISK && slots == [Slot([10, 11, 12, 13, 14, 15], true)] && os == [Outcome([], true)]
    requires fs.disk == disk && fs.supers == map[0 := Super(1, 6, 1, 7)]
    ensures Good(slots, fs) && AllPossible(Jobs(slots, fs, [Some(1)]), os)
    ensures !Recovers(slots, RunEvents(fs, Part(Jobs(slots, fs, [Some(1)]), os)), RunEvents(fs, Plan(slots, fs)))
  {
    assert slots[1..] == [];
    DiskLogged(disk, slots[0].extent, fs.supers[0], 10, 2, 3, 4);
    UnreadLost(slots, fs, os, 100, 2, 3, 4, Plain(1));
  }

  lemma {:induction false} StaleLogged(disk: Disk, extent: seq<nat>, sb: Super)
    requires disk == map[50 := Plain(0), 51 := DESCRIBE, 52 := Plain(1), 53 := COMMIT, 54 := DESCRIBE.(sq := 3),
                         55 := Plain(5), 56 := COMMIT.(sq := 3), 57 := Plain(0), 100 := Plain(9)]
    requires extent == [50, 51, 52, 53, 54, 55, 56, 57] && sb == Super(1, 8, 1, 7)
    ensures OneLogged(extent, sb, disk, 100, 2, 3, 4) && disk[extent[2]] == Plain(1)
  {
    assert Wrap(sb, 2) == 2 && Wrap(sb, 3) == 3 && Wrap(sb, 4) == 4;
  }

  /** Behind transaction 7 lies transaction 3, left from an earlier lap: it is not replayed. */
  lemma {:induction false} StaleExample(disk: Disk, slots: seq<Slot>, fs: Fs)
    requires disk == map[50 := Plain(0), 51 := DESCRIBE, 52 := Plain(1), 53 := COMMIT, 54 := DESCRIBE.(sq := 3),
                         55 := Plain(5), 56 := COMMIT.(sq := 3), 57 := Plain(0), 100 := Plain(9)]
    requires slots == [Slot([50, 51, 52, 53, 54, 55, 56, 57], true)]
    requires fs.disk == disk && fs.supers == map[0 := Super(1, 8, 1, 7)]
    ensures Good(slots, fs) && RunEvents(fs, Plan(slots, fs)).disk == disk[100 := Plain(1)]
  {
    assert slots[1..] == [];
    StaleLogged(disk, slots[0].extent, fs.supers[0]);
    OneReplayed(slots, fs, 100, 2, 3, 4, Plain(1));
  }
}
