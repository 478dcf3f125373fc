/** Replaying the journals of all slots, as o2fsck_replay_journals() in
    fsck.ocfs2/journal.c does, and what a crash in the middle of it leaves behind. */
module JournalSlots {
  import opened Basics
  import opened Journal
  import opened JournalJobs
  import opened JournalRecovery
  import opened JournalRevokes
  import opened Oracle
  import opened Words

  /** The journal inode of a slot: its blocks, the first of which is the superblock's,
      and its dirty flag. */
  datatype Slot = Slot(extent: seq<nat>, dirty: bool)

  function AllBlocks(slots: seq<Slot>): set<nat> {
    if slots == [] then {} else Blocks(slots[0].extent) + AllBlocks(slots[1..])
  }

  /** No two journals share a block. */
  predicate Apart(slots: seq<Slot>) {
    slots == [] || (Blocks(slots[0].extent) !! AllBlocks(slots[1..]) && Apart(slots[1..]))
  }

  lemma {:induction false} ApartAt(slots: seq<Slot>, i: nat, j: nat)
    requires Apart(slots) && i < j < |slots|
    ensures Blocks(slots[i].extent) !! Blocks(slots[j].extent)
  {
    if i == 0 {
      SlotBlocks(slots[1..], j - 1);
    } else {
      ApartAt(slots[1..], i - 1, j - 1);
    }
  }

  lemma {:induction false} SlotBlocks(slots: seq<Slot>, i: nat)
    requires i < |slots|
    ensures Blocks(slots[i].extent) <= AllBlocks(slots)
  {
    if i > 0 {
      SlotBlocks(slots[1..], i - 1);
    }
  }

  // ---------------------------------------------------------------------
  // One slot

  /** What the first walk over a slot's journal sees. */
  function Seen(slot: Slot, sb: Super, disk: Disk, luck: Luck): Scan
    requires sb.first < sb.maxlen && |slot.extent| > 0
  {
    Scanned(slot.extent, sb, disk, {slot.extent[0]}, luck)
  }

  /** The headers of the committed transactions among that, and the records of revokes. */
  function SlotCommitted(slot: Slot, sb: Super, disk: Disk, luck: Luck): seq<Pos>
    requires sb.first < sb.maxlen && |slot.extent| > 0
  {
    Committed(slot.extent, disk, Seen(slot, sb, disk, luck).trace)
  }

  function SlotRevokes(slot: Slot, sb: Super, disk: Disk, luck: Luck): Revokes
    requires sb.first < sb.maxlen && |slot.extent| > 0
  {
    Records(slot.extent, disk, Seen(slot, sb, disk, luck).trace)
  }

  /** A readable log, whose committed descriptors are terminated, name only blocks outside
      the journals, and do not lead the recovery astray. */
  ghost predicate SlotSound(log: set<nat>, slot: Slot, sb: Super, disk: Disk) {
    && sb.first < sb.maxlen && |slot.extent| > 0
    && (sb.start != 0 ==>
        && Readable(slot.extent, sb, disk) && sb.sequence < WORD32
        && Replayable(log, slot.extent, sb, disk, SlotCommitted(slot, sb, disk, None))
        && NoneAstray(slot.extent, sb, disk, SlotCommitted(slot, sb, disk, None)))
  }

  /** Then so are those that a first walk saw which could not read a header. */
  lemma SoundSeen(log: set<nat>, slot: Slot, sb: Super, disk: Disk, luck: Luck)
    requires SlotSound(log, slot, sb, disk) && sb.start != 0
    ensures SlotCommitted(slot, sb, disk, luck) <= SlotCommitted(slot, sb, disk, None)
    ensures Replayable(log, slot.extent, sb, disk, SlotCommitted(slot, sb, disk, luck))
    ensures NoneAstray(slot.extent, sb, disk, SlotCommitted(slot, sb, disk, luck))
  {
    if luck.Some? {
      LosesIff(slot, sb, disk, luck.value);
    }
  }

  /** A first walk that fails to read a header misses commits if and only if there are commit
      blocks from there on. */
  lemma LosesIff(slot: Slot, sb: Super, disk: Disk, k: nat)
    requires sb.first < sb.maxlen && |slot.extent| > 0 && sb.start != 0
    ensures SlotCommitted(slot, sb, disk, Some(k)) <= SlotCommitted(slot, sb, disk, None)
    ensures var all := Seen(slot, sb, disk, None).trace;
      SlotCommitted(slot, sb, disk, Some(k)) == SlotCommitted(slot, sb, disk, None) <==>
      forall j :: k <= j < |all| ==> KindAt(slot.extent, disk, all[j]) != Commit
  {
    var all := Seen(slot, sb, disk, None).trace;
    CutShort(slot.extent, sb, disk, Pos(sb.start, sb.sequence), {slot.extent[0]}, k);
    CommittedPrefix(slot.extent, disk, all, if k <= |all| then k else |all|);
    assert all[..|all|] == all;
  }

  lemma {:induction false} TagWritten(extent: seq<nat>, sb: Super, disk: Disk, rv: Revokes, sq: nat, tags: seq<Tag>,
      next: nat, i: nat, n: nat, target: nat)
    requires Readable(extent, sb, disk) && n <= |tags|
    ensures (exists w :: w in TagWrites(extent, sb, disk, rv, sq, tags, next, i, n) && w.target == target)
       <==> (exists k :: i <= k < n && tags[k].target == target) && Judge(rv, target, sq) != Revoked
    decreases n - i
  {
    if i < n {
      TagWritten(extent, sb, disk, rv, sq, tags, next, i + 1, n, target);
      var rest := TagWrites(extent, sb, disk, rv, sq, tags, next, i + 1, n);
      if Judge(rv, tags[i].target, sq) != Revoked {
        var w := Write(tags[i].target, Restored(disk[extent[Wrap(sb, next + i)]], tags[i].escape));
        assert TagWrites(extent, sb, disk, rv, sq, tags, next, i, n) == [w] + rest;
        assert w in [w] + rest;
      } else {
        assert TagWrites(extent, sb, disk, rv, sq, tags, next, i, n) == rest;
      }
    }
  }

  lemma {:induction false} TraceWritten(extent: seq<nat>, sb: Super, disk: Disk, first: nat, trace: seq<Pos>, i: nat,
      target: nat)
    requires Readable(extent, sb, disk) && Numbered(extent, disk, first, trace) && i < |trace|
    requires KindAt(extent, disk, trace[i]) == Descriptor
    requires var tags := disk[extent[trace[i].block]].tags;
      exists k :: 0 <= k < TagRun(tags) && tags[k].target == target
    ensures var rv := Records(extent, disk, trace);
      (exists w :: w in HeaderWrites(extent, sb, disk, rv, trace[i]) && w.target == target) <==>
      !RevokedSince(extent, disk, trace, i, target)
  {
    var p, rv := trace[i], Records(extent, disk, trace);
    var tags := disk[extent[p.block]].tags;
    assert Judge(rv, target, p.sq) == Revoked <==> RevokedSince(extent, disk, trace, i, target) by {
      SkippedIff(extent, disk, first, trace, i, target);
    }
    TagWritten(extent, sb, disk, rv, p.sq, tags, Wrap(sb, p.block + 1), 0, TagRun(tags), target);
  }

  /** A block that a committed descriptor names is written back for it, if and only if no
      revoke block of its transaction or of a later one names it that the first walk came to,
      whether that one is committed or not. */
  lemma {:induction false} WrittenIff(slot: Slot, sb: Super, disk: Disk, luck: Luck, i: nat, target: nat)
    requires |slot.extent| > 0 && Readable(slot.extent, sb, disk) && sb.start != 0 && sb.sequence < WORD32
    requires i < |SlotCommitted(slot, sb, disk, luck)|
    requires var p := SlotCommitted(slot, sb, disk, luck)[i];
      && KindAt(slot.extent, disk, p) == Descriptor
      && var tags := disk[slot.extent[p.block]].tags;
      exists k :: 0 <= k < TagRun(tags) && tags[k].target == target
    ensures var rv, p := SlotRevokes(slot, sb, disk, luck), SlotCommitted(slot, sb, disk, luck)[i];
      (exists w :: w in HeaderWrites(slot.extent, sb, disk, rv, p) && w.target == target) <==>
      !RevokedSince(slot.extent, disk, Seen(slot, sb, disk, luck).trace, i, target)
  {
    var trace := Seen(slot, sb, disk, luck).trace;
    ScanNumbered(slot.extent, sb, disk, Pos(sb.start, sb.sequence), {slot.extent[0]}, luck);
    assert SlotCommitted(slot, sb, disk, luck)[i] == trace[i];
    TraceWritten(slot.extent, sb, disk, sb.sequence, trace, i, target);
  }

  /** The log blocks the first walk marks. */
  function Marks(slot: Slot, sb: Super, disk: Disk, luck: Luck): set<nat>
    requires sb.first < sb.maxlen && |slot.extent| > 0
  {
    Seen(slot, sb, disk, luck).used
  }

  /** The blocks to write back, and where their data is. */
  function WritesSeen(slot: Slot, sb: Super, disk: Disk, luck: Luck): seq<Write>
    requires sb.first < sb.maxlen && |slot.extent| > 0 && Readable(slot.extent, sb, disk)
  {
    WritesOf(slot.extent, sb, disk, SlotRevokes(slot, sb, disk, luck), SlotCommitted(slot, sb, disk, luck))
  }

  function DataSeen(slot: Slot, sb: Super, disk: Disk, luck: Luck): seq<nat>
    requires sb.first < sb.maxlen && |slot.extent| > 0 && Readable(slot.extent, sb, disk)
  {
    DataOf(slot.extent, sb, disk, SlotRevokes(slot, sb, disk, luck), SlotCommitted(slot, sb, disk, luck))
  }

  /** No data block of a committed transaction is a header or another data block: the
      log does not overlap itself. */
  ghost predicate NoOverlap(slot: Slot, sb: Super, disk: Disk, luck: Luck)
    requires sb.first < sb.maxlen && |slot.extent| > 0
    requires sb.start != 0 ==> Readable(slot.extent, sb, disk)
  {
    sb.start != 0 ==> Unmarked(Marks(slot, sb, disk, luck), DataSeen(slot, sb, disk, luck))
  }

  /** The recovery does not hang. */
  ghost predicate ComesAway(slot: Slot, sb: Super, disk: Disk, luck: Luck)
    requires sb.first < sb.maxlen && |slot.extent| > 0
  {
    sb.start != 0 ==>
      NoneSpins(slot.extent, disk, SlotRevokes(slot, sb, disk, luck), SlotCommitted(slot, sb, disk, luck))
  }

  /** The superblock of a slot once its journal is replayed. */
  function Cleared(slot: Slot, sb: Super, disk: Disk, luck: Luck): Super
    requires sb.first < sb.maxlen && |slot.extent| > 0
  {
    if sb.start == 0 then sb else sb.(start := 0, sequence := Bump(Seen(slot, sb, disk, luck).end))
  }

  ghost predicate Sound(slots: seq<Slot>, fs: Fs) {
    && Apart(slots)
    && (forall i :: 0 <= i < |slots| && slots[i].dirty ==>
        i in fs.supers && SlotSound(AllBlocks(slots), slots[i], fs.supers[i], fs.disk))
  }

  /** The replay of slot `i` is undisturbed. */
  ghost predicate Clean(slots: seq<Slot>, fs: Fs, i: nat, luck: Luck)
    requires Sound(slots, fs) && i < |slots|
  {
    slots[i].dirty ==>
      NoOverlap(slots[i], fs.supers[i], fs.disk, luck) && ComesAway(slots[i], fs.supers[i], fs.disk, luck)
  }

  ghost predicate Good(slots: seq<Slot>, fs: Fs) {
    Sound(slots, fs) && forall i :: 0 <= i < |slots| ==> Clean(slots, fs, i, None)
  }

  // ---------------------------------------------------------------------
  // Replay leaves the journals alone

  lemma AdvanceIntact(sb: Super, was: Disk, now: Disk, b: Block, p: Pos)
    requires sb.first < sb.maxlen && was.Keys == now.Keys
    ensures Advance(sb, was, b, p) == Advance(sb, now, b, p)
  {
    assert forall k :: k in was <==> k in now;
    assert CountTags(was, b.tags) == CountTags(now, b.tags);
  }

  /** The two walks look only at the journal's own blocks. */
  lemma {:induction false} ScanIntact(log: set<nat>, extent: seq<nat>, sb: Super, was: Disk, now: Disk, p: Pos,
      used: set<nat>, luck: Luck)
    requires sb.first < sb.maxlen && Blocks(extent) <= log && LogIntact(log, was, now)
    ensures ScanFrom(extent, sb, was, p, used, luck) == ScanFrom(extent, sb, now, p, used, luck)
    decreases |Blocks(extent) - used|
  {
    if p.block < |extent| && extent[p.block] !in used && extent[p.block] in was {
      var blk := extent[p.block];
      assert blk in Blocks(extent);
      assert Blocks(extent) - (used + {blk}) == Blocks(extent) - used - {blk};
      AdvanceIntact(sb, was, now, was[blk], p);
      var m := Advance(sb, was, was[blk], p);
      if m.Go? {
        ScanIntact(log, extent, sb, was, now, m.next, used + {blk}, Later(luck));
      }
    }
  }

  lemma {:induction false} CommittedIntact(log: set<nat>, extent: seq<nat>, was: Disk, now: Disk, trace: seq<Pos>)
    requires Blocks(extent) <= log && LogIntact(log, was, now)
    ensures Commits(extent, was, trace) == Commits(extent, now, trace)
    ensures Committed(extent, was, trace) == Committed(extent, now, trace)
  {
    if trace != [] {
      KindIntact(log, extent, was, now, trace[0]);
      CommittedIntact(log, extent, was, now, trace[1..]);
    }
  }

  lemma KindIntact(log: set<nat>, extent: seq<nat>, was: Disk, now: Disk, p: Pos)
    requires Blocks(extent) <= log && LogIntact(log, was, now)
    ensures KindAt(extent, was, p) == KindAt(extent, now, p)
    ensures p.block < |extent| && extent[p.block] in was ==> was[extent[p.block]] == now[extent[p.block]]
  {
    assert p.block < |extent| ==> extent[p.block] in Blocks(extent);
  }

  lemma {:induction false} RecordsIntact(log: set<nat>, extent: seq<nat>, was: Disk, now: Disk, trace: seq<Pos>)
    requires Blocks(extent) <= log && LogIntact(log, was, now)
    ensures Records(extent, was, trace) == Records(extent, now, trace)
  {
    if trace != [] {
      KindIntact(log, extent, was, now, Last(trace));
      RecordsIntact(log, extent, was, now, Front(trace));
    }
  }

  lemma {:induction false} ContentsIntact(log: set<nat>, extent: seq<nat>, sb: Super, was: Disk, now: Disk, rv: Revokes,
      ps: seq<Pos>)
    requires Readable(extent, sb, was) && Readable(extent, sb, now) && Blocks(extent) <= log && LogIntact(log, was, now)
    requires Replayable(log, extent, sb, was, ps)
    ensures WritesOf(extent, sb, was, rv, ps) == WritesOf(extent, sb, now, rv, ps)
    ensures DataOf(extent, sb, was, rv, ps) == DataOf(extent, sb, now, rv, ps)
  {
    if ps != [] {
      assert forall i :: 0 <= i < |ps[1..]| ==> ps[1..][i] == ps[i + 1];
      ContentsIntact(log, extent, sb, was, now, rv, ps[1..]);
      assert HeaderReplayable(log, extent, was, ps[0]);
      HeaderIntact(log, extent, sb, was, now, rv, ps[0]);
    }
  }

  lemma HeadersIntact(log: set<nat>, extent: seq<nat>, sb: Super, was: Disk, now: Disk, rv: Revokes, ps: seq<Pos>)
    requires Readable(extent, sb, was) && Readable(extent, sb, now) && Blocks(extent) <= log && LogIntact(log, was, now)
    requires Replayable(log, extent, sb, was, ps)
    ensures Replayable(log, extent, sb, now, ps)
    ensures NoneAstray(extent, sb, was, ps) ==> NoneAstray(extent, sb, now, ps)
    ensures NoneSpins(extent, was, rv, ps) <==> NoneSpins(extent, now, rv, ps)
  {
    forall i | 0 <= i < |ps|
      ensures HeaderReplayable(log, extent, now, ps[i])
      ensures LeadsAstray(extent, sb, was, ps[i]) <==> LeadsAstray(extent, sb, now, ps[i])
      ensures HeaderSpins(extent, was, rv, ps[i]) <==> HeaderSpins(extent, now, rv, ps[i])
    {
      assert HeaderReplayable(log, extent, was, ps[i]);
      HeaderIntact(log, extent, sb, was, now, rv, ps[i]);
    }
  }

  lemma SeenIntact(log: set<nat>, slot: Slot, sb: Super, was: Disk, now: Disk, luck: Luck)
    requires sb.first < sb.maxlen && |slot.extent| > 0 && Blocks(slot.extent) <= log && LogIntact(log, was, now)
    ensures Seen(slot, sb, was, luck) == Seen(slot, sb, now, luck)
    ensures SlotCommitted(slot, sb, was, luck) == SlotCommitted(slot, sb, now, luck)
    ensures SlotRevokes(slot, sb, was, luck) == SlotRevokes(slot, sb, now, luck)
  {
    ScanIntact(log, slot.extent, sb, was, now, Pos(sb.start, sb.sequence), {slot.extent[0]}, luck);
    CommittedIntact(log, slot.extent, was, now, Seen(slot, sb, was, luck).trace);
    RecordsIntact(log, slot.extent, was, now, Seen(slot, sb, was, luck).trace);
  }

  /** A slot is as good after blocks outside the journals were written as before. */
  lemma SoundIntact(log: set<nat>, slot: Slot, sb: Super, was: Disk, now: Disk)
    requires SlotSound(log, slot, sb, was) && Blocks(slot.extent) <= log && LogIntact(log, was, now)
    ensures SlotSound(log, slot, sb, now)
  {
    if sb.start != 0 {
      SeenIntact(log, slot, sb, was, now, None);
      assert forall b :: b in slot.extent ==> b in now;
      HeadersIntact(log, slot.extent, sb, was, now, map[], SlotCommitted(slot, sb, was, None));
    }
  }

  /** And its replay does the same. */
  lemma SlotIntact(log: set<nat>, slot: Slot, sb: Super, was: Disk, now: Disk, luck: Luck)
    requires SlotSound(log, slot, sb, was) && Blocks(slot.extent) <= log && LogIntact(log, was, now)
    ensures SlotSound(log, slot, sb, now)
    ensures Seen(slot, sb, was, luck) == Seen(slot, sb, now, luck)
    ensures SlotCommitted(slot, sb, was, luck) == SlotCommitted(slot, sb, now, luck)
    ensures SlotRevokes(slot, sb, was, luck) == SlotRevokes(slot, sb, now, luck)
    ensures sb.start != 0 ==> WritesSeen(slot, sb, was, luck) == WritesSeen(slot, sb, now, luck)
    ensures sb.start != 0 ==> DataSeen(slot, sb, was, luck) == DataSeen(slot, sb, now, luck)
    ensures NoOverlap(slot, sb, was, luck) <==> NoOverlap(slot, sb, now, luck)
    ensures ComesAway(slot, sb, was, luck) <==> ComesAway(slot, sb, now, luck)
  {
    SoundIntact(log, slot, sb, was, now);
    SeenIntact(log, slot, sb, was, now, luck);
    if sb.start != 0 {
      var rv, ps := SlotRevokes(slot, sb, was, luck), SlotCommitted(slot, sb, was, luck);
      SoundSeen(log, slot, sb, was, luck);
      ContentsIntact(log, slot.extent, sb, was, now, rv, ps);
      HeadersIntact(log, slot.extent, sb, was, now, rv, ps);
    }
  }

  lemma {:induction false} TagTargets(log: set<nat>, extent: seq<nat>, sb: Super, disk: Disk, rv: Revokes, sq: nat,
      tags: seq<Tag>, next: nat, i: nat)
    requires Readable(extent, sb, disk) && Outside(log, disk, tags)
    ensures WritesOutside(log, disk, TagWrites(extent, sb, disk, rv, sq, tags, next, i, TagRun(tags)))
    decreases TagRun(tags) - i
  {
    if i < TagRun(tags) {
      TagTargets(log, extent, sb, disk, rv, sq, tags, next, i + 1);
    }
  }

  lemma {:induction false} WriteTargets(log: set<nat>, extent: seq<nat>, sb: Super, disk: Disk, rv: Revokes,
      ps: seq<Pos>)
    requires Readable(extent, sb, disk) && Replayable(log, extent, sb, disk, ps)
    ensures WritesOutside(log, disk, WritesOf(extent, sb, disk, rv, ps))
  {
    if ps != [] {
      assert forall i :: 0 <= i < |ps[1..]| ==> ps[1..][i] == ps[i + 1];
      WriteTargets(log, extent, sb, disk, rv, ps[1..]);
      assert HeaderReplayable(log, extent, disk, ps[0]);
      if KindAt(extent, disk, ps[0]) == Descriptor {
        TagTargets(log, extent, sb, disk, rv, ps[0].sq, disk[extent[ps[0].block]].tags, Wrap(sb, ps[0].block + 1), 0);
      }
      OutsideConcat(log, disk, HeaderWrites(extent, sb, disk, rv, ps[0]), WritesOf(extent, sb, disk, rv, ps[1..]));
    }
  }

  // ---------------------------------------------------------------------
  // The jobs of a replay

  /** The committed blocks of slot `i`, as far as they were seen. */
  ghost function SlotWrites(slots: seq<Slot>, fs: Fs, i: nat, luck: Luck): seq<Write>
    requires Sound(slots, fs) && i < |slots|
  {
    if !slots[i].dirty || fs.supers[i].start == 0 then [] else WritesSeen(slots[i], fs.supers[i], fs.disk, luck)
  }

  ghost function JobOf(slots: seq<Slot>, fs: Fs, i: nat, luck: Luck): Job
    requires Sound(slots, fs) && i < |slots|
  {
    Job(SlotWrites(slots, fs, i, luck), slots[i].dirty,
        if slots[i].dirty then Cleared(slots[i], fs.supers[i], fs.disk, luck) else Super(0, 0, 0, 0))
  }

  ghost function Jobs(slots: seq<Slot>, fs: Fs, lucks: seq<Luck>): (jobs: seq<Job>)
    requires Sound(slots, fs) && |lucks| == |slots|
    ensures |jobs| == |slots| && forall i :: 0 <= i < |slots| ==> jobs[i] == JobOf(slots, fs, i, lucks[i])
  {
    seq(|slots|, i requires 0 <= i < |slots| && Sound(slots, fs) && |lucks| == |slots| => JobOf(slots, fs, i, lucks[i]))
  }

  /** The first walks can read every header. */
  function Lucky(n: nat): seq<Luck> {
    seq(n, _ => None)
  }

  ghost function AllJobs(slots: seq<Slot>, fs: Fs): (jobs: seq<Job>)
    requires Sound(slots, fs)
    ensures |jobs| == |slots| && forall i :: 0 <= i < |slots| ==> jobs[i] == JobOf(slots, fs, i, None)
  {
    Jobs(slots, fs, Lucky(|slots|))
  }

  /** The writes of an undisturbed replay. */
  ghost function Plan(slots: seq<Slot>, fs: Fs): seq<Event>
    requires Sound(slots, fs)
  {
    Part(AllJobs(slots, fs), Full(AllJobs(slots, fs)))
  }

  lemma SlotWritesOutside(slots: seq<Slot>, fs: Fs, i: nat, luck: Luck)
    requires Sound(slots, fs) && i < |slots|
    ensures WritesOutside(AllBlocks(slots), fs.disk, SlotWrites(slots, fs, i, luck))
  {
    if slots[i].dirty && fs.supers[i].start != 0 {
      SoundSeen(AllBlocks(slots), slots[i], fs.supers[i], fs.disk, luck);
      WriteTargets(AllBlocks(slots), slots[i].extent, fs.supers[i], fs.disk,
                   SlotRevokes(slots[i], fs.supers[i], fs.disk, luck),
                   SlotCommitted(slots[i], fs.supers[i], fs.disk, luck));
    }
  }

  /** After a replay in which some slots may have failed: the journals are intact, and
      superblocks are cleared or as they were. */
  ghost predicate Left(slots: seq<Slot>, fs: Fs, lucks: seq<Luck>, os: seq<Outcome>, now: Fs)
    requires Sound(slots, fs) && |os| == |slots| == |lucks|
  {
    && LogIntact(AllBlocks(slots), fs.disk, now.disk)
    && forall i :: 0 <= i < |slots| && slots[i].dirty ==>
        && i in now.supers
        && now.supers[i] == if os[i].cleared then Cleared(slots[i], fs.supers[i], fs.disk, lucks[i]) else fs.supers[i]
  }

  lemma AfterLeft(slots: seq<Slot>, fs: Fs, lucks: seq<Luck>, os: seq<Outcome>)
    requires Sound(slots, fs) && |lucks| == |slots| && AllPossible(Jobs(slots, fs, lucks), os)
    ensures Left(slots, fs, lucks, os, After(fs, Jobs(slots, fs, lucks), os))
  {
    var jobs := Jobs(slots, fs, lucks);
    forall i | 0 <= i < |jobs|
      ensures WritesOutside(AllBlocks(slots), fs.disk, jobs[i].writes)
    {
      SlotWritesOutside(slots, fs, i, lucks[i]);
    }
    KeptWritesOutside(AllBlocks(slots), fs.disk, jobs, os);
    ApplyIntact(AllBlocks(slots), fs.disk, KeptWrites(jobs, os));
    var supers := SupersAfter(fs.supers, jobs, os);
    forall i | 0 <= i < |slots| && slots[i].dirty
      ensures i in supers
      ensures supers[i] == if os[i].cleared then Cleared(slots[i], fs.supers[i], fs.disk, lucks[i]) else fs.supers[i]
    {
      SupersAt(fs.supers, jobs, os, i);
    }
  }

  /** The slots can be replayed again: those cleared have nothing left to do, and the others
      are as good as before. */
  lemma LeftSound(slots: seq<Slot>, fs: Fs, lucks: seq<Luck>, os: seq<Outcome>, now: Fs)
    requires Sound(slots, fs) && |os| == |slots| == |lucks| && Left(slots, fs, lucks, os, now)
    ensures Sound(slots, now)
  {
    forall i | 0 <= i < |slots| && slots[i].dirty
      ensures i in now.supers && SlotSound(AllBlocks(slots), slots[i], now.supers[i], now.disk)
    {
      if !os[i].cleared {
        SlotBlocks(slots, i);
        SoundIntact(AllBlocks(slots), slots[i], fs.supers[i], fs.disk, now.disk);
      }
    }
  }

  lemma LeftGood(slots: seq<Slot>, fs: Fs, lucks: seq<Luck>, os: seq<Outcome>, now: Fs)
    requires Good(slots, fs) && |os| == |slots| == |lucks| && Left(slots, fs, lucks, os, now)
    ensures Good(slots, now)
  {
    LeftSound(slots, fs, lucks, os, now);
    forall i | 0 <= i < |slots|
      ensures Clean(slots, now, i, None)
    {
      assert Clean(slots, fs, i, None);
      if slots[i].dirty && !os[i].cleared {
        SlotBlocks(slots, i);
        SlotIntact(AllBlocks(slots), slots[i], fs.supers[i], fs.disk, now.disk, None);
      }
    }
  }

  /** What a second replay has to do for each slot. */
  lemma SecondSlot(slots: seq<Slot>, fs: Fs, os: seq<Outcome>, now: Fs, i: nat)
    requires Sound(slots, fs) && |os| == |slots| && Left(slots, fs, Lucky(|slots|), os, now) && Sound(slots, now)
    requires i < |slots| && (os[i].cleared ==> slots[i].dirty)
    ensures JobOf(slots, now, i, None)
         == if os[i].cleared then JobOf(slots, fs, i, None).(writes := []) else JobOf(slots, fs, i, None)
  {
    if slots[i].dirty && !os[i].cleared {
      SlotBlocks(slots, i);
      SlotIntact(AllBlocks(slots), slots[i], fs.supers[i], fs.disk, now.disk, None);
    }
  }

  /** A replay of `now` is undisturbed and ends in `end`. */
  ghost predicate Recovers(slots: seq<Slot>, now: Fs, end: Fs) {
    Good(slots, now) && RunEvents(now, Plan(slots, now)) == end
  }

  /** Replaying again after failures gives what an undisturbed replay would have given, if
      and only if no block is overtaken. */
  lemma ReplayAgainIff(slots: seq<Slot>, fs: Fs, os: seq<Outcome>)
    requires Good(slots, fs) && AllPossible(AllJobs(slots, fs), os)
    ensures Recovers(slots, RunEvents(fs, Part(AllJobs(slots, fs), os)), RunEvents(fs, Plan(slots, fs)))
       <==> forall b :: !Overtaken(AllJobs(slots, fs), os, b)
  {
    var jobs := AllJobs(slots, fs);
    var now := After(fs, jobs, os);
    AfterLeft(slots, fs, Lucky(|slots|), os);
    LeftGood(slots, fs, Lucky(|slots|), os, now);
    forall i | 0 <= i < |slots|
      ensures JobOf(slots, now, i, None) == if os[i].cleared then jobs[i].(writes := []) else jobs[i]
    {
      assert Possible(jobs[i], os[i]);
      SecondSlot(slots, fs, os, now, i);
    }
    RunPart(fs, jobs, os);
    RunPart(fs, jobs, Full(jobs));
    RunPart(now, AllJobs(slots, now), Full(AllJobs(slots, now)));
    AgainIff(fs, jobs, os, AllJobs(slots, now));
  }

  /** Crash safety: stop a replay after any number of its writes, start it again from
      what is on disk, and the result is that of one undisturbed replay. */
  lemma CrashSafe(slots: seq<Slot>, fs: Fs, k: nat)
    requires Good(slots, fs) && k <= |Plan(slots, fs)|
    ensures Recovers(slots, RunEvents(fs, Plan(slots, fs)[..k]), RunEvents(fs, Plan(slots, fs)))
  {
    var jobs := AllJobs(slots, fs);
    PartLength(jobs);
    var os, m := CutOffAt(jobs, k);
    ReplayAgainIff(slots, fs, os);
    forall b
      ensures !Overtaken(jobs, os, b)
    {
      InOrderCopy(jobs, os, m, b);
    }
  }

  // ---------------------------------------------------------------------
  // The replay of all slots, with one bitmap of used blocks

  /** Blocks of other journals do not matter to the first walk. */
  lemma {:induction false} ScanLocal(extent: seq<nat>, sb: Super, disk: Disk, p: Pos, own: set<nat>, other: set<nat>,
      luck: Luck)
    requires sb.first < sb.maxlen && other * Blocks(extent) == {}
    ensures var r := ScanFrom(extent, sb, disk, p, own, luck);
      ScanFrom(extent, sb, disk, p, own + other, luck) == r.(used := r.used + other) && r.used <= own + Blocks(extent)
    decreases |Blocks(extent) - own|
  {
    if p.block < |extent| && extent[p.block] !in own {
      var blk := extent[p.block];
      assert blk in Blocks(extent) && blk !in other * Blocks(extent);
      assert Blocks(extent) - (own + {blk}) == Blocks(extent) - own - {blk};
      assert own + other + {blk} == own + {blk} + other;
      if blk in disk && Advance(sb, disk, disk[blk], p).Go? {
        ScanLocal(extent, sb, disk, Advance(sb, disk, disk[blk], p).next, own + {blk}, other, Later(luck));
      }
    }
  }

  lemma {:induction false} UnmarkedLocal(used: set<nat>, own: set<nat>, list: seq<nat>)
    requires forall b :: b in list ==> (b in used <==> b in own)
    ensures Unmarked(used, list) <==> Unmarked(own, list)
    decreases |list|
  {
    if list != [] {
      UnmarkedLocal(used + {list[0]}, own + {list[0]}, list[1..]);
    }
  }

  lemma {:induction false} DataInExtent(extent: seq<nat>, sb: Super, disk: Disk, rv: Revokes, ps: seq<Pos>)
    requires Readable(extent, sb, disk)
    ensures Blocks(DataOf(extent, sb, disk, rv, ps)) <= Blocks(extent)
  {
    if ps != [] {
      DataInExtent(extent, sb, disk, rv, ps[1..]);
      if KindAt(extent, disk, ps[0]) == Descriptor {
        var tags := disk[extent[ps[0].block]].tags;
        RunInExtent(extent, sb, rv, ps[0].sq, tags, Wrap(sb, ps[0].block + 1), 0, TagRun(tags));
      }
      assert forall b :: b in DataOf(extent, sb, disk, rv, ps) ==>
        b in HeaderData(extent, sb, disk, rv, ps[0]) || b in DataOf(extent, sb, disk, rv, ps[1..]);
    }
  }

  lemma {:induction false} RunInExtent(extent: seq<nat>, sb: Super, rv: Revokes, sq: nat, tags: seq<Tag>, next: nat,
      i: nat, n: nat)
    requires sb.first < sb.maxlen <= |extent| && n <= |tags|
    ensures forall b :: b in DataBlocks(extent, sb, rv, sq, tags, next, i, n) ==> b in Blocks(extent)
    decreases n - i
  {
    if i < n {
      RunInExtent(extent, sb, rv, sq, tags, next, i + 1, n);
    }
  }

  /** What the first loop of o2fsck_replay_journals() keeps of a slot: whether it could be
      prepared, the final sequence number, and the records of revokes. */
  datatype Info = Info(ready: bool, end: nat, rv: Revokes, luck: Luck)

  /** That is what the first walk found, and slot `i` has its marks among all the marks made
      so far. */
  ghost predicate Known(slots: seq<Slot>, fs: Fs, i: nat, info: Info, used: set<nat>)
    requires Sound(slots, fs) && i < |slots|
  {
    info.ready ==>
      && slots[i].dirty && info.end == Seen(slots[i], fs.supers[i], fs.disk, info.luck).end
      && info.rv == SlotRevokes(slots[i], fs.supers[i], fs.disk, info.luck)
      && used * Blocks(slots[i].extent) == Marks(slots[i], fs.supers[i], fs.disk, info.luck)
  }

  /** New marks in one journal are no concern of the others. */
  lemma MarksLocal(slots: seq<Slot>, fs: Fs, i: nat, before: set<nat>, after: set<nat>, k: nat)
    requires Sound(slots, fs) && i < |slots| && before <= after <= before + Blocks(slots[i].extent)
    requires k < |slots| && k != i
    ensures after * Blocks(slots[k].extent) == before * Blocks(slots[k].extent)
  {
    if i < k {
      ApartAt(slots, i, k);
    } else {
      ApartAt(slots, k, i);
    }
  }

  /** When nothing goes wrong, every dirty slot can be prepared and its headers read. */
  ghost predicate SmoothInfos(smooth: bool, slots: seq<Slot>, infos: seq<Info>)
    requires |infos| <= |slots|
  {
    smooth ==> forall k :: 0 <= k < |infos| ==> infos[k].ready == slots[k].dirty && infos[k].luck == None
  }

  /** The slots below `n` are known, and those from there on have no marks. */
  ghost predicate KnownTo(smooth: bool, slots: seq<Slot>, fs: Fs, n: nat, infos: seq<Info>, used: set<nat>)
    requires Sound(slots, fs) && n <= |slots|
  {
    && |infos| == n
    && (forall k :: 0 <= k < n ==> Known(slots, fs, k, infos[k], used))
    && SmoothInfos(smooth, slots, infos)
    && forall k :: n <= k < |slots| ==> used * Blocks(slots[k].extent) == {}
  }

  lemma KnownStep(smooth: bool, slots: seq<Slot>, fs: Fs, n: nat, infos: seq<Info>, used: set<nat>, info: Info,
      after: set<nat>)
    requires Sound(slots, fs) && n < |slots| && KnownTo(smooth, slots, fs, n, infos, used)
    requires Known(slots, fs, n, info, after) && used <= after <= used + Blocks(slots[n].extent)
    requires smooth ==> info.ready == slots[n].dirty && info.luck == None
    ensures KnownTo(smooth, slots, fs, n + 1, infos + [info], after)
  {
    forall k | 0 <= k < |slots| && k != n
      ensures after * Blocks(slots[k].extent) == used * Blocks(slots[k].extent)
    {
      MarksLocal(slots, fs, n, used, after, k);
    }
  }

  /** The first loop of o2fsck_replay_journals(): walk every dirty journal that can be
      prepared. */
  method ScanSlots(smooth: bool, slots: seq<Slot>, fs: Fs) returns (infos: seq<Info>, used: set<nat>)
    requires Sound(slots, fs)
    ensures KnownTo(smooth, slots, fs, |slots|, infos, used)
  {
    infos, used := [], {};
    for i := 0 to |slots|
      invariant KnownTo(smooth, slots, fs, i, infos, used)
    {
      var info, after := Info(false, 0, map[], None), used;
      if slots[i].dirty {
        info, after := ScanSlot(smooth, slots[i], fs.supers[i], fs.disk, used);
      }
      KnownStep(smooth, slots, fs, i, infos, used, info, after);
      infos, used := infos + [info], after;
    }
  }

  /** prep_journal_info(), which marks the superblock's block and may fail; then the walk. */
  method ScanSlot(smooth: bool, slot: Slot, sb: Super, disk: Disk, used: set<nat>) returns (info: Info, after: set<nat>)
    requires sb.first < sb.maxlen && |slot.extent| > 0 && used * Blocks(slot.extent) == {}
    ensures used <= after <= used + Blocks(slot.extent) && (smooth ==> info.ready && info.luck == None)
    ensures info.ready ==>
      && info.end == Seen(slot, sb, disk, info.luck).end && info.rv == SlotRevokes(slot, sb, disk, info.luck)
      && after * Blocks(slot.extent) == Marks(slot, sb, disk, info.luck)
  {
    var own := {slot.extent[0]};
    assert slot.extent[0] in Blocks(slot.extent);
    var prepared := Chance(smooth);
    if !prepared {
      return Info(false, 0, map[], None), own + used;
    }
    var lucky := Chance(smooth);
    var luck: Luck := None;
    if !lucky {
      var k: nat := *;
      luck := Some(k);
    }
    var r, rv := WalkScan(slot.extent, sb, disk, own + used, luck);
    ScanLocal(slot.extent, sb, disk, Pos(sb.start, sb.sequence), own, used, luck);
    info, after := Info(true, r.end, rv, luck), r.used;
  }

  /** The marks of slot `i` decide whether its data blocks are marked. */
  lemma DataMarks(extent: seq<nat>, used: set<nat>, own: set<nat>, data: seq<nat>)
    requires used * Blocks(extent) == own && Blocks(data) <= Blocks(extent)
    ensures Unmarked(used, data) <==> Unmarked(own, data)
  {
    forall b | b in data
      ensures b in used <==> b in own
    {
      assert b in Blocks(data);
      assert b in used * Blocks(extent) <==> b in own;
    }
    UnmarkedLocal(used, own, data);
  }

  /** The recovery walk of slot `i`, when earlier slots may have been written back. */
  method RecoverSlot(r: Replayer, slots: seq<Slot>, fs: Fs, i: nat, info: Info)
      returns (failed: bool, hung: bool, ghost keep: seq<bool>)
    requires Sound(slots, fs) && i < |slots| && info.ready && Known(slots, fs, i, info, r.used)
    requires LogIntact(AllBlocks(slots), fs.disk, r.disk)
    modifies r
    ensures LogIntact(AllBlocks(slots), fs.disk, r.disk)
    ensures old(r.used) <= r.used <= old(r.used) + Blocks(slots[i].extent)
    ensures |keep| == |SlotWrites(slots, fs, i, info.luck)|
    ensures r.disk == Apply(old(r.disk), Kept(SlotWrites(slots, fs, i, info.luck), keep))
    ensures !failed && !hung ==> false !in keep && Clean(slots, fs, i, info.luck)
    ensures hung ==> !ComesAway(slots[i], fs.supers[i], fs.disk, info.luck)
    ensures r.smooth && !ComesAway(slots[i], fs.supers[i], fs.disk, info.luck) ==> hung
    ensures r.smooth && Clean(slots, fs, i, info.luck) ==> !failed
  {
    var slot, sb := slots[i], fs.supers[i];
    if sb.start == 0 {
      return false, false, [];
    }
    SlotBlocks(slots, i);
    SlotIntact(AllBlocks(slots), slot, sb, fs.disk, r.disk, info.luck);
    SoundSeen(AllBlocks(slots), slot, sb, r.disk, info.luck);
    ghost var all, disk1, used1 := SlotCommitted(slot, sb, fs.disk, info.luck), r.disk, r.used;
    var how, last, visited;
    ghost var n, k;
    how, last, failed, visited, n, k :=
      r.WalkRecover(AllBlocks(slots), {slot.extent[0]}, info.luck, slot.extent, sb, info.rv, info.end);
    hung := how == Never;
    keep := SlotEnds(AllBlocks(slots), r.smooth, slot.extent, sb, disk1, info.rv, used1, all, info.end, how, n, visited,
                     last, failed, r.disk, r.used, k);
    DataInExtent(slot.extent, sb, disk1, info.rv, all);
    DataMarks(slot.extent, used1, Marks(slot, sb, fs.disk, info.luck), DataOf(slot.extent, sb, disk1, info.rv, all));
  }

  /** What the recovery of a sound slot has come to. */
  lemma SlotEnds(log: set<nat>, smooth: bool, extent: seq<nat>, sb: Super, disk0: Disk, rv: Revokes, used0: set<nat>,
      all: seq<Pos>, final: nat, how: Finish, n: nat, visited: seq<Pos>, end: nat, failed: bool, disk: Disk,
      used: set<nat>, keep: seq<bool>) returns (padded: seq<bool>)
    requires Readable(extent, sb, disk0) && n <= |all| && NoneAstray(extent, sb, disk0, all)
    requires Finished(smooth, extent, sb, disk0, rv, all, final, how, n, visited, end, failed, keep)
    requires how != Behind(true) ==> PartRecovered(log, extent, sb, disk0, rv, used0, all[..n], disk, used, keep)
    requires how != Behind(true) && how != Never ==>
      Recovered(log, smooth, extent, sb, disk0, rv, used0, all[..n], disk, used, keep)
    ensures PartRecovered(log, extent, sb, disk0, rv, used0, all, disk, used, padded)
    ensures how == Never ==> !NoneSpins(extent, disk0, rv, all)
    ensures smooth && how != Never ==> NoneSpins(extent, disk0, rv, all)
    ensures !failed && how != Never ==>
      false !in padded && NoneSpins(extent, disk0, rv, all) && Unmarked(used0, DataOf(extent, sb, disk0, rv, all))
    ensures smooth && NoneSpins(extent, disk0, rv, all) && Unmarked(used0, DataOf(extent, sb, disk0, rv, all)) ==>
      !failed
  {
    if how.Behind? || how == Never {
      assert LeadsAstray(extent, sb, disk0, all[n - 1]) || HeaderSpins(extent, disk0, rv, all[n - 1]);
    }
    NoneHaltsMeans(extent, sb, disk0, rv, all);
    padded := SlotPart(log, extent, sb, disk0, rv, used0, all, n, disk, used, keep);
    if how == AtCommit {
      assert all[..n] == all;
    }
  }

  /** What was written for some headers, as part of all. */
  lemma SlotPart(log: set<nat>, extent: seq<nat>, sb: Super, disk0: Disk, rv: Revokes, used0: set<nat>, all: seq<Pos>,
      n: nat, disk: Disk, used: set<nat>, keep: seq<bool>) returns (padded: seq<bool>)
    requires Readable(extent, sb, disk0) && n <= |all|
    requires PartRecovered(log, extent, sb, disk0, rv, used0, all[..n], disk, used, keep)
    ensures PartRecovered(log, extent, sb, disk0, rv, used0, all, disk, used, padded) && (n == |all| ==> padded == keep)
  {
    assert all == all[..n] + all[n..];
    WritesConcat(extent, sb, disk0, rv, all[..n], all[n..]);
    DataConcat(extent, sb, disk0, rv, all[..n], all[n..]);
    assert n == |all| ==> all[..n] == all;
    padded := MadeOf(log, disk0, used0, WritesOf(extent, sb, disk0, rv, all[..n]),
                     DataOf(extent, sb, disk0, rv, all[..n]), disk, used, keep,
                     WritesOf(extent, sb, disk0, rv, all), DataOf(extent, sb, disk0, rv, all));
  }

  /** The slots from `i` on are known. */
  ghost predicate KnownFrom(slots: seq<Slot>, fs: Fs, i: nat, infos: seq<Info>, used: set<nat>)
    requires Sound(slots, fs) && |infos| == |slots|
  {
    forall k :: i <= k < |slots| ==> Known(slots, fs, k, infos[k], used)
  }

  lemma MarksStep(slots: seq<Slot>, fs: Fs, i: nat, infos: seq<Info>, used: set<nat>, used': set<nat>)
    requires Sound(slots, fs) && i < |slots| == |infos| && KnownFrom(slots, fs, i, infos, used)
    requires used <= used' <= used + Blocks(slots[i].extent)
    ensures KnownFrom(slots, fs, i + 1, infos, used')
  {
    forall k | i + 1 <= k < |slots|
      ensures Known(slots, fs, k, infos[k], used')
    {
      assert Known(slots, fs, k, infos[k], used);
      MarksLocal(slots, fs, i, used, used', k);
    }
  }

  /** How a slot fares: it is completed only if its replay is undisturbed; and when nothing
      goes wrong on disk, it is then, and it hangs exactly when that has to be. */
  ghost predicate Fared(smooth: bool, slots: seq<Slot>, fs: Fs, i: nat, luck: Luck, o: Outcome, hung: bool)
    requires Sound(slots, fs) && i < |slots|
  {
    && (o.cleared ==> !hung && Clean(slots, fs, i, luck))
    && (hung ==> slots[i].dirty && !ComesAway(slots[i], fs.supers[i], fs.disk, luck))
    && (smooth && slots[i].dirty && !hung ==> ComesAway(slots[i], fs.supers[i], fs.disk, luck))
    && (smooth && slots[i].dirty && Clean(slots, fs, i, luck) ==> o.cleared)
  }

  /** One turn of the second loop of o2fsck_replay_journals(): the superblock is written when
      the recovery met no error, which may fail too. */
  method ReplaySlot(r: Replayer, slots: seq<Slot>, fs: Fs, i: nat, info: Info, supers: map<nat, Super>)
      returns (after: map<nat, Super>, hung: bool, ghost o: Outcome)
    requires Sound(slots, fs) && i < |slots| && info.ready && Known(slots, fs, i, info, r.used)
    requires i in supers && supers[i] == fs.supers[i] && LogIntact(AllBlocks(slots), fs.disk, r.disk)
    modifies r
    ensures LogIntact(AllBlocks(slots), fs.disk, r.disk)
    ensures old(r.used) <= r.used <= old(r.used) + Blocks(slots[i].extent)
    ensures Possible(JobOf(slots, fs, i, info.luck), o)
    ensures r.disk == Apply(old(r.disk), Kept(SlotWrites(slots, fs, i, info.luck), o.keep))
    ensures after == if o.cleared then supers[i := Cleared(slots[i], fs.supers[i], fs.disk, info.luck)] else supers
    ensures Fared(r.smooth, slots, fs, i, info.luck, o, hung)
  {
    after := supers;
    var failed;
    ghost var keep;
    failed, hung, keep := RecoverSlot(r, slots, fs, i, info);
    o := Outcome(keep, false);
    if !failed && !hung {
      var sb := supers[i];
      if sb.start != 0 {
        sb := sb.(start := 0, sequence := Bump(info.end));
      }
      var written := Chance(r.smooth);
      if written {
        after := supers[i := sb];
        o := Outcome(keep, true);
      }
    }
  }

  /** The first `i` jobs were done as `os` says. */
  ghost predicate SoFar(fs: Fs, jobs: seq<Job>, i: nat, os: seq<Outcome>, now: Fs)
    requires i <= |jobs|
  {
    AllPossible(jobs[..i], os) && now == After(fs, jobs[..i], os)
  }

  lemma {:induction false} AfterAdd(fs: Fs, jobs: seq<Job>, os: seq<Outcome>, o: Outcome)
    requires jobs != [] && AllPossible(Front(jobs), os) && Possible(Last(jobs), o)
    ensures AllPossible(jobs, os + [o])
    ensures var now := After(fs, Front(jobs), os);
      After(fs, jobs, os + [o]) == Fs(Apply(now.disk, Kept(Last(jobs).writes, o.keep)),
        if o.cleared then now.supers[|jobs| - 1 := Last(jobs).super] else now.supers)
  {
    AddOutcome(jobs, os, o, 0);
    ApplyConcat(fs.disk, KeptWrites(Front(jobs), os), Kept(Last(jobs).writes, o.keep));
  }

  lemma {:induction false} SoFarStep(fs: Fs, jobs: seq<Job>, i: nat, os: seq<Outcome>, now: Fs, o: Outcome, after: Fs)
    requires i < |jobs| && SoFar(fs, jobs, i, os, now) && Possible(jobs[i], o)
    requires after.disk == Apply(now.disk, Kept(jobs[i].writes, o.keep))
    requires after.supers == if o.cleared then now.supers[i := jobs[i].super] else now.supers
    ensures SoFar(fs, jobs, i + 1, os + [o], after)
  {
    TakeFront(jobs, i);
    AfterAdd(fs, jobs[..i + 1], os, o);
  }

  /** Nothing is written for a slot. */
  ghost function Nothing(job: Job): (o: Outcome)
    ensures Possible(job, o) && Kept(job.writes, o.keep) == [] && !o.cleared
  {
    var keep := seq(|job.writes|, _ => false);
    KeptNone(job.writes, keep);
    Outcome(keep, false)
  }

  lemma {:induction false} AllTrue(a: seq<bool>, b: seq<bool>)
    requires |a| == |b| && (a == [] || false !in a) && false !in b
    ensures a == b
  {
    forall k | 0 <= k < |a|
      ensures a[k] == b[k]
    {
      assert a[k] in a && b[k] in b;
    }
  }

  lemma {:induction false} AllDone(jobs: seq<Job>, os: seq<Outcome>)
    requires AllPossible(jobs, os)
    requires forall i :: 0 <= i < |jobs| ==> if jobs[i].dirty then os[i].cleared else jobs[i].writes == []
    ensures os == Full(jobs)
  {
    forall i | 0 <= i < |jobs|
      ensures os[i] == FullOne(jobs[i])
    {
      assert Possible(jobs[i], os[i]);
      AllTrue(os[i].keep, FullOne(jobs[i]).keep);
    }
  }

  function LucksOf(infos: seq<Info>): (lucks: seq<Luck>)
    ensures |lucks| == |infos| && forall i :: 0 <= i < |infos| ==> lucks[i] == infos[i].luck
  {
    seq(|infos|, i requires 0 <= i < |infos| => infos[i].luck)
  }

  /** How slot `i` fared, when the second loop came to `n` slots and may have hung in the last. */
  ghost predicate FaredAt(smooth: bool, slots: seq<Slot>, fs: Fs, lucks: seq<Luck>, os: seq<Outcome>, n: nat,
      hung: bool, i: nat)
    requires Sound(slots, fs) && n <= |slots| == |lucks| && i < n <= |os|
  {
    Fared(smooth, slots, fs, i, lucks[i], os[i], hung && i == n - 1)
  }

  ghost predicate AllFared(smooth: bool, slots: seq<Slot>, fs: Fs, lucks: seq<Luck>, os: seq<Outcome>, n: nat,
      hung: bool)
    requires Sound(slots, fs) && n <= |slots| == |lucks| && n <= |os|
  {
    && (forall i {:trigger FaredAt(smooth, slots, fs, lucks, os, n, hung, i)} :: 0 <= i < n ==>
        FaredAt(smooth, slots, fs, lucks, os, n, hung, i))
    && (forall i :: n <= i < |os| ==> !os[i].cleared) && (hung ==> n > 0)
  }

  ghost predicate AreJobs(slots: seq<Slot>, fs: Fs, lucks: seq<Luck>, jobs: seq<Job>)
    requires Sound(slots, fs) && |lucks| == |slots|
  {
    |jobs| == |slots| && forall i {:trigger JobOf(slots, fs, i, lucks[i])} :: 0 <= i < |slots| ==>
      jobs[i] == JobOf(slots, fs, i, lucks[i])
  }

  /** The second loop of o2fsck_replay_journals(), before slot `i`. */
  ghost predicate Replaying(smooth: bool, slots: seq<Slot>, fs: Fs, infos: seq<Info>, jobs: seq<Job>, i: nat,
      os: seq<Outcome>, n: nat, hung: bool, now: Fs, used: set<nat>)
  {
    && Sound(slots, fs) && i <= |slots| == |infos| && |os| == i && n <= i && (!hung ==> n == i)
    && LogIntact(AllBlocks(slots), fs.disk, now.disk) && KnownFrom(slots, fs, i, infos, used)
    && AreJobs(slots, fs, LucksOf(infos), jobs) && SoFar(fs, jobs, i, os, now)
    && AllFared(smooth, slots, fs, LucksOf(infos), os, n, hung)
    && SmoothInfos(smooth, slots, infos)
    && forall k :: i <= k < |slots| && slots[k].dirty ==> k in now.supers && now.supers[k] == fs.supers[k]
  }

  method ReplayNext(r: Replayer, slots: seq<Slot>, fs: Fs, infos: seq<Info>, i: nat, supers: map<nat, Super>,
      stuck: bool, ghost jobs: seq<Job>, ghost os: seq<Outcome>, ghost m: nat) returns (after: map<nat, Super>,
      hung: bool, ghost more: seq<Outcome>, ghost n: nat)
    requires Replaying(r.smooth, slots, fs, infos, jobs, i, os, m, stuck, Fs(r.disk, supers), r.used) && i < |slots|
    modifies r
    ensures Replaying(r.smooth, slots, fs, infos, jobs, i + 1, more, n, hung, Fs(r.disk, after), r.used)
  {
    ghost var lucks, o := LucksOf(infos), Nothing(JobOf(slots, fs, i, infos[i].luck));
    after, hung, n := supers, stuck, m;
    if !stuck {
      n := i + 1;
      if infos[i].ready {
        assert Known(slots, fs, i, infos[i], r.used);
        after, hung, o := ReplaySlot(r, slots, fs, i, infos[i], supers);
      }
    }
    MarksStep(slots, fs, i, infos, old(r.used), r.used);
    SoFarStep(fs, jobs, i, os, Fs(old(r.disk), supers), o, Fs(r.disk, after));
    more := os + [o];
    FaredStep(r.smooth, slots, fs, lucks, os, m, stuck, o, n, hung);
  }

  lemma FaredStep(smooth: bool, slots: seq<Slot>, fs: Fs, lucks: seq<Luck>, os: seq<Outcome>, m: nat, stuck: bool,
      o: Outcome, n: nat, hung: bool)
    requires Sound(slots, fs) && |os| < |slots| == |lucks| && m <= |os| && (!stuck ==> m == |os|)
    requires AllFared(smooth, slots, fs, lucks, os, m, stuck)
    requires if stuck then n == m && hung && !o.cleared
      else n == m + 1 && Fared(smooth, slots, fs, m, lucks[m], o, hung)
    ensures AllFared(smooth, slots, fs, lucks, os + [o], n, hung)
  {
    var more := os + [o];
    forall i | 0 <= i < n
      ensures FaredAt(smooth, slots, fs, lucks, more, n, hung, i)
    {
      if i < m {
        assert FaredAt(smooth, slots, fs, lucks, os, m, stuck, i);
        assert more[i] == os[i] && (hung && i == n - 1) == (stuck && i == m - 1);
      }
    }
  }

  lemma ReplayStarts(smooth: bool, slots: seq<Slot>, fs: Fs, infos: seq<Info>, used: set<nat>)
    requires Sound(slots, fs) && KnownTo(smooth, slots, fs, |slots|, infos, used)
    ensures Replaying(smooth, slots, fs, infos, Jobs(slots, fs, LucksOf(infos)), 0, [], 0, false, fs, used)
  {
    assert Jobs(slots, fs, LucksOf(infos))[..0] == [];
  }

  /** What a replay has come to.  Of the planned writes some were made, in order, and a slot's
      superblock was cleared only when all that was seen of it was written.  Unless it hung,
      in slot `n - 1`, it came to all slots; and when nothing goes wrong on disk and all
      slots are good, it is the undisturbed replay. */
  ghost predicate Replayed(smooth: bool, slots: seq<Slot>, fs: Fs, lucks: seq<Luck>, os: seq<Outcome>, n: nat,
      hung: bool, after: Fs)
    requires Sound(slots, fs)
  {
    && |lucks| == |slots| && AllPossible(Jobs(slots, fs, lucks), os)
    && after == RunEvents(fs, Part(Jobs(slots, fs, lucks), os)) && Left(slots, fs, lucks, os, after)
    && n <= |slots| && AllFared(smooth, slots, fs, lucks, os, n, hung) && (!hung ==> n == |slots|)
    && (smooth ==> lucks == Lucky(|slots|))
    && (smooth && Good(slots, fs) ==> !hung && after == RunEvents(fs, Plan(slots, fs)))
  }

  lemma GoodEnds(slots: seq<Slot>, fs: Fs, os: seq<Outcome>, n: nat, hung: bool)
    requires Good(slots, fs) && AllPossible(AllJobs(slots, fs), os) && n <= |slots| && (!hung ==> n == |slots|)
    requires AllFared(true, slots, fs, Lucky(|slots|), os, n, hung)
    ensures !hung && os == Full(AllJobs(slots, fs))
  {
    if n > 0 {
      assert Clean(slots, fs, n - 1, None);
      assert FaredAt(true, slots, fs, Lucky(|slots|), os, n, hung, n - 1);
    }
    forall i | 0 <= i < |slots|
      ensures slots[i].dirty ==> os[i].cleared
    {
      assert Clean(slots, fs, i, None);
      assert FaredAt(true, slots, fs, Lucky(|slots|), os, n, hung, i);
    }
    AllDone(AllJobs(slots, fs), os);
  }

  lemma ReplayEnds(smooth: bool, slots: seq<Slot>, fs: Fs, infos: seq<Info>, os: seq<Outcome>, n: nat, hung: bool,
      now: Fs, used: set<nat>)
    requires Sound(slots, fs) && |infos| == |slots|
    requires Replaying(smooth, slots, fs, infos, Jobs(slots, fs, LucksOf(infos)), |slots|, os, n, hung, now, used)
    ensures Replayed(smooth, slots, fs, LucksOf(infos), os, n, hung, now)
  {
    var lucks := LucksOf(infos);
    var jobs := Jobs(slots, fs, lucks);
    assert jobs[..|slots|] == jobs;
    RunPart(fs, jobs, os);
    AfterLeft(slots, fs, lucks, os);
    if smooth {
      assert lucks == Lucky(|slots|);
      if Good(slots, fs) {
        GoodEnds(slots, fs, os, n, hung);
      }
    }
  }

  /** The second loop of o2fsck_replay_journals(). */
  method ReplaySlots(r: Replayer, slots: seq<Slot>, fs: Fs, infos: seq<Info>, ghost jobs: seq<Job>)
      returns (supers: map<nat, Super>, hung: bool, ghost os: seq<Outcome>, ghost n: nat)
    requires Replaying(r.smooth, slots, fs, infos, jobs, 0, [], 0, false, Fs(r.disk, fs.supers), r.used)
    modifies r
    ensures Replaying(r.smooth, slots, fs, infos, jobs, |slots|, os, n, hung, Fs(r.disk, supers), r.used)
  {
    supers, hung, os, n := fs.supers, false, [], 0;
    for i := 0 to |slots|
      invariant Replaying(r.smooth, slots, fs, infos, jobs, i, os, n, hung, Fs(r.disk, supers), r.used)
    {
      supers, hung, os, n := ReplayNext(r, slots, fs, infos, i, supers, hung, jobs, os, n);
    }
  }

  /** o2fsck_replay_journals(). */
  method ReplayJournals(smooth: bool, slots: seq<Slot>, fs: Fs)
      returns (after: Fs, hung: bool, ghost lucks: seq<Luck>, ghost os: seq<Outcome>, ghost n: nat)
    requires Sound(slots, fs)
    ensures Replayed(smooth, slots, fs, lucks, os, n, hung, after)
  {
    var infos, used := ScanSlots(smooth, slots, fs);
    ReplayStarts(smooth, slots, fs, infos, used);
    var r := new Replayer(smooth, fs.disk, used);
    var supers;
    supers, hung, os, n := ReplaySlots(r, slots, fs, infos, Jobs(slots, fs, LucksOf(infos)));
    after, lucks := Fs(r.disk, supers), LucksOf(infos);
    ReplayEnds(smooth, slots, fs, infos, os, n, hung, after, r.used);
  }
}
