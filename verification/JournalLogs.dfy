/** What the log of a journal says, told from its blocks alone, and that the first walk and the
    plan of the recovery in fsck.ocfs2/journal.c are true to it. */
module JournalLogs {
  import opened Basics
  import opened Journal
  import opened JournalRecovery
  import opened JournalRevokes
  import opened JournalSlots
  import opened Words

  // ---------------------------------------------------------------------
  // The headers that the first walk accepts

  /** The block at `p` passes for a header of the transaction expected there. */
  predicate HeaderAt(extent: seq<nat>, disk: Disk, p: Pos) {
    && p.block < |extent| && extent[p.block] in disk
    && disk[extent[p.block]].magic == MAGIC && disk[extent[p.block]].sq == p.sq
  }

  /** Where the header behind it should be. */
  function Following(extent: seq<nat>, sb: Super, disk: Disk, p: Pos): Pos
    requires sb.first < sb.maxlen && HeaderAt(extent, disk, p)
  {
    var b := disk[extent[p.block]];
    Pos(Wrap(sb, p.block + 1 + if b.kind == Descriptor then TagRun(b.tags) else 0),
        if b.kind == Commit then Bump(p.sq) else p.sq)
  }

  /** Headers one behind the other, from `p` up to `q`. */
  predicate Follows(extent: seq<nat>, sb: Super, disk: Disk, p: Pos, trace: seq<Pos>, q: Pos)
    requires sb.first < sb.maxlen
    decreases |trace|
  {
    if trace == [] then q == p
    else
      && trace[0] == p && HeaderAt(extent, disk, p)
      && Follows(extent, sb, disk, Following(extent, sb, disk, p), trace[1..], q)
  }

  /** No tag, or one that names a block outside the file system. */
  ghost predicate BadTags(disk: Disk, tags: seq<Tag>) {
    tags == [] || exists i :: 0 <= i < TagRun(tags) && tags[i].target !in disk
  }

  /** What stops a walk other than a block that does not pass for a header: the end of the
      journal, a block that cannot be read or was marked before, or a bad tag. */
  ghost predicate Barred(extent: seq<nat>, disk: Disk, used: set<nat>, trace: seq<Pos>, q: Pos) {
    || q.block >= |extent| || extent[q.block] !in disk || extent[q.block] in used
    || (exists i :: 0 <= i < |trace| && trace[i].block < |extent| && extent[trace[i].block] == extent[q.block])
    || (KindAt(extent, disk, q) == Descriptor && BadTags(disk, disk[extent[q.block]].tags))
  }

  lemma {:induction false} GoesFollowing(extent: seq<nat>, sb: Super, disk: Disk, p: Pos)
    requires sb.first < sb.maxlen && p.block < |extent| && extent[p.block] in disk
    requires Advance(sb, disk, disk[extent[p.block]], p).Go?
    ensures HeaderAt(extent, disk, p)
    ensures Advance(sb, disk, disk[extent[p.block]], p).next == Following(extent, sb, disk, p)
  {
    WrapAdd(sb, p.block + 1, TagRun(disk[extent[p.block]].tags));
  }

  /** The first walk accepts headers with the right magic and sequence numbers only, one behind
      the other; and where it ends without failing, the block lacks one of the two. */
  lemma {:induction false} ScanMeans(extent: seq<nat>, sb: Super, disk: Disk, p: Pos, used: set<nat>, luck: Luck)
      returns (q: Pos)
    requires sb.first < sb.maxlen
    ensures var r := ScanFrom(extent, sb, disk, p, used, luck);
      && Follows(extent, sb, disk, p, r.trace, q) && q.sq == r.end
      && (forall i :: 0 <= i < |r.trace| ==> HeaderAt(extent, disk, r.trace[i]))
      && (!r.failed ==> q.block < |extent| && extent[q.block] in disk && !HeaderAt(extent, disk, q))
      && (r.failed ==> luck.Some? || Barred(extent, disk, used, r.trace, q))
    decreases |Blocks(extent) - used|
  {
    q := p;
    if p.block < |extent| && extent[p.block] !in used && extent[p.block] in disk && luck != Some(0) {
      var blk := extent[p.block];
      assert Blocks(extent) - (used + {blk}) == Blocks(extent) - used - {blk};
      assert blk in Blocks(extent) - used;
      var m := Advance(sb, disk, disk[blk], p);
      if m.Go? {
        GoesFollowing(extent, sb, disk, p);
        q := ScanMeans(extent, sb, disk, m.next, used + {blk}, Later(luck));
        var rest := ScanFrom(extent, sb, disk, m.next, used + {blk}, Later(luck)).trace;
        var trace := [p] + rest;
        assert trace[1..] == rest;
        if Barred(extent, disk, used + {blk}, rest, q) {
          BarredBefore(extent, disk, used, p, rest, q);
        }
      }
    }
  }

  lemma {:induction false} BarredBefore(extent: seq<nat>, disk: Disk, used: set<nat>, p: Pos, rest: seq<Pos>, q: Pos)
    requires p.block < |extent| && Barred(extent, disk, used + {extent[p.block]}, rest, q)
    ensures Barred(extent, disk, used, [p] + rest, q)
  {
    var trace := [p] + rest;
    if q.block < |extent| && extent[q.block] == extent[p.block] {
      assert trace[0] == p;
    } else if q.block < |extent| {
      forall i | 0 <= i < |rest|
        ensures trace[i + 1] == rest[i]
      {
      }
    }
  }

  // ---------------------------------------------------------------------
  // A log as a list of entries

  /** What a header says: these blocks are to be written, these are not to be any more, the
      transaction is complete, or nothing. */
  datatype Entry = Changes(writes: seq<Write>) | Forgets(targets: seq<nat>) | Seals | Nothing

  /** The copy of a block in the log, where it must not pass for a header. */
  function Escaped(b: Block): Block {
    if b.magic == MAGIC then b.(magic := 0) else b
  }

  ghost predicate TagHolds(disk: Disk, tag: Tag, blk: nat, w: Write) {
    && blk in disk && w.target in disk && tag.target == w.target
    && tag.escape == (w.block.magic == MAGIC) && disk[blk] == Escaped(w.block)
  }

  ghost predicate TagsHold(extent: seq<nat>, sb: Super, disk: Disk, tags: seq<Tag>, next: nat, writes: seq<Write>)
    requires Readable(extent, sb, disk)
  {
    && writes != [] && TagRun(tags) == |writes|
    && forall i :: 0 <= i < |writes| ==> TagHolds(disk, tags[i], extent[Wrap(sb, next + i)], writes[i])
  }

  /** The header at `p`, with the blocks that belong to it, says `e`. */
  ghost predicate EntryHolds(extent: seq<nat>, sb: Super, disk: Disk, p: Pos, e: Entry)
    requires Readable(extent, sb, disk)
  {
    && HeaderAt(extent, disk, p)
    && var b := disk[extent[p.block]];
    match e
    case Changes(writes) => b.kind == Descriptor && TagsHold(extent, sb, disk, b.tags, Wrap(sb, p.block + 1), writes)
    case Forgets(targets) => b.kind == Revoke && Named(b) == targets
    case Seals => b.kind == Commit
    case Nothing => b.kind == Unknown
  }

  /** From `p` on the log says `es`, and ends there. */
  ghost predicate LogHolds(extent: seq<nat>, sb: Super, disk: Disk, p: Pos, used: set<nat>, es: seq<Entry>)
    requires Readable(extent, sb, disk)
    decreases |es|
  {
    if es == [] then !HeaderAt(extent, disk, p) || Barred(extent, disk, used, [], p)
    else
      && EntryHolds(extent, sb, disk, p, es[0]) && extent[p.block] !in used
      && LogHolds(extent, sb, disk, Following(extent, sb, disk, p), used + {extent[p.block]}, es[1..])
  }

  /** The walk goes through exactly these entries. */
  lemma {:induction false} TraceHolds(extent: seq<nat>, sb: Super, disk: Disk, p: Pos, used: set<nat>, es: seq<Entry>)
    requires Readable(extent, sb, disk) && LogHolds(extent, sb, disk, p, used, es)
    ensures var trace := ScanFrom(extent, sb, disk, p, used, None).trace;
      |trace| == |es| && forall i :: 0 <= i < |es| ==> EntryHolds(extent, sb, disk, trace[i], es[i])
    decreases |es|
  {
    if es != [] {
      var blk := extent[p.block];
      EntryGoes(extent, sb, disk, p, es[0]);
      GoesFollowing(extent, sb, disk, p);
      TraceHolds(extent, sb, disk, Following(extent, sb, disk, p), used + {blk}, es[1..]);
      var rest := ScanFrom(extent, sb, disk, Following(extent, sb, disk, p), used + {blk}, None).trace;
      assert forall i :: 0 < i < |es| ==> ([p] + rest)[i] == rest[i - 1] && es[i] == es[1..][i - 1];
    }
  }

  lemma {:induction false} EntryGoes(extent: seq<nat>, sb: Super, disk: Disk, p: Pos, e: Entry)
    requires Readable(extent, sb, disk) && EntryHolds(extent, sb, disk, p, e)
    ensures Advance(sb, disk, disk[extent[p.block]], p).Go?
  {
    if e.Changes? {
      var tags := disk[extent[p.block]].tags;
      forall i | 0 <= i < TagRun(tags)
        ensures tags[i].target in disk
      {
        assert TagHolds(disk, tags[i], extent[Wrap(sb, Wrap(sb, p.block + 1) + i)], e.writes[i]);
      }
    }
  }

  // ---------------------------------------------------------------------
  // What a list of entries means

  function SealsIn(es: seq<Entry>): nat {
    if es == [] then 0 else (if es[0].Seals? then 1 else 0) + SealsIn(es[1..])
  }

  /** How many entries there are up to the last that seals a transaction. */
  function Sealed(es: seq<Entry>): (n: nat)
    ensures n <= |es|
  {
    if SealsIn(es) == 0 then 0 else 1 + Sealed(es[1..])
  }

  /** The transaction that entry `i` belongs to. */
  function Turn(es: seq<Entry>, i: nat): nat
    requires i <= |es|
  {
    SealsIn(es[..i])
  }

  /** A block of entry `i` that is forgotten in the same transaction or in a later one. */
  ghost predicate Forgotten(es: seq<Entry>, i: nat, target: nat)
    requires i <= |es|
  {
    exists j :: 0 <= j < |es| && Drops(es[j], target) && Turn(es, i) <= Turn(es, j)
  }

  predicate Drops(e: Entry, target: nat) {
    e.Forgets? && target in e.targets
  }

  ghost function Remembered(es: seq<Entry>, i: nat, writes: seq<Write>): seq<Write>
    requires i <= |es|
  {
    if writes == [] then []
    else (if Forgotten(es, i, writes[0].target) then [] else [writes[0]]) + Remembered(es, i, writes[1..])
  }

  /** What the first `n` entries want written. */
  ghost function Meant(es: seq<Entry>, n: nat): seq<Write>
    requires n <= |es|
  {
    if n == 0 then []
    else Meant(es, n - 1) + if es[n - 1].Changes? then Remembered(es, n - 1, es[n - 1].writes) else []
  }

  // ---------------------------------------------------------------------
  // The plan is what the log means

  /** Headers and entries correspond. */
  ghost predicate Matches(extent: seq<nat>, sb: Super, disk: Disk, trace: seq<Pos>, es: seq<Entry>)
    requires Readable(extent, sb, disk)
  {
    |trace| == |es| && forall i :: 0 <= i < |es| ==> EntryHolds(extent, sb, disk, trace[i], es[i])
  }

  lemma {:induction false} SealsMatch(extent: seq<nat>, sb: Super, disk: Disk, trace: seq<Pos>, es: seq<Entry>)
    requires Readable(extent, sb, disk) && Matches(extent, sb, disk, trace, es)
    ensures Commits(extent, disk, trace) == SealsIn(es) && |Committed(extent, disk, trace)| == Sealed(es)
  {
    if es != [] {
      assert EntryHolds(extent, sb, disk, trace[0], es[0]);
      assert forall i :: 0 <= i < |es[1..]| ==> trace[1..][i] == trace[i + 1] && es[1..][i] == es[i + 1];
      SealsMatch(extent, sb, disk, trace[1..], es[1..]);
    }
  }

  lemma {:induction false} TurnsMatch(extent: seq<nat>, sb: Super, disk: Disk, trace: seq<Pos>, es: seq<Entry>, i: nat)
    requires Readable(extent, sb, disk) && Matches(extent, sb, disk, trace, es) && i <= |es|
    ensures Number(extent, disk, trace, i) == Turn(es, i)
  {
    SealsMatch(extent, sb, disk, trace[..i], es[..i]);
  }

  lemma {:induction false} ForgottenIff(extent: seq<nat>, sb: Super, disk: Disk, trace: seq<Pos>, es: seq<Entry>,
      i: nat, target: nat)
    requires Readable(extent, sb, disk) && Matches(extent, sb, disk, trace, es) && i < |es|
    ensures RevokedSince(extent, disk, trace, i, target) <==> Forgotten(es, i, target)
  {
    TurnsMatch(extent, sb, disk, trace, es, i);
    forall j | 0 <= j < |es|
      ensures Number(extent, disk, trace, j) == Turn(es, j)
      ensures Names(extent, disk, trace[j], target) <==> Drops(es[j], target)
    {
      TurnsMatch(extent, sb, disk, trace, es, j);
      assert EntryHolds(extent, sb, disk, trace[j], es[j]);
    }
  }

  lemma {:induction false} TagsMean(extent: seq<nat>, sb: Super, disk: Disk, rv: Revokes, sq: nat, tags: seq<Tag>,
      next: nat, writes: seq<Write>, es: seq<Entry>, k: nat, i: nat)
    requires Readable(extent, sb, disk) && TagsHold(extent, sb, disk, tags, next, writes) && i <= |writes|
    requires k <= |es| && forall t: nat :: Judge(rv, t, sq) == Revoked <==> Forgotten(es, k, t)
    ensures TagWrites(extent, sb, disk, rv, sq, tags, next, i, |writes|) == Remembered(es, k, writes[i..])
    decreases |writes| - i
  {
    if i < |writes| {
      TagsMean(extent, sb, disk, rv, sq, tags, next, writes, es, k, i + 1);
      assert TagHolds(disk, tags[i], extent[Wrap(sb, next + i)], writes[i]);
      assert writes[i..][0] == writes[i] && writes[i..][1..] == writes[i + 1..];
      assert Restored(disk[extent[Wrap(sb, next + i)]], tags[i].escape) == writes[i].block;
    }
  }

  lemma {:induction false} HeaderMeans(extent: seq<nat>, sb: Super, disk: Disk, first: nat, trace: seq<Pos>,
      es: seq<Entry>, i: nat)
    requires Readable(extent, sb, disk) && Matches(extent, sb, disk, trace, es) && i < |es|
    requires Numbered(extent, disk, first, trace)
    ensures HeaderWrites(extent, sb, disk, Records(extent, disk, trace), trace[i])
         == if es[i].Changes? then Remembered(es, i, es[i].writes) else []
  {
    var p, rv := trace[i], Records(extent, disk, trace);
    assert EntryHolds(extent, sb, disk, p, es[i]);
    if es[i].Changes? {
      forall t: nat
        ensures Judge(rv, t, p.sq) == Revoked <==> Forgotten(es, i, t)
      {
        SkippedIff(extent, disk, first, trace, i, t);
        ForgottenIff(extent, sb, disk, trace, es, i, t);
      }
      var writes := es[i].writes;
      TagsMean(extent, sb, disk, rv, p.sq, disk[extent[p.block]].tags, Wrap(sb, p.block + 1), writes, es, i, 0);
      assert writes[0..] == writes;
    }
  }

  lemma {:induction false} WritesMore(extent: seq<nat>, sb: Super, disk: Disk, rv: Revokes, trace: seq<Pos>, n: nat)
    requires Readable(extent, sb, disk) && n < |trace|
    ensures WritesOf(extent, sb, disk, rv, trace[..n + 1])
         == WritesOf(extent, sb, disk, rv, trace[..n]) + HeaderWrites(extent, sb, disk, rv, trace[n])
  {
    TakeMore(trace, n);
    WritesConcat(extent, sb, disk, rv, trace[..n], [trace[n]]);
    OneHeader(extent, sb, disk, rv, trace[n]);
  }

  lemma {:induction false} PrefixMeans(extent: seq<nat>, sb: Super, disk: Disk, first: nat, trace: seq<Pos>,
      es: seq<Entry>, n: nat)
    requires Readable(extent, sb, disk) && Matches(extent, sb, disk, trace, es) && n <= |es|
    requires Numbered(extent, disk, first, trace)
    ensures WritesOf(extent, sb, disk, Records(extent, disk, trace), trace[..n]) == Meant(es, n)
  {
    if n > 0 {
      var rv := Records(extent, disk, trace);
      PrefixMeans(extent, sb, disk, first, trace, es, n - 1);
      HeaderMeans(extent, sb, disk, first, trace, es, n - 1);
      var more := HeaderWrites(extent, sb, disk, rv, trace[n - 1]);
      assert WritesOf(extent, sb, disk, rv, trace[..n]) == Meant(es, n - 1) + more by {
        WritesMore(extent, sb, disk, rv, trace, n - 1);
      }
    }
  }

  lemma {:induction false} MatchReplayed(extent: seq<nat>, sb: Super, disk: Disk, first: nat, trace: seq<Pos>,
      es: seq<Entry>)
    requires Readable(extent, sb, disk) && Matches(extent, sb, disk, trace, es) && Numbered(extent, disk, first, trace)
    ensures WritesOf(extent, sb, disk, Records(extent, disk, trace), Committed(extent, disk, trace))
         == Meant(es, Sealed(es))
    ensures Commits(extent, disk, trace) == SealsIn(es)
  {
    var done := Committed(extent, disk, trace);
    SealsMatch(extent, sb, disk, trace, es);
    assert done == trace[..|done|];
    PrefixMeans(extent, sb, disk, first, trace, es, |done|);
  }

  lemma {:induction false} ScanReplayed(extent: seq<nat>, sb: Super, disk: Disk, p: Pos, used: set<nat>,
      es: seq<Entry>, trace: seq<Pos>)
    requires Readable(extent, sb, disk) && p.sq < WORD32 && LogHolds(extent, sb, disk, p, used, es)
    requires trace == ScanFrom(extent, sb, disk, p, used, None).trace
    ensures WritesOf(extent, sb, disk, Records(extent, disk, trace), Committed(extent, disk, trace))
         == Meant(es, Sealed(es))
    ensures Commits(extent, disk, trace) == SealsIn(es)
  {
    TraceHolds(extent, sb, disk, p, used, es);
    ScanNumbered(extent, sb, disk, p, used, None);
    MatchReplayed(extent, sb, disk, p.sq, trace, es);
  }

  /** The replay of a log plans exactly the blocks of its sealed transactions, in order, as they
      were before they were logged, but for those forgotten in the same transaction or in a
      later one, sealed or not. */
  lemma {:induction false} LogReplayed(slot: Slot, sb: Super, disk: Disk, es: seq<Entry>)
    requires |slot.extent| > 0 && Readable(slot.extent, sb, disk) && sb.start != 0 && sb.sequence < WORD32
    requires LogHolds(slot.extent, sb, disk, Pos(sb.start, sb.sequence), {slot.extent[0]}, es)
    ensures WritesSeen(slot, sb, disk, None) == Meant(es, Sealed(es))
    ensures Seen(slot, sb, disk, None).end == Forward(sb.sequence, SealsIn(es))
  {
    var p := Pos(sb.start, sb.sequence);
    ScanReplayed(slot.extent, sb, disk, p, {slot.extent[0]}, es, Seen(slot, sb, disk, None).trace);
    EndForward(slot.extent, sb, disk, p, {slot.extent[0]}, None);
  }

  // ---------------------------------------------------------------------
  // The sequence number of a cleared journal

  lemma {:induction false} ForwardOne(sq: nat, n: nat)
    ensures Bump(Forward(sq, n)) == Forward(sq, n + 1)
    decreases n
  {
    if n > 0 {
      ForwardOne(Bump(sq), n - 1);
    }
  }

  lemma {:induction false} ForwardNewer(first: nat, n: nat, k: nat, y: nat)
    requires first < WORD32 && k < n < WORD32 / 2 && y == (first + k) % WORD32
    ensures SeqGt(Forward(first, n), y)
  {
    ForwardAdds(first, n);
    SeqCompare(first, n, k);
  }

  /** It is one more than the commit blocks seen, and newer than that of every header seen, so
      that none of these is taken for part of the next log. */
  lemma {:induction false} SequenceMovesOn(slot: Slot, sb: Super, disk: Disk, luck: Luck, i: nat)
    requires |slot.extent| > 0 && Readable(slot.extent, sb, disk) && sb.start != 0 && sb.sequence < WORD32
    requires i < |Seen(slot, sb, disk, luck).trace|
    ensures var trace, after := Seen(slot, sb, disk, luck).trace, Cleared(slot, sb, disk, luck);
      && after.start == 0 && after.sequence == Forward(sb.sequence, Commits(slot.extent, disk, trace) + 1)
      && SeqGt(after.sequence, trace[i].sq)
  {
    var p := Pos(sb.start, sb.sequence);
    var trace := Seen(slot, sb, disk, luck).trace;
    EndForward(slot.extent, sb, disk, p, {slot.extent[0]}, luck);
    ForwardOne(sb.sequence, Commits(slot.extent, disk, trace));
    SequenceSeen(slot.extent, sb, disk, p, luck, trace, i);
  }

  lemma {:induction false} SequenceSeen(extent: seq<nat>, sb: Super, disk: Disk, p: Pos, luck: Luck, trace: seq<Pos>,
      i: nat)
    requires |extent| > 0 && Readable(extent, sb, disk) && p.sq < WORD32
    requires trace == ScanFrom(extent, sb, disk, p, {extent[0]}, luck).trace && i < |trace|
    ensures SeqGt(Forward(p.sq, Commits(extent, disk, trace) + 1), trace[i].sq)
  {
    ScanNumbered(extent, sb, disk, p, {extent[0]}, luck);
    NumberGrows(extent, disk, trace, i, |trace|);
    assert trace[..|trace|] == trace;
    FewHeaders(extent, sb, disk, p, luck);
    ForwardNewer(p.sq, Commits(extent, disk, trace) + 1, Number(extent, disk, trace, i), trace[i].sq);
  }

  lemma {:induction false} FewHeaders(extent: seq<nat>, sb: Super, disk: Disk, p: Pos, luck: Luck)
    requires |extent| > 0 && Readable(extent, sb, disk)
    ensures |ScanFrom(extent, sb, disk, p, {extent[0]}, luck).trace| + 1 < WORD32 / 2
  {
    TraceBound(extent, sb, disk, p, {extent[0]}, luck);
    BlocksBound(extent);
    assert extent[0] in Blocks(extent);
    assert Blocks(extent) == (Blocks(extent) - {extent[0]}) + {extent[0]};
  }
}
