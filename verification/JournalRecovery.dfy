/** The recovery walk over a journal in fsck.ocfs2/journal.c, which writes the logged blocks
    back. */
module JournalRecovery {
  import opened Basics
  import opened Journal
  import opened JournalRevokes
  import opened Oracle
  import opened Words

  // ---------------------------------------------------------------------
  // One run of data blocks

  /** The write that tag `i` asks for, and the log block it comes from. */
  function TagWrite(extent: seq<nat>, sb: Super, disk: Disk, tags: seq<Tag>, next: nat, i: nat): Write
    requires sb.first < sb.maxlen <= |extent| && i < |tags| && forall b :: b in extent ==> b in disk
  {
    Write(tags[i].target, Restored(disk[extent[Wrap(sb, next + i)]], tags[i].escape))
  }

  lemma {:induction false} TagWritesEnd(extent: seq<nat>, sb: Super, disk: Disk, rv: Revokes, sq: nat, tags: seq<Tag>,
      next: nat, i: nat, n: nat)
    requires sb.first < sb.maxlen <= |extent| && i <= n < |tags| && forall b :: b in extent ==> b in disk
    ensures TagWrites(extent, sb, disk, rv, sq, tags, next, i, n + 1)
         == TagWrites(extent, sb, disk, rv, sq, tags, next, i, n)
            + if Judge(rv, tags[n].target, sq) == Revoked then [] else [TagWrite(extent, sb, disk, tags, next, n)]
    decreases n - i
  {
    if i < n {
      TagWritesEnd(extent, sb, disk, rv, sq, tags, next, i + 1, n);
      PlusAssoc(if Judge(rv, tags[i].target, sq) == Revoked then [] else [TagWrite(extent, sb, disk, tags, next, i)],
                TagWrites(extent, sb, disk, rv, sq, tags, next, i + 1, n),
                if Judge(rv, tags[n].target, sq) == Revoked then [] else [TagWrite(extent, sb, disk, tags, next, n)]);
    }
  }

  lemma {:induction false} DataBlocksEnd(extent: seq<nat>, sb: Super, rv: Revokes, sq: nat, tags: seq<Tag>,
      next: nat, i: nat, n: nat)
    requires sb.first < sb.maxlen <= |extent| && i <= n < |tags|
    ensures DataBlocks(extent, sb, rv, sq, tags, next, i, n + 1)
         == DataBlocks(extent, sb, rv, sq, tags, next, i, n)
            + if Judge(rv, tags[n].target, sq) == Revoked then [] else [extent[Wrap(sb, next + n)]]
    decreases n - i
  {
    if i < n {
      DataBlocksEnd(extent, sb, rv, sq, tags, next, i + 1, n);
    }
  }

  /** The first tags of a run, and the others. */
  lemma {:induction false} RunSplit(extent: seq<nat>, sb: Super, disk: Disk, rv: Revokes, sq: nat, tags: seq<Tag>,
      next: nat, m: nat, n: nat)
    requires sb.first < sb.maxlen <= |extent| && m <= n <= |tags| && forall b :: b in extent ==> b in disk
    ensures TagWrites(extent, sb, disk, rv, sq, tags, next, 0, m)
         <= TagWrites(extent, sb, disk, rv, sq, tags, next, 0, n)
    ensures DataBlocks(extent, sb, rv, sq, tags, next, 0, m) <= DataBlocks(extent, sb, rv, sq, tags, next, 0, n)
    decreases n
  {
    if m < n {
      RunSplit(extent, sb, disk, rv, sq, tags, next, m, n - 1);
      TagWritesEnd(extent, sb, disk, rv, sq, tags, next, 0, n - 1);
      DataBlocksEnd(extent, sb, rv, sq, tags, next, 0, n - 1);
    }
  }

  lemma {:induction false} UnmarkedEnd(used: set<nat>, list: seq<nat>, b: nat)
    ensures Unmarked(used, list + [b]) <==> Unmarked(used, list) && b !in used + Blocks(list)
    ensures used + Blocks(list + [b]) == used + Blocks(list) + {b}
  {
    UnmarkedConcat(used, list, [b]);
    assert Unmarked(used + Blocks(list), [b]) <==> b !in used + Blocks(list);
    assert forall x :: x in list + [b] <==> x in list || x == b;
  }

  /** After some of a list of writes: the journals are intact, and only blocks that hold
      their data were marked. */
  ghost predicate Made(log: set<nat>, disk0: Disk, used0: set<nat>, writes: seq<Write>, data: seq<nat>,
      disk: Disk, used: set<nat>, keep: seq<bool>)
  {
    && LogIntact(log, disk0, disk) && |keep| == |writes| && disk == Apply(disk0, Kept(writes, keep))
    && used0 <= used <= used0 + Blocks(data)
  }

  /** After some writes from a list of log blocks, each made or not: the journals are
      intact, the blocks are marked, and it failed if one was not made.  When nothing goes
      wrong on disk, that is because a block was marked before. */
  ghost predicate Written(log: set<nat>, smooth: bool, disk0: Disk, used0: set<nat>, writes: seq<Write>, data: seq<nat>,
      disk: Disk, used: set<nat>, keep: seq<bool>)
  {
    && Made(log, disk0, used0, writes, data, disk, used, keep)
    && used == used0 + Blocks(data) && (smooth ==> (false in keep <==> !Unmarked(used0, data)))
    && (false !in keep ==> Unmarked(used0, data))
  }

  lemma {:induction false} WrittenOne(log: set<nat>, smooth: bool, disk0: Disk, used0: set<nat>, writes: seq<Write>,
      data: seq<nat>, disk: Disk, used: set<nat>, keep: seq<bool>, blk: nat, w: Write, disk': Disk, done: bool)
    requires Written(log, smooth, disk0, used0, writes, data, disk, used, keep)
    requires w.target in disk && w.target !in log && disk' == (if done then disk[w.target := w.block] else disk)
    requires (blk in used ==> !done) && (smooth && blk !in used ==> done)
    ensures Written(log, smooth, disk0, used0, writes + [w], data + [blk], disk', used + {blk}, keep + [done])
  {
    KeptOne(disk0, writes, keep, w, done);
    UnmarkedEnd(used0, data, blk);
    assert false in keep + [done] <==> false in keep || !done;
  }

  lemma {:induction false} MadeMore(log: set<nat>, disk0: Disk, used0: set<nat>, wa: seq<Write>, da: seq<nat>,
      disk1: Disk, used1: set<nat>, ka: seq<bool>,
      wb: seq<Write>, db: seq<nat>, disk: Disk, used: set<nat>, kb: seq<bool>)
    requires Made(log, disk0, used0, wa, da, disk1, used1, ka)
    requires Made(log, disk1, used1, wb, db, disk, used, kb)
    ensures Made(log, disk0, used0, wa + wb, da + db, disk, used, ka + kb)
  {
    KeptMore(disk0, wa, wb, ka, kb);
    assert Blocks(da + db) == Blocks(da) + Blocks(db);
  }

  lemma {:induction false} WrittenMore(log: set<nat>, smooth: bool, disk0: Disk, used0: set<nat>, wa: seq<Write>,
      da: seq<nat>, disk1: Disk, used1: set<nat>, ka: seq<bool>, wb: seq<Write>, db: seq<nat>, disk: Disk,
      used: set<nat>, kb: seq<bool>)
    requires Written(log, smooth, disk0, used0, wa, da, disk1, used1, ka)
    requires Written(log, smooth, disk1, used1, wb, db, disk, used, kb)
    ensures Written(log, smooth, disk0, used0, wa + wb, da + db, disk, used, ka + kb)
  {
    MadeMore(log, disk0, used0, wa, da, disk1, used1, ka, wb, db, disk, used, kb);
    UnmarkedConcat(used0, da, db);
    assert Blocks(da + db) == Blocks(da) + Blocks(db);
    assert false in ka + kb <==> false in ka || false in kb;
  }

  lemma {:induction false} WrittenNone(log: set<nat>, smooth: bool, disk: Disk, used: set<nat>)
    ensures Written(log, smooth, disk, used, [], [], disk, used, [])
  {
    assert used == used + Blocks([]);
  }

  lemma {:induction false} KeptNone(writes: seq<Write>, keep: seq<bool>)
    requires |keep| == |writes| && true !in keep
    ensures Kept(writes, keep) == []
  {
    if writes != [] {
      KeptNone(writes[1..], keep[1..]);
    }
  }

  /** Writes of a longer list that were not come to. */
  lemma {:induction false} MadeOf(log: set<nat>, disk0: Disk, used0: set<nat>, writes: seq<Write>, data: seq<nat>,
      disk: Disk, used: set<nat>, keep: seq<bool>, longer: seq<Write>, more: seq<nat>) returns (padded: seq<bool>)
    requires Made(log, disk0, used0, writes, data, disk, used, keep) && writes <= longer && data <= more
    ensures Made(log, disk0, used0, longer, more, disk, used, padded)
    ensures keep <= padded && (writes == longer ==> padded == keep)
  {
    var rest := longer[|writes|..];
    var none := seq(|rest|, _ => false);
    assert longer == writes + rest && more == data + more[|data|..];
    KeptConcat(writes, rest, keep, none);
    KeptNone(rest, none);
    assert Kept(writes, keep) + [] == Kept(writes, keep);
    padded := keep + none;
  }

  /** After `i` blocks of a run that began at `start`. */
  ghost predicate OnRun(sb: Super, next: nat, start: nat, i: nat)
    requires sb.first < sb.maxlen
  {
    Wrap(sb, next) == Wrap(sb, start + i) && (i > 0 ==> next == Wrap(sb, start + (i - 1)) + 1)
  }

  method BlockOfRun(sb: Super, next: nat, ghost start: nat, ghost i: nat) returns (pos: nat, after: nat)
    requires sb.first < sb.maxlen && OnRun(sb, next, start, i)
    ensures pos == Wrap(sb, start + i) && OnRun(sb, after, start, i + 1)
  {
    pos := JWrap(sb, next);
    after := pos + 1;
    WrapAdd(sb, start + i, 1);
  }

  /** After `i` tags of a run. */
  ghost predicate Midway(log: set<nat>, smooth: bool, extent: seq<nat>, sb: Super, rv: Revokes, sq: nat, tags: seq<Tag>,
      start: nat, i: nat, disk0: Disk, used0: set<nat>, disk: Disk, used: set<nat>, keep: seq<bool>)
    requires Readable(extent, sb, disk0) && i <= |tags|
  {
    Written(log, smooth, disk0, used0, TagWrites(extent, sb, disk0, rv, sq, tags, start, 0, i),
            DataBlocks(extent, sb, rv, sq, tags, start, 0, i), disk, used, keep)
  }

  lemma {:induction false} MidwayStep(log: set<nat>, smooth: bool, extent: seq<nat>, sb: Super, rv: Revokes, sq: nat,
      tags: seq<Tag>, start: nat, i: nat, disk0: Disk, used0: set<nat>, disk: Disk, used: set<nat>, keep: seq<bool>,
      disk': Disk, done: bool)
    requires Readable(extent, sb, disk0) && Blocks(extent) <= log && i < TagRun(tags) && Outside(log, disk0, tags)
    requires Midway(log, smooth, extent, sb, rv, sq, tags, start, i, disk0, used0, disk, used, keep)
    requires Judge(rv, tags[i].target, sq) != Revoked
    requires var blk := extent[Wrap(sb, start + i)];
      && blk in disk && disk' == (if done then disk[tags[i].target := Restored(disk[blk], tags[i].escape)] else disk)
      && (blk in used ==> !done) && (smooth && blk !in used ==> done)
    ensures Midway(log, smooth, extent, sb, rv, sq, tags, start, i + 1, disk0, used0, disk',
                   used + {extent[Wrap(sb, start + i)]}, keep + [done])
  {
    var blk := extent[Wrap(sb, start + i)];
    assert blk in Blocks(extent);
    TagWritesEnd(extent, sb, disk0, rv, sq, tags, start, 0, i);
    DataBlocksEnd(extent, sb, rv, sq, tags, start, 0, i);
    var w := TagWrite(extent, sb, disk0, tags, start, i);
    WrittenOne(log, smooth, disk0, used0, TagWrites(extent, sb, disk0, rv, sq, tags, start, 0, i),
               DataBlocks(extent, sb, rv, sq, tags, start, 0, i), disk, used, keep, blk, w, disk', done);
  }

  /** A tag that is passed over changes nothing. */
  lemma {:induction false} MidwaySkip(log: set<nat>, smooth: bool, extent: seq<nat>, sb: Super, rv: Revokes, sq: nat,
      tags: seq<Tag>, start: nat, i: nat, disk0: Disk, used0: set<nat>, disk: Disk, used: set<nat>, keep: seq<bool>)
    requires Readable(extent, sb, disk0) && i < TagRun(tags) && Judge(rv, tags[i].target, sq) == Revoked
    requires Midway(log, smooth, extent, sb, rv, sq, tags, start, i, disk0, used0, disk, used, keep)
    ensures Midway(log, smooth, extent, sb, rv, sq, tags, start, i + 1, disk0, used0, disk, used, keep)
  {
    TagWritesEnd(extent, sb, disk0, rv, sq, tags, start, 0, i);
    DataBlocksEnd(extent, sb, rv, sq, tags, start, 0, i);
    PlusNone(TagWrites(extent, sb, disk0, rv, sq, tags, start, 0, i));
    PlusNone(DataBlocks(extent, sb, rv, sq, tags, start, 0, i));
  }

  // ---------------------------------------------------------------------
  // Where the two walks go

  /** The `n` blocks from `next` on end on the last block of the log. */
  predicate EndsOnLast(sb: Super, next: nat, n: nat)
    requires sb.first < sb.maxlen && n > 0
  {
    Wrap(sb, next + (n - 1)) == sb.maxlen - 1
  }

  /** After a run the first walk has wrapped and the recovery has not: they agree
      exactly when the run does not end on the last block of the log. */
  lemma {:induction false} RunEnd(sb: Super, next: nat, n: nat)
    requires sb.first < sb.maxlen && n > 0
    ensures Wrap(sb, next + (n - 1)) + 1 == Wrap(sb, next + n) <==> !EndsOnLast(sb, next, n)
  {
    WrapAdd(sb, next + (n - 1), 1);
  }

  /** A descriptor after which the recovery goes astray. */
  predicate LeadsAstray(extent: seq<nat>, sb: Super, disk: Disk, p: Pos)
    requires sb.first < sb.maxlen
  {
    && KindAt(extent, disk, p) == Descriptor
    && var n := TagRun(disk[extent[p.block]].tags);
    && n > 0 && EndsOnLast(sb, Wrap(sb, p.block + 1), n)
  }

  /** One of the first `n` tags of a run has the search for revoked blocks go on for ever. */
  predicate RunSpins(rv: Revokes, sq: nat, tags: seq<Tag>, n: nat)
    requires n <= |tags|
  {
    exists i :: 0 <= i < n && Judge(rv, tags[i].target, sq) == Spins
  }

  lemma {:induction false} SpinStep(rv: Revokes, sq: nat, tags: seq<Tag>, n: nat)
    requires n < |tags|
    ensures RunSpins(rv, sq, tags, n + 1) <==> RunSpins(rv, sq, tags, n) || Judge(rv, tags[n].target, sq) == Spins
  {
  }

  lemma {:induction false} SpinLater(rv: Revokes, sq: nat, tags: seq<Tag>, m: nat, n: nat)
    requires m <= n <= |tags| && RunSpins(rv, sq, tags, m)
    ensures RunSpins(rv, sq, tags, n)
  {
  }

  predicate HeaderSpins(extent: seq<nat>, disk: Disk, rv: Revokes, p: Pos) {
    && KindAt(extent, disk, p) == Descriptor
    && var tags := disk[extent[p.block]].tags;
    && RunSpins(rv, p.sq, tags, TagRun(tags))
  }

  /** A header that leads the recovery astray, or that it does not come away from. */
  predicate Halts(extent: seq<nat>, sb: Super, disk: Disk, rv: Revokes, p: Pos)
    requires sb.first < sb.maxlen
  {
    HeaderSpins(extent, disk, rv, p) || LeadsAstray(extent, sb, disk, p)
  }

  /** What the recovery gets to: all up to the first such header. */
  function Reached(extent: seq<nat>, sb: Super, disk: Disk, rv: Revokes, ps: seq<Pos>): (r: seq<Pos>)
    requires sb.first < sb.maxlen
    ensures r <= ps
  {
    if ps == [] then []
    else if Halts(extent, sb, disk, rv, ps[0]) then [ps[0]]
    else [ps[0]] + Reached(extent, sb, disk, rv, ps[1..])
  }

  predicate NoneHalts(extent: seq<nat>, sb: Super, disk: Disk, rv: Revokes, ps: seq<Pos>)
    requires sb.first < sb.maxlen
  {
    ps == [] || (!Halts(extent, sb, disk, rv, ps[0]) && NoneHalts(extent, sb, disk, rv, ps[1..]))
  }

  ghost predicate NoneAstray(extent: seq<nat>, sb: Super, disk: Disk, ps: seq<Pos>)
    requires sb.first < sb.maxlen
  {
    forall i :: 0 <= i < |ps| ==> !LeadsAstray(extent, sb, disk, ps[i])
  }

  ghost predicate NoneSpins(extent: seq<nat>, disk: Disk, rv: Revokes, ps: seq<Pos>) {
    forall i :: 0 <= i < |ps| ==> !HeaderSpins(extent, disk, rv, ps[i])
  }

  lemma {:induction false} NoneHaltsMeans(extent: seq<nat>, sb: Super, disk: Disk, rv: Revokes, ps: seq<Pos>)
    requires sb.first < sb.maxlen
    ensures NoneHalts(extent, sb, disk, rv, ps) <==> NoneAstray(extent, sb, disk, ps) && NoneSpins(extent, disk, rv, ps)
  {
    if ps != [] {
      NoneHaltsMeans(extent, sb, disk, rv, ps[1..]);
      assert forall i :: 0 <= i < |ps[1..]| ==> ps[1..][i] == ps[i + 1];
      assert forall i :: 0 < i < |ps| ==> ps[i] == ps[1..][i - 1];
    }
  }

  lemma {:induction false} ReachedWhole(extent: seq<nat>, sb: Super, disk: Disk, rv: Revokes, ps: seq<Pos>)
    requires sb.first < sb.maxlen && (ps != [] ==> KindAt(extent, disk, ps[|ps| - 1]) == Commit)
    ensures Reached(extent, sb, disk, rv, ps) == ps <==> NoneHalts(extent, sb, disk, rv, ps)
  {
    if ps != [] {
      ReachedWhole(extent, sb, disk, rv, ps[1..]);
      assert ps == [ps[0]] + ps[1..];
    }
  }

  lemma {:induction false} CommittedEnds(extent: seq<nat>, disk: Disk, trace: seq<Pos>)
    ensures var c := Committed(extent, disk, trace);
      c != [] ==> KindAt(extent, disk, c[|c| - 1]) == Commit
  {
    if Commits(extent, disk, trace) > 0 {
      CommittedEnds(extent, disk, trace[1..]);
    }
  }

  /** Descriptors that are terminated and name only blocks outside the journals. */
  ghost predicate Replayable(log: set<nat>, extent: seq<nat>, sb: Super, disk: Disk, ps: seq<Pos>)
    requires Readable(extent, sb, disk)
  {
    forall i :: 0 <= i < |ps| ==> HeaderReplayable(log, extent, disk, ps[i])
  }

  ghost predicate HeaderReplayable(log: set<nat>, extent: seq<nat>, disk: Disk, p: Pos) {
    && p.block < |extent|
    && (KindAt(extent, disk, p) == Descriptor ==>
        var tags := disk[extent[p.block]].tags;
        Terminated(tags) && Outside(log, disk, tags))
  }

  /** Where the recovery goes from a header. */
  function RecoverTo(sb: Super, b: Block, p: Pos): Pos
    requires sb.first < sb.maxlen && (b.kind == Descriptor ==> Terminated(b.tags))
  {
    var next := Wrap(sb, p.block + 1);
    if b.kind == Descriptor then Pos(Wrap(sb, next + (TagRun(b.tags) - 1)) + 1, p.sq)
    else Pos(next, if b.kind == Commit then Bump(p.sq) else p.sq)
  }

  /** That is where the first walk went, unless it is behind the log. */
  lemma {:induction false} SameWay(extent: seq<nat>, sb: Super, disk: Disk, p: Pos)
    requires sb.first < sb.maxlen && p.block < |extent| && extent[p.block] in disk
    requires var b := disk[extent[p.block]];
      Advance(sb, disk, b, p).Go? && (b.kind == Descriptor ==> Terminated(b.tags))
    ensures var b := disk[extent[p.block]];
      if LeadsAstray(extent, sb, disk, p) then RecoverTo(sb, b, p).block == sb.maxlen
      else RecoverTo(sb, b, p).block < sb.maxlen && Advance(sb, disk, b, p) == Go(RecoverTo(sb, b, p))
  {
    var b := disk[extent[p.block]];
    if b.kind == Descriptor {
      RunEnd(sb, Wrap(sb, p.block + 1), TagRun(b.tags));
    }
  }

  // ---------------------------------------------------------------------
  // Along the first walk

  /** From position `p`, the first walk had `rest` left to its last commit. */
  ghost predicate Ahead(extent: seq<nat>, sb: Super, disk: Disk, p: Pos, mark: set<nat>, luck: Luck, final: nat,
      rest: seq<Pos>)
    requires Readable(extent, sb, disk)
  {
    var r := ScanFrom(extent, sb, disk, p, mark, luck);
    p.sq < WORD32 && r.end == final && rest == Committed(extent, disk, r.trace)
  }

  /** The recovery's stopping test tells whether any commit is left. */
  lemma {:induction false} LoopGuard(extent: seq<nat>, sb: Super, disk: Disk, p: Pos, mark: set<nat>, luck: Luck,
      final: nat, rest: seq<Pos>)
    requires Readable(extent, sb, disk) && Ahead(extent, sb, disk, p, mark, luck, final, rest)
    ensures (SeqGeq(p.sq, final) <==> rest == []) && (rest == [] ==> p.sq == final)
  {
    var trace := ScanFrom(extent, sb, disk, p, mark, luck).trace;
    EndIsAhead(extent, sb, disk, p, mark, luck);
    ScanShort(extent, sb, disk, p, mark, luck);
    SeqOrder(p.sq, Commits(extent, disk, trace));
  }

  /** One committed header: it was accepted, and the walk went on from where it leads. */
  lemma {:induction false} AheadStep(extent: seq<nat>, sb: Super, disk: Disk, p: Pos, mark: set<nat>, luck: Luck,
      final: nat, rest: seq<Pos>)
    requires Readable(extent, sb, disk) && Ahead(extent, sb, disk, p, mark, luck, final, rest) && rest != []
    ensures p.block < |extent| && rest[0] == p
    ensures var m := Advance(sb, disk, disk[extent[p.block]], p);
      m.Go? && Ahead(extent, sb, disk, m.next, mark + {extent[p.block]}, Later(luck), final, rest[1..])
    ensures KindAt(extent, disk, p) == Descriptor ==> |rest| > 1 && rest[1].block < sb.maxlen
  {
    ScanUnfold(extent, sb, disk, p, mark, luck);
    var r := ScanFrom(extent, sb, disk, p, mark, luck);
    if KindAt(extent, disk, p) == Descriptor {
      assert Commits(extent, disk, r.trace[1..]) > 0;
      assert rest[1..] == Committed(extent, disk, r.trace[1..]);
      var m := Advance(sb, disk, disk[extent[p.block]], p);
      ScanUnfold(extent, sb, disk, m.next, mark + {extent[p.block]}, Later(luck));
    }
  }

  /** Recovery writes outside the journals, so it still finds the headers and the
      logged blocks as the first walk did. */
  lemma {:induction false} HeaderIntact(log: set<nat>, extent: seq<nat>, sb: Super, was: Disk, now: Disk, rv: Revokes,
      p: Pos)
    requires Readable(extent, sb, was) && LogIntact(log, was, now) && Blocks(extent) <= log
    requires HeaderReplayable(log, extent, was, p)
    ensures Readable(extent, sb, now) && HeaderReplayable(log, extent, now, p)
    ensures now[extent[p.block]] == was[extent[p.block]]
    ensures Advance(sb, now, now[extent[p.block]], p) == Advance(sb, was, was[extent[p.block]], p)
    ensures LeadsAstray(extent, sb, now, p) <==> LeadsAstray(extent, sb, was, p)
    ensures HeaderSpins(extent, now, rv, p) <==> HeaderSpins(extent, was, rv, p)
    ensures HeaderData(extent, sb, now, rv, p) == HeaderData(extent, sb, was, rv, p)
    ensures HeaderWrites(extent, sb, now, rv, p) == HeaderWrites(extent, sb, was, rv, p)
  {
    assert forall b :: b in extent ==> b in Blocks(extent);
    var tags := was[extent[p.block]].tags;
    assert CountTags(now, tags) == CountTags(was, tags);
    TagWritesIntact(extent, sb, was, now, rv, p.sq, tags, Wrap(sb, p.block + 1), 0, TagRun(tags));
  }

  lemma {:induction false} TagWritesIntact(extent: seq<nat>, sb: Super, was: Disk, now: Disk, rv: Revokes, sq: nat,
      tags: seq<Tag>, next: nat, i: nat, n: nat)
    requires sb.first < sb.maxlen <= |extent| && n <= |tags|
    requires forall b :: b in extent ==> b in was && b in now && was[b] == now[b]
    ensures TagWrites(extent, sb, was, rv, sq, tags, next, i, n) == TagWrites(extent, sb, now, rv, sq, tags, next, i, n)
    decreases n - i
  {
    if i < n {
      TagWritesIntact(extent, sb, was, now, rv, sq, tags, next, i + 1, n);
    }
  }

  lemma {:induction false} WritesConcat(extent: seq<nat>, sb: Super, disk: Disk, rv: Revokes, a: seq<Pos>, b: seq<Pos>)
    requires Readable(extent, sb, disk)
    ensures WritesOf(extent, sb, disk, rv, a + b)
         == WritesOf(extent, sb, disk, rv, a) + WritesOf(extent, sb, disk, rv, b)
  {
    if a == [] {
      assert a + b == b;
    } else {
      WritesConcat(extent, sb, disk, rv, a[1..], b);
      assert (a + b)[0] == a[0] && (a + b)[1..] == a[1..] + b;
      PlusAssoc(HeaderWrites(extent, sb, disk, rv, a[0]), WritesOf(extent, sb, disk, rv, a[1..]),
                WritesOf(extent, sb, disk, rv, b));
    }
  }

  lemma {:induction false} DataConcat(extent: seq<nat>, sb: Super, disk: Disk, rv: Revokes, a: seq<Pos>, b: seq<Pos>)
    requires Readable(extent, sb, disk)
    ensures DataOf(extent, sb, disk, rv, a + b) == DataOf(extent, sb, disk, rv, a) + DataOf(extent, sb, disk, rv, b)
  {
    if a == [] {
      assert a + b == b;
    } else {
      DataConcat(extent, sb, disk, rv, a[1..], b);
      assert (a + b)[0] == a[0] && (a + b)[1..] == a[1..] + b;
      PlusAssoc(HeaderData(extent, sb, disk, rv, a[0]), DataOf(extent, sb, disk, rv, a[1..]),
                DataOf(extent, sb, disk, rv, b));
    }
  }

  lemma {:induction false} OneHeader(extent: seq<nat>, sb: Super, disk: Disk, rv: Revokes, p: Pos)
    requires Readable(extent, sb, disk)
    ensures WritesOf(extent, sb, disk, rv, [p]) == HeaderWrites(extent, sb, disk, rv, p)
    ensures DataOf(extent, sb, disk, rv, [p]) == HeaderData(extent, sb, disk, rv, p)
  {
    assert WritesOf(extent, sb, disk, rv, [p][1..]) == [] && DataOf(extent, sb, disk, rv, [p][1..]) == [];
  }

  // ---------------------------------------------------------------------
  // The recovery

  /** What a recovery has written for the headers `done`. */
  ghost predicate Recovered(log: set<nat>, smooth: bool, extent: seq<nat>, sb: Super, disk0: Disk, rv: Revokes,
      used0: set<nat>, done: seq<Pos>, disk: Disk, used: set<nat>, keep: seq<bool>)
    requires Readable(extent, sb, disk0)
  {
    Written(log, smooth, disk0, used0, WritesOf(extent, sb, disk0, rv, done), DataOf(extent, sb, disk0, rv, done),
            disk, used, keep)
  }

  /** The same, when it does not come away from the last of them. */
  ghost predicate PartRecovered(log: set<nat>, extent: seq<nat>, sb: Super, disk0: Disk, rv: Revokes,
      used0: set<nat>, done: seq<Pos>, disk: Disk, used: set<nat>, keep: seq<bool>)
    requires Readable(extent, sb, disk0)
  {
    Made(log, disk0, used0, WritesOf(extent, sb, disk0, rv, done), DataOf(extent, sb, disk0, rv, done),
         disk, used, keep)
  }

  lemma {:induction false} RecoveredMore(log: set<nat>, smooth: bool, extent: seq<nat>, sb: Super, disk0: Disk,
      rv: Revokes, used0: set<nat>, done: seq<Pos>, disk1: Disk, used1: set<nat>, ka: seq<bool>, p: Pos, disk: Disk,
      used: set<nat>, kb: seq<bool>, hung: bool)
    requires Readable(extent, sb, disk0)
    requires Recovered(log, smooth, extent, sb, disk0, rv, used0, done, disk1, used1, ka)
    requires Made(log, disk1, used1, HeaderWrites(extent, sb, disk0, rv, p), HeaderData(extent, sb, disk0, rv, p),
                  disk, used, kb)
    requires !hung ==> Written(log, smooth, disk1, used1, HeaderWrites(extent, sb, disk0, rv, p),
                               HeaderData(extent, sb, disk0, rv, p), disk, used, kb)
    ensures PartRecovered(log, extent, sb, disk0, rv, used0, done + [p], disk, used, ka + kb)
    ensures !hung ==> Recovered(log, smooth, extent, sb, disk0, rv, used0, done + [p], disk, used, ka + kb)
  {
    WritesConcat(extent, sb, disk0, rv, done, [p]);
    DataConcat(extent, sb, disk0, rv, done, [p]);
    OneHeader(extent, sb, disk0, rv, p);
    var wa, da := WritesOf(extent, sb, disk0, rv, done), DataOf(extent, sb, disk0, rv, done);
    var wb, db := HeaderWrites(extent, sb, disk0, rv, p), HeaderData(extent, sb, disk0, rv, p);
    MadeMore(log, disk0, used0, wa, da, disk1, used1, ka, wb, db, disk, used, kb);
    if !hung {
      WrittenMore(log, smooth, disk0, used0, wa, da, disk1, used1, ka, wb, db, disk, used, kb);
    }
  }

  /** Coming to these headers again records nothing new. */
  ghost predicate Recorded(extent: seq<nat>, disk: Disk, rv: Revokes, ps: seq<Pos>) {
    forall i :: 0 <= i < |ps| ==> RecordAt(extent, disk, rv, ps[i]) == rv
  }

  /** The state of a recovery before each header: `done` is behind it, `rest` ahead. */
  ghost predicate Recovering(log: set<nat>, extent: seq<nat>, sb: Super, disk0: Disk, rv: Revokes, all: seq<Pos>,
      final: nat, p: Pos, mark: set<nat>, luck: Luck, done: seq<Pos>, rest: seq<Pos>)
    requires Readable(extent, sb, disk0)
  {
    && Blocks(extent) <= log && all == done + rest && Replayable(log, extent, sb, disk0, all)
    && Recorded(extent, disk0, rv, all) && Ahead(extent, sb, disk0, p, mark, luck, final, rest)
    && Reached(extent, sb, disk0, rv, all) == done + Reached(extent, sb, disk0, rv, rest)
    && (Reached(extent, sb, disk0, rv, all) == all <==> NoneHalts(extent, sb, disk0, rv, all))
  }

  lemma {:induction false} AllRecorded(extent: seq<nat>, disk: Disk, first: nat, trace: seq<Pos>)
    requires Numbered(extent, disk, first, trace)
    ensures Recorded(extent, disk, Records(extent, disk, trace), Committed(extent, disk, trace))
  {
    var rv, all := Records(extent, disk, trace), Committed(extent, disk, trace);
    forall i | 0 <= i < |all|
      ensures RecordAt(extent, disk, rv, all[i]) == rv
    {
      HeaderAgain(extent, disk, first, trace, i);
    }
  }

  lemma {:induction false} RecoverStart(log: set<nat>, extent: seq<nat>, sb: Super, disk: Disk, rv: Revokes, p: Pos,
      mark: set<nat>, luck: Luck)
    requires Readable(extent, sb, disk) && Blocks(extent) <= log && p.sq < WORD32
    requires rv == Records(extent, disk, ScanFrom(extent, sb, disk, p, mark, luck).trace)
    requires Replayable(log, extent, sb, disk, Committed(extent, disk, ScanFrom(extent, sb, disk, p, mark, luck).trace))
    ensures var r := ScanFrom(extent, sb, disk, p, mark, luck);
      var all := Committed(extent, disk, r.trace);
      Recovering(log, extent, sb, disk, rv, all, r.end, p, mark, luck, [], all)
  {
    ScanNumbered(extent, sb, disk, p, mark, luck);
    var trace := ScanFrom(extent, sb, disk, p, mark, luck).trace;
    WholeTrace(extent, sb, disk, p.sq, trace);
    NonePlus(Committed(extent, disk, trace));
    NonePlus(Reached(extent, sb, disk, rv, Committed(extent, disk, trace)));
  }

  lemma {:induction false} WholeTrace(extent: seq<nat>, sb: Super, disk: Disk, first: nat, trace: seq<Pos>)
    requires sb.first < sb.maxlen && Numbered(extent, disk, first, trace)
    ensures var rv, all := Records(extent, disk, trace), Committed(extent, disk, trace);
      && Recorded(extent, disk, rv, all)
      && (Reached(extent, sb, disk, rv, all) == all <==> NoneHalts(extent, sb, disk, rv, all))
  {
    CommittedEnds(extent, disk, trace);
    ReachedWhole(extent, sb, disk, Records(extent, disk, trace), Committed(extent, disk, trace));
    AllRecorded(extent, disk, first, trace);
  }

  lemma {:induction false} BeforeHeader(log: set<nat>, extent: seq<nat>, sb: Super, disk0: Disk, rv: Revokes,
      all: seq<Pos>, final: nat, p: Pos, mark: set<nat>, luck: Luck, done: seq<Pos>, rest: seq<Pos>, disk: Disk)
    requires Readable(extent, sb, disk0) && !SeqGeq(p.sq, final) && LogIntact(log, disk0, disk)
    requires Recovering(log, extent, sb, disk0, rv, all, final, p, mark, luck, done, rest)
    ensures rest != [] && rest[0] == p && p.block < |extent| && HeaderReplayable(log, extent, disk0, p)
    ensures Readable(extent, sb, disk) && HeaderReplayable(log, extent, disk, p)
    ensures disk[extent[p.block]] == disk0[extent[p.block]] && Advance(sb, disk, disk[extent[p.block]], p).Go?
    ensures RecordAt(extent, disk, rv, p) == rv
  {
    LoopGuard(extent, sb, disk0, p, mark, luck, final, rest);
    AheadStep(extent, sb, disk0, p, mark, luck, final, rest);
    assert all[|done|] == p;
    HeaderIntact(log, extent, sb, disk0, disk, rv, p);
  }

  lemma {:induction false} AfterHeader(log: set<nat>, extent: seq<nat>, sb: Super, disk0: Disk, rv: Revokes,
      all: seq<Pos>, final: nat, p: Pos, mark: set<nat>, luck: Luck, done: seq<Pos>, rest: seq<Pos>, q: Pos)
    requires Readable(extent, sb, disk0) && rest != [] && rest[0] == p && p.block < |extent|
    requires Recovering(log, extent, sb, disk0, rv, all, final, p, mark, luck, done, rest)
    requires !Halts(extent, sb, disk0, rv, p)
    requires Go(q) == Advance(sb, disk0, disk0[extent[p.block]], p)
    ensures Recovering(log, extent, sb, disk0, rv, all, final, q, mark + {extent[p.block]}, Later(luck),
                       done + [p], rest[1..])
  {
    AheadStep(extent, sb, disk0, p, mark, luck, final, rest);
    assert done + rest == done + [p] + rest[1..] by {
      assert rest == [p] + rest[1..];
    }
    assert Reached(extent, sb, disk0, rv, rest) == [p] + Reached(extent, sb, disk0, rv, rest[1..]);
    PlusAssoc(done, [p], Reached(extent, sb, disk0, rv, rest[1..]));
  }

  /** Where the recovery stops short of a committed header, which is not behind the log. */
  lemma {:induction false} GoesAstray(log: set<nat>, extent: seq<nat>, sb: Super, disk0: Disk, rv: Revokes,
      all: seq<Pos>, final: nat, p: Pos, mark: set<nat>, luck: Luck, done: seq<Pos>, rest: seq<Pos>)
    requires Readable(extent, sb, disk0) && rest != [] && rest[0] == p
    requires Recovering(log, extent, sb, disk0, rv, all, final, p, mark, luck, done, rest)
    requires Halts(extent, sb, disk0, rv, p)
    ensures Reached(extent, sb, disk0, rv, all) == done + [p]
    ensures |all| > |done| + 1 && all[|done| + 1].block < sb.maxlen
  {
    AheadStep(extent, sb, disk0, p, mark, luck, final, rest);
    assert all[|done| + 1] == rest[1];
  }

  /** The position behind the log, which no step of the first walk leads to. */
  predicate Astray(sb: Super, p: Pos, done: seq<Pos>) {
    p.block == sb.maxlen && done != []
  }

  /** Before a header, or astray. */
  ghost predicate AtHeader(log: set<nat>, extent: seq<nat>, sb: Super, disk0: Disk, rv: Revokes, all: seq<Pos>,
      final: nat, p: Pos, mark: set<nat>, luck: Luck, done: seq<Pos>, rest: seq<Pos>)
    requires Readable(extent, sb, disk0)
  {
    if Astray(sb, p, done) then CutOff(extent, sb, disk0, rv, all, done) && !HeaderSpins(extent, disk0, rv, Last(done))
    else Recovering(log, extent, sb, disk0, rv, all, final, p, mark, luck, done, rest)
  }

  /** The recovery gets as far as `done`, and not to the next header. */
  ghost predicate CutOff(extent: seq<nat>, sb: Super, disk0: Disk, rv: Revokes, all: seq<Pos>, done: seq<Pos>)
    requires Readable(extent, sb, disk0)
  {
    && done != [] && Reached(extent, sb, disk0, rv, all) == done && done < all && all[|done|].block < sb.maxlen
    && Halts(extent, sb, disk0, rv, Last(done)) && !NoneHalts(extent, sb, disk0, rv, all)
  }

  lemma {:induction false} HeaderDone(log: set<nat>, extent: seq<nat>, sb: Super, disk0: Disk, rv: Revokes,
      all: seq<Pos>, final: nat, p: Pos, mark: set<nat>, luck: Luck, done: seq<Pos>, rest: seq<Pos>, q: Pos)
    requires Readable(extent, sb, disk0) && rest != [] && rest[0] == p && p.block < |extent|
    requires Recovering(log, extent, sb, disk0, rv, all, final, p, mark, luck, done, rest)
    requires !HeaderSpins(extent, disk0, rv, p) ==> (LeadsAstray(extent, sb, disk0, p) <==> q.block == sb.maxlen)
    requires !HeaderSpins(extent, disk0, rv, p) && !LeadsAstray(extent, sb, disk0, p) ==>
      Go(q) == Advance(sb, disk0, disk0[extent[p.block]], p)
    ensures HeaderSpins(extent, disk0, rv, p) ==> CutOff(extent, sb, disk0, rv, all, done + [p])
    ensures !HeaderSpins(extent, disk0, rv, p) ==>
      AtHeader(log, extent, sb, disk0, rv, all, final, q, mark + {extent[p.block]}, Later(luck), done + [p], rest[1..])
  {
    if Halts(extent, sb, disk0, rv, p) {
      GoesAstray(log, extent, sb, disk0, rv, all, final, p, mark, luck, done, rest);
    } else {
      AfterHeader(log, extent, sb, disk0, rv, all, final, p, mark, luck, done, rest, q);
    }
  }

  /** How a recovery ends: at the last commit, where a header cannot be read, behind the log,
      where the next block may pass for a header, or never. */
  datatype Finish = AtCommit | Unread | Behind(accepted: bool) | Never

  /** It has dealt with `n` of the committed headers `all`: with all that it can reach,
      unless a header could not be read; and it visits exactly `all` if it can reach all. */
  ghost predicate Finished(smooth: bool, extent: seq<nat>, sb: Super, disk0: Disk, rv: Revokes, all: seq<Pos>,
      final: nat, how: Finish, n: nat, visited: seq<Pos>, end: nat, failed: bool, keep: seq<bool>)
    requires Readable(extent, sb, disk0)
  {
    var reach := Reached(extent, sb, disk0, rv, all);
    && n <= |reach| && n <= |visited| && visited[..n] == all[..n] && (how != Unread ==> n == |reach|)
    && (how != Unread ==> (visited == all <==> NoneHalts(extent, sb, disk0, rv, all)))
    && match how
       case AtCommit => n == |all| && visited == all && end == final && (failed <==> false in keep)
       case Unread => !smooth && failed
       case Behind(_) =>
         && n > 0 && LeadsAstray(extent, sb, disk0, all[n - 1])
         && (false in keep || sb.maxlen == |extent| ==> failed)
         && (smooth ==> (failed <==> false in keep || sb.maxlen == |extent|))
       case Never => n > 0 && HeaderSpins(extent, disk0, rv, all[n - 1])
  }

  lemma {:induction false} EndsWell(log: set<nat>, smooth: bool, extent: seq<nat>, sb: Super, disk0: Disk, rv: Revokes,
      all: seq<Pos>, final: nat, p: Pos, mark: set<nat>, luck: Luck, done: seq<Pos>, rest: seq<Pos>, keep: seq<bool>)
    requires Readable(extent, sb, disk0) && SeqGeq(p.sq, final)
    requires Recovering(log, extent, sb, disk0, rv, all, final, p, mark, luck, done, rest)
    ensures done == all == all[..|done|]
    ensures Finished(smooth, extent, sb, disk0, rv, all, final, AtCommit, |done|, done, p.sq, false in keep, keep)
  {
    LoopGuard(extent, sb, disk0, p, mark, luck, final, rest);
  }

  lemma {:induction false} EndsUnread(log: set<nat>, extent: seq<nat>, sb: Super, disk0: Disk, rv: Revokes,
      all: seq<Pos>, final: nat, p: Pos, mark: set<nat>, luck: Luck, done: seq<Pos>, rest: seq<Pos>, keep: seq<bool>)
    requires Readable(extent, sb, disk0)
    requires Recovering(log, extent, sb, disk0, rv, all, final, p, mark, luck, done, rest)
    ensures all[..|done|] == done
    ensures Finished(false, extent, sb, disk0, rv, all, final, Unread, |done|, done, p.sq, true, keep)
  {
  }

  lemma {:induction false} EndsBehind(smooth: bool, extent: seq<nat>, sb: Super, disk0: Disk, rv: Revokes,
      all: seq<Pos>, final: nat, p: Pos, done: seq<Pos>, keep: seq<bool>, err: bool, accepted: bool)
    requires Readable(extent, sb, disk0) && CutOff(extent, sb, disk0, rv, all, done) && p.block == sb.maxlen
    requires !HeaderSpins(extent, disk0, rv, Last(done))
    requires (sb.maxlen == |extent| ==> err) && (smooth && sb.maxlen < |extent| ==> !err)
    ensures all[..|done|] == done
    ensures Finished(smooth, extent, sb, disk0, rv, all, final, Behind(accepted), |done|,
                     if accepted then done + [p] else done, p.sq, false in keep || err, keep)
  {
    assert (done + [p])[|done|] == p;
    assert all[|done| - 1] == Last(done);
  }

  lemma {:induction false} EndsNever(smooth: bool, extent: seq<nat>, sb: Super, disk0: Disk, rv: Revokes,
      all: seq<Pos>, final: nat, end: nat, done: seq<Pos>, failed: bool, keep: seq<bool>)
    requires Readable(extent, sb, disk0) && CutOff(extent, sb, disk0, rv, all, done)
    requires HeaderSpins(extent, disk0, rv, Last(done))
    ensures all[..|done|] == done
    ensures Finished(smooth, extent, sb, disk0, rv, all, final, Never, |done|, done, end, failed, keep)
  {
    assert all[|done| - 1] == Last(done);
  }

  class Replayer {
    /** Every read and write succeeds. */
    const smooth: bool
    var disk: Disk
    var used: set<nat>

    constructor (smooth: bool, disk: Disk, used: set<nat>)
      ensures this.smooth == smooth && this.disk == disk && this.used == used
    {
      this.smooth, this.disk, this.used := smooth, disk, used;
    }

    /** One tag of replay_blocks(): `blk` holds the logged copy.  It may be marked already,
        and reading or writing may fail. */
    method ReplayOne(blk: nat, tag: Tag) returns (done: bool)
      requires blk in disk
      modifies this`disk, this`used
      ensures used == old(used) + {blk}
      ensures disk == if done then old(disk)[tag.target := Restored(old(disk)[blk], tag.escape)] else old(disk)
      ensures (blk in old(used) ==> !done) && (smooth && blk !in old(used) ==> done)
    {
      done := blk !in used;
      used := used + {blk};
      if done {
        done := Chance(smooth);
      }
      if done {
        done := Chance(smooth);
      }
      if done {
        disk := disk[tag.target := Restored(disk[blk], tag.escape)];
      }
    }

    /** One turn of replay_blocks(), for a tag that may be revoked. */
    method ReplayTag(ghost log: set<nat>, extent: seq<nat>, sb: Super, rv: Revokes, sq: nat, tags: seq<Tag>,
        ghost start: nat, i: nat, pos: nat, ghost disk0: Disk, ghost used0: set<nat>, ghost keep: seq<bool>)
        returns (ok: bool, ghost keep': seq<bool>)
      requires Readable(extent, sb, disk0) && Readable(extent, sb, disk) && Blocks(extent) <= log
      requires i < TagRun(tags) && Outside(log, disk0, tags) && pos == Wrap(sb, start + i)
      requires Midway(log, smooth, extent, sb, rv, sq, tags, start, i, disk0, used0, disk, used, keep)
      modifies this`disk, this`used
      ensures Midway(log, smooth, extent, sb, rv, sq, tags, start, i + 1, disk0, used0, disk, used, keep')
      ensures Readable(extent, sb, disk) && (false in keep' <==> false in keep || !ok)
    {
      ok, keep' := true, keep;
      if Judge(rv, tags[i].target, sq) == Revoked {
        MidwaySkip(log, smooth, extent, sb, rv, sq, tags, start, i, disk0, used0, disk, used, keep);
      } else {
        ghost var disk1, used1 := disk, used;
        ok := ReplayOne(extent[pos], tags[i]);
        MidwayStep(log, smooth, extent, sb, rv, sq, tags, start, i, disk0, used0, disk1, used1, keep, disk, ok);
        keep' := keep + [ok];
      }
    }

    /** replay_blocks(): `next` comes back one past the last block used, unwrapped; unless it
        hangs at tag `m`, in revoke_this_block(). */
    method ReplayBlocks(ghost log: set<nat>, extent: seq<nat>, sb: Super, rv: Revokes, sq: nat, tags: seq<Tag>,
        start: nat) returns (next: nat, failed: bool, hung: bool, ghost m: nat, ghost keep: seq<bool>)
      requires Readable(extent, sb, disk) && Blocks(extent) <= log
      requires Terminated(tags) && Outside(log, disk, tags)
      modifies this`disk, this`used
      ensures !hung ==> m == TagRun(tags) && next == Wrap(sb, start + (TagRun(tags) - 1)) + 1
      ensures (failed <==> false in keep) && m <= TagRun(tags) && (hung <==> RunSpins(rv, sq, tags, TagRun(tags)))
      ensures Midway(log, smooth, extent, sb, rv, sq, tags, start, m, old(disk), old(used), disk, used, keep)
    {
      var pos, done;
      next, failed, hung, m, keep := start, false, false, 0, [];
      var i, last := 0, false;
      ghost var disk0 := disk;
      WrittenNone(log, smooth, disk, used);
      while !last && !hung
        invariant i <= TagRun(tags) && (last <==> i == TagRun(tags)) && (!hung ==> OnRun(sb, next, start, i))
        invariant Readable(extent, sb, disk) && (failed <==> false in keep)
        invariant hung <==> RunSpins(rv, sq, tags, if last || !hung then i else TagRun(tags))
        invariant Midway(log, smooth, extent, sb, rv, sq, tags, start, i, disk0, old(used), disk, used, keep)
        decreases TagRun(tags) - i, !hung
      {
        pos, next := BlockOfRun(sb, next, start, i);
        SpinStep(rv, sq, tags, i);
        if Judge(rv, tags[i].target, sq) == Spins {
          SpinLater(rv, sq, tags, i + 1, TagRun(tags));
          hung := true;
        } else {
          done, keep := ReplayTag(log, extent, sb, rv, sq, tags, start, i, pos, disk0, old(used), keep);
          failed := failed || !done;
          last := tags[i].last;
          i := i + 1;
        }
      }
      m := i;
    }

    /** What walk_journal() does with a descriptor when recovering. */
    method RecoverDescriptor(ghost log: set<nat>, extent: seq<nat>, sb: Super, rv: Revokes, p: Pos, start: nat)
        returns (next: nat, failed: bool, hung: bool, ghost keep: seq<bool>)
      requires Readable(extent, sb, disk) && Blocks(extent) <= log && HeaderReplayable(log, extent, disk, p)
      requires KindAt(extent, disk, p) == Descriptor && start == Wrap(sb, p.block + 1)
      modifies this`disk, this`used
      ensures hung <==> HeaderSpins(extent, old(disk), rv, p)
      ensures !hung ==> next == Wrap(sb, start + (TagRun(old(disk)[extent[p.block]].tags) - 1)) + 1
      ensures (failed ==> false in keep) && (!hung ==> (failed <==> false in keep))
      ensures Made(log, old(disk), old(used), HeaderWrites(extent, sb, old(disk), rv, p),
                   HeaderData(extent, sb, old(disk), rv, p), disk, used, keep)
      ensures !hung ==> Written(log, smooth, old(disk), old(used), HeaderWrites(extent, sb, old(disk), rv, p),
                                HeaderData(extent, sb, old(disk), rv, p), disk, used, keep)
    {
      ghost var disk0, m := disk, 0;
      next, failed, hung, m, keep := ReplayBlocks(log, extent, sb, rv, p.sq, disk[extent[p.block]].tags, start);
      keep := PartOfHeader(log, extent, sb, rv, p, disk0, old(used), m, keep);
    }

    /** What walk_journal() does with a header block when recovering. */
    method RecoverHeader(ghost log: set<nat>, extent: seq<nat>, sb: Super, rv: Revokes, p: Pos)
        returns (q: Pos, failed: bool, hung: bool, after: Revokes, ghost keep: seq<bool>)
      requires Readable(extent, sb, disk) && Blocks(extent) <= log && HeaderReplayable(log, extent, disk, p)
      modifies this`disk, this`used
      ensures hung <==> HeaderSpins(extent, old(disk), rv, p)
      ensures !hung ==> q == RecoverTo(sb, old(disk)[extent[p.block]], p)
      ensures failed ==> false in keep
      ensures !hung ==> (failed <==> false in keep) && after == RecordAt(extent, old(disk), rv, p)
      ensures Made(log, old(disk), old(used), HeaderWrites(extent, sb, old(disk), rv, p),
                   HeaderData(extent, sb, old(disk), rv, p), disk, used, keep)
      ensures !hung ==> Written(log, smooth, old(disk), old(used), HeaderWrites(extent, sb, old(disk), rv, p),
                                HeaderData(extent, sb, old(disk), rv, p), disk, used, keep)
    {
      var b := disk[extent[p.block]];
      var next := JWrap(sb, p.block + 1);
      failed, hung, after, keep := false, false, rv, [];
      WrittenNone(log, smooth, disk, used);
      match b.kind
      case Descriptor =>
        next, failed, hung, keep := RecoverDescriptor(log, extent, sb, rv, p, next);
        q := Pos(next, p.sq);
      case _ =>
        after := RecordHeader(rv, b, p.sq);
        q := Pos(next, if b.kind == Commit then Bump(p.sq) else p.sq);
    }

    /** The first `m` tags of a descriptor, as part of all. */
    lemma {:induction false} PartOfHeader(log: set<nat>, extent: seq<nat>, sb: Super, rv: Revokes, p: Pos, disk0: Disk,
        used0: set<nat>, m: nat, keep: seq<bool>) returns (padded: seq<bool>)
      requires Readable(extent, sb, disk0) && KindAt(extent, disk0, p) == Descriptor
      requires var tags := disk0[extent[p.block]].tags;
        && m <= TagRun(tags)
        && Midway(log, smooth, extent, sb, rv, p.sq, tags, Wrap(sb, p.block + 1), m, disk0, used0, disk, used, keep)
      ensures Made(log, disk0, used0, HeaderWrites(extent, sb, disk0, rv, p), HeaderData(extent, sb, disk0, rv, p),
                   disk, used, padded)
      ensures keep <= padded && (m == TagRun(disk0[extent[p.block]].tags) ==> padded == keep)
    {
      var tags, next := disk0[extent[p.block]].tags, Wrap(sb, p.block + 1);
      RunSplit(extent, sb, disk0, rv, p.sq, tags, next, m, TagRun(tags));
      padded := MadeOf(log, disk0, used0, TagWrites(extent, sb, disk0, rv, p.sq, tags, next, 0, m),
                       DataBlocks(extent, sb, rv, p.sq, tags, next, 0, m), disk, used, keep,
                       HeaderWrites(extent, sb, disk0, rv, p), HeaderData(extent, sb, disk0, rv, p));
    }

    /** Reading the header at a position that the first walk did not come to.  What follows
        if it is accepted is not pursued. */
    method ReadAstray(extent: seq<nat>, q: Pos) returns (failed: bool, accepted: bool)
      requires forall b :: b in extent ==> b in disk
      ensures !(failed && accepted) && (q.block >= |extent| ==> failed)
      ensures smooth && q.block < |extent| ==> !failed
    {
      failed, accepted := q.block >= |extent|, false;
      if !failed {
        var read := Chance(smooth);
        failed := !read;
        if read {
          var b := disk[extent[q.block]];
          accepted := b.magic == MAGIC && b.sq == q.sq;
        }
      }
    }

    /** After the headers `done`, the last of which it may not come away from. */
    ghost predicate UnderWay(log: set<nat>, extent: seq<nat>, sb: Super, disk0: Disk, rv: Revokes, used0: set<nat>,
        all: seq<Pos>, final: nat, p: Pos, mark: set<nat>, luck: Luck, done: seq<Pos>, rest: seq<Pos>,
        keep: seq<bool>, hung: bool)
      requires Readable(extent, sb, disk0)
      reads this
    {
      && PartRecovered(log, extent, sb, disk0, rv, used0, done, disk, used, keep)
      && if hung then CutOff(extent, sb, disk0, rv, all, done) && HeaderSpins(extent, disk0, rv, Last(done))
         else
           && Recovered(log, smooth, extent, sb, disk0, rv, used0, done, disk, used, keep)
           && AtHeader(log, extent, sb, disk0, rv, all, final, p, mark, luck, done, rest)
    }

    /** One turn of walk_journal() when recovering: `read` tells whether the header at `p`
        could be read. */
    method RecoverNext(ghost log: set<nat>, extent: seq<nat>, sb: Super, rv: Revokes, final: nat, p: Pos,
        ghost disk0: Disk, ghost used0: set<nat>, ghost all: seq<Pos>, ghost mark: set<nat>, ghost luck: Luck,
        ghost done: seq<Pos>, ghost rest: seq<Pos>, ghost keep: seq<bool>)
        returns (read: bool, q: Pos, failed: bool, hung: bool, after: Revokes, ghost k: seq<bool>)
      requires Readable(extent, sb, disk0) && !SeqGeq(p.sq, final) && !Astray(sb, p, done)
      requires UnderWay(log, extent, sb, disk0, rv, used0, all, final, p, mark, luck, done, rest, keep, false)
      modifies this`disk, this`used
      ensures rest != [] && p.block < |extent|
      ensures read ==>
        UnderWay(log, extent, sb, disk0, rv, used0, all, final, q, mark + {extent[p.block]}, Later(luck),
                 done + [p], rest[1..], keep + k, hung)
      ensures !read ==> !smooth && !hung && after == rv && disk == old(disk) && used == old(used) && k == []
      ensures !hung ==> (failed <==> false in k) && after == rv
    {
      BeforeHeader(log, extent, sb, disk0, rv, all, final, p, mark, luck, done, rest, disk);
      q, failed, hung, after, k := p, false, false, rv, [];
      read := Chance(smooth);
      if read {
        ghost var disk1, used1 := disk, used;
        HeaderIntact(log, extent, sb, disk0, disk, rv, p);
        SameWay(extent, sb, disk, p);
        q, failed, hung, after, k := RecoverHeader(log, extent, sb, rv, p);
        RecoveredMore(log, smooth, extent, sb, disk0, rv, used0, done, disk1, used1, keep, p, disk, used, k, hung);
        HeaderDone(log, extent, sb, disk0, rv, all, final, p, mark, luck, done, rest, q);
      }
    }

    /** The loop of walk_journal() when recovering.  It ends at the last commit, where a
        header cannot be read, or astray, or hangs. */
    method RecoverLoop(ghost log: set<nat>, extent: seq<nat>, sb: Super, rv: Revokes, final: nat, start: Pos,
        ghost all: seq<Pos>, ghost marked: set<nat>, ghost luck0: Luck)
        returns (read: bool, hung: bool, p: Pos, failed: bool, visited: seq<Pos>, ghost keep: seq<bool>,
          ghost mark: set<nat>, ghost luck: Luck, ghost rest: seq<Pos>)
      requires Readable(extent, sb, disk)
      requires Recovering(log, extent, sb, disk, rv, all, final, start, marked, luck0, [], all)
      modifies this`disk, this`used
      ensures UnderWay(log, extent, sb, old(disk), rv, old(used), all, final, p, mark, luck, visited, rest, keep, hung)
      ensures !hung ==> (failed <==> false in keep)
      ensures !hung && read ==> Astray(sb, p, visited) || SeqGeq(p.sq, final)
      ensures !read ==> !hung && !smooth && !Astray(sb, p, visited)
    {
      ghost var disk0, k := disk, [];
      var q, err, revokes := start, false, rv;
      WrittenNone(log, smooth, disk, used);
      read, hung, p, failed, visited, keep, mark, luck, rest := true, false, start, false, [], [], marked, luck0, all;
      while read && !hung && !Astray(sb, p, visited) && !SeqGeq(p.sq, final)
        invariant Readable(extent, sb, disk0)
        invariant UnderWay(log, extent, sb, disk0, rv, old(used), all, final, p, mark, luck, visited, rest, keep, hung)
        invariant !hung ==> (failed <==> false in keep) && revokes == rv
        invariant !read ==> !hung && !smooth && !Astray(sb, p, visited)
        decreases |rest|, read, !hung
      {
        read, q, err, hung, revokes, k :=
          RecoverNext(log, extent, sb, revokes, final, p, disk0, old(used), all, mark, luck, visited, rest, keep);
        if read {
          visited, keep := visited + [p], keep + k;
          mark, luck, rest := mark + {extent[p.block]}, Later(luck), rest[1..];
          failed, p := failed || err, q;
        }
      }
    }

    /** walk_journal() with recovery, after a first walk that began with `marked`, ended at
        sequence number `final` and recorded `rv`. */
    method WalkRecover(ghost log: set<nat>, ghost marked: set<nat>, ghost luck: Luck, extent: seq<nat>, sb: Super,
        rv: Revokes, final: nat)
        returns (how: Finish, end: nat, failed: bool, visited: seq<Pos>, ghost n: nat, ghost keep: seq<bool>)
      requires Readable(extent, sb, disk) && Blocks(extent) <= log && sb.start != 0 && sb.sequence < WORD32
      requires final == Scanned(extent, sb, disk, marked, luck).end
      requires rv == Records(extent, disk, Scanned(extent, sb, disk, marked, luck).trace)
      requires Replayable(log, extent, sb, disk, Committed(extent, disk, Scanned(extent, sb, disk, marked, luck).trace))
      modifies this`disk, this`used
      ensures var all := Committed(extent, old(disk), Scanned(extent, sb, old(disk), marked, luck).trace);
        && Finished(smooth, extent, sb, old(disk), rv, all, final, how, n, visited, end, failed, keep)
        && (how != Behind(true) ==>
            PartRecovered(log, extent, sb, old(disk), rv, old(used), all[..n], disk, used, keep))
        && (how != Behind(true) && how != Never ==>
            Recovered(log, smooth, extent, sb, old(disk), rv, old(used), all[..n], disk, used, keep))
    {
      ghost var all := Committed(extent, disk, Scanned(extent, sb, disk, marked, luck).trace);
      RecoverStart(log, extent, sb, disk, rv, Pos(sb.start, sb.sequence), marked, luck);
      how, end, failed, visited, n, keep :=
        RecoverFrom(log, extent, sb, rv, final, Pos(sb.start, sb.sequence), all, marked, luck);
    }

    /** The same, from the start of the loop on. */
    method RecoverFrom(ghost log: set<nat>, extent: seq<nat>, sb: Super, rv: Revokes, final: nat, start: Pos,
        ghost all: seq<Pos>, ghost marked: set<nat>, ghost luck: Luck)
        returns (how: Finish, end: nat, failed: bool, visited: seq<Pos>, ghost n: nat, ghost keep: seq<bool>)
      requires Readable(extent, sb, disk)
      requires Recovering(log, extent, sb, disk, rv, all, final, start, marked, luck, [], all)
      modifies this`disk, this`used
      ensures Finished(smooth, extent, sb, old(disk), rv, all, final, how, n, visited, end, failed, keep)
      ensures how != Behind(true) ==>
        PartRecovered(log, extent, sb, old(disk), rv, old(used), all[..n], disk, used, keep)
      ensures how != Behind(true) && how != Never ==>
        Recovered(log, smooth, extent, sb, old(disk), rv, old(used), all[..n], disk, used, keep)
    {
      ghost var disk0, mark, left, rest := disk, {}, luck, [];
      var read, hung, p;
      read, hung, p, failed, visited, keep, mark, left, rest :=
        RecoverLoop(log, extent, sb, rv, final, start, all, marked, luck);
      how, end, n := Never, p.sq, |visited|;
      if hung {
        EndsNever(smooth, extent, sb, disk0, rv, all, final, end, visited, failed, keep);
      } else if !read {
        EndsUnread(log, extent, sb, disk0, rv, all, final, p, mark, left, visited, rest, keep);
        how, failed := Unread, true;
      } else if Astray(sb, p, visited) {
        var err, accepted := ReadAstray(extent, p);
        EndsBehind(smooth, extent, sb, disk0, rv, all, final, p, visited, keep, err, accepted);
        how, failed := Behind(accepted), failed || err;
        visited := if accepted then visited + [p] else visited;
      } else {
        EndsWell(log, smooth, extent, sb, disk0, rv, all, final, p, mark, left, visited, rest, keep);
        how := AtCommit;
      }
    }
  }
}
