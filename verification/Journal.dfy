/** The first walk over a journal in fsck.ocfs2/journal.c, which finds the last commit and
    the blocks that were revoked, and what is to be written back then.  The disk is a map
    from block number to contents. */
module Journal {
  import opened Basics
  import opened Words

  const MAGIC: nat := 0xc03b3998

  datatype Kind = Descriptor | Commit | Revoke | Unknown

  datatype Tag = Tag(target: nat, escape: bool, last: bool)

  /** A block: its first word, the header fields as far as they mean anything, the tags
      that fit it, r_count and the 32-bit words behind that, and the rest. */
  datatype Block =
    Block(magic: nat, kind: Kind, sq: nat, tags: seq<Tag>, count: nat, words: seq<nat>, rest: int)

  type Disk = map<nat, Block>

  datatype Super = Super(first: nat, maxlen: nat, start: nat, sequence: nat)

  // ---------------------------------------------------------------------
  // Sequence numbers and positions in the log

  /** seq_geq(): the difference of two uint32_t, read as signed, is not negative. */
  predicate SeqGeq(x: nat, y: nat) {
    (x - y) % WORD32 < WORD32 / 2
  }

  predicate SeqGt(x: nat, y: nat) {
    0 < (x - y) % WORD32 < WORD32 / 2
  }

  /** Looking at most half the numbers ahead, the order is the natural one. */
  lemma SeqOrder(x: nat, ahead: nat)
    requires x < WORD32 && ahead < WORD32 / 2
    ensures SeqGeq(x, (x + ahead) % WORD32) <==> ahead == 0
    ensures SeqGt((x + ahead) % WORD32, x) <==> ahead > 0
  {
  }

  /** jwrap(): the log proper is `first..maxlen`, taken as a circle. */
  function Wrap(sb: Super, block: nat): (r: nat)
    requires sb.first < sb.maxlen
    ensures r < sb.maxlen && (block < sb.maxlen ==> r == block) && (block >= sb.maxlen ==> sb.first <= r)
    decreases block
  {
    if block < sb.maxlen then block else Wrap(sb, block - (sb.maxlen - sb.first))
  }

  method JWrap(sb: Super, block: nat) returns (r: nat)
    requires sb.first <= sb.maxlen
    ensures r == if sb.first == sb.maxlen then 0 else Wrap(sb, block)
  {
    var diff := sb.maxlen - sb.first;
    if diff == 0 {
      return 0;
    }
    r := block;
    while r >= sb.maxlen
      invariant Wrap(sb, r) == Wrap(sb, block)
    {
      r := r - diff;
    }
  }

  /** Wrapping on the way or at the end is the same. */
  lemma {:induction false} WrapAdd(sb: Super, block: nat, n: nat)
    requires sb.first < sb.maxlen
    ensures Wrap(sb, Wrap(sb, block) + n) == Wrap(sb, block + n)
    decreases block
  {
    if block >= sb.maxlen {
      WrapAdd(sb, block - (sb.maxlen - sb.first), n);
    }
  }

  // ---------------------------------------------------------------------
  // Descriptors

  /** The number of tags up to and including the one flagged last, or all of them. */
  function TagRun(tags: seq<Tag>): (n: nat)
    ensures n <= |tags|
    ensures forall i :: 0 <= i < n - 1 ==> !tags[i].last
    ensures n < |tags| ==> n > 0 && tags[n - 1].last
  {
    if tags == [] then 0 else if tags[0].last then 1 else 1 + TagRun(tags[1..])
  }

  predicate Terminated(tags: seq<Tag>) {
    TagRun(tags) > 0 && tags[TagRun(tags) - 1].last
  }

  /** A tag may only name a block of the file system; here, of the disk. */
  function CountTags(disk: Disk, tags: seq<Tag>): Option<nat> {
    if |tags| > 0 && forall i :: 0 <= i < TagRun(tags) ==> tags[i].target in disk then Some(TagRun(tags)) else None
  }

  method CountTagsLoop(disk: Disk, tags: seq<Tag>) returns (nr: Option<nat>)
    ensures nr == CountTags(disk, tags)
  {
    if |tags| == 0 {
      return None;
    }
    var n := 0;
    while n < |tags|
      invariant n <= |tags|
      invariant forall i :: 0 <= i < n ==> !tags[i].last && tags[i].target in disk
    {
      n := n + 1;
      if tags[n - 1].target !in disk {
        assert n - 1 < TagRun(tags);
        return None;
      }
      if tags[n - 1].last {
        break;
      }
    }
    assert TagRun(tags) == n;
    return Some(n);
  }

  // ---------------------------------------------------------------------
  // Revoke blocks

  /** The sequence number recorded for each block that a revoke block named. */
  type Revokes = map<nat, nat>

  /** The block numbers that add_revoke_records() reads.  It takes the entries to be as long
      as a pointer and reads half as many 32-bit words; a corrupt count goes unnoticed. */
  function Named(b: Block): seq<nat> {
    if b.count < 16 || b.count > 16 + 4 * |b.words| then [] else b.words[..(b.count - 16) / 8]
  }

  /** revoke_insert() */
  function Record(rv: Revokes, target: nat, sq: nat): Revokes {
    if target in rv && !SeqGt(sq, rv[target]) then rv else rv[target := sq]
  }

  function RecordAll(rv: Revokes, targets: seq<nat>, sq: nat): Revokes {
    if targets == [] then rv else Record(RecordAll(rv, Front(targets), sq), Last(targets), sq)
  }

  /** add_revoke_records(), for a header that is a revoke block. */
  method RecordHeader(rv: Revokes, b: Block, sq: nat) returns (after: Revokes)
    ensures after == if b.kind == Revoke then RecordAll(rv, Named(b), sq) else rv
  {
    after := rv;
    if b.kind == Revoke && 16 <= b.count <= 16 + 4 * |b.words| {
      after := RecordLoop(rv, b.words[..(b.count - 16) / 8], sq);
    }
  }

  method RecordLoop(rv: Revokes, targets: seq<nat>, sq: nat) returns (after: Revokes)
    ensures after == RecordAll(rv, targets, sq)
  {
    after := rv;
    for i := 0 to |targets|
      invariant after == RecordAll(rv, targets[..i], sq)
    {
      TakeFront(targets, i);
      if targets[i] !in after || SeqGt(sq, after[targets[i]]) {
        after := after[targets[i] := sq];
      }
    }
    assert targets[..|targets|] == targets;
  }

  /** What revoke_this_block() makes of a tag in a transaction: when there is an older
      record, its search for the block does not move on. */
  datatype Verdict = Wanted | Revoked | Spins

  function Judge(rv: Revokes, target: nat, sq: nat): Verdict {
    if target !in rv then Wanted else if SeqGt(sq, rv[target]) then Spins else Revoked
  }

  function KindAt(extent: seq<nat>, disk: Disk, p: Pos): Kind {
    if p.block < |extent| && extent[p.block] in disk then disk[extent[p.block]].kind else Unknown
  }

  /** The records of a header, and of a list of headers. */
  function RecordAt(extent: seq<nat>, disk: Disk, rv: Revokes, p: Pos): Revokes {
    if KindAt(extent, disk, p) == Revoke then RecordAll(rv, Named(disk[extent[p.block]]), p.sq) else rv
  }

  function Records(extent: seq<nat>, disk: Disk, trace: seq<Pos>): Revokes {
    if trace == [] then map[] else RecordAt(extent, disk, Records(extent, disk, Front(trace)), Last(trace))
  }

  lemma RecordsEnd(extent: seq<nat>, disk: Disk, trace: seq<Pos>, p: Pos)
    ensures Records(extent, disk, trace + [p]) == RecordAt(extent, disk, Records(extent, disk, trace), p)
  {
    assert Front(trace + [p]) == trace;
  }

  // ---------------------------------------------------------------------
  // One iteration of the first walk

  datatype Pos = Pos(block: nat, sq: nat)

  datatype Move = Stop | Fail | Go(next: Pos)

  function Bump(sq: nat): nat {
    (sq + 1) % WORD32
  }

  /** Where the first walk goes from a header block. */
  function Advance(sb: Super, disk: Disk, b: Block, p: Pos): Move
    requires sb.first < sb.maxlen
  {
    var next := Wrap(sb, p.block + 1);
    if b.magic != MAGIC || b.sq != p.sq then Stop
    else match b.kind
      case Descriptor =>
        var nr := CountTags(disk, b.tags);
        if nr.None? then Fail else Go(Pos(Wrap(sb, next + nr.value), p.sq))
      case Commit => Go(Pos(next, Bump(p.sq)))
      case Revoke => Go(Pos(next, p.sq))
      case Unknown => Go(Pos(next, p.sq))
  }

  /** The result of the first walk: the headers it accepted, in order, the sequence
      number it ended at, whether it failed, and the blocks marked as used. */
  datatype Scan = Scan(trace: seq<Pos>, end: nat, failed: bool, used: set<nat>)

  function Blocks(extent: seq<nat>): set<nat> {
    set b | b in extent
  }

  /** How often reading a header succeeds in the first walk: every time, or as many times as
      given before it fails. */
  type Luck = Option<nat>

  function Later(luck: Luck): Luck {
    if luck.Some? && luck.value > 0 then Some(luck.value - 1) else luck
  }

  /** The first walk from position `p`.  Each step marks a block that was not marked
      before, so it ends on every log. */
  function ScanFrom(extent: seq<nat>, sb: Super, disk: Disk, p: Pos, used: set<nat>, luck: Luck): Scan
    requires sb.first < sb.maxlen
    decreases |Blocks(extent) - used|
  {
    if p.block >= |extent| || extent[p.block] in used then Scan([], p.sq, true, used)
    else
      var blk := extent[p.block];
      assert Blocks(extent) - (used + {blk}) == Blocks(extent) - used - {blk};
      if blk !in disk || luck == Some(0) then Scan([], p.sq, true, used + {blk})
      else
        var m := Advance(sb, disk, disk[blk], p);
        match m
        case Stop => Scan([], p.sq, false, used + {blk})
        case Fail => Scan([], p.sq, true, used + {blk})
        case Go(q) =>
          var r := ScanFrom(extent, sb, disk, q, used + {blk}, Later(luck));
          r.(trace := [p] + r.trace)
  }

  /** What walk_journal() does with a header block it has read. */
  method Inspect(sb: Super, disk: Disk, b: Block, p: Pos) returns (m: Move)
    requires sb.first < sb.maxlen
    ensures m == Advance(sb, disk, b, p)
  {
    var next := JWrap(sb, p.block + 1);
    if b.magic != MAGIC || b.sq != p.sq {
      return Stop;
    }
    match b.kind
    case Descriptor =>
      var nr := CountTagsLoop(disk, b.tags);
      if nr.None? {
        return Fail;
      }
      next := JWrap(sb, next + nr.value);
      return Go(Pos(next, p.sq));
    case Commit => return Go(Pos(next, Bump(p.sq)));
    case Revoke => return Go(Pos(next, p.sq));
    case Unknown => return Go(Pos(next, p.sq));
  }

  /** walk_journal() without recovery. */
  method WalkScan(extent: seq<nat>, sb: Super, disk: Disk, used: set<nat>, luck: Luck)
      returns (r: Scan, rv: Revokes)
    requires sb.first < sb.maxlen
    ensures r == Scanned(extent, sb, disk, used, luck)
    ensures rv == Records(extent, disk, r.trace)
  {
    var p, left := Pos(sb.start, sb.sequence), luck;
    var marked, trace := used, [];
    rv := map[];
    if p.block == 0 {
      return Scan([], p.sq, false, used), rv;
    }
    var m := Go(p);
    while m.Go?
      invariant m.Go? ==>
        Scanned(extent, sb, disk, used, luck) == Prepend(trace, ScanFrom(extent, sb, disk, m.next, marked, left))
      invariant !m.Go? ==> Scanned(extent, sb, disk, used, luck) == Scan(trace, p.sq, m.Fail?, marked)
      invariant rv == Records(extent, disk, trace)
      decreases m.Go?, |Blocks(extent) - marked|
    {
      p := m.next;
      // read_journal_block(), marking the block as used
      if p.block >= |extent| || extent[p.block] in marked {
        return Scan(trace, p.sq, true, marked), rv;
      }
      var blk := extent[p.block];
      assert Blocks(extent) - (marked + {blk}) == Blocks(extent) - marked - {blk};
      if blk !in disk || left == Some(0) {
        return Scan(trace, p.sq, true, marked + {blk}), rv;
      }
      PrependOne(trace, p, extent, sb, disk, marked, left);
      m := Inspect(sb, disk, disk[blk], p);
      if m.Go? {
        rv := RecordHeader(rv, disk[blk], p.sq);
        RecordsEnd(extent, disk, trace, p);
        trace := trace + [p];
      }
      marked, left := marked + {blk}, Later(left);
    }
    return Scan(trace, p.sq, m.Fail?, marked), rv;
  }

  function Scanned(extent: seq<nat>, sb: Super, disk: Disk, used: set<nat>, luck: Luck): Scan
    requires sb.first < sb.maxlen
  {
    if sb.start == 0 then Scan([], sb.sequence, false, used)
    else ScanFrom(extent, sb, disk, Pos(sb.start, sb.sequence), used, luck)
  }

  function Prepend(trace: seq<Pos>, r: Scan): Scan {
    r.(trace := trace + r.trace)
  }

  /** Unfolding the walk by one accepted header. */
  lemma PrependOne(trace: seq<Pos>, p: Pos, extent: seq<nat>, sb: Super, disk: Disk, used: set<nat>, luck: Luck)
    requires sb.first < sb.maxlen && p.block < |extent| && extent[p.block] !in used && extent[p.block] in disk
    requires luck != Some(0)
    ensures var m := Advance(sb, disk, disk[extent[p.block]], p);
      m.Go? ==>
        Prepend(trace, ScanFrom(extent, sb, disk, p, used, luck))
        == Prepend(trace + [p], ScanFrom(extent, sb, disk, m.next, used + {extent[p.block]}, Later(luck)))
  {
    var m := Advance(sb, disk, disk[extent[p.block]], p);
    if m.Go? {
      var r := ScanFrom(extent, sb, disk, m.next, used + {extent[p.block]}, Later(luck));
      assert trace + ([p] + r.trace) == trace + [p] + r.trace;
    }
  }

  // ---------------------------------------------------------------------
  // What a recovery should write

  /** The number of commit blocks among the accepted headers. */
  function Commits(extent: seq<nat>, disk: Disk, trace: seq<Pos>): (n: nat)
    ensures n <= |trace|
  {
    if trace == [] then 0
    else (if KindAt(extent, disk, trace[0]) == Commit then 1 else 0) + Commits(extent, disk, trace[1..])
  }

  /** The headers up to the last commit block: those of committed transactions. */
  function Committed(extent: seq<nat>, disk: Disk, trace: seq<Pos>): (c: seq<Pos>)
    ensures c <= trace
  {
    if Commits(extent, disk, trace) == 0 then [] else [trace[0]] + Committed(extent, disk, trace[1..])
  }

  /** A header belongs to a committed transaction exactly when a commit block follows
      it, or is it. */
  lemma {:induction false} CommittedMeans(extent: seq<nat>, disk: Disk, trace: seq<Pos>, i: nat)
    requires i < |trace|
    ensures i < |Committed(extent, disk, trace)|
       <==> exists j :: i <= j < |trace| && KindAt(extent, disk, trace[j]) == Commit
  {
    var c := Committed(extent, disk, trace);
    CommitsMeans(extent, disk, trace);
    if i > 0 {
      CommittedMeans(extent, disk, trace[1..], i - 1);
      if j :| i <= j < |trace| && KindAt(extent, disk, trace[j]) == Commit {
        assert trace[1..][j - 1] == trace[j];
      }
      if i < |c| {
        var j :| i - 1 <= j < |trace[1..]| && KindAt(extent, disk, trace[1..][j]) == Commit;
        assert trace[j + 1] == trace[1..][j];
      }
    }
  }

  lemma {:induction false} CommitsMeans(extent: seq<nat>, disk: Disk, trace: seq<Pos>)
    ensures Commits(extent, disk, trace) > 0
       <==> exists j :: 0 <= j < |trace| && KindAt(extent, disk, trace[j]) == Commit
  {
    if trace != [] {
      CommitsMeans(extent, disk, trace[1..]);
      if j :| 0 <= j < |trace| && KindAt(extent, disk, trace[j]) == Commit {
        if j > 0 {
          assert trace[1..][j - 1] == trace[j];
        }
      }
      if Commits(extent, disk, trace[1..]) > 0 {
        var j :| 0 <= j < |trace[1..]| && KindAt(extent, disk, trace[1..][j]) == Commit;
        assert trace[j + 1] == trace[1..][j];
      }
    }
  }

  /** The first header a walk accepted, and the walk from where it leads. */
  lemma ScanUnfold(extent: seq<nat>, sb: Super, disk: Disk, p: Pos, used: set<nat>, luck: Luck)
    requires sb.first < sb.maxlen
    ensures var r := ScanFrom(extent, sb, disk, p, used, luck);
      if r.trace == [] then r.end == p.sq
      else
        && p.block < |extent| && extent[p.block] !in used && extent[p.block] in disk && luck != Some(0)
        && var blk := extent[p.block];
        && var m := Advance(sb, disk, disk[blk], p);
        && m.Go? && |Blocks(extent) - (used + {blk})| < |Blocks(extent) - used|
        && var r' := ScanFrom(extent, sb, disk, m.next, used + {blk}, Later(luck));
        && r.trace == [p] + r'.trace && r.trace[1..] == r'.trace && r.end == r'.end
  {
    if p.block < |extent| && extent[p.block] !in used {
      var blk := extent[p.block];
      assert Blocks(extent) - (used + {blk}) == Blocks(extent) - used - {blk};
      assert blk in Blocks(extent) - used;
    }
  }

  /** The same without saying where that is, but for the sequence number. */
  lemma ScanNext(extent: seq<nat>, sb: Super, disk: Disk, p: Pos, used: set<nat>, luck: Luck)
      returns (q: Pos, used': set<nat>, luck': Luck)
    requires sb.first < sb.maxlen && ScanFrom(extent, sb, disk, p, used, luck).trace != []
    ensures |Blocks(extent) - used'| < |Blocks(extent) - used|
    ensures q.sq == if KindAt(extent, disk, p) == Commit then Bump(p.sq) else p.sq
    ensures var r, r' := ScanFrom(extent, sb, disk, p, used, luck), ScanFrom(extent, sb, disk, q, used', luck');
      r.trace == [p] + r'.trace && r.trace[1..] == r'.trace && r.end == r'.end
  {
    ScanUnfold(extent, sb, disk, p, used, luck);
    var blk := extent[p.block];
    q, used', luck' := Advance(sb, disk, disk[blk], p).next, used + {blk}, Later(luck);
  }

  /** `n` sequence numbers on. */
  function Forward(sq: nat, n: nat): nat
    decreases n
  {
    if n == 0 then sq else Forward(Bump(sq), n - 1)
  }

  lemma {:induction false} ForwardAdds(sq: nat, n: nat)
    requires sq < WORD32
    ensures Forward(sq, n) == (sq + n) % WORD32
    decreases n
  {
    if n > 0 {
      ForwardAdds(Bump(sq), n - 1);
      BumpAdd(sq, n - 1);
    }
  }

  lemma BumpAdd(sq: nat, n: nat)
    ensures (Bump(sq) + n) % WORD32 == (sq + (1 + n)) % WORD32
  {
  }

  lemma {:induction false} EndForward(extent: seq<nat>, sb: Super, disk: Disk, p: Pos, used: set<nat>, luck: Luck)
    requires sb.first < sb.maxlen
    ensures var r := ScanFrom(extent, sb, disk, p, used, luck);
      r.end == Forward(p.sq, Commits(extent, disk, r.trace))
    decreases |Blocks(extent) - used|
  {
    var r := ScanFrom(extent, sb, disk, p, used, luck);
    if r.trace == [] {
      ScanUnfold(extent, sb, disk, p, used, luck);
    } else {
      var q, used', luck' := ScanNext(extent, sb, disk, p, used, luck);
      EndForward(extent, sb, disk, q, used', luck');
    }
  }

  /** The walk ends as many sequence numbers ahead as it saw commits. */
  lemma EndIsAhead(extent: seq<nat>, sb: Super, disk: Disk, p: Pos, used: set<nat>, luck: Luck)
    requires sb.first < sb.maxlen && p.sq < WORD32
    ensures var r := ScanFrom(extent, sb, disk, p, used, luck);
      r.end == (p.sq + Commits(extent, disk, r.trace)) % WORD32
  {
    EndForward(extent, sb, disk, p, used, luck);
    ForwardAdds(p.sq, Commits(extent, disk, ScanFrom(extent, sb, disk, p, used, luck).trace));
  }

  /** Each header accepted is a block that was not marked before. */
  lemma {:induction false} TraceBound(extent: seq<nat>, sb: Super, disk: Disk, p: Pos, used: set<nat>, luck: Luck)
    requires sb.first < sb.maxlen
    ensures |ScanFrom(extent, sb, disk, p, used, luck).trace| <= |Blocks(extent) - used|
    decreases |Blocks(extent) - used|
  {
    if ScanFrom(extent, sb, disk, p, used, luck).trace != [] {
      var q, used', luck' := ScanNext(extent, sb, disk, p, used, luck);
      TraceBound(extent, sb, disk, q, used', luck');
    }
  }

  lemma CommitsHead(extent: seq<nat>, disk: Disk, trace: seq<Pos>)
    requires trace != []
    ensures Commits(extent, disk, trace)
         == (if KindAt(extent, disk, trace[0]) == Commit then 1 else 0) + Commits(extent, disk, trace[1..])
  {
  }

  // ---------------------------------------------------------------------
  // Writing blocks back

  datatype Write = Write(target: nat, block: Block)

  function Apply(disk: Disk, writes: seq<Write>): (d: Disk)
    decreases |writes|
  {
    if writes == [] then disk else Apply(disk[writes[0].target := writes[0].block], writes[1..])
  }

  /** The logged copy of a block, with an escaped magic number put back. */
  function Restored(b: Block, escape: bool): Block {
    if escape then b.(magic := MAGIC) else b
  }

  /** The log blocks that hold the data of those of tags `i..n` that are not revoked, the
      first of them after `next`. */
  function DataBlocks(extent: seq<nat>, sb: Super, rv: Revokes, sq: nat, tags: seq<Tag>, next: nat, i: nat, n: nat)
      : seq<nat>
    requires sb.first < sb.maxlen <= |extent| && n <= |tags|
    decreases n - i
  {
    if i >= n then []
    else (if Judge(rv, tags[i].target, sq) == Revoked then [] else [extent[Wrap(sb, next + i)]])
         + DataBlocks(extent, sb, rv, sq, tags, next, i + 1, n)
  }

  function TagWrites(extent: seq<nat>, sb: Super, disk: Disk, rv: Revokes, sq: nat, tags: seq<Tag>, next: nat,
      i: nat, n: nat): seq<Write>
    requires sb.first < sb.maxlen <= |extent| && n <= |tags|
    requires forall b :: b in extent ==> b in disk
    decreases n - i
  {
    if i >= n then []
    else (if Judge(rv, tags[i].target, sq) == Revoked then []
          else [Write(tags[i].target, Restored(disk[extent[Wrap(sb, next + i)]], tags[i].escape))])
         + TagWrites(extent, sb, disk, rv, sq, tags, next, i + 1, n)
  }

  ghost predicate Readable(extent: seq<nat>, sb: Super, disk: Disk) {
    sb.first < sb.maxlen <= |extent| < WORD32 / 2 && forall b :: b in extent ==> b in disk
  }

  function HeaderWrites(extent: seq<nat>, sb: Super, disk: Disk, rv: Revokes, p: Pos): seq<Write>
    requires Readable(extent, sb, disk)
  {
    if KindAt(extent, disk, p) == Descriptor then
      var tags := disk[extent[p.block]].tags;
      TagWrites(extent, sb, disk, rv, p.sq, tags, Wrap(sb, p.block + 1), 0, TagRun(tags))
    else []
  }

  function HeaderData(extent: seq<nat>, sb: Super, disk: Disk, rv: Revokes, p: Pos): seq<nat>
    requires Readable(extent, sb, disk)
  {
    if KindAt(extent, disk, p) == Descriptor then
      var tags := disk[extent[p.block]].tags;
      DataBlocks(extent, sb, rv, p.sq, tags, Wrap(sb, p.block + 1), 0, TagRun(tags))
    else []
  }

  /** The writes of a list of headers, in order, and the log blocks they come from. */
  function WritesOf(extent: seq<nat>, sb: Super, disk: Disk, rv: Revokes, ps: seq<Pos>): seq<Write>
    requires Readable(extent, sb, disk)
  {
    if ps == [] then [] else HeaderWrites(extent, sb, disk, rv, ps[0]) + WritesOf(extent, sb, disk, rv, ps[1..])
  }

  function DataOf(extent: seq<nat>, sb: Super, disk: Disk, rv: Revokes, ps: seq<Pos>): seq<nat>
    requires Readable(extent, sb, disk)
  {
    if ps == [] then [] else HeaderData(extent, sb, disk, rv, ps[0]) + DataOf(extent, sb, disk, rv, ps[1..])
  }

  /** None of the listed blocks is marked, or listed twice. */
  predicate Unmarked(used: set<nat>, list: seq<nat>)
    decreases |list|
  {
    list == [] || (list[0] !in used && Unmarked(used + {list[0]}, list[1..]))
  }

  lemma {:induction false} UnmarkedConcat(used: set<nat>, a: seq<nat>, b: seq<nat>)
    ensures Unmarked(used, a + b) <==> Unmarked(used, a) && Unmarked(used + Blocks(a), b)
    decreases |a|
  {
    if a == [] {
      assert a + b == b && used + Blocks(a) == used;
    } else {
      UnmarkedConcat(used + {a[0]}, a[1..], b);
      assert (a + b)[1..] == a[1..] + b;
      assert used + {a[0]} + Blocks(a[1..]) == used + Blocks(a) by {
        assert a == [a[0]] + a[1..];
      }
    }
  }

  lemma {:induction false} ApplyConcat(disk: Disk, a: seq<Write>, b: seq<Write>)
    ensures Apply(disk, a + b) == Apply(Apply(disk, a), b)
    decreases |a|
  {
    if a == [] {
      assert a + b == b;
    } else {
      ApplyConcat(disk[a[0].target := a[0].block], a[1..], b);
      assert (a + b)[1..] == a[1..] + b;
    }
  }

  /** Tags that name blocks of the disk outside the journals. */
  ghost predicate Outside(log: set<nat>, disk: Disk, tags: seq<Tag>) {
    forall i :: 0 <= i < TagRun(tags) ==> tags[i].target in disk && tags[i].target !in log
  }

  /** `now` has the same journal contents as `was`. */
  ghost predicate LogIntact(log: set<nat>, was: Disk, now: Disk) {
    now.Keys == was.Keys && forall b :: b in log && b in was ==> now[b] == was[b]
  }

  // ---------------------------------------------------------------------
  // Some of a list of writes

  /** The writes that were made. */
  function Kept(writes: seq<Write>, keep: seq<bool>): seq<Write>
    requires |keep| == |writes|
  {
    if writes == [] then [] else (if keep[0] then [writes[0]] else []) + Kept(writes[1..], keep[1..])
  }

  lemma {:induction false} KeptConcat(a: seq<Write>, b: seq<Write>, ka: seq<bool>, kb: seq<bool>)
    requires |ka| == |a| && |kb| == |b|
    ensures Kept(a + b, ka + kb) == Kept(a, ka) + Kept(b, kb)
  {
    if a == [] {
      assert a + b == b && ka + kb == kb;
    } else {
      KeptConcat(a[1..], b, ka[1..], kb);
      assert (a + b)[1..] == a[1..] + b && (ka + kb)[1..] == ka[1..] + kb;
      var first := if ka[0] then [a[0]] else [];
      assert first + Kept(a[1..], ka[1..]) + Kept(b, kb) == first + (Kept(a[1..], ka[1..]) + Kept(b, kb));
    }
  }

  lemma {:induction false} KeptAll(writes: seq<Write>, keep: seq<bool>)
    requires |keep| == |writes| && false !in keep
    ensures Kept(writes, keep) == writes
  {
    if writes != [] {
      KeptAll(writes[1..], keep[1..]);
    }
  }

  /** One more write, made or not. */
  lemma KeptOne(disk: Disk, writes: seq<Write>, keep: seq<bool>, w: Write, done: bool)
    requires |keep| == |writes|
    ensures Apply(disk, Kept(writes + [w], keep + [done]))
         == if done then Apply(disk, Kept(writes, keep))[w.target := w.block] else Apply(disk, Kept(writes, keep))
  {
    KeptConcat(writes, [w], keep, [done]);
    assert Kept([w], [done]) == if done then [w] else [];
    ApplyConcat(disk, Kept(writes, keep), Kept([w], [done]));
  }

  lemma KeptMore(disk: Disk, a: seq<Write>, b: seq<Write>, ka: seq<bool>, kb: seq<bool>)
    requires |ka| == |a| && |kb| == |b|
    ensures Apply(disk, Kept(a + b, ka + kb)) == Apply(Apply(disk, Kept(a, ka)), Kept(b, kb))
  {
    KeptConcat(a, b, ka, kb);
    ApplyConcat(disk, Kept(a, ka), Kept(b, kb));
  }
}
