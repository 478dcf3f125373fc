/** What the records of revoke blocks mean to the recovery (fsck.ocfs2/journal.c), and what
    a first walk that could not read a header leaves out. */
module JournalRevokes {
  import opened Basics
  import opened Journal
  import opened Words

  /** The transaction of header `i`, counted from the first. */
  function Number(extent: seq<nat>, disk: Disk, trace: seq<Pos>, i: nat): nat
    requires i <= |trace|
  {
    Commits(extent, disk, trace[..i])
  }

  /** Sequence numbers count transactions from that of the superblock, `first`. */
  ghost predicate Numbered(extent: seq<nat>, disk: Disk, first: nat, trace: seq<Pos>) {
    && |trace| < WORD32 / 2 && first < WORD32
    && forall i :: 0 <= i < |trace| ==> trace[i].sq == (first + Number(extent, disk, trace, i)) % WORD32
  }

  predicate Names(extent: seq<nat>, disk: Disk, p: Pos, target: nat) {
    KindAt(extent, disk, p) == Revoke && target in Named(disk[extent[p.block]])
  }

  lemma {:induction false} CommitsConcat(extent: seq<nat>, disk: Disk, a: seq<Pos>, b: seq<Pos>)
    ensures Commits(extent, disk, a + b) == Commits(extent, disk, a) + Commits(extent, disk, b)
  {
    if a == [] {
      assert a + b == b;
    } else {
      CommitsConcat(extent, disk, a[1..], b);
      assert (a + b)[1..] == a[1..] + b;
    }
  }

  lemma {:induction false} NumberGrows(extent: seq<nat>, disk: Disk, trace: seq<Pos>, i: nat, j: nat)
    requires i <= j <= |trace|
    ensures Number(extent, disk, trace, i) <= Number(extent, disk, trace, j) <= |trace|
  {
    assert trace[..j] == trace[..i] + trace[i..j];
    CommitsConcat(extent, disk, trace[..i], trace[i..j]);
  }

  /** The first walk numbers its headers so. */
  lemma {:induction false} ScanNumbers(extent: seq<nat>, sb: Super, disk: Disk, p: Pos, used: set<nat>, luck: Luck,
      i: nat)
    requires sb.first < sb.maxlen && i < |ScanFrom(extent, sb, disk, p, used, luck).trace|
    ensures var trace := ScanFrom(extent, sb, disk, p, used, luck).trace;
      trace[i].sq == Forward(p.sq, Number(extent, disk, trace, i))
    decreases i
  {
    var trace := ScanFrom(extent, sb, disk, p, used, luck).trace;
    var q, used', luck' := ScanNext(extent, sb, disk, p, used, luck);
    if i > 0 {
      ScanNumbers(extent, sb, disk, q, used', luck', i - 1);
      NumberHead(extent, disk, trace, i);
    } else {
      assert trace[..0] == [];
    }
  }

  lemma {:induction false} NumberHead(extent: seq<nat>, disk: Disk, trace: seq<Pos>, i: nat)
    requires 0 < i <= |trace|
    ensures Number(extent, disk, trace, i)
         == (if KindAt(extent, disk, trace[0]) == Commit then 1 else 0) + Number(extent, disk, trace[1..], i - 1)
  {
    assert trace[..i][1..] == trace[1..][..i - 1] && trace[..i][0] == trace[0];
    CommitsHead(extent, disk, trace[..i]);
  }

  lemma {:induction false} ScanSequence(extent: seq<nat>, sb: Super, disk: Disk, p: Pos, used: set<nat>, luck: Luck,
      i: nat)
    requires sb.first < sb.maxlen && p.sq < WORD32 && i < |ScanFrom(extent, sb, disk, p, used, luck).trace|
    ensures var trace := ScanFrom(extent, sb, disk, p, used, luck).trace;
      trace[i].sq == (p.sq + Number(extent, disk, trace, i)) % WORD32
  {
    ScanNumbers(extent, sb, disk, p, used, luck, i);
    ForwardAdds(p.sq, Number(extent, disk, ScanFrom(extent, sb, disk, p, used, luck).trace, i));
  }

  lemma {:induction false} BlocksBound(extent: seq<nat>)
    ensures |Blocks(extent)| <= |extent|
  {
    if extent == [] {
      assert Blocks(extent) == {};
    } else {
      BlocksBound(extent[1..]);
      assert extent == [extent[0]] + extent[1..];
      assert Blocks(extent) == {extent[0]} + Blocks(extent[1..]);
    }
  }

  lemma {:induction false} FewerBlocks(a: set<nat>, b: set<nat>)
    ensures |a - b| <= |a|
  {
    assert a == (a - b) + (a * b);
  }

  lemma {:induction false} ScanShort(extent: seq<nat>, sb: Super, disk: Disk, p: Pos, used: set<nat>, luck: Luck)
    requires Readable(extent, sb, disk)
    ensures |ScanFrom(extent, sb, disk, p, used, luck).trace| < WORD32 / 2
  {
    TraceBound(extent, sb, disk, p, used, luck);
    BlocksBound(extent);
    FewerBlocks(Blocks(extent), used);
  }

  lemma {:induction false} ScanNumbered(extent: seq<nat>, sb: Super, disk: Disk, p: Pos, used: set<nat>, luck: Luck)
    requires Readable(extent, sb, disk) && p.sq < WORD32
    ensures Numbered(extent, disk, p.sq, ScanFrom(extent, sb, disk, p, used, luck).trace)
  {
    var trace := ScanFrom(extent, sb, disk, p, used, luck).trace;
    ScanShort(extent, sb, disk, p, used, luck);
    forall i | 0 <= i < |trace|
      ensures trace[i].sq == (p.sq + Number(extent, disk, trace, i)) % WORD32
    {
      ScanSequence(extent, sb, disk, p, used, luck, i);
    }
  }

  /** Sequence numbers compare as the transactions do. */
  lemma {:induction false} SeqCompare(first: nat, a: nat, b: nat)
    requires first < WORD32 && a < WORD32 / 2 && b < WORD32 / 2
    ensures SeqGt((first + a) % WORD32, (first + b) % WORD32) <==> a > b
    ensures (first + a) % WORD32 == (first + b) % WORD32 <==> a == b
  {
  }

  lemma {:induction false} HeadersCompare(extent: seq<nat>, disk: Disk, first: nat, trace: seq<Pos>, i: nat, j: nat)
    requires Numbered(extent, disk, first, trace) && i < |trace| && j < |trace|
    ensures SeqGt(trace[i].sq, trace[j].sq) <==> Number(extent, disk, trace, i) > Number(extent, disk, trace, j)
    ensures trace[i].sq == trace[j].sq <==> Number(extent, disk, trace, i) == Number(extent, disk, trace, j)
  {
    NumberGrows(extent, disk, trace, i, |trace|);
    NumberGrows(extent, disk, trace, j, |trace|);
    SeqCompare(first, Number(extent, disk, trace, i), Number(extent, disk, trace, j));
  }

  // ---------------------------------------------------------------------
  // The record of a block is that of the last revoke block that names it

  lemma {:induction false} RecordOnce(rv: Revokes, target: nat, sq: nat, other: nat)
    requires sq < WORD32
    ensures var after := Record(rv, target, sq);
      && target in after && Record(after, target, sq) == after
      && (other != target ==> (other in after <==> other in rv) && (other in rv ==> after[other] == rv[other]))
  {
  }

  lemma {:induction false} RecordAllAt(rv: Revokes, targets: seq<nat>, sq: nat, target: nat)
    requires sq < WORD32
    ensures var after := RecordAll(rv, targets, sq);
      if target in targets then target in after && after[target] == Record(rv, target, sq)[target]
      else (target in after <==> target in rv) && (target in rv ==> after[target] == rv[target])
  {
    if targets != [] {
      RecordAllAt(rv, Front(targets), sq, target);
      RecordOnce(RecordAll(rv, Front(targets), sq), Last(targets), sq, target);
      RecordOnce(rv, target, sq, target);
      assert targets == Front(targets) + [Last(targets)];
    }
  }

  /** Header `j` is the last of `trace` that names `target`. */
  ghost predicate LastNaming(extent: seq<nat>, disk: Disk, trace: seq<Pos>, target: nat, j: nat) {
    && j < |trace| && Names(extent, disk, trace[j], target)
    && forall k :: j < k < |trace| ==> !Names(extent, disk, trace[k], target)
  }

  ghost predicate NoneNames(extent: seq<nat>, disk: Disk, trace: seq<Pos>, target: nat) {
    forall k :: 0 <= k < |trace| ==> !Names(extent, disk, trace[k], target)
  }

  lemma {:induction false} NumberedFront(extent: seq<nat>, disk: Disk, first: nat, trace: seq<Pos>)
    requires trace != [] && Numbered(extent, disk, first, trace)
    ensures Numbered(extent, disk, first, Front(trace))
  {
    forall i | 0 <= i < |trace| - 1
      ensures Front(trace)[i].sq == (first + Number(extent, disk, Front(trace), i)) % WORD32
    {
      assert Front(trace)[..i] == trace[..i];
    }
  }

  lemma {:induction false} RecordIsLast(extent: seq<nat>, disk: Disk, first: nat, trace: seq<Pos>, target: nat)
    requires Numbered(extent, disk, first, trace)
    ensures var rv := Records(extent, disk, trace);
      if target in rv then exists j: nat :: LastNaming(extent, disk, trace, target, j) && rv[target] == trace[j].sq
      else NoneNames(extent, disk, trace, target)
  {
    if trace != [] {
      var front, n := Front(trace), |trace| - 1;
      NumberedFront(extent, disk, first, trace);
      RecordIsLast(extent, disk, first, front, target);
      var rv := Records(extent, disk, front);
      assert trace[n].sq < WORD32;
      if KindAt(extent, disk, trace[n]) == Revoke {
        RecordAllAt(rv, Named(disk[extent[trace[n].block]]), trace[n].sq, target);
      }
      if target in rv {
        var j: nat :| LastNaming(extent, disk, front, target, j) && rv[target] == front[j].sq;
        HeadersCompare(extent, disk, first, trace, n, j);
        NumberGrows(extent, disk, trace, j, n);
        assert LastNaming(extent, disk, trace, target, if Names(extent, disk, trace[n], target) then n else j);
      } else if Names(extent, disk, trace[n], target) {
        assert LastNaming(extent, disk, trace, target, n);
      }
    }
  }

  /** A revoke block at or after the transaction of header `i` names `target`. */
  ghost predicate RevokedSince(extent: seq<nat>, disk: Disk, trace: seq<Pos>, i: nat, target: nat)
    requires i < |trace|
  {
    exists j :: 0 <= j < |trace| && Names(extent, disk, trace[j], target)
      && Number(extent, disk, trace, i) <= Number(extent, disk, trace, j)
  }

  /** A block logged in the transaction of header `i` is passed over if and only if a revoke
      block of that transaction or a later one names it, committed or not; and the search
      for it never ends if and only if only revoke blocks of earlier transactions do. */
  lemma {:induction false} SkippedIff(extent: seq<nat>, disk: Disk, first: nat, trace: seq<Pos>, i: nat, target: nat)
    requires Numbered(extent, disk, first, trace) && i < |trace|
    ensures var v := Judge(Records(extent, disk, trace), target, trace[i].sq);
      && (v == Revoked <==> RevokedSince(extent, disk, trace, i, target))
      && (v == Spins <==> !NoneNames(extent, disk, trace, target) && !RevokedSince(extent, disk, trace, i, target))
  {
    var rv := Records(extent, disk, trace);
    RecordIsLast(extent, disk, first, trace, target);
    if target in rv {
      var j: nat :| LastNaming(extent, disk, trace, target, j) && rv[target] == trace[j].sq;
      HeadersCompare(extent, disk, first, trace, i, j);
      forall k | 0 <= k < |trace| && Names(extent, disk, trace[k], target)
        ensures Number(extent, disk, trace, k) <= Number(extent, disk, trace, j)
      {
        NumberGrows(extent, disk, trace, k, j);
      }
    }
  }

  /** Coming to a revoke block again in the recovery records nothing new. */
  lemma {:induction false} RecordedAgain(rv: Revokes, targets: seq<nat>, sq: nat)
    requires forall b :: b in targets ==> b in rv && !SeqGt(sq, rv[b])
    ensures RecordAll(rv, targets, sq) == rv
  {
    if targets != [] {
      assert targets == Front(targets) + [Last(targets)];
      RecordedAgain(rv, Front(targets), sq);
    }
  }

  lemma {:induction false} HeaderAgain(extent: seq<nat>, disk: Disk, first: nat, trace: seq<Pos>, i: nat)
    requires Numbered(extent, disk, first, trace) && i < |trace|
    ensures var rv := Records(extent, disk, trace);
      RecordAt(extent, disk, rv, trace[i]) == rv
  {
    var rv := Records(extent, disk, trace);
    if KindAt(extent, disk, trace[i]) == Revoke {
      var targets := Named(disk[extent[trace[i].block]]);
      forall b | b in targets
        ensures b in rv && !SeqGt(trace[i].sq, rv[b])
      {
        assert Names(extent, disk, trace[i], b);
        SkippedIff(extent, disk, first, trace, i, b);
        assert RevokedSince(extent, disk, trace, i, b);
      }
      RecordedAgain(rv, targets, trace[i].sq);
    }
  }

  // ---------------------------------------------------------------------
  // A first walk that could not read a header

  /** It saw the headers up to there. */
  lemma {:induction false} CutShort(extent: seq<nat>, sb: Super, disk: Disk, p: Pos, used: set<nat>, k: nat)
    requires sb.first < sb.maxlen
    ensures var all := ScanFrom(extent, sb, disk, p, used, None).trace;
      ScanFrom(extent, sb, disk, p, used, Some(k)).trace == if k <= |all| then all[..k] else all
    decreases k
  {
    if k > 0 && p.block < |extent| && extent[p.block] !in used && extent[p.block] in disk {
      var blk := extent[p.block];
      var m := Advance(sb, disk, disk[blk], p);
      if m.Go? {
        CutShort(extent, sb, disk, m.next, used + {blk}, k - 1);
        TakeCons(p, ScanFrom(extent, sb, disk, m.next, used + {blk}, None).trace, k);
      }
    }
  }

  lemma {:induction false} TakeCons(p: Pos, rest: seq<Pos>, k: nat)
    requires k > 0
    ensures k <= |rest| + 1 ==> ([p] + rest)[..k] == [p] + rest[..k - 1]
  {
  }

  lemma {:induction false} CommittedPrefix(extent: seq<nat>, disk: Disk, trace: seq<Pos>, k: nat)
    requires k <= |trace|
    ensures Committed(extent, disk, trace[..k]) <= Committed(extent, disk, trace)
    ensures Committed(extent, disk, trace[..k]) == Committed(extent, disk, trace) <==>
      forall j :: k <= j < |trace| ==> KindAt(extent, disk, trace[j]) != Commit
  {
    CommitsMeans(extent, disk, trace);
    CommitsMeans(extent, disk, trace[..k]);
    if k > 0 && Commits(extent, disk, trace[..k]) > 0 {
      CommittedPrefix(extent, disk, trace[1..], k - 1);
      assert trace[..k][1..] == trace[1..][..k - 1];
    }
  }
}
