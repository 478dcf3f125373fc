/** Passes 1b and 1d of fsck.ocfs2/pass1b.c: finding the inodes that share clusters, and
    resolving that.  The answers to the prompts and the outcome of every I/O are arbitrary. */
module DupPass {
  import opened Basics
  import opened DupClusters
  import opened DupLeaks
  import opened DupRuns
  import opened Oracle

  // ---------------------------------------------------------------------
  // The pass itself

  datatype Answer = Yes | No | AssertionFails

  /** How cloning an inode went; `Skipped` never got a temporary inode, but may have
      left some clusters allocated to nobody. */
  datatype Attempt =
    | Skipped(leaked: set<nat>)
    | Tried(temp: nat, grabbed: seq<nat>, progress: Progress, end: Ending, released: bool)

  /** What happened so far: `calm` as long as no truncate stopped half way and no swap
      was made by half, `cloned` as long as every inode tried was cloned, `crashed` once
      the assertion in can_free() has failed. */
  datatype Tally = Tally(calm: bool, cloned: bool, crashed: bool)

  /** No owner is a chain allocator. */
  ghost predicate NoChains(ctx: Context) {
    forall c, i :: c in ctx.owners && i in ctx.owners[c] ==> i !in ctx.chains
  }

  class Pass1d {
    const ctx: Context
    /** Every step on disk succeeds. */
    const steady: bool
    var inodes: map<nat, Inode>
    var bitmap: set<nat>
    var handled: set<nat>

    function Now(): State
      reads this
    {
      State(inodes, bitmap, handled)
    }

    constructor (ctx: Context, steady: bool, inodes: map<nat, Inode>, bitmap: set<nat>)
      ensures this.ctx == ctx && this.steady == steady && Now() == State(inodes, bitmap, {})
    {
      this.ctx, this.steady := ctx, steady;
      this.inodes, this.bitmap, this.handled := inodes, bitmap, {};
    }

    /** for_each_owner() with count_func() */
    method CountUnhandled(list: seq<nat>) returns (n: nat)
      ensures n == Unhandled(list, handled)
    {
      n := 0;
      for i := 0 to |list|
        invariant n + Unhandled(list[i..], handled) == Unhandled(list, handled)
      {
        assert list[i..][1..] == list[i + 1..];
        if list[i] !in handled {
          n := n + 1;
        }
      }
    }

    method CanFree(c: nat) returns (a: Answer)
      requires c in ctx.dups && c in ctx.owners
      ensures a == Yes ==> Freeable(ctx, handled, c)
      ensures a == No ==> !Freeable(ctx, handled, c)
      ensures a == AssertionFails <==> Unhandled(ctx.owners[c], handled) == 0
    {
      var unhandled := CountUnhandled(ctx.owners[c]);
      a := if unhandled == 0 then AssertionFails else if unhandled > 1 then No else Yes;
    }

    /** pass1d_free_clusters() over the clusters of one inode. */
    method FreeClusters(list: seq<nat>) returns (end: Ending)
      requires forall c :: c in ctx.dups ==> c in ctx.owners
      modifies this`bitmap
      ensures end.Stopped? ==> end.done <= |list|
      ensures bitmap == old(bitmap) - Freed(ctx, handled, if end.Stopped? then list[..end.done] else list)
      ensures steady && end.Stopped? ==> end.crashed
      ensures end.Stopped? && end.crashed ==> exists c :: c in list && Orphaned(ctx, handled, c)
      ensures end.Complete? ==> forall c :: c in list ==> !Orphaned(ctx, handled, c)
    {
      for i := 0 to |list|
        invariant bitmap == old(bitmap) - Freed(ctx, handled, list[..i])
        invariant forall k :: 0 <= k < i ==> !Orphaned(ctx, handled, list[k])
      {
        var c := list[i];
        FreedStep(ctx, handled, list, i);
        if c in ctx.dups {
          var a := CanFree(c);
          if a == AssertionFails {
            assert c in list && Orphaned(ctx, handled, c);
            return Stopped(i, true);
          } else if a == No {
            continue;
          }
        }
        var read := Chance(steady);
        if !read {
          return Stopped(i, false);
        }
        bitmap := bitmap - {c};
        var written := Chance(steady);
        if !written {
          return Stopped(i + 1, false);
        }
      }
      assert list[..|list|] == list;
      end := Complete;
    }

    /** The disk inode is replaced. */
    method Write(ino: nat, inode: Inode)
      modifies this`inodes
      ensures Now() == Put(old(Now()), ino, inode)
    {
      inodes := inodes[ino := inode];
    }

    method DeleteOneInode(ino: nat) returns (end: Ending, released: bool)
      requires forall c :: c in ctx.dups ==> c in ctx.owners
      modifies this`inodes, this`bitmap
      ensures end.Stopped? ==> end.done <= |Get(old(Now()), ino).clusters|
      ensures Now() == Delete(ctx, old(Now()), ino, end, released)
      ensures steady ==> if end.Stopped? then end.crashed else released
      ensures end.Stopped? && end.crashed ==> Asserts(ctx, old(Now()), ino)
      ensures end.Complete? ==> !Asserts(ctx, old(Now()), ino)
    {
      var inode := Get(Now(), ino);
      end, released := Complete, false;
      if inode.size != 0 {
        end := FreeClusters(inode.clusters);
        assert forall c :: Claims(old(Now()), ino, c) <==> c in inode.clusters;
        if end.Stopped? {
          return;
        }
        Write(ino, GONE);
      }
      released := Chance(steady);
      if released {
        Write(ino, GONE);
      }
    }

    /** new_clone(): an inode number that is not in use, and free clusters for the size of
        the original, unless something fails on the way. */
    method NewClone(orig: nat) returns (ok: bool, temp: nat, grabbed: seq<nat>)
      ensures Available(Now(), orig, temp, grabbed)
      ensures ok ==> |grabbed| == ClustersIn(ctx, Get(Now(), orig).size)
      ensures steady ==> ok
    {
      UnusedExists(Now(), orig, orig);
      temp :| temp != orig && Get(Now(), temp) == GONE;
      grabbed := [];
      ok := Chance(steady);
      var clusters := ClustersIn(ctx, Get(Now(), orig).size);
      while ok && |grabbed| < clusters
        invariant Available(Now(), orig, temp, grabbed) && |grabbed| <= clusters
        invariant steady ==> ok
        decreases clusters - |grabbed|, ok
      {
        FreeExists(bitmap + set c | c in grabbed);
        var c: nat :| c !in bitmap && c !in grabbed;
        ok := Chance(steady);
        if ok {
          grabbed := grabbed + [c];
        }
      }
    }

    method CloneOneInode(orig: nat) returns (a: Attempt)
      requires forall c :: c in ctx.dups ==> c in ctx.owners
      modifies this`inodes, this`bitmap
      ensures a.Skipped? ==> Now() == old(Now()).(bitmap := old(bitmap) + a.leaked)
      ensures a.Tried? ==>
        && Available(old(Now()), orig, a.temp, a.grabbed)
        && (a.end.Stopped? ==>
            a.end.done <= |Get(SwapTo(old(Now()), orig, a.temp, a.grabbed, a.progress), a.temp).clusters|)
        && Now() == Clone(ctx, old(Now()), orig, a.temp, a.grabbed, a.progress, a.end, a.released)
      ensures a.Tried? ==> |a.grabbed| == ClustersIn(ctx, Get(old(Now()), orig).size)
      ensures steady ==> a.Tried? && a.progress == Swapped && (if a.end.Stopped? then a.end.crashed else a.released)
      ensures steady ==> (a.end.Stopped? <==> Asserts(ctx, old(Now()), orig))
    {
      var ok, temp, grabbed := NewClone(orig);
      if !ok {
        bitmap := bitmap + (set c | c in grabbed);
        return Skipped(set c | c in grabbed);
      }
      Write(temp, Inode(grabbed, Get(Now(), orig).size));
      bitmap := bitmap + (set c | c in grabbed);
      // copy_clone() and swap_clone()
      var progress := NotSwapped;
      var copied := Chance(steady);
      if copied {
        Write(temp, Get(Now(), temp).(clusters := Get(Now(), orig).clusters));
        progress := HalfSwapped;
        var swapped := Chance(steady);
        if swapped {
          Write(orig, Get(Now(), orig).(clusters := grabbed));
          progress := Swapped;
        }
      }
      SwapAsserts(ctx, old(Now()), orig, temp, grabbed);
      var end, released := DeleteOneInode(temp);
      a := Tried(temp, grabbed, progress, end, released);
    }

    /** fix_dups_func(); `stop` ends the walk over the owners of one cluster. */
    method FixDups(ino: nat, answer: Choice) returns (stop: bool, tally: Tally, ghost x: Handling)
      requires forall c :: c in ctx.dups ==> c in ctx.owners
      modifies this
      ensures old(Inv(ctx, Now())) && tally.calm ==> Inv(ctx, Now())
      ensures old(handled) <= handled <= old(handled) + {ino}
      ensures tally.cloned ==> tally.calm && !stop && ino in handled
      ensures tally.crashed ==> stop && !tally.calm
      ensures Chosen(ctx, ino, answer) == ToKeep ==> Now() == old(Now()) && !stop && tally == Tally(true, false, false)
      ensures steady && Chosen(ctx, ino, answer) != ToKeep ==> (tally.crashed <==> Asserts(ctx, old(Now()), ino))
      ensures steady && Chosen(ctx, ino, answer) != ToKeep && !tally.crashed ==>
        && tally.calm && !stop && (Chosen(ctx, ino, answer) == ToClone ==> tally.cloned)
        && AskOne(ctx, ino, answer) == [x.what] && Fits(ctx, old(Now()), x) && Now() == Handle(ctx, old(Now()), x)
    {
      x := Handling(Treatment(ino, answer == ToDelete), 0, []);
      if ino in ctx.chains {
        return false, Tally(true, false, false), x;
      }
      if answer == ToClone {
        var size := Get(Now(), ino).size;
        var a := CloneOneInode(ino);
        var ok := a.Tried? && a.progress == Swapped && a.end == Complete && a.released;
        if ok {
          handled := handled + {ino};
          x := Handling(Treatment(ino, false), a.temp, a.grabbed);
        }
        stop := !ok;
        tally := Tally(a.Skipped? || (a.progress != HalfSwapped && a.end == Complete && (a.released || size > 0)), ok,
          a.Tried? && a.end.Stopped? && a.end.crashed);
        AttemptKeepsInv(ctx, old(Now()), Now(), ino, a);
      } else if ino !in ctx.system && answer == ToDelete {
        var end, released := DeleteOneInode(ino);
        stop := end.Stopped? || !released;
        if !stop {
          handled := handled + {ino};
        }
        tally := Tally(end == Complete, false, end.Stopped? && end.crashed);
        DeletionKeepsInv(ctx, old(Now()), Now(), ino, end, released);
      } else {
        stop, tally := false, Tally(true, false, false);
      }
    }

    /** The run so far led here. */
    ghost predicate OnTrack(s: State, run: seq<Handling>)
      reads this
    {
      Passes(ctx, s, run) && Now() == After(ctx, s, run)
    }

    ghost predicate Tracked(s: State, order: seq<nat>, i: nat, answers: seq<Choice>, k: nat, run: seq<Handling>)
      reads this
    {
      OnTrack(s, run) && Arrived(ctx, s, order, i, answers, k, run)
    }

    /** One owner in for_each_owner(), with the run so far. */
    method FixNext(list: seq<nat>, i: nat, answers: seq<Choice>, k: nat, ghost s: State, ghost first: seq<Treatment>,
        ghost done: seq<Handling>) returns (stop: bool, tally: Tally, ghost run: seq<Handling>)
      requires (forall c :: c in ctx.dups ==> c in ctx.owners) && i < |list|
      modifies this
      ensures old(Inv(ctx, Now())) && tally.calm ==> Inv(ctx, Now())
      ensures old(handled) <= handled
      ensures tally.cloned ==> tally.calm && !stop && handled == old(handled) + {list[i]}
      ensures tally.crashed ==> stop && !tally.calm
      ensures steady && !tally.crashed ==> tally.calm && !stop
      ensures steady && !tally.crashed && Chosen(ctx, list[i], AnswerTo(answers, k + i)) == ToClone ==> tally.cloned
      ensures steady && old(OnTrack(s, done)) && Treatments(done) == first + Ask(ctx, list, i, answers, k) ==>
        if tally.crashed then CrashesIn(ctx, s, first + Ask(ctx, list, |list|, answers, k), run)
        else OnTrack(s, run) && Treatments(run) == first + Ask(ctx, list, i + 1, answers, k)
    {
      ghost var tracked := steady && OnTrack(s, done) && Treatments(done) == first + Ask(ctx, list, i, answers, k);
      var answer := AnswerTo(answers, k + i);
      ghost var x;
      stop, tally, x := FixDups(list[i], answer);
      run := done;
      if tracked && Chosen(ctx, list[i], answer) != ToKeep {
        if tally.crashed {
          TrackEnds(ctx, s, first, list, i, answers, k, done);
        } else {
          RunExtends(ctx, s, done, x);
          PlusAssoc(first, Ask(ctx, list, i, answers, k), [x.what]);
          run := done + [x];
        }
      }
    }

    /** for_each_owner() with fix_dups_func() */
    method FixOwners(c: nat, answers: seq<Choice>, k: nat, ghost s: State, ghost done: seq<Handling>)
        returns (tally: Tally, ghost run: seq<Handling>)
      requires forall c :: c in ctx.dups ==> c in ctx.owners
      requires c in ctx.owners
      modifies this
      ensures old(Inv(ctx, Now())) && tally.calm ==> Inv(ctx, Now())
      ensures old(handled) <= handled
      ensures tally.cloned ==> tally.calm && handled == old(handled) + Elements(ctx.owners[c])
      ensures tally.crashed ==> !tally.calm
      ensures steady && !tally.crashed ==> tally.calm
      ensures steady && !tally.crashed && AllYes(answers) && NoChains(ctx) ==> tally.cloned
      ensures steady && old(OnTrack(s, done)) ==>
        var v := Treatments(done) + Ask(ctx, ctx.owners[c], |ctx.owners[c]|, answers, k);
        if tally.crashed then CrashesIn(ctx, s, v, run) else OnTrack(s, run) && Treatments(run) == v
    {
      var list := ctx.owners[c];
      tally, run := Tally(true, true, false), done;
      ghost var tracked := steady && OnTrack(s, done);
      ghost var yes := steady && AllYes(answers) && NoChains(ctx);
      PlusNone(Treatments(done));
      for i := 0 to |list|
        invariant old(Inv(ctx, Now())) && tally.calm ==> Inv(ctx, Now())
        invariant old(handled) <= handled && !tally.crashed && (steady ==> tally.calm) && (yes ==> tally.cloned)
        invariant tally.cloned ==> tally.calm && handled == old(handled) + Elements(list[..i])
        invariant tracked ==> OnTrack(s, run) && Treatments(run) == Treatments(done) + Ask(ctx, list, i, answers, k)
      {
        ElementsTake(list, i);
        var stop, t;
        stop, t, run := FixNext(list, i, answers, k, s, Treatments(done), run);
        tally := Tally(tally.calm && t.calm, tally.cloned && t.cloned, t.crashed);
        if stop {
          return;
        }
      }
      assert list[..|list|] == list;
    }

    /** The loop of o2fsck_pass1d(): the clusters in ascending order. */
    method RunLoop(order: seq<nat>, answers: seq<Choice>) returns (tally: Tally, ghost run: seq<Handling>)
      requires forall c :: c in ctx.dups ==> c in ctx.owners
      requires forall c :: c in order <==> c in ctx.owners
      modifies this
      ensures old(Inv(ctx, Now())) && tally.calm ==> Inv(ctx, Now())
      ensures (tally.cloned ==> tally.calm) && (steady ==> (tally.calm <==> !tally.crashed))
      ensures tally.cloned ==> forall c :: c in ctx.owners ==> Unhandled(ctx.owners[c], handled) < 2
      ensures steady && !tally.crashed && AllYes(answers) && NoChains(ctx) ==> tally.cloned
      ensures steady && old(handled) == {} ==>
        if tally.crashed then Crashes(ctx, old(Now()), order, answers, run)
        else OnTrack(old(Now()), run) && Treatments(run) == Schedule(ctx, order, answers)
    {
      tally, run := Tally(true, true, false), [];
      var k: nat := 0;
      ghost var s, tracked := Now(), steady && handled == {};
      ghost var yes := steady && AllYes(answers) && NoChains(ctx);
      for i := 0 to |order|
        invariant old(Inv(ctx, Now())) && tally.calm ==> Inv(ctx, Now())
        invariant (tally.cloned ==> tally.calm) && !tally.crashed && (steady ==> tally.calm) && (yes ==> tally.cloned)
        invariant tally.cloned ==> forall n :: 0 <= n < i ==> Unhandled(ctx.owners[order[n]], handled) < 2
        invariant tracked ==> Tracked(s, order, i, answers, k, run)
      {
        var c := order[i];
        var dups := CountUnhandled(ctx.owners[c]);
        if dups < 2 {
          if tracked {
            ArrivedSkip(ctx, s, order, i, answers, k, run);
          }
          continue;
        }
        ghost var before, done := handled, run;
        var t;
        if tracked {
          ArrivedAt(ctx, s, order, i, answers, k, run, ctx.owners[c]);
        }
        t, run := FixOwners(c, answers, k, s, done);
        tally := Tally(tally.calm && t.calm, tally.cloned && t.cloned, t.crashed);
        if t.crashed {
          if tracked {
            ArrivedCrash(ctx, s, order, i, answers, AgendaTo(ctx, order, i + 1, answers).steps, run);
          }
          return;
        }
        k := k + |ctx.owners[c]|;
        if tally.cloned {
          FewerLeft(ctx.owners, order, i, before, handled);
        }
      }
    }

    /** o2fsck_pass1d() */
    method Run(order: seq<nat>, answers: seq<Choice>) returns (tally: Tally, ghost run: seq<Handling>)
      requires forall c :: c in ctx.dups ==> c in ctx.owners
      requires forall c :: c in order <==> c in ctx.owners
      modifies this
      ensures old(Inv(ctx, Now())) && tally.calm ==> Inv(ctx, Now()) && Safe(Now())
      ensures tally.cloned ==> tally.calm
      ensures old(Inv(ctx, Now())) && tally.cloned ==> PairwiseDisjoint(Now())
      ensures steady ==> (tally.calm <==> !tally.crashed)
      ensures steady && old(handled) == {} ==>
        if tally.crashed then Crashes(ctx, old(Now()), order, answers, run)
        else OnTrack(old(Now()), run) && Treatments(run) == Schedule(ctx, order, answers)
      ensures steady && old(Begin(ctx, Now())) && !Hazardous(ctx, old(Now()), order, answers) ==>
        && tally.calm && Inv(ctx, Now())
        && (AllYes(answers) && NoChains(ctx) ==> tally.cloned && PairwiseDisjoint(Now()))
      ensures steady && old(Begin(ctx, Now())) && old(Tight(Now())) && !tally.crashed ==>
        (Tight(Now()) <==> forall c :: !Leaks(ctx, old(Now()), Schedule(ctx, order, answers), c))
    {
      ghost var s := Now();
      tally, run := RunLoop(order, answers);
      if tally.cloned && Inv(ctx, s) {
        NothingShared(ctx, Now());
      }
      if steady && Begin(ctx, s) {
        if tally.crashed {
          CrashNeedsHazard(ctx, s, order, answers, run);
        } else if Tight(s) {
          TightIff(ctx, s, run);
        }
      }
    }
  }

  lemma {:induction false} AskPrefix(ctx: Context, list: seq<nat>, i: nat, n: nat, answers: seq<Choice>, k: nat)
    requires i <= n <= |list|
    ensures Ask(ctx, list, i, answers, k) <= Ask(ctx, list, n, answers, k)
  {
    if i < n {
      AskPrefix(ctx, list, i, n - 1, answers, k);
    }
  }

  lemma {:induction false} CrashesLater(ctx: Context, s: State, v: seq<Treatment>, w: seq<Treatment>,
      run: seq<Handling>)
    requires CrashesIn(ctx, s, v, run) && v <= w
    ensures CrashesIn(ctx, s, w, run)
  {
    assert v[..|run|] == w[..|run|];
  }

  lemma {:induction false} CrashesNow(ctx: Context, s: State, run: seq<Handling>, x: Treatment)
    requires Passes(ctx, s, run) && Asserts(ctx, After(ctx, s, run), x.ino)
    ensures CrashesIn(ctx, s, Treatments(run) + [x], run)
  {
    assert (Treatments(run) + [x])[..|run|] == Treatments(run);
  }

  lemma {:induction false} TrackEnds(ctx: Context, s: State, first: seq<Treatment>, list: seq<nat>, i: nat,
      answers: seq<Choice>, k: nat, run: seq<Handling>)
    requires i < |list| && Passes(ctx, s, run) && Treatments(run) == first + Ask(ctx, list, i, answers, k)
    requires Chosen(ctx, list[i], AnswerTo(answers, k + i)) != ToKeep && Asserts(ctx, After(ctx, s, run), list[i])
    ensures CrashesIn(ctx, s, first + Ask(ctx, list, |list|, answers, k), run)
  {
    AskPrefix(ctx, list, i + 1, |list|, answers, k);
    var x := AskOne(ctx, list[i], AnswerTo(answers, k + i))[0];
    CrashesNow(ctx, s, run, x);
    PlusPrefix(first, Ask(ctx, list, i, answers, k), x, Ask(ctx, list, |list|, answers, k));
    CrashesLater(ctx, s, Treatments(run) + [x], first + Ask(ctx, list, |list|, answers, k), run);
  }

  lemma PlusPrefix<T>(a: seq<T>, b: seq<T>, x: T, c: seq<T>)
    requires b + [x] <= c
    ensures a + b + [x] <= a + c
  {
    assert a + c == a + b + [x] + c[|b| + 1..];
  }

  lemma {:induction false} RunHandles(ctx: Context, s: State, run: seq<Handling>)
    requires Passes(ctx, s, run)
    ensures After(ctx, s, run).handled == s.handled + Who(Treatments(run))
  {
    if run != [] {
      RunHandles(ctx, s, Front(run));
      RunExtends(ctx, s, Front(run), Last(run));
      assert run == Front(run) + [Last(run)];
      HandleEffect(ctx, After(ctx, s, Front(run)), Last(run));
      WhoAppend(Treatments(Front(run)), Last(run).what);
    }
  }

  /** The run has come to cluster `i` of the order, after `k` owners. */
  ghost predicate Arrived(ctx: Context, s: State, order: seq<nat>, i: nat, answers: seq<Choice>, k: nat,
      run: seq<Handling>)
  {
    && i <= |order| && s.handled == {} && Passes(ctx, s, run)
    && AgendaTo(ctx, order, i, answers) == Agenda(Treatments(run), k)
  }

  /** The next cluster has two unhandled owners left. */
  lemma {:induction false} ArrivedAt(ctx: Context, s: State, order: seq<nat>, i: nat, answers: seq<Choice>, k: nat,
      run: seq<Handling>, list: seq<nat>)
    requires Arrived(ctx, s, order, i, answers, k, run) && i < |order| && order[i] in ctx.owners
    requires list == ctx.owners[order[i]] && Unhandled(list, After(ctx, s, run).handled) >= 2
    ensures AgendaTo(ctx, order, i + 1, answers)
         == Agenda(Treatments(run) + Ask(ctx, list, |list|, answers, k), k + |list|)
  {
    RunHandles(ctx, s, run);
    assert {} + Who(Treatments(run)) == Who(Treatments(run));
  }

  lemma {:induction false} ArrivedSkip(ctx: Context, s: State, order: seq<nat>, i: nat, answers: seq<Choice>, k: nat,
      run: seq<Handling>)
    requires Arrived(ctx, s, order, i, answers, k, run) && i < |order| && order[i] in ctx.owners
    requires Unhandled(ctx.owners[order[i]], After(ctx, s, run).handled) < 2
    ensures Arrived(ctx, s, order, i + 1, answers, k, run)
  {
    RunHandles(ctx, s, run);
    assert {} + Who(Treatments(run)) == Who(Treatments(run));
  }

  lemma {:induction false} ArrivedCrash(ctx: Context, s: State, order: seq<nat>, i: nat, answers: seq<Choice>,
      v: seq<Treatment>, run: seq<Handling>)
    requires i < |order| && AgendaTo(ctx, order, i + 1, answers).steps == v && CrashesIn(ctx, s, v, run)
    ensures Crashes(ctx, s, order, answers, run)
  {
    AgendaGrows(ctx, order, i + 1, |order|, answers);
    CrashesLater(ctx, s, v, Schedule(ctx, order, answers), run);
  }

  /** Once all owners of a cluster are handled, fewer are left for the others too. */
  lemma FewerLeft(owners: map<nat, seq<nat>>, order: seq<nat>, n: nat, before: set<nat>, handled: set<nat>)
    requires n < |order| && (forall k :: 0 <= k <= n ==> order[k] in owners)
    requires handled == before + Elements(owners[order[n]])
    requires forall k :: 0 <= k < n ==> Unhandled(owners[order[k]], before) < 2
    ensures forall k :: 0 <= k <= n ==> Unhandled(owners[order[k]], handled) < 2
  {
    forall k | 0 <= k <= n
      ensures Unhandled(owners[order[k]], handled) < 2
    {
      if k == n {
        NoneUnhandled(owners[order[n]], handled);
      } else {
        UnhandledShrinks(owners[order[k]], before, handled);
      }
    }
  }

  /** The temporary inode has the clusters of the original when it is deleted. */
  lemma SwapAsserts(ctx: Context, s: State, orig: nat, temp: nat, grabbed: seq<nat>)
    requires temp != orig
    ensures Asserts(ctx, SwapTo(s, orig, temp, grabbed, Swapped), temp) <==> Asserts(ctx, s, orig)
  {
    var t := SwapTo(s, orig, temp, grabbed, Swapped);
    assert Get(t, temp) == Get(s, orig) && t.handled == s.handled;
    assert forall c :: Claims(t, temp, c) <==> Claims(s, orig, c);
  }

  lemma AttemptKeepsInv(ctx: Context, s: State, t: State, ino: nat, a: Attempt)
    requires a.Skipped? ==> t == s.(bitmap := s.bitmap + a.leaked)
    requires a.Tried? ==>
      && Available(s, ino, a.temp, a.grabbed)
      && (a.end.Stopped? ==> a.end.done <= |Get(SwapTo(s, ino, a.temp, a.grabbed, a.progress), a.temp).clusters|)
      && var d := Clone(ctx, s, ino, a.temp, a.grabbed, a.progress, a.end, a.released);
         t == if a.progress == Swapped && a.end == Complete && a.released then MarkHandled(d, ino) else d
    ensures Inv(ctx, s) && (a.Tried? ==>
      a.progress != HalfSwapped && a.end == Complete && (a.released || Get(s, ino).size > 0))
      ==> Inv(ctx, t)
  {
    if Inv(ctx, s) {
      if a.Skipped? {
        assert forall i, c :: Claims(t, i, c) == Claims(s, i, c);
      } else if a.progress != HalfSwapped && a.end == Complete && (a.released || Get(s, ino).size > 0) {
        CloneKeepsInv(ctx, s, ino, a.temp, a.grabbed, a.progress, a.released);
        if a.progress == Swapped && a.released {
          MarkKeepsInv(ctx, Clone(ctx, s, ino, a.temp, a.grabbed, a.progress, a.end, a.released), ino);
        }
      }
    }
  }

  lemma DeletionKeepsInv(ctx: Context, s: State, t: State, ino: nat, end: Ending, released: bool)
    requires end.Stopped? ==> end.done <= |Get(s, ino).clusters|
    requires var d := Delete(ctx, s, ino, end, released);
      t == if end == Complete && released then MarkHandled(d, ino) else d
    ensures Inv(ctx, s) && end == Complete ==> Inv(ctx, t)
  {
    if Inv(ctx, s) && end == Complete {
      DeleteKeepsInv(ctx, s, ino, released);
      if released {
        MarkKeepsInv(ctx, Delete(ctx, s, ino, end, released), ino);
      }
    }
  }

  lemma FreedStep(ctx: Context, handled: set<nat>, list: seq<nat>, i: nat)
    requires i < |list|
    ensures Freed(ctx, handled, list[..i + 1])
         == Freed(ctx, handled, list[..i]) + if Freeable(ctx, handled, list[i]) then {list[i]} else {}
  {
    assert list[..i + 1] == list[..i] + [list[i]];
  }
  // ---------------------------------------------------------------------
  // Passes 1 and 1b: finding the shared clusters and their owners

  /** dup_insert(): an owner is listed once, at the end of its cluster's list. */
  function Inserted(owners: map<nat, seq<nat>>, c: nat, ino: nat): map<nat, seq<nat>> {
    if c !in owners then owners[c := [ino]]
    else if ino in owners[c] then owners
    else owners[c := owners[c] + [ino]]
  }

  class Scanner {
    var inUse: set<nat>
    var dups: set<nat>
    var owners: map<nat, seq<nat>>

    constructor ()
      ensures inUse == {} && dups == {} && owners == map[]
    {
      inUse, dups, owners := {}, {}, map[];
    }

    /** o2fsck_mark_cluster_allocated(), for the clusters of one inode. */
    method MarkAllocated(clusters: seq<nat>)
      modifies this`inUse, this`dups
      ensures inUse == old(inUse) + (set c | c in clusters)
      ensures old(dups) + (old(inUse) * (set c | c in clusters)) <= dups <= old(dups) + (set c | c in clusters)
    {
      for i := 0 to |clusters|
        invariant inUse == old(inUse) + (set c | c in clusters[..i])
        invariant old(dups) + (old(inUse) * (set c | c in clusters[..i])) <= dups
        invariant dups <= old(dups) + (set c | c in clusters[..i])
      {
        var c := clusters[i];
        assert clusters[..i + 1] == clusters[..i] + [c];
        if c in inUse {
          dups := dups + {c};
        }
        inUse := inUse + {c};
      }
      assert clusters[..|clusters|] == clusters;
    }

    method DupInsert(c: nat, ino: nat)
      modifies this`owners
      ensures owners == Inserted(old(owners), c, ino)
    {
      if c !in owners {
        owners := owners[c := []];
      }
      var list := owners[c];
      var found := false;
      for i := 0 to |list|
        invariant found == (ino in list[..i])
      {
        assert list[..i + 1] == list[..i] + [list[i]];
        if list[i] == ino {
          found := true;
        }
      }
      assert list[..|list|] == list;
      if !found {
        owners := owners[c := list + [ino]];
        assert list == [] ==> list + [ino] == [ino];
      }
    }

    /** process_dup_clusters(), for the clusters of one inode. */
    method ProcessDups(clusters: seq<nat>, ino: nat)
      modifies this`owners
      requires Listed(owners, ino)
      ensures forall c :: c in clusters && c in dups ==> c in owners && ino in owners[c]
      ensures forall c :: c in owners ==> Distinct(owners[c])
      ensures Grown(old(owners), owners, ino, (set c | c in clusters) * dups)
    {
      for i := 0 to |clusters|
        invariant forall k :: 0 <= k < i && clusters[k] in dups ==> clusters[k] in owners && ino in owners[clusters[k]]
        invariant forall c :: c in owners ==> Distinct(owners[c])
        invariant Grown(old(owners), owners, ino, (set c | c in clusters) * dups)
      {
        if clusters[i] in dups {
          GrownInserted(old(owners), owners, clusters[i], ino, (set c | c in clusters) * dups);
          DupInsert(clusters[i], ino);
        }
      }
    }

    /** Pass 1: every cluster claimed by two inodes ends up in `dups`. */
    method MarkAll(order: seq<nat>, inodes: map<nat, Inode>)
      requires forall i :: i in order ==> i in inodes
      requires inUse == {} && dups == {}
      modifies this`inUse, this`dups
      ensures forall c :: c in dups ==> ClaimedIn(order, inodes, c)
      ensures forall k, l, c :: 0 <= k < l < |order| && Lists(inodes, order[k], c) && Lists(inodes, order[l], c) ==>
        c in dups
    {
      for n := 0 to |order|
        invariant forall k, c :: 0 <= k < n && Lists(inodes, order[k], c) ==> c in inUse
        invariant forall c :: c in dups ==> ClaimedIn(order, inodes, c)
        invariant forall k, l, c :: 0 <= k < l < n && Lists(inodes, order[k], c) && Lists(inodes, order[l], c) ==>
          c in dups
      {
        MarkAllocated(inodes[order[n]].clusters);
        assert forall c :: c in inodes[order[n]].clusters ==> Lists(inodes, order[n], c);
      }
    }

    /** Pass 1b: every shared cluster gets the list of exactly its claimants. */
    method ProcessAll(order: seq<nat>, inodes: map<nat, Inode>)
      requires Distinct(order) && forall i :: i in order ==> i in inodes
      requires owners == map[]
      modifies this`owners
      ensures forall c :: c in owners ==> c in dups && Distinct(owners[c])
      ensures forall c, i :: c in owners && i in owners[c] ==> i in order && Lists(inodes, i, c)
      ensures forall k, c :: 0 <= k < |order| && c in dups && Lists(inodes, order[k], c) ==>
        c in owners && order[k] in owners[c]
    {
      for n := 0 to |order|
        invariant forall c :: c in owners ==> c in dups && Distinct(owners[c])
        invariant forall c, i :: c in owners && i in owners[c] ==> i in order[..n] && Lists(inodes, i, c)
        invariant forall k, c :: 0 <= k < n && c in dups && Lists(inodes, order[k], c) ==>
          c in owners && order[k] in owners[c]
      {
        assert order[n] !in order[..n];
        ProcessDups(inodes[order[n]].clusters, order[n]);
        assert order[..n + 1] == order[..n] + [order[n]];
      }
      assert order[..|order|] == order;
    }
  }

  predicate Lists(inodes: map<nat, Inode>, ino: nat, c: nat) {
    ino in inodes && c in inodes[ino].clusters
  }

  ghost predicate ClaimedIn(order: seq<nat>, inodes: map<nat, Inode>, c: nat) {
    exists k :: 0 <= k < |order| && Lists(inodes, order[k], c)
  }

  ghost predicate Listed(owners: map<nat, seq<nat>>, ino: nat) {
    forall c :: c in owners ==> Distinct(owners[c]) && ino !in owners[c]
  }

  /** The lists of `cs` may have gained `ino`; nothing else changed. */
  ghost predicate Grown(before: map<nat, seq<nat>>, after: map<nat, seq<nat>>, ino: nat, cs: set<nat>) {
    && (forall c :: c in before ==> c in after && forall i :: i in before[c] ==> i in after[c])
    && (forall c, i :: c in after && i in after[c] ==> (c in before && i in before[c]) || (i == ino && c in cs))
    && (forall c :: c in after && c !in before ==> c in cs)
  }

  lemma GrownInserted(before: map<nat, seq<nat>>, mid: map<nat, seq<nat>>, c: nat, ino: nat, cs: set<nat>)
    requires Grown(before, mid, ino, cs) && c in cs && forall d :: d in mid ==> Distinct(mid[d])
    ensures var after := Inserted(mid, c, ino);
      && Grown(before, after, ino, cs) && c in after && ino in after[c]
      && (forall d :: d in after ==> Distinct(after[d]))
      && (forall d :: d in mid && ino in mid[d] ==> d in after && ino in after[d])
  {
  }

  /** Passes 1 and 1b over all inodes: what they hand to pass 1d satisfies its
      invariant when the bitmap covers all claims. */
  method Scan(order: seq<nat>, inodes: map<nat, Inode>, chains: set<nat>, system: set<nat>, clusterSize: Positive)
    returns (ctx: Context)
    requires Distinct(order) && forall i :: i in order <==> i in inodes
    ensures forall c :: c in ctx.dups <==> c in ctx.owners
    ensures forall c, i :: c in ctx.owners ==> (i in ctx.owners[c] <==> Lists(inodes, i, c))
    ensures forall bitmap :: Safe(State(inodes, bitmap, {})) ==> Begin(ctx, State(inodes, bitmap, {}))
  {
    var scanner := new Scanner();
    scanner.MarkAll(order, inodes);
    scanner.ProcessAll(order, inodes);
    ctx := Context(scanner.dups, scanner.owners, chains, system, clusterSize);
    forall bitmap | Safe(State(inodes, bitmap, {}))
      ensures Begin(ctx, State(inodes, bitmap, {}))
    {
      SharedFound(order, ctx, State(inodes, bitmap, {}));
    }
  }

  lemma SharedFound(order: seq<nat>, ctx: Context, s: State)
    requires s.handled == {} && forall i :: i in order <==> i in s.inodes
    requires forall c :: c in ctx.dups <==> c in ctx.owners
    requires forall c, i :: c in ctx.owners ==> (i in ctx.owners[c] <==> Lists(s.inodes, i, c))
    requires forall k, l, c ::
      0 <= k < l < |order| && Lists(s.inodes, order[k], c) && Lists(s.inodes, order[l], c) ==> c in ctx.dups
    ensures SharedByOwners(ctx, s)
  {
    forall i, j, c | i != j && Claims(s, i, c) && Claims(s, j, c)
      ensures Waiting(ctx, s, c, i)
    {
      assert Lists(s.inodes, i, c) && Lists(s.inodes, j, c);
      var k :| 0 <= k < |order| && order[k] == i;
      var l :| 0 <= l < |order| && order[l] == j;
      assert k < l || l < k;
    }
  }

}
