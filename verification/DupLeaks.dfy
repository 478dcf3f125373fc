/** Clusters that pass 1d of fsck.ocfs2/pass1b.c leaves set although no inode claims them, in
    runs in which nothing fails on disk. */
module DupLeaks {
  import opened Basics
  import opened DupClusters
  import opened DupRuns

  ghost predicate Claimed(s: State, c: nat) {
    exists i :: Claims(s, i, c)
  }

  /** Set, and claimed by no inode. */
  ghost predicate Lost(s: State, c: nat) {
    c in s.bitmap && !Claimed(s, c)
  }

  ghost predicate Tight(s: State) {
    forall c :: !Lost(s, c)
  }

  // ---------------------------------------------------------------------
  // Each step keeps the invariant

  lemma {:induction false} HandleKeepsInv(ctx: Context, s: State, x: Handling)
    requires Inv(ctx, s) && Fits(ctx, s, x)
    ensures Inv(ctx, Handle(ctx, s, x))
  {
    var ino := x.what.ino;
    if x.what.delete {
      DeleteKeepsInv(ctx, s, ino, true);
      MarkKeepsInv(ctx, Delete(ctx, s, ino, Complete, true), ino);
    } else {
      CloneKeepsInv(ctx, s, ino, x.temp, x.grabbed, Swapped, true);
      MarkKeepsInv(ctx, Clone(ctx, s, ino, x.temp, x.grabbed, Swapped, Complete, true), ino);
    }
  }

  lemma {:induction false} RunKeepsInv(ctx: Context, s: State, run: seq<Handling>)
    requires Inv(ctx, s) && Passes(ctx, s, run)
    ensures Inv(ctx, After(ctx, s, run))
  {
    if run != [] {
      RunKeepsInv(ctx, s, Front(run));
      HandleKeepsInv(ctx, After(ctx, s, Front(run)), Last(run));
    }
  }

  // ---------------------------------------------------------------------
  // What is lost, told from owners, sizes and the order of the steps

  /** With `v[m]` an empty inode is handled for the first time, which claims `c` and of all its
      owners is the last. */
  ghost predicate LostAt(ctx: Context, s: State, v: seq<Treatment>, c: nat, m: nat) {
    && m < |v| && Get(s, v[m].ino).size == 0 && Claims(s, v[m].ino, c) && v[m].ino !in Who(v[..m])
    && (c in ctx.owners ==> forall i :: i in ctx.owners[c] ==> i in Who(v[..m + 1]))
  }

  ghost predicate Leaks(ctx: Context, s: State, v: seq<Treatment>, c: nat) {
    exists m: nat :: LostAt(ctx, s, v, c, m)
  }

  lemma {:induction false} LeaksLater(ctx: Context, s: State, v: seq<Treatment>, x: Treatment, c: nat)
    ensures Leaks(ctx, s, v + [x], c) <==> Leaks(ctx, s, v, c) || LostAt(ctx, s, v + [x], c, |v|)
  {
    var w := v + [x];
    forall m: nat | m < |v|
      ensures LostAt(ctx, s, w, c, m) <==> LostAt(ctx, s, v, c, m)
    {
      assert w[..m] == v[..m] && w[..m + 1] == v[..m + 1];
    }
    if Leaks(ctx, s, w, c) {
      var m: nat :| LostAt(ctx, s, w, c, m);
      assert m < |v| ==> LostAt(ctx, s, v, c, m);
    }
    if Leaks(ctx, s, v, c) {
      var m: nat :| LostAt(ctx, s, v, c, m);
      assert LostAt(ctx, s, w, c, m);
    }
  }

  /** `e` claims `c`, and nobody else does. */
  ghost predicate SoleClaim(t: State, e: nat, c: nat) {
    Claims(t, e, c) && forall i :: i != e ==> !Claims(t, i, c)
  }

  /** Empty inodes claim nothing once they were handled. */
  ghost predicate EmptyDone(t: State) {
    forall i :: i in t.handled && Get(t, i).size == 0 ==> Get(t, i).clusters == []
  }

  /** What a step loses: the clusters that an empty inode alone claims. */
  lemma {:induction false} StepLoses(ctx: Context, s: State, t: State, v: seq<Treatment>, x: Handling, c: nat)
    requires Begin(ctx, s) && Along(ctx, s, t, v) && Inv(ctx, t) && Fits(ctx, t, x)
    ensures Lost(Handle(ctx, t, x), c) <==>
      Lost(t, c) || (Get(t, x.what.ino).size == 0 && SoleClaim(t, x.what.ino, c))
  {
    var t', e := Handle(ctx, t, x), x.what.ino;
    HandleEffect(ctx, t, x);
    assert forall i :: i != e ==> Claims(t', i, c) == Claims(t, i, c);
    assert Claims(t', e, c) <==> c in x.grabbed;
    if c in x.grabbed {
      assert Claimed(t', c) && c !in t.bitmap;
      assert !Claims(t, e, c);
    } else if Claims(t, e, c) {
      assert c in t.bitmap;
      if Get(t, e).size > 0 && SoleClaim(t, e, c) {
        AloneFreed(ctx, s, t, v, e, c);
      }
      if i :| i != e && Claims(t, i, c) {
        assert Claims(t', i, c);
      }
    } else if c in t.bitmap {
      assert Claimed(t', c) <==> Claimed(t, c);
      assert c !in Freed(ctx, t.handled, Get(t, e).clusters);
    }
  }

  /** A cluster that only one inode claims is freed with it. */
  lemma {:induction false} AloneFreed(ctx: Context, s: State, t: State, v: seq<Treatment>, e: nat, c: nat)
    requires Begin(ctx, s) && Along(ctx, s, t, v) && SoleClaim(t, e, c)
    ensures c in Freed(ctx, t.handled, Get(t, e).clusters)
  {
    if c in ctx.owners {
      forall i | i in ctx.owners[c] && i != e
        ensures i in t.handled
      {
        assert Claims(s, i, c);
        assert i !in t.handled ==> Claims(t, i, c);
      }
      NoneUnhandled(ctx.owners[c], t.handled + {e});
      UnhandledStep(ctx.owners[c], t.handled, e);
    }
  }

  /** Which clusters those are. */
  lemma {:induction false} AloneIff(ctx: Context, s: State, t: State, v: seq<Treatment>, x: Treatment, c: nat)
    requires Begin(ctx, s) && Along(ctx, s, t, v) && Inv(ctx, t) && EmptyDone(t)
    ensures Get(t, x.ino).size == 0 && SoleClaim(t, x.ino, c) <==> LostAt(ctx, s, v + [x], c, |v|)
  {
    var w, e := v + [x], x.ino;
    WhoAppend(v, x);
    assert w[|v|] == x;
    if e !in t.handled {
      assert Get(t, e) == Get(s, e);
      if Claims(t, e, c) {
        assert Claims(s, e, c);
        OthersHandled(ctx, s, t, v, e, c);
      }
    }
  }

  /** Nobody else claims `c` exactly when all its other owners are handled. */
  lemma {:induction false} OthersHandled(ctx: Context, s: State, t: State, v: seq<Treatment>, e: nat, c: nat)
    requires Begin(ctx, s) && Along(ctx, s, t, v) && Inv(ctx, t) && Claims(t, e, c)
    ensures (forall i :: i != e ==> !Claims(t, i, c))
       <==> (c in ctx.owners ==> forall i :: i in ctx.owners[c] ==> i in t.handled + {e})
  {
    if forall i :: i != e ==> !Claims(t, i, c) {
      if c in ctx.owners {
        forall i | i in ctx.owners[c]
          ensures i in t.handled + {e}
        {
          assert Claims(s, i, c);
          assert i !in t.handled ==> Claims(t, i, c);
        }
      }
    } else {
      var i :| i != e && Claims(t, i, c);
      assert Waiting(ctx, t, c, i);
    }
  }

  lemma {:induction false} EmptyDoneStep(ctx: Context, t: State, x: Handling)
    requires EmptyDone(t) && Fits(ctx, t, x)
    ensures EmptyDone(Handle(ctx, t, x))
  {
    HandleEffect(ctx, t, x);
  }

  lemma {:induction false} RunEmptyDone(ctx: Context, s: State, run: seq<Handling>)
    requires s.handled == {} && Passes(ctx, s, run)
    ensures EmptyDone(After(ctx, s, run))
  {
    if run != [] {
      RunEmptyDone(ctx, s, Front(run));
      EmptyDoneStep(ctx, After(ctx, s, Front(run)), Last(run));
    }
  }

  /** After any run that passes the assertions, exactly those clusters are lost. */
  lemma {:induction false} LostIff(ctx: Context, s: State, run: seq<Handling>, c: nat)
    requires Begin(ctx, s) && Tight(s) && Passes(ctx, s, run)
    ensures Lost(After(ctx, s, run), c) <==> Leaks(ctx, s, Treatments(run), c)
  {
    if run != [] {
      var front, x := Front(run), Last(run);
      var t, v := After(ctx, s, front), Treatments(front);
      LostIff(ctx, s, front, c);
      RunAlong(ctx, s, front);
      RunKeepsInv(ctx, s, front);
      RunEmptyDone(ctx, s, front);
      StepLoses(ctx, s, t, v, x, c);
      AloneIff(ctx, s, t, v, x.what, c);
      LeaksLater(ctx, s, v, x.what, c);
      RunExtends(ctx, s, front, x);
      assert run == front + [x];
    }
  }

  /** All set bits stay claimed if and only if nothing leaks. */
  lemma {:induction false} TightIff(ctx: Context, s: State, run: seq<Handling>)
    requires Begin(ctx, s) && Tight(s) && Passes(ctx, s, run)
    ensures Tight(After(ctx, s, run)) <==> forall c :: !Leaks(ctx, s, Treatments(run), c)
  {
    forall c
      ensures Lost(After(ctx, s, run), c) <==> Leaks(ctx, s, Treatments(run), c)
    {
      LostIff(ctx, s, run, c);
    }
  }

  /** They do when no inode that is handled is empty. */
  lemma {:induction false} FullStaysTight(ctx: Context, s: State, run: seq<Handling>)
    requires Begin(ctx, s) && Tight(s) && Passes(ctx, s, run)
    requires forall m :: 0 <= m < |run| ==> Get(s, run[m].what.ino).size > 0
    ensures Tight(After(ctx, s, run))
  {
    TightIff(ctx, s, run);
    forall c, m: nat | m < |run|
      ensures !LostAt(ctx, s, Treatments(run), c, m)
    {
      assert Treatments(run)[m] == run[m].what;
    }
  }

  lemma {:induction false} LeakBegins(ctx: Context, s: State)
    requires ctx.dups == {1} && ctx.owners == map[1 := [21, 22]]
    requires s == State(map[21 := Inode([1, 9], 0), 22 := Inode([1], 1)], {1, 9}, {})
    ensures Begin(ctx, s) && Tight(s) && Claims(s, 21, 9)
  {
    forall i, c
      ensures Claims(s, i, c) <==> (i == 21 && (c == 1 || c == 9)) || (i == 22 && c == 1)
    {
      assert i in s.inodes ==> i == 21 || i == 22;
    }
    assert Claims(s, 21, 1) && Claims(s, 21, 9);
    assert Claimed(s, 1) && Claimed(s, 9);
  }

  lemma {:induction false} LeakSchedule(ctx: Context, order: seq<nat>, answers: seq<Choice>)
    requires ctx.owners == map[1 := [21, 22]] && ctx.chains == {} && AllYes(answers) && order == [1]
    ensures Schedule(ctx, order, answers) == Clones([21, 22])
  {
    assert AgendaTo(ctx, order, 0, answers) == Agenda(Clones([]), 0);
    ClonesAdded(ctx, [], 0, 1, answers, 21, 22, [21, 22]);
  }

  /** Inode 21 is empty and has clusters 1 and 9, of which 22 has cluster 1 too.  Both are cloned,
      and cluster 9 is lost. */
  lemma {:induction false} LeakExample(ctx: Context, s: State, order: seq<nat>, answers: seq<Choice>)
    requires ctx.dups == {1} && ctx.owners == map[1 := [21, 22]] && ctx.chains == {} && AllYes(answers) && order == [1]
    requires s == State(map[21 := Inode([1, 9], 0), 22 := Inode([1], 1)], {1, 9}, {})
    ensures Begin(ctx, s) && Tight(s) && Leaks(ctx, s, Schedule(ctx, order, answers), 9)
  {
    LeakBegins(ctx, s);
    LeakSchedule(ctx, order, answers);
    var v := Schedule(ctx, order, answers);
    assert v[0] == Treatment(21, false) && v[..0] == [];
    assert LostAt(ctx, s, v, 9, 0);
  }
}
