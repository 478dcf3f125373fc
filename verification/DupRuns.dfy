/** Runs of pass 1d in which nothing fails on disk: which inodes are cloned and deleted, and
    in which order, and exactly when the assertion in can_free() can fail
    (fsck.ocfs2/pass1b.c). */
module DupRuns {
  import opened Basics
  import opened DupClusters

  // ---------------------------------------------------------------------
  // The order of clones and deletions

  datatype Choice = ToClone | ToDelete | ToKeep

  /** What is done about an owner: chain allocators are kept, and system files not deleted. */
  function Chosen(ctx: Context, ino: nat, answer: Choice): Choice {
    if ino in ctx.chains || (ino in ctx.system && answer == ToDelete) then ToKeep else answer
  }

  /** The answer to question `k`: the answers given, and from there on the default, to clone. */
  function AnswerTo(answers: seq<Choice>, k: nat): Choice {
    if k < |answers| then answers[k] else ToClone
  }

  datatype Treatment = Treatment(ino: nat, delete: bool)

  function AskOne(ctx: Context, ino: nat, answer: Choice): seq<Treatment> {
    var choice := Chosen(ctx, ino, answer);
    if choice == ToKeep then [] else [Treatment(ino, choice == ToDelete)]
  }

  /** The first `n` owners of a cluster, as far as they are cloned or deleted; the answers are
      numbered by the owners gone through, and begin with number `k`. */
  function Ask(ctx: Context, list: seq<nat>, n: nat, answers: seq<Choice>, k: nat): seq<Treatment>
    requires n <= |list|
  {
    if n == 0 then [] else Ask(ctx, list, n - 1, answers, k) + AskOne(ctx, list[n - 1], AnswerTo(answers, k + n - 1))
  }

  function Who(v: seq<Treatment>): set<nat> {
    set k | 0 <= k < |v| :: v[k].ino
  }

  /** Steps, and the number of owners gone through. */
  datatype Agenda = Agenda(steps: seq<Treatment>, asked: nat)

  /** A cluster with two unhandled owners left adds its owners. */
  function AddCluster(ctx: Context, agenda: Agenda, c: nat, answers: seq<Choice>): Agenda {
    if c !in ctx.owners || Unhandled(ctx.owners[c], Who(agenda.steps)) < 2 then agenda
    else
      var list := ctx.owners[c];
      Agenda(agenda.steps + Ask(ctx, list, |list|, answers, agenda.asked), agenda.asked + |list|)
  }

  /** The steps for the first `n` clusters. */
  function AgendaTo(ctx: Context, order: seq<nat>, n: nat, answers: seq<Choice>): Agenda
    requires n <= |order|
  {
    if n == 0 then Agenda([], 0) else AddCluster(ctx, AgendaTo(ctx, order, n - 1, answers), order[n - 1], answers)
  }

  /** The inodes cloned or deleted, in order: for each cluster with two unhandled owners left
      all its owners, as the answers say.  This depends on the owners, the order of the
      clusters and the answers only. */
  function Schedule(ctx: Context, order: seq<nat>, answers: seq<Choice>): seq<Treatment> {
    AgendaTo(ctx, order, |order|, answers).steps
  }

  /** Chain allocators are left alone, and system files are not deleted. */
  lemma {:induction false} ScheduleSpares(ctx: Context, order: seq<nat>, n: nat, answers: seq<Choice>, x: Treatment)
    requires n <= |order| && x in AgendaTo(ctx, order, n, answers).steps
    ensures x.ino !in ctx.chains && (x.delete ==> x.ino !in ctx.system)
    decreases n
  {
    var agenda, c := AgendaTo(ctx, order, n - 1, answers), order[n - 1];
    if x in agenda.steps {
      ScheduleSpares(ctx, order, n - 1, answers, x);
    } else {
      AskSpares(ctx, ctx.owners[c], |ctx.owners[c]|, answers, agenda.asked, x);
    }
  }

  lemma {:induction false} AskSpares(ctx: Context, list: seq<nat>, n: nat, answers: seq<Choice>, k: nat, x: Treatment)
    requires n <= |list| && x in Ask(ctx, list, n, answers, k)
    ensures x.ino in list && x.ino !in ctx.chains && (x.delete ==> x.ino !in ctx.system)
    decreases n
  {
    if x in Ask(ctx, list, n - 1, answers, k) {
      AskSpares(ctx, list, n - 1, answers, k, x);
    }
  }

  /** An owner is deleted if and only if that is the answer and it is no system file, and cloned if
      and only if that is the answer or none is left; but chain allocators are neither. */
  lemma {:induction false} AskedIff(ctx: Context, list: seq<nat>, n: nat, answers: seq<Choice>, k: nat, i: nat)
    requires i < n <= |list| && Distinct(list)
    ensures Treatment(list[i], true) in Ask(ctx, list, n, answers, k) <==>
      list[i] !in ctx.chains && list[i] !in ctx.system && k + i < |answers| && answers[k + i] == ToDelete
    ensures Treatment(list[i], false) in Ask(ctx, list, n, answers, k) <==>
      list[i] !in ctx.chains && (k + i < |answers| ==> answers[k + i] == ToClone)
    decreases n
  {
    if i < n - 1 {
      AskedIff(ctx, list, n - 1, answers, k, i);
      assert list[i] != list[n - 1];
    } else {
      forall d | Treatment(list[i], d) in Ask(ctx, list, n - 1, answers, k)
        ensures false
      {
        AskedBefore(ctx, list, n - 1, answers, k, Treatment(list[i], d));
      }
    }
  }

  lemma {:induction false} AskedBefore(ctx: Context, list: seq<nat>, n: nat, answers: seq<Choice>, k: nat, x: Treatment)
    requires n <= |list| && x in Ask(ctx, list, n, answers, k)
    ensures x.ino in list[..n]
  {
    if x in Ask(ctx, list, n - 1, answers, k) {
      AskedBefore(ctx, list, n - 1, answers, k, x);
    }
  }

  lemma {:induction false} AgendaGrows(ctx: Context, order: seq<nat>, i: nat, n: nat, answers: seq<Choice>)
    requires i <= n <= |order|
    ensures AgendaTo(ctx, order, i, answers).steps <= AgendaTo(ctx, order, n, answers).steps
  {
    if i < n {
      AgendaGrows(ctx, order, i, n - 1, answers);
    }
  }

  /** With `v[m]` the last owner of `c` is cloned or deleted. */
  ghost predicate LastOwner(owners: map<nat, seq<nat>>, v: seq<Treatment>, c: nat, m: nat) {
    && m < |v| && c in owners && v[m].ino in owners[c] && v[m].ino !in Who(v[..m])
    && forall i :: i in owners[c] ==> i in Who(v[..m + 1])
  }

  /** That gives `c` back, since the last of its owners is not empty. */
  ghost predicate GivenBack(ctx: Context, s: State, v: seq<Treatment>, c: nat) {
    exists m: nat :: LastOwner(ctx.owners, v, c, m) && Get(s, v[m].ino).size > 0
  }

  predicate Deleted(v: seq<Treatment>, ino: nat) {
    Treatment(ino, true) in v
  }

  /** The `j`th inode is cloned after a shared cluster was given back, and cloned once more or
      deleted as the `l`th, and not deleted before. */
  ghost predicate Hazard(ctx: Context, s: State, v: seq<Treatment>, c: nat, j: nat, l: nat) {
    && j < l < |v| && v[j].ino == v[l].ino && !Deleted(v[..l], v[j].ino) && Get(s, v[j].ino).size > 0
    && c in ctx.owners && GivenBack(ctx, s, v[..j], c)
  }

  ghost predicate Hazardous(ctx: Context, s: State, order: seq<nat>, answers: seq<Choice>) {
    var v := Schedule(ctx, order, answers);
    exists c, j: nat, l: nat :: Hazard(ctx, s, v, c, j, l)
  }

  lemma WhoAppend(v: seq<Treatment>, x: Treatment)
    ensures Who(v + [x]) == Who(v) + {x.ino} && (v + [x])[..|v|] == v && (v + [x])[..|v| + 1] == v + [x]
    ensures forall i :: Deleted(v + [x], i) <==> Deleted(v, i) || x == Treatment(i, true)
  {
    var w := v + [x];
    forall i | i in Who(v)
      ensures i in Who(w)
    {
      var k :| 0 <= k < |v| && v[k].ino == i;
      assert w[k].ino == i;
    }
    assert w[|v|] == x;
  }

  lemma {:induction false} LastLater(owners: map<nat, seq<nat>>, v: seq<Treatment>, w: seq<Treatment>, c: nat, m: nat)
    requires LastOwner(owners, v, c, m) && v <= w
    ensures LastOwner(owners, w, c, m) && w[m] == v[m]
  {
    assert w[..m] == v[..m] && w[..m + 1] == v[..m + 1];
  }

  lemma GivenBackLater(ctx: Context, s: State, v: seq<Treatment>, w: seq<Treatment>, c: nat)
    requires GivenBack(ctx, s, v, c) && v <= w
    ensures GivenBack(ctx, s, w, c)
  {
    var m: nat :| LastOwner(ctx.owners, v, c, m) && Get(s, v[m].ino).size > 0;
    LastLater(ctx.owners, v, w, c, m);
  }

  // ---------------------------------------------------------------------
  // Runs

  /** What was done, and what was allocated for it. */
  datatype Handling = Handling(what: Treatment, temp: nat, grabbed: seq<nat>)

  function Treatments(run: seq<Handling>): seq<Treatment> {
    seq(|run|, k requires 0 <= k < |run| => run[k].what)
  }

  function Handle(ctx: Context, s: State, x: Handling): State {
    var ino := x.what.ino;
    MarkHandled(if x.what.delete then Delete(ctx, s, ino, Complete, true)
                else Clone(ctx, s, ino, x.temp, x.grabbed, Swapped, Complete, true), ino)
  }

  /** new_clone() can have allocated this. */
  ghost predicate Fits(ctx: Context, s: State, x: Handling) {
    if x.what.delete then x.grabbed == []
    else
      && Available(s, x.what.ino, x.temp, x.grabbed)
      && |x.grabbed| == ClustersIn(ctx, Get(s, x.what.ino).size)
  }

  /** Cloning or deleting `ino` asks can_free() about a cluster without unhandled owners. */
  ghost predicate Asserts(ctx: Context, s: State, ino: nat) {
    Get(s, ino).size > 0 && exists c :: Claims(s, ino, c) && Orphaned(ctx, s.handled, c)
  }

  ghost predicate Orphaned(ctx: Context, handled: set<nat>, c: nat) {
    c in ctx.dups && c in ctx.owners && Unhandled(ctx.owners[c], handled) == 0
  }

  function After(ctx: Context, s: State, run: seq<Handling>): State {
    if run == [] then s else Handle(ctx, After(ctx, s, Front(run)), Last(run))
  }

  /** Each step fits, and passes the assertion. */
  ghost predicate Passes(ctx: Context, s: State, run: seq<Handling>) {
    run == [] ||
    var t := After(ctx, s, Front(run));
    Passes(ctx, s, Front(run)) && Fits(ctx, t, Last(run)) && !Asserts(ctx, t, Last(run).what.ino)
  }

  /** A run along `v` up to a step in which the assertion fails. */
  ghost predicate CrashesIn(ctx: Context, s: State, v: seq<Treatment>, run: seq<Handling>) {
    && |run| < |v| && Treatments(run) == v[..|run|] && Passes(ctx, s, run)
    && Asserts(ctx, After(ctx, s, run), v[|run|].ino)
  }

  ghost predicate Crashes(ctx: Context, s: State, order: seq<nat>, answers: seq<Choice>, run: seq<Handling>) {
    CrashesIn(ctx, s, Schedule(ctx, order, answers), run)
  }

  /** What pass 1b hands over: the owners listed for a shared cluster are its claimants. */
  ghost predicate Begin(ctx: Context, s: State) {
    && Inv(ctx, s) && s.handled == {} && (forall c :: c in ctx.dups <==> c in ctx.owners)
    && (forall c :: c in ctx.owners ==> ctx.owners[c] != [])
    && forall c, i :: c in ctx.owners ==> (i in ctx.owners[c] <==> Claims(s, i, c))
  }

  lemma RunExtends(ctx: Context, s: State, run: seq<Handling>, x: Handling)
    ensures After(ctx, s, run + [x]) == Handle(ctx, After(ctx, s, run), x)
    ensures Passes(ctx, s, run + [x]) <==>
      Passes(ctx, s, run) && Fits(ctx, After(ctx, s, run), x) && !Asserts(ctx, After(ctx, s, run), x.what.ino)
    ensures Treatments(run + [x]) == Treatments(run) + [x.what]
  {
    assert Front(run + [x]) == run && Last(run + [x]) == x;
  }

  /** What a step does to the disk. */
  lemma HandleEffect(ctx: Context, s: State, x: Handling)
    requires Fits(ctx, s, x)
    ensures var t, ino := Handle(ctx, s, x), x.what.ino;
      && t.handled == s.handled + {ino}
      && Get(t, ino) == (if x.what.delete then GONE else Inode(x.grabbed, Get(s, ino).size))
      && (forall i :: i != ino ==> Get(t, i) == Get(s, i))
      && t.bitmap == s.bitmap + Elements(x.grabbed)
          - if Get(s, ino).size == 0 then {} else Freed(ctx, s.handled, Get(s, ino).clusters)
  {
    if !x.what.delete {
      var w := SwapTo(s, x.what.ino, x.temp, x.grabbed, Swapped);
      assert Get(w, x.temp) == Inode(Get(s, x.what.ino).clusters, Get(s, x.what.ino).size);
    }
    assert Elements(x.grabbed) == set c | c in x.grabbed;
  }

  // ---------------------------------------------------------------------
  // What a run leaves: a hazard is needed for the assertion to fail

  /** `i` was cloned after `c` had been given back. */
  ghost predicate Regained(ctx: Context, s: State, v: seq<Treatment>, i: nat, c: nat) {
    Get(s, i).size > 0 && exists j :: 0 <= j < |v| && v[j].ino == i && GivenBack(ctx, s, v[..j], c)
  }

  /** After the steps `v`, starting with `s`: what was not handled is as it was, what was
      cloned has shared clusters only if they were given back, and so has the free space. */
  ghost predicate Along(ctx: Context, s: State, t: State, v: seq<Treatment>) {
    && t.handled == Who(v)
    && (forall i :: i !in t.handled ==> Get(t, i) == Get(s, i))
    && (forall i :: Get(t, i).size == if Deleted(v, i) then 0 else Get(s, i).size)
    && (forall c :: c in ctx.owners && c !in t.bitmap ==> GivenBack(ctx, s, v, c))
    && (forall i, c :: i in t.handled && c in ctx.owners && Claims(t, i, c) ==> Regained(ctx, s, v, i, c))
  }

  /** Once a cluster was given back, all its owners are handled. */
  lemma BackOrphaned(ctx: Context, s: State, t: State, v: seq<Treatment>, c: nat)
    requires GivenBack(ctx, s, v, c) && t.handled == Who(v) && c in ctx.dups
    ensures Orphaned(ctx, t.handled, c)
  {
    var m: nat :| LastOwner(ctx.owners, v, c, m) && Get(s, v[m].ino).size > 0;
    forall i | i in ctx.owners[c]
      ensures i in t.handled
    {
      var k :| 0 <= k <= m && v[..m + 1][k].ino == i;
      assert v[k].ino == i;
    }
    NoneUnhandled(ctx.owners[c], t.handled);
  }

  /** An unhandled inode is a waiting owner of every shared cluster that it claims. */
  lemma FreshPasses(ctx: Context, s: State, t: State, v: seq<Treatment>, ino: nat)
    requires Begin(ctx, s) && Along(ctx, s, t, v) && ino !in t.handled
    ensures !Asserts(ctx, t, ino)
  {
    forall c | Claims(t, ino, c) && c in ctx.owners
      ensures Unhandled(ctx.owners[c], t.handled) > 0
    {
      assert Claims(s, ino, c);
      UnhandledAtLeast(ctx.owners[c], t.handled, ino);
    }
  }

  /** The assertion fails only for an inode that regained a shared cluster. */
  lemma AssertsRegained(ctx: Context, s: State, t: State, v: seq<Treatment>, ino: nat)
    requires Begin(ctx, s) && Along(ctx, s, t, v) && Asserts(ctx, t, ino)
    ensures !Deleted(v, ino) && exists c :: c in ctx.owners && Regained(ctx, s, v, ino, c)
  {
    if ino !in t.handled {
      FreshPasses(ctx, s, t, v, ino);
    } else {
      var c :| Claims(t, ino, c) && Orphaned(ctx, t.handled, c);
      assert Regained(ctx, s, v, ino, c);
    }
  }

  /** The one unhandled owner left is the last. */
  lemma {:induction false} OneLeft(list: seq<nat>, handled: set<nat>, ino: nat, i: nat)
    requires Unhandled(list, handled) <= 1 && ino in list && ino !in handled && i in list
    ensures i == ino || i in handled
  {
    if i != ino && i !in handled {
      UnhandledAtLeastTwo(list, handled, ino, i);
    }
  }

  /** A shared cluster that a step frees is given back. */
  lemma FreedBack(ctx: Context, s: State, t: State, v: seq<Treatment>, x: Treatment, c: nat)
    requires Begin(ctx, s) && Along(ctx, s, t, v) && !Asserts(ctx, t, x.ino) && Get(t, x.ino).size > 0
    requires c in ctx.owners && c in Freed(ctx, t.handled, Get(t, x.ino).clusters)
    ensures GivenBack(ctx, s, v + [x], c)
  {
    assert Claims(t, x.ino, c);
    if x.ino in t.handled {
      var j :| 0 <= j < |v| && v[j].ino == x.ino && GivenBack(ctx, s, v[..j], c);
      GivenBackLater(ctx, s, v[..j], v, c);
      BackOrphaned(ctx, s, t, v, c);
      assert false;
    } else {
      var w := v + [x];
      WhoAppend(v, x);
      assert Claims(s, x.ino, c);
      forall i | i in ctx.owners[c]
        ensures i in Who(w[..|v| + 1])
      {
        OneLeft(ctx.owners[c], t.handled, x.ino, i);
      }
      assert LastOwner(ctx.owners, w, c, |v|);
    }
  }

  lemma StepBack(ctx: Context, s: State, t: State, v: seq<Treatment>, x: Handling, c: nat)
    requires Begin(ctx, s) && Along(ctx, s, t, v) && Fits(ctx, t, x) && !Asserts(ctx, t, x.what.ino)
    requires c in ctx.owners && c !in Handle(ctx, t, x).bitmap
    ensures GivenBack(ctx, s, v + [x.what], c)
  {
    HandleEffect(ctx, t, x);
    if c in t.bitmap {
      FreedBack(ctx, s, t, v, x.what, c);
    } else {
      GivenBackLater(ctx, s, v, v + [x.what], c);
    }
  }

  lemma {:induction false} StepRegained(ctx: Context, s: State, t: State, v: seq<Treatment>, x: Handling, i: nat,
      c: nat)
    requires Along(ctx, s, t, v) && Fits(ctx, t, x) && c in ctx.owners
    requires i in t.handled + {x.what.ino} && Claims(Handle(ctx, t, x), i, c)
    ensures Regained(ctx, s, v + [x.what], i, c)
  {
    HandleEffect(ctx, t, x);
    WhoAppend(v, x.what);
    var w := v + [x.what];
    if i == x.what.ino {
      assert c in x.grabbed && c !in t.bitmap;
      assert w[|v|].ino == i && GivenBack(ctx, s, w[..|v|], c);
    } else {
      assert Claims(t, i, c);
      RegainedLater(ctx, s, v, w, i, c);
    }
  }

  lemma {:induction false} RegainedLater(ctx: Context, s: State, v: seq<Treatment>, w: seq<Treatment>, i: nat, c: nat)
    requires Regained(ctx, s, v, i, c) && v <= w
    ensures Regained(ctx, s, w, i, c)
  {
    var j :| 0 <= j < |v| && v[j].ino == i && GivenBack(ctx, s, v[..j], c);
    assert w[..j] == v[..j] && w[j].ino == i;
  }

  lemma StepAlong(ctx: Context, s: State, t: State, v: seq<Treatment>, x: Handling)
    requires Begin(ctx, s) && Along(ctx, s, t, v) && Fits(ctx, t, x) && !Asserts(ctx, t, x.what.ino)
    ensures Along(ctx, s, Handle(ctx, t, x), v + [x.what])
  {
    HandleEffect(ctx, t, x);
    WhoAppend(v, x.what);
    var t' := Handle(ctx, t, x);
    forall c | c in ctx.owners && c !in t'.bitmap
      ensures GivenBack(ctx, s, v + [x.what], c)
    {
      StepBack(ctx, s, t, v, x, c);
    }
    forall i, c | i in t'.handled && c in ctx.owners && Claims(t', i, c)
      ensures Regained(ctx, s, v + [x.what], i, c)
    {
      StepRegained(ctx, s, t, v, x, i, c);
    }
  }

  lemma BeginAlong(ctx: Context, s: State)
    requires Begin(ctx, s)
    ensures Along(ctx, s, s, [])
  {
    forall c | c in ctx.owners
      ensures c in s.bitmap
    {
      assert Claims(s, ctx.owners[c][0], c);
    }
  }

  lemma {:induction false} RunAlong(ctx: Context, s: State, run: seq<Handling>)
    requires Begin(ctx, s) && Passes(ctx, s, run)
    ensures Along(ctx, s, After(ctx, s, run), Treatments(run))
  {
    if run == [] {
      BeginAlong(ctx, s);
    } else {
      assert run == Front(run) + [Last(run)];
      RunExtends(ctx, s, Front(run), Last(run));
      RunAlong(ctx, s, Front(run));
      StepAlong(ctx, s, After(ctx, s, Front(run)), Treatments(Front(run)), Last(run));
    }
  }

  lemma RegainedHazard(ctx: Context, s: State, v: seq<Treatment>, n: nat, c: nat)
    requires n < |v| && c in ctx.owners && Regained(ctx, s, v[..n], v[n].ino, c) && !Deleted(v[..n], v[n].ino)
    ensures exists j: nat :: Hazard(ctx, s, v, c, j, n)
  {
    var j :| 0 <= j < n && v[..n][j].ino == v[n].ino && GivenBack(ctx, s, v[..n][..j], c);
    assert v[..n][..j] == v[..j];
    assert Hazard(ctx, s, v, c, j, n);
  }

  /** Without a hazard in the schedule no run comes to the assertion. */
  lemma CrashNeedsHazard(ctx: Context, s: State, order: seq<nat>, answers: seq<Choice>, run: seq<Handling>)
    requires Begin(ctx, s) && Crashes(ctx, s, order, answers, run)
    ensures Hazardous(ctx, s, order, answers)
  {
    var v := Schedule(ctx, order, answers);
    RunAlong(ctx, s, run);
    AssertsRegained(ctx, s, After(ctx, s, run), Treatments(run), v[|run|].ino);
    var c :| c in ctx.owners && Regained(ctx, s, v[..|run|], v[|run|].ino, c);
    RegainedHazard(ctx, s, v, |run|, c);
  }

  // ---------------------------------------------------------------------
  // A hazard is enough: new clusters can be such that the assertion fails

  /** New clusters none of which was shared. */
  lemma PlainPick(ctx: Context, t: State, what: Treatment) returns (x: Handling)
    ensures x.what == what && Fits(ctx, t, x) && forall d :: d in x.grabbed ==> d !in ctx.owners
  {
    var temp := UnusedNumber(t, what.ino, what.ino);
    var base := Above(t.bitmap + ctx.owners.Keys);
    var n := if what.delete then 0 else ClustersIn(ctx, Get(t, what.ino).size);
    x := Handling(what, temp, seq(n, k requires 0 <= k => base + k));
  }

  /** New clusters of which only `c` was shared. */
  lemma PickWith(ctx: Context, t: State, what: Treatment, c: nat) returns (x: Handling)
    requires Get(t, what.ino).size > 0 && c !in t.bitmap && !what.delete
    ensures x.what == what && Fits(ctx, t, x) && c in x.grabbed
    ensures forall d :: d in x.grabbed && d in ctx.owners ==> d == c
  {
    var plain := PlainPick(ctx, t, what);
    assert |plain.grabbed| > 0;
    x := plain.(grabbed := [c] + plain.grabbed[1..]);
    assert x.grabbed[0] == c;
    assert forall d :: d in x.grabbed ==> d == c || d in plain.grabbed;
  }

  /** Of the shared clusters, those handled claim at most `c`, and only `who` claims that;
      when it does not, `c` is free once given back. */
  ghost predicate Tame(ctx: Context, s: State, t: State, v: seq<Treatment>, c: nat, who: nat, taken: bool) {
    && Along(ctx, s, t, v)
    && (forall i, d :: i in t.handled && d in ctx.owners && Claims(t, i, d) ==> taken && i == who && d == c)
    && if taken then Claims(t, who, c) && GivenBack(ctx, s, v, c) else GivenBack(ctx, s, v, c) ==> c !in t.bitmap
  }

  lemma TamePasses(ctx: Context, s: State, t: State, v: seq<Treatment>, c: nat, who: nat, taken: bool, ino: nat)
    requires Begin(ctx, s) && Tame(ctx, s, t, v, c, who, taken) && (taken ==> ino != who)
    ensures !Asserts(ctx, t, ino)
  {
    if ino !in t.handled {
      FreshPasses(ctx, s, t, v, ino);
    }
  }

  /** The last owner of `c`, not empty, frees it. */
  lemma LastFrees(ctx: Context, s: State, t: State, v: seq<Treatment>, x: Handling, c: nat)
    requires Begin(ctx, s) && Along(ctx, s, t, v) && Fits(ctx, t, x)
    requires LastOwner(ctx.owners, v + [x.what], c, |v|) && Get(s, x.what.ino).size > 0
    ensures c !in Handle(ctx, t, x).bitmap
  {
    WhoAppend(v, x.what);
    HandleEffect(ctx, t, x);
    NoneUnhandled(ctx.owners[c], t.handled + {x.what.ino});
    UnhandledStep(ctx.owners[c], t.handled, x.what.ino);
    assert x.what.ino !in t.handled;
    assert Claims(s, x.what.ino, c);
    assert c in Freed(ctx, t.handled, Get(t, x.what.ino).clusters);
  }

  lemma {:induction false} StaysFree(ctx: Context, s: State, t: State, v: seq<Treatment>, x: Handling, c: nat)
    requires Begin(ctx, s) && Along(ctx, s, t, v) && Fits(ctx, t, x) && c !in x.grabbed
    requires GivenBack(ctx, s, v, c) ==> c !in t.bitmap
    requires GivenBack(ctx, s, v + [x.what], c)
    ensures c !in Handle(ctx, t, x).bitmap
  {
    var w := v + [x.what];
    var m: nat :| LastOwner(ctx.owners, w, c, m) && Get(s, w[m].ino).size > 0;
    if m == |v| {
      LastFrees(ctx, s, t, v, x, c);
    } else {
      assert w[..m] == v[..m] && w[..m + 1] == v[..m + 1];
      assert LastOwner(ctx.owners, v, c, m);
      HandleEffect(ctx, t, x);
    }
  }

  /** A step without shared clusters. */
  lemma TameStep(ctx: Context, s: State, t: State, v: seq<Treatment>, x: Handling, c: nat, who: nat, taken: bool)
    requires Begin(ctx, s) && Tame(ctx, s, t, v, c, who, taken) && (taken ==> x.what.ino != who) && c in ctx.owners
    requires Fits(ctx, t, x) && forall d :: d in x.grabbed ==> d !in ctx.owners
    ensures Tame(ctx, s, Handle(ctx, t, x), v + [x.what], c, who, taken)
  {
    TamePasses(ctx, s, t, v, c, who, taken, x.what.ino);
    StepAlong(ctx, s, t, v, x);
    HandleEffect(ctx, t, x);
    if taken {
      GivenBackLater(ctx, s, v, v + [x.what], c);
      assert Get(Handle(ctx, t, x), who) == Get(t, who);
    } else if GivenBack(ctx, s, v + [x.what], c) {
      StaysFree(ctx, s, t, v, x, c);
    }
    TameClaims(ctx, t, Handle(ctx, t, x), x, c, who, taken);
  }

  lemma TameClaims(ctx: Context, t: State, t': State, x: Handling, c: nat, who: nat, taken: bool)
    requires t'.handled == t.handled + {x.what.ino} && Elements(Get(t', x.what.ino).clusters) <= Elements(x.grabbed)
    requires forall i :: i != x.what.ino ==> Get(t', i) == Get(t, i)
    requires forall i, d :: i in t.handled && d in ctx.owners && Claims(t, i, d) ==> taken && i == who && d == c
    requires forall d :: d in x.grabbed && d in ctx.owners ==> x.what.ino == who && d == c
    ensures forall i, d :: i in t'.handled && d in ctx.owners && Claims(t', i, d) ==>
      (taken || c in x.grabbed) && i == who && d == c
  {
    forall i, d | i in t'.handled && d in ctx.owners && Claims(t', i, d)
      ensures (taken || c in x.grabbed) && i == who && d == c
    {
      if i == x.what.ino {
        assert d in Elements(x.grabbed);
      } else {
        assert Claims(t, i, d);
      }
    }
  }

  /** The clone that takes `c`. */
  lemma TakeStep(ctx: Context, s: State, t: State, v: seq<Treatment>, x: Handling, c: nat)
    requires Begin(ctx, s) && Tame(ctx, s, t, v, c, x.what.ino, false) && GivenBack(ctx, s, v, c) && !x.what.delete
    requires Fits(ctx, t, x) && c in x.grabbed && forall d :: d in x.grabbed && d in ctx.owners ==> d == c
    ensures Tame(ctx, s, Handle(ctx, t, x), v + [x.what], c, x.what.ino, true)
  {
    TamePasses(ctx, s, t, v, c, x.what.ino, false, x.what.ino);
    StepAlong(ctx, s, t, v, x);
    HandleEffect(ctx, t, x);
    GivenBackLater(ctx, s, v, v + [x.what], c);
    TameClaims(ctx, t, Handle(ctx, t, x), x, c, x.what.ino, false);
  }

  ghost predicate NotBetween(v: seq<Treatment>, j: nat, l: nat) {
    j < l < |v| && forall k :: j < k < l ==> v[k].ino != v[j].ino
  }

  lemma TameStart(ctx: Context, s: State, c: nat, who: nat)
    requires Begin(ctx, s)
    ensures Tame(ctx, s, s, [], c, who, false)
  {
    BeginAlong(ctx, s);
  }

  /** Until the `l`th step the `j`th inode is not deleted. */
  lemma HazardKeeps(ctx: Context, s: State, v: seq<Treatment>, c: nat, j: nat, l: nat)
    requires Hazard(ctx, s, v, c, j, l)
    ensures !v[j].delete && !Deleted(v[..j], v[j].ino)
  {
    assert v[j] == v[..l][j];
    assert v[..j] == v[..l][..j];
  }

  /** The `n`th step, given those before. */
  lemma TameNext(ctx: Context, s: State, t: State, v: seq<Treatment>, c: nat, j: nat, l: nat, n: nat)
      returns (x: Handling)
    requires Begin(ctx, s) && Hazard(ctx, s, v, c, j, l) && n < l && NotBetween(v, j, l)
    requires Tame(ctx, s, t, v[..n], c, v[j].ino, j < n)
    ensures x.what == v[n] && Fits(ctx, t, x) && !Asserts(ctx, t, v[n].ino)
    ensures Tame(ctx, s, Handle(ctx, t, x), v[..n] + [v[n]], c, v[j].ino, j <= n)
  {
    TamePasses(ctx, s, t, v[..n], c, v[j].ino, j < n, v[n].ino);
    if n == j {
      HazardKeeps(ctx, s, v, c, j, l);
      x := PickWith(ctx, t, v[j], c);
      TakeStep(ctx, s, t, v[..n], x, c);
    } else {
      x := PlainPick(ctx, t, v[n]);
      TameStep(ctx, s, t, v[..n], x, c, v[j].ino, j < n);
    }
  }

  /** The first `n` steps of such a run, with `c` taken by the `j`th. */
  lemma {:induction false} TameRun(ctx: Context, s: State, v: seq<Treatment>, c: nat, j: nat, l: nat, n: nat)
      returns (run: seq<Handling>)
    requires Begin(ctx, s) && Hazard(ctx, s, v, c, j, l) && n <= l && NotBetween(v, j, l)
    ensures Treatments(run) == v[..n] && Passes(ctx, s, run)
    ensures Tame(ctx, s, After(ctx, s, run), v[..n], c, v[j].ino, j < n)
    decreases n
  {
    if n == 0 {
      run := [];
      TameStart(ctx, s, c, v[j].ino);
      assert v[..0] == [] == Treatments(run);
    } else {
      var front := TameRun(ctx, s, v, c, j, l, n - 1);
      run := TameAdd(ctx, s, v, c, j, l, n - 1, front);
    }
  }

  lemma TameAdd(ctx: Context, s: State, v: seq<Treatment>, c: nat, j: nat, l: nat, n: nat, front: seq<Handling>)
      returns (run: seq<Handling>)
    requires Begin(ctx, s) && Hazard(ctx, s, v, c, j, l) && n < l && NotBetween(v, j, l)
    requires Treatments(front) == v[..n] && Passes(ctx, s, front)
    requires Tame(ctx, s, After(ctx, s, front), v[..n], c, v[j].ino, j < n)
    ensures Treatments(run) == v[..n + 1] && Passes(ctx, s, run)
    ensures Tame(ctx, s, After(ctx, s, run), v[..n + 1], c, v[j].ino, j <= n)
  {
    TakeMore(v, n);
    var x := TameNext(ctx, s, After(ctx, s, front), v, c, j, l, n);
    RunExtends(ctx, s, front, x);
    run := front + [x];
  }

  /** The next time the `j`th inode is cloned or deleted. */
  lemma {:induction false} NextTime(v: seq<Treatment>, j: nat, l: nat) returns (next: nat)
    requires j < l < |v| && v[j].ino == v[l].ino
    ensures j < next <= l && v[next].ino == v[j].ino && NotBetween(v, j, next)
    decreases l
  {
    next := l;
    if k: nat :| j < k < l && v[k].ino == v[j].ino {
      next := NextTime(v, j, k);
    }
  }

  /** With a hazard some run comes to the assertion, the next time the inode is handled. */
  lemma HazardCrashes(ctx: Context, s: State, order: seq<nat>, answers: seq<Choice>, c: nat, j: nat, l: nat)
      returns (run: seq<Handling>)
    requires Begin(ctx, s) && Hazard(ctx, s, Schedule(ctx, order, answers), c, j, l)
    ensures Crashes(ctx, s, order, answers, run) && j < |run| <= l
    ensures Schedule(ctx, order, answers)[|run|].ino == Schedule(ctx, order, answers)[j].ino
  {
    var v := Schedule(ctx, order, answers);
    var next := NextTime(v, j, l);
    assert v[..next] == v[..l][..next];
    assert Hazard(ctx, s, v, c, j, next);
    run := TameRun(ctx, s, v, c, j, next, next);
    var t := After(ctx, s, run);
    assert |run| == |Treatments(run)| == next;
    BackOrphaned(ctx, s, t, v[..next], c);
    assert Claims(t, v[next].ino, c);
  }

  /** Whatever the answers: a run in which nothing fails on disk can come to the assertion if
      and only if the schedule has a hazard. */
  lemma CrashIff(ctx: Context, s: State, order: seq<nat>, answers: seq<Choice>)
    requires Begin(ctx, s)
    ensures (exists run :: Crashes(ctx, s, order, answers, run)) <==> Hazardous(ctx, s, order, answers)
  {
    if run :| Crashes(ctx, s, order, answers, run) {
      CrashNeedsHazard(ctx, s, order, answers, run);
    }
    if Hazardous(ctx, s, order, answers) {
      var c, j: nat, l: nat :| Hazard(ctx, s, Schedule(ctx, order, answers), c, j, l);
      var run := HazardCrashes(ctx, s, order, answers, c, j, l);
    }
  }

  // ---------------------------------------------------------------------
  // All owners are cloned

  function Clones(list: seq<nat>): seq<Treatment> {
    seq(|list|, k requires 0 <= k < |list| => Treatment(list[k], false))
  }

  ghost predicate AllYes(answers: seq<Choice>) {
    forall n :: 0 <= n < |answers| ==> answers[n] == ToClone
  }

  /** When every answer is to clone, and none of the owners is a chain allocator. */
  lemma {:induction false} AllCloned(ctx: Context, list: seq<nat>, n: nat, answers: seq<Choice>, k: nat)
    requires n <= |list| && AllYes(answers) && forall i :: i in list[..n] ==> i !in ctx.chains
    ensures Ask(ctx, list, n, answers, k) == Clones(list[..n]) && Who(Clones(list[..n])) == Elements(list[..n])
  {
    if n > 0 {
      AllCloned(ctx, list, n - 1, answers, k);
      TakeMore(list, n - 1);
      ElementsTake(list, n - 1);
      var x := Treatment(list[n - 1], false);
      assert Clones(list[..n]) == Clones(list[..n - 1]) + [x];
      WhoAppend(Clones(list[..n - 1]), x);
    }
  }

  // ---------------------------------------------------------------------
  // Six inodes and three shared clusters

  const OWNERS: map<nat, seq<nat>> := map[1 := [21, 22], 2 := [23, 24], 3 := [23, 25, 26]]

  const INODES: map<nat, Inode> := map[
    21 := Inode([1], 1), 22 := Inode([1], 1), 23 := Inode([2, 3], 2),
    24 := Inode([2], 1), 25 := Inode([3], 1), 26 := Inode([3], 1)]

  /** The owners of `c` are added, of whom `i` and `j` are left. */
  lemma {:induction false} ClonesAdded(ctx: Context, v: seq<nat>, k: nat, c: nat, answers: seq<Choice>, i: nat, j: nat,
      w: seq<nat>)
    requires AllYes(answers) && ctx.chains == {} && c in ctx.owners && i in ctx.owners[c] && j in ctx.owners[c]
    requires i != j && i !in v && j !in v && w == v + ctx.owners[c]
    ensures AddCluster(ctx, Agenda(Clones(v), k), c, answers) == Agenda(Clones(w), k + |ctx.owners[c]|)
  {
    var list := ctx.owners[c];
    AllCloned(ctx, v, |v|, answers, k);
    AllCloned(ctx, list, |list|, answers, k);
    assert v[..|v|] == v && list[..|list|] == list;
    UnhandledAtLeastTwo(list, Who(Clones(v)), i, j);
    assert Clones(v) + Clones(list) == Clones(w);
  }

  lemma {:induction false} ExampleSchedule(ctx: Context, answers: seq<Choice>, order: seq<nat>)
    requires ctx.owners == OWNERS && ctx.chains == {} && AllYes(answers) && order == [1, 2, 3]
    ensures Schedule(ctx, order, answers) == Clones([21, 22, 23, 24, 23, 25, 26])
  {
    assert AgendaTo(ctx, order, 0, answers) == Agenda(Clones([]), 0);
    ClonesAdded(ctx, [], 0, 1, answers, 21, 22, [21, 22]);
    ClonesAdded(ctx, [21, 22], 2, 2, answers, 23, 24, [21, 22, 23, 24]);
    ClonesAdded(ctx, [21, 22, 23, 24], 4, 3, answers, 25, 26, [21, 22, 23, 24, 23, 25, 26]);
    assert AgendaTo(ctx, order, 1, answers) == Agenda(Clones([21, 22]), 2);
    assert AgendaTo(ctx, order, 2, answers) == Agenda(Clones([21, 22, 23, 24]), 4);
  }

  lemma ExampleBegins(ctx: Context, s: State)
    requires ctx.dups == {1, 2, 3} && ctx.owners == OWNERS && s == State(INODES, {1, 2, 3}, {})
    ensures Begin(ctx, s)
  {
    forall i, c
      ensures Claims(s, i, c) <==> c in OWNERS && i in OWNERS[c]
    {
      assert i in INODES ==> i == 21 || i == 22 || i == 23 || i == 24 || i == 25 || i == 26;
    }
  }

  /** Inodes 21 and 22 are cloned, which gives cluster 1 back; 23 may get it when it is cloned
      for cluster 2, and is cloned again for cluster 3, which 25 and 26 still share. */
  lemma {:induction false} ExampleCrashes(ctx: Context, s: State, order: seq<nat>, answers: seq<Choice>)
      returns (run: seq<Handling>)
    requires ctx.dups == {1, 2, 3} && ctx.owners == OWNERS && s == State(INODES, {1, 2, 3}, {})
    requires ctx.chains == {} && AllYes(answers) && order == [1, 2, 3]
    ensures Begin(ctx, s) && Crashes(ctx, s, order, answers, run)
    ensures Treatments(run) == Clones([21, 22, 23, 24]) && Asserts(ctx, After(ctx, s, run), 23)
  {
    ExampleBegins(ctx, s);
    ExampleSchedule(ctx, answers, order);
    var v := Schedule(ctx, order, answers);
    ExampleHazard(ctx, s, v);
    run := HazardCrashes(ctx, s, order, answers, 1, 2, 4);
    assert v[3].ino == 24;
    assert v[..4] == Clones([21, 22, 23, 24]);
  }

  lemma {:induction false} ExampleHazard(ctx: Context, s: State, v: seq<Treatment>)
    requires ctx.owners == OWNERS && s == State(INODES, {1, 2, 3}, {}) && v == Clones([21, 22, 23, 24, 23, 25, 26])
    ensures Hazard(ctx, s, v, 1, 2, 4)
  {
    var w := v[..2];
    assert w[0] == Treatment(21, false) && w[1] == Treatment(22, false);
    assert w[..1] == [w[0]] && w[..2] == w;
    assert LastOwner(ctx.owners, w, 1, 1);
  }
}
