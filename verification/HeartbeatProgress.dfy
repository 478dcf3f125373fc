/** That processes get on when joining and leaving a heartbeat region (libo2cb/o2cb_abi.c): the
    mutex is not lost, nobody waits for ever for somebody who waits, and an operation that is
    left alone completes. */
module HeartbeatProgress {
  import opened Basics
  import opened Heartbeat
  import opened HeartbeatJoins

  // ---------------------------------------------------------------------
  // The mutex

  /** A mutex that is taken is taken by somebody inside the critical section. */
  ghost predicate Locked(s: State) {
    s.live.Some? && s.live.value.mutex != 0 ==> exists p :: 0 <= p < |s.procs| && InCritical(s.procs[p])
  }

  lemma {:induction false} OwnLocked(s: State, p: nat, step: Step)
    requires WellFormed(s) && MutexInv(s) && Enabled(s, p, step)
    ensures var s' := Apply(s, p, step);
      && |s'.procs| == |s.procs|
      && (s'.live.Some? && s'.live.value.mutex != 0 ==>
          InCritical(s'.procs[p]) || (s.live.Some? && s.live.value.mutex != 0 && !InCritical(s.procs[p])))
  {
  }

  /** With all failures and deaths. */
  lemma {:induction false} LockedNext(s: State, s': State)
    requires Inv(s) && Locked(s) && Next(s, s')
    ensures Locked(s')
  {
    var p: nat, step :| Enabled(s, p, step) && s' == Apply(s, p, step);
    OwnLocked(s, p, step);
    OnlyOwn(s, p, step);
    if s'.live.Some? && s'.live.value.mutex != 0 && !InCritical(s'.procs[p]) {
      var q :| 0 <= q < |s.procs| && InCritical(s.procs[q]);
      assert s'.procs[q] == s.procs[q];
    }
  }

  /** In every state of every run. */
  lemma {:induction false} MutexNotLost(run: seq<State>, i: nat)
    requires Run(run) && i < |run|
    ensures Locked(run[i])
  {
    if i > 0 {
      MutexNotLost(run, i - 1);
      RunInv(run, i - 1);
      assert Next(run[i - 1], run[i - 1 + 1]);
      LockedNext(run[i - 1], run[i]);
    }
  }

  // ---------------------------------------------------------------------
  // No deadlock

  ghost predicate CanStep(s: State, p: nat) {
    exists step :: Smooth(step) && Enabled(s, p, step)
  }

  predicate Underway(s: State, p: nat) {
    p < |s.procs| && !s.procs[p].Idle?
  }

  /** Whoever is inside can go on, having the mutex released without failure. */
  lemma {:induction false} InsideSteps(s: State, p: nat)
    requires Inv(s) && TidyInv(s) && p < |s.procs| && InCritical(s.procs[p]) && !s.procs[p].Held?
    ensures CanStep(s, p)
  {
    TotalAtLeast(s.procs, s.joined, p);
    var pc := s.procs[p];
    assert Tidy(s, pc);
    var step :=
      if pc.Create? then Mkdir else if pc.Configure? then SetAttributes else if pc.CleanUp? then RmdirNew
      else if pc.TakeRef? then GetRef
      else if pc.CountRefs? then GetVal else if pc.DropRef? then DropOne else if pc.RemoveRegion? then Rmdir
      else if pc.DestroySet? then Rmid else MutexUp;
    assert Smooth(step) && Enabled(s, p, step);
  }

  ghost predicate NoneHeld(s: State) {
    forall p :: 0 <= p < |s.procs| ==> !s.procs[p].Held?
  }

  lemma {:induction false} NoneHeldPath(run: seq<State>, events: seq<Event>, i: nat)
    requires SmoothPath(run, events) && i < |run|
    ensures NoneHeld(run[i])
  {
    if i > 0 {
      NoneHeldPath(run, events, i - 1);
      var s, e := run[i - 1], events[i - 1];
      assert Stepped(s, e, run[i - 1 + 1]);
      OnlyOwn(s, e.p, e.step);
      assert !run[i].procs[e.p].Held?;
    }
  }

  /** As long as somebody is under way, somebody who is can take a step. */
  lemma {:induction false} NoDeadlock(run: seq<State>, events: seq<Event>, i: nat, p: nat)
    requires SmoothPath(run, events) && i < |run| && Underway(run[i], p)
    ensures exists q: nat :: Underway(run[i], q) && CanStep(run[i], q)
  {
    var s := run[i];
    HeldPath(run, events, i);
    NoneHeldPath(run, events, i);
    LockedPath(run, events, i);
    var pc := s.procs[p];
    if InCritical(pc) {
      InsideSteps(s, p);
    } else if pc.Lookup? {
      assert Smooth(SemGet) && Enabled(s, p, SemGet);
    } else if !(s.live.Some? && s.live.value.id == pc.id) {
      assert Smooth(RemovedRetry) && Enabled(s, p, RemovedRetry);
    } else if s.live.value.mutex == 0 {
      assert Smooth(MutexDown) && Enabled(s, p, MutexDown);
    } else {
      var q :| 0 <= q < |s.procs| && InCritical(s.procs[q]);
      InsideSteps(s, q);
      assert Underway(s, q);
    }
  }

  lemma {:induction false} LockedPath(run: seq<State>, events: seq<Event>, i: nat)
    requires SmoothPath(run, events) && i < |run|
    ensures Locked(run[i])
  {
    if i > 0 {
      LockedPath(run, events, i - 1);
      PathInv(run, events, i - 1);
      assert Stepped(run[i - 1], events[i - 1], run[i - 1 + 1]);
      assert Next(run[i - 1], run[i]);
      LockedNext(run[i - 1], run[i]);
    }
  }

  // ---------------------------------------------------------------------
  // An operation that is left alone

  /** Process `p` can take these steps, and gets to `t`. */
  ghost predicate Leads(s: State, p: nat, steps: seq<Step>, t: State)
    decreases |steps|
  {
    if steps == [] then t == s
    else Smooth(steps[0]) && Enabled(s, p, steps[0]) && Leads(Apply(s, p, steps[0]), p, steps[1..], t)
  }

  /** Nobody is under way, and nothing is left behind. */
  ghost predicate Quiet(s: State) {
    && Inv(s) && (forall p :: 0 <= p < |s.procs| ==> s.procs[p].Idle?)
    && (s.live.Some? <==> Refs(s) > 0) && (s.region <==> Refs(s) > 0)
    && (s.live.Some? ==> s.live.value.mutex == 0)
  }

  /** That is so whenever nobody is under way in a run without failures. */
  lemma {:induction false} QuietPath(run: seq<State>, events: seq<Event>, i: nat)
    requires SmoothPath(run, events) && i < |run| && forall p :: 0 <= p < |run[i].procs| ==> run[i].procs[p].Idle?
    ensures Quiet(run[i])
  {
    HeldPath(run, events, i);
    SetIffHeld(run, events, i);
    LockedPath(run, events, i);
  }

  lemma {:induction false} OneStep(s: State, p: nat, step: Step, t: State, steps: seq<Step>, u: State)
    requires Smooth(step) && Enabled(s, p, step) && t == Apply(s, p, step) && Leads(t, p, steps, u)
    ensures Leads(s, p, [step] + steps, u)
  {
    assert ([step] + steps)[1..] == steps;
  }

  lemma {:induction false} ThreeSteps(s: State, a: State, b: State, t: State, p: nat, op: Op, steps: seq<Step>,
      u: State)
    requires Enabled(s, p, Start(op)) && a == Apply(s, p, Start(op))
    requires Enabled(a, p, SemGet) && b == Apply(a, p, SemGet)
    requires Enabled(b, p, MutexDown) && t == Apply(b, p, MutexDown) && Leads(t, p, steps, u)
    ensures Leads(s, p, [Start(op)] + ([SemGet] + ([MutexDown] + steps)), u)
  {
    OneStep(b, p, MutexDown, t, steps, u);
    OneStep(a, p, SemGet, b, [MutexDown] + steps, u);
    OneStep(s, p, Start(op), a, [SemGet] + ([MutexDown] + steps), u);
  }

  /** Into the critical section. */
  lemma {:induction false} GetsIn(s: State, p: nat, op: Op) returns (t: State)
    requires Quiet(s) && p < |s.procs| && Enabled(s, p, Start(op))
    ensures forall steps, u ::
      Leads(t, p, steps, u) ==> Leads(s, p, [Start(op)] + ([SemGet] + ([MutexDown] + steps)), u)
    ensures WellFormed(t) && |t.procs| == |s.procs| && t.live.Some? && t.live.value.mutex == 1 && Refs(t) == Refs(s)
    ensures t.procs == s.procs[p := t.procs[p]] && t.region == s.region
    ensures t.procs[p]
         == if op.Join? then Create(op.persist, t.live.value.id) else CountRefs(op.persist, t.live.value.id)
  {
    var a := Apply(s, p, Start(op));
    var b := Apply(a, p, SemGet);
    t := Apply(b, p, MutexDown);
    forall steps, u | Leads(t, p, steps, u)
      ensures Leads(s, p, [Start(op)] + ([SemGet] + ([MutexDown] + steps)), u)
    {
      ThreeSteps(s, a, b, t, p, op, steps, u);
    }
  }

  /** Inside, with the mutex and nobody else there, at `pc`. */
  ghost predicate Inside(s: State, p: nat, pc: Pc) {
    && WellFormed(s) && p < |s.procs| && s.procs[p] == pc && InCritical(pc) && Alive(s, pc.id)
    && s.live.value.mutex == 1
  }

  lemma {:induction false} Takes(s: State, p: nat, persist: bool, id: nat) returns (t: State)
    requires Inside(s, p, TakeRef(persist, id)) && s.region
    ensures Leads(s, p, [GetRef] + ([MutexUp] + []), t) && t.procs == s.procs[p := Idle] && t.region
    ensures t.live.Some? && t.live.value.mutex == 0 && Refs(t) == Refs(s) + 1
  {
    var a := Apply(s, p, GetRef);
    t := Apply(a, p, MutexUp);
    OneStep(a, p, MutexUp, t, [], t);
    OneStep(s, p, GetRef, a, [MutexUp] + [], t);
  }

  /** The region exists or is made. */
  lemma {:induction false} Makes(s: State, p: nat, persist: bool, id: nat) returns (steps: seq<Step>, t: State)
    requires Inside(s, p, Create(persist, id))
    ensures Inside(t, p, TakeRef(persist, id)) && t.region && t.procs == s.procs[p := t.procs[p]] && Refs(t) == Refs(s)
    ensures forall rest, u :: Leads(t, p, rest, u) ==> Leads(s, p, steps + rest, u)
  {
    var a := Apply(s, p, Mkdir);
    t, steps := a, [Mkdir];
    if !s.region {
      t, steps := Apply(a, p, SetAttributes), [Mkdir] + [SetAttributes];
    }
    forall rest, u | Leads(t, p, rest, u)
      ensures Leads(s, p, steps + rest, u)
    {
      if s.region {
        OneStep(s, p, Mkdir, a, rest, u);
      } else {
        OneStep(a, p, SetAttributes, t, rest, u);
        OneStep(s, p, Mkdir, a, [SetAttributes] + rest, u);
        PlusAssoc([Mkdir], [SetAttributes], rest);
      }
    }
  }

  lemma {:induction false} Drops(s: State, p: nat, persist: bool, id: nat) returns (t: State)
    requires Inside(s, p, CountRefs(persist, id)) && Refs(s) > 0
    ensures Inside(t, p, if Refs(t) == 0 then RemoveRegion(id) else Up(id)) && Refs(t) == Refs(s) - 1
    ensures t.procs == s.procs[p := t.procs[p]] && t.region == s.region
    ensures forall rest, u :: Leads(t, p, rest, u) ==> Leads(s, p, [GetVal] + ([DropOne] + rest), u)
  {
    var a := Apply(s, p, GetVal);
    t := Apply(a, p, DropOne);
    forall rest, u | Leads(t, p, rest, u)
      ensures Leads(s, p, [GetVal] + ([DropOne] + rest), u)
    {
      OneStep(a, p, DropOne, t, rest, u);
      OneStep(s, p, GetVal, a, [DropOne] + rest, u);
    }
  }

  lemma {:induction false} CleansUp(s: State, p: nat, id: nat) returns (steps: seq<Step>, t: State)
    requires Inside(s, p, if Refs(s) == 0 then RemoveRegion(id) else Up(id)) && s.region && Refs(s) >= 0
    ensures Leads(s, p, steps, t) && t.procs == s.procs[p := Idle] && Refs(t) == Refs(s)
    ensures if Refs(t) == 0 then t.live.None? && !t.region else t.live.Some? && t.live.value.mutex == 0 && t.region
  {
    if Refs(s) > 0 {
      t := Apply(s, p, MutexUp);
      OneStep(s, p, MutexUp, t, [], t);
      steps := [MutexUp] + [];
    } else {
      var a := Apply(s, p, Rmdir);
      t := Apply(a, p, Rmid);
      OneStep(a, p, Rmid, t, [], t);
      OneStep(s, p, Rmdir, a, [Rmid] + [], t);
      steps := [Rmdir] + ([Rmid] + []);
    }
  }

  /** A join that is left alone completes, and has its reference. */
  lemma {:induction false} JoinAlone(s: State, p: nat, persist: bool) returns (steps: seq<Step>, t: State)
    requires Quiet(s) && p < |s.procs|
    ensures Leads(s, p, steps, t)
    ensures t.procs == s.procs && t.region && t.live.Some? && t.live.value.mutex == 0 && Refs(t) == Refs(s) + 1
  {
    var u := GetsIn(s, p, Join(persist));
    var make, v := Makes(u, p, persist, u.live.value.id);
    t := Takes(v, p, persist, u.live.value.id);
    steps := [Start(Join(persist))] + ([SemGet] + ([MutexDown] + (make + ([GetRef] + ([MutexUp] + [])))));
  }

  /** A leave that is left alone completes; the last removes region and set. */
  lemma {:induction false} LeaveAlone(s: State, p: nat, persist: bool) returns (steps: seq<Step>, t: State)
    requires Quiet(s) && p < |s.procs| && (if persist then s.persistent > 0 else s.joined[p] > 0)
    ensures Leads(s, p, steps, t)
    ensures t.procs == s.procs && Refs(t) == Refs(s) - 1
    ensures if Refs(t) == 0 then t.live.None? && !t.region else t.live.Some? && t.live.value.mutex == 0 && t.region
  {
    TotalAtLeast(s.procs, s.joined, p);
    var u := GetsIn(s, p, Leave(persist));
    var v := Drops(u, p, persist, u.live.value.id);
    var rest;
    rest, t := CleansUp(v, p, u.live.value.id);
    steps := [Start(Leave(persist))] + ([SemGet] + ([MutexDown] + ([GetVal] + ([DropOne] + rest))));
  }
}
