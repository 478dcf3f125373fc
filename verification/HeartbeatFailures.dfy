/** Joining and leaving a heartbeat region with everything that may go wrong (libo2cb/o2cb_abi.c):
    any system call of any process may fail, and processes die. */
module HeartbeatFailures {
  import opened Basics
  import opened Heartbeat
  import opened HeartbeatJoins

  ghost predicate Took(s: State, e: Event, s': State) {
    Enabled(s, e.p, e.step) && s' == Apply(s, e.p, e.step)
  }

  /** The events lead from each state of a run to the next. */
  ghost predicate Path(run: seq<State>, events: seq<Event>) {
    && |run| == |events| + 1 && Init(run[0])
    && forall i :: 0 <= i < |events| ==> Took(run[i], events[i], run[i + 1])
  }

  lemma {:induction false} PathIsRun(run: seq<State>, events: seq<Event>)
    requires Path(run, events)
    ensures Run(run)
  {
    forall i | 0 <= i < |run| - 1
      ensures Next(run[i], run[i + 1])
    {
      assert Took(run[i], events[i], run[i + 1]);
    }
  }

  lemma {:induction false} RunFront(run: seq<State>)
    requires Run(run) && |run| > 1
    ensures Run(Front(run)) && Next(Last(Front(run)), Last(run))
  {
    var front := Front(run);
    forall i | 0 <= i < |front| - 1
      ensures Next(front[i], front[i + 1])
    {
      assert Next(run[i], run[i + 1]);
    }
    assert Next(run[|run| - 2], run[|run| - 2 + 1]);
  }

  lemma {:induction false} PathMore(run: seq<State>, events: seq<Event>, s: State, e: Event)
    requires Path(run, events) && Took(Last(run), e, s)
    ensures Path(run + [s], events + [e])
  {
    var run', events' := run + [s], events + [e];
    forall i | 0 <= i < |events'|
      ensures Took(run'[i], events'[i], run'[i + 1])
    {
      assert i < |events| ==> Took(run[i], events[i], run[i + 1]);
    }
  }

  /** Every run has its events. */
  lemma {:induction false} EventsOf(run: seq<State>) returns (events: seq<Event>)
    requires Run(run)
    ensures Path(run, events)
    decreases |run|
  {
    if |run| == 1 {
      events := [];
    } else {
      RunFront(run);
      var before := EventsOf(Front(run));
      var s := Last(Front(run));
      var p: nat, step :| Enabled(s, p, step) && Last(run) == Apply(s, p, step);
      PathMore(Front(run), before, Last(run), Event(p, step));
      assert run == Front(run) + [Last(run)];
      events := before + [Event(p, step)];
    }
  }

  // ---------------------------------------------------------------------
  // The count, from the events alone

  /** The operation that process `p` began last. */
  function Latest(events: seq<Event>, p: nat): Option<Op> {
    if events == [] then None
    else if Last(events).p == p && Last(events).step.Start? then Some(Last(events).step.op)
    else Latest(Front(events), p)
  }

  function Gain(step: Step): int {
    if step.GetRef? then 1 else if step.DropOne? then -1 else 0
  }

  predicate Persistent(op: Option<Op>) {
    op.Some? && op.value.persist
  }

  /** What process `p` took less what it dropped since it last died, but for what is persistent. */
  function Owned(events: seq<Event>, p: nat): int {
    if events == [] then 0
    else
      var e, before := Last(events), Owned(Front(events), p);
      if e.p != p then before
      else if e.step.Die? then 0
      else if Persistent(Latest(Front(events), p)) then before
      else before + Gain(e.step)
  }

  /** What was taken less what was dropped, and less what those owned who died. */
  function Count(events: seq<Event>): int {
    if events == [] then 0
    else
      var e := Last(events);
      Count(Front(events)) + Gain(e.step) - if e.step.Die? then Owned(Front(events), e.p) else 0
  }

  /** An operation under way is the one that was begun last. */
  predicate Fits(pc: Pc, op: Option<Op>) {
    && (pc.Lookup? || pc.Down? ==> op == Some(pc.op))
    && (pc.Create? || pc.Configure? || pc.TakeRef? ==> op == Some(Join(pc.persist)))
    && (pc.CountRefs? || pc.DropRef? ==> op == Some(Leave(pc.persist)))
  }

  ghost predicate Accounted(s: State, events: seq<Event>, q: nat)
    requires q < |s.procs|
  {
    Undoable(s, q) == Owned(events, q) && Fits(s.procs[q], Latest(events, q))
  }

  /** So it is after a step of its own, if it owned `owned` and began `op` last. */
  ghost predicate OneAccounted(s: State, p: nat, step: Step, s': State, owned: int, op: Option<Op>)
    requires p < |s.procs| == |s'.procs|
  {
    && Undoable(s', p) == (if step.Die? then 0 else if Persistent(op) then owned else owned + Gain(step))
    && Fits(s'.procs[p], if step.Start? then Some(step.op) else op)
    && Refs(s') == Refs(s) + Gain(step) - if step.Die? then owned else 0
  }

  lemma {:induction false} FitsStep(s: State, p: nat, step: Step, op: Option<Op>)
    requires Enabled(s, p, step) && Fits(s.procs[p], op)
    ensures |Apply(s, p, step).procs| == |s.procs|
    ensures Fits(Apply(s, p, step).procs[p], if step.Start? then Some(step.op) else op)
  {
  }

  lemma {:induction false} QuietAccount(s: State, p: nat, step: Step, op: Option<Op>)
    requires Sane(s, p) && Enabled(s, p, step) && !Counting(step) && Fits(s.procs[p], op)
    ensures |Apply(s, p, step).procs| == |s.procs|
    ensures OneAccounted(s, p, step, Apply(s, p, step), Undoable(s, p), op)
  {
    FitsStep(s, p, step, op);
    assert Refs(Apply(s, p, step)) == Refs(s) && Gain(step) == 0;
  }

  lemma {:induction false} CountingAccount(s: State, p: nat, step: Step, op: Option<Op>)
    requires Sane(s, p) && Enabled(s, p, step) && Counting(step) && Fits(s.procs[p], op)
    ensures |Apply(s, p, step).procs| == |s.procs|
    ensures OneAccounted(s, p, step, Apply(s, p, step), Undoable(s, p), op)
  {
    FitsStep(s, p, step, op);
  }

  lemma {:induction false} AccountStep(s: State, events: seq<Event>, e: Event, s': State, q: nat)
    requires Inv(s) && Took(s, e, s') && q < |s.procs| && Accounted(s, events, q) && Accounted(s, events, e.p)
    ensures |s'.procs| == |s.procs| && Accounted(s', events + [e], q)
    ensures Refs(s') - Refs(s) == Count(events + [e]) - Count(events)
  {
    InvSane(s, e.p);
    OnlyOwn(s, e.p, e.step);
    if Counting(e.step) {
      CountingAccount(s, e.p, e.step, Latest(events, e.p));
    } else {
      QuietAccount(s, e.p, e.step, Latest(events, e.p));
    }
    assert Front(events + [e]) == events;
    if q != e.p {
      OthersUndo(s, e.p, e.step, q);
    }
  }

  /** With all failures and deaths, the count is what was taken less what was dropped and what
      those owned who died; and the kernel would give back exactly what a process owns. */
  lemma {:induction false} CountIsTaken(run: seq<State>, events: seq<Event>, i: nat, q: nat)
    requires Path(run, events) && i < |run| && q < |run[i].procs|
    ensures Refs(run[i]) == Count(events[..i]) && Accounted(run[i], events[..i], q)
  {
    if i > 0 {
      var s, e := run[i - 1], events[i - 1];
      PathIsRun(run, events);
      RunInv(run, i - 1);
      assert Took(s, e, run[i - 1 + 1]);
      OnlyOwn(s, e.p, e.step);
      CountIsTaken(run, events, i - 1, q);
      CountIsTaken(run, events, i - 1, e.p);
      AccountStep(s, events[..i - 1], e, run[i], q);
      TakeMore(events, i - 1);
    }
  }

  // ---------------------------------------------------------------------
  // What becomes of an operation

  /** The steps that settle an operation: the reference is taken or dropped, or something
      failed before. */
  predicate Settles(op: Op, step: Step) {
    step.SemGetFails? || step.DownFails? ||
    if op.Join? then step.GetRef? || step.MkdirFails? || step.AttributeFails? || step.GetRefFails?
    else step.DropOne? || step.GetValFails? || step.DropFails?
  }

  predicate Open(pc: Pc, op: Op) {
    if op.Join? then ToTake(pc) else ToDrop(pc)
  }

  lemma {:induction false} OpenStep(s: State, p: nat, step: Step, op: Op)
    requires Sane(s, p) && Enabled(s, p, step) && !step.Start? && !step.Die?
    requires Open(s.procs[p], op) || (!ToTake(s.procs[p]) && !ToDrop(s.procs[p]))
    ensures var pc, pc' := s.procs[p], Apply(s, p, step).procs[p];
      && (Open(pc', op) <==> Open(pc, op) && !Settles(op, step))
      && (Open(pc', op) || (!ToTake(pc') && !ToDrop(pc')))
      && (Settles(op, step) ==> Open(pc, op))
  {
  }

  /** From the start of an operation of `p` to its return, if it lives. */
  ghost predicate Attempt(run: seq<State>, events: seq<Event>, i: nat, j: nat, p: nat, op: Op) {
    && Path(run, events) && i < j < |run| && events[i] == Event(p, Start(op))
    && (forall k :: i < k < j ==> p < |run[k].procs| && !run[k].procs[p].Idle?)
    && (forall k :: i < k < j ==> events[k] != Event(p, Die))
  }

  /** At `k` it is settled or not. */
  ghost predicate SettledAt(events: seq<Event>, i: nat, j: nat, p: nat, op: Op, k: nat)
    requires j <= |events|
  {
    && i < k < j && events[k].p == p && Settles(op, events[k].step)
    && forall m :: i < m < j && events[m].p == p && Settles(op, events[m].step) ==> m == k
  }

  ghost predicate Unsettled(events: seq<Event>, i: nat, j: nat, p: nat, op: Op)
    requires j <= |events|
  {
    forall m :: i < m < j && events[m].p == p ==> !Settles(op, events[m].step)
  }

  /** The last step before `j`. */
  lemma {:induction false} OpenNext(run: seq<State>, events: seq<Event>, i: nat, j: nat, p: nat, op: Op)
    requires Attempt(run, events, i, j, p, op) && i < j - 1
    requires Open(run[j - 1].procs[p], op) || (!ToTake(run[j - 1].procs[p]) && !ToDrop(run[j - 1].procs[p]))
    ensures p < |run[j].procs|
    ensures var pc, pc', e := run[j - 1].procs[p], run[j].procs[p], events[j - 1];
      && (Open(pc', op) || (!ToTake(pc') && !ToDrop(pc')))
      && (if e.p == p && Settles(op, e.step) then Open(pc, op) && !Open(pc', op) else Open(pc', op) == Open(pc, op))
  {
    var s, e := run[j - 1], events[j - 1];
    assert Took(s, e, run[j - 1 + 1]);
    PathIsRun(run, events);
    RunInv(run, j - 1);
    OnlyOwn(s, e.p, e.step);
    if e.p == p {
      InvSane(s, p);
      OpenStep(s, p, e.step, op);
    }
  }

  lemma {:induction false} Begun(run: seq<State>, events: seq<Event>, i: nat, p: nat, op: Op)
    requires Attempt(run, events, i, i + 1, p, op)
    ensures p < |run[i + 1].procs| && Open(run[i + 1].procs[p], op)
  {
    assert Took(run[i], events[i], run[i + 1]);
  }

  lemma {:induction false} SettledMore(events: seq<Event>, i: nat, j: nat, p: nat, op: Op, open: bool, k: nat)
      returns (k': nat)
    requires i < j - 1 && j <= |events|
    requires if open then Unsettled(events, i, j - 1, p, op) else SettledAt(events, i, j - 1, p, op, k)
    requires events[j - 1].p == p && Settles(op, events[j - 1].step) ==> open
    ensures if open && !(events[j - 1].p == p && Settles(op, events[j - 1].step)) then Unsettled(events, i, j, p, op)
      else SettledAt(events, i, j, p, op, k')
  {
    k' := if open then j - 1 else k;
  }

  /** How far an operation has got by `j`. */
  lemma {:induction false} Progress(run: seq<State>, events: seq<Event>, i: nat, j: nat, p: nat, op: Op)
        returns (k: nat)
    requires Attempt(run, events, i, j, p, op)
    ensures p < |run[j].procs|
    ensures var pc := run[j].procs[p];
      if Open(pc, op) then Unsettled(events, i, j, p, op)
      else !ToTake(pc) && !ToDrop(pc) && SettledAt(events, i, j, p, op, k)
    decreases j
  {
    k := 0;
    if i == j - 1 {
      Begun(run, events, i, p, op);
    } else {
      k := Progress(run, events, i, j - 1, p, op);
      OpenNext(run, events, i, j, p, op);
      k := SettledMore(events, i, j, p, op, Open(run[j - 1].procs[p], op), k);
    }
  }

  /** An operation that returns has been settled by exactly one step: a join took its reference,
      or failed before, and a leave dropped one, or failed before. */
  lemma {:induction false} SettledOnce(run: seq<State>, events: seq<Event>, i: nat, j: nat, p: nat, op: Op)
      returns (k: nat)
    requires Attempt(run, events, i, j, p, op) && p < |run[j].procs| && run[j].procs[p].Idle?
    ensures SettledAt(events, i, j, p, op, k)
    ensures forall m :: i < m < j && events[m].p == p && Gain(events[m].step) != 0 ==> m == k
  {
    k := Progress(run, events, i, j, p, op);
    forall m | i < m < j && events[m].p == p && Gain(events[m].step) != 0
      ensures m == k
    {
      var before := Progress(run, events, i, m, p, op);
      assert Took(run[m], events[m], run[m + 1]);
    }
  }

  // ---------------------------------------------------------------------
  // A mutex that could not be released

  /** Process `p` failed to release the mutex at `k`, and lives. */
  ghost predicate StuckSince(events: seq<Event>, p: nat, k: nat) {
    && k < |events| && events[k] == Event(p, UpFails)
    && forall m :: k < m < |events| ==> events[m] != Event(p, Die)
  }

  lemma {:induction false} StuckMore(events: seq<Event>, e: Event, p: nat)
    ensures (exists k: nat :: StuckSince(events + [e], p, k))
        <==> e == Event(p, UpFails) || ((exists k: nat :: StuckSince(events, p, k)) && e != Event(p, Die))
  {
    var more := events + [e];
    if e == Event(p, UpFails) {
      assert StuckSince(more, p, |events|);
    }
    if k: nat :| StuckSince(events, p, k) {
      if e != Event(p, Die) {
        assert StuckSince(more, p, k);
      }
    }
    if k: nat :| StuckSince(more, p, k) {
      assert more[|events|] == e;
      if k < |events| {
        forall m | k < m < |events|
          ensures events[m] != Event(p, Die)
        {
          assert more[m] == events[m];
        }
        assert StuckSince(events, p, k);
      }
    }
  }

  lemma {:induction false} HeldOwn(s: State, p: nat, step: Step)
    requires Enabled(s, p, step)
    ensures var pc' := Apply(s, p, step).procs[p];
      pc'.Held? <==> step.UpFails? || (s.procs[p].Held? && !step.Die?)
  {
  }

  lemma {:induction false} HeldNext(s: State, e: Event, s': State, p: nat)
    requires Inv(s) && Took(s, e, s') && p < |s.procs|
    ensures |s'.procs| == |s.procs|
    ensures s'.procs[p].Held? <==> e == Event(p, UpFails) || (s.procs[p].Held? && e != Event(p, Die))
  {
    OnlyOwn(s, e.p, e.step);
    HeldOwn(s, e.p, e.step);
    assert p != e.p ==> s'.procs[p] == s.procs[p];
  }

  lemma {:induction false} HeldBefore(run: seq<State>, events: seq<Event>, i: nat, p: nat)
    requires Path(run, events) && 0 < i < |run| && p < |run[i].procs| && Inv(run[i - 1])
    ensures p < |run[i - 1].procs|
    ensures run[i].procs[p].Held? <==>
      events[i - 1] == Event(p, UpFails) || (run[i - 1].procs[p].Held? && events[i - 1] != Event(p, Die))
  {
    assert Took(run[i - 1], events[i - 1], run[i - 1 + 1]);
    OnlyOwn(run[i - 1], events[i - 1].p, events[i - 1].step);
    HeldNext(run[i - 1], events[i - 1], run[i], p);
  }

  lemma {:induction false} HeldAlone(s: State, p: nat, q: nat)
    requires Inv(s) && p < |s.procs| && s.procs[p].Held? && q < |s.procs| && q != p
    ensures !InCritical(s.procs[q]) && !Enabled(s, q, MutexDown)
  {
  }

  /** A process is left with the mutex if and only if it failed to release it; nobody gets in
      until it dies. */
  lemma {:induction false} HeldIffStuck(run: seq<State>, events: seq<Event>, i: nat, p: nat)
    requires Path(run, events) && i < |run| && p < |run[i].procs|
    ensures run[i].procs[p].Held? <==> exists k: nat :: StuckSince(events[..i], p, k)
    ensures run[i].procs[p].Held? ==>
      forall q :: 0 <= q < |run[i].procs| && q != p ==> !InCritical(run[i].procs[q]) && !Enabled(run[i], q, MutexDown)
  {
    PathIsRun(run, events);
    RunInv(run, i);
    forall q | 0 <= q < |run[i].procs| && q != p && run[i].procs[p].Held?
      ensures !InCritical(run[i].procs[q]) && !Enabled(run[i], q, MutexDown)
    {
      HeldAlone(run[i], p, q);
    }
    if i > 0 {
      RunInv(run, i - 1);
      HeldBefore(run, events, i, p);
      HeldIffStuck(run, events, i - 1, p);
      StuckMore(events[..i - 1], events[i - 1], p);
      TakeMore(events, i - 1);
    }
  }

  // ---------------------------------------------------------------------
  // Regions left behind

  /** Whenever nobody is inside, the region exists exactly when references are held, in every run
      in which no step leaves one behind; failures of all other kinds are harmless. */
  lemma {:induction false} RegionIffHeld(run: seq<State>, events: seq<Event>, i: nat)
    requires Path(run, events) && i < |run|
    requires forall k :: 0 <= k < i ==>
      Took(run[k], events[k], run[k + 1]) && !LeavesBehind(run[k], events[k].p, events[k].step)
    ensures TidyInv(run[i])
    ensures (forall p :: 0 <= p < |run[i].procs| ==> !InCritical(run[i].procs[p])) ==>
      (run[i].region <==> Refs(run[i]) > 0)
  {
    if i > 0 {
      RegionIffHeld(run, events, i - 1);
      PathIsRun(run, events);
      RunInv(run, i - 1);
      assert Took(run[i - 1], events[i - 1], run[i - 1 + 1]);
      TidyIff(run[i - 1], events[i - 1].p, events[i - 1].step);
    }
  }
}
