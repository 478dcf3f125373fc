/** What joining and leaving a heartbeat region amounts to (libo2cb/o2cb_abi.c), counted from
    the steps of a run alone. */
module HeartbeatJoins {
  import opened Basics
  import opened Heartbeat

  datatype Event = Event(p: nat, step: Step)

  ghost predicate Stepped(s: State, e: Event, s': State) {
    Smooth(e.step) && Enabled(s, e.p, e.step) && s' == Apply(s, e.p, e.step)
  }

  /** The events lead from each state of a run without failures to the next. */
  ghost predicate SmoothPath(run: seq<State>, events: seq<Event>) {
    && |run| == |events| + 1 && Init(run[0])
    && forall i :: 0 <= i < |events| ==> Stepped(run[i], events[i], run[i + 1])
  }

  lemma {:induction false} PathFront(run: seq<State>, events: seq<Event>, s: State, e: Event)
    requires SmoothPath(run, events) && Stepped(Last(run), e, s)
    ensures SmoothPath(run + [s], events + [e])
  {
    var run', events' := run + [s], events + [e];
    forall i | 0 <= i < |events'|
      ensures Stepped(run'[i], events'[i], run'[i + 1])
    {
      assert i < |events| ==> Stepped(run[i], events[i], run[i + 1]);
    }
  }

  lemma {:induction false} SmoothFront(run: seq<State>)
    requires SmoothRun(run) && |run| > 1
    ensures SmoothRun(Front(run)) && SmoothNext(Last(Front(run)), Last(run))
  {
    var front := Front(run);
    forall i | 0 <= i < |front| - 1
      ensures SmoothNext(front[i], front[i + 1])
    {
      assert SmoothNext(run[i], run[i + 1]);
    }
    assert SmoothNext(run[|run| - 2], run[|run| - 2 + 1]);
  }

  /** Every run without failures has its events. */
  lemma {:induction false} PathOf(run: seq<State>) returns (events: seq<Event>)
    requires SmoothRun(run)
    ensures SmoothPath(run, events)
    decreases |run|
  {
    if |run| == 1 {
      events := [];
    } else {
      SmoothFront(run);
      var before := PathOf(Front(run));
      var s := Last(Front(run));
      var p: nat, step :| Smooth(step) && Enabled(s, p, step) && Last(run) == Apply(s, p, step);
      PathFront(Front(run), before, Last(run), Event(p, step));
      assert run == Front(run) + [Last(run)];
      events := before + [Event(p, step)];
    }
  }

  lemma {:induction false} PathInv(run: seq<State>, events: seq<Event>, i: nat)
    requires SmoothPath(run, events) && i < |run|
    ensures Inv(run[i])
  {
    if i == 0 {
      InitInv(run[0]);
    } else {
      PathInv(run, events, i - 1);
      assert Stepped(run[i - 1], events[i - 1], run[i - 1 + 1]);
      assert Next(run[i - 1], run[i]);
      InvNext(run[i - 1], run[i]);
    }
  }

  /** How often process `p` took a step. */
  function Times(events: seq<Event>, p: nat, step: Step): nat {
    multiset(events)[Event(p, step)]
  }

  function Joins(events: seq<Event>, p: nat): nat {
    Times(events, p, Start(Join(false))) + Times(events, p, Start(Join(true)))
  }

  function Leaves(events: seq<Event>, p: nat): nat {
    Times(events, p, Start(Leave(false))) + Times(events, p, Start(Leave(true)))
  }

  /** Joins less leaves, of all processes. */
  function Net(events: seq<Event>): int {
    if events == [] then 0 else Net(Front(events)) + Change(Last(events).step)
  }

  function Change(step: Step): int {
    if !step.Start? then 0 else if step.op.Join? then 1 else -1
  }

  /** Whether a join in progress has its reference still to take, and whether it will be
      given back on death. */
  predicate ToTake(pc: Pc) {
    ((pc.Lookup? || pc.Down?) && pc.op.Join?) || pc.Create? || pc.Configure? || pc.TakeRef?
  }

  /** Whether a leave in progress has its reference still to drop. */
  predicate ToDrop(pc: Pc) {
    ((pc.Lookup? || pc.Down?) && pc.op.Leave?) || pc.CountRefs? || pc.DropRef?
  }

  predicate Persists(pc: Pc) {
    if pc.Lookup? || pc.Down? then pc.op.persist
    else (pc.Create? || pc.Configure? || pc.TakeRef? || pc.CountRefs? || pc.DropRef?) && pc.persist
  }

  /** What the operation in progress will yet add to the count. */
  function Pending(pc: Pc): int {
    if ToTake(pc) then 1 else if ToDrop(pc) then -1 else 0
  }

  function PendingOf(procs: seq<Pc>): int {
    if procs == [] then 0 else Pending(procs[0]) + PendingOf(procs[1..])
  }

  lemma {:induction false} PendingUpdate(procs: seq<Pc>, p: nat, pc: Pc)
    requires p < |procs|
    ensures PendingOf(procs[p := pc]) == PendingOf(procs) - Pending(procs[p]) + Pending(pc)
  {
    if p == 0 {
      assert procs[p := pc][1..] == procs[1..];
    } else {
      PendingUpdate(procs[1..], p - 1, pc);
      assert procs[p := pc][1..] == procs[1..][p - 1 := pc];
    }
  }

  lemma {:induction false} NonePending(procs: seq<Pc>)
    requires forall p :: 0 <= p < |procs| ==> procs[p].Idle?
    ensures PendingOf(procs) == 0
  {
    if procs != [] {
      NonePending(procs[1..]);
    }
  }

  /** What the kernel will give back if process `p` dies. */
  function Undoable(s: State, p: nat): int {
    if s.live.Some? && p < |s.live.value.undoRefs| then -s.live.value.undoRefs[p] else 0
  }

  function PendingUndo(pc: Pc): int {
    if Persists(pc) then 0 else Pending(pc)
  }

  function ChangeUndo(step: Step): int {
    if step.Start? && !step.op.persist then Change(step) else 0
  }

  function One(b: bool): nat {
    if b then 1 else 0
  }

  /** What a step adds to the count and to what can be undone is what was to come. */
  ghost predicate Fair(s: State, p: nat, step: Step, s': State)
    requires p < |s.procs| == |s'.procs|
  {
    var pc, pc' := s.procs[p], s'.procs[p];
    && Refs(s') + Pending(pc') == Refs(s) + Pending(pc) + Change(step)
    && Undoable(s', p) + PendingUndo(pc') == Undoable(s, p) + PendingUndo(pc) + ChangeUndo(step)
    && One(ToTake(pc')) == One(ToTake(pc)) + One(Change(step) == 1) - One(step.GetRef?)
    && One(ToDrop(pc')) == One(ToDrop(pc)) + One(Change(step) == -1) - One(step.DropOne?)
  }

  /** What is known of process `p`. */
  ghost predicate Sane(s: State, p: nat) {
    && WellFormed(s) && p < |s.procs| && OwnRefs(s, p) && Knows(s, s.procs[p])
    && s.joined[p] + Claimed(s.procs[p]) + s.persistent <= Refs(s)
  }

  lemma {:induction false} StartFair(s: State, p: nat, op: Op)
    requires Sane(s, p) && Enabled(s, p, Start(op))
    ensures |Apply(s, p, Start(op)).procs| == |s.procs| && Fair(s, p, Start(op), Apply(s, p, Start(op)))
  {
  }

  lemma {:induction false} QuietFair(s: State, p: nat, step: Step)
    requires Sane(s, p) && Smooth(step) && Enabled(s, p, step) && !Counting(step) && !step.Start?
    ensures |Apply(s, p, step).procs| == |s.procs| && Fair(s, p, step, Apply(s, p, step))
  {
  }

  lemma {:induction false} CountingFair(s: State, p: nat, step: Step)
    requires Sane(s, p) && Smooth(step) && Enabled(s, p, step) && Counting(step)
    ensures |Apply(s, p, step).procs| == |s.procs| && Fair(s, p, step, Apply(s, p, step))
  {
  }

  lemma {:induction false} InvSane(s: State, p: nat)
    requires Inv(s) && p < |s.procs|
    ensures Sane(s, p)
  {
    TotalAtLeast(s.procs, s.joined, p);
  }

  lemma {:induction false} FairStep(s: State, p: nat, step: Step)
    requires Inv(s) && Smooth(step) && Enabled(s, p, step)
    ensures |Apply(s, p, step).procs| == |s.procs| && Fair(s, p, step, Apply(s, p, step))
  {
    InvSane(s, p);
    if step.Start? {
      StartFair(s, p, step.op);
    } else if Counting(step) {
      CountingFair(s, p, step);
    } else {
      QuietFair(s, p, step);
    }
  }

  // ---------------------------------------------------------------------
  // Along a run

  lemma {:induction false} NetPath(run: seq<State>, events: seq<Event>, i: nat)
    requires SmoothPath(run, events) && i < |run|
    ensures Refs(run[i]) + PendingOf(run[i].procs) == Net(events[..i])
  {
    if i == 0 {
      NonePending(run[0].procs);
    } else {
      var s, e := run[i - 1], events[i - 1];
      NetPath(run, events, i - 1);
      PathInv(run, events, i - 1);
      assert Stepped(s, e, run[i - 1 + 1]);
      FairStep(s, e.p, e.step);
      OnlyOwn(s, e.p, e.step);
      PendingUpdate(s.procs, e.p, run[i].procs[e.p]);
      TakeFront(events, i - 1);
    }
  }

  /** What the steps of process `q` say of it. */
  ghost predicate Told(s: State, events: seq<Event>, q: nat)
    requires q < |s.procs|
  {
    && Undoable(s, q) + PendingUndo(s.procs[q])
       == Times(events, q, Start(Join(false))) - Times(events, q, Start(Leave(false)))
    && Times(events, q, GetRef) + One(ToTake(s.procs[q])) == Joins(events, q)
    && Times(events, q, DropOne) + One(ToDrop(s.procs[q])) == Leaves(events, q)
  }

  lemma {:induction false} ToldOwn(s: State, events: seq<Event>, e: Event, s': State)
    requires e.p < |s.procs| == |s'.procs| && Told(s, events, e.p) && Fair(s, e.p, e.step, s')
    ensures Told(s', events + [e], e.p)
  {
    assert multiset(events + [e]) == multiset(events) + multiset{e};
  }

  /** The steps of others change nothing of it. */
  lemma {:induction false} OthersUndo(s: State, p: nat, step: Step, q: nat)
    requires Inv(s) && Enabled(s, p, step) && q < |s.procs| && q != p
    ensures Undoable(Apply(s, p, step), q) == Undoable(s, q)
  {
    var s' := Apply(s, p, step);
    OnlyOwn(s, p, step);
    if s.live.None? && s'.live.Some? {
      FreshSet(s, p, step);
    } else if s.live.Some? && s'.live.None? {
      assert Knows(s, s.procs[p]);
      NobodyHolds(s);
    }
  }

  lemma {:induction false} ToldOther(s: State, events: seq<Event>, e: Event, s': State, q: nat)
    requires q < |s.procs| == |s'.procs| && q != e.p && Told(s, events, q)
    requires s'.procs[q] == s.procs[q] && Undoable(s', q) == Undoable(s, q)
    ensures Told(s', events + [e], q)
  {
    assert multiset(events + [e]) == multiset(events) + multiset{e};
  }

  lemma {:induction false} ToldPath(run: seq<State>, events: seq<Event>, i: nat, q: nat)
    requires SmoothPath(run, events) && i < |run| && q < |run[i].procs|
    ensures Told(run[i], events[..i], q)
  {
    if i > 0 {
      var s, e := run[i - 1], events[i - 1];
      PathInv(run, events, i - 1);
      assert Stepped(s, e, run[i - 1 + 1]);
      OnlyOwn(s, e.p, e.step);
      FairStep(s, e.p, e.step);
      ToldPath(run, events, i - 1, q);
      TakeMore(events, i - 1);
      if q == e.p {
        ToldOwn(s, events[..i - 1], e, run[i]);
      } else {
        OthersUndo(s, e.p, e.step, q);
        ToldOther(s, events[..i - 1], e, run[i], q);
      }
    }
  }

  /** Whenever nobody is under way, the count is the joins made less the leaves made. */
  lemma {:induction false} CountIsNet(run: seq<State>, events: seq<Event>, i: nat)
    requires SmoothPath(run, events) && i < |run| && forall p :: 0 <= p < |run[i].procs| ==> run[i].procs[p].Idle?
    ensures Refs(run[i]) == Net(events[..i])
  {
    NetPath(run, events, i);
    NonePending(run[i].procs);
  }

  /** From the start of an operation of `p` to its return. */
  ghost predicate Operation(run: seq<State>, events: seq<Event>, i: nat, j: nat, p: nat, op: Op) {
    && SmoothPath(run, events) && i < j < |run| && events[i] == Event(p, Start(op))
    && p < |run[j].procs| && run[j].procs[p].Idle?
    && forall k :: i < k < j ==> p < |run[k].procs| && !run[k].procs[p].Idle?
  }

  /** Then there is no other start in between. */
  lemma {:induction false} OnlyStart(run: seq<State>, events: seq<Event>, i: nat, j: nat, p: nat, op: Op, other: Op)
    requires Operation(run, events, i, j, p, op)
    ensures Times(events[i..j], p, Start(other)) == One(other == op)
  {
    var e := Event(p, Start(other));
    forall k | i < k < j
      ensures events[k] != e
    {
      assert Stepped(run[k], events[k], run[k + 1]);
    }
    assert events[i..j] == [events[i]] + events[i + 1..j];
    assert multiset(events[i..j]) == multiset{events[i]} + multiset(events[i + 1..j]);
    assert e !in events[i + 1..j];
  }

  lemma {:induction false} Between(events: seq<Event>, i: nat, j: nat, p: nat, step: Step)
    requires i <= j <= |events|
    ensures Times(events[i..j], p, step) == Times(events[..j], p, step) - Times(events[..i], p, step)
  {
    assert events[..j] == events[..i] + events[i..j];
  }

  /** A join takes exactly one reference, which death gives back unless it is persistent, and a
      leave drops exactly one. */
  lemma {:induction false} OneReference(run: seq<State>, events: seq<Event>, i: nat, j: nat, p: nat, op: Op)
    requires Operation(run, events, i, j, p, op)
    ensures Times(events[i..j], p, GetRef) == One(op.Join?) && Times(events[i..j], p, DropOne) == One(op.Leave?)
    ensures Undoable(run[j], p) == Undoable(run[i], p) + if op.persist then 0 else if op.Join? then 1 else -1
  {
    assert Stepped(run[i], events[i], run[i + 1]);
    ToldPath(run, events, i, p);
    ToldPath(run, events, j, p);
    OnlyStart(run, events, i, j, p, op, Join(false));
    OnlyStart(run, events, i, j, p, op, Join(true));
    OnlyStart(run, events, i, j, p, op, Leave(false));
    OnlyStart(run, events, i, j, p, op, Leave(true));
    Between(events, i, j, p, Start(Join(false)));
    Between(events, i, j, p, Start(Join(true)));
    Between(events, i, j, p, Start(Leave(false)));
    Between(events, i, j, p, Start(Leave(true)));
    Between(events, i, j, p, GetRef);
    Between(events, i, j, p, DropOne);
  }

  // ---------------------------------------------------------------------
  // The semaphore set goes with the last reference

  /** A join under way without its reference, or a leave that is about to destroy the set. */
  predicate Busy(pc: Pc) {
    ToTake(pc) || pc.RemoveRegion? || pc.DestroySet?
  }

  /** A set without references is somebody's concern, and whoever is about to release the mutex
      leaves references behind. */
  ghost predicate HeldInv(s: State) {
    && (forall p :: 0 <= p < |s.procs| ==> !s.procs[p].CleanUp? && (s.procs[p].Up? ==> Refs(s) > 0))
    && (s.live.Some? && Refs(s) == 0 ==> exists p :: 0 <= p < |s.procs| && Busy(s.procs[p]))
  }

  /** What a step of `p` does to that, as far as `p` is concerned. */
  lemma {:induction false} OwnHeld(s: State, p: nat, step: Step)
    requires Sane(s, p) && Smooth(step) && Enabled(s, p, step) && Tidy(s, s.procs[p]) && 0 <= Refs(s)
    requires !s.procs[p].CleanUp? && (s.procs[p].Up? ==> Refs(s) > 0)
    ensures var s' := Apply(s, p, step);
      && |s'.procs| == |s.procs| && !s'.procs[p].CleanUp? && (s'.procs[p].Up? ==> Refs(s') > 0)
      && (s'.live.Some? && Refs(s') == 0 ==> Busy(s'.procs[p]))
      && (!InCritical(s.procs[p]) ==> Refs(s') == Refs(s))
  {
  }

  lemma {:induction false} HeldStep(s: State, e: Event, s': State)
    requires Inv(s) && TidyInv(s) && HeldInv(s) && Stepped(s, e, s')
    ensures HeldInv(s')
  {
    InvSane(s, e.p);
    OwnHeld(s, e.p, e.step);
    OnlyOwn(s, e.p, e.step);
    forall q | 0 <= q < |s'.procs|
      ensures !s'.procs[q].CleanUp? && (s'.procs[q].Up? ==> Refs(s') > 0)
    {
      assert q != e.p ==> s'.procs[q] == s.procs[q];
    }
  }

  lemma {:induction false} HeldPath(run: seq<State>, events: seq<Event>, i: nat)
    requires SmoothPath(run, events) && i < |run|
    ensures Inv(run[i]) && TidyInv(run[i]) && HeldInv(run[i])
  {
    PathInv(run, events, i);
    if i > 0 {
      HeldPath(run, events, i - 1);
      assert Stepped(run[i - 1], events[i - 1], run[i - 1 + 1]);
      assert SmoothNext(run[i - 1], run[i]);
      TidyNext(run[i - 1], run[i]);
      HeldStep(run[i - 1], events[i - 1], run[i]);
    }
  }

  /** Whenever nobody is under way, the set exists exactly when references are held: the last
      leaver destroyed it. */
  lemma {:induction false} SetIffHeld(run: seq<State>, events: seq<Event>, i: nat)
    requires SmoothPath(run, events) && i < |run| && forall p :: 0 <= p < |run[i].procs| ==> run[i].procs[p].Idle?
    ensures run[i].live.Some? <==> Refs(run[i]) > 0
  {
    HeldPath(run, events, i);
  }
}
