/** Heartbeat region references of libo2cb/o2cb_abi.c.  Any number of processes join
    and leave one region.  They share a System V set of two semaphores, a mutex and a
    reference count, which the last leaver destroys; a process that dies has its
    SEM_UNDO adjustments applied.  One step is one system call. */
module Heartbeat {
  import opened Basics

  /** What a process is doing.  Joins and leaves are persistent (no undo) or not. */
  datatype Op = Join(persist: bool) | Leave(persist: bool)

  datatype Pc =
    | Idle
    | Lookup(op: Op)                         // about to call semget()
    | Down(op: Op, id: nat)                  // waiting for the mutex of a set
    | Create(persist: bool, id: nat)         // from here on, inside the critical section
    | Configure(persist: bool, id: nat)      // the region is new, its attributes are not set
    | CleanUp(id: nat)                       // setting them failed
    | TakeRef(persist: bool, id: nat)
    | CountRefs(persist: bool, id: nat)
    | DropRef(persist: bool, id: nat, count: nat)
    | RemoveRegion(id: nat)
    | DestroySet(id: nat)
    | Up(id: nat)
    | Held(id: nat)                          // releasing the mutex failed

  /** A live semaphore set: values and, per process, the adjustments made on death. */
  datatype SemSet = SemSet(id: nat, mutex: int, refs: int, undoMutex: seq<int>, undoRefs: seq<int>)

  /** `joined` counts the undoable references a process has taken and not dropped,
      `persistent` the persistent references no leave in progress has claimed. */
  datatype State = State(
    live: Option<SemSet>, nextId: nat, region: bool, procs: seq<Pc>, joined: seq<nat>, persistent: nat)

  /** The system calls, each with the ways it can end. */
  datatype Step =
    | Start(op: Op) | SemGet | SemGetFails
    | MutexDown | RemovedRetry | DownFails
    | Mkdir | MkdirFails | SetAttributes | AttributeFails | RmdirNew | RmdirNewFails
    | GetRef | GetRefFails
    | GetVal | GetValFails | DropOne | DropFails
    | Rmdir | RmdirFails | Rmid | RmidFails
    | MutexUp | UpFails | Die

  predicate InCritical(pc: Pc) {
    !pc.Idle? && !pc.Lookup? && !pc.Down?
  }

  /** A persistent reference that a leave in progress is about to drop. */
  function Claimed(pc: Pc): nat {
    if (pc.Lookup? || pc.Down?) && pc.op == Leave(true) then 1
    else if (pc.CountRefs? || pc.DropRef?) && pc.persist then 1
    else 0
  }

  function Refs(s: State): int {
    if s.live.Some? then s.live.value.refs else 0
  }

  predicate Alive(s: State, id: nat) {
    s.live.Some? && s.live.value.id == id
  }

  function Moved(s: State, p: nat, pc: Pc): State
    requires p < |s.procs|
  {
    s.(procs := s.procs[p := pc])
  }

  /** Giving up before the reference is dropped leaves a claimed one outstanding. */
  function GaveUp(s: State, p: nat, pc: Pc): State
    requires p < |s.procs|
  {
    Moved(s, p, pc).(persistent := s.persistent + Claimed(s.procs[p]))
  }

  ghost predicate WellFormed(s: State) {
    && |s.joined| == |s.procs|
    && (s.live.Some? ==> |s.live.value.undoMutex| == |s.procs| && |s.live.value.undoRefs| == |s.procs|)
  }

  /** When process `p` can take a step.  Joins and leaves are balanced: a process
      leaves without persistence only what it joined, and a persistent leave needs an
      unclaimed persistent reference. */
  ghost predicate Enabled(s: State, p: nat, step: Step) {
    WellFormed(s) && p < |s.procs| &&
    var pc := s.procs[p];
    match step
    case Start(op) => pc.Idle? && (op == Leave(false) ==> s.joined[p] > 0) && (op == Leave(true) ==> s.persistent > 0)
    case SemGet => pc.Lookup?
    case SemGetFails => pc.Lookup?
    case MutexDown => pc.Down? && Alive(s, pc.id) && s.live.value.mutex == 0
    case RemovedRetry => pc.Down? && !Alive(s, pc.id)
    case DownFails => pc.Down?
    case Mkdir => pc.Create?
    case MkdirFails => pc.Create?
    case SetAttributes => pc.Configure?
    case AttributeFails => pc.Configure?
    case RmdirNew => pc.CleanUp? && s.region
    case RmdirNewFails => pc.CleanUp?
    case GetRef => pc.TakeRef? && Alive(s, pc.id)
    case GetRefFails => pc.TakeRef?
    case GetVal => pc.CountRefs? && Alive(s, pc.id)
    case GetValFails => pc.CountRefs?
    case DropOne => pc.DropRef? && Alive(s, pc.id) && s.live.value.refs >= 1
    case DropFails => pc.DropRef?
    case Rmdir => pc.RemoveRegion? && s.region
    case RmdirFails => pc.RemoveRegion?
    case Rmid => pc.DestroySet? && Alive(s, pc.id)
    case RmidFails => pc.DestroySet?
    case MutexUp => pc.Up? && Alive(s, pc.id) && s.live.value.mutex >= 1
    case UpFails => pc.Up?
    case Die => true
  }

  /** What the step does.  semop() arrays are atomic; an undo clamps at zero. */
  ghost function Apply(s: State, p: nat, step: Step): State
    requires Enabled(s, p, step)
  {
    var pc := s.procs[p];
    match step
    case Start(op) => Moved(s, p, Lookup(op)).(persistent := s.persistent - if op == Leave(true) then 1 else 0)
    case SemGet =>
      if s.live.Some? then Moved(s, p, Down(pc.op, s.live.value.id))
      else
        var zeros := seq(|s.procs|, _ => 0);
        Moved(s, p, Down(pc.op, s.nextId)).(live := Some(SemSet(s.nextId, 0, 0, zeros, zeros)), nextId := s.nextId + 1)
    case SemGetFails => GaveUp(s, p, Idle)
    case MutexDown =>
      Moved(s, p, if pc.op.Join? then Create(pc.op.persist, pc.id) else CountRefs(pc.op.persist, pc.id))
      .(live := Some(AddMutex(s.live.value, p, 1)))
    case RemovedRetry => Moved(s, p, Lookup(pc.op))
    case DownFails => GaveUp(s, p, Idle)
    case Mkdir =>
      if s.region then Moved(s, p, TakeRef(pc.persist, pc.id))
      else Moved(s, p, Configure(pc.persist, pc.id)).(region := true)
    case MkdirFails => Moved(s, p, Up(pc.id))
    case SetAttributes => Moved(s, p, TakeRef(pc.persist, pc.id))
    case AttributeFails => Moved(s, p, CleanUp(pc.id))
    case RmdirNew => Moved(s, p, Up(pc.id)).(region := false)
    case RmdirNewFails => Moved(s, p, Up(pc.id))
    case GetRef =>
      if pc.persist then
        Moved(s, p, Up(pc.id)).(live := Some(AddRefs(s.live.value, p, 1, false)), persistent := s.persistent + 1)
      else
        Moved(s, p, Up(pc.id)).(
          live := Some(AddRefs(s.live.value, p, 1, true)), joined := s.joined[p := s.joined[p] + 1])
    case GetRefFails => Moved(s, p, Up(pc.id))
    case GetVal =>
      var n := s.live.value.refs;
      if n > 0 then Moved(s, p, DropRef(pc.persist, pc.id, n)) else GaveUp(s, p, RemoveRegion(pc.id))
    case GetValFails => GaveUp(s, p, Up(pc.id))
    case DropOne =>
      var next := if pc.count <= 1 then RemoveRegion(pc.id) else Up(pc.id);
      if pc.persist then Moved(s, p, next).(live := Some(AddRefs(s.live.value, p, -1, false)))
      else
        Moved(s, p, next).(
          live := Some(AddRefs(s.live.value, p, -1, true)),
          joined := s.joined[p := if s.joined[p] > 0 then s.joined[p] - 1 else 0])
    case DropFails => GaveUp(s, p, Up(pc.id))
    case Rmdir => Moved(s, p, DestroySet(pc.id)).(region := false)
    case RmdirFails => Moved(s, p, Up(pc.id))
    case Rmid => Moved(s, p, Idle).(live := None)
    case RmidFails => Moved(s, p, Up(pc.id))
    case MutexUp => Moved(s, p, Idle).(live := Some(AddMutex(s.live.value, p, -1)))
    case UpFails => Moved(s, p, Held(pc.id))
    case Die => GaveUp(s, p, Idle).(
      live := if s.live.Some? then Some(Undone(s.live.value, p)) else None,
      joined := s.joined[p := 0])
  }

  /** A semop() on the mutex with SEM_UNDO. */
  function AddMutex(set_: SemSet, p: nat, v: int): SemSet
    requires p < |set_.undoMutex|
  {
    set_.(mutex := set_.mutex + v, undoMutex := set_.undoMutex[p := set_.undoMutex[p] - v])
  }

  /** A semop() on the reference count, with or without SEM_UNDO. */
  function AddRefs(set_: SemSet, p: nat, v: int, undo: bool): SemSet
    requires p < |set_.undoRefs|
  {
    set_.(refs := set_.refs + v, undoRefs := set_.undoRefs[p := set_.undoRefs[p] - if undo then v else 0])
  }

  /** The adjustments applied when a process dies; the kernel never goes below zero. */
  function Undone(set_: SemSet, p: nat): SemSet
    requires p < |set_.undoMutex| && p < |set_.undoRefs|
  {
    var m, r := set_.mutex + set_.undoMutex[p], set_.refs + set_.undoRefs[p];
    SemSet(set_.id, if m < 0 then 0 else m, if r < 0 then 0 else r,
      set_.undoMutex[p := 0], set_.undoRefs[p := 0])
  }

  ghost predicate Init(s: State) {
    && s.live == None && !s.region && s.persistent == 0 && |s.joined| == |s.procs|
    && (forall p :: 0 <= p < |s.procs| ==> s.procs[p] == Idle && s.joined[p] == 0)
  }

  /** `s'` follows `s` by one step of some process. */
  ghost predicate Next(s: State, s': State) {
    exists p: nat, step :: Enabled(s, p, step) && s' == Apply(s, p, step)
  }

  // ---------------------------------------------------------------------
  // Counting references

  /** All references held: undoable ones and claimed persistent ones. */
  function Total(procs: seq<Pc>, joined: seq<nat>): nat
    requires |procs| == |joined|
  {
    if procs == [] then 0 else joined[0] + Claimed(procs[0]) + Total(procs[1..], joined[1..])
  }

  lemma {:induction false} TotalUpdate(procs: seq<Pc>, joined: seq<nat>, p: nat, pc: Pc, j: nat)
    requires |procs| == |joined| && p < |procs|
    ensures Total(procs[p := pc], joined[p := j]) + joined[p] + Claimed(procs[p])
         == Total(procs, joined) + j + Claimed(pc)
    decreases |procs|
  {
    var procs', joined' := procs[p := pc], joined[p := j];
    if p == 0 {
      assert procs'[1..] == procs[1..] && joined'[1..] == joined[1..];
    } else {
      TotalUpdate(procs[1..], joined[1..], p - 1, pc, j);
      assert procs'[1..] == procs[1..][p - 1 := pc] && joined'[1..] == joined[1..][p - 1 := j];
    }
  }

  lemma {:induction false} TotalAtLeast(procs: seq<Pc>, joined: seq<nat>, p: nat)
    requires |procs| == |joined| && p < |procs|
    ensures Total(procs, joined) >= joined[p] + Claimed(procs[p])
    decreases |procs|
  {
    if p > 0 {
      TotalAtLeast(procs[1..], joined[1..], p - 1);
    }
  }

  // ---------------------------------------------------------------------
  // The invariant

  /** Whoever is in the critical section holds the mutex of the live set. */
  ghost predicate MutexInv(s: State)
    requires WellFormed(s)
  {
    && (forall p :: 0 <= p < |s.procs| && InCritical(s.procs[p]) ==> Alive(s, s.procs[p].id))
    && (forall p, q :: 0 <= p < |s.procs| && 0 <= q < |s.procs| ==>
        InCritical(s.procs[p]) && InCritical(s.procs[q]) ==> p == q)
    && (s.live.Some? ==>
      && 0 <= s.live.value.mutex <= 1
      && (s.live.value.mutex == 0 ==> forall p :: 0 <= p < |s.procs| ==> !InCritical(s.procs[p]))
      && forall p :: 0 <= p < |s.procs| ==> s.live.value.undoMutex[p] == if InCritical(s.procs[p]) then -1 else 0)
  }

  /** The count is the number of references held. */
  ghost predicate CountInv(s: State)
    requires WellFormed(s)
  {
    Refs(s) == Total(s.procs, s.joined) + s.persistent
  }

  /** A leave in progress that is going to drop an undoable reference. */
  predicate Returning(pc: Pc) {
    || ((pc.Lookup? || pc.Down?) && pc.op == Leave(false))
    || ((pc.CountRefs? || pc.DropRef?) && !pc.persist)
  }

  /** Dying gives back exactly the undoable references, and who returns one has one. */
  ghost predicate RefsInv(s: State)
    requires WellFormed(s)
  {
    && CountInv(s)
    && (forall p :: 0 <= p < |s.procs| && Returning(s.procs[p]) ==> s.joined[p] > 0)
    && (s.live.Some? ==> forall p :: 0 <= p < |s.procs| ==> s.live.value.undoRefs[p] + s.joined[p] == 0)
  }

  /** What each place in the critical section knows about the region and the count. */
  ghost predicate Knows(s: State, pc: Pc) {
    && (pc.TakeRef? ==> s.region)
    && (pc.Configure? ==> s.region && Refs(s) == 0)
    && (pc.CleanUp? ==> Refs(s) == 0)
    && (pc.DropRef? ==> Refs(s) <= pc.count)
    && (pc.RemoveRegion? ==> Refs(s) == 0)
    && (pc.DestroySet? ==> Refs(s) == 0 && !s.region)
  }

  ghost predicate RegionInv(s: State) {
    && (Refs(s) > 0 ==> s.region)
    && forall p :: 0 <= p < |s.procs| ==> Knows(s, s.procs[p])
  }

  ghost predicate Inv(s: State) {
    WellFormed(s) && MutexInv(s) && RefsInv(s) && RegionInv(s)
  }

  lemma {:induction false} TotalIdle(procs: seq<Pc>, joined: seq<nat>)
    requires |procs| == |joined|
    requires forall p :: 0 <= p < |procs| ==> procs[p] == Idle && joined[p] == 0
    ensures Total(procs, joined) == 0
  {
    if procs != [] {
      TotalIdle(procs[1..], joined[1..]);
    }
  }

  lemma InitInv(s: State)
    requires Init(s)
    ensures Inv(s)
  {
    TotalIdle(s.procs, s.joined);
  }

  /** Steps that neither enter nor leave the critical section. */
  lemma MutexInvStays(s: State, p: nat, s': State)
    requires WellFormed(s) && MutexInv(s) && p < |s.procs| && |s'.procs| == |s.procs| && WellFormed(s')
    requires s'.procs == s.procs[p := s'.procs[p]] && InCritical(s.procs[p]) == InCritical(s'.procs[p])
    requires InCritical(s.procs[p]) ==> s.procs[p].id == s'.procs[p].id
    requires s.live.Some? == s'.live.Some?
    requires s.live.Some? ==>
      && s.live.value.id == s'.live.value.id
      && s.live.value.mutex == s'.live.value.mutex && s.live.value.undoMutex == s'.live.value.undoMutex
    ensures MutexInv(s')
  {
  }

  /** A step out of the critical section. */
  lemma MutexInvLeaves(s: State, p: nat, step: Step)
    requires WellFormed(s) && MutexInv(s) && Enabled(s, p, step) && (step.MutexUp? || step.Rmid? || step.Die?)
    ensures WellFormed(Apply(s, p, step)) && MutexInv(Apply(s, p, step))
  {
  }

  lemma MutexInvNext(s: State, p: nat, step: Step)
    requires WellFormed(s) && MutexInv(s) && Enabled(s, p, step)
    ensures WellFormed(Apply(s, p, step)) && MutexInv(Apply(s, p, step))
  {
    var s' := Apply(s, p, step);
    if step.MutexUp? || step.Rmid? || step.Die? {
      MutexInvLeaves(s, p, step);
    } else if !step.MutexDown? && (s.live.Some? || !step.SemGet?) {
      assert |s'.procs| == |s.procs| && WellFormed(s');
      MutexInvStays(s, p, s');
    }
  }

  /** What is known of the references of process `p` alone. */
  ghost predicate OwnRefs(s: State, p: nat)
    requires WellFormed(s) && p < |s.procs|
  {
    && (Returning(s.procs[p]) ==> s.joined[p] > 0)
    && (s.live.Some? ==> s.live.value.undoRefs[p] + s.joined[p] == 0 && s.joined[p] <= s.live.value.refs)
    && (s.live.None? ==> s.joined[p] == 0)
  }

  /** A step touches only the stepping process's entries. */
  lemma OnlyOwn(s: State, p: nat, step: Step)
    requires WellFormed(s) && Enabled(s, p, step)
    ensures var s' := Apply(s, p, step);
      && WellFormed(s') && s'.procs == s.procs[p := s'.procs[p]] && s'.joined == s.joined[p := s'.joined[p]]
      && (s.live.Some? && s'.live.Some? ==>
          s'.live.value.undoRefs == s.live.value.undoRefs[p := s'.live.value.undoRefs[p]])
  {
    var s' := Apply(s, p, step);
    assert WellFormed(s');
  }

  /** What a step adds to the count it adds to the references held. */
  ghost predicate Balanced(s: State, p: nat, s': State)
    requires WellFormed(s) && WellFormed(s') && p < |s.procs| == |s'.procs|
  {
    && Refs(s') - Refs(s)
       == s'.joined[p] + Claimed(s'.procs[p]) + s'.persistent - s.joined[p] - Claimed(s.procs[p]) - s.persistent
    && (Returning(s'.procs[p]) ==> s'.joined[p] > 0)
    && (s'.live.Some? ==> s'.live.value.undoRefs[p] + s'.joined[p] == 0)
  }

  predicate Counting(step: Step) {
    step.GetRef? || step.DropOne? || step.Die? || step.Rmid? || step.SemGet?
  }

  lemma QuietBalance(s: State, p: nat, step: Step)
    requires WellFormed(s) && Enabled(s, p, step) && OwnRefs(s, p) && Knows(s, s.procs[p]) && !Counting(step)
    ensures WellFormed(Apply(s, p, step)) && |Apply(s, p, step).procs| == |s.procs| && Balanced(s, p, Apply(s, p, step))
  {
    var s' := Apply(s, p, step);
    assert Refs(s') == Refs(s) && s'.joined == s.joined;
  }

  lemma Balance(s: State, p: nat, step: Step)
    requires WellFormed(s) && Enabled(s, p, step) && OwnRefs(s, p) && Knows(s, s.procs[p])
    ensures WellFormed(Apply(s, p, step)) && |Apply(s, p, step).procs| == |s.procs| && Balanced(s, p, Apply(s, p, step))
  {
    if !Counting(step) {
      QuietBalance(s, p, step);
    }
  }

  lemma RefsInvNext(s: State, p: nat, step: Step)
    requires WellFormed(s) && RefsInv(s) && Enabled(s, p, step) && Knows(s, s.procs[p])
    ensures WellFormed(Apply(s, p, step)) && RefsInv(Apply(s, p, step))
  {
    var s' := Apply(s, p, step);
    TotalAtLeast(s.procs, s.joined, p);
    if Refs(s) == 0 {
      NobodyHolds(s);
    }
    Balance(s, p, step);
    OnlyOwn(s, p, step);
    TotalUpdate(s.procs, s.joined, p, s'.procs[p], s'.joined[p]);
    if s.live.None? && s'.live.Some? {
      FreshSet(s, p, step);
    }
  }

  lemma FreshSet(s: State, p: nat, step: Step)
    requires WellFormed(s) && Enabled(s, p, step) && s.live.None? && Apply(s, p, step).live.Some?
    ensures forall q :: 0 <= q < |s.procs| ==> Apply(s, p, step).live.value.undoRefs[q] == 0
    ensures Apply(s, p, step).joined == s.joined
  {
    assert step.SemGet?;
  }

  /** Without a semaphore set nobody holds a reference. */
  lemma NobodyHolds(s: State)
    requires WellFormed(s) && RefsInv(s) && Refs(s) == 0
    ensures forall q :: 0 <= q < |s.procs| ==> s.joined[q] == 0 && Claimed(s.procs[q]) == 0
  {
    forall q | 0 <= q < |s.procs|
      ensures s.joined[q] == 0 && Claimed(s.procs[q]) == 0
    {
      TotalAtLeast(s.procs, s.joined, q);
    }
  }

  /** Steps that leave the region alone and take no reference. */
  lemma RegionInvStays(s: State, p: nat, s': State)
    requires RegionInv(s) && p < |s.procs| == |s'.procs|
    requires s'.procs == s.procs[p := s'.procs[p]] && Knows(s', s'.procs[p])
    requires s'.region == s.region && 0 <= Refs(s') <= Refs(s)
    ensures RegionInv(s')
  {
  }

  /** Steps inside the critical section are nobody else's concern. */
  lemma RegionInvAlone(s: State, p: nat, s': State)
    requires WellFormed(s) && MutexInv(s) && p < |s.procs| == |s'.procs| && InCritical(s.procs[p])
    requires s'.procs == s.procs[p := s'.procs[p]] && Knows(s', s'.procs[p])
    requires Refs(s') > 0 ==> s'.region
    ensures RegionInv(s')
  {
  }

  /** Steps that change the count or the region. */
  predicate Touching(step: Step) {
    Counting(step) || step.Mkdir? || step.RmdirNew? || step.Rmdir?
  }

  lemma QuietKnowledge(s: State, p: nat, step: Step)
    requires WellFormed(s) && Enabled(s, p, step) && Knows(s, s.procs[p]) && !Touching(step)
    requires 0 <= Refs(s) && (Refs(s) > 0 ==> s.region)
    ensures var s' := Apply(s, p, step);
      Knows(s', s'.procs[p]) && Refs(s') == Refs(s) && s'.region == s.region
  {
  }

  /** What a step does to the count and the region, and what its process then knows. */
  lemma OwnKnowledge(s: State, p: nat, step: Step)
    requires WellFormed(s) && Enabled(s, p, step) && OwnRefs(s, p) && Knows(s, s.procs[p])
    requires 0 <= Refs(s) && (Refs(s) > 0 ==> s.region)
    ensures var s' := Apply(s, p, step);
      && Knows(s', s'.procs[p])
      && (Refs(s') > Refs(s) ==> step.GetRef? && s'.region)
      && (s'.region != s.region ==> InCritical(s.procs[p]) && (s'.region || Refs(s') == 0))
      && (step.GetRef? ==> InCritical(s.procs[p]))
  {
    if !Touching(step) {
      QuietKnowledge(s, p, step);
    }
  }

  lemma RegionInvNext(s: State, p: nat, step: Step)
    requires Inv(s) && Enabled(s, p, step)
    ensures RegionInv(Apply(s, p, step))
  {
    var s' := Apply(s, p, step);
    TotalAtLeast(s.procs, s.joined, p);
    OnlyOwn(s, p, step);
    OwnKnowledge(s, p, step);
    RefsInvNext(s, p, step);
    if s'.region != s.region || step.GetRef? {
      RegionInvAlone(s, p, s');
    } else {
      RegionInvStays(s, p, s');
    }
  }

  /** Every step of every process keeps the invariant. */
  lemma InvNext(s: State, s': State)
    requires Inv(s) && Next(s, s')
    ensures Inv(s')
  {
    var p: nat, step :| Enabled(s, p, step) && s' == Apply(s, p, step);
    MutexInvNext(s, p, step);
    RefsInvNext(s, p, step);
    RegionInvNext(s, p, step);
  }

  // ---------------------------------------------------------------------
  // Safety over whole runs

  /** A run: an initial state, and every state follows the one before. */
  ghost predicate Run(run: seq<State>) {
    && |run| > 0 && Init(run[0])
    && forall i :: 0 <= i < |run| - 1 ==> Next(run[i], run[i + 1])
  }

  lemma {:induction false} RunInv(run: seq<State>, i: nat)
    requires Run(run) && i < |run|
    ensures Inv(run[i])
  {
    if i == 0 {
      InitInv(run[0]);
    } else {
      RunInv(run, i - 1);
      assert Next(run[i - 1], run[i - 1 + 1]);
      InvNext(run[i - 1], run[i]);
    }
  }

  /** At most one process is in the critical section; and a set is never removed
      under a process that is in it, so only the wait for the mutex can see one go. */
  lemma MutualExclusion(run: seq<State>, i: nat, p: nat, q: nat)
    requires Run(run) && i < |run| && p < |run[i].procs| && q < |run[i].procs|
    requires InCritical(run[i].procs[p])
    ensures InCritical(run[i].procs[q]) ==> p == q
    ensures Alive(run[i], run[i].procs[p].id) && run[i].live.value.mutex == 1
  {
    RunInv(run, i);
  }

  /** While anyone holds a reference the count is positive and the region exists. */
  lemma ReferenceKeepsRegion(run: seq<State>, i: nat)
    requires Run(run) && i < |run|
    ensures Refs(run[i]) > 0 ==> run[i].region
    ensures run[i].persistent > 0 ==> Refs(run[i]) > 0
    ensures forall p :: 0 <= p < |run[i].procs| && p < |run[i].joined| && run[i].joined[p] > 0 ==> Refs(run[i]) > 0
  {
    var s := run[i];
    RunInv(run, i);
    forall p | 0 <= p < |s.procs| && s.joined[p] > 0
      ensures Refs(s) > 0
    {
      TotalAtLeast(s.procs, s.joined, p);
    }
  }

  /** The region disappears, and the set is destroyed, only at a count of zero. */
  lemma RemovedOnlyAtZero(run: seq<State>, i: nat)
    requires Run(run) && i + 1 < |run|
    ensures run[i].region && !run[i + 1].region ==> Refs(run[i]) == 0 == Refs(run[i + 1])
    ensures run[i].live.Some? && run[i + 1].live.None? ==> Refs(run[i]) == 0 && !run[i].region
  {
    RunInv(run, i);
    assert Next(run[i], run[i + 1]);
    var p: nat, step :| Enabled(run[i], p, step) && run[i + 1] == Apply(run[i], p, step);
    assert Knows(run[i], run[i].procs[p]);
  }

  /** The drop of a reference, a semop() that waits for a positive count, never waits. */
  lemma DropNeverBlocks(run: seq<State>, i: nat, p: nat)
    requires Run(run) && i < |run| && p < |run[i].procs| && run[i].procs[p].DropRef?
    ensures Enabled(run[i], p, DropOne)
  {
    var s := run[i];
    RunInv(run, i);
    TotalAtLeast(s.procs, s.joined, p);
  }

  // ---------------------------------------------------------------------
  // The last leaver cleans up, and what failures and deaths leave behind

  predicate Smooth(step: Step) {
    && !step.SemGetFails? && !step.DownFails? && !step.MkdirFails? && !step.AttributeFails? && !step.RmdirNewFails?
    && !step.GetRefFails? && !step.GetValFails? && !step.DropFails? && !step.RmdirFails? && !step.RmidFails?
    && !step.UpFails? && !step.Die?
  }

  ghost predicate SmoothNext(s: State, s': State) {
    exists p: nat, step :: Smooth(step) && Enabled(s, p, step) && s' == Apply(s, p, step)
  }

  ghost predicate SmoothRun(run: seq<State>) {
    && |run| > 0 && Init(run[0])
    && forall i :: 0 <= i < |run| - 1 ==> SmoothNext(run[i], run[i + 1])
  }

  /** Where there may be a region without a reference: on the way in and out. */
  predicate OnTheWay(pc: Pc) {
    pc.Configure? || pc.CleanUp? || pc.TakeRef? || pc.RemoveRegion?
  }

  /** Elsewhere the region and the count agree. */
  ghost predicate Tidy(s: State, pc: Pc) {
    && (pc.DropRef? ==> pc.count == Refs(s))
    && (OnTheWay(pc) ==> s.region)
    && (OnTheWay(pc) && !pc.TakeRef? ==> Refs(s) == 0)
    && (pc.DestroySet? ==> !s.region && Refs(s) == 0)
    && (InCritical(pc) && !OnTheWay(pc) ==> s.region == (Refs(s) > 0))
  }

  ghost predicate TidyInv(s: State) {
    && (forall p :: 0 <= p < |s.procs| ==> Tidy(s, s.procs[p]))
    && ((forall p :: 0 <= p < |s.procs| ==> !InCritical(s.procs[p])) ==> s.region == (Refs(s) > 0))
  }

  /** The steps after which they do not: the first reference of a region cannot be taken, the
      region cannot be removed, or a process dies with the last reference or on the way, or
      while another one that leaves has counted on its references. */
  ghost predicate LeavesBehind(s: State, p: nat, step: Step)
    requires Enabled(s, p, step)
  {
    match step
    case GetRefFails => Refs(s) == 0
    case RmdirNewFails => true
    case RmdirFails => true
    case Die =>
      || (s.joined[p] > 0 && exists q :: 0 <= q < |s.procs| && q != p && s.procs[q].DropRef?)
      || (s.region && Refs(s) == s.joined[p]
          && forall q :: 0 <= q < |s.procs| && q != p ==> !OnTheWay(s.procs[q]))
    case _ => false
  }

  /** Outside the critical section a process changes neither. */
  lemma TidyOutside(s: State, p: nat, step: Step)
    requires Inv(s) && Enabled(s, p, step) && !step.Die? && !InCritical(s.procs[p])
    requires step.MutexDown? ==> s.region == (Refs(s) > 0)
    ensures var s' := Apply(s, p, step);
      && Tidy(s', s'.procs[p]) && s'.region == s.region && Refs(s') == Refs(s)
      && (InCritical(s'.procs[p]) ==> step.MutexDown?)
  {
  }

  /** Inside it leaves both in order. */
  lemma TidyInside(s: State, p: nat, step: Step)
    requires Inv(s) && Enabled(s, p, step) && !step.Die? && InCritical(s.procs[p]) && !LeavesBehind(s, p, step)
    requires Tidy(s, s.procs[p])
    ensures var s' := Apply(s, p, step);
      Tidy(s', s'.procs[p]) && (!InCritical(s'.procs[p]) ==> s'.region == (Refs(s') > 0))
  {
    TotalAtLeast(s.procs, s.joined, p);
  }

  /** Inside the critical section nobody else is concerned. */
  lemma TidyAlone(s: State, p: nat, s': State)
    requires WellFormed(s) && MutexInv(s) && p < |s.procs| == |s'.procs| && InCritical(s.procs[p])
    requires TidyInv(s) && s'.procs == s.procs[p := s'.procs[p]] && Tidy(s', s'.procs[p])
    requires !InCritical(s'.procs[p]) ==> s'.region == (Refs(s') > 0)
    ensures TidyInv(s')
  {
    assert forall q :: 0 <= q < |s.procs| && q != p ==> !InCritical(s'.procs[q]);
  }

  /** Outside nothing changes that others know of. */
  lemma TidyStays(s: State, p: nat, s': State)
    requires TidyInv(s) && p < |s.procs| == |s'.procs| && !InCritical(s.procs[p])
    requires s'.procs == s.procs[p := s'.procs[p]] && Tidy(s', s'.procs[p])
    requires s'.region == s.region && Refs(s') == Refs(s)
    ensures TidyInv(s')
  {
    if forall q :: 0 <= q < |s'.procs| ==> !InCritical(s'.procs[q]) {
      assert forall q :: 0 <= q < |s.procs| && q != p ==> s'.procs[q] == s.procs[q];
    }
  }

  lemma TidyStep(s: State, p: nat, step: Step)
    requires Inv(s) && TidyInv(s) && Enabled(s, p, step) && !step.Die? && !LeavesBehind(s, p, step)
    ensures TidyInv(Apply(s, p, step))
  {
    OnlyOwn(s, p, step);
    if InCritical(s.procs[p]) {
      TidyInside(s, p, step);
      TidyAlone(s, p, Apply(s, p, step));
    } else {
      TidyOutside(s, p, step);
      TidyStays(s, p, Apply(s, p, step));
    }
  }

  /** A death takes the references of the process along, and nothing else. */
  lemma DeathTakes(s: State, p: nat)
    requires Inv(s) && Enabled(s, p, Die)
    ensures var s' := Apply(s, p, Die);
      && Refs(s') == Refs(s) - s.joined[p] && s'.region == s.region && s'.procs == s.procs[p := Idle]
      && (forall q :: 0 <= q < |s.procs| && s.procs[q].DropRef? ==> Refs(s) > 0)
  {
    TotalAtLeast(s.procs, s.joined, p);
    forall q | 0 <= q < |s.procs| && s.procs[q].DropRef?
      ensures Refs(s) > 0
    {
      TotalAtLeast(s.procs, s.joined, q);
    }
  }

  /** What that does to the others. */
  lemma DeathTidy(s: State, p: nat, s': State)
    requires Inv(s) && TidyInv(s) && Enabled(s, p, Die)
    requires Refs(s') == Refs(s) - s.joined[p] && s'.region == s.region && s'.procs == s.procs[p := Idle]
    ensures TidyInv(s') <==> !LeavesBehind(s, p, Die)
  {
    TotalAtLeast(s.procs, s.joined, p);
    if q :| 0 <= q < |s.procs| && q != p && InCritical(s.procs[q]) {
      assert Tidy(s, s.procs[q]) && s'.procs[q] == s.procs[q];
      assert forall r :: 0 <= r < |s.procs| && r != q ==> !InCritical(s'.procs[r]);
    } else {
      assert forall r :: 0 <= r < |s.procs| ==> !InCritical(s'.procs[r]);
      assert Tidy(s, s.procs[p]);
    }
  }

  /** Only deaths and the three failures leave a region behind, and these under exactly the
      conditions given. */
  lemma TidyIff(s: State, p: nat, step: Step)
    requires Inv(s) && TidyInv(s) && Enabled(s, p, step)
    ensures TidyInv(Apply(s, p, step)) <==> !LeavesBehind(s, p, step)
  {
    var s' := Apply(s, p, step);
    if step.Die? {
      DeathTakes(s, p);
      DeathTidy(s, p, s');
    } else if LeavesBehind(s, p, step) {
      assert Tidy(s, s.procs[p]) && !Tidy(s', s'.procs[p]);
    } else {
      TidyStep(s, p, step);
    }
  }

  lemma TidyNext(s: State, s': State)
    requires Inv(s) && TidyInv(s) && SmoothNext(s, s')
    ensures TidyInv(s')
  {
    var p: nat, step :| Smooth(step) && Enabled(s, p, step) && s' == Apply(s, p, step);
    TidyStep(s, p, step);
  }

  lemma {:induction false} SmoothRunInv(run: seq<State>, i: nat)
    requires SmoothRun(run) && i < |run|
    ensures Inv(run[i]) && TidyInv(run[i])
  {
    if i == 0 {
      InitInv(run[0]);
    } else {
      SmoothRunInv(run, i - 1);
      assert SmoothNext(run[i - 1], run[i - 1 + 1]);
      assert Next(run[i - 1], run[i]);
      InvNext(run[i - 1], run[i]);
      TidyNext(run[i - 1], run[i]);
    }
  }

  /** Without failures and deaths the region exists, whenever no one is inside the
      critical section, exactly when references are held: the last leaver removed it. */
  lemma LastLeaverCleansUp(run: seq<State>, i: nat)
    requires SmoothRun(run) && i < |run|
    requires forall p :: 0 <= p < |run[i].procs| ==> !InCritical(run[i].procs[p])
    ensures run[i].region <==> Refs(run[i]) > 0
  {
    SmoothRunInv(run, i);
  }
}
