/**
  The fault-handler slot table: threads register an identity in one of four slots, the signal
  filter finds its own thread's slot without a lock, and a per-slot flag keeps a fault inside the
  callback from entering the callback again.

  Register, unregister and every filter activation take one atomic operation per step and threads
  interleave freely.  A fault may strike at any point, also inside registration, inside another
  activation of the filter or inside the callback; activations of one thread nest like calls.
*/
module FaultSlots {
  const SLOTS: nat := 4
  type Tid = nat
  const NONE: Tid := 0

  // Where a thread is in RegisterFaultHandlerThread / UnregisterFaultHandlerThread.
  datatype Pc =
    | Running
    | RegScan(i: nat)             // looking for its own identity
    | RegClaim(i: nat)            // trying to claim slot i
    | RegClear(i: nat)            // claimed: about to clear the in-handler flag
    | RegPublish(i: nat)          // about to store its identity
    | UnScan(i: nat)
    | UnClear(i: nat)             // about to erase its identity
    | UnRelease(i: nat)           // about to release the claim
    | Aborted                     // no slot left

  // One activation of the filter.
  datatype Frame =
    | Lookup(slot: nat)           // fault_slot_lookup at this slot
    | Guard(slot: nat)            // about to exchange the in-handler flag
    | Callback(slot: nat)         // in the callback
    | Restore(slot: nat)          // about to clear the flag

  // A thread's activations, the innermost on top.
  datatype Stack = Empty | Push(top: Frame, below: Stack)

  datatype State = State(
    claimed: seq<bool>,           // s_fault_slot_claimed
    ids: seq<Tid>,                // s_fault_slot_id
    inHandler: seq<bool>,         // s_fault_slot_inhandler
    claimer: seq<Tid>,            // which thread made the claim
    pcs: map<Tid, Pc>,
    stacks: map<Tid, Stack>)
  {
    function PcOf(t: Tid): Pc { if t in pcs then pcs[t] else Running }
    function StackOf(t: Tid): Stack { if t in stacks then stacks[t] else Empty }
    function Move(t: Tid, pc: Pc): State { this.(pcs := pcs[t := pc]) }
    function Restack(t: Tid, stack: Stack): State { this.(stacks := stacks[t := stack]) }
    predicate Shaped() {
      |claimed| == SLOTS && |ids| == SLOTS && |inHandler| == SLOTS && |claimer| == SLOTS
    }
  }

  datatype Action = CallRegister | CallUnregister | Step | Fault | FilterStep

  predicate IndexFits(pc: Pc) {
    match pc
    case Running => true
    case Aborted => true
    case RegScan(i) => i <= SLOTS
    case RegClaim(i) => i <= SLOTS
    case UnScan(i) => i <= SLOTS
    case RegClear(i) => i < SLOTS
    case RegPublish(i) => i < SLOTS
    case UnClear(i) => i < SLOTS
    case UnRelease(i) => i < SLOTS
  }

  predicate FrameFits(f: Frame) {
    if f.Lookup? then f.slot <= SLOTS else f.slot < SLOTS
  }

  // A thread's own code stands still while an activation of the filter is on top of it.
  // Identities are never zero.
  predicate Enabled(s: State, t: Tid, a: Action) {
    var pc, stack := s.PcOf(t), s.StackOf(t);
    && t != NONE && s.Shaped() && IndexFits(pc)
    && match a
       case CallRegister => pc.Running? && stack.Empty?
       case CallUnregister => pc.Running? && stack.Empty?
       case Step => !pc.Running? && !pc.Aborted? && stack.Empty?
       case Fault => true
       case FilterStep => stack.Push? && FrameFits(stack.top)
  }

  function Next(s: State, t: Tid, a: Action): State
    requires Enabled(s, t, a)
  {
    match a
    case CallRegister => s.Move(t, RegScan(0))
    case CallUnregister => s.Move(t, UnScan(0))
    case Step => NextStep(s, t)
    case Fault => s.Restack(t, Push(Lookup(0), s.StackOf(t)))
    case FilterStep => NextFilter(s, t)
  }

  function NextStep(s: State, t: Tid): State
    requires Enabled(s, t, Step)
  {
    match s.PcOf(t)
    case RegScan(i) =>
      if i == SLOTS then s.Move(t, RegClaim(0))
      else if s.ids[i] == t then s.Move(t, Running)
      else s.Move(t, RegScan(i + 1))
    case RegClaim(i) =>
      if i == SLOTS then s.Move(t, Aborted)
      else if s.claimed[i] then s.Move(t, RegClaim(i + 1))
      else s.(claimed := s.claimed[i := true], claimer := s.claimer[i := t]).Move(t, RegClear(i))
    case RegClear(i) => s.(inHandler := s.inHandler[i := false]).Move(t, RegPublish(i))
    case RegPublish(i) => s.(ids := s.ids[i := t]).Move(t, Running)
    case UnScan(i) =>
      if i == SLOTS then s.Move(t, Running)
      else if s.ids[i] == t then s.Move(t, UnClear(i))
      else s.Move(t, UnScan(i + 1))
    case UnClear(i) => s.(ids := s.ids[i := NONE]).Move(t, UnRelease(i))
    case UnRelease(i) =>
      s.(claimed := s.claimed[i := false], claimer := s.claimer[i := NONE]).Move(t, Running)
    case _ => s
  }

  // An activation that ends (handled, or chained to the previous handler) leaves the stack.
  function NextFilter(s: State, t: Tid): State
    requires Enabled(s, t, FilterStep)
  {
    var below, top := s.StackOf(t).below, s.StackOf(t).top;
    match top
    case Lookup(i) =>
      if i == SLOTS then s.Restack(t, below)
      else if s.ids[i] == t then s.Restack(t, Push(Guard(i), below))
      else s.Restack(t, Push(Lookup(i + 1), below))
    case Guard(i) =>
      if s.inHandler[i] then s.Restack(t, below)
      else s.(inHandler := s.inHandler[i := true]).Restack(t, Push(Callback(i), below))
    case Callback(i) => s.Restack(t, Push(Restore(i), below))
    case Restore(i) => s.(inHandler := s.inHandler[i := false]).Restack(t, below)
  }

  const INIT: State := State([false, false, false, false], [NONE, NONE, NONE, NONE],
                             [false, false, false, false], [NONE, NONE, NONE, NONE], map[], map[])

  // ------------------------------------------------------------------ the invariant

  // Activations that have set the in-handler flag and not yet cleared it.
  function LiveCount(stack: Stack): (n: nat) {
    match stack
    case Empty => 0
    case Push(top, below) => LiveCount(below) + if top.Callback? || top.Restore? then 1 else 0
  }

  // Every slot an activation has settled on carries its own thread's identity, and none that a
  // lookup has passed does.
  ghost predicate OwnSlots(stack: Stack, ids: seq<Tid>, t: Tid)
    requires |ids| == SLOTS
  {
    stack.Push? ==>
      && FrameFits(stack.top)
      && (if stack.top.Lookup? then Unlisted(ids, t, stack.top.slot) else ids[stack.top.slot] == t)
      && OwnSlots(stack.below, ids, t)
  }

  ghost predicate SlotsFit(claimed: seq<bool>, ids: seq<Tid>, claimer: seq<Tid>)
    requires |claimed| == SLOTS && |ids| == SLOTS && |claimer| == SLOTS
  {
    && (forall i :: 0 <= i < SLOTS ==> (claimed[i] <==> claimer[i] != NONE))
    && (forall i :: 0 <= i < SLOTS && ids[i] != NONE ==> claimer[i] == ids[i])
    && (forall i, j :: 0 <= i < j < SLOTS && ids[i] == ids[j] ==> ids[i] == NONE)
  }

  ghost predicate Unlisted(ids: seq<Tid>, t: Tid, below: nat)
    requires |ids| == SLOTS
  {
    forall i :: 0 <= i < below && i < SLOTS ==> ids[i] != t
  }

  ghost predicate PcFits(pc: Pc, ids: seq<Tid>, claimer: seq<Tid>, t: Tid)
    requires |ids| == SLOTS && |claimer| == SLOTS
  {
    && IndexFits(pc)
    && match pc
       case Running => true
       case Aborted => true
       case RegScan(i) => Unlisted(ids, t, i)
       case RegClaim(_) => Unlisted(ids, t, SLOTS)
       case RegClear(i) => claimer[i] == t && ids[i] == NONE && Unlisted(ids, t, SLOTS)
       case RegPublish(i) => claimer[i] == t && ids[i] == NONE && Unlisted(ids, t, SLOTS)
       case UnScan(i) => Unlisted(ids, t, i)
       case UnClear(i) => ids[i] == t
       case UnRelease(i) => claimer[i] == t && ids[i] == NONE && Unlisted(ids, t, SLOTS)
  }

  // The flag of a thread's slot is set exactly while one of its activations is live.
  ghost predicate StackFits(stack: Stack, ids: seq<Tid>, inHandler: seq<bool>, t: Tid)
    requires |ids| == SLOTS && |inHandler| == SLOTS
  {
    && OwnSlots(stack, ids, t)
    && LiveCount(stack) <= 1
    && (forall i :: 0 <= i < SLOTS && ids[i] == t ==> (inHandler[i] <==> LiveCount(stack) == 1))
  }

  ghost predicate PcsFit(s: State)
    requires s.Shaped()
  {
    forall t :: t != NONE ==> PcFits(s.PcOf(t), s.ids, s.claimer, t)
  }

  ghost predicate StacksFit(s: State)
    requires s.Shaped()
  {
    forall t :: t != NONE ==> StackFits(s.StackOf(t), s.ids, s.inHandler, t)
  }

  // A claim is held for a published identity, or by a thread in the middle of publishing or
  // withdrawing it: no slot is ever leaked.
  predicate Handles(pc: Pc, i: nat) { pc == RegClear(i) || pc == RegPublish(i) || pc == UnRelease(i) }

  ghost predicate ClaimsFit(s: State)
    requires s.Shaped()
  {
    forall i :: 0 <= i < SLOTS && s.claimer[i] != NONE ==>
      s.ids[i] == s.claimer[i] || Handles(s.PcOf(s.claimer[i]), i)
  }

  ghost predicate FreeSlotsQuiet(s: State)
    requires s.Shaped()
  {
    forall i :: 0 <= i < SLOTS && s.ids[i] == NONE ==> !s.inHandler[i]
  }

  ghost predicate Inv(s: State) {
    && s.Shaped()
    && SlotsFit(s.claimed, s.ids, s.claimer)
    && PcsFit(s)
    && StacksFit(s)
    && FreeSlotsQuiet(s)
    && ClaimsFit(s)
  }

  // ------------------------------------------------------------------ every step keeps it

  // A change to the table that leaves every slot carrying t in place leaves t's stack sound.
  lemma {:induction false} OwnSlotsKept(stack: Stack, ids: seq<Tid>, changed: seq<Tid>, t: Tid)
    requires |ids| == SLOTS && |changed| == SLOTS && OwnSlots(stack, ids, t)
    requires forall i :: 0 <= i < SLOTS ==> (ids[i] == t <==> changed[i] == t)
    ensures OwnSlots(stack, changed, t)
  {
    if stack.Push? {
      OwnSlotsKept(stack.below, ids, changed, t);
    }
  }

  lemma StepKeepsSlots(s: State, t: Tid)
    requires Enabled(s, t, Step) && SlotsFit(s.claimed, s.ids, s.claimer)
    requires PcFits(s.PcOf(t), s.ids, s.claimer, t)
    ensures NextStep(s, t).Shaped()
    ensures SlotsFit(NextStep(s, t).claimed, NextStep(s, t).ids, NextStep(s, t).claimer)
  {
  }

  // A thread's position stays justified when another thread changes one slot that is not its own.
  lemma OtherPcKept(pc: Pc, ids: seq<Tid>, claimer: seq<Tid>, u: Tid, i: nat, id: Tid, owner: Tid)
    requires |ids| == SLOTS && |claimer| == SLOTS && i < SLOTS && u != NONE
    requires PcFits(pc, ids, claimer, u)
    requires claimer[i] != u && ids[i] != u && id != u
    requires ids[i] == id || claimer[i] == owner
    ensures PcFits(pc, ids[i := id], claimer[i := owner], u)
  {
  }

  lemma StepKeepsPcs(s: State, t: Tid)
    requires Enabled(s, t, Step) && SlotsFit(s.claimed, s.ids, s.claimer) && PcsFit(s)
    ensures NextStep(s, t).Shaped() && PcsFit(NextStep(s, t))
  {
    var n := NextStep(s, t);
    assert PcFits(s.PcOf(t), s.ids, s.claimer, t);
    StepKeepsOwnPc(s, t);
    forall u | u != NONE ensures PcFits(n.PcOf(u), n.ids, n.claimer, u) {
      assert PcFits(s.PcOf(u), s.ids, s.claimer, u);
      if u != t {
        assert n.PcOf(u) == s.PcOf(u);
        if n.ids != s.ids || n.claimer != s.claimer {
          var i := s.PcOf(t).i;
          assert n.ids == s.ids[i := n.ids[i]] && n.claimer == s.claimer[i := n.claimer[i]];
          OtherPcKept(s.PcOf(u), s.ids, s.claimer, u, i, n.ids[i], n.claimer[i]);
        }
      }
    }
  }

  lemma StepKeepsOwnPc(s: State, t: Tid)
    requires Enabled(s, t, Step) && SlotsFit(s.claimed, s.ids, s.claimer)
    requires PcFits(s.PcOf(t), s.ids, s.claimer, t)
    ensures NextStep(s, t).Shaped()
    ensures PcFits(NextStep(s, t).PcOf(t), NextStep(s, t).ids, NextStep(s, t).claimer, t)
  {
  }

  lemma StepKeepsClaims(s: State, t: Tid)
    requires Enabled(s, t, Step) && SlotsFit(s.claimed, s.ids, s.claimer) && ClaimsFit(s)
    requires PcFits(s.PcOf(t), s.ids, s.claimer, t)
    ensures NextStep(s, t).Shaped() && ClaimsFit(NextStep(s, t))
  {
    var n := NextStep(s, t);
    forall i | 0 <= i < SLOTS && n.claimer[i] != NONE
      ensures n.ids[i] == n.claimer[i] || Handles(n.PcOf(n.claimer[i]), i)
    {
      if n.claimer[i] != t {
        assert n.PcOf(n.claimer[i]) == s.PcOf(n.claimer[i]) && n.claimer[i] == s.claimer[i];
      }
    }
  }

  lemma StepKeepsStacks(s: State, t: Tid)
    requires Enabled(s, t, Step) && SlotsFit(s.claimed, s.ids, s.claimer)
    requires PcFits(s.PcOf(t), s.ids, s.claimer, t) && StacksFit(s) && FreeSlotsQuiet(s)
    ensures NextStep(s, t).Shaped() && StacksFit(NextStep(s, t)) && FreeSlotsQuiet(NextStep(s, t))
  {
    var n := NextStep(s, t);
    assert StackFits(s.StackOf(t), s.ids, s.inHandler, t);
    forall u | u != NONE ensures StackFits(n.StackOf(u), n.ids, n.inHandler, u) {
      assert n.StackOf(u) == s.StackOf(u);
      assert StackFits(s.StackOf(u), s.ids, s.inHandler, u);
      if u != t {
        OwnSlotsKept(s.StackOf(u), s.ids, n.ids, u);
      }
    }
  }

  lemma FilterKeepsStacks(s: State, t: Tid)
    requires Enabled(s, t, FilterStep) && SlotsFit(s.claimed, s.ids, s.claimer)
    requires StacksFit(s) && FreeSlotsQuiet(s)
    ensures NextFilter(s, t).Shaped() && StacksFit(NextFilter(s, t)) && FreeSlotsQuiet(NextFilter(s, t))
  {
    var n := NextFilter(s, t);
    assert StackFits(s.StackOf(t), s.ids, s.inHandler, t);
    FilterKeepsOwnStack(s, t);
    forall u | u != NONE ensures StackFits(n.StackOf(u), n.ids, n.inHandler, u) {
      assert StackFits(s.StackOf(u), s.ids, s.inHandler, u);
    }
  }

  lemma FilterKeepsOwnStack(s: State, t: Tid)
    requires Enabled(s, t, FilterStep) && SlotsFit(s.claimed, s.ids, s.claimer)
    requires StackFits(s.StackOf(t), s.ids, s.inHandler, t)
    ensures NextFilter(s, t).Shaped() && NextFilter(s, t).ids == s.ids
    ensures StackFits(NextFilter(s, t).StackOf(t), s.ids, NextFilter(s, t).inHandler, t)
  {
  }

  lemma StepKeepsInv(s: State, t: Tid, a: Action)
    requires Inv(s) && Enabled(s, t, a)
    ensures Inv(Next(s, t, a))
  {
    var n := Next(s, t, a);
    assert PcFits(s.PcOf(t), s.ids, s.claimer, t);
    assert StackFits(s.StackOf(t), s.ids, s.inHandler, t);
    match a {
      case Step =>
        StepKeepsSlots(s, t);
        StepKeepsPcs(s, t);
        StepKeepsStacks(s, t);
        StepKeepsClaims(s, t);
      case FilterStep =>
        FilterKeepsStacks(s, t);
        forall u | u != NONE ensures PcFits(n.PcOf(u), n.ids, n.claimer, u) {
          assert n.PcOf(u) == s.PcOf(u);
        }
      case _ => CallsAndFaultsKeepInv(s, t, a);
    }
  }

  lemma CallsAndFaultsKeepInv(s: State, t: Tid, a: Action)
    requires Inv(s) && Enabled(s, t, a) && (a.CallRegister? || a.CallUnregister? || a.Fault?)
    ensures Inv(Next(s, t, a))
  {
    var n := Next(s, t, a);
    forall u | u != NONE ensures PcFits(n.PcOf(u), n.ids, n.claimer, u) {
      assert PcFits(s.PcOf(u), s.ids, s.claimer, u);
    }
    forall u | u != NONE ensures StackFits(n.StackOf(u), n.ids, n.inHandler, u) {
      assert StackFits(s.StackOf(u), s.ids, s.inHandler, u);
    }
  }

  // ------------------------------------------------------------------ whole runs

  predicate ValidRun(s: State, run: seq<(Tid, Action)>)
    decreases |run|
  {
    run == [] || (Enabled(s, run[0].0, run[0].1) && ValidRun(Next(s, run[0].0, run[0].1), run[1..]))
  }

  function After(s: State, run: seq<(Tid, Action)>): State
    requires ValidRun(s, run)
    decreases |run|
  {
    if run == [] then s else After(Next(s, run[0].0, run[0].1), run[1..])
  }

  lemma {:induction false} RunKeepsInv(s: State, run: seq<(Tid, Action)>)
    requires Inv(s) && ValidRun(s, run)
    ensures Inv(After(s, run))
    decreases |run|
  {
    if run != [] {
      StepKeepsInv(s, run[0].0, run[0].1);
      RunKeepsInv(Next(s, run[0].0, run[0].1), run[1..]);
    }
  }

  // The innermost activation of t is past its lookup and holds this slot.
  predicate Settled(stack: Stack) { stack.Push? && !stack.top.Lookup? }

  // In every reachable state: a published identity sits in a slot claimed by that thread, no
  // identity is published twice, an activation only ever works on its own thread's slot, at most
  // one activation per thread is between setting the guard and clearing it however faults nest,
  // and a registered thread's guard is set exactly while there is one.
  lemma SlotsAreSound(run: seq<(Tid, Action)>, t: Tid)
    requires ValidRun(INIT, run) && t != NONE
    ensures var s := After(INIT, run);
      && s.Shaped()
      && (forall i :: 0 <= i < SLOTS && s.ids[i] == t ==> s.claimed[i] && s.claimer[i] == t)
      && (forall i, j :: 0 <= i < SLOTS && 0 <= j < SLOTS && s.ids[i] == t && s.ids[j] == t ==> i == j)
      && (Settled(s.StackOf(t)) ==> s.StackOf(t).top.slot < SLOTS && s.ids[s.StackOf(t).top.slot] == t)
      && LiveCount(s.StackOf(t)) <= 1
      && (forall i :: 0 <= i < SLOTS && s.ids[i] == t ==>
            (s.inHandler[i] <==> LiveCount(s.StackOf(t)) == 1))
  {
    StartKeepsInv();
    RunKeepsInv(INIT, run);
    var s := After(INIT, run);
    assert StackFits(s.StackOf(t), s.ids, s.inHandler, t);
  }

  lemma StartKeepsInv()
    ensures Inv(INIT)
  {
    forall u | u != NONE
      ensures PcFits(INIT.PcOf(u), INIT.ids, INIT.claimer, u)
      ensures StackFits(INIT.StackOf(u), INIT.ids, INIT.inHandler, u)
    {}
  }

  // A fault on a thread whose identity is published finds it: no lookup passes its slot, so the
  // activation goes on to the guard of that slot and never leaves before.
  lemma PublishedFaultIsFound(run: seq<(Tid, Action)>, t: Tid, j: nat)
    requires ValidRun(INIT, run) && t != NONE && j < SLOTS
    requires var s := After(INIT, run);
      s.Shaped() && s.ids[j] == t && s.StackOf(t).Push? && s.StackOf(t).top.Lookup?
    ensures var s := After(INIT, run);
      var i, below := s.StackOf(t).top.slot, s.StackOf(t).below;
      && i <= j && Enabled(s, t, FilterStep)
      && NextFilter(s, t) == s.Restack(t, Push(if i == j then Guard(j) else Lookup(i + 1), below))
  {
    StartKeepsInv();
    RunKeepsInv(INIT, run);
    var s := After(INIT, run);
    assert StackFits(s.StackOf(t), s.ids, s.inHandler, t);
    assert PcFits(s.PcOf(t), s.ids, s.claimer, t);
    assert Unlisted(s.ids, t, s.StackOf(t).top.slot);
  }

  // A fault that strikes while its thread is in the callback is passed on to the previous
  // handler: once it reaches the guard it finds the flag set and leaves.
  lemma NestedFaultChainsOut(run: seq<(Tid, Action)>, t: Tid)
    requires ValidRun(INIT, run) && t != NONE
    requires var stack := After(INIT, run).StackOf(t);
      stack.Push? && stack.top.Guard? && LiveCount(stack.below) == 1
    requires Enabled(After(INIT, run), t, FilterStep)
    ensures var s := After(INIT, run);
      NextFilter(s, t) == s.Restack(t, s.StackOf(t).below)
  {
    SlotsAreSound(run, t);
  }

  // ------------------------------------------------------------------ what a fault does

  // The other half: a fault at the guard with no activation of its thread live enters the
  // callback, with the flag set.
  lemma FirstFaultEntersCallback(run: seq<(Tid, Action)>, t: Tid)
    requires ValidRun(INIT, run) && t != NONE
    requires var stack := After(INIT, run).StackOf(t);
      stack.Push? && stack.top.Guard? && LiveCount(stack.below) == 0
    requires Enabled(After(INIT, run), t, FilterStep)
    ensures var s, n := After(INIT, run), NextFilter(After(INIT, run), t);
      var i := s.StackOf(t).top.slot;
      && n.StackOf(t) == Push(Callback(i), s.StackOf(t).below)
      && n.inHandler == s.inHandler[i := true] && !s.inHandler[i]
  {
    SlotsAreSound(run, t);
    StartKeepsInv();
    RunKeepsInv(INIT, run);
    var s := After(INIT, run);
    assert StackFits(s.StackOf(t), s.ids, s.inHandler, t);
  }

  // The steps of one activation on a thread published in slot j, with nobody else moving.
  function Activation(j: nat, done: nat): Frame {
    if done <= j then Lookup(done) else if done == j + 1 then Guard(j)
    else if done == j + 2 then Callback(j) else Restore(j)
  }

  // After so many of its steps, started from state s.
  predicate ActivationAt(s: State, n: State, t: Tid, j: nat, done: nat)
    requires s.Shaped() && j < SLOTS
  {
    && n.claimed == s.claimed && n.ids == s.ids && n.claimer == s.claimer && n.pcs == s.pcs
    && n.inHandler == (if done >= j + 2 then s.inHandler[j := true] else s.inHandler)
    && n.StackOf(t) == Push(Activation(j, done), s.StackOf(t))
  }

  lemma ActivationMoves(s: State, n: State, t: Tid, j: nat, done: nat)
    requires s.Shaped() && j < SLOTS && t != NONE && IndexFits(s.PcOf(t))
    requires s.ids[j] == t && Unlisted(s.ids, t, j) && !s.inHandler[j]
    requires ActivationAt(s, n, t, j, done) && done <= j + 2
    ensures Enabled(n, t, FilterStep) && ActivationAt(s, NextFilter(n, t), t, j, done + 1)
  {
  }

  // The last step takes the flag down again and leaves everything as it was.
  lemma ActivationEnds(s: State, n: State, t: Tid, j: nat)
    requires s.Shaped() && j < SLOTS && t != NONE && IndexFits(s.PcOf(t)) && !s.inHandler[j]
    requires ActivationAt(s, n, t, j, j + 3)
    ensures Enabled(n, t, FilterStep)
    ensures var e := NextFilter(n, t);
      && e.claimed == s.claimed && e.ids == s.ids && e.claimer == s.claimer && e.pcs == s.pcs
      && e.inHandler == s.inHandler && e.StackOf(t) == s.StackOf(t)
  {
  }

  // The filter steps of t alone.
  function FilterSteps(t: Tid, k: nat): seq<(Tid, Action)> {
    if k == 0 then [] else [(t, FilterStep)] + FilterSteps(t, k - 1)
  }

  lemma {:induction false} ActivationRuns(s: State, n: State, t: Tid, j: nat, done: nat, k: nat)
    requires s.Shaped() && j < SLOTS && t != NONE && IndexFits(s.PcOf(t))
    requires s.ids[j] == t && Unlisted(s.ids, t, j) && !s.inHandler[j]
    requires ActivationAt(s, n, t, j, done) && done + k <= j + 3
    ensures ValidRun(n, FilterSteps(t, k)) && ActivationAt(s, After(n, FilterSteps(t, k)), t, j, done + k)
    decreases k
  {
    if k > 0 {
      ActivationMoves(s, n, t, j, done);
      ActivationRuns(s, NextFilter(n, t), t, j, done + 1, k - 1);
      assert FilterSteps(t, k)[1..] == FilterSteps(t, k - 1);
    }
  }

  // An undisturbed fault on a registered thread runs the callback exactly once: at its step
  // j + 2, j being the thread's slot, it is in the callback with the flag set and at no other;
  // after j + 4 steps it is gone and flags and table are as they were.
  lemma FaultRunsCallbackOnce(run: seq<(Tid, Action)>, t: Tid, j: nat, k: nat)
    requires ValidRun(INIT, run) && t != NONE && j < SLOTS && k <= j + 3
    requires var s := After(INIT, run); s.Shaped() && s.ids[j] == t && LiveCount(s.StackOf(t)) == 0
    ensures var s := After(INIT, run);
      && Enabled(s, t, Fault) && ValidRun(Next(s, t, Fault), FilterSteps(t, k))
      && var n := After(Next(s, t, Fault), FilterSteps(t, k));
      && n.StackOf(t).Push? && n.StackOf(t).below == s.StackOf(t)
      && (n.StackOf(t).top.Callback? <==> k == j + 2) && (k == j + 2 ==> n.inHandler == s.inHandler[j := true])
      && (k == j + 3 ==>
            && Enabled(n, t, FilterStep)
            && var e := NextFilter(n, t);
            e.StackOf(t) == s.StackOf(t) && e.inHandler == s.inHandler && !e.inHandler[j] && e.ids == s.ids)
  {
    StartKeepsInv();
    RunKeepsInv(INIT, run);
    var s := After(INIT, run);
    assert PcFits(s.PcOf(t), s.ids, s.claimer, t);
    assert StackFits(s.StackOf(t), s.ids, s.inHandler, t);
    ActivationRuns(s, Next(s, t, Fault), t, j, 0, k);
    if k == j + 3 {
      ActivationEnds(s, After(Next(s, t, Fault), FilterSteps(t, k)), t, j);
    }
  }

  // ------------------------------------------------------------------ what registration does

  predicate Registering(pc: Pc) { pc.RegScan? || pc.RegClaim? || pc.RegClear? || pc.RegPublish? }
  predicate Unregistering(pc: Pc) { pc.UnScan? || pc.UnClear? || pc.UnRelease? }

  // RegisterFaultHandlerThread returns with the identity published, in a slot the thread claims.
  lemma RegisterPublishes(s: State, t: Tid)
    requires Inv(s) && Enabled(s, t, Step) && Registering(s.PcOf(t)) && NextStep(s, t).PcOf(t).Running?
    ensures var n := NextStep(s, t);
      n.Shaped() && exists i :: 0 <= i < SLOTS && n.ids[i] == t && n.claimed[i] && n.claimer[i] == t && !n.inHandler[i]
  {
    var i := s.PcOf(t).i;
    assert PcFits(s.PcOf(t), s.ids, s.claimer, t);
    assert StackFits(s.StackOf(t), s.ids, s.inHandler, t);
    assert NextStep(s, t).ids[i] == t;
  }

  // UnregisterFaultHandlerThread returns with the identity gone and no claim left behind.
  lemma UnregisterWithdraws(s: State, t: Tid)
    requires Inv(s) && Enabled(s, t, Step) && Unregistering(s.PcOf(t)) && NextStep(s, t).PcOf(t).Running?
    ensures var n := NextStep(s, t);
      n.Shaped() && Unlisted(n.ids, t, SLOTS) && forall i :: 0 <= i < SLOTS ==> n.claimer[i] != t
  {
    StepKeepsInv(s, t, Step);
    var n := NextStep(s, t);
    assert Next(s, t, Step) == n;
    assert PcFits(s.PcOf(t), s.ids, s.claimer, t);
    forall i | 0 <= i < SLOTS ensures n.claimer[i] != t {
      assert n.claimer[i] == t ==> n.ids[i] == t || Handles(n.PcOf(t), i);
    }
  }

  // Own steps either call still has to take.
  function CallRank(pc: Pc): int {
    match pc
    case RegScan(i) => 2 * SLOTS + 5 - i
    case RegClaim(i) => SLOTS + 3 - i
    case RegClear(_) => 2
    case RegPublish(_) => 1
    case UnScan(i) => SLOTS + 3 - i
    case UnClear(_) => 2
    case UnRelease(_) => 1
    case _ => 0
  }

  // Neither call waits for anybody: every own step brings it closer to its end, whatever the
  // others do; registering gives up only past a last slot that it found claimed.
  lemma RegistrationEnds(s: State, t: Tid)
    requires Inv(s) && Enabled(s, t, Step)
    ensures 0 <= CallRank(NextStep(s, t).PcOf(t)) < CallRank(s.PcOf(t))
    ensures Registering(s.PcOf(t)) ==>
      var pc := NextStep(s, t).PcOf(t); Registering(pc) || pc.Running? || (pc.Aborted? && s.PcOf(t) == RegClaim(SLOTS))
    ensures Unregistering(s.PcOf(t)) ==> Unregistering(NextStep(s, t).PcOf(t)) || NextStep(s, t).PcOf(t).Running?
    ensures s.PcOf(t).RegClaim? && s.PcOf(t).i < SLOTS ==>
      (NextStep(s, t).PcOf(t) == RegClaim(s.PcOf(t).i + 1) <==> s.claimed[s.PcOf(t).i])
  {
  }

  predicate Published(s: State, t: Tid) { exists i :: 0 <= i < |s.ids| && s.ids[i] == t }

  // On the way to, or at, what the call is for.
  ghost predicate OnTheWay(s: State, t: Tid, register: bool) {
    || (if register then Registering(s.PcOf(t)) || s.PcOf(t).Aborted? else Unregistering(s.PcOf(t)))
    || (s.PcOf(t).Running? && (Published(s, t) <==> register))
  }

  predicate CallBy(step: (Tid, Action), t: Tid) { step.0 == t && (step.1.CallRegister? || step.1.CallUnregister?) }

  predicate NoCallBy(run: seq<(Tid, Action)>, t: Tid) {
    run == [] || (!CallBy(run[0], t) && NoCallBy(run[1..], t))
  }

  lemma OwnStepOnTheWay(s: State, t: Tid, register: bool)
    requires Inv(s) && Enabled(s, t, Step) && OnTheWay(s, t, register)
    ensures OnTheWay(NextStep(s, t), t, register)
  {
    RegistrationEnds(s, t);
    if NextStep(s, t).PcOf(t).Running? {
      if register {
        RegisterPublishes(s, t);
      } else {
        UnregisterWithdraws(s, t);
      }
    }
  }

  // Nobody else adds or removes a thread's identity.
  lemma OthersKeepPublished(s: State, u: Tid, a: Action, t: Tid)
    requires Inv(s) && Enabled(s, u, a) && t != NONE && (u != t || !a.Step?)
    ensures Published(Next(s, u, a), t) <==> Published(s, t)
    ensures !CallBy((u, a), t) ==> Next(s, u, a).PcOf(t) == s.PcOf(t)
  {
    var n := Next(s, u, a);
    assert PcFits(s.PcOf(u), s.ids, s.claimer, u);
    assert forall i :: 0 <= i < SLOTS ==> (n.ids[i] == t <==> s.ids[i] == t);
  }

  lemma {:induction false} StaysOnTheWay(s: State, run: seq<(Tid, Action)>, t: Tid, register: bool)
    requires Inv(s) && ValidRun(s, run) && t != NONE && NoCallBy(run, t) && OnTheWay(s, t, register)
    ensures OnTheWay(After(s, run), t, register)
    decreases |run|
  {
    if run != [] {
      var u, a := run[0].0, run[0].1;
      StepKeepsInv(s, u, a);
      if u == t && a.Step? {
        OwnStepOnTheWay(s, t, register);
      } else {
        OthersKeepPublished(s, u, a, t);
      }
      StaysOnTheWay(Next(s, u, a), run[1..], t, register);
    }
  }

  // Whatever the other threads and faults do, a thread that has come back from registering is
  // published, and one that has come back from unregistering is not.
  lemma RegistrationTakesEffect(s: State, run: seq<(Tid, Action)>, t: Tid, register: bool)
    requires Inv(s) && Enabled(s, t, CallRegister)
    requires var call := if register then CallRegister else CallUnregister;
      ValidRun(Next(s, t, call), run) && NoCallBy(run, t) && After(Next(s, t, call), run).PcOf(t).Running?
    ensures var call := if register then CallRegister else CallUnregister;
      Published(After(Next(s, t, call), run), t) <==> register
  {
    var call := if register then CallRegister else CallUnregister;
    StepKeepsInv(s, t, call);
    StaysOnTheWay(Next(s, t, call), run, t, register);
  }
}
