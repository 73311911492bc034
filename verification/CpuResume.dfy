/**
  Parking and waking the emulation thread.  The thread re-reads the VM state around a counting
  semaphore; every waker stores the new state first and posts afterwards, with no lock between.

  Any number of frontend threads may be pausing, resuming, resetting or shutting down at once,
  and any number of posts from earlier cycles may still be banked.  Every access to the shared
  state word is one step.
*/
module CpuResume {
  datatype VmState = Shutdown | Initializing | Running | Paused | Resetting | Stopping

  // VMManager::HasValidVM.
  predicate Valid(v: VmState) { v.Running? || v.Paused? || v.Resetting? }

  datatype CpuPc =
    | Dispatch          // about to read the state for the switch
    | Executing         // in guest code or VMManager::Reset: may store states of its own
    | Recheck           // the condition of the wait loop
    | Waiting           // committed to Wait
    | Exited

  datatype CallPc =
    | PauseStore                      // SetPaused(true), the VM found valid
    | ResetFirstLoad                  // VMManager::Reset on the way to a resume
    | ResetStoreResetting
    | ResetSecondLoad
    | ResetStoreRunning
    | ResumeCheck(stored: bool)       // cpu_thread_resume; stored: this call has changed the state
    | ResumeStore(stored: bool)
    | WakerPost                       // about to post
    | ShutdownStore                   // Stopping is stored, Shutdown is next

  datatype State = State(vm: VmState, tokens: nat, cpu: CpuPc, calls: map<nat, CallPc>)
  {
    function Move(t: nat, pc: CallPc): State { this.(calls := calls[t := pc]) }
    function Return(t: nat): State { this.(calls := calls - {t}) }
  }

  datatype Action =
    | Cpu
    | CpuStores(vm: VmState)          // the emulation thread's own state changes
    | Pause(t: nat)
    | Resume(t: nat)
    | ResetGame(t: nat)
    | Unload(t: nat)
    | Advance(t: nat)

  predicate Enabled(s: State, a: Action) {
    match a
    case Cpu => !s.cpu.Exited? && (s.cpu.Waiting? ==> s.tokens > 0)
    case CpuStores(_) => s.cpu.Executing?
    case Pause(t) => t !in s.calls
    case Resume(t) => t !in s.calls
    case ResetGame(t) => t !in s.calls
    case Unload(t) => t !in s.calls
    case Advance(t) => t in s.calls
  }

  function Next(s: State, a: Action): State
    requires Enabled(s, a)
  {
    match a
    case Cpu => NextCpu(s)
    case CpuStores(vm) => s.(vm := vm)
    case Pause(t) => if Valid(s.vm) then s.Move(t, PauseStore) else s
    case Resume(t) => s.Move(t, ResumeCheck(false))
    case ResetGame(t) => s.Move(t, ResetFirstLoad)
    case Unload(t) => s.(vm := Stopping).Move(t, ShutdownStore)
    case Advance(t) => NextCall(s, t)
  }

  function NextCpu(s: State): State
    requires Enabled(s, Cpu)
  {
    match s.cpu
    case Dispatch =>
      (match s.vm
       case Paused => s.(cpu := Recheck)
       case Stopping => s.(cpu := Exited)
       case Shutdown => s.(cpu := Exited)
       case _ => s.(cpu := Executing))
    case Executing => s.(cpu := Dispatch)
    case Recheck => s.(cpu := if s.vm.Paused? then Waiting else Dispatch)
    case Waiting => s.(tokens := s.tokens - 1, cpu := Recheck)
    case Exited => s
  }

  function NextCall(s: State, t: nat): State
    requires t in s.calls
  {
    match s.calls[t]
    case PauseStore => s.(vm := Paused).Return(t)
    case ResetFirstLoad => s.Move(t, if s.vm.Running? then ResetStoreResetting else ResetSecondLoad)
    case ResetStoreResetting => s.(vm := Resetting).Move(t, ResumeCheck(true))
    case ResetSecondLoad => s.Move(t, if s.vm.Resetting? then ResetStoreRunning else ResumeCheck(false))
    case ResetStoreRunning => s.(vm := Running).Move(t, ResumeCheck(true))
    case ResumeCheck(stored) => s.Move(t, if Valid(s.vm) then ResumeStore(stored) else WakerPost)
    case ResumeStore(_) => s.(vm := Running).Move(t, WakerPost)
    case WakerPost => s.(tokens := s.tokens + 1).Return(t)
    case ShutdownStore => s.(vm := Shutdown).Move(t, WakerPost)
  }

  // After VMManager::Initialize, with any number of posts left from before.
  function Start(stale: nat): State { State(Paused, stale, Dispatch, map[]) }

  // ------------------------------------------------------------------ the invariant

  // A waker between its state store and its post.
  predicate Owing(pc: CallPc) {
    || pc.WakerPost? || pc.ShutdownStore?
    || (pc.ResumeCheck? && pc.stored) || (pc.ResumeStore? && pc.stored)
  }

  ghost predicate WakerPending(s: State) {
    exists t :: t in s.calls && Owing(s.calls[t])
  }

  ghost predicate Inv(s: State) {
    s.cpu.Waiting? ==> s.vm.Paused? || s.tokens > 0 || WakerPending(s)
  }

  lemma CallStepKeepsInv(s: State, t: nat)
    requires Inv(s) && t in s.calls
    ensures Inv(NextCall(s, t))
  {
    var n := NextCall(s, t);
    if s.cpu.Waiting? && !n.vm.Paused? && n.tokens == 0 {
      if s.vm.Paused? || Owing(s.calls[t]) {
        assert t in n.calls && (n.vm != s.vm || Owing(s.calls[t]) ==> Owing(n.calls[t]));
      } else {
        var u :| u in s.calls && Owing(s.calls[u]);
        assert u in n.calls && n.calls[u] == s.calls[u];
      }
    }
  }

  lemma StepKeepsInv(s: State, a: Action)
    requires Inv(s) && Enabled(s, a)
    ensures Inv(Next(s, a))
  {
    var n := Next(s, a);
    match a {
      case Cpu =>
      case CpuStores(_) =>
      case Advance(t) => CallStepKeepsInv(s, t);
      case Unload(t) => assert t in n.calls && Owing(n.calls[t]);
      case _ =>
        if WakerPending(s) {
          var u :| u in s.calls && Owing(s.calls[u]);
          assert u in n.calls && n.calls[u] == s.calls[u];
        }
    }
  }

  // ------------------------------------------------------------------ whole runs

  predicate ValidRun(s: State, run: seq<Action>)
    decreases |run|
  {
    run == [] || (Enabled(s, run[0]) && ValidRun(Next(s, run[0]), run[1..]))
  }

  function After(s: State, run: seq<Action>): State
    requires ValidRun(s, run)
    decreases |run|
  {
    if run == [] then s else After(Next(s, run[0]), run[1..])
  }

  lemma {:induction false} RunKeepsInv(s: State, run: seq<Action>)
    requires Inv(s) && ValidRun(s, run)
    ensures Inv(After(s, run))
    decreases |run|
  {
    if run != [] {
      StepKeepsInv(s, run[0]);
      RunKeepsInv(Next(s, run[0]), run[1..]);
    }
  }

  // A resume is never lost: whenever the emulation thread is committed to its wait and the VM is
  // no longer paused, a post is banked or a waker is between its store and its post.
  lemma ResumeIsNeverLost(stale: nat, run: seq<Action>)
    requires ValidRun(Start(stale), run)
    ensures var s := After(Start(stale), run);
      s.cpu.Waiting? && !s.vm.Paused? ==> s.tokens > 0 || WakerPending(s)
  {
    RunKeepsInv(Start(stale), run);
  }

  // These steps of the emulation thread alone bring it back to the switch, which ends it when the
  // VM has shut down and lets it execute when the VM runs.
  ghost predicate Escapes(s: State, steps: seq<Action>) {
    && 1 <= |steps| <= 2 && (forall a :: a in steps ==> a == Cpu)
    && ValidRun(s, steps) && After(s, steps).cpu == Dispatch
    && After(s, steps).vm == s.vm && Enabled(After(s, steps), Cpu)
    && (s.vm.Shutdown? || s.vm.Stopping? ==> Next(After(s, steps), Cpu).cpu.Exited?)
    && (s.vm.Running? ==> Next(After(s, steps), Cpu).cpu.Executing?)
  }

  lemma OneStep(s: State)
    requires s.cpu.Recheck? && !s.vm.Paused?
    ensures Escapes(s, [Cpu])
  {
    assert After(s, [Cpu]) == Next(s, Cpu);
  }

  lemma TwoSteps(s: State)
    requires s.cpu.Waiting? && !s.vm.Paused? && s.tokens > 0
    ensures Escapes(s, [Cpu, Cpu])
  {
    var n := Next(s, Cpu);
    OneStep(n);
    assert [Cpu, Cpu][1..] == [Cpu];
    assert After(s, [Cpu, Cpu]) == After(n, [Cpu]);
  }

  // So once every call has returned and the VM is not paused, the thread gets out of the wait by
  // itself.
  lemma ThreadLeavesTheWait(stale: nat, run: seq<Action>)
    requires ValidRun(Start(stale), run)
    requires var s := After(Start(stale), run);
      s.calls == map[] && !s.vm.Paused? && (s.cpu.Waiting? || s.cpu.Recheck?)
    ensures exists steps :: Escapes(After(Start(stale), run), steps)
  {
    RunKeepsInv(Start(stale), run);
    var s := After(Start(stale), run);
    if s.cpu.Recheck? {
      OneStep(s);
    } else {
      assert !WakerPending(s);
      TwoSteps(s);
    }
  }

  // ------------------------------------------------------------------ what a call achieves

  // A call by t alone, on its way to leaving the VM in the state `goal`, or returned.
  predicate LeadsTo(s: State, t: nat, goal: VmState) {
    if t !in s.calls then s.vm == goal
    else
      match s.calls[t]
      case PauseStore => goal == Paused
      case ResumeStore(_) => goal == Running
      case WakerPost => s.vm == goal
      case ShutdownStore => goal == Shutdown
      case _ => Valid(s.vm) && goal == Running
  }

  // Steps the call still has to take.
  function CallRank(pc: CallPc): nat {
    match pc
    case PauseStore => 1
    case WakerPost => 1
    case ResumeStore(_) => 2
    case ShutdownStore => 2
    case ResumeCheck(_) => 3
    case ResetStoreRunning => 4
    case ResetStoreResetting => 4
    case ResetSecondLoad => 5
    case ResetFirstLoad => 6
  }

  lemma StepLeadsOn(s: State, t: nat, goal: VmState, a: Action)
    requires LeadsTo(s, t, goal) && Enabled(s, a) && (a == Cpu || a == Advance(t))
    ensures LeadsTo(Next(s, a), t, goal)
    ensures a == Advance(t) && t in Next(s, a).calls ==> CallRank(Next(s, a).calls[t]) < CallRank(s.calls[t])
    ensures Next(s, a).calls - {t} == s.calls - {t}
  {
  }

  // Only this call and the emulation thread move, and the latter stores no state of its own.
  predicate Alone(run: seq<Action>, t: nat) {
    run == [] || ((run[0] == Cpu || run[0] == Advance(t)) && Alone(run[1..], t))
  }

  lemma {:induction false} RunLeadsOn(s: State, t: nat, goal: VmState, run: seq<Action>)
    requires LeadsTo(s, t, goal) && ValidRun(s, run) && Alone(run, t)
    ensures LeadsTo(After(s, run), t, goal) && After(s, run).calls - {t} == s.calls - {t}
    decreases |run|
  {
    if run != [] {
      StepLeadsOn(s, t, goal, run[0]);
      RunLeadsOn(Next(s, run[0]), t, goal, run[1..]);
    }
  }

  // What a call by itself leaves behind: a resume or a reset of a valid VM has it running, a pause
  // of a valid VM has it paused, and unloading has it shut down, whatever it was.
  function Outcome(vm: VmState, call: Action): (r: VmState)
    requires call.Pause? || call.Resume? || call.ResetGame? || call.Unload?
  {
    match call
    case Unload(_) => Shutdown
    case Pause(_) => if Valid(vm) then Paused else vm
    case _ => if Valid(vm) then Running else vm
  }

  // Every call, once it has returned with nobody else calling, has had its effect.
  lemma CallTakesEffect(s: State, call: Action, run: seq<Action>)
    requires call.Pause? || call.Resume? || call.ResetGame? || call.Unload?
    requires Enabled(s, call) && (Valid(s.vm) || call.Unload? || call.Pause?)
    requires ValidRun(Next(s, call), run) && Alone(run, call.t) && call.t !in After(Next(s, call), run).calls
    ensures After(Next(s, call), run).vm == Outcome(s.vm, call)
    ensures s.calls == map[] ==> After(Next(s, call), run).calls == map[]
  {
    RunLeadsOn(Next(s, call), call.t, Outcome(s.vm, call), run);
    assert After(Next(s, call), run).calls == After(Next(s, call), run).calls - {call.t};
  }

  // The exclusions are needed: while the emulation thread executes it may store a state of its
  // own, and so undo a pause that has returned.
  lemma PauseMayBeOverwritten(s: State, t: nat) returns (n: State)
    requires s.cpu.Executing? && s.vm.Running? && s.calls == map[]
    ensures var paused := NextCall(Next(s, Pause(t)), t);
      && paused == s.(vm := Paused) && Enabled(paused, CpuStores(Running))
      && n == Next(paused, CpuStores(Running)) && n == s
  {
    assert map[t := PauseStore] - {t} == map[];
    n := s;
  }

  // A call comes to owe its post by storing a state, or by finding no VM to resume.
  lemma OwingBeginsWithStore(s: State, a: Action, t: nat)
    requires Enabled(s, a) && (t in s.calls ==> !Owing(s.calls[t]))
    requires t in Next(s, a).calls && Owing(Next(s, a).calls[t])
    ensures a == Unload(t) || a == Advance(t)
    ensures a == Advance(t) ==>
      s.calls[t].ResetStoreResetting? || s.calls[t].ResetStoreRunning? || s.calls[t].ResumeStore?
      || (s.calls[t].ResumeCheck? && !Valid(s.vm))
  {
  }

  // What the frontend's reset does to the state before it resumes: a running VM is told to reset,
  // a paused one is left paused, and one that is resetting already is let run.
  lemma ResetOutcomes(s: State, t: nat)
    requires t !in s.calls
    ensures var two := NextCall(NextCall(Next(s, ResetGame(t)), t), t);
      && (s.vm.Running? ==> two == s.(vm := Resetting).Move(t, ResumeCheck(true)))
      && (s.vm.Paused? ==> two == s.Move(t, ResumeCheck(false)))
      && (s.vm.Resetting? ==> NextCall(two, t) == s.(vm := Running).Move(t, ResumeCheck(true)))
  {
  }

  // Without a valid VM a resume leaves the state alone and still posts.
  lemma ResumeOfNoVm(s: State, t: nat)
    requires !Valid(s.vm) && t !in s.calls
    ensures var called := Next(s, Resume(t));
      && Enabled(called, Advance(t))
      && Enabled(Next(called, Advance(t)), Advance(t))
      && Next(Next(called, Advance(t)), Advance(t)) == s.(tokens := s.tokens + 1)
  {
    assert s.calls[t := WakerPost] - {t} == s.calls;
  }

  // So a resume resumes: from any reachable state with a valid VM and no other call, once it has
  // returned the VM runs, and a thread that was waiting is on its way back to executing.
  lemma ResumeWakesTheThread(stale: nat, run: seq<Action>, t: nat, rest: seq<Action>)
    requires ValidRun(Start(stale), run)
    requires var s := After(Start(stale), run); s.calls == map[] && Valid(s.vm)
    requires var called := Next(After(Start(stale), run), Resume(t));
      ValidRun(called, rest) && Alone(rest, t) && t !in After(called, rest).calls
    ensures var done := After(Next(After(Start(stale), run), Resume(t)), rest);
      && done.vm == Running
      && (done.cpu.Waiting? || done.cpu.Recheck? ==> exists steps :: Escapes(done, steps))
  {
    var s := After(Start(stale), run);
    CallTakesEffect(s, Resume(t), rest);
    RunKeepsInv(Start(stale), run);
    StepKeepsInv(s, Resume(t));
    RunKeepsInv(Next(s, Resume(t)), rest);
    var done := After(Next(s, Resume(t)), rest);
    if done.cpu.Recheck? {
      OneStep(done);
    } else if done.cpu.Waiting? {
      assert !WakerPending(done);
      TwoSteps(done);
    }
  }

  // ------------------------------------------------------------------ a pause parks the thread

  // Steps of the emulation thread until it waits with no post left.
  function StepsToPark(s: State): nat
    requires !s.cpu.Exited?
  {
    2 * s.tokens + match s.cpu
                   case Waiting => 0
                   case Recheck => 1
                   case Dispatch => 2
                   case _ => 3
  }

  // While the VM stays paused each of its steps brings the thread closer: posts from earlier
  // cycles are eaten by the re-check loop, and then it sleeps.
  lemma PausedThreadParks(s: State)
    requires s.vm.Paused? && !s.cpu.Exited?
    ensures Enabled(s, Cpu) <==> StepsToPark(s) > 0
    ensures Enabled(s, Cpu) ==>
      var n := Next(s, Cpu); n.vm.Paused? && !n.cpu.Exited? && StepsToPark(n) < StepsToPark(s)
    ensures StepsToPark(s) == 0 <==> s.cpu.Waiting? && s.tokens == 0
  {
  }
}
