/**
  `RecursiveMutex`, for any number of threads: an inner lock, an owner word read without it, and
  a nesting depth.  Every read and write of the shared words is a step of its own.
*/
module RecursiveMutex {
  type Tid = nat
  const NOBODY: Tid := 0

  datatype Pc =
    | Outside                     // not inside Lock or Unlock
    | NestLoad                    // Lock: found itself the owner, about to load m_depth
    | NestStore(depth: int)       // Lock: about to store m_depth
    | Blocking                    // Lock: in slock_lock
    | SetOwner                    // Lock: holds the inner lock
    | SetDepth
    | DropLoad                    // Unlock: about to load m_depth
    | DropStore(depth: int)       // Unlock: about to store m_depth
    | ClearOwner                  // Unlock: depth reached zero
    | Release

  // `held` counts the thread's Lock calls that have returned and have no Unlock yet.
  datatype Thread = Thread(pc: Pc, held: nat)

  datatype State = State(
    owner: Tid,                   // m_owner
    depth: int,                   // m_depth
    holder: Tid,                  // who has the inner lock
    threads: map<Tid, Thread>)
  {
    function At(t: Tid): Thread { if t in threads then threads[t] else Thread(Outside, 0) }
    function Move(t: Tid, pc: Pc): State { this.(threads := threads[t := At(t).(pc := pc)]) }
    function Leave(t: Tid, held: nat): State { this.(threads := threads[t := Thread(Outside, held)]) }
  }

  datatype Action = CallLock | CallUnlock | Step

  // Thread identities are never zero, and only a thread that holds the mutex unlocks it.
  predicate Enabled(s: State, t: Tid, a: Action) {
    && t != NOBODY
    && match a
       case CallLock => s.At(t).pc.Outside?
       case CallUnlock => s.At(t).pc.Outside? && s.At(t).held > 0
       case Step => !s.At(t).pc.Outside? && (s.At(t).pc.Blocking? ==> s.holder == NOBODY)
  }

  function Next(s: State, t: Tid, a: Action): State
    requires Enabled(s, t, a)
  {
    var held := s.At(t).held;
    match a
    case CallLock => s.Move(t, if s.owner == t then NestLoad else Blocking)
    case CallUnlock => s.Move(t, DropLoad)
    case Step =>
      match s.At(t).pc
      case NestLoad => s.Move(t, NestStore(s.depth + 1))
      case NestStore(d) => s.(depth := d).Leave(t, held + 1)
      case Blocking => s.(holder := t).Move(t, SetOwner)
      case SetOwner => s.(owner := t).Move(t, SetDepth)
      case SetDepth => s.(depth := 1).Leave(t, held + 1)
      case DropLoad => s.Move(t, DropStore(s.depth - 1))
      case DropStore(d) =>
        if d == 0 then s.(depth := d, threads := s.threads[t := Thread(ClearOwner, 0)])
        else s.(depth := d).Leave(t, if held > 0 then held - 1 else 0)
      case ClearOwner => s.(owner := NOBODY).Move(t, Release)
      case Release => s.(holder := NOBODY).Leave(t, held)
      case Outside => s
  }

  const INIT: State := State(NOBODY, 0, NOBODY, map[])

  // What each thread may rely on at each point.
  ghost predicate ThreadFits(s: State, t: Tid) {
    var th := s.At(t);
    match th.pc
    case Outside =>
      if th.held > 0 then s.holder == t && s.owner == t && s.depth == th.held
      else s.holder != t && s.owner != t
    case NestLoad => th.held > 0 && s.holder == t && s.owner == t && s.depth == th.held
    case NestStore(d) => th.held > 0 && s.holder == t && s.owner == t && s.depth == th.held && d == th.held + 1
    case Blocking => th.held == 0 && s.holder != t && s.owner != t
    case SetOwner => th.held == 0 && s.holder == t && s.owner == NOBODY && s.depth == 0
    case SetDepth => th.held == 0 && s.holder == t && s.owner == t && s.depth == 0
    case DropLoad => th.held > 0 && s.holder == t && s.owner == t && s.depth == th.held
    case DropStore(d) => th.held > 0 && s.holder == t && s.owner == t && d == th.held - 1
    case ClearOwner => th.held == 0 && s.holder == t && s.owner == t && s.depth == 0
    case Release => th.held == 0 && s.holder == t && s.owner == NOBODY && s.depth == 0
  }

  ghost predicate Inv(s: State) {
    && NOBODY !in s.threads
    && (s.owner != NOBODY ==> s.owner == s.holder)
    && (s.holder == NOBODY ==> s.depth == 0)
    && forall t :: t != NOBODY ==> ThreadFits(s, t)
  }

  lemma StepKeepsInv(s: State, t: Tid, a: Action)
    requires Inv(s) && Enabled(s, t, a)
    ensures Inv(Next(s, t, a))
  {
    var n := Next(s, t, a);
    assert ThreadFits(s, t);
    assert ThreadFits(n, t);
    forall u | u != NOBODY && u != t ensures ThreadFits(n, u) {
      assert ThreadFits(s, u) && n.At(u) == s.At(u);
    }
  }

  ghost predicate ValidRun(s: State, run: seq<(Tid, Action)>)
    decreases |run|
  {
    run == [] || (Enabled(s, run[0].0, run[0].1) && ValidRun(Next(s, run[0].0, run[0].1), run[1..]))
  }

  ghost function After(s: State, run: seq<(Tid, Action)>): State
    requires ValidRun(s, run)
    decreases |run|
  {
    if run == [] then s else After(Next(s, run[0].0, run[0].1), run[1..])
  }

  lemma {:induction false} RunKeepsInv(s: State, run: seq<(Tid, Action)>)
    requires Inv(s) && ValidRun(s, run)
    ensures Inv(After(s, run))
    decreases |run|
  {
    if run != [] {
      StepKeepsInv(s, run[0].0, run[0].1);
      RunKeepsInv(Next(s, run[0].0, run[0].1), run[1..]);
    }
  }

  // In every interleaving: a thread that reads its own identity in the owner word holds the inner
  // lock, so the unlocked check is sound; at most one thread holds the mutex; and the depth is
  // the number of that thread's outstanding Lock calls.
  lemma MutualExclusion(run: seq<(Tid, Action)>, t: Tid, u: Tid)
    requires ValidRun(INIT, run) && t != NOBODY && u != NOBODY
    ensures var s := After(INIT, run);
            && (s.owner == t ==> s.holder == t)
            && (s.At(t).held > 0 && s.At(u).held > 0 ==> t == u)
            && (s.At(t).held > 0 ==> s.owner == t && s.holder == t)
            && (s.At(t).held > 0 && s.At(t).pc.Outside? ==> s.depth == s.At(t).held)
            && (s.At(t).held == 0 && s.At(t).pc.Outside? ==> s.owner != t)
            && (s.holder == NOBODY ==> s.owner == NOBODY && s.depth == 0)
  {
    assert forall v :: v != NOBODY ==> ThreadFits(INIT, v);
    RunKeepsInv(INIT, run);
    var s := After(INIT, run);
    assert ThreadFits(s, t) && ThreadFits(s, u);
  }

  // ------------------------------------------------------------------ what the calls achieve

  predicate Locking(pc: Pc) { pc.NestLoad? || pc.NestStore? || pc.Blocking? || pc.SetOwner? || pc.SetDepth? }
  predicate Unlocking(pc: Pc) { pc.DropLoad? || pc.DropStore? || pc.ClearOwner? || pc.Release? }

  // A Lock or Unlock by t under way, or returned: what t will hold is `goal`.
  predicate LeadsTo(th: Thread, goal: nat) {
    || (th.pc.Outside? && th.held == goal)
    || (Locking(th.pc) && th.held + 1 == goal)
    || ((th.pc.DropLoad? || th.pc.DropStore?) && th.held == goal + 1)
    || ((th.pc.ClearOwner? || th.pc.Release?) && goal == 0)
  }

  // Own steps still to come.
  function CallRank(pc: Pc): nat {
    match pc
    case Outside => 0
    case NestLoad => 2
    case NestStore(_) => 1
    case Blocking => 3
    case SetOwner => 2
    case SetDepth => 1
    case DropLoad => 4
    case DropStore(_) => 3
    case ClearOwner => 2
    case Release => 1
  }

  lemma OwnStepLeadsOn(s: State, t: Tid, goal: nat)
    requires ThreadFits(s, t) && Enabled(s, t, Step) && LeadsTo(s.At(t), goal)
    ensures LeadsTo(Next(s, t, Step).At(t), goal)
    ensures CallRank(Next(s, t, Step).At(t).pc) < CallRank(s.At(t).pc)
  {
  }

  predicate CallBy(step: (Tid, Action), t: Tid) { step.0 == t && !step.1.Step? }

  predicate NoCallBy(run: seq<(Tid, Action)>, t: Tid) {
    run == [] || (!CallBy(run[0], t) && NoCallBy(run[1..], t))
  }

  lemma {:induction false} RunLeadsOn(s: State, run: seq<(Tid, Action)>, t: Tid, goal: nat)
    requires Inv(s) && ValidRun(s, run) && t != NOBODY && NoCallBy(run, t) && LeadsTo(s.At(t), goal)
    ensures Inv(After(s, run)) && LeadsTo(After(s, run).At(t), goal)
    decreases |run|
  {
    if run != [] {
      StepKeepsInv(s, run[0].0, run[0].1);
      assert ThreadFits(s, t);
      if run[0].0 == t {
        OwnStepLeadsOn(s, t, goal);
      } else {
        assert Next(s, run[0].0, run[0].1).At(t) == s.At(t);
      }
      RunLeadsOn(Next(s, run[0].0, run[0].1), run[1..], t, goal);
    }
  }

  // Whatever the other threads do, a Lock that has returned holds the mutex once more than before,
  // and an Unlock once less; the last Unlock gives up owner word and inner lock.
  lemma CallTakesEffect(s: State, t: Tid, lock: bool, run: seq<(Tid, Action)>)
    requires Inv(s) && Enabled(s, t, if lock then CallLock else CallUnlock)
    requires var called := Next(s, t, if lock then CallLock else CallUnlock);
      ValidRun(called, run) && NoCallBy(run, t) && After(called, run).At(t).pc.Outside?
    ensures var n := After(Next(s, t, if lock then CallLock else CallUnlock), run);
      && n.At(t).held == (if lock then s.At(t).held + 1 else s.At(t).held - 1)
      && (n.At(t).held > 0 <==> n.holder == t) && (n.At(t).held > 0 <==> n.owner == t)
  {
    var call := if lock then CallLock else CallUnlock;
    var goal := if lock then s.At(t).held + 1 else s.At(t).held - 1;
    assert ThreadFits(s, t);
    StepKeepsInv(s, t, call);
    RunLeadsOn(Next(s, t, call), run, t, goal);
    assert ThreadFits(After(Next(s, t, call), run), t);
  }

  // A thread between calls can always lock, and can unlock as long as it owns the mutex.
  lemma CallsArePossible(s: State, t: Tid)
    requires Inv(s) && t != NOBODY && s.At(t).pc.Outside?
    ensures Enabled(s, t, CallLock) && (Enabled(s, t, CallUnlock) <==> s.owner == t)
  {
    assert ThreadFits(s, t);
  }

  // A call is held up only by another thread's lock: in the middle of one, an own step is
  // possible unless the thread is blocked on an inner lock that somebody else has.
  lemma OnlyTheLockHoldsUp(s: State, t: Tid)
    requires Inv(s) && t != NOBODY && !s.At(t).pc.Outside?
    ensures Enabled(s, t, Step) || (s.At(t).pc.Blocking? && s.holder != NOBODY && s.holder != t && s.At(t).held == 0)
  {
    assert ThreadFits(s, t);
  }
}
