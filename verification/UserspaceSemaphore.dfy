/**
  `UserspaceSemaphore` (the branch with a kernel semaphore), for any number of threads: a counter
  changed by single atomic operations, and a kernel semaphore touched only when it is contended.
*/
module UserspaceSemaphore {
  type Tid = nat

  datatype State = State(
    counter: int,                 // m_counter
    sema: nat,                    // m_sema
    posting: set<Tid>,            // Post: fetch_add saw a negative counter, kernel post to come
    waiting: set<Tid>,            // Wait: fetch_sub found no permit, in the kernel wait
    trying: map<Tid, int>,        // TryWait: loaded a positive counter, compare-and-swap to come
    added: nat,                   // permits given: fetch_adds done
    acquired: nat)                // acquisitions completed

  datatype Action =
    | PostAdd(t: Tid) | PostKernel(t: Tid)
    | WaitSub(t: Tid) | WaitWake(t: Tid)
    | TryLoad(t: Tid) | TrySwap(t: Tid)

  predicate Free(s: State, t: Tid) { t !in s.posting && t !in s.waiting && t !in s.trying }

  predicate Enabled(s: State, a: Action) {
    match a
    case PostAdd(t) => Free(s, t)
    case PostKernel(t) => t in s.posting
    case WaitSub(t) => Free(s, t)
    case WaitWake(t) => t in s.waiting && s.sema > 0
    case TryLoad(t) => Free(s, t)
    case TrySwap(t) => t in s.trying
  }

  function Next(s: State, a: Action): State
    requires Enabled(s, a)
  {
    match a
    case PostAdd(t) =>
      s.(counter := s.counter + 1, added := s.added + 1,
         posting := if s.counter < 0 then s.posting + {t} else s.posting)
    case PostKernel(t) => s.(posting := s.posting - {t}, sema := s.sema + 1)
    case WaitSub(t) =>
      if s.counter <= 0
      then s.(counter := s.counter - 1, waiting := s.waiting + {t})
      else s.(counter := s.counter - 1, acquired := s.acquired + 1)
    case WaitWake(t) => s.(sema := s.sema - 1, waiting := s.waiting - {t}, acquired := s.acquired + 1)
    case TryLoad(t) => if s.counter <= 0 then s else s.(trying := s.trying[t := s.counter])
    case TrySwap(t) =>
      var u := s.(trying := s.trying - {t});
      if s.counter == s.trying[t] then u.(counter := s.counter - 1, acquired := s.acquired + 1) else u
  }

  const INIT: State := State(0, 0, {}, {}, map[], 0, 0)

  ghost predicate Inv(s: State) {
    && |s.waiting| == (if s.counter < 0 then -s.counter else 0) + s.sema + |s.posting|
    && s.counter == s.added - s.acquired - |s.waiting|
    && forall t :: t in s.trying ==> s.trying[t] > 0
  }

  lemma StepKeepsInv(s: State, a: Action)
    requires Inv(s) && Enabled(s, a)
    ensures Inv(Next(s, a))
  {
  }

  ghost predicate ValidRun(s: State, run: seq<Action>)
    decreases |run|
  {
    run == [] || (Enabled(s, run[0]) && ValidRun(Next(s, run[0]), run[1..]))
  }

  ghost function After(s: State, run: seq<Action>): State
    requires ValidRun(s, run)
    decreases |run|
  {
    if run == [] then s else After(Next(s, run[0]), run[1..])
  }

  lemma {:induction false} RunKeepsInv(s: State, run: seq<Action>)
    requires Inv(s) && ValidRun(s, run)
    ensures Inv(After(s, run))
    decreases |run|
  {
    if run != [] {
      StepKeepsInv(s, run[0]);
      RunKeepsInv(Next(s, run[0]), run[1..]);
    }
  }

  // In every interleaving: the threads committed to the kernel wait are accounted for exactly,
  // no more acquisitions complete than permits were given, and a thread asleep with no token and
  // no post on its way means that every permit given has been taken.
  lemma PermitsConserved(run: seq<Action>)
    requires ValidRun(INIT, run)
    ensures var s := After(INIT, run);
            && |s.waiting| == (if s.counter < 0 then -s.counter else 0) + s.sema + |s.posting|
            && s.acquired + s.sema + |s.posting| + (if s.counter > 0 then s.counter else 0) == s.added
            && (s.waiting != {} && s.sema == 0 && s.posting == {} ==>
                  s.acquired == s.added && s.counter == -|s.waiting|)
  {
    RunKeepsInv(INIT, run);
  }

  // Whenever a permit is free and a thread sleeps, some sleeper can be woken by steps that are
  // already due: a kernel post in flight, or a wake.
  lemma FreePermitWakesSleeper(run: seq<Action>)
    requires ValidRun(INIT, run)
    ensures var s := After(INIT, run);
            s.waiting != {} && s.acquired < s.added ==>
              (exists t :: Enabled(s, PostKernel(t))) || (exists t :: Enabled(s, WaitWake(t)))
  {
    RunKeepsInv(INIT, run);
    var s := After(INIT, run);
    if s.waiting != {} && s.acquired < s.added {
      if s.posting != {} {
        var t :| t in s.posting;
        assert Enabled(s, PostKernel(t));
      } else {
        var t :| t in s.waiting;
        assert Enabled(s, WaitWake(t));
      }
    }
  }

  // ------------------------------------------------------------------ what the calls achieve

  // TryWait fails only on a load that found no permit; it never sleeps.
  lemma TryWaitFailsOnlyEmpty(s: State, t: Tid)
    requires Inv(s) && Free(s, t)
    ensures t !in Next(s, TryLoad(t)).trying <==> s.counter <= 0
    ensures s.counter <= 0 ==> Next(s, TryLoad(t)) == s
  {
  }

  // With a permit free and nobody else in between it takes it.
  lemma TryWaitAlone(s: State, t: Tid)
    requires Inv(s) && Free(s, t) && s.counter > 0
    ensures var loaded := Next(s, TryLoad(t));
      && Enabled(loaded, TrySwap(t))
      && Next(loaded, TrySwap(t)) == s.(counter := s.counter - 1, acquired := s.acquired + 1)
  {
    assert s.trying[t := s.counter] - {t} == s.trying;
  }

  // Its swap succeeds exactly if the counter holds what was loaded, and then takes one permit; if
  // not, it is back where it can load again.
  lemma TrySwapIsExact(s: State, t: Tid)
    requires Inv(s) && t in s.trying
    ensures var n := Next(s, TrySwap(t));
      && t !in n.trying && n.waiting == s.waiting
      && (n.acquired == s.acquired + 1 <==> s.counter == s.trying[t])
      && (n.acquired == s.acquired ==> n.counter == s.counter)
      && n.counter + n.acquired == s.counter + s.acquired
  {
  }

  // Wait takes a free permit without going to sleep, and sleeps exactly when there is none.
  lemma WaitSleepsIff(s: State, t: Tid)
    requires Inv(s) && Free(s, t)
    ensures var n := Next(s, WaitSub(t));
      && (t in n.waiting <==> s.counter <= 0)
      && n.acquired == s.acquired + (if s.counter > 0 then 1 else 0)
      && n.counter == s.counter - 1
  {
  }

  // A Post to a contended semaphore lets one sleeper through, whichever wakes.
  lemma PostLetsOneThrough(s: State, t: Tid, u: Tid)
    requires Inv(s) && Free(s, t) && u in s.waiting && s.counter < 0
    ensures var added := Next(s, PostAdd(t));
      && Enabled(added, PostKernel(t))
      && Enabled(Next(added, PostKernel(t)), WaitWake(u))
      && Next(Next(added, PostKernel(t)), WaitWake(u)) ==
         s.(counter := s.counter + 1, added := s.added + 1, waiting := s.waiting - {u}, acquired := s.acquired + 1)
  {
    assert s.posting + {t} - {t} == s.posting;
  }

  // An uncontended Post banks a permit, which a Wait then takes back.
  lemma PostThenWait(s: State, t: Tid)
    requires Inv(s) && Free(s, t) && s.counter >= 0
    ensures var posted := Next(s, PostAdd(t));
      && Free(posted, t) && posted.counter == s.counter + 1
      && Next(posted, WaitSub(t)) == s.(added := s.added + 1, acquired := s.acquired + 1)
  {
  }
}
