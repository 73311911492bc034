/**
  The worker/producer handshake `Threading::WorkSema`.

  One 32-bit word carries the worker's state, a count of unacknowledged notifications and the
  flag of a thread sleeping in `WaitForEmpty`; two kernel semaphores do the sleeping.  The model
  is an interleaving transition system whose steps are single atomic operations: one worker, any
  number of `NotifyOfWork` calls in flight, and one `WaitForEmpty` caller at a time.
  A step is described by an `Action`: `Enabled` says when it can be taken, `Next` what it does.
*/
module WorkSema {
  const STATE_SPINNING: int := -2
  const STATE_SLEEPING: int := -1
  const STATE_RUNNING_0: int := 0
  const FLAG_WAITING_EMPTY: int := 0x4000_0000
  const INT32_MIN: int := -0x8000_0000
  // Notifications allowed between two acknowledgements; one more could reach the flag bit.
  const MAX_UNACKED: nat := 0x1FFF_FFFF

  type Item = nat

  // The operations on the word, written over the integers of a signed 32-bit word.
  function FetchAdd2(v: int): int { if v + 2 > 0x7FFF_FFFF then v + 2 - 0x1_0000_0000 else v + 2 }

  // value & (STATE_FLAG_WAITING_EMPTY - 1)
  function CountBits(v: int): int {
    if v >= FLAG_WAITING_EMPTY then v - FLAG_WAITING_EMPTY
    else if v >= 0 then v
    else if v >= -FLAG_WAITING_EMPTY then v + FLAG_WAITING_EMPTY
    else v - INT32_MIN
  }

  // value & STATE_FLAG_WAITING_EMPTY: bit 30, which every word from -2^30 to -1 has set too
  function FlagBit(v: int): int {
    if v >= FLAG_WAITING_EMPTY || -FLAG_WAITING_EMPTY <= v < 0 then FLAG_WAITING_EMPTY else 0
  }

  // value | STATE_FLAG_WAITING_EMPTY
  function WithFlag(v: int): int { if FlagBit(v) == 0 then v + FLAG_WAITING_EMPTY else v }

  // The two masks split a word as division and remainder by 2^30 do, on every 32-bit word.
  lemma MasksAreDivMod(v: int)
    requires INT32_MIN <= v < 0x8000_0000
    ensures CountBits(v) == v % FLAG_WAITING_EMPTY
    ensures FlagBit(v) == (v / FLAG_WAITING_EMPTY) % 2 * FLAG_WAITING_EMPTY
    ensures CountBits(WithFlag(v)) == CountBits(v) && FlagBit(WithFlag(v)) == FLAG_WAITING_EMPTY
  {
  }

  // fetch_add wraps as a signed 32-bit word does.
  lemma FetchAddWraps(v: int)
    requires INT32_MIN <= v < 0x8000_0000
    ensures INT32_MIN <= FetchAdd2(v) < 0x8000_0000 && (FetchAdd2(v) - v - 2) % 0x1_0000_0000 == 0
  {
  }

  predicate IsDead(v: int) { v < STATE_SPINNING }

  // Where the worker thread is.  Between operations it is Draining, Processing or Ready.
  datatype WorkerPc =
    | Draining                    // working through the queue
    | Processing(item: Item)      // has taken an item off the queue
    | Ready                       // found the queue empty, about to call an operation
    | CheckRetry                  // CheckForWork, about to load again
    | CheckCas(value: int)        // CheckForWork, loaded value
    | CheckPost                   // CheckForWork, about to post m_empty_sema
    | WaitRetry(timed: bool)      // WaitForWork / WaitForWorkTimed, about to load again
    | WaitCas(value: int, timed: bool)
    | IdlePost(timed: bool)       // state already idle, about to post m_empty_sema
    | Spin(left: nat)             // read-only spin; at 0 it demotes to SLEEPING
    | Sleep(timed: bool)          // in m_sema.Wait / WaitFor
    | TimedOut                    // WaitFor returned false
    | Ack                         // about to AND the word with the flag
    | KillPost                    // killed, about to post m_empty_sema
    | Stopped                     // killed

  datatype WaiterPc = AtLoad | AtCas(value: int) | AtWait | AtRecheck | Returned(ok: bool)

  // `snap` records the items already notified when the call began.
  datatype Waiter = Away | Call(pc: WaiterPc, snap: set<Item>)

  datatype State = State(
    word: int,                    // m_state
    sema: nat,                    // m_sema
    emptySema: nat,               // m_empty_sema
    spinBudget: nat,
    worker: WorkerPc,
    waiter: Waiter,
    unsent: set<Item>,             // queued by a producer, fetch_add still to come
    posting: set<Item>,           // fetch_add saw SLEEPING, m_sema.Post still to come
    finished: set<Item>,          // NotifyOfWork returned
    queue: set<Item>,
    processed: set<Item>,
    unacked: nat,                 // notifications since the count was last cleared
    raced: bool)                  // a notification has beaten a timeout
  {
    function Notified(): set<Item> { posting + finished }
    function InHand(): set<Item> { if worker.Processing? then {worker.item} else {} }
    // The word an idle worker leaves behind, and where it goes to wait.
    function IdleWord(timed: bool): int {
      if !timed && spinBudget > 0 then STATE_SPINNING else STATE_SLEEPING
    }
    function IdlePc(timed: bool): WorkerPc {
      if !timed && spinBudget > 0 then Spin(spinBudget) else Sleep(timed)
    }
    predicate Parking() {
      worker.Sleep? || worker.TimedOut? || (worker.IdlePost? && IdleWord(worker.timed) == STATE_SLEEPING)
    }
  }

  datatype Action =
    // NotifyOfWork
    | Publish(item: Item) | FetchAdd(item: Item) | PostWork(item: Item)
    // the worker
    | TakeItem(item: Item) | FinishItem | SeeEmpty
    | CheckLoad | CheckTry | CheckPostEmpty
    | WaitLoad(timed: bool) | WaitTry | WaitPostEmpty
    | SpinLoad | Demote | Wake | TimeOut | TimeOutTry | Acknowledge
    | Kill | KillPostEmpty | Reset
    // WaitForEmpty
    | EmptyCall | EmptyLoad | EmptyTry | EmptyWake | EmptyRecheck
  {
    predicate ByProducer() { Publish? || FetchAdd? || PostWork? }
    predicate ByWaiter() { EmptyCall? || EmptyLoad? || EmptyTry? || EmptyWake? || EmptyRecheck? }
    predicate ByWorker() { !ByProducer() && !ByWaiter() }
  }

  predicate Enabled(s: State, a: Action) {
    match a
    case Publish(i) => i !in s.unsent + s.posting + s.finished
    case FetchAdd(i) => i in s.unsent && s.unacked < MAX_UNACKED
    case PostWork(i) => i in s.posting
    case TakeItem(i) => s.worker.Draining? && i in s.queue
    case FinishItem => s.worker.Processing?
    case SeeEmpty => s.worker.Draining? && s.queue == {}
    case CheckLoad => s.worker.Ready? || s.worker.CheckRetry? || s.worker.Stopped?
    case CheckTry => s.worker.CheckCas?
    case CheckPostEmpty => s.worker.CheckPost?
    case WaitLoad(t) => s.worker.Ready? || s.worker == WaitRetry(t) || s.worker.Stopped?
    case WaitTry => s.worker.WaitCas?
    case WaitPostEmpty => s.worker.IdlePost?
    case SpinLoad => s.worker.Spin? && s.worker.left > 0
    case Demote => s.worker == Spin(0)
    case Wake => s.worker.Sleep? && s.sema > 0
    case TimeOut => s.worker == Sleep(true)
    case TimeOutTry => s.worker.TimedOut?
    case Acknowledge => s.worker.Ack?
    case Kill => s.worker.Ready? || s.worker.Draining? || s.worker.Stopped?
    case KillPostEmpty => s.worker.KillPost?
    case Reset => s.worker.Stopped?
    case EmptyCall => s.waiter.Away? || s.waiter.pc.Returned?
    case EmptyLoad => s.waiter.Call? && s.waiter.pc.AtLoad?
    case EmptyTry => s.waiter.Call? && s.waiter.pc.AtCas?
    case EmptyWake => s.waiter.Call? && s.waiter.pc.AtWait? && s.emptySema > 0
    case EmptyRecheck => s.waiter.Call? && s.waiter.pc.AtRecheck?
  }

  function NextProducer(s: State, a: Action): State
    requires a.ByProducer() && Enabled(s, a)
  {
    match a
    case Publish(i) => s.(unsent := s.unsent + {i}, queue := s.queue + {i})
    case FetchAdd(i) =>
      var t := s.(word := FetchAdd2(s.word), unsent := s.unsent - {i}, unacked := s.unacked + 1);
      if s.word == STATE_SLEEPING then t.(posting := s.posting + {i}) else t.(finished := s.finished + {i})
    case PostWork(i) => s.(sema := s.sema + 1, posting := s.posting - {i}, finished := s.finished + {i})
  }

  function NextWaiter(s: State, a: Action): State
    requires a.ByWaiter() && Enabled(s, a)
  {
    match a
    case EmptyCall => s.(waiter := Call(AtLoad, s.Notified()))
    case EmptyLoad =>
      s.(waiter := s.waiter.(pc := if s.word < 0 then Returned(!IsDead(s.word)) else AtCas(s.word)))
    case EmptyTry =>
      if s.word == s.waiter.pc.value
      then s.(word := WithFlag(s.word), waiter := s.waiter.(pc := AtWait))
      else s.(waiter := s.waiter.(pc := AtLoad))
    case EmptyWake => s.(emptySema := s.emptySema - 1, waiter := s.waiter.(pc := AtRecheck))
    case EmptyRecheck => s.(waiter := s.waiter.(pc := Returned(!IsDead(s.word))))
  }

  // CheckForWork's compare-and-swap, when it succeeds.
  function CheckSwap(s: State, value: int): State {
    if CountBits(value) == STATE_RUNNING_0
    then s.(word := STATE_RUNNING_0, unacked := 0, worker := if FlagBit(value) != 0 then CheckPost else Ready)
    else s.(word := FlagBit(value), unacked := 0, worker := Draining)
  }

  // The compare-and-swap of WaitForWork and WaitForWorkTimed, when it succeeds.
  function WaitSwap(s: State, value: int, timed: bool): State {
    if CountBits(value) == STATE_RUNNING_0
    then s.(word := s.IdleWord(timed), unacked := 0,
            worker := if FlagBit(value) != 0 then IdlePost(timed) else s.IdlePc(timed))
    else s.(word := FlagBit(value), unacked := 0, worker := if timed then Ack else Draining)
  }

  function NextWorker(s: State, a: Action): State
    requires a.ByWorker() && Enabled(s, a)
  {
    match a
    case TakeItem(i) => s.(worker := Processing(i), queue := s.queue - {i})
    case FinishItem => s.(worker := Draining, processed := s.processed + {s.worker.item})
    case SeeEmpty => s.(worker := Ready)
    case CheckLoad => if IsDead(s.word) then s else s.(worker := CheckCas(s.word))
    case CheckTry =>
      if s.word == s.worker.value then CheckSwap(s, s.word) else s.(worker := CheckRetry)
    case CheckPostEmpty => s.(emptySema := s.emptySema + 1, worker := Ready)
    case WaitLoad(t) => if IsDead(s.word) then s else s.(worker := WaitCas(s.word, t))
    case WaitTry =>
      if s.word == s.worker.value then WaitSwap(s, s.word, s.worker.timed)
      else s.(worker := WaitRetry(s.worker.timed))
    case WaitPostEmpty => s.(emptySema := s.emptySema + 1, worker := s.IdlePc(s.worker.timed))
    case SpinLoad => s.(worker := if s.word != STATE_SPINNING then Ack else Spin(s.worker.left - 1))
    case Demote =>
      if s.word == STATE_SPINNING then s.(word := STATE_SLEEPING, worker := Sleep(false))
      else s.(worker := Ack)
    case Wake => s.(sema := s.sema - 1, worker := Ack)
    case TimeOut => s.(worker := TimedOut)
    case TimeOutTry =>
      if s.word == STATE_SLEEPING then s.(word := STATE_RUNNING_0, worker := Ready)
      else s.(worker := Ack, raced := true)
    case Acknowledge => s.(word := FlagBit(s.word), unacked := 0, worker := Draining)
    case Kill =>
      s.(word := INT32_MIN, unacked := 0,
         worker := if FlagBit(s.word) != 0 then KillPost else Stopped)
    case KillPostEmpty => s.(emptySema := s.emptySema + 1, worker := Stopped)
    case Reset => s.(word := STATE_RUNNING_0, unacked := 0, worker := Draining)
  }

  function Next(s: State, a: Action): State
    requires Enabled(s, a)
  {
    if a.ByProducer() then NextProducer(s, a)
    else if a.ByWaiter() then NextWaiter(s, a)
    else NextWorker(s, a)
  }

  function Init(spinBudget: nat): State {
    State(STATE_RUNNING_0, 0, 0, spinBudget, Ready, Away, {}, {}, {}, {}, {}, 0, false)
  }

  ghost predicate ValidRun(s: State, run: seq<Action>)
    decreases |run|
  {
    run == [] || (Enabled(s, run[0]) && ValidRun(Next(s, run[0]), run[1..]))
  }

  ghost function After(s: State, run: seq<Action>): State
    requires ValidRun(s, run)
    decreases |run|
  {
    if run == [] then s else After(Next(s, run[0]), run[1..])
  }

  // ------------------------------------------------------------------ the invariant

  // Every published item is queued, in the worker's hand or processed, and in one place only.
  ghost predicate ItemsConserved(s: State) {
    && s.unsent !! s.posting !! s.finished
    && s.queue !! s.processed !! s.InHand()
    && s.unsent + s.posting + s.finished == s.queue + s.processed + s.InHand()
  }

  ghost predicate WordFits(s: State) {
    && s.unacked <= MAX_UNACKED
    && (s.word >= 0 ==> s.word < 0x8000_0000 && CountBits(s.word) <= 2 * s.unacked)
    && match s.worker
       case IdlePost(t) => s.word == s.IdleWord(t) || s.word >= 0
       case Spin(_) => s.word == STATE_SPINNING || s.word >= 0
       case Sleep(_) => s.word == STATE_SLEEPING || s.word >= 0
       case TimedOut => s.word == STATE_SLEEPING || s.word >= 0
       case Ack => s.word >= 0 || (s.raced && s.word == STATE_SLEEPING)
       case KillPost => INT32_MIN <= s.word <= INT32_MIN + 2 * s.unacked
       case Stopped => INT32_MIN <= s.word <= INT32_MIN + 2 * s.unacked
       case _ => s.word >= 0
  }

  // The word counts the notifications since it was last cleared: an idle word has gone negative to
  // non-negative with the first of them, any other holds two for each.
  ghost predicate CountsExactly(s: State) {
    match s.worker
    case IdlePost(_) => s.word < 0 <==> s.unacked == 0
    case Spin(_) => s.word < 0 <==> s.unacked == 0
    case Sleep(_) => s.word < 0 <==> s.unacked == 0
    case TimedOut => s.word < 0 <==> s.unacked == 0
    case Ack => true
    case KillPost => true
    case Stopped => true
    case _ => CountBits(s.word) == 2 * s.unacked
  }

  // The word never claims "nothing new" while a notified item sits in the queue unseen.
  ghost predicate NothingMissed(s: State) {
    match s.worker
    case Draining => true
    case Processing(_) => true
    case KillPost => true
    case Stopped => true
    case IdlePost(_) => s.word < 0 ==> s.queue !! s.Notified()
    case Spin(_) => s.word < 0 ==> s.queue !! s.Notified()
    case Sleep(_) => s.word < 0 ==> s.queue !! s.Notified()
    case TimedOut => s.word < 0 ==> s.queue !! s.Notified()
    case Ack => s.word < 0 ==> s.queue !! s.Notified()
    case _ => CountBits(s.word) == 0 ==> s.queue !! s.Notified()
  }

  ghost predicate WakeComing(s: State) {
    s.Parking() && s.word >= 0 ==> s.sema > 0 || s.posting != {}
  }

  // Without a raced timeout, m_sema tokens and pending posts together wake exactly one sleep.
  ghost predicate TokensExact(s: State) {
    !s.raced ==> s.sema + |s.posting| == if s.Parking() && s.word >= 0 then 1 else 0
  }

  // As long as at most one notification has come in since the worker parked, and no token for it,
  // every queued item is one whose own call is still under way.
  ghost predicate FirstNotifierPosts(s: State) {
    s.Parking() && s.sema == 0 && s.word >= 0 && CountBits(s.word) <= 1 ==> s.queue <= s.unsent + s.posting
  }

  function FlagCount(s: State): nat { if s.word >= FLAG_WAITING_EMPTY then 1 else 0 }
  function PendingEmptyPosts(s: State): nat {
    if s.worker.CheckPost? || s.worker.IdlePost? || s.worker.KillPost? then 1 else 0
  }
  function Sleepers(s: State): nat { if s.waiter.Call? && s.waiter.pc.AtWait? then 1 else 0 }

  // Tokens on m_empty_sema, posts the worker still owes and the flag bit add up to the threads
  // asleep in WaitForEmpty.
  ghost predicate EmptyTokensAddUp(s: State) {
    s.emptySema + PendingEmptyPosts(s) + FlagCount(s) == Sleepers(s)
  }

  // A thread asleep in WaitForEmpty has an answer on its way.
  ghost predicate AnswerComing(s: State) {
    Sleepers(s) <= s.emptySema + PendingEmptyPosts(s) + FlagCount(s)
  }

  // What a call asks about had been notified.
  ghost predicate SnapshotNotified(s: State) {
    s.waiter.Call? ==> s.waiter.snap <= s.Notified()
  }

  ghost predicate LoadFits(s: State) {
    s.waiter.Call? && s.waiter.pc.AtCas? ==> s.waiter.pc.value >= 0
  }

  ghost predicate Inv(s: State) {
    && ItemsConserved(s)
    && WordFits(s)
    && LoadFits(s)
    && CountsExactly(s)
    && NothingMissed(s)
    && WakeComing(s)
    && FirstNotifierPosts(s)
    && TokensExact(s)
    && AnswerComing(s)
    && SnapshotNotified(s)
  }

  lemma InitInv(spinBudget: nat)
    ensures Inv(Init(spinBudget))
  {
  }

  // Each part of the invariant needs only the parts its lemma asks for.
  lemma ProducerConservesItems(s: State, a: Action)
    requires ItemsConserved(s) && a.ByProducer() && Enabled(s, a)
    ensures ItemsConserved(NextProducer(s, a))
  {
  }

  lemma WorkerConservesItems(s: State, a: Action)
    requires ItemsConserved(s) && a.ByWorker() && Enabled(s, a)
    ensures ItemsConserved(NextWorker(s, a))
  {
  }

  lemma ItemsStayConserved(s: State, a: Action)
    requires ItemsConserved(s) && Enabled(s, a)
    ensures ItemsConserved(Next(s, a))
  {
    if a.ByProducer() {
      ProducerConservesItems(s, a);
    } else if a.ByWorker() {
      WorkerConservesItems(s, a);
    }
  }

  lemma WorkerKeepsWordFits(s: State, a: Action)
    requires WordFits(s) && a.ByWorker() && Enabled(s, a)
    requires a.Wake? ==> s.raced || s.word >= 0
    ensures WordFits(NextWorker(s, a))
  {
  }

  lemma WorkerKeepsLoadFits(s: State, a: Action)
    requires LoadFits(s) && a.ByWorker() && Enabled(s, a)
    ensures LoadFits(NextWorker(s, a))
  {
  }

  lemma OthersKeepWordFits(s: State, a: Action)
    requires WordFits(s) && LoadFits(s) && !a.ByWorker() && Enabled(s, a)
    ensures WordFits(Next(s, a)) && LoadFits(Next(s, a))
  {
  }

  lemma WorkerCountsExactly(s: State, a: Action)
    requires WordFits(s) && CountsExactly(s) && a.ByWorker() && Enabled(s, a)
    ensures CountsExactly(NextWorker(s, a))
  {
  }

  lemma OthersCountExactly(s: State, a: Action)
    requires WordFits(s) && LoadFits(s) && CountsExactly(s) && !a.ByWorker() && Enabled(s, a)
    ensures CountsExactly(Next(s, a))
  {
  }

  lemma WorkerMissesNothing(s: State, a: Action)
    requires WordFits(s) && NothingMissed(s) && a.ByWorker() && Enabled(s, a)
    ensures NothingMissed(Next(s, a))
  {
  }

  lemma OthersHideNothing(s: State, a: Action)
    requires WordFits(s) && NothingMissed(s) && LoadFits(s) && !a.ByWorker() && Enabled(s, a)
    ensures NothingMissed(Next(s, a))
  {
  }

  lemma WorkerKeepsWakeComing(s: State, a: Action)
    requires WordFits(s) && WakeComing(s) && a.ByWorker() && Enabled(s, a)
    ensures WakeComing(NextWorker(s, a))
  {
  }

  lemma OthersKeepWakeComing(s: State, a: Action)
    requires WordFits(s) && WakeComing(s) && LoadFits(s) && !a.ByWorker() && Enabled(s, a)
    ensures WakeComing(Next(s, a))
  {
  }

  lemma ProducerKeepsFirstNotifier(s: State, a: Action)
    requires ItemsConserved(s) && WordFits(s) && NothingMissed(s) && FirstNotifierPosts(s)
    requires a.ByProducer() && Enabled(s, a)
    ensures FirstNotifierPosts(NextProducer(s, a))
  {
  }

  lemma WorkerKeepsFirstNotifier(s: State, a: Action)
    requires WordFits(s) && FirstNotifierPosts(s) && a.ByWorker() && Enabled(s, a)
    ensures FirstNotifierPosts(NextWorker(s, a))
  {
  }

  lemma WaiterKeepsFirstNotifier(s: State, a: Action)
    requires WordFits(s) && LoadFits(s) && FirstNotifierPosts(s) && a.ByWaiter() && Enabled(s, a)
    ensures FirstNotifierPosts(NextWaiter(s, a))
  {
  }

  lemma ProducerKeepsTokensExact(s: State, a: Action)
    requires s.unsent !! s.posting && WordFits(s) && TokensExact(s) && a.ByProducer() && Enabled(s, a)
    ensures TokensExact(Next(s, a))
  {
  }

  lemma OthersKeepTokensExact(s: State, a: Action)
    requires WordFits(s) && TokensExact(s) && LoadFits(s) && !a.ByProducer() && Enabled(s, a)
    ensures TokensExact(Next(s, a))
  {
  }

  lemma WorkerKeepsAnswerComing(s: State, a: Action)
    requires WordFits(s) && AnswerComing(s) && a.ByWorker() && Enabled(s, a)
    ensures AnswerComing(NextWorker(s, a))
  {
  }

  lemma OthersKeepAnswerComing(s: State, a: Action)
    requires WordFits(s) && LoadFits(s) && AnswerComing(s) && !a.ByWorker() && Enabled(s, a)
    ensures AnswerComing(Next(s, a))
  {
  }

  lemma SnapshotStaysNotified(s: State, a: Action)
    requires SnapshotNotified(s) && Enabled(s, a)
    ensures SnapshotNotified(Next(s, a))
  {
  }

  // Every atomic step of every thread keeps the invariant.
  lemma StepKeepsInv(s: State, a: Action)
    requires Inv(s) && Enabled(s, a)
    ensures Inv(Next(s, a))
  {
    ItemsStayConserved(s, a);
    SnapshotStaysNotified(s, a);
    if a.ByProducer() {
      ProducerKeepsTokensExact(s, a);
      ProducerKeepsFirstNotifier(s, a);
    } else {
      OthersKeepTokensExact(s, a);
    }
    if a.ByWaiter() {
      WaiterKeepsFirstNotifier(s, a);
    }
    if a.ByWorker() {
      WorkerKeepsWordFits(s, a);
      WorkerKeepsLoadFits(s, a);
      WorkerCountsExactly(s, a);
      WorkerKeepsWakeComing(s, a);
      WorkerKeepsFirstNotifier(s, a);
      WorkerKeepsAnswerComing(s, a);
      WorkerMissesNothing(s, a);
    } else {
      OthersKeepWordFits(s, a);
      OthersCountExactly(s, a);
      OthersKeepWakeComing(s, a);
      OthersKeepAnswerComing(s, a);
      OthersHideNothing(s, a);
    }
  }

  lemma {:induction false} RunKeepsInv(s: State, run: seq<Action>)
    requires Inv(s) && ValidRun(s, run)
    ensures Inv(After(s, run))
    decreases |run|
  {
    if run != [] {
      StepKeepsInv(s, run[0]);
      RunKeepsInv(Next(s, run[0]), run[1..]);
    }
  }

  // ------------------------------------------------------------------ no lost wakeup

  // A worker asleep on m_sema with no token: unless a NotifyOfWork call stands between its
  // fetch_add and its Post, no notification at all has been given for any queued item; and unless
  // the word counts two notifications or more, every queued item's own call is still under way.
  // This holds in every interleaving, timed waits and stray tokens included.
  lemma NoLostWakeup(spinBudget: nat, run: seq<Action>)
    requires ValidRun(Init(spinBudget), run)
    ensures var s := After(Init(spinBudget), run);
            s.worker.Sleep? && s.sema == 0 ==>
              && (s.posting == {} ==> s.word == STATE_SLEEPING && s.queue <= s.unsent)
              && (s.word < 0 || CountBits(s.word) <= 1 ==> s.queue <= s.unsent + s.posting)
  {
    InitInv(spinBudget);
    RunKeepsInv(Init(spinBudget), run);
  }

  predicate Alive(s: State) { !s.worker.KillPost? && !s.worker.Stopped? }

  // Steps left to the worker and to calls already past their fetch_add, when nobody adds work,
  // kills the worker or resets it.
  predicate Quiet(a: Action) {
    a.PostWork? || (a.ByWorker() && !a.Kill? && !a.KillPostEmpty? && !a.Reset?)
  }

  // How many quiet steps a notified item can still have to wait.
  function StepsToQueue(s: State): nat {
    match s.worker
    case Draining => 0
    case Processing(_) => 1
    case Ack => 1
    case Spin(_) => 2
    case TimedOut => 2
    case Sleep(_) => 3
    case IdlePost(_) => 4
    case WaitCas(v, _) => if v == s.word then 2 else 4
    case CheckCas(v) => if v == s.word then 2 else 4
    case CheckPost => 4
    case _ => 3
  }

  function Rank(s: State): nat { 2 * |s.queue| + StepsToQueue(s) + |s.posting| }

  // A notified item in the queue shows in the word, unless the worker is about to look anyway.
  ghost predicate ShowsNews(s: State) {
    match s.worker
    case Draining => true
    case Processing(_) => true
    case IdlePost(_) => s.word >= 0
    case Spin(_) => s.word >= 0
    case Sleep(_) => s.word >= 0
    case TimedOut => s.word >= 0
    case Ack => s.word >= 0
    case _ => s.word >= 0 && CountBits(s.word) != 0
  }

  lemma NotifiedShows(s: State, i: Item)
    requires WordFits(s) && NothingMissed(s) && Alive(s)
    requires i in s.queue && i in s.Notified()
    ensures ShowsNews(s)
  {
  }

  lemma QuietStepLowersRank(s: State, a: Action)
    requires ShowsNews(s) && Alive(s) && s.queue != {}
    requires Quiet(a) && Enabled(s, a)
    ensures Rank(Next(s, a)) < Rank(s) && Alive(Next(s, a))
  {
    if a.PostWork? || a.TakeItem? || a.FinishItem? {
      MovingLowersRank(s, a);
    } else {
      LookingLowersRank(s, a);
    }
  }

  lemma MovingLowersRank(s: State, a: Action)
    requires (a.PostWork? || a.TakeItem? || a.FinishItem?) && Alive(s) && Enabled(s, a)
    ensures Rank(Next(s, a)) < Rank(s) && Alive(Next(s, a))
  {
  }

  lemma LookingLowersRank(s: State, a: Action)
    requires ShowsNews(s) && Alive(s) && s.queue != {} && Quiet(a) && Enabled(s, a)
    requires !a.PostWork? && !a.TakeItem? && !a.FinishItem?
    ensures Rank(NextWorker(s, a)) < Rank(s) && Alive(NextWorker(s, a))
  {
    var t := NextWorker(s, a);
    assert t.queue == s.queue && t.posting == s.posting;
    assert StepsToQueue(t) < StepsToQueue(s);
  }

  // What the worker does next where that hangs on nobody else.
  function WorkerStep(s: State): Action {
    match s.worker
    case Processing(_) => FinishItem
    case Ready => CheckLoad
    case CheckRetry => CheckLoad
    case CheckCas(_) => CheckTry
    case CheckPost => CheckPostEmpty
    case WaitRetry(t) => WaitLoad(t)
    case WaitCas(_, _) => WaitTry
    case IdlePost(_) => WaitPostEmpty
    case Spin(left) => if left > 0 then SpinLoad else Demote
    case TimedOut => TimeOutTry
    case _ => Acknowledge
  }

  // The worker is never stuck while a notified item waits: someone can take a quiet step.
  lemma QuietStepExists(s: State, i: Item)
    requires ItemsConserved(s) && WordFits(s) && NothingMissed(s) && WakeComing(s)
    requires Alive(s) && i in s.Notified() && i !in s.processed
    ensures exists a :: Quiet(a) && Enabled(s, a)
  {
    var a := match s.worker
      case Draining => TakeItem(i)
      case Sleep(_) => if s.sema > 0 then Wake else (var j :| j in s.posting; PostWork(j))
      case _ => WorkerStep(s);
    assert Quiet(a) && Enabled(s, a);
  }

  lemma {:induction false} ProcessedStays(s: State, run: seq<Action>, i: Item)
    requires ValidRun(s, run) && i in s.processed
    ensures i in After(s, run).processed
    decreases |run|
  {
    if run != [] {
      ProcessedStays(Next(s, run[0]), run[1..], i);
    }
  }

  lemma QuietStepKeepsInHand(s: State, a: Action, i: Item)
    requires s.worker == Processing(i) && i in s.Notified() && Quiet(a) && Enabled(s, a)
    ensures i in Next(s, a).Notified() && Alive(Next(s, a))
    ensures i in Next(s, a).processed || (Next(s, a).worker == s.worker && Rank(Next(s, a)) < Rank(s))
  {
    assert a.PostWork? || a.FinishItem?;
  }

  lemma NotifiedStays(s: State, a: Action, i: Item)
    requires Enabled(s, a) && i in s.Notified() && (a.FetchAdd? ==> s.unsent !! s.Notified())
    ensures i in Next(s, a).Notified()
  {
  }

  // One quiet step processes the item or brings it closer.
  lemma QuietProgress(s: State, a: Action, i: Item)
    requires ItemsConserved(s) && WordFits(s) && NothingMissed(s)
    requires Alive(s) && i in s.Notified() && i !in s.processed && Quiet(a) && Enabled(s, a)
    ensures var t := Next(s, a);
      i in t.processed || (Alive(t) && i in t.Notified() && Rank(t) < Rank(s))
  {
    NotifiedStays(s, a, i);
    if i in s.queue {
      NotifiedShows(s, i);
      QuietStepLowersRank(s, a);
    } else {
      QuietStepKeepsInHand(s, a, i);
    }
  }

  predicate QuietRun(run: seq<Action>) { run == [] || (Quiet(run[0]) && QuietRun(run[1..])) }

  // The first step of a run, with what the rest of the run starts from.
  lemma FirstQuietStep(s: State, run: seq<Action>, i: Item) returns (t: State)
    requires Inv(s) && Alive(s) && i in s.Notified() && i !in s.processed
    requires run != [] && ValidRun(s, run) && Quiet(run[0])
    ensures Inv(t) && ValidRun(t, run[1..]) && After(s, run) == After(t, run[1..])
    ensures i in t.processed || (Alive(t) && i in t.Notified() && Rank(t) < Rank(s))
  {
    t := Next(s, run[0]);
    StepKeepsInv(s, run[0]);
    QuietProgress(s, run[0], i);
  }

  // Wherever a run has got to, an item whose fetch_add is done is processed within Rank quiet
  // steps, in whatever order the worker and the pending posts are scheduled.
  lemma {:induction false} NotifiedItemGetsProcessed(s: State, run: seq<Action>, i: Item)
    requires Inv(s) && Alive(s) && i in s.Notified()
    requires ValidRun(s, run) && QuietRun(run) && |run| > Rank(s)
    ensures i in After(s, run).processed
    decreases |run|
  {
    if i in s.processed {
      ProcessedStays(s, run, i);
    } else {
      var t := FirstQuietStep(s, run, i);
      if i in t.processed {
        ProcessedStays(t, run[1..], i);
      } else {
        NotifiedItemGetsProcessed(t, run[1..], i);
      }
    }
  }

  // ------------------------------------------------------------------ empty means processed

  // During one call nothing changes the snapshot.
  lemma {:induction false} SnapshotStays(s: State, run: seq<Action>)
    requires ValidRun(s, run) && s.waiter.Call? && EmptyCall !in run
    ensures After(s, run).waiter.Call? && After(s, run).waiter.snap == s.waiter.snap
    decreases |run|
  {
    if run != [] {
      assert run[0] in run;
      SnapshotStays(Next(s, run[0]), run[1..]);
    }
  }

  // The compare-and-swap that commits a WaitForEmpty call to its sleep.
  predicate Commits(s: State, a: Action)
    requires Enabled(s, a)
  {
    a.EmptyTry? && s.word == s.waiter.pc.value
  }

  predicate Committed(w: Waiter) { w.Call? && (w.pc.AtWait? || w.pc.AtRecheck?) }

  // Everything the call asks about is processed.
  ghost predicate Done(s: State)
    requires s.waiter.Call?
  {
    s.waiter.snap <= s.processed
  }

  // A token on m_empty_sema, or one about to be posted, that no flag of this call asked for.
  predicate StrayAnswer(s: State) { s.emptySema + PendingEmptyPosts(s) > 0 }

  // A sleeping call is done, or the worker is dead and the answer will be false, or the call's
  // flag stands and no token can reach it before the worker takes that flag down.
  ghost predicate AnswerSound(s: State) {
    s.waiter.Call? ==>
      && (s.waiter.pc.AtWait? ==> Done(s) || IsDead(s.word) || (FlagCount(s) == 1 && !StrayAnswer(s)))
      && (s.waiter.pc.AtRecheck? ==> Done(s) || IsDead(s.word))
      && (s.waiter.pc == Returned(true) ==> Done(s))
  }

  // The two steps that can spoil an answer while something the call asks about is undone: a
  // commit that meets a stray token, and a Reset under a committed call.
  ghost predicate Spoils(s: State, a: Action)
    requires Enabled(s, a)
  {
    || (Commits(s, a) && StrayAnswer(s) && !Done(s))
    || (a.Reset? && Committed(s.waiter) && !Done(s))
  }

  lemma WorkerKeepsAnswerSound(s: State, a: Action)
    requires ItemsConserved(s) && WordFits(s) && NothingMissed(s) && SnapshotNotified(s)
    requires AnswerSound(s) && a.ByWorker() && Enabled(s, a) && !Spoils(s, a)
    ensures AnswerSound(NextWorker(s, a))
  {
  }

  lemma OthersKeepAnswerSound(s: State, a: Action)
    requires ItemsConserved(s) && WordFits(s) && NothingMissed(s) && SnapshotNotified(s)
    requires AnswerSound(s) && LoadFits(s) && !a.ByWorker() && Enabled(s, a) && !Spoils(s, a)
    ensures AnswerSound(Next(s, a))
  {
  }

  // Every other step keeps all answers sound, whatever went before.
  lemma StepKeepsAnswerSound(s: State, a: Action)
    requires Inv(s) && AnswerSound(s) && Enabled(s, a) && !Spoils(s, a)
    ensures AnswerSound(Next(s, a))
  {
    if a.ByWorker() {
      WorkerKeepsAnswerSound(s, a);
    } else {
      OthersKeepAnswerSound(s, a);
    }
  }

  ghost predicate NothingSpoils(s: State, run: seq<Action>)
    requires ValidRun(s, run)
    decreases |run|
  {
    run != [] ==> !Spoils(s, run[0]) && NothingSpoils(Next(s, run[0]), run[1..])
  }

  lemma {:induction false} RunKeepsAnswerSound(s: State, run: seq<Action>)
    requires Inv(s) && AnswerSound(s) && ValidRun(s, run) && NothingSpoils(s, run)
    ensures AnswerSound(After(s, run))
    decreases |run|
  {
    if run != [] {
      StepKeepsInv(s, run[0]);
      StepKeepsAnswerSound(s, run[0]);
      RunKeepsAnswerSound(Next(s, run[0]), run[1..]);
    }
  }

  // WaitForEmpty returning true means that every item notified before the call is processed, in
  // every run in which neither the call's own commit nor a Reset spoils it: whatever was raced or
  // forged before the call, and whether or not the worker is killed during it.
  lemma EmptyMeansProcessed(spinBudget: nat, before: seq<Action>, during: seq<Action>)
    requires ValidRun(Init(spinBudget), before) && Enabled(After(Init(spinBudget), before), EmptyCall)
    requires var called := Next(After(Init(spinBudget), before), EmptyCall);
      ValidRun(called, during) && NothingSpoils(called, during)
    requires EmptyCall !in during
    ensures var asked := After(Init(spinBudget), before).Notified();
      var s := After(Next(After(Init(spinBudget), before), EmptyCall), during);
      s.waiter.Call? && (s.waiter.pc == Returned(true) ==> asked <= s.processed)
  {
    InitInv(spinBudget);
    RunKeepsInv(Init(spinBudget), before);
    var s := After(Init(spinBudget), before);
    StepKeepsInv(s, EmptyCall);
    SnapshotStays(Next(s, EmptyCall), during);
    RunKeepsAnswerSound(Next(s, EmptyCall), during);
  }

  // Whatever follows, as long as this call lasts and no Reset comes in: if it answers true, what
  // it asks about is processed.
  ghost predicate EveryAnswerSound(s: State) {
    forall run :: ValidRun(s, run) && EmptyCall !in run && Reset !in run ==> TrueMeansDone(After(s, run))
  }

  ghost predicate TrueMeansDone(s: State) {
    s.waiter.Call? && (s.waiter.pc == Returned(true) ==> Done(s))
  }

  predicate Decided(w: Waiter) { Committed(w) || (w.Call? && w.pc.Returned?) }

  lemma {:induction false} CommittedStaysSound(s: State, run: seq<Action>)
    requires Inv(s) && AnswerSound(s) && ValidRun(s, run) && EmptyCall !in run && Reset !in run
    requires Decided(s.waiter)
    ensures TrueMeansDone(After(s, run))
    decreases |run|
  {
    if run != [] {
      assert run[0] in run;
      StepKeepsInv(s, run[0]);
      StepKeepsAnswerSound(s, run[0]);
      StaysDecided(s, run[0]);
      CommittedStaysSound(Next(s, run[0]), run[1..]);
    }
  }

  lemma StaysDecided(s: State, a: Action)
    requires Enabled(s, a) && !a.EmptyCall? && Decided(s.waiter)
    ensures Decided(Next(s, a).waiter)
  {
  }

  lemma SoundFromHere(s: State)
    requires Inv(s) && AnswerSound(s) && Decided(s.waiter)
    ensures EveryAnswerSound(s)
  {
    forall run | ValidRun(s, run) && EmptyCall !in run && Reset !in run ensures TrueMeansDone(After(s, run)) {
      CommittedStaysSound(s, run);
    }
  }

  // A committed call that meets a stray answer with something undone: the token is posted if it
  // is still owed, ends the sleep, and the answer is true.
  lemma StrayAnswerIsTaken(t: State) returns (run: seq<Action>)
    requires WordFits(t) && t.waiter.Call? && t.waiter.pc.AtWait? && !Done(t)
    requires StrayAnswer(t) && t.word >= 0
    ensures ValidRun(t, run) && EmptyCall !in run && Reset !in run && !TrueMeansDone(After(t, run))
  {
    if t.emptySema > 0 {
      run := TokenIsTaken(t);
    } else {
      var post := if t.worker.CheckPost? then CheckPostEmpty else WaitPostEmpty;
      var rest := TokenIsTaken(Next(t, post));
      run := [post] + rest;
      assert run[1..] == rest;
    }
  }

  lemma TokenIsTaken(t: State) returns (run: seq<Action>)
    requires t.waiter.Call? && t.waiter.pc.AtWait? && !Done(t) && t.emptySema > 0 && t.word >= 0
    ensures ValidRun(t, run) && EmptyCall !in run && Reset !in run && !TrueMeansDone(After(t, run))
  {
    var woken := Next(t, EmptyWake);
    var rest := RecheckAnswersTrue(woken);
    run := [EmptyWake] + rest;
    assert run[1..] == rest;
  }

  lemma RecheckAnswersTrue(t: State) returns (run: seq<Action>)
    requires t.waiter.Call? && t.waiter.pc.AtRecheck? && !Done(t) && t.word >= 0
    ensures ValidRun(t, run) && EmptyCall !in run && Reset !in run && !TrueMeansDone(After(t, run))
  {
    run := [EmptyRecheck];
    var answered := Next(t, EmptyRecheck);
    assert run[1..] == [] && ValidRun(answered, []) && After(answered, []) == answered;
  }

  // The exact condition, tested where the call commits: its answer is sound in every continuation
  // without a Reset if and only if no token is banked or owed at that moment, or nothing it asks
  // about is undone.
  lemma CommittedCallIsSoundIff(s: State)
    requires Inv(s) && Enabled(s, EmptyTry) && Commits(s, EmptyTry)
    ensures EveryAnswerSound(Next(s, EmptyTry)) <==> !StrayAnswer(s) || Done(s)
  {
    var t := Next(s, EmptyTry);
    StepKeepsInv(s, EmptyTry);
    if !StrayAnswer(s) || Done(s) {
      SoundFromHere(t);
    } else {
      var run := StrayAnswerIsTaken(t);
    }
  }

  lemma KilledWorkerHasPosted(s: State)
    requires WordFits(s) && AnswerComing(s) && s.worker.Stopped? && s.waiter.Call? && s.waiter.pc.AtWait?
    ensures s.emptySema > 0
  {
  }

  // And for a Reset under a committed call: the answer is sound in every continuation if and only
  // if nothing the call asks about is undone, since the killed worker's token is there already and
  // the word is no longer dead.
  lemma ResetUnderCallIsSoundIff(s: State)
    requires Inv(s) && Enabled(s, Reset) && Committed(s.waiter)
    ensures EveryAnswerSound(Next(s, Reset)) <==> Done(s)
  {
    var t := Next(s, Reset);
    if Done(s) {
      StepKeepsInv(s, Reset);
      SoundFromHere(t);
    } else if s.waiter.pc.AtWait? {
      KilledWorkerHasPosted(s);
      var run := TokenIsTaken(t);
    } else {
      var run := RecheckAnswersTrue(t);
    }
  }

  // A call that finds the worker idle and returns at once is always right.
  lemma ImmediateAnswerIsSound(s: State)
    requires ItemsConserved(s) && WordFits(s) && NothingMissed(s) && SnapshotNotified(s)
    requires Enabled(s, EmptyLoad) && s.word < 0
    ensures TrueMeansDone(Next(s, EmptyLoad))
  {
  }

  // ------------------------------------------------------------------ the answer false

  predicate AnsweredFalse(s: State) { s.waiter.Call? && s.waiter.pc == Returned(false) }

  // WaitForEmpty says false only while the worker is dead.
  lemma FalseMeansDead(s: State, a: Action)
    requires WordFits(s) && Enabled(s, a) && !AnsweredFalse(s) && AnsweredFalse(Next(s, a))
    ensures !Alive(s)
  {
  }

  lemma OnlyKillEndsLife(s: State, a: Action)
    requires Enabled(s, a) && !a.Kill? && Alive(s)
    ensures Alive(Next(s, a))
  {
  }

  lemma {:induction false} WithoutKillNoFalse(s: State, run: seq<Action>)
    requires Inv(s) && Alive(s) && !AnsweredFalse(s) && ValidRun(s, run) && Kill !in run
    ensures !AnsweredFalse(After(s, run))
    decreases |run|
  {
    if run != [] {
      assert run[0] in run;
      StepKeepsInv(s, run[0]);
      OnlyKillEndsLife(s, run[0]);
      if AnsweredFalse(Next(s, run[0])) {
        FalseMeansDead(s, run[0]);
      } else {
        WithoutKillNoFalse(Next(s, run[0]), run[1..]);
      }
    }
  }

  // So the answer false has a Kill before it.
  lemma FalseMeansKilled(spinBudget: nat, run: seq<Action>)
    requires ValidRun(Init(spinBudget), run) && AnsweredFalse(After(Init(spinBudget), run))
    ensures Kill in run
  {
    InitInv(spinBudget);
    if Kill !in run {
      WithoutKillNoFalse(Init(spinBudget), run);
    }
  }

  // ------------------------------------------------------------------ what the calls answer

  // CheckForWork, when its compare-and-swap succeeds: true (the worker goes back to its queue)
  // if and only if something was notified since the last look; false otherwise, after a post if
  // a waiter's flag was up.  Either way the count starts afresh.
  lemma CheckForWorkAnswers(s: State)
    requires WordFits(s) && CountsExactly(s) && s.worker.CheckCas? && s.word == s.worker.value
    ensures var t := Next(s, CheckTry);
      && t.unacked == 0 && CountBits(t.word) == 0
      && (s.unacked > 0 <==> t.worker.Draining?) && (s.unacked > 0 ==> FlagCount(t) == FlagCount(s))
      && (s.unacked == 0 ==> t.worker == (if FlagCount(s) == 1 then CheckPost else Ready) && t.word == STATE_RUNNING_0)
  {
  }

  lemma CheckForWorkPosts(s: State)
    requires s.worker.CheckPost?
    ensures Enabled(s, CheckPostEmpty)
    ensures Next(s, CheckPostEmpty) == s.(emptySema := s.emptySema + 1, worker := Ready)
  {
  }

  // WaitForWork and WaitForWorkTimed, when theirs succeeds: straight on to work if and only if
  // something was notified since the last look; idle otherwise, with the waiter's post due first.
  lemma WaitForWorkIdlesIff(s: State)
    requires WordFits(s) && CountsExactly(s) && s.worker.WaitCas? && s.word == s.worker.value
    ensures var t, timed := Next(s, WaitTry), s.worker.timed;
      && (s.unacked > 0 <==> t.worker.Draining? || t.worker.Ack?)
      && (s.unacked > 0 ==> FlagCount(t) == FlagCount(s) && (t.worker.Ack? <==> timed))
      && (s.unacked == 0 ==> t.word < 0 && t.worker == if FlagCount(s) == 1 then IdlePost(timed) else s.IdlePc(timed))
  {
  }

  // A wait ends for a notification and nothing else: whenever an idle worker moves on to its
  // acknowledgement something has been notified since it went idle, unless a raced timeout has
  // left a stray token.
  lemma IdleEndsForWork(s: State, a: Action)
    requires WordFits(s) && CountsExactly(s) && TokensExact(s) && Enabled(s, a)
    requires (s.worker.Spin? || s.worker.Sleep? || s.worker.TimedOut?) && Next(s, a).worker.Ack?
    ensures s.unacked > 0 || s.raced
  {
  }

  // Steps a worker with nothing notified can take before it is parked.
  function StepsToPark(s: State): nat {
    match s.worker
    case IdlePost(timed) => if s.IdlePc(timed).Spin? then s.spinBudget + 2 else 1
    case Spin(left) => left + 1
    case _ => 0
  }

  // An idle worker that nobody notifies posts what it owes, spins out its budget and parks: in a
  // timed sleep if it came from the timed wait, and otherwise in one without a timeout.
  lemma IdleWorkerParks(s: State)
    requires s.worker.IdlePost? || s.worker.Spin?
    requires s.word == if s.worker.Spin? then STATE_SPINNING else s.IdleWord(s.worker.timed)
    ensures var a := WorkerStep(s);
      && Enabled(s, a) && a.ByWorker() && StepsToPark(Next(s, a)) < StepsToPark(s)
      && if Next(s, a).worker.Spin? then Next(s, a).word == STATE_SPINNING
         else Next(s, a).word == STATE_SLEEPING && Next(s, a).worker == Sleep(s.worker.IdlePost? && s.worker.timed)
  {
  }

  // WaitForWorkTimed gives up if and only if its timeout found nothing notified; it leaves the
  // word as a running worker with nothing new has it.
  lemma TimedWaitGivesUpIff(s: State)
    requires WordFits(s) && CountsExactly(s) && s.worker.TimedOut?
    ensures var t := Next(s, TimeOutTry);
      && (s.unacked == 0 <==> t.worker.Ready?) && (s.unacked > 0 <==> t.worker.Ack?)
      && (s.unacked == 0 ==> t.word == STATE_RUNNING_0)
  {
  }

  // WaitForEmpty on an idle worker answers true at once, on a killed one false.
  lemma ImmediateAnswers(s: State)
    requires WordFits(s) && CountsExactly(s) && Enabled(s, EmptyLoad)
    ensures (s.worker.Spin? || s.worker.Sleep? || s.worker.TimedOut? || s.worker.IdlePost?) && s.unacked == 0 ==>
      Next(s, EmptyLoad).waiter.pc == Returned(true)
    ensures !Alive(s) ==> Next(s, EmptyLoad).waiter.pc == Returned(false)
  {
  }

  // Otherwise it looks again, and commits as soon as the word has held still.
  lemma CallMovesOn(s: State)
    requires WordFits(s) && LoadFits(s) && s.waiter.Call? && s.word >= 0
    ensures s.waiter.pc.AtLoad? ==> Next(s, EmptyLoad).waiter.pc == AtCas(s.word)
    ensures s.waiter.pc.AtCas? ==>
      Next(s, EmptyTry).waiter.pc == if s.word == s.waiter.pc.value then AtWait else AtLoad
    ensures s.waiter.pc.AtCas? && s.word == s.waiter.pc.value ==> FlagCount(Next(s, EmptyTry)) == 1
  {
  }

  // And once it has its token it answers by the state it finds.
  lemma WokenCallAnswers(s: State)
    requires s.waiter.Call? && s.waiter.pc.AtWait? && s.emptySema > 0
    ensures var woken := Next(s, EmptyWake);
      Enabled(woken, EmptyRecheck)
      && Next(woken, EmptyRecheck) ==
         s.(emptySema := s.emptySema - 1, waiter := Call(Returned(!IsDead(s.word)), s.waiter.snap))
  {
  }

  // ------------------------------------------------------------------ a call takes boundedly many steps

  // Changes of the word still open to the worker when nobody notifies and no timeout strikes.
  function WordChanges(word: int): nat {
    if word >= 0 then 2 + (if CountBits(word) > 0 then 1 else 0) + (if word >= FLAG_WAITING_EMPTY then 1 else 0)
    else if word == STATE_SPINNING then 1 else 0
  }

  function WorkerChanges(s: State): nat {
    WordChanges(s.word) + 4 * (s.sema + |s.posting|) + if s.worker.Ack? && s.word < 0 then 4 else 0
  }

  // Steps a call can take before it commits or returns, if the word holds still.
  function StepsToCommit(s: State): nat
    requires s.waiter.Call?
  {
    match s.waiter.pc
    case AtLoad => 2
    case AtCas(v) => if v == s.word then 1 else 3
    case _ => 0
  }

  function CallRank(s: State): nat
    requires s.waiter.Call?
  {
    2 * WorkerChanges(s) + StepsToCommit(s)
  }

  // Nobody notifies, no timeout strikes and the worker is not killed.
  predicate Untimed(a: Action) { Quiet(a) && !a.TimeOut? && !a.TimeOutTry? }

  predicate InCall(s: State) { s.waiter.Call? && (s.waiter.pc.AtLoad? || s.waiter.pc.AtCas?) }

  lemma WorkerStepKeepsCallRank(s: State, a: Action)
    requires WordFits(s) && Alive(s) && InCall(s) && Untimed(a) && !a.PostWork? && Enabled(s, a)
    ensures var t := NextWorker(s, a); Alive(t) && t.waiter == s.waiter
    ensures CallRank(NextWorker(s, a)) <= CallRank(s)
  {
    var t := NextWorker(s, a);
    assert t.posting == s.posting;
    assert WorkerChanges(t) <= WorkerChanges(s) && (t.word != s.word ==> WorkerChanges(t) < WorkerChanges(s));
  }

  lemma PostKeepsCallRank(s: State, a: Action)
    requires InCall(s) && Alive(s) && a.PostWork? && Enabled(s, a)
    ensures var t := Next(s, a); Alive(t) && t.waiter == s.waiter && CallRank(t) == CallRank(s)
  {
  }

  lemma CallStepLowersRank(s: State, a: Action)
    requires LoadFits(s) && InCall(s) && (a.EmptyLoad? || a.EmptyTry?) && Enabled(s, a)
    ensures InCall(Next(s, a)) ==> CallRank(Next(s, a)) < CallRank(s)
    ensures Alive(s) ==> Alive(Next(s, a))
  {
  }

  function CallSteps(run: seq<Action>): nat {
    if run == [] then 0 else CallSteps(run[1..]) + if run[0].EmptyLoad? || run[0].EmptyTry? then 1 else 0
  }

  predicate UndisturbedRun(run: seq<Action>) {
    run == [] || ((Untimed(run[0]) || run[0].EmptyLoad? || run[0].EmptyTry?) && UndisturbedRun(run[1..]))
  }

  lemma CallProgress(s: State, a: Action)
    requires WordFits(s) && LoadFits(s) && Alive(s) && InCall(s) && Enabled(s, a)
    requires Untimed(a) || a.EmptyLoad? || a.EmptyTry?
    ensures var t := Next(s, a);
      && Alive(t) && t.waiter.Call?
      && (InCall(t) ==> CallRank(t) + (if a.EmptyLoad? || a.EmptyTry? then 1 else 0) <= CallRank(s))
  {
    if a.PostWork? {
      PostKeepsCallRank(s, a);
    } else if a.ByWorker() {
      WorkerStepKeepsCallRank(s, a);
    } else {
      CallStepLowersRank(s, a);
    }
  }

  lemma FirstCallStep(s: State, run: seq<Action>) returns (t: State)
    requires Inv(s) && Alive(s) && InCall(s) && run != [] && ValidRun(s, run) && UndisturbedRun(run)
    ensures Inv(t) && ValidRun(t, run[1..]) && After(s, run) == After(t, run[1..])
    ensures Alive(t) && t.waiter.Call?
    ensures InCall(t) ==> CallRank(t) + CallSteps(run) <= CallRank(s) + CallSteps(run[1..])
  {
    t := Next(s, run[0]);
    StepKeepsInv(s, run[0]);
    CallProgress(s, run[0]);
  }

  lemma {:induction false} LeftStaysLeft(s: State, run: seq<Action>)
    requires ValidRun(s, run) && UndisturbedRun(run) && s.waiter.Call? && !InCall(s)
    ensures After(s, run).waiter.Call? && !InCall(After(s, run))
    decreases |run|
  {
    if run != [] {
      LeftStaysLeft(Next(s, run[0]), run[1..]);
    }
  }

  // Whatever the worker and pending posts do meanwhile, a WaitForEmpty call commits or returns
  // after at most CallRank steps of its own, if nobody notifies and no timeout strikes.
  lemma {:induction false} CallCommitsOrReturns(s: State, run: seq<Action>)
    requires Inv(s) && Alive(s) && InCall(s) && ValidRun(s, run) && UndisturbedRun(run)
    requires CallSteps(run) > CallRank(s)
    ensures After(s, run).waiter.Call? && !InCall(After(s, run))
    decreases |run|
  {
    var t := FirstCallStep(s, run);
    if InCall(t) {
      CallCommitsOrReturns(t, run[1..]);
    } else {
      LeftStaysLeft(t, run[1..]);
    }
  }

  // ------------------------------------------------------------------ token counts

  // The one step that breaks the count of m_empty_sema tokens: acknowledging a word that still
  // says SLEEPING, because a stray token on m_sema ended the sleep.
  predicate Forges(s: State, a: Action) { a.Acknowledge? && s.word == STATE_SLEEPING }

  lemma WorkerTokensAddUpIff(s: State, a: Action)
    requires WordFits(s) && EmptyTokensAddUp(s) && a.ByWorker() && Enabled(s, a)
    ensures EmptyTokensAddUp(NextWorker(s, a)) <==> !Forges(s, a)
  {
  }

  lemma OthersTokensAddUp(s: State, a: Action)
    requires WordFits(s) && LoadFits(s) && EmptyTokensAddUp(s) && !a.ByWorker() && Enabled(s, a)
    ensures EmptyTokensAddUp(Next(s, a))
  {
  }

  // From any state where the count adds up, every other step keeps it.
  lemma TokensAddUpIff(s: State, a: Action)
    requires WordFits(s) && LoadFits(s) && EmptyTokensAddUp(s) && Enabled(s, a)
    ensures EmptyTokensAddUp(Next(s, a)) <==> !Forges(s, a)
  {
    if a.ByWorker() {
      WorkerTokensAddUpIff(s, a);
    } else {
      OthersTokensAddUp(s, a);
    }
  }

  ghost predicate NoForgery(s: State, run: seq<Action>)
    requires ValidRun(s, run)
    decreases |run|
  {
    run != [] ==> !Forges(s, run[0]) && NoForgery(Next(s, run[0]), run[1..])
  }

  // No call of the run commits with a stray token about.
  ghost predicate CommitsClean(s: State, run: seq<Action>)
    requires ValidRun(s, run)
    decreases |run|
  {
    run != [] ==> (Commits(s, run[0]) ==> !StrayAnswer(s)) && CommitsClean(Next(s, run[0]), run[1..])
  }

  // Where the count adds up a commit meets no stray answer, so without a forgery all are clean.
  lemma {:induction false} UnforgedRun(s: State, run: seq<Action>)
    requires Inv(s) && EmptyTokensAddUp(s) && ValidRun(s, run) && NoForgery(s, run)
    ensures EmptyTokensAddUp(After(s, run)) && CommitsClean(s, run)
    decreases |run|
  {
    if run != [] {
      StepKeepsInv(s, run[0]);
      TokensAddUpIff(s, run[0]);
      UnforgedRun(Next(s, run[0]), run[1..]);
    }
  }

  lemma {:induction false} UnracedRun(s: State, run: seq<Action>)
    requires Inv(s) && ValidRun(s, run)
    ensures s.raced ==> After(s, run).raced
    ensures !After(s, run).raced ==> NoForgery(s, run)
    decreases |run|
  {
    if run != [] {
      StepKeepsInv(s, run[0]);
      UnracedStep(s, run[0]);
      UnracedRun(Next(s, run[0]), run[1..]);
    }
  }

  lemma UnracedStep(s: State, a: Action)
    requires WordFits(s) && Enabled(s, a)
    ensures (s.raced ==> Next(s, a).raced) && (Forges(s, a) ==> s.raced)
  {
  }

  // Over every run without a forgery, tokens on m_empty_sema, posts the worker still owes and the
  // flag bit add up to the threads asleep in WaitForEmpty, and every call commits clean.  Without
  // a raced timeout there is no forgery, and m_sema tokens and owed posts are the sleeps to end.
  lemma SemaphoreTokensConserved(spinBudget: nat, run: seq<Action>)
    requires ValidRun(Init(spinBudget), run)
    ensures var s := After(Init(spinBudget), run);
      && (NoForgery(Init(spinBudget), run) ==> EmptyTokensAddUp(s) && CommitsClean(Init(spinBudget), run))
      && (!s.raced ==> NoForgery(Init(spinBudget), run))
      && (!s.raced ==> s.sema + |s.posting| == if s.Parking() && s.word >= 0 then 1 else 0)
  {
    InitInv(spinBudget);
    RunKeepsInv(Init(spinBudget), run);
    UnracedRun(Init(spinBudget), run);
    if NoForgery(Init(spinBudget), run) {
      UnforgedRun(Init(spinBudget), run);
    }
  }

  // ------------------------------------------------------------------ every sleeper is answered

  function Unseen(s: State): nat { if CountBits(s.word) != 0 then 1 else 0 }

  // How many quiet steps the worker can still take before it posts m_empty_sema.
  function StepsToAnswer(s: State): nat {
    var drain := 2 * |s.queue|;
    match s.worker
    case CheckPost => 1
    case IdlePost(_) => 1
    case Draining => drain + 4 + 4 * Unseen(s)
    case Processing(_) => drain + 5 + 4 * Unseen(s)
    case Ack => drain + 5
    case Spin(_) => drain + 6
    case TimedOut => drain + 6
    case Sleep(_) => drain + 7
    case CheckCas(v) => if v != s.word then drain + 8 else if Unseen(s) == 1 then drain + 6 else 2
    case WaitCas(v, _) => if v != s.word then drain + 8 else if Unseen(s) == 1 then drain + 6 else 2
    case _ => if Unseen(s) == 1 then drain + 7 else 3
  }

  function AnswerRank(s: State): nat { StepsToAnswer(s) + |s.posting| }

  // The flag is up or the post is owed.
  predicate OwesAnswer(s: State) { s.word >= FLAG_WAITING_EMPTY || s.worker.CheckPost? || s.worker.IdlePost? }

  lemma PostLowersAnswerRank(s: State, a: Action)
    requires OwesAnswer(s) && Alive(s) && a.PostWork? && Enabled(s, a)
    ensures var t := Next(s, a); Alive(t) && OwesAnswer(t) && AnswerRank(t) < AnswerRank(s)
  {
  }

  lemma ItemsLowerAnswerRank(s: State, a: Action)
    requires OwesAnswer(s) && Alive(s) && (a.TakeItem? || a.FinishItem?) && Enabled(s, a)
    ensures var t := Next(s, a); Alive(t) && OwesAnswer(t) && AnswerRank(t) < AnswerRank(s)
  {
  }

  lemma WorkerLowersAnswerRank(s: State, a: Action)
    requires WordFits(s) && OwesAnswer(s) && Alive(s) && Quiet(a) && Enabled(s, a)
    requires !a.PostWork? && !a.TakeItem? && !a.FinishItem?
    ensures var t := NextWorker(s, a);
      t.emptySema > 0 || (Alive(t) && OwesAnswer(t) && AnswerRank(t) < AnswerRank(s))
  {
    var t := NextWorker(s, a);
    assert t.queue == s.queue && t.posting == s.posting;
    assert t.emptySema > 0 || (OwesAnswer(t) && StepsToAnswer(t) < StepsToAnswer(s));
  }

  // The first step of a quiet run, with what the rest of it starts from.
  lemma FirstStepToAnswer(s: State, run: seq<Action>) returns (t: State)
    requires Inv(s) && Alive(s) && OwesAnswer(s) && run != [] && ValidRun(s, run) && Quiet(run[0])
    ensures Inv(t) && ValidRun(t, run[1..]) && After(s, run) == After(t, run[1..])
    ensures t.emptySema > 0 || (Alive(t) && OwesAnswer(t) && AnswerRank(t) < AnswerRank(s))
  {
    t := Next(s, run[0]);
    StepKeepsInv(s, run[0]);
    if run[0].PostWork? {
      PostLowersAnswerRank(s, run[0]);
    } else if run[0].TakeItem? || run[0].FinishItem? {
      ItemsLowerAnswerRank(s, run[0]);
    } else {
      WorkerLowersAnswerRank(s, run[0]);
    }
  }

  lemma {:induction false} TokenStays(s: State, run: seq<Action>)
    requires ValidRun(s, run) && QuietRun(run) && s.emptySema > 0
    ensures After(s, run).emptySema > 0
    decreases |run|
  {
    if run != [] {
      TokenStays(Next(s, run[0]), run[1..]);
    }
  }

  lemma {:induction false} OwedAnswerComes(s: State, run: seq<Action>)
    requires Inv(s) && Alive(s) && OwesAnswer(s)
    requires ValidRun(s, run) && QuietRun(run) && |run| > AnswerRank(s)
    ensures After(s, run).emptySema > 0
    decreases |run|
  {
    var t := FirstStepToAnswer(s, run);
    if t.emptySema > 0 {
      TokenStays(t, run[1..]);
    } else {
      OwedAnswerComes(t, run[1..]);
    }
  }

  // Wherever a run has got to, a thread asleep in WaitForEmpty has its token within AnswerRank
  // quiet steps, in whatever order the worker and the pending posts are scheduled.
  lemma SleeperIsAnswered(s: State, run: seq<Action>)
    requires Inv(s) && Alive(s) && s.waiter.Call? && s.waiter.pc.AtWait?
    requires ValidRun(s, run) && QuietRun(run) && |run| > AnswerRank(s)
    ensures After(s, run).emptySema > 0
  {
    if s.emptySema > 0 {
      TokenStays(s, run);
    } else {
      OwedAnswerComes(s, run);
    }
  }

  // And until then someone can take a quiet step.
  lemma AnswerStepExists(s: State)
    requires WordFits(s) && WakeComing(s) && Alive(s) && OwesAnswer(s)
    ensures exists a :: Quiet(a) && Enabled(s, a)
  {
    var a := match s.worker
      case Draining => if s.queue == {} then SeeEmpty else (var i :| i in s.queue; TakeItem(i))
      case Sleep(_) => if s.sema > 0 then Wake else (var j :| j in s.posting; PostWork(j))
      case _ => WorkerStep(s);
    assert Quiet(a) && Enabled(s, a);
  }

  // ------------------------------------------------------------------ what fails, and when

  ghost predicate Reachable(s: State) {
    exists spinBudget, run :: ValidRun(Init(spinBudget), run) && After(Init(spinBudget), run) == s
  }

  lemma {:induction false} RunExtend(s: State, run: seq<Action>, a: Action)
    requires ValidRun(s, run) && Enabled(After(s, run), a)
    ensures ValidRun(s, run + [a]) && After(s, run + [a]) == Next(After(s, run), a)
    decreases |run|
  {
    if run == [] {
      assert ValidRun(Next(s, a), []) && ([] + [a])[1..] == [];
    } else {
      assert (run + [a])[1..] == run[1..] + [a];
      RunExtend(Next(s, run[0]), run[1..], a);
    }
  }

  lemma Take(s: State, a: Action) returns (t: State)
    requires Reachable(s) && Enabled(s, a)
    ensures t == Next(s, a) && Reachable(t)
  {
    var b, run :| ValidRun(Init(b), run) && After(Init(b), run) == s;
    RunExtend(Init(b), run, a);
    t := Next(s, a);
  }

  lemma Start() returns (s: State)
    ensures s == Init(0) && Reachable(s)
  {
    s := Init(0);
    assert ValidRun(s, []) && After(s, []) == s;
  }

  // Items 4, 5, ... for the runs below.
  function Items(k: nat): set<Item> { if k == 0 then {} else Items(k - 1) + {3 + k} }

  lemma {:induction false} ItemsAre(k: nat, j: Item)
    ensures j in Items(k) <==> 4 <= j < 4 + k
  {
    if k > 0 {
      ItemsAre(k - 1, j);
    }
  }

  lemma OneMoreItem(k: nat)
    requires k > 0
    ensures Items(k) == Items(k - 1) + {3 + k} && 3 + k !in Items(k - 1)
    ensures 1 !in Items(k) && 3 !in Items(k)
  {
    ItemsAre(k - 1, 3 + k);
    ItemsAre(k, 1);
    ItemsAre(k, 3);
  }

  // The worker sleeps; item 1's notification has moved the word and has yet to post.
  lemma FirstNotification() returns (s: State)
    ensures Reachable(s)
    ensures s == Init(0).(word := 1, worker := Sleep(false), posting := {1}, queue := {1}, unacked := 1)
  {
    s := Start();
    s := Take(s, WaitLoad(false));
    s := Take(s, WaitTry);
    s := Take(s, Publish(1));
    s := Take(s, FetchAdd(1));
  }

  // A sleeping worker can have fully notified items waiting: their calls saw that another one had
  // already moved the word, and that one has yet to post.
  lemma {:induction false} FinishedCallsMayWaitForAnothersPost(k: nat) returns (s: State)
    requires k < MAX_UNACKED
    ensures Reachable(s)
    ensures s == Init(0).(word := 2 * k + 1, worker := Sleep(false), posting := {1}, finished := Items(k),
                          queue := {1} + Items(k), unacked := k + 1)
  {
    if k == 0 {
      s := FirstNotification();
    } else {
      OneMoreItem(k);
      s := FinishedCallsMayWaitForAnothersPost(k - 1);
      s := Take(s, Publish(3 + k));
      s := Take(s, FetchAdd(3 + k));
    }
  }

  // Items taken and done before their notification.
  lemma {:induction false} TakenBeforeNotified(k: nat) returns (s: State)
    ensures Reachable(s)
    ensures s == Init(0).(worker := Draining, unsent := Items(k), finished := {3}, processed := {3} + Items(k))
  {
    if k == 0 {
      s := OneProcessed();
    } else {
      OneMoreItem(k);
      s := TakenBeforeNotified(k - 1);
      s := Take(s, Publish(3 + k));
      s := Take(s, TakeItem(3 + k));
      s := Take(s, FinishItem);
    }
  }

  lemma OneProcessed() returns (s: State)
    ensures Reachable(s) && s == Init(0).(worker := Draining, finished := {3}, processed := {3})
  {
    s := OneSeen();
    s := Take(s, TakeItem(3));
    s := Take(s, FinishItem);
  }

  lemma OneSeen() returns (s: State)
    ensures Reachable(s) && s == Init(0).(worker := Draining, finished := {3}, queue := {3})
  {
    s := Start();
    s := Take(s, Publish(3));
    s := Take(s, FetchAdd(3));
    s := Take(s, CheckLoad);
    s := Take(s, CheckTry);
  }

  lemma AsleepBeforeNotified(k: nat) returns (s: State)
    ensures Reachable(s)
    ensures s == Init(0).(word := 1, worker := Sleep(false), unsent := Items(k), posting := {1}, finished := {3},
                          queue := {1}, processed := {3} + Items(k), unacked := 1)
  {
    s := AsleepOverNothing(k);
    ItemsAre(k, 1);
    s := Take(s, Publish(1));
    s := Take(s, FetchAdd(1));
    assert Items(k) + {1} - {1} == Items(k);
  }

  lemma AsleepOverNothing(k: nat) returns (s: State)
    ensures Reachable(s)
    ensures s == Init(0).(word := STATE_SLEEPING, worker := Sleep(false), unsent := Items(k), finished := {3},
                          processed := {3} + Items(k))
  {
    s := TakenBeforeNotified(k);
    s := Take(s, SeeEmpty);
    s := Take(s, WaitLoad(false));
    s := Take(s, WaitTry);
  }

  // m of those items notified since.
  lemma {:induction false} NotifiedWhileAsleep(k: nat, m: nat) returns (s: State)
    requires m <= k && m < MAX_UNACKED
    ensures Reachable(s)
    ensures s == Init(0).(word := 2 * m + 1, worker := Sleep(false), unsent := Items(k) - Items(m), posting := {1},
                          finished := {3} + Items(m), queue := {1}, processed := {3} + Items(k), unacked := m + 1)
  {
    if m == 0 {
      s := AsleepBeforeNotified(k);
    } else {
      OneMoreItem(m);
      ItemsAre(k, 3 + m);
      s := NotifiedWhileAsleep(k, m - 1);
      s := Take(s, FetchAdd(3 + m));
      assert Items(k) - Items(m - 1) - {3 + m} == Items(k) - Items(m);
    }
  }

  // So from two notifications on the word does not tell: for every such count the same word, no
  // token and the same pending post go with a finished call's item in the queue and with every
  // queued item's own call still under way.
  lemma SameWordBothWays(k: nat) returns (waiting: State, covered: State)
    requires 1 <= k < MAX_UNACKED
    ensures Reachable(waiting) && waiting.worker == Sleep(false) && waiting.sema == 0
    ensures Reachable(covered) && covered.worker == Sleep(false) && covered.sema == 0
    ensures waiting.word == covered.word == 2 * k + 1 && waiting.posting == covered.posting == {1}
    ensures 4 in waiting.queue && 4 in waiting.finished
    ensures covered.queue == {1} && covered.queue <= covered.unsent + covered.posting
  {
    ItemsAre(k, 4);
    waiting := FinishedCallsMayWaitForAnothersPost(k);
    covered := NotifiedWhileAsleep(k, k);
  }

  // A worker in a timed sleep with one notification between its fetch_add and its post.
  lemma NotificationDuringTimedSleep() returns (s: State)
    ensures Reachable(s)
    ensures s == Init(0).(word := 1, worker := Sleep(true), posting := {1}, queue := {1}, unacked := 1)
  {
    s := Start();
    s := Take(s, WaitLoad(true));
    s := Take(s, WaitTry);
    s := Take(s, Publish(1));
    s := Take(s, FetchAdd(1));
  }

  lemma TimeOutLosesRace() returns (s: State)
    ensures Reachable(s)
    ensures s == Init(0).(worker := Draining, posting := {1}, queue := {1}, raced := true)
  {
    s := NotificationDuringTimedSleep();
    s := Take(s, TimeOut);
    s := Take(s, TimeOutTry);
    s := Take(s, Acknowledge);
  }

  // A notification that races a timeout leaves a stray token on m_sema.
  lemma RacedTimeoutLeavesToken() returns (s: State)
    ensures Reachable(s) && s == Init(0).(sema := 1, finished := {1}, processed := {1}, raced := true)
  {
    s := TimeOutLosesRace();
    s := Take(s, TakeItem(1));
    s := Take(s, FinishItem);
    s := Take(s, SeeEmpty);
    s := Take(s, PostWork(1));
  }

  // The stray token ends the next sleep at once, and the AND with SLEEPING forges the flag.
  lemma StrayTokenForgesFlag() returns (s: State)
    ensures Reachable(s)
    ensures s == Init(0).(word := FLAG_WAITING_EMPTY, worker := Draining,
                          finished := {1}, processed := {1}, raced := true)
  {
    s := RacedTimeoutLeavesToken();
    s := Take(s, WaitLoad(false));
    s := Take(s, WaitTry);
    s := Take(s, Wake);
    s := Take(s, Acknowledge);
  }

  // The sleep after that posts m_empty_sema with nobody waiting.
  lemma ForgedFlagPostsEmpty() returns (s: State)
    ensures Reachable(s)
    ensures s == Init(0).(word := STATE_SLEEPING, emptySema := 1, worker := Sleep(false),
                          finished := {1}, processed := {1}, raced := true)
  {
    s := StrayTokenForgesFlag();
    s := Take(s, SeeEmpty);
    s := Take(s, WaitLoad(false));
    s := Take(s, WaitTry);
    s := Take(s, WaitPostEmpty);
  }

  lemma WorkNotifiedAfterForgedPost() returns (s: State)
    ensures Reachable(s)
    ensures s == Init(0).(word := 1, sema := 1, emptySema := 1, worker := Sleep(false), unacked := 1,
                          finished := {1, 2}, queue := {2}, processed := {1}, raced := true)
  {
    s := ForgedFlagPostsEmpty();
    s := Take(s, Publish(2));
    s := Take(s, FetchAdd(2));
    s := Take(s, PostWork(2));
  }

  // A call commits while the stray token is banked and item 2 is undone.
  lemma CallMeetsStrayAnswer() returns (s: State)
    ensures Reachable(s) && StrayAnswer(s) && s.worker == Sleep(false)
    ensures s.word == WithFlag(1) && s.emptySema == 1 && s.processed == {1}
    ensures s.waiter == Call(AtWait, {1, 2})
  {
    s := WorkNotifiedAfterForgedPost();
    s := Take(s, EmptyCall);
    s := Take(s, EmptyLoad);
    s := Take(s, EmptyTry);
  }

  // So after a raced timeout WaitForEmpty can answer true with a notified item unprocessed.
  lemma RacedTimeoutBreaksWaitForEmpty() returns (s: State)
    ensures Reachable(s)
    ensures s.waiter == Call(Returned(true), {1, 2}) && s.processed == {1}
  {
    s := CallMeetsStrayAnswer();
    s := Take(s, EmptyWake);
    s := Take(s, EmptyRecheck);
  }

  // A call about to commit, with no token about and its item undone.
  lemma CleanCommit() returns (s: State)
    ensures Reachable(s) && Enabled(s, EmptyTry) && Commits(s, EmptyTry) && !StrayAnswer(s)
    ensures s == Init(0).(word := 2, finished := {1}, queue := {1}, unacked := 1, waiter := Call(AtCas(2), {1}))
  {
    s := Start();
    s := Take(s, Publish(1));
    s := Take(s, FetchAdd(1));
    s := Take(s, EmptyCall);
    s := Take(s, EmptyLoad);
  }

  // It is asleep, its flag set, when the worker is killed.
  lemma KilledUnderCall() returns (s: State)
    ensures Reachable(s)
    ensures s == Init(0).(word := INT32_MIN, emptySema := 1, worker := Stopped, finished := {1}, queue := {1},
                          waiter := Call(AtWait, {1}))
  {
    s := CleanCommit();
    s := Take(s, EmptyTry);
    s := Take(s, Kill);
    s := Take(s, KillPostEmpty);
  }

  // A dead worker that is reset before the call has looked again: the call answers true with its
  // item unprocessed, though nothing was raced and no token was about when it committed.
  lemma ResetBreaksWaitForEmpty() returns (s: State)
    ensures Reachable(s) && !s.raced
    ensures s.waiter == Call(Returned(true), {1}) && s.processed == {}
  {
    s := KilledUnderCall();
    s := Take(s, EmptyWake);
    s := Take(s, Reset);
    s := Take(s, EmptyRecheck);
  }

  // ------------------------------------------------------------------ Reset without draining

  lemma ReadyKeepsTheRest(t: State, u: State)
    requires t.worker.Draining? && u == t.(worker := Ready)
    ensures ItemsConserved(u) == ItemsConserved(t) && WordFits(u) == WordFits(t)
    ensures LoadFits(u) == LoadFits(t) && WakeComing(u) == WakeComing(t)
    ensures TokensExact(u) == TokensExact(t) && AnswerComing(u) == AnswerComing(t)
    ensures SnapshotNotified(u) == SnapshotNotified(t) && FirstNotifierPosts(u) == FirstNotifierPosts(t)
    ensures CountsExactly(u) == CountsExactly(t)
  {
  }

  function ResetUndrained(s: State): State { s.(word := STATE_RUNNING_0, unacked := 0, worker := Ready) }

  lemma UndrainedKeepsInv(s: State)
    requires Inv(s) && s.worker.Stopped? && s.queue !! s.Notified()
    ensures Inv(ResetUndrained(s))
  {
    StepKeepsInv(s, Reset);
    ReadyKeepsTheRest(Next(s, Reset), ResetUndrained(s));
  }

  // The worker sleeps, the word says that nothing has come in, and a notified item is queued.
  ghost predicate SleepsOnWork(s: State) {
    s.worker.Sleep? && s.word == STATE_SLEEPING && !(s.queue !! s.Notified())
  }

  ghost predicate EndsAsleepOnWork(s: State, run: seq<Action>) {
    ValidRun(s, run) && SleepsOnWork(After(s, run))
  }

  // Two steps take an undrained worker to sleep over whatever was left.
  lemma UndrainedSleeps(u: State) returns (run: seq<Action>)
    requires u.worker.Ready? && u.word == STATE_RUNNING_0 && !(u.queue !! u.Notified())
    ensures EndsAsleepOnWork(u, run)
    ensures After(u, run).sema == u.sema && After(u, run).posting == u.posting
  {
    run := [WaitLoad(true), WaitTry];
    var loaded := Next(u, WaitLoad(true));
    var asleep := Next(loaded, WaitTry);
    assert run[1..] == [WaitTry] && [WaitTry][1..] == [];
    assert ValidRun(asleep, []) && After(asleep, []) == asleep;
    assert ValidRun(loaded, [WaitTry]) && After(loaded, [WaitTry]) == asleep;
  }

  // A worker that waits at once after Reset can end asleep over a notified item exactly when one
  // was left in the queue; and without a raced timeout nothing is then on its way to wake it.
  lemma ResetWithoutDrainingIsSafeIff(s: State)
    requires Inv(s) && s.worker.Stopped?
    ensures (exists run :: EndsAsleepOnWork(ResetUndrained(s), run)) <==> !(s.queue !! s.Notified())
    ensures !s.raced && !(s.queue !! s.Notified()) ==>
      exists run :: EndsAsleepOnWork(ResetUndrained(s), run)
        && After(ResetUndrained(s), run).sema == 0 && After(ResetUndrained(s), run).posting == {}
  {
    var u := ResetUndrained(s);
    if s.queue !! s.Notified() {
      UndrainedKeepsInv(s);
      forall run ensures !EndsAsleepOnWork(u, run) {
        if ValidRun(u, run) {
          RunKeepsInv(u, run);
        }
      }
    } else {
      var run := UndrainedSleeps(u);
    }
  }
}
