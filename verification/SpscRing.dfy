/**
  `ringbuffer_base<T, max_size>`, the single-producer single-consumer ring.

  Every load and store of `push`, of `pop`/`consume_one` and of the `front`/`pop()` pair is a
  step of its own, and the two threads interleave freely (over sequentially consistent memory).
  The ring is shown to refine a bounded FIFO of `max_size - 1` elements.
*/
module SpscRing {
  datatype Slot<T> = Raw | Live(value: T)

  datatype ProducerPc<T> =
    | PIdle
    | PLoaded(value: T, w: nat)        // write_index_ loaded
    | PChecked(value: T, w: nat)       // room seen, about to copy-construct
    | PBuilt(value: T, w: nat)         // about to store write_index_

  // `seen` is how many elements the queue held when write_index_ was loaded.
  datatype ConsumerPc<T> =
    | CIdle
    | CLoaded(w: nat, seen: nat)       // write_index_ loaded
    | CChecked(r: nat)                 // known not empty, about to read the slot
    | CRead(r: nat, value: T)          // about to destroy the slot
    | CDestroyed(r: nat, value: T)     // about to store read_index_

  datatype State<T> = State(
    size: nat,                         // max_size
    write: nat,
    read: nat,
    slots: seq<Slot<T>>,
    producer: ProducerPc<T>,
    consumer: ConsumerPc<T>,
    pushed: seq<T>,                    // values whose push has returned true, in order
    popped: seq<T>,                    // values handed out, in order
    destroyed: seq<T>)                 // values whose destructor has run, in order
  {
    function Used(): int { |pushed| - |popped| }
  }

  datatype Action<T> =
    | PushLoad(value: T) | PushCheck | PushBuild | PushStore
    | PopLoad | PopCheck | FrontLoad | PopRead | PopDestroy | PopStore
  {
    predicate ByProducer() { PushLoad? || PushCheck? || PushBuild? || PushStore? }
  }

  function NextIndex(i: nat, size: nat): nat
    requires size > 0
  {
    (i + 1) % size
  }

  // front() does not look for emptiness itself: its caller has.
  predicate Enabled<T>(s: State<T>, a: Action<T>) {
    match a
    case PushLoad(_) => s.producer.PIdle?
    case PushCheck => s.producer.PLoaded? && s.size > 0
    case PushBuild => s.producer.PChecked? && s.producer.w < |s.slots|
    case PushStore => s.producer.PBuilt? && s.size > 0
    case PopLoad => s.consumer.CIdle? && s.Used() >= 0
    case PopCheck => s.consumer.CLoaded?
    case FrontLoad => s.consumer.CIdle? && s.Used() > 0
    case PopRead => s.consumer.CChecked? && s.consumer.r < |s.slots|
    case PopDestroy => s.consumer.CRead? && s.consumer.r < |s.slots|
    case PopStore => s.consumer.CDestroyed? && s.size > 0
  }

  function NextProducer<T>(s: State<T>, a: Action<T>): State<T>
    requires a.ByProducer() && Enabled(s, a)
  {
    match a
    case PushLoad(v) => s.(producer := PLoaded(v, s.write))
    case PushCheck =>
      s.(producer := if NextIndex(s.producer.w, s.size) == s.read then PIdle
                     else PChecked(s.producer.value, s.producer.w))
    case PushBuild =>
      s.(slots := s.slots[s.producer.w := Live(s.producer.value)],
         producer := PBuilt(s.producer.value, s.producer.w))
    case PushStore =>
      s.(write := NextIndex(s.producer.w, s.size), pushed := s.pushed + [s.producer.value], producer := PIdle)
  }

  function NextConsumer<T>(s: State<T>, a: Action<T>): State<T>
    requires !a.ByProducer() && Enabled(s, a)
  {
    match a
    case PopLoad => s.(consumer := CLoaded(s.write, s.Used()))
    case PopCheck => s.(consumer := if s.consumer.w == s.read then CIdle else CChecked(s.read))
    case FrontLoad => s.(consumer := CChecked(s.read))
    case PopRead =>
      if s.slots[s.consumer.r].Live?
      then s.(consumer := CRead(s.consumer.r, s.slots[s.consumer.r].value))
      else s
    case PopDestroy =>
      s.(slots := s.slots[s.consumer.r := Raw],
         destroyed := s.destroyed + [s.consumer.value],
         consumer := CDestroyed(s.consumer.r, s.consumer.value))
    case PopStore =>
      s.(read := NextIndex(s.consumer.r, s.size), popped := s.popped + [s.consumer.value], consumer := CIdle)
  }

  function Next<T>(s: State<T>, a: Action<T>): State<T>
    requires Enabled(s, a)
  {
    if a.ByProducer() then NextProducer(s, a) else NextConsumer(s, a)
  }

  function Init<T>(size: nat): State<T> {
    State(size, 0, 0, seq(size, _ => Raw), PIdle, CIdle, [], [], [])
  }

  // ------------------------------------------------------------------ the invariant

  // The k-th slot counted from `read`, around the ring.
  function Around(read: nat, k: nat, size: nat): nat
    requires read < size && k <= size
  {
    if read + k < size then read + k else read + k - size
  }

  lemma NextIsAround(i: nat, size: nat)
    requires i < size
    ensures NextIndex(i, size) == Around(i, 1, size)
  {
    if i + 1 < size {
      assert (i + 1) % size == i + 1;
    } else {
      assert (i + 1) % size == 0;
    }
  }

  ghost predicate CursorsFit<T>(s: State<T>) {
    && |s.slots| == s.size && s.write < s.size && s.read < s.size
    && 0 <= s.Used() < s.size
    && s.write == Around(s.read, s.Used(), s.size)
    && s.popped <= s.pushed
  }

  ghost predicate ThreadsFit<T>(s: State<T>)
    requires CursorsFit(s)
  {
    && (s.producer.PLoaded? || s.producer.PChecked? || s.producer.PBuilt? ==> s.producer.w == s.write)
    && (s.producer.PChecked? || s.producer.PBuilt? ==> s.Used() + 1 < s.size)
    && (s.consumer.CLoaded? ==>
        s.consumer.seen <= s.Used() && s.consumer.w == Around(s.read, s.consumer.seen, s.size))
    && (s.consumer.CChecked? || s.consumer.CRead? || s.consumer.CDestroyed? ==>
        s.Used() > 0 && s.consumer.r == s.read)
    && (s.consumer.CRead? || s.consumer.CDestroyed? ==> s.consumer.value == s.pushed[|s.popped|])
    && s.destroyed == s.popped + (if s.consumer.CDestroyed? then [s.consumer.value] else [])
  }

  // What each slot holds, counted from `read`.
  ghost predicate SlotFits<T>(s: State<T>, k: nat)
    requires CursorsFit(s) && k < s.size
  {
    s.slots[Around(s.read, k, s.size)] ==
      if k == 0 && s.consumer.CDestroyed? then Raw
      else if k < s.Used() then Live(s.pushed[|s.popped| + k])
      else if k == s.Used() && s.producer.PBuilt? then Live(s.producer.value)
      else Raw
  }

  ghost predicate SlotsFit<T>(s: State<T>)
    requires CursorsFit(s)
  {
    forall k: nat :: k < s.size ==> SlotFits(s, k)
  }

  ghost predicate Inv<T>(s: State<T>) {
    CursorsFit(s) && ThreadsFit(s) && SlotsFit(s)
  }

  lemma InitInv<T>(size: nat)
    requires size > 0
    ensures Inv(Init<T>(size))
  {
  }

  lemma PushBuildKeepsInv<T>(s: State<T>, a: Action<T>)
    requires Inv(s) && a.PushBuild? && Enabled(s, a)
    ensures Inv(Next(s, a))
  {
    var t := Next(s, a);
    assert SlotFits(s, s.Used());
    forall k: nat | k < s.size ensures SlotFits(t, k) {
      assert SlotFits(s, k);
    }
  }

  lemma PushStoreKeepsInv<T>(s: State<T>, a: Action<T>)
    requires Inv(s) && a.PushStore? && Enabled(s, a)
    ensures Inv(Next(s, a))
  {
    var t := Next(s, a);
    NextIsAround(s.write, s.size);
    forall k: nat | k < s.size ensures SlotFits(t, k) {
      assert SlotFits(s, k);
    }
  }

  lemma PopDestroyKeepsInv<T>(s: State<T>, a: Action<T>)
    requires Inv(s) && a.PopDestroy? && Enabled(s, a)
    ensures Inv(Next(s, a))
  {
    var t := Next(s, a);
    assert SlotFits(s, 0);
    forall k: nat | k < s.size ensures SlotFits(t, k) {
      assert SlotFits(s, k);
    }
  }

  lemma PopStoreKeepsInv<T>(s: State<T>, a: Action<T>)
    requires Inv(s) && a.PopStore? && Enabled(s, a)
    ensures Inv(Next(s, a))
  {
    var t := Next(s, a);
    NextIsAround(s.read, s.size);
    assert SlotFits(s, 0);
    forall k: nat | k < s.size ensures SlotFits(t, k) {
      if k + 1 < s.size {
        assert SlotFits(s, k + 1);
      }
    }
  }

  // The steps that touch neither the slots nor the cursors.
  lemma LoadsKeepInv<T>(s: State<T>, a: Action<T>)
    requires Inv(s) && Enabled(s, a)
    requires !a.PushBuild? && !a.PushStore? && !a.PopDestroy? && !a.PopStore?
    ensures Inv(Next(s, a))
  {
    var t := Next(s, a);
    if a.PushCheck? {
      NextIsAround(s.write, s.size);
    }
    assert SlotFits(s, 0);
    assert CursorsFit(t) && ThreadsFit(t);
    forall k: nat | k < s.size ensures SlotFits(t, k) {
      assert SlotFits(s, k);
    }
  }

  lemma StepKeepsInv<T>(s: State<T>, a: Action<T>)
    requires Inv(s) && Enabled(s, a)
    ensures Inv(Next(s, a))
  {
    match a
    case PushBuild => PushBuildKeepsInv(s, a);
    case PushStore => PushStoreKeepsInv(s, a);
    case PopDestroy => PopDestroyKeepsInv(s, a);
    case PopStore => PopStoreKeepsInv(s, a);
    case _ => LoadsKeepInv(s, a);
  }

  // ------------------------------------------------------------------ refinement

  // The FIFO the ring stands for: what has been pushed and not yet popped.
  ghost function Contents<T>(s: State<T>): seq<T>
    requires |s.popped| <= |s.pushed|
  {
    s.pushed[|s.popped|..]
  }

  // What one step may do to a FIFO of capacity size - 1: append at the end while there is room,
  // hand out the first element, or nothing.  A push is refused exactly when the FIFO is full, a
  // pop exactly when the FIFO was empty at its first load.
  ghost predicate FifoStep<T>(s: State<T>, a: Action<T>, t: State<T>)
    requires |s.popped| <= |s.pushed| && |t.popped| <= |t.pushed|
  {
    var before, after := Contents(s), Contents(t);
    && (s.producer.PBuilt? && a.PushStore? ==>
        |before| < s.size - 1 && after == before + [s.producer.value])
    && (s.consumer.CDestroyed? && a.PopStore? ==>
        before != [] && t.popped == s.popped + [before[0]] && after == before[1..])
    && (!a.PushStore? && !a.PopStore? ==> after == before)
    && (a.PushCheck? ==> (t.producer.PIdle? <==> |before| == s.size - 1))
    && (a.PopLoad? ==> t.consumer.CLoaded? && t.consumer.seen == |before|)
    && (a.PopCheck? && s.consumer.CLoaded? ==> (t.consumer.CIdle? <==> s.consumer.seen == 0))
  }

  lemma StepRefinesFifo<T>(s: State<T>, a: Action<T>)
    requires Inv(s) && Enabled(s, a)
    ensures CursorsFit(Next(s, a)) && FifoStep(s, a, Next(s, a))
  {
    StepKeepsInv(s, a);
    if a.PushCheck? {
      NextIsAround(s.write, s.size);
    }
  }

  // An element is constructed in raw storage only, and only a live one is read or destroyed; the
  // one destroyed is the one read.
  ghost predicate SlotSafe<T>(s: State<T>, a: Action<T>)
    requires Enabled(s, a)
  {
    && (a.PushBuild? ==> s.slots[s.producer.w].Raw?)
    && (a.PopRead? ==> s.slots[s.consumer.r].Live?)
    && (a.PopDestroy? ==> s.slots[s.consumer.r] == Live(s.consumer.value))
  }

  lemma StepIsSlotSafe<T>(s: State<T>, a: Action<T>)
    requires Inv(s) && Enabled(s, a)
    ensures SlotSafe(s, a)
  {
    assert SlotFits(s, 0) && SlotFits(s, s.Used());
  }

  ghost predicate ValidRun<T>(s: State<T>, run: seq<Action<T>>)
    decreases |run|
  {
    run == [] || (Enabled(s, run[0]) && ValidRun(Next(s, run[0]), run[1..]))
  }

  ghost function After<T>(s: State<T>, run: seq<Action<T>>): State<T>
    requires ValidRun(s, run)
    decreases |run|
  {
    if run == [] then s else After(Next(s, run[0]), run[1..])
  }

  lemma {:induction false} RunKeepsInv<T>(s: State<T>, run: seq<Action<T>>)
    requires Inv(s) && ValidRun(s, run)
    ensures Inv(After(s, run)) && After(s, run).size == s.size
    decreases |run|
  {
    if run != [] {
      StepKeepsInv(s, run[0]);
      RunKeepsInv(Next(s, run[0]), run[1..]);
    }
  }

  // Over every interleaving: values come out in the order they went in, no slot is ever read
  // raw or built over, never more than max_size - 1 elements are held, every element is
  // destroyed once and in order, and size() tells how many are left.
  lemma RingIsFifo<T(!new)>(size: nat, run: seq<Action<T>>)
    requires size > 0 && ValidRun(Init<T>(size), run)
    ensures var s := After(Init<T>(size), run);
            && s.popped <= s.pushed && s.popped <= s.destroyed <= s.pushed
            && |s.pushed| - |s.popped| <= size - 1
            && |s.destroyed| <= |s.popped| + 1
            && (forall a: Action<T> :: Enabled(s, a) ==> SlotSafe(s, a))
            && SizeOf(s.write, s.read, size) == |s.pushed| - |s.popped|
  {
    InitInv<T>(size);
    RunKeepsInv(Init<T>(size), run);
    var s := After(Init<T>(size), run);
    forall a: Action<T> | Enabled(s, a) ensures SlotSafe(s, a) {
      StepIsSlotSafe(s, a);
    }
  }

  // ------------------------------------------------------------------ whole calls

  function StepsBy<T>(run: seq<Action<T>>, producer: bool): nat {
    if run == [] then 0 else StepsBy(run[1..], producer) + if run[0].ByProducer() == producer then 1 else 0
  }

  // A push that has seen room, with so many steps to go: what it will have pushed is `base` and v.
  ghost predicate Pushing<T(!new)>(s: State<T>, v: T, base: seq<T>, left: nat) {
    match left
    case 2 => s.producer.PChecked? && s.producer.value == v && s.pushed == base
    case 1 => s.producer.PBuilt? && s.producer.value == v && s.pushed == base
    case _ => left == 0 && s.producer.PIdle? && s.pushed == base + [v]
  }

  lemma PushStep<T(!new)>(s: State<T>, a: Action<T>, v: T, base: seq<T>, left: nat)
    requires Enabled(s, a) && Pushing(s, v, base, left) && (a.ByProducer() ==> left > 0)
    ensures Pushing(Next(s, a), v, base, if a.ByProducer() then left - 1 else left)
  {
  }

  lemma {:induction false} PushCompletes<T(!new)>(s: State<T>, run: seq<Action<T>>, v: T, base: seq<T>, left: nat)
    requires ValidRun(s, run) && Pushing(s, v, base, left) && StepsBy(run, true) == left
    ensures Pushing(After(s, run), v, base, 0)
    decreases |run|
  {
    if run != [] {
      PushStep(s, run[0], v, base, left);
      PushCompletes(Next(s, run[0]), run[1..], v, base, if run[0].ByProducer() then left - 1 else left);
    }
  }

  lemma {:induction false} OtherThreadStays<T>(s: State<T>, run: seq<Action<T>>, producer: bool)
    requires ValidRun(s, run) && OnlyBy(run, producer)
    ensures After(s, run).size == s.size
    ensures producer ==> After(s, run).consumer == s.consumer && After(s, run).popped == s.popped
                         && s.pushed <= After(s, run).pushed
    ensures !producer ==> After(s, run).producer == s.producer && After(s, run).pushed == s.pushed
    decreases |run|
  {
    if run != [] {
      assert run[0] in run;
      OtherThreadStays(Next(s, run[0]), run[1..], producer);
    }
  }

  // A whole push(v), with the consumer moving anywhere in between.  If the ring is full when
  // read_index_ is looked at, the push is refused and nothing is pushed; otherwise its remaining
  // steps are always possible and end with v pushed behind all the rest.
  lemma PushCall<T(!new)>(s: State<T>, v: T, before: seq<Action<T>>, rest: seq<Action<T>>)
    requires Inv(s) && s.producer.PIdle?
    requires ValidRun(Next(s, PushLoad(v)), before) && OnlyBy(before, false)
    ensures var c := After(Next(s, PushLoad(v)), before);
      && Enabled(c, PushCheck)
      && (c.Used() == s.size - 1 ==> Next(c, PushCheck) == c.(producer := PIdle) && c.pushed == s.pushed)
      && (c.Used() < s.size - 1 && ValidRun(Next(c, PushCheck), rest) && StepsBy(rest, true) == 2 ==>
            After(Next(c, PushCheck), rest).producer.PIdle?
            && After(Next(c, PushCheck), rest).pushed == s.pushed + [v])
  {
    var l := Next(s, PushLoad(v));
    StepKeepsInv(s, PushLoad(v));
    RunKeepsInv(l, before);
    OtherThreadStays(l, before, false);
    var c := After(l, before);
    StepRefinesFifo(c, PushCheck);
    if c.Used() < s.size - 1 && ValidRun(Next(c, PushCheck), rest) && StepsBy(rest, true) == 2 {
      PushCompletes(Next(c, PushCheck), rest, v, s.pushed, 2);
    }
  }

  // The producer is never held up in the middle of a push.
  lemma PushIsNeverStuck<T>(s: State<T>)
    requires Inv(s) && !s.producer.PIdle?
    ensures exists a: Action<T> :: a.ByProducer() && Enabled(s, a)
  {
    var a: Action<T> := if s.producer.PLoaded? then PushCheck
                        else if s.producer.PChecked? then PushBuild else PushStore;
    assert a.ByProducer() && Enabled(s, a);
  }

  // A pop that has seen an element, with so many steps to go.
  ghost predicate Popping<T(!new)>(s: State<T>, v: T, base: seq<T>, left: nat)
    requires CursorsFit(s)
  {
    match left
    case 3 => s.consumer.CChecked? && s.popped == base && s.Used() > 0 && s.pushed[|s.popped|] == v
    case 2 => s.consumer.CRead? && s.consumer.value == v && s.popped == base
    case 1 => s.consumer.CDestroyed? && s.consumer.value == v && s.popped == base
    case _ => left == 0 && s.consumer.CIdle? && s.popped == base + [v]
  }

  lemma PopStep<T(!new)>(s: State<T>, a: Action<T>, v: T, base: seq<T>, left: nat)
    requires Inv(s) && Enabled(s, a) && Popping(s, v, base, left) && (!a.ByProducer() ==> left > 0)
    ensures CursorsFit(Next(s, a)) && Popping(Next(s, a), v, base, if a.ByProducer() then left else left - 1)
  {
    StepKeepsInv(s, a);
    assert SlotFits(s, 0);
  }

  lemma {:induction false} PopCompletes<T(!new)>(s: State<T>, run: seq<Action<T>>, v: T, base: seq<T>, left: nat)
    requires Inv(s) && ValidRun(s, run) && Popping(s, v, base, left) && StepsBy(run, false) == left
    ensures After(s, run).consumer.CIdle? && After(s, run).popped == base + [v]
    decreases |run|
  {
    if run != [] {
      PopStep(s, run[0], v, base, left);
      StepKeepsInv(s, run[0]);
      PopCompletes(Next(s, run[0]), run[1..], v, base, if run[0].ByProducer() then left else left - 1);
    }
  }

  // A whole pop or consume_one, with the producer moving anywhere in between: refused if the ring
  // was empty at its first load, otherwise it hands out the oldest element.
  lemma PopCall<T(!new)>(s: State<T>, before: seq<Action<T>>, rest: seq<Action<T>>)
    requires Inv(s) && s.consumer.CIdle?
    requires ValidRun(Next(s, PopLoad), before) && OnlyBy(before, true)
    ensures var c := After(Next(s, PopLoad), before);
      && Enabled(c, PopCheck)
      && (s.Used() == 0 ==> Next(c, PopCheck) == c.(consumer := CIdle) && c.popped == s.popped)
      && (s.Used() > 0 && ValidRun(Next(c, PopCheck), rest) && StepsBy(rest, false) == 3 ==>
            After(Next(c, PopCheck), rest).consumer.CIdle?
            && After(Next(c, PopCheck), rest).popped == s.popped + [s.pushed[|s.popped|]])
  {
    var l := Next(s, PopLoad);
    StepKeepsInv(s, PopLoad);
    RunKeepsInv(l, before);
    OtherThreadStays(l, before, true);
    var c := After(l, before);
    StepRefinesFifo(s, PopLoad);
    StepRefinesFifo(c, PopCheck);
    StepKeepsInv(c, PopCheck);
    if s.Used() > 0 && ValidRun(Next(c, PopCheck), rest) && StepsBy(rest, false) == 3 {
      PopCompletes(Next(c, PopCheck), rest, s.pushed[|s.popped|], s.popped, 3);
    }
  }

  // front() followed by pop(): the same without the look at emptiness.
  lemma FrontThenPop<T(!new)>(s: State<T>, rest: seq<Action<T>>)
    requires Inv(s) && s.consumer.CIdle? && s.Used() > 0
    requires ValidRun(Next(s, FrontLoad), rest) && StepsBy(rest, false) == 3
    ensures After(Next(s, FrontLoad), rest).consumer.CIdle?
    ensures After(Next(s, FrontLoad), rest).popped == s.popped + [s.pushed[|s.popped|]]
  {
    StepKeepsInv(s, FrontLoad);
    PopCompletes(Next(s, FrontLoad), rest, s.pushed[|s.popped|], s.popped, 3);
  }

  lemma PopIsNeverStuck<T>(s: State<T>)
    requires Inv(s) && !s.consumer.CIdle?
    ensures exists a: Action<T> :: !a.ByProducer() && Enabled(s, a)
  {
    var a: Action<T> := if s.consumer.CLoaded? then PopCheck else if s.consumer.CChecked? then PopRead
                        else if s.consumer.CRead? then PopDestroy else PopStore;
    assert !a.ByProducer() && Enabled(s, a);
  }

  ghost predicate OnlyBy<T>(run: seq<Action<T>>, producer: bool) {
    forall a :: a in run ==> a.ByProducer() == producer
  }

  // ------------------------------------------------------------------ size()

  // The arithmetic of size() on the two cursors it has loaded.
  function SizeOf(write: nat, read: nat, size: nat): int {
    if read > write then write + size - read else write - read
  }

  lemma {:induction false} OtherCursorStays<T>(s: State<T>, run: seq<Action<T>>, producer: bool)
    requires ValidRun(s, run) && OnlyBy(run, producer)
    ensures if producer then After(s, run).read == s.read else After(s, run).write == s.write
    decreases |run|
  {
    if run != [] {
      assert run[0] in run;
      OtherCursorStays(Next(s, run[0]), run[1..], producer);
    }
  }

  // size() loads write_index_ first and read_index_ later, with the other thread moving in
  // between.  Called by the producer it tells how many elements are held at its second load,
  // called by the consumer how many were held at its first.
  lemma SizeIsExact<T>(size: nat, before: seq<Action<T>>, between: seq<Action<T>>, byProducer: bool)
    requires size > 0 && ValidRun(Init<T>(size), before)
    requires ValidRun(After(Init<T>(size), before), between) && OnlyBy(between, !byProducer)
    ensures var first := After(Init<T>(size), before);
            var second := After(first, between);
            SizeOf(first.write, second.read, size) == if byProducer then second.Used() else first.Used()
  {
    var first := After(Init<T>(size), before);
    InitInv<T>(size);
    RunKeepsInv(Init<T>(size), before);
    RunKeepsInv(first, between);
    OtherCursorStays(first, between, !byProducer);
  }

  // ------------------------------------------------------------------ the destructor

  // `while (pop(out)) {}`, once both threads are done: every element still held is destroyed,
  // so over the ring's life each pushed element is destroyed exactly once, and no slot stays live.
  method Destroy<T>(s: State<T>) returns (t: State<T>)
    requires Inv(s) && s.producer.PIdle? && s.consumer.CIdle?
    ensures t.pushed == s.pushed && t.destroyed == s.pushed && t.popped == s.pushed
    ensures |t.slots| == s.size && forall i :: 0 <= i < |t.slots| ==> t.slots[i].Raw?
  {
    t := s;
    while true
      invariant Inv(t) && t.producer.PIdle? && t.consumer.CIdle?
      invariant t.pushed == s.pushed && t.size == s.size
      decreases t.Used()
    {
      StepRefinesFifo(t, PopLoad);
      StepKeepsInv(t, PopLoad);
      t := Next(t, PopLoad);
      StepRefinesFifo(t, PopCheck);
      StepKeepsInv(t, PopCheck);
      t := Next(t, PopCheck);
      if t.consumer.CIdle? {
        break;
      }
      t := PopTail(t);
    }
    AllRaw(t);
  }

  method PopTail<T>(s: State<T>) returns (t: State<T>)
    requires Inv(s) && s.producer.PIdle? && s.consumer.CChecked?
    ensures Inv(t) && t.producer.PIdle? && t.consumer.CIdle? && t.size == s.size
    ensures t.pushed == s.pushed && t.popped == s.popped + [s.pushed[|s.popped|]]
  {
    assert SlotFits(s, 0);
    StepKeepsInv(s, PopRead);
    t := Next(s, PopRead);
    StepKeepsInv(t, PopDestroy);
    t := Next(t, PopDestroy);
    StepKeepsInv(t, PopStore);
    t := Next(t, PopStore);
  }

  lemma AllRaw<T>(s: State<T>)
    requires Inv(s) && s.producer.PIdle? && s.consumer.CIdle? && s.Used() == 0
    ensures forall i :: 0 <= i < |s.slots| ==> s.slots[i].Raw?
  {
    forall i | 0 <= i < |s.slots| ensures s.slots[i].Raw? {
      var k := if i >= s.read then i - s.read else i + s.size - s.read;
      assert SlotFits(s, k) && Around(s.read, k, s.size) == i;
    }
  }
}
