/**
  USB port selection.  The frontend publishes the device wanted on each port as one packed word
  and then raises a dirty flag; the emulation thread clears the flag and reconciles the attached
  devices.  Opening and resetting the controller attach devices too, without touching the flag.

  Every atomic access is one step.  Any number of frontend threads may be inside
  USBSetPortDevice; device tables belong to the emulation thread alone.
*/
module UsbSelection {
  const PORTS: nat := 2
  const NO_DEVICE: int := 0
  const KEYBOARD: int := 1
  const MOUSE: int := 2
  const GUNCON2: int := 3

  // ------------------------------------------------------------------ the packed word

  // Words are signed 32-bit integers: `& 0xffff` is the remainder by 0x10000, `|` joins halves
  // that share no bit, `<< 16` wraps and `>> 16` rounds down.
  function Low16(x: int): (r: int)
    ensures 0 <= r < 0x10000
  {
    x % 0x10000
  }

  function ShiftLeft16(x: int): (r: int)
    requires 0 <= x < 0x10000
    ensures -0x8000_0000 <= r <= 0x7fff_ffff
  {
    if x < 0x8000 then x * 0x10000 else x * 0x10000 - 0x1_0000_0000
  }

  function PackPortSelection(device: int, inputPort: int): (w: int) {
    Low16(device) + ShiftLeft16(Low16(inputPort))
  }

  function DeviceOf(w: int): (d: int) { Low16(w) }
  function InputPortOf(w: int): (i: int) { Low16(w / 0x10000) }

  // Unpacking gives back the low halves of what was packed, also when the input port reaches the
  // sign bit, and packing never leaves the signed range.
  lemma UnpackAfterPack(device: int, inputPort: int)
    ensures DeviceOf(PackPortSelection(device, inputPort)) == Low16(device)
    ensures InputPortOf(PackPortSelection(device, inputPort)) == Low16(inputPort)
    ensures -0x8000_0000 <= PackPortSelection(device, inputPort) <= 0x7fff_ffff
  {
    var high := if Low16(inputPort) < 0x8000 then Low16(inputPort) else Low16(inputPort) - 0x10000;
    assert PackPortSelection(device, inputPort) == high * 0x10000 + Low16(device);
  }

  // Every signed word is the packing of what it unpacks to.
  lemma PackAfterUnpack(w: int)
    requires -0x8000_0000 <= w <= 0x7fff_ffff
    ensures PackPortSelection(DeviceOf(w), InputPortOf(w)) == w
  {
    var high, low := w / 0x10000, w % 0x10000;
    assert w == high * 0x10000 + low && -0x8000 <= high < 0x8000;
    assert Low16(high) == if high >= 0 then high else high + 0x10000;
    assert Low16(Low16(high)) == Low16(high) && Low16(low) == low;
  }

  // ------------------------------------------------------------------ the machine

  // s_usb_device_type and s_usb_device_input_port of one port.
  datatype Slot = Slot(device: int, inputPort: int)

  datatype Pc =
    | Idle
    | Reconcile(port: nat)        // about to load the selection and compare
    | ReconcileDestroy(port: nat)
    | ReconcileCreate(port: nat)  // about to load the selection again and attach
    | Creating(port: nat)         // USBopen and USBreset, attaching port by port

  datatype Call = Call(port: nat, device: int, inputPort: int)

  datatype State = State(
    selection: seq<int>,         // s_port_selection
    dirty: bool,                  // s_devices_dirty
    slots: seq<Slot>,
    open: bool,                   // s_qemu_ohci
    pc: Pc,                       // the emulation thread
    between: map<nat, nat>,       // frontend threads between their two stores, with the port
    published: set<Call>,         // pairs stored so far, the initial ones included
    failed: set<nat>)             // ports whose last device creation failed
  {
    predicate Shaped() { |selection| == PORTS && |slots| == PORTS }
  }

  datatype Action =
    | StoreSelection(setter: nat, call: Call)
    | StoreDirty(setter: nat)
    | Async                       // the exchange at the start of USBasync
    | Step(created: bool)         // the emulation thread; created: whether a device comes about
    | Open
    | Reset
    | Close

  predicate PcFits(pc: Pc) {
    match pc
    case Idle => true
    case Reconcile(p) => p <= PORTS
    case ReconcileDestroy(p) => p < PORTS
    case ReconcileCreate(p) => p < PORTS
    case Creating(p) => p <= PORTS
  }

  predicate Enabled(s: State, a: Action) {
    && s.Shaped() && PcFits(s.pc)
    && match a
       case StoreSelection(u, call) => u !in s.between && call.port < PORTS
       case StoreDirty(u) => u in s.between
       case Async => s.pc.Idle? && s.open
       case Step(_) => !s.pc.Idle?
       case Open => s.pc.Idle? && !s.open
       case Reset => s.pc.Idle?
       case Close => s.pc.Idle?
  }

  function Empty(port: int): Slot { Slot(NO_DEVICE, if port == 0 then 0 else 1) }

  predicate Known(device: int) { device == KEYBOARD || device == MOUSE || device == GUNCON2 }

  // USBCreateDevice: unknown kinds, and devices that do not come about, leave the port alone.
  function CreateDevice(s: State, port: nat, created: bool): State
    requires s.Shaped() && port < PORTS
  {
    var w := s.selection[port];
    if !Known(DeviceOf(w)) then s.(failed := s.failed - {port})
    else if !created then s.(failed := s.failed + {port})
    else s.(slots := s.slots[port := Slot(DeviceOf(w), InputPortOf(w))], failed := s.failed - {port})
  }

  // The comparison in USBReconcileDevices.
  predicate Agrees(slot: Slot, w: int) {
    slot.device == DeviceOf(w) && (slot.device == NO_DEVICE || slot.inputPort == InputPortOf(w))
  }

  function Next(s: State, a: Action): State
    requires Enabled(s, a)
  {
    match a
    case StoreSelection(u, call) =>
      s.(selection := s.selection[call.port := PackPortSelection(call.device, call.inputPort)],
         between := s.between[u := call.port], published := s.published + {call})
    case StoreDirty(u) => s.(dirty := true, between := s.between - {u})
    case Async => if s.dirty then s.(dirty := false, pc := Reconcile(0)) else s
    case Open => s.(open := true, pc := Creating(0))
    case Reset => if s.open then s.(slots := [Empty(0), Empty(1)], pc := Creating(0)) else s
    case Close => s.(slots := [Empty(0), Empty(1)], open := false)
    case Step(created) => NextStep(s, created)
  }

  function NextStep(s: State, created: bool): State
    requires s.Shaped() && PcFits(s.pc)
  {
    match s.pc
    case Idle => s
    case Reconcile(p) =>
      if p == PORTS then s.(pc := Idle)
      else if Agrees(s.slots[p], s.selection[p]) then s.(pc := Reconcile(p + 1), failed := s.failed - {p})
      else s.(pc := ReconcileDestroy(p))
    case ReconcileDestroy(p) => s.(slots := s.slots[p := Empty(p)], pc := ReconcileCreate(p))
    case ReconcileCreate(p) => CreateDevice(s, p, created).(pc := Reconcile(p + 1))
    case Creating(p) =>
      if p == PORTS then s.(pc := Idle) else CreateDevice(s, p, created).(pc := Creating(p + 1))
  }

  const INIT: State := State(seq(PORTS, p => PackPortSelection(NO_DEVICE, p)), false,
                             seq(PORTS, p => Empty(p)), false, Idle, map[],
                             set p | 0 <= p < PORTS :: Call(p, NO_DEVICE, p), {})

  // ------------------------------------------------------------------ the invariant

  // The port carries the device its word asks for; an unknown kind asks for no device.
  predicate Realizes(slot: Slot, w: int) {
    if Known(DeviceOf(w)) then slot == Slot(DeviceOf(w), InputPortOf(w)) else slot.device == NO_DEVICE
  }

  // The emulation thread has not finished with this port in its current pass.
  predicate Unfinished(pc: Pc, port: nat) {
    !pc.Idle? && pc.port <= port
  }

  ghost predicate SetterBetween(s: State, port: nat) {
    exists u :: u in s.between && s.between[u] == port
  }

  ghost predicate NotLost(s: State, p: nat)
    requires s.Shaped() && p < PORTS
  {
    s.open && !Realizes(s.slots[p], s.selection[p]) ==>
      s.dirty || SetterBetween(s, p) || Unfinished(s.pc, p) || p in s.failed
  }

  // A port about to be attached to is empty.
  ghost predicate EmptyBeforeCreate(s: State, p: nat)
    requires s.Shaped() && p < PORTS
  {
    || (s.open && !(s.pc.Creating? && s.pc.port <= p) && s.pc != ReconcileCreate(p))
    || s.slots[p].device == NO_DEVICE
  }

  // Attached devices are of known kinds, and a port without one has its own number as input port.
  ghost predicate OnlyKnownKinds(s: State) {
    forall p :: 0 <= p < |s.slots| ==> s.slots[p] == Slot(NO_DEVICE, p) || Known(s.slots[p].device)
  }

  ghost predicate Published(s: State, p: nat, device: int, inputPort: int) {
    exists c :: c in s.published && c.port == p && device == Low16(c.device) && inputPort == Low16(c.inputPort)
  }

  // No mixed pairs: both the word and the attached device come from one published pair.
  ghost predicate FromOneCall(s: State, p: nat)
    requires s.Shaped() && p < PORTS
  {
    && Published(s, p, DeviceOf(s.selection[p]), InputPortOf(s.selection[p]))
    && (s.slots[p].device == NO_DEVICE || Published(s, p, s.slots[p].device, s.slots[p].inputPort))
  }

  ghost predicate Inv(s: State) {
    && s.Shaped() && PcFits(s.pc) && (!s.pc.Idle? ==> s.open) && OnlyKnownKinds(s)
    && (forall p :: 0 <= p < PORTS ==> NotLost(s, p))
    && (forall p :: 0 <= p < PORTS ==> EmptyBeforeCreate(s, p))
    && (forall p :: 0 <= p < PORTS ==> FromOneCall(s, p))
  }

  lemma SettersKeepNotLost(s: State, a: Action, p: nat)
    requires Enabled(s, a) && (a.StoreSelection? || a.StoreDirty?) && p < PORTS && NotLost(s, p)
    ensures Next(s, a).Shaped() && NotLost(Next(s, a), p)
  {
    var n := Next(s, a);
    if a.StoreSelection? {
      assert a.setter in n.between && n.between[a.setter] == a.call.port;
      if a.call.port != p && SetterBetween(s, p) {
        var u :| u in s.between && s.between[u] == p;
        assert u in n.between && n.between[u] == p;
      }
    }
  }

  lemma OthersKeepNotLost(s: State, a: Action, p: nat)
    requires Enabled(s, a) && !a.StoreSelection? && !a.StoreDirty? && p < PORTS
    requires NotLost(s, p) && EmptyBeforeCreate(s, p) && OnlyKnownKinds(s)
    ensures Next(s, a).Shaped() && NotLost(Next(s, a), p)
  {
    var n := Next(s, a);
    assert n.between == s.between;
    assert SetterBetween(s, p) ==> SetterBetween(n, p);
    if a.Step? {
      PassKeepsNotLost(s, a.created, p);
    }
  }

  lemma PassKeepsNotLost(s: State, created: bool, p: nat)
    requires s.Shaped() && PcFits(s.pc) && p < PORTS
    requires NotLost(s, p) && EmptyBeforeCreate(s, p) && OnlyKnownKinds(s)
    ensures NextStep(s, created).Shaped() && NotLost(NextStep(s, created), p)
  {
    var n := NextStep(s, created);
    assert n.between == s.between && n.dirty == s.dirty;
    assert SetterBetween(s, p) ==> SetterBetween(n, p);
    if !s.pc.Idle? && s.pc.port == p {
      PassAtPort(s, created, p);
    }
  }

  // When the pass leaves a port behind, the port is right or its device has failed.
  lemma PassAtPort(s: State, created: bool, p: nat)
    requires s.Shaped() && PcFits(s.pc) && p < PORTS && !s.pc.Idle? && s.pc.port == p
    requires EmptyBeforeCreate(s, p) && OnlyKnownKinds(s)
    ensures var n := NextStep(s, created);
      n.Shaped() && (Unfinished(n.pc, p) || p in n.failed || !n.open || Realizes(n.slots[p], n.selection[p]))
  {
  }

  lemma StepKeepsEmpty(s: State, a: Action, p: nat)
    requires Enabled(s, a) && p < PORTS && EmptyBeforeCreate(s, p) && (!s.pc.Idle? ==> s.open)
    ensures Next(s, a).Shaped() && EmptyBeforeCreate(Next(s, a), p)
  {
  }

  lemma PublishedKept(s: State, n: State, p: nat, device: int, inputPort: int)
    requires Published(s, p, device, inputPort) && s.published <= n.published
    ensures Published(n, p, device, inputPort)
  {
    var c :| c in s.published && c.port == p && device == Low16(c.device) && inputPort == Low16(c.inputPort);
    assert c in n.published;
  }

  lemma StoreIsPublished(s: State, a: Action)
    requires Enabled(s, a) && a.StoreSelection?
    ensures var w := Next(s, a).selection[a.call.port];
      Published(Next(s, a), a.call.port, DeviceOf(w), InputPortOf(w))
  {
    UnpackAfterPack(a.call.device, a.call.inputPort);
    assert a.call in Next(s, a).published;
  }

  // Attached devices only ever take their pair from the word.
  lemma CreatedFromWord(s: State, created: bool, p: nat)
    requires s.Shaped() && PcFits(s.pc) && p < PORTS
    ensures var n := NextStep(s, created);
      && n.Shaped() && n.published == s.published && n.selection == s.selection
      && (n.slots[p] == s.slots[p] || n.slots[p].device == NO_DEVICE
          || n.slots[p] == Slot(DeviceOf(s.selection[p]), InputPortOf(s.selection[p])))
  {
  }

  lemma SlotsFollowWords(s: State, a: Action, p: nat)
    requires Enabled(s, a) && p < PORTS
    ensures var n := Next(s, a);
      && n.Shaped() && s.published <= n.published
      && (n.slots[p] == s.slots[p] || n.slots[p].device == NO_DEVICE
          || n.slots[p] == Slot(DeviceOf(s.selection[p]), InputPortOf(s.selection[p])))
      && (n.selection[p] == s.selection[p] || (a.StoreSelection? && a.call.port == p))
  {
    if a.Step? {
      CreatedFromWord(s, a.created, p);
    }
  }

  lemma StepKeepsOrigins(s: State, a: Action, p: nat)
    requires Enabled(s, a) && p < PORTS && FromOneCall(s, p)
    ensures Next(s, a).Shaped() && FromOneCall(Next(s, a), p)
  {
    var n := Next(s, a);
    SlotsFollowWords(s, a, p);
    PublishedKept(s, n, p, DeviceOf(s.selection[p]), InputPortOf(s.selection[p]));
    if s.slots[p].device != NO_DEVICE {
      PublishedKept(s, n, p, s.slots[p].device, s.slots[p].inputPort);
    }
    if n.selection[p] != s.selection[p] {
      StoreIsPublished(s, a);
    }
  }

  lemma PassKeepsKinds(s: State, created: bool)
    requires s.Shaped() && PcFits(s.pc) && OnlyKnownKinds(s)
    ensures var n := NextStep(s, created);
      n.Shaped() && PcFits(n.pc) && n.open == s.open && OnlyKnownKinds(n)
  {
  }

  lemma StepKeepsKinds(s: State, a: Action)
    requires Enabled(s, a) && OnlyKnownKinds(s) && (!s.pc.Idle? ==> s.open)
    ensures var n := Next(s, a);
      n.Shaped() && PcFits(n.pc) && (!n.pc.Idle? ==> n.open) && OnlyKnownKinds(n)
  {
    if a.Step? {
      PassKeepsKinds(s, a.created);
    }
  }

  lemma StepKeepsInv(s: State, a: Action)
    requires Inv(s) && Enabled(s, a)
    ensures Inv(Next(s, a))
  {
    var n := Next(s, a);
    StepKeepsKinds(s, a);
    forall p | 0 <= p < PORTS ensures NotLost(n, p) {
      if a.StoreSelection? || a.StoreDirty? {
        SettersKeepNotLost(s, a, p);
      } else {
        OthersKeepNotLost(s, a, p);
      }
    }
    forall p | 0 <= p < PORTS ensures EmptyBeforeCreate(n, p) { StepKeepsEmpty(s, a, p); }
    forall p | 0 <= p < PORTS ensures FromOneCall(n, p) { StepKeepsOrigins(s, a, p); }
  }

  // ------------------------------------------------------------------ whole runs

  predicate ValidRun(s: State, run: seq<Action>)
    decreases |run|
  {
    run == [] || (Enabled(s, run[0]) && ValidRun(Next(s, run[0]), run[1..]))
  }

  function After(s: State, run: seq<Action>): State
    requires ValidRun(s, run)
    decreases |run|
  {
    if run == [] then s else After(Next(s, run[0]), run[1..])
  }

  lemma {:induction false} RunKeepsInv(s: State, run: seq<Action>)
    requires Inv(s) && ValidRun(s, run)
    ensures Inv(After(s, run))
    decreases |run|
  {
    if run != [] {
      StepKeepsInv(s, run[0]);
      RunKeepsInv(Next(s, run[0]), run[1..]);
    }
  }

  lemma StartKeepsInv()
    ensures Inv(INIT)
  {
    forall p | 0 <= p < PORTS ensures FromOneCall(INIT, p) {
      UnpackAfterPack(NO_DEVICE, p);
      assert Call(p, NO_DEVICE, p) in INIT.published;
    }
  }

  // A selection is never lost: in every reachable state, an open port that does not carry the
  // device its word asks for is waiting on a raised flag, on a setter about to raise it, or on
  // the pass in progress; the only other way is a device that failed to come about.
  lemma SelectionIsNeverLost(run: seq<Action>, p: nat)
    requires ValidRun(INIT, run) && p < PORTS
    ensures var s := After(INIT, run);
      && s.Shaped()
      && (s.open && !Realizes(s.slots[p], s.selection[p]) ==>
            s.dirty || SetterBetween(s, p) || Unfinished(s.pc, p) || p in s.failed)
  {
    StartKeepsInv();
    RunKeepsInv(INIT, run);
    assert NotLost(After(INIT, run), p);
  }

  // The word and the attached device each come from one call, never from two.
  lemma PairsAreNeverMixed(run: seq<Action>, p: nat)
    requires ValidRun(INIT, run) && p < PORTS
    ensures var s := After(INIT, run);
      && s.Shaped()
      && Published(s, p, DeviceOf(s.selection[p]), InputPortOf(s.selection[p]))
      && (s.slots[p].device == NO_DEVICE || Published(s, p, s.slots[p].device, s.slots[p].inputPort))
  {
    StartKeepsInv();
    RunKeepsInv(INIT, run);
    assert FromOneCall(After(INIT, run), p);
  }

  // ------------------------------------------------------------------ one undisturbed pass

  // Steps the emulation thread has left in its pass.
  function Rank(pc: Pc): (n: nat)
    requires PcFits(pc)
  {
    match pc
    case Idle => 0
    case Reconcile(p) => 3 * (PORTS - p) + 1
    case ReconcileDestroy(p) => 3 * (PORTS - p)
    case ReconcileCreate(p) => 3 * (PORTS - p) - 1
    case Creating(p) => 3 * (PORTS - p) + 1
  }

  // The emulation thread alone, until its pass ends; every device comes about.
  function FinishPass(s: State): (n: State)
    requires s.Shaped() && PcFits(s.pc)
    decreases Rank(s.pc)
  {
    if s.pc.Idle? then s else FinishPass(NextStep(s, true))
  }

  lemma {:induction false} PassKeeps(s: State)
    requires Inv(s) && s.open
    ensures var n := FinishPass(s);
      && Inv(n) && n.pc.Idle? && n.open && n.selection == s.selection && n.between == s.between
      && n.dirty == s.dirty && n.failed <= s.failed
    decreases Rank(s.pc)
  {
    if !s.pc.Idle? {
      StepKeepsInv(s, Step(true));
      PassKeeps(NextStep(s, true));
    }
  }

  // One USBasync with nobody in between brings every port in line with its selection: nothing a
  // setter did before is needed a second time.
  lemma AsyncAppliesSelections(run: seq<Action>, p: nat)
    requires ValidRun(INIT, run) && p < PORTS
    requires Enabled(After(INIT, run), Async)
    requires var s := After(INIT, run); s.between == map[] && p !in s.failed
    ensures var n := FinishPass(Next(After(INIT, run), Async));
      n.Shaped() && n.selection == After(INIT, run).selection && Realizes(n.slots[p], n.selection[p])
  {
    StartKeepsInv();
    RunKeepsInv(INIT, run);
    var s := After(INIT, run);
    StepKeepsInv(s, Async);
    PassKeeps(Next(s, Async));
    assert NotLost(FinishPass(Next(s, Async)), p);
  }

  // ------------------------------------------------------------------ whole operations

  // The ports the pass has left behind carry what their words ask for, and none of them failed.
  ghost predicate BehindRealized(s: State)
    requires s.Shaped()
  {
    forall p :: 0 <= p < PORTS && !Unfinished(s.pc, p) ==>
      Realizes(s.slots[p], s.selection[p]) && p !in s.failed
  }

  lemma StepRealizes(s: State)
    requires s.Shaped() && PcFits(s.pc) && !s.pc.Idle? && OnlyKnownKinds(s) && BehindRealized(s)
    requires forall p :: 0 <= p < PORTS ==> EmptyBeforeCreate(s, p)
    ensures NextStep(s, true).Shaped() && BehindRealized(NextStep(s, true))
  {
    var n := NextStep(s, true);
    forall p | 0 <= p < PORTS && !Unfinished(n.pc, p)
      ensures Realizes(n.slots[p], n.selection[p]) && p !in n.failed
    {
      assert EmptyBeforeCreate(s, p);
      if s.pc.port == p {
        RealizesNow(s, p);
      } else {
        OtherPortStays(s, p);
      }
    }
  }

  lemma OtherPortStays(s: State, p: nat)
    requires s.Shaped() && PcFits(s.pc) && !s.pc.Idle? && p < PORTS && s.pc.port != p
    ensures var n := NextStep(s, true);
      && n.Shaped() && n.slots[p] == s.slots[p] && n.selection == s.selection && (p in n.failed <==> p in s.failed)
      && (!Unfinished(n.pc, p) ==> !Unfinished(s.pc, p))
  {
  }

  lemma RealizesNow(s: State, p: nat)
    requires s.Shaped() && PcFits(s.pc) && !s.pc.Idle? && p < PORTS && s.pc.port == p && OnlyKnownKinds(s)
    requires EmptyBeforeCreate(s, p) && !Unfinished(NextStep(s, true).pc, p)
    ensures NextStep(s, true).Shaped() && Realizes(NextStep(s, true).slots[p], s.selection[p])
    ensures p !in NextStep(s, true).failed
  {
  }

  // A port that carries what its word asks for is left alone: nothing is detached.
  lemma AgreeingPortIsLeftAlone(s: State, created: bool)
    requires s.Shaped() && s.pc.Reconcile? && s.pc.port < PORTS && OnlyKnownKinds(s)
    requires var w := s.selection[s.pc.port];
      Realizes(s.slots[s.pc.port], w) && (Known(DeviceOf(w)) || DeviceOf(w) == NO_DEVICE)
    ensures NextStep(s, created) == s.(pc := Reconcile(s.pc.port + 1), failed := s.failed - {s.pc.port})
  {
  }

  // A pass with nobody in between, whether it opens, resets or reconciles, ends with every port
  // carrying what its word asks for, whatever the flag says and whatever failed before.
  lemma {:induction false} PassRealizes(s: State)
    requires Inv(s) && s.open && BehindRealized(s)
    ensures var n := FinishPass(s); n.Shaped() && n.selection == s.selection
    ensures forall p :: 0 <= p < PORTS ==> Realizes(FinishPass(s).slots[p], s.selection[p])
    ensures forall p :: 0 <= p < PORTS ==> p !in FinishPass(s).failed
    decreases Rank(s.pc)
  {
    if s.pc.Idle? {
      forall p | 0 <= p < PORTS ensures Realizes(s.slots[p], s.selection[p]) && p !in s.failed {
        assert !Unfinished(s.pc, p);
      }
    } else {
      StepKeepsInv(s, Step(true));
      StepRealizes(s);
      PassRealizes(NextStep(s, true));
    }
  }

  // Opening and resetting the controller attach every port's device.
  lemma OpenAndResetAttach(run: seq<Action>, a: Action, p: nat)
    requires ValidRun(INIT, run) && p < PORTS && (a.Open? || a.Reset?) && Enabled(After(INIT, run), a)
    requires a.Reset? ==> After(INIT, run).open
    ensures var s, n := After(INIT, run), FinishPass(Next(After(INIT, run), a));
      n.Shaped() && n.open && n.selection == s.selection && Realizes(n.slots[p], s.selection[p])
  {
    StartKeepsInv();
    RunKeepsInv(INIT, run);
    var s := After(INIT, run);
    StepKeepsInv(s, a);
    PassKeeps(Next(s, a));
    PassRealizes(Next(s, a));
  }

  // Closing leaves no device attached.
  lemma CloseDetaches(run: seq<Action>, p: nat)
    requires ValidRun(INIT, run) && p < PORTS && Enabled(After(INIT, run), Close)
    ensures var n := Next(After(INIT, run), Close); !n.open && n.Shaped() && n.slots[p] == Slot(NO_DEVICE, p)
  {
  }

  // USBSetPortDevice publishes its pair and raises the flag, and changes nothing else that the
  // emulation thread sees.
  lemma SetPublishes(s: State, u: nat, call: Call) returns (stored: State, raised: State)
    requires Inv(s) && Enabled(s, StoreSelection(u, call))
    ensures stored == Next(s, StoreSelection(u, call))
    ensures Enabled(stored, StoreDirty(u)) && raised == Next(stored, StoreDirty(u)) && Inv(raised)
    ensures raised.selection == s.selection[call.port := raised.selection[call.port]]
    ensures DeviceOf(raised.selection[call.port]) == Low16(call.device)
    ensures InputPortOf(raised.selection[call.port]) == Low16(call.inputPort)
    ensures raised.dirty && raised.pc == s.pc && raised.slots == s.slots && raised.open == s.open
    ensures raised.between == s.between
  {
    stored := Next(s, StoreSelection(u, call));
    StepKeepsInv(s, StoreSelection(u, call));
    raised := Next(stored, StoreDirty(u));
    StepKeepsInv(stored, StoreDirty(u));
    UnpackAfterPack(call.device, call.inputPort);
    assert s.between[u := call.port] - {u} == s.between;
  }

  // A USBasync that finds the flag up brings every port in line.
  lemma RaisedAsyncRealizes(s: State, p: nat)
    requires Inv(s) && Enabled(s, Async) && s.dirty && p < PORTS
    ensures Next(s, Async).Shaped() && PcFits(Next(s, Async).pc) && FinishPass(Next(s, Async)).Shaped()
    ensures Realizes(FinishPass(Next(s, Async)).slots[p], s.selection[p])
  {
    StepKeepsInv(s, Async);
    PassRealizes(Next(s, Async));
  }

  // USBSetPortDevice and then USBasync, with nobody in between: the port of the call carries the
  // device and the input port of the call, or nothing for an unknown kind; every other port what
  // its own word asks for.
  lemma SetThenAsync(s: State, u: nat, call: Call, p: nat) returns (stored: State, raised: State)
    requires Inv(s) && s.pc.Idle? && s.open && p < PORTS && Enabled(s, StoreSelection(u, call))
    ensures stored == Next(s, StoreSelection(u, call))
    ensures Enabled(stored, StoreDirty(u)) && raised == Next(stored, StoreDirty(u))
    ensures Enabled(raised, Async) && FinishPass(Next(raised, Async)).Shaped()
    ensures var slot := FinishPass(Next(raised, Async)).slots[p];
      if p != call.port then Realizes(slot, s.selection[p])
      else if Known(Low16(call.device)) then slot == Slot(Low16(call.device), Low16(call.inputPort))
      else slot.device == NO_DEVICE
  {
    stored, raised := SetPublishes(s, u, call);
    RaisedAsyncRealizes(raised, p);
  }
}
