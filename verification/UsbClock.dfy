/**
  The USB frame timer.  USBasync hands the emulated cycles to the controller's frame timer, one
  frame boundary at a time, and moves the USB clock.  Whether the bus goes on after a boundary is
  up to the guest, so it is an input here: `runs(k)` says whether frame k is started.  Between two
  calls the guest may start or stop the bus, and USBreset may clear the clock.
*/
module UsbClock {
  import opened Arithmetic

  // The timer variables between two calls, with the number of frames started so far.
  datatype Clock = Clock(clocks: nat, remaining: nat, timer: nat, frames: nat)

  // How far the current frame has come.
  function Progress(c: Clock, frameTime: nat): int { frameTime - c.timer }

  // What one USBasync promises.  Cycles go into frames and nowhere else; boundaries are passed
  // in order while the bus goes on; and cycles are left over only when the bus has stopped.
  ghost predicate Advances(frameTime: nat, before: Clock, cycles: nat, runs: nat -> bool, after: Clock) {
    && after.clocks == before.clocks + before.remaining + cycles
    && before.frames <= after.frames
    && before.remaining + cycles - after.remaining
       == (after.frames - before.frames) * frameTime + before.timer - after.timer
    && (forall k: nat :: before.frames <= k < after.frames ==> runs(k))
    && (before.timer == 0 ==> after == before.(clocks := after.clocks, remaining := before.remaining + cycles))
    && (before.timer > 0 && after.timer == 0 ==> !runs(after.frames))
    && (after.timer > 0 ==> after.remaining == 0)
    && (after.frames > before.frames ==> after.timer <= frameTime)
    && (after.frames == before.frames ==> after.timer <= before.timer)
  }

  class UsbTimer {
    var clocks: nat          // s_usb_clocks
    var remaining: nat       // s_usb_remaining
    var timer: nat           // eof_timer
    var frames: nat          // calls of ohci_sof
    const frameTime: nat     // g_usb_frame_time

    ghost function Now(): (c: Clock)
      reads this
    {
      Clock(clocks, remaining, timer, frames)
    }

    constructor (frameTime: nat)
      requires frameTime >= 1
      ensures Now() == Clock(0, 0, 0, 0) && this.frameTime == frameTime
    {
      clocks, remaining, timer, frames := 0, 0, 0, 0;
      this.frameTime := frameTime;
    }

    // ohci_frame_boundary, as far as the timer goes: the next frame is started or the bus stops.
    method FrameBoundary(runs: nat -> bool)
      requires timer == 0
      modifies this`timer, this`frames
      ensures if runs(old(frames)) then timer == frameTime && frames == old(frames) + 1
              else timer == 0 && frames == old(frames)
    {
      if runs(frames) {
        timer, frames := frameTime, frames + 1;
      }
    }

    // ohci_bus_start: a new frame begins at once, whatever was left of the current one.
    method BusStart()
      modifies this`timer, this`frames
      ensures Now() == old(Now()).(timer := frameTime, frames := old(frames) + 1)
    {
      timer := 0;
      timer, frames := frameTime, frames + 1;
    }

    // ohci_bus_stop
    method BusStop()
      modifies this`timer
      ensures Now() == old(Now()).(timer := 0)
    {
      if timer != 0 {
        timer := 0;
      }
    }

    // USBreset; the controller's hard reset stops the bus.
    method Reset()
      modifies this
      ensures Now() == Clock(0, 0, 0, old(frames))
    {
      clocks, remaining := 0, 0;
      BusStop();
    }

    method Async(cycles: nat, runs: nat -> bool)
      requires frameTime >= 1
      modifies this
      ensures Advances(frameTime, old(Now()), cycles, runs, Now())
    {
      remaining := remaining + cycles;
      clocks := clocks + remaining;
      if timer > 0 {
        while remaining >= timer
          invariant clocks == old(clocks) + old(remaining) + cycles
          invariant frames >= old(frames) && timer > 0
          invariant old(remaining) + cycles - remaining
                    == (frames - old(frames)) * frameTime + old(timer) - timer
          invariant forall k: nat :: old(frames) <= k < frames ==> runs(k)
          invariant frames > old(frames) ==> timer <= frameTime
          invariant frames == old(frames) ==> timer == old(timer)
          decreases remaining
        {
          remaining := remaining - timer;
          timer := 0;
          ghost var started := frames;
          FrameBoundary(runs);
          if timer == 0 {
            break;
          }
          assert (frames - old(frames)) * frameTime == (started - old(frames)) * frameTime + frameTime;
        }
        if remaining > 0 && timer > 0 {
          var m := if remaining < timer then remaining else timer;
          timer := timer - m;
          remaining := remaining - m;
        }
      }
    }
  }

  // ------------------------------------------------------------------ one call

  // A timer that wraps around the frame length: where it stands after `total` cycles.
  lemma WrapAround(frameTime: nat, timer: nat, total: nat, frames: nat, after: nat)
    requires 1 <= timer <= frameTime && 1 <= after <= frameTime
    requires total == frames * frameTime + timer - after
    ensures if total < timer then frames == 0 && after == timer - total
            else frames == 1 + (total - timer) / frameTime && after == frameTime - (total - timer) % frameTime
  {
    if total < timer {
      if frames > 0 {
        FewerMultiples(frameTime, 0, frames);
      }
    } else {
      assert frames > 0;
      var whole := frames - 1;
      assert frames * frameTime == whole * frameTime + frameTime;
      RemainderIs(total - timer, frameTime, whole, frameTime - after);
    }
  }

  // On a running bus the promise fixes the outcome: the timer wraps around the frame length,
  // nothing is left over, and the clock moves by what was handed in.
  lemma RunningBusInClosedForm(frameTime: nat, before: Clock, cycles: nat, runs: nat -> bool, after: Clock)
    requires Advances(frameTime, before, cycles, runs, after)
    requires 1 <= before.timer <= frameTime && forall k: nat :: runs(k)
    ensures after.remaining == 0 && 1 <= after.timer <= frameTime
    ensures var total := before.remaining + cycles;
      if total < before.timer
      then after.frames == before.frames && after.timer == before.timer - total
      else after.frames == before.frames + 1 + (total - before.timer) / frameTime
           && after.timer == frameTime - (total - before.timer) % frameTime
  {
    assert runs(after.frames);
    WrapAround(frameTime, before.timer, before.remaining + cycles, after.frames - before.frames, after.timer);
  }

  // ------------------------------------------------------------------ whole runs

  datatype Event = Async(cycles: nat, runs: nat -> bool) | BusStart | BusStop | Reset

  ghost predicate Happens(frameTime: nat, before: Clock, e: Event, after: Clock) {
    match e
    case Async(cycles, runs) => Advances(frameTime, before, cycles, runs, after)
    case BusStart => after == before.(timer := frameTime, frames := before.frames + 1)
    case BusStop => after == before.(timer := 0)
    case Reset => after == Clock(0, 0, 0, before.frames)
  }

  // The clock before the first event, between events and after the last.
  ghost predicate IsRun(frameTime: nat, events: seq<Event>, states: seq<Clock>) {
    && |states| == |events| + 1
    && forall i :: 0 <= i < |events| ==> Happens(frameTime, states[i], events[i], states[i + 1])
  }

  // The timer driven through a sequence of events makes such a run.
  method Play(usb: UsbTimer, events: seq<Event>) returns (states: seq<Clock>)
    requires usb.frameTime >= 1
    modifies usb
    ensures IsRun(usb.frameTime, events, states)
    ensures states[0] == old(usb.Now()) && states[|events|] == usb.Now()
  {
    states := [Clock(usb.clocks, usb.remaining, usb.timer, usb.frames)];
    for i := 0 to |events|
      invariant |states| == i + 1 && states[0] == old(usb.Now()) && states[i] == usb.Now()
      invariant forall k :: 0 <= k < i ==> Happens(usb.frameTime, states[k], events[k], states[k + 1])
    {
      match events[i] {
        case Async(cycles, runs) => usb.Async(cycles, runs);
        case BusStart => usb.BusStart();
        case BusStop => usb.BusStop();
        case Reset => usb.Reset();
      }
      states := states + [Clock(usb.clocks, usb.remaining, usb.timer, usb.frames)];
    }
  }

  function CyclesOf(e: Event): nat { if e.Async? then e.cycles else 0 }

  function TotalCycles(events: seq<Event>): (n: nat) {
    if events == [] then 0 else TotalCycles(events[..|events| - 1]) + CyclesOf(events[|events| - 1])
  }

  // What is left of the current frame when the bus is started anew, stopped or reset.
  function Discarded(before: Clock, e: Event): nat { if e.Async? then 0 else before.timer }

  function TotalDiscarded(events: seq<Event>, states: seq<Clock>): (n: nat)
    requires |states| == |events| + 1
    decreases |events|
  {
    if events == [] then 0
    else
      var n := |events| - 1;
      TotalDiscarded(events[..n], states[..n + 1]) + Discarded(states[n], events[n])
  }

  // Cycles left over that a reset throws away.
  function TotalDropped(events: seq<Event>, states: seq<Clock>): (n: nat)
    requires |states| == |events| + 1
    decreases |events|
  {
    if events == [] then 0
    else
      var n := |events| - 1;
      TotalDropped(events[..n], states[..n + 1]) + if events[n].Reset? then states[n].remaining else 0
  }

  lemma EventConserves(frameTime: nat, before: Clock, e: Event, after: Clock)
    requires Happens(frameTime, before, e, after)
    ensures before.frames <= after.frames
    ensures before.remaining + CyclesOf(e) - after.remaining - (if e.Reset? then before.remaining else 0)
            == (after.frames - before.frames) * frameTime + before.timer - after.timer - Discarded(before, e)
  {
  }

  // Cycles are conserved over every run, whatever the guest and the bus do: those handed in and
  // neither left over nor dropped are the frames started times their length plus the change in
  // progress, less what was discarded of frames broken off.
  lemma {:induction false} CyclesConserved(frameTime: nat, events: seq<Event>, states: seq<Clock>)
    requires IsRun(frameTime, events, states)
    ensures var first, last := states[0], states[|events|];
      && first.frames <= last.frames
      && first.remaining + TotalCycles(events) - last.remaining - TotalDropped(events, states)
         == (last.frames - first.frames) * frameTime + Progress(last, frameTime) - Progress(first, frameTime)
            - TotalDiscarded(events, states)
    decreases |events|
  {
    if events != [] {
      var n := |events| - 1;
      CyclesConserved(frameTime, events[..n], states[..n + 1]);
      var first, mid, last := states[0], states[n], states[n + 1];
      EventConserves(frameTime, mid, events[n], last);
      Distributes(mid.frames - first.frames, last.frames - mid.frames, frameTime);
    }
  }

  lemma Distributes(a: nat, b: nat, d: nat)
    ensures (a + b) * d == a * d + b * d
  {
  }

  // What the clock should read: the cycles handed in since the last reset.
  function DueClock(start: nat, events: seq<Event>): (n: nat) {
    if events == [] then start
    else
      var last := events[|events| - 1];
      if last.Reset? then 0 else DueClock(start, events[..|events| - 1]) + CyclesOf(last)
  }

  // No USBasync since the last reset was entered with cycles left over.
  ghost predicate NoLeftovers(events: seq<Event>, states: seq<Clock>)
    requires |states| == |events| + 1
    decreases |events|
  {
    events == [] ||
    var n := |events| - 1;
    || events[n].Reset?
    || (NoLeftovers(events[..n], states[..n + 1]) && (events[n].Async? ==> states[n].remaining == 0))
  }

  // The clock reads what it should if and only if no call since the last reset was entered with
  // cycles left over from an earlier one; otherwise it is ahead.
  lemma {:induction false} ClockIsExactIff(frameTime: nat, events: seq<Event>, states: seq<Clock>)
    requires IsRun(frameTime, events, states)
    ensures states[|events|].clocks >= DueClock(states[0].clocks, events)
    ensures states[|events|].clocks == DueClock(states[0].clocks, events) <==> NoLeftovers(events, states)
    decreases |events|
  {
    if events != [] {
      var n := |events| - 1;
      ClockIsExactIff(frameTime, events[..n], states[..n + 1]);
      assert Happens(frameTime, states[n], events[n], states[n + 1]);
    }
  }

  // ------------------------------------------------------------------ a bus that keeps running

  ghost predicate BusKeepsRunning(events: seq<Event>) {
    forall i :: 0 <= i < |events| ==> events[i].Async? && forall k: nat :: events[i].runs(k)
  }

  // While the bus keeps running every call ends with nothing left over and a positive timer.
  lemma {:induction false} RunningBusLeavesNothing(frameTime: nat, events: seq<Event>, states: seq<Clock>, i: nat)
    requires IsRun(frameTime, events, states) && BusKeepsRunning(events) && i < |states|
    requires states[0].remaining == 0 && 1 <= states[0].timer <= frameTime
    ensures states[i].remaining == 0 && 1 <= states[i].timer <= frameTime
  {
    if i > 0 {
      RunningBusLeavesNothing(frameTime, events, states, i - 1);
      assert Happens(frameTime, states[i - 1], events[i - 1], states[i]);
      RunningBusInClosedForm(frameTime, states[i - 1], events[i - 1].cycles, events[i - 1].runs, states[i]);
    }
  }

  // Then nothing is discarded or dropped, and the clock is due what was handed in.
  lemma {:induction false} RunningBusTotals(events: seq<Event>, states: seq<Clock>, start: nat)
    requires BusKeepsRunning(events) && |states| == |events| + 1
    requires forall i :: 0 <= i < |states| ==> states[i].remaining == 0
    ensures TotalDiscarded(events, states) == 0 && TotalDropped(events, states) == 0
    ensures DueClock(start, events) == start + TotalCycles(events) && NoLeftovers(events, states)
    decreases |events|
  {
    if events != [] {
      var n := |events| - 1;
      assert events[n].Async?;
      RunningBusTotals(events[..n], states[..n + 1], start);
    }
  }

  // On a bus that never stops, USB time is emulated time and is made up of whole frames and the
  // change of progress through the current one.
  lemma UsbTimeIsConserved(frameTime: nat, events: seq<Event>, states: seq<Clock>)
    requires IsRun(frameTime, events, states) && BusKeepsRunning(events)
    requires states[0].remaining == 0 && 1 <= states[0].timer <= frameTime
    ensures var first, last := states[0], states[|events|];
      && last.clocks - first.clocks == TotalCycles(events)
      && TotalCycles(events)
         == (last.frames - first.frames) * frameTime + Progress(last, frameTime) - Progress(first, frameTime)
      && last.remaining == 0 && last.timer > 0
  {
    forall i | 0 <= i < |states| ensures states[i].remaining == 0 {
      RunningBusLeavesNothing(frameTime, events, states, i);
    }
    RunningBusLeavesNothing(frameTime, events, states, |events|);
    RunningBusTotals(events, states, states[0].clocks);
    ClockIsExactIff(frameTime, events, states);
    CyclesConserved(frameTime, events, states);
  }

  // From power-on: once the guest has started the bus and lets it run, the clock is the cycles
  // handed in, and these are the frames completed and the progress through the current one.
  lemma TimeSinceBusStart(frameTime: nat, events: seq<Event>, states: seq<Clock>)
    requires frameTime >= 1 && IsRun(frameTime, events, states) && states[0] == Clock(0, 0, 0, 0)
    requires events != [] && events[0] == BusStart && BusKeepsRunning(events[1..])
    ensures var last := states[|events|];
      last.clocks == TotalCycles(events[1..]) == (last.frames - 1) * frameTime + Progress(last, frameTime)
  {
    var rest, clocks := events[1..], states[1..];
    assert Happens(frameTime, states[0], events[0], states[1]);
    forall i | 0 <= i < |rest| ensures Happens(frameTime, clocks[i], rest[i], clocks[i + 1]) {
      assert Happens(frameTime, states[i + 1], events[i + 1], states[i + 2]);
    }
    UsbTimeIsConserved(frameTime, rest, clocks);
  }

  // ------------------------------------------------------------------ a stopped bus

  // A stopped bus lets the clock run away: the cycles of each call stay over and are counted
  // again by every later call, so n calls of c cycles move it by c * n * (n + 1) / 2.
  lemma {:induction false} StoppedBusCountsAgain(frameTime: nat, events: seq<Event>, states: seq<Clock>, c: nat)
    requires IsRun(frameTime, events, states) && states[0].timer == 0 && states[0].remaining == 0
    requires forall i :: 0 <= i < |events| ==> events[i].Async? && events[i].cycles == c
    ensures var n, last := |events|, states[|events|];
      && last.timer == 0 && last.remaining == n * c
      && 2 * (last.clocks - states[0].clocks) == c * (n * (n + 1))
  {
    if events != [] {
      var n := |events| - 1;
      StoppedBusCountsAgain(frameTime, events[..n], states[..n + 1], c);
      assert Happens(frameTime, states[n], events[n], states[n + 1]);
      assert 2 * (n * c + c) + c * (n * (n + 1)) == c * ((n + 1) * (n + 2));
    }
  }
}
