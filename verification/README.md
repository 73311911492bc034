# Verified models of PCSX2's concurrent protocols and in-place algorithms

This project models the parts of PCSX2's libretro core whose correctness is hardest to see by
reading: the hand-written synchronisation protocols, the backtracking matcher, the BC7 block
decoder, the placeholder allocator, the TLB page loops, the USB timer and path normalisation.
`dafny verify dfyconfig.toml` checks the whole project.

**Protocols** are interleaving transition systems. A datatype `State` holds the shared words, the
position of every thread and the history the theorems speak about; `Enabled` and `Next` give one
atomic operation per step; an inductive invariant is kept by every step (`StepKeepsInv`), hence
over every run, and the theorems are read off it.

- `WorkSema`: one worker, any number of producers, one `WaitForEmpty` caller at a time; spinning,
  untimed and timed waits, `Kill` and `Reset` included.
- `UserspaceSemaphore`, `RecursiveMutex`, `FaultSlots`, `CpuResume`: any number of threads.
- `SpscRing`: one producer and one consumer, every load and store a step; refines a bounded FIFO.
- `UsbSelection`: frontend setters against the emulation thread that opens, resets, closes and
  reconciles the USB ports.

**Sequential code** keeps its loops: methods are proved against specification functions or
predicates, about which the laws are proved as lemmas.

- `Wildcard`: the iterative matcher against recursive globbing.
- `Arithmetic`: facts about multiples that the clock, the page masks and BC7 share.
- `Bits`, `Bc7Insert`, `Bc7Anchors`, `Bc7Fields`, `Bc7Unpack`, `Bc7Interp`, `Bc7Decode`,
  `Bc7Tables`, `Bc7Block`: the BC7 decoder against a sequential bit reader and scalar arithmetic,
  as in section 20.1 (BC7) of the Khronos Data Format Specification 1.3.
- `Placeholder`: the split/coalesce range map of the Windows shared memory area.
- `TlbMask`, `Tlb`, `TlbTranslate`, `TlbRuns`: page masks, map and unmap loops, the architecture's
  translation, and whole sequences of TLB writes.
- `UsbClock`: the frame timer loop of `USBasync`, with the guest starting and stopping the bus.
- `PathText`, `PathCanonical`, `PathNames`, `PathMeaning`: the POSIX branch of the path functions.

## Where the code does not do what is said of it

For each, a lemma at a concrete run or input shows the failure, and another gives the exact
condition under which the code is right.

- `WaitForWorkTimed` says a stray `m_sema` token is absorbed. It can forge the empty-waiter flag:
  acknowledging a word that still reads SLEEPING leaves the flag bit behind, and a later
  `WaitForEmpty` can answer true too early (`WorkSema.RacedTimeoutBreaksWaitForEmpty`). As long as
  no Reset comes in, a call's answer is sound in every continuation, a Kill included, if and only
  if, where it commits to its sleep, no token is banked or owed on `m_empty_sema`, or nothing it
  asks about is undone (`WorkSema.CommittedCallIsSoundIff`). No work is ever lost.
- `WaitForEmpty` is documented as returning false if the worker is dead. A worker that is killed
  and then reset while a call is between its sleep and its second look at the word makes that call
  answer true with its items unprocessed, without any race (`WorkSema.ResetBreaksWaitForEmpty`). A
  Reset under a committed call is harmless if and only if nothing the call asks about is undone
  (`WorkSema.ResetUnderCallIsSoundIff`).
- A worker asleep without a token may have fully notified items waiting, as long as another
  notifier still owes its post (`WorkSema.FinishedCallsMayWaitForAnothersPost`). Read off the word
  the condition is exact: with at most one notification counted, every queued item's own call is
  still under way (`WorkSema.NoLostWakeup`); for every larger count both outcomes occur with the
  same word, no token and the same pending post (`WorkSema.SameWordBothWays`).
- A refused `MapViewOfFile3` leaves its range outside both the placeholders and the mappings
  (`Placeholder.RefusedViewIsLost`, `Placeholder.PartitionIffNothingLost`).
- The TLB match filter drops pages when the page mask has a hole (`TlbTranslate.HoleDropsPage`,
  `TlbTranslate.FilterAcceptsAllIff`); overlapping entries take pages from each other
  (`TlbRuns.OverlapTakesPage`, `TlbRuns.WriteKeepsOtherEntryIff`); and pages are mapped whatever
  the entry's ASID (`TlbTranslate.ForeignEntryIsMapped`, `TlbTranslate.EntryIsTranslationInIff`).
- While the USB bus is stopped, cycles left over from one call are counted again by every later
  call (`UsbClock.StoppedBusCountsAgain`, `UsbClock.ClockIsExactIff`).
- `Path::Canonicalize` turns `/` and `../..` into the empty path (`PathMeaning.PlacesLost`,
  `PathMeaning.CanonicalizeKeepsPlaceIff`).
- `pcsx2_path_join` is documented as matching `Path::Combine`. On POSIX it also drops backslashes
  (`PathText.BackslashIsDropped`, `PathText.CombineIsJoinIff`), and it leaves inner separator runs
  and a trailing separator alone (`PathText.InnerRunIsKept`, `PathText.JoinIsCombineIff`).

## Model

| member | source | states |
|---|---|---|
| `WorkSema.MasksAreDivMod` | common/Threading.h:291-299 | on every 32-bit word, masking with the flag and with flag - 1 is quotient and remainder by 2^30, and setting the flag keeps the count |
| `WorkSema.FetchAddWraps` | common/Threading.h:311-311 | fetch_add wraps as a signed 32-bit word |
| `WorkSema.StepKeepsInv` | common/Semaphore.cpp:100-270 | every atomic step of worker, producers and waiter keeps the whole invariant: items conserved, word in range and counting the notifications exactly, nothing missed, wake and answer on their way, m_sema tokens exact |
| `WorkSema.RunKeepsInv` | common/Semaphore.cpp:100-270 | the same over every run |
| `WorkSema.NoLostWakeup` | common/Semaphore.cpp:136-199 | in every interleaving, timed waits and stray tokens included, for a worker asleep with no token: with no post under way no queued item's fetch_add has happened, and with at most one notification counted in the word every queued item is before its fetch_add or between it and its post |
| `WorkSema.QuietStepExists` | common/Threading.h:303-314 | while a notified item is unprocessed and the worker alive, the worker or a pending post can move |
| `WorkSema.NotifiedItemGetsProcessed` | common/Semaphore.cpp:136-199 | a notified item is processed within a bound computed from the state, whatever the order of the worker's steps and the pending posts |
| `WorkSema.CheckForWorkAnswers` | common/Semaphore.cpp:116-133 | CheckForWork answers true if and only if something was notified since the last look, keeping the waiter's flag; otherwise false, after a post if the flag was up |
| `WorkSema.CheckForWorkPosts` | common/Semaphore.cpp:128-133 | that post gives one token and the answer is false |
| `WorkSema.WaitForWorkIdlesIff` | common/Semaphore.cpp:147-170 | the waits go straight on to work if and only if something was notified since the last look, and otherwise go idle with the waiter's post due first |
| `WorkSema.IdleEndsForWork` | common/Semaphore.cpp:170-197 | an idle worker moves on only for a notification, or for the stray token of a raced timeout |
| `WorkSema.IdleWorkerParks` | common/Semaphore.cpp:170-194 | left alone it posts what it owes, spins out its budget and parks, with a timeout only in the timed wait |
| `WorkSema.TimedWaitGivesUpIff` | common/Semaphore.cpp:246-252 | WaitForWorkTimed gives up if and only if its timeout found nothing notified, leaving the word RUNNING_0 |
| `WorkSema.EmptyMeansProcessed` | common/Semaphore.cpp:201-213 | WaitForEmpty returning true means every item notified before the call is processed, whatever was raced or forged before and whether or not the worker is killed, unless the call's own commit met a stray token or a Reset came under the committed call with an item undone |
| `WorkSema.CommittedCallIsSoundIff` | common/Semaphore.cpp:203-213 | where a call's compare-and-swap succeeds: its answer is sound in every continuation without a Reset if and only if no token is banked or owed there, or nothing it asks about is undone |
| `WorkSema.ResetUnderCallIsSoundIff` | common/Semaphore.cpp:267-270 | after a Reset under a committed call its answer is sound in every continuation if and only if nothing it asks about is undone |
| `WorkSema.StrayAnswerIsTaken` | common/Semaphore.cpp:211-212 | otherwise the stray token is posted if owed, ends the sleep and the answer is true too early |
| `WorkSema.StepKeepsAnswerSound` | common/Semaphore.cpp:201-213 | every step, Kill included, but a commit into a stray token and a Reset under an undone call keeps all answers sound |
| `WorkSema.ImmediateAnswerIsSound` | common/Semaphore.cpp:205-207 | a call that finds the worker idle and returns true at once has everything it asks about processed |
| `WorkSema.ImmediateAnswers` | common/Semaphore.cpp:205-207 | on an idle worker with nothing notified since WaitForEmpty answers true at once, on a killed one false |
| `WorkSema.CallMovesOn` | common/Semaphore.cpp:203-210 | otherwise it loads, and commits with its flag set exactly if the word has held still |
| `WorkSema.CallCommitsOrReturns` | common/Semaphore.cpp:203-210 | a call commits or returns after boundedly many steps of its own, whatever the worker and pending posts do, if nobody notifies and no timeout strikes |
| `WorkSema.WokenCallAnswers` | common/Semaphore.cpp:211-212 | a call with a token takes it and answers by the state it finds |
| `WorkSema.FalseMeansDead` | common/Semaphore.cpp:205-212 | a call answers false only while the worker is killed and not yet reset |
| `WorkSema.FalseMeansKilled` | common/Semaphore.cpp:260-265 | over every run the answer false has a Kill before it |
| `WorkSema.SleeperIsAnswered` | common/Semaphore.cpp:128-130 | a thread asleep in WaitForEmpty has its token within a bound computed from the state, whatever the order of the worker's steps and the pending posts |
| `WorkSema.AnswerStepExists` | common/Semaphore.cpp:162-168 | until then the worker or a pending post can move |
| `WorkSema.SemaphoreTokensConserved` | common/Semaphore.cpp:162-168 | over every run without a forgery m_empty_sema tokens, owed posts and the flag bit add up to the waiters asleep and every call commits clean; without a raced timeout there is no forgery, and m_sema tokens and owed posts are the sleeps to be ended |
| `WorkSema.TokensAddUpIff` | common/Semaphore.cpp:255-256 | from any state where the m_empty_sema count adds up, a step keeps it if and only if it is not an acknowledgement of a word reading SLEEPING |
| `WorkSema.FinishedCallsMayWaitForAnothersPost` | common/Threading.h:303-314 | for every k a reachable state with the worker asleep, no token, word 2 k + 1 and k finished notifications' items still queued |
| `WorkSema.SameWordBothWays` | common/Threading.h:303-314 | for every count of two notifications or more, reachable states with the same word, no token and the same pending post, one with a finished call's item queued and one with every queued item's own call under way |
| `WorkSema.RacedTimeoutLeavesToken` | common/Semaphore.cpp:246-252 | a notification racing a timeout leaves a token on m_sema with nothing to do |
| `WorkSema.StrayTokenForgesFlag` | common/Semaphore.cpp:196-197 | the token ends the next sleep and the AND of SLEEPING with the flag leaves the flag set with nobody waiting |
| `WorkSema.CallMeetsStrayAnswer` | common/Semaphore.cpp:203-210 | a reachable state where a call has committed with a stray token banked and an item undone |
| `WorkSema.RacedTimeoutBreaksWaitForEmpty` | common/Semaphore.cpp:201-213 | a reachable state where WaitForEmpty has answered true with a previously notified item unprocessed |
| `WorkSema.ResetBreaksWaitForEmpty` | common/Semaphore.cpp:260-270 | a reachable state, nothing raced, where a call on a killed and reset worker has answered true with its item unprocessed |
| `WorkSema.CleanCommit` | common/Semaphore.cpp:205-209 | that call commits with no token banked or owed |
| `WorkSema.ResetWithoutDrainingIsSafeIff` | common/Semaphore.cpp:267-270 | a worker that waits at once after Reset can end asleep over a notified item, the word saying nothing is new, if and only if one was left in the queue; unless a timeout was raced, with no token and no post under way |
| `UserspaceSemaphore.StepKeepsInv` | common/Threading.h:377-403 | every step of Post, Wait and TryWait keeps committed waiters equal to max(0, -counter) plus kernel tokens plus posters in flight, and the permit count |
| `UserspaceSemaphore.RunKeepsInv` | common/Threading.h:377-403 | the same over every run |
| `UserspaceSemaphore.PermitsConserved` | common/Threading.h:377-403 | acquisitions never exceed permits given, and a sleeper with no token and no post under way means every permit is taken |
| `UserspaceSemaphore.FreePermitWakesSleeper` | common/Threading.h:377-387 | with a permit free and a thread asleep, a kernel post or a wake is already due |
| `UserspaceSemaphore.TryWaitFailsOnlyEmpty` | common/Threading.h:395-399 | TryWait fails exactly on a load that found no permit |
| `UserspaceSemaphore.TryWaitAlone` | common/Threading.h:390-403 | with a permit free and nobody in between it takes one |
| `UserspaceSemaphore.TrySwapIsExact` | common/Threading.h:400-401 | its swap takes one permit exactly if the counter holds what was loaded |
| `UserspaceSemaphore.WaitSleepsIff` | common/Threading.h:383-387 | Wait sleeps exactly when there is no permit, and otherwise takes one |
| `UserspaceSemaphore.PostLetsOneThrough` | common/Threading.h:377-381 | a contended Post lets one sleeper through, whichever wakes |
| `UserspaceSemaphore.PostThenWait` | common/Threading.h:377-387 | an uncontended Post banks a permit that a Wait takes back |
| `RecursiveMutex.StepKeepsInv` | common/Threads.cpp:417-436 | every load and store of Lock and Unlock keeps owner, depth and inner lock consistent for every thread |
| `RecursiveMutex.RunKeepsInv` | common/Threads.cpp:417-436 | the same over every run |
| `RecursiveMutex.MutualExclusion` | common/Threads.cpp:417-436 | reading one's own identity unlocked implies holding the inner lock, holders exclude each other, depth equals the owner's outstanding Lock calls and is zero when the lock is free |
| `RecursiveMutex.CallTakesEffect` | common/Threads.cpp:417-436 | whatever the others do, a Lock that has returned holds once more than before and an Unlock once less, the last one giving up owner word and inner lock |
| `RecursiveMutex.CallsArePossible` | common/Threads.cpp:417-436 | between calls a thread can always lock, and unlock exactly while it owns the mutex |
| `RecursiveMutex.OwnStepLeadsOn` | common/Threads.cpp:417-436 | every own step brings a call closer to its end |
| `RecursiveMutex.OnlyTheLockHoldsUp` | common/Threads.cpp:425-425 | a call is held up only by an inner lock that another thread has |
| `SpscRing.StepKeepsInv` | common/boost_spsc_queue.hpp:81-155 | every single load, construction, destruction and store keeps cursors, slots and both threads' positions consistent |
| `SpscRing.StepRefinesFifo` | common/boost_spsc_queue.hpp:96-155 | each step is a step of a FIFO of capacity max_size - 1; a push is refused exactly when it is full, a pop exactly when it was empty at its first load |
| `SpscRing.RunKeepsInv` | common/boost_spsc_queue.hpp:81-155 | the same over every run |
| `SpscRing.RingIsFifo` | common/boost_spsc_queue.hpp:96-155 | over every interleaving pops return the pushes in order, no enabled step reads or destroys a raw slot or builds over a live one, each element is destroyed once and in order, and the cursors tell the number held |
| `SpscRing.PushCall` | common/boost_spsc_queue.hpp:96-109 | a whole push with the consumer moving anywhere in between: refused if the ring is full at its look at read_index_, otherwise the value ends behind all others |
| `SpscRing.PushIsNeverStuck` | common/boost_spsc_queue.hpp:96-109 | the producer's next step is always possible |
| `SpscRing.PopCall` | common/boost_spsc_queue.hpp:111-124 | a whole pop with the producer moving anywhere in between: refused if the ring was empty at its first load, otherwise it hands out the oldest element |
| `SpscRing.FrontThenPop` | common/boost_spsc_queue.hpp:126-139 | front and pop() hand out the oldest element |
| `SpscRing.PopIsNeverStuck` | common/boost_spsc_queue.hpp:111-155 | the consumer's next step is always possible |
| `SpscRing.SizeIsExact` | common/boost_spsc_queue.hpp:191-198 | size(), with the other thread moving between its two loads, is the number held at its second load for the producer and at its first for the consumer |
| `SpscRing.Destroy` | common/boost_spsc_queue.hpp:81-87 | draining destroys every element still held, so each pushed element is destroyed exactly once and every slot ends raw |
| `SpscRing.PopTail` | common/boost_spsc_queue.hpp:111-124 | the rest of a pop that has seen an element hands out the oldest one |
| `FaultSlots.StepKeepsInv` | common/HostSys.cpp:102-149 | every step of register, unregister and of nested filter activations keeps slots, positions and activation stacks consistent, and leaks no claim |
| `FaultSlots.RunKeepsInv` | common/HostSys.cpp:102-149 | the same over every run |
| `FaultSlots.OwnSlotsKept` | common/HostSys.cpp:125-139 | a table change that leaves a thread's own entries in place leaves all its activations on its own slot |
| `FaultSlots.SlotsAreSound` | common/HostSys.cpp:223-283 | in every reachable state a published id sits in a slot its thread claimed, ids are unique, an activation works on its own thread's slot, at most one activation per thread is live however faults nest, and the guard is set exactly while one is |
| `FaultSlots.PublishedFaultIsFound` | common/HostSys.cpp:141-149 | a fault on a thread whose identity is published never leaves at the lookup: the lookup goes on to its slot and from there to the guard |
| `FaultSlots.NestedFaultChainsOut` | common/HostSys.cpp:238-244 | a fault that reaches the guard while an outer activation is live passes on to the previous handler and changes nothing else |
| `FaultSlots.FirstFaultEntersCallback` | common/HostSys.cpp:238-272 | a fault at the guard with no activation of its thread live enters the callback with the flag set |
| `FaultSlots.FaultRunsCallbackOnce` | common/HostSys.cpp:223-275 | an undisturbed fault on a registered thread is in the callback at exactly one of its steps and leaves flags and table as they were |
| `FaultSlots.RegisterPublishes` | common/HostSys.cpp:102-118 | registering returns with the identity published in a slot the thread claims, its flag clear |
| `FaultSlots.UnregisterWithdraws` | common/HostSys.cpp:125-139 | unregistering returns with the identity gone and no claim left |
| `FaultSlots.RegistrationEnds` | common/HostSys.cpp:102-139 | every own step brings either call closer to its end; registering passes a slot exactly if it is claimed and gives up only past the last |
| `FaultSlots.RegistrationTakesEffect` | common/HostSys.cpp:102-139 | whatever other threads and faults do, a thread back from registering is published and one back from unregistering is not |
| `CpuResume.StepKeepsInv` | libretro/main.cpp:2303-2313 | every step of the emulation thread and of pausing, resuming, resetting and unloading calls keeps the resume invariant |
| `CpuResume.RunKeepsInv` | libretro/main.cpp:2303-2313 | the same over every run |
| `CpuResume.ResumeIsNeverLost` | libretro/main.cpp:371-375 | committed to Wait with the VM no longer paused, a token is banked or a waker is between its store and its Post, for any number of stale posts and callers |
| `CpuResume.ThreadLeavesTheWait` | libretro/main.cpp:2802-2814 | once all calls have returned and the VM is not paused, at most two of its own steps take the thread out of the wait, and the next ends it if the VM has shut down |
| `CpuResume.CallTakesEffect` | libretro/main.cpp:358-375 | once it has returned with nobody else calling and the thread storing no state, a resume or reset of a valid VM leaves it Running, a pause Paused, and unloading Shutdown |
| `CpuResume.ResumeWakesTheThread` | libretro/main.cpp:371-375 | from any reachable state with a valid VM a resume that has returned leaves it Running and a waiting thread on its way to executing |
| `CpuResume.ResumeOfNoVm` | pcsx2/VMManager.cpp:1028-1042 | without a valid VM a resume leaves the state alone and still posts |
| `CpuResume.PauseMayBeOverwritten` | pcsx2/VMManager.cpp:843-846 | a state store of the executing thread can undo a pause that has returned |
| `CpuResume.OwingBeginsWithStore` | libretro/main.cpp:371-375 | a call comes to owe its post by storing a state, or by finding no VM to resume |
| `CpuResume.ResetOutcomes` | pcsx2/VMManager.cpp:810-846 | before it resumes, a reset turns Running into Resetting, leaves Paused alone and turns Resetting into Running |
| `CpuResume.PausedThreadParks` | libretro/main.cpp:2303-2313 | while the VM stays paused every step of the thread brings it closer to waiting, stale posts being eaten by the re-check loop |
| `UsbSelection.UnpackAfterPack` | libretro/USB.cpp:45-54 | unpacking a packed pair gives its low halves, also with the sign bit reached, and the word stays a signed 32-bit integer |
| `UsbSelection.PackAfterUnpack` | libretro/USB.cpp:45-54 | every signed word is the packing of what it unpacks to |
| `UsbSelection.StepKeepsInv` | libretro/USB.cpp:73-153 | every store, load, comparison, creation and destruction keeps the selection invariant |
| `UsbSelection.RunKeepsInv` | libretro/USB.cpp:73-233 | the same over every run of setters, open, reset, close and USBasync |
| `UsbSelection.SelectionIsNeverLost` | libretro/USB.cpp:136-153 | an open port that differs from its word has the flag raised, a setter between its stores, the current pass not done with it, or a device that failed to come about |
| `UsbSelection.PairsAreNeverMixed` | libretro/USB.cpp:88-117 | the word, and the pair of an attached device, each come from a single published call |
| `UsbSelection.PassKeeps` | libretro/USB.cpp:136-153 | an undisturbed pass ends, keeps the invariant and leaves words and flag alone |
| `UsbSelection.AsyncAppliesSelections` | libretro/USB.cpp:223-233 | one undisturbed USBasync brings every port whose last creation did not fail in line with its selection |
| `UsbSelection.PassRealizes` | libretro/USB.cpp:136-153 | an undisturbed pass of any kind ends with every port carrying what its word asks for |
| `UsbSelection.OpenAndResetAttach` | libretro/USB.cpp:173-221 | opening and resetting attach every port's device |
| `UsbSelection.CloseDetaches` | libretro/USB.cpp:190-199 | closing leaves no device attached, each port with its own number as input port |
| `UsbSelection.SetPublishes` | libretro/USB.cpp:73-80 | a set publishes its pair and raises the flag |
| `UsbSelection.SetThenAsync` | libretro/USB.cpp:73-153 | a set and then an undisturbed USBasync leave the port with the device and input port of the call, or none for an unknown kind, and the other ports with their own |
| `UsbSelection.AgreeingPortIsLeftAlone` | libretro/USB.cpp:144-148 | a port that carries what its word asks for is not detached |
| `UsbClock.UsbTimer.Async` | libretro/USB.cpp:253-275 | the loop terminates; cycles go into frames and nowhere else, boundaries are passed in order, cycles are left over only on a stopped bus |
| `UsbClock.UsbTimer.BusStart` | pcsx2/USB/libretro-usb/usb-ohci.cpp:1172-1180 | a full frame begins at once |
| `UsbClock.UsbTimer.BusStop` | pcsx2/USB/libretro-usb/usb-ohci.cpp:1183-1187 | the timer is cleared and nothing else changes |
| `UsbClock.UsbTimer.Reset` | libretro/USB.cpp:201-216 | clock and remainder are cleared and the bus stops |
| `UsbClock.Play` | libretro/USB.cpp:223-275 | the timer driven through any sequence of events makes a run of the kind the theorems speak of |
| `UsbClock.RunningBusInClosedForm` | libretro/USB.cpp:253-275 | on a running bus the timer and frame count are the quotient and remainder by the frame length, with nothing left over |
| `UsbClock.CyclesConserved` | libretro/USB.cpp:253-275 | over any run of calls, bus starts and stops and resets, cycles handed in and neither left over nor dropped equal frames started times their length plus the change in progress, less what was discarded of frames broken off |
| `UsbClock.RunningBusLeavesNothing` | libretro/USB.cpp:253-275 | while the bus keeps running every call ends with zero remainder and a positive timer |
| `UsbClock.ClockIsExactIff` | libretro/USB.cpp:253-254 | over any such run the clock reads the cycles since the last reset if and only if no call since then was entered with cycles left over; otherwise it is ahead |
| `UsbClock.UsbTimeIsConserved` | libretro/USB.cpp:253-275 | on a bus that never stops, the clock moves by the cycles, and these are whole frames plus the change in progress |
| `UsbClock.TimeSinceBusStart` | libretro/USB.cpp:253-275 | from power-on, once the guest starts the bus and lets it run, the clock is the cycles handed in and these are the frames completed plus the progress |
| `UsbClock.StoppedBusCountsAgain` | libretro/USB.cpp:253-255 | on a stopped bus n calls of c cycles move the clock by c n (n + 1) / 2 |
| `Wildcard.WildcardMatch` | common/StringUtil.cpp:65-112 | answers true exactly when the recursive glob relation holds, for every subject, mask and character comparison, and terminates |
| `Wildcard.MatchFromStar` | common/StringUtil.cpp:83-111 | the backtracking loop, entered at the first star, decides the glob relation of the whole strings |
| `Wildcard.CommitToNextStar` | common/StringUtil.cpp:85-92 | on reaching the next star, earlier starts of the previous one need not be reconsidered |
| `Wildcard.RetryNext` | common/StringUtil.cpp:100-104 | after a mismatch the match hangs on the subject from the next start on |
| `Wildcard.SubjectUsedUp` | common/StringUtil.cpp:108-111 | with the subject used up the current start decides |
| `Wildcard.StarUnfolds` | common/StringUtil.cpp:85-92 | a star matches exactly if what follows it matches some suffix |
| `Wildcard.NoStarIsPointwise` | common/StringUtil.cpp:67-81 | a mask without stars matches character by character, `?` standing for any |
| `Wildcard.QuestionMarks` | common/StringUtil.cpp:67-69 | n question marks match exactly the subjects of length n |
| `Wildcard.PlainMask` | common/StringUtil.cpp:67-69 | a mask of plain characters matches only itself under exact comparison |
| `Bc7Insert.InsertAtShifts` | common/TextureDecompress.cpp:562-568 | one insertion keeps the bits below the anchor's top bit, puts zero there and moves the rest up |
| `Bc7Insert.InsertAllBits` | common/TextureDecompress.cpp:694-697 | for any index width and any strictly increasing anchors, every bit of every index ends where the format says, zero at the anchors |
| `Bc7Fields.ReaderSkipsAnchors` | common/TextureDecompress.cpp:694-704 | a reader taking one bit fewer at each anchor stands width * i minus the anchors behind it |
| `Bc7Fields.IndexAgrees` | common/TextureDecompress.cpp:694-704 | index i sliced from the padded word is what the sequential reader reads |
| `Bc7Fields.TakeFields` | common/TextureDecompress.cpp:674-683 | the mask-and-shift loop reads equal fields one after the other |
| `Bc7Fields.TakeWeights` | common/TextureDecompress.cpp:699-704 | the index loop over the padded word yields the reader's sixteen indices |
| `Bc7Unpack.Unpack02` | common/TextureDecompress.cpp:654-704 | partition, endpoints, P-bits and indices of modes 0 and 2 equal the sequential reader's |
| `Bc7Unpack.Unpack137` | common/TextureDecompress.cpp:751-810 | the same for modes 1, 3 and 7 |
| `Bc7Unpack.Unpack45` | common/TextureDecompress.cpp:856-916 | the same for modes 4 and 5, with the index runs swapped by the selector |
| `Bc7Unpack.Unpack6` | common/TextureDecompress.cpp:948-1009 | the same for mode 6, read through bit fields |
| `Bc7Anchors.SecondAnchorUsable` | common/TextureDecompress.cpp:530-530 | second-subset anchors are texels 1 to 15 |
| `Bc7Anchors.ThirdAnchorsUsable` | common/TextureDecompress.cpp:532-540 | third-subset anchors are texels 1 to 15 and differ, so the insertions are in increasing order |
| `Bc7Tables.SecondAnchorInSubset` | common/TextureDecompress.cpp:506-530 | every second-subset anchor lies in subset 1, and texel 0 in subset 0 |
| `Bc7Tables.ThirdAnchor1InSubset` | common/TextureDecompress.cpp:518-535 | every first anchor of three-subset partitions lies in subset 1 |
| `Bc7Tables.ThirdAnchor2InSubset` | common/TextureDecompress.cpp:518-540 | every second anchor of three-subset partitions lies in subset 2 |
| `Bc7Tables.AnchorsMeetSubsets` | common/TextureDecompress.cpp:694-697 | the anchors the decoder pads are one texel of each subset of the partition it looks up |
| `Bc7Tables.ModeIsLowestSetBit` | common/TextureDecompress.cpp:542-560 | the 256-entry table gives the lowest set bit of the first byte, 8 if none |
| `Bc7Tables.LookUpMode` | common/TextureDecompress.cpp:1069-1069 | the decoder's table lookup finds the lowest set bit |
| `Bc7Interp.DequantReplicates` | common/TextureDecompress.cpp:573-574 | widening keeps the value on top, repeats its high bits below and reaches 0 and 255 |
| `Bc7Interp.DequantRepeatsHighBits` | common/TextureDecompress.cpp:573-574 | the bits below are the value's own highest bits |
| `Bc7Interp.WeightIsNearest` | common/TextureDecompress.cpp:502-504 | the weights are the multiples of 64 / (2^bits - 1) rounded to nearest |
| `Bc7Interp.BlendIsBetween` | common/TextureDecompress.cpp:576-578 | every interpolated value lies between its two endpoints |
| `Bc7Interp.LanesAreSixteenBits` | common/TextureDecompress.cpp:594-610 | lanes wrap at 2^16 and packing clamps them, read as signed, to a byte |
| `Bc7Interp.BlendLaneIsExact` | common/TextureDecompress.cpp:594-597 | a 16-bit lane computes the scalar blend without overflow, for all bytes and weights |
| `Bc7Interp.Interp2IsScalar` | common/TextureDecompress.cpp:599-615 | the SSE2 2-bit interpolator gives the four scalar colours in order, without saturation |
| `Bc7Interp.Interp3IsScalar` | common/TextureDecompress.cpp:617-635 | the SSE2 3-bit interpolator gives the eight scalar colours in order |
| `Bc7Interp.Interp4RoundIsScalar` | common/TextureDecompress.cpp:1016-1029 | one round of the mode 6 SSE2 loop gives four scalar colours |
| `Bc7Interp.Interp4Sse` | common/TextureDecompress.cpp:1011-1041 | the whole mode 6 loop gives the sixteen scalar colours |
| `Bc7Decode.DequantizedIsComponent` | common/TextureDecompress.cpp:706-708 | the dequantisation of each routine is the format's endpoint component, for every mode |
| `Bc7Decode.DecodeSubsets` | common/TextureDecompress.cpp:638-839 | modes 0, 1, 2, 3 and 7 give every texel its reference colour |
| `Bc7Decode.RotateIsSwap` | common/TextureDecompress.cpp:941-942 | rotation k exchanges alpha with component k - 1 and nothing else, rotation 0 does nothing |
| `Bc7Decode.Decode45` | common/TextureDecompress.cpp:841-946 | modes 4 and 5 give every texel its reference colour, rotation included |
| `Bc7Decode.Decode6` | common/TextureDecompress.cpp:998-1064 | mode 6 gives every texel its reference colour |
| `Bc7Decode.UnpackBc7` | common/TextureDecompress.cpp:1066-1106 | for every block and any partition map the pixels are those of the reference decoder; false and transparent black when there is no mode |
| `Bc7Block.DecodeBlock` | common/TextureDecompress.cpp:1066-1106 | the same with the decoder's own partition tables |
| `Placeholder.CanonicalIsUnique` | common/HostSys.cpp:770-795 | a set of offsets has one representation by disjoint, non-adjacent ranges |
| `Placeholder.FindPlaceholder` | common/HostSys.cpp:670-692 | returns the range holding the offset, and end() exactly when there is none |
| `Placeholder.SharedMemoryMappingArea.constructor` | common/HostSys.cpp:559-567 | a new area is one placeholder over all of it |
| `Placeholder.SharedMemoryMappingArea.Carve` | common/HostSys.cpp:698-727 | the ranges stay canonical and lose exactly the mapped offsets |
| `Placeholder.SharedMemoryMappingArea.Map` | common/HostSys.cpp:695-746 | placeholders and views partition the area before and after; a refused view loses its range |
| `Placeholder.SharedMemoryMappingArea.JoinLeft` | common/HostSys.cpp:770-782 | the released range joins the range ending at it or becomes one of its own |
| `Placeholder.SharedMemoryMappingArea.JoinRight` | common/HostSys.cpp:784-795 | the grown range joins the one starting at its end, leaving the ranges canonical |
| `Placeholder.SharedMemoryMappingArea.Release` | common/HostSys.cpp:770-795 | the ranges stay canonical and gain exactly the released offsets |
| `Placeholder.SharedMemoryMappingArea.Unmap` | common/HostSys.cpp:759-803 | the partition is kept, the view is gone, and a refused unmap changes nothing |
| `Placeholder.SharedMemoryMappingArea.MapThenUnmap` | common/HostSys.cpp:695-803 | Unmap after Map restores the exact set of ranges |
| `Placeholder.RangesFollowViews` | common/HostSys.cpp:695-803 | the ranges are determined by the views that are out, so any sequence of calls back to the same views gives the same ranges |
| `Placeholder.PartitionIffNothingLost` | common/HostSys.cpp:734-736 | placeholders and mapped views partition the area if and only if no view was refused |
| `Placeholder.RefusedViewIsLost` | common/HostSys.cpp:734-736 | a refused view of offsets 4 to 7 leaves them neither placeholder nor mapped |
| `TlbMask.OffsetPassesIff` | pcsx2/COP0.cpp:161-161 | an aligned base plus an offset passes the match filter exactly when the offset has no bit in the mask |
| `TlbMask.ContiguousPassesAll` | pcsx2/COP0.cpp:155-161 | with Mask + 1 a power of two every offset of both halves passes |
| `TlbMask.HoleIsRejected` | pcsx2/COP0.cpp:155-161 | with a hole in the mask some offset of the first half is rejected |
| `TlbMask.ContiguousIsPow2` | pcsx2/COP0.cpp:236-236 | a mask without holes plus one is a power of two |
| `TlbMask.Pow2IsContiguous` | pcsx2/COP0.cpp:236-236 | and every power of two minus one is such a mask |
| `Tlb.Cop0.MapHalf` | pcsx2/COP0.cpp:153-167 | the loop lays exactly the accepted pages of one half over the page map |
| `Tlb.Cop0.MapTlb` | pcsx2/COP0.cpp:137-185 | an entry's pages, or the four scratchpad pages, are laid over the page map |
| `Tlb.Cop0.UnmapHalf` | pcsx2/COP0.cpp:198-211 | the loop removes exactly the accepted pages of one half |
| `Tlb.Cop0.UnmapTlb` | pcsx2/COP0.cpp:187-227 | an entry's pages are removed and no others |
| `Tlb.Cop0.WriteTlb` | pcsx2/COP0.cpp:229-246 | the entry is replaced and its pages mapped |
| `Tlb.Cop0.WriteIndexed` | pcsx2/COP0.cpp:263-273 | TLBWI unmaps the old entry's pages and maps the new one's |
| `Tlb.Cop0.WriteRandom` | pcsx2/COP0.cpp:275-285 | TLBWR does the same at Random |
| `TlbTranslate.FirstPage` | pcsx2/COP0.cpp:238-238 | for any mask the base passes its own filter and both halves end below the top of the address space |
| `TlbTranslate.FilterAcceptsAllIff` | pcsx2/COP0.cpp:153-183 | the filter accepts every page of both halves, or of the first, if and only if Mask + 1 is a power of two |
| `TlbTranslate.HalvesApart` | pcsx2/COP0.cpp:156-173 | the halves share no page and all pages exist, whatever the mask |
| `TlbTranslate.HoleDropsPage` | pcsx2/COP0.cpp:155-161 | with PageMask 0x4000 at address 0, page 2 of the first half is not mapped |
| `TlbTranslate.EntryIsTranslation` | pcsx2/COP0.cpp:137-246 | for contiguous masks the pages mapped for an entry, and their targets, are those the architecture translates through it in its own address space |
| `TlbTranslate.EntryIsTranslationInIff` | pcsx2/COP0.cpp:239-240 | in a given address space they are the architecture's if and only if the entry is global or of that space, or does not translate the page |
| `TlbTranslate.ForeignEntryIsMapped` | pcsx2/COP0.cpp:153-163 | an entry of address space 1 whose page is mapped in space 0 |
| `TlbTranslate.EntryKnowsItsSpace` | pcsx2/COP0.cpp:237-240 | the stored g and asid say in which address spaces the entry holds, and nMask complements the mask |
| `TlbRuns.WriteKeepsOtherEntryIff` | pcsx2/COP0.cpp:263-285 | a write leaves another entry's pages right if and only if it neither takes away nor redirects a shared page |
| `TlbRuns.OverlapTakesPage` | pcsx2/COP0.cpp:263-273 | two entries for page 0: clearing the second unmaps the page of the first |
| `TlbRuns.WriteKeepsMapped` | pcsx2/COP0.cpp:263-285 | with disjoint entries every entry's pages stay right |
| `TlbRuns.WriteKeepsRest` | pcsx2/COP0.cpp:187-227 | pages no entry covers are unmapped, or as they were if none ever did |
| `TlbRuns.PageMapIsUnion` | pcsx2/COP0.cpp:263-285 | after any run of writes with disjoint entries the page map is the union of the live entries over what was there before |
| `TlbRuns.LookupIsTranslation` | pcsx2/COP0.cpp:263-285 | for contiguous masks a page some entry translates leads there, and a page none translates is unmapped if one ever covered it and as it was otherwise, each entry taken in its own address space |
| `TlbRuns.LookupInSpaceIff` | pcsx2/COP0.cpp:263-285 | in a given address space a translated page leads where the architecture says if and only if its entry is global or of that space |
| `TlbRuns.PlayWrites` | pcsx2/COP0.cpp:263-285 | the write instructions, one after the other, leave the entries and pages of the run |
| `PathText.PathAppendString` | common/FileSystem.cpp:203-244 | appends the collapsed source, and never leaves two adjacent separators behind a destination without |
| `PathText.CollapseHasNoDouble` | common/FileSystem.cpp:222-243 | collapsed text has no two adjacent separators |
| `PathText.CollapseKeeps` | common/FileSystem.cpp:222-243 | text without adjacent separators is unchanged |
| `PathText.TrimNative` | common/FileSystem.cpp:262-267 | the trimming loop removes at most one character and never empties the string |
| `PathText.ToNativePath` | common/FileSystem.cpp:257-270 | computes the native form |
| `PathText.NativeIsNormal` | common/FileSystem.cpp:257-270 | native form has no adjacent separators, a trailing one only as the root, is empty only for the empty path, and is idempotent |
| `PathText.Combine` | common/FileSystem.cpp:443-458 | computes both collapsed parts around one separator, trimmed |
| `PathText.CombineIsJoinIff` | common/Pcsx2Defs.h:385-425 | Combine equals the C join with runs collapsed and trailing separators removed if and only if the join drops no backslash |
| `PathText.JoinIsCombineIff` | common/Pcsx2Defs.h:385-425 | the join equals Combine to the character if and only if it drops no backslash, base has no inner separator run, and next has none and no trailing separator |
| `PathText.BackslashIsDropped` | common/Pcsx2Defs.h:409-412 | for `a\` and `b` Combine keeps the backslash and the join drops it |
| `PathText.InnerRunIsKept` | common/Pcsx2Defs.h:414-424 | for `a//b` and `c` the join keeps both separators and Combine one |
| `PathText.NoBackslashNoDifference` | common/Pcsx2Defs.h:385-425 | so they agree on all backslash-free inputs |
| `PathText.PathJoin` | common/Pcsx2Defs.h:399-425 | the buffer holds the join cut to what fits with its terminator, nothing beyond it changes, and without a buffer nothing happens |
| `PathCanonical.SplitNativePath` | common/FileSystem.cpp:409-441 | the loop yields the maximal names, after an empty component for a rooted path |
| `PathCanonical.JoinString` | common/FileSystem.cpp:277-289 | joins with one separator between neighbours |
| `PathCanonical.SplitAfterJoin` | common/FileSystem.cpp:277-289 | splitting undoes joining on every well-formed list but the root alone |
| `PathCanonical.Canonicalize` | common/FileSystem.cpp:291-320 | the loop computes the reduction of the components |
| `PathCanonical.ReducedIsCanonical` | common/FileSystem.cpp:296-317 | the kept list has "." only alone and ".." only first |
| `PathCanonical.CanonicalizeIdempotent` | common/FileSystem.cpp:291-320 | on every string the result splits into such a list and a second pass changes nothing |
| `PathNames.NativeKeepsComponents` | common/FileSystem.cpp:257-270 | native form has the same components |
| `PathNames.CombineConcatenates` | common/FileSystem.cpp:443-458 | the names of the combination are those of base followed by those of next |
| `PathNames.CombineIsClean` | common/FileSystem.cpp:443-458 | it has no adjacent and no trailing separators |
| `PathNames.CombineIsRootedIff` | common/FileSystem.cpp:443-458 | it is rooted exactly when base is, or base has no names and next has one |
| `PathMeaning.CanonicalizeKeepsPlaceIff` | common/FileSystem.cpp:291-320 | Canonicalize leads to the same place if and only if a relative path climbs at most one level, or an absolute one never climbs over the root and does not end there |
| `PathMeaning.PlacesLost` | common/FileSystem.cpp:304-311 | "/" and "../.." both become the empty path |

## Left out

- Memory ordering weaker than sequential consistency: every protocol step is one atomic operation on one shared memory.
- `WorkSema.StepKeepsInv`: assumes fewer than 2^29 notifications between two acknowledgements, one `WaitForEmpty` caller at a time, that the worker drains its queue after each wake and after `Reset`, and that only the worker kills and resets.
- `UserspaceSemaphore.PermitsConserved`: does not model 32-bit wrap-around of the counter; the aarch64 WFE variant is not part of this model.
- `RecursiveMutex.MutualExclusion`: assumes thread identities are not zero and that only a holder unlocks.
- `SpscRing.RingIsFifo`: `front`/`pop()` are used only on a queue its caller has found non-empty; `reset`, and `size()` or `empty()` called by a third thread, are not modelled.
- `FaultSlots.SlotsAreSound`: what the callback does, and the previous handler, are not modelled; identities are not zero.
- `CpuResume.ResumeIsNeverLost`: nothing is claimed about `cpu_thread_pause`, which polls a mirrored word.
- `UsbSelection.SelectionIsNeverLost`: a device that fails to come about is recorded and not retried, as in the code; attaching to the controller is not modelled.
- `UsbClock.UsbTimer.Async`: unbounded integers for the 64-bit clock; what a frame boundary does besides the timer is an input.
- `Placeholder.SharedMemoryMappingArea.Map`: requires the range to be covered by placeholders, as its caller must ensure; the Win32 calls are an input that grants or refuses.
- `Tlb.Cop0.WriteIndexed`: requires an index below 48, the size of the table; the code masks with 0x3f only. Instruction cache clearing and fastmem mappings are left out.
- `Tlb.Cop0.WriteRandom`: requires a Random below 48 for the same reason.
- `TlbTranslate.EntryIsTranslation`: translates in the entry's own address space; the page map does not look at ASID or G, and the two lemmas after it say when that matters.
- `PathText.PathAppendString`: POSIX branch only; the Windows separators and UNC prefix are not modelled.
- `Bc7Block.DecodeBlock`: works on the 128 bits of the block in order; the byte loads are not modelled.
- TLBP and TLBR, whose bit layouts do not line up with what WriteTLB stores.
- pcsx2/Cache.cpp, whose hit test does not compare tags on valid lines.
- BC1 to BC5 decoding: one fixed formula per block, in host floating point for BC4 and BC5.
- `StringUtil::ReplaceAll`, settings, core options and patches: library searches and data tables, with no law across operations to state.
- mmap, signals, Win32, VFS, graphics, thread creation, the audio path, recompilers and vtlb handlers.
