# Lightweight CMC: a verified model

A Dafny model of the firmware of the Lightweight CMC, the board between camera control panels,
a PC tool and a motor controller. It models, and proves properties of, the parts whose
correctness is not visible in any one function:

- **The SDO slot and its seven clients.** One request slot in `app/cia402` is shared, without a
  lock, by the setup sequencer, the load-factor writer, the proxy writer, the resync reader,
  motor save, homing and the UDP bridge. `System` is one state machine with all of them and the
  motor; a run is any sequence of calls in any order. `Ownership`, `Wedge`, `Replies`, `Trigger`,
  `Convergence`, `Coherence`, `Ledger` and `Pulses` prove what every run keeps. `AxisManager`,
  `Cia402`, `Od` and `MainLoop` are the same code as classes that update their fields in place,
  the on-board buttons and the telemetry included; `MainLoop.MainLoop.Iterate` shows that an
  iteration of the firmware's loop is such a run, its constructor that the boot state is the
  initial one, and `MainLoop.MainLoop.Run` that any number of iterations is one too, so that the
  theorems hold of the classes.
- **What is said to the outside.** `MotorEnd` and `UdpClient` read frames and datagrams as the
  shared headers and the protocol document in `Interface` lay them down, without using the
  firmware's own definitions. `Wire` and `Heartbeat` say what the motor hears of every frame and
  what is made of its answers, `Bridge`, `Od` and `Telemetry` what the PC hears and what its
  requests become. `Setpoints` and `DriveMeaning` say what the setup, the velocity, the composed
  word, commands and buttons mean in units, limits and modes, `Homing` what the motor's answers
  make of homing and how a save treats the drive.
- **Frame codec and CRC** (`Crc16`, `Frame`), **flash records** (`Flash`, `Persist`, `Crc32`).
  `Gf2` defines the division of polynomials that both CRCs are proved to be.
  `crc16_modbus` is the CRC of section 6.2 of MODBUS over Serial Line V1.02, `crc32_calc` the
  frame check sequence of section 3.2.9 of IEEE 802.3.
- **The log ring** (`LogRing`), **TCP reassembly** (`Camerad`, `Stream`), **telemetry batching**
  (`Telemetry`), **shot moves** (`Shots`) and **joystick and setpoint scaling** (`Scaling`).
  `Moves` puts the shots on top of the motor side and says which arrivals are real, `Recall`
  which position and time a recall sends.

How the model is made:

- Clocks are natural numbers of which the code sees the value modulo 2^32; sequence numbers,
  handles and counters wrap as in the source (`Time`, `Pipeline`). CRCs and floats are bit
  vectors; a float is decoded to an extended real only where arithmetic is done on it, without
  rounding.
- The clock readings, the debounced buttons, the 64 bytes clocked in from the motor, what the
  motor does with a write, what the HAL answers, the bytes and datagrams received and the local
  dictionary's answers are arbitrary inputs of each step. Two assumptions about the motor and the wire exist, and each
  theorem that needs one says so. `Replies.Timely`: a frame takes no longer than the response
  timeout; an answer or error report names, by its sequence number, a frame sent earlier, a
  request or a cyclic command, fewer than 65536 frames ago. Answers may be late, lost, repeated,
  false, or say failure although the motor took the write. `Replies.Honest`: in addition an OK
  to a write means that the motor took it, and an OK read of a parameter in the proxy's cache
  returns what is stored; every other object may change by itself (`Replies.LiveReadsAreHonest`).
- Ghost observers (`Trigger.Observer`, `Coherence.Observer`, `Ledger.Book`) are folded along a
  run beside the system and never influence it.

What is false of the code is proved false, and the condition under which it holds is proved:

- The slot can be lost to all seven clients. In every run it is wedged, busy with nobody who
  polls for it, if and only if some call wedged it (`Wedge.EveryRunWedged`): a motor save that
  timed out with its write in the slot and forgot the handle, after which nobody owns the slot
  (`Ownership.SaveTimeoutOrphans`, `Ownership.EveryRunOwned`), or a homing that timed out, or
  failed, with a handle in hand, which it keeps and never polls again
  (`Wedge.HomingTimeoutStalls`, `Wedge.TimedOutHomingStays`). A wedged slot is never free again
  (`Wedge.WedgedForEver`) unless homing can be requested anew, which a timed-out homing refuses
  until the 2^32 ms clock has come round (`Wedge.WedgedUntilWrap`). Every other completion
  is collected by its client's next call (`Wedge.CompletionIsCollected`).
- Homing requested before the boot read of the fault flags takes that read's answer for its own
  write's, which is never sent (`Sequencers.HomeBeforeBootRead`). All through a run homing holds
  only the request of its own state if and only if the run has no such call and no timeout with a
  handle in hand (`Ownership.EveryRunHomeExact`).
- The move trigger can fire while the motor holds another setup value: when a parameter changes
  while its own write is in flight, when the answer is lost and the value goes back, for a
  target time above 4.0e6 s, or after the bridge overwrote a settled parameter
  (`Trigger.ChangedInFlightFires`, `Trigger.LongMoveFires`, `Trigger.BridgeOverwriteFires`).
  `Trigger.TriggerMatchesMotor` says exactly when it does, parameter by parameter; without a
  change in flight every desired value was acknowledged (`Trigger.SteadyTriggerIsAcked`).
- A quick stop abandons the running pulse but not, as its comment says, a pending trigger: with no
  new request NEW_SETPOINT rises at the first compose that finds the setup applied and the drive
  ready, if and only if a move was pending at the stop (`Moves.TriggerAfterStop`). The same holds
  of the panel's STOP (`Moves.StoppedMoveIsSent`).
- A quick stop or a disable does not last if a motor save is in progress that found the drive on:
  with no new command the drive comes on again if and only if that save has ended
  (`DriveMeaning.OffUnlessSaved`, `DriveMeaning.QuickStopUndone`). With nobody switching the drive
  a save, timed out or not, always gives back what it found (`Homing.SaveGivesBack`).
- The 100 ms of grace do not make an arrival one: a shot reported as arrived was sent to the motor
  if and only if the latch of the requested move is down, unless somebody else asked for a move
  meanwhile (`Moves.ArrivalWasSent`); a setup that takes longer gives an arrival of a move that
  is still to be sent (`Moves.UnsentMoveArrives`).
- A failed proxy write is not repeated: once collected, the slot agrees with the motor if and
  only if the motor took the write all the same or held those bytes before
  (`Coherence.FailedWriteDropped`, reached by the run of `Coherence.FailedWriteReached`), and the
  next resync read replaces the operator's value by the motor's (`Coherence.ResyncReplacesValue`).
- The loop has no delay, so composes can outnumber the 1 kHz frames. A NEW_SETPOINT, HALT or
  FAULT_RESET pulse that nothing cancels is carried if and only if some frame between its first
  and its fourth compose is sent while no request waits for it (`Pulses.PulseIsCarried`); two
  frames always suffice
  (`Pulses.TwoFramesCarry`), four composes without one lose it (`Pulses.FastLoopLosesPulse`).
- What is dispatched from a byte stream is independent of how TCP cut it if and only if the
  stream is well-formed or ends with the 64 bytes of the header that is refused
  (`Stream.IndependentExactly`).
- A deadband of 2^31 or more makes a centred stick read nonzero unless the span vanishes
  (`Scaling.RestIsZero`).
- A telemetry record adds itself to what the receiver unpacks, and changes nothing else, if and
  only if nothing is held or it is as long as the records held (`Telemetry.WrongLengthGarbles`);
  two lengths under one map version fail (`Telemetry.TwoLengthsGarble`), for good: over a whole
  subscription nothing is garbled if and only if this never happened (`Telemetry.TelemetryExact`).
  A drop marker that needs room drops lines nobody counts (`LogRing.MarkerReport`).

Where code and documentation disagree the model follows the code: the polynomial in
`app/persist` is 0xEDB88320, not Castagnoli's; records are padded with 0xFF, not zero; the
protocol version on the wire is 4 although a comment in `app/cia402` says 1; the comment in
`app/axis_manager` that the sequencer does not write the target torque is out of date; the comment
in `app/cmc_state` that the next move request clears HALT is too, HALT being a pulse of three cycles.

## Model

| member | source | states |
|---|---|---|
| `MainLoop.MainLoop.Iterate` | app/main_loop/main_loop.c:99-121 | One loop iteration takes the whole system from its state to the state after exactly the model's steps for axis_manager_tick (buttons included), cia402_tick and od_tick, in that order, with what was read from the buttons, the wire and the network; what the motor hears of the frame sent is what that state shows, the pending request or the word just composed; the datagrams sent to clients are the bridge's answers and the errors owed; and the telemetry subscription takes one step on the status the link then holds |
| `MainLoop.MainLoop.constructor` | app/main_loop/main_loop.c:43-92 | Boot leaves the system in the model's initial state, whatever the motor stores |
| `MainLoop.MainLoop.TickLink` | app/cia402/cia402.c:339-409 | cia402_tick is the model's link step on the slot, and the motor, reading the frame as Interface lays it down, hears the pending request or the last composed word, under the frame count modulo 65536 |
| `MainLoop.MainLoop.TickAxis` | app/axis_manager/axis_manager.c:973-1082 | axis_manager_tick is a run of status, clients, buttons and compose steps, and hands the composed word to the link |
| `MainLoop.MainLoop.TickOd` | app/od/od.c:542-549 | od_tick is a service step, at most one receive step, and one telemetry step on the status at the link |
| `Ownership.EveryRunOwned` | app/cia402/cia402.c:415-474 | In every interleaving the slot is idle and no client holds a handle, or exactly one client does, its handle is the slot's and the slot carries its request; this lasts exactly until a motor save abandons its handle, after which the slot is busy with nobody to free it, for ever |
| `Ownership.StepKeepsOwner` | app/axis_manager/axis_manager.c:1046-1063 | Every single call of any client, setter or link tick keeps that invariant, except the one that abandons a handle |
| `Ownership.CompletionReachesIssuer` | app/cia402/cia402.c:454-474 | Whoever collects a completion holds the slot alone and the slot carried its own request |
| `Ownership.OthersLeaveSlot` | app/cia402/cia402.c:423-452 | While a client waits, no call of any other client changes the slot |
| `Ownership.SaveTimeoutOrphans` | app/axis_manager/axis_manager.c:1733-1740 | A save whose write starts in time but is overtaken by the five-second timeout leaves the slot held by nobody |
| `Wedge.EveryRunWedged` | app/axis_manager/axis_manager.c:1729-1911 | In every run the slot is busy with nobody who polls for it if and only if a call wedged it, a motor save abandoning its write or homing going to rest with a handle, and no new homing was accepted since |
| `Wedge.StepWedges` | app/axis_manager/axis_manager.c:1729-1911 | Exactly these two calls wedge the slot, from any state, and only a new homing unwedges it |
| `Wedge.WedgedForEver` | app/cia402/cia402.c:423-474 | From then on, whatever any client calls, the slot keeps its handle and its request and is never free |
| `Wedge.TimedOutHomingStays` | app/axis_manager/axis_manager.c:1865-1911 | A homing that failed by timeout is changed by no tick past its limit and accepts no request |
| `Wedge.HomingTimeoutStalls` | app/axis_manager/axis_manager.c:1905-1911 | One tick past the limit, in either state that waits, leaves homing at rest with its handle |
| `Wedge.LateRunNeverRecovers` | app/axis_manager/axis_manager.c:1905-1911 | While its ticks read the clock past the limit, a timed-out homing with a handle keeps the slot busy in every run |
| `Wedge.WedgedUntilWrap` | app/axis_manager/axis_manager.c:1905-1911 | In real time: from 30 s after its start until 2^32 ms after it, a homing that timed out with a handle keeps the slot busy in every run |
| `Wedge.CompletionIsCollected` | app/cia402/cia402.c:454-474 | The next polling call of the client that holds a completed slot collects it, unless and only unless that call wedges the slot |
| `Ownership.EveryRunHomeExact` | app/axis_manager/axis_manager.c:1878-2013 | All through a run homing holds, if any, only the request of its own state, if and only if the run has neither of two calls: the boot read issued during a requested homing, a timeout with a handle in hand |
| `Ownership.StepHomeExact` | app/axis_manager/axis_manager.c:1878-2013 | A single call keeps that exactness if and only if it is neither of the two |
| `Ownership.SetupMoves` | app/axis_manager/axis_manager.c:628-699 | The setup sequencer leaves a slot it does not hold alone, and otherwise ends with the slot free or holding its own write of the parameter it remembers |
| `Ownership.ProxyMoves` | app/axis_manager/axis_manager.c:1446-1491 | The same for the proxy writer and the slot it remembers as in flight |
| `Ownership.ResyncMoves` | app/axis_manager/axis_manager.c:1569-1671 | The same for the resync reader, which never changes what the proxy writer holds |
| `Ownership.LoadMoves` | app/axis_manager/axis_manager.c:1333-1389 | The same for the load-factor setter and its poll |
| `Ownership.SaveMoves` | app/axis_manager/axis_manager.c:1729-1793 | The same for motor save when it does not time out while it waits |
| `Ownership.HomeMoves` | app/axis_manager/axis_manager.c:1878-2013 | The same for homing, its boot read included |
| `Ownership.ReceiveMoves` | app/od/od.c:224-302 | The same for the two request handlers of the bridge |
| `Ownership.ServiceMoves` | app/od/od.c:350-370 | The same for the collection of the bridge's completion |
| `Replies.NoLateCompletion` | app/cia402/cia402.c:274-315 | In every run, whatever the answers say, an answer or error report about any frame but the one that carried the request in the slot, up to 65535 frames late, changes nothing, across the wrap of the sequence number |
| `Replies.OpenRequestEnds` | app/cia402/cia402.c:404-408 | In every run, whatever the answers say, an open request is completed by its own answer at once, and otherwise exactly at the first frame that ends more than 30 ms after it was sent, across the wrap of the clock |
| `Replies.EveryRunInStep` | app/cia402/cia402.c:363-408 | In every run, whatever the answers say, the sequence number and deadline of an awaiting slot are those of the last request sent |
| `Replies.LiveReadsAreHonest` | app/axis_manager/axis_manager.c:1885-1899 | Any answer to homing's status and fault-flag reads is an honest one, so the honest runs include those in which homing succeeds |
| `Replies.EveryRunLinked` | app/cia402/cia402.c:210-315 | In every run with honest answers a write the motor took is what it stores, an OK to a write is true, and so is an OK read of a cached parameter |
| `Replies.RequestThenCyclic` | app/cia402/cia402.c:363-371 | Whatever is called in between and whatever is answered, the frame after one that carried a request is a cyclic command |
| `Replies.SentStaysOpen` | app/cia402/cia402.c:210-237 | The frame that carries a request cannot complete it, whatever answer or error report arrives with it |
| `Pipeline.Begin` | app/cia402/cia402.c:423-452 | A begin succeeds exactly when the slot is idle and the data fits, then the slot waits under the new nonzero handle with this request; otherwise nothing changes |
| `Pipeline.Poll` | app/cia402/cia402.c:454-474 | A poll delivers the slot's result exactly to its nonzero handle once complete, frees it, and otherwise changes nothing |
| `Pipeline.NextHandle` | app/cia402/cia402.c:415-421 | Handles wrap at 16 bits, never repeat the previous one and are never zero |
| `Pipeline.HandlesComeRound` | app/cia402/cia402.c:415-421 | A handle is given out again after exactly 65535 allocations and no sooner |
| `Time.TimeAfterIsLater` | bsp/time/time.c:34-39 | The 32-bit comparison agrees with real time for distances below 2^31 ms |
| `Pipeline.TimeoutIsExact` | app/cia402/cia402.c:404-408 | An unanswered request completes with NOT_READY exactly when the frame ends more than 30 ms after it was sent |
| `Pipeline.ExchangeKeeps` | app/cia402/cia402.c:363-408 | An exchange never changes whose request is in the slot, nor a completed or idle slot |
| `Pipeline.ReadData` | app/cia402/cia402.c:274-286 | A read response yields as many bytes as it announces, at most eight, those of the payload and zero where that ends early |
| `Pipeline.AnswersDecode` | app/cia402/cia402.c:274-315 | A response answers its own sequence number with its result and data, an error report the request in the slot with its class, or 7 if that is not the dictionary's, everything else nobody |
| `Pipeline.ShortAnswers` | app/cia402/cia402.c:274-315 | Responses too short to hold a result |
| `Cia402.Cia402.Tick` | app/cia402/cia402.c:339-409 | The tick in place equals the specified step on slot, sequence, counters and status, and the transmit buffer holds the specified frame |
| `Cia402.Cia402.OdReadBegin` | app/cia402/cia402.c:423-435 | In place, equal to Begin for a read |
| `Cia402.Cia402.OdWriteBegin` | app/cia402/cia402.c:437-452 | In place, equal to Begin for a write, with the data copied into the slot's field |
| `Cia402.Cia402.OdPoll` | app/cia402/cia402.c:454-474 | In place, equal to Poll |
| `Cia402.Cia402.Compose` | app/cia402/cia402.c:204-237 | A pending request takes the frame and starts to wait; otherwise the cyclic command goes out with the counter advanced |
| `Cia402.Cia402.HandleReply` | app/cia402/cia402.c:243-315 | A reply touches only the slot if it answers it, only the status if it is one |
| `Cia402.Cia402.TakeCyclicStatus` | app/cia402/cia402.c:480-496 | A status is delivered once |
| `Wire.FrameIsHeard` | app/cia402/cia402.c:204-237 | The motor hears of a transmitted frame the request in the slot if one waits, with its index, subindex, type and data, and otherwise the five bits, the signed velocity and the counter of the word last composed |
| `Wire.CommandIsRead` | Interface/mc_if_protocol.h:140-145 | Bits 0x0001, 0x0002, 0x0010, 0x0080 and 0x0100 of bytes 0-1 are ENABLE, no quick stop, NEW_SETPOINT, FAULT_RESET and HALT of the word, and bytes 2-5 its velocity in two's complement |
| `Wire.SetupWriteSets` | app/axis_manager/axis_manager.c:673-698 | The sequencer's write of each parameter sets that parameter of the motor, by index and type, to the desired value |
| `Wire.ProxyRequestsMean` | app/axis_manager/axis_manager.c:1432-1491 | The proxy's write sets the motor's parameter of its slot to its float, and the resync asks for it |
| `Wire.OtherRequestsMean` | app/axis_manager/axis_manager.c:1333-1389 | The load factor, the save magic and the home command reach their entries, and homing asks for the home status and the fault flags |
| `Wire.SoundIsAccepted` | app/cia402/cia402.c:169-198 | Of 64 received bytes exactly the frames sound by the shared layout are accepted, with their type, number and payload |
| `Wire.TypesAreTaken` | app/cia402/cia402.c:373-403 | A sound frame is a status, a read response, a write response or an error report by its type, and anything else is nothing |
| `Wire.StatusIsTaken` | app/cia402/cia402.c:243-261 | A status is kept with its 18 header bytes and the mapped bytes it announces |
| `Heartbeat.FramesCountUp` | app/cia402/cia402.c:339-371 | Over any ticks, whatever happens in between, the frames sent are numbered consecutively modulo 2^16 and the cyclic commands among them carry consecutive counters modulo 2^32 |
| `Heartbeat.OneFrameEachMillisecond` | app/cia402/cia402.c:343-347 | A tick sends a frame exactly if its clock reading differs from that of the last frame sent |
| `Heartbeat.TickTakesStatus` | app/cia402/cia402.c:373-403 | The status after a tick is that of a sound status frame received in it, and else the one before |
| `Trigger.TriggerMatchesMotor` | app/axis_manager/axis_manager.c:783-795 | When NEW_SETPOINT rises in any run: every parameter was acknowledged, but for the time of a move above 4.0e6 s; the acknowledged map has the desired bytes exactly for parameters recorded as sent; and the motor itself has them exactly if the last write it took of that parameter, from the sequencer or the bridge, carried them |
| `Trigger.StoreIsLastTaken` | app/cia402/cia402.c:363-371 | In every run what the motor stores of a parameter is the data of the last write of it that the motor took, whoever sent it |
| `Trigger.SteadyRunClean` | app/axis_manager/axis_manager.c:568-624 | In every run, failed answers, bridge writes and a motor that lies included, every value recorded as sent is the one acknowledged, unless a parameter changed while its own write was in flight |
| `Trigger.SteadyTriggerIsAcked` | app/axis_manager/axis_manager.c:783-795 | Without such a change, when NEW_SETPOINT rises every parameter was acknowledged with its desired bytes, the time of a long move excepted |
| `Trigger.BridgeOverwriteFires` | app/od/od.c:264-302 | A bridge write of other bytes to a settled parameter, carried and taken, leaves the move ready to fire with the motor on those bytes |
| `Trigger.CalmTriggerIsRight` | app/axis_manager/axis_manager.c:552-699 | If no parameter changes while its write is in flight, answers are OK and the bridge writes none, the motor stores the desired value of every parameter when the trigger fires, that time excepted |
| `Trigger.EveryRunTracked` | app/axis_manager/axis_manager.c:568-624 | The invariant behind both: what s_applied, the acknowledged map and the motor have in common in every run |
| `Trigger.ChangedInFlightFires` | app/axis_manager/axis_manager.c:659-665 | With a parameter changed, or changed back with a lost answer, while its write was in flight, the next tick lets the move fire with the motor on another value |
| `Trigger.LongMoveFires` | app/axis_manager/axis_manager.c:508-511 | A target time above 4.0e6 s equals the boot sentinel, so the move fires although no time was ever written |
| `Convergence.FixedTargetConverges` | app/axis_manager/axis_manager.c:651-699 | With a fixed target, in any run, each OK answer removes exactly one differing parameter; there are at most seven, and at most seven writes if all answers are OK |
| `Convergence.FiresWhenApplied` | app/axis_manager/axis_manager.c:783-795 | A wanted move fires in the next compose exactly when no parameter differs, is then consumed, and stays pending otherwise |
| `Convergence.RoundConverges` | app/axis_manager/axis_manager.c:651-699 | A write sent and answered in two frames and collected by one tick removes one difference and puts the next write into the slot |
| `Convergence.RoundsReachTrigger` | app/axis_manager/axis_manager.c:651-699 | As many such rounds as parameters differ reach a state in which a wanted move fires |
| `SetupSequencer.TickConverges` | app/axis_manager/axis_manager.c:651-699 | One tick with fixed desired values: an OK answer removes one difference, nothing else changes their number, busy means differences are left, and then a write is in flight unless the slot was taken |
| `SetupSequencer.FirstDiff` | app/axis_manager/axis_manager.c:673-698 | The write order: the first parameter that differs, none exactly if all agree |
| `SetupSequencer.AckFaithful` | app/axis_manager/axis_manager.c:568-624 | The recorded value is the one sent if and only if the desired value did not change in flight |
| `SetupSequencer.EncodeInjective` | app/axis_manager/axis_manager.c:673-698 | Two values in a parameter's range have the same bytes only if equal |
| `SetupSequencer.DesiredInRange` | app/axis_manager/axis_manager.c:496-525 | Every desired value fits the C type that carries it; what it is, is `Setpoints.DesiredPosition` and `Setpoints.DesiredMeans` |
| `Setpoints.DesiredPosition` | app/axis_manager/axis_manager.c:500-503 | The desired position is the nearest scaled value of the target if that is within the limits, and of the limit it exceeds otherwise |
| `Setpoints.DesiredWithinLimits` | app/axis_manager/axis_manager.c:500-503 | For ordered limits it never leaves the scaled limits |
| `Setpoints.DesiredMeans` | app/axis_manager/axis_manager.c:496-525 | Time in ms, current, velocity limit and acceleration limit, the latter for both ramps, each to the nearest unit and saturating, and the motor's number of the commanded mode |
| `Setpoints.ZeroLimitsRestrictNothing` | app/axis_manager/axis_manager.c:1615-1626 | A zero read back for a position limit restricts no target; any other value restricts as itself |
| `DriveMeaning.SetupOfAxis` | app/axis_manager/axis_manager.c:496-525 | In every state the setup is that of the axis's targets and of the mirrors of cache slots 3 to 6 |
| `Scaling.DesiredIsSentinel` | app/axis_manager/axis_manager.c:461-467 | A desired value equals the boot sentinel of its field if and only if it is a target time above 4.0e6 s |
| `Coherence.CacheMatchesMotor` | app/axis_manager/axis_manager.c:1432-1491 | In every run each proxy slot is waiting to be written, being written, stale, or equal to what the motor stores, and a touched slot agrees with its mirror |
| `Coherence.PassedCacheMatchesMotor` | app/axis_manager/axis_manager.c:1569-1671 | With OK writes, usable reads and no bridge write to a slot, from the end of the first resync pass on every slot is on its way to the motor or equal to it and to its mirror |
| `Coherence.FailedWriteDropped` | app/axis_manager/axis_manager.c:1454-1466 | A write collected with a failure, the slot not set again meanwhile, leaves the slot neither dirty nor in flight, and equal to the motor if and only if the motor took the write or stored those bytes already |
| `Coherence.FailedWriteReached` | app/axis_manager/axis_manager.c:1454-1466 | Setting a slot, issuing, sending, refusing and collecting its write, from any idle state, ends with the slot different from the motor and nothing scheduled |
| `Coherence.ResyncReplacesValue` | app/axis_manager/axis_manager.c:1605-1628 | The next adopted read of that slot replaces the operator's value by what the motor stores, and keeps it exactly if they were equal |
| `Coherence.EveryRunCapped` | app/axis_manager/axis_manager.c:280-284 | joystick_max_velocity equals the velocity limit times the profile scale in every run |
| `ProxyCache.ResyncKeepsPending` | app/axis_manager/axis_manager.c:1605-1607 | A resync read never changes a slot the operator has set and the motor has not got |
| `ProxyCache.NoStarvation` | app/axis_manager/axis_manager.c:1471-1490 | A dirty slot is issued after at most six other grants, whatever is set, read or blocked in between |
| `ProxyCache.GrantApproaches` | app/axis_manager/axis_manager.c:1471-1490 | Each grant issues the slot or brings the scan strictly closer to it |
| `ProxyCache.NextDirty` | app/axis_manager/axis_manager.c:1471-1474 | The scan returns a dirty slot or none |
| `ProxyCache.SetMirrors` | app/axis_manager/axis_manager.c:1276-1318 | After an accepted setting finite_or_zero of the mirror is the slot's value, for infinities too |
| `ProxyCache.SettingIsKept` | app/axis_manager/axis_manager.c:1276-1318 | A setting is refused exactly if it is no number, or negative and not a position limit; otherwise mirror and slot take it, zero standing for an infinite position limit, and it waits to be written |
| `ProxyCache.ResyncWhenDue` | app/axis_manager/axis_manager.c:1569-1671 | A pass starts 500 ms after boot, each answer starts the next read in the same tick, and after the seventh the pass is over |
| `ProxyCache.ResyncAgain` | app/axis_manager/axis_manager.c:1559-1588 | The next pass starts five seconds later or on request, at slot 0 and at once, unless the clock then reads 500 |
| `ProxyCache.AdoptMirrors` | app/axis_manager/axis_manager.c:1609-1628 | After an adopted read the mirror says what the slot says: for a finite position limit finite_or_zero of the mirror is the value, a motor zero meaning no limit; in every other case, a position limit that is not finite included, the two are equal |
| `Sequencers.HomeBeforeBootRead` | app/axis_manager/axis_manager.c:1885-1899 | Homing requested first takes the boot read's answer for its own write's |
| `Homing.HomedIsLastFault` | app/axis_manager/axis_manager.c:1972-2004 | In every run that keeps homing on its own answers the axis counts as homed if and only if a fault word was read and the last one has NOT_HOMED clear |
| `Homing.HomingEnds` | app/axis_manager/axis_manager.c:1944-2010 | After a status of done or failed homing waits for the fault flags whatever else happens, and with them ends as done or failed by that status, without them idle; the status stays reported |
| `Homing.AnswersMove` | app/axis_manager/axis_manager.c:1913-2004 | What each answer to each of homing's three requests makes of its state, its status and the homed flag |
| `Homing.RequestsWhenDue` | app/axis_manager/axis_manager.c:1865-1960 | A home request starts an idle homing; with the slot free each state issues its request at once, the status read every 200 ms |
| `Homing.EndIsBrief` | app/axis_manager/axis_manager.c:1905-2008 | The end is reported for one tick, unless the time limit has passed by then |
| `Homing.SaveGivesBack` | app/axis_manager/axis_manager.c:1709-1789 | In every run in which nobody switches the drive it is off exactly while a save is in progress, or if it was off before |
| `Homing.SaveTakesTime` | app/axis_manager/axis_manager.c:1711-1789 | The save command goes out when the slot is free 250 ms after the request, and the save is over 50 ms after its answer |
| `DriveMeaning.OffUnlessSaved` | app/axis_manager/axis_manager.c:1733-1789 | From a drive that is off, in every run without a command, it comes on if and only if a save that found it on has ended, and until then no word has ENABLE or a velocity |
| `DriveMeaning.QuickStopUndone` | app/axis_manager/axis_manager.c:733-741 | A quick stop during the end of a save: the next tick enables the drive again |
| `Ledger.EveryRequestAnsweredOnce` | app/od/od.c:224-302 | In every run, whatever the motor answers, the i-th response is a read or write response as the i-th accepted request was, to its peer with its sequence, index and subindex, its result that of the i-th exchange (NOT_READY after a timeout) and its data that exchange's if it succeeded; the i-th exchange is that of the i-th request, and at most one request is unanswered |
| `Ledger.EveryMessageHasOneFate` | app/od/od.c:215-302 | A malformed message gets its error and a local request its local answer at once; a request for the motor is accepted exactly if none is in flight and the slot is free, does nothing if it repeats peer and sequence of the one in flight, and is refused as queue full otherwise |
| `Bridge.DecodeReq` | app/od/od.c:224-286 | A request that reaches the motor has at most eight data bytes and an index outside the local range |
| `Od.ReadIsUnderstood` | app/od/od.c:224-262 | A read request built by the PC's rules is for its own index, subindex and type, answered here exactly if the index is from 0x3000 to 0x30FF |
| `Od.WriteIsUnderstood` | app/od/od.c:264-302 | A write request carries its own data to its own entry if they have the size of its type, and is a size error otherwise |
| `Od.WrongLengths` | app/od/od.c:227-276 | Payloads of any other length are length errors |
| `Od.OnlyThoseAreUnderstood` | app/od/od.c:376-406 | What is neither dropped nor refused was built by the PC's rules; everything else is refused with the class of the first test it fails |
| `Bridge.ResponsesAreHeard` | app/od/od.c:144-207 | The PC reads of every response and error sent to it the sequence number, entry, result and data, or class and detail, that were meant |
| `Od.StatusArrivesOnce` | app/cia402/cia402.c:480-496 | A status reaches telemetry as it was received, and once |
| `Od.Od.HandleOdRead` | app/od/od.c:224-262 | In place, equal to the specified effect on slot, pending record and datagrams |
| `Od.Od.HandleOdWrite` | app/od/od.c:264-302 | In place, equal to the specified effect on slot, pending record and datagrams |
| `Od.Od.ServicePending` | app/od/od.c:350-370 | In place, equal to the specified collection; when the exchange is complete exactly one response answers the ticket with its peer, sequence, entry, result and, for a successful read, data, and otherwise nothing changes |
| `Od.Od.IsRetransmitOfInFlight` | app/od/od.c:215-222 | True exactly for the sequence, address and port of the request in flight |
| `Od.Od.HandleSubscribe` | app/od/od.c:304-335 | Five bytes start an empty subscription to the sender's address at the port named; any other length is answered with an error and changes nothing |
| `Od.Od.ServeTelemetry` | app/od/od.c:440-490 | With a subscriber the status at the link is taken once and batched as specified; without one it stays at the link |
| `Od.Od.ServiceAccessSocket` | app/od/od.c:376-406 | One datagram is tested (length, magic, version, announced length, type), dropped, refused with its error or dispatched to its handler; the others' state is unchanged |
| `Od.DatagramsAreUnderstood` | app/od/od.c:376-406 | Every datagram built by the PC's rules reaches the handler of its type with its sequence number and payload; any other type is refused with that type |
| `Od.Od.Tick` | app/od/od.c:542-549 | The tick in place collects the pending request, handles at most one datagram and serves telemetry, in that order |
| `Pulses.PulseIsCarried` | app/axis_manager/axis_manager.c:204-221 | For each of the three pulses and any schedule of composes, frames and other calls from its first to before its fourth compose: the motor reads its bit in some cyclic command if and only if some frame is sent while no request waits to be sent |
| `Pulses.CarriesBit` | Interface/mc_if_od.h:79-86 | A frame carries a pulse, as the motor reads it, exactly if it is sent while no request waits and the composed word has its bit |
| `Pulses.TwoFramesCarry` | app/cia402/cia402.c:351-371 | Two frames anywhere in that window carry the pulse, none does not |
| `Pulses.PulseEnds` | app/axis_manager/axis_manager.c:713-798 | The fourth compose takes the bit down, so the window is all there is |
| `Pulses.EveryRunBounded` | app/axis_manager/axis_manager.c:713-798 | A pulse never has more than three cycles left |
| `Pulses.ComposeSetsBit` | app/axis_manager/axis_manager.c:713-798 | Each uncancelled compose of a pulse sets its bit and uses one cycle |
| `Pulses.FastLoopLosesPulse` | app/cia402/cia402.c:351-354 | Four composes without a frame lose any of the three pulses and its request |
| `AxisManager.AxisManager.constructor` | app/axis_manager/axis_manager.c:431-490 | Initialisation gives the model's initial state for any limits loaded |
| `AxisManager.AxisManager.Tick` | app/axis_manager/axis_manager.c:973-1082 | The tick in place is exactly the run of steps it consists of, and hands the link the command of the word composed last, which the motor hears bit by bit (`Wire.CommandIsRead`) |
| `AxisManager.AxisManager.PollJoystickButtons` | app/axis_manager/axis_manager.c:895-971 | In place, equal to the specified effect on the buttons' record and on mode, enable and stick value |
| `AxisManager.AxisManager.SeeMovement` | app/axis_manager/axis_manager.c:1045-1046 | The moving bit the buttons wait for is that of the last status |
| `AxisManager.ButtonsAreSteps` | app/axis_manager/axis_manager.c:895-971 | What the buttons do is a run of the setters other modules use |
| `AxisManager.ModeOfFirstPress` | app/axis_manager/axis_manager.c:912-966 | However buttons are pressed and released before the motor stops, and whatever mode is commanded meanwhile, the mode restored is that of the first press |
| `AxisManager.AxisManager.SetupSequencerTick` | app/axis_manager/axis_manager.c:651-699 | In place, equal to the specified tick on slot and sequencer |
| `AxisManager.AxisManager.ApplyCompletedStep` | app/axis_manager/axis_manager.c:568-624 | Records the value desired now for the parameter just written, on OK only |
| `AxisManager.AxisManager.StartSdoWrite` | app/axis_manager/axis_manager.c:628-649 | Begins the parameter's write and stays idle when the slot is taken |
| `AxisManager.AxisManager.SetupSequencerBusy` | app/axis_manager/axis_manager.c:552-566 | Busy exactly if a write is in flight or a parameter differs |
| `AxisManager.AxisManager.SetLoadFactor` | app/axis_manager/axis_manager.c:1333-1366 | In place, equal to the specified setter; accepts 0.3 to 2.0 |
| `AxisManager.AxisManager.PollLoadFactorSdo` | app/axis_manager/axis_manager.c:1371-1389 | In place, equal to the specified poll |
| `AxisManager.AxisManager.SetProxied` | app/axis_manager/axis_manager.c:1276-1318 | Marks the slot dirty with the forwarded value, mirrors the setting, and recomputes the cap for the velocity limit |
| `AxisManager.AxisManager.SetJoyProfile` | app/axis_manager/axis_manager.c:1196-1210 | Accepts the three profiles and recomputes the cap |
| `AxisManager.AxisManager.FindDirty` | app/axis_manager/axis_manager.c:1471-1474 | The scan loop finds the slot the round robin names |
| `AxisManager.AxisManager.PollMotorProxySdo` | app/axis_manager/axis_manager.c:1446-1491 | In place, equal to the specified tick on slot and table |
| `AxisManager.AxisManager.RequestMotorResync` | app/axis_manager/axis_manager.c:1559-1567 | Restarts a finished pass only, without the boot delay |
| `AxisManager.AxisManager.TickProxyBootsync` | app/axis_manager/axis_manager.c:1569-1671 | In place, equal to the specified tick; the cap follows an adopted velocity limit |
| `AxisManager.AxisManager.RequestMotorSave` | app/axis_manager/axis_manager.c:1711-1727 | Accepted when idle; remembers and clears the enable latch |
| `AxisManager.AxisManager.TickMotorSave` | app/axis_manager/axis_manager.c:1729-1793 | In place, equal to the specified tick, its timeout included |
| `AxisManager.AxisManager.RequestHome` | app/axis_manager/axis_manager.c:1865-1876 | Accepted when idle |
| `AxisManager.AxisManager.TickHomeSequencer` | app/axis_manager/axis_manager.c:1878-2013 | In place, equal to the specified tick, boot read and timeout included |
| `AxisManager.AxisManager.ComposeCyclicCmd` | app/axis_manager/axis_manager.c:713-798 | In place, equal to the specified compose, whose word is pinned by `DriveMeaning.WordMeans` and its command by `Wire.CommandIsRead` |
| `DriveMeaning.WordMeans` | app/axis_manager/axis_manager.c:713-798 | ENABLE for a drive that is on in a mode, neither stopped nor faulted; the quick-stop bit down for the cycle of a stop; HALT in HOLD or during a requested halt, NEW_SETPOINT from the trigger on; velocity the demand to the nearest unit for an enabled drive, and zero for every other |
| `Setpoints.DemandMeans` | app/axis_manager/axis_manager.c:323-337 | The demand is the stick's or the target's velocity, or the limit in its direction |
| `Setpoints.ProfileScales` | app/axis_manager/axis_manager.c:270-284 | Full deflection asks for the whole limit, half of it or 15 percent, by the profile |
| `Setpoints.JoystickLinear` | app/axis_manager/axis_manager.c:293-316 | Between deadband and full deflection the stick is linear, on both sides, up to one at the calibrated ends |
| `DriveMeaning.SteerMeans` | app/axis_manager/axis_manager.c:1104-1250 | Every command changes its own field of the drive and no other, and a mode without a number, a NaN or a negative time none |
| `DriveMeaning.ButtonsMean` | app/axis_manager/axis_manager.c:895-970 | Held buttons drive the stick, the first press also enables the drive in JOYSTICK; released they hold it at rest while the motor moves and then give back mode and stick |
| `DriveMeaning.LastingFaultClears` | app/axis_manager/axis_manager.c:1007-1028 | A fault that lasts is cleared at the first tick five seconds after it began and not before |
| `DriveMeaning.NoFaultResets` | app/axis_manager/axis_manager.c:1027-1031 | Without a fault nothing is cleared, and the next fault starts the count anew |
| `DriveMeaning.TickOrder` | app/axis_manager/axis_manager.c:973-1082 | The order of the clients in one tick, and the FAULT and MOVING bits of the status it reads |
| `DriveMeaning.LoadMeans` | app/axis_manager/axis_manager.c:1333-1389 | A load factor is kept if it is from 0.3 to 2.0, and written at once if none is on its way and the slot is free |
| `AxisManager.AxisManager.UpdateState` | app/axis_manager/axis_manager.c:1007-1030 | The faulted state follows the last status, and a fault of five seconds requests its own reset and starts the time again |
| `Frame.RoundTrip` | app/cia402/cia402.c:137-198 | The receiver recovers type, sequence and payload of every built frame |
| `Frame.CorruptionDetected` | app/cia402/cia402.c:169-198 | A frame changed inside one window of two adjacent bytes of header, payload or check values is rejected, whatever the padding holds |
| `Frame.BlockDetected` | app/cia402/cia402.c:113-124 | Blocks that differ only inside a two-byte window, also across an end, have different check values |
| `Frame.AcceptedResidues` | app/cia402/cia402.c:169-198 | An accepted frame has residue zero over header and over payload, and a payload length within bounds |
| `Frame.BuildFrame` | app/cia402/cia402.c:137-159 | The buffer built in place is the specified frame, padding included |
| `Frame.ValidateRx` | app/cia402/cia402.c:169-198 | The checks in place decide as specified |
| `Crc16.Crc16Modbus` | app/cia402/cia402.c:113-124 | The nested loops compute the specified CRC of the slice, the remainder of `Crc16.CrcIsRemainder` |
| `Crc16.CrcIsRemainder` | app/cia402/cia402.c:113-124 | The register after a block is the remainder of the message, its bits low first and 16 zeros behind, with ones added to the first 16 coefficients, modulo x^16 + x^15 + x^2 + 1, by long division of bit sequences |
| `Crc32.CrcIsRemainder` | app/persist/persist.c:75-85 | The value is the complement of the remainder of the message with ones added to the first 32 coefficients, modulo the generator of IEEE 802.3 |
| `Gf2.FeedIsRemainder` | app/cia402/cia402.c:116-122 | Feeding bits one at a time into a register with feedback is long division |
| `Crc16.WindowDetected` | app/cia402/cia402.c:113-124 | Sequences that differ inside one window of two adjacent bytes have different CRCs |
| `Crc16.Residue` | app/cia402/cia402.c:113-124 | The register is zero after a block and two bytes exactly when these are the block's CRC, low byte first |
| `Crc16.RunInjective` | app/cia402/cia402.c:113-124 | Different registers stay different whatever bytes follow |
| `Crc32.Crc32Calc` | app/persist/persist.c:75-85 | The loop computes the specified CRC, the complemented remainder of `Crc32.CrcIsRemainder` |
| `Crc32.WindowDetected` | app/persist/persist.c:75-85 | Sequences that differ inside one window of four adjacent bytes have different CRCs |
| `Crc32.RunFour` | app/persist/persist.c:75-85 | Four bytes act as one word followed by 32 steps |
| `FlashMemory.Flash.ErasePage` | bsp/flash/flash.c:26-40 | Only cells of the page can change; success makes all of it 0xFF |
| `FlashMemory.Flash.ProgramDword` | bsp/flash/flash.c:42-48 | Only the word can change, by clearing bits; success on a blank word stores the value |
| `FlashMemory.Flash.ProgramBuf` | bsp/flash/flash.c:50-66 | A buffer is stored word by word, the tail padded with 0xFF, each word programmed at most once and only inside the range |
| `Persist.PersistSave` | app/persist/persist.c:151-230 | Bad arguments change nothing; nothing outside the region changes and no word is programmed twice between erases whatever fails; valid arguments are saved if and only if no controller call fails for reasons of its own; success stores the record |
| `Persist.PersistLoad` | app/persist/persist.c:99-145 | The checks and the copy decide as specified on the flash contents |
| `Persist.RecordLies` | app/persist/persist.c:32-67 | Where each region's record lies and what its bytes are: PRST, version, two zero bytes, size and CRC, low byte first, and the payload |
| `Persist.SaveThenLoad` | app/persist/persist.c:99-145 | A stored record loads as exactly the bytes saved, for every size, if the version is the same and the buffer large enough, and not otherwise |
| `Persist.OtherRegionsKept` | app/persist/persist.c:32-51 | Changes inside one region leave what every other region loads unchanged |
| `Persist.CorruptionRefused` | app/persist/persist.c:131-137 | A payload changed only inside a window of four adjacent bytes is refused, for every length |
| `Persist.HeaderDamage` | app/persist/persist.c:108-130 | A changed magic, version or check value is refused; the reserved field does not matter |
| `LogRing.Log.RingWrite` | app/log/log.c:115-131 | The queue loses the front lines that make room and gains the line; the counter gains the rounds |
| `LogRing.PushKeepsNewest` | app/log/log.c:115-131 | Whatever is written, the queue is then the newest bytes of all of it, of a line as long as the ring its last 8191 |
| `LogRing.Log.MakeRoom` | app/log/log.c:94-113 | The scan and drop loop removes exactly the specified front part and counts its rounds |
| `LogRing.Log.DropBytes` | app/log/log.c:80-90 | Removes a prefix of the queue, across the wrap and from a full ring |
| `LogRing.Log.Peek` | app/log/log.c:263-281 | Returns a prefix of the queue, up to the end of the ring, empty only for an empty queue or no room |
| `LogRing.Log.Consume` | app/log/log.c:283-289 | Removes that many bytes from the front |
| `LogRing.Log.Drain` | app/log/log.c:291-296 | What is returned followed by what is left is what was there |
| `LogRing.LineShape` | app/log/log.c:243-260 | The line logged is the text with one trailing newline replaced by CR LF, an over-long text cut off with three dots |
| `LogRing.DropsFewestLines` | app/log/log.c:94-113 | Room is made by whole lines, and no shorter prefix of whole lines would do |
| `LogRing.DropCountsNewlines` | app/log/log.c:94-113 | The rounds counted are the newlines dropped |
| `LogRing.EveryRunKept` | app/log/log.c:210-296 | In every run of prints, reads and counter resets the queue is the newest bytes written, newlines are conserved, the counter is the newlines discarded since its reset, and nothing is missing while nothing was discarded |
| `LogRing.MarkerReport` | app/log/log.c:210-261 | The counter printed in a drop marker is all that was lost exactly when the marker fits into the free space |
| `Stream.Listener.Service` | app/controller_mgr/controller_mgr.c:740-817 | Receive, parse loop and compaction in place dispatch the frames of the buffered bytes and keep their rest |
| `Stream.SegmentationIndependent` | app/controller_mgr/controller_mgr.c:768-817 | After the first k bytes of a well-formed stream, cut in any way, exactly the frames wholly inside have been dispatched, in order, and the rest waits, shorter than one frame |
| `Stream.FeedIsParse` | app/controller_mgr/controller_mgr.c:768-817 | For any stream without a bad header, feeding pieces equals parsing the whole |
| `Stream.IndependentExactly` | app/controller_mgr/controller_mgr.c:768-817 | Every cut of a byte stream gives the same frames and rest if and only if it is well-formed or ends with the 64 bytes of the header that is refused |
| `Stream.RestIsShort` | app/controller_mgr/controller_mgr.c:813-816 | The leftover is always below one maximal frame, so the overflow branch is dead |
| `Stream.MalformedDependsOnCut` | app/controller_mgr/controller_mgr.c:784-789 | The smallest example: 64 zero bytes ahead of a frame, cut in two places |
| `Camerad.ResponseIsRecognised` | app/camerad/camerad.c:76-113 | A built response header is accepted by the parser exactly when its body is within the limit, with the requester as destination and its message number |
| `Camerad.FieldsLie` | app/camerad/camerad.h:208-221 | A header is accepted exactly with magic, version and a length from 64 to 228, and its fields are those at their places |
| `Telemetry.TelemetryConserved` | app/od/od.c:440-490 | Within a subscription the records unpacked from the datagrams followed by those held are exactly every rate_divider-th status, once and in order, never mixing map versions, if the map version determines the length |
| `Telemetry.TelemetryExact` | app/od/od.c:440-490 | In every subscription the records sent and held are every rate_divider-th status, in order, if and only if none was ever stored beside held ones of another length |
| `Telemetry.DatagramsNumbered` | app/od/od.c:422-438 | Datagram numbers count up from zero modulo 2^16 |
| `Telemetry.KeepaliveEverySecond` | app/od/od.c:484-488 | While no status comes an empty datagram goes out for every full second and nothing else, across the wrap and without drift, if ticks come at least once a second |
| `Telemetry.DatagramsAreHeard` | app/od/od.c:422-438 | The PC reads of every telemetry datagram its number, map version, count, record size and records |
| `Telemetry.WrongLengthGarbles` | app/od/od.c:470-488 | Storing a record adds exactly that record to what the receiver will unpack if and only if nothing is held or it is as long as those held |
| `Telemetry.TwoLengthsGarble` | app/od/od.c:440-490 | Two kept statuses of one map version and different lengths in one batch: what is unpacked is not what was taken |
| `Telemetry.Subscription.ServiceTelemetry` | app/od/od.c:440-490 | The batching in place equals the specified step, never past the end of the buffer |
| `Telemetry.Subscription.Subscribe` | app/od/od.c:304-335 | Starts an empty subscription with divider and batch forced into range |
| `Shots.ArrivalMatchesMove` | app/cmc_state/cmc_state.c:506-567 | Every arrival ends one accepted move to that shot made at least 100 ms earlier, with no STOP, newer move or arrival between |
| `Shots.MoveArrives` | app/cmc_state/cmc_state.c:506-567 | An open move arrives at the first update on target and at rest after the grace time |
| `Recall.RecallGoes` | app/cmc_state/cmc_state.c:343-406 | In every run a recall makes exactly one move if the number is valid, the axis homed and there is a shot, and else none; it goes to the position last stored under that number, or loaded at boot, and takes no time for a cut, the operator's if set, else the stored one, and at least 0.1 s |
| `Recall.ShotIsKept` | app/cmc_state/cmc_state.c:260-298 | In every run the table holds under every number the shot last stored under it, with the operator's time at that moment |
| `Recall.CurrentIsLast` | app/cmc_state/cmc_state.c:260-298 | The current shot, which STORE NEXT counts from, is the last one stored or arrived at |
| `Recall.TimeIsLocked` | app/cmc_state/cmc_state.c:301-341 | The operator's time stays until he sets another, a move takes it or one arrives |
| `Recall.RecallReachesAxis` | app/cmc_state/cmc_state.c:379-387 | In every run of panel and motor side an accepted move leaves the axis in PROFILE_POSITION with that position and time as targets and the start requested, and within the limits the setup is that position to the nearest unit |
| `Recall.StickIsZeroed` | app/cmc_state/cmc_state.c:451-500 | The last deflection listened to is passed on in JOYSTICK, and the first update more than 100 ms later, and none before, puts the stick to rest |
| `Recall.StopOrders` | app/cmc_state/cmc_state.c:408-421 | STOP raises HALT for three composes and closes the move |
| `Recall.StickOrders` | app/cmc_state/cmc_state.c:451-486 | The stick moves the axis in JOYSTICK unless a move is open |
| `Recall.LampsAreRight` | app/cmc_state/cmc_state.c:524-567 | On shot is shown exactly from an arrival to the next accepted move; moving while a move is open, and else as the motor last said |
| `Recall.MissedMoveIsReported` | app/cmc_state/cmc_state.c:514-526 | An open move is reported as missed if and only if an update later than 500 ms found the motor not yet seen to move |
| `Shots.EveryRunKeepsMove` | app/cmc_state/cmc_state.c:343-421 | In every run an open move has a valid stored slot and marks the axis as moving |
| `Shots.MovementIgnoredDuringMove` | app/cmc_state/cmc_state.c:451-486 | While a move is open MOVEMENT frames change nothing and reach no one |
| `Moves.ArrivalWasSent` | app/cmc_state/cmc_state.c:506-567 | With the shots above the whole motor side, in every run: a reported arrival is of a move whose NEW_SETPOINT has risen if and only if the latch of the requested move is down, unless somebody else has requested a move since; if it is down it has in any case |
| `Moves.EveryRunSent` | app/cmc_state/cmc_state.c:343-421 | The invariant behind it, for every open move at every point of a run |
| `Moves.UnsentMoveArrives` | app/cmc_state/cmc_state.c:538-550 | After any motor-side calls of at least 100 ms in which no compose could raise NEW_SETPOINT, an update with the motor at rest on its old target reports the arrival of a move that was not sent and is still pending |
| `Moves.StoppedMoveIsSent` | app/cmc_state/cmc_state.c:408-421 | The panel's STOP closes the move but keeps its request: with no new one NEW_SETPOINT rises at the first compose that finds the setup applied and the drive ready, if and only if it was pending |
| `Moves.TriggerAfterStop` | app/axis_manager/axis_manager.c:733-741 | A quick stop ends all pulses and the enable; with no new request NEW_SETPOINT rises afterwards if and only if a move was pending when the drive was stopped |
| `Moves.LatchKept` | app/axis_manager/axis_manager.c:783-795 | In every run without a new request the latch is up exactly if it was and NEW_SETPOINT has not risen since |
| `Shots.CmcState.MoveToShot` | app/cmc_state/cmc_state.c:343-406 | In place, equal to the specified step and its calls to the axis manager, whose position and time are those of `Recall.RecallGoes` |
| `Shots.CmcState.UpdateFromMotor` | app/cmc_state/cmc_state.c:488-567 | In place, equal to the specified step, watchdogs included |
| `Shots.CmcState.HandleMovement` | app/cmc_state/cmc_state.c:451-486 | In place, equal to the specified step and its calls |
| `Shots.CmcState.StopMovement` | app/cmc_state/cmc_state.c:408-421 | In place, equal to the specified step and its calls |
| `Scaling.JoystickMonotone` | app/axis_manager/axis_manager.c:293-316 | For every calibration more deflection never gives less output, and a deadband that is not negative as a signed integer gives none |
| `Scaling.JoystickValue` | app/axis_manager/axis_manager.c:293-316 | The output stays within -1 and 1 |
| `Scaling.RestIsZero` | app/axis_manager/axis_manager.c:293-316 | A centred stick reads zero exactly when the deadband is below 2^31 or leaves no span |
| `Scaling.SetpointWithinLimit` | app/axis_manager/axis_manager.c:323-337 | The streamed setpoint never exceeds the scaled, rounded limit in magnitude |
| `Scaling.InfiniteLimitSaturates` | app/axis_manager/axis_manager.c:323-337 | Without a velocity limit any deflection asks for the largest setpoint in its direction, and none for zero |
| `Scaling.ScaledIsNearest` | app/axis_manager/axis_manager.c:242-248 | Infinities and out-of-range numbers saturate, every other number becomes the nearest multiple of the scale, halves away from zero |
| `Scaling.MagnitudesFollow` | app/axis_manager/axis_manager.c:242-257 | The numbers floats denote follow each other in the order of their fields, from zero on and with 1.0 at exponent 127 |
| `MainLoop.MainLoop.Run` | app/main_loop/main_loop.c:94-136 | After any number of iterations with any requests between them, started from boot, the state is that of a run of the system, the slot is owned or was abandoned by a motor save in that run, and it is wedged exactly if a call of that run wedged it; a subscription that stays is a run of the telemetry model |
| `MainLoop.MainLoop.Obey` | app/axis_manager/axis_manager.c:1104-1366 | Requests from other modules between ticks are a run of as many steps |
| `AxisManager.AxisManager.Obey` | app/axis_manager/axis_manager.c:1104-1366 | Every setter and request, the stick value set over the object dictionary included, is one step of the system, a rejected value one that changes nothing |
| `AxisManager.AxisManager.ChangeTarget` | app/axis_manager/axis_manager.c:1154-1250 | Mode, position, time and current are taken or rejected (unknown mode, NaN, negative time) as specified |
| `AxisManager.AxisManager.Change` | app/axis_manager/axis_manager.c:1104-1146 | The latches and pulses requested are exactly those set |
| `Time.ElapsedIsReal` | bsp/time/time.c:28-32 | Elapsed time is exact for intervals below 2^32 ms, across the wrap |
| `Telemetry.Subscription.StoreSample` | app/od/od.c:470-482 | The record is written at its place in the buffer and nowhere else |
| `Telemetry.Subscription.Unsubscribe` | app/od/od.c:337-344 | Ends the stream and leaves the batch as it is |
| `Shots.CmcState.StoreShot` | app/cmc_state/cmc_state.c:260-290 | Stores position and rounded time under a valid number and saves, or does nothing |
| `Shots.OpenMoveExplained` | app/cmc_state/cmc_state.c:343-406 | Every open move is the last accepted one of the run, to its shot, started at its time |
| `Stream.Listener.Dispatch` | app/controller_mgr/controller_mgr.c:781-804 | The parse loop dispatches the specified frames and stops at their end, or drops everything at a bad header |
| `Stream.Listener.Compact` | app/controller_mgr/controller_mgr.c:806-812 | The unparsed bytes move to the front unchanged |
| `LogRing.Log.ScanLine` | app/log/log.c:94-113 | The scan finds the length of the first line across the end of the ring |
| `LogRing.Log.Append` | app/log/log.c:115-131 | The copy appends the line to the queue, filling the ring if it must |
| `Crc16.RunTwo` | app/cia402/cia402.c:113-124 | Two bytes act as one word followed by sixteen steps |
| `Replies.LateAnswerIgnored` | app/cia402/cia402.c:274-315 | The step behind it: a timely answer about another frame leaves the system as no answer would |

## Left out

- The getters, the object dictionary tables, `app/web`, LED patterns, debug snapshots and statistics counters: plumbing.
- Ownership of the outbound TCP slot, panel timeouts and panel select rules of `app/controller_mgr`: no fairness holds there to be proved.
- Changes of the setup and of the cached parameters inside the motor other than by writes through the slot: `Trigger` and `Coherence` speak of the motor as their only holder and the slot as the only way to it.
- HAL, SPI, GPIO and the network driver: inputs of the steps.
- Float rounding: arithmetic is on reals. A NaN reaching an integer conversion, which C leaves open, becomes 0.
- Joystick differences outside 32 bits, which overflow in C, are computed without wrap.
- Power loss in the middle of a save: the old record is gone, and refusing what is left would rest on the CRC having no collision.
- `s_dropped_lines` is unbounded; the 32-bit wrap needs 2^32 lost lines. Log levels, timestamps and formatting are not modelled: a printed line is any text.
- Several clock readings inside one call are one reading, but for the three of `cia402_tick`.
- Writes to CMC-owned objects through the bridge are separate setter steps; the local dictionary's answer is an input.
- Ownership.HomeMoves: says only that the slot carries one of homing's three requests, because a homing that timed out keeps its handle; `Ownership.EveryRunHomeExact` says exactly when it is that of homing's own state.
- Replies.NoLateCompletion: assumes that an answer or error report is fewer than 65536 frames late and repeats a sequence number that was sent; beyond that the number means another frame.
- Trigger.CalmTriggerIsRight: one direction; the exact condition, parameter by parameter, is `Trigger.TriggerMatchesMotor`.
- The draining of the telemetry socket and the truncation of datagrams above 520 bytes by the receive buffer.
- In `Moves` the float encodings of a shot's position and time are inputs of each turn, the position's exact and the time's within a relative 2^-22, and so is the stick value a raw value calibrates to.
- AxisManager.AxisManager.UpdateState: leaves out the error code, the actual mode and the position, which only getters read.
