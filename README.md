# Maxon EPOS EtherCAT drive control, modelled in Dafny

This project models the drive-control layer of the Maxon EPOS EtherCAT
driver (`src/maxon_epos_ethercat_sdk/Maxon.cpp`), which runs the
device-control state machine of CiA 402 (IEC 61800-7-201) in two ways.

- **SDO path.** Acyclic service-data access drives the device through a
  whole chain of numbered state transitions in one call.
- **PDO path.** The cyclic process-data loop issues one controlword per
  cycle, waits a minimum dwell time between controlwords, and counts
  readings of the target state before it declares success.

The project also models:

- how each configured process-data layout fills the outgoing record and
  updates the reading;
- the rule that decides whether the mode of operation may change at run
  time;
- the `binstring` helpers that render register values as binary digits.

Files and modules:

- `drive_state_machine.dfy` (`DriveStateMachine`) holds the drive states, the
  transitions, the controlword (`AllFalse` or `Set(t)`) and the error flags.
  It also holds the two transition tables of the driver. The state diagram of
  CiA 402 (`Source`/`Destination` of each transition) is an independent
  reference, and the tables are proved against it.
- `pdo_engine.dfy` (`PdoEngine`) gives the cyclic transition engine as values.
  `Arm` is the request, `Engage` is one tick, and `Run` is a sequence of
  read-then-write cycles. It also holds the log of cyclic events.
- `pdo_layout.dfy` (`PdoLayout`) holds the Rx/Tx layouts, the written record,
  the reading, and the two dispatch functions.
- `maxon.dfy` (`Driver`) holds the class `Maxon`. Its fields are the driver's
  own fields. Each method is proved against the functions above. The bus is
  modelled as ghost logs of what was written. The bus's answers, the
  steady-clock time and the decoded drive state are method inputs.
- `binstring.dfy` (`BinString`) holds the two `binstring` overloads as loops.
  They are proved against a recursive rendering, with a round trip back to
  the value.

Behaviours of the code that the model keeps and proves:

- The SDO chain does not short-circuit. `success &=` calls every write, so
  all transitions of the chain are written even after one fails, and the
  result is the conjunction of all answers. `SetDriveStateViaSdo` and
  `WriteTransitionsViaSdo` state this.
- The match counter of the PDO engine is reset only on success. A reading of
  another state leaves it as it is, and so does arming a new request. So it
  counts readings of the target, not consecutive ones. `Engage`, `Arm` and
  `RunCountsTargetReadings` state this.
- The PDO table returns the all-false controlword and reports
  `PdoStateTransitionError` when the requested state is already reached. The
  engine never gets there, because it checks for the target state first.
  `Engage` proves that the only errors a tick adds are for a target outside
  the five reachable states or an unknown current state.
- `updateRead` marks a reading as received even when the Tx layout is
  unsupported. The next tick then uses the drive state it already had.

## Model

| member | source | states |
|---|---|---|
| `BinString.BinString16` | src/maxon_epos_ethercat_sdk/Maxon.cpp:36-47 | 16 characters, each '0' or '1'; character i is '1' exactly when bit 15-i of the value is set; the string read back as binary is the value |
| `BinString.BinString8` | src/maxon_epos_ethercat_sdk/Maxon.cpp:48-59 | 8 characters, each '0' or '1', over the two's-complement byte; character i is '1' exactly when bit 7-i is set; read back it is the value mod 256; the first character is '1' exactly for negative values |
| `BinString.RenderedAt` | src/maxon_epos_ethercat_sdk/Maxon.cpp:39-45 | character i of an n-digit rendering is '1' exactly when bit n-1-i is set |
| `BinString.RenderedValue` | src/maxon_epos_ethercat_sdk/Maxon.cpp:36-47 | the rendering of a value below 2^n, read back as binary, is the value (round trip) |
| `DriveStateMachine.NextStateTransitionControlword` | src/maxon_epos_ethercat_sdk/Maxon.cpp:765-949 | all bits cleared exactly when requested == current, requested is Fault or unknown, or current is unknown; otherwise the transition it requests leaves from the current state in the CiA 402 diagram |
| `DriveStateMachine.NextStateTransitionErrors` | src/maxon_epos_ethercat_sdk/Maxon.cpp:768-780 | adds exactly one PdoStateTransitionError in the same cases, and nothing otherwise |
| `DriveStateMachine.SdoChain` | src/maxon_epos_ethercat_sdk/Maxon.cpp:447-628 | no chain (an error) exactly when the target is Fault or unknown or the current state is unknown; every chain has at most 5 transitions; the chain is empty exactly when target == current |
| `DriveStateMachine.Controlwords` | src/maxon_epos_ethercat_sdk/Maxon.cpp:632-691 | each transition is written as the controlword that requests that transition, in order |
| `DriveStateMachine.PdoStepStartsSdoChain` | src/maxon_epos_ethercat_sdk/Maxon.cpp:772-940 | for a reachable target and current != target, the PDO table's transition is the first element of the SDO chain, and the rest of the chain is the chain from the state that transition leads to |
| `DriveStateMachine.FirstStepFromFaultAndQuickStop` | src/maxon_epos_ethercat_sdk/Maxon.cpp:772-940 | towards any reachable target, from Fault the next transition is always 15, and from QuickStopActive it is always 12 unless QuickStopActive is the target |
| `DriveStateMachine.SdoChainReachesTarget` | src/maxon_epos_ethercat_sdk/Maxon.cpp:447-628 | every SDO chain is a path in the CiA 402 diagram from the current state to the target |
| `DriveStateMachine.PdoPathIsSdoChain` | src/maxon_epos_ethercat_sdk/Maxon.cpp:765-949 | a drive that follows each PDO step is sent exactly the SDO chain, one transition per step, and then all-false |
| `PdoLayout.RxFrameFor` | src/maxon_epos_ethercat_sdk/Maxon.cpp:167-252 | no record exactly for an unsupported layout; every record has the configured layout and carries the controlword; Standard carries the driver's mode, CSP/CST/CSV/CSTCSP carry the staged command's mode, PVM carries no mode; CSP carries the staged target position, position offset and torque offset, CST the target torque and torque offset, CSV the target velocity and velocity offset, PVM the target velocity, profile acceleration and deceleration and motion profile type |
| `PdoLayout.ReadFrame` | src/maxon_epos_ethercat_sdk/Maxon.cpp:260-329 | no update exactly for an unsupported layout; every known layout sets the drive state; position, velocity and current (taken from the torque field) are set for CSP/CST/CSV/CSTCSP only and kept otherwise; demand velocity is set for PVM only |
| `PdoEngine.Arm` | src/maxon_epos_ethercat_sdk/Maxon.cpp:702-731 | arming sets the request and target, clears success and hasRead, restarts the dwell timer, and keeps the match counter and controlword |
| `PdoEngine.Engage` | src/maxon_epos_ethercat_sdk/Maxon.cpp:968-1010 | when the counter reaches the threshold on a reading of the target, the tick succeeds: the request is cleared, the counter resets and hasRead and the controlword are left untouched; every other tick clears hasRead; a reading of another state never changes the counter; a new controlword and timestamp only off target after more than the minimum dwell; an off-target tick past the dwell adds exactly the table's errors (PdoStateTransitionError for an unreachable target or an unknown state) and every other tick adds none |
| `PdoEngine.RunCountsTargetReadings` | src/maxon_epos_ethercat_sdk/Maxon.cpp:986-999 | over any sequence of cycles, the request completes exactly when some reading shows the target and the start count plus the number of such readings reaches the threshold; until then the counter is the start count plus that number |
| `PdoEngine.RunWhileStuck` | src/maxon_epos_ethercat_sdk/Maxon.cpp:1000-1005 | while the drive stays in one non-target state the request stays pending, the counter is unchanged and the only controlword issued is the table's step from that state |
| `PdoEngine.TicksSeparatedByReads` | src/maxon_epos_ethercat_sdk/Maxon.cpp:162-165 | in a log without two adjacent ticks, any two engine ticks have a read between them |
| `Driver.Maxon.TicksSeparatedInLog` | src/maxon_epos_ethercat_sdk/Maxon.cpp:162-165 | in the event log of a driver that keeps its invariant (as every cyclic method does), any two engine ticks have a PDO read between them |
| `Driver.Maxon.constructor` | src/maxon_epos_ethercat_sdk/Maxon.cpp:68-72 | a new driver has no request pending, no mode of operation, mode changes disallowed and empty logs |
| `Driver.Maxon.LoadConfiguration` | src/maxon_epos_ethercat_sdk/Maxon.cpp:403-418 | returns true; mode changes are allowed exactly with multiple modes enabled and the Standard layout in both directions; the mode becomes the configured one |
| `Driver.Maxon.StageCommand` | src/maxon_epos_ethercat_sdk/Maxon.cpp:345-377 | stages the command; the mode becomes the command's (even NA) exactly when mode changes are allowed, and is kept otherwise |
| `Driver.Maxon.GetNextStateTransitionControlword` | src/maxon_epos_ethercat_sdk/Maxon.cpp:765-949 | returns the table's controlword and adds the table's errors to the reading |
| `Driver.Maxon.SetDriveStateViaPdo` | src/maxon_epos_ethercat_sdk/Maxon.cpp:693-731 | returns true, the engine becomes `Arm` of the old engine, and the tick-after-read invariant is kept |
| `Driver.Maxon.EngagePdoStateMachine` | src/maxon_epos_ethercat_sdk/Maxon.cpp:968-1010 | the engine and error set become those of `Engage` on the latest reading's drive state; afterwards no tick is armed on the reading just used |
| `Driver.Maxon.UpdateWrite` | src/maxon_epos_ethercat_sdk/Maxon.cpp:143-253 | with mode NA it only adds ModeOfOperationError; otherwise it ticks exactly when a request is pending and a read came in since, logs the tick, and writes the record of `RxFrameFor`, or adds RxPdoTypeError; the invariant "a tick never follows a tick without a read between" is kept |
| `Driver.Maxon.UpdateRead` | src/maxon_epos_ethercat_sdk/Maxon.cpp:255-336 | the reading becomes `ReadFrame`'s, or TxPdoTypeError is added for an unsupported layout; either way hasRead is set and a read is logged |
| `Driver.Maxon.StateTransitionViaSdo` | src/maxon_epos_ethercat_sdk/Maxon.cpp:632-691 | writes exactly the controlword of the transition and returns the bus's answer |
| `Driver.Maxon.WriteTransitionsViaSdo` | src/maxon_epos_ethercat_sdk/Maxon.cpp:549-553 | writes every transition of the chain in order, whatever the answers, and the result is the start value and all answers |
| `Driver.Maxon.SetDriveStateViaSdo` | src/maxon_epos_ethercat_sdk/Maxon.cpp:438-630 | writes exactly the SDO chain in table order (nothing when target == current); result is the statusword read's answer and all write answers; for a pair without a chain it writes nothing, adds SdoStateTransitionError and returns false |

## Left out

- The blocking wait of `setDriveStateViaPdo` (the unlock, sleep and relock polling loop bounded by the maximum timeout) is left out. It is about threads and wall-clock time. `SetDriveStateViaPdo` models the non-blocking request only.
- Mutex locking is left out. Each method runs as one atomic step.
- The statusword-to-drive-state decoding, the controlword bit patterns and the internals of the reading are left out. They are defined in headers that are not part of this model. The drive state is an input. The controlword is `AllFalse` or `Set(t)`. The reading holds raw values. `DriveState.Unknown(code)` stands for every decoder result other than the six states, with a code of its own so that different such states stay distinct, and `RxPdoNA`/`TxPdoNA` stand for every unsupported layout value.
- The default branch of `stateTransitionViaSdo` is left out. The transition type is closed, so that branch cannot be reached.
- The unit conversion in `stageCommand` is left out. This covers the scale factors, the clamps to maximum current and torque, and `doUnitConversion`. These are floating point, and the conversion lives in the command class, which is not part of this model. `Command` holds the raw integers that conversion would produce.
- `startup`, `preShutdown` and `shutdown` are left out. They are bring-up I/O with sleeps. So are the nominal-current discovery, `mapPdos`, `configParam` and the PDO size queries.
- `loadConfigFile` and `loadConfigNode` are left out. They are YAML parsing in a library that is not part of this model. So is the reading's own configuration step in `loadConfiguration`.
- Logging is left out. So is the diagnostic `printErrorCode` that `updateRead` calls when the drive is in Fault.
- The bus transfers themselves are left out. Rx writes go to a ghost log. The record read from the bus is an input. The answers to SDO reads and writes are boolean inputs, one per write issued.
- Driver.Maxon.constructor: the constructor in the source sets only the name and the address. The initial values the model states are assumed defaults of the class declaration, which is not part of this model: no request pending, mode NA, mode changes disallowed, all-false controlword and a zero counter.
- Driver.Maxon.EngagePdoStateMachine: the source reads the steady clock twice (elapsed time, then the new timestamp). The model uses one time value `now` for both.
- PdoEngine.Engage: the match counter is a `nat`, so a fixed-width counter's wrap-around is not modelled.
- The error set of the reading is a sequence of the errors in the order added. It is not modelled as a set.
