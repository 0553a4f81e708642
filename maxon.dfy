/** The drive-control layer of the Maxon EPOS EtherCAT driver: one object per
    slave, holding the configuration, the staged command, the latest reading
    and the cyclic transition engine.  The bus is abstract: every write is
    appended to a log, the answers of the bus are method inputs, and so are
    the time and the decoded drive state. */
module Driver {
  import opened DriveStateMachine
  import opened PdoLayout
  import opened PdoEngine

  /** The configuration fields the modelled operations use. */
  datatype Configuration = Configuration(
    rxPdoTypeEnum: RxPdoType,
    txPdoTypeEnum: TxPdoType,
    modeOfOperationEnum: ModeOfOperation,
    useMultipleModeOfOperations: bool,
    driveStateChangeMinTimeout: nat,
    minNumberOfSuccessfulTargetStateReadings: nat)

  class Maxon {
    var configuration: Configuration
    var allowModeChange: bool
    var modeOfOperation: ModeOfOperation
    var stagedCommand: Command
    var reading: Reading
    /** The reading's error set, in the order the errors were added. */
    var errors: seq<ErrorType>

    // The cyclic transition engine.
    var conductStateChange: bool
    var hasRead: bool
    var targetDriveState: DriveState
    var numberOfSuccessfulTargetStateReadings: nat
    var stateChangeSuccessful: bool
    var controlword: Controlword
    /** Steady-clock time (microseconds) of the last controlword change. */
    var driveStateChangeTimePoint: int

    // What went to the bus, and the cyclic events, in order.
    ghost var rxPdoLog: seq<RxPdo>
    ghost var sdoWriteLog: seq<Controlword>
    ghost var events: seq<CycleEvent>

    /** An engine tick is only ever run on a reading newer than the last tick. */
    ghost predicate Valid()
      reads this`events, this`conductStateChange, this`hasRead
    {
      && NoAdjacentTicks(events)
      && (conductStateChange && hasRead ==> !TickPending(events))
    }

    /** In the log of a valid driver, any two engine ticks have a PDO read
        between them: the engine never acts twice on the same reading. */
    lemma TicksSeparatedInLog()
      requires Valid()
      ensures forall i, j :: 0 <= i < j < |events| && events[i].EngineTick? && events[j].EngineTick? ==>
                exists k :: i < k < j && events[k].PdoRead?
    {
      forall i, j | 0 <= i < j < |events| && events[i].EngineTick? && events[j].EngineTick?
        ensures exists k :: i < k < j && events[k].PdoRead?
      {
        TicksSeparatedByReads(events, i, j);
      }
    }

    ghost function Engine(): EngineState
      reads this
    {
      EngineState(conductStateChange, hasRead, targetDriveState, numberOfSuccessfulTargetStateReadings,
                  stateChangeSuccessful, controlword, driveStateChangeTimePoint)
    }

    /** A driver that has not been configured yet and has no state change pending. */
    constructor ()
      ensures Valid()
      ensures !conductStateChange && !hasRead && !stateChangeSuccessful
      ensures modeOfOperation.NA? && !allowModeChange && controlword.AllFalse?
      ensures numberOfSuccessfulTargetStateReadings == 0
      ensures errors == [] && rxPdoLog == [] && sdoWriteLog == [] && events == []
    {
      configuration := Configuration(RxPdoNA, TxPdoNA, NA, false, 0, 0);
      allowModeChange := false;
      modeOfOperation := NA;
      stagedCommand := Command(NA, 0, 0, 0, 0, 0, 0, 0, 0, 0);
      reading := Reading(Unknown(0), 0, 0, 0, 0);
      errors := [];
      conductStateChange := false;
      hasRead := false;
      targetDriveState := Unknown(0);
      numberOfSuccessfulTargetStateReadings := 0;
      stateChangeSuccessful := false;
      controlword := AllFalse;
      driveStateChangeTimePoint := 0;
      rxPdoLog := [];
      sdoWriteLog := [];
      events := [];
    }

    /** Takes over a configuration; changing the mode of operation at run
        time is allowed only with multiple modes enabled and the standard
        layout in both directions. */
    method LoadConfiguration(config: Configuration) returns (success: bool)
      modifies this`configuration, this`allowModeChange, this`modeOfOperation
      ensures success
      ensures allowModeChange <==>
                && config.useMultipleModeOfOperations
                && config.rxPdoTypeEnum.RxPdoStandard?
                && config.txPdoTypeEnum.TxPdoStandard?
      ensures modeOfOperation == config.modeOfOperationEnum
      ensures configuration == config
    {
      success := true;
      allowModeChange := true;
      allowModeChange := allowModeChange && config.useMultipleModeOfOperations;
      allowModeChange := allowModeChange && config.rxPdoTypeEnum == RxPdoStandard;
      allowModeChange := allowModeChange && config.txPdoTypeEnum == TxPdoStandard;
      modeOfOperation := config.modeOfOperationEnum;
      configuration := config;
    }

    /** Stages a command (already in raw units) and takes over its mode of
        operation, even NA, only when mode changes are allowed. */
    method StageCommand(command: Command)
      modifies this`stagedCommand, this`modeOfOperation
      ensures stagedCommand == command
      ensures modeOfOperation == if allowModeChange then command.modeOfOperation else old(modeOfOperation)
    {
      stagedCommand := command;
      if allowModeChange {
        modeOfOperation := command.modeOfOperation;
      }
      // otherwise a differing mode is only logged
    }

    /** The cyclic path's table lookup, adding the error it reports. */
    method GetNextStateTransitionControlword(requested: DriveState, current: DriveState)
      returns (next: Controlword)
      modifies this`errors
      ensures next == NextStateTransitionControlword(requested, current)
      ensures errors == old(errors) + NextStateTransitionErrors(requested, current)
    {
      next := NextStateTransitionControlword(requested, current);
      if next.AllFalse? {
        errors := errors + [PdoStateTransitionError];
      }
    }

    /** Requests a state change over the cyclic path without waiting for it. */
    method SetDriveStateViaPdo(target: DriveState, now: int) returns (success: bool)
      requires Valid()
      modifies this`stateChangeSuccessful, this`conductStateChange, this`targetDriveState, this`hasRead,
               this`driveStateChangeTimePoint
      ensures Valid()
      ensures success
      ensures Engine() == Arm(old(Engine()), target, now)
    {
      stateChangeSuccessful := false;
      conductStateChange := true;
      targetDriveState := target;
      hasRead := false;
      driveStateChangeTimePoint := now;
      success := true;
    }

    /** One engine tick with the drive state of the latest reading. */
    method EngagePdoStateMachine(now: int)
      modifies this`conductStateChange, this`numberOfSuccessfulTargetStateReadings, this`stateChangeSuccessful,
               this`controlword, this`driveStateChangeTimePoint, this`hasRead, this`errors
      ensures var tick := Engage(old(Engine()), configuration.minNumberOfSuccessfulTargetStateReadings,
                                 configuration.driveStateChangeMinTimeout, now, reading.driveState);
              Engine() == tick.engine && errors == old(errors) + tick.errors
      ensures !(conductStateChange && hasRead)
    {
      var microsecondsSinceChange := now - driveStateChangeTimePoint;
      var currentDriveState := reading.driveState;
      if currentDriveState == targetDriveState {
        numberOfSuccessfulTargetStateReadings := numberOfSuccessfulTargetStateReadings + 1;
        if numberOfSuccessfulTargetStateReadings >= configuration.minNumberOfSuccessfulTargetStateReadings {
          conductStateChange := false;
          numberOfSuccessfulTargetStateReadings := 0;
          stateChangeSuccessful := true;
          return;
        }
      } else if microsecondsSinceChange > configuration.driveStateChangeMinTimeout {
        controlword := GetNextStateTransitionControlword(targetDriveState, currentDriveState);
        driveStateChangeTimePoint := now;
      }
      hasRead := false;
    }

    /** The cyclic write step: refuses to run without a mode of operation,
        ticks the engine when a state change is pending and a reading has
        come in since, and writes the record of the configured Rx layout. */
    method UpdateWrite(now: int)
      requires Valid()
      modifies this`conductStateChange, this`numberOfSuccessfulTargetStateReadings, this`stateChangeSuccessful,
               this`controlword, this`driveStateChangeTimePoint, this`hasRead, this`errors,
               this`rxPdoLog, this`events
      ensures Valid()
      ensures modeOfOperation.NA? ==>
                && errors == old(errors) + [ModeOfOperationError]
                && Engine() == old(Engine()) && rxPdoLog == old(rxPdoLog) && events == old(events)
      ensures !modeOfOperation.NA? ==>
                var ticks := old(conductStateChange && hasRead);
                var tick := if ticks
                            then Engage(old(Engine()), configuration.minNumberOfSuccessfulTargetStateReadings,
                                        configuration.driveStateChangeMinTimeout, now, reading.driveState)
                            else EngageOutcome(old(Engine()), []);
                var frame := RxFrameFor(configuration.rxPdoTypeEnum, tick.engine.controlword, modeOfOperation,
                                        stagedCommand);
                && Engine() == tick.engine
                && events == old(events) + (if ticks then [EngineTick] else [])
                && rxPdoLog == old(rxPdoLog) + (if frame.Some? then [frame.value] else [])
                && errors == old(errors) + tick.errors + (if frame.None? then [RxPdoTypeError] else [])
    {
      if modeOfOperation == NA {
        errors := errors + [ModeOfOperationError];
        return;
      }
      if conductStateChange && hasRead {
        EngagePdoStateMachine(now);
        events := events + [EngineTick];
      }
      var frame := RxFrameFor(configuration.rxPdoTypeEnum, controlword, modeOfOperation, stagedCommand);
      match frame {
        case Some(f) =>
          rxPdoLog := rxPdoLog + [f];
        case None =>
          errors := errors + [RxPdoTypeError];
      }
    }

    /** The cyclic read step: updates the reading from the record of the
        configured Tx layout and records that a reading has come in, even
        when the layout is unsupported. */
    method UpdateRead(frame: TxFrame)
      requires Valid()
      modifies this`reading, this`errors, this`hasRead, this`events
      ensures Valid()
      ensures hasRead
      ensures events == old(events) + [PdoRead]
      ensures var r := ReadFrame(configuration.txPdoTypeEnum, old(reading), frame);
              && (r.Some? ==> reading == r.value && errors == old(errors))
              && (r.None? ==> reading == old(reading) && errors == old(errors) + [TxPdoTypeError])
    {
      match ReadFrame(configuration.txPdoTypeEnum, reading, frame) {
        case Some(r) =>
          reading := r;
        case None =>
          errors := errors + [TxPdoTypeError];
      }
      if !hasRead {
        hasRead := true;
      }
      events := events + [PdoRead];
    }

    /** Writes the controlword of one transition over the acyclic path;
        `writeOk` is the bus's answer. */
    method StateTransitionViaSdo(t: StateTransition, writeOk: bool) returns (ok: bool)
      modifies this`sdoWriteLog
      ensures sdoWriteLog == old(sdoWriteLog) + [Set(t)]
      ensures ok == writeOk
    {
      sdoWriteLog := sdoWriteLog + [Set(t)];
      ok := writeOk;
    }

    /** Drives the state machine to `target` over the acyclic path.  The
        statusword read's answer and the drive state it decodes to are
        inputs, and so are the bus's answers to the writes, one per write.
        Every transition of the chain is written even after a failed write;
        the result is the conjunction of all answers. */
    method SetDriveStateViaSdo(target: DriveState, statuswordReadOk: bool, current: DriveState,
                               writeReplies: seq<bool>) returns (success: bool)
      requires |writeReplies| == |SdoWrites(target, current)|
      modifies this`errors, this`sdoWriteLog
      ensures sdoWriteLog == old(sdoWriteLog) + Controlwords(SdoWrites(target, current))
      ensures SdoChain(target, current).None? ==> !success && errors == old(errors) + [SdoStateTransitionError]
      ensures SdoChain(target, current).Some? ==>
                && errors == old(errors)
                && (success <==> statuswordReadOk && forall i :: 0 <= i < |writeReplies| ==> writeReplies[i])
    {
      success := true;
      success := success && statuswordReadOk;
      var chain := SdoChain(target, current);
      if chain.None? {
        errors := errors + [SdoStateTransitionError];
        success := false;
      } else {
        success := WriteTransitionsViaSdo(success, chain.value, writeReplies);
      }
    }

    /** The `success &= stateTransitionViaSdo(...)` sequence of one chain:
        every transition is written, whatever the earlier answers were. */
    method WriteTransitionsViaSdo(success0: bool, chain: seq<StateTransition>, writeReplies: seq<bool>)
      returns (success: bool)
      requires |writeReplies| == |chain|
      modifies this`sdoWriteLog
      ensures sdoWriteLog == old(sdoWriteLog) + Controlwords(chain)
      ensures success <==> success0 && forall i :: 0 <= i < |writeReplies| ==> writeReplies[i]
    {
      success := success0;
      for i := 0 to |chain|
        invariant sdoWriteLog == old(sdoWriteLog) + Controlwords(chain[..i])
        invariant success <==> success0 && forall j :: 0 <= j < i ==> writeReplies[j]
      {
        var ok := StateTransitionViaSdo(chain[i], writeReplies[i]);
        success := success && ok;
        assert chain[..i + 1] == chain[..i] + [chain[i]];
        ControlwordsAppend(chain[..i], chain[i]);
      }
      assert chain[..|chain|] == chain;
    }
  }

  lemma {:induction false} ControlwordsAppend(ts: seq<StateTransition>, t: StateTransition)
    ensures Controlwords(ts + [t]) == Controlwords(ts) + [Set(t)]
  {
  }
}
