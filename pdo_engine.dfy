/** The cyclic (PDO) transition engine as values: the state the driver keeps
    for a requested drive-state change, the arming step, the engine tick run
    from the write step, and what repeated read-then-write cycles do. */
module PdoEngine {
  import opened DriveStateMachine

  /** The driver's fields that make up the engine. */
  datatype EngineState = EngineState(
    conductStateChange: bool,
    hasRead: bool,
    targetDriveState: DriveState,
    successfulTargetReadings: nat,
    stateChangeSuccessful: bool,
    controlword: Controlword,
    changeTimePoint: int)

  /** The engine after a tick, and the errors the tick added to the reading. */
  datatype EngageOutcome = EngageOutcome(engine: EngineState, errors: seq<ErrorType>)

  /** Requesting a state change without waiting: the engine is armed for the
      target, success is cleared, a fresh reading is demanded and the dwell
      timer restarts.  The match counter and the controlword are kept. */
  function Arm(e: EngineState, target: DriveState, now: int): (r: EngineState)
    ensures r.conductStateChange && r.targetDriveState == target
    ensures !r.stateChangeSuccessful && !r.hasRead && r.changeTimePoint == now
    ensures r.successfulTargetReadings == e.successfulTargetReadings && r.controlword == e.controlword
  {
    e.(stateChangeSuccessful := false, conductStateChange := true, targetDriveState := target,
       hasRead := false, changeTimePoint := now)
  }

  /** One tick of the engine at time `now` (microseconds) with the drive
      state of the latest reading. */
  function Engage(e: EngineState, minReadings: nat, minTimeout: int, now: int, current: DriveState)
    : (r: EngageOutcome)
    ensures r.engine.targetDriveState == e.targetDriveState
    // enough readings of the target: the change is declared successful, and
    // hasRead and the controlword are left as they were
    ensures current == e.targetDriveState && e.successfulTargetReadings + 1 >= minReadings ==>
              && !r.engine.conductStateChange && r.engine.stateChangeSuccessful
              && r.engine.successfulTargetReadings == 0
              && r.engine.hasRead == e.hasRead && r.engine.controlword == e.controlword
    // every other tick keeps the request going and demands a new reading
    ensures !(current == e.targetDriveState && e.successfulTargetReadings + 1 >= minReadings) ==>
              && r.engine.conductStateChange == e.conductStateChange
              && r.engine.stateChangeSuccessful == e.stateChangeSuccessful
              && !r.engine.hasRead
    ensures current == e.targetDriveState && e.successfulTargetReadings + 1 < minReadings ==>
              r.engine.successfulTargetReadings == e.successfulTargetReadings + 1
    // a reading of another state never resets the counter
    ensures current != e.targetDriveState ==> r.engine.successfulTargetReadings == e.successfulTargetReadings
    // the dwell gate: a new controlword only off target and after the minimum dwell time
    ensures (r.engine.controlword != e.controlword || r.engine.changeTimePoint != e.changeTimePoint) ==>
              current != e.targetDriveState && now - e.changeTimePoint > minTimeout
    ensures current != e.targetDriveState && now - e.changeTimePoint > minTimeout ==>
              && r.engine.controlword == NextStateTransitionControlword(e.targetDriveState, current)
              && r.engine.changeTimePoint == now
    // the engine never reports an already reached state as an error
    ensures r.errors != [] ==>
              r.errors == [PdoStateTransitionError] && (!IsTargetState(e.targetDriveState) || current.Unknown?)
    // and an off-target tick past the dwell reports exactly the table's errors
    ensures r.errors == if current != e.targetDriveState && now - e.changeTimePoint > minTimeout
                        then NextStateTransitionErrors(e.targetDriveState, current) else []
  {
    if current == e.targetDriveState then
      var readings := e.successfulTargetReadings + 1;
      if readings >= minReadings then
        EngageOutcome(e.(conductStateChange := false, successfulTargetReadings := 0, stateChangeSuccessful := true), [])
      else
        EngageOutcome(e.(successfulTargetReadings := readings, hasRead := false), [])
    else if now - e.changeTimePoint > minTimeout then
      EngageOutcome(
        e.(controlword := NextStateTransitionControlword(e.targetDriveState, current), changeTimePoint := now,
           hasRead := false),
        NextStateTransitionErrors(e.targetDriveState, current))
    else
      EngageOutcome(e.(hasRead := false), [])
  }

  /** What one cycle reads: the time and the decoded drive state. */
  datatype Observation = Observation(now: int, driveState: DriveState)

  /** How many observations show the given state. */
  function Matches(obs: seq<Observation>, s: DriveState): nat
    decreases |obs|
  {
    if obs == [] then 0 else (if obs[0].driveState == s then 1 else 0) + Matches(obs[1..], s)
  }

  /** The engine after a sequence of cycles, each a read of one observation
      followed by a write step that ticks the engine while a state change is
      being conducted. */
  function Run(e: EngineState, minReadings: nat, minTimeout: int, obs: seq<Observation>): EngineState
    decreases |obs|
  {
    if obs == [] || !e.conductStateChange then e
    else
      var next := Engage(e.(hasRead := true), minReadings, minTimeout, obs[0].now, obs[0].driveState).engine;
      Run(next, minReadings, minTimeout, obs[1..])
  }

  /** The match counter counts readings of the target, not consecutive ones:
      a request started with counter c completes exactly when the cycles
      contain a reading of the target and c plus the number of such readings
      reaches the threshold. */
  lemma {:induction false} RunCountsTargetReadings(e: EngineState, minReadings: nat, minTimeout: int,
                                                    obs: seq<Observation>)
    requires e.conductStateChange && !e.stateChangeSuccessful
    ensures var r := Run(e, minReadings, minTimeout, obs);
            var m := Matches(obs, e.targetDriveState);
            && r.targetDriveState == e.targetDriveState
            && (r.conductStateChange <==> m == 0 || e.successfulTargetReadings + m < minReadings)
            && (r.stateChangeSuccessful <==> !r.conductStateChange)
            && (r.conductStateChange ==> r.successfulTargetReadings == e.successfulTargetReadings + m)
            && (!r.conductStateChange ==> r.successfulTargetReadings == 0)
    decreases |obs|
  {
    if obs != [] {
      var next := Engage(e.(hasRead := true), minReadings, minTimeout, obs[0].now, obs[0].driveState).engine;
      if next.conductStateChange {
        RunCountsTargetReadings(next, minReadings, minTimeout, obs[1..]);
      }
    }
  }

  /** While the drive stays in a state other than the target, the request
      stays pending, the counter is untouched, and the only controlword the
      engine ever issues is the table's next step from that state. */
  lemma {:induction false} RunWhileStuck(e: EngineState, minReadings: nat, minTimeout: int,
                                         obs: seq<Observation>, s: DriveState)
    requires e.conductStateChange && s != e.targetDriveState
    requires forall i :: 0 <= i < |obs| ==> obs[i].driveState == s
    ensures var r := Run(e, minReadings, minTimeout, obs);
            && r.conductStateChange && r.stateChangeSuccessful == e.stateChangeSuccessful
            && r.successfulTargetReadings == e.successfulTargetReadings
            && (r.controlword == e.controlword
                || r.controlword == NextStateTransitionControlword(e.targetDriveState, s))
    decreases |obs|
  {
    if obs != [] {
      var next := Engage(e.(hasRead := true), minReadings, minTimeout, obs[0].now, obs[0].driveState).engine;
      RunWhileStuck(next, minReadings, minTimeout, obs[1..], s);
    }
  }

  /** The driver's cyclic events, in order: a PDO read, or an engine tick
      run from the write step. */
  datatype CycleEvent = PdoRead | EngineTick

  /** The last event was a tick, with no read since. */
  predicate TickPending(events: seq<CycleEvent>)
  {
    events != [] && events[|events| - 1].EngineTick?
  }

  /** No two ticks follow each other without a read between them. */
  predicate NoAdjacentTicks(events: seq<CycleEvent>)
  {
    forall i :: 0 <= i < |events| - 1 ==> !(events[i].EngineTick? && events[i + 1].EngineTick?)
  }

  /** Any two ticks in the log are separated by a read. */
  lemma TicksSeparatedByReads(events: seq<CycleEvent>, i: int, j: int)
    requires NoAdjacentTicks(events)
    requires 0 <= i < j < |events| && events[i].EngineTick? && events[j].EngineTick?
    ensures exists k :: i < k < j && events[k].PdoRead?
  {
    assert events[i + 1].PdoRead?;
  }
}
