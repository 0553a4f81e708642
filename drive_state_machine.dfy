/** The device-control state machine of CiA 402 (IEC 61800-7-201) as the
    driver uses it: the drive states, the numbered state transitions, the
    controlword a transition is requested with, and the two tables that pick
    transitions for a (requested, current) pair — one next transition for the
    cyclic (PDO) path and a whole chain for the acyclic (SDO) path. */
module DriveStateMachine {

  datatype Option<T> = None | Some(value: T)

  /** Drive states decoded from a statusword.  `Unknown(code)` stands for
      every other value the decoder can yield (a statusword matching none of
      the six patterns, or a state the driver has no transition for), each
      with its own code so that two different such states never compare
      equal; the statusword decoding itself is not part of this model. */
  datatype DriveState =
    | SwitchOnDisabled
    | ReadyToSwitchOn
    | SwitchedOn
    | OperationEnabled
    | QuickStopActive
    | Fault
    | Unknown(code: int)

  /** The numbered state transitions of CiA 402 that the driver requests. */
  datatype StateTransition = T2 | T3 | T4 | T5 | T6 | T7 | T8 | T9 | T10 | T11 | T12 | T15

  /** A controlword either has all bits cleared or carries the exact bit
      pattern that requests one state transition (the patterns themselves
      are not part of this model). */
  datatype Controlword = AllFalse | Set(transition: StateTransition)

  /** The error flags accumulated on the reading. */
  datatype ErrorType =
    | ConfigurationError
    | ModeOfOperationError
    | RxPdoTypeError
    | TxPdoTypeError
    | SdoStateTransitionError
    | PdoStateTransitionError

  /** The five states the driver knows how to bring the drive into. */
  predicate IsTargetState(s: DriveState)
  {
    s.SwitchOnDisabled? || s.ReadyToSwitchOn? || s.SwitchedOn? || s.OperationEnabled? || s.QuickStopActive?
  }

  /** The drive states a transition leaves from and arrives at, as drawn in
      the state diagram of CiA 402. */
  function Source(t: StateTransition): DriveState
  {
    match t
    case T2 => SwitchOnDisabled
    case T3 => ReadyToSwitchOn
    case T4 => SwitchedOn
    case T5 => OperationEnabled
    case T6 => SwitchedOn
    case T7 => ReadyToSwitchOn
    case T8 => OperationEnabled
    case T9 => OperationEnabled
    case T10 => SwitchedOn
    case T11 => OperationEnabled
    case T12 => QuickStopActive
    case T15 => Fault
  }

  function Destination(t: StateTransition): DriveState
  {
    match t
    case T2 => ReadyToSwitchOn
    case T3 => SwitchedOn
    case T4 => OperationEnabled
    case T5 => SwitchedOn
    case T6 => ReadyToSwitchOn
    case T7 => SwitchOnDisabled
    case T8 => ReadyToSwitchOn
    case T9 => SwitchOnDisabled
    case T10 => SwitchOnDisabled
    case T11 => QuickStopActive
    case T12 => SwitchOnDisabled
    case T15 => SwitchOnDisabled
  }

  /** The state reached by carrying out the transitions in order from s, or
      None if one of them does not leave from the state reached so far. */
  function Walk(s: DriveState, ts: seq<StateTransition>): Option<DriveState>
    decreases |ts|
  {
    if ts == [] then Some(s)
    else if Source(ts[0]) == s then Walk(Destination(ts[0]), ts[1..])
    else None
  }

  /** The cyclic path's table: the controlword for the next transition from
      `current` towards `requested`.  All bits are cleared when the state is
      already reached, when `requested` is not one of the five target
      states, or when `current` is not a known state. */
  function NextStateTransitionControlword(requested: DriveState, current: DriveState): (r: Controlword)
    ensures r.AllFalse? <==> requested == current || !IsTargetState(requested) || current.Unknown?
    ensures r.Set? ==> Source(r.transition) == current
  {
    match requested
    case SwitchOnDisabled =>
      (match current
       case SwitchOnDisabled => AllFalse
       case ReadyToSwitchOn => Set(T7)
       case SwitchedOn => Set(T10)
       case OperationEnabled => Set(T9)
       case QuickStopActive => Set(T12)
       case Fault => Set(T15)
       case Unknown(_) => AllFalse)
    case ReadyToSwitchOn =>
      (match current
       case SwitchOnDisabled => Set(T2)
       case ReadyToSwitchOn => AllFalse
       case SwitchedOn => Set(T6)
       case OperationEnabled => Set(T8)
       case QuickStopActive => Set(T12)
       case Fault => Set(T15)
       case Unknown(_) => AllFalse)
    case SwitchedOn =>
      (match current
       case SwitchOnDisabled => Set(T2)
       case ReadyToSwitchOn => Set(T3)
       case SwitchedOn => AllFalse
       case OperationEnabled => Set(T5)
       case QuickStopActive => Set(T12)
       case Fault => Set(T15)
       case Unknown(_) => AllFalse)
    case OperationEnabled =>
      (match current
       case SwitchOnDisabled => Set(T2)
       case ReadyToSwitchOn => Set(T3)
       case SwitchedOn => Set(T4)
       case OperationEnabled => AllFalse
       case QuickStopActive => Set(T12)
       case Fault => Set(T15)
       case Unknown(_) => AllFalse)
    case QuickStopActive =>
      (match current
       case SwitchOnDisabled => Set(T2)
       case ReadyToSwitchOn => Set(T3)
       case SwitchedOn => Set(T4)
       case OperationEnabled => Set(T11)
       case QuickStopActive => AllFalse
       case Fault => Set(T15)
       case Unknown(_) => AllFalse)
    case Fault => AllFalse
    case Unknown(_) => AllFalse
  }

  /** The errors the cyclic path's table adds to the reading: a
      PdoStateTransitionError exactly when it hands out no transition. */
  function NextStateTransitionErrors(requested: DriveState, current: DriveState): (r: seq<ErrorType>)
    ensures r == [] || r == [PdoStateTransitionError]
    ensures r != [] <==> requested == current || !IsTargetState(requested) || current.Unknown?
  {
    if NextStateTransitionControlword(requested, current).AllFalse? then [PdoStateTransitionError] else []
  }

  /** The length of the longest chain the acyclic path issues (Fault to QuickStopActive). */
  const LongestChain := 5

  /** The acyclic path's table: the transitions issued, in order, to go from
      `current` to `target`; None where the driver reports that no
      transition is implemented. */
  function SdoChain(target: DriveState, current: DriveState): (r: Option<seq<StateTransition>>)
    ensures r.None? <==> !IsTargetState(target) || current.Unknown?
    ensures r.Some? ==> |r.value| <= LongestChain
    ensures r.Some? ==> (r.value == [] <==> target == current)
  {
    match target
    case SwitchOnDisabled =>
      (match current
       case SwitchOnDisabled => Some([])
       case ReadyToSwitchOn => Some([T7])
       case SwitchedOn => Some([T10])
       case OperationEnabled => Some([T9])
       case QuickStopActive => Some([T12])
       case Fault => Some([T15])
       case Unknown(_) => None)
    case ReadyToSwitchOn =>
      (match current
       case SwitchOnDisabled => Some([T2])
       case ReadyToSwitchOn => Some([])
       case SwitchedOn => Some([T6])
       case OperationEnabled => Some([T8])
       case QuickStopActive => Some([T12, T2])
       case Fault => Some([T15, T2])
       case Unknown(_) => None)
    case SwitchedOn =>
      (match current
       case SwitchOnDisabled => Some([T2, T3])
       case ReadyToSwitchOn => Some([T3])
       case SwitchedOn => Some([])
       case OperationEnabled => Some([T5])
       case QuickStopActive => Some([T12, T2, T3])
       case Fault => Some([T15, T2, T3])
       case Unknown(_) => None)
    case OperationEnabled =>
      (match current
       case SwitchOnDisabled => Some([T2, T3, T4])
       case ReadyToSwitchOn => Some([T3, T4])
       case SwitchedOn => Some([T4])
       case OperationEnabled => Some([])
       case QuickStopActive => Some([T12, T2, T3, T4])
       case Fault => Some([T15, T2, T3, T4])
       case Unknown(_) => None)
    case QuickStopActive =>
      (match current
       case SwitchOnDisabled => Some([T2, T3, T4, T11])
       case ReadyToSwitchOn => Some([T3, T4, T11])
       case SwitchedOn => Some([T4, T11])
       case OperationEnabled => Some([T11])
       case QuickStopActive => Some([])
       case Fault => Some([T15, T2, T3, T4, T11])
       case Unknown(_) => None)
    case Fault => None
    case Unknown(_) => None
  }

  /** The transitions actually written on the acyclic path (none on an error). */
  function SdoWrites(target: DriveState, current: DriveState): seq<StateTransition>
  {
    match SdoChain(target, current)
    case Some(c) => c
    case None => []
  }

  /** The controlwords that request the transitions, in order. */
  function Controlwords(ts: seq<StateTransition>): (r: seq<Controlword>)
    ensures |r| == |ts|
    ensures forall i :: 0 <= i < |ts| ==> r[i] == Set(ts[i])
  {
    if ts == [] then [] else [Set(ts[0])] + Controlwords(ts[1..])
  }

  /** The cyclic path's next step is the head of the acyclic path's chain,
      and after the drive carries it out, the rest of the chain is the chain
      from the state it then is in. */
  lemma PdoStepStartsSdoChain(target: DriveState, current: DriveState)
    requires IsTargetState(target) && !current.Unknown? && current != target
    ensures var cw := NextStateTransitionControlword(target, current);
            var chain := SdoWrites(target, current);
            && cw.Set? && chain != [] && cw.transition == chain[0]
            && SdoChain(target, Destination(chain[0])) == Some(chain[1..])
  {
    var chain := SdoWrites(target, current);
    if |chain| == 1 {
      assert chain[1..] == [];
    }
    match current {
      case SwitchOnDisabled =>
        match target {
          case ReadyToSwitchOn =>
          case SwitchedOn =>
          case OperationEnabled =>
          case QuickStopActive =>
        }
      case ReadyToSwitchOn =>
        match target {
          case SwitchOnDisabled =>
          case SwitchedOn =>
          case OperationEnabled =>
          case QuickStopActive =>
        }
      case SwitchedOn =>
        match target {
          case SwitchOnDisabled =>
          case ReadyToSwitchOn =>
          case OperationEnabled =>
          case QuickStopActive =>
        }
      case OperationEnabled =>
        match target {
          case SwitchOnDisabled =>
          case ReadyToSwitchOn =>
          case SwitchedOn =>
          case QuickStopActive =>
        }
      case QuickStopActive =>
        match target {
          case SwitchOnDisabled =>
          case ReadyToSwitchOn =>
          case SwitchedOn =>
          case OperationEnabled =>
        }
      case Fault =>
        match target {
          case SwitchOnDisabled =>
          case ReadyToSwitchOn =>
          case SwitchedOn =>
          case OperationEnabled =>
          case QuickStopActive =>
        }
    }
  }

  /** From Fault the first step is always the fault reset (15); from
      QuickStopActive it is always 12. */
  lemma FirstStepFromFaultAndQuickStop(target: DriveState)
    requires IsTargetState(target)
    ensures NextStateTransitionControlword(target, Fault) == Set(T15)
    ensures target != QuickStopActive ==> NextStateTransitionControlword(target, QuickStopActive) == Set(T12)
  {
    match target
    case SwitchOnDisabled =>
    case ReadyToSwitchOn =>
    case SwitchedOn =>
    case OperationEnabled =>
    case QuickStopActive =>
  }

  /** Every chain of the acyclic table is a path in the state diagram of
      CiA 402 that leads from the current state to the target. */
  lemma {:induction false} SdoChainReachesTarget(target: DriveState, current: DriveState)
    requires IsTargetState(target) && !current.Unknown?
    ensures Walk(current, SdoWrites(target, current)) == Some(target)
    decreases |SdoWrites(target, current)|
  {
    if current != target {
      PdoStepStartsSdoChain(target, current);
      var chain := SdoWrites(target, current);
      SdoChainReachesTarget(target, Destination(chain[0]));
    }
  }

  /** The transitions the cyclic path requests, one per step, from a drive
      that carries out each requested transition, for at most `steps` steps. */
  function PdoPath(target: DriveState, current: DriveState, steps: nat): seq<StateTransition>
    decreases steps
  {
    if steps == 0 then []
    else match NextStateTransitionControlword(target, current)
      case AllFalse => []
      case Set(t) => [t] + PdoPath(target, Destination(t), steps - 1)
  }

  /** Stepping the cyclic table requests exactly the acyclic chain, one
      transition per step, and then stops. */
  lemma {:induction false} PdoPathIsSdoChain(target: DriveState, current: DriveState, steps: nat)
    requires IsTargetState(target) && !current.Unknown?
    requires |SdoWrites(target, current)| <= steps
    ensures PdoPath(target, current, steps) == SdoWrites(target, current)
    decreases steps
  {
    if current != target {
      PdoStepStartsSdoChain(target, current);
      var chain := SdoWrites(target, current);
      PdoPathIsSdoChain(target, Destination(chain[0]), steps - 1);
    }
  }
}
