/** The cyclic (PDO) wire layouts: which fields the outgoing (Rx) record of
    each layout carries, and which fields of the reading each incoming (Tx)
    layout updates. */
module PdoLayout {
  import opened DriveStateMachine

  /** The mode of operation: NA (not set) or one of the device's modes,
      identified by its object-dictionary code. */
  datatype ModeOfOperation = NA | Mode(code: int)

  /** The layout of the record written to the drive every cycle; RxPdoNA
      stands for every other value of the configuration's enumeration. */
  datatype RxPdoType = RxPdoStandard | RxPdoCSP | RxPdoCST | RxPdoCSV | RxPdoCSTCSP | RxPdoPVM | RxPdoNA

  /** The layout of the record read from the drive every cycle; TxPdoNA
      stands for every other value of the configuration's enumeration. */
  datatype TxPdoType = TxPdoStandard | TxPdoCSP | TxPdoCST | TxPdoCSV | TxPdoCSTCSP | TxPdoPVM | TxPdoNA

  /** A staged command with its fields already converted to the drive's raw
      integers (the unit conversion is not part of this model). */
  datatype Command = Command(
    modeOfOperation: ModeOfOperation,
    targetPosition: int,
    positionOffset: int,
    torqueOffset: int,
    targetTorque: int,
    targetVelocity: int,
    velocityOffset: int,
    profileAccel: int,
    profileDeccel: int,
    motionProfileType: int)

  /** The record handed to the bus for one cycle, one variant per Rx layout. */
  datatype RxPdo =
    | RxStandard(controlword: Controlword, modeOfOperation: ModeOfOperation)
    | RxCSP(controlword: Controlword, modeOfOperation: ModeOfOperation,
            targetPosition: int, positionOffset: int, torqueOffset: int)
    | RxCST(controlword: Controlword, modeOfOperation: ModeOfOperation, targetTorque: int, torqueOffset: int)
    | RxCSV(controlword: Controlword, modeOfOperation: ModeOfOperation, targetVelocity: int, velocityOffset: int)
    | RxCSTCSP(controlword: Controlword, modeOfOperation: ModeOfOperation)
    | RxPVM(controlword: Controlword, targetVelocity: int, profileAccel: int, profileDeccel: int,
            motionProfileType: int)

  /** The layout a written record belongs to. */
  function RxLayoutOf(f: RxPdo): RxPdoType
  {
    match f
    case RxStandard(_, _) => RxPdoStandard
    case RxCSP(_, _, _, _, _) => RxPdoCSP
    case RxCST(_, _, _, _) => RxPdoCST
    case RxCSV(_, _, _, _) => RxPdoCSV
    case RxCSTCSP(_, _) => RxPdoCSTCSP
    case RxPVM(_, _, _, _, _) => RxPdoPVM
  }

  /** The mode of operation a written record carries, if its layout has one. */
  function CarriedMode(f: RxPdo): Option<ModeOfOperation>
  {
    if f.RxPVM? then None else Some(f.modeOfOperation)
  }

  predicate IsCyclicSynchronousRx(layout: RxPdoType)
  {
    layout.RxPdoCSP? || layout.RxPdoCST? || layout.RxPdoCSV? || layout.RxPdoCSTCSP?
  }

  /** The record one cycle writes for the configured Rx layout, from the
      current controlword, the driver's mode of operation and the staged
      command; None for an unsupported layout. */
  function RxFrameFor(layout: RxPdoType, controlword: Controlword, mode: ModeOfOperation, staged: Command)
    : (r: Option<RxPdo>)
    ensures r.None? <==> layout.RxPdoNA?
    ensures r.Some? ==> RxLayoutOf(r.value) == layout && r.value.controlword == controlword
    ensures layout.RxPdoStandard? ==> r.Some? && CarriedMode(r.value) == Some(mode)
    ensures IsCyclicSynchronousRx(layout) ==> r.Some? && CarriedMode(r.value) == Some(staged.modeOfOperation)
    ensures layout.RxPdoPVM? ==> r.Some? && CarriedMode(r.value).None?
    // the staged command's set-points each layout carries
    ensures layout.RxPdoCSP? ==>
              && r.value.targetPosition == staged.targetPosition
              && r.value.positionOffset == staged.positionOffset
              && r.value.torqueOffset == staged.torqueOffset
    ensures layout.RxPdoCST? ==>
              r.value.targetTorque == staged.targetTorque && r.value.torqueOffset == staged.torqueOffset
    ensures layout.RxPdoCSV? ==>
              r.value.targetVelocity == staged.targetVelocity && r.value.velocityOffset == staged.velocityOffset
    ensures layout.RxPdoPVM? ==>
              && r.value.targetVelocity == staged.targetVelocity
              && r.value.profileAccel == staged.profileAccel
              && r.value.profileDeccel == staged.profileDeccel
              && r.value.motionProfileType == staged.motionProfileType
  {
    match layout
    case RxPdoStandard => Some(RxStandard(controlword, mode))
    case RxPdoCSP =>
      Some(RxCSP(controlword, staged.modeOfOperation, staged.targetPosition, staged.positionOffset, staged.torqueOffset))
    case RxPdoCST => Some(RxCST(controlword, staged.modeOfOperation, staged.targetTorque, staged.torqueOffset))
    case RxPdoCSV => Some(RxCSV(controlword, staged.modeOfOperation, staged.targetVelocity, staged.velocityOffset))
    case RxPdoCSTCSP => Some(RxCSTCSP(controlword, staged.modeOfOperation))
    case RxPdoPVM =>
      Some(RxPVM(controlword, staged.targetVelocity, staged.profileAccel, staged.profileDeccel, staged.motionProfileType))
    case RxPdoNA => None
  }

  /** The record read from the bus for one cycle: the drive state its
      statusword decodes to (the decoding is not part of this model) and the
      raw feedback fields; the configured layout decides which are used. */
  datatype TxFrame = TxFrame(
    driveState: DriveState,
    actualPosition: int,
    actualVelocity: int,
    actualTorque: int,
    demandVelocity: int)

  /** The latest decoded state snapshot (raw values; the physical unit
      conversion done by the reading is not part of this model). */
  datatype Reading = Reading(
    driveState: DriveState,
    actualPosition: int,
    actualVelocity: int,
    actualCurrent: int,
    demandVelocity: int)

  /** The Tx layouts that report position, velocity and current. */
  predicate HasMotionFeedback(layout: TxPdoType)
  {
    layout.TxPdoCSP? || layout.TxPdoCST? || layout.TxPdoCSV? || layout.TxPdoCSTCSP?
  }

  /** The reading after one cycle's read with the configured Tx layout;
      None for an unsupported layout.  Every known layout sets the
      statusword; only the cyclic synchronous ones set position, velocity
      and current (the current from the torque field), and only the profile
      velocity layout sets the demand velocity. */
  function ReadFrame(layout: TxPdoType, reading: Reading, frame: TxFrame): (r: Option<Reading>)
    ensures r.None? <==> layout.TxPdoNA?
    ensures r.Some? ==> r.value.driveState == frame.driveState
    ensures r.Some? && HasMotionFeedback(layout) ==>
              && r.value.actualPosition == frame.actualPosition
              && r.value.actualVelocity == frame.actualVelocity
              && r.value.actualCurrent == frame.actualTorque
    ensures r.Some? && !HasMotionFeedback(layout) ==>
              && r.value.actualPosition == reading.actualPosition
              && r.value.actualVelocity == reading.actualVelocity
              && r.value.actualCurrent == reading.actualCurrent
    ensures r.Some? ==>
              r.value.demandVelocity == if layout.TxPdoPVM? then frame.demandVelocity else reading.demandVelocity
  {
    match layout
    case TxPdoStandard => Some(reading.(driveState := frame.driveState))
    case TxPdoCSP => Some(WithMotionFeedback(reading, frame))
    case TxPdoCST => Some(WithMotionFeedback(reading, frame))
    case TxPdoCSV => Some(WithMotionFeedback(reading, frame))
    case TxPdoCSTCSP => Some(WithMotionFeedback(reading, frame))
    case TxPdoPVM => Some(reading.(demandVelocity := frame.demandVelocity, driveState := frame.driveState))
    case TxPdoNA => None
  }

  function WithMotionFeedback(reading: Reading, frame: TxFrame): Reading
  {
    reading.(driveState := frame.driveState,
             actualCurrent := frame.actualTorque,
             actualVelocity := frame.actualVelocity,
             actualPosition := frame.actualPosition)
  }
}
