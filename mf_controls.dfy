/** The colour controls of the Media Foundation reader: GetCameraControl and
    SetCameraControl over the camera's KS properties.

    The KS property interface is modelled as a map from property to its
    stored (value, flags) pair, a set of properties whose access fails, and
    the log of every write.  The exposure conversions between microseconds
    and the KS exposure unit use `exp2f`/`log2f` in single precision; they
    are parameters here (`toUsec` for the read side, `fromUsec` for the
    write side). */
module MfControls {
  import opened K4aTypes
  import opened KsMetadata

  /** The KS properties the controls map to. */
  datatype KsProperty =
    | KsExposure
    | KsAutoExposurePriority
    | KsBrightness
    | KsContrast
    | KsSaturation
    | KsSharpness
    | KsWhiteBalance
    | KsBacklightCompensation
    | KsGain
    | KsPowerlineFrequency

  // KSPROPERTY_CAMERACONTROL_FLAGS_*
  const KsFlagsAuto: nat := 0x1
  const KsFlagsManual: nat := 0x2

  /** One property write: the property, its LONG value and its flags. */
  datatype KsWrite = KsWrite(property: KsProperty, value: int, flags: nat)

  /** The camera's KS property state, as the reader sees it. */
  datatype KsDevice = KsDevice(values: map<KsProperty, (int, nat)>, failing: set<KsProperty>, writes: seq<KsWrite>)

  /** The property each control command reads and writes; None for a value
      outside the enumeration. */
  function CommandProperty(command: int): (p: Option<KsProperty>)
    ensures p.Some? <==> ControlExposureTimeAbsolute <= command <= ControlPowerlineFrequency
    ensures p == Some(KsExposure) <==> command == ControlExposureTimeAbsolute
    ensures p == Some(KsWhiteBalance) <==> command == ControlWhitebalance
    ensures p == Some(KsAutoExposurePriority) <==> command == ControlAutoExposurePriority
  {
    if command == ControlExposureTimeAbsolute then Some(KsExposure)
    else if command == ControlAutoExposurePriority then Some(KsAutoExposurePriority)
    else if command == ControlBrightness then Some(KsBrightness)
    else if command == ControlContrast then Some(KsContrast)
    else if command == ControlSaturation then Some(KsSaturation)
    else if command == ControlSharpness then Some(KsSharpness)
    else if command == ControlWhitebalance then Some(KsWhiteBalance)
    else if command == ControlBacklightCompensation then Some(KsBacklightCompensation)
    else if command == ControlGain then Some(KsGain)
    else if command == ControlPowerlineFrequency then Some(KsPowerlineFrequency)
    else None
  }

  /** Reading a property: its stored (value, flags), or None when the read fails. */
  function KsRead(dev: KsDevice, p: KsProperty): (r: Option<(int, nat)>)
    ensures r.Some? <==> p in dev.values && p !in dev.failing
    ensures r.Some? ==> r.value == dev.values[p]
  {
    if p in dev.values && p !in dev.failing then Some(dev.values[p]) else None
  }

  /** Writing a property: the write is always sent; it takes effect and
      succeeds unless the property fails. */
  function KsWriteProperty(dev: KsDevice, p: KsProperty, value: int, flags: nat): (r: (bool, KsDevice))
    ensures r.0 <==> p !in dev.failing
    ensures r.1.writes == dev.writes + [KsWrite(p, value, flags)] && r.1.failing == dev.failing
    ensures r.0 ==> r.1.values == dev.values[p := (value, flags)]
    ensures !r.0 ==> r.1.values == dev.values
  {
    var dev' := dev.(writes := dev.writes + [KsWrite(p, value, flags)]);
    if p in dev.failing then (false, dev') else (true, dev'.(values := dev.values[p := (value, flags)]))
  }

  /** The mode GetCameraControl reports for a property's flags: MANUAL when
      the manual bit is set, otherwise AUTO when the auto bit is set,
      otherwise the MANUAL it cleared the output to. */
  function ModeFromFlags(flags: nat): (mode: int)
    ensures HasFlag(flags, KsFlagsManual) ==> mode == ModeManual
    ensures !HasFlag(flags, KsFlagsManual) && HasFlag(flags, KsFlagsAuto) ==> mode == ModeAuto
    ensures !HasFlag(flags, KsFlagsManual) && !HasFlag(flags, KsFlagsAuto) ==> mode == ModeManual
  {
    if HasFlag(flags, KsFlagsManual) then ModeManual
    else if HasFlag(flags, KsFlagsAuto) then ModeAuto
    else ModeManual
  }

  /** CMFCameraReader::GetCameraControl.  The outputs are first cleared to
      MANUAL and 0; they are set from the property only when the read
      succeeds. */
  function GetControl(dev: KsDevice, command: int, toUsec: int -> int): (g: ControlReading)
    ensures g.result == Succeeded <==> CommandProperty(command).Some? && KsRead(dev, CommandProperty(command).value).Some?
    ensures g.result == Failed ==> g.mode == ModeManual && g.value == 0
    ensures g.result == Succeeded ==>
              var (raw, flags) := dev.values[CommandProperty(command).value];
              && g.mode == ModeFromFlags(flags)
              && g.value == ToInt32(if command == ControlExposureTimeAbsolute then toUsec(raw) else raw)
  {
    var cleared := ControlReading(Failed, ModeManual, 0);
    match CommandProperty(command)
    case None => cleared
    case Some(p) =>
      match KsRead(dev, p)
      case None => cleared
      case Some((raw, flags)) =>
        var value := if p == KsExposure then toUsec(raw) else raw;
        ControlReading(Succeeded, ModeFromFlags(flags), ToInt32(value))
  }

  /** What SetCameraControl returns and the device after it. */
  datatype ControlUpdate = ControlUpdate(result: K4aResult, dev: KsDevice)

  /** CMFCameraReader::SetCameraControl.  AUTO is accepted only for exposure
      and white balance and writes the auto flag; every other mode value
      writes the manual flag.  Auto-exposure priority takes only 0 or 1. */
  function SetControl(dev: KsDevice, command: int, mode: int, newValue: int, fromUsec: int -> int): (s: ControlUpdate)
    ensures s.dev.failing == dev.failing
    // a refused request writes nothing and fails
    ensures s.dev.writes == dev.writes ==> s == ControlUpdate(Failed, dev)
    // an accepted request writes the command's property once, with the
    // auto flag exactly when AUTO was asked for, and succeeds iff the write does
    ensures s.dev.writes != dev.writes ==>
              && CommandProperty(command).Some?
              && |s.dev.writes| == |dev.writes| + 1 && s.dev.writes[..|dev.writes|] == dev.writes
              && var w := s.dev.writes[|dev.writes|];
              && w.property == CommandProperty(command).value
              && w.flags == (if mode == ModeAuto then KsFlagsAuto else KsFlagsManual)
              && (w.property != KsExposure ==> w.value == newValue)
              && (s.result == Succeeded <==> w.property !in dev.failing)
  {
    if mode == ModeAuto && command != ControlExposureTimeAbsolute && command != ControlWhitebalance then
      ControlUpdate(Failed, dev)
    else
      var flags := if mode == ModeAuto then KsFlagsAuto else KsFlagsManual;
      match CommandProperty(command)
      case None => ControlUpdate(Failed, dev)
      case Some(p) =>
        if p == KsAutoExposurePriority && newValue != 0 && newValue != 1 then ControlUpdate(Failed, dev)
        else
          var value := if p == KsExposure then fromUsec(newValue) else newValue;
          var (ok, dev') := KsWriteProperty(dev, p, value, flags);
          ControlUpdate(if ok then Succeeded else Failed, dev')
  }

  predicate Healthy(dev: KsDevice)
  {
    dev.failing == {}
  }

  /** AUTO is refused for every control except exposure and white balance,
      and a refused request writes nothing. */
  lemma AutoOnlyForExposureAndWhiteBalance(dev: KsDevice, command: int, newValue: int, fromUsec: int -> int)
    ensures command != ControlExposureTimeAbsolute && command != ControlWhitebalance ==>
              SetControl(dev, command, ModeAuto, newValue, fromUsec) == ControlUpdate(Failed, dev)
    ensures (command == ControlExposureTimeAbsolute || command == ControlWhitebalance) && Healthy(dev) ==>
              var s := SetControl(dev, command, ModeAuto, newValue, fromUsec);
              s.result == Succeeded && s.dev.writes[|s.dev.writes| - 1].flags == KsFlagsAuto
  {
  }

  /** Auto-exposure priority accepts exactly 0 and 1. */
  lemma AutoExposurePriorityRange(dev: KsDevice, mode: int, newValue: int, fromUsec: int -> int)
    requires mode != ModeAuto
    ensures newValue != 0 && newValue != 1 ==>
              SetControl(dev, ControlAutoExposurePriority, mode, newValue, fromUsec) == ControlUpdate(Failed, dev)
    ensures (newValue == 0 || newValue == 1) && Healthy(dev) ==>
              var s := SetControl(dev, ControlAutoExposurePriority, mode, newValue, fromUsec);
              s.result == Succeeded && s.dev.writes == dev.writes + [KsWrite(KsAutoExposurePriority, newValue, KsFlagsManual)]
  {
  }

  /** A command outside the enumeration fails both ways without touching the device. */
  lemma UnknownCommandsFail(dev: KsDevice, command: int, mode: int, newValue: int, toUsec: int -> int, fromUsec: int -> int)
    requires command < ControlExposureTimeAbsolute || command > ControlPowerlineFrequency
    ensures GetControl(dev, command, toUsec) == ControlReading(Failed, ModeManual, 0)
    ensures SetControl(dev, command, mode, newValue, fromUsec) == ControlUpdate(Failed, dev)
  {
  }

  /** The auto flag alone reads back as AUTO, the manual flag as MANUAL. */
  lemma FlagsReadBack()
    ensures ModeFromFlags(KsFlagsAuto) == ModeAuto
    ensures ModeFromFlags(KsFlagsManual) == ModeManual
  {
    assert !HasFlag(KsFlagsAuto, KsFlagsManual);
  }

  /** Set then get on a healthy device: a control the set accepts reads back
      with the mode that was set (any mode other than AUTO reads back as
      MANUAL) and the value that was set, through the exposure conversions
      for exposure. */
  lemma SetGetRoundTrip(dev: KsDevice, command: int, mode: int, newValue: int, toUsec: int -> int, fromUsec: int -> int)
    requires Healthy(dev) && IsInt32(newValue)
    requires ControlExposureTimeAbsolute <= command <= ControlPowerlineFrequency
    requires mode == ModeAuto ==> command == ControlExposureTimeAbsolute || command == ControlWhitebalance
    requires command == ControlAutoExposurePriority ==> newValue == 0 || newValue == 1
    ensures var s := SetControl(dev, command, mode, newValue, fromUsec);
            && s.result == Succeeded
            && GetControl(s.dev, command, toUsec) ==
                 ControlReading(Succeeded, if mode == ModeAuto then ModeAuto else ModeManual,
                                if command == ControlExposureTimeAbsolute then ToInt32(toUsec(fromUsec(newValue))) else newValue)
  {
    FlagsReadBack();
    var s := SetControl(dev, command, mode, newValue, fromUsec);
    var p := CommandProperty(command).value;
    assert s.dev.values[p].1 == if mode == ModeAuto then KsFlagsAuto else KsFlagsManual;
    assert ToInt32(newValue) == newValue;
  }
}
