/** The colour-control mapping of the libuvc colour reader: how each SDK
    control command and mode becomes reads and writes of USB Video Class
    camera and processing-unit controls.

    The camera is a value: the current value of every UVC control, the set
    of controls whose requests fail, and the sequence of write requests made
    so far.  Exposure Time (Absolute) is in units of 0.0001 s (USB Video
    Class 1.5, section 4.2.2.1.4) while the SDK speaks microseconds; the
    auto-exposure mode control is a bitmap of manual (1), auto (2), shutter
    priority (4) and aperture priority (8) (section 4.2.2.1.2). */
module UvcControls {
  import opened K4aTypes

  /** The UVC controls the reader touches. */
  datatype UvcControl =
    | AeMode | ExposureTimeAbsolute | Brightness | Contrast | Saturation | Sharpness
    | WhiteBalanceTemperatureAuto | WhiteBalanceTemperature | BacklightCompensation | Gain | PowerLineFrequency

  // uvc_auto_exposure_mode bits
  const AeModeManual: int := 1
  const AeModeAuto: int := 2
  const AeModeShutterPriority: int := 4
  const AeModeAperturePriority: int := 8

  /** One SET_CUR request. */
  datatype UvcWrite = UvcWrite(control: UvcControl, value: int)

  /** The camera's controls: current values, controls whose requests fail,
      and every write requested so far (failed ones included). */
  datatype UvcDevice = UvcDevice(values: map<UvcControl, int>, failing: set<UvcControl>, writes: seq<UvcWrite>)

  /** The C type of each control's value: the stored value read back
      through it. */
  function ReadAs(control: UvcControl, raw: int): int
  {
    match control
    case AeMode => ToUint8(raw)
    case ExposureTimeAbsolute => ToUint32(raw)
    case Brightness => ToInt16(raw)
    case WhiteBalanceTemperatureAuto => ToUint8(raw)
    case PowerLineFrequency => ToUint8(raw)
    case _ => ToUint16(raw)
  }

  /** A GET_CUR request: None when the request fails. */
  function ReadControl(dev: UvcDevice, control: UvcControl): (r: Option<int>)
    ensures r.Some? <==> control !in dev.failing
  {
    if control in dev.failing then None
    else Some(ReadAs(control, if control in dev.values then dev.values[control] else 0))
  }

  /** A SET_CUR request: recorded, and applied unless it fails. */
  function WriteControl(dev: UvcDevice, control: UvcControl, value: int): (r: (bool, UvcDevice))
    ensures r.1.writes == dev.writes + [UvcWrite(control, value)]
    ensures r.0 <==> control !in dev.failing
    ensures r.1.failing == dev.failing
    ensures r.0 ==> r.1.values == dev.values[control := value]
    ensures !r.0 ==> r.1.values == dev.values
  {
    var dev' := dev.(writes := dev.writes + [UvcWrite(control, value)]);
    if control in dev.failing then (false, dev') else (true, dev'.(values := dev.values[control := value]))
  }

  /** The SDK mode for an auto-exposure mode value: manual and shutter
      priority are MANUAL, auto and aperture priority are AUTO, anything else
      is invalid. */
  function AeModeToControlMode(aeMode: int): (m: Option<int>)
    ensures m == Some(ModeManual) <==> aeMode == AeModeManual || aeMode == AeModeShutterPriority
    ensures m == Some(ModeAuto) <==> aeMode == AeModeAuto || aeMode == AeModeAperturePriority
    ensures m.None? <==> aeMode !in {AeModeManual, AeModeAuto, AeModeShutterPriority, AeModeAperturePriority}
  {
    if aeMode == AeModeManual || aeMode == AeModeShutterPriority then Some(ModeManual)
    else if aeMode == AeModeAuto || aeMode == AeModeAperturePriority then Some(ModeAuto)
    else None
  }

  /** The control behind each command that has only a manual mode. */
  function ManualOnlyControl(command: int): Option<UvcControl>
  {
    if command == ControlBrightness then Some(Brightness)
    else if command == ControlContrast then Some(Contrast)
    else if command == ControlSaturation then Some(Saturation)
    else if command == ControlSharpness then Some(Sharpness)
    else if command == ControlBacklightCompensation then Some(BacklightCompensation)
    else if command == ControlGain then Some(Gain)
    else if command == ControlPowerlineFrequency then Some(PowerLineFrequency)
    else None
  }

  /** The conversion of an SDK value to a control's C type on a write. */
  function WriteAs(control: UvcControl, value: int): int
  {
    match control
    case Brightness => ToInt16(value)
    case PowerLineFrequency => ToUint8(value)
    case _ => ToUint16(value)
  }

  /** UVCCameraReader::GetCameraControl.  `priorMode` and `priorValue` are
      the caller's output variables before the call. */
  function GetControl(initialized: bool, dev: UvcDevice, command: int, priorMode: int, priorValue: int): (g: ControlReading)
    ensures !initialized ==> g == ControlReading(Failed, priorMode, priorValue)
    ensures g.result == Failed ==> g.value == priorValue
  {
    if !initialized then ControlReading(Failed, priorMode, priorValue)
    else
      var failed := ControlReading(Failed, ModeManual, priorValue);
      if command == ControlExposureTimeAbsolute then
        match ReadControl(dev, AeMode)
        case None => failed
        case Some(ae) =>
          match AeModeToControlMode(ae)
          case None => failed
          case Some(mode) =>
            match ReadControl(dev, ExposureTimeAbsolute)
            case None => failed.(mode := mode)
            case Some(exposure) => ControlReading(Succeeded, mode, ToInt32(ToUint32(exposure * 100)))
      else if command == ControlWhitebalance then
        match ReadControl(dev, WhiteBalanceTemperatureAuto)
        case None => failed
        case Some(wbAuto) =>
          if wbAuto != 0 && wbAuto != 1 then failed
          else
            var mode := if wbAuto == 0 then ModeManual else ModeAuto;
            match ReadControl(dev, WhiteBalanceTemperature)
            case None => failed.(mode := mode)
            case Some(temperature) => ControlReading(Succeeded, mode, temperature)
      else if command == ControlAutoExposurePriority then
        ControlReading(Succeeded, ModeManual, 0)
      else
        match ManualOnlyControl(command)
        case None => failed
        case Some(control) =>
          match ReadControl(dev, control)
          case None => failed
          case Some(v) => ControlReading(Succeeded, ModeManual, v)
  }

  /** The result of SetCameraControl and the camera afterwards. */
  datatype ControlUpdate = ControlUpdate(result: K4aResult, dev: UvcDevice)

  /** Two writes in order, the second only if the first succeeds. */
  function WriteBoth(dev: UvcDevice, c1: UvcControl, v1: int, c2: UvcControl, v2: int): ControlUpdate
  {
    var (ok1, dev1) := WriteControl(dev, c1, v1);
    if !ok1 then ControlUpdate(Failed, dev1)
    else
      var (ok2, dev2) := WriteControl(dev1, c2, v2);
      ControlUpdate(if ok2 then Succeeded else Failed, dev2)
  }

  function WriteOne(dev: UvcDevice, c: UvcControl, v: int): ControlUpdate
  {
    var (ok, dev') := WriteControl(dev, c, v);
    ControlUpdate(if ok then Succeeded else Failed, dev')
  }

  /** UVCCameraReader::SetCameraControl. */
  function SetControl(initialized: bool, dev: UvcDevice, command: int, mode: int, newValue: int): (s: ControlUpdate)
    ensures !initialized ==> s == ControlUpdate(Failed, dev)
    ensures s.dev.failing == dev.failing
    ensures |s.dev.writes| >= |dev.writes| && s.dev.writes[..|dev.writes|] == dev.writes
  {
    if !initialized then ControlUpdate(Failed, dev)
    else if command == ControlExposureTimeAbsolute then
      if mode == ModeManual then
        WriteBoth(dev, AeMode, AeModeManual, ExposureTimeAbsolute, ToUint32(TruncDiv(newValue, 100)))
      else if mode == ModeAuto then
        WriteOne(dev, AeMode, AeModeAperturePriority)
      else ControlUpdate(Failed, dev)
    else if command == ControlWhitebalance then
      if mode == ModeManual then
        WriteBoth(dev, WhiteBalanceTemperatureAuto, 0, WhiteBalanceTemperature, ToUint16(newValue))
      else if mode == ModeAuto then
        WriteOne(dev, WhiteBalanceTemperatureAuto, 1)
      else ControlUpdate(Failed, dev)
    else if command == ControlAutoExposurePriority then
      ControlUpdate(Succeeded, dev)
    else
      match ManualOnlyControl(command)
      case None => ControlUpdate(Failed, dev)
      case Some(control) =>
        if mode == ModeManual then WriteOne(dev, control, WriteAs(control, newValue))
        else ControlUpdate(Failed, dev)
  }

  /** A camera with no failing request. */
  predicate Healthy(dev: UvcDevice)
  {
    dev.failing == {}
  }

  /** q * 100 through uint32 and back to int32 is q * 100 whenever that
      fits in int32. */
  lemma ScaleThroughUint32(q: int)
    requires IsInt32(q * 100)
    ensures ToInt32(ToUint32(ToUint32(q) * 100)) == q * 100
  {
    var u := ToUint32(q);
    assert (u - q) % TwoTo32 == 0;
    var k := (u - q) / TwoTo32;
    assert u == q + k * TwoTo32;
    assert u * 100 == q * 100 + (k * 100) * TwoTo32;
    var x := ToUint32(u * 100);
    assert (x - q * 100) % TwoTo32 == 0;
    var y := ToInt32(x);
    assert (y - q * 100) % TwoTo32 == 0;
  }

  /** Setting a manual exposure of V microseconds and reading it back gives
      V truncated to a multiple of 100 (the 0.0001 s unit), in MANUAL mode. */
  lemma {:induction false} ExposureRoundTrip(dev: UvcDevice, v: int, priorMode: int, priorValue: int)
    requires Healthy(dev) && IsInt32(v)
    ensures var s := SetControl(true, dev, ControlExposureTimeAbsolute, ModeManual, v);
            var g := GetControl(true, s.dev, ControlExposureTimeAbsolute, priorMode, priorValue);
            s.result == Succeeded && g == ControlReading(Succeeded, ModeManual, TruncDiv(v, 100) * 100)
  {
    var q := TruncDiv(v, 100);
    assert IsInt32(q * 100);
    ScaleThroughUint32(q);
  }

  /** Auto exposure is written as aperture priority and reads back as AUTO. */
  lemma AutoExposureRoundTrip(dev: UvcDevice, priorMode: int, priorValue: int)
    requires Healthy(dev)
    ensures var s := SetControl(true, dev, ControlExposureTimeAbsolute, ModeAuto, priorValue);
            var g := GetControl(true, s.dev, ControlExposureTimeAbsolute, priorMode, priorValue);
            s.result == Succeeded && g.result == Succeeded && g.mode == ModeAuto
  {
  }

  /** The exposure mode read back follows the auto-exposure bitmap: 1 and 4
      are MANUAL, 2 and 8 are AUTO, any other value fails. */
  lemma ExposureModeCollapse(dev: UvcDevice, priorMode: int, priorValue: int)
    requires Healthy(dev)
    ensures var ae := ReadAs(AeMode, if AeMode in dev.values then dev.values[AeMode] else 0);
            var g := GetControl(true, dev, ControlExposureTimeAbsolute, priorMode, priorValue);
            && (ae == AeModeManual || ae == AeModeShutterPriority ==> g.result == Succeeded && g.mode == ModeManual)
            && (ae == AeModeAuto || ae == AeModeAperturePriority ==> g.result == Succeeded && g.mode == ModeAuto)
            && (ae !in {AeModeManual, AeModeAuto, AeModeShutterPriority, AeModeAperturePriority} ==> g.result == Failed)
  {
  }

  /** A command with only a manual mode fails in any other mode before any
      request reaches the camera. */
  lemma ManualOnlyRejectsOtherModes(dev: UvcDevice, command: int, mode: int, v: int)
    requires ManualOnlyControl(command).Some? && mode != ModeManual
    ensures SetControl(true, dev, command, mode, v) == ControlUpdate(Failed, dev)
  {
  }

  /** A manual-only control set to a value of its C type reads back the
      same value, in MANUAL mode. */
  lemma ManualRoundTrip(dev: UvcDevice, command: int, v: int, priorMode: int, priorValue: int)
    requires Healthy(dev) && ManualOnlyControl(command).Some?
    requires WriteAs(ManualOnlyControl(command).value, v) == v
    ensures var s := SetControl(true, dev, command, ModeManual, v);
            var g := GetControl(true, s.dev, command, priorMode, priorValue);
            s.result == Succeeded && g == ControlReading(Succeeded, ModeManual, v)
  {
    var control := ManualOnlyControl(command).value;
    assert ReadAs(control, WriteAs(control, v)) == v;
  }

  /** Manual white balance writes auto = 0 and then the temperature; auto
      white balance writes only auto = 1. */
  lemma WhiteBalanceWrites(dev: UvcDevice, v: int)
    requires Healthy(dev)
    ensures SetControl(true, dev, ControlWhitebalance, ModeManual, v).dev.writes ==
              dev.writes + [UvcWrite(WhiteBalanceTemperatureAuto, 0), UvcWrite(WhiteBalanceTemperature, ToUint16(v))]
    ensures SetControl(true, dev, ControlWhitebalance, ModeAuto, v).dev.writes ==
              dev.writes + [UvcWrite(WhiteBalanceTemperatureAuto, 1)]
  {
  }

  /** The white-balance auto flag reads back as MANUAL (0) or AUTO (1);
      any other flag fails. */
  lemma WhiteBalanceModeRead(dev: UvcDevice, priorMode: int, priorValue: int)
    requires Healthy(dev)
    ensures var flag := ReadAs(WhiteBalanceTemperatureAuto,
                               if WhiteBalanceTemperatureAuto in dev.values then dev.values[WhiteBalanceTemperatureAuto] else 0);
            var g := GetControl(true, dev, ControlWhitebalance, priorMode, priorValue);
            && (flag == 0 ==> g.result == Succeeded && g.mode == ModeManual)
            && (flag == 1 ==> g.result == Succeeded && g.mode == ModeAuto)
            && (flag != 0 && flag != 1 ==> g.result == Failed)
  {
  }

  /** Manual white balance reads back the temperature written, for any
      temperature that fits the control. */
  lemma WhiteBalanceRoundTrip(dev: UvcDevice, v: int, priorMode: int, priorValue: int)
    requires Healthy(dev) && 0 <= v < TwoTo16
    ensures var s := SetControl(true, dev, ControlWhitebalance, ModeManual, v);
            var g := GetControl(true, s.dev, ControlWhitebalance, priorMode, priorValue);
            s.result == Succeeded && g == ControlReading(Succeeded, ModeManual, v)
  {
  }

  /** The deprecated auto-exposure-priority control reads 0 and accepts any
      write without touching the camera; unsupported commands fail and leave
      the camera alone. */
  lemma DeprecatedAndUnknownCommands(dev: UvcDevice, command: int, mode: int, v: int, priorMode: int, priorValue: int)
    ensures GetControl(true, dev, ControlAutoExposurePriority, priorMode, priorValue) == ControlReading(Succeeded, ModeManual, 0)
    ensures SetControl(true, dev, ControlAutoExposurePriority, mode, v) == ControlUpdate(Succeeded, dev)
    ensures !(ControlExposureTimeAbsolute <= command <= ControlPowerlineFrequency) ==>
              GetControl(true, dev, command, priorMode, priorValue).result == Failed &&
              SetControl(true, dev, command, mode, v) == ControlUpdate(Failed, dev)
  {
  }
}
