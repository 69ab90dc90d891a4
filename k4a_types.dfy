/** Types shared by every core module of the Azure Kinect sensor SDK model:
    the SDK's result codes, the enumerations the core switches over, and the
    C fixed-width integer conversions the core relies on.

    The SDK's enumerations are C enums whose values a caller may pass out of
    range, so they are kept as integer codes with named constants.  The values
    are those of the SDK's public header; the model relies only on their
    distinctness and on the orderings FPS_5 < FPS_15 < FPS_30 and
    CRITICAL < ERROR < WARNING < INFO < TRACE < OFF. */
module K4aTypes {

  datatype Option<+T> = None | Some(value: T)

  /** k4a_result_t */
  datatype K4aResult = Succeeded | Failed

  /** k4a_buffer_result_t */
  datatype BufferResult = BufferSucceeded | BufferFailed | BufferTooSmall

  /** k4a_wait_result_t */
  datatype WaitResult = WaitSucceeded | WaitFailed | WaitTimeout

  /** An unsigned byte read as a number (the metadata walk reads its
      buffer this way; pixel data stays raw `bv8`). */
  newtype byte = b: int | 0 <= b < 0x100

  /** A colour image as a reader hands it to the application inside a
      capture: its format, size, stride, pixel bytes and frame metadata. */
  datatype ColorImage = ColorImage(
    format: int, widthPixels: nat, heightPixels: nat, stride: int, buffer: seq<bv8>,
    timestampUsec: nat, exposureUsec: nat, isoSpeed: nat, whiteBalance: nat)

  /** One invocation of a reader's color_cb_stream_t callback: the result
      and, when the capture is non-NULL, its colour image. */
  datatype Delivery = Delivery(result: K4aResult, image: Option<ColorImage>)

  /** The outputs of a reader's GetCameraControl: the result and the values
      left in `*mode` and `*pValue`. */
  datatype ControlReading = ControlReading(result: K4aResult, mode: int, value: int)

  // k4a_image_format_t (the colour formats and one representative of the others)
  const FormatColorMjpg: int := 0
  const FormatColorNv12: int := 1
  const FormatColorYuy2: int := 2
  const FormatColorBgra32: int := 3
  const FormatDepth16: int := 4

  // k4a_fps_t
  const Fps5: int := 0
  const Fps15: int := 1
  const Fps30: int := 2

  // k4a_log_level_t
  const LogCritical: int := 0
  const LogError: int := 1
  const LogWarning: int := 2
  const LogInfo: int := 3
  const LogTrace: int := 4
  const LogOff: int := 5

  // k4a_color_resolution_t
  const ResolutionOff: int := 0
  const Resolution720p: int := 1
  const Resolution1080p: int := 2
  const Resolution1440p: int := 3
  const Resolution1536p: int := 4
  const Resolution2160p: int := 5
  const Resolution3072p: int := 6

  // k4a_depth_mode_t
  const DepthOff: int := 0
  const DepthNfov2x2Binned: int := 1
  const DepthNfovUnbinned: int := 2
  const DepthWfov2x2Binned: int := 3
  const DepthWfovUnbinned: int := 4
  const DepthPassiveIr: int := 5

  // k4a_wired_sync_mode_t
  const SyncStandalone: int := 0
  const SyncMaster: int := 1
  const SyncSubordinate: int := 2

  // k4a_color_control_command_t
  const ControlExposureTimeAbsolute: int := 0
  const ControlAutoExposurePriority: int := 1
  const ControlBrightness: int := 2
  const ControlContrast: int := 3
  const ControlSaturation: int := 4
  const ControlSharpness: int := 5
  const ControlWhitebalance: int := 6
  const ControlBacklightCompensation: int := 7
  const ControlGain: int := 8
  const ControlPowerlineFrequency: int := 9

  // k4a_color_control_mode_t
  const ModeAuto: int := 0
  const ModeManual: int := 1

  /** k4a_convert_fps_to_uint: frames per second of a valid fps code, 0 otherwise. */
  function FpsToUint(fps: int): (n: int)
    ensures fps == Fps5 <==> n == 5
    ensures fps == Fps15 <==> n == 15
    ensures fps == Fps30 <==> n == 30
    ensures fps != Fps5 && fps != Fps15 && fps != Fps30 <==> n == 0
  {
    if fps == Fps5 then 5 else if fps == Fps15 then 15 else if fps == Fps30 then 30 else 0
  }

  const TwoTo8: int := 0x100
  const TwoTo16: int := 0x1_0000
  const TwoTo32: int := 0x1_0000_0000
  const TwoTo64: int := 0x1_0000_0000_0000_0000

  /** C conversion to uint64_t (reduction modulo 2^64). */
  function ToUint64(x: int): (r: int)
    ensures 0 <= r < TwoTo64
    ensures 0 <= x < TwoTo64 ==> r == x
    ensures (r - x) % TwoTo64 == 0
  {
    x % TwoTo64
  }

  /** K4A_90K_HZ_TICK_TO_USEC: a 90 kHz device tick count in microseconds,
      computed as `(uint64_t)ticks * 100 / 9`, so the product wraps at 2^64. */
  function TicksToUsec(ticks: nat): (usec: nat)
    ensures usec < TwoTo64 / 9 + 1
    ensures ticks * 100 < TwoTo64 ==> usec * 9 <= ticks * 100 < usec * 9 + 9
  {
    ToUint64(ticks * 100) / 9
  }

  /** C conversion to uint32_t (reduction modulo 2^32). */
  function ToUint32(x: int): (r: int)
    ensures 0 <= r < TwoTo32
    ensures 0 <= x < TwoTo32 ==> r == x
    ensures (r - x) % TwoTo32 == 0
  {
    x % TwoTo32
  }

  /** C conversion to uint16_t. */
  function ToUint16(x: int): (r: int)
    ensures 0 <= r < TwoTo16
    ensures 0 <= x < TwoTo16 ==> r == x
    ensures (r - x) % TwoTo16 == 0
  {
    x % TwoTo16
  }

  /** C conversion to uint8_t. */
  function ToUint8(x: int): (r: int)
    ensures 0 <= r < TwoTo8
    ensures 0 <= x < TwoTo8 ==> r == x
    ensures (r - x) % TwoTo8 == 0
  {
    x % TwoTo8
  }

  /** C conversion to int32_t (two's complement wrap-around). */
  function ToInt32(x: int): (r: int)
    ensures -TwoTo32 / 2 <= r < TwoTo32 / 2
    ensures -TwoTo32 / 2 <= x < TwoTo32 / 2 ==> r == x
    ensures (r - x) % TwoTo32 == 0
  {
    var u := x % TwoTo32;
    if u >= TwoTo32 / 2 then u - TwoTo32 else u
  }

  /** C conversion to int16_t. */
  function ToInt16(x: int): (r: int)
    ensures -TwoTo16 / 2 <= r < TwoTo16 / 2
    ensures -TwoTo16 / 2 <= x < TwoTo16 / 2 ==> r == x
    ensures (r - x) % TwoTo16 == 0
  {
    var u := x % TwoTo16;
    if u >= TwoTo16 / 2 then u - TwoTo16 else u
  }

  /** C conversion to `char`, which is a signed 8-bit type on the x86 and
      x64 targets the SDK ships for. */
  function ToInt8(x: int): (r: int)
    ensures -TwoTo8 / 2 <= r < TwoTo8 / 2
    ensures -TwoTo8 / 2 <= x < TwoTo8 / 2 ==> r == x
    ensures (r - x) % TwoTo8 == 0
  {
    var u := x % TwoTo8;
    if u >= TwoTo8 / 2 then u - TwoTo8 else u
  }

  predicate IsInt32(x: int)
  {
    -TwoTo32 / 2 <= x < TwoTo32 / 2
  }

  /** C integer division, which truncates toward zero (Dafny's `/` is
      Euclidean): the quotient's multiple of `b` lies between 0 and `a`, less
      than one `b` away from `a`. */
  function TruncDiv(a: int, b: int): (q: int)
    requires b > 0
    ensures a >= 0 ==> 0 <= q * b <= a < q * b + b
    ensures a < 0 ==> q * b - b < a <= q * b <= 0
  {
    var n := if a >= 0 then a else -a;
    var m := n / b;
    DivIsFloor(n, b);
    if a >= 0 then m else -m
  }

  /** Dafny's quotient of a non-negative number is its floor. */
  lemma DivIsFloor(n: int, b: int)
    requires n >= 0 && b > 0
    ensures 0 <= (n / b) * b <= n < (n / b) * b + b
  {
    assert n == (n / b) * b + n % b;
  }

  /** The first character of a C string, '\0' for the empty string. */
  function FirstChar(s: string): char
  {
    if |s| == 0 then '\0' else s[0]
  }
}
