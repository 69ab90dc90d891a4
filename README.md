# Azure Kinect Sensor SDK core, modelled in Dafny

This project models the core of the Azure Kinect Sensor SDK (`k4a`):

- the two colour camera readers:
  - the libuvc reader (`UVCCameraReader`), used on Linux;
  - the Media Foundation reader (`CMFCameraReader`), used on Windows;
- the KS metadata walk that both readers run on every frame;
- the allocation accounting and the capture object of the allocator;
- the device layer of the public API: the configuration check, starting and stopping the cameras and the IMU, and closing a device;
- the logger and the helpers of its internal header.

Each part is written in the form the SDK gives it:

- Objects whose state changes are classes:
  - the allocator's counters;
  - a capture;
  - a reader;
  - a device;
  - the logger's process-wide state.
- Their methods carry `modifies` clauses naming the fields they may change, and their `ensures` state the new value of those fields.
- Loops become `while` loops with invariants:
  - the metadata walk;
  - the native-type search;
  - the capture's release of its images;
  - the device teardown;
  - the buffer copy.
- Pure decisions are functions, and lemmas state what those functions promise:
  - the control mappings;
  - the configuration check;
  - the logger's environment rules.

Calls into code outside the core become parameters:

- libuvc, libjpeg-turbo, Media Foundation, COM and spdlog;
- malloc;
- the modules a device owns.

Each such parameter is an outcome: whether the call succeeds and what it produces. The calls that matter are recorded, in order, in a sequence field:

- each invocation of the application's callback (`deliveries`);
- each resource release (`released`);
- each module call (`actions`);
- each message the logger hands on (`delivered`).

Modules:

- `K4aTypes`: result codes, enumeration codes, and the C integer conversions the code relies on (`char` is taken as signed 8-bit). Pixel data is a sequence of `bv8`; the metadata buffer, which the walk reads as numbers, is a sequence of `byte`, an integer from 0 to 255.
- `Trace`: the trace helpers, the argument checks and the logger configuration of `include/k4ainternal/logging.h`.
- `KsMetadata`: the metadata walk.
- `Allocator`: `src/allocator/allocator.c`.
- `UvcControls`, `UvcReader`: `src/color/uvc_camerareader.cpp`.
- `MfControls`, `MfReader`: `src/color/mfcamerareader.cpp`.
- `K4aDevice`: `src/sdk/k4a.c`.
- `Logging`: `src/logging/logging.cpp`.

Where the code and its documented intent differ, the model follows the code in the places listed here. The places where it follows the intent instead are named under "## Left out" and "## Findings".

- The UVC reader's `Start` records the formats and the frame size before it negotiates the stream.
  - A failed negotiation leaves them set.
  - A failed `uvc_start_streaming` clears only the size and the callback.
- The UVC frame handler does not release its buffer when `image_create_from_buffer` fails. The buffer stays counted.
- When an image is made, the handler's own `image_dec_ref` is its last reference, because the application is taken to keep none. The image's release callback then runs inside the handler: `allocator_free` of the buffer, or, for a wrapped Media Foundation buffer, `FrameDestroyCallback`. After a normal hand-off the colour count is therefore back where it was.
- The Media Foundation reader's `Start` on a started reader succeeds and changes nothing.
- On a failed status, the Media Foundation sample handler calls the application's callback twice.
  - Once it reports the status.
  - Once more, followed by a stop, when a callback and its context are set.
- A failed malloc in `allocator_alloc` still raises the source's counter.
  - The caller's `allocator_free(NULL, context)` cannot lower it.
  - The leak check then reports the allocation.
- The default logger configuration has no log file. A file variable that enables logging without naming a `.log` file therefore produces no file logger.
- `k4a_device_start_imu` refuses to start unless a camera is running.
- `k4a_device_start_cameras` starts depth before colour, although the comment beside the colour start says colour must come first.

## Model

| member | source | states |
|---|---|---|
| K4aTypes.FpsToUint | src/sdk/k4a.c:551-557 | each valid rate code maps to 5, 15 or 30 frames per second, and every other code maps to 0 |
| K4aTypes.ToUint32 | src/color/uvc_camerareader.cpp:429-429 | conversion to uint32_t lands in [0, 2^32) and is the identity there, and agrees with its argument modulo 2^32 |
| K4aTypes.ToUint16 | src/color/uvc_camerareader.cpp:479-479 | conversion to uint16_t lands in [0, 2^16) and is the identity there, and agrees with its argument modulo 2^16 |
| K4aTypes.ToUint8 | src/color/uvc_camerareader.cpp:591-591 | conversion to uint8_t lands in [0, 256) and is the identity there, and agrees with its argument modulo 2^8 |
| K4aTypes.ToInt32 | src/color/uvc_camerareader.cpp:275-275 | conversion to int32_t lands in the int32 range, is the identity there, and agrees with its argument modulo 2^32 |
| K4aTypes.ToInt16 | src/color/uvc_camerareader.cpp:463-463 | conversion to int16_t lands in the int16 range, is the identity there, and agrees with its argument modulo 2^16 |
| K4aTypes.ToInt8 | src/logging/logging.cpp:182-182 | conversion to (signed) char lands in [-128, 128), is the identity there, and agrees with its argument modulo 256 (so 128 becomes -128) |
| K4aTypes.ToUint64 | src/color/mfcamerareader.cpp:851-851 | conversion to uint64_t lands in [0, 2^64), is the identity there, and agrees with its argument modulo 2^64 |
| K4aTypes.TicksToUsec | src/color/uvc_camerareader.cpp:751-751 | a 90 kHz tick count in microseconds: the result never exceeds what a wrapped uint64 allows, and while ticks * 100 fits in 64 bits it is floor(ticks * 100 / 9) |
| K4aTypes.TruncDiv | src/color/uvc_camerareader.cpp:429-429 | C division truncates toward zero: for a non-negative dividend q * b is the largest multiple of b not above it, for a negative one the smallest multiple not below it |
| Trace.TraceError | include/k4ainternal/logging.h:115-122 | the result passes through unchanged, and an error is logged exactly when it is a failure |
| Trace.TraceBufferError | include/k4ainternal/logging.h:124-131 | the result passes through, and an error is logged exactly for BUFFER_RESULT_FAILED; a too-small buffer is not logged |
| Trace.TraceWaitError | include/k4ainternal/logging.h:133-140 | the result passes through, and an error is logged exactly for WAIT_RESULT_FAILED; a timeout is not logged |
| Trace.TraceReturn | include/k4ainternal/logging.h:142-153 | the result passes through; a failure is logged as an error, a success as trace |
| Trace.ResultFromBool | include/k4ainternal/logging.h:227-233 | SUCCEEDED exactly when the condition holds, FAILED exactly when it does not |
| Trace.ReturnValueIfArg | include/k4ainternal/logging.h:235-245 | the caller returns the fail value exactly when the expression holds, and otherwise falls through |
| Trace.ReturnValueIfHandleInvalid | include/k4ainternal/logging.h:247-256 | the caller returns the fail value exactly when the handle has no context |
| Trace.LoggerConfig.Zeroed | include/k4ainternal/logging.h:61-61 | a zero-filled configuration has no variable names, no log file and size 0 |
| Trace.LoggerConfig.InitDefault | include/k4ainternal/logging.h:59-67 | the default configuration names the three K4A_* environment variables, has no log file and a 50 MB rollover size |
| KsMetadata.Avail | src/color/uvc_camerareader.cpp:638-684 | the readable bytes of an item are its declared size cut at the buffer's end: inside both, and equal to one of them |
| KsMetadata.ParseMetadata | src/color/uvc_camerareader.cpp:634-686 | the cursor loop computes the guarded walk `Walk`, and a buffer shorter than one header yields no metadata |
| KsMetadata.ItemOffsetsInBounds | src/color/mfcamerareader.cpp:92-125 | every header the walk reads lies inside the buffer, and offsets strictly increase, so the walk ends |
| KsMetadata.ShortBufferYieldsDefault | src/color/uvc_camerareader.cpp:635-636 | fewer bytes than a header: nothing is read and the defaults stand |
| KsMetadata.ZeroSizeStops | src/color/uvc_camerareader.cpp:671-675 | an item of size zero is applied and ends the walk |
| KsMetadata.AbsentStatsKeepPrior | src/color/uvc_camerareader.cpp:650-666 | a CaptureStats item leaves the PTS and every field whose flag bit is clear unchanged |
| KsMetadata.FlaggedStatsAreRead | src/color/uvc_camerareader.cpp:650-666 | each flag of a CaptureStats item, on its own, reads its field when the field lies inside the item: exposure (100 ns units to microseconds), ISO speed, white balance |
| KsMetadata.ApplyItemPts | src/color/uvc_camerareader.cpp:641-649 | a FrameAlignInfo item that holds a FramePTS sets the PTS to it; any other item leaves the PTS unchanged (both directions) |
| KsMetadata.ItemPts | src/color/uvc_camerareader.cpp:641-649 | an item supplies a PTS exactly when it is a FrameAlignInfo item holding a FramePTS |
| KsMetadata.WalkPtsIsLastSupplied | src/color/uvc_camerareader.cpp:634-691 | the walk's PTS is the fold of the supplied PTS list: the last one supplied, else the prior PTS |
| KsMetadata.SuppliedPtsFollowsOffsets | src/color/uvc_camerareader.cpp:634-691 | the supplied PTS list has one entry per visited item, each that item's `ItemPts` |
| KsMetadata.LastFrameAlignInfoWins | src/color/uvc_camerareader.cpp:634-691 | when a visited FrameAlignInfo item holds a FramePTS and no later visited item does, the walk's PTS is that FramePTS |
| KsMetadata.NoFrameAlignInfoKeepsPts | src/color/uvc_camerareader.cpp:634-691 | when no visited item supplies a PTS, the walk keeps the prior PTS |
| KsMetadata.PtsComesFromFrameAlignInfo | src/color/uvc_camerareader.cpp:634-691 | the PTS after the walk is the prior one or the FramePTS of a FrameAlignInfo item the walk visited |
| KsMetadata.PtsOnlyWalk | src/color/mfcamerareader.cpp:96-125 | the Media Foundation walk (FrameAlignInfo only) changes no capture statistic |
| KsMetadata.AsWrittenUvcWalkReadsPastBuffer | src/color/uvc_camerareader.cpp:677-684 | as written, an oversize item wraps the size_t remainder and the next header is read past an 8-byte buffer |
| KsMetadata.AsWrittenMfWalkReadsPastBuffer | src/color/mfcamerareader.cpp:117-124 | as written, a Size of 2^31 or more turns negative as a LONG and the next header is read about 4 GB past the buffer |
| KsMetadata.AsWrittenFieldReadPastBuffer | src/color/mfcamerareader.cpp:100-105 | as written, FramePTS is read at bytes 16..24 of an 8-byte buffer; the guarded walk leaves the PTS at 0 |
| Allocator.SumUpdate | src/allocator/allocator.c:178-179 | changing one counter changes the leak sum by exactly that difference |
| Allocator.SumOfZeros | src/allocator/allocator.c:171-179 | all counters zero means a zero leak sum |
| Allocator.SumOfSix | src/allocator/allocator.c:178-179 | the leak sum over the six sources is the six-term addition the code returns |
| Allocator.CountsAfterAlloc | src/allocator/allocator.c:70-107 | a rejected source, a zero size or a NULL context changes nothing; an accepted call raises exactly the source's counter |
| Allocator.CountsAfterFree | src/allocator/allocator.c:109-146 | an invalid recorded source or a NULL buffer changes nothing; otherwise exactly that source's counter drops by one |
| Allocator.AllocFreeBalances | src/allocator/allocator.c:70-146 | an accepted allocation freed with the context it recorded restores every counter |
| Allocator.LeakCountTracksAllocations | src/allocator/allocator.c:148-180 | with no session open, an accepted allocation adds one reported leak and a free removes one |
| Allocator.FailedMallocStaysCounted | src/allocator/allocator.c:102-115 | an accepted allocation whose malloc fails, then freed with a NULL buffer, is reported as one leak |
| Allocator.Allocator.constructor | src/allocator/allocator.c:60-68 | the counters and the session count start at zero |
| Allocator.Allocator.Initialize | src/allocator/allocator.c:60-63 | one more session, counters untouched |
| Allocator.Allocator.Deinitialize | src/allocator/allocator.c:65-68 | one session fewer, counters untouched |
| Allocator.Allocator.Alloc | src/allocator/allocator.c:70-107 | counters as `CountsAfterAlloc`; a rejected call returns NULL with the context untouched; an accepted one records the source in the context and returns a fresh buffer of the size iff malloc succeeds |
| Allocator.Allocator.Free | src/allocator/allocator.c:109-146 | counters as `CountsAfterFree`, sessions untouched |
| Allocator.Allocator.TestForLeaks | src/allocator/allocator.c:148-180 | returns 0 while a session is open, otherwise the sum of the counters; all counters zero gives 0 |
| Allocator.CopyToBuffer | src/color/uvc_camerareader.cpp:720-720 | memcpy: the front of the destination becomes the source bytes and the rest is unchanged |
| Allocator.IncRefMap | src/allocator/allocator.c:292-310 | taking a reference on a live image adds one to its count, ignores a dead handle, and leaves every other image's count |
| Allocator.DecRefMap | src/allocator/allocator.c:193-199 | dropping a reference lowers the image's count by one (never below 0), destroys it at 0, keeps all counts positive and leaves others alone |
| Allocator.ReleaseSlots | src/allocator/allocator.c:193-199 | releasing the slots keeps every live count positive |
| Allocator.ReleaseSlotsCount | src/allocator/allocator.c:193-199 | releasing the slots takes exactly one reference per slot holding the image, never below zero |
| Allocator.ReleaseEmptySlots | src/allocator/allocator.c:193-199 | empty slots release nothing |
| Allocator.ImageRefs.constructor | src/allocator/allocator.c:182-204 | no image handle is live |
| Allocator.ImageRefs.Create | src/color/uvc_camerareader.cpp:726-734 | a new image handle starts with one reference, nothing else changes |
| Allocator.ImageRefs.IncRef | src/allocator/allocator.c:292-310 | counts as `IncRefMap` |
| Allocator.ImageRefs.DecRef | src/allocator/allocator.c:193-199 | counts as `DecRefMap` |
| Allocator.Capture.constructor | src/allocator/allocator.c:214-228 | a new capture has one reference and three empty slots |
| Allocator.Capture.IncRef | src/allocator/allocator.c:206-212 | a live capture gains one reference; an invalid handle changes nothing |
| Allocator.Capture.DecRef | src/allocator/allocator.c:182-204 | one reference fewer; the last one releases every held image exactly once (`ReleaseSlots`) and destroys the capture; otherwise no image count changes |
| Allocator.Capture.GetImage | src/allocator/allocator.c:239-284 | returns the slot's image with one more reference on it, or NULL with no change; an invalid handle returns NULL |
| Allocator.Capture.GetImuImage | src/allocator/allocator.c:286-290 | the IMU image is the IR slot's, with the same reference rule |
| Allocator.Capture.SetImage | src/allocator/allocator.c:292-347 | the slot's old image loses a reference, the new one gains one, only that slot changes; an invalid handle changes nothing |
| Allocator.Capture.SetImuImage | src/allocator/allocator.c:348-352 | stores into the IR slot: the slot's old image loses a reference, the new one gains one, the other slots are kept; an invalid handle changes nothing |
| Allocator.CreateCaptureAsWritten | src/allocator/allocator.c:214-237 | as written: when Lock_Init fails the call fails but the caller's handle still names the destroyed capture |
| Allocator.CreateCapture | src/allocator/allocator.c:214-237 | succeeds iff allocation and lock succeed; on failure the caller's handle is NULL; on success a fresh capture with one reference and empty slots; no image count changes |
| Allocator.ReleaseColorSlot | src/allocator/allocator.c:193-199 | a capture holding only a colour image releases exactly that image |
| UvcControls.ReadControl | src/color/uvc_camerareader.cpp:241-396 | a GET_CUR succeeds exactly for a control whose requests do not fail |
| UvcControls.WriteControl | src/color/uvc_camerareader.cpp:426-602 | a SET_CUR is always recorded, succeeds exactly when the control's requests do not fail, and then stores the value |
| UvcControls.AeModeToControlMode | src/color/uvc_camerareader.cpp:253-265 | auto-exposure modes 1 and 4 are MANUAL, 2 and 8 are AUTO, any other value is invalid (each both ways) |
| UvcControls.GetControl | src/color/uvc_camerareader.cpp:225-411 | an uninitialised reader fails leaving the outputs untouched; a failure never changes the value output |
| UvcControls.SetControl | src/color/uvc_camerareader.cpp:413-615 | an uninitialised reader fails without touching the camera; writes are only appended, never rewritten |
| UvcControls.ScaleThroughUint32 | src/color/uvc_camerareader.cpp:275-275 | a whole number of 100 us units scaled through uint32_t and back to int32_t is exact while it fits |
| UvcControls.ExposureRoundTrip | src/color/uvc_camerareader.cpp:426-444 | set manual exposure V then get: MANUAL and V truncated toward zero to a multiple of 100 |
| UvcControls.AutoExposureRoundTrip | src/color/uvc_camerareader.cpp:445-453 | auto exposure is written as aperture priority and reads back as AUTO |
| UvcControls.ExposureModeCollapse | src/color/uvc_camerareader.cpp:241-276 | the mode read follows the auto-exposure bitmap: 1 and 4 MANUAL, 2 and 8 AUTO, anything else fails |
| UvcControls.ManualOnlyRejectsOtherModes | src/color/uvc_camerareader.cpp:460-602 | a manual-only control in any mode but MANUAL fails with no request sent |
| UvcControls.ManualRoundTrip | src/color/uvc_camerareader.cpp:278-396 | a manual-only control set to a value of its C type reads back that value in MANUAL |
| UvcControls.WhiteBalanceWrites | src/color/uvc_camerareader.cpp:524-554 | manual white balance writes auto = 0 then the temperature; auto writes only auto = 1 |
| UvcControls.WhiteBalanceModeRead | src/color/uvc_camerareader.cpp:326-361 | the auto flag reads as MANUAL for 0, AUTO for 1, and fails otherwise |
| UvcControls.WhiteBalanceRoundTrip | src/color/uvc_camerareader.cpp:326-361 | manual white balance reads back the temperature written, for any uint16 temperature |
| UvcControls.DeprecatedAndUnknownCommands | src/color/uvc_camerareader.cpp:399-407 | auto-exposure priority reads 0 and accepts any write without a request; unknown commands fail and touch nothing |
| UvcReader.StartFormat | src/color/uvc_camerareader.cpp:97-126 | exactly MJPG, NV12, YUY2 and BGRA32 are accepted; the output is the requested format; BGRA32 is streamed as MJPEG |
| UvcReader.UvcCameraReader.constructor | src/color/uvc_camerareader.cpp:24-24 | a reader holding no libuvc resource, not streaming, with no callback |
| UvcReader.UvcCameraReader.Stop | src/color/uvc_camerareader.cpp:168-189 | streaming stops; a running stream is stopped once and its callback cleared; an idle reader is unchanged |
| UvcReader.UvcCameraReader.Shutdown | src/color/uvc_camerareader.cpp:191-223 | nothing is left held, and each held resource is released once, in the order stream, handle, device, context, decoder |
| UvcReader.UvcCameraReader.Init | src/color/uvc_camerareader.cpp:31-70 | an open reader is refused with every field unchanged; otherwise the first Shutdown releases what was held, it succeeds iff init, find and open succeed, a failed find releases the context and a failed open the device then the context, leaving nothing held; size and formats are never touched |
| UvcReader.UvcCameraReader.Start | src/color/uvc_camerareader.cpp:72-166 | succeeds iff callback and context are set, the device is open and idle, the format is supported, and negotiation and streaming succeed; then records size, formats and callback; a failed negotiation still records size and formats and keeps the old callback; a failed stream start clears size and callback but keeps the formats |
| UvcReader.UvcCameraReader.DecodeMjpegToBgra32 | src/color/uvc_camerareader.cpp:777-808 | succeeds iff the buffer holds width x height x 4 bytes, a decoder exists or can be made, and decoding succeeds; then the buffer holds the pixels; a failure leaves it unchanged |
| UvcReader.UvcCameraReader.FillBuffer | src/color/uvc_camerareader.cpp:693-740 | the colour buffer is filled iff allocated and (when decoding) decoded; it then holds the decoded pixels or the frame bytes; an unfilled buffer is freed |
| UvcReader.UvcCameraReader.Deliver | src/color/uvc_camerareader.cpp:724-773 | the application is called exactly once, with `FrameDelivery`; every image reference taken is given back, and a made image's release frees the colour buffer |
| UvcReader.UvcCameraReader.HandleFrame | src/color/uvc_camerareader.cpp:693-773 | a frame past the checks is delivered exactly once, succeeding iff the buffer is filled and image and capture creation succeed; a buffer given to an image is released when the image dies, one no image took stays counted (a leak), an unfilled one is released; the image carries the output format, size, stride, pixels and metadata |
| UvcReader.UvcCameraReader.Callback | src/color/uvc_camerareader.cpp:617-775 | an ignored or time-stamp-less frame changes nothing; a handled frame is delivered exactly once, succeeding iff every step does, with the negotiated format, size, stride, pixels and the walk's metadata |
| UvcReader.FrameDelivery | src/color/uvc_camerareader.cpp:724-773 | success and a capture exactly when the buffer was filled and image and capture creation succeed; the capture then holds the image |
| MfControls.CommandProperty | src/color/mfcamerareader.cpp:555-613 | exactly the ten control commands map to a KS property; exposure, white balance and AE priority map to their own |
| MfControls.KsRead | src/color/mfcamerareader.cpp:559-608 | a property read succeeds exactly when the property exists and does not fail, and returns its stored value and flags |
| MfControls.KsWriteProperty | src/color/mfcamerareader.cpp:657-710 | a property write is recorded, succeeds exactly when the property does not fail, and then stores value and flags |
| MfControls.ModeFromFlags | src/color/mfcamerareader.cpp:615-624 | the manual flag reads MANUAL, the auto flag alone AUTO, and no flag keeps the cleared MANUAL |
| MfControls.GetControl | src/color/mfcamerareader.cpp:542-630 | succeeds iff the command is known and its property reads; a failure reports MANUAL and 0; a success reports the flags' mode and the int32 value, converted for exposure |
| MfControls.SetControl | src/color/mfcamerareader.cpp:632-718 | a refused request writes nothing and fails; an accepted one writes the command's property once, with the auto flag iff AUTO was asked, and succeeds iff the write does |
| MfControls.AutoOnlyForExposureAndWhiteBalance | src/color/mfcamerareader.cpp:639-650 | AUTO is refused for every control but exposure and white balance; for those two it writes the auto flag |
| MfControls.AutoExposurePriorityRange | src/color/mfcamerareader.cpp:660-671 | auto-exposure priority accepts exactly 0 and 1 |
| MfControls.UnknownCommandsFail | src/color/mfcamerareader.cpp:611-613 | an unknown command fails both ways and touches nothing |
| MfControls.FlagsReadBack | src/color/mfcamerareader.cpp:615-624 | the auto flag reads back as AUTO and the manual flag as MANUAL |
| MfControls.SetGetRoundTrip | src/color/mfcamerareader.cpp:542-718 | set then get on a healthy device reads back the mode and value set (through the exposure conversions) |
| MfReader.StartSubtypes | src/color/mfcamerareader.cpp:304-332 | exactly the four colour formats are accepted; others keep their subtype; BGRA32 comes from NV12 at 1280x720 and from MJPEG otherwise |
| MfReader.GetStride | src/color/mfcamerareader.cpp:720-739 | the stride fits int32, and MJPEG has stride 0 |
| MfReader.StrideIsRowBytes | src/color/mfcamerareader.cpp:720-739 | for any real width the stride is width times bytes per pixel |
| MfReader.FindNativeType | src/color/mfcamerareader.cpp:341-391 | finds the first native type matching size, rate and subtype, and reports none exactly when no type matches |
| MfReader.SampleDelivery | src/color/mfcamerareader.cpp:844-863 | success and a capture exactly when the image was made and the capture created; the capture then holds the image |
| MfReader.MfCameraReader.constructor | src/color/mfcamerareader.cpp:182-189 | frames are wrapped in place unless K4A_MF_COPY_TO_NEW_BUFFER is set to a value not starting with '0' |
| MfReader.MfCameraReader.Start | src/color/mfcamerareader.cpp:291-487 | missing callback or context, or an unknown format, fails; a started reader succeeds untouched; otherwise succeeds iff the mode is offered and configure, select and read succeed |
| MfReader.MfCameraReader.Stop | src/color/mfcamerareader.cpp:500-540 | the reader is stopped; it flushes iff it was started and the flush request succeeds |
| MfReader.MfCameraReader.FrameContextPts | src/color/mfcamerareader.cpp:31-140 | the frame context's time stamp is the walk's PTS of the raw metadata, 0 without one |
| MfReader.MfCameraReader.CreateImageCopy | src/color/mfcamerareader.cpp:765-797 | an image is made iff the frame is non-empty, malloc and image creation succeed; a made image owns the buffer and its pixels are the frame's bytes; the colour count rises in every case |
| MfReader.MfCameraReader.CreateImage | src/color/mfcamerareader.cpp:741-763 | an image is made iff image creation succeeds; the wrapper exists and is counted as a colour allocation |
| MfReader.MfCameraReader.MakeImage | src/color/mfcamerareader.cpp:821-842 | a sample is dropped iff its frame context has no time stamp; an image is made by `ImageMade`; a made image owns an allocation and shows the sample's bytes; a frame context survives only when given to a wrapping image |
| MfReader.MfCameraReader.Publish | src/color/mfcamerareader.cpp:844-880 | the application is called once unless the sample was dropped, with `SampleDelivery`; every image reference taken is given back, and a made image's release frees its allocation and, for a wrapped buffer, its frame context |
| MfReader.MfCameraReader.ReleaseImage | src/color/mfcamerareader.cpp:173-180 | a made image's release: the wrapper or copy is freed, and a wrapped buffer's frame context is deleted |
| MfReader.MfCameraReader.HandleSample | src/color/mfcamerareader.cpp:813-881 | a dropped sample changes nothing; any other is delivered once with its image, stride, copied pixels and metadata; a delivered image's allocation and frame context are released; only an image that was never made leaves its allocation, and a wrapped buffer's frame context, behind |
| MfReader.MfCameraReader.OnReadSample | src/color/mfcamerareader.cpp:796-908 | stopped or flushing: nothing; started: at most one delivery, plus a failure and a stop when the next request fails, with a handled sample's allocation counts and live frame contexts as for HandleSample; a bad status: two failure reports and a stop when registered |
| K4aDevice.FramePeriodUsec | src/sdk/k4a.c:551-557 | 5 fps has a period of 200000 microseconds, 15 fps 66666 (C's truncation of 1000000/15) and 30 fps 33333 |
| K4aDevice.ValidateConfiguration | src/sdk/k4a.c:498-660 | an accepted configuration has every enumeration in range |
| K4aDevice.ValidateConfigurationMeansSupported | src/sdk/k4a.c:498-660 | the step-by-step check accepts exactly the configurations the declarative rules allow (both directions) |
| K4aDevice.TableLimits | src/sdk/k4a.c:594-660 | WFOV unbinned and 3072p refuse 30 fps; YUY2 and NV12 exist only at 720p |
| K4aDevice.CommonConfigurationsPass | src/sdk/k4a.c:498-660 | the all-off configuration and 720p BGRA32 with NFOV unbinned at 30 fps are accepted |
| K4aDevice.Destroys | src/sdk/k4a.c:198-265 | one destroy per module, in the same order |
| K4aDevice.PresentMembers | src/sdk/k4a.c:198-265 | the teardown visits exactly the modules the device has |
| K4aDevice.PresentNoDuplicates | src/sdk/k4a.c:198-265 | the teardown visits no module twice |
| K4aDevice.PresentSnoc | src/sdk/k4a.c:198-265 | each step of the teardown adds the next module exactly when present |
| K4aDevice.PresentKeepsOrder | src/sdk/k4a.c:198-265 | the teardown keeps the order of the modules it visits |
| K4aDevice.CloseDestroysPresentModules | src/sdk/k4a.c:198-265 | closing destroys exactly the modules present, after stopping capture synchronisation first |
| K4aDevice.CloseReleasesEachModuleOnce | src/sdk/k4a.c:198-265 | closing makes no call twice |
| K4aDevice.CloseOrderRespectsDependencies | src/sdk/k4a.c:198-265 | depth and colour are destroyed before capture synchronisation, calibration before the depth microcontroller |
| K4aDevice.Device.constructor | src/sdk/k4a.c:87-196 | an opened device holds one allocator session and the modules created, with nothing started |
| K4aDevice.Device.StopCameras | src/sdk/k4a.c:745-772 | capture sync, depth, colour are stopped in that order when present, and each stopped camera's flag is cleared |
| K4aDevice.StartSequence | src/sdk/k4a.c:700-734 | a start configures the colour MCU, then starts capture synchronisation, then depth exactly when enabled, then colour exactly when enabled |
| K4aDevice.Device.StartModules | src/sdk/k4a.c:700-734 | succeeds iff each enabled step succeeds; on success every call of `StartSequence` was made and both flags are set; on failure the calls made are a prefix of it |
| K4aDevice.Device.StartCameras | src/sdk/k4a.c:662-743 | succeeds iff nothing runs, the configuration passes and each enabled step succeeds; success makes exactly the calls of `StartSequence` and sets both flags; a failure makes a prefix of them, then stops the cameras |
| K4aDevice.Device.StopImu | src/sdk/k4a.c:322-334 | a present IMU is stopped and its flag cleared; otherwise nothing |
| K4aDevice.Device.StartImu | src/sdk/k4a.c:287-320 | succeeds iff the IMU is idle, a camera runs and the IMU starts; the flag is set exactly on success |
| K4aDevice.Device.Close | src/sdk/k4a.c:198-265 | performs `CloseActions`, nulls every module but the logger, ends the allocator session and returns the leak check's count |
| K4aDevice.Device.TearDownModules | src/sdk/k4a.c:214-255 | destroys each present module in teardown order and nulls it |
| Logging.EnvValue | src/logging/logging.cpp:138-150 | a variable is read exactly when its name is configured and the variable is set |
| Logging.ParseLogLevel | src/logging/logging.cpp:228-268 | the level is TRACE, INFO, WARNING or CRITICAL exactly for values starting with t, i, w or c (either case), never OFF |
| Logging.LevelDefaultsToError | src/logging/logging.cpp:228-268 | an unset, empty or unrecognised value leaves ERROR |
| Logging.FileLogTargetRule | src/logging/logging.cpp:165-199 | a ".log" value is the file; another enabling value falls back to the configured file; unset, empty or '0' disables file logging |
| Logging.AsWrittenAgreesForShortValues | src/logging/logging.cpp:176-190 | for values of at most 131 characters the suffix test as written agrees with the rule |
| Logging.AsWrittenLogFileReadsBeforeValue | src/logging/logging.cpp:176-190 | as written, a 132-character ".log" path gives offset -128 and the test reads before the value |
| Logging.AsWrittenLogFileIgnoresLongPath | src/logging/logging.cpp:176-190 | as written, a 300-character ".log" path is ignored and the configured file used instead |
| Logging.StdoutRule | src/logging/logging.cpp:201-226 | a set stdout variable decides by its first character; an unset one means stdout exactly when no callback is registered |
| Logging.QuickExitIsSound | src/logging/logging.cpp:305-308 | the quick exit drops only messages neither output would take |
| Logging.ThresholdMeaning | src/logging/logging.cpp:325-338 | a threshold passes exactly the levels at least as severe; OFF passes nothing; TRACE passes everything |
| Logging.SpdLevelOf | src/logging/logging.cpp:344-362 | the four named levels map to their spdlog levels, everything else to trace |
| Logging.Formatted | src/logging/logging.cpp:312-319 | the message is a prefix of the text, shorter than the 1024-byte buffer, and whole when it fits |
| Logging.LoggerState.constructor | src/logging/logging.cpp:53-62 | nothing registered, no handles, both levels OFF |
| Logging.LoggerState.RegisterMessageCallback | src/logging/logging.cpp:70-126 | first registration stores callback and level; the same callback updates the level; another callback or a bad level is refused; clearing always succeeds and sets OFF |
| Logging.LoggerState.SetUpEnvLogger | src/logging/logging.cpp:165-269 | a file logger (with the session banner written to it) when a path is given, else stdout when allowed, else none; the file flag is set iff the logger is a file; a logger gets the parsed level, none keeps OFF |
| Logging.LoggerState.Create | src/logging/logging.cpp:128-273 | fails exactly on a NULL config, NULL handle or zero size; later handles share the logger; the first sets it up from the file, stdout and level rules |
| Logging.LoggerState.Destroy | src/logging/logging.cpp:275-296 | an unknown handle is ignored; the last handle drops the env logger, the file flag and the level |
| Logging.LoggerState.Log | src/logging/logging.cpp:302-367 | a message goes to the callback iff one is registered and it passes the user level, then to the env logger iff that exists and it passes the env level |

## Left out

- Floating point:
  - the exposure conversions of the Media Foundation reader (`exp2f`/`log2f`) are function parameters;
  - the Media Foundation capture attributes' exposure time is scaled from 100 ns units to microseconds by `* 0.1f` (src/color/mfcamerareader.cpp:73-75); the model takes the scaled value as an input of the sample;
  - capture temperature (`capture_set_temperature_c`, `capture_get_temperature_c`) is not modelled.
- libuvc, libjpeg-turbo, Media Foundation, COM and spdlog are outside the model. Each call into them is an outcome parameter, and what they compute (pixels, native types) is an input.
- Concurrency is not modelled:
  - locks;
  - the atomic reference counts;
  - the wait in `logger_register_message_callback` for callers to drain;
  - the Media Foundation flush event and the wait loop in `Stop`;
  - the threads of libuvc and Media Foundation.
  Each operation is taken as atomic.
- Message formatting is not modelled. `vsnprintf` is taken as given; only the truncation to the 1024-byte buffer is modelled.
- `image.c` is not part of this model. `ImageRefs` keeps only each image handle's reference count. An image's release callback is run by the handler that drops its last reference, not by `ImageRefs.DecRef`. The application is taken to keep no reference, so a later release by the application is not modelled.
- `k4a_device_open` is reduced to its outcome. The chain of module creations is outside the core; the device starts with the allocator session and the set of modules created.
- The Media Foundation reader's `Shutdown`, `RuntimeClassInitialize` and its COM reference counting are not modelled.
- `FindNativeType` does not model the error returns of the Media Foundation enumeration calls; their only effect is a failed `Start`.
- NULL checks on output pointers are not modelled; outputs are return values. Only the argument checks that reach the core's logic are modelled.
- MfReader.MfCameraReader.CreateImage: the wrapper's `allocator_alloc` result is used without a NULL check, so the model takes its malloc to succeed.
- `logger_is_file_based` is a read of the file flag, which `LoggerState.Valid` ties to the sink.
- K4aDevice.Device.StartImu: the stop after a failed start can never run, because the flag is set only on success; the model does not represent it.
- The UVC frame handler's width arithmetic is unbounded in the model: the `(int)frame->width` cast (src/color/uvc_camerareader.cpp:696) and the uint32 product `m_width_pixels * m_height_pixels * 4` (src/color/uvc_camerareader.cpp:780) are taken without wrap-around. Neither can wrap at the supported resolutions, the largest being 4096 x 3072 at 4 bytes per pixel, 50331648 bytes.
- Environment values are strings without their terminating NUL.
- `char` is taken as signed, as on the x86 and x64 targets.
- K4aDevice.Device.TearDownModules: the nine destroy-and-null blocks of `k4a_device_close` are written as one loop over the teardown order.
- The Media Foundation frame context leaks when `CreateImage` fails after taking it. The model counts it in `liveFrameContexts` but does not say what releases it.
- UvcReader.UvcCameraReader.Deliver and MfReader.MfCameraReader.Publish use the corrected `CreateCapture`. As written (src/allocator/allocator.c:230-234), a failed `Lock_Init` hands the application a destroyed, non-NULL capture, and the handler then calls `capture_dec_ref` on it again. This use-after-free is not modelled.
- Logging.LoggerState.Create and Logging.LoggerState.SetUpEnvLogger use the intended file rule `FileLogTarget`, not `AsWrittenLogFile`. They do not model the truncated offset for values of 132 characters or more.
- UvcReader.UvcCameraReader.Callback and MfReader.MfCameraReader.FrameContextPts use the guarded walk `Walk`. They do not model the reads past the buffer that the code makes.
- KsMetadata.Walk reads a field only when it lies inside both the item and the buffer. A FramePTS that lies inside the buffer but beyond a short item's declared Size is ignored, whereas the code reads it.
- MfReader.MfCameraReader.OnReadSample: a failed status is recorded as one failure report even with no callback registered. The code calls `m_pCallback` there unconditionally (src/color/mfcamerareader.cpp:896), which is a call through NULL once `OnFlush` has cleared it (src/color/mfcamerareader.cpp:921). That crash is not modelled.
- K4aTypes.TicksToUsec states the exact value only while ticks * 100 fits in 64 bits; beyond that it states the bound of the wrapped product.
- UvcControls.GetControl and UvcControls.SetControl: their own contracts state only the guards and the shape of the writes. The per-command behaviour is proved in the lemmas listed with them.

## Findings

| source | as written | input that shows it | evidently intended | confidence | as-written member | corrected member |
|---|---|---|---|---|---|---|
| src/color/uvc_camerareader.cpp:677-684 | `bufferLeft -= Size` on a size_t wraps when an item's Size exceeds the bytes left, and the walk goes on reading | an 8-byte metadata buffer holding one item with Size 16 | stop the walk when an item overruns the buffer | not executed | KsMetadata.AsWrittenUvcWalkReadsPastBuffer | KsMetadata.ParseMetadata |
| src/color/mfcamerareader.cpp:117-124 | Size is cast to a signed LONG; a Size of 2^31 or more makes `bufferLeft` grow, and the next header is read past the buffer | a 16-byte buffer holding one item with Size 0xFFFFFFF8 | stop the walk when an item overruns the buffer | not executed | KsMetadata.AsWrittenMfWalkReadsPastBuffer | KsMetadata.ParseMetadata |
| src/color/mfcamerareader.cpp:100-105 | FramePTS is read at offset 16 whatever the item's Size (the UVC walk at src/color/uvc_camerareader.cpp:643-648 does the same) | an 8-byte buffer holding a FrameAlignInfo header with Size 8 | read a field only when it lies inside the item and the buffer | not executed | KsMetadata.AsWrittenFieldReadPastBuffer | KsMetadata.PtsComesFromFrameAlignInfo |
| src/allocator/allocator.c:230-234 | on a failed Lock_Init the capture is released, but only the local copy of the handle pointer is set to NULL | capture_create with Lock_Init failing | the caller's handle set to NULL | not executed | Allocator.CreateCaptureAsWritten | Allocator.CreateCapture |
| src/logging/logging.cpp:182-182 | the suffix offset `path_length - extension_sz` is cast to `char` | a 132-character value ending in ".log" (offset -128), or a 300-character one (offset 40) | the offset as a size_t | not executed | Logging.AsWrittenLogFileReadsBeforeValue | Logging.FileLogTargetRule |
