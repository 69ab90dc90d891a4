/** The libuvc colour camera reader: its stream state machine
    (Init / Start / Stop / Shutdown), the frame handler libuvc calls for each
    frame, and the MJPEG-to-BGRA32 decode.

    libuvc and libjpeg-turbo are not modelled: each of their calls becomes an
    outcome parameter (whether it succeeds, what it produces), and the calls
    that release a resource are recorded, in order, in `released`.  The
    application's callback is recorded in `deliveries`, one entry per
    invocation; the model's callback keeps no reference to what it is given.
    `IsInitialized()` (declared in the reader's header, which is not part of
    this model) is taken to be "the device handle is open". */
module UvcReader {
  import opened K4aTypes
  import opened Trace
  import opened KsMetadata
  import opened Allocator

  /** The libuvc frame formats the reader asks for. */
  datatype WireFormat = WireMjpeg | WireNv12 | WireYuyv

  /** What Start negotiates for a requested output format: the format the
      camera sends, the format the application gets, and the wire format. */
  datatype FormatChoice = FormatChoice(input: int, output: int, wire: WireFormat)

  /** The requested-format switch of Start: MJPG, NV12 and YUY2 are streamed
      as they are; BGRA32 is streamed as MJPEG and decoded; anything else is
      unsupported. */
  function StartFormat(format: int): (c: Option<FormatChoice>)
    ensures c.Some? <==> format in {FormatColorMjpg, FormatColorNv12, FormatColorYuy2, FormatColorBgra32}
    ensures c.Some? ==> c.value.output == format
    ensures c.Some? && format != FormatColorBgra32 ==> c.value.input == format
    ensures c.Some? && format == FormatColorBgra32 ==> c.value.input == FormatColorMjpg && c.value.wire == WireMjpeg
    ensures c.Some? && c.value.input == FormatColorMjpg ==> c.value.wire == WireMjpeg
  {
    if format == FormatColorMjpg then Some(FormatChoice(format, format, WireMjpeg))
    else if format == FormatColorNv12 then Some(FormatChoice(format, format, WireNv12))
    else if format == FormatColorYuy2 then Some(FormatChoice(format, format, WireYuyv))
    else if format == FormatColorBgra32 then Some(FormatChoice(FormatColorMjpg, format, WireMjpeg))
    else None
  }

  /** A uvc_frame_t as the handler sees it. */
  datatype UvcFrame = UvcFrame(width: nat, height: nat, step: nat, data: seq<bv8>, metadata: seq<byte>)

  /** Resource releases, in the order libuvc and libjpeg-turbo see them. */
  datatype UvcRelease = StopStreaming | CloseDeviceHandle | UnrefDevice | ExitContext | DestroyDecoder

  /** What the calls outside the model do while one frame is handled:
      malloc, tjInitDecompress, tjDecompress2 (its status and the pixels it
      writes), image_create_from_buffer (and the handle it creates), and the
      two steps of capture_create. */
  datatype FrameOutcomes = FrameOutcomes(
    mallocOk: bool, decoderInitOk: bool, decodeStatus: int, decoded: seq<bv8>,
    imageCreateOk: bool, newImage: ImageId, captureAllocOk: bool, captureLockOk: bool)

  /** Whether the handler does anything with a frame: the reader is
      streaming, the frame is there, and its metadata carries a non-zero
      PTS. */
  predicate Handles(streaming: bool, frame: Option<UvcFrame>)
  {
    streaming && frame.Some? && Walk(frame.value.metadata, 0, true, NoMetadata).pts != 0
  }

  /** The frame handler's buffer size: width * 4 * height when decoding
      MJPEG to BGRA32, the frame's own byte count otherwise. */
  function BufferSize(decode: bool, frame: UvcFrame): nat
  {
    if decode then frame.width * 4 * frame.height else |frame.data|
  }

  function Stride(decode: bool, frame: UvcFrame): nat
  {
    if decode then frame.width * 4 else frame.step
  }

  /** Whether the buffer is filled: allocated, and decoded when decoding. */
  predicate BufferFilled(decode: bool, frame: UvcFrame, widthPixels: nat, heightPixels: nat,
                         hasDecoder: bool, out: FrameOutcomes)
  {
    BufferSize(decode, frame) != 0 && out.mallocOk &&
    (decode ==> widthPixels * heightPixels * 4 <= BufferSize(decode, frame) &&
                (hasDecoder || out.decoderInitOk) && out.decodeStatus == 0)
  }

  /** The image the handler builds from a frame: the negotiated output
      format and size, the stride for that format, the decoded pixels or
      the frame's own bytes, the PTS converted to microseconds and the
      capture statistics from the metadata. */
  predicate ImageOfFrame(img: ColorImage, f: UvcFrame, md: FrameMetadata, decode: bool,
                         format: int, widthPixels: nat, heightPixels: nat, out: FrameOutcomes)
  {
    && img.format == format && img.widthPixels == widthPixels && img.heightPixels == heightPixels
    && img.stride == Stride(decode, f) && |img.buffer| == BufferSize(decode, f)
    && (decode ==> |out.decoded| <= |img.buffer| && img.buffer[..|out.decoded|] == out.decoded)
    && (!decode ==> img.buffer == f.data)
    && img.timestampUsec == TicksToUsec(md.pts)
    && img.exposureUsec == md.exposureUsec && img.isoSpeed == md.isoSpeed && img.whiteBalance == md.whiteBalance
  }

  /** The releases Shutdown makes, given what the reader holds: each held
      resource once, the stream first and the decoder last. */
  function ShutdownReleases(streaming: bool, handle: bool, device: bool, context: bool, decoder: bool)
    : seq<UvcRelease>
  {
    (if streaming then [StopStreaming] else [])
    + (if handle then [CloseDeviceHandle] else [])
    + (if device then [UnrefDevice] else [])
    + (if context then [ExitContext] else [])
    + (if decoder then [DestroyDecoder] else [])
  }

  lemma AppendFive<T>(r: seq<T>, a: seq<T>, b: seq<T>, c: seq<T>, d: seq<T>, e: seq<T>)
    ensures r + a + b + c + d + e == r + (a + b + c + d + e)
  {
  }

  class UvcCameraReader {
    var hasContext: bool
    var hasDevice: bool
    var hasDeviceHandle: bool
    var hasDecoder: bool
    var streaming: bool
    /** m_pCallback and m_pCallbackContext, as opaque pointer values */
    var callback: Option<nat>
    var callbackContext: Option<nat>
    var widthPixels: nat
    var heightPixels: nat
    var inputFormat: int
    var outputFormat: int
    var deliveries: seq<Delivery>
    var released: seq<UvcRelease>
    const alloc: Allocator
    const images: ImageRefs

    ghost predicate Valid()
      reads this, alloc, images
    {
      alloc.Valid() && images.Valid()
    }

    predicate IsInitialized()
      reads this
    {
      hasDeviceHandle
    }

    /** A reader that holds nothing. */
    constructor (alloc: Allocator, images: ImageRefs)
      requires alloc.Valid() && images.Valid()
      ensures Valid() && this.alloc == alloc && this.images == images
      ensures !hasContext && !hasDevice && !hasDeviceHandle && !hasDecoder && !streaming
      ensures callback.None? && callbackContext.None? && deliveries == [] && released == []
    {
      this.alloc := alloc;
      this.images := images;
      hasContext, hasDevice, hasDeviceHandle, hasDecoder, streaming := false, false, false, false, false;
      callback, callbackContext := None, None;
      widthPixels, heightPixels := 0, 0;
      inputFormat, outputFormat := FormatColorMjpg, FormatColorMjpg;
      deliveries, released := [], [];
    }

    /** Stop: if streaming, clear the flag and the callback, then stop the
        stream; otherwise nothing. */
    method Stop()
      modifies this
      ensures !streaming
      ensures old(streaming) ==> callback.None? && callbackContext.None? && released == old(released) + [StopStreaming]
      ensures !old(streaming) ==> callback == old(callback) && callbackContext == old(callbackContext) && released == old(released)
      ensures hasContext == old(hasContext) && hasDevice == old(hasDevice) && hasDeviceHandle == old(hasDeviceHandle)
      ensures hasDecoder == old(hasDecoder) && deliveries == old(deliveries)
      ensures widthPixels == old(widthPixels) && heightPixels == old(heightPixels)
      ensures inputFormat == old(inputFormat) && outputFormat == old(outputFormat)
    {
      if streaming {
        streaming := false;
        callback := None;
        callbackContext := None;
        released := released + [StopStreaming];
      }
    }

    /** Shutdown: stop, then release the device handle, the device, the
        context and the decoder, each only if held. */
    method Shutdown()
      modifies this
      ensures !streaming && !hasContext && !hasDevice && !hasDeviceHandle && !hasDecoder
      // each held resource is released once, in this order
      ensures released == old(released) + ShutdownReleases(old(streaming), old(hasDeviceHandle), old(hasDevice),
                                                           old(hasContext), old(hasDecoder))
      ensures !old(streaming) ==> callback == old(callback) && callbackContext == old(callbackContext)
      ensures old(streaming) ==> callback.None? && callbackContext.None?
      ensures deliveries == old(deliveries)
      ensures widthPixels == old(widthPixels) && heightPixels == old(heightPixels)
      ensures inputFormat == old(inputFormat) && outputFormat == old(outputFormat)
    {
      ghost var st := if streaming then [StopStreaming] else [];
      Stop();
      ghost var stopped := released;
      assert stopped == old(released) + st;
      ghost var h := if hasDeviceHandle then [CloseDeviceHandle] else [];
      ghost var d := if hasDevice then [UnrefDevice] else [];
      ghost var c := if hasContext then [ExitContext] else [];
      ghost var j := if hasDecoder then [DestroyDecoder] else [];
      if hasDeviceHandle {
        released := released + [CloseDeviceHandle];
        hasDeviceHandle := false;
      }
      assert released == stopped + h;
      if hasDevice {
        released := released + [UnrefDevice];
        hasDevice := false;
      }
      assert released == stopped + h + d;
      if hasContext {
        released := released + [ExitContext];
        hasContext := false;
      }
      assert released == stopped + h + d + c;
      if hasDecoder {
        released := released + [DestroyDecoder];
        hasDecoder := false;
      }
      assert released == stopped + h + d + c + j;
      AppendFive(old(released), st, h, d, c, j);
    }

    /** Init: fails if already initialised; otherwise starts from a clean
        reader and opens the libuvc context, finds the device and opens it,
        unwinding everything on a failure.  `initOk`, `findOk` and `openOk`
        are the outcomes of uvc_init, uvc_find_device and uvc_open. */
    method Init(initOk: bool, findOk: bool, openOk: bool) returns (result: K4aResult)
      modifies this
      // an open reader is refused and left as it was
      ensures old(hasDeviceHandle) ==> result == Failed && released == old(released) && hasDeviceHandle
      ensures old(hasDeviceHandle) ==> streaming == old(streaming) && hasContext == old(hasContext) && hasDevice == old(hasDevice)
      ensures old(hasDeviceHandle) ==> hasDecoder == old(hasDecoder)
      ensures old(hasDeviceHandle) || !old(streaming) ==>
                callback == old(callback) && callbackContext == old(callbackContext)
      // otherwise the first Shutdown releases what was held, and a failed
      // find or open releases what Init had acquired by then
      ensures !old(hasDeviceHandle) && old(streaming) ==> callback.None? && callbackContext.None?
      ensures !old(hasDeviceHandle) ==>
                released == old(released)
                            + ShutdownReleases(old(streaming), false, old(hasDevice), old(hasContext), old(hasDecoder))
                            + (if !initOk then [] else if !findOk then [ExitContext]
                               else if !openOk then [UnrefDevice, ExitContext] else [])
      ensures widthPixels == old(widthPixels) && heightPixels == old(heightPixels)
      ensures inputFormat == old(inputFormat) && outputFormat == old(outputFormat)
      ensures !old(hasDeviceHandle) ==> (result == Succeeded <==> initOk && findOk && openOk)
      ensures !old(hasDeviceHandle) && result == Succeeded ==>
                hasContext && hasDevice && hasDeviceHandle && !hasDecoder && !streaming
      ensures !old(hasDeviceHandle) && result == Failed ==>
                !hasContext && !hasDevice && !hasDeviceHandle && !hasDecoder && !streaming
      ensures deliveries == old(deliveries)
    {
      if hasDeviceHandle {
        return Failed;
      }
      Shutdown();
      if !initOk {
        return Failed;
      }
      hasContext := true;
      if !findOk {
        Shutdown();
        return Failed;
      }
      hasDevice := true;
      if !openOk {
        Shutdown();
        return Failed;
      }
      hasDeviceHandle := true;
      result := Succeeded;
    }

    /** Start.  `negotiateOk` is the outcome of
        uvc_get_stream_ctrl_format_size, `startOk` that of
        uvc_start_streaming. */
    method Start(width: nat, height: nat, format: int, cb: Option<nat>, cbContext: Option<nat>,
                 negotiateOk: bool, startOk: bool)
      returns (result: K4aResult)
      modifies this`streaming, this`callback, this`callbackContext, this`widthPixels, this`heightPixels,
               this`inputFormat, this`outputFormat
      ensures result == Succeeded <==>
                cb.Some? && cbContext.Some? && old(hasDeviceHandle) && !old(streaming) &&
                StartFormat(format).Some? && negotiateOk && startOk
      ensures result == Succeeded ==>
                streaming && callback == cb && callbackContext == cbContext &&
                widthPixels == width && heightPixels == height &&
                inputFormat == StartFormat(format).value.input && outputFormat == format
      ensures result == Failed ==> streaming == old(streaming)
      // rejected before any state is touched
      ensures cb.None? || cbContext.None? || !old(hasDeviceHandle) || old(streaming) || StartFormat(format).None? ==>
                widthPixels == old(widthPixels) && heightPixels == old(heightPixels) &&
                inputFormat == old(inputFormat) && outputFormat == old(outputFormat) &&
                callback == old(callback) && callbackContext == old(callbackContext)
      // past the argument checks the formats are recorded, whatever follows
      ensures cb.Some? && cbContext.Some? && old(hasDeviceHandle) && !old(streaming) && StartFormat(format).Some? ==>
                inputFormat == StartFormat(format).value.input && outputFormat == StartFormat(format).value.output
      // a failed negotiation keeps the requested size and the old callback
      ensures cb.Some? && cbContext.Some? && old(hasDeviceHandle) && !old(streaming) && StartFormat(format).Some? &&
              !negotiateOk ==>
                widthPixels == width && heightPixels == height &&
                callback == old(callback) && callbackContext == old(callbackContext)
      // a failed uvc_start_streaming clears the size and the callback
      ensures result == Failed && negotiateOk && !startOk && cb.Some? && cbContext.Some? && old(hasDeviceHandle) &&
              !old(streaming) && StartFormat(format).Some? ==>
                widthPixels == 0 && heightPixels == 0 && callback.None? && callbackContext.None?
      ensures hasContext == old(hasContext) && hasDevice == old(hasDevice) && hasDeviceHandle == old(hasDeviceHandle)
      ensures hasDecoder == old(hasDecoder) && deliveries == old(deliveries) && released == old(released)
    {
      if cb.None? || cbContext.None? {
        return Failed;
      }
      if !IsInitialized() {
        return Failed;
      }
      if streaming {
        return Failed;
      }
      var choice := StartFormat(format);
      if choice.None? {
        return Failed;
      }
      outputFormat := choice.value.output;
      inputFormat := choice.value.input;
      widthPixels := width;
      heightPixels := height;
      if !negotiateOk {
        return Failed;
      }
      callback := cb;
      callbackContext := cbContext;
      if !startOk {
        widthPixels := 0;
        heightPixels := 0;
        callback := None;
        callbackContext := None;
        return Failed;
      }
      streaming := true;
      result := Succeeded;
    }

    /** DecodeMJPEGtoBGRA32: refuses a buffer too small for the negotiated
        size, creates the decoder on first use, and decodes.  `initOk` is
        the outcome of tjInitDecompress, `status` that of tjDecompress2 and
        `decoded` the pixels it writes. */
    method DecodeMjpegToBgra32(outBuf: array<bv8>, initOk: bool, status: int, decoded: seq<bv8>)
      returns (result: K4aResult)
      requires |decoded| == widthPixels * heightPixels * 4
      modifies this`hasDecoder, outBuf
      ensures result == Succeeded <==>
                widthPixels * heightPixels * 4 <= outBuf.Length && (old(hasDecoder) || initOk) && status == 0
      ensures result == Succeeded ==> outBuf[..|decoded|] == decoded && outBuf[|decoded|..] == old(outBuf[|decoded|..])
      ensures result == Failed ==> outBuf[..] == old(outBuf[..])
      ensures hasDecoder == (old(hasDecoder) || (widthPixels * heightPixels * 4 <= outBuf.Length && initOk))
    {
      if widthPixels * heightPixels * 4 > outBuf.Length {
        return Failed;
      }
      if !hasDecoder {
        if !initOk {
          return Failed;
        }
        hasDecoder := true;
      }
      if status != 0 {
        return Failed;
      }
      CopyToBuffer(outBuf, decoded);
      result := Succeeded;
    }

    /** The allocate-and-fill step of the frame handler: a COLOR buffer of
        `BufferSize` bytes, decoded into or copied into; a buffer that
        cannot be filled is released again. */
    method FillBuffer(f: UvcFrame, decode: bool, out: FrameOutcomes) returns (buffer: array?<bv8>, filled: bool)
      requires Valid()
      requires |out.decoded| == widthPixels * heightPixels * 4
      modifies this`hasDecoder, alloc
      ensures Valid() && alloc.sessions == old(alloc.sessions)
      ensures filled <==> BufferFilled(decode, f, widthPixels, heightPixels, old(hasDecoder), out)
      ensures filled ==> buffer != null && fresh(buffer) && buffer.Length == BufferSize(decode, f)
      ensures filled && decode ==> buffer[..|out.decoded|] == out.decoded
      ensures filled && !decode ==> buffer[..] == f.data
      ensures filled ==> alloc.counts == CountsAfterAlloc(old(alloc.counts), SourceColor, BufferSize(decode, f), true)
      ensures !filled ==> alloc.counts == CountsAfterAlloc(old(alloc.counts), SourceColor, BufferSize(decode, f),
                                                            BufferSize(decode, f) != 0 && !out.mallocOk)
    {
      var context;
      buffer, context := alloc.Alloc(SourceColor, BufferSize(decode, f), Some(0), out.mallocOk);
      var result := ResultFromBool(buffer != null);
      if result == Succeeded {
        if decode {
          result := DecodeMjpegToBgra32(buffer, out.decoderInitOk, out.decodeStatus, out.decoded);
        } else {
          CopyToBuffer(buffer, f.data);
          assert buffer[..] == buffer[..|f.data|];
        }
      }
      filled := result == Succeeded;
      if !filled {
        // cleanup if there was an error
        alloc.Free(buffer, context.value);
      }
    }

    /** The publish step of the frame handler: wrap the filled buffer in an
        image and a capture, call the application once, and drop the
        handler's own references. */
    method Deliver(image: ColorImage, filled: bool, out: FrameOutcomes, buffer: array?<bv8>)
      requires images.Valid() && alloc.Valid() && out.newImage !in images.refs
      modifies this`deliveries, images, alloc
      ensures images.Valid() && images.refs == old(images.refs)
      ensures alloc.Valid() && alloc.sessions == old(alloc.sessions)
      ensures deliveries == old(deliveries) + [FrameDelivery(image, filled, out)]
      // the image dies with the handler's last reference, and its release
      // callback, allocator_free, gives the buffer back
      ensures alloc.counts == if filled && out.imageCreateOk then CountsAfterFree(old(alloc.counts), buffer != null, SourceColor)
                              else old(alloc.counts)
    {
      NewImageDropped(images.refs, out.newImage);
      var result := if filled then Succeeded else Failed;
      var handle: Option<ImageId> := None;
      if result == Succeeded {
        if out.imageCreateOk {
          images.Create(out.newImage);
          handle := Some(out.newImage);
        } else {
          result := Failed;
        }
      }

      var capture: Capture? := null;
      if result == Succeeded {
        result, capture := CreateCapture(out.captureAllocOk, out.captureLockOk, images);
      }

      var delivered: Option<ColorImage> := None;
      if result == Succeeded {
        delivered := Some(image);
        capture.SetImage(ImageColor, handle, images);
      }

      deliveries := deliveries + [Delivery(result, delivered)];

      if handle.Some? {
        images.DecRef(handle.value);
      }
      if capture != null {
        ghost var refsBefore := images.refs;
        capture.DecRef(images);
        ReleaseColorSlot(refsBefore, out.newImage);
      }
      assert images.refs == old(images.refs);
      if handle.Some? {
        // no reference to the image is left: its release callback runs
        alloc.Free(buffer, SourceColor);
      }
    }

    /** What handling frame `f` with metadata `md` leaves behind, given the
        deliveries, the allocation counts and the decoder flag before it. */
    ghost predicate FrameDelivered(before: seq<Delivery>, countsBefore: seq<int>, hadDecoder: bool,
                                   f: UvcFrame, md: FrameMetadata, out: FrameOutcomes)
      reads this, alloc
    {
      var decode := inputFormat == FormatColorMjpg && outputFormat == FormatColorBgra32;
      var filled := BufferFilled(decode, f, widthPixels, heightPixels, hadDecoder, out);
      && |countsBefore| == SourceCount
      // exactly one more delivery
      && |deliveries| == |before| + 1 && deliveries[..|before|] == before
      && var d := deliveries[|before|];
      // succeeding iff every step does, and carrying an image iff it succeeds
      && (d.result == Succeeded <==> filled && out.imageCreateOk && out.captureAllocOk && out.captureLockOk)
      && (d.image.Some? <==> d.result == Succeeded)
      // a buffer that was not filled is released again (a failed malloc's
      // count stays raised: the buffer is NULL)
      && (!filled ==> alloc.counts == CountsAfterAlloc(countsBefore, SourceColor, BufferSize(decode, f),
                                                        BufferSize(decode, f) != 0 && !out.mallocOk))
      // a filled buffer that no image took stays counted: it leaks
      && (filled && !out.imageCreateOk ==>
            alloc.counts == CountsAfterAlloc(countsBefore, SourceColor, BufferSize(decode, f), true))
      // a buffer an image took is given back when the image dies in the handler
      && (filled && out.imageCreateOk ==> alloc.counts == countsBefore)
      // the image carries the negotiated format and size, the frame's
      // pixels and the metadata's values
      && (d.image.Some? ==> ImageOfFrame(d.image.value, f, md, decode, outputFormat, widthPixels, heightPixels, out))
    }

    /** The handling of a frame that passed the handler's checks: fill a
        buffer, wrap it in an image and deliver it. */
    method HandleFrame(f: UvcFrame, md: FrameMetadata, out: FrameOutcomes)
      requires Valid()
      requires out.newImage !in images.refs
      requires |out.decoded| == widthPixels * heightPixels * 4
      modifies this`hasDecoder, this`deliveries, alloc, images
      ensures Valid() && alloc.sessions == old(alloc.sessions) && images.refs == old(images.refs)
      ensures FrameDelivered(old(deliveries), old(alloc.counts), old(hasDecoder), f, md, out)
    {
      var decode := inputFormat == FormatColorMjpg && outputFormat == FormatColorBgra32;
      var buffer, filled := FillBuffer(f, decode, out);
      var contents := if filled then buffer[..] else [];
      var image := ColorImage(outputFormat, widthPixels, heightPixels, Stride(decode, f), contents,
                              TicksToUsec(md.pts), md.exposureUsec, md.isoSpeed, md.whiteBalance);
      Deliver(image, filled, out, buffer);
      if filled && out.imageCreateOk {
        AllocFreeBalances(old(alloc.counts), SourceColor, BufferSize(decode, f));
      }
    }

    /** The frame handler.  It changes only the decoder, the deliveries,
        the allocator and the image references. */
    method Callback(frame: Option<UvcFrame>, out: FrameOutcomes)
      requires Valid()
      requires out.newImage !in images.refs
      requires |out.decoded| == widthPixels * heightPixels * 4
      modifies this`hasDecoder, this`deliveries, alloc, images
      ensures Valid() && alloc.sessions == old(alloc.sessions)
      // every image reference the handler takes, it gives back
      ensures images.refs == old(images.refs)
      // an ignored or dropped frame allocates nothing and calls back nobody
      ensures !Handles(streaming, frame) ==>
                deliveries == old(deliveries) && alloc.counts == old(alloc.counts) && hasDecoder == old(hasDecoder)
      // a handled frame is delivered exactly once, as FrameDelivered describes
      ensures Handles(streaming, frame) ==>
                FrameDelivered(old(deliveries), old(alloc.counts), old(hasDecoder),
                               frame.value, Walk(frame.value.metadata, 0, true, NoMetadata), out)
    {
      if !streaming || frame.None? {
        return;
      }
      var f := frame.value;
      var md := ParseMetadata(f.metadata, true);
      if md.pts == 0 {
        // drop a frame without a time stamp
        return;
      }
      HandleFrame(f, md, out);
    }
  }

  /** What the application callback receives for a handled frame: the image
      inside a capture when every step succeeds, a failure and no capture
      otherwise. */
  function FrameDelivery(image: ColorImage, filled: bool, out: FrameOutcomes): (d: Delivery)
    ensures d.result == Succeeded <==> filled && out.imageCreateOk && out.captureAllocOk && out.captureLockOk
    ensures d.image.Some? <==> d.result == Succeeded
    ensures d.image.Some? ==> d.image.value == image
  {
    if filled && out.imageCreateOk && out.captureAllocOk && out.captureLockOk then Delivery(Succeeded, Some(image))
    else Delivery(Failed, None)
  }
}
