/** The Media Foundation colour camera reader: the copy-or-wrap choice made
    at construction, the format negotiation of Start, Stop, and the sample
    handler Media Foundation calls for each frame (OnReadSample).

    Media Foundation and COM are not modelled: each call becomes an outcome
    parameter, a native media type is a `NativeType` value, and a sample is
    an `MfSample` holding its frame bytes, its raw KS metadata buffer and
    the capture attributes (already converted to microseconds).  The
    application's callback is recorded in `deliveries`, one entry per
    invocation.  `liveFrameContexts` counts the frame contexts the handler
    did not delete: those it handed to an image that wraps the Media
    Foundation buffer (the image's release callback deletes them). */
module MfReader {
  import opened K4aTypes
  import opened Trace
  import opened KsMetadata
  import opened Allocator

  /** The Media Foundation video subtypes the reader uses. */
  datatype MfSubtype = SubtypeNv12 | SubtypeYuy2 | SubtypeMjpg | SubtypeArgb32

  /** The requested-format switch of Start: the subtype asked of the device
      and the subtype of the reader's output.  BGRA32 is converted from NV12
      at 1280x720 and from MJPEG at every other size. */
  function StartSubtypes(format: int, width: nat, height: nat): (r: Option<(MfSubtype, MfSubtype)>)
    ensures r.Some? <==> format in {FormatColorNv12, FormatColorYuy2, FormatColorMjpg, FormatColorBgra32}
    ensures r.Some? && format != FormatColorBgra32 ==> r.value.0 == r.value.1
    ensures format == FormatColorBgra32 ==>
              r == Some((if width == 1280 && height == 720 then SubtypeNv12 else SubtypeMjpg, SubtypeArgb32))
  {
    if format == FormatColorNv12 then Some((SubtypeNv12, SubtypeNv12))
    else if format == FormatColorYuy2 then Some((SubtypeYuy2, SubtypeYuy2))
    else if format == FormatColorMjpg then Some((SubtypeMjpg, SubtypeMjpg))
    else if format == FormatColorBgra32 then
      Some((if width == 1280 && height == 720 then SubtypeNv12 else SubtypeMjpg, SubtypeArgb32))
    else None
  }

  /** The bytes per pixel of a row for the formats that have a stride. */
  function BytesPerPixel(format: int): nat
  {
    if format == FormatColorNv12 then 1
    else if format == FormatColorYuy2 then 2
    else if format == FormatColorBgra32 then 4
    else 0
  }

  /** GetStride: the UINT32 product width * bytes-per-pixel, returned as an
      int; MJPEG (and anything else) has stride 0. */
  function GetStride(format: int, width: nat): (stride: int)
    ensures IsInt32(stride)
    ensures BytesPerPixel(format) == 0 ==> stride == 0
  {
    ToInt32(ToUint32(width * BytesPerPixel(format)))
  }

  /** For any width a sensor mode can have, the stride is the row's byte count. */
  lemma StrideIsRowBytes(format: int, width: nat)
    requires width < 0x2000_0000
    ensures GetStride(format, width) == width * BytesPerPixel(format)
  {
    assert width * BytesPerPixel(format) <= width * 4;
  }

  /** The reading of K4A_MF_COPY_TO_NEW_BUFFER (None when unset): frames
      are copied into new buffers iff the value is set and its first
      character is neither the terminator nor '0'. */
  predicate CopyToNewBuffer(env: Option<string>)
  {
    env.Some? && FirstChar(env.value) != '\0' && FirstChar(env.value) != '0'
  }

  /** One native media type of the device: frame size, frame rate as a
      ratio, and subtype. */
  datatype NativeType = NativeType(width: nat, height: nat, fpsNumerator: nat, fpsDenominator: nat, subtype: MfSubtype)

  /** Whether a native media type is the requested sensor mode. */
  predicate Matches(t: NativeType, width: nat, height: nat, fps: nat, subtype: MfSubtype)
  {
    t.width == width && t.height == height && t.fpsDenominator != 0 &&
    fps * t.fpsDenominator == t.fpsNumerator && t.subtype == subtype
  }

  /** The enumeration loop of Start: the first native type that matches. */
  method FindNativeType(types: seq<NativeType>, width: nat, height: nat, fps: nat, subtype: MfSubtype)
    returns (found: bool, index: nat)
    ensures found ==> index < |types| && Matches(types[index], width, height, fps, subtype)
    ensures found ==> forall j :: 0 <= j < index ==> !Matches(types[j], width, height, fps, subtype)
    ensures !found <==> forall j :: 0 <= j < |types| ==> !Matches(types[j], width, height, fps, subtype)
  {
    found, index := false, 0;
    while !found && index < |types|
      invariant index <= |types|
      invariant found ==> index < |types| && Matches(types[index], width, height, fps, subtype)
      invariant forall j :: 0 <= j < index ==> !Matches(types[j], width, height, fps, subtype)
      decreases |types| - index, !found
    {
      if Matches(types[index], width, height, fps, subtype) {
        found := true;
      } else {
        index := index + 1;
      }
    }
  }

  /** Start's argument and format checks pass. */
  predicate Accepted(format: int, width: nat, height: nat, cb: Option<nat>, cbContext: Option<nat>)
  {
    cb.Some? && cbContext.Some? && StartSubtypes(format, width, height).Some?
  }

  /** The device offers the requested sensor mode in the device subtype. */
  predicate ModeFound(types: seq<NativeType>, width: nat, height: nat, fps: nat, format: int)
    requires StartSubtypes(format, width, height).Some?
  {
    exists j :: 0 <= j < |types| && Matches(types[j], width, height, fps, StartSubtypes(format, width, height).value.0)
  }

  /** The outcomes of the Media Foundation calls Start makes once a type is
      found: configuring the device and output types, selecting the
      stream, and requesting the first sample. */
  datatype StartOutcomes = StartOutcomes(configureOk: bool, selectOk: bool, readOk: bool)

  /** One sample: its frame bytes, its raw KS metadata buffer when the
      sample carries one, and the capture attributes. */
  datatype MfSample = MfSample(data: seq<bv8>, rawMetadata: Option<seq<byte>>,
                               exposureUsec: nat, whiteBalance: nat, isoSpeed: nat)

  /** The largest buffer length a LONG holds: a longer metadata buffer turns
      negative when the length is cast and the walk is skipped. */
  const MaxLong: nat := 0x7FFF_FFFF

  /** The frame context's presentation time stamp: the FrameAlignInfo time
      stamp of the raw metadata, or 0 when there is none. */
  function SamplePts(sample: MfSample): nat
  {
    match sample.rawMetadata
    case None => 0
    case Some(buf) => if |buf| > MaxLong then 0 else Walk(buf, 0, false, NoMetadata).pts
  }

  /** The outcomes of the calls the sample handler makes: the frame context
      allocation, image creation, malloc for the copy, the capture
      allocation and its lock, the next ReadSample, and the flush of the
      Stop that follows a failure. */
  datatype SampleOutcomes = SampleOutcomes(
    frameContextOk: bool, imageCreateOk: bool, mallocOk: bool, newImage: ImageId,
    captureAllocOk: bool, captureLockOk: bool, readSampleOk: bool, flushOk: bool)

  /** A sample with a frame context but no time stamp is dropped: the
      application is not called for it. */
  predicate Dropped(sample: MfSample, out: SampleOutcomes)
  {
    out.frameContextOk && SamplePts(sample) == 0
  }

  /** Whether the handler ends up with an image for a sample: a frame
      context with a time stamp, and either the wrapped buffer or a copy in a
      successfully allocated buffer, and image creation. */
  predicate ImageMade(useMfBuffer: bool, sample: MfSample, out: SampleOutcomes)
  {
    out.frameContextOk && SamplePts(sample) != 0 &&
    (useMfBuffer || (|sample.data| != 0 && out.mallocOk)) && out.imageCreateOk
  }

  /** The colour allocation counters once a sample has been handled: an
      allocation an image owns is given back when the image dies, and a
      wrapper or copy that no image took stays counted. */
  function CountsAfterSample(counts: seq<int>, useMfBuffer: bool, sample: MfSample, out: SampleOutcomes): seq<int>
    requires |counts| == SourceCount
  {
    if !out.frameContextOk || SamplePts(sample) == 0 || ImageMade(useMfBuffer, sample, out) then counts
    else if useMfBuffer then CountsAfterAlloc(counts, SourceColor, WrapperSize, true)
    else CountsAfterAlloc(counts, SourceColor, |sample.data|, true)
  }

  /** The frame contexts a handled sample leaves alive: one when it went
      to a wrapped image that was never made, none otherwise. */
  function FrameContextsLeft(useMfBuffer: bool, sample: MfSample, out: SampleOutcomes): nat
  {
    if out.frameContextOk && SamplePts(sample) != 0 && useMfBuffer && !out.imageCreateOk then 1 else 0
  }

  /** The image the application receives for a sample. */
  function SampleImage(format: int, width: nat, height: nat, sample: MfSample): ColorImage
  {
    ColorImage(format, width, height, GetStride(format, width), sample.data,
               TicksToUsec(SamplePts(sample)), sample.exposureUsec, sample.isoSpeed, sample.whiteBalance)
  }

  /** What the application receives for a sample that is not dropped: the
      image inside a capture when every step succeeds, a failure and no
      capture otherwise. */
  function SampleDelivery(image: ColorImage, made: bool, out: SampleOutcomes): (d: Delivery)
    ensures d.result == Succeeded <==> made && out.captureAllocOk && out.captureLockOk
    ensures d.image.Some? <==> d.result == Succeeded
    ensures d.image.Some? ==> d.image.value == image
  {
    if made && out.captureAllocOk && out.captureLockOk then Delivery(Succeeded, Some(image)) else Delivery(Failed, None)
  }

  /** sizeof(mf_buffer_wrapper_t): two pointers */
  const WrapperSize: nat := 16

  class MfCameraReader {
    var started: bool
    var flushing: bool
    /** m_pCallback and m_pCallbackContext, as opaque pointer values */
    var callback: Option<nat>
    var callbackContext: Option<nat>
    var widthPixels: nat
    var heightPixels: nat
    var imageFormat: int
    var useMfBuffer: bool
    var deliveries: seq<Delivery>
    var liveFrameContexts: nat
    const alloc: Allocator
    const images: ImageRefs

    ghost predicate Valid()
      reads this, alloc, images
    {
      alloc.Valid() && images.Valid()
    }

    /** The constructor: frames are wrapped in place unless
        K4A_MF_COPY_TO_NEW_BUFFER asks for copies. */
    constructor (env: Option<string>, alloc: Allocator, images: ImageRefs)
      requires alloc.Valid() && images.Valid()
      ensures Valid() && this.alloc == alloc && this.images == images
      ensures !started && !flushing && callback.None? && callbackContext.None?
      ensures useMfBuffer <==> !CopyToNewBuffer(env)
      ensures deliveries == [] && liveFrameContexts == 0
    {
      this.alloc := alloc;
      this.images := images;
      started, flushing := false, false;
      callback, callbackContext := None, None;
      widthPixels, heightPixels, imageFormat := 0, 0, FormatColorMjpg;
      useMfBuffer := !CopyToNewBuffer(env);
      deliveries, liveFrameContexts := [], 0;
    }

    /** Start: check the arguments and the format; when not started, find
        the native type for the requested mode, configure the reader, select
        the stream, record the stream parameters and the callback, and
        request the first sample.  A reader that is already started is left
        as it is and Start succeeds. */
    method Start(width: nat, height: nat, fps: nat, format: int, cb: Option<nat>, cbContext: Option<nat>,
                 types: seq<NativeType>, out: StartOutcomes)
      returns (result: K4aResult)
      modifies this`started, this`widthPixels, this`heightPixels, this`imageFormat, this`callback, this`callbackContext
      ensures cb.None? || cbContext.None? || StartSubtypes(format, width, height).None? ==>
                result == Failed && started == old(started)
      ensures Accepted(format, width, height, cb, cbContext) && old(started) ==> result == Succeeded
      ensures Accepted(format, width, height, cb, cbContext) && !old(started) ==>
                && (result == Succeeded <==> ModeFound(types, width, height, fps, format) && out.configureOk && out.selectOk && out.readOk)
                && (started <==> result == Succeeded)
      // the stream parameters and the callback are recorded once the stream is
      // selected, and are left alone otherwise
      ensures if Accepted(format, width, height, cb, cbContext) && !old(started) &&
                 ModeFound(types, width, height, fps, format) && out.configureOk && out.selectOk
              then widthPixels == width && heightPixels == height && imageFormat == format &&
                   callback == cb && callbackContext == cbContext
              else started == old(started) && widthPixels == old(widthPixels) && heightPixels == old(heightPixels) &&
                   imageFormat == old(imageFormat) && callback == old(callback) && callbackContext == old(callbackContext)
    {
      var early := ReturnValueIfArg(Failed, cb.None?);
      if early.Some? { return early.value; }
      early := ReturnValueIfArg(Failed, cbContext.None?);
      if early.Some? { return early.value; }
      var subtypes := StartSubtypes(format, width, height);
      if subtypes.None? {
        return Failed;
      }
      if started {
        // start request in started state
        return Succeeded;
      }
      var found, index := FindNativeType(types, width, height, fps, subtypes.value.0);
      if !found {
        return Failed;
      }
      if !out.configureOk {
        return Failed;
      }
      if !out.selectOk {
        return Failed;
      }
      widthPixels, heightPixels, imageFormat := width, height, format;
      callback, callbackContext := cb, cbContext;
      if out.readOk {
        started := true;
        result := Succeeded;
      } else {
        result := Failed;
      }
    }

    /** Stop: a started reader stops handling samples and requests a flush;
        the flag that makes the handler ignore samples is set only when the
        flush request succeeds. */
    method Stop(flushOk: bool)
      modifies this`started, this`flushing
      ensures !started
      ensures flushing <==> old(flushing) || (old(started) && flushOk)
    {
      if started {
        started := false;
        if flushOk {
          flushing := true;
        }
      }
    }

    /** The frame context's time stamp, read by the metadata walk. */
    method FrameContextPts(sample: MfSample) returns (pts: nat)
      ensures pts == SamplePts(sample)
    {
      pts := 0;
      if sample.rawMetadata.Some? && |sample.rawMetadata.value| <= MaxLong {
        var md := ParseMetadata(sample.rawMetadata.value, false);
        pts := md.pts;
      }
    }

    /** CreateImageCopy: copy the frame into a new colour buffer and build an
        image on it; the buffer is released here only when its allocation
        failed.  The image owns `buffer` and shows `pixels`, the copy. */
    method CreateImageCopy(sample: MfSample, imageCreateOk: bool, mallocOk: bool)
      returns (made: bool, buffer: array?<bv8>, pixels: seq<bv8>)
      requires alloc.Valid()
      modifies alloc
      ensures alloc.Valid() && alloc.sessions == old(alloc.sessions)
      ensures made <==> |sample.data| != 0 && mallocOk && imageCreateOk
      ensures made ==> buffer != null && pixels == sample.data
      // a NULL buffer's release does nothing, so the count stays raised for
      // a failed malloc, and a buffer an image owns stays counted
      ensures alloc.counts == CountsAfterAlloc(old(alloc.counts), SourceColor, |sample.data|, true)
    {
      var context;
      buffer, context := alloc.Alloc(SourceColor, |sample.data|, Some(0), mallocOk);
      pixels := [];
      var result := ResultFromBool(buffer != null);
      if result == Succeeded {
        CopyToBuffer(buffer, sample.data);
        pixels := buffer[..];
        result := if imageCreateOk then Succeeded else Failed;
      } else {
        // cleanup if there was an error
        alloc.Free(buffer, context.value);
      }
      made := result == Succeeded;
    }

    /** CreateImage: wrap the Media Foundation buffer in an image; the
        wrapper is counted as a colour allocation and is what the image's
        release callback frees. */
    method CreateImage(imageCreateOk: bool) returns (made: bool, wrapper: array?<bv8>)
      requires alloc.Valid()
      modifies alloc
      ensures alloc.Valid() && alloc.sessions == old(alloc.sessions)
      ensures made <==> imageCreateOk
      ensures wrapper != null
      ensures alloc.counts == CountsAfterAlloc(old(alloc.counts), SourceColor, WrapperSize, true)
    {
      var context;
      wrapper, context := alloc.Alloc(SourceColor, WrapperSize, Some(0), true);
      made := imageCreateOk;
    }

    /** The first half of the sample handler: make the frame context, drop
        a sample without a time stamp, and make the image, wrapping the
        Media Foundation buffer or copying it. */
    method MakeImage(sample: MfSample, out: SampleOutcomes)
      returns (dropped: bool, made: bool, owned: array?<bv8>, pixels: seq<bv8>)
      requires alloc.Valid()
      modifies this`liveFrameContexts, alloc
      ensures alloc.Valid() && alloc.sessions == old(alloc.sessions)
      ensures dropped <==> Dropped(sample, out)
      ensures made <==> ImageMade(useMfBuffer, sample, out)
      // the image shows the sample's pixels and owns one allocation
      ensures made ==> owned != null && pixels == sample.data
      // a frame context survives the handler only when it was given to CreateImage
      ensures liveFrameContexts == old(liveFrameContexts) +
                (if out.frameContextOk && SamplePts(sample) != 0 && useMfBuffer then 1 else 0)
      ensures alloc.counts ==
                if !out.frameContextOk || SamplePts(sample) == 0 then old(alloc.counts)
                else if useMfBuffer then CountsAfterAlloc(old(alloc.counts), SourceColor, WrapperSize, true)
                else CountsAfterAlloc(old(alloc.counts), SourceColor, |sample.data|, true)
    {
      var result := ResultFromBool(out.frameContextOk);
      dropped, made, owned, pixels := false, false, null, [];
      var frameContextRefd := false;
      if result == Succeeded {
        var pts := FrameContextPts(sample);
        if pts == 0 {
          dropped := true;
          result := Failed;
        }
      }
      if result == Succeeded {
        if useMfBuffer {
          made, owned := CreateImage(out.imageCreateOk);
          pixels := sample.data;
          frameContextRefd := true;
        } else {
          made, owned, pixels := CreateImageCopy(sample, out.imageCreateOk, out.mallocOk);
        }
      }
      if frameContextRefd {
        liveFrameContexts := liveFrameContexts + 1;
      }
    }

    /** The second half of the sample handler: put the image in a capture,
        call the application once unless the sample was dropped, and drop
        the handler's own references.  No reference to the image is left,
        so its release callback runs: for a wrapped buffer it deletes the
        frame context and frees the wrapper, for a copy it frees the copy. */
    method Publish(image: ColorImage, dropped: bool, made: bool, out: SampleOutcomes, owned: array?<bv8>)
      requires images.Valid() && alloc.Valid() && out.newImage !in images.refs
      requires made && useMfBuffer ==> liveFrameContexts > 0
      modifies this`deliveries, this`liveFrameContexts, images, alloc
      ensures images.Valid() && images.refs == old(images.refs)
      ensures alloc.Valid() && alloc.sessions == old(alloc.sessions)
      ensures deliveries == old(deliveries) + (if dropped then [] else [SampleDelivery(image, made, out)])
      ensures liveFrameContexts == old(liveFrameContexts) - (if made && useMfBuffer then 1 else 0)
      ensures alloc.counts == if made then CountsAfterFree(old(alloc.counts), owned != null, SourceColor)
                              else old(alloc.counts)
    {
      NewImageDropped(images.refs, out.newImage);
      var result := if made then Succeeded else Failed;
      var handle: Option<ImageId> := None;
      if made {
        images.Create(out.newImage);
        handle := Some(out.newImage);
      }

      var capture: Capture? := null;
      if result == Succeeded {
        result, capture := CreateCapture(out.captureAllocOk, out.captureLockOk, images);
      }

      var delivered: Option<ColorImage> := None;
      if result == Succeeded {
        delivered := Some(image);
        capture.SetImage(ImageColor, handle, images);
      }

      if !dropped {
        deliveries := deliveries + [Delivery(result, delivered)];
      }

      if handle.Some? {
        images.DecRef(handle.value);
      }
      if capture != null {
        ghost var refsBefore := images.refs;
        capture.DecRef(images);
        ReleaseColorSlot(refsBefore, out.newImage);
      }
      assert images.refs == old(images.refs);
      if made {
        ReleaseImage(owned);
      }
    }

    /** The release callback of an image the handler made: FrameDestroyCallback
        deletes the frame context and frees the wrapper; allocator_free frees
        a copy. */
    method ReleaseImage(owned: array?<bv8>)
      requires alloc.Valid()
      requires useMfBuffer ==> liveFrameContexts > 0
      modifies this`liveFrameContexts, alloc
      ensures alloc.Valid() && alloc.sessions == old(alloc.sessions)
      ensures liveFrameContexts == old(liveFrameContexts) - (if useMfBuffer then 1 else 0)
      ensures alloc.counts == CountsAfterFree(old(alloc.counts), owned != null, SourceColor)
    {
      if useMfBuffer {
        liveFrameContexts := liveFrameContexts - 1;
      }
      alloc.Free(owned, SourceColor);
    }

    /** The sample handler for a sample that arrives while the reader is
        started, not flushing, and has a callback. */
    method HandleSample(sample: MfSample, out: SampleOutcomes)
      requires Valid() && out.newImage !in images.refs
      modifies this`deliveries, this`liveFrameContexts, alloc, images
      ensures Valid() && alloc.sessions == old(alloc.sessions)
      ensures images.refs == old(images.refs)
      ensures Dropped(sample, out) ==>
                deliveries == old(deliveries) && liveFrameContexts == old(liveFrameContexts) &&
                alloc.counts == old(alloc.counts)
      ensures !Dropped(sample, out) ==>
                deliveries == old(deliveries) +
                  [SampleDelivery(SampleImage(imageFormat, widthPixels, heightPixels, sample),
                                  ImageMade(useMfBuffer, sample, out), out)]
      // a frame context outlives the handler only when it went to an image
      // that was never made; a delivered image is destroyed with it
      ensures liveFrameContexts == old(liveFrameContexts) + FrameContextsLeft(useMfBuffer, sample, out)
      // the allocation an image owns is given back when the image dies;
      // one that no image took stays counted
      ensures alloc.counts == CountsAfterSample(old(alloc.counts), useMfBuffer, sample, out)
    {
      var dropped, made, owned, pixels := MakeImage(sample, out);
      ghost var countsMade := alloc.counts;
      Publish(SampleImage(imageFormat, widthPixels, heightPixels, sample).(buffer := pixels), dropped, made, out, owned);
      if made {
        AllocFreeBalances(old(alloc.counts), SourceColor, if useMfBuffer then WrapperSize else |sample.data|);
      }
    }

    /** OnReadSample.  A sample with a good status is handled only while
        started and not flushing, and only when there is a sample and a
        callback; then the next sample is requested.  A bad status is passed
        to the callback, and any failure (the status, or the request for
        the next sample) is then reported to the callback again and stops
        the reader. */
    method OnReadSample(statusOk: bool, sample: Option<MfSample>, out: SampleOutcomes)
      requires Valid() && out.newImage !in images.refs
      modifies this, alloc, images
      ensures Valid() && alloc.sessions == old(alloc.sessions)
      // the handler hands back every image reference it takes
      ensures images.refs == old(images.refs)
      // the stream parameters, the callback and the copy choice never change
      ensures widthPixels == old(widthPixels) && heightPixels == old(heightPixels) && imageFormat == old(imageFormat)
      ensures callback == old(callback) && callbackContext == old(callbackContext) && useMfBuffer == old(useMfBuffer)
      // a sample that arrives while stopped or flushing changes nothing
      ensures statusOk && !(old(started) && !old(flushing)) ==>
                deliveries == old(deliveries) && started == old(started) && flushing == old(flushing) &&
                alloc.counts == old(alloc.counts) && liveFrameContexts == old(liveFrameContexts)
      // a sample handled while started: at most one delivery for the sample,
      // then one failure report and a stop if the next request fails
      ensures statusOk && old(started) && !old(flushing) ==>
                var handled := sample.Some? && callback.Some? && callbackContext.Some?;
                var forSample :=
                  if handled && !Dropped(sample.value, out) then
                    [SampleDelivery(SampleImage(imageFormat, widthPixels, heightPixels, sample.value),
                                    ImageMade(useMfBuffer, sample.value, out), out)]
                  else [];
                var stops := !out.readSampleOk && callback.Some? && callbackContext.Some?;
                && deliveries == old(deliveries) + forSample + (if stops then [Delivery(Failed, None)] else [])
                && (started <==> !stops)
                && (flushing <==> stops && out.flushOk)
                && (!handled ==> alloc.counts == old(alloc.counts) && liveFrameContexts == old(liveFrameContexts))
                && (handled ==>
                      alloc.counts == CountsAfterSample(old(alloc.counts), useMfBuffer, sample.value, out) &&
                      liveFrameContexts == old(liveFrameContexts) + FrameContextsLeft(useMfBuffer, sample.value, out))
      // a failed status reaches the callback, and a second time (followed by
      // a stop) when a callback and its context are set
      ensures !statusOk ==>
                var registered := callback.Some? && callbackContext.Some?;
                && deliveries == old(deliveries) + [Delivery(Failed, None)] + (if registered then [Delivery(Failed, None)] else [])
                && (registered ==> !started && (flushing <==> old(flushing) || (old(started) && out.flushOk)))
                && (!registered ==> started == old(started) && flushing == old(flushing))
                && alloc.counts == old(alloc.counts) && liveFrameContexts == old(liveFrameContexts)
    {
      var hrOk := true;
      if statusOk {
        if started && !flushing {
          if sample.Some? && callback.Some? && callbackContext.Some? {
            HandleSample(sample.value, out);
          }
          // request the next sample
          hrOk := out.readSampleOk;
        }
      } else {
        hrOk := false;
        // notify upper layers of the failed status
        deliveries := deliveries + [Delivery(Failed, None)];
      }

      if !hrOk && callback.Some? && callbackContext.Some? {
        deliveries := deliveries + [Delivery(Failed, None)];
        // stop and clean up
        Stop(out.flushOk);
      }
    }
  }
}
