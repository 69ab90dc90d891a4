/** The SDK's allocation accounting and the capture object.

    The allocator keeps one counter of live allocations per allocation
    source and a count of open sessions, and reports leaks only when no
    session is open.  A capture holds a reference count and three image
    slots (colour, depth, IR; the IMU image shares the IR slot); releasing
    its last reference releases every image it holds.

    Image reference counting itself lives outside this model's core: the
    `ImageRefs` class stands for it, keeping only the count of every live
    image handle. */
module Allocator {
  import opened K4aTypes

  // allocation_source_t
  const SourceUser: int := 0
  const SourceDepth: int := 1
  const SourceColor: int := 2
  const SourceImu: int := 3
  const SourceUsbDepth: int := 4
  const SourceUsbImu: int := 5
  const SourceCount: nat := 6

  predicate ValidSource(source: int)
  {
    SourceUser <= source <= SourceUsbImu
  }

  /** Sum of a sequence of counters. */
  function Sum(s: seq<int>): int
  {
    if |s| == 0 then 0 else s[0] + Sum(s[1..])
  }

  /** Changing one counter changes the sum by the same amount. */
  lemma {:induction false} SumUpdate(s: seq<int>, i: nat, v: int)
    requires i < |s|
    ensures Sum(s[i := v]) == Sum(s) - s[i] + v
  {
    if i == 0 {
      assert s[i := v][1..] == s[1..];
    } else {
      assert s[i := v][1..] == s[1..][i - 1 := v];
      SumUpdate(s[1..], i - 1, v);
    }
  }

  /** Every counter zero means a zero sum. */
  lemma {:induction false} SumOfZeros(s: seq<int>)
    requires forall i :: 0 <= i < |s| ==> s[i] == 0
    ensures Sum(s) == 0
  {
    if |s| > 0 {
      SumOfZeros(s[1..]);
    }
  }

  /** Peeling one counter off the front of a suffix. */
  lemma SumFrom(s: seq<int>, i: nat)
    requires i < |s|
    ensures Sum(s[i..]) == s[i] + Sum(s[i + 1..])
  {
    assert s[i..][1..] == s[i + 1..];
  }

  lemma SumOfSix(s: seq<int>)
    requires |s| == 6
    ensures Sum(s) == s[0] + s[1] + s[2] + s[3] + s[4] + s[5]
  {
    assert s[0..] == s;
    SumFrom(s, 0);
    SumFrom(s, 1);
    SumFrom(s, 2);
    SumFrom(s, 3);
    SumFrom(s, 4);
    SumFrom(s, 5);
    assert s[6..] == [];
  }

  /** Whether allocator_alloc gets past its argument checks: a valid source,
      a non-zero size and a non-NULL context pointer. */
  predicate AllocAccepted(source: int, allocSize: nat, hasContext: bool)
  {
    ValidSource(source) && allocSize != 0 && hasContext
  }

  /** The counters after allocator_alloc: the source's counter goes up once
      the arguments are accepted, whether or not malloc then succeeds. */
  function CountsAfterAlloc(counts: seq<int>, source: int, allocSize: nat, hasContext: bool): (c: seq<int>)
    requires |counts| == SourceCount
    ensures |c| == SourceCount
    ensures !AllocAccepted(source, allocSize, hasContext) ==> c == counts
    ensures AllocAccepted(source, allocSize, hasContext) ==>
              c[source] == counts[source] + 1 &&
              forall i :: 0 <= i < SourceCount && i != source ==> c[i] == counts[i]
  {
    if AllocAccepted(source, allocSize, hasContext) then counts[source := counts[source] + 1] else counts
  }

  /** The counters after allocator_free: the counter of the source recorded
      in the context goes down, unless the source is invalid or the buffer
      is NULL. */
  function CountsAfterFree(counts: seq<int>, hasBuffer: bool, context: int): (c: seq<int>)
    requires |counts| == SourceCount
    ensures |c| == SourceCount
    ensures !(ValidSource(context) && hasBuffer) ==> c == counts
    ensures ValidSource(context) && hasBuffer ==>
              c[context] == counts[context] - 1 &&
              forall i :: 0 <= i < SourceCount && i != context ==> c[i] == counts[i]
  {
    if ValidSource(context) && hasBuffer then counts[context := counts[context] - 1] else counts
  }

  /** allocator_test_for_leaks: no leak is reported while a session is open;
      otherwise the number of live allocations. */
  function LeakCount(counts: seq<int>, sessions: int): int
  {
    if sessions != 0 then 0 else Sum(counts)
  }

  /** An accepted allocation freed with the context it recorded leaves every
      counter as it was. */
  lemma AllocFreeBalances(counts: seq<int>, source: int, allocSize: nat)
    requires |counts| == SourceCount && AllocAccepted(source, allocSize, true)
    ensures CountsAfterFree(CountsAfterAlloc(counts, source, allocSize, true), true, source) == counts
  {
    var c := CountsAfterFree(CountsAfterAlloc(counts, source, allocSize, true), true, source);
    assert forall i :: 0 <= i < SourceCount ==> c[i] == counts[i];
  }

  /** Each accepted allocation adds one to the reported leaks (with no
      session open), each release removes one. */
  lemma LeakCountTracksAllocations(counts: seq<int>, source: int, allocSize: nat)
    requires |counts| == SourceCount && AllocAccepted(source, allocSize, true)
    ensures LeakCount(CountsAfterAlloc(counts, source, allocSize, true), 0) == LeakCount(counts, 0) + 1
    ensures LeakCount(CountsAfterFree(counts, true, source), 0) == LeakCount(counts, 0) - 1
  {
    SumUpdate(counts, source, counts[source] + 1);
    SumUpdate(counts, source, counts[source] - 1);
  }

  /** An allocation whose malloc fails still raises the counter, and the
      caller's allocator_free(NULL, context) cannot lower it again: with no
      session open, a single failed allocation is reported as one leak. */
  lemma FailedMallocStaysCounted(source: int, allocSize: nat)
    requires AllocAccepted(source, allocSize, true)
    ensures var zeros := [0, 0, 0, 0, 0, 0];
            LeakCount(CountsAfterFree(CountsAfterAlloc(zeros, source, allocSize, true), false, source), 0) == 1
  {
    var zeros := [0, 0, 0, 0, 0, 0];
    SumOfZeros(zeros);
    SumUpdate(zeros, source, 1);
  }

  /** The allocator's process-wide counters. */
  class Allocator {
    /** g_allocated_image_count_*, indexed by allocation source */
    var counts: seq<int>
    /** g_allocator_sessions */
    var sessions: int

    ghost predicate Valid()
      reads this
    {
      |counts| == SourceCount
    }

    constructor ()
      ensures Valid() && counts == [0, 0, 0, 0, 0, 0] && sessions == 0
    {
      counts := [0, 0, 0, 0, 0, 0];
      sessions := 0;
    }

    /** allocator_initialize: one more session. */
    method Initialize()
      modifies this
      ensures sessions == old(sessions) + 1 && counts == old(counts)
    {
      sessions := sessions + 1;
    }

    /** allocator_deinitialize: one session fewer. */
    method Deinitialize()
      modifies this
      ensures sessions == old(sessions) - 1 && counts == old(counts)
    {
      sessions := sessions - 1;
    }

    /** allocator_alloc.  `context` is the caller's context slot (None for a
        NULL pointer, otherwise its current value); `contextAfter` is the slot
        after the call.  `mallocOk` is whether malloc succeeds. */
    method Alloc(source: int, allocSize: nat, context: Option<int>, mallocOk: bool)
      returns (buffer: array?<bv8>, contextAfter: Option<int>)
      requires Valid()
      modifies this
      ensures Valid() && sessions == old(sessions)
      ensures counts == CountsAfterAlloc(old(counts), source, allocSize, context.Some?)
      ensures !AllocAccepted(source, allocSize, context.Some?) ==> buffer == null && contextAfter == context
      ensures AllocAccepted(source, allocSize, context.Some?) ==>
                contextAfter == Some(source) && (buffer != null <==> mallocOk)
      ensures buffer != null ==> fresh(buffer) && buffer.Length == allocSize
    {
      contextAfter := context;
      if !ValidSource(source) || allocSize == 0 || context.None? {
        return null, contextAfter;
      }
      counts := counts[source := counts[source] + 1];
      contextAfter := Some(source);
      if mallocOk {
        buffer := new bv8[allocSize];
      } else {
        buffer := null;
      }
    }

    /** allocator_free: the context carries the allocation source. */
    method Free(buffer: array?<bv8>, context: int)
      requires Valid()
      modifies this
      ensures Valid() && sessions == old(sessions)
      ensures counts == CountsAfterFree(old(counts), buffer != null, context)
    {
      if !ValidSource(context) || buffer == null {
        return;
      }
      counts := counts[context := counts[context] - 1];
    }

    /** allocator_test_for_leaks */
    method TestForLeaks() returns (leaked: int)
      requires Valid()
      ensures leaked == LeakCount(counts, sessions)
      ensures sessions != 0 ==> leaked == 0
      ensures (forall i :: 0 <= i < SourceCount ==> counts[i] == 0) ==> leaked == 0
    {
      if sessions != 0 {
        return 0;
      }
      leaked := counts[SourceUser] + counts[SourceDepth] + counts[SourceColor] +
                counts[SourceImu] + counts[SourceUsbDepth] + counts[SourceUsbImu];
      SumOfSix(counts);
      if forall i :: 0 <= i < SourceCount ==> counts[i] == 0 {
        SumOfZeros(counts);
      }
    }
  }

  /** memcpy of `src` into the front of `dst`. */
  method CopyToBuffer(dst: array<bv8>, src: seq<bv8>)
    requires |src| <= dst.Length
    modifies dst
    ensures dst[..|src|] == src
    ensures dst[|src|..] == old(dst[|src|..])
  {
    var i := 0;
    while i < |src|
      invariant 0 <= i <= |src|
      invariant dst[..i] == src[..i]
      invariant dst[|src|..] == old(dst[|src|..])
    {
      dst[i] := src[i];
      i := i + 1;
    }
  }

  // ---------------------------------------------------------------------
  // Image references and the capture object.

  /** A k4a_image_t handle. */
  type ImageId = nat

  /** The reference count of an image handle; 0 once it is destroyed (or was
      never created). */
  function RefCount(refs: map<ImageId, int>, id: ImageId): int
  {
    if id in refs then refs[id] else 0
  }

  /** image_inc_ref on a live handle. */
  function IncRefMap(refs: map<ImageId, int>, id: ImageId): (r: map<ImageId, int>)
    ensures id in refs ==> RefCount(r, id) == RefCount(refs, id) + 1
    ensures id !in refs ==> r == refs
    ensures forall other :: other != id ==> RefCount(r, other) == RefCount(refs, other)
  {
    if id in refs then refs[id := refs[id] + 1] else refs
  }

  /** image_dec_ref: the last reference destroys the handle. */
  function DecRefMap(refs: map<ImageId, int>, id: ImageId): (r: map<ImageId, int>)
    requires forall i :: i in refs ==> refs[i] > 0
    ensures forall i :: i in r ==> r[i] > 0
    ensures RefCount(r, id) == if RefCount(refs, id) > 0 then RefCount(refs, id) - 1 else 0
    ensures forall other :: other != id ==> RefCount(r, other) == RefCount(refs, other)
  {
    if id in refs then (if refs[id] == 1 then refs - {id} else refs[id := refs[id] - 1]) else refs
  }

  /** Live image handles all have a positive count. */
  predicate PositiveCounts(refs: map<ImageId, int>)
  {
    forall i :: i in refs ==> refs[i] > 0
  }

  /** image_dec_ref on each non-NULL slot, in slot order. */
  function ReleaseSlots(refs: map<ImageId, int>, slots: seq<Option<ImageId>>): (r: map<ImageId, int>)
    requires PositiveCounts(refs)
    ensures PositiveCounts(r)
  {
    if |slots| == 0 then refs
    else
      var refs' := if slots[0].Some? then DecRefMap(refs, slots[0].value) else refs;
      ReleaseSlots(refs', slots[1..])
  }

  /** Number of slots holding image `id`. */
  function Occurrences(slots: seq<Option<ImageId>>, id: ImageId): nat
  {
    if |slots| == 0 then 0 else (if slots[0] == Some(id) then 1 else 0) + Occurrences(slots[1..], id)
  }

  /** Releasing the slots takes exactly one reference per slot holding an
      image (and none past zero). */
  lemma {:induction false} ReleaseSlotsCount(refs: map<ImageId, int>, slots: seq<Option<ImageId>>, id: ImageId)
    requires PositiveCounts(refs)
    ensures var n := RefCount(refs, id) - Occurrences(slots, id);
            RefCount(ReleaseSlots(refs, slots), id) == if n > 0 then n else 0
  {
    if |slots| > 0 {
      var refs' := if slots[0].Some? then DecRefMap(refs, slots[0].value) else refs;
      ReleaseSlotsCount(refs', slots[1..], id);
    }
  }

  /** Releasing slots that hold no image changes no count. */
  lemma {:induction false} ReleaseEmptySlots(refs: map<ImageId, int>, slots: seq<Option<ImageId>>)
    requires PositiveCounts(refs)
    requires forall i :: 0 <= i < |slots| ==> slots[i].None?
    ensures ReleaseSlots(refs, slots) == refs
  {
    if |slots| > 0 {
      ReleaseEmptySlots(refs, slots[1..]);
    }
  }

  /** The stand-in for image reference counting. */
  class ImageRefs {
    var refs: map<ImageId, int>

    ghost predicate Valid()
      reads this
    {
      PositiveCounts(refs)
    }

    constructor ()
      ensures Valid() && refs == map[]
    {
      refs := map[];
    }

    /** A new image handle with one reference. */
    method Create(id: ImageId)
      requires Valid() && id !in refs
      modifies this
      ensures Valid() && refs == old(refs)[id := 1]
    {
      refs := refs[id := 1];
    }

    method IncRef(id: ImageId)
      requires Valid()
      modifies this
      ensures Valid() && refs == IncRefMap(old(refs), id)
    {
      refs := IncRefMap(refs, id);
    }

    method DecRef(id: ImageId)
      requires Valid()
      modifies this
      ensures Valid() && refs == DecRefMap(old(refs), id)
    {
      refs := DecRefMap(refs, id);
    }
  }

  // image_type_index_t
  const ImageColor: nat := 0
  const ImageDepth: nat := 1
  const ImageIr: nat := 2
  const ImageTypeCount: nat := 3

  /** capture_context_t.  A destroyed capture's handle is no longer valid:
      every operation on it returns at the handle check. */
  class Capture {
    var refCount: int
    const slots: array<Option<ImageId>>
    var destroyed: bool

    /** A live capture holds at least one reference; the last release
        destroys it. */
    ghost predicate Valid()
      reads this
    {
      slots.Length == ImageTypeCount && refCount >= 0 && (destroyed <==> refCount == 0)
    }

    /** The state right after a successful capture_create. */
    constructor ()
      ensures Valid() && fresh(slots)
      ensures refCount == 1 && !destroyed
      ensures slots[..] == [None, None, None]
    {
      refCount := 1;
      slots := new Option<ImageId>[ImageTypeCount](_ => None);
      destroyed := false;
    }

    /** capture_inc_ref */
    method IncRef()
      requires Valid()
      modifies this
      ensures Valid()
      ensures destroyed == old(destroyed)
      ensures refCount == if destroyed then old(refCount) else old(refCount) + 1
    {
      if destroyed {
        return;
      }
      refCount := refCount + 1;
    }

    /** capture_dec_ref: the last reference releases every held image once
        and destroys the capture. */
    method DecRef(images: ImageRefs)
      requires Valid() && images.Valid()
      modifies this, images
      ensures Valid() && images.Valid()
      ensures slots[..] == old(slots[..])
      ensures old(destroyed) ==> destroyed && refCount == old(refCount) && images.refs == old(images.refs)
      ensures !old(destroyed) ==> refCount == old(refCount) - 1
      ensures !old(destroyed) ==> (destroyed <==> refCount == 0)
      ensures !old(destroyed) && refCount == 0 ==> images.refs == ReleaseSlots(old(images.refs), old(slots[..]))
      ensures !old(destroyed) && refCount != 0 ==> images.refs == old(images.refs)
    {
      if destroyed {
        return;
      }
      refCount := refCount - 1;
      if refCount == 0 {
        var x := 0;
        while x < ImageTypeCount
          invariant 0 <= x <= ImageTypeCount
          invariant images.Valid() && refCount == 0 && !destroyed
          invariant ReleaseSlots(old(images.refs), slots[..]) == ReleaseSlots(images.refs, slots[x..])
        {
          assert slots[x..][1..] == slots[x + 1..];
          if slots[x].Some? {
            images.DecRef(slots[x].value);
          }
          x := x + 1;
        }
        destroyed := true;
      }
    }

    /** capture_get_color_image, capture_get_depth_image and
        capture_get_ir_image: the slot's image, with a new reference on it
        if there is one. */
    method GetImage(slot: nat, images: ImageRefs) returns (image: Option<ImageId>)
      requires Valid() && images.Valid() && slot < ImageTypeCount
      modifies images
      ensures images.Valid()
      ensures destroyed ==> image.None? && images.refs == old(images.refs)
      ensures !destroyed ==> image == slots[slot]
      ensures !destroyed && image.Some? ==> images.refs == IncRefMap(old(images.refs), image.value)
      ensures image.None? ==> images.refs == old(images.refs)
    {
      if destroyed {
        return None;
      }
      image := slots[slot];
      if image.Some? {
        images.IncRef(image.value);
      }
    }

    /** capture_get_imu_image: the IMU image shares the IR slot. */
    method GetImuImage(images: ImageRefs) returns (image: Option<ImageId>)
      requires Valid() && images.Valid()
      modifies images
      ensures images.Valid()
      ensures !destroyed ==> image == slots[ImageIr]
      ensures destroyed ==> image.None?
      ensures !destroyed && image.Some? ==> images.refs == IncRefMap(old(images.refs), image.value)
      ensures image.None? ==> images.refs == old(images.refs)
    {
      image := GetImage(ImageIr, images);
    }

    /** capture_set_color_image, capture_set_depth_image and
        capture_set_ir_image: release the image held in the slot, store the
        new one and take a reference on it; the other slots keep theirs. */
    method SetImage(slot: nat, image: Option<ImageId>, images: ImageRefs)
      requires Valid() && images.Valid() && slot < ImageTypeCount
      modifies slots, images
      ensures images.Valid()
      ensures destroyed ==> slots[..] == old(slots[..]) && images.refs == old(images.refs)
      ensures !destroyed ==> slots[..] == old(slots[..])[slot := image]
      ensures !destroyed ==>
                var released := if old(slots[slot]).Some? then DecRefMap(old(images.refs), old(slots[slot]).value)
                                else old(images.refs);
                images.refs == if image.Some? then IncRefMap(released, image.value) else released
    {
      if destroyed {
        return;
      }
      if slots[slot].Some? {
        images.DecRef(slots[slot].value);
      }
      slots[slot] := image;
      if image.Some? {
        images.IncRef(image.value);
      }
    }

    /** capture_set_imu_image: stored in the IR slot. */
    method SetImuImage(image: Option<ImageId>, images: ImageRefs)
      requires Valid() && images.Valid()
      modifies slots, images
      ensures images.Valid()
      ensures destroyed ==> slots[..] == old(slots[..]) && images.refs == old(images.refs)
      ensures !destroyed ==> slots[..] == old(slots[..])[ImageIr := image]
      ensures !destroyed ==>
                var released := if old(slots[ImageIr]).Some? then DecRefMap(old(images.refs), old(slots[ImageIr]).value)
                                else old(images.refs);
                images.refs == if image.Some? then IncRefMap(released, image.value) else released
    {
      SetImage(ImageIr, image, images);
    }
  }

  /** capture_create as written.  `allocOk` is whether the capture context
      can be allocated, `lockOk` whether Lock_Init succeeds.  When the lock
      fails the capture is released, but only the function's own copy of
      the handle pointer is set to NULL: the caller's handle still names
      the destroyed capture. */
  method CreateCaptureAsWritten(allocOk: bool, lockOk: bool, images: ImageRefs)
    returns (result: K4aResult, handle: Capture?)
    requires images.Valid()
    modifies images
    ensures images.Valid() && images.refs == old(images.refs)
    ensures result == Succeeded <==> allocOk && lockOk
    ensures !allocOk ==> handle == null
    ensures allocOk && !lockOk ==> handle != null && handle.destroyed
  {
    if !allocOk {
      return Failed, null;
    }
    handle := new Capture();
    if lockOk {
      return Succeeded, handle;
    }
    ReleaseEmptySlots(images.refs, handle.slots[..]);
    handle.DecRef(images);
    result := Failed;
  }

  /** capture_create with the caller's handle cleared on failure. */
  method CreateCapture(allocOk: bool, lockOk: bool, images: ImageRefs)
    returns (result: K4aResult, handle: Capture?)
    requires images.Valid()
    modifies images
    ensures images.Valid() && images.refs == old(images.refs)
    ensures result == Succeeded <==> allocOk && lockOk
    ensures result == Failed <==> handle == null
    ensures handle != null ==> fresh(handle) && fresh(handle.slots) && handle.Valid() &&
                               handle.refCount == 1 && !handle.destroyed &&
                               handle.slots[..] == [None, None, None]
  {
    if !allocOk {
      return Failed, null;
    }
    handle := new Capture();
    if lockOk {
      return Succeeded, handle;
    }
    ReleaseEmptySlots(images.refs, handle.slots[..]);
    handle.DecRef(images);
    result, handle := Failed, null;
  }

  /** A capture holding only a colour image releases exactly that image. */
  lemma ReleaseColorSlot(refs: map<ImageId, int>, id: ImageId)
    requires PositiveCounts(refs)
    ensures ReleaseSlots(refs, [Some(id), None, None]) == DecRefMap(refs, id)
  {
    ReleaseEmptySlots(DecRefMap(refs, id), [None, None]);
    assert [Some(id), None, None][1..] == [None, None];
  }

  /** A new image shared with one capture: the extra reference and both
      releases bring the handles back to what they were. */
  lemma NewImageDropped(refs: map<ImageId, int>, id: ImageId)
    requires PositiveCounts(refs) && id !in refs
    ensures IncRefMap(refs[id := 1], id) == refs[id := 2]
    ensures DecRefMap(refs[id := 2], id) == refs[id := 1]
    ensures DecRefMap(refs[id := 1], id) == refs
  {
    assert refs[id := 1] - {id} == refs;
  }
}
