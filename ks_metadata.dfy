/** The walk over the chain of Windows KS camera metadata items that both
    colour readers run on each frame's side-channel buffer.

    Each item starts with a KSCAMERA_METADATA_ITEMHEADER, two little-endian
    ULONGs: MetadataId, then Size (the item's whole size, header included).
    A FrameAlignInfo item carries the frame's presentation time stamp; a
    CaptureStats item carries exposure, ISO speed and white balance, each
    present only when its flag bit is set.

    `Walk` is the walk as it must behave to never read outside the buffer:
    it stops on a zero Size, on an item whose Size overruns the bytes that
    remain, and when fewer bytes than a header remain; it reads an item's
    field only when the field lies inside both the item and the buffer.
    The code as written lacks the overrun guard and the field guard; the
    `AsWritten*` members below model those steps and exhibit the reads
    they make outside the buffer. */
module KsMetadata {
  import opened K4aTypes

  /** sizeof(KSCAMERA_METADATA_ITEMHEADER) */
  const HeaderSize: nat := 8

  /** MetadataId_CaptureStats (Windows ksmedia.h) */
  const MetadataIdCaptureStats: nat := 3
  /** MetadataId_FrameAlignInfo, the device's custom item */
  const MetadataIdFrameAlignInfo: nat := 0x8000_0001

  // Field offsets inside an item, header included.
  /** CUSTOM_METADATA_FrameAlignInfo.FramePTS, a ULONGLONG after Header, Flags and Reserved */
  const FramePtsOffset: nat := 16
  /** KSCAMERA_METADATA_CAPTURESTATS.Flags */
  const StatsFlagsOffset: nat := 8
  /** KSCAMERA_METADATA_CAPTURESTATS.ExposureTime, a ULONGLONG in 100 ns units */
  const ExposureTimeOffset: nat := 16
  /** KSCAMERA_METADATA_CAPTURESTATS.IsoSpeed */
  const IsoSpeedOffset: nat := 36
  /** KSCAMERA_METADATA_CAPTURESTATS.WhiteBalance */
  const WhiteBalanceOffset: nat := 48

  // KSCAMERA_METADATA_CAPTURESTATS_FLAG_* masks
  const FlagExposureTime: nat := 0x1
  const FlagIsoSpeed: nat := 0x4
  const FlagWhiteBalance: nat := 0x20

  /** What the walk extracts; a field no item supplies keeps its value from
      before the walk (zero in both readers). */
  datatype FrameMetadata = FrameMetadata(pts: nat, exposureUsec: nat, isoSpeed: nat, whiteBalance: nat)

  const NoMetadata := FrameMetadata(0, 0, 0, 0)

  /** The unsigned little-endian integer in buf[off .. off + n]. */
  function LeUint(buf: seq<byte>, off: nat, n: nat): nat
    requires off + n <= |buf|
    decreases n
  {
    if n == 0 then 0 else buf[off] as int + 256 * LeUint(buf, off + 1, n - 1)
  }

  /** `flags & mask != 0` for a single-bit mask. */
  predicate HasFlag(flags: nat, mask: nat)
    requires mask > 0
  {
    (flags / mask) % 2 == 1
  }

  function ItemId(buf: seq<byte>, off: nat): nat
    requires off + HeaderSize <= |buf|
  {
    LeUint(buf, off, 4)
  }

  function ItemSize(buf: seq<byte>, off: nat): nat
    requires off + HeaderSize <= |buf|
  {
    LeUint(buf, off + 4, 4)
  }

  /** Bytes of the item at `off` that may be read: its declared size, cut at
      the end of the buffer. */
  function Avail(buf: seq<byte>, off: nat): (n: nat)
    requires off + HeaderSize <= |buf|
    ensures off + n <= |buf| && n <= ItemSize(buf, off)
    ensures n == ItemSize(buf, off) || off + n == |buf|
  {
    var size := ItemSize(buf, off);
    if size < |buf| - off then size else |buf| - off
  }

  /** The frame PTS of a FrameAlignInfo item at `off`, if the item holds it. */
  function PtsField(buf: seq<byte>, off: nat): Option<nat>
    requires off + HeaderSize <= |buf|
  {
    if FramePtsOffset + 8 <= Avail(buf, off) then Some(LeUint(buf, off + FramePtsOffset, 8)) else None
  }

  /** The capture statistics of a CaptureStats item at `off`: each field the
      flags announce and the item holds overwrites the accumulated one. */
  function ApplyCaptureStats(buf: seq<byte>, off: nat, acc: FrameMetadata): FrameMetadata
    requires off + HeaderSize <= |buf|
  {
    var avail := Avail(buf, off);
    if StatsFlagsOffset + 4 <= avail then
      var flags := LeUint(buf, off + StatsFlagsOffset, 4);
      var e := if HasFlag(flags, FlagExposureTime) && ExposureTimeOffset + 8 <= avail
               then acc.(exposureUsec := LeUint(buf, off + ExposureTimeOffset, 8) / 10)  // 100 ns to us
               else acc;
      var i := if HasFlag(flags, FlagIsoSpeed) && IsoSpeedOffset + 4 <= avail
               then e.(isoSpeed := LeUint(buf, off + IsoSpeedOffset, 4))
               else e;
      if HasFlag(flags, FlagWhiteBalance) && WhiteBalanceOffset + 4 <= avail
      then i.(whiteBalance := LeUint(buf, off + WhiteBalanceOffset, 4))
      else i
    else acc
  }

  /** The `switch (pItem->MetadataId)` of the walk.  `captureStats` is true
      for the UVC reader, which reads CaptureStats items; the Media
      Foundation reader reads only FrameAlignInfo. */
  function ApplyItem(buf: seq<byte>, off: nat, captureStats: bool, acc: FrameMetadata): FrameMetadata
    requires off + HeaderSize <= |buf|
  {
    var id := ItemId(buf, off);
    if id == MetadataIdFrameAlignInfo then
      match PtsField(buf, off)
      case Some(pts) => acc.(pts := pts)
      case None => acc
    else if id == MetadataIdCaptureStats && captureStats then
      ApplyCaptureStats(buf, off, acc)
    else acc
  }

  /** Whether the walk moves on past the item at `off`: its size is not zero
      and it does not overrun the buffer. */
  predicate Advances(buf: seq<byte>, off: nat)
    requires off + HeaderSize <= |buf|
  {
    ItemSize(buf, off) != 0 && ItemSize(buf, off) <= |buf| - off
  }

  /** The metadata extracted from the items starting at `off`. */
  function Walk(buf: seq<byte>, off: nat, captureStats: bool, acc: FrameMetadata): FrameMetadata
    requires off <= |buf|
    decreases |buf| - off
  {
    if |buf| - off < HeaderSize then acc
    else
      var acc' := ApplyItem(buf, off, captureStats, acc);
      if Advances(buf, off) then Walk(buf, off + ItemSize(buf, off), captureStats, acc')
      else acc'
  }

  /** The offsets of the item headers the walk reads, in order. */
  function ItemOffsets(buf: seq<byte>, off: nat): seq<nat>
    requires off <= |buf|
    decreases |buf| - off
  {
    if |buf| - off < HeaderSize then []
    else if Advances(buf, off) then [off] + ItemOffsets(buf, off + ItemSize(buf, off))
    else [off]
  }

  /** The metadata walk of both readers' frame callbacks, on a cursor
      (`off`, `left`) over the buffer. */
  method ParseMetadata(buf: seq<byte>, captureStats: bool) returns (m: FrameMetadata)
    ensures m == Walk(buf, 0, captureStats, NoMetadata)
    ensures |buf| < HeaderSize ==> m == NoMetadata
  {
    m := NoMetadata;
    var off: nat := 0;
    var left: nat := |buf|;
    if left >= HeaderSize {
      while left > 0
        invariant off + left == |buf|
        invariant left >= HeaderSize
        invariant Walk(buf, off, captureStats, m) == Walk(buf, 0, captureStats, NoMetadata)
        decreases left
      {
        WalkStep(buf, off, captureStats, m);
        m := ApplyItem(buf, off, captureStats, m);
        var size := ItemSize(buf, off);
        if size == 0 {
          break;
        }
        if size > left {
          // the item overruns the buffer
          break;
        }
        left := left - size;
        if left < HeaderSize {
          assert Walk(buf, off + size, captureStats, m) == m;
          break;
        }
        off := off + size;
      }
    }
  }

  /** Every header the walk reads lies inside the buffer, and the walk only
      moves forward, so it never reads past the buffer and terminates. */
  lemma {:induction false} ItemOffsetsInBounds(buf: seq<byte>, off: nat)
    requires off <= |buf|
    ensures forall i :: 0 <= i < |ItemOffsets(buf, off)| ==>
              off <= ItemOffsets(buf, off)[i] && ItemOffsets(buf, off)[i] + HeaderSize <= |buf|
    ensures forall i, j :: 0 <= i < j < |ItemOffsets(buf, off)| ==>
              ItemOffsets(buf, off)[i] < ItemOffsets(buf, off)[j]
    decreases |buf| - off
  {
    if |buf| - off >= HeaderSize && Advances(buf, off) {
      ItemOffsetsInBounds(buf, off + ItemSize(buf, off));
    }
  }

  /** A buffer shorter than one header yields the metadata unchanged. */
  lemma ShortBufferYieldsDefault(buf: seq<byte>, captureStats: bool, acc: FrameMetadata)
    requires |buf| < HeaderSize
    ensures Walk(buf, 0, captureStats, acc) == acc
    ensures ItemOffsets(buf, 0) == []
  {
  }

  /** An item declaring size zero ends the walk, however many bytes follow. */
  lemma ZeroSizeStops(buf: seq<byte>, off: nat, captureStats: bool, acc: FrameMetadata)
    requires off + HeaderSize <= |buf| && ItemSize(buf, off) == 0
    ensures Walk(buf, off, captureStats, acc) == ApplyItem(buf, off, captureStats, acc)
    ensures ItemOffsets(buf, off) == [off]
  {
  }

  /** A CaptureStats item leaves a field alone when its flag bit is clear
      or the field lies outside the item, and never touches the PTS. */
  lemma AbsentStatsKeepPrior(buf: seq<byte>, off: nat, acc: FrameMetadata)
    requires off + HeaderSize <= |buf| && ItemId(buf, off) == MetadataIdCaptureStats
    requires StatsFlagsOffset + 4 <= Avail(buf, off)
    ensures var flags := LeUint(buf, off + StatsFlagsOffset, 4);
            var avail := Avail(buf, off);
            var r := ApplyItem(buf, off, true, acc);
            && r.pts == acc.pts
            && (!HasFlag(flags, FlagExposureTime) || avail < ExposureTimeOffset + 8 ==> r.exposureUsec == acc.exposureUsec)
            && (!HasFlag(flags, FlagIsoSpeed) || avail < IsoSpeedOffset + 4 ==> r.isoSpeed == acc.isoSpeed)
            && (!HasFlag(flags, FlagWhiteBalance) || avail < WhiteBalanceOffset + 4 ==> r.whiteBalance == acc.whiteBalance)
  {
  }

  /** Each field a CaptureStats item flags and holds is read, independently
      of the other two: exposure (converted from 100 ns units to
      microseconds), ISO speed, white balance. */
  lemma FlaggedStatsAreRead(buf: seq<byte>, off: nat, acc: FrameMetadata)
    requires off + HeaderSize <= |buf| && ItemId(buf, off) == MetadataIdCaptureStats
    requires StatsFlagsOffset + 4 <= Avail(buf, off)
    ensures var flags := LeUint(buf, off + StatsFlagsOffset, 4);
            var avail := Avail(buf, off);
            var r := ApplyItem(buf, off, true, acc);
            && (HasFlag(flags, FlagExposureTime) && ExposureTimeOffset + 8 <= avail ==>
                  r.exposureUsec == LeUint(buf, off + ExposureTimeOffset, 8) / 10)
            && (HasFlag(flags, FlagIsoSpeed) && IsoSpeedOffset + 4 <= avail ==>
                  r.isoSpeed == LeUint(buf, off + IsoSpeedOffset, 4))
            && (HasFlag(flags, FlagWhiteBalance) && WhiteBalanceOffset + 4 <= avail ==>
                  r.whiteBalance == LeUint(buf, off + WhiteBalanceOffset, 4))
  {
  }

  /** The item at `o` is a FrameAlignInfo item that holds a FramePTS. */
  predicate Supplies(buf: seq<byte>, o: nat)
  {
    o + HeaderSize <= |buf| && ItemId(buf, o) == MetadataIdFrameAlignInfo && PtsField(buf, o).Some?
  }

  /** The item at `o` is a FrameAlignInfo item whose FramePTS is `pts`. */
  predicate SuppliesPts(buf: seq<byte>, o: nat, pts: nat)
  {
    o + HeaderSize <= |buf| && ItemId(buf, o) == MetadataIdFrameAlignInfo && PtsField(buf, o) == Some(pts)
  }

  /** One item sets the PTS exactly when it is a FrameAlignInfo item that
      holds one, and then to that item's FramePTS. */
  lemma ApplyItemPts(buf: seq<byte>, off: nat, captureStats: bool, acc: FrameMetadata)
    requires off + HeaderSize <= |buf|
    ensures var r := ApplyItem(buf, off, captureStats, acc);
            r.pts == (if Supplies(buf, off) then PtsField(buf, off).value else acc.pts)
    ensures var r := ApplyItem(buf, off, captureStats, acc);
            r.pts == (if ItemPts(buf, off).Some? then ItemPts(buf, off).value else acc.pts)
  {
  }

  /** The FramePTS the item at `o` supplies: Some for a FrameAlignInfo
      item that holds one, None for any other item. */
  function ItemPts(buf: seq<byte>, o: nat): (p: Option<nat>)
    ensures p.Some? <==> Supplies(buf, o)
  {
    if o + HeaderSize <= |buf| && ItemId(buf, o) == MetadataIdFrameAlignInfo then PtsField(buf, o) else None
  }

  /** The PTS the items at offsets `os` supply, in order. */
  function PtsOf(buf: seq<byte>, os: seq<nat>): seq<Option<nat>>
  {
    if |os| == 0 then [] else [ItemPts(buf, os[0])] + PtsOf(buf, os[1..])
  }

  /** The PTS each item the walk visits supplies, in visiting order. */
  function SuppliedPts(buf: seq<byte>, off: nat): seq<Option<nat>>
    requires off <= |buf|
    decreases |buf| - off
  {
    if |buf| - off < HeaderSize then []
    else if Advances(buf, off) then [ItemPts(buf, off)] + SuppliedPts(buf, off + ItemSize(buf, off))
    else [ItemPts(buf, off)]
  }

  /** Starting from `prior`, each supplied PTS replaces the current one: the
      last supplied PTS, or `prior` when none is. */
  function LastSupplied(ps: seq<Option<nat>>, prior: nat): nat
  {
    if |ps| == 0 then prior else LastSupplied(ps[1..], if ps[0].Some? then ps[0].value else prior)
  }

  /** With nothing supplied, the PTS stays `prior`. */
  lemma {:induction false} LastSuppliedWithoutSupply(ps: seq<Option<nat>>, prior: nat)
    requires forall i :: 0 <= i < |ps| ==> ps[i].None?
    ensures LastSupplied(ps, prior) == prior
  {
    if |ps| > 0 {
      assert ps[0].None?;
      LastSuppliedWithoutSupply(ps[1..], prior);
    }
  }

  /** When `ps[k]` is supplied and nothing after it is, it is the result. */
  lemma {:induction false} LastSuppliedIsLast(ps: seq<Option<nat>>, prior: nat, k: nat)
    requires k < |ps| && ps[k].Some?
    requires forall i :: k < i < |ps| ==> ps[i].None?
    ensures LastSupplied(ps, prior) == ps[k].value
  {
    var tail := ps[1..];
    var prior' := if ps[0].Some? then ps[0].value else prior;
    if k == 0 {
      LastSuppliedWithoutSupply(tail, prior');
    } else {
      assert tail[k - 1] == ps[k];
      LastSuppliedIsLast(tail, prior', k - 1);
    }
  }

  /** The supplied PTS list follows the visited offsets one for one. */
  lemma SuppliedPtsFollowsOffsets(buf: seq<byte>, off: nat)
    requires off <= |buf|
    ensures |SuppliedPts(buf, off)| == |ItemOffsets(buf, off)|
    ensures forall i :: 0 <= i < |SuppliedPts(buf, off)| ==>
              SuppliedPts(buf, off)[i] == ItemPts(buf, ItemOffsets(buf, off)[i])
  {
    SuppliedPtsIsPtsOf(buf, off);
    PtsOfIndex(buf, ItemOffsets(buf, off));
  }

  lemma {:induction false} SuppliedPtsIsPtsOf(buf: seq<byte>, off: nat)
    requires off <= |buf|
    ensures SuppliedPts(buf, off) == PtsOf(buf, ItemOffsets(buf, off))
    decreases |buf| - off
  {
    if |buf| - off >= HeaderSize {
      OffsetsStep(buf, off);
      if Advances(buf, off) {
        SuppliedPtsIsPtsOf(buf, off + ItemSize(buf, off));
        PtsOfCons(buf, off, ItemOffsets(buf, off + ItemSize(buf, off)));
      } else {
        PtsOfCons(buf, off, []);
      }
    }
  }

  lemma PtsOfCons(buf: seq<byte>, o: nat, os: seq<nat>)
    ensures PtsOf(buf, [o] + os) == [ItemPts(buf, o)] + PtsOf(buf, os)
  {
    assert ([o] + os)[1..] == os;
  }

  lemma {:induction false} PtsOfIndex(buf: seq<byte>, os: seq<nat>)
    ensures |PtsOf(buf, os)| == |os|
    ensures forall i :: 0 <= i < |os| ==> PtsOf(buf, os)[i] == ItemPts(buf, os[i])
  {
    if |os| > 0 {
      PtsOfIndex(buf, os[1..]);
      var ps := PtsOf(buf, os);
      forall i | 0 < i < |os|
        ensures ps[i] == ItemPts(buf, os[i])
      {
        assert ps[i] == PtsOf(buf, os[1..])[i - 1] && os[i] == os[1..][i - 1];
      }
    }
  }

  /** When the item at visited offset `k` supplies a PTS and no later
      visited item does, the walk yields that item's FramePTS. */
  lemma LastFrameAlignInfoWins(buf: seq<byte>, off: nat, captureStats: bool, acc: FrameMetadata, k: nat)
    requires off <= |buf|
    requires k < |ItemOffsets(buf, off)| && Supplies(buf, ItemOffsets(buf, off)[k])
    requires forall i :: k < i < |ItemOffsets(buf, off)| ==> !Supplies(buf, ItemOffsets(buf, off)[i])
    ensures Walk(buf, off, captureStats, acc).pts == PtsField(buf, ItemOffsets(buf, off)[k]).value
  {
    var os := ItemOffsets(buf, off);
    var ps := SuppliedPts(buf, off);
    SuppliedPtsFollowsOffsets(buf, off);
    WalkPtsIsLastSupplied(buf, off, captureStats, acc);
    assert ps[k] == ItemPts(buf, os[k]);
    forall i | k < i < |ps|
      ensures ps[i].None?
    {
      assert ps[i] == ItemPts(buf, os[i]);
    }
    LastSuppliedIsLast(ps, acc.pts, k);
  }

  /** When no visited item supplies a PTS, the walk keeps the prior one. */
  lemma NoFrameAlignInfoKeepsPts(buf: seq<byte>, off: nat, captureStats: bool, acc: FrameMetadata)
    requires off <= |buf|
    requires forall i :: 0 <= i < |ItemOffsets(buf, off)| ==> !Supplies(buf, ItemOffsets(buf, off)[i])
    ensures Walk(buf, off, captureStats, acc).pts == acc.pts
  {
    var os := ItemOffsets(buf, off);
    var ps := SuppliedPts(buf, off);
    SuppliedPtsFollowsOffsets(buf, off);
    WalkPtsIsLastSupplied(buf, off, captureStats, acc);
    forall i | 0 <= i < |ps|
      ensures ps[i].None?
    {
      assert ps[i] == ItemPts(buf, os[i]);
    }
    LastSuppliedWithoutSupply(ps, acc.pts);
  }

  /** One step of the visited offsets and of the supplied PTS list. */
  lemma OffsetsStep(buf: seq<byte>, off: nat)
    requires off + HeaderSize <= |buf|
    ensures Advances(buf, off) ==>
              && ItemOffsets(buf, off) == [off] + ItemOffsets(buf, off + ItemSize(buf, off))
              && SuppliedPts(buf, off) == [ItemPts(buf, off)] + SuppliedPts(buf, off + ItemSize(buf, off))
    ensures !Advances(buf, off) ==> ItemOffsets(buf, off) == [off] && SuppliedPts(buf, off) == [ItemPts(buf, off)]
  {
  }

  /** One step of the walk: apply the item at `off`, then go on past it
      when it advances. */
  lemma WalkStep(buf: seq<byte>, off: nat, captureStats: bool, acc: FrameMetadata)
    requires off + HeaderSize <= |buf|
    ensures Advances(buf, off) ==>
              Walk(buf, off, captureStats, acc) ==
              Walk(buf, off + ItemSize(buf, off), captureStats, ApplyItem(buf, off, captureStats, acc))
    ensures !Advances(buf, off) ==> Walk(buf, off, captureStats, acc) == ApplyItem(buf, off, captureStats, acc)
  {
  }

  /** One step of the supplied PTS list and of the fold over it. */
  lemma SuppliedPtsStep(buf: seq<byte>, off: nat, prior: nat)
    requires off + HeaderSize <= |buf|
    ensures var p := ItemPts(buf, off);
            var prior' := if p.Some? then p.value else prior;
            LastSupplied(SuppliedPts(buf, off), prior) ==
              if Advances(buf, off) then LastSupplied(SuppliedPts(buf, off + ItemSize(buf, off)), prior') else prior'
  {
    var ps := SuppliedPts(buf, off);
    assert ps[0] == ItemPts(buf, off);
    if Advances(buf, off) {
      assert ps[1..] == SuppliedPts(buf, off + ItemSize(buf, off));
    } else {
      assert ps[1..] == [];
    }
  }

  /** The walk's PTS is the FramePTS of the last FrameAlignInfo item it
      visits that holds one, and the prior PTS when no visited item does. */
  lemma {:induction false} WalkPtsIsLastSupplied(buf: seq<byte>, off: nat, captureStats: bool, acc: FrameMetadata)
    requires off <= |buf|
    ensures Walk(buf, off, captureStats, acc).pts == LastSupplied(SuppliedPts(buf, off), acc.pts)
    decreases |buf| - off
  {
    if |buf| - off >= HeaderSize {
      var acc' := ApplyItem(buf, off, captureStats, acc);
      WalkStep(buf, off, captureStats, acc);
      SuppliedPtsStep(buf, off, acc.pts);
      ApplyItemPts(buf, off, captureStats, acc);
      if Advances(buf, off) {
        WalkPtsIsLastSupplied(buf, off + ItemSize(buf, off), captureStats, acc');
      }
    }
  }

  /** The PTS the walk yields is the prior one or the FramePTS of one of the
      FrameAlignInfo items it visited; nothing else sets it. */
  lemma {:induction false} PtsComesFromFrameAlignInfo(buf: seq<byte>, off: nat, captureStats: bool, acc: FrameMetadata)
    requires off <= |buf|
    ensures var r := Walk(buf, off, captureStats, acc);
            r.pts == acc.pts || exists o :: o in ItemOffsets(buf, off) && SuppliesPts(buf, o, r.pts)
    decreases |buf| - off
  {
    if |buf| - off >= HeaderSize {
      var acc' := ApplyItem(buf, off, captureStats, acc);
      ApplyItemPts(buf, off, captureStats, acc);
      WalkStep(buf, off, captureStats, acc);
      OffsetsStep(buf, off);
      if Advances(buf, off) {
        var next := off + ItemSize(buf, off);
        PtsComesFromFrameAlignInfo(buf, next, captureStats, acc');
        var r := Walk(buf, next, captureStats, acc');
        if r.pts != acc'.pts {
          var o :| o in ItemOffsets(buf, next) && SuppliesPts(buf, o, r.pts);
          assert o in ItemOffsets(buf, off);
        } else if r.pts != acc.pts {
          assert SuppliesPts(buf, off, r.pts);
          assert off in ItemOffsets(buf, off);
        }
      } else {
        if acc'.pts != acc.pts {
          assert SuppliesPts(buf, off, acc'.pts);
        }
      }
    }
  }

  /** Without CaptureStats parsing (the Media Foundation reader) the walk
      changes only the PTS. */
  lemma {:induction false} PtsOnlyWalk(buf: seq<byte>, off: nat, acc: FrameMetadata)
    requires off <= |buf|
    ensures var r := Walk(buf, off, false, acc);
            r.exposureUsec == acc.exposureUsec && r.isoSpeed == acc.isoSpeed && r.whiteBalance == acc.whiteBalance
    decreases |buf| - off
  {
    if |buf| - off >= HeaderSize && Advances(buf, off) {
      PtsOnlyWalk(buf, off + ItemSize(buf, off), ApplyItem(buf, off, false, acc));
    }
  }

  // ---------------------------------------------------------------------
  // The walk as written.

  /** One step of the UVC reader's loop as written: from the header at `off`
      with `left` bytes remaining (a size_t), the offset of the next header
      the loop reads, or None if the loop stops.  `bufferLeft -= Size` wraps
      around when Size exceeds the remaining bytes. */
  function AsWrittenUvcNext(buf: seq<byte>, off: nat, left: nat): Option<(nat, nat)>
    requires off + HeaderSize <= |buf|
  {
    var size := ItemSize(buf, off);
    if size == 0 then None
    else
      var left' := (left - size) % TwoTo64;
      if left' < HeaderSize || left' == 0 then None
      else Some((off + size, left'))
  }

  /** One step of the Media Foundation reader's loop as written: `bufferLeft`
      is a LONG, Size is converted to LONG before the subtraction, the
      `< sizeof` test converts bufferLeft to an unsigned 64-bit value, and the
      loop runs while bufferLeft is positive. */
  function AsWrittenMfNext(buf: seq<byte>, off: nat, left: int): Option<(nat, int)>
    requires off + HeaderSize <= |buf|
  {
    var size := ItemSize(buf, off);
    if size == 0 then None
    else
      var left' := ToInt32(left - ToInt32(size));
      if left' % TwoTo64 < HeaderSize || left' <= 0 then None
      else Some((off + size, left'))
  }

  /** The bytes (end offsets, exclusive) the code as written reads from the
      item at `off` beyond its header, whatever the item's size: FramePTS of
      a FrameAlignInfo item, Flags and the flagged fields of a CaptureStats
      item. */
  function AsWrittenFieldEnd(buf: seq<byte>, off: nat): nat
    requires off + HeaderSize <= |buf|
  {
    var id := ItemId(buf, off);
    if id == MetadataIdFrameAlignInfo then off + FramePtsOffset + 8
    else if id == MetadataIdCaptureStats then off + StatsFlagsOffset + 4
    else off + HeaderSize
  }

  /** One 8-byte item {MetadataId = 0, Size = 16}. */
  const WrapExample: seq<byte> := [0, 0, 0, 0, 16, 0, 0, 0]

  /** With the UVC loop as written, an item whose Size exceeds the bytes left
      wraps `bufferLeft` to 2^64 - 8, and the next header is read at offset
      16 of an 8-byte buffer. */
  lemma AsWrittenUvcWalkReadsPastBuffer()
    ensures AsWrittenUvcNext(WrapExample, 0, |WrapExample|) == Some((16, TwoTo64 - 8))
    ensures 16 + HeaderSize > |WrapExample|
    ensures ItemOffsets(WrapExample, 0) == [0]
  {
    assert ItemSize(WrapExample, 0) == 16;
  }

  /** One 16-byte item {MetadataId = 0, Size = 0xFFFFFFF8}. */
  const SignedExample: seq<byte> := [0, 0, 0, 0, 0xF8, 0xFF, 0xFF, 0xFF, 0, 0, 0, 0, 0, 0, 0, 0]

  /** With the Media Foundation loop as written, a Size of 2^31 or more turns
      negative as a LONG, bufferLeft grows from 16 to 24, and the next header
      is read about 4 GB past the buffer. */
  lemma AsWrittenMfWalkReadsPastBuffer()
    ensures AsWrittenMfNext(SignedExample, 0, |SignedExample|) == Some((0xFFFF_FFF8, 24))
    ensures ItemOffsets(SignedExample, 0) == [0]
  {
    assert ItemSize(SignedExample, 0) == 0xFFFF_FFF8;
  }

  /** One 8-byte FrameAlignInfo header {MetadataId = 0x80000001, Size = 8}. */
  const ShortItemExample: seq<byte> := [1, 0, 0, 0x80, 8, 0, 0, 0]

  /** Both loops as written read FramePTS at bytes 16..24 of an 8-byte
      buffer; the guarded walk leaves the PTS at zero and the frame is
      dropped. */
  lemma AsWrittenFieldReadPastBuffer()
    ensures AsWrittenFieldEnd(ShortItemExample, 0) == 24 > |ShortItemExample|
    ensures Walk(ShortItemExample, 0, true, NoMetadata) == NoMetadata
  {
    assert ItemId(ShortItemExample, 0) == MetadataIdFrameAlignInfo;
    assert ItemSize(ShortItemExample, 0) == 8;
  }
}
