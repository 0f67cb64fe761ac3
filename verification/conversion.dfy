/** The NV12 to RGB3 conversion of a held YUV frame (convert_nv12_to_rgb3):
    a new buffer sized for three bytes per pixel is created, the frame's
    sequence number and timestamp are copied to it, the source goes back to
    the stream, and the new buffer becomes the held one. The pixel transform
    itself is not modelled. */
module Conversion {
  import opened Common
  import opened Vdo
  import opened Fourcc
  import opened Negotiation

  /** Conversion happens only for an RGB3 capture holding a YUV frame; any
      other frame is delivered as it is. */
  predicate Fires(fourcc: u32, held: Buf) {
    fourcc == RGB3 && held.frameType == Yuv
  }

  /** OpenCV's cvtColor (line 279) accepts a one-plane NV12 image only when
      it is not empty, its width is even and its height, luma plus chroma
      rows, is a multiple of three; otherwise it throws. */
  predicate CvtAccepts(capture: FrameSize) {
    capture.width > 0 && capture.height > 0
    && capture.width % 2 == 0 && capture.height % 3 == 0
  }

  /** The RGB image height for a capture height (line 248), in uint32
      arithmetic: the chroma plane, half the luma height, is dropped. */
  function ConvertedHeight(captureHeight: u32): u32 {
    Wrap32(2 * captureHeight) / 3
  }

  /** `(size + pagesize) & ~(pagesize - 1)` in size_t arithmetic (line 253). */
  function PageRound(size: u64, pageSize: u64): (r: u64)
  {
    BitAnd(Wrap64(size + pageSize), BitNot64(Wrap64(pageSize - 1)))
  }

  /** The bytes of an RGB3 image (line 251): three per pixel, in the uint32
      arithmetic of `3u * width * height`, then rounded by PageRound. */
  function BufferSize(width: u32, height: u32, pageSize: u64): u64 {
    PageRound(Wrap32(Wrap32(3 * width) * height), pageSize)
  }

  /** For a power-of-two page size the rounding lands on a page boundary,
      strictly above the size and at most one page above it. */
  lemma PageRoundBounds(size: u64, k: nat)
    requires k < 64 && size + Pow2(k) < U64
    ensures PageRound(size, Pow2(k)) % Pow2(k) == 0
    ensures size < PageRound(size, Pow2(k)) <= size + Pow2(k)
  {
    MaskLowBits(size + Pow2(k), k);
    PageRoundBetween(size, Pow2(k));
  }

  /** `x & ~(2^k - 1)` on 64 bits clears the low `k` bits of `x`. */
  lemma MaskLowBits(x: nat, k: nat)
    requires k < 64 && x < U64
    ensures Pow2(k) < U64
    ensures BitAnd(x, U64 - Pow2(k)) == x - x % Pow2(k)
  {
    Pow2Of64();
    Pow2Monotone(k + 1, 64);
    ClearLowBits(x, k, 64);
  }

  /** Whenever the mask clears the remainder by `p`, the rounding is the
      next multiple of `p` strictly above the size. */
  lemma PageRoundBetween(size: u64, p: nat)
    requires 1 <= p && size + p < U64
    requires BitAnd(size + p, U64 - p) == (size + p) - (size + p) % p
    ensures PageRound(size, p) % p == 0
    ensures size < PageRound(size, p) <= size + p
  {
    PageRoundIsMask(size, p);
    RoundDown(size + p, p, PageRound(size, p));
  }

  /** Without wrap-around the rounding is `(size + p) & (2^64 - p)`. */
  lemma PageRoundIsMask(size: u64, p: u64)
    requires 1 <= p && size + p < U64
    ensures PageRound(size, p) == BitAnd(size + p, U64 - p)
  {
    assert Wrap64(size + p) == size + p;
    assert Wrap64(p - 1) == p - 1;
  }

  lemma RoundDown(x: nat, p: nat, y: nat)
    requires p >= 1 && y == x - x % p
    ensures y % p == 0
    ensures x - p < y <= x
  {
    assert x == p * (x / p) + x % p;
    DivModUnique(x - x % p, p, x / p, 0);
  }

  /** The height the caller sees after conversion is the answered height,
      rounded down to even: line 442 widens it by half for the chroma plane
      and line 248 takes two thirds of that. */
  lemma DeliveredHeight(fourcc: u32, height: u32)
    requires fourcc != Y800 && 3 * height < U32
    ensures ConvertedHeight(CaptureHeight(fourcc, height)) == height - height % 2
  {
    var m := height / 2;
    var e := height % 2;
    DivModUnique(3 * height, 2, 3 * m + e, e);
    var c := CaptureHeight(fourcc, height);
    assert c == 3 * m + e;
    DivModUnique(2 * c, 3, 2 * m, 2 * e);
  }

  /** The capture rows of a two-plane format are a multiple of three
      exactly when the answered height is even, so cvtColor refuses every
      odd answered height. */
  lemma CaptureRowsDivisible(fourcc: u32, height: u32)
    requires fourcc != Y800 && 3 * height < U32
    ensures CaptureHeight(fourcc, height) % 3 == 0 <==> height % 2 == 0
  {
    var m := height / 2;
    var e := height % 2;
    DivModUnique(3 * height, 2, 3 * m + e, e);
    var c := CaptureHeight(fourcc, height);
    assert c == 3 * m + e;
    DivModUnique(c, 3, m, e);
  }

  /** The buffer VDO creates around the new memory region: its data address
      (null when mapping failed) and the metadata the backend does not set. */
  datatype NewBuffer = NewBuffer(data: Addr, frameType: FrameType, customTimestamp: u64)

  /** What the system answers during a conversion: whether memfd_create and
      ftruncate succeed, the page size, and the new buffer. */
  datatype Alloc = Alloc(memfd: bool, pageSize: u64, truncated: bool, target: NewBuffer)

  datatype Converted = Converted(stream: Stream, held: Buf, currentSize: FrameSize)

  /** convert_nv12_to_rgb3 (lines 235-287). On success the held buffer is the
      new one, carrying the source's sequence number and timestamp, and the
      source has gone back to the stream. On failure the source is still held
      and was not handed back; the height is updated before the region is
      sized, so a failure after memfd_create leaves it converted. A size
      cvtColor refuses fails after the new buffer exists and before the
      source is handed back. */
  function Convert(st: Stream, nv12: Buf, capture: FrameSize, current: FrameSize, alloc: Alloc)
    : (r: Outcome<Converted, ()>)
    ensures r.Done? <==> nv12.data != Null && alloc.memfd && alloc.truncated
                         && alloc.target.data != Null && CvtAccepts(capture)
                         && nv12 !in st.refusals
    ensures r.Done? ==> && r.state.held.seqNbr == nv12.seqNbr
                        && r.state.held.timestamp == nv12.timestamp
                        && r.state.held.origin == Local
                        && r.state.held.data == alloc.target.data != Null
                        && r.state.held.capacity
                             == BufferSize(current.width, ConvertedHeight(capture.height), alloc.pageSize)
                        && r.state.stream == st.(released := st.released + [nv12])
    ensures r.Failed? ==> r.state.held == nv12 && r.state.stream == st
    ensures r.state.currentSize == (if nv12.data == Null || !alloc.memfd then current
                                    else current.(height := ConvertedHeight(capture.height)))
    ensures r.Failed? ==> r.error == (if nv12.data == Null then InvalidNv12Buffer
                                      else if !alloc.memfd || !alloc.truncated then OutOfMemory
                                      else if alloc.target.data == Null then InvalidRgb3Buffer
                                      else if !CvtAccepts(capture) then ConversionRefused
                                      else StreamError(st.refusals[nv12]))
  {
    if nv12.data == Null then Failed(Converted(st, nv12, current), InvalidNv12Buffer)
    else if !alloc.memfd then Failed(Converted(st, nv12, current), OutOfMemory)
    else
      var size := current.(height := ConvertedHeight(capture.height));
      var bytes := BufferSize(size.width, size.height, alloc.pageSize);
      if !alloc.truncated then Failed(Converted(st, nv12, size), OutOfMemory)
      else if alloc.target.data == Null then Failed(Converted(st, nv12, size), InvalidRgb3Buffer)
      else if !CvtAccepts(capture) then Failed(Converted(st, nv12, size), ConversionRefused)
      else
        var rgb3 := Buf(alloc.target.data, nv12.seqNbr, nv12.timestamp,
                        alloc.target.customTimestamp, alloc.target.frameType, bytes, Local);
        match Release(st, nv12)
        case Failed(_, e) => Failed(Converted(st, nv12, size), e)
        case Done(next, _) => Done(Converted(next, rgb3, size), ())
  }
}
