/** Opening the VDO stream on the first grab (`create`): the requested fourcc
    becomes a subformat request, large RGB3 captures are throttled to 15 fps,
    the stream's answer is merged back into the settings and checked, and the
    capture geometry is read off it. */
module Negotiation {
  import opened Common
  import opened Settings
  import opened Fourcc

  /** The configuration half of the capture session. */
  datatype Setup = Setup(
    props: Settings,        // vdo_prop: the request, then the stream's answer
    fourcc: u32,            // the format the caller asked for
    maxBuffers: u64,        // the loan budget
    created: bool,          // vdo_stream is set
    captureSize: FrameSize) // the negotiated geometry

  /** The pixel count above which RGB3 conversion is throttled. */
  const MaxFullRatePixels: nat := 1920 * 1080
  const DefaultFps: u32 := 30
  const ThrottledFps: u32 := 15

  /** The frame rate a request asks for; VDO's default is 30. */
  function Fps(props: Settings): u32 {
    GetU32(props, "framerate", DefaultFps)
  }

  /** The requested pixel count: width times height, defaults 0, computed in
      a size_t that two uint32 factors cannot overflow. */
  function Pixels(props: Settings): nat {
    GetU32(props, "width", 0) * GetU32(props, "height", 0)
  }

  /** The request written before the stream is opened (lines 388-407): the
      subformat for the fourcc and, for RGB3 above 1920x1080, a frame rate of
      at most 15. Nothing else of the request changes, and an unsupported
      fourcc has no request. */
  function Request(props: Settings, fourcc: u32): (r: Option<Settings>)
    ensures r.None? <==> Subformat(fourcc).None?
    ensures r.Some? ==> GetString(r.value, "subformat", "None") == Subformat(fourcc).value
    ensures r.Some? ==>
              Fps(r.value) == (if fourcc == RGB3 && Pixels(props) > MaxFullRatePixels && Fps(props) > ThrottledFps
                               then ThrottledFps else Fps(props))
    ensures r.Some? ==> Fps(r.value) <= Fps(props)
    ensures r.Some? && fourcc == RGB3 && Pixels(props) > MaxFullRatePixels ==> Fps(r.value) <= ThrottledFps
    ensures r.Some? ==> forall k :: k != "subformat" && k != "framerate" ==>
              (k in r.value <==> k in props) && (k in props ==> r.value[k] == props[k])
  {
    match Subformat(fourcc)
    case None => None
    case Some(sub) =>
      var req := props["subformat" := Text(sub)];
      if fourcc == RGB3 && Pixels(req) > MaxFullRatePixels && Fps(req) > ThrottledFps
      then Some(req["framerate" := Num(ThrottledFps)])
      else Some(req)
  }

  /** The checks of lines 429-435: a Y800, NV12 or NV21 capture fails unless
      the stream answered with the same subformat; RGB3 is not checked. */
  function CheckSubformat(fourcc: u32, answered: string): (r: Option<Error>)
    ensures r.Some? ==> Subformat(fourcc).Some? && r.value == FormatMismatch(Subformat(fourcc).value)
    ensures r.None? <==> fourcc == RGB3 || Subformat(fourcc).None? || answered == Subformat(fourcc).value
  {
    if fourcc == Y800 && answered != "Y800" then Some(FormatMismatch("Y800"))
    else if fourcc == NV12 && answered != "NV12" then Some(FormatMismatch("NV12"))
    else if fourcc == NV21 && answered != "NV21" then Some(FormatMismatch("NV21"))
    else None
  }

  /** The capture height for a requested image height: the YUV formats other
      than Y800 carry a half-height chroma plane below the luma plane, in
      uint32 arithmetic. */
  function CaptureHeight(fourcc: u32, height: u32): u32 {
    if fourcc != Y800 then Wrap32(3 * height) / 2 else height
  }

  /** The negotiated geometry (lines 437-442): width and height from the
      answer, defaults 0, and the row pitch, defaulting to the width. */
  function Geometry(props: Settings, fourcc: u32): (r: FrameSize)
    ensures r.width == GetU32(props, "width", 0)
    ensures "pitch" in props && props["pitch"].Num? ==> r.stride == props["pitch"].n
    ensures "pitch" !in props ==> r.stride == r.width
    ensures fourcc == Y800 ==> r.height == GetU32(props, "height", 0)
    ensures fourcc != Y800 && 3 * GetU32(props, "height", 0) < U32 ==>
              2 * r.height <= 3 * GetU32(props, "height", 0) < 2 * r.height + 2
  {
    var width := GetU32(props, "width", 0);
    FrameSize(width, CaptureHeight(fourcc, GetU32(props, "height", 0)), GetU32(props, "pitch", width))
  }

  /** What opening the stream yields: its error, or the settings and info
      maps it reports (either may be missing) and the outcome of starting it. */
  datatype StreamOpen =
    | OpenFailed(message: string)
    | Opened(settings: Option<Settings>, info: Option<Settings>, startError: Option<string>)

  /** The settings after a stream opened (lines 417-423): the request, then
      the stream's settings and then its info merged over it. */
  function Answer(c: Setup, open: StreamOpen): (r: Settings)
    requires open.Opened? && Subformat(c.fourcc).Some?
    ensures open.settings.None? && open.info.None? ==> r == Request(c.props, c.fourcc).value
  {
    Merge(Merge(Request(c.props, c.fourcc).value, open.settings), open.info)
  }

  /** The checks an opened stream must pass (lines 429-448): the subformat
      it answered, a stride not below the width, and a clean start. */
  predicate Accepted(c: Setup, open: StreamOpen)
    requires open.Opened? && Subformat(c.fourcc).Some?
  {
    var m := Answer(c, open);
    && CheckSubformat(c.fourcc, GetString(m, "subformat", "None")).None?
    && Geometry(m, c.fourcc).stride >= Geometry(m, c.fourcc).width
    && open.startError.None?
  }

  /** VdoCapture::create (lines 384-451). A failure keeps what was assigned
      before it: once the stream exists it stays, so a session whose answer
      failed a check is never negotiated again. */
  function Create(c: Setup, open: StreamOpen): (r: Outcome<Setup, ()>)
    ensures r.state.fourcc == c.fourcc
    ensures r.Failed? && r.error == UnsupportedFormat <==> Subformat(c.fourcc).None?
    ensures Subformat(c.fourcc).None? ==> r.state == c
    ensures r.state.created <==> c.created || (open.Opened? && Subformat(c.fourcc).Some?)
    ensures r.Done? ==> r.state.created && open.Opened? && open.startError.None?
    ensures r.Done? && c.fourcc != RGB3 ==>
              GetString(r.state.props, "subformat", "None") == Subformat(c.fourcc).value
    ensures r.Done? ==> r.state.captureSize == Geometry(r.state.props, c.fourcc)
    ensures r.Done? ==> r.state.captureSize.stride >= r.state.captureSize.width
    ensures r.Failed? && r.error == InvalidStride ==>
              r.state.captureSize.stride < r.state.captureSize.width
    ensures r.Failed? && r.error.FormatMismatch? ==>
              r.state.created && c.fourcc != RGB3
              && GetString(r.state.props, "subformat", "None") != Subformat(c.fourcc).value
    ensures open.Opened? && Subformat(c.fourcc).Some? ==>
              r.state.maxBuffers == GetU32(r.state.props, "buffer.count", Wrap32(c.maxBuffers))
    ensures open.Opened? && Subformat(c.fourcc).Some? ==>
              && r.state.props == Answer(c, open)
              && (r.Done? <==> Accepted(c, open))
    ensures open.Opened? && Subformat(c.fourcc).Some? &&
            CheckSubformat(c.fourcc, GetString(Answer(c, open), "subformat", "None")).Some? ==>
              && r.Failed?
              && r.error == CheckSubformat(c.fourcc, GetString(Answer(c, open), "subformat", "None")).value
              && r.state.captureSize == c.captureSize
    ensures open.Opened? && Subformat(c.fourcc).Some? && open.startError.Some? &&
            CheckSubformat(c.fourcc, GetString(Answer(c, open), "subformat", "None")).None? &&
            Geometry(Answer(c, open), c.fourcc).stride >= Geometry(Answer(c, open), c.fourcc).width ==>
              && r.Failed? && r.error == StreamError(open.startError.value)
              && r.state.captureSize == Geometry(Answer(c, open), c.fourcc)
    ensures open.OpenFailed? && Subformat(c.fourcc).Some? ==>
              && r.Failed? && r.error == StreamError(open.message)
              && r.state == c.(props := Request(c.props, c.fourcc).value)
  {
    match Request(c.props, c.fourcc)
    case None => Failed(c, UnsupportedFormat)
    case Some(req) =>
      match open
      case OpenFailed(msg) => Failed(c.(props := req), StreamError(msg))
      case Opened(settings, info, startError) =>
        var merged := Merge(Merge(req, settings), info);
        var c1 := c.(props := merged, created := true,
                     maxBuffers := GetU32(merged, "buffer.count", Wrap32(c.maxBuffers)));
        match CheckSubformat(c.fourcc, GetString(merged, "subformat", "None"))
        case Some(e) => Failed(c1, e)
        case None =>
          var c2 := c1.(captureSize := Geometry(merged, c.fourcc));
          if c2.captureSize.stride < c2.captureSize.width then Failed(c2, InvalidStride)
          else match startError
            case Some(msg) => Failed(c2, StreamError(msg))
            case None => Done(c2, ())
  }

  /** An answered pitch narrower than the answered width is refused
      (lines 438 and 444-445), once the subformat check has passed. */
  lemma NarrowPitchFails(c: Setup, open: StreamOpen)
    requires open.Opened? && Subformat(c.fourcc).Some?
    requires CheckSubformat(c.fourcc, GetString(Answer(c, open), "subformat", "None")).None?
    requires var m := Answer(c, open);
             "pitch" in m && m["pitch"].Num? && m["pitch"].n < GetU32(m, "width", 0)
    ensures Create(c, open).Failed? && Create(c, open).error == InvalidStride
  {
    var m := Answer(c, open);
    assert Geometry(m, c.fourcc).stride < Geometry(m, c.fourcc).width;
  }
}
