/** The property table of the capture (setProperty/getProperty): most
    properties are VDO settings stored under a fixed key, the fourcc and the
    loan budget are also kept in fields, and the frame counter reads the held
    buffer. Values are whole numbers. */
module Properties {
  import opened Common
  import opened Vdo
  import opened Settings
  import opened Fourcc
  import opened Negotiation

  /** The properties the backend handles itself; `Unknown` is every other
      key, which setProperty accepts and ignores. */
  datatype Prop =
    | FrameWidth | FrameHeight | FramesPerSecond | Channel
    | CropX | CropY | CropWidth | CropHeight | SimdAlign
    | MaxBuffers | FourccProp | Format | PosFrames | FdCapacity
    | Unknown

  /** The VDO settings key a property lives under. */
  function Key(p: Prop): Option<string> {
    match p
    case FrameWidth => Some("width")
    case FrameHeight => Some("height")
    case FramesPerSecond => Some("framerate")
    case Channel => Some("channel")
    case CropX => Some("crop.x")
    case CropY => Some("crop.y")
    case CropWidth => Some("crop.width")
    case CropHeight => Some("crop.height")
    case SimdAlign => Some("simd.align")
    case MaxBuffers => Some("buffer.count")
    case _ => None
  }

  /** The default getProperty reports for a key nobody set: 1 for the SIMD
      alignment, the budget field for the buffer count, 0 otherwise. */
  function Default(c: Setup, p: Prop): u32 {
    match p
    case SimdAlign => 1
    case MaxBuffers => Wrap32(c.maxBuffers)
    case _ => 0
  }

  /** CV_MAKETYPE(CV_8U, channels): depth 0 plus (channels - 1) << 3. */
  function MatType(channels: nat): nat
    requires channels >= 1
  {
    (channels - 1) * 8
  }

  /** getProperty (lines 153-217) for the handled keys. It is -1 exactly for
      an unhandled key and for the properties of the held buffer while none
      is held. A stored number reads back as it is; a key nobody stored
      reads as 1 for the SIMD alignment, as the budget field for the buffer
      count, and as 0 otherwise. */
  function GetProperty(c: Setup, held: Option<Buf>, p: Prop): (r: int)
    ensures r >= -1
    ensures r == -1 <==> p == Unknown || ((p == PosFrames || p == FdCapacity) && held.None?)
    ensures p == Format ==> r == (if c.fourcc == RGB3 then 16 else 0)
    ensures p == FourccProp ==> r == c.fourcc
    ensures p == PosFrames && held.Some? ==> r == held.value.seqNbr
    ensures p == FdCapacity && held.Some? ==> r == held.value.capacity
    ensures Key(p).Some? && Key(p).value in c.props && c.props[Key(p).value].Num? ==>
              r == c.props[Key(p).value].n
    ensures Key(p).Some? && !(Key(p).value in c.props && c.props[Key(p).value].Num?) ==>
              r == (if p == SimdAlign then 1 else if p == MaxBuffers then Wrap32(c.maxBuffers) else 0)
  {
    match p
    case FourccProp => c.fourcc
    case Format => MatType(Channels(c.fourcc))
    case PosFrames => if held.Some? then held.value.seqNbr else -1
    case FdCapacity => if held.Some? then held.value.capacity else -1
    case Unknown => -1
    case _ => GetU32(c.props, Key(p).value, Default(c, p))
  }

  /** setProperty (lines 112-151) for a whole-number value, which the
      uint32_t conversion reduces modulo 2^32. Reading back a stored property
      gives that reduced value; only the budget property moves the budget,
      only the fourcc property the fourcc, and the negotiated stream is never
      touched. */
  function SetProperty(c: Setup, p: Prop, value: int): (r: Setup)
    ensures r.created == c.created && r.captureSize == c.captureSize
    ensures p != Format && p != PosFrames && p != FdCapacity && p != Unknown ==>
              GetProperty(r, None, p) == value % U32
    ensures r.maxBuffers == (if p == MaxBuffers then value % U32 else c.maxBuffers)
    ensures r.fourcc == (if p == FourccProp then value % U32 else c.fourcc)
  {
    var val32: u32 := value % U32;
    match p
    case FourccProp => c.(fourcc := val32)
    case MaxBuffers => c.(maxBuffers := val32, props := c.props["buffer.count" := Num(val32)])
    case Format => c
    case PosFrames => c
    case FdCapacity => c
    case Unknown => c
    case _ => c.(props := c.props[Key(p).value := Num(val32)])
  }

  /** Distinct properties live under distinct keys. */
  lemma KeyInjective(p: Prop, q: Prop)
    requires p != q && Key(p).Some? && Key(q).Some?
    ensures Key(p).value != Key(q).value
  {
  }

  /** Setting one property leaves every other property as it reads,
      except the image type, which follows the fourcc. */
  lemma SetLeavesOthers(c: Setup, p: Prop, value: int, q: Prop, held: Option<Buf>)
    requires q != p && !(p == FourccProp && q == Format)
    ensures GetProperty(SetProperty(c, p, value), held, q) == GetProperty(c, held, q)
  {
    var r := SetProperty(c, p, value);
    if p == Format || p == PosFrames || p == FdCapacity || p == Unknown {
      assert r == c;
    } else if p == FourccProp {
      assert r == c.(fourcc := value % U32);
      assert Key(q).Some? ==> Default(r, q) == Default(c, q);
      ReadsAlike(r, c, held, q);
    } else {
      var k := Key(p).value;
      assert r.props == c.props[k := Num(value % U32)];
      if Key(q).Some? {
        KeyInjective(p, q);
        assert Default(r, q) == Default(c, q);
      }
      ReadsAlike(r, c, held, q);
    }
  }

  /** Two setups read the same for `q` when they agree on what it reads. */
  lemma ReadsAlike(a: Setup, b: Setup, held: Option<Buf>, q: Prop)
    requires q == FourccProp || q == Format ==> a.fourcc == b.fourcc
    requires Key(q).Some? ==>
               var k := Key(q).value;
               && Default(a, q) == Default(b, q)
               && (k in a.props <==> k in b.props)
               && (k in a.props ==> a.props[k] == b.props[k])
    ensures GetProperty(a, held, q) == GetProperty(b, held, q)
  {
  }
}
