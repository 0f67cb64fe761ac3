/** Pixel formats as OpenCV four-character codes, and the VDO subformat each
    one is captured in. */
module Fourcc {
  import opened Common

  /** Four characters that fit in a byte each. */
  predicate IsCode(s: string) {
    |s| == 4 && forall i :: 0 <= i < 4 ==> s[i] as int < 256
  }

  /** CV_FOURCC_MACRO: the first character in the lowest byte. */
  function Code(s: string): (r: u32)
    requires IsCode(s)
  {
    s[0] as int + 0x100 * (s[1] as int) + 0x1_0000 * (s[2] as int) + 0x100_0000 * (s[3] as int)
  }

  const NV12: u32 := 0x3231_564E
  const NV21: u32 := 0x3132_564E
  const RGB3: u32 := 0x3342_4752
  const Y800: u32 := 0x3030_3859

  /** The four constants are the codes of their names. */
  lemma CodesOfNames()
    ensures IsCode("NV12") && Code("NV12") == NV12
    ensures IsCode("NV21") && Code("NV21") == NV21
    ensures IsCode("RGB3") && Code("RGB3") == RGB3
    ensures IsCode("Y800") && Code("Y800") == Y800
  {
  }

  /** The VDO subformat requested for a fourcc (lines 388-396): the
      same-named one for the three YUV formats, NV12 for RGB3 (which VDO
      cannot deliver and the backend converts to), none for anything else. */
  function Subformat(fourcc: u32): (r: Option<string>)
    ensures r.Some? ==> IsCode(r.value)
    ensures r.Some? ==> Code(r.value) == (if fourcc == RGB3 then NV12 else fourcc)
    ensures r.None? <==> fourcc != Y800 && fourcc != NV12 && fourcc != NV21 && fourcc != RGB3
  {
    if fourcc == Y800 then Some("Y800")
    else if fourcc == NV12 then Some("NV12")
    else if fourcc == NV21 then Some("NV21")
    else if fourcc == RGB3 then Some("NV12")
    else None
  }

  /** Bytes per pixel of the image handed to the caller. */
  function Channels(fourcc: u32): nat {
    if fourcc == RGB3 then 3 else 1
  }
}
