/** The parts of the VDO streaming library the capture backend leans on,
    reduced to values: a buffer is its data address plus the frame metadata
    the backend reads, and a stream is the queue of buffers it will hand out,
    the log of buffers handed back, and the buffers it refuses to take back. */
module Vdo {
  import opened Common

  /** A data pointer; 0 is the null pointer. */
  type Addr = u64

  const Null: Addr := 0

  /** Only YUV frames are converted; every other frame type is passed through. */
  datatype FrameType = Yuv | OtherType

  /** Who frees the buffer: the stream that produced it, or this process. */
  datatype Origin = Producer | Local

  datatype Buf = Buf(
    data: Addr,               // vdo_buffer_get_data
    seqNbr: u64,              // vdo_frame_get_sequence_nbr
    timestamp: u64,           // vdo_frame_get_timestamp
    customTimestamp: u64,     // vdo_frame_get_custom_timestamp, in microseconds
    frameType: FrameType,     // vdo_frame_get_frame_type
    capacity: u64,            // bytes behind `data`
    origin: Origin)

  /** What one vdo_stream_get_buffer call yields: a buffer with its frame, or
      nothing usable (a failed pull or a buffer without a frame). */
  datatype Pulled = Frameless | Framed(buf: Buf)

  datatype Stream = Stream(
    queue: seq<Pulled>,            // what the next pulls return, in order
    released: seq<Buf>,            // buffers handed back, oldest first
    refusals: map<Buf, string>)    // handing these back fails with this message

  /** The next pull, and the stream after it; an empty queue is the point at
      which the finite model stops where the device would block. */
  function Pull(st: Stream): (r: Option<(Pulled, Stream)>)
    ensures r.None? <==> |st.queue| == 0
    ensures r.Some? ==> [r.value.0] + r.value.1.queue == st.queue
    ensures r.Some? ==> r.value.1.released == st.released && r.value.1.refusals == st.refusals
  {
    if |st.queue| == 0 then None else Some((st.queue[0], st.(queue := st.queue[1..])))
  }

  /** vdo_stream_buffer_unref: hand a buffer back so the stream may reuse it. */
  function Release(st: Stream, b: Buf): (r: Outcome<Stream, ()>)
    ensures r.Done? <==> b !in st.refusals
    ensures r.Done? ==> r.state == st.(released := st.released + [b])
    ensures r.Failed? ==> r.state == st && r.error == StreamError(st.refusals[b])
  {
    if b in st.refusals then Failed(st, StreamError(st.refusals[b]))
    else Done(st.(released := st.released + [b]), ())
  }
}
