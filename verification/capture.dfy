/** The capture session (VdoCapture): grabFrame marks the grab instant and
    forgets the held frame, retrieveFrame takes back one loan, pulls the
    first fresh frame, converts it for RGB3 and lends it out as an image.
    Every operation that throws in the C++ yields `Failed` with the state as
    it stood at the throw. */
module Capture {
  import opened Common
  import opened Vdo
  import opened Settings
  import opened Fourcc
  import opened Negotiation
  import opened Staleness
  import opened Loans
  import opened Conversion
  import opened Properties

  datatype Session = Session(
    setup: Setup,
    stream: Stream,
    grabbedTs: Timespec,     // grabbed_ts
    currentSize: FrameSize,  // current_size: the geometry of the held frame
    held: Option<Buf>,       // vdo_buffer
    loans: Table,            // buffers
    freed: seq<Buf>)         // buffers this process dropped itself (RGB3)

  /** The table is well formed and within the budget, and a session without
      a stream holds nothing and lends nothing. */
  ghost predicate Valid(s: Session) {
    && WellFormed(s.loans)
    && |s.loans| <= Max(s.setup.maxBuffers, 1)
    && (!s.setup.created ==> s.held.None? && s.loans == map[])
  }

  /** createAxisVDOCapture (lines 453-460 and the field initialisers,
      lines 73-84): NV12, a budget of three, an empty settings map in which
      only the channel is set, no stream. */
  function New(channel: int, stream: Stream): (s: Session)
    ensures Valid(s)
    ensures !s.setup.created && s.held.None? && s.loans == map[]
    ensures s.setup.fourcc == NV12 && s.setup.maxBuffers == 3
    ensures GetProperty(s.setup, s.held, Channel) == channel % U32
    ensures GetProperty(s.setup, s.held, FrameWidth) == 0
    ensures GetProperty(s.setup, s.held, MaxBuffers) == 3
  {
    var empty := Setup(map[], NV12, 3, false, FrameSize(0, 0, 0));
    Session(SetProperty(empty, Channel, channel), stream, Timespec(0, 0),
            FrameSize(0, 0, 0), None, map[], [])
  }

  /** grabFrame (lines 219-233): negotiates the stream on first use; then
      forgets the held frame, restores the capture geometry and reads the
      clock (`None` is a failing clock). A failed negotiation leaves the held
      frame in place; a session that has a stream is never renegotiated. */
  function Grab(s: Session, open: StreamOpen, clock: Option<Timespec>): (r: Outcome<Session, ()>)
    ensures r.state.loans == s.loans && r.state.freed == s.freed && r.state.stream == s.stream
    ensures s.setup.created ==> r.state.setup == s.setup
    ensures !s.setup.created ==> r.state.setup == Create(s.setup, open).state
    ensures r.Done? <==> (s.setup.created || Create(s.setup, open).Done?) && clock.Some?
    ensures r.Done? ==> && r.state.held.None?
                        && r.state.currentSize == r.state.setup.captureSize
                        && r.state.grabbedTs == clock.value
    ensures r.Failed? && (s.setup.created || Create(s.setup, open).Done?) ==>
              && r.error == ClockFailed && r.state.held.None?
              && r.state.currentSize == r.state.setup.captureSize
    ensures !s.setup.created && Create(s.setup, open).Failed? ==>
              r.state.held == s.held && r.state.currentSize == s.currentSize
              && r.error == Create(s.setup, open).error
  {
    var c := if s.setup.created then Done(s.setup, ()) else Create(s.setup, open);
    var s1 := s.(setup := c.state);
    if c.Failed? then Failed(s1, c.error)
    else
      var s2 := s1.(held := None, currentSize := s1.setup.captureSize);
      match clock
      case None => Failed(s2, ClockFailed)
      case Some(ts) => Done(s2.(grabbedTs := ts), ())
  }

  /** The reclaim of lines 315-328 for a chosen key: the entry leaves the
      table; its buffer is disposed of (dropped for RGB3, handed back to the
      stream otherwise) unless it is `spare`, the buffer about to be
      delivered again. Nothing else of the session changes. */
  function TakeBack(s: Session, key: Option<Addr>, spare: Option<Buf>): (r: Outcome<Session, ()>)
    requires key.Some? ==> key.value in s.loans
    ensures r.state == s.(loans := r.state.loans, stream := r.state.stream, freed := r.state.freed)
    ensures r.state.loans.Keys == (if key.Some? then s.loans.Keys - {key.value} else s.loans.Keys)
    ensures forall a :: a in r.state.loans ==> r.state.loans[a] == s.loans[a]
    ensures r.state.stream.queue == s.stream.queue && r.state.stream.refusals == s.stream.refusals
    ensures key.None? || spare == Some(s.loans[key.value]) ==>
              r.Done? && r.state.stream == s.stream && r.state.freed == s.freed
    ensures key.Some? && spare != Some(s.loans[key.value]) ==>
              var b := s.loans[key.value];
              && (r.state.freed == s.freed || r.state.freed == s.freed + [b])
              && (r.state.stream.released == s.stream.released
                  || r.state.stream.released == s.stream.released + [b])
    ensures key.Some? && spare != Some(s.loans[key.value]) && s.setup.fourcc == RGB3 ==>
              r.Done? && r.state.freed == s.freed + [s.loans[key.value]] && r.state.stream == s.stream
    ensures key.Some? && spare != Some(s.loans[key.value]) && s.setup.fourcc != RGB3 ==>
              && r.state.freed == s.freed
              && (r.Done? <==> s.loans[key.value] !in s.stream.refusals)
              && (r.Done? ==> r.state.stream.released == s.stream.released + [s.loans[key.value]])
  {
    match key
    case None => Done(s, ())
    case Some(k) =>
      if spare == Some(s.loans[k]) then
        var rest := s.loans - {k};
        assert rest.Keys == s.loans.Keys - {k};
        Done(s.(loans := rest), ())
      else
        match GiveBack(Pool(s.loans, s.stream, s.freed), k, s.setup.fourcc == RGB3)
        case Failed(p, e) => Failed(s.(loans := p.loans, stream := p.stream, freed := p.freed), e)
        case Done(p, _) => Done(s.(loans := p.loans, stream := p.stream, freed := p.freed), ())
  }

  /** Lines 331-357: a held frame is kept; otherwise the freshness filter
      pulls from the stream (a session without a stream gets no frame).
      Whatever is held at the end must have data. */
  function Acquire(s: Session): (r: Outcome<Session, Buf>)
    ensures r.state == s.(stream := r.state.stream, held := r.state.held)
    ensures r.Done? ==> r.state.held == Some(r.value) && r.value.data != Null
    ensures s.held.Some? ==> r.state.stream == s.stream && r.state.held == s.held
    ensures s.held.Some? ==> (r.Failed? <==> s.held.value.data == Null)
    ensures s.held.Some? && r.Failed? ==> r.error == NoData
    ensures s.held.None? && !s.setup.created ==> r == Failed(s, NoFrame)
    ensures s.held.None? && s.setup.created ==>
              var f := Filter(s.stream, GrabbedUs(s.grabbedTs));
              && r.state.stream == f.state
              && (f.Done? ==> r.state.held == Some(f.value))
              && (f.Failed? ==> r.state.held.None? && r.error == f.error)
              && (r.Done? <==> f.Done? && f.value.data != Null)
              && (f.Done? && r.Failed? ==> r.error == NoData)
  {
    if s.held.Some? then
      if s.held.value.data == Null then Failed(s, NoData) else Done(s, s.held.value)
    else if !s.setup.created then Failed(s, NoFrame)
    else
      match Filter(s.stream, GrabbedUs(s.grabbedTs))
      case Failed(st, e) => Failed(s.(stream := st), e)
      case Done(st, b) =>
        var s1 := s.(stream := st, held := Some(b));
        if b.data == Null then Failed(s1, NoData) else Done(s1, b)
  }

  /** The image handed to the caller: a view of `rows` lines of `rowBytes`
      bytes at the loaned buffer's data address. */
  datatype Image = Image(data: Addr, width: u32, height: u32, channels: nat, rowBytes: nat)

  /** Lines 359-376: for RGB3 a held YUV frame is converted first; the held
      buffer is then lent out under its data address, as a 3-channel image
      with packed rows for RGB3 and a 1-channel image with the stride
      otherwise. A failed conversion lends nothing. */
  function Deliver(s: Session, alloc: Alloc): (r: Outcome<Session, Image>)
    requires s.held.Some? && s.held.value.data != Null
    ensures r.state == s.(stream := r.state.stream, held := r.state.held,
                          currentSize := r.state.currentSize, loans := r.state.loans)
    ensures r.state.held.Some?
    ensures r.Failed? ==> r.state.loans == s.loans
    ensures r.Done? ==> && r.state.held.value.data != Null
                        && r.state.loans == Publish(s.loans, r.state.held.value)
                        && r.value.data == r.state.held.value.data
                        && r.value.width == r.state.currentSize.width
                        && r.value.height == r.state.currentSize.height
                        && r.value.channels == Channels(s.setup.fourcc)
                        && r.value.rowBytes == (if s.setup.fourcc == RGB3 then 3 * r.state.currentSize.width
                                                else r.state.currentSize.stride)
    ensures !Fires(s.setup.fourcc, s.held.value) ==>
              r.Done? && r.state.held == s.held && r.state.stream == s.stream
              && r.state.currentSize == s.currentSize
    ensures Fires(s.setup.fourcc, s.held.value) ==>
              var c := Convert(s.stream, s.held.value, s.setup.captureSize, s.currentSize, alloc);
              && r.state.stream == c.state.stream && r.state.held == Some(c.state.held)
              && r.state.currentSize == c.state.currentSize
              && (r.Done? <==> c.Done?) && (r.Failed? ==> r.error == c.error)
  {
    var b := s.held.value;
    if Fires(s.setup.fourcc, b) then
      match Convert(s.stream, b, s.setup.captureSize, s.currentSize, alloc)
      case Failed(c, e) =>
        Failed(s.(stream := c.stream, held := Some(c.held), currentSize := c.currentSize), e)
      case Done(c, _) =>
        Lend(s.(stream := c.stream, held := Some(c.held), currentSize := c.currentSize), c.held)
    else Lend(s, b)
  }

  /** `buffers[data] = vdo_buffer` and the image around it. */
  function Lend(s: Session, b: Buf): (r: Outcome<Session, Image>)
  {
    var channels := Channels(s.setup.fourcc);
    var rowBytes := if s.setup.fourcc == RGB3 then 3 * s.currentSize.width else s.currentSize.stride;
    Done(s.(loans := Publish(s.loans, b)),
         Image(b.data, s.currentSize.width, s.currentSize.height, channels, rowBytes))
  }

  /** retrieveFrame (lines 289-377) with the reclaimed key chosen and the
      spared buffer given: reclaim, acquire, deliver, stopping at the first
      failure. */
  function RetrieveWith(s: Session, key: Option<Addr>, spare: Option<Buf>, alloc: Alloc)
    : (r: Outcome<Session, Image>)
    requires key.Some? ==> key.value in s.loans
    ensures r.state.setup == s.setup
    ensures var t := TakeBack(s, key, spare).state.loans;
            || (r.Failed? && r.state.loans == t)
            || (r.Done? && r.state.held.Some? && r.state.held.value.data != Null
                && r.state.loans == Publish(t, r.state.held.value))
    ensures s.held.None? && !s.setup.created && key.None? ==> r == Failed(s, NoFrame)
    ensures TakeBack(s, key, spare).Failed? ==>
              r == Failed(TakeBack(s, key, spare).state, TakeBack(s, key, spare).error)
    ensures TakeBack(s, key, spare).Done? && Acquire(TakeBack(s, key, spare).state).Failed? ==>
              var a := Acquire(TakeBack(s, key, spare).state);
              r == Failed(a.state, a.error)
    ensures TakeBack(s, key, spare).Done? && Acquire(TakeBack(s, key, spare).state).Done? ==>
              r == Deliver(Acquire(TakeBack(s, key, spare).state).state, alloc)
  {
    match TakeBack(s, key, spare)
    case Failed(s1, e) => Failed(s1, e)
    case Done(s1, _) =>
      match Acquire(s1)
      case Failed(s2, e) => Failed(s2, e)
      case Done(s2, _) => Deliver(s2, alloc)
  }

  /** retrieveFrame as written: the reclaim disposes of the entry it picks
      even when that entry is the held buffer, which is delivered again. */
  function RetrieveAsWritten(s: Session, dst: Addr, alloc: Alloc): (r: Outcome<Session, Image>)
    ensures r.state.setup == s.setup
    ensures r.Done? ==> && r.state.held.Some?
                        && r.value.data == r.state.held.value.data != Null
                        && r.value.data in r.state.loans
                        && r.state.loans[r.value.data] == r.state.held.value
                        && r.value.channels == Channels(s.setup.fourcc)
  {
    RetrieveWith(s, ReclaimKey(s.loans, dst, s.setup.maxBuffers), None, alloc)
  }

  /** retrieveFrame with the reclaim corrected: an entry that is the held
      buffer leaves the table without being disposed of, since it is lent
      out again. A retrieve after a grab (nothing held) is the one as
      written; a repeated retrieve never disposes of the buffer it
      re-delivers. */
  function Retrieve(s: Session, dst: Addr, alloc: Alloc): (r: Outcome<Session, Image>)
    ensures r.state.setup == s.setup
    ensures s.held.None? ==> r == RetrieveAsWritten(s, dst, alloc)
    ensures r.Done? ==> && r.state.held.Some?
                        && r.value.data == r.state.held.value.data != Null
                        && r.value.data in r.state.loans
                        && r.state.loans[r.value.data] == r.state.held.value
                        && r.value.channels == Channels(s.setup.fourcc)
    ensures |r.state.freed| >= |s.freed| && |r.state.stream.released| >= |s.stream.released|
    ensures s.held.Some? && !Fires(s.setup.fourcc, s.held.value) ==>
              && s.held.value !in r.state.freed[|s.freed|..]
              && s.held.value !in r.state.stream.released[|s.stream.released|..]
  {
    var key := ReclaimKey(s.loans, dst, s.setup.maxBuffers);
    var r := RetrieveWith(s, key, s.held, alloc);
    SparedStaysHeld(s, key, alloc);
    r
  }

  /** With a held buffer that needs no conversion, the only buffer a
      spared reclaim disposes of is some other one. */
  lemma SparedStaysHeld(s: Session, key: Option<Addr>, alloc: Alloc)
    requires key.Some? ==> key.value in s.loans
    ensures var r := RetrieveWith(s, key, s.held, alloc);
            && |r.state.freed| >= |s.freed| && |r.state.stream.released| >= |s.stream.released|
            && (s.held.Some? && !Fires(s.setup.fourcc, s.held.value) ==>
                  && s.held.value !in r.state.freed[|s.freed|..]
                  && s.held.value !in r.state.stream.released[|s.stream.released|..])
  {
    var t := TakeBack(s, key, s.held);
    var s1 := t.state;
    if t.Done? {
      var a := Acquire(s1);
      if a.Done? {
        var d := Deliver(a.state, alloc);
        assert d.state.freed == s1.freed;
        if s.held.Some? && !Fires(s.setup.fourcc, s.held.value) {
          assert a.state.stream == s1.stream;
        } else if Fires(s.setup.fourcc, a.state.held.value) {
          assert |d.state.stream.released| >= |s1.stream.released|;
        }
      }
    }
  }

  /** One retrieve takes at most one entry out and puts one in, so the table
      never ends larger than the larger of its old size and the budget
      (at least one, since a publish always happens). This holds for any
      choice of spared buffer, so for both versions of retrieveFrame. */
  lemma RetrieveBound(s: Session, dst: Addr, spare: Option<Buf>, alloc: Alloc)
    ensures var r := RetrieveWith(s, ReclaimKey(s.loans, dst, s.setup.maxBuffers), spare, alloc);
            |r.state.loans| <= Max(|s.loans|, Max(s.setup.maxBuffers, 1))
  {
    var key := ReclaimKey(s.loans, dst, s.setup.maxBuffers);
    var r := RetrieveWith(s, key, spare, alloc);
    var t1 := TakeBack(s, key, spare).state.loans;
    assert |t1| <= |s.loans| by {
      SubsetCard(t1.Keys, s.loans.Keys);
    }
    if r.Done? {
      ReclaimThenPublishBound(s.loans, dst, s.setup.maxBuffers, t1, r.state.held.value);
    }
  }

  lemma SubsetCard<T>(a: set<T>, b: set<T>)
    requires a <= b
    ensures |a| <= |b|
  {
    assert b == a + (b - a);
  }

  /** Both versions of retrieveFrame keep the session valid, whether they
      deliver or throw. */
  lemma RetrieveKeepsValid(s: Session, dst: Addr, spare: Option<Buf>, alloc: Alloc)
    requires Valid(s)
    ensures Valid(RetrieveWith(s, ReclaimKey(s.loans, dst, s.setup.maxBuffers), spare, alloc).state)
  {
    var key := ReclaimKey(s.loans, dst, s.setup.maxBuffers);
    var r := RetrieveWith(s, key, spare, alloc);
    RetrieveBound(s, dst, spare, alloc);
    var t1 := TakeBack(s, key, spare).state.loans;
    assert WellFormed(t1);
    if r.Done? {
      PublishKeepsWellFormed(t1, r.state.held.value);
    }
  }

  lemma PublishKeepsWellFormed(t: Table, b: Buf)
    requires WellFormed(t) && b.data != Null
    ensures WellFormed(Publish(t, b))
  {
  }

  /** Setting a property keeps the session valid unless it lowers the
      budget below the loans already out. */
  lemma SetKeepsValid(s: Session, p: Prop, value: int)
    requires Valid(s)
    requires p == MaxBuffers ==> |s.loans| <= Max(value % U32, 1)
    ensures Valid(s.(setup := SetProperty(s.setup, p, value)))
  {
  }

  /** grabFrame keeps the session valid; the first negotiation happens
      while nothing is on loan, so a budget the stream reports cannot be
      below the table. */
  lemma GrabKeepsValid(s: Session, open: StreamOpen, clock: Option<Timespec>)
    requires Valid(s)
    ensures Valid(Grab(s, open, clock).state)
  {
  }

  /** What a caller does with the capture; a call that throws is caught and
      the caller carries on with the state the throw left. */
  datatype Op =
    | GrabOp(open: StreamOpen, clock: Option<Timespec>)
    | RetrieveOp(dst: Addr, alloc: Alloc)
    | SetOp(prop: Prop, value: int)

  /** One call, with retrieveFrame as written or corrected. */
  function Step(s: Session, op: Op, corrected: bool): Session {
    match op
    case GrabOp(open, clock) => Grab(s, open, clock).state
    case RetrieveOp(dst, alloc) =>
      if corrected then Retrieve(s, dst, alloc).state else RetrieveAsWritten(s, dst, alloc).state
    case SetOp(p, v) => s.(setup := SetProperty(s.setup, p, v))
  }

  function Run(s: Session, ops: seq<Op>, corrected: bool): Session
    decreases |ops|
  {
    if |ops| == 0 then s else Run(Step(s, ops[0], corrected), ops[1..], corrected)
  }

  /** No call in the sequence lowers the budget. */
  predicate KeepsBudget(ops: seq<Op>) {
    forall i :: 0 <= i < |ops| ==> !(ops[i].SetOp? && ops[i].prop == MaxBuffers)
  }

  /** Any sequence of calls that leaves the budget alone keeps the session
      valid, with retrieveFrame as written and corrected alike: the table
      stays well formed and within the budget. */
  lemma {:induction false} RunKeepsValid(s: Session, ops: seq<Op>, corrected: bool)
    requires Valid(s) && KeepsBudget(ops)
    ensures Valid(Run(s, ops, corrected))
    decreases |ops|
  {
    if |ops| > 0 {
      match ops[0] {
        case GrabOp(open, clock) => GrabKeepsValid(s, open, clock);
        case RetrieveOp(dst, alloc) =>
          RetrieveKeepsValid(s, dst, if corrected then s.held else None, alloc);
        case SetOp(p, v) => SetKeepsValid(s, p, v);
      }
      assert KeepsBudget(ops[1..]) by {
        forall i | 0 <= i < |ops[1..]|
          ensures !(ops[1..][i].SetOp? && ops[1..][i].prop == MaxBuffers)
        {
          assert ops[1..][i] == ops[i + 1];
        }
      }
      RunKeepsValid(Step(s, ops[0], corrected), ops[1..], corrected);
    }
  }

  /** As written, a second retrieve without a grab, given back the image
      just lent out, disposes of the held buffer and lends it out again:
      for RGB3 the new image points into a buffer this process dropped in
      the same call; otherwise into one the stream may already be reusing. */
  lemma AsWrittenDisposesDelivered(s: Session, alloc: Alloc)
    requires s.held.Some? && s.held.value.data != Null && !Fires(s.setup.fourcc, s.held.value)
    requires s.held.value.data in s.loans && s.loans[s.held.value.data] == s.held.value
    requires s.setup.fourcc != RGB3 ==> s.held.value !in s.stream.refusals
    ensures var h := s.held.value;
            var r := RetrieveAsWritten(s, h.data, alloc);
            && r.Done? && r.value.data == h.data && r.state.loans[h.data] == h
            && (s.setup.fourcc == RGB3 ==> r.state.freed == s.freed + [h])
            && (s.setup.fourcc != RGB3 ==> r.state.stream.released == s.stream.released + [h])
  {
    var h := s.held.value;
    var key := ReclaimKey(s.loans, h.data, s.setup.maxBuffers);
    assert key == Some(h.data);
    var t := TakeBack(s, key, None);
    assert t.Done? && t.state.held == s.held;
    var a := Acquire(t.state);
    assert a.Done? && a.state.stream == t.state.stream;
  }

  /** The repeated retrieve from a fresh session: one NV12 frame is
      grabbed and retrieved, then retrieved again with the image just lent
      out. As written the stream gets the frame back while the caller is
      handed it again; corrected, it stays on loan and nothing goes back. */
  lemma RepeatedRetrieveWitness()
    ensures var frame := Buf(0x1000, 1, 0, 1_000_000, Yuv, 4096, Producer);
            var answer := map["subformat" := Text("NV12"), "width" := Num(64), "height" := Num(48)];
            var s0 := New(0, Stream([Framed(frame)], [], map[]));
            var g := Grab(s0, Opened(Some(answer), None, None), Some(Timespec(1, 0)));
            var alloc := Alloc(true, 4096, true, NewBuffer(0x2000, OtherType, 0));
            var first := Retrieve(g.state, Null, alloc);
            && g.Done? && first.Done? && first.value.data == 0x1000
            && RetrieveAsWritten(first.state, 0x1000, alloc).Done?
            && RetrieveAsWritten(first.state, 0x1000, alloc).state.stream.released == [frame]
            && RetrieveAsWritten(first.state, 0x1000, alloc).value.data == 0x1000
            && Retrieve(first.state, 0x1000, alloc).Done?
            && Retrieve(first.state, 0x1000, alloc).state.stream.released == []
            && Retrieve(first.state, 0x1000, alloc).value.data == 0x1000
  {
    var frame := Buf(0x1000, 1, 0, 1_000_000, Yuv, 4096, Producer);
    var answer := map["subformat" := Text("NV12"), "width" := Num(64), "height" := Num(48)];
    var s0 := New(0, Stream([Framed(frame)], [], map[]));
    Nv12Negotiation(s0.setup, answer);
    var g := Grab(s0, Opened(Some(answer), None, None), Some(Timespec(1, 0)));
    assert g.Done? && g.state.held.None? && g.state.loans == map[];
    var alloc := Alloc(true, 4096, true, NewBuffer(0x2000, OtherType, 0));
    FirstRetrieve(g.state, frame, alloc);
    var first := Retrieve(g.state, Null, alloc);
    AsWrittenDisposesDelivered(first.state, alloc);
    SecondRetrieve(first.state, frame, alloc);
  }

  /** The negotiation half of RepeatedRetrieveWitness. */
  lemma Nv12Negotiation(c: Setup, answer: Settings)
    requires c == Setup(map["channel" := Num(0)], NV12, 3, false, FrameSize(0, 0, 0))
    requires answer == map["subformat" := Text("NV12"), "width" := Num(64), "height" := Num(48)]
    ensures var r := Create(c, Opened(Some(answer), None, None));
            r.Done? && r.state.fourcc == NV12 && r.state.maxBuffers >= 1
  {
    var merged := map["channel" := Num(0), "subformat" := Text("NV12"),
                      "width" := Num(64), "height" := Num(48)];
    Nv12Answer(c, answer, merged);
    assert "pitch" !in merged && "buffer.count" !in merged;
    assert GetString(merged, "subformat", "None") == "NV12";
    OpenedCleanly(c, answer, merged, FrameSize(64, 72, 64));
  }

  /** The request of Nv12Negotiation and the settings after the answer. */
  lemma Nv12Answer(c: Setup, answer: Settings, merged: Settings)
    requires c == Setup(map["channel" := Num(0)], NV12, 3, false, FrameSize(0, 0, 0))
    requires answer == map["subformat" := Text("NV12"), "width" := Num(64), "height" := Num(48)]
    requires merged == map["channel" := Num(0), "subformat" := Text("NV12"),
                           "width" := Num(64), "height" := Num(48)]
    ensures Request(c.props, NV12) == Some(c.props["subformat" := Text("NV12")])
    ensures Merge(Merge(c.props["subformat" := Text("NV12")], Some(answer)), None) == merged
  {
    assert Subformat(NV12) == Some("NV12");
  }

  /** A stream that opens and starts, whose answer passes the checks,
      completes the negotiation with the merged settings and geometry. */
  lemma OpenedCleanly(c: Setup, answer: Settings, merged: Settings, size: FrameSize)
    requires !c.created && Request(c.props, c.fourcc).Some?
    requires Merge(Merge(Request(c.props, c.fourcc).value, Some(answer)), None) == merged
    requires CheckSubformat(c.fourcc, GetString(merged, "subformat", "None")).None?
    requires Geometry(merged, c.fourcc) == size && size.stride >= size.width
    ensures Create(c, Opened(Some(answer), None, None))
         == Done(c.(props := merged, created := true, captureSize := size,
                    maxBuffers := GetU32(merged, "buffer.count", Wrap32(c.maxBuffers))), ())
  {
  }

  /** The first retrieve of RepeatedRetrieveWitness lends the one frame. */
  lemma FirstRetrieve(s: Session, frame: Buf, alloc: Alloc)
    requires s.setup.fourcc == NV12 && s.setup.created && s.setup.maxBuffers >= 1
    requires s.held.None? && s.loans == map[] && s.grabbedTs == Timespec(1, 0)
    requires frame == Buf(0x1000, 1, 0, 1_000_000, Yuv, 4096, Producer)
    requires s.stream == Stream([Framed(frame)], [], map[])
    ensures var r := Retrieve(s, Null, alloc);
            && r.Done? && r.value.data == 0x1000
            && r.state.setup == s.setup && r.state.held == Some(frame)
            && r.state.loans == map[0x1000 := frame]
            && r.state.stream == Stream([], [], map[])
  {
    assert GrabbedUs(s.grabbedTs) == 1_000_000;
    assert !IsStale(frame.customTimestamp, 1_000_000);
    assert Filter(s.stream, 1_000_000) == Done(Stream([], [], map[]), frame);
    assert NV12 != RGB3;
  }

  /** The second retrieve of RepeatedRetrieveWitness: spared, the held
      frame stays on loan and nothing goes back to the stream. */
  lemma SecondRetrieve(s: Session, frame: Buf, alloc: Alloc)
    requires s.setup.fourcc == NV12 && s.setup.created && s.setup.maxBuffers >= 1
    requires s.held == Some(frame) && s.loans == map[0x1000 := frame]
    requires frame == Buf(0x1000, 1, 0, 1_000_000, Yuv, 4096, Producer)
    requires s.stream == Stream([], [], map[])
    ensures var r := Retrieve(s, 0x1000, alloc);
            && r.Done? && r.value.data == 0x1000 && r.state.stream.released == []
            && RetrieveAsWritten(s, 0x1000, alloc).state.stream.released == [frame]
  {
    assert NV12 != RGB3;
    var key := ReclaimKey(s.loans, 0x1000, s.setup.maxBuffers);
    assert key == Some(0x1000);
    var t := TakeBack(s, key, s.held);
    assert t.Done? && t.state.stream == s.stream && t.state.held == s.held;
    var a := Acquire(t.state);
    assert a.Done? && a.state.stream == s.stream && a.state.held == s.held;
    assert !Fires(NV12, frame);
    var d := Deliver(a.state, alloc);
    assert d.Done? && d.state.stream == s.stream;
    assert Retrieve(s, 0x1000, alloc) == d;
    AsWrittenDisposesDelivered(s, alloc);
  }

  /** The first frame of the queue not older than the budget, every frame
      before it being a stale frame. */
  ghost predicate FirstFresh(q: seq<Pulled>, g: u64, i: int) {
    && 0 <= i < |q| && q[i].Framed? && !IsStale(q[i].buf.customTimestamp, g)
    && forall j :: 0 <= j < i ==> q[j].Framed? && IsStale(q[j].buf.customTimestamp, g)
  }

  /** A retrieve after a grab delivers the first fresh frame the stream
      offered: as it is, or, when it was converted, a new buffer with its
      sequence number and timestamp, two thirds the capture height tall. */
  lemma DeliversFirstFresh(s: Session, dst: Addr, alloc: Alloc)
    requires s.held.None? && s.setup.created
    ensures var r := Retrieve(s, dst, alloc);
            r.Done? ==> exists i :: && FirstFresh(s.stream.queue, GrabbedUs(s.grabbedTs), i)
                                    && var src := s.stream.queue[i].buf;
                                       var out := r.state.held.value;
                                       if Fires(s.setup.fourcc, src) then
                                         && out.seqNbr == src.seqNbr && out.timestamp == src.timestamp
                                         && out.origin == Local
                                         && r.value.height == ConvertedHeight(s.setup.captureSize.height)
                                       else out == src && r.value.height == s.currentSize.height
  {
    var key := ReclaimKey(s.loans, dst, s.setup.maxBuffers);
    var r := Retrieve(s, dst, alloc);
    var t := TakeBack(s, key, None);
    if r.Done? {
      assert t.Done?;
      var a := Acquire(t.state);
      assert a.Done?;
      var i := AcquireFirstFresh(t.state);
      assert r == Deliver(a.state, alloc);
    }
  }

  /** With nothing held, a successful acquire holds the first fresh frame
      of the queue. */
  lemma AcquireFirstFresh(s: Session) returns (i: nat)
    requires s.held.None? && s.setup.created && Acquire(s).Done?
    ensures FirstFresh(s.stream.queue, GrabbedUs(s.grabbedTs), i)
    ensures Acquire(s).value == s.stream.queue[i].buf
  {
    var g := GrabbedUs(s.grabbedTs);
    var f := Filter(s.stream, g);
    FilterRun(s.stream, g);
    i := Dropped(s.stream, f.state);
  }

  /** A 1920x1080 RGB3 capture: the stream is asked for NV12 at 1080 lines,
      the capture geometry counts 1620 rows (luma plus chroma), and the
      image delivered is 1920x1080 with three channels and packed rows, at
      the full 30 frames per second, since 1920x1080 is not above the
      throttling threshold. */
  lemma Rgb3EndToEnd()
    ensures var frame := Buf(0x1000, 1, 0, 1_000_000, Yuv, 4096, Producer);
            var s0 := New(0, Stream([Framed(frame)], [], map[]));
            var c := SetProperty(SetProperty(SetProperty(s0.setup, FrameWidth, 1920),
                                             FrameHeight, 1080), FourccProp, RGB3);
            var answer := map["subformat" := Text("NV12"), "width" := Num(1920), "height" := Num(1080)];
            var g := Grab(s0.(setup := c), Opened(Some(answer), None, None), Some(Timespec(1, 0)));
            var alloc := Alloc(true, 4096, true, NewBuffer(0x2000, OtherType, 0));
            var r := Retrieve(g.state, Null, alloc);
            && g.Done? && g.state.setup.captureSize.height == 1620
            && Fps(g.state.setup.props) == 30
            && r.Done? && r.value == Image(0x2000, 1920, 1080, 3, 5760)
            && r.state.held.value.seqNbr == 1
            && r.state.stream.released == [frame]
  {
    var frame := Buf(0x1000, 1, 0, 1_000_000, Yuv, 4096, Producer);
    var s0 := New(0, Stream([Framed(frame)], [], map[]));
    var c := SetProperty(SetProperty(SetProperty(s0.setup, FrameWidth, 1920),
                                     FrameHeight, 1080), FourccProp, RGB3);
    var answer := map["subformat" := Text("NV12"), "width" := Num(1920), "height" := Num(1080)];
    var open := Opened(Some(answer), None, None);
    Rgb3Setup(s0.setup);
    Rgb3Negotiation(c, answer);
    var g := Grab(s0.(setup := c), open, Some(Timespec(1, 0)));
    assert g.Done? && g.state.held.None? && g.state.loans == map[];
    var alloc := Alloc(true, 4096, true, NewBuffer(0x2000, OtherType, 0));
    Rgb3Delivery(g.state, frame, alloc);
  }

  /** The configuration of Rgb3EndToEnd: 1920x1080 RGB3 on a new capture. */
  lemma Rgb3Setup(c0: Setup)
    requires c0 == Setup(map["channel" := Num(0)], NV12, 3, false, FrameSize(0, 0, 0))
    ensures var c := SetProperty(SetProperty(SetProperty(c0, FrameWidth, 1920),
                                             FrameHeight, 1080), FourccProp, RGB3);
            c == Setup(map["channel" := Num(0), "width" := Num(1920), "height" := Num(1080)],
                       RGB3, 3, false, FrameSize(0, 0, 0))
  {
  }

  /** The negotiation half of Rgb3EndToEnd. */
  lemma Rgb3Negotiation(c: Setup, answer: Settings)
    requires c == Setup(map["channel" := Num(0), "width" := Num(1920), "height" := Num(1080)],
                        RGB3, 3, false, FrameSize(0, 0, 0))
    requires answer == map["subformat" := Text("NV12"), "width" := Num(1920), "height" := Num(1080)]
    ensures var r := Create(c, Opened(Some(answer), None, None));
            && r.Done? && r.state.captureSize == FrameSize(1920, 1620, 1920)
            && Fps(r.state.props) == 30 && r.state.fourcc == RGB3
  {
    var merged := map["channel" := Num(0), "width" := Num(1920), "height" := Num(1080),
                      "subformat" := Text("NV12")];
    Rgb3Answer(c, answer, merged);
    assert "pitch" !in merged && "framerate" !in merged;
    assert Geometry(merged, RGB3) == FrameSize(1920, 1620, 1920);
    OpenedCleanly(c, answer, merged, FrameSize(1920, 1620, 1920));
  }

  /** The request of Rgb3Negotiation (1920x1080 is not above the threshold,
      so the frame rate is left alone) and the settings after the answer. */
  lemma Rgb3Answer(c: Setup, answer: Settings, merged: Settings)
    requires c == Setup(map["channel" := Num(0), "width" := Num(1920), "height" := Num(1080)],
                        RGB3, 3, false, FrameSize(0, 0, 0))
    requires answer == map["subformat" := Text("NV12"), "width" := Num(1920), "height" := Num(1080)]
    requires merged == map["channel" := Num(0), "width" := Num(1920), "height" := Num(1080),
                           "subformat" := Text("NV12")]
    ensures Request(c.props, RGB3) == Some(c.props["subformat" := Text("NV12")])
    ensures Merge(Merge(c.props["subformat" := Text("NV12")], Some(answer)), None) == merged
  {
    assert Subformat(RGB3) == Some("NV12");
    assert Pixels(c.props["subformat" := Text("NV12")]) == 1920 * 1080;
  }

  /** The retrieve half of Rgb3EndToEnd. */
  lemma Rgb3Delivery(s: Session, frame: Buf, alloc: Alloc)
    requires s.setup.fourcc == RGB3 && s.setup.created
    requires s.setup.captureSize == FrameSize(1920, 1620, 1920) && s.currentSize == s.setup.captureSize
    requires s.held.None? && s.loans == map[] && s.grabbedTs == Timespec(1, 0)
    requires frame == Buf(0x1000, 1, 0, 1_000_000, Yuv, 4096, Producer)
    requires s.stream == Stream([Framed(frame)], [], map[])
    requires alloc == Alloc(true, 4096, true, NewBuffer(0x2000, OtherType, 0))
    ensures var r := Retrieve(s, Null, alloc);
            && r.Done? && r.value == Image(0x2000, 1920, 1080, 3, 5760)
            && r.state.held.value.seqNbr == 1
            && r.state.stream.released == [frame]
  {
    assert GrabbedUs(s.grabbedTs) == 1_000_000;
    assert !IsStale(frame.customTimestamp, 1_000_000);
    assert Filter(s.stream, 1_000_000) == Done(Stream([], [], map[]), frame);
    assert ConvertedHeight(1620) == 1080;
  }

  /** A stream that answered with the wrong subformat is kept: later grabs
      never negotiate again, succeed whenever the clock does, and the
      mismatched settings stay. */
  lemma MismatchIsSticky(s: Session, open: StreamOpen, clock: Option<Timespec>,
                         open': StreamOpen, clock': Option<Timespec>)
    requires !s.setup.created
    requires Grab(s, open, clock).Failed? && Grab(s, open, clock).error.FormatMismatch?
    ensures var s1 := Grab(s, open, clock).state;
            && s1.setup.created
            && GetString(s1.setup.props, "subformat", "None") != Subformat(s.setup.fourcc).value
            && Grab(s1, open', clock').state.setup == s1.setup
            && (Grab(s1, open', clock').Done? <==> clock'.Some?)
  {
  }
}
