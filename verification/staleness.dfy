/** The freshness filter of retrieveFrame: pull buffers until one was
    captured no more than 66666 microseconds (two frames at 30 fps) before
    the grab, handing every older one straight back to the stream. */
module Staleness {
  import opened Common
  import opened Vdo

  /** The age budget of a frame, in microseconds. */
  const MaxAgeUs: nat := 66666

  const MaxTimeT: nat := 0x8000_0000_0000_0000

  /** A CLOCK_MONOTONIC reading: non-negative seconds and nanoseconds. */
  datatype Timespec = Timespec(sec: nat, nsec: nat)

  predicate ValidTimespec(ts: Timespec) {
    ts.sec < MaxTimeT && ts.nsec < 1_000_000_000
  }

  /** The grab instant in microseconds, computed in uint64 arithmetic: while
      it does not wrap it is the reading truncated to whole microseconds. */
  function GrabbedUs(ts: Timespec): (r: u64)
    ensures ValidTimespec(ts) && ts.sec * 1_000_000 + ts.nsec / 1000 < U64 ==>
              r * 1000 <= ts.sec * 1_000_000_000 + ts.nsec < r * 1000 + 1000
  {
    Wrap64(Wrap64(ts.sec * 1_000_000) + ts.nsec / 1000)
  }

  /** The drop test, `frame_us + 66666 < grabbed_us` in uint64 arithmetic:
      unless the sum wraps, a frame is stale exactly when it is more than
      the budget older than the grab. */
  predicate IsStale(frameUs: u64, grabbedUs: u64)
    ensures frameUs + MaxAgeUs < U64 ==>
              (IsStale(frameUs, grabbedUs) <==> grabbedUs - frameUs > MaxAgeUs)
  {
    Wrap64(frameUs + MaxAgeUs) < grabbedUs
  }

  /** How many buffers a run of the filter handed back to the stream. */
  function Dropped(st: Stream, after: Stream): int {
    |after.released| - |st.released|
  }

  /** The first `d` pulls of `st` were stale frames and `after` handed them
      back, in order, after whatever `st` had already handed back. */
  ghost predicate DroppedPrefix(st: Stream, g: u64, after: Stream, d: nat) {
    && d <= |st.queue|
    && |after.released| == |st.released| + d
    && after.released[..|st.released|] == st.released
    && forall i :: 0 <= i < d ==>
         && st.queue[i] == Framed(after.released[|st.released| + i])
         && IsStale(st.queue[i].buf.customTimestamp, g)
  }

  /** The pull loop of retrieveFrame (lines 333-354), over a finite stream:
      pull; a pull without a frame stops with "No Frame"; a stale frame is
      handed back (a refusal stops with the stream's message) and the loop
      goes on; the first fresh frame is kept. An empty queue stops with
      `Exhausted` where the device would block. */
  function Filter(st: Stream, grabbedUs: u64): (r: Outcome<Stream, Buf>)
    decreases |st.queue|
    ensures r.state.refusals == st.refusals
    ensures |st.released| <= |r.state.released| && r.state.released[..|st.released|] == st.released
  {
    match Pull(st)
    case None => Failed(st, Exhausted)
    case Some((Frameless, rest)) => Failed(rest, NoFrame)
    case Some((Framed(b), rest)) =>
      if IsStale(b.customTimestamp, grabbedUs) then
        match Release(rest, b)
        case Failed(_, e) => Failed(rest, e)
        case Done(next, _) =>
          var r := Filter(next, grabbedUs);
          assert r.state.released[..|st.released|] == r.state.released[..|next.released|][..|st.released|];
          r
      else
        Done(rest, b)
  }

  /** How a run ends at the pull `p`, the last one it made. */
  predicate StopsAt(p: Pulled, g: u64, refusals: map<Buf, string>, r: Outcome<Stream, Buf>) {
    match p
    case Frameless => r.Failed? && r.error == NoFrame
    case Framed(b) =>
      if IsStale(b.customTimestamp, g)
      then r.Failed? && b in refusals && r.error == StreamError(refusals[b])
      else r.Done? && r.value == b
  }

  /** What the pull loop does: every pull before the last was a stale frame
      handed back, in order; the last pull decides the outcome (the first
      fresh frame is kept, a frameless pull or a refused hand-back stops
      it); nothing else is handed back and nothing beyond the last pull is
      consumed. */
  lemma {:induction false} FilterRun(st: Stream, g: u64)
    decreases |st.queue|
    ensures var r := Filter(st, g);
            var d := Dropped(st, r.state);
            && d >= 0
            && DroppedPrefix(st, g, r.state, d)
            && (r.Failed? && r.error == Exhausted ==> d == |st.queue| && r.state.queue == [])
            && (r.Done? || r.error != Exhausted ==>
                  && d < |st.queue| && r.state.queue == st.queue[d + 1..]
                  && StopsAt(st.queue[d], g, st.refusals, r))
  {
    var r := Filter(st, g);
    if |st.queue| == 0 {
      assert r == Failed(st, Exhausted);
    } else {
      var rest := st.(queue := st.queue[1..]);
      match st.queue[0]
      case Frameless =>
        assert r == Failed(rest, NoFrame);
      case Framed(b) =>
        if !IsStale(b.customTimestamp, g) {
          assert r == Done(rest, b);
        } else if b in st.refusals {
          assert r == Failed(rest, StreamError(st.refusals[b]));
        } else {
          var next := rest.(released := st.released + [b]);
          assert r == Filter(next, g);
          FilterRun(next, g);
          var d := Dropped(next, r.state);
          DroppedPrefixShift(st, b, next, g, r.state, d);
          if r.Done? || r.error != Exhausted {
            assert st.queue[d + 1] == next.queue[d];
            assert r.state.queue == st.queue[d + 2..] by {
              assert next.queue[d + 1..] == st.queue[d + 2..];
            }
          }
        }
    }
  }

  /** A stale frame handed back before the rest of the run extends the
      dropped prefix of the run by one. */
  lemma DroppedPrefixShift(st: Stream, b: Buf, next: Stream, g: u64, after: Stream, d: nat)
    requires |st.queue| >= 1 && st.queue[0] == Framed(b) && IsStale(b.customTimestamp, g)
    requires next == st.(queue := st.queue[1..], released := st.released + [b])
    requires DroppedPrefix(next, g, after, d)
    ensures Dropped(st, after) == d + 1
    ensures DroppedPrefix(st, g, after, d + 1)
  {
    var base := |st.released|;
    assert after.released[..base + 1] == st.released + [b];
    assert after.released[..base] == st.released by {
      assert after.released[..base] == after.released[..base + 1][..base];
    }
    forall i | 0 <= i < d + 1
      ensures st.queue[i] == Framed(after.released[base + i])
    {
      if i == 0 {
        assert after.released[base] == after.released[..base + 1][base];
      } else {
        assert st.queue[i] == next.queue[i - 1];
      }
    }
  }

  /** No dropped frame is the one the filter keeps: every dropped frame was
      stale and the kept one is not. */
  lemma {:induction false} DroppedNeverHeld(st: Stream, g: u64)
    ensures var r := Filter(st, g);
            r.Done? ==> r.value !in r.state.released[|st.released|..]
  {
    var r := Filter(st, g);
    FilterRun(st, g);
    if r.Done? {
      var d := Dropped(st, r.state);
      var tail := r.state.released[|st.released|..];
      forall i | 0 <= i < |tail|
        ensures tail[i] != r.value
      {
        assert st.queue[i] == Framed(r.state.released[|st.released| + i]);
      }
    }
  }

  /** The boundary is inclusive: a frame exactly the budget older than the
      grab is kept, one a microsecond older is dropped. */
  lemma BudgetBoundary(grabbedUs: u64)
    requires MaxAgeUs < grabbedUs < U64 - 1
    ensures IsStale(grabbedUs - MaxAgeUs - 1, grabbedUs)
    ensures !IsStale(grabbedUs - MaxAgeUs, grabbedUs)
    ensures !IsStale(grabbedUs - MaxAgeUs + 1, grabbedUs)
  {
  }
}
