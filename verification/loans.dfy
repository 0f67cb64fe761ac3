/** The loan table of retrieveFrame: every image handed to the caller is
    backed by a VDO buffer, recorded under the image's data address until the
    caller hands the image back (by passing it in again) or the table is full
    and the oldest loan is taken back. */
module Loans {
  import opened Common
  import opened Vdo

  type Table = map<Addr, Buf>

  /** Every entry is filed under its own buffer's data address, never null. */
  ghost predicate WellFormed(t: Table) {
    forall a :: a in t ==> a != Null && t[a].data == a
  }

  /** `a` is the entry std::min_element picks when comparing sequence numbers
      with `<`: a smallest sequence number, and among equal ones the first in
      the map's ascending key order. */
  ghost predicate IsOldest(t: Table, a: Addr) {
    a in t && forall b :: b in t ==> Before(t, a, b)
  }

  /** Orders entries as the eviction does: by sequence number, then address. */
  predicate Before(t: Table, a: Addr, b: Addr)
    requires a in t && b in t
  {
    t[a].seqNbr < t[b].seqNbr || (t[a].seqNbr == t[b].seqNbr && a <= b)
  }

  lemma {:induction false} OldestAmong(t: Table, keys: set<Addr>) returns (m: Addr)
    requires keys != {} && keys <= t.Keys
    ensures m in keys && forall b :: b in keys ==> Before(t, m, b)
    decreases keys
  {
    var x :| x in keys;
    if keys == {x} {
      m := x;
    } else {
      var a := OldestAmong(t, keys - {x});
      m := if Before(t, x, a) then x else a;
      forall b | b in keys
        ensures Before(t, m, b)
      {
        if b != x {
          assert b in keys - {x};
        }
      }
    }
  }

  /** The entry the eviction of retrieveFrame (lines 303-313) takes back. */
  function Oldest(t: Table): (a: Addr)
    requires |t| > 0
    ensures IsOldest(t, a)
  {
    assert t.Keys != {} by {
      var k :| k in t;
    }
    assert exists a :: a in t && forall b :: b in t ==> Before(t, a, b) by {
      var m := OldestAmong(t, t.Keys);
      assert m in t;
    }
    var a :| a in t && forall b :: b in t ==> Before(t, a, b);
    a
  }

  lemma {:induction false} LeastKey(keys: set<Addr>) returns (m: Addr)
    requires keys != {}
    ensures m in keys && forall b :: b in keys ==> m <= b
    decreases keys
  {
    var x :| x in keys;
    if keys == {x} {
      m := x;
    } else {
      var n := LeastKey(keys - {x});
      m := if x < n then x else n;
      forall b | b in keys
        ensures m <= b
      {
        if b != x {
          assert b in keys - {x};
        }
      }
    }
  }

  /** std::min_element over the table as std::map iterates it, by ascending
      key, replacing the candidate only when a strictly smaller sequence
      number comes along. It finds the entry Oldest describes. */
  method MinElement(t: Table) returns (best: Addr)
    requires |t| > 0
    ensures IsOldest(t, best)
  {
    assert t.Keys != {} by {
      var k :| k in t;
    }
    ghost var first := LeastKey(t.Keys);
    best :| best in t.Keys && forall b :: b in t.Keys ==> best <= b;
    var todo := t.Keys - {best};
    while todo != {}
      invariant todo <= t.Keys && best in t && best !in todo
      invariant forall b :: b in todo ==> best < b
      invariant forall b :: b in t && b !in todo ==> Before(t, best, b)
      decreases todo
    {
      ghost var least := LeastKey(todo);
      var next :| next in todo && forall b :: b in todo ==> next <= b;
      if t[next].seqNbr < t[best].seqNbr {
        best := next;
      }
      todo := todo - {next};
    }
  }

  /** The key retrieveFrame gives back before it publishes (lines 295-318):
      none while the table is empty; the caller's image address when it is on
      loan; otherwise the oldest entry once the table holds `maxBuffers` or
      more; otherwise none. */
  function ReclaimKey(t: Table, dst: Addr, maxBuffers: nat): (r: Option<Addr>)
    ensures r.Some? ==> r.value in t
    ensures dst in t ==> r == Some(dst)
    ensures r.None? <==> (dst !in t && |t| < maxBuffers) || |t| == 0
    ensures r.Some? && r.value != dst ==>
              dst !in t && |t| >= maxBuffers && IsOldest(t, r.value)
  {
    if |t| == 0 then None
    else if dst in t then Some(dst)
    else if |t| >= maxBuffers then Some(Oldest(t))
    else None
  }

  /** What the table lends out, and where buffers go when it gives them back. */
  datatype Pool = Pool(loans: Table, stream: Stream, freed: seq<Buf>)

  /** Takes one entry out of the table and disposes of its buffer (lines
      317-327): with `local` (fourcc RGB3) by dropping the last reference,
      otherwise by handing it back to the stream, which may refuse. The entry
      is gone even when the hand-back fails. */
  function GiveBack(p: Pool, key: Addr, local: bool): (r: Outcome<Pool, ()>)
    requires key in p.loans
    ensures key !in r.state.loans && r.state.loans.Keys == p.loans.Keys - {key}
    ensures forall a :: a in r.state.loans ==> r.state.loans[a] == p.loans[a]
    ensures |r.state.loans| == |p.loans| - 1
    ensures local ==> r.Done? && r.state.freed == p.freed + [p.loans[key]]
                      && r.state.stream == p.stream
    ensures !local ==> r.state.freed == p.freed
    ensures !local && r.Done? ==>
              r.state.stream.released == p.stream.released + [p.loans[key]]
    ensures !local ==> (r.Failed? <==> p.loans[key] in p.stream.refusals)
    ensures r.Failed? ==> r.state.stream == p.stream
  {
    var b := p.loans[key];
    var rest := p.loans - {key};
    assert rest.Keys == p.loans.Keys - {key};
    if local then Done(p.(loans := rest, freed := p.freed + [b]), ())
    else match Release(p.stream, b)
      case Failed(st, e) => Failed(p.(loans := rest), e)
      case Done(st, _) => Done(p.(loans := rest, stream := st), ())
  }

  /** `buffers[data] = vdo_buffer`: files the buffer under its data address,
      replacing whatever was there and leaving every other entry alone. */
  function Publish(t: Table, b: Buf): (r: Table)
    ensures b.data in r && r[b.data] == b
    ensures r.Keys == t.Keys + {b.data}
    ensures forall a :: a in t && a != b.data ==> r[a] == t[a]
    ensures b.data in t ==> |r| == |t|
    ensures b.data !in t ==> |r| == |t| + 1
  {
    t[b.data := b]
  }

  /** A reclaim followed by a publish never leaves the table larger than the
      larger of its old size and the budget (with a floor of one, since a
      publish always happens). */
  lemma ReclaimThenPublishBound(t: Table, dst: Addr, maxBuffers: nat, t': Table, b: Buf)
    requires t'.Keys == (if ReclaimKey(t, dst, maxBuffers).Some?
                         then t.Keys - {ReclaimKey(t, dst, maxBuffers).value} else t.Keys)
    ensures |Publish(t', b)| <= Max(|t|, Max(maxBuffers, 1))
  {
    var k := ReclaimKey(t, dst, maxBuffers);
    if k.Some? {
      assert |t'.Keys| == |t.Keys| - 1;
    } else {
      assert |t'.Keys| == |t.Keys|;
    }
    assert |t'| == |t'.Keys|;
  }
}
