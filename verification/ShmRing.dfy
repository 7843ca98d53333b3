/**
 ShmRing as one process uses it: write and read_batch over a byte array that
 they update in place, proved against the list of payloads the ring holds.
 RingProtocol covers the two processes running at the same time.
 */
module ShmRings {
  import opened Bytes
  import opened RingLayout

  datatype Verdict =
    | Stored    // write returns True
    | Full      // write returns False
    | Overrun   // the marker does not fit behind the data area: struct.error

  /** What write answers and where it leaves the tail, from the counters and sizes alone. */
  function WriteSpec(cap: nat, total: nat, head: nat, tail: nat, len: nat): (r: (Verdict, nat))
    requires 0 < cap && head <= tail <= head + cap
  {
    var need := 4 + len;
    if need > cap - (tail - head) then (Full, tail)
    else if Contig(tail, cap) >= need then (Stored, tail + need)
    else if Phys(tail, cap) + 4 > total then (Overrun, tail)
    else
      var start := tail + Contig(tail, cap);
      if need > cap - (start - head) then (Full, start) else (Stored, start + need)
  }

  /** mem with bytes written from position o on. */
  function Splice(mem: seq<byte>, o: nat, bytes: seq<byte>): (r: seq<byte>)
    requires o + |bytes| <= |mem|
    ensures |r| == |mem|
  {
    mem[..o] + bytes + mem[o + |bytes|..]
  }

  // ----- when a payload is accepted -----

  /** The marker that a wrap at this tail would write fits the buffer. */
  predicate MarkerFits(cap: nat, total: nat, tail: nat)
    requires 0 < cap <= total
  {
    Contig(tail, cap) + (total - cap) >= 4
  }

  /** A record of this payload length fits at a counter: contiguously, and without overtaking the reader. */
  predicate FitsAt(cap: nat, head: nat, start: nat, len: nat)
    requires cap > 0
  {
    4 + len <= Contig(start, cap) && start + 4 + len <= head + cap
  }

  /** It fits at the tail; or not up to the physical end, which a marker can close, but at the physical start. */
  predicate Accepts(cap: nat, total: nat, head: nat, tail: nat, len: nat)
    requires 0 < cap <= total
  {
    FitsAt(cap, head, tail, len) ||
    (Contig(tail, cap) < 4 + len && MarkerFits(cap, total, tail) && FitsAt(cap, head, tail + Contig(tail, cap), len))
  }

  /**
   From positions alone: a payload is stored exactly when there is a place for it,
   whatever else the ring holds, and the tail ends behind it; a refusal moves the
   tail only over a marker it has written, to the physical start.
   */
  lemma StoredIffAccepted(cap: nat, total: nat, head: nat, tail: nat, len: nat)
    requires 0 < cap <= total && head <= tail <= head + cap
    ensures var (v, tail') := WriteSpec(cap, total, head, tail, len);
            && (v == Stored <==> Accepts(cap, total, head, tail, len))
            && (v == Stored ==>
                  tail' == (if FitsAt(cap, head, tail, len) then tail else tail + Contig(tail, cap)) + 4 + len)
            && (v != Stored ==> tail' == tail || (tail' == tail + Contig(tail, cap) <= head + cap))
            && (v != Stored && tail' != tail <==>
                  !Accepts(cap, total, head, tail, len) && 4 + len <= cap - (tail - head)
                  && Contig(tail, cap) < 4 + len && MarkerFits(cap, total, tail))
  {
    PhysWrap(tail, cap);
  }

  // ----- what one call stores -----

  /** Bytes stored ahead of t and less than a lap ahead of h leave h..t alone. */
  lemma SpliceStable(mem: seq<byte>, cap: nat, h: nat, t: nat, y: nat, bytes: seq<byte>)
    requires 0 < cap <= |mem| && h <= t <= y && Phys(y, cap) + |bytes| <= |mem|
    requires y + |bytes| <= h + cap || y + Contig(y, cap) <= h + cap
    requires forall k | Contig(y, cap) <= k < |bytes| :: bytes[k] == 255
    ensures Stable(mem, Splice(mem, Phys(y, cap), bytes), cap, h, t)
  {
    var o := Phys(y, cap);
    var mem' := Splice(mem, o, bytes);
    forall x: nat | h <= x < t
      ensures mem'[Phys(x, cap)] == mem[Phys(x, cap)]
    {
      var d := Phys(x, cap) - o;
      if 0 <= d < |bytes| {
        PhysAdd(y, d, cap);
        assert d < Contig(y, cap);
        NoAlias(x, y + d, cap);
      }
    }
    forall k | cap <= k < |mem|
      ensures mem'[k] == mem[k] || mem'[k] == 255
    {
      if o <= k < o + |bytes| {
        assert mem'[k] == bytes[k - o];
      }
    }
  }

  lemma SpliceAt(mem: seq<byte>, o: nat, bytes: seq<byte>)
    requires o + |bytes| <= |mem|
    ensures At(Splice(mem, o, bytes), o, bytes)
  {
  }

  lemma MarkerWritten(mem: seq<byte>, cap: nat, log: seq<Seg>, ri: nat, head: nat, tail: nat, need: nat)
    requires 0 < cap <= |mem| && Holds(mem, cap, log, ri, head, tail) && head <= tail
    requires Contig(tail, cap) < need && tail + need <= head + cap && Phys(tail, cap) + 4 <= |mem|
    ensures Holds(Splice(mem, Phys(tail, cap), MARK), cap, log + [Pad(tail, Contig(tail, cap))],
                  ri, head, tail + Contig(tail, cap))
    ensures Phys(tail + Contig(tail, cap), cap) == 0
  {
    var mem' := Splice(mem, Phys(tail, cap), MARK);
    SpliceStable(mem, cap, head, tail, tail, MARK);
    SpliceAt(mem, Phys(tail, cap), MARK);
    HoldsStable(mem, mem', cap, log, ri, head, tail, head, tail);
    HoldsAppend(mem', cap, log, ri, head, tail, Pad(tail, Contig(tail, cap)));
    PhysWrap(tail, cap);
  }

  lemma RecordWritten(mem: seq<byte>, cap: nat, log: seq<Seg>, ri: nat, head: nat, start: nat, p: Payload)
    requires 0 < cap <= |mem| && Holds(mem, cap, log, ri, head, start) && head <= start
    requires |p| < PAD && 4 + |p| <= Contig(start, cap) && start + 4 + |p| <= head + cap
    ensures Holds(Splice(mem, Phys(start, cap), Record(p)), cap, log + [Rec(start, p)],
                  ri, head, start + 4 + |p|)
  {
    hide LE, Chain, Splice, Stable, Holds, Phys, Payloads;
    var mem' := Splice(mem, Phys(start, cap), Record(p));
    SpliceStable(mem, cap, head, start, start, Record(p));
    SpliceAt(mem, Phys(start, cap), Record(p));
    HoldsStable(mem, mem', cap, log, ri, head, start, head, start);
    HoldsAppend(mem', cap, log, ri, head, start, Rec(start, p));
  }

  lemma NoPayloads(log: seq<Seg>, i: nat)
    requires i == |log|
    ensures Payloads(log[i..]) == []
  {
  }

  /** A reader that has reached the tail has seen every segment. */
  lemma NothingLeft(mem: seq<byte>, cap: nat, log: seq<Seg>, i: nat, t: nat)
    requires 0 < cap <= |mem| && Holds(mem, cap, log, i, t, t)
    ensures i == |log| && Payloads(log[i..]) == []
  {
    hide SegAt;
    EarlierStart(log, t, i, |log|);
    NoPayloads(log, i);
  }

  lemma PayloadsGrow(log: seq<Seg>, ri: nat, g: Seg)
    requires ri <= |log|
    ensures Payloads((log + [g])[ri..]) == Payloads(log[ri..]) + (if g.Rec? then [g.payload] else [])
  {
    assert (log + [g])[ri..] == log[ri..] + [g];
    assert (log[ri..] + [g])[..|log[ri..]|] == log[ri..];
  }

  /** The segment a reader finds at h, and what remains after it. */
  lemma TakeSegment(mem: seq<byte>, cap: nat, log: seq<Seg>, i: nat, h: nat, t: nat)
    requires 0 < cap <= |mem| && Holds(mem, cap, log, i, h, t) && h < t
    ensures i < |log| && log[i].start == h && log[i].End() <= t
    ensures Holds(mem, cap, log, i + 1, log[i].End(), t)
    ensures var o := Phys(h, cap);
            && o + 4 <= |mem|
            && FromLE(mem[o..o + 4]) == (if log[i].Pad? then PAD else |log[i].payload|)
            && (log[i].Pad? ==> log[i].len == Contig(h, cap))
            && (log[i].Rec? ==> |log[i].payload| < PAD && At(mem, o + 4, log[i].payload))
    ensures Payloads(log[i..]) == (if log[i].Rec? then [log[i].payload] else []) + Payloads(log[i + 1..])
  {
    hide Chain, PadAt, RecordAt;
    HoldsAdvance(mem, cap, log, i, h, t);
    SegmentHeader(mem, cap, log[i]);
    PayloadsSplit(log[i..], 1);
    assert log[i..][..1] == [log[i]] && log[i..][1..] == log[i + 1..];
    assert [log[i]][..0] == [];
  }

  class ShmRing {
    const cap: nat
    const data: array<byte>
    var tail: nat
    var head: nat
    ghost var log: seq<Seg>  // every segment published so far
    ghost var ri: nat        // the segment at head

    ghost predicate Valid()
      reads this, data
    {
      && 0 < cap <= data.Length
      && head <= tail <= head + cap
      && ri <= |log|
      && Holds(data[..], cap, log, ri, head, tail)
    }

    /** The payloads written and not yet read, oldest first. */
    ghost function Contents(): seq<Payload>
      reads this
    {
      if ri <= |log| then Payloads(log[ri..]) else []
    }

    /** What Write will answer to a payload of this length. */
    ghost function Answer(len: nat): Verdict
      reads this
    {
      if 0 < cap && head <= tail <= head + cap
      then WriteSpec(cap, data.Length, head, tail, len).0 else Full
    }

    constructor (cap: nat, slack: nat)
      requires cap > 0
      ensures Valid() && Contents() == [] && fresh(data)
      ensures this.cap == cap && data.Length == cap + slack && head == tail == 0
    {
      this.cap := cap;
      data := new byte[cap + slack](_ => 0);
      tail, head := 0, 0;
      log, ri := [], 0;
    }

    method FreeBytes() returns (n: nat)
      requires Valid()
      ensures n == cap - (tail - head) <= cap
    {
      n := cap - (tail - head);
    }

    method PendingBytes() returns (n: nat)
      requires Valid()
      ensures n == tail - head <= cap
    {
      n := tail - head;
    }

    method StoreBytes(o: nat, bytes: seq<byte>)
      requires o + |bytes| <= data.Length
      modifies data
      ensures data[..] == Splice(old(data[..]), o, bytes)
    {
      var k := 0;
      while k < |bytes|
        invariant k <= |bytes|
        invariant forall j | 0 <= j < data.Length ::
                    data[j] == if o <= j < o + k then bytes[j - o] else old(data[j])
      {
        data[o + k] := bytes[k];
        k := k + 1;
      }
    }

    /** Appends one payload, or refuses it and keeps what the ring holds. */
    method Write(payload: Payload) returns (v: Verdict)
      requires Valid() && |payload| < PAD
      modifies this`tail, this`log, data
      ensures Valid()
      ensures (v, tail) == WriteSpec(cap, data.Length, head, old(tail), |payload|)
      ensures v == old(Answer(|payload|))
      ensures v.Stored? <==> Accepts(cap, data.Length, head, old(tail), |payload|)
      ensures Contents() == old(Contents()) + (if v.Stored? then [payload] else [])
    {
      hide Holds, Payloads, LE, Splice, Accepts;
      assert WriteSpec(cap, data.Length, head, tail, |payload|).0 == Stored <==>
             Accepts(cap, data.Length, head, tail, |payload|) by {
        StoredIffAccepted(cap, data.Length, head, tail, |payload|);
      }
      var need := 4 + |payload|;
      var free := cap - (tail - head);
      if need > free {
        return Full;
      }
      PhysIsMod(tail, cap);
      var off, contig, start := tail % cap, cap - tail % cap, tail;
      if contig < need {
        if off + 4 > data.Length {
          return Overrun;
        }
        MarkerWritten(data[..], cap, log, ri, head, tail, need);
        StoreBytes(off, MARK);
        start := tail + contig;
        free := free - contig;
        PayloadsGrow(log, ri, Pad(tail, contig));
        log := log + [Pad(tail, contig)];
        if need > free {
          tail := start;
          return Full;
        }
        off := 0;
      }
      RecordWritten(data[..], cap, log, ri, head, start, payload);
      StoreBytes(off, LE(|payload|, 4) + payload);
      PayloadsGrow(log, ri, Rec(start, payload));
      log := log + [Rec(start, payload)];
      tail := start + need;
      return Stored;
    }

    /** Takes out up to max payloads, oldest first. */
    method ReadBatch(max: nat) returns (out: seq<Payload>)
      requires Valid()
      modifies this`head, this`ri
      ensures Valid()
      ensures out + Contents() == old(Contents())
      ensures |out| <= max
      ensures |out| < max ==> head == tail && Contents() == []
    {
      hide Holds, Payloads, LE, FromLE, Phys;
      out := [];
      var h: nat := head;
      ghost var i: nat := ri;
      while h < tail && |out| < max
        invariant head <= h <= tail && |out| <= max
        invariant i <= |log| && Holds(data[..], cap, log, i, h, tail)
        invariant out + Payloads(log[i..]) == old(Contents())
        decreases tail - h
      {
        TakeSegment(data[..], cap, log, i, h, tail);
        PhysIsMod(h, cap);
        var off := h % cap;
        var ln := FromLE(data[off..off + 4]);
        if ln == PAD {
          h := h + (cap - h % cap);
        } else {
          out := out + [data[off + 4..off + 4 + ln]];
          h := h + 4 + ln;
        }
        i := i + 1;
      }
      head := h;
      ri := i;
      if |out| < max {
        NothingLeft(data[..], cap, log, i, tail);
      }
    }
  }

  // ----- progress -----

  /** Stored at the first or the second attempt when the reader empties the ring before each. */
  predicate StoredInTwo(cap: nat, total: nat, tail: nat, len: nat)
    requires 0 < cap
  {
    var (v, tail') := WriteSpec(cap, total, tail, tail, len);
    v == Stored || (v == Full && WriteSpec(cap, total, tail', tail', len).0 == Stored)
  }

  /**
   A payload that fits the ring at all is stored within two attempts on a
   drained ring exactly when it needs no wrap or the wrap's marker fits: the
   attempt that publishes a marker and then refuses leaves the tail at the
   physical start.
   */
  lemma StoredWithinTwoAttemptsIff(cap: nat, total: nat, tail: nat, len: nat)
    requires 4 + len <= cap <= total
    ensures StoredInTwo(cap, total, tail, len) <==> 4 + len <= Contig(tail, cap) || MarkerFits(cap, total, tail)
  {
    PhysWrap(tail, cap);
  }

  /** For every tail at once: progress is certain exactly when three bytes follow the data area. */
  lemma AlwaysStoredIff(cap: nat, total: nat)
    requires 4 <= cap <= total
    ensures (forall tail: nat, len: nat | 4 + len <= cap :: StoredInTwo(cap, total, tail, len)) <==> total >= cap + 3
  {
    if total >= cap + 3 {
      forall tail: nat, len: nat | 4 + len <= cap
        ensures StoredInTwo(cap, total, tail, len)
      {
        StoredWithinTwoAttemptsIff(cap, total, tail, len);
      }
    } else {
      assert Phys(cap - 1, cap) == cap - 1;
      assert !StoredInTwo(cap, total, cap - 1, 0);
    }
  }

  /**
   A tail whose marker does not fit is the end of the ring: whatever the reader
   drains and whatever is offered, nothing is stored and the tail stays.
   */
  lemma WedgedTail(cap: nat, total: nat, head: nat, tail: nat, len: nat)
    requires 0 < cap <= total && head <= tail <= head + cap && !MarkerFits(cap, total, tail)
    ensures WriteSpec(cap, total, head, tail, len).0 != Stored
    ensures WriteSpec(cap, total, head, tail, len).1 == tail
  {
  }

  /** A write raises exactly when the marker is due, the payload would have been tried, and the marker does not fit. */
  lemma RaisesExactlyWhen(cap: nat, total: nat, head: nat, tail: nat, len: nat)
    requires 0 < cap <= total && head <= tail <= head + cap
    ensures WriteSpec(cap, total, head, tail, len).0 == Overrun <==>
            (4 + len <= cap - (tail - head) && Contig(tail, cap) < 4 + len &&
             Contig(tail, cap) + (total - cap) < 4)
  {
  }

  /** Three bytes behind the data area are exactly what rules the exception out. */
  lemma NeverRaisesIff(cap: nat, total: nat)
    requires 4 <= cap <= total
    ensures (forall head: nat, tail: nat, len: nat | head <= tail <= head + cap ::
               WriteSpec(cap, total, head, tail, len).0 != Overrun) <==> total >= cap + 3
  {
    if total < cap + 3 {
      assert Phys(cap - 1, cap) == cap - 1;
      assert WriteSpec(cap, total, cap - 1, cap - 1, 0).0 == Overrun;
    }
  }

  /**
   With a buffer of exactly cap bytes the exception is reached from an empty
   ring: one record that leaves a single byte, a read, and any payload that fits
   the ring.
   */
  method RaisesAfterOneRecord(cap: nat, payload: Payload) returns (v: Verdict)
    requires 5 <= cap < PAD && 4 + |payload| <= cap
    ensures v == Overrun
  {
    hide Holds, Payloads, LE, ShmRing.Answer;
    var ring := new ShmRing(cap, 0);
    var first := ring.Write(seq(cap - 5, _ => 0));
    var out := ring.ReadBatch(2);
    v := ring.Write(payload);
  }

  /** A payload of PAD bytes would be taken for a marker; no shorter one is. */
  lemma LengthReadAsMarker(n: nat)
    requires n <= PAD
    ensures LE(n, 4) == MARK <==> n == PAD
  {
    assert Pow256(4) == 0x1_0000_0000;
    FromLEOfLE(n, 4);
    MarkIsPad();
    assert LE(PAD, 4) == MARK by {
      assert PAD % 256 == 255 && PAD / 256 == 0xFF_FFFF;
    }
  }
}
