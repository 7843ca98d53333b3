/**
 ShmRing as two processes over shared bytes.  The writer and the reader advance
 one load or one byte store at a time, in any order; memory is sequentially
 consistent.  Only the writer stores the tail counter, only the reader stores
 the head counter, so each side loads its own counter together with the other's.
 */
module RingProtocol {
  import opened Bytes
  import opened RingLayout
  import opened ShmRings

  datatype Outcome =
    | Accepted(payload: Payload)  // write returned True
    | Refused(payload: Payload)   // write returned False
    | Raised(payload: Payload)    // the marker did not fit behind the data area (struct.error)

  /** Where the writer is inside write(payload); t and h are its local tail and head. */
  datatype WriterPc =
    | WIdle
    | WLoaded(payload: Payload, t: nat, h: nat)
    | WMark(payload: Payload, t: nat, h: nat, k: nat)    // k marker bytes stored
    | WRecord(payload: Payload, t: nat, h: nat, k: nat)  // k record bytes stored

  /**
   Where the reader is inside read_batch(max).  i and e are history variables:
   the segments at which its local head h and its loaded tail t stand.
   */
  datatype ReaderPc =
    | RIdle
    | RScan(h: nat, t: nat, max: nat, out: seq<Payload>, i: nat, e: nat)
    | RHead(h: nat, t: nat, max: nat, out: seq<Payload>, i: nat, e: nat, hdr: seq<byte>)  // length bytes loaded
    | RCopy(h: nat, t: nat, max: nat, out: seq<Payload>, i: nat, e: nat, ln: nat, acc: seq<byte>)

  datatype State = State(
    cap: nat, mem: seq<byte>, tail: nat, head: nat,
    w: WriterPc, r: ReaderPc,
    results: seq<Outcome>,      // what the calls of write returned, in order
    delivered: seq<Payload>,    // all batches returned by read_batch, concatenated
    fault: bool,                // some access fell outside the buffer
    log: seq<Seg>, ri: nat)     // history: segments published, segment at head

  datatype Action = BeginWrite(payload: Payload) | WriterStep | BeginRead(max: nat) | ReaderStep

  function Init(cap: nat, zeros: seq<byte>): State {
    State(cap, zeros, 0, 0, WIdle, RIdle, [], [], false, [], 0)
  }

  function Store(s: State, o: nat, b: byte): State {
    if o < |s.mem| then s.(mem := s.mem[o := b]) else s.(fault := true)
  }

  function Finish(s: State, o: Outcome): State {
    s.(w := WIdle, results := s.results + [o])
  }

  function WriterMove(s: State): State
    requires s.cap > 0
  {
    match s.w
    case WIdle => s
    case WLoaded(p, t, h) =>
      if 4 + |p| > s.cap - (t - h) then Finish(s, Refused(p))
      else if Contig(t, s.cap) >= 4 + |p| then s.(w := WRecord(p, t, h, 0))
      else if Phys(t, s.cap) + 4 > |s.mem| then Finish(s, Raised(p))
      else s.(w := WMark(p, t, h, 0))
    case WMark(p, t, h, k) =>
      if k < 4 then Store(s, Phys(t, s.cap) + k, MARK[k]).(w := WMark(p, t, h, k + 1))
      else
        var t' := t + Contig(t, s.cap);
        if 4 + |p| > s.cap - (t' - h)
        then Finish(s.(tail := t', log := s.log + [Pad(t, Contig(t, s.cap))]), Refused(p))
        else s.(w := WRecord(p, t', h, 0))
    case WRecord(p, t, h, k) =>
      if |p| < PAD && k < 4 + |p|
      then Store(s, Phys(t, s.cap) + k, RecordByte(p, k)).(w := WRecord(p, t, h, k + 1))
      else
        var skipped := if t > s.tail then [Pad(s.tail, t - s.tail)] else [];
        Finish(s.(tail := t + 4 + |p|, log := s.log + skipped + [Rec(t, p)]), Accepted(p))
  }

  function RecordByte(p: Payload, k: nat): byte
    requires |p| < PAD && k < 4 + |p|
  {
    if k < 4 then LE(|p|, 4)[k] else p[k - 4]
  }

  function ReaderMove(s: State): State
    requires s.cap > 0
  {
    match s.r
    case RIdle => s
    case RScan(h, t, max, out, i, e) =>
      if h < t && |out| < max then s.(r := RHead(h, t, max, out, i, e, []))
      else s.(r := RIdle, head := h, delivered := s.delivered + out, ri := i)
    case RHead(h, t, max, out, i, e, hdr) =>
      if |hdr| < 4 then
        var o := Phys(h, s.cap) + |hdr|;
        if o >= |s.mem| then s.(fault := true)
        else s.(r := RHead(h, t, max, out, i, e, hdr + [s.mem[o]]))
      else
        var ln := FromLE(hdr);
        if ln == PAD
        then s.(r := RScan(h + Contig(h, s.cap), t, max, out, i + 1, e))
        else s.(r := RCopy(h, t, max, out, i, e, ln, []))
    case RCopy(h, t, max, out, i, e, ln, acc) =>
      if |acc| < ln then
        var o := Phys(h, s.cap) + 4 + |acc|;
        if o >= |s.mem| then s.(fault := true)
        else s.(r := RCopy(h, t, max, out, i, e, ln, acc + [s.mem[o]]))
      else s.(r := RScan(h + 4 + ln, t, max, out + [acc], i + 1, e))
  }

  function Next(s: State, a: Action): State
    requires s.cap > 0
  {
    match a
    case BeginWrite(p) =>
      if s.w.WIdle? && |p| < PAD then s.(w := WLoaded(p, s.tail, s.head)) else s
    case WriterStep => WriterMove(s)
    case BeginRead(max) =>
      if s.r.RIdle? then s.(r := RScan(s.head, s.tail, max, [], s.ri, |s.log|)) else s
    case ReaderStep => ReaderMove(s)
  }

  /** The state after a schedule: any interleaving of the two processes. */
  ghost function Run(s: State, schedule: seq<Action>): (s': State)
    requires s.cap > 0
    ensures s'.cap > 0
  {
    if schedule == [] then s
    else Next(Run(s, schedule[..|schedule| - 1]), schedule[|schedule| - 1])
  }

  ghost function AcceptedOf(results: seq<Outcome>): seq<Payload> {
    if results == [] then []
    else
      var o := results[|results| - 1];
      AcceptedOf(results[..|results| - 1]) + (if o.Accepted? then [o.payload] else [])
  }

  // ----- the invariant -----

  ghost predicate WriterOk(w: WriterPc, mem: seq<byte>, cap: nat, tail: nat, head: nat)
    requires 0 < cap <= |mem|
  {
    match w
    case WIdle => true
    case WLoaded(p, t, h) => t == tail && h <= head && h <= t <= h + cap && |p| < PAD
    case WMark(p, t, h, k) =>
      && t == tail && h <= head && |p| < PAD && k <= 4
      && Contig(t, cap) < 4 + |p| && t + 4 + |p| <= h + cap
      && Phys(t, cap) + 4 <= |mem|
      && At(mem, Phys(t, cap), MARK[..k])
    case WRecord(p, t, h, k) =>
      && h <= head && |p| < PAD && k <= 4 + |p|
      && t + 4 + |p| <= h + cap && 4 + |p| <= Contig(t, cap)
      && (t == tail || (t == tail + Contig(tail, cap) && PadAt(mem, cap, tail)))
      && At(mem, Phys(t, cap), Record(p)[..k])
  }

  ghost predicate ReaderOk(r: ReaderPc, mem: seq<byte>, cap: nat, tail: nat,
                           log: seq<Seg>, ri: nat, delivered: seq<Payload>)
    requires 0 < cap <= |mem|
  {
    match r
    case RIdle => true
    case RScan(h, t, max, out, i, e) =>
      Scanning(mem, cap, tail, log, ri, delivered, h, t, max, out, i, e)
    case RHead(h, t, max, out, i, e, hdr) =>
      && Scanning(mem, cap, tail, log, ri, delivered, h, t, max, out, i, e)
      && h < t && |out| < max
      && |hdr| <= 4 && hdr == HeaderOf(log[i])[..|hdr|]
    case RCopy(h, t, max, out, i, e, ln, acc) =>
      && Scanning(mem, cap, tail, log, ri, delivered, h, t, max, out, i, e)
      && h < t && |out| < max
      && log[i].Rec? && ln == |log[i].payload| && |acc| <= ln && acc == log[i].payload[..|acc|]
  }

  ghost predicate Scanning(mem: seq<byte>, cap: nat, tail: nat,
                           log: seq<Seg>, ri: nat, delivered: seq<Payload>,
                           h: nat, t: nat, max: nat, out: seq<Payload>, i: nat, e: nat)
    requires 0 < cap <= |mem|
  {
    && ri <= i <= e <= |log| && |out| <= max
    && Holds(mem, cap, log, i, h, tail)
    && t == StartOf(log, e, tail) && (h < t ==> i < |log|)
    && delivered + out == Payloads(log[..i])
  }

  /** The counters, the log and the bytes agree. */
  ghost predicate SharedOk(s: State) {
    && 0 < s.cap <= |s.mem| && !s.fault
    && s.head <= s.tail <= s.head + s.cap
    && Holds(s.mem, s.cap, s.log, s.ri, s.head, s.tail)
    && s.delivered == Payloads(s.log[..s.ri])
    && AcceptedOf(s.results) == Payloads(s.log)
  }

  ghost predicate Inv(s: State) {
    && SharedOk(s)
    && WriterOk(s.w, s.mem, s.cap, s.tail, s.head)
    && ReaderOk(s.r, s.mem, s.cap, s.tail, s.log, s.ri, s.delivered)
  }

  // ----- every step keeps it -----

  lemma FinishAccepted(rs: seq<Outcome>, o: Outcome)
    ensures AcceptedOf(rs + [o]) == AcceptedOf(rs) + (if o.Accepted? then [o.payload] else [])
  {
    assert (rs + [o])[..|rs|] == rs;
  }

  lemma ReaderUndisturbed(s: State, mem': seq<byte>, t0: nat)
    requires Inv(s) && s.tail <= t0
    requires Stable(s.mem, mem', s.cap, s.head, t0)
    ensures ReaderOk(s.r, mem', s.cap, s.tail, s.log, s.ri, s.delivered)
  {
    hide SegAt, Payloads, Chain;
    if !s.r.RIdle? {
      EarlierStart(s.log, s.tail, s.ri, s.r.i);
      HoldsStable(s.mem, mem', s.cap, s.log, s.r.i, s.r.h, s.tail, s.head, t0);
    }
  }

  /** A store that leaves everything from head up to t0 alone keeps all but the writer's part of Inv. */
  lemma StoreKeeps(s: State, mem': seq<byte>, t0: nat)
    requires Inv(s) && s.tail <= t0
    requires Stable(s.mem, mem', s.cap, s.head, t0)
    ensures SharedOk(s.(mem := mem'))
    ensures ReaderOk(s.r, mem', s.cap, s.tail, s.log, s.ri, s.delivered)
  {
    HoldsStable(s.mem, mem', s.cap, s.log, s.ri, s.head, s.tail, s.head, t0);
    ReaderUndisturbed(s, mem', t0);
  }

  lemma MarkStep(s: State)
    requires Inv(s) && s.w.WMark? && s.w.k < 4
    ensures Inv(WriterMove(s))
    ensures Stable(s.mem, WriterMove(s).mem, s.cap, s.head, s.tail)
  {
    hide Holds, ReaderOk, Payloads, AcceptedOf, PadAt, Stable, StartOf, At, Phys;
    var p, t, h, k := s.w.payload, s.w.t, s.w.h, s.w.k;
    var o := Phys(t, s.cap) + k;
    var mem' := s.mem[o := 255];
    if o < s.cap {
      PhysAdd(t, k, s.cap);
      StoreStable(s.mem, s.cap, s.head, s.tail, t + k, 255);
    } else {
      SpillStable(s.mem, s.cap, s.head, s.tail, o);
    }
    StoreKeeps(s, mem', s.tail);
    AtExtend(s.mem, Phys(t, s.cap), MARK, k);
    assert WriterMove(s) == s.(mem := mem', w := WMark(p, t, h, k + 1));
  }

  lemma RecordBytes(p: Payload, k: nat)
    requires |p| < PAD && k < 4 + |p|
    ensures |Record(p)| == 4 + |p| && Record(p)[k] == RecordByte(p, k)
  {
  }

  lemma RecordStep(s: State)
    requires Inv(s) && s.w.WRecord? && s.w.k < 4 + |s.w.payload|
    ensures Inv(WriterMove(s))
    ensures Stable(s.mem, WriterMove(s).mem, s.cap, s.head, s.tail)
  {
    hide Holds, ReaderOk, Payloads, AcceptedOf, Record, RecordByte, StartOf, At, PadAt, Phys, Stable;
    var p, t, h, k := s.w.payload, s.w.t, s.w.h, s.w.k;
    var o := Phys(t, s.cap) + k;
    var b := RecordByte(p, k);
    var mem' := s.mem[o := b];
    PhysAdd(t, k, s.cap);
    StoreStable(s.mem, s.cap, s.head, t, t + k, b);
    StoreKeeps(s, mem', t);
    StableLess(s.mem, mem', s.cap, s.head, s.tail, t);
    if t != s.tail {
      PadStable(s.mem, mem', s.cap, s.head, t, s.tail);
    }
    RecordBytes(p, k);
    AtExtend(s.mem, Phys(t, s.cap), Record(p), k);
    assert WriterMove(s) == s.(mem := mem', w := WRecord(p, t, h, k + 1));
  }

  lemma ReaderSeesAppend(s: State, g: Seg)
    requires Inv(s) && SegAt(s.mem, s.cap, g) && g.start == s.tail
    ensures ReaderOk(s.r, s.mem, s.cap, g.End(), s.log + [g], s.ri, s.delivered)
  {
    if !s.r.RIdle? {
      HoldsAppend(s.mem, s.cap, s.log, s.r.i, s.r.h, s.tail, g);
      assert (s.log + [g])[..s.r.i] == s.log[..s.r.i];
    }
  }

  /** Publishing a segment at the tail leaves a reader in the middle of a batch undisturbed. */
  lemma PublishKeeps(s: State, g: Seg, results: seq<Outcome>)
    requires Inv(s) && SegAt(s.mem, s.cap, g) && g.start == s.tail && g.End() <= s.head + s.cap
    requires AcceptedOf(results) == AcceptedOf(s.results) + (if g.Rec? then [g.payload] else [])
    ensures Inv(s.(w := WIdle, tail := g.End(), log := s.log + [g], results := results))
  {
    HoldsAppend(s.mem, s.cap, s.log, s.ri, s.head, s.tail, g);
    assert (s.log + [g])[..s.ri] == s.log[..s.ri];
    ReaderSeesAppend(s, g);
  }

  lemma PublishPad(s: State)
    requires Inv(s) && s.w.WMark? && s.w.k == 4
    ensures Inv(WriterMove(s))
  {
    hide Holds, ReaderOk, Payloads, AcceptedOf;
    var p, t, h := s.w.payload, s.w.t, s.w.h;
    assert MARK[..4] == MARK;
    var g := Pad(t, Contig(t, s.cap));
    if 4 + |p| > s.cap - (g.End() - h) {
      FinishAccepted(s.results, Refused(p));
      PublishKeeps(s, g, s.results + [Refused(p)]);
    } else {
      PhysWrap(t, s.cap);
      assert Record(p)[..0] == [];
      assert WriterMove(s) == s.(w := WRecord(p, g.End(), h, 0));
    }
  }

  lemma PublishRecord(s: State)
    requires Inv(s) && s.w.WRecord? && s.w.k == 4 + |s.w.payload|
    ensures Inv(WriterMove(s))
  {
    hide Holds, ReaderOk, Payloads, AcceptedOf;
    var p, t := s.w.payload, s.w.t;
    assert Record(p)[..4 + |p|] == Record(p);
    FinishAccepted(s.results, Accepted(p));
    if t == s.tail {
      assert s.log + [] + [Rec(t, p)] == s.log + [Rec(t, p)];
      PublishKeeps(s, Rec(t, p), s.results + [Accepted(p)]);
    } else {
      var g := Pad(s.tail, t - s.tail);
      PublishKeeps(s, g, s.results);
      var mid := s.(w := WIdle, tail := t, log := s.log + [g], results := s.results);
      PublishKeeps(mid, Rec(t, p), s.results + [Accepted(p)]);
    }
  }

  lemma WriterKeepsInv(s: State)
    requires Inv(s)
    ensures Inv(WriterMove(s))
    ensures Stable(s.mem, WriterMove(s).mem, s.cap, s.head, s.tail)
  {
    hide Holds, ReaderOk, Payloads, AcceptedOf, Record, PadAt;
    match s.w
    case WIdle =>
    case WLoaded(p, t, h) =>
      FinishAccepted(s.results, Refused(p));
      FinishAccepted(s.results, Raised(p));
      assert MARK[..0] == [] && Record(p)[..0] == [];
    case WMark(p, t, h, k) =>
      if k < 4 {
        MarkStep(s);
      } else {
        PublishPad(s);
      }
    case WRecord(p, t, h, k) =>
      if k < 4 + |p| {
        RecordStep(s);
      } else {
        PublishRecord(s);
      }
  }

  /** What stands at the reader's local head while it has bytes left to read. */
  lemma CurrentSegment(s: State)
    requires Inv(s) && !s.r.RIdle? && s.r.h < s.r.t
    ensures s.r.i < s.r.e <= |s.log|
    ensures var g := s.log[s.r.i];
            && g.start == s.r.h && s.r.h < g.End() <= s.tail
            && Holds(s.mem, s.cap, s.log, s.r.i + 1, g.End(), s.tail)
            && Payloads(s.log[..s.r.i + 1]) == s.delivered + s.r.out + (if g.Rec? then [g.payload] else [])
            && (g.End() < s.r.t ==> s.r.i + 1 < |s.log|)
            && SegAt(s.mem, s.cap, g)
  {
    hide WriterOk, AcceptedOf, SegAt;
    var i, e := s.r.i, s.r.e;
    EarlierStart(s.log, s.tail, e, |s.log|);
    HoldsAdvance(s.mem, s.cap, s.log, i, s.r.h, s.tail);
    EarlierStart(s.log, s.tail, i + 1, e);
  }

  lemma ScanStep(s: State)
    requires Inv(s) && s.r.RScan? && s.r.h < s.r.t && |s.r.out| < s.r.max
    ensures Inv(ReaderMove(s)) && ReaderMove(s).mem == s.mem
  {
    hide WriterOk, AcceptedOf, Holds, Payloads, SegAt, StartOf;
    CurrentSegment(s);
    assert HeaderOf(s.log[s.r.i])[..0] == [];
  }

  lemma HeadByte(s: State)
    requires Inv(s) && s.r.RHead? && |s.r.hdr| < 4
    ensures Inv(ReaderMove(s)) && ReaderMove(s).mem == s.mem
  {
    hide WriterOk, AcceptedOf, Holds, Payloads, SegAt, StartOf, HeaderOf;
    var h, t, max, out, i, e, hdr := s.r.h, s.r.t, s.r.max, s.r.out, s.r.i, s.r.e, s.r.hdr;
    CurrentSegment(s);
    HeaderByte(s.mem, s.cap, s.log[i], |hdr|);
    var whole := HeaderOf(s.log[i]);
    assert whole[..|hdr| + 1] == hdr + [whole[|hdr|]];
    assert ReaderMove(s) == s.(r := RHead(h, t, max, out, i, e, whole[..|hdr| + 1]));
  }

  lemma EndHead(s: State)
    requires Inv(s) && s.r.RHead? && |s.r.hdr| == 4
    ensures Inv(ReaderMove(s)) && ReaderMove(s).mem == s.mem
  {
    hide WriterOk, AcceptedOf, Holds, Payloads, SegAt, StartOf;
    var h, t, max, out, i, e, hdr := s.r.h, s.r.t, s.r.max, s.r.out, s.r.i, s.r.e, s.r.hdr;
    CurrentSegment(s);
    HeaderRead(s.mem, s.cap, s.log[i]);
    SegmentHeader(s.mem, s.cap, s.log[i]);
    assert hdr == HeaderOf(s.log[i]);
    hide HeaderOf;
    match s.log[i] {
      case Pad(_, n) =>
        assert ReaderMove(s) == s.(r := RScan(h + n, t, max, out, i + 1, e));
      case Rec(_, p) =>
        assert p[..0] == [];
        assert ReaderMove(s) == s.(r := RCopy(h, t, max, out, i, e, |p|, []));
    }
  }

  lemma CopyByte(s: State)
    requires Inv(s) && s.r.RCopy? && |s.r.acc| < s.r.ln
    ensures Inv(ReaderMove(s)) && ReaderMove(s).mem == s.mem
  {
    hide WriterOk, AcceptedOf, Holds, Payloads, SegAt, StartOf;
    var h, t, max, out, i, e, ln, acc := s.r.h, s.r.t, s.r.max, s.r.out, s.r.i, s.r.e, s.r.ln, s.r.acc;
    CurrentSegment(s);
    SegmentHeader(s.mem, s.cap, s.log[i]);
    var p := s.log[i].payload;
    AtByte(s.mem, Phys(h, s.cap) + 4, p, |acc|);
    assert p[..|acc| + 1] == acc + [p[|acc|]];
    assert ReaderMove(s) == s.(r := RCopy(h, t, max, out, i, e, ln, p[..|acc| + 1]));
  }

  lemma EndRecord(s: State)
    requires Inv(s) && s.r.RCopy? && |s.r.acc| == s.r.ln
    ensures Inv(ReaderMove(s)) && ReaderMove(s).mem == s.mem
  {
    hide WriterOk, AcceptedOf, Holds, Payloads, SegAt, StartOf;
    var h, t, max, out, i, e, ln := s.r.h, s.r.t, s.r.max, s.r.out, s.r.i, s.r.e, s.r.ln;
    CurrentSegment(s);
    var p := s.log[i].payload;
    assert p[..|p|] == p;
    assert s.delivered + (out + [p]) == s.delivered + out + [p];
    assert ReaderMove(s) == s.(r := RScan(h + 4 + ln, t, max, out + [p], i + 1, e));
  }

  lemma EndBatch(s: State)
    requires Inv(s) && s.r.RScan? && !(s.r.h < s.r.t && |s.r.out| < s.r.max)
    ensures Inv(ReaderMove(s)) && ReaderMove(s).mem == s.mem
  {
    hide AcceptedOf, PadAt, RecordAt, SegAt;
    EarlierStart(s.log, s.tail, s.ri, s.r.i);
    EarlierStart(s.log, s.tail, s.r.i, |s.log|);
  }

  lemma AccBounded(s: State)
    requires Inv(s) && s.r.RCopy?
    ensures |s.r.acc| <= s.r.ln < PAD
  {
    hide WriterOk, AcceptedOf, Holds, Payloads, StartOf, SegAt;
    CurrentSegment(s);
    SegmentHeader(s.mem, s.cap, s.log[s.r.i]);
  }

  lemma HeaderBounded(s: State)
    requires Inv(s) && s.r.RHead?
    ensures |s.r.hdr| <= 4
  {
    hide SharedOk, WriterOk, Scanning;
  }

  lemma ReaderKeepsInv(s: State)
    requires Inv(s)
    ensures Inv(ReaderMove(s)) && ReaderMove(s).mem == s.mem
  {
    hide SharedOk, WriterOk, ReaderOk;
    if s.r.RCopy? {
      assert |s.r.acc| <= s.r.ln by { AccBounded(s); }
      if |s.r.acc| < s.r.ln {
        CopyByte(s);
      } else {
        EndRecord(s);
      }
    } else if s.r.RHead? {
      assert |s.r.hdr| <= 4 by { HeaderBounded(s); }
      if |s.r.hdr| < 4 {
        HeadByte(s);
      } else {
        EndHead(s);
      }
    } else if s.r.RScan? && s.r.h < s.r.t && |s.r.out| < s.r.max {
      ScanStep(s);
    } else if s.r.RScan? {
      EndBatch(s);
    }
  }

  /** Every step of either process keeps the invariant and no byte in [head, tail) changes. */
  lemma StepKeepsInv(s: State, a: Action)
    requires Inv(s)
    ensures Inv(Next(s, a))
    ensures Stable(s.mem, Next(s, a).mem, s.cap, s.head, s.tail)
  {
    match a
    case BeginWrite(p) =>
    case WriterStep => WriterKeepsInv(s);
    case BeginRead(max) =>
    case ReaderStep => ReaderKeepsInv(s);
  }

  lemma {:induction false} RunKeepsInv(cap: nat, zeros: seq<byte>, schedule: seq<Action>)
    requires 0 < cap <= |zeros|
    ensures Inv(Run(Init(cap, zeros), schedule))
  {
    if schedule == [] {
      assert Payloads([][..0]) == [];
    } else {
      var n := |schedule| - 1;
      RunKeepsInv(cap, zeros, schedule[..n]);
      StepKeepsInv(Run(Init(cap, zeros), schedule[..n]), schedule[n]);
    }
  }

  // ----- what holds of every interleaving -----

  /**
   FIFO, byte exact: what the reader has been handed is a prefix of the payloads
   for which write returned True; the counters bound the backlog by the capacity
   and no access ever leaves the buffer.
   */
  lemma FifoUnderEverySchedule(cap: nat, zeros: seq<byte>, schedule: seq<Action>)
    requires 0 < cap <= |zeros|
    ensures var s := Run(Init(cap, zeros), schedule);
            && s.delivered <= AcceptedOf(s.results)
            && s.head <= s.tail <= s.head + cap
            && !s.fault
  {
    RunKeepsInv(cap, zeros, schedule);
    RunKeepsCap(cap, zeros, schedule);
    var s := Run(Init(cap, zeros), schedule);
    PayloadsPrefix(s.log, s.ri, |s.log|);
    assert s.log[..|s.log|] == s.log;
  }

  lemma {:induction false} RunKeepsCap(cap: nat, zeros: seq<byte>, schedule: seq<Action>)
    requires 0 < cap
    ensures Run(Init(cap, zeros), schedule).cap == cap
  {
    if schedule != [] {
      hide Next;
      var n := |schedule| - 1;
      RunKeepsCap(cap, zeros, schedule[..n]);
      CapStays(Run(Init(cap, zeros), schedule[..n]), schedule[n]);
    }
  }

  lemma CapStays(s: State, a: Action)
    requires s.cap > 0
    ensures Next(s, a).cap == s.cap
  {
    hide Phys;
  }

  /** Nothing accepted is lost: once the reader has caught up it has been handed every accepted payload. */
  lemma CaughtUpMeansAll(cap: nat, zeros: seq<byte>, schedule: seq<Action>)
    requires 0 < cap <= |zeros|
    requires var s := Run(Init(cap, zeros), schedule); s.head == s.tail
    ensures var s := Run(Init(cap, zeros), schedule); s.delivered == AcceptedOf(s.results)
  {
    RunKeepsInv(cap, zeros, schedule);
    var s := Run(Init(cap, zeros), schedule);
    EarlierStart(s.log, s.tail, s.ri, |s.log|);
    assert s.log[..|s.log|] == s.log;
  }

  /** No byte between the published head and tail is overwritten by any step of any schedule. */
  lemma PublishedBytesAreNeverOverwritten(cap: nat, zeros: seq<byte>, schedule: seq<Action>, a: Action, x: nat)
    requires 0 < cap <= |zeros|
    requires var s := Run(Init(cap, zeros), schedule); s.head <= x < s.tail
    ensures var s := Run(Init(cap, zeros), schedule);
            |s.mem| == |Next(s, a).mem| && s.cap == cap <= |s.mem| &&
            Next(s, a).mem[Phys(x, cap)] == s.mem[Phys(x, cap)]
  {
    RunKeepsInv(cap, zeros, schedule);
    RunKeepsCap(cap, zeros, schedule);
    StepKeepsInv(Run(Init(cap, zeros), schedule), a);
  }

  /** Bytes left to scan, then bytes left to load of the segment under the head. */
  ghost function ReaderRank(s: State): (int, int)
    requires !s.r.RIdle?
  {
    (s.r.t - s.r.h,
     match s.r
     case RScan(_, _, _, _, _, _) => PAD + 5
     case RHead(_, _, _, _, _, _, hdr) => PAD + 4 - |hdr|
     case RCopy(_, _, _, _, _, _, ln, acc) => ln - |acc|)
  }

  /** read_batch terminates: each of its steps ends the batch or lowers a bounded rank, lexicographically. */
  lemma ReaderTerminates(s: State)
    requires Inv(s) && !s.r.RIdle?
    ensures var s', before := ReaderMove(s), ReaderRank(s);
            s'.r.RIdle? ||
            (var after := ReaderRank(s');
             (0 <= after.0 < before.0 || (after.0 == before.0 && 0 <= after.1 < before.1)))
  {
    hide WriterOk, AcceptedOf, RecordAt, PadAt, Chain, HeaderOf;
    ReaderKeepsInv(s);
    var s' := ReaderMove(s);
    EarlierStart(s.log, s.tail, s.r.i, s.r.e);
    if !s'.r.RIdle? {
      EarlierStart(s'.log, s'.tail, s'.r.i, s'.r.e);
      if s'.r.RCopy? {
        AccBounded(s');
      }
      if s'.r.RHead? {
        HeaderBounded(s');
      }
    }
  }

  // ----- one whole write -----

  /** What a write under way will answer and where it will leave the tail: the sequential rule for what it loaded. */
  ghost function Predicted(w: WriterPc, cap: nat, total: nat): (Verdict, nat)
    requires cap > 0
  {
    match w
    case WIdle => (Full, 0)
    case WLoaded(p, t, h) => if h <= t <= h + cap then WriteSpec(cap, total, h, t, |p|) else (Full, t)
    case WMark(p, t, h, _) =>
      var t' := t + Contig(t, cap);
      if 4 + |p| > cap - (t' - h) then (Full, t') else (Stored, t' + 4 + |p|)
    case WRecord(p, t, _, _) => (Stored, t + 4 + |p|)
  }

  ghost function OutcomeOf(v: Verdict, p: Payload): Outcome {
    match v case Stored => Accepted(p) case Full => Refused(p) case Overrun => Raised(p)
  }

  /** A writer's step ends the call with the predicted answer and tail, or predicts the same as before. */
  lemma StepAsPredicted(s: State)
    requires Inv(s) && !s.w.WIdle?
    ensures var s', want := WriterMove(s), Predicted(s.w, s.cap, |s.mem|);
            && s'.cap == s.cap && |s'.mem| == |s.mem|
            && if s'.w.WIdle?
               then s'.results == s.results + [OutcomeOf(want.0, s.w.payload)] && s'.tail == want.1
               else s'.results == s.results && s'.tail == s.tail && s'.w.payload == s.w.payload &&
                    Predicted(s'.w, s'.cap, |s'.mem|) == want
  {
    hide ReaderOk, At, PadAt, Record, RecordByte, Phys, Holds, Payloads, AcceptedOf;
  }

  /** The reader and a refused BeginWrite leave the writer's side alone. */
  lemma OtherStepsLeaveWriter(s: State, a: Action)
    requires s.cap > 0 && !a.WriterStep? && (a.BeginWrite? ==> !s.w.WIdle?)
    ensures var s' := Next(s, a);
            s'.w == s.w && s'.results == s.results && s'.tail == s.tail && s'.cap == s.cap && s'.mem == s.mem
  {
  }

  /** The call is still under way after every proper prefix of the schedule. */
  ghost predicate Busy(s: State, schedule: seq<Action>)
    requires s.cap > 0
  {
    forall k | 0 <= k < |schedule| :: !Run(s, schedule[..k]).w.WIdle?
  }

  lemma {:induction false} WriteUnderWay(s: State, schedule: seq<Action>)
    requires Inv(s) && Busy(s, schedule) && !s.w.WIdle?
    ensures var s', want := Run(s, schedule), Predicted(s.w, s.cap, |s.mem|);
            && Inv(s') && s'.cap == s.cap && |s'.mem| == |s.mem|
            && if s'.w.WIdle?
               then s'.results == s.results + [OutcomeOf(want.0, s.w.payload)] && s'.tail == want.1
               else s'.results == s.results && s'.tail == s.tail && s'.w.payload == s.w.payload &&
                    Predicted(s'.w, s'.cap, |s'.mem|) == want
  {
    if schedule != [] {
      hide Inv, Predicted, Next, WriterMove;
      var n := |schedule| - 1;
      var m := Run(s, schedule[..n]);
      assert Busy(s, schedule[..n]) by {
        assert forall k | 0 <= k < n :: schedule[..n][..k] == schedule[..k];
      }
      WriteUnderWay(s, schedule[..n]);
      assert !m.w.WIdle?;
      StepKeepsInv(m, schedule[n]);
      if schedule[n].WriterStep? {
        StepAsPredicted(m);
        assert Next(m, schedule[n]) == WriterMove(m) by { NextIsWriterMove(m); }
      } else {
        OtherStepsLeaveWriter(m, schedule[n]);
      }
    }
  }

  lemma NextIsWriterMove(s: State)
    requires s.cap > 0
    ensures Next(s, WriterStep) == WriterMove(s)
  {
  }

  /**
   One whole call of write, however the reader's steps fall between its own:
   when it ends it has appended one answer, and the answer and the new tail are
   what the sequential rule says for the counters loaded at its start.
   */
  lemma WriterAnswersAsLoaded(s: State, p: Payload, schedule: seq<Action>)
    requires Inv(s) && s.w.WIdle? && |p| < PAD
    requires var s1 := Next(s, BeginWrite(p));
             && s1.cap > 0 && Busy(s1, schedule) && Run(s1, schedule).w.WIdle?
    ensures var s', want := Run(Next(s, BeginWrite(p)), schedule), WriteSpec(s.cap, |s.mem|, s.head, s.tail, |p|);
            s'.results == s.results + [OutcomeOf(want.0, p)] && s'.tail == want.1
    ensures 0 < s.cap <= |s.mem| && s.head <= s.tail
    ensures Run(Next(s, BeginWrite(p)), schedule).results == s.results + [Accepted(p)] <==>
            Accepts(s.cap, |s.mem|, s.head, s.tail, |p|)
  {
    StepKeepsInv(s, BeginWrite(p));
    StoredIffAccepted(s.cap, |s.mem|, s.head, s.tail, |p|);
    hide Inv, Run, Accepts;
    WriteUnderWay(Next(s, BeginWrite(p)), schedule);
  }

  // ----- one whole batch -----

  /** The first n, or all when there are fewer. */
  function Take<T>(s: seq<T>, n: nat): seq<T> {
    if n <= |s| then s[..n] else s
  }

  /** A batch is under way that began when these segments were published and these payloads delivered. */
  ghost predicate Reading(s: State, log: seq<Seg>, delivered: seq<Payload>, max: nat) {
    && !s.r.RIdle? && s.r.max == max && s.r.e == |log|
    && |log| <= |s.log| && s.log[..|log|] == log
    && s.delivered == delivered
  }

  lemma WriterLeavesBatch(s: State, log: seq<Seg>, delivered: seq<Payload>, max: nat)
    requires s.cap > 0 && Reading(s, log, delivered, max)
    ensures Reading(WriterMove(s), log, delivered, max)
  {
    hide Phys, RecordByte;
    var s' := WriterMove(s);
    assert |s.log| <= |s'.log| && s'.log[..|s.log|] == s.log;
    assert s'.log[..|log|] == s'.log[..|s.log|][..|log|];
  }

  lemma BatchEnds(s: State, log: seq<Seg>, delivered: seq<Payload>, max: nat)
    requires Inv(s) && Reading(s, log, delivered, max)
    requires s.r.RScan? && !(s.r.h < s.r.t && |s.r.out| < max)
    ensures delivered + s.r.out == Take(Payloads(log), |delivered| + max)
  {
    hide WriterOk, AcceptedOf, SegAt;
    var i, e := s.r.i, s.r.e;
    PayloadsPrefix(s.log, i, e);
    EarlierStart(s.log, s.tail, i, e);
    EarlierStart(s.log, s.tail, e, |s.log|);
  }

  lemma ReadStep(s: State, a: Action, log: seq<Seg>, delivered: seq<Payload>, max: nat)
    requires Inv(s) && Reading(s, log, delivered, max)
    ensures var s' := Next(s, a);
            if s'.r.RIdle? then s'.delivered == Take(Payloads(log), |delivered| + max)
            else Reading(s', log, delivered, max)
  {
    hide WriterOk, ReaderOk, AcceptedOf, Holds, Payloads, Phys, FromLE;
    if a.WriterStep? {
      WriterLeavesBatch(s, log, delivered, max);
    } else if a.ReaderStep? && s.r.RScan? && !(s.r.h < s.r.t && |s.r.out| < max) {
      BatchEnds(s, log, delivered, max);
    } else if a.ReaderStep? {
      ReaderKeepsInv(s);
    }
  }

  /** The batch is still under way after every proper prefix of the schedule. */
  ghost predicate Batching(s: State, schedule: seq<Action>)
    requires s.cap > 0
  {
    forall k | 0 <= k < |schedule| :: !Run(s, schedule[..k]).r.RIdle?
  }

  lemma PrefixOfPrefix<T>(s: seq<T>, n: nat, k: nat)
    requires k <= n <= |s|
    ensures s[..n][..k] == s[..k]
  {
  }

  lemma BatchingBefore(s: State, schedule: seq<Action>)
    requires s.cap > 0 && schedule != [] && Batching(s, schedule)
    ensures var n := |schedule| - 1; Batching(s, schedule[..n]) && !Run(s, schedule[..n]).r.RIdle?
  {
    hide Run;
    var n := |schedule| - 1;
    forall k | 0 <= k < n
      ensures !Run(s, schedule[..n][..k]).r.RIdle?
    {
      PrefixOfPrefix(schedule, n, k);
    }
  }

  lemma {:induction false} ReadUnderWay(s: State, schedule: seq<Action>, log: seq<Seg>,
                                        delivered: seq<Payload>, max: nat)
    requires Inv(s) && Reading(s, log, delivered, max)
    requires Batching(s, schedule)
    ensures var s' := Run(s, schedule);
            && Inv(s')
            && if s'.r.RIdle? then s'.delivered == Take(Payloads(log), |delivered| + max)
               else Reading(s', log, delivered, max)
  {
    if schedule != [] {
      hide Inv, Next, Reading, Payloads, Batching;
      var n := |schedule| - 1;
      BatchingBefore(s, schedule);
      ReadUnderWay(s, schedule[..n], log, delivered, max);
      var m := Run(s, schedule[..n]);
      ReadStep(m, schedule[n], log, delivered, max);
      StepKeepsInv(m, schedule[n]);
    }
  }

  /**
   One whole call of read_batch, with any writer steps in between: it hands out
   exactly the next max of the payloads accepted when it began, or all that are
   left when there are fewer.
   */
  lemma ReadsWhatWasThere(s: State, max: nat, schedule: seq<Action>)
    requires Inv(s) && s.r.RIdle?
    requires var s1 := Next(s, BeginRead(max));
             && Batching(s1, schedule) && Run(s1, schedule).r.RIdle?
    ensures Run(Next(s, BeginRead(max)), schedule).delivered == Take(AcceptedOf(s.results), |s.delivered| + max)
  {
    hide *;
    BatchBegins(s, max);
    ReadUnderWay(Next(s, BeginRead(max)), schedule, s.log, s.delivered, max);
  }

  lemma BatchBegins(s: State, max: nat)
    requires Inv(s) && s.r.RIdle?
    ensures s.cap > 0
    ensures var s1 := Next(s, BeginRead(max));
            Inv(s1) && Reading(s1, s.log, s.delivered, max) && AcceptedOf(s.results) == Payloads(s.log)
  {
    StepKeepsInv(s, BeginRead(max));
    hide WriterOk, ReaderOk, Holds, Payloads, AcceptedOf;
    assert s.log[..|s.log|] == s.log;
  }

  // ----- the end of the ring -----

  /** The marker due at the tail does not fit, and no write is past its loads. */
  ghost predicate Wedged(s: State) {
    && Inv(s) && (s.w.WIdle? || s.w.WLoaded?)
    && !MarkerFits(s.cap, |s.mem|, s.tail)
  }

  lemma WedgedStep(s: State, a: Action)
    requires Wedged(s)
    ensures var s' := Next(s, a);
            Wedged(s') && s'.tail == s.tail && s'.cap == s.cap && AcceptedOf(s'.results) == AcceptedOf(s.results)
  {
    StepKeepsInv(s, a);
    if a.WriterStep? && s.w.WLoaded? {
      WedgedAnswer(s);
    } else if a.WriterStep? || (a.BeginWrite? && s.w.WIdle?) {
      hide Inv, Contig, AcceptedOf;
    } else {
      OtherStepsLeaveWriter(s, a);
      hide Inv, Contig, AcceptedOf, Next;
    }
  }

  /** The write under way is refused or raises. */
  lemma WedgedAnswer(s: State)
    requires Inv(s) && s.w.WLoaded? && !MarkerFits(s.cap, |s.mem|, s.tail)
    ensures var s' := WriterMove(s);
            && s'.w.WIdle? && s'.mem == s.mem && s'.tail == s.tail && s'.cap == s.cap
            && AcceptedOf(s'.results) == AcceptedOf(s.results)
  {
    hide ReaderOk, Phys, Holds, Payloads, AcceptedOf;
    FinishAccepted(s.results, Refused(s.w.payload));
    FinishAccepted(s.results, Raised(s.w.payload));
  }

  /**
   Once the tail stands where a marker does not fit, no schedule of writes and
   reads gets another payload into the ring: draining does not revive it.
   */
  lemma {:induction false} WedgedForever(s: State, schedule: seq<Action>)
    requires Wedged(s)
    ensures var s' := Run(s, schedule);
            Wedged(s') && s'.tail == s.tail && AcceptedOf(s'.results) == AcceptedOf(s.results)
  {
    if schedule != [] {
      hide Wedged, AcceptedOf, Next;
      var n := |schedule| - 1;
      WedgedForever(s, schedule[..n]);
      WedgedStep(Run(s, schedule[..n]), schedule[n]);
    }
  }
}
