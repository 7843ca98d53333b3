/**
 The byte layout of the shared-memory ring: what it means for the stretch of
 bytes between two cumulative counters to hold a list of payloads.

 A counter x addresses the data byte x % cap.  A record is a 4-byte
 little-endian length followed by the payload and never crosses the physical
 end; a length of PAD says "continue at the physical start".  The data area is
 followed by `slack` bytes that a marker may spill into when fewer than four
 bytes are left before the physical end.
 */
module RingLayout {
  import opened Bytes

  type Payload = seq<byte>

  const PAD: nat := 0xFFFF_FFFF
  const MARK: seq<byte> := [255, 255, 255, 255]

  /** x % cap, by repeated subtraction (PhysIsMod). */
  function Phys(x: nat, cap: nat): (r: nat)
    requires cap > 0
    ensures r < cap
  {
    if x < cap then x else Phys(x - cap, cap)
  }

  /** Bytes left from counter x to the physical end. */
  function Contig(x: nat, cap: nat): (r: nat)
    requires cap > 0
    ensures 0 < r <= cap
  {
    cap - Phys(x, cap)
  }

  function Record(p: Payload): seq<byte>
    requires |p| <= PAD
  {
    LE(|p|, 4) + p
  }

  /** The bytes of data sit in mem from position o on. */
  ghost predicate At(mem: seq<byte>, o: nat, data: seq<byte>) {
    o + |data| <= |mem| && mem[o..o + |data|] == data
  }

  lemma AtByte(mem: seq<byte>, o: nat, data: seq<byte>, k: nat)
    requires At(mem, o, data) && k < |data|
    ensures mem[o + k] == data[k]
  {
    assert mem[o + k] == mem[o..o + |data|][k];
  }

  lemma AtIntro(mem: seq<byte>, o: nat, data: seq<byte>)
    requires o + |data| <= |mem|
    requires forall k | 0 <= k < |data| :: data[k] == mem[o + k]
    ensures At(mem, o, data)
  {
  }

  lemma AtExtend(mem: seq<byte>, o: nat, data: seq<byte>, k: nat)
    requires k < |data| && o + k < |mem| && At(mem, o, data[..k])
    ensures At(mem[o + k := data[k]], o, data[..k + 1])
  {
    var mem' := mem[o + k := data[k]];
    assert mem'[o..o + k] == mem[o..o + k];
    assert mem'[o..o + k + 1] == mem'[o..o + k] + [data[k]];
    assert data[..k + 1] == data[..k] + [data[k]];
  }

  ghost predicate PadAt(mem: seq<byte>, cap: nat, x: nat)
    requires cap > 0
  {
    At(mem, Phys(x, cap), MARK)
  }

  ghost predicate RecordAt(mem: seq<byte>, cap: nat, x: nat, p: Payload)
    requires 0 < cap <= |mem|
  {
    && |p| < PAD
    && Phys(x, cap) + 4 + |p| <= cap
    && At(mem, Phys(x, cap), Record(p))
  }

  /** One published stretch: a wrap-around marker or a record. */
  datatype Seg = Pad(start: nat, len: nat) | Rec(start: nat, payload: Payload) {
    function End(): nat {
      match this
      case Pad(s, n) => s + n
      case Rec(s, p) => s + 4 + |p|
    }
  }

  ghost predicate SegAt(mem: seq<byte>, cap: nat, g: Seg)
    requires 0 < cap <= |mem|
  {
    match g
    case Pad(s, n) => n == Contig(s, cap) && PadAt(mem, cap, s)
    case Rec(s, p) => RecordAt(mem, cap, s, p)
  }

  ghost predicate Adjacent(log: seq<Seg>, i: nat)
    requires 0 < i < |log|
  {
    log[i].start == log[i - 1].End()
  }

  /** The segments tile the counters from 0 to t. */
  ghost predicate Chain(log: seq<Seg>, t: nat) {
    && (if log == [] then t == 0 else log[0].start == 0 && log[|log| - 1].End() == t)
    && (forall i | 0 < i < |log| :: Adjacent(log, i))
    && (forall i | 0 <= i < |log| :: log[i].start < log[i].End() <= t)
  }

  ghost function StartOf(log: seq<Seg>, r: nat, t: nat): nat
    requires r <= |log|
  {
    if r < |log| then log[r].start else t
  }

  /**
   log lists every segment published up to counter t; the bytes from counter h,
   where segment r starts, up to t still spell out the segments from r on.
   */
  ghost predicate Holds(mem: seq<byte>, cap: nat, log: seq<Seg>, r: nat, h: nat, t: nat)
    requires 0 < cap <= |mem|
  {
    && Chain(log, t)
    && r <= |log|
    && h == StartOf(log, r, t)
    && forall i | r <= i < |log| :: SegAt(mem, cap, log[i])
  }

  ghost function Payloads(segs: seq<Seg>): seq<Payload> {
    if segs == [] then []
    else Payloads(segs[..|segs| - 1]) + (if segs[|segs| - 1].Rec? then [segs[|segs| - 1].payload] else [])
  }

  // ----- positions -----

  lemma {:induction false} PhysIsMod(x: nat, cap: nat)
    requires cap > 0
    ensures Phys(x, cap) == x % cap
  {
    if x >= cap {
      PhysIsMod(x - cap, cap);
      ModStep(x, cap);
    }
  }

  lemma ModStep(x: nat, cap: nat)
    requires 0 < cap <= x
    ensures x % cap == (x - cap) % cap
  {
    var k := x / cap - (x - cap) / cap - 1;
    var d := (x - cap) % cap - x % cap;
    assert k * cap == d by {
      assert x == (x / cap) * cap + x % cap;
      assert x - cap == ((x - cap) / cap) * cap + (x - cap) % cap;
      Distribute(x / cap, (x - cap) / cap, cap);
    }
    SmallMultiple(k, cap, d);
  }

  lemma Distribute(a: int, b: int, c: int)
    ensures (a - b - 1) * c == a * c - b * c - c
  {
  }

  lemma SmallMultiple(k: int, cap: nat, d: int)
    requires k * cap == d && -(cap as int) < d < cap
    ensures d == 0
  {
    Monotone(k, cap);
  }

  lemma Monotone(k: int, c: nat)
    ensures k >= 1 ==> k * c >= c
    ensures k <= -1 ==> k * c <= -(c as int)
  {
    if k >= 1 {
      assert (k - 1) * c >= 0;
    } else if k <= -1 {
      assert (k + 1) * c <= 0;
    }
  }

  lemma {:induction false} PhysAdd(x: nat, d: nat, cap: nat)
    requires cap > 0 && Phys(x, cap) + d < cap
    ensures Phys(x + d, cap) == Phys(x, cap) + d
  {
    if x >= cap {
      PhysAdd(x - cap, d, cap);
    }
  }

  lemma {:induction false} PhysWrap(x: nat, cap: nat)
    requires cap > 0
    ensures Phys(x + Contig(x, cap), cap) == 0
  {
    if x >= cap {
      PhysWrap(x - cap, cap);
    }
  }

  /** Two counters less than one lap apart address different bytes. */
  lemma {:induction false} NoAlias(x: nat, y: nat, cap: nat)
    requires x < y < x + cap
    ensures Phys(x, cap) != Phys(y, cap)
  {
    if x >= cap {
      NoAlias(x - cap, y - cap, cap);
    }
  }

  // ----- records -----

  lemma RecordShape(p: Payload)
    requires |p| < PAD
    ensures |Record(p)| == 4 + |p|
    ensures Record(p)[..4] == LE(|p|, 4) && Record(p)[4..] == p
    ensures FromLE(LE(|p|, 4)) == |p|
    ensures Record(p)[..4] != MARK
  {
    assert Pow256(4) == 0x1_0000_0000;
    FromLEOfLE(|p|, 4);
    assert FromLE(MARK) == PAD by { MarkIsPad(); }
  }

  lemma MarkIsPad()
    ensures FromLE(MARK) == PAD
  {
    assert MARK[1..] == [255, 255, 255];
    assert MARK[1..][1..] == [255, 255];
    assert MARK[1..][1..][1..] == [255];
    assert FromLE([255]) == 255;
    assert FromLE([255, 255]) == 65535;
    assert FromLE([255, 255, 255]) == 16777215;
  }

  /** What a reader sees in the four bytes at x tells a marker from a record. */
  lemma RecordHeader(mem: seq<byte>, cap: nat, x: nat, p: Payload)
    requires 0 < cap <= |mem| && RecordAt(mem, cap, x, p)
    ensures FromLE(mem[Phys(x, cap)..Phys(x, cap) + 4]) == |p|
    ensures !PadAt(mem, cap, x)
    ensures At(mem, Phys(x, cap) + 4, p)
  {
    RecordShape(p);
    var o := Phys(x, cap);
    var r := mem[o..o + 4 + |p|];
    assert r[..4] == mem[o..o + 4];
    assert r[4..] == mem[o + 4..o + 4 + |p|];
  }

  lemma PadHeader(mem: seq<byte>, cap: nat, x: nat)
    requires 0 < cap <= |mem| && PadAt(mem, cap, x)
    ensures FromLE(mem[Phys(x, cap)..Phys(x, cap) + 4]) == PAD
  {
    MarkIsPad();
  }

  /** The four bytes a segment begins with. */
  function HeaderOf(g: Seg): (b: seq<byte>)
    ensures |b| == 4
  {
    match g case Pad(_, _) => MARK case Rec(_, p) => LE(|p|, 4)
  }

  lemma HeaderByte(mem: seq<byte>, cap: nat, g: Seg, k: nat)
    requires 0 < cap <= |mem| && SegAt(mem, cap, g) && k < 4
    ensures Phys(g.start, cap) + 4 <= |mem| && mem[Phys(g.start, cap) + k] == HeaderOf(g)[k]
  {
    hide LE;
    var bytes := if g.Pad? then MARK else Record(g.payload);
    AtByte(mem, Phys(g.start, cap), bytes, k);
  }

  /** The header tells a marker from a record and gives the record's length. */
  lemma HeaderRead(mem: seq<byte>, cap: nat, g: Seg)
    requires 0 < cap <= |mem| && SegAt(mem, cap, g)
    ensures FromLE(HeaderOf(g)) == if g.Pad? then PAD else |g.payload|
  {
    match g
    case Pad(_, _) => MarkIsPad();
    case Rec(_, p) => RecordShape(p);
  }

  lemma SegmentHeader(mem: seq<byte>, cap: nat, g: Seg)
    requires 0 < cap <= |mem| && SegAt(mem, cap, g)
    ensures var o := Phys(g.start, cap);
            && o + 4 <= |mem|
            && FromLE(mem[o..o + 4]) == (if g.Pad? then PAD else |g.payload|)
            && (g.Pad? ==> g.len == Contig(g.start, cap))
            && (g.Rec? ==> |g.payload| < PAD && At(mem, o + 4, g.payload))
  {
    match g
    case Pad(x, _) => PadHeader(mem, cap, x);
    case Rec(x, p) => RecordHeader(mem, cap, x, p);
  }

  // ----- building and framing Holds -----

  lemma HoldsAppend(mem: seq<byte>, cap: nat, log: seq<Seg>, r: nat, h: nat, t: nat, g: Seg)
    requires 0 < cap <= |mem| && Holds(mem, cap, log, r, h, t)
    requires SegAt(mem, cap, g) && g.start == t
    ensures Holds(mem, cap, log + [g], r, h, g.End())
    ensures Payloads(log + [g]) == Payloads(log) + (if g.Rec? then [g.payload] else [])
  {
    assert (log + [g])[..|log|] == log;
    forall i | 0 < i < |log + [g]|
      ensures Adjacent(log + [g], i)
    {
      assert i < |log| ==> Adjacent(log, i);
    }
  }

  lemma HoldsAdvance(mem: seq<byte>, cap: nat, log: seq<Seg>, r: nat, h: nat, t: nat)
    requires 0 < cap <= |mem| && Holds(mem, cap, log, r, h, t) && h < t
    ensures r < |log| && log[r].start == h && SegAt(mem, cap, log[r])
    ensures h < log[r].End() <= t
    ensures Holds(mem, cap, log, r + 1, log[r].End(), t)
    ensures Payloads(log[..r + 1]) == Payloads(log[..r]) + (if log[r].Rec? then [log[r].payload] else [])
  {
    assert log[..r + 1][..r] == log[..r];
    assert r + 1 < |log| ==> Adjacent(log, r + 1);
  }

  lemma {:induction false} EarlierStart(log: seq<Seg>, t: nat, r: nat, s: nat)
    requires Chain(log, t) && r <= s <= |log|
    ensures StartOf(log, r, t) <= StartOf(log, s, t)
    ensures r < s ==> StartOf(log, r, t) < StartOf(log, s, t)
    decreases s - r
  {
    if r < s {
      assert r + 1 < |log| ==> Adjacent(log, r + 1);
      EarlierStart(log, t, r + 1, s);
    }
  }

  lemma PayloadsPrefix(log: seq<Seg>, r: nat, s: nat)
    requires r <= s <= |log|
    ensures Payloads(log[..r]) <= Payloads(log[..s]) <= Payloads(log)
  {
    assert log[..s][..r] == log[..r];
    PayloadsSplit(log[..s], r);
    PayloadsSplit(log, s);
  }

  lemma {:induction false} PayloadsSplit(segs: seq<Seg>, n: nat)
    requires n <= |segs|
    ensures Payloads(segs) == Payloads(segs[..n]) + Payloads(segs[n..])
    decreases |segs|
  {
    if n == |segs| {
      assert segs[..n] == segs && segs[n..] == [];
    } else {
      var k := |segs| - 1;
      PayloadsSplit(segs[..k], n);
      assert segs[..k][..n] == segs[..n];
      assert segs[n..][..k - n] == segs[..k][n..];
    }
  }

  /** The bytes from h to t are untouched; slack bytes only ever become marker bytes. */
  ghost predicate Stable(mem: seq<byte>, mem': seq<byte>, cap: nat, h: nat, t: nat)
    requires 0 < cap <= |mem|
  {
    && |mem'| == |mem|
    && (forall x: nat {:trigger Phys(x, cap)} | h <= x < t :: mem'[Phys(x, cap)] == mem[Phys(x, cap)])
    && (forall k | cap <= k < |mem| :: mem'[k] == mem[k] || mem'[k] == 255)
  }

  /** What keeps a longer stretch keeps a shorter one. */
  lemma StableLess(mem: seq<byte>, mem': seq<byte>, cap: nat, h: nat, t: nat, t0: nat)
    requires 0 < cap <= |mem| && Stable(mem, mem', cap, h, t0) && t <= t0
    ensures Stable(mem, mem', cap, h, t)
  {
  }

  lemma PadStable(mem: seq<byte>, mem': seq<byte>, cap: nat, h: nat, t: nat, x: nat)
    requires 0 < cap <= |mem| && Stable(mem, mem', cap, h, t)
    requires h <= x && x + Contig(x, cap) <= t && PadAt(mem, cap, x)
    ensures PadAt(mem', cap, x)
  {
    var o := Phys(x, cap);
    forall k | 0 <= k < 4
      ensures MARK[k] == mem'[o + k]
    {
      AtByte(mem, o, MARK, k);
      if o + k < cap {
        PhysAdd(x, k, cap);
      }
    }
    AtIntro(mem', o, MARK);
  }

  lemma RecordStable(mem: seq<byte>, mem': seq<byte>, cap: nat, h: nat, t: nat, x: nat, p: Payload)
    requires 0 < cap <= |mem| && Stable(mem, mem', cap, h, t)
    requires h <= x && x + 4 + |p| <= t && RecordAt(mem, cap, x, p)
    ensures RecordAt(mem', cap, x, p)
  {
    var o, r := Phys(x, cap), Record(p);
    forall k | 0 <= k < |r|
      ensures r[k] == mem'[o + k]
    {
      PhysAdd(x, k, cap);
      AtByte(mem, o, r, k);
    }
    AtIntro(mem', o, r);
  }

  lemma HoldsStable(mem: seq<byte>, mem': seq<byte>, cap: nat,
                    log: seq<Seg>, r: nat, h: nat, t: nat, h0: nat, t0: nat)
    requires 0 < cap <= |mem| && Stable(mem, mem', cap, h0, t0)
    requires h0 <= h && t <= t0 && Holds(mem, cap, log, r, h, t)
    ensures Holds(mem', cap, log, r, h, t)
  {
    hide PadAt, RecordAt;
    forall i | r <= i < |log|
      ensures SegAt(mem', cap, log[i])
    {
      assert SegAt(mem, cap, log[i]);
      EarlierStart(log, t, r, i);
      match log[i] {
        case Pad(s, n) => PadStable(mem, mem', cap, h0, t0, s);
        case Rec(s, p) => RecordStable(mem, mem', cap, h0, t0, s, p);
      }
    }
  }

  /** A store at counter y, less than a lap ahead of h and not before t, leaves h..t alone. */
  lemma StoreStable(mem: seq<byte>, cap: nat, h: nat, t: nat, y: nat, b: byte)
    requires 0 < cap <= |mem| && h <= t <= y < h + cap
    ensures Stable(mem, mem[Phys(y, cap) := b], cap, h, t)
  {
    forall x: nat | h <= x < t
      ensures Phys(x, cap) != Phys(y, cap)
    {
      NoAlias(x, y, cap);
    }
  }

  lemma SpillStable(mem: seq<byte>, cap: nat, h: nat, t: nat, k: nat)
    requires 0 < cap <= k < |mem|
    ensures Stable(mem, mem[k := 255], cap, h, t)
  {
  }
}
