/** Round trips of the frame codec and what the sequence rewrite keeps. */
module FrameLaws {
  import opened Wrappers
  import opened Bytes
  import opened Flags
  import opened Frames

  /** A frame that claims a checksum has four bytes for it after the topic. */
  predicate CrcHasRoom(f: seq<byte>)
    requires |f| >= HEAD
  {
    HasCrc(FlagsAt(f)) ==> TopicEnd(f) + 4 <= |f|
  }

  // ----- rewrite_seq -----

  lemma PatchedBytes(f: seq<byte>, b: seq<byte>, r: seq<byte>, n: nat)
    requires |f| >= HEAD && |b| == 8 && |r| == |f| && 15 <= n <= |f|
    requires r[..n] == (f[..7] + b + f[15..])[..n]
    ensures r[..7] == f[..7] && r[7..15] == b && r[15..n] == f[15..n]
  {
    var out := f[..7] + b + f[15..];
    assert r[..7] == r[..n][..7] && r[7..15] == r[..n][7..15] && r[15..n] == r[..n][15..n];
    assert out[..n][..7] == f[..7] && out[..n][7..15] == b && out[..n][15..n] == f[15..n];
  }

  lemma SameHead(f: seq<byte>, r: seq<byte>)
    requires |f| >= HEAD && |r| == |f| && r[..7] == f[..7]
    ensures FlagsAt(r) == FlagsAt(f) && MagicOk(r) == MagicOk(f) && r[2] == f[2] && r[3] == f[3]
    ensures r[5] == f[5] && r[6] == f[6] && TopicStart(r) == TopicStart(f) && TopicEnd(r) == TopicEnd(f)
  {
    hide HasAck;
    assert forall k | 0 <= k < 7 :: r[k] == r[..7][k] == f[k];
    assert r[..2] == r[..7][..2] && f[..2] == f[..7][..2];
  }

  lemma ShorterPrefix(s: seq<byte>, m: nat, n: nat)
    requires n <= m <= |s|
    ensures s[..m][..n] == s[..n]
  {
  }

  /** Where the rewrite leaves the frame alone. */
  lemma RewriteBytes<D>(env: Env<D>, f: seq<byte>, s: nat, n: nat)
    requires |f| >= HEAD && 15 <= n <= |f| && (HasCrc(FlagsAt(f)) ==> n <= |f| - 4)
    ensures var r := RewriteSeq(env, f, s);
            && r[..7] == f[..7] && r[7..15] == BE(s, 8) && r[15..n] == f[15..n]
            && FlagsAt(r) == FlagsAt(f) && MagicOk(r) == MagicOk(f) && r[2] == f[2] && r[3] == f[3]
            && r[5] == f[5] && r[6] == f[6] && TopicStart(r) == TopicStart(f) && TopicEnd(r) == TopicEnd(f)
  {
    hide BE, FromBE, HasCrc, HasAck, FlagsAt, MagicOk, TopicStart, TopicEnd;
    var r := RewriteSeq(env, f, s);
    var out := f[..7] + BE(s, 8) + f[15..];
    if HasCrc(FlagsAt(f)) {
      var body := out[..|out| - 4];
      assert r[..|body|] == body;
      ShorterPrefix(r, |body|, n);
      ShorterPrefix(out, |body|, n);
    }
    PatchedBytes(f, BE(s, 8), r, n);
    SameHead(f, r);
  }

  lemma SubSlice(r: seq<byte>, f: seq<byte>, n: nat, a: nat, b: nat)
    requires n <= |r| && n <= |f| && 15 <= a <= b <= n && r[15..n] == f[15..n]
    ensures r[a..b] == f[a..b]
  {
    InnerSlice(r, n, a, b);
    InnerSlice(f, n, a, b);
  }

  lemma InnerSlice(s: seq<byte>, n: nat, a: nat, b: nat)
    requires 15 <= a <= b <= n <= |s|
    ensures s[a..b] == s[15..n][a - 15..b - 15]
  {
    var t := s[15..n];
    assert forall k | 0 <= k < |t| :: t[k] == s[15 + k];
  }

  lemma SeqFits(s: nat)
    requires s < TWO_64
    ensures FromBE(BE(s, 8)) == s
  {
    assert Pow256(8) == TWO_64;
    FromBEOfBE(s, 8);
  }

  /**
   Rewriting changes the sequence number and nothing else a header decoder sees,
   for every frame whose claimed checksum has room.
   */
  lemma RewriteKeepsHeader<D>(env: Env<D>, f: seq<byte>, s: nat)
    requires DecodeHeader(env, f).Ok? && CrcHasRoom(f) && s < TWO_64
    ensures DecodeHeader(env, RewriteSeq(env, f, s)) == Ok(DecodeHeader(env, f).value.(seqNo := s))
  {
    hide BE, FromBE, HasCrc, HasAck, RewriteSeq;
    var r := RewriteSeq(env, f, s);
    var n := if HasCrc(FlagsAt(f)) then |f| - 4 else |f|;
    RewriteBytes(env, f, s, n);
    SeqFits(s);
    SubSlice(r, f, n, 15, 23);
    SubSlice(r, f, n, 23, 27);
    if HasAck(FlagsAt(f)) {
      SubSlice(r, f, n, 27, 31);
    }
    SubSlice(r, f, n, TopicStart(f), TopicEnd(f));
    SubSlice(r, f, n, TopicEnd(f), n);
    assert r[TopicEnd(f)..] == r[TopicEnd(f)..|r|] && f[TopicEnd(f)..] == f[TopicEnd(f)..|f|];
  }

  /** The last rewrite wins. */
  lemma LastRewriteWins<D>(env: Env<D>, f: seq<byte>, s1: nat, s2: nat)
    requires |f| >= HEAD
    ensures RewriteSeq(env, RewriteSeq(env, f, s1), s2) == RewriteSeq(env, f, s2)
  {
    hide BE, FromBE, HasCrc, HasAck;
    var r1 := RewriteSeq(env, f, s1);
    var n := if HasCrc(FlagsAt(f)) then |f| - 4 else |f|;
    RewriteBytes(env, f, s1, n);
    var out := f[..7] + BE(s2, 8) + f[15..];
    var out1 := r1[..7] + BE(s2, 8) + r1[15..];
    assert out1[..n] == out[..n] by {
      assert r1[15..][..n - 15] == r1[15..n] && f[15..][..n - 15] == f[15..n];
      assert out1[..n] == r1[..7] + BE(s2, 8) + r1[15..][..n - 15];
      assert out[..n] == f[..7] + BE(s2, 8) + f[15..][..n - 15];
    }
    if !HasCrc(FlagsAt(f)) {
      assert out1 == out1[..n] && out == out[..n];
    }
  }

  /** After a rewrite a claimed checksum is right. */
  lemma RewriteChecksum<D>(env: Env<D>, f: seq<byte>, s: nat)
    requires |f| >= HEAD && HasCrc(FlagsAt(f))
    ensures var r := RewriteSeq(env, f, s);
            CrcOf(env, r[..|r| - 4]) == FromBE(r[|r| - 4..])
  {
    hide BE, FromBE, HasCrc;
    var out := f[..7] + BE(s, 8) + f[15..];
    var body := out[..|out| - 4];
    var r := RewriteSeq(env, f, s);
    assert r == body + BE(CrcOf(env, body), 4);
    assert r[..|r| - 4] == body && r[|r| - 4..] == BE(CrcOf(env, body), 4);
    CrcFits(CrcOf(env, body));
  }

  lemma CrcFits(c: nat)
    requires c < TWO_32
    ensures FromBE(BE(c, 4)) == c
  {
    assert Pow256(4) == TWO_32;
    FromBEOfBE(c, 4);
  }

  // ----- when the checksum has no room -----

  lemma DifferentBytesDifferentNumber(a: seq<byte>, b: seq<byte>)
    requires |a| == |b| && a != b
    ensures FromBE(a) != FromBE(b)
  {
    BEOfFromBE(a);
    BEOfFromBE(b);
  }

  /**
   A frame that claims a checksum it has no room for loses part of its header to
   the rewrite, for some value of the checksum.
   */
  lemma RewriteClobbers<D(!new)>(env: Env<D>, f: seq<byte>, s: nat) returns (crc: seq<byte> -> nat)
    requires Lawful(env) && DecodeHeader(env, f).Ok? && !CrcHasRoom(f)
    ensures var env' := env.(crc32 := crc);
            DecodeHeader(env', RewriteSeq(env', f, s)) != Ok(DecodeHeader(env, f).value.(seqNo := s))
  {
    hide BE, FromBE, HasCrc, HasAck;
    var p := |f| - 4;
    var c: nat := if f[p] == 0 then 0x100_0000 else 0;
    crc := _ => c;
    var env' := env.(crc32 := crc);
    var r := RewriteSeq(env', f, s);
    RewriteBytes(env', f, s, p);
    LeadingByte(c);
    assert r[p] == BE(c, 4)[0] != f[p];
    HeaderDiffers(env, env', f, r, s, p);
  }

  /** Two frames with the same fixed head that differ at a byte before the payload have different headers. */
  lemma HeaderDiffers<D(!new)>(env: Env<D>, env': Env<D>, f: seq<byte>, r: seq<byte>, s: nat, p: nat)
    requires Lawful(env) && env'.decodeUtf8 == env.decodeUtf8 && DecodeHeader(env, f).Ok?
    requires |r| == |f| && r[..7] == f[..7] && 23 <= p < TopicEnd(f) && r[p] != f[p]
    ensures DecodeHeader(env', r) != Ok(DecodeHeader(env, f).value.(seqNo := s))
  {
    hide FromBE, HasCrc, HasAck;
    SameHead(f, r);
    var i, j := TopicStart(f), TopicEnd(f);
    if p < 27 {
      DifferAt(r, f, 23, 27, p);
    } else if p < i {
      DifferAt(r, f, 27, 31, p);
    } else {
      assert r[i..j] != f[i..j] by { SliceDiffers(r, f, i, j, p); }
      DifferentTopic(env, r[i..j], f[i..j]);
    }
  }

  lemma SliceDiffers(r: seq<byte>, f: seq<byte>, i: nat, j: nat, p: nat)
    requires |r| == |f| && i <= p < j <= |f| && r[p] != f[p]
    ensures r[i..j] != f[i..j]
  {
    assert r[i..j][p - i] == r[p] && f[i..j][p - i] == f[p];
  }

  lemma DifferAt(r: seq<byte>, f: seq<byte>, i: nat, j: nat, p: nat)
    requires |r| == |f| && i <= p < j <= |f| && r[p] != f[p]
    ensures FromBE(r[i..j]) != FromBE(f[i..j])
  {
    hide FromBE;
    SliceDiffers(r, f, i, j, p);
    DifferentBytesDifferentNumber(r[i..j], f[i..j]);
  }

  lemma DifferentTopic<D(!new)>(env: Env<D>, a: seq<byte>, b: seq<byte>)
    requires Lawful(env) && a != b && env.decodeUtf8(b).Some?
    ensures env.decodeUtf8(a) != env.decodeUtf8(b)
  {
    assert env.decodeUtf8(a).Some? ==> env.encodeUtf8(env.decodeUtf8(a).value) == a;
  }

  lemma LeadingByte(c: nat)
    requires c == 0 || c == 0x100_0000
    ensures BE(c, 4)[0] == (if c == 0 then 0 else 1)
    ensures CrcOf(Env(_ => c, _ => [], _ => None, (_: int) => 0, _ => 1, d => d, (_, _) => None,
                      (_, _) => None, (_, _) => [], (_, _) => None, (d, _, _) => d), []) == c
  {
    var s1 := BE(c, 4)[..3];
    assert s1 == BE(c / 256, 3);
    assert s1[..2] == BE(c / 256 / 256, 2);
    assert s1[..2][..1] == BE(c / 256 / 256 / 256, 1);
  }

  /** Whatever the checksum function, the rewrite keeps the header exactly when a claimed checksum has room. */
  lemma RewriteKeepsHeaderIff<D(!new)>(env: Env<D>, f: seq<byte>, s: nat)
    requires Lawful(env) && DecodeHeader(env, f).Ok? && s < TWO_64
    ensures (forall crc: seq<byte> -> nat ::
               var env' := env.(crc32 := crc);
               DecodeHeader(env', RewriteSeq(env', f, s)) == Ok(DecodeHeader(env, f).value.(seqNo := s)))
            <==> CrcHasRoom(f)
  {
    if CrcHasRoom(f) {
      forall crc: seq<byte> -> nat
        ensures var env' := env.(crc32 := crc);
                DecodeHeader(env', RewriteSeq(env', f, s)) == Ok(DecodeHeader(env, f).value.(seqNo := s))
      {
        RewriteKeepsHeader(env.(crc32 := crc), f, s);
      }
    } else {
      var crc := RewriteClobbers(env, f, s);
    }
  }

  // ----- encode, then decode -----

  ghost predicate IsBody<D>(env: Env<D>, f: seq<byte>, topic: string, payload: seq<byte>, msgType: byte, flags: bv8,
                            dataType: byte, ts: nat, count: nat, ack: Option<nat>, crc: bool)
  {
    && |env.encodeUtf8(topic)| <= 255
    && ts < TWO_64 && count <= MAX_RECORDS && (ack.Some? ==> ack.value < TWO_32)
    && HasAck(flags) == ack.Some? && HasCrc(flags) == crc
    && f == WithCrc(env, Body(env, topic, payload, msgType, flags, dataType, ts, count, ack), crc)
  }

  lemma FlagByteBack(b: bv8)
    ensures FlagByte(b) as bv8 == b
  {
  }

  lemma HeadFields(msgType: byte, flags: byte, dataType: byte, topicLen: byte, ts: nat, count: nat, f: seq<byte>)
    requires |f| >= HEAD && f[..HEAD] == Head(msgType, flags, dataType, topicLen, 0, ts, count)
    requires ts < TWO_64 && count < TWO_32
    ensures f[..2] == [0x50, 0x4D] && f[2] == VERSION && f[3] == msgType && f[4] == flags
    ensures f[5] == dataType && f[6] == topicLen && SeqAt(f) == 0 && TsAt(f) == ts && CountAt(f) == count
  {
    hide BE, FromBE;
    var h := Head(msgType, flags, dataType, topicLen, 0, ts, count);
    assert f[..2] == h[..2] by { assert f[..2] == f[..HEAD][..2]; }
    assert forall k | 0 <= k < 7 :: f[k] == h[k];
    assert f[7..15] == h[7..15] == BE(0, 8) by { assert f[7..15] == f[..HEAD][7..15]; }
    assert f[15..23] == h[15..23] == BE(ts, 8) by { assert f[15..23] == f[..HEAD][15..23]; }
    assert f[23..27] == h[23..27] == BE(count, 4) by { assert f[23..27] == f[..HEAD][23..27]; }
    SeqFits(0);
    SeqFits(ts);
    CrcFits(count);
  }

  lemma BodyParts<D>(env: Env<D>, f: seq<byte>, topic: string, payload: seq<byte>, msgType: byte, flags: bv8,
                     dataType: byte, ts: nat, count: nat, ack: Option<nat>, crc: bool)
    requires IsBody(env, f, topic, payload, msgType, flags, dataType, ts, count, ack, crc)
    ensures var t := env.encodeUtf8(topic);
            && |f| == HEAD + (if ack.Some? then 4 else 0) + |t| + |payload| + (if crc then 4 else 0)
            && f[..HEAD] == Head(msgType, FlagByte(flags), dataType, |t|, 0, ts, count)
            && (ack.Some? ==> f[HEAD..HEAD + 4] == BE(ack.value, 4))
            && (var i := HEAD + (if ack.Some? then 4 else 0);
                var j := i + |t|;
                && f[i..j] == t && f[j..j + |payload|] == payload
                && (crc ==> j + |payload| == |f| - 4 &&
                            f[|f| - 4..] == BE(CrcOf(env, f[..|f| - 4]), 4)))
  {
    hide BE, FromBE, Head, HasAck, HasCrc;
    var t := env.encodeUtf8(topic);
    var h := Head(msgType, FlagByte(flags), dataType, |t|, 0, ts, count);
    var a := if ack.Some? then BE(ack.value, 4) else [];
    var body := h + a + t + payload;
    Sections(h, a, t, payload, if crc then BE(CrcOf(env, body), 4) else []);
    assert body == Body(env, topic, payload, msgType, flags, dataType, ts, count, ack);
    assert body + [] == body;
    if crc {
      assert f[..|f| - 4] == body;
    }
  }

  lemma Sections(h: seq<byte>, a: seq<byte>, t: seq<byte>, p: seq<byte>, c: seq<byte>)
    ensures var f := h + a + t + p + c;
            && f[..|h|] == h
            && f[|h|..|h| + |a|] == a
            && f[|h| + |a|..|h| + |a| + |t|] == t
            && f[|h| + |a| + |t|..|h| + |a| + |t| + |p|] == p
            && f[|h| + |a| + |t| + |p|..] == c
            && f[..|h| + |a| + |t| + |p|] == h + a + t + p
  {
  }

  /** A frame built by the encoder decodes to its parts. */
  lemma BodyDecodes<D(!new)>(env: Env<D>, f: seq<byte>, topic: string, payload: seq<byte>, msgType: byte, flags: bv8,
                             dataType: byte, ts: nat, count: nat, ack: Option<nat>, crc: bool)
    requires Lawful(env) && IsBody(env, f, topic, payload, msgType, flags, dataType, ts, count, ack, crc)
    ensures |f| >= HEAD && CrcHasRoom(f) && f[5] == dataType && FlagsAt(f) == flags
    ensures DecodeHeader(env, f) == Ok(FrameHeader(topic, count, ts, msgType, payload, 0, ack))
    ensures crc ==> FromBE(f[|f| - 4..]) == CrcOf(env, f[..|f| - 4])
  {
    BodyParts(env, f, topic, payload, msgType, flags, dataType, ts, count, ack, crc);
    HeadFields(msgType, FlagByte(flags), dataType, |env.encodeUtf8(topic)|, ts, count, f);
    FlagByteBack(flags);
    if crc {
      CrcFits(CrcOf(env, f[..|f| - 4]));
    }
    if ack.Some? {
      CrcFits(ack.value);
    }
    hide BE, FromBE, Head, HasAck, HasCrc, IsBody;
    assert !crc ==> f[TopicEnd(f)..] == f[TopicEnd(f)..TopicEnd(f) + |payload|];
  }

  /** The full decoder succeeds on what the header decoder accepts when checksum and payload are in order. */
  lemma DecodeFromHeader<D>(env: Env<D>, f: seq<byte>, data: D)
    requires DecodeHeader(env, f).Ok? && CrcHasRoom(f)
    requires HasCrc(FlagsAt(f)) ==> CrcOf(env, f[..|f| - 4]) == FromBE(f[|f| - 4..])
    requires var (ser, comp) := DecodeFlags(FlagsAt(f));
             var plain := env.decompress(comp, DecodeHeader(env, f).value.rawPayload);
             plain.Some? && env.deserialize(ser, plain.value) == Some(data)
    ensures var h, (ser, comp) := DecodeHeader(env, f).value, DecodeFlags(FlagsAt(f));
            Decode(env, f) == Ok(Message(h.topic, env.restore(data, f[5], ser), h.rawPayload, h.recordCount,
                                         h.timestamp, ser, comp, f[5], h.msgType, h.seqNo))
  {
    hide BE, FromBE, HasAck, HasCrc, DecodeFlags;
  }

  /** What this datum is prepared to, serialized to, and compressed with. */
  ghost predicate Encodes<D>(env: Env<D>, data: D, o: Options, p: Prepared<D>, raw: seq<byte>, comp: Compression) {
    && Prepare(env, data, o.ser, o.dataType) == Ok(p)
    && env.serialize(p.ser, p.data) == Some(raw)
    && comp == Chosen(o.choice, raw)
  }

  lemma EncodeFits<D>(env: Env<D>, topic: string, data: D, o: Options)
    returns (p: Prepared<D>, raw: seq<byte>, comp: Compression)
    requires Encode(env, topic, data, o).Ok?
    ensures Encodes(env, data, o, p, raw, comp)
    ensures 0 <= CountOf(env, p.data, o) <= MAX_RECORDS && 0 <= o.ts < TWO_64
    ensures 0 <= o.msgType < 256 && 0 <= p.dataType < 256 && (o.ack.Some? ==> 0 <= o.ack.value < TWO_32)
    ensures var ack := if o.ack.Some? then Some(o.ack.value as nat) else None;
            IsBody(env, Encode(env, topic, data, o).value, topic, env.compress(comp, raw), o.msgType,
                   EncodeFlags(p.ser, comp, o.crc, o.ack.Some?), p.dataType, o.ts, CountOf(env, p.data, o), ack, o.crc)
  {
    hide EncodeFlags, Body, WithCrc;
    p := Prepare(env, data, o.ser, o.dataType).value;
    raw := env.serialize(p.ser, p.data).value;
    comp := Chosen(o.choice, raw);
    FlagsRoundTrip(p.ser, comp, o.crc, o.ack.Some?);
    hide HasAck, HasCrc, DecodeFlags;
  }

  // ----- what the decoders accept -----

  /** The checksum is there and right, if the frame claims one. */
  predicate ChecksumHolds<D>(env: Env<D>, f: seq<byte>)
    requires |f| >= HEAD
  {
    HasCrc(FlagsAt(f)) ==> CrcHasRoom(f) && env.crc32(f[..|f| - 4]) % TWO_32 == FromBE(f[|f| - 4..])
  }

  /** What the codecs make of a payload. */
  ghost function Plain<D>(env: Env<D>, flags: bv8, raw: seq<byte>): Option<D> {
    var (ser, comp) := DecodeFlags(flags);
    match env.decompress(comp, raw) case None => None case Some(plain) => env.deserialize(ser, plain)
  }

  /**
   The full decoder accepts exactly the frames whose header decodes, whose claimed
   checksum is there and right, and whose payload the codecs read; a frame with a
   wrong checksum is refused as such.
   */
  lemma DecodeAcceptsIff<D>(env: Env<D>, f: seq<byte>)
    ensures Decode(env, f).Ok? <==>
            && DecodeHeader(env, f).Ok? && |f| >= HEAD && ChecksumHolds(env, f)
            && Plain(env, FlagsAt(f), DecodeHeader(env, f).value.rawPayload).Some?
    ensures DecodeHeader(env, f).Ok? && |f| >= HEAD && CrcHasRoom(f) && !ChecksumHolds(env, f) ==>
              Decode(env, f) == Err(CrcMismatch)
    ensures Decode(env, f).Ok? ==>
              && |f| >= HEAD && DecodeHeader(env, f).Ok?
              && (var h, d := DecodeHeader(env, f).value, Plain(env, FlagsAt(f), DecodeHeader(env, f).value.rawPayload);
                  var (ser, comp) := DecodeFlags(FlagsAt(f));
                  d.Some? &&
                  Decode(env, f) == Ok(Message(h.topic, env.restore(d.value, f[5], ser), h.rawPayload, h.recordCount,
                                               h.timestamp, ser, comp, f[5], h.msgType, h.seqNo)))
  {
    hide FromBE, HasAck, HasCrc, DecodeFlags;
  }

  /**
   The header decoder accepts exactly what has the magic, the version, room for
   token and topic, and a topic in UTF-8.
   */
  lemma HeaderAcceptsIff<D>(env: Env<D>, f: seq<byte>)
    ensures DecodeHeader(env, f).Ok? <==>
            && |f| >= 27 && f[0] == 0x50 && f[1] == 0x4D && f[2] == 3
            && (var at := if HasAck(f[4] as bv8) then 31 else 27;
                at + f[6] <= |f| && env.decodeUtf8(f[at..at + f[6]]).Some?)
  {
    hide FromBE, HasAck, HasCrc;
    if |f| >= 27 {
      assert f[..2] == [f[0], f[1]];
    }
  }

  /** The fixed part of an accepted frame. */
  lemma FixedPart<D>(env: Env<D>, f: seq<byte>)
    requires DecodeHeader(env, f).Ok?
    ensures |f| >= 27
    ensures var h := DecodeHeader(env, f).value;
            f[..27] == [0x50, 0x4D, 3, h.msgType, f[4], f[5], f[6]] + BE(h.seqNo, 8) + BE(h.timestamp, 8)
                       + BE(h.recordCount, 4)
  {
    hide BE, FromBE, HasAck, HasCrc;
    HeaderAcceptsIff(env, f);
    BEOfFromBE(f[7..15]);
    BEOfFromBE(f[15..23]);
    BEOfFromBE(f[23..27]);
    assert f[..27] == [f[0], f[1], f[2], f[3], f[4], f[5], f[6]] + f[7..15] + f[15..23] + f[23..27];
  }

  /** The token and the topic behind it. */
  lemma VariablePart<D(!new)>(env: Env<D>, f: seq<byte>)
    requires Lawful(env) && DecodeHeader(env, f).Ok?
    ensures |f| >= 27 && TopicEnd(f) <= |f|
    ensures var h := DecodeHeader(env, f).value;
            && (h.ackToken.Some? <==> HasAck(f[4] as bv8))
            && f[..TopicEnd(f)] == f[..27] + (if h.ackToken.Some? then BE(h.ackToken.value, 4) else [])
                                   + env.encodeUtf8(h.topic)
            && |env.encodeUtf8(h.topic)| == f[6]
  {
    hide BE, FromBE, HasAck, HasCrc;
    var i, j := TopicStart(f), TopicEnd(f);
    var h := DecodeHeader(env, f).value;
    assert env.encodeUtf8(h.topic) == f[i..j];
    Adjoin(f, i, j);
    if h.ackToken.Some? {
      BEOfFromBE(f[27..31]);
      Adjoin(f, 27, 31);
    }
  }

  /**
   A decoded header says where every byte before the payload comes from: the frame
   begins with exactly these fields in this order, and the payload follows.
   */
  lemma HeaderRebuilds<D(!new)>(env: Env<D>, f: seq<byte>)
    requires Lawful(env) && DecodeHeader(env, f).Ok?
    ensures |f| >= 27
    ensures var h := DecodeHeader(env, f).value;
            var t := env.encodeUtf8(h.topic);
            var n := 27 + (if h.ackToken.Some? then 4 else 0) + |t|;
            && |t| == f[6] && (h.ackToken.Some? <==> HasAck(f[4] as bv8)) && n <= |f|
            && f[..n] == [0x50, 0x4D, 3, h.msgType, f[4], f[5], f[6]] + BE(h.seqNo, 8) + BE(h.timestamp, 8)
                         + BE(h.recordCount, 4) + (if h.ackToken.Some? then BE(h.ackToken.value, 4) else []) + t
            && (!HasCrc(f[4] as bv8) ==> h.rawPayload == f[n..])
            && (HasCrc(f[4] as bv8) && n + 4 <= |f| ==> h.rawPayload == f[n..|f| - 4])
  {
    FixedPart(env, f);
    VariablePart(env, f);
    hide BE, FromBE, HasAck, HasCrc, Lawful;
  }

  lemma Adjoin(f: seq<byte>, i: nat, j: nat)
    requires i <= j <= |f|
    ensures f[..j] == f[..i] + f[i..j]
  {
  }

  // ----- what the encoder accepts -----

  /** The number of bytes encode produces. */
  function EncodedSize<D>(env: Env<D>, topic: string, o: Options, payload: seq<byte>): nat {
    27 + (if o.ack.Some? then 4 else 0) + |env.encodeUtf8(topic)| + |payload| + (if o.crc then 4 else 0)
  }

  /** Every input the encoder accepts, and no other. */
  lemma EncodeAcceptsIff<D>(env: Env<D>, topic: string, data: D, o: Options)
    ensures Encode(env, topic, data, o).Ok? <==>
            && Prepare(env, data, o.ser, o.dataType).Ok?
            && (var p := Prepare(env, data, o.ser, o.dataType).value;
                && 0 <= CountOf(env, p.data, o) <= 1_000_000 && |env.encodeUtf8(topic)| <= 255
                && env.serialize(p.ser, p.data).Some?
                && 0 <= o.msgType <= 255 && 0 <= p.dataType <= 255 && 0 <= o.ts < TWO_64
                && (o.ack.Some? ==> 0 <= o.ack.value < TWO_32)
                && (var raw := env.serialize(p.ser, p.data).value;
                    EncodedSize(env, topic, o, env.compress(Chosen(o.choice, raw), raw)) <= 256 * 1024 * 1024))
  {
    hide BE, EncodeFlags, CrcOf;
    var pr := Prepare(env, data, o.ser, o.dataType);
    if pr.Ok? && env.serialize(pr.value.ser, pr.value.data).Some? && |env.encodeUtf8(topic)| <= 255 {
      BuildAcceptsIff(env, topic, pr.value, env.serialize(pr.value.ser, pr.value.data).value,
                      CountOf(env, pr.value.data, o), o);
      hide Build;
    }
  }

  lemma BuildAcceptsIff<D>(env: Env<D>, topic: string, p: Prepared<D>, raw: seq<byte>, count: int, o: Options)
    requires |env.encodeUtf8(topic)| <= 255
    ensures Build(env, topic, p, raw, count, o).Ok? <==>
            && 0 <= o.msgType <= 255 && 0 <= p.dataType <= 255 && 0 <= o.ts < TWO_64 && 0 <= count
            && (o.ack.Some? ==> 0 <= o.ack.value < TWO_32)
            && EncodedSize(env, topic, o, env.compress(Chosen(o.choice, raw), raw)) <= 256 * 1024 * 1024
  {
    hide BE, EncodeFlags, CrcOf, Chosen;
  }

  /** Which data type and serializer an omitted argument stands for, and what is refused. */
  lemma PreparedAs<D>(env: Env<D>, data: D, ser: Option<Serializer>, dataType: Option<int>)
    ensures var dt := if dataType.Some? then dataType.value else env.typeOf(data);
            var ok := dt != UNKNOWN || dataType.Some?;
            match Prepare(env, data, ser, dataType)
            case Err(e) => !ok || (ser.Some? && (
                             (dt == DICT && ser.value !in {Msgpack, Json}) ||
                             (dt == DATAFRAME && ser.value !in {Msgpack, Json, Pyarrow}) ||
                             (dt == STR && ser.value != Str) || (dt == BYTES && ser.value != RawBytes)))
            case Ok(p) =>
              && ok && p.dataType == dt
              && (ser.Some? ==> p.ser == ser.value)
              && (ser.None? ==> p.ser == if dt == DATAFRAME then Pyarrow else if dt == STR then Str
                                         else if dt == BYTES then RawBytes else Msgpack)
              && (dt == DICT ==> p.ser in {Msgpack, Json}) && (dt == STR ==> p.ser == Str)
              && (dt == BYTES ==> p.ser == RawBytes) && (dt == DATAFRAME ==> p.ser in {Msgpack, Json, Pyarrow})
              && p.data == if dt == DATAFRAME && p.ser != Pyarrow then env.toRecords(data) else data
  {
  }

  /**
   The codec round trip with the broker in between: every frame the encoder
   accepts, renumbered to s, reads with the same topic, count, timestamp, types,
   codecs and ack token and with sequence number s, keeps its length, and passes
   its checksum.  Its payload is what the serializer makes of its own output for
   this datum, restored by data type; nothing is asked of other data or codecs.
   */
  lemma EncodeRewriteDecode<D(!new)>(env: Env<D>, topic: string, data: D, o: Options, p: Prepared<D>, raw: seq<byte>,
                                     comp: Compression, back: D, s: nat)
    requires Lawful(env) && s < TWO_64
    requires Encode(env, topic, data, o).Ok? && Encodes(env, data, o, p, raw, comp)
    requires env.decompress(comp, env.compress(comp, raw)) == Some(raw) && env.deserialize(p.ser, raw) == Some(back)
    ensures 0 <= CountOf(env, p.data, o) && 0 <= o.ts && 0 <= o.msgType < 256 && 0 <= p.dataType < 256
    ensures o.ack.Some? ==> o.ack.value >= 0
    ensures comp == match o.choice case Use(c) => c case Auto => if |raw| < 256 then NoCompression else Lz4
    ensures var f := Encode(env, topic, data, o).value;
            |f| >= HEAD &&
            (var r, count, payload := RewriteSeq(env, f, s), CountOf(env, p.data, o), env.compress(comp, raw);
             var ack := if o.ack.Some? then Some(o.ack.value as nat) else None;
             && |r| == |f|
             && DecodeHeader(env, r) == Ok(FrameHeader(topic, count, o.ts, o.msgType, payload, s, ack))
             && Decode(env, r) == Ok(Message(topic, env.restore(back, p.dataType, p.ser), payload, count, o.ts,
                                             p.ser, comp, p.dataType, o.msgType, s)))
  {
    var f := Encode(env, topic, data, o).value;
    var p', raw', comp' := EncodeFits(env, topic, data, o);
    var flags := EncodeFlags(p.ser, comp, o.crc, o.ack.Some?);
    var ack := if o.ack.Some? then Some(o.ack.value as nat) else None;
    FlagsRoundTrip(p.ser, comp, o.crc, o.ack.Some?);
    hide BE, FromBE, HasAck, HasCrc, DecodeFlags, EncodeFlags, DecodeHeader, Decode, RewriteSeq, CrcHasRoom,
         IsBody, Encode, Lawful;
    BodyDecodes(env, f, topic, env.compress(comp, raw), o.msgType, flags, p.dataType, o.ts,
                CountOf(env, p.data, o), ack, o.crc);
    var r := RewriteSeq(env, f, s);
    RewriteKeepsHeader(env, f, s);
    RewriteKeepsShape(env, f, s);
    if o.crc {
      RewriteChecksum(env, f, s);
    }
    DecodeFromHeader(env, r, back);
  }

  lemma RewriteKeepsShape<D>(env: Env<D>, f: seq<byte>, s: nat)
    requires DecodeHeader(env, f).Ok? && CrcHasRoom(f)
    ensures var r := RewriteSeq(env, f, s);
            CrcHasRoom(r) && FlagsAt(r) == FlagsAt(f) && r[5] == f[5]
  {
    hide BE, FromBE, HasAck, HasCrc, RewriteSeq;
    RewriteBytes(env, f, s, if HasCrc(FlagsAt(f)) then |f| - 4 else |f|);
  }
}
