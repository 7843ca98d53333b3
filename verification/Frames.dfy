/**
 The v3 frame: one encoder, three decoders that read different amounts of it,
 and the in-place rewrite of the sequence number.

 What Python gets from other libraries is a parameter: UTF-8, the CRC-32
 checksum, the serializers and the compressors.
 */
module Frames {
  import opened Wrappers
  import opened Bytes
  import opened Flags

  datatype Env<!D> = Env(
    crc32: seq<byte> -> nat,
    encodeUtf8: string -> seq<byte>,
    decodeUtf8: seq<byte> -> Option<string>,
    typeOf: D -> byte,                              // _infer_data_type
    recordCount: D -> nat,                          // _infer_record_count
    toRecords: D -> D,                              // a DataFrame as a list of dicts; anything else as it is
    serialize: (Serializer, D) -> Option<seq<byte>>,  // None: it raises
    deserialize: (Serializer, seq<byte>) -> Option<D>,
    compress: (Compression, seq<byte>) -> seq<byte>,
    decompress: (Compression, seq<byte>) -> Option<seq<byte>>,
    restore: (D, byte, Serializer) -> D)

  /** UTF-8 is a bijection between strings and the byte strings it accepts. */
  ghost predicate Lawful<D(!new)>(env: Env<D>) {
    && (forall s :: env.decodeUtf8(env.encodeUtf8(s)) == Some(s))
    && (forall b :: env.decodeUtf8(b).Some? ==> env.encodeUtf8(env.decodeUtf8(b).value) == b)
  }

  const UNKNOWN: int := 0
  const DICT: int := 1
  const DATAFRAME: int := 2
  const STR: int := 3
  const BYTES: int := 4

  const HEAD: nat := 27
  const VERSION: byte := 3
  const MAX_FRAME_BYTES: nat := 256 * 1024 * 1024
  const MAX_RECORDS: nat := 1_000_000
  const TWO_32: nat := 0x1_0000_0000
  const TWO_64: nat := 0x1_0000_0000_0000_0000

  datatype Problem =
    | TooShort | BadMagic | BadVersion | BadHead | AckMissing | TopicOverrun | BadUtf8
    | CrcMissing | CrcMismatch | BadPayload
    | NotSendable | WrongSerializer | TooManyRecords | TopicTooLong | NotSerializable
    | FieldRange | AckRange | FrameTooBig

  datatype FrameHeader = FrameHeader(
    topic: string, recordCount: nat, timestamp: nat, msgType: byte,
    rawPayload: seq<byte>, seqNo: nat, ackToken: Option<nat>)

  datatype Message<D> = Message(
    topic: string, payload: D, rawPayload: seq<byte>, recordCount: nat, timestamp: nat,
    serializer: Serializer, compression: Compression, dataType: byte, msgType: byte, seqNo: nat)

  datatype Peeked = Peeked(topic: string, seqNo: nat, timestamp: nat, msgType: byte)

  datatype CompressionChoice = Auto | Use(c: Compression)

  // ----- fields at fixed offsets -----

  function FlagsAt(f: seq<byte>): bv8
    requires |f| >= HEAD
  {
    f[4] as bv8
  }

  function SeqAt(f: seq<byte>): nat
    requires |f| >= HEAD
  {
    FromBE(f[7..15])
  }

  function TsAt(f: seq<byte>): nat
    requires |f| >= HEAD
  {
    FromBE(f[15..23])
  }

  function CountAt(f: seq<byte>): nat
    requires |f| >= HEAD
  {
    FromBE(f[23..27])
  }

  function TopicStart(f: seq<byte>): nat
    requires |f| >= HEAD
  {
    if HasAck(FlagsAt(f)) then HEAD + 4 else HEAD
  }

  function TopicEnd(f: seq<byte>): nat
    requires |f| >= HEAD
  {
    TopicStart(f) + f[6]
  }

  predicate MagicOk(f: seq<byte>)
    requires |f| >= HEAD
  {
    f[..2] == [0x50, 0x4D]
  }

  /** Python's f[from:to]: empty when the bounds cross. */
  function Slice(f: seq<byte>, from: nat, to: int): seq<byte>
    requires to <= |f|
  {
    if from <= to then f[from..to] else []
  }

  // ----- the three decoders -----

  function DecodeHeader<D>(env: Env<D>, f: seq<byte>): Result<FrameHeader, Problem> {
    if |f| < HEAD then Err(TooShort)
    else if !MagicOk(f) then Err(BadMagic)
    else if f[2] != VERSION then Err(BadVersion)
    else if HasAck(FlagsAt(f)) && |f| - HEAD < 4 then Err(AckMissing)
    else if |f| - TopicStart(f) < f[6] then Err(TopicOverrun)
    else
      var ack := if HasAck(FlagsAt(f)) then Some(FromBE(f[HEAD..HEAD + 4])) else None;
      match env.decodeUtf8(f[TopicStart(f)..TopicEnd(f)])
      case None => Err(BadUtf8)
      case Some(topic) =>
        var raw := if HasCrc(FlagsAt(f)) then Slice(f, TopicEnd(f), |f| - 4) else f[TopicEnd(f)..];
        Ok(FrameHeader(topic, CountAt(f), TsAt(f), f[3], raw, SeqAt(f), ack))
  }

  function CrcOf<D>(env: Env<D>, body: seq<byte>): nat {
    env.crc32(body) % TWO_32
  }

  function Decode<D>(env: Env<D>, f: seq<byte>): Result<Message<D>, Problem> {
    if |f| < HEAD then Err(TooShort)
    else if !MagicOk(f) then Err(BadMagic)
    else if f[2] != VERSION then Err(BadVersion)
    else if HasAck(FlagsAt(f)) && |f| - HEAD < 4 then Err(AckMissing)
    else if |f| - TopicStart(f) < f[6] then Err(TopicOverrun)
    else
      match env.decodeUtf8(f[TopicStart(f)..TopicEnd(f)])
      case None => Err(BadUtf8)
      case Some(topic) =>
        if HasCrc(FlagsAt(f)) && |f| - TopicEnd(f) < 4 then Err(CrcMissing)
        else if HasCrc(FlagsAt(f)) && CrcOf(env, f[..|f| - 4]) != FromBE(f[|f| - 4..]) then Err(CrcMismatch)
        else
          var raw := if HasCrc(FlagsAt(f)) then f[TopicEnd(f)..|f| - 4] else f[TopicEnd(f)..];
          var (ser, comp) := DecodeFlags(FlagsAt(f));
          match env.decompress(comp, raw)
          case None => Err(BadPayload)
          case Some(plain) =>
            match env.deserialize(ser, plain)
            case None => Err(BadPayload)
            case Some(d) =>
              Ok(Message(topic, env.restore(d, f[5], ser), raw, CountAt(f), TsAt(f), ser, comp, f[5], f[3], SeqAt(f)))
  }

  /** The receive loop's decoder: it does not check that the ack token is there. */
  function Peek<D>(env: Env<D>, f: seq<byte>): Result<Peeked, Problem> {
    if |f| < HEAD || !MagicOk(f) || f[2] != VERSION then Err(BadHead)
    else if |f| - TopicStart(f) < f[6] then Err(TopicOverrun)
    else
      match env.decodeUtf8(f[TopicStart(f)..TopicEnd(f)])
      case None => Err(BadUtf8)
      case Some(topic) => Ok(Peeked(topic, SeqAt(f), TsAt(f), f[3]))
  }

  /** On every byte string the fast decoder accepts exactly what the header decoder accepts, and agrees with it. */
  lemma PeekRefinesHeader<D>(env: Env<D>, f: seq<byte>)
    ensures Peek(env, f).Ok? <==> DecodeHeader(env, f).Ok?
    ensures Peek(env, f).Ok? ==>
              var p, h := Peek(env, f).value, DecodeHeader(env, f).value;
              p == Peeked(h.topic, h.seqNo, h.timestamp, h.msgType)
  {
    hide FromBE, BE;
  }

  /** What the full decoder accepts the header decoder accepts, with the same fields. */
  lemma DecodeRefinesHeader<D>(env: Env<D>, f: seq<byte>)
    requires Decode(env, f).Ok?
    ensures DecodeHeader(env, f).Ok?
    ensures var m, h := Decode(env, f).value, DecodeHeader(env, f).value;
            && m.topic == h.topic && m.recordCount == h.recordCount && m.timestamp == h.timestamp
            && m.msgType == h.msgType && m.rawPayload == h.rawPayload && m.seqNo == h.seqNo
  {
    hide FromBE, BE;
  }

  // ----- encoding -----

  function Head(msgType: byte, flags: byte, dataType: byte, topicLen: byte, s: nat, ts: nat, count: nat): (h: seq<byte>)
    ensures |h| == HEAD
  {
    [0x50, 0x4D, VERSION, msgType, flags, dataType, topicLen] + BE(s, 8) + BE(ts, 8) + BE(count, 4)
  }

  function Chosen(choice: CompressionChoice, raw: seq<byte>): Compression {
    match choice
    case Use(c) => c
    case Auto => if |raw| < 256 then NoCompression else Lz4
  }

  function FlagByte(b: bv8): byte {
    b as int
  }

  function Body<D>(env: Env<D>, topic: string, payload: seq<byte>, msgType: byte, flags: bv8, dataType: byte,
                   ts: nat, count: nat, ack: Option<nat>): seq<byte>
    requires |env.encodeUtf8(topic)| <= 255
  {
    var t := env.encodeUtf8(topic);
    Head(msgType, FlagByte(flags), dataType, |t|, 0, ts, count)
    + (if ack.Some? then BE(ack.value, 4) else []) + t + payload
  }

  function WithCrc<D>(env: Env<D>, body: seq<byte>, crc: bool): seq<byte> {
    if crc then body + BE(CrcOf(env, body), 4) else body
  }

  /** The serializers a data type allows; other types allow all. */
  predicate Allowed(dataType: int, ser: Serializer) {
    if dataType == DICT then ser in {Msgpack, Json}
    else if dataType == DATAFRAME then ser in {Msgpack, Json, Pyarrow}
    else if dataType == STR then ser == Str
    else if dataType == BYTES then ser == RawBytes
    else true
  }

  function DefaultSerializer(dataType: int): (ser: Serializer)
    ensures Allowed(dataType, ser)
  {
    if dataType == DATAFRAME then Pyarrow
    else if dataType == STR then Str
    else if dataType == BYTES then RawBytes
    else Msgpack
  }

  /** Data type, serializer, and the datum as it goes to the serializer. */
  datatype Prepared<D> = Prepared(dataType: int, ser: Serializer, data: D)

  function Prepare<D>(env: Env<D>, data: D, ser: Option<Serializer>, dataType: Option<int>):
    Result<Prepared<D>, Problem>
  {
    var dt := if dataType.Some? then dataType.value else env.typeOf(data);
    if dataType.None? && dt == UNKNOWN then Err(NotSendable)
    else if ser.Some? && !Allowed(dt, ser.value) then Err(WrongSerializer)
    else
      var s := if ser.Some? then ser.value else DefaultSerializer(dt);
      Ok(Prepared(dt, s, if dt == DATAFRAME && s in {Msgpack, Json} then env.toRecords(data) else data))
  }

  /** The optional arguments of encode. */
  datatype Options = Options(
    msgType: int, ser: Option<Serializer>, choice: CompressionChoice, count: Option<int>, dataType: Option<int>,
    crc: bool, ts: int, ack: Option<int>)

  function CountOf<D>(env: Env<D>, d: D, o: Options): int {
    if o.count.Some? then o.count.value else env.recordCount(d)
  }

  function Encode<D>(env: Env<D>, topic: string, data: D, o: Options): Result<seq<byte>, Problem> {
    match Prepare(env, data, o.ser, o.dataType)
    case Err(e) => Err(e)
    case Ok(p) =>
      var count := CountOf(env, p.data, o);
      if count > MAX_RECORDS then Err(TooManyRecords)
      else if |env.encodeUtf8(topic)| > 255 then Err(TopicTooLong)
      else
        match env.serialize(p.ser, p.data)
        case None => Err(NotSerializable)
        case Some(raw) => Build(env, topic, p, raw, count, o)
  }

  function Build<D>(env: Env<D>, topic: string, p: Prepared<D>, raw: seq<byte>, count: int, o: Options):
    Result<seq<byte>, Problem>
    requires |env.encodeUtf8(topic)| <= 255
  {
    var comp := Chosen(o.choice, raw);
    var flags := EncodeFlags(p.ser, comp, o.crc, o.ack.Some?);
    if !(0 <= o.msgType < 256 && 0 <= p.dataType < 256 && 0 <= o.ts < TWO_64 && 0 <= count) then Err(FieldRange)
    else if o.ack.Some? && !(0 <= o.ack.value < TWO_32) then Err(AckRange)
    else
      var ack := if o.ack.Some? then Some(o.ack.value as nat) else None;
      var body := Body(env, topic, env.compress(comp, raw), o.msgType, flags, p.dataType, o.ts, count, ack);
      var f := WithCrc(env, body, o.crc);
      if |f| > MAX_FRAME_BYTES then Err(FrameTooBig) else Ok(f)
  }

  lemma HeaderIsLong<D>(env: Env<D>, f: seq<byte>)
    requires DecodeHeader(env, f).Ok?
    ensures |f| >= HEAD
  {
  }

  /** Stores the sequence number at its offset and recomputes the checksum of a frame that says it has one. */
  function RewriteSeq<D>(env: Env<D>, f: seq<byte>, s: nat): (r: seq<byte>)
    requires |f| >= HEAD
    ensures |r| == |f|
  {
    var out := f[..7] + BE(s, 8) + f[15..];
    if HasCrc(FlagsAt(f)) then
      var body := out[..|out| - 4];
      body + BE(CrcOf(env, body), 4)
    else out
  }
}
