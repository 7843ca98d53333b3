/** The flags byte: serializer, compression, and the two presence bits. */
module Flags {
  datatype Serializer = Msgpack | RawBytes | Pyarrow | Str | Json

  datatype Compression = NoCompression | Snappy | Lz4 | Zstd

  const ACK_BIT: bv8 := 0x40
  const CRC_BIT: bv8 := 0x80

  function SerializerBits(s: Serializer): bv8 {
    match s
    case Msgpack => 0
    case RawBytes => 1
    case Pyarrow => 2
    case Str => 4
    case Json => 5
  }

  function CompressionBits(c: Compression): bv8 {
    match c
    case NoCompression => 0
    case Snappy => 1
    case Lz4 => 2
    case Zstd => 3
  }

  function EncodeFlags(s: Serializer, c: Compression, crc: bool, ack: bool): bv8 {
    SerializerBits(s) | (CompressionBits(c) << 3) | (if ack then ACK_BIT else 0) | (if crc then CRC_BIT else 0)
  }

  /** Unassigned serializer codes read as msgpack. */
  function DecodeFlags(b: bv8): (Serializer, Compression) {
    var s := b & 7;
    var c := (b >> 3) & 3;
    (if s == 1 then RawBytes else if s == 2 then Pyarrow else if s == 4 then Str
     else if s == 5 then Json else Msgpack,
     if c == 1 then Snappy else if c == 2 then Lz4 else if c == 3 then Zstd else NoCompression)
  }

  predicate HasAck(b: bv8) {
    b & ACK_BIT != 0
  }

  predicate HasCrc(b: bv8) {
    b & CRC_BIT != 0
  }

  lemma FlagsRoundTrip(s: Serializer, c: Compression, crc: bool, ack: bool)
    ensures var b := EncodeFlags(s, c, crc, ack);
            DecodeFlags(b) == (s, c) && HasCrc(b) == crc && HasAck(b) == ack
  {
    match s {
      case Msgpack => case RawBytes => case Pyarrow => case Str => case Json =>
    }
    match c {
      case NoCompression => case Snappy => case Lz4 => case Zstd =>
    }
  }

  /**
   A byte survives decoding and encoding exactly when the reserved bit is clear
   and its serializer code is assigned.
   */
  lemma FlagsCanonical(b: bv8)
    ensures EncodeFlags(DecodeFlags(b).0, DecodeFlags(b).1, HasCrc(b), HasAck(b)) == b <==>
            (b & 0x20 == 0 && b & 7 != 3 && b & 7 != 6 && b & 7 != 7)
  {
  }

  /** The numbers of the wire format: serializer, 8 times compression, 64 for the ack token, 128 for the checksum. */
  lemma FlagsLayout(s: Serializer, c: Compression, crc: bool, ack: bool)
    ensures var ser: bv8 := match s case Msgpack => 0 case RawBytes => 1 case Pyarrow => 2 case Str => 4 case Json => 5;
            var comp: bv8 := match c case NoCompression => 0 case Snappy => 8 case Lz4 => 16 case Zstd => 24;
            EncodeFlags(s, c, crc, ack) == ser + comp + (if ack then 64 else 0) + (if crc then 128 else 0)
    ensures HasCrc(EncodeFlags(s, c, crc, ack)) <==> EncodeFlags(s, c, crc, ack) >= 128
  {
    match s {
      case Msgpack => case RawBytes => case Pyarrow => case Str => case Json =>
    }
    match c {
      case NoCompression => case Snappy => case Lz4 => case Zstd =>
    }
  }
}
