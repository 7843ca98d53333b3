/** The decoders as the processes run them: topics go through a bounded cache. */
module FrameReaders {
  import opened Wrappers
  import opened Bytes
  import opened Flags
  import opened Frames

  const INTERN_MAX: nat := 10000

  class FrameReader<D> {
    const env: Env<D>
    var intern: map<seq<byte>, string>

    ghost predicate Valid()
      reads this
    {
      && |intern| <= INTERN_MAX
      && forall b | b in intern :: env.decodeUtf8(b) == Some(intern[b])
    }

    constructor (env: Env<D>)
      ensures Valid() && this.env == env
    {
      this.env, intern := env, map[];
    }

    /** Decodes a topic through the cache, whatever the cache holds. */
    method InternTopic(b: seq<byte>) returns (topic: Option<string>)
      requires Valid()
      modifies this
      ensures Valid() && topic == env.decodeUtf8(b)
      ensures forall k | k in old(intern) :: k in intern
    {
      if b in intern {
        return Some(intern[b]);
      }
      topic := env.decodeUtf8(b);
      if topic.Some? && |intern| < INTERN_MAX {
        var grown := intern[b := topic.value];
        assert grown.Keys == intern.Keys + {b};
        intern := grown;
      }
    }

    method PeekTopicSeq(f: seq<byte>) returns (r: Result<Peeked, Problem>)
      requires Valid()
      modifies this
      ensures Valid() && r == Peek(env, f)
    {
      hide FromBE, HasAck, MagicOk;
      if |f| < HEAD || !MagicOk(f) || f[2] != VERSION {
        return Err(BadHead);
      }
      var s, ts := FromBE(f[7..15]), FromBE(f[15..23]);
      var off := HEAD + (if HasAck(f[4] as bv8) then 4 else 0);
      var topicLen: nat := f[6];
      if |f| - off < topicLen {
        return Err(TopicOverrun);
      }
      var topic := InternTopic(f[off..off + topicLen]);
      if topic.None? {
        return Err(BadUtf8);
      }
      return Ok(Peeked(topic.value, s, ts, f[3]));
    }

    method ReadHeader(f: seq<byte>) returns (r: Result<FrameHeader, Problem>)
      requires Valid()
      modifies this
      ensures Valid() && r == DecodeHeader(env, f)
    {
      hide FromBE, HasAck, HasCrc, MagicOk, Slice;
      if |f| < HEAD {
        return Err(TooShort);
      }
      if !MagicOk(f) {
        return Err(BadMagic);
      }
      if f[2] != VERSION {
        return Err(BadVersion);
      }
      var flags := f[4] as bv8;
      var off: nat := HEAD;
      var ack: Option<nat> := None;
      if HasAck(flags) {
        if |f| - off < 4 {
          return Err(AckMissing);
        }
        ack := Some(FromBE(f[off..off + 4]));
        off := off + 4;
      }
      var topicLen: nat := f[6];
      if |f| - off < topicLen {
        return Err(TopicOverrun);
      }
      var topic := InternTopic(f[off..off + topicLen]);
      if topic.None? {
        return Err(BadUtf8);
      }
      off := off + topicLen;
      var raw := if HasCrc(flags) then Slice(f, off, |f| - 4) else f[off..];
      return Ok(FrameHeader(topic.value, CountAt(f), TsAt(f), f[3], raw, SeqAt(f), ack));
    }
  }
}
