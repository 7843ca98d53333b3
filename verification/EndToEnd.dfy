/**
 From the broker's numbering to the consumer's ledger, over the bytes that
 travel: the server numbers each topic, one subscriber's drop_old buffer loses
 some frames, a lossless FIFO link carries the rest, the client infers the
 losses.  Publishing, draining and receiving happen in any order.
 */
module EndToEnd {
  import opened Wrappers
  import opened Bytes
  import opened Frames
  import opened FrameLaws
  import opened BufferModel
  import opened BufferRuns
  import opened SubscriberBuffers
  import opened GapLedger

  datatype System = System(
    topicSeq: map<string, nat>,   // _topic_seq
    buf: Buffer,
    link: seq<seq<byte>>,         // sent, not yet received
    ledger: Ledger,
    arrivals: seq<Arrival>)       // history: what the client has received

  datatype Action =
    | Publish(frame: seq<byte>, now: real)
    | Flush(now: real, room: nat, credit: int, budget: int)
    | Receive(answers: seq<Answer>)  // one batch; what routing each frame would come to

  function NextSeq(topicSeq: map<string, nat>, topic: string): nat {
    Num(topicSeq, topic) + 1
  }

  ghost function Next<D>(env: Env<D>, matched: string -> bool, s: System, a: Action): System {
    match a
    case Publish(f, now) =>
      (match DecodeHeader(env, f)
       case Err(_) => s
       case Ok(h) =>
         var n := NextSeq(s.topicSeq, h.topic);
         var s1 := s.(topicSeq := s.topicSeq[h.topic := n]);
         if !matched(h.topic) then s1
         else
           var out := RewriteSeq(env, f, n);
           s1.(buf := Enqueue(s.buf, Entry(h.topic, out, |out|, now))))
    case Flush(now, room, credit, budget) =>
      var b := Drain(s.buf, now, room, credit, budget).0;
      s.(buf := b, link := s.link + (if |s.buf.log| <= |b.log| then WireSince(b.log, |s.buf.log|) else []))
    case Receive(answers) =>
      if |answers| > |s.link| then s
      else
        var batch := Arrivals(env, s.link[..|answers|], answers);
        s.(link := s.link[|answers|..], ledger := ProcessAll(s.ledger, batch), arrivals := s.arrivals + batch)
  }

  function Init(topicSeq: map<string, nat>, lim: Limits): System {
    System(topicSeq, New(lim), [], GapLedger.EMPTY, [])
  }

  ghost function Run<D>(env: Env<D>, matched: string -> bool, s: System, schedule: seq<Action>): System {
    if schedule == [] then s
    else Next(env, matched, Run(env, matched, s, schedule[..|schedule| - 1]), schedule[|schedule| - 1])
  }

  /** In a published frame that the server accepts, a checksum it claims has room. */
  ghost predicate ProperPublish<D>(env: Env<D>, a: Action) {
    a.Publish? && DecodeHeader(env, a.frame).Ok? ==> CrcHasRoom(a.frame)
  }

  // ----- numbering -----

  function SeqNo<D>(env: Env<D>, f: seq<byte>): nat {
    match Peek(env, f) case Ok(p) => p.seqNo case Err(_) => 0
  }

  /** A control frame: the server numbers and forwards it, the client's ledger passes it over. */
  predicate IsControl<D>(env: Env<D>, f: seq<byte>) {
    match Peek(env, f) case Ok(p) => p.msgType == CONTROL case Err(_) => false
  }

  /** What the client makes of a queued frame. */
  function EventOf<D>(env: Env<D>, e: Entry): Event {
    if IsControl(env, e.frame) then Control else Data(e.topic, SeqNo(env, e.frame))
  }

  ghost predicate Good<D>(env: Env<D>, e: Entry) {
    Classify(env, e.frame) == EventOf(env, e)
  }

  ghost predicate AllGood<D>(env: Env<D>, s: seq<Entry>) {
    forall i | 0 <= i < |s| :: Good(env, s[i])
  }

  /** The frames of topic t are numbered base + 1, base + 2, ... */
  ghost predicate Numbered<D>(env: Env<D>, s: seq<Entry>, t: string, base: nat) {
    var l := OfTopic(s, t);
    forall i | 0 <= i < |l| :: SeqNo(env, l[i].frame) == base + 1 + i
  }

  /** The renumbered frame reads as a frame of the same topic and type with the new number. */
  lemma RewrittenIsGood<D>(env: Env<D>, f: seq<byte>, n: nat, now: real)
    requires DecodeHeader(env, f).Ok? && CrcHasRoom(f) && n < TWO_64
    ensures |f| >= HEAD
    ensures var h, out := DecodeHeader(env, f).value, RewriteSeq(env, f, n);
            && SeqNo(env, out) == n
            && IsControl(env, out) == (h.msgType == CONTROL)
            && Good(env, Entry(h.topic, out, |out|, now))
  {
    HeaderIsLong(env, f);
    hide DecodeHeader, Peek, RewriteSeq, CrcHasRoom;
    RewriteKeepsHeader(env, f, n);
    PeekRefinesHeader(env, RewriteSeq(env, f, n));
  }

  // ----- the invariant -----

  ghost predicate BufferOk<D>(env: Env<D>, s: System, t: string, base: nat) {
    && BufferModel.Inv(s.buf) && s.buf.lim.policy == DropOld
    && AllGood(env, s.buf.hist)
    && Numbered(env, s.buf.hist, t, base)
    && Num(s.topicSeq, t) == base + |OfTopic(s.buf.hist, t)|
  }

  /** What was sent is what the client has received followed by what is on the link. */
  ghost predicate WireOk<D>(env: Env<D>, s: System) {
    var sent, got := SentOf(s.buf.log), |s.arrivals|;
    && got <= |sent|
    && s.link == FramesOf(sent[got..])
    && (forall i | 0 <= i < got :: s.arrivals[i].event == Classify(env, sent[i].frame))
    && s.ledger == ProcessAll(GapLedger.EMPTY, s.arrivals)
  }

  ghost predicate Inv<D>(env: Env<D>, s: System, t: string, base: nat) {
    BufferOk(env, s, t, base) && WireOk(env, s)
  }

  // ----- publishing -----

  lemma EvictSendsNothing(b: Buffer)
    requires b.held != []
    ensures SentOf(Leave(b, 0, Evicted).log) == SentOf(b.log)
  {
    var l := b.log + [Exited(b.held[0], Evicted)];
    assert l[..|l| - 1] == b.log;
  }

  lemma {:induction false} ShrinkSendsNothing(b: Buffer)
    ensures SentOf(ShrinkOld(b).log) == SentOf(b.log)
    decreases |b.held|
  {
    if OverBytes(b) && b.held != [] {
      EvictSendsNothing(b);
      ShrinkSendsNothing(Leave(b, 0, Evicted));
    }
  }

  lemma EnqueueSendsNothing(b: Buffer, e: Entry)
    requires b.lim.policy == DropOld
    ensures SentOf(Enqueue(b, e).log) == SentOf(b.log)
  {
    hide ShrinkOld, SentOf;
    var full := b.lim.maxMessages > 0 && |b.held| >= b.lim.maxMessages;
    var b1 := if full then Leave(b, 0, Evicted) else b;
    if full {
      EvictSendsNothing(b);
    }
    ShrinkSendsNothing(Append(b1, e));
  }

  lemma NumberedGrows<D>(env: Env<D>, s: seq<Entry>, e: Entry, t: string, base: nat)
    requires Numbered(env, s, t, base)
    requires e.topic == t ==> SeqNo(env, e.frame) == base + 1 + |OfTopic(s, t)|
    ensures Numbered(env, s + [e], t, base)
    ensures |OfTopic(s + [e], t)| == |OfTopic(s, t)| + (if e.topic == t then 1 else 0)
  {
    hide SeqNo;
    OfTopicLast(s, e, t);
  }

  lemma PublishKeepsInv<D>(env: Env<D>, matched: string -> bool, s: System, a: Action, t: string, base: nat)
    requires Inv(env, s, t, base) && matched(t)
    requires a.Publish? && ProperPublish(env, a)
    requires forall u | u in s.topicSeq :: s.topicSeq[u] + 1 < TWO_64
    ensures Inv(env, Next(env, matched, s, a), t, base)
  {
    hide BufferModel.Inv, Numbered, Enqueue, DecodeHeader, RewriteSeq, CrcHasRoom, Good, SeqNo, IsControl, SentOf,
         ProcessAll, WireOk, AllGood, OfTopic;
    if DecodeHeader(env, a.frame).Ok? {
      var h := DecodeHeader(env, a.frame).value;
      var n := NextSeq(s.topicSeq, h.topic);
      var s' := Next(env, matched, s, a);
      if matched(h.topic) {
        RewrittenIsGood(env, a.frame, n, a.now);
        var out := RewriteSeq(env, a.frame, n);
        var e := Entry(h.topic, out, |out|, a.now);
        QueuedFrame(env, s, s', e, t, base);
      } else {
        SameWire(env, s, s');
      }
    }
  }

  /** A frame with its topic's next number goes into the buffer. */
  lemma QueuedFrame<D>(env: Env<D>, s: System, s': System, e: Entry, t: string, base: nat)
    requires Inv(env, s, t, base) && Good(env, e) && SeqNo(env, e.frame) == Num(s.topicSeq, e.topic) + 1
    requires s' == s.(topicSeq := s.topicSeq[e.topic := Num(s.topicSeq, e.topic) + 1], buf := Enqueue(s.buf, e))
    ensures Inv(env, s', t, base)
  {
    hide BufferModel.Inv, Numbered, Enqueue, Good, SeqNo, SentOf, ProcessAll, WireOk, OfTopic;
    EnqueueKeepsInv(s.buf, e);
    EnqueueSendsNothing(s.buf, e);
    NumberedGrows(env, s.buf.hist, e, t, base);
    SameWire(env, s, s');
  }

  lemma SameWire<D>(env: Env<D>, s: System, s': System)
    requires WireOk(env, s) && SentOf(s'.buf.log) == SentOf(s.buf.log)
    requires s'.link == s.link && s'.arrivals == s.arrivals && s'.ledger == s.ledger
    ensures WireOk(env, s')
  {
    hide SentOf, ProcessAll, Classify;
  }

  // ----- draining -----

  lemma {:induction false} SentOfConcat(a: seq<Exited>, b: seq<Exited>)
    ensures SentOf(a + b) == SentOf(a) + SentOf(b)
    decreases |b|
  {
    if b == [] {
      assert a + b == a;
    } else {
      var k := |b| - 1;
      assert (a + b)[..|a + b| - 1] == a + b[..k];
      SentOfConcat(a, b[..k]);
    }
  }

  lemma FlushKeepsInv<D>(env: Env<D>, matched: string -> bool, s: System, a: Action, t: string, base: nat)
    requires Inv(env, s, t, base) && a.Flush?
    ensures Inv(env, Next(env, matched, s, a), t, base)
  {
    hide BufferModel.Inv, Numbered, Drain, SentOf, ProcessAll, AllGood;
    DrainKeepsInv(s.buf, a.now, a.room, a.credit, a.budget);
    var log, log' := s.buf.log, Drain(s.buf, a.now, a.room, a.credit, a.budget).0.log;
    assert log' == log + log'[|log|..];
    SentOfConcat(log, log'[|log|..]);
    var sent, more, got := SentOf(log), SentOf(log'[|log|..]), |s.arrivals|;
    assert (sent + more)[got..] == sent[got..] + more;
    FramesConcat(sent[got..], more);
  }

  lemma FramesConcat(a: seq<Entry>, b: seq<Entry>)
    ensures FramesOf(a + b) == FramesOf(a) + FramesOf(b)
  {
  }

  // ----- receiving -----

  lemma ReceiveKeepsInv<D>(env: Env<D>, matched: string -> bool, s: System, a: Action, t: string, base: nat)
    requires Inv(env, s, t, base) && a.Receive?
    ensures Inv(env, Next(env, matched, s, a), t, base)
  {
    hide BufferOk, SentOf, ProcessAll, Classify;
    var k := |a.answers|;
    if k <= |s.link| {
      var sent, got := SentOf(s.buf.log), |s.arrivals|;
      var batch := Arrivals(env, s.link[..k], a.answers);
      BatchesDoNotMatter(GapLedger.EMPTY, s.arrivals, batch);
      forall i | 0 <= i < got + k
        ensures (s.arrivals + batch)[i].event == Classify(env, sent[i].frame)
      {
        if i >= got {
          assert s.link[i - got] == sent[got..][i - got].frame == sent[i].frame;
        }
      }
      assert s.link[k..] == FramesOf(sent[got + k..]);
      assert BufferOk(env, Next(env, matched, s, a), t, base) by {
        SameBuffer(env, s, Next(env, matched, s, a), t, base);
      }
    }
  }

  lemma SameBuffer<D>(env: Env<D>, s: System, s': System, t: string, base: nat)
    requires BufferOk(env, s, t, base) && s'.buf == s.buf && s'.topicSeq == s.topicSeq
    ensures BufferOk(env, s', t, base)
  {
    hide BufferModel.Inv, Numbered;
  }

  // ----- whole runs -----

  lemma InitInv<D>(env: Env<D>, topicSeq: map<string, nat>, lim: Limits, t: string)
    requires lim.policy == DropOld
    ensures Inv(env, Init(topicSeq, lim), t, Num(topicSeq, t))
  {
    assert Entries([]) == [] && FramesOf([]) == [];
  }

  /** No sequence number reaches 2^64 within room more publishes. */
  ghost predicate RoomToNumber(topicSeq: map<string, nat>, room: nat) {
    room < TWO_64 && forall u | u in topicSeq :: topicSeq[u] + room < TWO_64
  }

  lemma NumberingStep<D>(env: Env<D>, matched: string -> bool, s: System, a: Action, room: nat)
    requires RoomToNumber(s.topicSeq, room + 1)
    ensures RoomToNumber(Next(env, matched, s, a).topicSeq, room)
  {
    hide DecodeHeader, RewriteSeq, Enqueue, Drain, ProcessAll;
  }

  lemma {:induction false} RunKeepsInv<D>(env: Env<D>, matched: string -> bool, topicSeq: map<string, nat>, lim: Limits,
                                          schedule: seq<Action>, t: string, room: nat)
    requires lim.policy == DropOld && matched(t)
    requires forall i | 0 <= i < |schedule| :: ProperPublish(env, schedule[i])
    requires RoomToNumber(topicSeq, |schedule| + room)
    ensures var s := Run(env, matched, Init(topicSeq, lim), schedule);
            Inv(env, s, t, Num(topicSeq, t)) && RoomToNumber(s.topicSeq, room)
  {
    if schedule == [] {
      InitInv(env, topicSeq, lim, t);
    } else {
      hide Inv, Next, ProperPublish;
      var n := |schedule| - 1;
      RunKeepsInv(env, matched, topicSeq, lim, schedule[..n], t, room + 1);
      var s := Run(env, matched, Init(topicSeq, lim), schedule[..n]);
      NumberingStep(env, matched, s, schedule[n], room);
      match schedule[n] {
        case Publish(_, _) => PublishKeepsInv(env, matched, s, schedule[n], t, Num(topicSeq, t));
        case Flush(_, _, _, _) => FlushKeepsInv(env, matched, s, schedule[n], t, Num(topicSeq, t));
        case Receive(_) => ReceiveKeepsInv(env, matched, s, schedule[n], t, Num(topicSeq, t));
      }
    }
  }

  // ----- every action does its work -----

  /**
   An accepted publish takes its topic's next number; if somebody subscribes, the
   frame e with this number is queued.
   */
  lemma PublishMovesOn<D>(env: Env<D>, matched: string -> bool, s: System, frame: seq<byte>, now: real, h: FrameHeader)
    returns (e: Entry)
    requires BufferModel.Inv(s.buf) && DecodeHeader(env, frame) == Ok(h) && |frame| >= HEAD && CrcHasRoom(frame)
    requires Num(s.topicSeq, h.topic) + 1 < TWO_64
    ensures var t, n, s' := h.topic, Num(s.topicSeq, h.topic) + 1, Next(env, matched, s, Publish(frame, now));
            && s'.topicSeq == s.topicSeq[t := n] && s'.link == s.link && s'.arrivals == s.arrivals
            && e.topic == t && SeqNo(env, e.frame) == n
            && e.nbytes == |e.frame| == |frame| && e.enqueuedAt == now
            && if matched(t) then s'.buf.hist == s.buf.hist + [e] else s'.buf == s.buf
  {
    hide BufferModel.Inv, Enqueue, DecodeHeader, RewriteSeq, CrcHasRoom, Good, SeqNo, IsControl;
    var n := NextSeq(s.topicSeq, h.topic);
    RewrittenIsGood(env, frame, n, now);
    var out := RewriteSeq(env, frame, n);
    e := Entry(h.topic, out, |out|, now);
    EnqueueGrows(s.buf, e);
  }

  /**
   A flush sends what it may, and all of it goes onto the link; a receive takes its
   batch off the link and into the ledger.
   */
  lemma FlushAndReceiveMoveOn<D>(env: Env<D>, matched: string -> bool, s: System, now: real, room: nat, credit: int,
                                 budget: int, answers: seq<Answer>)
    requires BufferModel.Inv(s.buf)
    ensures var s' := Next(env, matched, s, Action.Flush(now, room, credit, budget));
            && s'.topicSeq == s.topicSeq && s'.arrivals == s.arrivals && s'.buf.sent >= s.buf.sent
            && NoneCouldGo(s'.buf, s'.buf.sent - s.buf.sent, now, room, credit, budget)
            && s.buf.log <= s'.buf.log
            && s'.link == s.link + FramesOf(SentOf(s'.buf.log[|s.buf.log|..]))
    ensures |answers| <= |s.link| ==>
              var s' := Next(env, matched, s, Receive(answers));
              && s'.buf == s.buf && s'.topicSeq == s.topicSeq && s'.link == s.link[|answers|..]
              && |s'.arrivals| == |s.arrivals| + |answers|
              && s'.ledger == ProcessAll(s.ledger, s'.arrivals[|s.arrivals|..])
  {
    hide BufferModel.Inv, Drain, SentOf, ProcessAll, Arrivals, FramesOf;
    DrainKeepsInv(s.buf, now, room, credit, budget);
    DrainSendsWhatItMay(s.buf, now, room, credit, budget);
    if |answers| <= |s.link| {
      var batch := Arrivals(env, s.link[..|answers|], answers);
      assert (s.arrivals + batch)[|s.arrivals|..] == batch;
    }
  }
}
