/**
 The per-subscriber buffer as a value: what enqueue and drain do to it, and the
 accounting laws every run obeys.  SubscriberBuffer.dfy is the object the broker
 keeps; its methods are proved to perform exactly these functions.

 `hist` and `log` are history: every frame enqueued, and every frame that left
 together with the way it left.
 */
module BufferModel {
  import opened Bytes

  datatype Policy = DropOld | Conflate

  datatype Entry = Entry(topic: string, frame: seq<byte>, nbytes: nat, enqueuedAt: real)

  datatype Fate = Sent | Evicted | Expired | Conflated

  datatype Exited = Exited(entry: Entry, fate: Fate)

  /** One call of the drop callback. */
  datatype Drop = Drop(topic: string, reason: Fate)

  datatype Limits = Limits(policy: Policy, maxMessages: int, maxBytes: int, maxAge: real)

  /** held is the deque under drop_old and the insertion-ordered latest-per-topic dict under conflate. */
  datatype Buffer = Buffer(
    lim: Limits, held: seq<Entry>, bytes: int,
    evicted: nat, expired: nat, conflated: nat, sent: nat,
    drops: seq<Drop>,
    hist: seq<Entry>, log: seq<Exited>)

  const DRAIN_BUDGET: nat := 512

  function New(lim: Limits): Buffer {
    Buffer(lim, [], 0, 0, 0, 0, 0, [], [], [])
  }

  function Without(s: seq<Entry>, i: nat): (r: seq<Entry>)
    requires i < |s|
    ensures |r| == |s| - 1
  {
    s[..i] + s[i + 1..]
  }

  /** Books the departure of entry e in counters, callback and log. */
  function Book(b: Buffer, e: Entry, fate: Fate): Buffer {
    b.(bytes := b.bytes - e.nbytes,
       evicted := b.evicted + (if fate == Evicted then 1 else 0),
       expired := b.expired + (if fate == Expired then 1 else 0),
       conflated := b.conflated + (if fate == Conflated then 1 else 0),
       sent := b.sent + (if fate == Sent then 1 else 0),
       drops := b.drops + (if fate in {Evicted, Expired} then [Drop(e.topic, fate)] else []),
       log := b.log + [Exited(e, fate)])
  }

  /** Entry i leaves the buffer. */
  function Leave(b: Buffer, i: nat, fate: Fate): (r: Buffer)
    requires i < |b.held|
    ensures |r.held| == |b.held| - 1 && r.lim == b.lim && r.hist == b.hist
  {
    Book(b, b.held[i], fate).(held := Without(b.held, i))
  }

  // ----- enqueue -----

  predicate OverBytes(b: Buffer) {
    b.lim.maxBytes > 0 && b.bytes > b.lim.maxBytes
  }

  function ShrinkOld(b: Buffer): Buffer
    decreases |b.held|
  {
    if OverBytes(b) && b.held != [] then ShrinkOld(Leave(b, 0, Evicted)) else b
  }

  function Append(b: Buffer, e: Entry): Buffer {
    b.(held := b.held + [e], bytes := b.bytes + e.nbytes, hist := b.hist + [e])
  }

  function EnqueueOld(b: Buffer, e: Entry): Buffer {
    var b1 := if b.lim.maxMessages > 0 && |b.held| >= b.lim.maxMessages then Leave(b, 0, Evicted) else b;
    ShrinkOld(Append(b1, e))
  }

  /** Where topic sits, or |s|. */
  function Find(s: seq<Entry>, topic: string): (i: nat)
    ensures i <= |s|
    ensures i < |s| ==> s[i].topic == topic
    ensures forall j | 0 <= j < i :: s[j].topic != topic
  {
    if s == [] then 0
    else if s[0].topic == topic then 0
    else 1 + Find(s[1..], topic)
  }

  /** The first entry with the earliest enqueue time. */
  function Oldest(s: seq<Entry>): (i: nat)
    requires s != []
    ensures i < |s|
    ensures forall j | 0 <= j < |s| :: s[i].enqueuedAt <= s[j].enqueuedAt
    ensures forall j | 0 <= j < i :: s[i].enqueuedAt < s[j].enqueuedAt
  {
    if |s| == 1 then 0
    else
      var k := Oldest(s[..|s| - 1]);
      if s[|s| - 1].enqueuedAt < s[k].enqueuedAt then |s| - 1 else k
  }

  function ShrinkConflate(b: Buffer): Buffer
    decreases |b.held|
  {
    if OverBytes(b) && |b.held| > 1 then ShrinkConflate(Leave(b, Oldest(b.held), Evicted)) else b
  }

  /** The new frame takes the place of the topic's old one. */
  function Replace(b: Buffer, i: nat, e: Entry): Buffer
    requires i < |b.held|
  {
    var b1 := Book(b, b.held[i], Conflated);
    b1.(held := b.held[i := e], bytes := b1.bytes + e.nbytes, hist := b.hist + [e])
  }

  function EnqueueConflate(b: Buffer, e: Entry): Buffer {
    var i := Find(b.held, e.topic);
    ShrinkConflate(if i < |b.held| then Replace(b, i, e) else Append(b, e))
  }

  function Enqueue(b: Buffer, e: Entry): Buffer {
    if b.lim.policy == Conflate then EnqueueConflate(b, e) else EnqueueOld(b, e)
  }

  // ----- drain -----

  predicate OverAge(lim: Limits, e: Entry, now: real) {
    lim.maxAge > 0.0 && now - e.enqueuedAt > lim.maxAge
  }

  /**
   One drain from its n-th send on.  room is how many more sends the socket
   takes before EAGAIN; credit == 0 and an exhausted budget stop sending too.
   Under both policies every entry looked at either leaves or ends the drain.
   */
  function DrainFrom(b: Buffer, now: real, room: nat, credit: int, budget: int, n: nat): (r: (Buffer, nat))
    ensures r.0.lim == b.lim && r.0.hist == b.hist
    ensures n <= r.1 <= n + room
    ensures n <= DRAIN_BUDGET ==> r.1 <= DRAIN_BUDGET
    ensures budget >= 0 ==> r.1 <= n + budget
    ensures credit == 0 ==> r.1 == n
    decreases |b.held|
  {
    if b.held == [] || n >= DRAIN_BUDGET then (b, n)
    else if OverAge(b.lim, b.held[0], now)
    then DrainFrom(Leave(b, 0, Expired), now, room, credit, budget, n)
    else if credit == 0 || budget == 0 || room == 0 then (b, n)
    else DrainFrom(Leave(b, 0, Sent), now, room - 1, credit, if budget > 0 then budget - 1 else budget, n + 1)
  }

  function Drain(b: Buffer, now: real, room: nat, credit: int, budget: int): (r: (Buffer, nat))
    ensures r.0.lim == b.lim && r.0.hist == b.hist
    ensures r.1 <= DRAIN_BUDGET && r.1 <= room && (budget >= 0 ==> r.1 <= budget)
  {
    DrainFrom(b, now, room, credit, budget, 0)
  }

  // ----- the accounting invariant -----

  ghost function Total(s: seq<Entry>): int {
    if s == [] then 0 else Total(s[..|s| - 1]) + s[|s| - 1].nbytes
  }

  ghost function Count(log: seq<Exited>, fate: Fate): nat {
    if log == [] then 0 else Count(log[..|log| - 1], fate) + (if log[|log| - 1].fate == fate then 1 else 0)
  }

  ghost function Entries(log: seq<Exited>): (r: seq<Entry>)
    ensures |r| == |log|
  {
    seq(|log|, i requires 0 <= i < |log| => log[i].entry)
  }

  ghost function OfTopic(s: seq<Entry>, topic: string): seq<Entry> {
    if s == [] then []
    else OfTopic(s[..|s| - 1], topic) + (if s[|s| - 1].topic == topic then [s[|s| - 1]] else [])
  }

  ghost function DropsOf(log: seq<Exited>): seq<Drop> {
    if log == [] then []
    else
      var x := log[|log| - 1];
      DropsOf(log[..|log| - 1]) + (if x.fate in {Evicted, Expired} then [Drop(x.entry.topic, x.fate)] else [])
  }

  ghost predicate Counted(b: Buffer) {
    && b.bytes == Total(b.held)
    && b.evicted == Count(b.log, Evicted)
    && b.expired == Count(b.log, Expired)
    && b.conflated == Count(b.log, Conflated)
    && b.sent == Count(b.log, Sent)
    && b.drops == DropsOf(b.log)
    && |b.hist| == |b.log| + |b.held|
  }

  /** Per topic, frames leave in the order they were enqueued and what is held is the newest part. */
  ghost predicate TopicFifo(b: Buffer) {
    forall t: string {:trigger OfTopic(b.hist, t)} ::
      OfTopic(Entries(b.log), t) + OfTopic(b.held, t) == OfTopic(b.hist, t)
  }

  ghost predicate DistinctTopics(s: seq<Entry>) {
    forall i, j | 0 <= i < j < |s| :: s[i].topic != s[j].topic
  }

  ghost predicate Ordered(b: Buffer) {
    && TopicFifo(b)
    && (b.lim.policy == DropOld ==> Entries(b.log) + b.held == b.hist)
    && (b.lim.policy == DropOld ==> forall x | x in b.log :: x.fate != Conflated)
    && (b.lim.policy == Conflate ==> DistinctTopics(b.held))
  }

  ghost predicate Inv(b: Buffer) {
    Counted(b) && Ordered(b)
  }

  // ----- small facts about the folds -----

  lemma {:induction false} TotalConcat(a: seq<Entry>, b: seq<Entry>)
    ensures Total(a + b) == Total(a) + Total(b)
    decreases |b|
  {
    if b == [] {
      assert a + b == a;
    } else {
      var k := |b| - 1;
      assert (a + b)[..|a + b| - 1] == a + b[..k];
      TotalConcat(a, b[..k]);
    }
  }

  lemma {:induction false} OfTopicConcat(a: seq<Entry>, b: seq<Entry>, t: string)
    ensures OfTopic(a + b, t) == OfTopic(a, t) + OfTopic(b, t)
    decreases |b|
  {
    if b == [] {
      assert a + b == a;
    } else {
      var k := |b| - 1;
      assert (a + b)[..|a + b| - 1] == a + b[..k];
      OfTopicConcat(a, b[..k], t);
    }
  }

  lemma OfTopicOne(e: Entry, t: string)
    ensures OfTopic([e], t) == if e.topic == t then [e] else []
    ensures Total([e]) == e.nbytes
  {
    assert [e][..0] == [];
  }

  lemma {:induction false} OfTopicNone(s: seq<Entry>, t: string)
    requires forall i | 0 <= i < |s| :: s[i].topic != t
    ensures OfTopic(s, t) == []
  {
    if s != [] {
      OfTopicNone(s[..|s| - 1], t);
    }
  }

  lemma Around(s: seq<Entry>, i: nat, t: string)
    requires i < |s|
    ensures s == s[..i] + [s[i]] + s[i + 1..]
    ensures Total(s) == Total(s[..i]) + s[i].nbytes + Total(s[i + 1..])
    ensures OfTopic(s, t) == OfTopic(s[..i], t) + (if s[i].topic == t then [s[i]] else []) + OfTopic(s[i + 1..], t)
  {
    assert s == s[..i] + [s[i]] + s[i + 1..];
    TotalConcat(s[..i] + [s[i]], s[i + 1..]);
    TotalConcat(s[..i], [s[i]]);
    OfTopicConcat(s[..i] + [s[i]], s[i + 1..], t);
    OfTopicConcat(s[..i], [s[i]], t);
    OfTopicOne(s[i], t);
  }

  /** In a buffer with one entry per topic, the topic of entry i has no other entry. */
  lemma OnlyOfTopic(s: seq<Entry>, i: nat)
    requires i < |s| && DistinctTopics(s)
    ensures OfTopic(s[..i], s[i].topic) == [] && OfTopic(s[i + 1..], s[i].topic) == []
  {
    OfTopicNone(s[..i], s[i].topic);
    OfTopicNone(s[i + 1..], s[i].topic);
  }

  lemma LogGrows(log: seq<Exited>, e: Entry, fate: Fate)
    ensures var log' := log + [Exited(e, fate)];
            && Entries(log') == Entries(log) + [e]
            && DropsOf(log') == DropsOf(log) + (if fate in {Evicted, Expired} then [Drop(e.topic, fate)] else [])
            && forall f :: Count(log', f) == Count(log, f) + (if f == fate then 1 else 0)
  {
    assert (log + [Exited(e, fate)])[..|log|] == log;
  }

  // ----- every change keeps it -----

  lemma BookCounted(b: Buffer, e: Entry, fate: Fate)
    requires Counted(b)
    ensures var b' := Book(b, e, fate);
            && b'.evicted == Count(b'.log, Evicted) && b'.expired == Count(b'.log, Expired)
            && b'.conflated == Count(b'.log, Conflated) && b'.sent == Count(b'.log, Sent)
            && b'.drops == DropsOf(b'.log)
  {
    hide Total;
    LogGrows(b.log, e, fate);
  }

  lemma LeaveCounted(b: Buffer, i: nat, fate: Fate)
    requires Counted(b) && i < |b.held|
    ensures Counted(Leave(b, i, fate))
  {
    hide Count, DropsOf, Total;
    BookCounted(b, b.held[i], fate);
    Around(b.held, i, "");
    TotalConcat(b.held[..i], b.held[i + 1..]);
  }

  lemma LeaveTopic(b: Buffer, i: nat, fate: Fate, t: string)
    requires i < |b.held| && Ordered(b)
    requires b.lim.policy == DropOld ==> i == 0
    ensures var b' := Leave(b, i, fate);
            OfTopic(Entries(b'.log), t) + OfTopic(b'.held, t) == OfTopic(b.hist, t)
  {
    hide Total, Count, DropsOf, OfTopic;
    var e := b.held[i];
    LogGrows(b.log, e, fate);
    OfTopicConcat(Entries(b.log), [e], t);
    OfTopicOne(e, t);
    Around(b.held, i, t);
    OfTopicConcat(b.held[..i], b.held[i + 1..], t);
    assert OfTopic(Entries(b.log), t) + OfTopic(b.held, t) == OfTopic(b.hist, t);
    if i == 0 {
      OfTopicNone(b.held[..0], t);
    } else if e.topic == t {
      OnlyOfTopic(b.held, i);
    }
  }

  lemma LeaveTopicFifo(b: Buffer, i: nat, fate: Fate)
    requires i < |b.held| && Ordered(b)
    requires b.lim.policy == DropOld ==> i == 0
    ensures TopicFifo(Leave(b, i, fate))
  {
    hide OfTopic, Count, DropsOf, Total, Entries;
    var b' := Leave(b, i, fate);
    forall t: string
      ensures OfTopic(Entries(b'.log), t) + OfTopic(b'.held, t) == OfTopic(b'.hist, t)
    {
      LeaveTopic(b, i, fate, t);
    }
  }

  lemma LeaveFront(b: Buffer, fate: Fate)
    requires b.held != [] && Entries(b.log) + b.held == b.hist
    ensures Entries(Leave(b, 0, fate).log) + Leave(b, 0, fate).held == b.hist
  {
    LogGrows(b.log, b.held[0], fate);
    assert b.held == [b.held[0]] + Without(b.held, 0);
  }

  lemma LeaveKeepsInv(b: Buffer, i: nat, fate: Fate)
    requires Inv(b) && i < |b.held|
    requires b.lim.policy == DropOld ==> i == 0 && fate != Conflated
    ensures Inv(Leave(b, i, fate))
  {
    hide Counted, TopicFifo, Entries;
    LeaveCounted(b, i, fate);
    LeaveTopicFifo(b, i, fate);
    if b.lim.policy == DropOld {
      LeaveFront(b, fate);
    } else {
      DistinctWithout(b.held, i);
    }
  }

  lemma DistinctWithout(s: seq<Entry>, i: nat)
    requires i < |s| && DistinctTopics(s)
    ensures DistinctTopics(Without(s, i))
  {
    forall j, k | 0 <= j < k < |s| - 1
      ensures Without(s, i)[j].topic != Without(s, i)[k].topic
    {
      assert Without(s, i)[j] == s[if j < i then j else j + 1];
      assert Without(s, i)[k] == s[if k < i then k else k + 1];
    }
  }

  lemma AppendKeepsInv(b: Buffer, e: Entry)
    requires Inv(b)
    requires b.lim.policy == Conflate ==> forall j | 0 <= j < |b.held| :: b.held[j].topic != e.topic
    ensures Inv(Append(b, e))
  {
    hide Count, DropsOf, OfTopic, Entries, Total;
    var b' := Append(b, e);
    TotalConcat(b.held, [e]);
    OfTopicOne(e, "");
    forall t: string
      ensures OfTopic(Entries(b'.log), t) + OfTopic(b'.held, t) == OfTopic(b'.hist, t)
    {
      assert OfTopic(Entries(b.log), t) + OfTopic(b.held, t) == OfTopic(b.hist, t);
      AppendTopic(Entries(b.log), b.held, b.hist, e, t);
    }
  }

  lemma AppendTopic(left: seq<Entry>, held: seq<Entry>, hist: seq<Entry>, e: Entry, t: string)
    requires OfTopic(left, t) + OfTopic(held, t) == OfTopic(hist, t)
    ensures OfTopic(left, t) + OfTopic(held + [e], t) == OfTopic(hist + [e], t)
  {
    OfTopicConcat(held, [e], t);
    OfTopicConcat(hist, [e], t);
  }

  lemma ReplaceTopic(b: Buffer, i: nat, e: Entry, t: string)
    requires Ordered(b) && b.lim.policy == Conflate && i < |b.held| && b.held[i].topic == e.topic
    ensures var b' := Replace(b, i, e);
            OfTopic(Entries(b'.log), t) + OfTopic(b'.held, t) == OfTopic(b'.hist, t)
  {
    hide Total, Count, DropsOf, OfTopic;
    var b' := Replace(b, i, e);
    LogGrows(b.log, b.held[i], Conflated);
    OfTopicConcat(Entries(b.log), [b.held[i]], t);
    OfTopicOne(b.held[i], t);
    OfTopicConcat(b.hist, [e], t);
    OfTopicOne(e, t);
    Around(b.held, i, t);
    Around(b'.held, i, t);
    assert b'.held[..i] == b.held[..i] && b'.held[i + 1..] == b.held[i + 1..];
    assert OfTopic(Entries(b.log), t) + OfTopic(b.held, t) == OfTopic(b.hist, t);
    if e.topic == t {
      OnlyOfTopic(b.held, i);
    }
  }

  lemma ReplaceKeepsInv(b: Buffer, i: nat, e: Entry)
    requires Inv(b) && b.lim.policy == Conflate && i < |b.held| && b.held[i].topic == e.topic
    ensures Inv(Replace(b, i, e))
  {
    hide Count, DropsOf, OfTopic, Total;
    var b' := Replace(b, i, e);
    BookCounted(b, b.held[i], Conflated);
    Around(b.held, i, "");
    Around(b'.held, i, "");
    assert b'.held[..i] == b.held[..i] && b'.held[i + 1..] == b.held[i + 1..];
    forall t: string
      ensures OfTopic(Entries(b'.log), t) + OfTopic(b'.held, t) == OfTopic(b'.hist, t)
    {
      ReplaceTopic(b, i, e, t);
    }
  }

  lemma {:induction false} ShrinkOldKeepsInv(b: Buffer)
    requires Inv(b) && b.lim.policy == DropOld
    ensures Inv(ShrinkOld(b)) && !OverBytes(ShrinkOld(b))
    ensures |ShrinkOld(b).held| <= |b.held|
    ensures ShrinkOld(b).lim == b.lim && ShrinkOld(b).hist == b.hist
    decreases |b.held|
  {
    if OverBytes(b) && b.held != [] {
      LeaveKeepsInv(b, 0, Evicted);
      ShrinkOldKeepsInv(Leave(b, 0, Evicted));
    }
  }

  lemma {:induction false} ShrinkConflateKeepsInv(b: Buffer)
    requires Inv(b) && b.lim.policy == Conflate
    ensures Inv(ShrinkConflate(b)) && (!OverBytes(ShrinkConflate(b)) || |ShrinkConflate(b).held| <= 1)
    ensures ShrinkConflate(b).lim == b.lim && ShrinkConflate(b).hist == b.hist
    decreases |b.held|
  {
    hide Inv;
    if OverBytes(b) && |b.held| > 1 {
      LeaveKeepsInv(b, Oldest(b.held), Evicted);
      ShrinkConflateKeepsInv(Leave(b, Oldest(b.held), Evicted));
    }
  }

  /** Within the message limit, when there is one. */
  ghost predicate WithinMessages(b: Buffer) {
    b.lim.maxMessages > 0 ==> |b.held| <= b.lim.maxMessages
  }

  /**
   Every enqueue keeps the accounts, adds exactly this frame to the history and
   ends within the limits: drop_old within both, conflate within the byte limit
   or holding a single topic.
   */
  lemma EnqueueKeepsInv(b: Buffer, e: Entry)
    requires Inv(b)
    ensures Inv(Enqueue(b, e))
    ensures Enqueue(b, e).hist == b.hist + [e] && Enqueue(b, e).lim == b.lim
    ensures b.lim.policy == DropOld && WithinMessages(b) ==>
              WithinMessages(Enqueue(b, e)) && !OverBytes(Enqueue(b, e))
    ensures b.lim.policy == Conflate ==> !OverBytes(Enqueue(b, e)) || |Enqueue(b, e).held| <= 1
  {
    hide Inv, ShrinkOld, ShrinkConflate;
    if b.lim.policy == DropOld {
      var full := b.lim.maxMessages > 0 && |b.held| >= b.lim.maxMessages;
      if full {
        LeaveKeepsInv(b, 0, Evicted);
      }
      var b1 := if full then Leave(b, 0, Evicted) else b;
      AppendKeepsInv(b1, e);
      ShrinkOldKeepsInv(Append(b1, e));
    } else {
      var i := Find(b.held, e.topic);
      if i < |b.held| {
        ReplaceKeepsInv(b, i, e);
        ShrinkConflateKeepsInv(Replace(b, i, e));
      } else {
        AppendKeepsInv(b, e);
        ShrinkConflateKeepsInv(Append(b, e));
      }
    }
  }

  lemma EnqueueGrows(b: Buffer, e: Entry)
    requires Inv(b)
    ensures Inv(Enqueue(b, e)) && Enqueue(b, e).hist == b.hist + [e] && Enqueue(b, e).lim == b.lim
  {
    hide Inv, Enqueue;
    EnqueueKeepsInv(b, e);
  }

  // ----- draining -----

  /** The queue's enqueue times never step back; the clock is monotonic. */
  ghost predicate Timely(s: seq<Entry>) {
    forall i, j | 0 <= i < j < |s| :: s[i].enqueuedAt <= s[j].enqueuedAt
  }

  /**
   One drain keeps the accounts; what left is an extension of the log in which
   only over-age frames are Expired, none of the rest is, and exactly r.1 frames are Sent.
   */
  lemma {:induction false} DrainFromKeeps(b: Buffer, now: real, room: nat, credit: int, budget: int, n: nat)
    requires Inv(b)
    ensures var r := DrainFrom(b, now, room, credit, budget, n);
            && Inv(r.0)
            && b.log <= r.0.log
            && r.0.sent == b.sent + (r.1 - n)
            && r.0.evicted == b.evicted && r.0.conflated == b.conflated
            && (forall k | |b.log| <= k < |r.0.log| ::
                  r.0.log[k].fate == if OverAge(b.lim, r.0.log[k].entry, now) then Expired else Sent)
    decreases |b.held|
  {
    hide Inv, Leave, OverAge;
    if b.held == [] || n >= DRAIN_BUDGET {
      return;
    }
    LeaveBooks(b, Expired);
    LeaveBooks(b, Sent);
    if OverAge(b.lim, b.held[0], now) {
      LeaveKeepsInv(b, 0, Expired);
      DrainFromKeeps(Leave(b, 0, Expired), now, room, credit, budget, n);
    } else if !(credit == 0 || budget == 0 || room == 0) {
      LeaveKeepsInv(b, 0, Sent);
      DrainFromKeeps(Leave(b, 0, Sent), now, room - 1, credit, if budget > 0 then budget - 1 else budget, n + 1);
    }
  }

  lemma LeaveBooks(b: Buffer, fate: Fate)
    requires b.held != []
    ensures var m := Leave(b, 0, fate);
            && m.log == b.log + [Exited(b.held[0], fate)]
            && m.sent == b.sent + (if fate == Sent then 1 else 0)
            && m.evicted == b.evicted + (if fate == Evicted then 1 else 0)
            && m.conflated == b.conflated + (if fate == Conflated then 1 else 0)
  {
  }

  lemma DrainKeepsInv(b: Buffer, now: real, room: nat, credit: int, budget: int)
    requires Inv(b)
    ensures var r := Drain(b, now, room, credit, budget);
            && Inv(r.0)
            && b.log <= r.0.log
            && r.0.sent == b.sent + r.1
            && r.0.evicted == b.evicted && r.0.conflated == b.conflated
            && (forall k | |b.log| <= k < |r.0.log| ::
                  r.0.log[k].fate ==
                  if b.lim.maxAge > 0.0 && now - r.0.log[k].entry.enqueuedAt > b.lim.maxAge then Expired else Sent)
  {
    DrainFromKeeps(b, now, room, credit, budget, 0);
  }

  /** A drop_old drain that stopped before its send limit leaves no over-age frame behind. */
  lemma {:induction false} DrainLeavesNoneOverAge(b: Buffer, now: real, room: nat, credit: int, budget: int, n: nat)
    requires Timely(b.held)
    requires DrainFrom(b, now, room, credit, budget, n).1 < DRAIN_BUDGET
    ensures forall e | e in DrainFrom(b, now, room, credit, budget, n).0.held :: !OverAge(b.lim, e, now)
    decreases |b.held|
  {
    hide Leave, OverAge, Timely;
    if b.held == [] {
      return;
    }
    LeaveFirst(b, Expired);
    LeaveFirst(b, Sent);
    if OverAge(b.lim, b.held[0], now) {
      DrainLeavesNoneOverAge(Leave(b, 0, Expired), now, room, credit, budget, n);
    } else if !(credit == 0 || budget == 0 || room == 0) {
      DrainLeavesNoneOverAge(Leave(b, 0, Sent), now, room - 1, credit,
                             if budget > 0 then budget - 1 else budget, n + 1);
    } else {
      YoungHeadYoungRest(b.lim, b.held, now);
    }
  }

  lemma LeaveFirst(b: Buffer, fate: Fate)
    requires Timely(b.held) && b.held != []
    ensures Timely(Leave(b, 0, fate).held)
  {
    assert Leave(b, 0, fate).held == b.held[1..];
  }

  lemma YoungHeadYoungRest(lim: Limits, s: seq<Entry>, now: real)
    requires Timely(s) && s != [] && !OverAge(lim, s[0], now)
    ensures forall e | e in s :: !OverAge(lim, e, now)
  {
  }
}
