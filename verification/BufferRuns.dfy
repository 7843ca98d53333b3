/** What holds of a subscriber's buffer after one drain and in every run of enqueues and drains. */
module BufferRuns {
  import opened Bytes
  import opened BufferModel

  // ----- one drain -----

  /**
   Nothing that could go is left: a drain that sent n frames and left b ended
   because b is empty, the send limit is reached, or its head is young enough and
   credit, budget or socket allow no further send.
   */
  ghost predicate NoneCouldGo(b: Buffer, n: nat, now: real, room: nat, credit: int, budget: int) {
    || b.held == []
    || n >= DRAIN_BUDGET
    || (!(b.lim.maxAge > 0.0 && now - b.held[0].enqueuedAt > b.lim.maxAge) &&
        (credit == 0 || n == budget || n == room))
  }

  lemma {:induction false} DrainFromGoesOn(b: Buffer, now: real, room: nat, credit: int, budget: int, n: nat)
    ensures var r := DrainFrom(b, now, room, credit, budget, n);
            NoneCouldGo(r.0, r.1, now, n + room, credit, if budget >= 0 then n + budget else budget)
    decreases |b.held|
  {
    hide Leave;
    if b.held == [] || n >= DRAIN_BUDGET {
    } else if OverAge(b.lim, b.held[0], now) {
      DrainFromGoesOn(Leave(b, 0, Expired), now, room, credit, budget, n);
    } else if !(credit == 0 || budget == 0 || room == 0) {
      DrainFromGoesOn(Leave(b, 0, Sent), now, room - 1, credit, if budget > 0 then budget - 1 else budget, n + 1);
    }
  }

  /** Under both policies a drain sends until one of its reasons to stop holds. */
  lemma DrainSendsWhatItMay(b: Buffer, now: real, room: nat, credit: int, budget: int)
    ensures var r := Drain(b, now, room, credit, budget);
            NoneCouldGo(r.0, r.1, now, room, credit, budget)
  {
    DrainFromGoesOn(b, now, room, credit, budget, 0);
  }

  // ----- whole runs -----

  datatype Op =
    | Put(topic: string, frame: seq<byte>, now: real)
    | Flush(now: real, room: nat, credit: int, budget: int)

  function Apply(b: Buffer, op: Op): Buffer {
    match op
    case Put(t, f, now) => Enqueue(b, Entry(t, f, |f|, now))
    case Flush(now, room, credit, budget) => Drain(b, now, room, credit, budget).0
  }

  function Run(lim: Limits, ops: seq<Op>): Buffer {
    if ops == [] then New(lim) else Apply(Run(lim, ops[..|ops| - 1]), ops[|ops| - 1])
  }

  lemma {:induction false} RunKeepsInv(lim: Limits, ops: seq<Op>)
    ensures Inv(Run(lim, ops)) && Run(lim, ops).lim == lim
    ensures lim.policy == DropOld ==> WithinMessages(Run(lim, ops))
  {
    if ops == [] {
      assert Entries([]) == [];
    } else {
      var k := |ops| - 1;
      RunKeepsInv(lim, ops[..k]);
      var b := Run(lim, ops[..k]);
      match ops[k] {
        case Put(t, f, now) => EnqueueKeepsInv(b, Entry(t, f, |f|, now));
        case Flush(now, room, credit, budget) =>
          DrainKeepsInv(b, now, room, credit, budget);
          DrainHolds(b, now, room, credit, budget, 0);
      }
    }
  }

  ghost predicate IsSuffix(s: seq<Entry>, l: seq<Entry>) {
    |s| <= |l| && s == l[|l| - |s|..]
  }

  lemma {:induction false} DrainHolds(b: Buffer, now: real, room: nat, credit: int, budget: int, n: nat)
    ensures IsSuffix(DrainFrom(b, now, room, credit, budget, n).0.held, b.held)
    decreases |b.held|
  {
    hide OverAge, Book;
    if b.held == [] || n >= DRAIN_BUDGET {
    } else if OverAge(b.lim, b.held[0], now) {
      DrainHolds(Leave(b, 0, Expired), now, room, credit, budget, n);
      FrontRemoved(DrainFrom(b, now, room, credit, budget, n).0.held, b.held);
    } else if !(credit == 0 || budget == 0 || room == 0) {
      DrainHolds(Leave(b, 0, Sent), now, room - 1, credit, if budget > 0 then budget - 1 else budget, n + 1);
      FrontRemoved(DrainFrom(b, now, room, credit, budget, n).0.held, b.held);
    }
  }

  lemma FrontRemoved(s: seq<Entry>, l: seq<Entry>)
    requires l != [] && IsSuffix(s, Without(l, 0))
    ensures IsSuffix(s, l)
  {
  }

  lemma {:induction false} CountsPartition(log: seq<Exited>)
    ensures Count(log, Sent) + Count(log, Evicted) + Count(log, Expired) + Count(log, Conflated) == |log|
    ensures |DropsOf(log)| == Count(log, Evicted) + Count(log, Expired)
  {
    if log != [] {
      CountsPartition(log[..|log| - 1]);
    }
  }

  lemma {:induction false} CountNone(log: seq<Exited>, fate: Fate)
    requires forall x | x in log :: x.fate != fate
    ensures Count(log, fate) == 0
  {
    if log != [] {
      CountNone(log[..|log| - 1], fate);
    }
  }

  /**
   Conservation over every run: each frame enqueued is held or left in exactly
   one way, the drop callback ran once per evicted or expired frame, the byte
   count is the size of what is held, and drop_old never conflates.
   */
  lemma Conservation(lim: Limits, ops: seq<Op>)
    ensures var b := Run(lim, ops);
            && |b.hist| == |b.held| + b.sent + b.evicted + b.expired + b.conflated
            && |b.drops| == b.evicted + b.expired
            && b.bytes == Total(b.held)
            && (lim.policy == DropOld ==> b.conflated == 0)
  {
    RunKeepsInv(lim, ops);
    var b := Run(lim, ops);
    CountsPartition(b.log);
    if lim.policy == DropOld {
      CountNone(b.log, Conflated);
    }
  }

  ghost function SentOf(log: seq<Exited>): seq<Entry> {
    if log == [] then []
    else SentOf(log[..|log| - 1]) + (if log[|log| - 1].fate == Sent then [log[|log| - 1].entry] else [])
  }

  /** s is got from l by leaving entries out. */
  ghost predicate IsSubsequence(s: seq<Entry>, l: seq<Entry>) {
    if s == [] then true
    else if l == [] then false
    else if s[|s| - 1] == l[|l| - 1] && IsSubsequence(s[..|s| - 1], l[..|l| - 1]) then true
    else IsSubsequence(s, l[..|l| - 1])
  }

  lemma SubsequenceGrows(s: seq<Entry>, l: seq<Entry>, e: Entry)
    requires IsSubsequence(s, l)
    ensures IsSubsequence(s, l + [e]) && IsSubsequence(s + [e], l + [e])
  {
    assert (l + [e])[..|l|] == l && (s + [e])[..|s|] == s;
  }

  lemma SubsequenceStep(s: seq<Entry>, l: seq<Entry>, e: Entry, taken: bool, there: bool)
    requires IsSubsequence(s, l) && (taken ==> there)
    ensures IsSubsequence(s + (if taken then [e] else []), l + (if there then [e] else []))
  {
    hide IsSubsequence;
    SubsequenceGrows(s, l, e);
    assert s + [] == s && l + [] == l;
  }

  lemma LogLast(log: seq<Exited>)
    requires log != []
    ensures var k, e := |log| - 1, log[|log| - 1].entry;
            && Entries(log) == Entries(log[..k]) + [e]
            && SentOf(log) == SentOf(log[..k]) + (if log[k].fate == Sent then [e] else [])
  {
    EntriesLast(log);
  }

  lemma EntriesLast(log: seq<Exited>)
    requires log != []
    ensures Entries(log) == Entries(log[..|log| - 1]) + [log[|log| - 1].entry]
  {
    hide Count, DropsOf, SentOf;
    var k := |log| - 1;
    assert log == log[..k] + [Exited(log[k].entry, log[k].fate)];
    LogGrows(log[..k], log[k].entry, log[k].fate);
  }

  lemma OfTopicLast(s: seq<Entry>, e: Entry, t: string)
    ensures OfTopic(s + [e], t) == OfTopic(s, t) + (if e.topic == t then [e] else [])
  {
    OfTopicConcat(s, [e], t);
    OfTopicOne(e, t);
  }

  lemma {:induction false} SentIsSubsequence(log: seq<Exited>, t: string)
    ensures IsSubsequence(SentOf(log), Entries(log))
    ensures IsSubsequence(OfTopic(SentOf(log), t), OfTopic(Entries(log), t))
  {
    if log == [] {
      assert Entries(log) == [];
    } else {
      hide IsSubsequence, SentOf, Entries, OfTopic;
      var k := |log| - 1;
      var e, sent, all := log[k].entry, SentOf(log[..k]), Entries(log[..k]);
      SentIsSubsequence(log[..k], t);
      LogLast(log);
      SubsequenceStep(sent, all, e, log[k].fate == Sent, true);
      OfTopicLast(all, e, t);
      OfTopicLast(sent, e, t);
      SubsequenceStep(OfTopic(sent, t), OfTopic(all, t), e, log[k].fate == Sent && e.topic == t, e.topic == t);
      if log[k].fate != Sent {
        assert sent + [] == sent && OfTopic(sent, t) + [] == OfTopic(sent, t);
      } else if e.topic != t {
        assert OfTopic(sent, t) + [] == OfTopic(sent, t);
      }
    }
  }

  /**
   Order over every run.  drop_old holds a suffix of the enqueue history, the
   successful sends being an ordered subsequence of the part before it; under
   either policy a topic's frames leave oldest first, and conflate holds at most
   one frame of a topic, the newest enqueued.
   */
  lemma Order(lim: Limits, ops: seq<Op>, t: string)
    ensures var b := Run(lim, ops);
            && (lim.policy == DropOld ==>
                  IsSuffix(b.held, b.hist) &&
                  IsSubsequence(SentOf(b.log), b.hist[..|b.hist| - |b.held|]))
            && (var of := OfTopic(b.hist, t);
                && OfTopic(Entries(b.log), t) <= of
                && IsSubsequence(OfTopic(SentOf(b.log), t), OfTopic(Entries(b.log), t))
                && (lim.policy == Conflate ==>
                      OfTopic(b.held, t) == [] || (of != [] && OfTopic(b.held, t) == [of[|of| - 1]])))
  {
    hide Count, DropsOf, Total, OfTopic, IsSubsequence;
    RunKeepsInv(lim, ops);
    var b := Run(lim, ops);
    SentIsSubsequence(b.log, t);
    assert OfTopic(Entries(b.log), t) + OfTopic(b.held, t) == OfTopic(b.hist, t);
    if lim.policy == DropOld {
      assert b.hist[..|b.log|] == Entries(b.log) && b.hist[|b.log|..] == b.held;
    } else {
      AtMostOne(b.held, t);
    }
  }

  lemma AtMostOne(s: seq<Entry>, t: string)
    requires DistinctTopics(s)
    ensures |OfTopic(s, t)| <= 1
  {
    if i: nat :| i < |s| && s[i].topic == t {
      Around(s, i, t);
      OnlyOfTopic(s, i);
    } else {
      OfTopicNone(s, t);
    }
  }

  // ----- age -----

  /** The clock reads of enqueues and drains never step back. */
  ghost predicate ClockForward(ops: seq<Op>) {
    forall i, j | 0 <= i < j < |ops| :: ops[i].now <= ops[j].now
  }

  lemma EnqueueHolds(lim: Limits, b: Buffer, e: Entry)
    requires lim.policy == DropOld && b.lim == lim
    ensures IsSuffix(Enqueue(b, e).held, b.held + [e])
  {
    hide ShrinkOld, OverBytes;
    var full := lim.maxMessages > 0 && |b.held| >= lim.maxMessages;
    var b1 := if full then Leave(b, 0, Evicted) else b;
    ShrinkHolds(Append(b1, e));
    assert IsSuffix(b1.held + [e], b.held + [e]);
    SuffixOfSuffix(Enqueue(b, e).held, b1.held + [e], b.held + [e]);
  }

  lemma SuffixOfSuffix(a: seq<Entry>, b: seq<Entry>, c: seq<Entry>)
    requires IsSuffix(a, b) && IsSuffix(b, c)
    ensures IsSuffix(a, c)
  {
  }

  lemma {:induction false} ShrinkHolds(b: Buffer)
    ensures IsSuffix(ShrinkOld(b).held, b.held)
    decreases |b.held|
  {
    if OverBytes(b) && b.held != [] {
      ShrinkHolds(Leave(b, 0, Evicted));
      FrontRemoved(ShrinkOld(b).held, b.held);
    }
  }

  /** Ordered by enqueue time, none later than now. */
  ghost predicate TimelyBy(s: seq<Entry>, now: real) {
    Timely(s) && forall i | 0 <= i < |s| :: s[i].enqueuedAt <= now
  }

  lemma SuffixTimely(s: seq<Entry>, l: seq<Entry>, now: real)
    requires IsSuffix(s, l) && TimelyBy(l, now)
    ensures TimelyBy(s, now)
  {
  }

  lemma AppendTimely(l: seq<Entry>, e: Entry)
    requires TimelyBy(l, e.enqueuedAt)
    ensures TimelyBy(l + [e], e.enqueuedAt)
  {
  }

  /** No operation is later than now. */
  ghost predicate Until(ops: seq<Op>, now: real) {
    forall i | 0 <= i < |ops| :: ops[i].now <= now
  }

  lemma ClockBefore(ops: seq<Op>, k: nat)
    requires ClockForward(ops) && k < |ops|
    ensures ClockForward(ops[..k]) && Until(ops[..k], ops[k].now)
  {
  }

  /** One operation turns a timely queue into a timely one. */
  lemma ApplyTimely(b: Buffer, op: Op)
    requires b.lim.policy == DropOld && TimelyBy(b.held, op.now)
    ensures TimelyBy(Apply(b, op).held, op.now)
  {
    hide Enqueue, DrainFrom, IsSuffix, TimelyBy;
    match op
    case Put(t, f, at) =>
      var e := Entry(t, f, |f|, at);
      AppendTimely(b.held, e);
      EnqueueHolds(b.lim, b, e);
      SuffixTimely(Enqueue(b, e).held, b.held + [e], at);
    case Flush(at, room, credit, budget) =>
      DrainHolds(b, at, room, credit, budget, 0);
      SuffixTimely(Drain(b, at, room, credit, budget).0.held, b.held, at);
  }

  lemma TimelyLater(s: seq<Entry>, now: real, later: real)
    requires TimelyBy(s, now) && now <= later
    ensures TimelyBy(s, later)
  {
  }

  lemma {:induction false} QueueTimelyBy(lim: Limits, ops: seq<Op>, now: real)
    requires lim.policy == DropOld && ClockForward(ops) && Until(ops, now)
    ensures TimelyBy(Run(lim, ops).held, now)
  {
    if ops != [] {
      hide Apply, Inv, TimelyBy, ClockForward;
      var k := |ops| - 1;
      ClockBefore(ops, k);
      QueueTimelyBy(lim, ops[..k], ops[k].now);
      RunKeepsInv(lim, ops[..k]);
      ApplyTimely(Run(lim, ops[..k]), ops[k]);
      TimelyLater(Run(lim, ops).held, ops[k].now, now);
    }
  }

  lemma LastIsLatest(ops: seq<Op>)
    requires ClockForward(ops) && ops != []
    ensures Until(ops, ops[|ops| - 1].now)
  {
  }

  /** Under a forward clock a drop_old queue is ordered by enqueue time, none later than the last operation. */
  lemma QueueIsTimely(lim: Limits, ops: seq<Op>)
    requires lim.policy == DropOld && ClockForward(ops)
    ensures Timely(Run(lim, ops).held)
    ensures ops != [] ==> forall e | e in Run(lim, ops).held :: e.enqueuedAt <= ops[|ops| - 1].now
  {
    if ops != [] {
      LastIsLatest(ops);
      QueueTimelyBy(lim, ops, ops[|ops| - 1].now);
      hide Run;
    }
  }

  /** The head of a drop_old queue is the oldest frame, so its age is the age reported. */
  lemma HeadIsOldest(lim: Limits, ops: seq<Op>)
    requires lim.policy == DropOld && ClockForward(ops) && Run(lim, ops).held != []
    ensures forall e | e in Run(lim, ops).held :: Run(lim, ops).held[0].enqueuedAt <= e.enqueuedAt
  {
    QueueIsTimely(lim, ops);
  }

  /** In every run with a forward clock, a drop_old drain below its send limit leaves no over-age frame. */
  lemma NoOverAgeAfterDrain(lim: Limits, ops: seq<Op>, now: real, room: nat, credit: int, budget: int)
    requires lim.policy == DropOld && ClockForward(ops)
    requires Drain(Run(lim, ops), now, room, credit, budget).1 < DRAIN_BUDGET
    ensures forall e | e in Drain(Run(lim, ops), now, room, credit, budget).0.held :: !OverAge(lim, e, now)
  {
    QueueIsTimely(lim, ops);
    RunKeepsInv(lim, ops);
    DrainLeavesNoneOverAge(Run(lim, ops), now, room, credit, budget, 0);
  }
}
