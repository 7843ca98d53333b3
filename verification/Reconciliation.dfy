/** The reconciliation identity: sent = received + lost, and the client's count of lost frames is exact. */
module Reconciliation {
  import opened Wrappers
  import opened Frames
  import opened BufferModel
  import opened BufferRuns
  import opened GapLedger
  import opened EndToEnd

  /** Frames of topic t numbered f or above that left the buffer this way. */
  ghost function Since<D>(env: Env<D>, log: seq<Exited>, t: string, fate: Fate, f: nat): nat {
    if log == [] then 0
    else
      var x := log[|log| - 1];
      Since(env, log[..|log| - 1], t, fate, f) +
      (if x.fate == fate && x.entry.topic == t && SeqNo(env, x.entry.frame) >= f then 1 else 0)
  }

  /** Frames of topic t numbered f or above among these. */
  ghost function OnWire<D>(env: Env<D>, s: seq<Entry>, t: string, f: nat): nat {
    if s == [] then 0
    else
      var e := s[|s| - 1];
      OnWire(env, s[..|s| - 1], t, f) + (if e.topic == t && SeqNo(env, e.frame) >= f then 1 else 0)
  }

  /** Control frames of topic t numbered f or above among these. */
  ghost function Controls<D>(env: Env<D>, s: seq<Entry>, t: string, f: nat): nat {
    if s == [] then 0
    else
      var e := s[|s| - 1];
      Controls(env, s[..|s| - 1], t, f) +
      (if e.topic == t && SeqNo(env, e.frame) >= f && IsControl(env, e.frame) then 1 else 0)
  }

  // ----- the frames that left are numbered base + 1, base + 2, ... -----

  lemma NumberedPrefix<D>(env: Env<D>, log: seq<Exited>, t: string, base: nat)
    requires log != [] && Numbered(env, Entries(log), t, base)
    ensures var k, e := |log| - 1, log[|log| - 1].entry;
            && Numbered(env, Entries(log[..k]), t, base)
            && |OfTopic(Entries(log), t)| == |OfTopic(Entries(log[..k]), t)| + (if e.topic == t then 1 else 0)
            && (e.topic == t ==> SeqNo(env, e.frame) == base + |OfTopic(Entries(log), t)|)
  {
    hide SeqNo, Entries, OfTopic;
    EntriesLast(log);
    var k, e := |log| - 1, log[|log| - 1].entry;
    OfTopicLast(Entries(log[..k]), e, t);
    var l, l' := OfTopic(Entries(log[..k]), t), OfTopic(Entries(log), t);
    forall i | 0 <= i < |l|
      ensures SeqNo(env, l[i].frame) == base + 1 + i
    {
      assert l'[i] == l[i];
    }
    if e.topic == t {
      assert l'[|l|] == e;
    }
  }

  /** Every number from f up to the last one that left is counted once. */
  lemma {:induction false} ExitsCount<D>(env: Env<D>, log: seq<Exited>, t: string, base: nat, f: nat)
    requires Numbered(env, Entries(log), t, base) && f > base
    ensures var top := base + |OfTopic(Entries(log), t)|;
            Since(env, log, t, Sent, f) + Since(env, log, t, Evicted, f)
            + Since(env, log, t, Expired, f) + Since(env, log, t, Conflated, f)
            == if top >= f then top - f + 1 else 0
  {
    if log == [] {
      assert Entries(log) == [];
    } else {
      hide Numbered, SeqNo, OfTopic, Entries;
      NumberedPrefix(env, log, t, base);
      ExitsCount(env, log[..|log| - 1], t, base, f);
    }
  }

  lemma {:induction false} NoneSince<D>(env: Env<D>, log: seq<Exited>, t: string, fate: Fate, f: nat)
    requires forall x | x in log :: x.fate != fate
    ensures Since(env, log, t, fate, f) == 0
  {
    if log != [] {
      NoneSince(env, log[..|log| - 1], t, fate, f);
    }
  }

  lemma {:induction false} SentSince<D>(env: Env<D>, log: seq<Exited>, t: string, f: nat)
    ensures OnWire(env, SentOf(log), t, f) == Since(env, log, t, Sent, f)
  {
    if log != [] {
      hide SeqNo;
      var k := |log| - 1;
      SentSince(env, log[..k], t, f);
      var w := SentOf(log[..k]);
      if log[k].fate == Sent {
        assert SentOf(log)[..|SentOf(log)| - 1] == w;
      } else {
        assert SentOf(log) == w;
      }
    }
  }

  /** On the wire a topic's numbers only go up and stay within what has left the buffer. */
  ghost predicate Rising<D>(env: Env<D>, s: seq<Entry>, t: string, low: nat, high: nat) {
    && (forall i | 0 <= i < |s| && s[i].topic == t :: low < SeqNo(env, s[i].frame) <= high)
    && (forall i, j | 0 <= i < j < |s| && s[i].topic == t && s[j].topic == t ::
          SeqNo(env, s[i].frame) < SeqNo(env, s[j].frame))
  }

  lemma RisingGrows<D>(env: Env<D>, s: seq<Entry>, e: Entry, t: string, low: nat, high: nat, high': nat)
    requires Rising(env, s, t, low, high) && high <= high'
    requires e.topic == t ==> low <= high < SeqNo(env, e.frame) <= high'
    ensures Rising(env, s + [e], t, low, high') && Rising(env, s, t, low, high')
  {
    hide SeqNo;
  }

  lemma {:induction false} WireIsRising<D>(env: Env<D>, log: seq<Exited>, t: string, base: nat)
    requires Numbered(env, Entries(log), t, base)
    ensures Rising(env, SentOf(log), t, base, base + |OfTopic(Entries(log), t)|)
  {
    if log != [] {
      hide Numbered, SeqNo, OfTopic, Entries, Rising, SentOf;
      var k := |log| - 1;
      LogLast(log);
      NumberedPrefix(env, log, t, base);
      WireIsRising(env, log[..k], t, base);
      var high, high' := base + |OfTopic(Entries(log[..k]), t)|, base + |OfTopic(Entries(log), t)|;
      RisingGrows(env, SentOf(log[..k]), log[k].entry, t, base, high, high');
      if log[k].fate != Sent {
        assert SentOf(log) == SentOf(log[..k]);
      }
    }
  }

  // ----- arrivals mirror the wire -----

  ghost predicate Mirrors<D>(env: Env<D>, arrivals: seq<Arrival>, s: seq<Entry>) {
    && |arrivals| <= |s|
    && forall i | 0 <= i < |arrivals| :: arrivals[i].event == EventOf(env, s[i])
  }

  /** From position n on nothing of the topic follows. */
  ghost predicate NoneFrom(s: seq<Entry>, n: nat, t: string) {
    forall i | n <= i < |s| :: s[i].topic != t
  }

  lemma MirrorIncreases<D>(env: Env<D>, arrivals: seq<Arrival>, s: seq<Entry>, t: string, low: nat, high: nat)
    requires Mirrors(env, arrivals, s) && Rising(env, s, t, low, high)
    ensures Increasing(arrivals, t)
  {
    hide SeqNo, IsControl;
  }

  ghost function Arrived(arrivals: seq<Arrival>, t: string): nat {
    if arrivals == [] then 0
    else Arrived(arrivals[..|arrivals| - 1], t) + (if IsOf(arrivals[|arrivals| - 1], t) then 1 else 0)
  }

  lemma {:induction false} ArrivedAreAnswered(arrivals: seq<Arrival>, t: string)
    ensures var l := ProcessAll(GapLedger.EMPTY, arrivals);
            Num(l.routed, t) + Num(l.drops, t) + Unsettled(arrivals, t) == Arrived(arrivals, t)
  {
    if arrivals != [] {
      hide Visit, Odd;
      var n := |arrivals| - 1;
      ArrivedAreAnswered(arrivals[..n], t);
      VisitCounts(ProcessAll(GapLedger.EMPTY, arrivals[..n]), arrivals[n], t);
    }
  }

  lemma VisitCounts(l: Ledger, a: Arrival, t: string)
    ensures var l' := Visit(l, a);
            Num(l'.routed, t) + Num(l'.drops, t) + (if IsOf(a, t) then Odd(a.answer.value) else 0) ==
            Num(l.routed, t) + Num(l.drops, t) + (if IsOf(a, t) then 1 else 0)
  {
    if !IsOf(a, t) {
      hide Visit;
      OtherTopicUntouched(l, a, t);
    } else {
      hide Track;
      TrackCountsNothing(l, t, a.event.seqNo);
    }
  }

  lemma TrackCountsNothing(l: Ledger, t: string, s: nat)
    ensures Track(l, t, s).routed == l.routed && Track(l, t, s).drops == l.drops
  {
  }

  /** Data frames of topic t numbered f or above that an exception left unseen. */
  ghost function Discarded(arrivals: seq<Arrival>, t: string, f: nat): nat {
    if arrivals == [] then 0
    else
      var a := arrivals[|arrivals| - 1];
      Discarded(arrivals[..|arrivals| - 1], t, f) +
      (if a.answer.None? && a.event.Data? && a.event.topic == t && a.event.seqNo >= f then 1 else 0)
  }

  /** The first number observed is the least. */
  lemma {:induction false} FirstIsLeast(batch: seq<Arrival>, t: string)
    requires Increasing(batch, t) && FirstSeq(batch, t).Some?
    ensures forall i | 0 <= i < |batch| && IsOf(batch[i], t) :: batch[i].event.seqNo >= FirstSeq(batch, t).value
    ensures exists i :: 0 <= i < |batch| && IsOf(batch[i], t) && batch[i].event.seqNo == FirstSeq(batch, t).value
  {
    var n := |batch| - 1;
    if FirstSeq(batch[..n], t).Some? {
      FirstIsLeast(batch[..n], t);
      var i :| 0 <= i < n && IsOf(batch[..n][i], t) && batch[..n][i].event.seqNo == FirstSeq(batch, t).value;
      assert IsOf(batch[i], t);
    } else {
      NoneBeforeFirst(batch[..n], t);
      assert IsOf(batch[n], t);
    }
  }

  lemma {:induction false} NoneBeforeFirst(batch: seq<Arrival>, t: string)
    requires FirstSeq(batch, t).None?
    ensures forall i | 0 <= i < |batch| :: !IsOf(batch[i], t)
  {
    if batch != [] {
      NoneBeforeFirst(batch[..|batch| - 1], t);
    }
  }

  /** Every data frame of the topic that the ledger saw is numbered f or above. */
  ghost predicate SeenFrom<D>(env: Env<D>, arrivals: seq<Arrival>, s: seq<Entry>, t: string, f: nat)
    requires |arrivals| <= |s|
  {
    forall i | 0 <= i < |arrivals| && s[i].topic == t && !IsControl(env, s[i].frame) && arrivals[i].answer.Some? ::
      SeqNo(env, s[i].frame) >= f
  }

  /**
   If nothing of the topic is still under way and what the ledger saw of it is
   numbered f or above, the wire carried what it saw, what it did not get to see,
   and the control frames.
   */
  lemma {:induction false} WireCountIsArrived<D>(env: Env<D>, arrivals: seq<Arrival>, s: seq<Entry>, t: string, f: nat)
    requires Mirrors(env, arrivals, s) && SeenFrom(env, arrivals, s, t, f) && NoneFrom(s, |arrivals|, t)
    ensures OnWire(env, s, t, f) == Arrived(arrivals, t) + Discarded(arrivals, t, f) + Controls(env, s, t, f)
    decreases |s|
  {
    if s != [] {
      hide SeqNo, IsControl, Mirrors, SeenFrom, NoneFrom;
      var k := |s| - 1;
      if |arrivals| == |s| {
        ShorterBoth(env, arrivals, s, t, f);
        WireCountIsArrived(env, arrivals[..k], s[..k], t, f);
      } else {
        ShorterWire(env, arrivals, s, t, f);
        WireCountIsArrived(env, arrivals, s[..k], t, f);
      }
    }
  }

  lemma ShorterBoth<D>(env: Env<D>, arrivals: seq<Arrival>, s: seq<Entry>, t: string, f: nat)
    requires s != [] && |arrivals| == |s| && Mirrors(env, arrivals, s) && SeenFrom(env, arrivals, s, t, f)
    ensures var k := |s| - 1;
            && Mirrors(env, arrivals[..k], s[..k]) && SeenFrom(env, arrivals[..k], s[..k], t, f)
            && NoneFrom(s[..k], |arrivals[..k]|, t)
            && arrivals[k].event == EventOf(env, s[k])
            && (s[k].topic == t && !IsControl(env, s[k].frame) && arrivals[k].answer.Some? ==>
                  SeqNo(env, s[k].frame) >= f)
  {
    hide SeqNo, IsControl, EventOf;
  }

  lemma ShorterWire<D>(env: Env<D>, arrivals: seq<Arrival>, s: seq<Entry>, t: string, f: nat)
    requires |arrivals| < |s| && Mirrors(env, arrivals, s)
    requires SeenFrom(env, arrivals, s, t, f) && NoneFrom(s, |arrivals|, t)
    ensures var k := |s| - 1;
            && Mirrors(env, arrivals, s[..k]) && SeenFrom(env, arrivals, s[..k], t, f)
            && NoneFrom(s[..k], |arrivals|, t) && s[k].topic != t
  {
    hide SeqNo, IsControl, EventOf;
  }

  // ----- the identity -----

  lemma ArrivalsMirrorWire<D>(env: Env<D>, s: System, t: string, base: nat)
    requires EndToEnd.Inv(env, s, t, base)
    ensures Mirrors(env, s.arrivals, SentOf(s.buf.log))
  {
    hide BufferModel.Inv, Numbered, EventOf, Classify, ProcessAll;
    var sent := SentOf(s.buf.log);
    SentAreGood(env, s.buf.log, s.buf.held);
    assert AllGood(env, sent) by {
      hide AllGood;
      assert Entries(s.buf.log) + s.buf.held == s.buf.hist by { HistorySplit(s.buf); }
    }
    forall i | 0 <= i < |s.arrivals|
      ensures s.arrivals[i].event == EventOf(env, sent[i])
    {
      assert Good(env, sent[i]);
    }
  }

  lemma HistorySplit(b: Buffer)
    requires BufferModel.Inv(b) && b.lim.policy == DropOld
    ensures Entries(b.log) + b.held == b.hist
    ensures forall x | x in b.log :: x.fate != Conflated
  {
    hide Counted, TopicFifo;
  }

  lemma {:induction false} SentAreGood<D>(env: Env<D>, log: seq<Exited>, held: seq<Entry>)
    ensures AllGood(env, Entries(log) + held) ==> AllGood(env, SentOf(log))
  {
    if log != [] && AllGood(env, Entries(log) + held) {
      hide Good;
      var k := |log| - 1;
      var all := Entries(log) + held;
      forall i | 0 <= i < |Entries(log[..k]) + []|
        ensures Good(env, (Entries(log[..k]) + [])[i])
      {
        assert (Entries(log[..k]) + [])[i] == all[i];
      }
      SentAreGood(env, log[..k], []);
      assert Good(env, log[k].entry) by { assert all[k] == log[k].entry; }
    }
  }

  /** The exits of a topic are the front part of what was enqueued of it. */
  lemma ExitsAreNumbered<D>(env: Env<D>, s: System, t: string, base: nat)
    requires BufferOk(env, s, t, base)
    ensures Numbered(env, Entries(s.buf.log), t, base)
    ensures base + |OfTopic(Entries(s.buf.log), t)| <= Num(s.topicSeq, t)
  {
    hide SeqNo, OfTopic, AllGood;
    HistorySplit(s.buf);
    OfTopicConcat(Entries(s.buf.log), s.buf.held, t);
    var l, all := OfTopic(Entries(s.buf.log), t), OfTopic(s.buf.hist, t);
    assert forall i | 0 <= i < |l| :: l[i] == all[i];
  }

  /** Once the newest number has arrived, nothing of the topic is behind it on the wire. */
  lemma NewestClosesWire<D>(env: Env<D>, arrivals: seq<Arrival>, sent: seq<Entry>, t: string,
                            low: nat, high: nat, n: nat)
    requires Mirrors(env, arrivals, sent) && Rising(env, sent, t, low, high) && high <= n
    requires Newest(arrivals, t).Some? && Newest(arrivals, t).value.event == Data(t, n)
    ensures high == n
    ensures NoneFrom(sent, |arrivals|, t)
  {
    hide SeqNo, IsControl;
    NewestIsThere(arrivals, t);
    var i :| 0 <= i < |arrivals| && arrivals[i] == Newest(arrivals, t).value && IsOf(arrivals[i], t);
    assert sent[i].topic == t && SeqNo(env, sent[i].frame) == n;
  }

  /** The first number observed was assigned in this run, and no data frame the ledger saw is numbered below it. */
  lemma FirstOnWire<D>(env: Env<D>, arrivals: seq<Arrival>, sent: seq<Entry>, t: string, low: nat, high: nat)
    requires Mirrors(env, arrivals, sent) && Rising(env, sent, t, low, high)
    requires FirstSeq(arrivals, t).Some?
    ensures var first := FirstSeq(arrivals, t).value;
            low < first <= high && SeenFrom(env, arrivals, sent, t, first)
  {
    hide SeqNo, IsControl;
    MirrorIncreases(env, arrivals, sent, t, low, high);
    FirstIsLeast(arrivals, t);
    hide FirstSeq, Increasing;
    var first := FirstSeq(arrivals, t).value;
    var i :| 0 <= i < |arrivals| && IsOf(arrivals[i], t) && arrivals[i].event.seqNo == first;
    assert sent[i].topic == t && SeqNo(env, sent[i].frame) == first;
    forall k | 0 <= k < |arrivals| && sent[k].topic == t && !IsControl(env, sent[k].frame) && arrivals[k].answer.Some?
      ensures SeqNo(env, sent[k].frame) >= first
    {
      assert IsOf(arrivals[k], t);
    }
  }

  /**
   For one topic and one drop_old subscriber over a lossless link, in every run:
   once the newest number assigned has been routed, the numbers assigned since
   the first observed are exactly the frames routed, the client's missing count,
   and the frames whose routing gave no verdict.  The missing count is the frames
   evicted, expired and refused among them, plus the control-type frames, which
   are numbered like the rest but skipped by the ledger, plus the frames that an
   exception in the receive loop left unseen.
   */
  lemma Reconcile<D>(env: Env<D>, matched: string -> bool, topicSeq: map<string, nat>, lim: Limits,
                     schedule: seq<Action>, t: string)
    requires lim.policy == DropOld && matched(t)
    requires forall i | 0 <= i < |schedule| :: ProperPublish(env, schedule[i])
    requires RoomToNumber(topicSeq, |schedule|)
    requires var s := EndToEnd.Run(env, matched, Init(topicSeq, lim), schedule);
             var newest := Newest(s.arrivals, t);
             newest.Some? && newest.value.answer == Some(Took) && newest.value.event == Data(t, Num(s.topicSeq, t))
    ensures var s := EndToEnd.Run(env, matched, Init(topicSeq, lim), schedule);
            && FirstSeq(s.arrivals, t).Some?
            && (var first := FirstSeq(s.arrivals, t).value;
                && Num(s.topicSeq, t) - first + 1 ==
                   Num(s.ledger.routed, t) + Num(s.ledger.missing, t) + Unsettled(s.arrivals, t)
                && Num(s.ledger.missing, t) ==
                   Since(env, s.buf.log, t, Evicted, first) + Since(env, s.buf.log, t, Expired, first)
                   + Num(s.ledger.drops, t) + Controls(env, SentOf(s.buf.log), t, first)
                   + Discarded(s.arrivals, t, first))
  {
    var s := EndToEnd.Run(env, matched, Init(topicSeq, lim), schedule);
    var base := Num(topicSeq, t);
    EndToEnd.RunKeepsInv(env, matched, topicSeq, lim, schedule, t, 0);
    hide EndToEnd.Run;
    ReconcileState(env, s, t, base);
  }

  lemma ReconcileState<D>(env: Env<D>, s: System, t: string, base: nat)
    requires EndToEnd.Inv(env, s, t, base)
    requires var newest := Newest(s.arrivals, t);
             newest.Some? && newest.value.answer == Some(Took) && newest.value.event == Data(t, Num(s.topicSeq, t))
    ensures FirstSeq(s.arrivals, t).Some?
    ensures var first := FirstSeq(s.arrivals, t).value;
            && Num(s.topicSeq, t) - first + 1 ==
               Num(s.ledger.routed, t) + Num(s.ledger.missing, t) + Unsettled(s.arrivals, t)
            && Num(s.ledger.missing, t) ==
               Since(env, s.buf.log, t, Evicted, first) + Since(env, s.buf.log, t, Expired, first)
               + Num(s.ledger.drops, t) + Controls(env, SentOf(s.buf.log), t, first)
               + Discarded(s.arrivals, t, first)
  {
    hide *;
    var sent, log := SentOf(s.buf.log), s.buf.log;
    var high := base + |OfTopic(Entries(log), t)|;
    StateFacts(env, s, t, base);
    WireIsRising(env, log, t, base);
    NewestClosesWire(env, s.arrivals, sent, t, base, high, Num(s.topicSeq, t));
    NewestIsThere(s.arrivals, t);
    FirstOnWire(env, s.arrivals, sent, t, base, high);
    var first := FirstSeq(s.arrivals, t).value;
    WireCountIsArrived(env, s.arrivals, sent, t, first);
    ExitsCount(env, log, t, base, first);
    NoneSince(env, log, t, Conflated, first);
    SentSince(env, log, t, first);
    ArrivedAreAnswered(s.arrivals, t);
    MirrorIncreases(env, s.arrivals, sent, t, base, high);
    LedgerBalance(s.arrivals, t);
  }

  lemma StateFacts<D>(env: Env<D>, s: System, t: string, base: nat)
    requires EndToEnd.Inv(env, s, t, base)
    ensures Mirrors(env, s.arrivals, SentOf(s.buf.log))
    ensures Numbered(env, Entries(s.buf.log), t, base)
    ensures base + |OfTopic(Entries(s.buf.log), t)| <= Num(s.topicSeq, t)
    ensures s.ledger == ProcessAll(GapLedger.EMPTY, s.arrivals)
    ensures forall x | x in s.buf.log :: x.fate != Conflated
  {
    hide Mirrors, Numbered, SentOf, Entries, OfTopic, AllGood, ProcessAll, BufferModel.Inv;
    ArrivalsMirrorWire(env, s, t, base);
    ExitsAreNumbered(env, s, t, base);
    HistorySplit(s.buf);
  }

  /** The ledger after an accepted newest arrival. */
  lemma LedgerBalance(arrivals: seq<Arrival>, t: string)
    requires Increasing(arrivals, t) && Newest(arrivals, t).Some?
    requires Newest(arrivals, t).value.answer == Some(Took) && Newest(arrivals, t).value.event.Data?
    ensures FirstSeq(arrivals, t).Some?
    ensures var l := ProcessAll(GapLedger.EMPTY, arrivals);
            Num(l.missing, t) + Num(l.routed, t) + Unsettled(arrivals, t) ==
            Newest(arrivals, t).value.event.seqNo + 1 - FirstSeq(arrivals, t).value
  {
    hide Visit, Increasing;
    LedgerInvariant(arrivals, t);
  }
}
