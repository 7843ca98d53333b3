/** What an enqueue evicts: no more than the limits ask for, and the oldest. */
module BufferEviction {
  import opened BufferModel

  /** Within both limits; zero or less means no limit. */
  ghost predicate Fits(lim: Limits, s: seq<Entry>) {
    (lim.maxMessages > 0 ==> |s| <= lim.maxMessages) && (lim.maxBytes > 0 ==> Total(s) <= lim.maxBytes)
  }

  lemma FrontLeaves(b: Buffer)
    requires b.held != []
    ensures var m := Leave(b, 0, Evicted);
            m.held == b.held[1..] && m.bytes == b.bytes - b.held[0].nbytes && m.lim == b.lim
  {
  }

  /** r is what remains of s when frames went from the front; with c gone and more to go it was over the limit. */
  ghost predicate FrontGone(s: seq<Entry>, r: seq<Entry>, maxBytes: int, c: nat) {
    && |r| <= |s| && r == s[|s| - |r|..]
    && (c < |s| - |r| ==> maxBytes > 0 && Total(s[c..]) > maxBytes)
  }

  lemma FrontGoneOneMore(s: seq<Entry>, r: seq<Entry>, maxBytes: int, c: nat)
    requires s != [] && FrontGone(s[1..], r, maxBytes, if c > 0 then c - 1 else 0)
    requires c == 0 ==> Total(s) > maxBytes > 0
    ensures FrontGone(s, r, maxBytes, c)
  {
    hide Total;
    TailOfTail(s, |s| - |r|);
    if c == 0 {
      assert s[c..] == s;
    } else if c <= |s| {
      TailOfTail(s, c);
    }
  }

  lemma TailOfTail(s: seq<Entry>, c: nat)
    requires 0 < c <= |s|
    ensures s[1..][c - 1..] == s[c..]
  {
  }

  lemma {:induction false} ShrinkDropsFront(b: Buffer, c: nat)
    requires b.bytes == Total(b.held)
    ensures FrontGone(b.held, ShrinkOld(b).held, b.lim.maxBytes, c)
    decreases |b.held|
  {
    if OverBytes(b) && b.held != [] {
      hide Leave, Total, FrontGone;
      FrontLeaves(b);
      FirstOfTotal(b.held);
      ShrinkDropsFront(Leave(b, 0, Evicted), if c > 0 then c - 1 else 0);
      FrontGoneOneMore(b.held, ShrinkOld(b).held, b.lim.maxBytes, c);
    }
  }

  lemma FirstOfTotal(s: seq<Entry>)
    requires s != []
    ensures Total(s) == s[0].nbytes + Total(s[1..])
  {
    assert s == [s[0]] + s[1..];
    TotalConcat([s[0]], s[1..]);
    OfTopicOne(s[0], "");
  }

  /**
   drop_old evicts only what it must: after an enqueue it holds the longest run of
   newest frames, the new one included, that is within both limits.
   */
  lemma DropOldKeepsMost(b: Buffer, e: Entry, c: nat)
    requires Inv(b) && b.lim.policy == DropOld && WithinMessages(b)
    ensures KeepsMost(b.lim, b.held + [e], Enqueue(b, e).held, c)
  {
    var full := b.lim.maxMessages > 0 && |b.held| >= b.lim.maxMessages;
    var n := Append(if full then Leave(b, 0, Evicted) else b, e);
    EnqueueIsShrunk(b, e);
    EnqueueFits(b, e);
    AppendedTotal(b, e, full);
    hide *;
    ShrinkDropsFront(n, if full && c > 0 then c - 1 else c);
    FrontGoneFits(b.lim, b.held + [e], Enqueue(b, e).held, full, c);
  }

  /** r is the end of s and fits; with fewer than that many frames gone from the front, s does not. */
  ghost predicate KeepsMost(lim: Limits, s: seq<Entry>, r: seq<Entry>, c: nat) {
    && |r| <= |s| && r == s[|s| - |r|..] && Fits(lim, r)
    && (c < |s| - |r| ==> !Fits(lim, s[c..]))
  }

  lemma EnqueueIsShrunk(b: Buffer, e: Entry)
    requires b.lim.policy == DropOld && WithinMessages(b)
    ensures var full := b.lim.maxMessages > 0 && |b.held| >= b.lim.maxMessages;
            && (full ==> b.held != [] && 0 < b.lim.maxMessages < |b.held + [e]|)
            && Enqueue(b, e) == ShrinkOld(Append(if full then Leave(b, 0, Evicted) else b, e))
  {
    hide ShrinkOld, Leave;
  }

  lemma FrontGoneFits(lim: Limits, s: seq<Entry>, r: seq<Entry>, full: bool, c: nat)
    requires s != [] && (full ==> 0 < lim.maxMessages < |s|)
    requires FrontGone(if full then s[1..] else s, r, lim.maxBytes, if full && c > 0 then c - 1 else c)
    requires Fits(lim, r)
    ensures KeepsMost(lim, s, r, c)
  {
    hide Total;
    if full {
      TailOfTail(s, |s| - |r|);
      if 0 < c <= |s| {
        TailOfTail(s, c);
      }
    }
  }

  lemma AppendedTotal(b: Buffer, e: Entry, full: bool)
    requires Inv(b) && (full ==> b.held != [])
    ensures var n := Append(if full then Leave(b, 0, Evicted) else b, e);
            && n.held == (if full then (b.held + [e])[1..] else b.held + [e])
            && n.bytes == Total(n.held) && n.lim == b.lim
  {
    hide Ordered, Count, DropsOf, Total;
    var b1 := if full then Leave(b, 0, Evicted) else b;
    if full {
      FirstOfTotal(b.held);
      FrontLeaves(b);
      assert (b.held + [e])[1..] == b.held[1..] + [e];
    }
    TotalConcat(b1.held, [e]);
    OfTopicOne(e, "");
  }

  lemma EnqueueFits(b: Buffer, e: Entry)
    requires Inv(b) && b.lim.policy == DropOld && WithinMessages(b)
    ensures Fits(b.lim, Enqueue(b, e).held)
  {
    EnqueueKeepsInv(b, e);
    hide Ordered, Count, DropsOf, Enqueue, Total;
  }

  /** Nothing leaves a drop_old buffer with room for the frame. */
  lemma RoomEvictsNothing(b: Buffer, e: Entry)
    requires Inv(b) && b.lim.policy == DropOld && WithinMessages(b) && Fits(b.lim, b.held + [e])
    ensures Enqueue(b, e).held == b.held + [e]
  {
    DropOldKeepsMost(b, e, 0);
    hide Inv, Fits, WithinMessages, Enqueue;
    var all := b.held + [e];
    assert all[0..] == all;
  }

  ghost predicate NoneNewer(ev: seq<Entry>, held: seq<Entry>) {
    forall x, y | x in ev && y in held :: x.enqueuedAt <= y.enqueuedAt
  }

  /** The frames ev went out of all, none newer than one that stays, and only while over the limit. */
  ghost predicate OldestGone(all: seq<Entry>, bytes: int, maxBytes: int, ev: seq<Entry>, held: seq<Entry>) {
    && multiset(ev) + multiset(held) == multiset(all)
    && NoneNewer(ev, held)
    && (ev != [] ==> maxBytes > 0 && bytes - Total(ev) + ev[|ev| - 1].nbytes > maxBytes)
  }

  /** The log grew by evictions only. */
  ghost predicate OnlyEvicted(log: seq<Exited>, log': seq<Exited>) {
    log <= log' && forall k | |log| <= k < |log'| :: log'[k].fate == Evicted
  }

  /** What conflate evicts in one enqueue: the oldest, and only while over the limit. */
  ghost predicate EvictsOldest(b: Buffer, r: Buffer) {
    && OnlyEvicted(b.log, r.log)
    && r.bytes == b.bytes - Total(Entries(r.log[|b.log|..]))
    && OldestGone(b.held, b.bytes, b.lim.maxBytes, Entries(r.log[|b.log|..]), r.held)
  }

  lemma {:induction false} ShrinkEvictsOldest(b: Buffer)
    ensures EvictsOldest(b, ShrinkConflate(b))
    decreases |b.held|
  {
    if OverBytes(b) && |b.held| > 1 {
      hide EvictsOldest, Leave;
      var i := Oldest(b.held);
      var m := Leave(b, i, Evicted);
      ShrinkEvictsOldest(m);
      EvictOneThenRest(b, i, ShrinkConflate(m));
    } else {
      assert b.log[|b.log|..] == [] && Entries([]) == [];
    }
  }

  lemma OneLeft(b: Buffer, i: nat)
    requires i < |b.held|
    ensures var m := Leave(b, i, Evicted);
            && m.log == b.log + [Exited(b.held[i], Evicted)] && m.lim == b.lim
            && m.bytes == b.bytes - b.held[i].nbytes
            && multiset{b.held[i]} + multiset(m.held) == multiset(b.held)
  {
    assert b.held == b.held[..i] + [b.held[i]] + b.held[i + 1..];
  }

  lemma LogFrom(log: seq<Exited>, x: Entry, log': seq<Exited>)
    requires OnlyEvicted(log + [Exited(x, Evicted)], log')
    ensures OnlyEvicted(log, log')
    ensures Entries(log'[|log|..]) == [x] + Entries(log'[|log| + 1..])
  {
    assert log'[|log|] == (log + [Exited(x, Evicted)])[|log|];
    assert log <= log + [Exited(x, Evicted)];
  }

  lemma OneMoreGone(x: Entry, all: seq<Entry>, rest: seq<Entry>, bytes: int, maxBytes: int,
                    ev: seq<Entry>, held: seq<Entry>)
    requires multiset{x} + multiset(rest) == multiset(all) && bytes > maxBytes > 0
    requires forall j | 0 <= j < |all| :: x.enqueuedAt <= all[j].enqueuedAt
    requires OldestGone(rest, bytes - x.nbytes, maxBytes, ev, held)
    ensures OldestGone(all, bytes, maxBytes, [x] + ev, held) && Total([x] + ev) == x.nbytes + Total(ev)
  {
    assert Total([]) == 0;
    hide Total;
    assert ([x] + ev)[1..] == ev;
    FirstOfTotal([x] + ev);
    forall y | y in held
      ensures x.enqueuedAt <= y.enqueuedAt
    {
      assert y in multiset(all);
    }
  }

  lemma EvictOneThenRest(b: Buffer, i: nat, r: Buffer)
    requires i < |b.held| && b.bytes > b.lim.maxBytes > 0
    requires forall j | 0 <= j < |b.held| :: b.held[i].enqueuedAt <= b.held[j].enqueuedAt
    requires EvictsOldest(Leave(b, i, Evicted), r)
    ensures EvictsOldest(b, r)
  {
    hide Leave, Total, Entries, OldestGone, OnlyEvicted;
    var x, m := b.held[i], Leave(b, i, Evicted);
    OneLeft(b, i);
    LogFrom(b.log, x, r.log);
    OneMoreGone(x, b.held, m.held, b.bytes, b.lim.maxBytes, Entries(r.log[|m.log|..]), r.held);
  }

  /** The dict after the new frame has taken its place and before anything is evicted. */
  function Placed(b: Buffer, e: Entry): Buffer {
    var i := Find(b.held, e.topic);
    if i < |b.held| then Replace(b, i, e) else Append(b, e)
  }

  /**
   conflate evicts only what it must: the new frame takes its topic's place or the
   last one; then the oldest topics go, none of them newer than one that stays,
   and the last to go was still over the limit.
   */
  lemma ConflateEvictsOldest(b: Buffer, e: Entry)
    requires b.lim.policy == Conflate
    ensures EvictsOldest(Placed(b, e), Enqueue(b, e))
    ensures var p := Placed(b, e);
            && (forall i | 0 <= i < |b.held| && b.held[i].topic == e.topic &&
                           (forall j | 0 <= j < i :: b.held[j].topic != e.topic) :: p.held == b.held[i := e])
            && ((forall i | 0 <= i < |b.held| :: b.held[i].topic != e.topic) ==> p.held == b.held + [e])
            && p.log == b.log + (if exists x :: x in b.held && x.topic == e.topic
                                 then [Exited(b.held[Find(b.held, e.topic)], Conflated)] else [])
  {
    ShrinkEvictsOldest(Placed(b, e));
    hide ShrinkConflate, EvictsOldest;
    var i := Find(b.held, e.topic);
    if i < |b.held| {
      assert b.held[i] in b.held;
    }
  }
}
