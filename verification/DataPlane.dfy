/**
 The broker's data thread: number an accepted frame, find its subscribers, and
 hand the one renumbered frame to each of them by buffer or by direct send.
 */
module DataPlane {
  import opened Wrappers
  import opened Bytes
  import opened Frames
  import opened Routing
  import opened SubscriptionTables
  import opened BufferModel
  import opened SubscriberBuffers
  import opened BufferManagers

  datatype Pair = Pair(target: Ident, frame: seq<byte>)

  /** All targets of one frame, in order of appearance. */
  datatype Group = Group(frame: seq<byte>, targets: seq<Ident>)

  function FindGroup(groups: seq<Group>, frame: seq<byte>): (i: nat)
    ensures i <= |groups|
    ensures i < |groups| ==> groups[i].frame == frame
    ensures forall j | 0 <= j < i :: groups[j].frame != frame
  {
    if groups == [] then 0
    else if groups[0].frame == frame then 0
    else 1 + FindGroup(groups[1..], frame)
  }

  /** groups.setdefault(frame, []).append(target). */
  function Place(groups: seq<Group>, p: Pair): seq<Group> {
    var i := FindGroup(groups, p.frame);
    if i < |groups| then groups[i := Group(p.frame, groups[i].targets + [p.target])]
    else groups + [Group(p.frame, [p.target])]
  }

  function GroupAll(pairs: seq<Pair>): seq<Group> {
    if pairs == [] then [] else Place(GroupAll(pairs[..|pairs| - 1]), pairs[|pairs| - 1])
  }

  function PairsOf(g: Group): (ps: seq<Pair>)
    ensures |ps| == |g.targets|
  {
    seq(|g.targets|, i requires 0 <= i < |g.targets| => Pair(g.targets[i], g.frame))
  }

  /** The order in which broadcast visits the pairs. */
  function Visits(groups: seq<Group>): seq<Pair> {
    if groups == [] then [] else Visits(groups[..|groups| - 1]) + PairsOf(groups[|groups| - 1])
  }

  // ----- grouping loses and invents nothing -----

  lemma {:induction false} VisitsConcat(a: seq<Group>, b: seq<Group>)
    ensures Visits(a + b) == Visits(a) + Visits(b)
    decreases |b|
  {
    hide PairsOf;
    if b == [] {
      assert a + b == a;
    } else {
      var k := |b| - 1;
      assert (a + b)[..|a + b| - 1] == a + b[..k];
      VisitsConcat(a, b[..k]);
    }
  }

  lemma VisitsOne(g: Group)
    ensures Visits([g]) == PairsOf(g)
  {
    assert [g][..0] == [];
  }

  lemma PairsOfGrows(g: Group, target: Ident)
    ensures PairsOf(Group(g.frame, g.targets + [target])) == PairsOf(g) + [Pair(target, g.frame)]
    ensures PairsOf(Group(g.frame, [target])) == [Pair(target, g.frame)]
  {
  }

  lemma VisitsNone(groups: seq<Group>)
    ensures Visits(groups[..0]) == []
  {
  }

  lemma VisitsMore(groups: seq<Group>, i: nat)
    requires i < |groups|
    ensures Visits(groups[..i + 1]) == Visits(groups[..i]) + PairsOf(groups[i])
  {
    assert groups[..i + 1][..i] == groups[..i];
  }

  lemma VisitsAround(a: seq<Group>, g: Group, b: seq<Group>)
    ensures Visits(a + [g] + b) == Visits(a) + PairsOf(g) + Visits(b)
  {
    VisitsConcat(a + [g], b);
    VisitsConcat(a, [g]);
    VisitsOne(g);
  }

  lemma PlaceVisits(groups: seq<Group>, p: Pair)
    ensures multiset(Visits(Place(groups, p))) == multiset(Visits(groups)) + multiset{p}
  {
    hide Visits, PairsOf, FindGroup;
    var i := FindGroup(groups, p.frame);
    if i < |groups| {
      var g, g' := groups[i], Group(p.frame, groups[i].targets + [p.target]);
      var a, b := groups[..i], groups[i + 1..];
      assert groups == a + [g] + b;
      assert Place(groups, p) == a + [g'] + b;
      VisitsAround(a, g, b);
      VisitsAround(a, g', b);
      PairsOfGrows(g, p.target);
    } else {
      var g := Group(p.frame, [p.target]);
      VisitsConcat(groups, [g]);
      VisitsOne(g);
      PairsOfGrows(g, p.target);
    }
  }

  lemma LastOfMultiset(pairs: seq<Pair>)
    requires pairs != []
    ensures multiset(pairs) == multiset(pairs[..|pairs| - 1]) + multiset{pairs[|pairs| - 1]}
  {
    assert pairs == pairs[..|pairs| - 1] + [pairs[|pairs| - 1]];
  }

  /** broadcast visits every pair exactly as often as it was given. */
  lemma {:induction false} VisitsEachPairOnce(pairs: seq<Pair>)
    ensures multiset(Visits(GroupAll(pairs))) == multiset(pairs)
  {
    if pairs != [] {
      hide Visits, Place;
      var n := |pairs| - 1;
      VisitsEachPairOnce(pairs[..n]);
      PlaceVisits(GroupAll(pairs[..n]), pairs[n]);
      LastOfMultiset(pairs);
    }
  }

  ghost predicate AllOf(pairs: seq<Pair>, frame: seq<byte>) {
    forall i | 0 <= i < |pairs| :: pairs[i].frame == frame
  }

  /** These pairs make one group, or none, and are visited as they stand. */
  ghost predicate InOneGroup(gs: seq<Group>, pairs: seq<Pair>, frame: seq<byte>) {
    && Visits(gs) == pairs
    && if pairs == [] then gs == [] else |gs| == 1 && gs[0].frame == frame
  }

  lemma LastOf(pairs: seq<Pair>, frame: seq<byte>)
    requires pairs != [] && AllOf(pairs, frame)
    ensures var n := |pairs| - 1;
            AllOf(pairs[..n], frame) && pairs[n].frame == frame && pairs == pairs[..n] + [pairs[n]]
  {
  }

  lemma OneFrameStep(before: seq<Group>, a: seq<Pair>, p: Pair)
    requires InOneGroup(before, a, p.frame)
    ensures InOneGroup(Place(before, p), a + [p], p.frame)
  {
    hide Visits, Place;
    if a == [] {
      PlaceFirst(p);
      assert a + [p] == [p];
    } else {
      assert before == [before[0]];
      PlaceInOnly(before[0], p);
    }
  }

  lemma {:induction false} OneFrameOneGroup(pairs: seq<Pair>, frame: seq<byte>)
    requires AllOf(pairs, frame)
    ensures InOneGroup(GroupAll(pairs), pairs, frame)
  {
    if pairs != [] {
      hide *;
      var n := |pairs| - 1;
      LastOf(pairs, frame);
      OneFrameOneGroup(pairs[..n], frame);
      OneFrameStep(GroupAll(pairs[..n]), pairs[..n], pairs[n]);
      GroupOneMore(pairs);
    }
  }

  /** One frame for everybody, as the server sends it, is visited in the given order. */
  lemma OneFrameKeepsOrder(pairs: seq<Pair>, frame: seq<byte>)
    requires forall i | 0 <= i < |pairs| :: pairs[i].frame == frame
    ensures Visits(GroupAll(pairs)) == pairs
    ensures pairs != [] ==> |GroupAll(pairs)| == 1 && GroupAll(pairs)[0].frame == frame
  {
    hide Visits, GroupAll;
    OneFrameOneGroup(pairs, frame);
  }

  lemma GroupOneMore(pairs: seq<Pair>)
    requires pairs != []
    ensures var n := |pairs| - 1;
            GroupAll(pairs) == Place(GroupAll(pairs[..n]), pairs[n]) && (n == 0 ==> GroupAll(pairs[..n]) == [])
  {
    hide Place;
  }

  lemma PlaceFirst(p: Pair)
    ensures Place([], p) == [Group(p.frame, [p.target])] && Visits(Place([], p)) == [p]
  {
    hide Visits, PairsOf;
    VisitsOne(Group(p.frame, [p.target]));
    PairsOfGrows(Group(p.frame, []), p.target);
  }

  lemma PlaceInOnly(g: Group, p: Pair)
    requires g.frame == p.frame
    ensures Place([g], p) == [Group(p.frame, g.targets + [p.target])]
    ensures Visits(Place([g], p)) == Visits([g]) + [p]
  {
    hide Visits, PairsOf;
    assert FindGroup([g], p.frame) == 0;
    VisitsOne(g);
    VisitsOne(Group(p.frame, g.targets + [p.target]));
    PairsOfGrows(g, p.target);
  }

  /** The targets of one frame among the pairs, in order. */
  ghost function TargetsOf(pairs: seq<Pair>, frame: seq<byte>): seq<Ident> {
    if pairs == [] then []
    else
      var p := pairs[|pairs| - 1];
      TargetsOf(pairs[..|pairs| - 1], frame) + (if p.frame == frame then [p.target] else [])
  }

  lemma TargetsOfGrows(pairs: seq<Pair>, p: Pair, frame: seq<byte>)
    ensures TargetsOf(pairs + [p], frame) == TargetsOf(pairs, frame) + (if p.frame == frame then [p.target] else [])
  {
    assert (pairs + [p])[..|pairs|] == pairs;
  }

  /** One group per frame, and in it all its targets in the order given. */
  ghost predicate Grouped(gs: seq<Group>, pairs: seq<Pair>) {
    && (forall i, j | 0 <= i < j < |gs| :: gs[i].frame != gs[j].frame)
    && (forall i | 0 <= i < |gs| :: gs[i].targets == TargetsOf(pairs, gs[i].frame))
    && (forall p | p in pairs :: exists i :: 0 <= i < |gs| && gs[i].frame == p.frame)
  }

  lemma {:induction false} NoTargets(pairs: seq<Pair>, frame: seq<byte>)
    requires forall p | p in pairs :: p.frame != frame
    ensures TargetsOf(pairs, frame) == []
  {
    if pairs != [] {
      NoTargets(pairs[..|pairs| - 1], frame);
    }
  }

  lemma PlaceKeepsGrouped(gs: seq<Group>, pairs: seq<Pair>, p: Pair)
    requires Grouped(gs, pairs)
    ensures Grouped(Place(gs, p), pairs + [p])
  {
    hide TargetsOf;
    var gs', at := Place(gs, p), FindGroup(gs, p.frame);
    hide FindGroup;
    forall i | 0 <= i < |gs'|
      ensures gs'[i].targets == TargetsOf(pairs + [p], gs'[i].frame)
    {
      TargetsOfGrows(pairs, p, gs'[i].frame);
      if i == |gs| {
        NoTargets(pairs, p.frame);
      }
    }
    forall q | q in pairs + [p]
      ensures exists i :: 0 <= i < |gs'| && gs'[i].frame == q.frame
    {
      if q in pairs {
        var i :| 0 <= i < |gs| && gs[i].frame == q.frame;
        assert gs'[i].frame == q.frame;
      } else {
        assert gs'[at].frame == q.frame;
      }
    }
  }

  /** broadcast makes one group per frame, with all its targets in the order given. */
  lemma {:induction false} OneGroupPerFrame(pairs: seq<Pair>)
    ensures Grouped(GroupAll(pairs), pairs)
  {
    if pairs != [] {
      hide Grouped, Place;
      var n := |pairs| - 1;
      OneGroupPerFrame(pairs[..n]);
      PlaceKeepsGrouped(GroupAll(pairs[..n]), pairs[..n], pairs[n]);
      assert pairs == pairs[..n] + [pairs[n]];
    }
  }

  // ----- who gets what -----

  /** The buffers, what the sockets have taken, and the frames dropped for want of credit or of room. */
  datatype Out = Out(view: View, wire: seq<Pair>, starved: nat, refused: nat)

  /** What the environment decides about the k-th pair visited: whether the socket takes it, and the clock. */
  datatype Moment = Moment(sendOk: bool, now: real)

  predicate NoCredit(credits: map<Ident, int>, id: Ident) {
    id in credits && credits[id] == 0
  }

  /** One pair: a buffer takes precedence, then the credit check, then the socket. */
  function Deliver(o: Out, p: Pair, topic: string, credits: map<Ident, int>, m: Moment): Out {
    if p.target in o.view.subs
    then o.(view := Queued(o.view, p.target, Entry(topic, p.frame, |p.frame|, m.now)))
    else if NoCredit(credits, p.target) then o.(starved := o.starved + 1)
    else if m.sendOk then o.(wire := o.wire + [p])
    else o.(refused := o.refused + 1)
  }

  function DeliverAll(o: Out, visits: seq<Pair>, topic: string, credits: map<Ident, int>, env: nat -> Moment): Out {
    if visits == [] then o
    else
      var k := |visits| - 1;
      Deliver(DeliverAll(o, visits[..k], topic, credits, env), visits[k], topic, credits, env(k))
  }

  /** The frames for one target, in order. */
  ghost function FramesTo(pairs: seq<Pair>, id: Ident): seq<seq<byte>> {
    if pairs == [] then []
    else
      var p := pairs[|pairs| - 1];
      FramesTo(pairs[..|pairs| - 1], id) + (if p.target == id then [p.frame] else [])
  }

  lemma FramesToGrows(pairs: seq<Pair>, p: Pair, id: Ident)
    ensures FramesTo(pairs + [p], id) == FramesTo(pairs, id) + (if p.target == id then [p.frame] else [])
  {
    assert (pairs + [p])[..|pairs|] == pairs;
  }

  /** Where a pair goes, in the broker's terms. */
  datatype Way = ToBuffer | HeldBack | OnWire | Lost

  ghost predicate Goes(view: View, credits: map<Ident, int>, p: Pair, m: Moment, way: Way) {
    match way
    case ToBuffer => p.target in view.subs
    case HeldBack => p.target !in view.subs && p.target in credits && credits[p.target] == 0
    case OnWire => p.target !in view.subs && (p.target in credits ==> credits[p.target] != 0) && m.sendOk
    case Lost => p.target !in view.subs && (p.target in credits ==> credits[p.target] != 0) && !m.sendOk
  }

  /** How many of the pairs go this way. */
  ghost function Count(view: View, credits: map<Ident, int>, pairs: seq<Pair>, env: nat -> Moment, way: Way): nat {
    if pairs == [] then 0
    else
      var k := |pairs| - 1;
      Count(view, credits, pairs[..k], env, way) + (if Goes(view, credits, pairs[k], env(k), way) then 1 else 0)
  }

  lemma QueuedKeepsKeys(v: View, i: Ident, e: Entry)
    ensures Queued(v, i, e).subs.Keys == v.subs.Keys && Queued(v, i, e).windows == v.windows
    ensures forall j | j in v.subs && j != i :: Queued(v, i, e).subs[j] == v.subs[j]
    ensures i in v.subs ==> Queued(v, i, e).subs[i] == Sub(Enqueue(v.subs[i].buf, e), v.subs[i].starvedRounds)
  {
  }

  /**
   Every pair is accounted for, in the way its target's buffer, its credit and the
   socket decide; nobody gains or loses a buffer or a window.
   */
  lemma {:induction false} EveryPairAccounted(o: Out, visits: seq<Pair>, topic: string, credits: map<Ident, int>,
                                              env: nat -> Moment)
    ensures var r := DeliverAll(o, visits, topic, credits, env);
            && r.view.subs.Keys == o.view.subs.Keys && r.view.windows == o.view.windows
            && |r.wire| == |o.wire| + Count(o.view, credits, visits, env, OnWire)
            && r.starved == o.starved + Count(o.view, credits, visits, env, HeldBack)
            && r.refused == o.refused + Count(o.view, credits, visits, env, Lost)
    ensures |visits| == Count(o.view, credits, visits, env, ToBuffer) + Count(o.view, credits, visits, env, HeldBack) +
                        Count(o.view, credits, visits, env, OnWire) + Count(o.view, credits, visits, env, Lost)
  {
    if visits != [] {
      hide Queued;
      var k := |visits| - 1;
      EveryPairAccounted(o, visits[..k], topic, credits, env);
      var m := DeliverAll(o, visits[..k], topic, credits, env);
      QueuedKeepsKeys(m.view, visits[k].target, Entry(topic, visits[k].frame, |visits[k].frame|, env(k).now));
    }
  }

  lemma Associates<T>(x: seq<T>, y: seq<T>, z: seq<T>)
    ensures (x + y) + z == x + (y + z)
  {
  }

  /** What one target's buffer is given: topic, frame, size and the clock of the visit, in order. */
  ghost function EntriesTo(visits: seq<Pair>, topic: string, env: nat -> Moment, id: Ident): seq<Entry> {
    if visits == [] then []
    else
      var k := |visits| - 1;
      EntriesTo(visits[..k], topic, env, id) +
      (if visits[k].target == id then [Entry(topic, visits[k].frame, |visits[k].frame|, env(k).now)] else [])
  }

  lemma EntriesToGrows(visits: seq<Pair>, p: Pair, topic: string, env: nat -> Moment, id: Ident)
    ensures EntriesTo(visits + [p], topic, env, id) ==
            EntriesTo(visits, topic, env, id) +
            (if p.target == id then [Entry(topic, p.frame, |p.frame|, env(|visits|).now)] else [])
  {
    assert (visits + [p])[..|visits|] == visits;
  }

  function EnqueueAll(b: Buffer, es: seq<Entry>): Buffer {
    if es == [] then b else Enqueue(EnqueueAll(b, es[..|es| - 1]), es[|es| - 1])
  }

  lemma EnqueueOneMore(b: Buffer, es: seq<Entry>, e: Entry)
    ensures EnqueueAll(b, es + [e]) == Enqueue(EnqueueAll(b, es), e)
  {
    hide Enqueue;
    assert (es + [e])[..|es|] == es;
  }

  /** Its accounts stay in order and its history grows by exactly what it is given. */
  lemma {:induction false} EnqueueAllGrows(b: Buffer, es: seq<Entry>)
    requires Inv(b)
    ensures Inv(EnqueueAll(b, es)) && EnqueueAll(b, es).hist == b.hist + es && EnqueueAll(b, es).lim == b.lim
  {
    if es != [] {
      hide *;
      var k := |es| - 1;
      EnqueueAllGrows(b, es[..k]);
      GrowsOneMore(b, es[..k], es[k]);
      FrontAndLast(es);
    }
  }

  lemma FrontAndLast<T>(s: seq<T>)
    requires s != []
    ensures s == s[..|s| - 1] + [s[|s| - 1]]
  {
  }

  lemma GrowsOneMore(b: Buffer, es: seq<Entry>, e: Entry)
    requires Inv(EnqueueAll(b, es)) && EnqueueAll(b, es).hist == b.hist + es && EnqueueAll(b, es).lim == b.lim
    ensures var r := EnqueueAll(b, es + [e]); Inv(r) && r.hist == b.hist + (es + [e]) && r.lim == b.lim
  {
    hide *;
    EnqueueOneMore(b, es, e);
    EnqueueGrows(EnqueueAll(b, es), e);
    Associates(b.hist, es, [e]);
  }

  lemma BufferedStep(o: Out, p: Pair, topic: string, credits: map<Ident, int>, m: Moment, id: Ident, b: Buffer,
                     es: seq<Entry>)
    requires id in o.view.subs && o.view.subs[id].buf == EnqueueAll(b, es)
    ensures var r := Deliver(o, p, topic, credits, m);
            && id in r.view.subs
            && r.view.subs[id].buf ==
               EnqueueAll(b, es + (if p.target == id then [Entry(topic, p.frame, |p.frame|, m.now)] else []))
            && r.view.subs[id].starvedRounds == o.view.subs[id].starvedRounds
            && FramesTo(r.wire, id) == FramesTo(o.wire, id)
  {
    hide Queued, Enqueue, FramesTo, EnqueueAll;
    var e := Entry(topic, p.frame, |p.frame|, m.now);
    QueuedKeepsKeys(o.view, p.target, e);
    if p.target == id {
      EnqueueOneMore(b, es, e);
    } else {
      FramesToGrows(o.wire, p, id);
      assert es + [] == es && FramesTo(o.wire, id) + [] == FramesTo(o.wire, id);
    }
  }

  /**
   A buffered subscriber: every frame for it is enqueued in its own buffer, once
   and in order, under the topic published, with its size and the clock of its
   visit, whatever its credit and the socket; nothing for it reaches the wire or
   is dropped here.
   */
  lemma {:induction false} BufferedTarget(o: Out, visits: seq<Pair>, topic: string, credits: map<Ident, int>,
                                          env: nat -> Moment, id: Ident)
    requires id in o.view.subs
    ensures var r := DeliverAll(o, visits, topic, credits, env);
            && id in r.view.subs
            && r.view.subs[id].buf == EnqueueAll(o.view.subs[id].buf, EntriesTo(visits, topic, env, id))
            && r.view.subs[id].starvedRounds == o.view.subs[id].starvedRounds
            && FramesTo(r.wire, id) == FramesTo(o.wire, id)
  {
    if visits == [] {
      assert EntriesTo(visits, topic, env, id) == [];
    } else {
      hide *;
      var k := |visits| - 1;
      var a, p := visits[..k], visits[k];
      assert visits == a + [p];
      BufferedTarget(o, a, topic, credits, env, id);
      DeliverMore(o, a, p, topic, credits, env);
      EntriesToGrows(a, p, topic, env, id);
      var m := DeliverAll(o, a, topic, credits, env);
      BufferedStep(m, p, topic, credits, env(k), id, o.view.subs[id].buf, EntriesTo(a, topic, env, id));
    }
  }

  /** The history of a buffered subscriber grows by exactly those entries. */
  lemma HistoryGrows(o: Out, visits: seq<Pair>, topic: string, credits: map<Ident, int>, env: nat -> Moment, id: Ident)
    requires id in o.view.subs && Inv(o.view.subs[id].buf)
    ensures var r := DeliverAll(o, visits, topic, credits, env);
            && id in r.view.subs && Inv(r.view.subs[id].buf)
            && r.view.subs[id].buf.hist == o.view.subs[id].buf.hist + EntriesTo(visits, topic, env, id)
  {
    hide *;
    BufferedTarget(o, visits, topic, credits, env, id);
    EnqueueAllGrows(o.view.subs[id].buf, EntriesTo(visits, topic, env, id));
  }

  // ----- one frame for distinct targets -----

  lemma {:induction false} EntriesOfGroup(g: Group, n: nat, topic: string, env: nat -> Moment, id: Ident)
    requires Distinct(g.targets) && n <= |g.targets|
    ensures (forall k | 0 <= k < n && g.targets[k] == id ::
               EntriesTo(PairsOf(g)[..n], topic, env, id) == [Entry(topic, g.frame, |g.frame|, env(k).now)])
    ensures id !in g.targets[..n] ==> EntriesTo(PairsOf(g)[..n], topic, env, id) == []
  {
    if n > 0 {
      EntriesOfGroup(g, n - 1, topic, env, id);
      var a, p := PairsOf(g)[..n - 1], Pair(g.targets[n - 1], g.frame);
      assert PairsOf(g)[..n] == a + [p];
      EntriesToGrows(a, p, topic, env, id);
      hide EntriesTo;
      assert g.targets[..n] == g.targets[..n - 1] + [g.targets[n - 1]];
      if p.target == id {
        assert id !in g.targets[..n - 1];
        var e := Entry(topic, g.frame, |g.frame|, env(n - 1).now);
        assert [] + [e] == [e];
      }
    }
  }

  /** Each matched subscriber's buffer takes the one frame; the others' stay as they are. */
  ghost predicate OneEach(before: View, after: View, targets: seq<Ident>, frame: seq<byte>, topic: string,
                          env: nat -> Moment) {
    && after.subs.Keys == before.subs.Keys
    && (forall k | 0 <= k < |targets| && targets[k] in before.subs ::
          after.subs[targets[k]] ==
          Sub(Enqueue(before.subs[targets[k]].buf, Entry(topic, frame, |frame|, env(k).now)),
              before.subs[targets[k]].starvedRounds))
    && (forall id | id in before.subs && id !in targets :: after.subs[id] == before.subs[id])
  }

  lemma OneFrameForAll(o: Out, g: Group, topic: string, credits: map<Ident, int>, env: nat -> Moment)
    requires Distinct(g.targets)
    ensures OneEach(o.view, DeliverAll(o, PairsOf(g), topic, credits, env).view, g.targets, g.frame, topic, env)
  {
    var visits, n := PairsOf(g), |g.targets|;
    var r := DeliverAll(o, visits, topic, credits, env);
    EveryPairAccounted(o, visits, topic, credits, env);
    assert visits[..n] == visits && g.targets[..n] == g.targets;
    hide DeliverAll, PairsOf, Enqueue, EntriesTo, Count, EnqueueAll, Distinct;
    forall id | id in o.view.subs
      ensures forall k | 0 <= k < n && g.targets[k] == id ::
                r.view.subs[id] == Sub(Enqueue(o.view.subs[id].buf, Entry(topic, g.frame, |g.frame|, env(k).now)),
                                       o.view.subs[id].starvedRounds)
      ensures id !in g.targets ==> r.view.subs[id] == o.view.subs[id]
    {
      BufferedTarget(o, visits, topic, credits, env, id);
      EntriesOfGroup(g, n, topic, env, id);
      forall k | 0 <= k < n && g.targets[k] == id
        ensures r.view.subs[id].buf == Enqueue(o.view.subs[id].buf, Entry(topic, g.frame, |g.frame|, env(k).now))
      {
        EnqueueOne(o.view.subs[id].buf, Entry(topic, g.frame, |g.frame|, env(k).now));
      }
      EnqueueNone(o.view.subs[id].buf);
    }
  }

  lemma EnqueueOne(b: Buffer, e: Entry)
    ensures EnqueueAll(b, [e]) == Enqueue(b, e)
  {
    hide Enqueue;
    assert [e][..0] == [];
  }

  lemma EnqueueNone(b: Buffer)
    ensures EnqueueAll(b, []) == b
  {
  }

  // ----- what reaches the wire -----

  /** A subscriber without a buffer and with no credit left gets nothing on the wire. */
  lemma {:induction false} StarvedTarget(o: Out, visits: seq<Pair>, topic: string, credits: map<Ident, int>,
                                         env: nat -> Moment, id: Ident)
    requires id in credits && credits[id] == 0
    ensures FramesTo(DeliverAll(o, visits, topic, credits, env).wire, id) == FramesTo(o.wire, id)
  {
    if visits != [] {
      hide Queued, FramesTo;
      var k := |visits| - 1;
      StarvedTarget(o, visits[..k], topic, credits, env, id);
      FramesToGrows(DeliverAll(o, visits[..k], topic, credits, env).wire, visits[k], id);
    }
  }

  /** Of the frames for one target, those sent at a moment when the socket takes them. */
  ghost function TakenFor(visits: seq<Pair>, env: nat -> Moment, id: Ident): seq<seq<byte>> {
    if visits == [] then []
    else
      var k := |visits| - 1;
      TakenFor(visits[..k], env, id) + (if visits[k].target == id && env(k).sendOk then [visits[k].frame] else [])
  }

  lemma TakenForGrows(visits: seq<Pair>, p: Pair, env: nat -> Moment, id: Ident)
    ensures TakenFor(visits + [p], env, id) ==
            TakenFor(visits, env, id) + (if p.target == id && env(|visits|).sendOk then [p.frame] else [])
  {
    assert (visits + [p])[..|visits|] == visits;
  }

  lemma OpenStep(o: Out, p: Pair, topic: string, credits: map<Ident, int>, m: Moment, id: Ident)
    requires id !in o.view.subs && (id in credits ==> credits[id] != 0)
    ensures FramesTo(Deliver(o, p, topic, credits, m).wire, id) ==
            FramesTo(o.wire, id) + (if p.target == id && m.sendOk then [p.frame] else [])
    ensures id !in Deliver(o, p, topic, credits, m).view.subs
  {
    hide Queued, FramesTo;
    QueuedKeepsKeys(o.view, p.target, Entry(topic, p.frame, |p.frame|, m.now));
    FramesToGrows(o.wire, p, id);
    assert FramesTo(o.wire, id) + [] == FramesTo(o.wire, id);
  }

  /**
   A subscriber without a buffer that has credit gets on the wire exactly those of
   its frames that its socket takes, in order.
   */
  lemma {:induction false} OpenTarget(o: Out, visits: seq<Pair>, topic: string, credits: map<Ident, int>,
                                      env: nat -> Moment, id: Ident)
    requires id !in o.view.subs && (id in credits ==> credits[id] != 0)
    ensures FramesTo(DeliverAll(o, visits, topic, credits, env).wire, id) ==
            FramesTo(o.wire, id) + TakenFor(visits, env, id)
    ensures id !in DeliverAll(o, visits, topic, credits, env).view.subs
  {
    if visits == [] {
      assert TakenFor(visits, env, id) == [];
    } else {
      hide *;
      var k := |visits| - 1;
      var a, p := visits[..k], visits[k];
      assert visits == a + [p];
      OpenTarget(o, a, topic, credits, env, id);
      DeliverMore(o, a, p, topic, credits, env);
      TakenForGrows(a, p, env, id);
      var m := DeliverAll(o, a, topic, credits, env);
      OpenStep(m, p, topic, credits, env(k), id);
      Associates(FramesTo(o.wire, id), TakenFor(a, env, id),
                 if p.target == id && env(k).sendOk then [p.frame] else []);
    }
  }

  method GroupByFrame(pairs: seq<Pair>) returns (groups: seq<Group>)
    ensures groups == GroupAll(pairs)
  {
    groups := [];
    for i := 0 to |pairs|
      invariant groups == GroupAll(pairs[..i])
    {
      assert pairs[..i + 1][..i] == pairs[..i];
      groups := Place(groups, pairs[i]);
    }
    assert pairs[..|pairs|] == pairs;
  }

  lemma DeliverMore(o: Out, a: seq<Pair>, p: Pair, topic: string, credits: map<Ident, int>, env: nat -> Moment)
    ensures DeliverAll(o, a + [p], topic, credits, env) ==
            Deliver(DeliverAll(o, a, topic, credits, env), p, topic, credits, env(|a|))
  {
    assert (a + [p])[..|a|] == a;
  }

  /**
   broadcast: the pairs are visited group by group; each goes to its target's
   buffer, is held back, sent or refused.  The number returned counts the frames
   held back and refused.
   */
  method Broadcast(pairs: seq<Pair>, credits: map<Ident, int>, buffers: BufferManager, topic: string,
                   env: nat -> Moment)
    returns (drops: nat, wire: seq<Pair>, starved: nat, refused: nat)
    requires buffers.Valid()
    modifies buffers.buffers.Values
    ensures buffers.Valid()
    ensures Out(buffers.Model(), wire, starved, refused) ==
            DeliverAll(Out(old(buffers.Model()), [], 0, 0), Visits(GroupAll(pairs)), topic, credits, env)
    ensures drops == starved + refused
    ensures forall id | id in old(buffers.Model()).subs ::
              && id in buffers.Model().subs
              && buffers.Model().subs[id].buf ==
                 EnqueueAll(old(buffers.Model()).subs[id].buf, EntriesTo(Visits(GroupAll(pairs)), topic, env, id))
  {
    hide BufferManager.Model, BufferManager.Valid, DeliverAll, PairsOf, Visits, GroupAll, EnqueueAll, EntriesTo;
    var groups := GroupByFrame(pairs);
    VisitsNone(groups);
    drops, wire, starved, refused := 0, [], 0, 0;
    ghost var start := Out(buffers.Model(), [], 0, 0);
    var k := 0;
    DeliverNone(start, topic, credits, env);
    for i := 0 to |groups|
      invariant buffers.Valid() && drops == starved + refused
      invariant k == |Visits(groups[..i])|
      invariant Out(buffers.Model(), wire, starved, refused) ==
                DeliverAll(start, Visits(groups[..i]), topic, credits, env)
    {
      VisitsMore(groups, i);
      var sent, s, r := SendGroup(groups[i], credits, buffers, topic, env, k,
                                  start, Visits(groups[..i]), wire, starved, refused);
      wire, starved, refused, drops := wire + sent, starved + s, refused + r, drops + s + r;
      k := k + |groups[i].targets|;
    }
    assert groups[..|groups|] == groups;
    forall id | id in start.view.subs
      ensures id in buffers.Model().subs
      ensures buffers.Model().subs[id].buf ==
              EnqueueAll(start.view.subs[id].buf, EntriesTo(Visits(groups), topic, env, id))
    {
      BufferedTarget(start, Visits(groups), topic, credits, env, id);
    }
  }

  /** All targets of one frame, the visits before having led from start to where things stand. */
  method SendGroup(g: Group, credits: map<Ident, int>, buffers: BufferManager, topic: string,
                   env: nat -> Moment, k: nat, ghost start: Out, ghost before: seq<Pair>,
                   ghost wire: seq<Pair>, ghost starved: nat, ghost refused: nat)
    returns (sent: seq<Pair>, s: nat, r: nat)
    requires buffers.Valid() && k == |before|
    requires Out(buffers.Model(), wire, starved, refused) == DeliverAll(start, before, topic, credits, env)
    modifies buffers.buffers.Values
    ensures buffers.Valid()
    ensures Out(buffers.Model(), wire + sent, starved + s, refused + r) ==
            DeliverAll(start, before + PairsOf(g), topic, credits, env)
  {
    hide BufferManager.Model, BufferManager.Valid, DeliverAll, Deliver;
    sent, s, r := [], 0, 0;
    assert before + PairsOf(g)[..0] == before && wire + [] == wire;
    for j := 0 to |g.targets|
      invariant buffers.Valid()
      invariant Out(buffers.Model(), wire + sent, starved + s, refused + r) ==
                DeliverAll(start, before + PairsOf(g)[..j], topic, credits, env)
    {
      var p := Pair(g.targets[j], g.frame);
      DeliverMore(start, before + PairsOf(g)[..j], p, topic, credits, env);
      assert before + PairsOf(g)[..j + 1] == before + PairsOf(g)[..j] + [p];
      var sent1, s1, r1 := SendOne(p, credits, buffers, topic, env(k + j), wire + sent, starved + s, refused + r);
      assert wire + (sent + sent1) == wire + sent + sent1;
      sent, s, r := sent + sent1, s + s1, r + r1;
    }
    assert PairsOf(g)[..|g.targets|] == PairsOf(g);
  }

  method SendOne(p: Pair, credits: map<Ident, int>, buffers: BufferManager, topic: string, m: Moment,
                 ghost wire: seq<Pair>, ghost starved: nat, ghost refused: nat)
    returns (sent: seq<Pair>, s: nat, r: nat)
    requires buffers.Valid()
    modifies buffers.buffers.Values
    ensures buffers.Valid()
    ensures Out(buffers.Model(), wire + sent, starved + s, refused + r) ==
            Deliver(Out(old(buffers.Model()), wire, starved, refused), p, topic, credits, m)
  {
    hide Queued;
    sent, s, r := [], 0, 0;
    if p.target in buffers.buffers {
      buffers.Enqueue(p.target, topic, p.frame, m.now);
      return;
    }
    var credit := if p.target in credits then credits[p.target] else -1;
    if credit == 0 {
      s := 1;
      return;
    }
    if m.sendOk {
      sent := [p];
    } else {
      r := 1;
    }
  }

  lemma DeliverNone(o: Out, topic: string, credits: map<Ident, int>, env: nat -> Moment)
    ensures DeliverAll(o, [], topic, credits, env) == o
  {
  }

  // ----- one incoming frame -----

  /** The receipt a publisher asked for. */
  datatype Ack = Ack(token: nat, topic: string, seqNo: nat, recordCount: nat)

  class DataServer<D> {
    const env: Env<D>
    const routing: SubscriptionTable
    const buffers: BufferManager
    var topicSeq: map<string, nat>

    constructor (env: Env<D>, routing: SubscriptionTable, buffers: BufferManager)
      ensures this.env == env && this.routing == routing && this.buffers == buffers && topicSeq == map[]
    {
      this.env, this.routing, this.buffers, topicSeq := env, routing, buffers, map[];
    }

    /** The topic's next number, from 1. */
    method NextSeq(topic: string) returns (n: nat)
      modifies this
      ensures n == 1 + (if topic in old(topicSeq) then old(topicSeq)[topic] else 0)
      ensures topicSeq == old(topicSeq)[topic := n]
    {
      n := (if topic in topicSeq then topicSeq[topic] else 0) + 1;
      topicSeq := topicSeq[topic := n];
    }

    /** The matched identities as a list, in the order the set gives them. */
    method InSomeOrder(matched: set<Ident>) returns (order: seq<Ident>)
      ensures Distinct(order) && forall id :: id in order <==> id in matched
    {
      order := [];
      var todo := matched;
      while todo != {}
        invariant todo <= matched && Distinct(order)
        invariant forall id :: id in order <==> id in matched && id !in todo
        decreases todo
      {
        var id :| id in todo;
        order, todo := order + [id], todo - {id};
      }
    }

    /**
     One incoming frame.  Whether or not anybody subscribes, an accepted frame
     takes its topic's next number and is acknowledged under it if the publisher
     asked; the renumbered frame is delivered to exactly the matching identities,
     once each.
     */
    method OnDataMessage(frame: seq<byte>, credits: map<Ident, int>, moments: nat -> Moment)
      returns (ack: Option<Ack>, targets: seq<Ident>, drops: nat, wire: seq<Pair>, starved: nat, refused: nat)
      requires routing.Valid() && buffers.Valid()
      modifies this, routing, buffers.buffers.Values
      ensures routing.Valid() && buffers.Valid() && routing.readIndex == old(routing.readIndex)
      ensures drops == starved + refused
      ensures match DecodeHeader(env, frame)
              case Err(_) => ack.None? && targets == [] && topicSeq == old(topicSeq)
              case Ok(h) =>
                var n := 1 + (if h.topic in old(topicSeq) then old(topicSeq)[h.topic] else 0);
                && topicSeq == old(topicSeq)[h.topic := n]
                && ack == (if h.ackToken.Some? then Some(Ack(h.ackToken.value, h.topic, n, h.recordCount)) else None)
                && Distinct(targets)
                && (forall id :: id in targets <==> Subscribed(routing.readIndex, id, h.topic))
      ensures Out(buffers.Model(), wire, starved, refused) ==
              match DecodeHeader(env, frame)
              case Err(_) => Out(old(buffers.Model()), [], 0, 0)
              case Ok(h) =>
                DeliverAll(Out(old(buffers.Model()), [], 0, 0),
                           PairsOf(Group(RewriteSeq(env, frame, topicSeq[h.topic]), targets)),
                           h.topic, credits, moments)
      ensures match DecodeHeader(env, frame)
              case Err(_) => true
              case Ok(h) =>
                OneEach(old(buffers.Model()), buffers.Model(), targets, RewriteSeq(env, frame, topicSeq[h.topic]),
                        h.topic, moments)
    {
      hide RewriteSeq, DecodeHeader, Consistent, Subscribed, BufferManager.Model, BufferManager.Valid,
           SubscriptionTable.Valid, DeliverAll, PairsOf, Distinct, OneEach;
      ack, targets, drops, wire, starved, refused := None, [], 0, [], 0, 0;
      match DecodeHeader(env, frame) {
        case Err(_) =>
        case Ok(h) =>
          HeaderIsLong(env, frame);
          var n := NextSeq(h.topic);
          if h.ackToken.Some? {
            ack := Some(Ack(h.ackToken.value, h.topic, n, h.recordCount));
          }
          var matched := routing.Match(h.topic);
          targets := InSomeOrder(matched);
          ghost var start := Out(buffers.Model(), [], 0, 0);
          var out := RewriteSeq(env, frame, n);
          drops, wire, starved, refused := SendOut(out, targets, h.topic, credits, moments);
          OneFrameForAll(start, Group(out, targets), h.topic, credits, moments);
      }
    }

    /** One frame for all targets; without targets nothing is sent. */
    method SendOut(out: seq<byte>, targets: seq<Ident>, topic: string, credits: map<Ident, int>, moments: nat -> Moment)
      returns (drops: nat, wire: seq<Pair>, starved: nat, refused: nat)
      requires buffers.Valid()
      modifies buffers.buffers.Values
      ensures buffers.Valid() && drops == starved + refused
      ensures Out(buffers.Model(), wire, starved, refused) ==
              DeliverAll(Out(old(buffers.Model()), [], 0, 0), PairsOf(Group(out, targets)), topic, credits, moments)
    {
      hide BufferManager.Model, BufferManager.Valid, DeliverAll, Visits, GroupAll;
      drops, wire, starved, refused := 0, [], 0, 0;
      var pairs := PairsOf(Group(out, targets));
      OneFrameKeepsOrder(pairs, out);
      DeliverNone(Out(buffers.Model(), [], 0, 0), topic, credits, moments);
      if targets != [] {
        drops, wire, starved, refused := Broadcast(pairs, credits, buffers, topic, moments);
      }
    }
  }
}
