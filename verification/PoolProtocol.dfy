/**
 The router and its workers running at the same time: one RingProtocol ring per
 worker, one router writing to them one frame after the other, n workers each
 reading its own ring.  Every step is one step of one of the rings.
 */
module PoolProtocol {
  import opened Wrappers
  import opened RingLayout
  import opened ShmRings
  import opened JumpHash
  import opened WorkerPools
  import R = RingProtocol

  datatype Frame = Frame(topic: string, payload: Payload)

  /** A frame and the ring route chose for it. */
  datatype Routed = Routed(ring: nat, frame: Frame)

  datatype Pool = Pool(
    rings: seq<R.State>,
    current: Option<Routed>,    // the route call under way
    accepted: seq<Routed>)      // calls of route that returned True, in order

  datatype Action =
    | Route(frame: Frame, ring: nat)          // route is called and has chosen the ring
    | RouterStep                              // one step of write on that ring
    | WorkerReads(ring: nat, max: nat)        // a worker calls read_batch
    | WorkerStep(ring: nat)                   // one step of it

  /** Where a frame must go: the hash of its route key, or anywhere when there is no key mode. */
  function Home(mode: KeyMode, crc: string -> nat, extract: (string, Payload) -> Option<string>,
                n: nat, f: Frame): Option<nat> {
    if mode == NoKey then None else Some(WorkerOf(crc, RouteKey(mode, extract, f.topic, f.payload), n))
  }

  ghost predicate Capped(rings: seq<R.State>) {
    forall i | 0 <= i < |rings| :: rings[i].cap > 0
  }

  /** Ring i makes a step of its own. */
  ghost function OnRing(p: Pool, i: nat, a: R.Action): (p': Pool)
    requires Capped(p.rings) && i < |p.rings|
    ensures Capped(p'.rings) && |p'.rings| == |p.rings|
  {
    R.CapStays(p.rings[i], a);
    p.(rings := p.rings[i := R.Next(p.rings[i], a)])
  }

  ghost predicate MayRoute(p: Pool, f: Frame, i: nat, home: Frame -> Option<nat>) {
    p.current.None? && i < |p.rings| && |f.payload| < PAD && (home(f).Some? ==> i == home(f).value)
  }

  ghost function Next(p: Pool, a: Action, home: Frame -> Option<nat>): (p': Pool)
    requires Capped(p.rings)
    ensures Capped(p'.rings) && |p'.rings| == |p.rings|
  {
    match a
    case Route(f, i) =>
      if MayRoute(p, f, i, home)
      then OnRing(p, i, R.BeginWrite(f.payload)).(current := Some(Routed(i, f)))
      else p
    case RouterStep =>
      if p.current.None? || p.current.value.ring >= |p.rings| then p
      else
        var p1 := OnRing(p, p.current.value.ring, R.WriterStep);
        var s := p1.rings[p.current.value.ring];
        if !s.w.WIdle? then p1
        else p1.(current := None, accepted := p.accepted + (if TookLast(s) then [p.current.value] else []))
    case WorkerReads(i, max) => if i < |p.rings| then OnRing(p, i, R.BeginRead(max)) else p
    case WorkerStep(i) => if i < |p.rings| then OnRing(p, i, R.ReaderStep) else p
  }

  /** The ring's latest write returned True. */
  ghost predicate TookLast(s: R.State) {
    s.results != [] && s.results[|s.results| - 1].Accepted?
  }

  ghost function Run(p: Pool, schedule: seq<Action>, home: Frame -> Option<nat>): (p': Pool)
    requires Capped(p.rings)
    ensures Capped(p'.rings) && |p'.rings| == |p.rings|
  {
    if schedule == [] then p
    else Next(Run(p, schedule[..|schedule| - 1], home), schedule[|schedule| - 1], home)
  }

  /** n empty rings of the given sizes. */
  ghost predicate Fresh(p: Pool) {
    && p.current.None? && p.accepted == []
    && forall i | 0 <= i < |p.rings| ::
         var s := p.rings[i]; 0 < s.cap <= |s.mem| && s == R.Init(s.cap, s.mem)
  }

  // ----- what went to one ring -----

  ghost function To(acc: seq<Routed>, i: nat): seq<Frame> {
    if acc == [] then []
    else
      var x := acc[|acc| - 1];
      To(acc[..|acc| - 1], i) + (if x.ring == i then [x.frame] else [])
  }

  ghost function FramesOf(acc: seq<Routed>): (fs: seq<Frame>)
    ensures |fs| == |acc|
  {
    seq(|acc|, k requires 0 <= k < |acc| => acc[k].frame)
  }

  ghost function PayloadsOf(fs: seq<Frame>): (ps: seq<Payload>)
    ensures |ps| == |fs|
  {
    seq(|fs|, k requires 0 <= k < |fs| => fs[k].payload)
  }

  lemma ToGrows(acc: seq<Routed>, x: Routed, i: nat)
    ensures To(acc + [x], i) == To(acc, i) + (if x.ring == i then [x.frame] else [])
    ensures PayloadsOf(To(acc + [x], i)) == PayloadsOf(To(acc, i)) + (if x.ring == i then [x.frame.payload] else [])
  {
    assert (acc + [x])[..|acc|] == acc;
    hide To;
    if x.ring != i {
      assert To(acc, i) + [] == To(acc, i);
    }
  }

  // ----- the invariant -----

  /** Ring i, its writer's part of the route call under way, and its share of the accepted frames. */
  ghost predicate RingOk(s: R.State, i: nat, current: Option<Routed>, acc: seq<Routed>) {
    && R.Inv(s)
    && (if current.Some? && current.value.ring == i
        then !s.w.WIdle? && s.w.payload == current.value.frame.payload
        else s.w.WIdle?)
    && R.AcceptedOf(s.results) == PayloadsOf(To(acc, i))
  }

  ghost predicate Homed(x: Routed, home: Frame -> Option<nat>, n: nat) {
    x.ring < n && (home(x.frame).Some? ==> x.ring == home(x.frame).value)
  }

  ghost predicate Inv(p: Pool, home: Frame -> Option<nat>) {
    && (forall i | 0 <= i < |p.rings| :: RingOk(p.rings[i], i, p.current, p.accepted))
    && (p.current.Some? ==> Homed(p.current.value, home, |p.rings|))
    && (forall x | x in p.accepted :: Homed(x, home, |p.rings|))
  }

  lemma ReadKeeps(s: R.State, a: R.Action, i: nat, current: Option<Routed>, acc: seq<Routed>)
    requires RingOk(s, i, current, acc) && s.cap > 0 && (a.BeginRead? || a.ReaderStep?)
    ensures RingOk(R.Next(s, a), i, current, acc)
  {
    hide R.Inv, R.AcceptedOf, To, PayloadsOf, R.Next;
    R.StepKeepsInv(s, a);
    R.OtherStepsLeaveWriter(s, a);
  }

  lemma BeginKeeps(s: R.State, i: nat, acc: seq<Routed>, x: Routed)
    requires RingOk(s, i, None, acc) && s.cap > 0 && x.ring == i && |x.frame.payload| < PAD
    ensures RingOk(R.Next(s, R.BeginWrite(x.frame.payload)), i, Some(x), acc)
  {
    R.StepKeepsInv(s, R.BeginWrite(x.frame.payload));
    hide R.Inv, R.AcceptedOf, To, PayloadsOf;
  }

  lemma AnswerTaken(s: R.State, v: Verdict, p: Payload)
    requires s.results != [] && s.results[|s.results| - 1] == R.OutcomeOf(v, p)
    ensures TookLast(s) <==> v == Stored
  {
  }

  /** The writer's step goes on with the call or ends it with an answer. */
  lemma WriteKeeps(s: R.State, i: nat, acc: seq<Routed>, x: Routed)
    requires RingOk(s, i, Some(x), acc) && s.cap > 0 && x.ring == i
    ensures var s' := R.Next(s, R.WriterStep);
            if s'.w.WIdle?
            then RingOk(s', i, None, acc + (if TookLast(s') then [x] else []))
            else RingOk(s', i, Some(x), acc)
  {
    hide R.Inv, R.AcceptedOf, To, PayloadsOf, R.Next, R.WriterMove, R.Predicted, R.OutcomeOf, TookLast;
    R.StepKeepsInv(s, R.WriterStep);
    R.StepAsPredicted(s);
    R.NextIsWriterMove(s);
    var s' := R.WriterMove(s);
    if s'.w.WIdle? {
      var v := R.Predicted(s.w, s.cap, |s.mem|).0;
      R.FinishAccepted(s.results, R.OutcomeOf(v, x.frame.payload));
      OutcomeTells(v, x.frame.payload);
      AnswerTaken(s', v, x.frame.payload);
      ToGrows(acc, x, i);
      assert acc + [] == acc;
      assert PayloadsOf(To(acc, i)) + [] == PayloadsOf(To(acc, i));
    }
  }

  lemma OutcomeTells(v: Verdict, p: Payload)
    ensures R.OutcomeOf(v, p).Accepted? <==> v == Stored
    ensures R.OutcomeOf(v, p).payload == p
  {
  }

  lemma OtherRing(s: R.State, i: nat, current: Option<Routed>, acc: seq<Routed>, x: Routed, took: bool)
    requires RingOk(s, i, current, acc) && x.ring != i
    requires current == None || current == Some(x)
    ensures RingOk(s, i, None, acc + (if took then [x] else [])) && RingOk(s, i, Some(x), acc)
  {
    hide R.Inv, R.AcceptedOf, To, PayloadsOf;
    ToGrows(acc, x, i);
    assert acc + [] == acc;
  }

  lemma RouteKeepsInv(p: Pool, f: Frame, i: nat, home: Frame -> Option<nat>)
    requires Inv(p, home) && Capped(p.rings) && MayRoute(p, f, i, home)
    ensures Inv(Next(p, Route(f, i), home), home)
  {
    hide RingOk, R.Next;
    var x := Routed(i, f);
    BeginKeeps(p.rings[i], i, p.accepted, x);
    forall j | 0 <= j < |p.rings| && j != i
      ensures RingOk(p.rings[j], j, Some(x), p.accepted)
    {
      OtherRing(p.rings[j], j, None, p.accepted, x, false);
    }
  }

  lemma RouterStepKeepsInv(p: Pool, home: Frame -> Option<nat>)
    requires Inv(p, home) && Capped(p.rings) && p.current.Some?
    ensures Inv(Next(p, RouterStep, home), home)
  {
    hide RingOk, R.Next, TookLast;
    var x := p.current.value;
    WriteKeeps(p.rings[x.ring], x.ring, p.accepted, x);
    var took := TookLast(R.Next(p.rings[x.ring], R.WriterStep));
    forall j | 0 <= j < |p.rings| && j != x.ring
      ensures RingOk(p.rings[j], j, None, p.accepted + (if took then [x] else []))
    {
      OtherRing(p.rings[j], j, Some(x), p.accepted, x, took);
    }
  }

  /** Every step of the router or of a worker keeps the invariant. */
  lemma StepKeepsInv(p: Pool, a: Action, home: Frame -> Option<nat>)
    requires Inv(p, home) && Capped(p.rings)
    ensures Inv(Next(p, a, home), home)
  {
    hide RingOk, R.Next, Homed;
    match a
    case Route(f, i) =>
      if MayRoute(p, f, i, home) {
        RouteKeepsInv(p, f, i, home);
      }
    case RouterStep =>
      if p.current.Some? {
        RouterStepKeepsInv(p, home);
      }
    case WorkerReads(i, max) =>
      if i < |p.rings| {
        ReadKeeps(p.rings[i], R.BeginRead(max), i, p.current, p.accepted);
      }
    case WorkerStep(i) =>
      if i < |p.rings| {
        ReadKeeps(p.rings[i], R.ReaderStep, i, p.current, p.accepted);
      }
  }

  lemma FreshRing(s: R.State, i: nat)
    requires 0 < s.cap <= |s.mem| && s == R.Init(s.cap, s.mem)
    ensures RingOk(s, i, None, [])
  {
    R.RunKeepsInv(s.cap, s.mem, []);
    assert PayloadsOf([]) == [];
  }

  lemma {:induction false} RunKeepsInv(p: Pool, schedule: seq<Action>, home: Frame -> Option<nat>)
    requires Fresh(p) && Capped(p.rings)
    ensures Inv(Run(p, schedule, home), home)
  {
    if schedule == [] {
      hide RingOk;
      forall i | 0 <= i < |p.rings|
        ensures RingOk(p.rings[i], i, None, [])
      {
        FreshRing(p.rings[i], i);
      }
    } else {
      hide Inv, Next, Fresh;
      var n := |schedule| - 1;
      RunKeepsInv(p, schedule[..n], home);
      StepKeepsInv(Run(p, schedule[..n], home), schedule[n], home);
    }
  }

  // ----- what every interleaving of router and workers guarantees -----

  /** The accepted frames whose payloads worker i has been handed. */
  ghost function Handed(p: Pool, i: nat): seq<Frame>
    requires i < |p.rings|
  {
    var mine := To(p.accepted, i);
    if |p.rings[i].delivered| <= |mine| then mine[..|p.rings[i].delivered|] else mine
  }

  /**
   What a worker has been handed is, byte for byte, a prefix of the payloads that
   route accepted for its ring, in the order they were routed; a worker that has
   caught up has all of them.
   */
  lemma WorkerFifo(p: Pool, schedule: seq<Action>, home: Frame -> Option<nat>, i: nat)
    requires Fresh(p) && Capped(p.rings) && i < |p.rings|
    ensures var q := Run(p, schedule, home);
            && q.rings[i].delivered == PayloadsOf(Handed(q, i))
            && Handed(q, i) <= To(q.accepted, i)
            && (q.rings[i].head == q.rings[i].tail ==> Handed(q, i) == To(q.accepted, i))
  {
    RunKeepsInv(p, schedule, home);
    hide Run, Fresh;
    var q := Run(p, schedule, home);
    assert RingOk(q.rings[i], i, q.current, q.accepted);
    DeliveredPrefix(q.rings[i]);
    var mine, k := To(q.accepted, i), |q.rings[i].delivered|;
    assert PayloadsOf(mine)[..k] == PayloadsOf(mine[..k]);
  }

  lemma DeliveredPrefix(s: R.State)
    requires R.Inv(s)
    ensures s.delivered <= R.AcceptedOf(s.results)
    ensures s.head == s.tail ==> s.delivered == R.AcceptedOf(s.results)
  {
    hide R.WriterOk, R.ReaderOk, SegAt;
    PayloadsPrefix(s.log, s.ri, |s.log|);
    EarlierStart(s.log, s.tail, s.ri, |s.log|);
    assert s.log[..|s.log|] == s.log;
  }

  // ----- order per key -----

  ghost function Filter(fs: seq<Frame>, has: Frame -> bool): seq<Frame> {
    if fs == [] then []
    else Filter(fs[..|fs| - 1], has) + (if has(fs[|fs| - 1]) then [fs[|fs| - 1]] else [])
  }

  lemma {:induction false} FilterPrefix(fs: seq<Frame>, k: nat, has: Frame -> bool)
    requires k <= |fs|
    ensures Filter(fs[..k], has) <= Filter(fs, has)
  {
    if k < |fs| {
      var n := |fs| - 1;
      FilterPrefix(fs[..n], k, has);
      assert fs[..n][..k] == fs[..k];
    } else {
      assert fs[..k] == fs;
    }
  }

  lemma FilterGrows(fs: seq<Frame>, f: Frame, has: Frame -> bool)
    ensures Filter(fs + [f], has) == Filter(fs, has) + (if has(f) then [f] else [])
  {
    assert (fs + [f])[..|fs|] == fs;
  }

  /** When the frames with a property all go to ring i, the ring sees them in the order of the whole stream. */
  lemma {:induction false} RingSeesAll(acc: seq<Routed>, i: nat, has: Frame -> bool)
    requires forall x | x in acc && has(x.frame) :: x.ring == i
    ensures Filter(To(acc, i), has) == Filter(FramesOf(acc), has)
  {
    if acc != [] {
      var k := |acc| - 1;
      RingSeesAll(acc[..k], i, has);
      hide Filter;
      assert FramesOf(acc) == FramesOf(acc[..k]) + [acc[k].frame];
      FilterGrows(FramesOf(acc[..k]), acc[k].frame, has);
      FilterGrows(To(acc[..k], i), acc[k].frame, has);
      if acc[k].ring != i {
        assert To(acc, i) == To(acc[..k], i);
        assert Filter(FramesOf(acc[..k]), has) + [] == Filter(FramesOf(acc[..k]), has);
      }
    }
  }

  /** When they all go elsewhere, it sees none of them. */
  lemma {:induction false} RingSeesNone(acc: seq<Routed>, i: nat, has: Frame -> bool)
    requires forall x | x in acc && has(x.frame) :: x.ring != i
    ensures Filter(To(acc, i), has) == []
  {
    if acc != [] {
      var k := |acc| - 1;
      RingSeesNone(acc[..k], i, has);
      hide Filter;
      FilterGrows(To(acc[..k], i), acc[k].frame, has);
      if acc[k].ring != i {
        assert To(acc, i) == To(acc[..k], i);
      }
    }
  }

  lemma KeyedRunIsHomed(p: Pool, schedule: seq<Action>, home: Frame -> Option<nat>, x: Routed)
    requires Fresh(p) && Capped(p.rings)
    requires x in Run(p, schedule, home).accepted && home(x.frame).Some?
    ensures x.ring == home(x.frame).value
  {
    RunKeepsInv(p, schedule, home);
    hide RingOk, Run, Fresh;
  }

  /**
   Under every interleaving of the router's and the workers' steps: of the frames
   with one route key, the key's worker has been handed a prefix of those
   accepted, in routing order and byte for byte, and all of them once it has
   caught up; no other worker's ring has seen any.
   */
  lemma PerKeyOrder(p: Pool, schedule: seq<Action>, mode: KeyMode, crc: string -> nat,
                    extract: (string, Payload) -> Option<string>, key: string, i: nat)
    requires Fresh(p) && Capped(p.rings) && i < |p.rings| && mode != NoKey
    ensures var n := |p.rings|;
            var q := Run(p, schedule, (f: Frame) => Home(mode, crc, extract, n, f));
            var has := (f: Frame) => Carries(mode, extract, f.topic, f.payload, key);
            && q.rings[i].delivered == PayloadsOf(Handed(q, i))
            && (if i == WorkerOf(crc, key, n)
                then Filter(Handed(q, i), has) <= Filter(FramesOf(q.accepted), has)
                     && (q.rings[i].head == q.rings[i].tail ==>
                           Filter(Handed(q, i), has) == Filter(FramesOf(q.accepted), has))
                else Filter(To(q.accepted, i), has) == [] == Filter(Handed(q, i), has))
  {
    var n := |p.rings|;
    var home := (f: Frame) => Home(mode, crc, extract, n, f);
    var has := (f: Frame) => Carries(mode, extract, f.topic, f.payload, key);
    var q := Run(p, schedule, home);
    WorkerFifo(p, schedule, home, i);
    forall x | x in q.accepted && has(x.frame)
      ensures x.ring == WorkerOf(crc, key, n)
    {
      KeyedRunIsHomed(p, schedule, home, x);
      RouteKeyIsCarried(mode, extract, x.frame.topic, x.frame.payload, key);
    }
    hide Run, Filter, To, Handed, PayloadsOf, WorkerOf, RouteKey, Carries;
    var mine, got := To(q.accepted, i), Handed(q, i);
    assert got == mine[..|got|];
    FilterPrefix(mine, |got|, has);
    if i == WorkerOf(crc, key, n) {
      RingSeesAll(q.accepted, i, has);
    } else {
      RingSeesNone(q.accepted, i, has);
    }
  }

  // ----- one whole route -----

  /** The call under way will end with this answer, whatever the workers do meanwhile. */
  ghost predicate InCall(p: Pool, x: Routed, want: (Verdict, nat), acc: seq<Routed>) {
    && p.current == Some(x) && x.ring < |p.rings| && p.accepted == acc
    && p.rings[x.ring].cap > 0
    && R.Predicted(p.rings[x.ring].w, p.rings[x.ring].cap, |p.rings[x.ring].mem|) == want
  }

  lemma ReadKeepsPrediction(s: R.State, a: R.Action)
    requires R.Inv(s) && s.cap > 0 && (a.BeginRead? || a.ReaderStep?)
    ensures var s' := R.Next(s, a); s'.w == s.w && s'.cap == s.cap && |s'.mem| == |s.mem|
  {
    R.OtherStepsLeaveWriter(s, a);
  }

  lemma CallRouterStep(p: Pool, home: Frame -> Option<nat>, x: Routed, want: (Verdict, nat), acc: seq<Routed>)
    requires Inv(p, home) && Capped(p.rings) && InCall(p, x, want, acc)
    ensures var q := Next(p, RouterStep, home);
            if q.current.None? then q.accepted == acc + (if want.0 == Stored then [x] else [])
            else InCall(q, x, want, acc)
  {
    var s := p.rings[x.ring];
    assert RingOk(s, x.ring, p.current, p.accepted);
    hide Inv, R.Inv, R.Next, R.Predicted, R.OutcomeOf, R.WriterMove, To, PayloadsOf, R.AcceptedOf, TookLast;
    R.NextIsWriterMove(s);
    R.StepAsPredicted(s);
    var s' := R.WriterMove(s);
    if s'.w.WIdle? {
      AnswerTaken(s', want.0, x.frame.payload);
    }
  }

  lemma CallWorkerStep(p: Pool, i: nat, a: R.Action, x: Routed, want: (Verdict, nat), acc: seq<Routed>)
    requires Capped(p.rings) && InCall(p, x, want, acc) && i < |p.rings| && R.Inv(p.rings[i])
    requires a.BeginRead? || a.ReaderStep?
    ensures InCall(OnRing(p, i, a), x, want, acc)
  {
    hide R.Inv, R.Next, R.Predicted;
    ReadKeepsPrediction(p.rings[i], a);
  }

  lemma CallStep(p: Pool, a: Action, home: Frame -> Option<nat>, x: Routed, want: (Verdict, nat), acc: seq<Routed>)
    requires Inv(p, home) && Capped(p.rings) && InCall(p, x, want, acc)
    ensures var q := Next(p, a, home);
            if q.current.None? then q.accepted == acc + (if want.0 == Stored then [x] else [])
            else InCall(q, x, want, acc)
  {
    match a
    case Route(f, i) =>
    case RouterStep => CallRouterStep(p, home, x, want, acc);
    case WorkerReads(i, max) =>
      if i < |p.rings| {
        assert RingOk(p.rings[i], i, p.current, p.accepted);
        hide R.Inv, R.Next, R.Predicted, To, PayloadsOf, R.AcceptedOf, Homed;
        CallWorkerStep(p, i, R.BeginRead(max), x, want, acc);
      }
    case WorkerStep(i) =>
      if i < |p.rings| {
        assert RingOk(p.rings[i], i, p.current, p.accepted);
        hide R.Inv, R.Next, R.Predicted, To, PayloadsOf, R.AcceptedOf, Homed;
        CallWorkerStep(p, i, R.ReaderStep, x, want, acc);
      }
  }

  ghost predicate Busy(p: Pool, schedule: seq<Action>, home: Frame -> Option<nat>)
    requires Capped(p.rings)
  {
    forall k | 0 <= k < |schedule| :: Run(p, schedule[..k], home).current.Some?
  }

  lemma {:induction false} CallUnderWay(p: Pool, schedule: seq<Action>, home: Frame -> Option<nat>, x: Routed,
                                        want: (Verdict, nat), acc: seq<Routed>)
    requires Inv(p, home) && Capped(p.rings) && InCall(p, x, want, acc) && Busy(p, schedule, home)
    ensures var q := Run(p, schedule, home);
            && Inv(q, home)
            && if q.current.None? then q.accepted == acc + (if want.0 == Stored then [x] else [])
               else InCall(q, x, want, acc)
  {
    if schedule != [] {
      hide Inv, InCall, Next;
      var n := |schedule| - 1;
      assert Busy(p, schedule[..n], home) by {
        assert forall k | 0 <= k < n :: schedule[..n][..k] == schedule[..k];
      }
      CallUnderWay(p, schedule[..n], home, x, want, acc);
      var m := Run(p, schedule[..n], home);
      assert m.current.Some?;
      StepKeepsInv(m, schedule[n], home);
      CallStep(m, schedule[n], home, x, want, acc);
    }
  }

  /**
   One whole route, with any steps of the workers in between: when it ends the
   frame is the newest accepted exactly when its ring had a place for it at the
   start, as the positions then tell.
   */
  lemma RouteAcceptsIff(p: Pool, f: Frame, i: nat, schedule: seq<Action>, home: Frame -> Option<nat>)
    requires Inv(p, home) && Capped(p.rings) && p.current.None? && i < |p.rings| && |f.payload| < PAD
    requires home(f).Some? ==> i == home(f).value
    requires var q := Next(p, Route(f, i), home); Busy(q, schedule, home) && Run(q, schedule, home).current.None?
    ensures var s := p.rings[i];
            && 0 < s.cap <= |s.mem|
            && Run(Next(p, Route(f, i), home), schedule, home).accepted ==
               p.accepted + (if Accepts(s.cap, |s.mem|, s.head, s.tail, |f.payload|) then [Routed(i, f)] else [])
  {
    var s, x := p.rings[i], Routed(i, f);
    assert RingOk(s, i, None, p.accepted);
    RingPositions(s);
    StoredIffAccepted(s.cap, |s.mem|, s.head, s.tail, |f.payload|);
    var want := WriteSpec(s.cap, |s.mem|, s.head, s.tail, |f.payload|);
    CallBegins(p, f, i, home);
    StepKeepsInv(p, Route(f, i), home);
    hide Run, Next, Inv, InCall, Accepts, WriteSpec, RingOk;
    CallUnderWay(Next(p, Route(f, i), home), schedule, home, x, want, p.accepted);
  }

  lemma RingPositions(s: R.State)
    requires R.Inv(s)
    ensures 0 < s.cap <= |s.mem| && s.head <= s.tail <= s.head + s.cap
  {
    hide R.WriterOk, R.ReaderOk, Holds, Payloads, R.AcceptedOf;
  }

  lemma CallBegins(p: Pool, f: Frame, i: nat, home: Frame -> Option<nat>)
    requires Inv(p, home) && Capped(p.rings) && MayRoute(p, f, i, home)
    ensures var s := p.rings[i];
            && 0 < s.cap <= |s.mem| && s.head <= s.tail <= s.head + s.cap
            && InCall(Next(p, Route(f, i), home), Routed(i, f),
                      WriteSpec(s.cap, |s.mem|, s.head, s.tail, |f.payload|), p.accepted)
  {
    assert RingOk(p.rings[i], i, None, p.accepted);
    RingPositions(p.rings[i]);
    hide R.Inv, To, PayloadsOf, R.AcceptedOf, WriteSpec;
  }
}
