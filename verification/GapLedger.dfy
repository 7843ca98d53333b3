/**
 The consumer's gap ledger: losses inferred from jumps in a topic's sequence
 numbers, with the baseline rolled back when the ring refuses a frame.
 */
module GapLedger {
  import opened Wrappers
  import opened Bytes
  import opened Frames

  const CONTROL: byte := 2

  /** What the receive loop makes of one frame. */
  datatype Event = Junk | Control | Data(topic: string, seqNo: nat)

  function Classify<D>(env: Env<D>, f: seq<byte>): Event {
    match Peek(env, f)
    case Err(_) => Junk
    case Ok(p) => if p.msgType == CONTROL then Control else Data(p.topic, p.seqNo)
  }

  /** _gap_last, _gap_missing, _gap_reported, frames accepted and refused by the ring. */
  datatype Ledger = Ledger(
    last: map<string, int>, missing: map<string, nat>, reported: map<string, nat>,
    routed: map<string, nat>, drops: map<string, nat>)

  const EMPTY: Ledger := Ledger(map[], map[], map[], map[], map[])

  function Num(m: map<string, nat>, t: string): nat {
    if t in m then m[t] else 0
  }

  /** Gap detection on a frame numbered s. */
  function Track(l: Ledger, t: string, s: nat): Ledger {
    var l1 := if t in l.last && s > l.last[t] + 1
              then l.(missing := l.missing[t := Num(l.missing, t) + (s - l.last[t] - 1)])
              else l;
    if t !in l.last || s > l.last[t] then l1.(last := l.last[t := s]) else l1
  }

  /** What routing a frame comes to. */
  datatype Answer =
    | Took      // route returned True
    | Refused   // route returned False
    | Raised    // route raised: the batch ends here
    | NoPool    // there is no pool to route to

  /** The ring took the frame, or refused it and the baseline steps back; otherwise nothing more is counted. */
  function Settle(l: Ledger, t: string, s: nat, answer: Answer): Ledger {
    match answer
    case Took => l.(routed := l.routed[t := Num(l.routed, t) + 1])
    case Refused =>
      var l1 := l.(drops := l.drops[t := Num(l.drops, t) + 1]);
      if t in l.last && l.last[t] == s then l1.(last := l.last[t := s - 1]) else l1
    case _ => l
  }

  function Process(l: Ledger, e: Event, answer: Answer): Ledger {
    match e
    case Data(t, s) => Settle(Track(l, t, s), t, s, answer)
    case _ => l
  }

  /** A received frame; without an answer when an exception ended its batch before its turn. */
  datatype Arrival = Arrival(event: Event, answer: Option<Answer>)

  function Visit(l: Ledger, a: Arrival): Ledger {
    match a.answer case Some(answer) => Process(l, a.event, answer) case None => l
  }

  function ProcessAll(l: Ledger, batch: seq<Arrival>): Ledger {
    if batch == [] then l else Visit(ProcessAll(l, batch[..|batch| - 1]), batch[|batch| - 1])
  }

  /** How the stream is cut into batches does not matter. */
  lemma {:induction false} BatchesDoNotMatter(l: Ledger, a: seq<Arrival>, b: seq<Arrival>)
    ensures ProcessAll(l, a + b) == ProcessAll(ProcessAll(l, a), b)
    decreases |b|
  {
    if b == [] {
      assert a + b == a;
    } else {
      var n := |b| - 1;
      assert (a + b)[..|a + b| - 1] == a + b[..n];
      BatchesDoNotMatter(l, a, b[..n]);
    }
  }

  // ----- the invariant -----

  /** A data frame of topic t that the ledger saw. */
  predicate IsOf(a: Arrival, t: string) {
    a.answer.Some? && a.event.Data? && a.event.topic == t
  }

  /** The sequence numbers of topic t only ever go up. */
  ghost predicate Increasing(batch: seq<Arrival>, t: string) {
    forall i, j | 0 <= i < j < |batch| && IsOf(batch[i], t) && IsOf(batch[j], t) ::
      batch[i].event.seqNo < batch[j].event.seqNo
  }

  ghost function FirstSeq(batch: seq<Arrival>, t: string): Option<nat> {
    if batch == [] then None
    else
      var before := FirstSeq(batch[..|batch| - 1], t);
      if before.Some? then before
      else if IsOf(batch[|batch| - 1], t) then Some(batch[|batch| - 1].event.seqNo) else None
  }

  /** The newest arrival of topic t. */
  ghost function Newest(batch: seq<Arrival>, t: string): Option<Arrival> {
    if batch == [] then None
    else if IsOf(batch[|batch| - 1], t) then Some(batch[|batch| - 1])
    else Newest(batch[..|batch| - 1], t)
  }

  lemma {:induction false} NewestIsThere(batch: seq<Arrival>, t: string)
    ensures Newest(batch, t).Some? ==>
              exists i :: 0 <= i < |batch| && batch[i] == Newest(batch, t).value && IsOf(batch[i], t)
    ensures Newest(batch, t).Some? <==> FirstSeq(batch, t).Some?
  {
    if batch != [] {
      NewestIsThere(batch[..|batch| - 1], t);
    }
  }

  /** missing + routed = baseline + 1 - first observed, but for u frames. */
  ghost predicate BalancedBut(l: Ledger, t: string, first: nat, u: nat) {
    t in l.last && Num(l.missing, t) + Num(l.routed, t) + u == l.last[t] + 1 - first
  }

  ghost predicate Balanced(l: Ledger, t: string, first: nat) {
    BalancedBut(l, t, first, 0)
  }

  /** 1 for a frame that route neither took nor refused. */
  function Odd(answer: Answer): nat {
    if answer in {Took, Refused} then 0 else 1
  }

  /** One frame with a higher number keeps the balance, except that a frame without a verdict is in no account. */
  lemma HigherKeepsBalance(l: Ledger, t: string, first: nat, u: nat, s: nat, answer: Answer)
    requires BalancedBut(l, t, first, u) && s > l.last[t]
    ensures var l' := Process(l, Data(t, s), answer);
            BalancedBut(l', t, first, u + Odd(answer)) && l'.last[t] == if answer == Refused then s - 1 else s
  {
  }

  /**
   The balance survives a frame exactly when route took it and its number is
   above the baseline, or refused it and its number is not the baseline, or gave
   no verdict and its number is not above the baseline.
   */
  lemma BalanceKeptIff(l: Ledger, t: string, first: nat, s: nat, answer: Answer)
    requires Balanced(l, t, first)
    ensures Balanced(Process(l, Data(t, s), answer), t, first) <==>
            match answer
            case Took => s > l.last[t]
            case Refused => s != l.last[t]
            case _ => s <= l.last[t]
  {
  }

  lemma FirstFrameBalances(l: Ledger, t: string, s: nat, answer: Answer)
    requires t !in l.last && Num(l.missing, t) == 0 == Num(l.routed, t)
    ensures var l' := Process(l, Data(t, s), answer);
            BalancedBut(l', t, s, Odd(answer)) && l'.last[t] == if answer == Refused then s - 1 else s
  {
  }

  /** Frames of topic t for which route gave no verdict. */
  ghost function Unsettled(batch: seq<Arrival>, t: string): nat {
    if batch == [] then 0
    else
      var a := batch[|batch| - 1];
      Unsettled(batch[..|batch| - 1], t) + (if IsOf(a, t) then Odd(a.answer.value) else 0)
  }

  ghost predicate SameFor(l: Ledger, l': Ledger, t: string) {
    && (t in l'.last <==> t in l.last) && (t in l.last ==> l'.last[t] == l.last[t])
    && Num(l'.missing, t) == Num(l.missing, t) && Num(l'.routed, t) == Num(l.routed, t)
    && Num(l'.drops, t) == Num(l.drops, t)
  }

  lemma TrackOther(l: Ledger, u: string, s: nat, t: string)
    requires u != t
    ensures SameFor(l, Track(l, u, s), t)
  {
  }

  lemma SettleOther(l: Ledger, u: string, s: nat, answer: Answer, t: string)
    requires u != t
    ensures SameFor(l, Settle(l, u, s, answer), t)
  {
  }

  lemma OtherTopicUntouched(l: Ledger, a: Arrival, t: string)
    requires !IsOf(a, t)
    ensures SameFor(l, Visit(l, a), t)
  {
    hide Track, Settle;
    if a.event.Data? && a.answer.Some? {
      var u, s := a.event.topic, a.event.seqNo;
      TrackOther(l, u, s, t);
      SettleOther(Track(l, u, s), u, s, a.answer.value, t);
    }
  }

  /**
   For strictly increasing numbers and whatever route comes to, after every
   frame: missing + routed + the frames without a verdict = baseline + 1 - first
   observed.  So the balance holds exactly while there are none of those.  The
   baseline is the newest number, less one if that frame was refused.
   */
  lemma {:induction false} LedgerInvariant(batch: seq<Arrival>, t: string)
    requires Increasing(batch, t)
    ensures var l := ProcessAll(EMPTY, batch);
            match Newest(batch, t)
            case None => t !in l.last && Num(l.missing, t) == 0 == Num(l.routed, t) && Unsettled(batch, t) == 0
            case Some(a) =>
              && FirstSeq(batch, t).Some? && IsOf(a, t)
              && BalancedBut(l, t, FirstSeq(batch, t).value, Unsettled(batch, t))
              && (Balanced(l, t, FirstSeq(batch, t).value) <==> Unsettled(batch, t) == 0)
              && l.last[t] == a.event.seqNo - (if a.answer == Some(Refused) then 1 else 0)
  {
    NewestIsThere(batch, t);
    if batch != [] {
      hide Process;
      var n := |batch| - 1;
      var before, a := batch[..n], batch[n];
      LedgerInvariant(before, t);
      NewestIsThere(before, t);
      var l := ProcessAll(EMPTY, before);
      if !IsOf(a, t) {
        OtherTopicUntouched(l, a, t);
        SameBalance(l, Visit(l, a), t);
      } else if Newest(before, t).None? {
        FirstFrameBalances(l, t, a.event.seqNo, a.answer.value);
      } else {
        HigherKeepsBalance(l, t, FirstSeq(before, t).value, Unsettled(before, t), a.event.seqNo, a.answer.value);
      }
    }
  }

  lemma SameBalance(l: Ledger, l': Ledger, t: string)
    requires SameFor(l, l', t)
    ensures forall first, u :: BalancedBut(l', t, first, u) <==> BalancedBut(l, t, first, u)
  {
  }

  // ----- reporting -----

  /** Losses not reported yet, per topic. */
  function Delta(l: Ledger, t: string): nat {
    if Num(l.missing, t) > Num(l.reported, t) then Num(l.missing, t) - Num(l.reported, t) else 0
  }

  /** A heartbeat reports the losses since the last one and remembers the totals. */
  function Report(l: Ledger): (map<string, nat>, Ledger) {
    (map t | t in l.missing && Delta(l, t) > 0 :: Delta(l, t),
     l.(reported := l.reported + l.missing))
  }

  datatype Op = Batch(arrivals: seq<Arrival>) | Heartbeat

  function Apply(l: Ledger, op: Op): Ledger {
    match op
    case Batch(b) => ProcessAll(l, b)
    case Heartbeat => Report(l).1
  }

  function RunOps(ops: seq<Op>): Ledger {
    if ops == [] then EMPTY else Apply(RunOps(ops[..|ops| - 1]), ops[|ops| - 1])
  }

  /** Everything reported about topic t. */
  ghost function ReportedSum(ops: seq<Op>, t: string): nat {
    if ops == [] then 0
    else
      var n := |ops| - 1;
      ReportedSum(ops[..n], t) + (if ops[n].Heartbeat? then Num(Report(RunOps(ops[..n])).0, t) else 0)
  }

  lemma TrackOnlyAddsMissing(l: Ledger, u: string, s: nat, t: string)
    ensures Num(Track(l, u, s).missing, t) >= Num(l.missing, t) && Track(l, u, s).reported == l.reported
  {
  }

  lemma VisitOnlyAddsMissing(l: Ledger, a: Arrival, t: string)
    ensures Num(Visit(l, a).missing, t) >= Num(l.missing, t) && Visit(l, a).reported == l.reported
  {
    hide Track, Num;
    if a.event.Data? {
      TrackOnlyAddsMissing(l, a.event.topic, a.event.seqNo, t);
    }
  }

  lemma {:induction false} ProcessOnlyAddsMissing(l: Ledger, b: seq<Arrival>, t: string)
    ensures Num(ProcessAll(l, b).missing, t) >= Num(l.missing, t)
    ensures ProcessAll(l, b).reported == l.reported
  {
    if b != [] {
      hide Visit;
      ProcessOnlyAddsMissing(l, b[..|b| - 1], t);
      VisitOnlyAddsMissing(ProcessAll(l, b[..|b| - 1]), b[|b| - 1], t);
    }
  }

  /** The reported deltas add up to the missing total of the last heartbeat. */
  lemma {:induction false} ReportsAddUp(ops: seq<Op>, t: string)
    ensures var l := RunOps(ops);
            ReportedSum(ops, t) == Num(l.reported, t) <= Num(l.missing, t)
    ensures ops != [] && ops[|ops| - 1].Heartbeat? ==>
              ReportedSum(ops, t) == Num(RunOps(ops).missing, t)
  {
    if ops != [] {
      var n := |ops| - 1;
      ReportsAddUp(ops[..n], t);
      var l := RunOps(ops[..n]);
      match ops[n] {
        case Batch(b) => ProcessOnlyAddsMissing(l, b, t);
        case Heartbeat =>
          assert t in l.missing ==> Num(Report(l).1.reported, t) == l.missing[t];
          assert Num(Report(l).0, t) == Delta(l, t);
      }
    }
  }

  // ----- the object -----

  /** An exception has ended the batch. */
  predicate Stopped(batch: seq<Arrival>) {
    batch != [] &&
    (var a := batch[|batch| - 1]; a.answer.None? || (a.event.Data? && a.answer == Some(Raised)))
  }

  /**
   The arrivals of a batch; answers[i] is what routing frame i would come to.
   Behind a frame whose routing raises, the rest of the batch is dropped unseen.
   */
  ghost function Arrivals<D>(env: Env<D>, frames: seq<seq<byte>>, answers: seq<Answer>): (r: seq<Arrival>)
    requires |answers| == |frames|
    ensures |r| == |frames|
    ensures forall i | 0 <= i < |r| :: r[i].event == Classify(env, frames[i])
    decreases |frames|
  {
    if frames == [] then []
    else
      var n := |frames| - 1;
      var before := Arrivals(env, frames[..n], answers[..n]);
      before + [Arrival(Classify(env, frames[n]), if Stopped(before) then None else Some(answers[n]))]
  }

  /** The last arrival of a batch. */
  lemma LastArrival<D>(env: Env<D>, frames: seq<seq<byte>>, answers: seq<Answer>)
    requires |answers| == |frames| > 0
    ensures var n := |frames| - 1;
            var before, all := Arrivals(env, frames[..n], answers[..n]), Arrivals(env, frames, answers);
            && all[..n] == before
            && all[n] == Arrival(Classify(env, frames[n]), if Stopped(before) then None else Some(answers[n]))
  {
    hide Classify, Stopped;
  }

  lemma {:induction false} ArrivalsPrefix<D>(env: Env<D>, frames: seq<seq<byte>>, answers: seq<Answer>, k: nat)
    requires |answers| == |frames| && k <= |frames|
    ensures Arrivals(env, frames, answers)[..k] == Arrivals(env, frames[..k], answers[..k])
    decreases |frames|
  {
    hide Arrivals, Classify, Stopped;
    var n := |frames| - 1;
    var all := Arrivals(env, frames, answers);
    if k == |frames| {
      assert frames[..k] == frames && answers[..k] == answers && all[..k] == all;
    } else {
      LastArrival(env, frames, answers);
      ArrivalsPrefix(env, frames[..n], answers[..n], k);
      assert frames[..n][..k] == frames[..k] && answers[..n][..k] == answers[..k];
      assert all[..n][..k] == all[..k];
    }
  }

  lemma {:induction false} JoinedBatches<D>(env: Env<D>, a: seq<seq<byte>>, x: seq<Answer>,
                                            b: seq<seq<byte>>, y: seq<Answer>)
    requires |x| == |a| && |y| == |b| && !Stopped(Arrivals(env, a, x))
    ensures Arrivals(env, a + b, x + y) == Arrivals(env, a, x) + Arrivals(env, b, y)
    decreases |b|
  {
    hide *;
    if b == [] {
      NoMore(env, a, x, b, y);
    } else {
      var n := |b| - 1;
      JoinedBatches(env, a, x, b[..n], y[..n]);
      JoinedStep(env, a, x, b[..n], y[..n], b[n], y[n]);
      MoveOver(a, b);
      MoveOver(x, y);
    }
  }

  lemma NoMore<D>(env: Env<D>, a: seq<seq<byte>>, x: seq<Answer>, b: seq<seq<byte>>, y: seq<Answer>)
    requires |x| == |a| && |y| == |b| == 0
    ensures Arrivals(env, a + b, x + y) == Arrivals(env, a, x) + Arrivals(env, b, y)
  {
    hide Arrivals;
    assert a + b == a && x + y == x;
  }

  lemma MoveOver<T>(a: seq<T>, b: seq<T>)
    requires b != []
    ensures a + b[..|b| - 1] + [b[|b| - 1]] == a + b && b[..|b| - 1] + [b[|b| - 1]] == b
  {
  }

  /** One more frame at the end of a batch. */
  lemma OneMoreArrival<D>(env: Env<D>, frames: seq<seq<byte>>, answers: seq<Answer>, q: seq<byte>, r: Answer)
    requires |answers| == |frames|
    ensures Arrivals(env, frames + [q], answers + [r]) ==
            Arrivals(env, frames, answers) +
            [Arrival(Classify(env, q), if Stopped(Arrivals(env, frames, answers)) then None else Some(r))]
  {
    hide Classify, Stopped;
    assert (frames + [q])[..|frames|] == frames && (answers + [r])[..|answers|] == answers;
  }

  lemma JoinedStep<D>(env: Env<D>, a: seq<seq<byte>>, x: seq<Answer>, b: seq<seq<byte>>, y: seq<Answer>,
                      q: seq<byte>, r: Answer)
    requires |x| == |a| && |y| == |b| && !Stopped(Arrivals(env, a, x))
    requires Arrivals(env, a + b, x + y) == Arrivals(env, a, x) + Arrivals(env, b, y)
    ensures Arrivals(env, a + b + [q], x + y + [r]) == Arrivals(env, a, x) + Arrivals(env, b + [q], y + [r])
  {
    hide *;
    OneMoreArrival(env, a + b, x + y, q, r);
    OneMoreArrival(env, b, y, q, r);
    var first, rest := Arrivals(env, a, x), Arrivals(env, b, y);
    JoinedStop(first, rest);
    var last := [Arrival(Classify(env, q), if Stopped(rest) then None else Some(r))];
    assert first + rest + last == first + (rest + last);
  }

  lemma JoinedStop(a: seq<Arrival>, b: seq<Arrival>)
    requires !Stopped(a)
    ensures Stopped(a + b) == Stopped(b)
  {
    if b == [] {
      assert a + b == a;
    }
  }

  /** Received as one batch or as two: the same, unless routing raises in the first. */
  lemma CutsDoNotMatter<D>(env: Env<D>, l: Ledger, a: seq<seq<byte>>, x: seq<Answer>, b: seq<seq<byte>>, y: seq<Answer>)
    requires |x| == |a| && |y| == |b| && !Stopped(Arrivals(env, a, x))
    ensures ProcessAll(l, Arrivals(env, a + b, x + y)) ==
            ProcessAll(ProcessAll(l, Arrivals(env, a, x)), Arrivals(env, b, y))
  {
    JoinedBatches(env, a, x, b, y);
    BatchesDoNotMatter(l, Arrivals(env, a, x), Arrivals(env, b, y));
  }

  /** What follows the exception changes nothing. */
  lemma {:induction false} RestIsUnseen<D>(env: Env<D>, l: Ledger, frames: seq<seq<byte>>, answers: seq<Answer>, k: nat)
    requires |answers| == |frames| && k <= |frames|
    requires Stopped(Arrivals(env, frames[..k], answers[..k]))
    ensures Stopped(Arrivals(env, frames, answers))
    ensures ProcessAll(l, Arrivals(env, frames, answers)) == ProcessAll(l, Arrivals(env, frames[..k], answers[..k]))
    decreases |frames|
  {
    hide Arrivals, Classify, Process;
    var n := |frames| - 1;
    if k == |frames| {
      assert frames[..k] == frames && answers[..k] == answers;
    } else {
      assert frames[..n][..k] == frames[..k] && answers[..n][..k] == answers[..k];
      RestIsUnseen(env, l, frames[..n], answers[..n], k);
      LastArrival(env, frames, answers);
    }
  }

  /** The report and the totals remembered when the topics in done have been visited. */
  ghost function DeltasOf(l: Ledger, done: set<string>): map<string, nat> {
    map t | t in done && Delta(l, t) > 0 :: Delta(l, t)
  }

  ghost function TotalsOf(l: Ledger, done: set<string>): map<string, nat>
    requires done <= l.missing.Keys
  {
    l.reported + map t | t in done :: l.missing[t]
  }

  lemma VisitTotals(l: Ledger, done: set<string>, t: string)
    requires done <= l.missing.Keys && t in l.missing && t !in done
    ensures Num(TotalsOf(l, done), t) == Num(l.reported, t)
    ensures TotalsOf(l, done + {t}) == TotalsOf(l, done)[t := l.missing[t]]
  {
  }

  lemma VisitDeltas(l: Ledger, done: set<string>, t: string)
    requires t in l.missing && t !in done
    ensures DeltasOf(l, done + {t}) ==
            if Delta(l, t) > 0 then DeltasOf(l, done)[t := Delta(l, t)] else DeltasOf(l, done)
    ensures Delta(l, t) == if l.missing[t] > Num(l.reported, t) then l.missing[t] - Num(l.reported, t) else 0
  {
    DeltasGrow(l, done, t, Delta(l, t));
  }

  lemma DeltasGrow(l: Ledger, done: set<string>, t: string, d: nat)
    requires t !in done && d == Delta(l, t)
    ensures DeltasOf(l, done + {t}) == if d > 0 then DeltasOf(l, done)[t := d] else DeltasOf(l, done)
  {
    hide Delta;
    var grown := if d > 0 then DeltasOf(l, done)[t := d] else DeltasOf(l, done);
    assert forall k :: k in DeltasOf(l, done + {t}) <==> k in grown;
  }

  lemma NoneVisited(l: Ledger)
    ensures DeltasOf(l, {}) == map[] && TotalsOf(l, {}) == l.reported
  {
  }

  lemma AllVisited(l: Ledger)
    ensures (DeltasOf(l, l.missing.Keys), l.(reported := TotalsOf(l, l.missing.Keys))) == Report(l)
  {
    assert (map t | t in l.missing.Keys :: l.missing[t]) == l.missing;
  }

  lemma NothingStopped()
    ensures !Stopped([])
  {
  }

  lemma RaiseStops(batch: seq<Arrival>)
    requires batch != []
    requires var a := batch[|batch| - 1]; a.event.Data? && a.answer == Some(Raised)
    ensures Stopped(batch)
  {
  }

  lemma NoRaiseGoesOn(batch: seq<Arrival>)
    requires batch != []
    requires var a := batch[|batch| - 1]; a.answer.Some? && !(a.event.Data? && a.answer == Some(Raised))
    ensures !Stopped(batch)
  {
  }

  lemma IgnoredUnlessData(l: Ledger, e: Event, answer: Answer)
    ensures !e.Data? ==> Process(l, e, answer) == l
  {
  }

  /** While nothing has raised, the next arrival has its answer. */
  lemma NextArrival<D>(env: Env<D>, frames: seq<seq<byte>>, answers: seq<Answer>, i: nat)
    requires |answers| == |frames| && i < |frames|
    requires !Stopped(Arrivals(env, frames, answers)[..i])
    ensures Arrivals(env, frames, answers)[i] == Arrival(Classify(env, frames[i]), Some(answers[i]))
  {
    hide Stopped, Classify;
    ArrivalsPrefix(env, frames, answers, i);
    ArrivalsPrefix(env, frames, answers, i + 1);
    assert frames[..i + 1][..i] == frames[..i] && answers[..i + 1][..i] == answers[..i];
    assert Arrivals(env, frames, answers)[i] == Arrivals(env, frames, answers)[..i + 1][i];
  }

  class GapTracker<D> {
    const env: Env<D>
    var gapLast: map<string, int>
    var gapMissing: map<string, nat>
    var gapReported: map<string, nat>
    var received: map<string, nat>
    var routeDrops: map<string, nat>

    ghost function Model(): Ledger
      reads this
    {
      Ledger(gapLast, gapMissing, gapReported, received, routeDrops)
    }

    constructor (env: Env<D>)
      ensures Model() == EMPTY && this.env == env
    {
      this.env := env;
      gapLast, gapMissing, gapReported, received, routeDrops := map[], map[], map[], map[], map[];
    }

    /**
     The receive loop over one batch; answers[i] is what routing frame i would
     come to.  An exception leaves the loop, and the caller.
     */
    method ProcessBatch(frames: seq<seq<byte>>, answers: seq<Answer>) returns (raised: bool)
      requires |answers| == |frames|
      modifies this
      ensures Model() == ProcessAll(old(Model()), Arrivals(env, frames, answers))
      ensures raised == Stopped(Arrivals(env, frames, answers))
    {
      hide Process, Stopped;
      ghost var arrivals := Arrivals(env, frames, answers);
      assert !Stopped([]) by { NothingStopped(); }
      for i := 0 to |frames|
        invariant Model() == ProcessAll(old(Model()), arrivals[..i]) && !Stopped(arrivals[..i])
      {
        ghost var before, now := arrivals[..i], arrivals[..i + 1];
        assert now[..i] == before;
        NextArrival(env, frames, answers, i);
        var e := Classify(env, frames[i]);
        match e {
          case Junk =>
          case Control =>
          case Data(topic, s) => OnData(topic, s, answers[i]);
        }
        assert Model() == ProcessAll(old(Model()), now) by {
          IgnoredUnlessData(ProcessAll(old(Model()), before), e, answers[i]);
        }
        if e.Data? && answers[i] == Raised {
          assert Stopped(now) by { RaiseStops(now); }
          ArrivalsPrefix(env, frames, answers, i + 1);
          RestIsUnseen(env, old(Model()), frames, answers, i + 1);
          return true;
        }
        assert !Stopped(now) by { NoRaiseGoesOn(now); }
      }
      assert arrivals[..|frames|] == arrivals;
      return false;
    }

    method OnData(topic: string, s: nat, answer: Answer)
      modifies this
      ensures Model() == Process(old(Model()), Data(topic, s), answer)
    {
      hide Num;
      TrackGap(topic, s);
      hide Track;
      if answer == NoPool || answer == Raised {
        return;
      }
      if answer == Took {
        received := received[topic := Num(received, topic) + 1];
      } else {
        routeDrops := routeDrops[topic := Num(routeDrops, topic) + 1];
        if topic in gapLast && gapLast[topic] == s {
          gapLast := gapLast[topic := s - 1];
        }
      }
    }

    method TrackGap(topic: string, s: nat)
      modifies this
      ensures Model() == Track(old(Model()), topic, s)
    {
      hide Num;
      if topic in gapLast && s > gapLast[topic] + 1 {
        gapMissing := gapMissing[topic := Num(gapMissing, topic) + (s - gapLast[topic] - 1)];
      }
      if topic !in gapLast || s > gapLast[topic] {
        gapLast := gapLast[topic := s];
      }
    }

    method DrainGapReport() returns (delta: map<string, nat>)
      modifies this`gapReported
      ensures (delta, Model()) == Report(old(Model()))
    {
      hide DeltasOf, TotalsOf, Report, Num;
      delta := map[];
      ghost var before := Model();
      ghost var done: set<string> := {};
      assert delta == DeltasOf(before, {}) && gapReported == TotalsOf(before, {}) by { NoneVisited(before); }
      var todo := gapMissing.Keys;
      while todo != {}
        invariant done + todo == gapMissing.Keys && done !! todo
        invariant delta == DeltasOf(before, done) && gapReported == TotalsOf(before, done)
        decreases todo
      {
        var topic :| topic in todo;
        VisitTotals(before, done, topic);
        VisitDeltas(before, done, topic);
        var total := gapMissing[topic];
        var d: int := total - Num(gapReported, topic);
        if d > 0 {
          delta := delta[topic := d];
        }
        gapReported := gapReported[topic := total];
        todo, done := todo - {topic}, done + {topic};
      }
      assert done == gapMissing.Keys;
      AllVisited(before);
    }
  }
}
