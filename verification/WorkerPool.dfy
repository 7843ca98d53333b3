/**
 WorkerPool.route over shared-memory rings: shortest queue without a key and
 consistent hashing with one.  PoolProtocol covers router and workers running at
 the same time.
 */
module WorkerPools {
  import opened Wrappers
  import opened RingLayout
  import opened ShmRings
  import opened JumpHash

  datatype KeyMode = NoKey | TopicKey | PayloadKey

  /** The string a keyed frame is hashed by; a payload without a key falls back to its topic. */
  function RouteKey(mode: KeyMode, extract: (string, Payload) -> Option<string>,
                    topic: string, payload: Payload): string {
    if mode == TopicKey then topic
    else match extract(topic, payload) case Some(k) => k case None => topic
  }

  /** The frame has this key: its topic, or what the payload yields, or its topic when the payload yields nothing. */
  ghost predicate Carries(mode: KeyMode, extract: (string, Payload) -> Option<string>,
                          topic: string, payload: Payload, key: string) {
    || (mode == TopicKey && topic == key)
    || (mode == PayloadKey && extract(topic, payload) == Some(key))
    || (mode == PayloadKey && extract(topic, payload) == None && topic == key)
  }

  lemma RouteKeyIsCarried(mode: KeyMode, extract: (string, Payload) -> Option<string>,
                          topic: string, payload: Payload, key: string)
    requires mode != NoKey
    ensures RouteKey(mode, extract, topic, payload) == key <==> Carries(mode, extract, topic, payload, key)
  {
  }

  /** Ring i is the first of minimal backlog when counting from rr. */
  ghost predicate IsShortest(pend: seq<nat>, rr: nat, i: nat) {
    && i < |pend|
    && (forall j | 0 <= j < |pend| :: pend[i] <= pend[j])
    && exists k: nat :: k < |pend| && InTurn(rr, k, |pend|) == i &&
                        forall k': nat | k' < k :: pend[InTurn(rr, k', |pend|)] > pend[i]
  }

  function InTurn(rr: nat, k: nat, n: nat): (i: nat)
    requires n > 0
    ensures i < n
  {
    (rr + k) % n
  }

  /** The index route settles on for key=None. */
  method Shortest(pend: seq<nat>, rr: nat) returns (i: nat)
    requires pend != []
    ensures IsShortest(pend, rr, i)
  {
    var target := pend[0];
    ghost var at: nat := 0;
    for j := 1 to |pend|
      invariant at < |pend| && pend[at] == target
      invariant forall j' | 0 <= j' < j :: target <= pend[j']
    {
      if pend[j] < target {
        target, at := pend[j], j;
      }
    }
    var n := |pend|;
    ghost var hit := ReachedInTurn(rr, at, n);
    var k: nat := 0;
    while pend[InTurn(rr, k, n)] != target
      invariant k <= hit
      invariant forall k': nat | k' < k :: pend[InTurn(rr, k', n)] > target
      decreases hit - k
    {
      k := k + 1;
    }
    i := InTurn(rr, k, n);
  }

  lemma {:induction false} ReachedInTurn(rr: nat, i: nat, n: nat) returns (k: nat)
    requires i < n
    ensures k < n && InTurn(rr, k, n) == i
  {
    hide InTurn;
    if rr >= n {
      k := ReachedInTurn(rr - n, i, n);
      TurnsRepeat(rr, k, n);
    } else {
      k := if i >= rr then i - rr else i + n - rr;
      FirstTurns(rr, k, n);
    }
  }

  lemma TurnsRepeat(rr: nat, k: nat, n: nat)
    requires 0 < n <= rr
    ensures InTurn(rr, k, n) == InTurn(rr - n, k, n)
  {
    ModStep(rr + k, n);
  }

  lemma FirstTurns(rr: nat, k: nat, n: nat)
    requires rr < n && k < n
    ensures InTurn(rr, k, n) == if rr + k < n then rr + k else rr + k - n
  {
    PhysIsMod(rr + k, n);
    assert rr + k >= n ==> Phys(rr + k - n, n) == rr + k - n;
  }

  /** While all backlogs are tied, the ring is the round-robin counter's. */
  lemma TiedTakesTurn(pend: seq<nat>, rr: nat, i: nat)
    requires IsShortest(pend, rr, i)
    requires AllTied(pend)
    ensures i == InTurn(rr, 0, |pend|)
  {
  }

  ghost predicate AllTied(pend: seq<nat>) {
    forall j, k | 0 <= j < |pend| && 0 <= k < |pend| :: pend[j] == pend[k]
  }

  /** n routes in a row, each finding all n backlogs tied, visit every ring. */
  lemma TiedVisitsAll(rr: nat, n: nat, pends: seq<seq<nat>>, picks: seq<nat>, i: nat)
    requires |picks| == |pends| == n > i
    requires forall k | 0 <= k < n :: |pends[k]| == n && AllTied(pends[k]) && IsShortest(pends[k], rr + k, picks[k])
    ensures i in picks
  {
    var k := ReachedInTurn(rr, i, n);
    TiedTakesTurn(pends[k], rr + k, picks[k]);
    assert picks[k] == InTurn(rr + k, 0, n) == InTurn(rr, k, n);
  }

  class WorkerPool {
    const mode: KeyMode
    const crc: string -> nat
    const extract: (string, Payload) -> Option<string>
    const rings: seq<ShmRing>
    var rr: nat
    var routed: nat
    var writeFail: nat
    var keyFallback: nat
    var maxFrame: nat

    ghost predicate Valid()
      reads rings, set r | r in rings :: r.data
    {
      && rings != []
      && (forall i | 0 <= i < |rings| :: rings[i].Valid())
      && (forall i, j | 0 <= i < j < |rings| :: rings[i] != rings[j] && rings[i].data != rings[j].data)
    }

    /** What each ring holds. */
    ghost function Queues(): (q: seq<seq<Payload>>)
      reads rings
      ensures |q| == |rings|
    {
      seq(|rings|, i requires 0 <= i < |rings| reads rings => rings[i].Contents())
    }

    ghost function Pending(): (q: seq<int>)
      reads rings
      ensures |q| == |rings|
    {
      seq(|rings|, i requires 0 <= i < |rings| reads rings => rings[i].tail - rings[i].head)
    }

    constructor (mode: KeyMode, crc: string -> nat, extract: (string, Payload) -> Option<string>,
                 rings: seq<ShmRing>)
      requires rings != []
      requires forall i | 0 <= i < |rings| :: rings[i].Valid()
      requires forall i, j | 0 <= i < j < |rings| :: rings[i] != rings[j] && rings[i].data != rings[j].data
      ensures Valid() && this.rings == rings && this.mode == mode
      ensures this.crc == crc && this.extract == extract
    {
      this.mode, this.crc, this.extract, this.rings := mode, crc, extract, rings;
      rr, routed, writeFail, keyFallback, maxFrame := 0, 0, 0, 0, 1024;
    }

    method Backlogs() returns (pend: seq<nat>)
      requires Valid()
      ensures pend == Pending()
    {
      hide Holds, Payloads;
      pend := [];
      for i := 0 to |rings|
        invariant |pend| == i
        invariant forall j | 0 <= j < i :: pend[j] == rings[j].tail - rings[j].head
      {
        var p := rings[i].PendingBytes();
        pend := pend + [p];
      }
    }

    /** Picks the ring of one frame. */
    method Choose(topic: string, payload: Payload) returns (i: nat)
      requires Valid()
      modifies this`rr, this`keyFallback
      ensures Valid() && i < |rings|
      ensures forall key | Carries(mode, extract, topic, payload, key) :: i == WorkerOf(crc, key, |rings|)
      ensures mode == NoKey ==>
                exists pend: seq<nat> :: pend == Pending() && IsShortest(pend, old(rr), i)
      ensures rr == old(rr) + (if mode == NoKey then 1 else 0)
      ensures keyFallback == old(keyFallback) +
                (if mode == PayloadKey && extract(topic, payload).None? then 1 else 0)
    {
      match mode
      case NoKey =>
        var pend := Backlogs();
        i := Shortest(pend, rr);
        rr := rr + 1;
      case TopicKey =>
        i := StableWorkerIndex(crc, topic, |rings|);
      case PayloadKey =>
        match extract(topic, payload) {
          case Some(key) =>
            i := StableWorkerIndex(crc, key, |rings|);
          case None =>
            keyFallback := keyFallback + 1;
            i := StableWorkerIndex(crc, topic, |rings|);
        }
    }

    /** Routes one frame; a refused frame changes no queue. */
    method Route(topic: string, payload: Payload) returns (v: Verdict, ghost i: nat)
      requires Valid() && |payload| < PAD
      modifies this`rr, this`keyFallback, this`routed, this`writeFail, this`maxFrame,
               rings, set r | r in rings :: r.data
      ensures Valid() && i < |rings|
      ensures forall key | Carries(mode, extract, topic, payload, key) :: i == WorkerOf(crc, key, |rings|)
      ensures mode == NoKey ==>
                exists pend: seq<nat> :: pend == old(Pending()) && IsShortest(pend, old(rr), i)
      ensures rr == old(rr) + (if mode == NoKey then 1 else 0)
      ensures keyFallback == old(keyFallback) +
                (if mode == PayloadKey && extract(topic, payload).None? then 1 else 0)
      ensures v == old(rings[i].Answer(|payload|))
      ensures Queues() == if v.Stored? then old(Queues())[i := old(Queues())[i] + [payload]] else old(Queues())
      ensures routed == old(routed) + (if v.Overrun? then 0 else 1)
      ensures writeFail == old(writeFail) + (if v.Full? then 1 else 0)
      ensures maxFrame == if v.Stored? && |payload| > old(maxFrame) then |payload| else old(maxFrame)
    {
      hide WriteSpec, Carries, IsShortest, WorkerOf, ShmRing.Valid, ShmRing.Contents, ShmRing.Answer, Queues, Pending;
      var w := Choose(topic, payload);
      i := w;
      v := StoreIn(w, payload);
      if v.Overrun? {
        return;
      }
      routed := routed + 1;
      if v.Full? {
        writeFail := writeFail + 1;
      } else if |payload| > maxFrame {
        maxFrame := |payload|;
      }
    }

    /** Writes to ring i and touches no other ring. */
    method StoreIn(i: nat, payload: Payload) returns (v: Verdict)
      requires Valid() && i < |rings| && |payload| < PAD
      modifies rings[i], rings[i].data
      ensures Valid()
      ensures v == old(rings[i].Answer(|payload|))
      ensures Queues() == if v.Stored? then old(Queues())[i := old(Queues())[i] + [payload]] else old(Queues())
    {
      hide Holds, WriteSpec;
      ghost var before := Queues();
      v := rings[i].Write(payload);
      forall j | 0 <= j < |rings| && j != i
        ensures rings[j].Valid() && Queues()[j] == before[j]
      {
        assert old(rings[j].Valid());
      }
      assert Queues()[i] == before[i] + (if v.Stored? then [payload] else []);
    }
  }
}
