/**
 The client's reconnect loop.  Every await may finish, fail or be cancelled, and
 a stop may be requested at any time; the script says what happens in each turn.
 Transports are numbered; dialled are those a connect was called on, closed those
 a close was called on.
 */
module Reconnect {
  import opened Wrappers

  datatype Outcome = Done | Failed | Cancelled

  datatype Verdict = HandshakeOk | AuthFailed | NoVerdict | VerdictCancelled

  /** One turn of the loop, as the environment plays it. */
  datatype Turn = Turn(
    stopFirst: bool,           // a stop is requested before the turn begins
    connect: Outcome,          // connecting the data plane
    verdict: Verdict,          // what the monitor reports
    control: Outcome,          // connecting the control plane
    register: Outcome,         // REGISTER
    subscribes: seq<Outcome>,  // restoring the subscriptions, one after the other
    closeCancelled: bool,      // cancelled while closing the failed transport
    sleepCancelled: bool)      // cancelled while backing off

  datatype Exit = Committed | AuthFatal | Stopped | CancelledExit

  function FirstNotDone(os: seq<Outcome>): Outcome {
    if os == [] then Done else if os[0] != Done then os[0] else FirstNotDone(os[1..])
  }

  /** How the part after the handshake ends: at the first await that does not finish. */
  function Restored(turn: Turn): Outcome {
    FirstNotDone([turn.control, turn.register] + turn.subscribes)
  }

  lemma {:induction false} AllDone(os: seq<Outcome>)
    ensures FirstNotDone(os) == Done <==> forall i | 0 <= i < |os| :: os[i] == Done
  {
    if os != [] {
      AllDone(os[1..]);
      assert forall i | 1 <= i < |os| :: os[i] == os[1..][i - 1];
    }
  }

  /** The turn gets through the handshake and everything after it. */
  predicate Commits(turn: Turn) {
    turn.connect == Done && turn.verdict == HandshakeOk && AllRestored(turn)
  }

  predicate AllRestored(turn: Turn) {
    turn.control == Done && turn.register == Done && forall i | 0 <= i < |turn.subscribes| :: turn.subscribes[i] == Done
  }

  /** A cancellation arrives at an await before the turn has failed or committed. */
  predicate CutShort(turn: Turn) {
    turn.connect == Cancelled ||
    (turn.connect == Done && (turn.verdict == VerdictCancelled ||
                              (turn.verdict == HandshakeOk && Restored(turn) == Cancelled)))
  }

  /** How a turn ends the loop, if it does. */
  function EndsAs(turn: Turn): Option<Exit> {
    if Commits(turn) then Some(Committed)
    else if turn.connect == Done && turn.verdict == AuthFailed && !turn.closeCancelled then Some(AuthFatal)
    else if CutShort(turn) || turn.closeCancelled then Some(CancelledExit)
    else None
  }

  /** How the whole script ends. */
  function Played(script: seq<Turn>): Exit {
    if script == [] || script[0].stopFirst then Stopped
    else if EndsAs(script[0]).Some? then EndsAs(script[0]).value
    else if script[0].sleepCancelled then CancelledExit
    else Played(script[1..])
  }

  /** How often it sleeps: once after every turn that neither ends the loop nor is preceded by a stop. */
  function Slept(script: seq<Turn>): nat {
    if script == [] || script[0].stopFirst || EndsAs(script[0]).Some? then 0
    else if script[0].sleepCancelled then 1
    else 1 + Slept(script[1..])
  }

  function Times(a: real, b: real): real {
    a * b
  }

  function Power(m: real, k: nat): real {
    if k == 0 then 1.0 else Times(Power(m, k - 1), m)
  }

  function Min(a: real, b: real): real {
    if a <= b then a else b
  }

  /** The k-th delay as the loop computes it. */
  function Delay(initial: real, mult: real, max: real, k: nat): real {
    if k == 0 then initial else Min(Times(Delay(initial, mult, max, k - 1), mult), max)
  }

  /** The uncapped k-th delay. */
  function Exponential(initial: real, mult: real, k: nat): real {
    if k == 0 then initial else Times(Exponential(initial, mult, k - 1), mult)
  }

  lemma {:induction false} ExponentialIsPower(initial: real, mult: real, k: nat)
    ensures Exponential(initial, mult, k) == Times(initial, Power(mult, k))
  {
    if k > 0 {
      hide Times;
      ExponentialIsPower(initial, mult, k - 1);
      Associates(initial, Power(mult, k - 1), mult);
    } else {
      TimesOne(initial);
    }
  }

  lemma TimesOne(a: real)
    ensures Times(a, 1.0) == a == Times(1.0, a)
  {
  }

  lemma Associates(a: real, p: real, m: real)
    ensures Times(a, Times(p, m)) == Times(Times(a, p), m)
  {
  }

  lemma Scale(a: real, b: real, m: real)
    requires a <= b && m >= 0.0
    ensures Times(a, m) <= Times(b, m) && Times(m, a) <= Times(m, b)
  {
  }

  lemma TimesZero(m: real)
    ensures Times(0.0, m) == 0.0 == Times(m, 0.0)
  {
  }

  lemma {:induction false} ShrinkingStaysBelow(initial: real, mult: real, k: nat)
    requires 0.0 <= initial && 0.0 <= mult <= 1.0
    ensures 0.0 <= Exponential(initial, mult, k) <= initial
  {
    if k > 0 {
      hide Times;
      var e := Exponential(initial, mult, k - 1);
      ShrinkingStaysBelow(initial, mult, k - 1);
      Scale(mult, 1.0, e);
      TimesOne(e);
      Scale(0.0, mult, e);
      TimesZero(e);
    }
  }

  /** The k-th delay is the exponential capped at the maximum, when the first one is within it. */
  lemma {:induction false} DelayIsCapped(initial: real, mult: real, max: real, k: nat)
    requires 0.0 <= initial <= max && mult >= 0.0
    ensures Delay(initial, mult, max, k) == Min(Exponential(initial, mult, k), max)
  {
    if k > 0 {
      hide Times;
      var e := Exponential(initial, mult, k - 1);
      DelayIsCapped(initial, mult, max, k - 1);
      if e > max {
        Scale(max, e, mult);
        if mult >= 1.0 {
          Scale(1.0, mult, max);
          TimesOne(max);
        } else {
          ShrinkingStaysBelow(initial, mult, k - 1);
        }
      }
    }
  }

  /** All delays are min(initial * mult^k, max) exactly when the first does not exceed the maximum. */
  lemma DelayFormulaIff(initial: real, mult: real, max: real)
    requires 0.0 <= initial && mult >= 0.0
    ensures (forall k: nat :: Delay(initial, mult, max, k) == Min(Times(initial, Power(mult, k)), max)) <==>
            initial <= max
  {
    hide Times, Min, Power, Exponential, Delay;
    if initial <= max {
      forall k: nat
        ensures Delay(initial, mult, max, k) == Min(Times(initial, Power(mult, k)), max)
      {
        DelayIsCapped(initial, mult, max, k);
        ExponentialIsPower(initial, mult, k);
      }
    } else {
      FirstDelayTooLong(initial, mult, max);
    }
  }

  lemma FirstDelayTooLong(initial: real, mult: real, max: real)
    requires initial > max
    ensures Delay(initial, mult, max, 0) != Min(Times(initial, Power(mult, 0)), max)
  {
    TimesOne(initial);
  }

  class ReconnectingClient {
    const initialDelay: real
    const maxDelay: real
    const multiplier: real
    var transport: nat          // _transport
    var nextId: nat
    var dialled: set<nat>
    var closed: set<nat>
    var connected: bool
    var authenticated: bool
    var reconnecting: bool
    var stop: bool
    var fatal: bool
    var sleeps: seq<real>       // the delays slept, in order

    /** Transports are only dialled after they have been created. */
    ghost predicate Valid()
      reads this
    {
      transport < nextId && (forall t | t in dialled :: t < nextId) && (forall t | t in closed :: t < nextId)
    }

    constructor (initialDelay: real, maxDelay: real, multiplier: real)
      ensures Valid() && dialled == {} == closed && reconnecting && !stop
    {
      this.initialDelay, this.maxDelay, this.multiplier := initialDelay, maxDelay, multiplier;
      transport, nextId, dialled, closed := 0, 1, {}, {};
      connected, authenticated, reconnecting, stop, fatal := false, false, true, false, false;
      sleeps := [];
    }

    method NewTransport() returns (t: nat)
      requires Valid()
      modifies this`nextId
      ensures Valid() && t == old(nextId) && nextId == t + 1
    {
      t := nextId;
      nextId := nextId + 1;
    }

    method SafeClose(t: nat)
      modifies this`closed
      ensures closed == old(closed) + {t}
    {
      closed := closed + {t};
    }

    /** Sleeps and computes the next delay. */
    method BackOff(delay: real) returns (next: real)
      modifies this`sleeps
      ensures sleeps == old(sleeps) + [delay]
      ensures next == Min(Times(delay, multiplier), maxDelay)
    {
      sleeps := sleeps + [delay];
      next := Min(Times(delay, multiplier), maxDelay);
    }

    /** The handler for cancellation: closes what is not committed yet. */
    method OnCancel(inFlight: Option<nat>)
      modifies this`closed, this`reconnecting
      ensures closed == old(closed) + (if inFlight.Some? then {inFlight.value} else {})
      ensures !reconnecting
    {
      if inFlight.Some? {
        SafeClose(inFlight.value);
      }
      reconnecting := false;
    }

    /** Every dialled transport is closed, still in flight, or of an earlier life of the client. */
    ghost predicate NoOrphan(before: set<nat>, inFlight: Option<nat>)
      reads this
    {
      dialled - before <= closed + (if inFlight.Some? then {inFlight.value} else {})
    }

    /** Control connect, REGISTER, and one SUBSCRIBE per remembered pattern. */
    method Restore(turn: Turn) returns (o: Outcome)
      ensures o == Restored(turn)
      ensures o == Done <==> AllRestored(turn)
    {
      var os := [turn.control, turn.register] + turn.subscribes;
      AllDone(os);
      assert Restored(turn) == Done ==>
               forall i | 0 <= i < |turn.subscribes| :: turn.subscribes[i] == os[i + 2] == Done;
      if turn.control != Done {
        return turn.control;
      }
      assert os[1..] == [turn.register] + turn.subscribes;
      if turn.register != Done {
        return turn.register;
      }
      assert os[1..][1..] == turn.subscribes;
      o := Done;
      var i := 0;
      while i < |turn.subscribes| && o == Done
        invariant i <= |turn.subscribes|
        invariant FirstNotDone(turn.subscribes) == if o == Done then FirstNotDone(turn.subscribes[i..]) else o
      {
        assert turn.subscribes[i..][0] == turn.subscribes[i] && turn.subscribes[i..][1..] == turn.subscribes[i + 1..];
        o := turn.subscribes[i];
        i := i + 1;
      }
    }

    /** One turn up to the point where it backs off, commits or ends; t is the transport it dials. */
    method Attempt(turn: Turn) returns (exit: Option<Exit>, t: nat)
      requires Valid()
      modifies this`transport, this`nextId, this`dialled, this`closed, this`connected, this`authenticated,
               this`reconnecting, this`stop, this`fatal
      ensures Valid() && t == old(nextId) && dialled == old(dialled) + {t}
      ensures closed == old(closed) + (if exit == Some(Committed) then {} else {t})
      ensures exit == Some(Committed) ==> transport == t && connected && authenticated && !fatal
      ensures exit == Some(AuthFatal) ==> fatal && stop
      ensures exit.Some? ==> !reconnecting && exit != Some(Stopped)
      ensures exit != Some(Committed) ==> connected == old(connected) && authenticated == old(authenticated)
      ensures exit != Some(AuthFatal) ==> stop == old(stop)
      // which turns end the loop, and how
      ensures exit == Some(Committed) <==> Commits(turn)
      ensures exit == Some(AuthFatal) <==>
                turn.connect == Done && turn.verdict == AuthFailed && !turn.closeCancelled
      ensures exit == Some(CancelledExit) <==> CutShort(turn) || (!Commits(turn) && turn.closeCancelled)
      ensures exit == EndsAs(turn)
    {
      hide Restored, AllRestored;
      t := NewTransport();
      var inFlight := Some(t);
      var restored := Failed;
      dialled := dialled + {t};
      if turn.connect == Done {
        if turn.verdict == AuthFailed {
          var end := RefuseAuth(turn, t);
          return Some(end), t;
        }
        if turn.verdict == HandshakeOk {
          transport := t;
          restored := Restore(turn);
          if restored == Done {
            fatal, connected, authenticated, reconnecting := false, true, true, false;
            inFlight := None;
            return Some(Committed), t;
          }
        }
      }
      if turn.connect == Cancelled || (turn.connect == Done && (turn.verdict == VerdictCancelled ||
         (turn.verdict == HandshakeOk && restored == Cancelled))) {
        OnCancel(inFlight);
        return Some(CancelledExit), t;
      }
      exit := GiveUp(turn, t);
    }

    /** Wrong credentials are fatal: the transport is closed and the client told to stop. */
    method RefuseAuth(turn: Turn, t: nat) returns (exit: Exit)
      requires Valid() && t < nextId
      modifies this`closed, this`reconnecting, this`fatal, this`stop
      ensures Valid() && closed == old(closed) + {t} && !reconnecting
      ensures exit == if turn.closeCancelled then CancelledExit else AuthFatal
      ensures if turn.closeCancelled then fatal == old(fatal) && stop == old(stop) else fatal && stop
    {
      SafeClose(t);
      if turn.closeCancelled {
        OnCancel(Some(t));
        return CancelledExit;
      }
      fatal, stop, reconnecting := true, true, false;
      return AuthFatal;
    }

    /** The dial, the handshake or what follows it failed: the transport is closed, and replaced if it was in use. */
    method GiveUp(turn: Turn, t: nat) returns (exit: Option<Exit>)
      requires Valid() && t < nextId
      modifies this`transport, this`nextId, this`closed, this`reconnecting
      ensures Valid() && closed == old(closed) + {t}
      ensures exit == if turn.closeCancelled then Some(CancelledExit) else None
      ensures reconnecting == (old(reconnecting) && !turn.closeCancelled)
    {
      SafeClose(t);
      if turn.closeCancelled {
        OnCancel(Some(t));
        return Some(CancelledExit);
      }
      if turn.connect == Done && turn.verdict == HandshakeOk {
        transport := NewTransport();
      }
      return None;
    }

    /**
     However the turns go, each transport this loop dialled has been closed or is
     the committed one; the reconnecting flag is cleared; the k-th sleep is the
     k-th delay.  When the script ends a stop is requested.
     */
    method ReconnectLoop(script: seq<Turn>) returns (exit: Exit)
      requires Valid() && sleeps == []
      modifies this
      ensures Valid() && !reconnecting
      ensures NoOrphan(old(dialled), if exit == Committed then Some(transport) else None)
      ensures exit == Committed ==>
                && connected && authenticated && !fatal
                && transport in dialled && transport !in old(dialled) && transport !in closed
      ensures exit == AuthFatal ==> fatal && stop
      ensures exit == Stopped ==> stop
      ensures exit != Committed ==> connected == old(connected) && authenticated == old(authenticated)
      ensures !old(stop) ==> exit == Played(script) && |sleeps| == Slept(script)
      ensures |sleeps| <= |script|
      ensures forall k | 0 <= k < |sleeps| :: sleeps[k] == Delay(initialDelay, multiplier, maxDelay, k)
    {
      hide Delay, Times, Min, EndsAs, Commits, CutShort, Played, Slept;
      var delay := initialDelay;
      DelayStep(initialDelay, multiplier, maxDelay, 0);
      var i := 0;
      assert script[0..] == script;
      while i < |script| && !stop
        invariant Valid() && i <= |script| && |sleeps| <= i && stop == old(stop)
        invariant !stop ==> Played(script[i..]) == Played(script) && |sleeps| + Slept(script[i..]) == Slept(script)
        invariant NoOrphan(old(dialled), None) && old(dialled) <= dialled
        invariant connected == old(connected) && authenticated == old(authenticated)
        invariant delay == Delay(initialDelay, multiplier, maxDelay, |sleeps|)
        invariant forall k | 0 <= k < |sleeps| :: sleeps[k] == Delay(initialDelay, multiplier, maxDelay, k)
        decreases |script| - i
      {
        var turn := script[i];
        PlayOn(script, i);
        i := i + 1;
        if turn.stopFirst {
          stop, reconnecting := true, false;
          return Stopped;
        }
        var done, t := Attempt(turn);
        if done.Some? {
          return done.value;
        }
        DelayStep(initialDelay, multiplier, maxDelay, |sleeps|);
        delay := BackOff(delay);
        if turn.sleepCancelled {
          OnCancel(None);
          return CancelledExit;
        }
      }
      PlayedOut(script, i);
      stop := true;
      reconnecting := false;
      return Stopped;
    }
  }

  /** How the rest of the script is played. */
  lemma PlayOn(script: seq<Turn>, i: nat)
    requires i < |script|
    ensures var turn := script[i];
            && (turn.stopFirst ==> Played(script[i..]) == Stopped && Slept(script[i..]) == 0)
            && (!turn.stopFirst && EndsAs(turn).Some? ==>
                  Played(script[i..]) == EndsAs(turn).value && Slept(script[i..]) == 0)
            && (!turn.stopFirst && EndsAs(turn).None? && turn.sleepCancelled ==>
                  Played(script[i..]) == CancelledExit && Slept(script[i..]) == 1)
            && (!turn.stopFirst && EndsAs(turn).None? && !turn.sleepCancelled ==>
                  Played(script[i..]) == Played(script[i + 1..]) && Slept(script[i..]) == 1 + Slept(script[i + 1..]))
  {
    hide EndsAs;
    assert script[i..][0] == script[i] && script[i..][1..] == script[i + 1..];
  }

  lemma PlayedOut(script: seq<Turn>, i: nat)
    requires i <= |script|
    ensures i == |script| ==> Played(script[i..]) == Stopped && Slept(script[i..]) == 0
    ensures i < |script| && script[i].stopFirst ==> Played(script[i..]) == Stopped && Slept(script[i..]) == 0
  {
  }

  lemma DelayStep(initial: real, mult: real, max: real, k: nat)
    ensures Delay(initial, mult, max, 0) == initial
    ensures Delay(initial, mult, max, k + 1) == Min(Times(Delay(initial, mult, max, k), mult), max)
  {
  }
}
