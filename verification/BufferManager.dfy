/**
 All subscriber buffers and their credit windows, as one thread sees them.
 CreditWindows covers the control thread acting in the middle of a drain.
 */
module BufferManagers {
  import opened Wrappers
  import opened Bytes
  import opened BufferModel
  import opened BufferRuns
  import opened SubscriberBuffers
  import CreditWindows

  type Ident = CreditWindows.Ident

  /** The mutable list [opened at, credit, used] behind one window. */
  class CreditWindow {
    ghost const ident: Ident
    const credit: int
    var used: nat

    constructor (ghost ident: Ident, credit: int)
      ensures this.ident == ident && this.credit == credit && used == 0
    {
      this.ident, this.credit, used := ident, credit, 0;
    }

    ghost predicate Spendable()
      reads this
    {
      used <= CreditWindows.Grant(CreditWindows.Window([], credit, 0))
    }
  }

  /** A client may only ask for a limit below the server's; 0 means none. */
  function Clamp(requested: int, cap: int): (r: int)
    ensures cap > 0 ==> 0 < r <= cap
    ensures cap <= 0 ==> r == if requested > 0 then requested else cap
    ensures 0 < requested && (cap <= 0 || requested <= cap) ==> r == requested
  {
    if requested <= 0 || cap <= 0 then (if requested > 0 then requested else cap)
    else if requested < cap then requested else cap
  }

  /** The same for the age limit, in seconds. */
  function ClampAge(requested: real, cap: real): (r: real)
    ensures cap > 0.0 ==> 0.0 < r <= cap
    ensures cap <= 0.0 ==> r == if requested > 0.0 then requested else cap
    ensures 0.0 < requested && (cap <= 0.0 || requested <= cap) ==> r == requested
  {
    if requested <= 0.0 || cap <= 0.0 then (if requested > 0.0 then requested else cap)
    else if requested < cap then requested else cap
  }

  // ----- the subscribers as values -----

  datatype Sub = Sub(buf: Buffer, starvedRounds: nat)

  /** What the manager holds: buffers, windows as (credit, used), and the count of starved turns. */
  datatype View = View(subs: map<Ident, Sub>, windows: map<Ident, (int, nat)>, starved: nat)

  function WindowIn(v: View, i: Ident): Option<(int, nat)> {
    if i in v.windows then Some(v.windows[i]) else None
  }

  /** A frame for a buffered subscriber; for others nothing happens. */
  function Queued(v: View, i: Ident, e: Entry): View {
    if i in v.subs then v.(subs := v.subs[i := Sub(Enqueue(v.subs[i].buf, e), v.subs[i].starvedRounds)]) else v
  }

  /** What one subscriber's turn in drain_all does: buffer, frames used of the window, frames sent, starved. */
  function Turn(b: Buffer, w: Option<(int, nat)>, credit: int, now: real, room: nat): (r: (Buffer, nat, nat, bool))
    ensures w.Some? ==> r.1 == w.value.1 + r.2
    ensures w.Some? && w.value.1 <= w.value.0 ==> r.1 <= w.value.0
    ensures w.None? && credit >= 0 ==> r.2 == 0
  {
    var used := if w.Some? then w.value.1 else 0;
    if b.held == [] then (b, used, 0, false)
    else if w.Some? then
      var budget := w.value.0 - used;
      if budget <= 0 then (b, used, 0, true)
      else
        var d := Drain(b, now, room, -1, budget);
        (d.0, used + d.1, d.1, false)
    else if credit >= 0 then (b, used, 0, false)
    else
      var d := Drain(b, now, room, -1, -1);
      (d.0, used + d.1, d.1, false)
  }

  /**
   Who is served: a subscriber with frames is held back exactly when its window is
   used up or its first credit is awaited; otherwise its buffer is drained until
   nothing more could go, within what its window has left.
   */
  lemma TurnServes(b: Buffer, w: Option<(int, nat)>, credit: int, now: real, room: nat)
    ensures var t := Turn(b, w, credit, now, room);
            var left := if w.Some? then w.value.0 - w.value.1 else -1;
            && (t.3 <==> b.held != [] && w.Some? && left <= 0)
            && (if t.3 || (w.None? && credit >= 0) then t.0 == b && t.2 == 0
                else NoneCouldGo(t.0, t.2, now, room, -1, left) && t.2 <= room &&
                     (w.Some? ==> 0 <= t.2 <= left || b.held == []))
            && (w.Some? ==> t.1 == w.value.1 + t.2)
  {
    hide Drain;
    if w.Some? {
      DrainSendsWhatItMay(b, now, room, -1, w.value.0 - w.value.1);
    }
    DrainSendsWhatItMay(b, now, room, -1, -1);
  }

  /** The same of every subscriber after drain_all, in whatever order they were visited; n is what it was sent. */
  lemma EverybodyIsServed(v: View, order: seq<Ident>, chance: Ident -> Chance, i: Ident) returns (n: nat)
    requires Distinct(order) && i in order && i in v.subs
    ensures var c, r := chance(i), Turns(v, order, chance).0;
            var b, w := v.subs[i].buf, WindowIn(v, i);
            var left := if w.Some? then w.value.0 - w.value.1 else -1;
            && i in r.subs
            && WindowIn(r, i) == (if w.Some? then Some((w.value.0, w.value.1 + n)) else None)
            && n <= c.room
            && (if w.Some? && left <= 0 && b.held != []
                then n == 0 && r.subs[i] == Sub(b, v.subs[i].starvedRounds + 1)
                else if w.None? && c.credit >= 0 then n == 0 && r.subs[i] == v.subs[i]
                else NoneCouldGo(r.subs[i].buf, n, c.now, c.room, -1, left))
  {
    hide *;
    TurnsAreIndependent(v, order, chance);
    n := ServedInTurn(v, Turns(v, order, chance).0, i, chance(i));
  }

  lemma ServedInTurn(v: View, r: View, i: Ident, c: Chance) returns (n: nat)
    requires i in v.subs && HadOwnTurn(v, r, i, c)
    ensures var b, w := v.subs[i].buf, WindowIn(v, i);
            var left := if w.Some? then w.value.0 - w.value.1 else -1;
            && i in r.subs
            && WindowIn(r, i) == (if w.Some? then Some((w.value.0, w.value.1 + n)) else None)
            && n <= c.room
            && (if w.Some? && left <= 0 && b.held != []
                then n == 0 && r.subs[i] == Sub(b, v.subs[i].starvedRounds + 1)
                else if w.None? && c.credit >= 0 then n == 0 && r.subs[i] == v.subs[i]
                else NoneCouldGo(r.subs[i].buf, n, c.now, c.room, -1, left))
  {
    TurnServes(v.subs[i].buf, WindowIn(v, i), c.credit, c.now, c.room);
    hide Turn, NoneCouldGo;
    n := OwnTurn(v, i, c).2;
  }

  /** What the environment gives a turn: the credit table's entry, the clock, the room in the socket. */
  datatype Chance = Chance(credit: int, now: real, room: nat)

  function OwnTurn(v: View, i: Ident, c: Chance): (Buffer, nat, nat, bool)
    requires i in v.subs
  {
    Turn(v.subs[i].buf, WindowIn(v, i), c.credit, c.now, c.room)
  }

  /** Subscriber i has its turn; the second component is what it sent. */
  function TurnOf(v: View, i: Ident, c: Chance): (View, nat) {
    if i !in v.subs then (v, 0)
    else
      var t := OwnTurn(v, i, c);
      (View(v.subs[i := Sub(t.0, v.subs[i].starvedRounds + (if t.3 then 1 else 0))],
            if i in v.windows then v.windows[i := (v.windows[i].0, t.1)] else v.windows,
            v.starved + (if t.3 then 1 else 0)), t.2)
  }

  /** drain_all over these subscribers, in this order. */
  function Turns(v: View, order: seq<Ident>, chance: Ident -> Chance): (View, nat) {
    if order == [] then (v, 0)
    else
      var k := |order| - 1;
      var (before, sent) := Turns(v, order[..k], chance);
      var (after, n) := TurnOf(before, order[k], chance(order[k]));
      (after, sent + n)
  }

  ghost predicate Distinct(order: seq<Ident>) {
    forall j, k | 0 <= j < k < |order| :: order[j] != order[k]
  }

  /** What subscriber i looks like in v' if its own turn, taken in v, is all that happened to it. */
  ghost predicate HadOwnTurn(v: View, v': View, i: Ident, c: Chance)
    requires i in v.subs
  {
    var t := OwnTurn(v, i, c);
    && i in v'.subs
    && v'.subs[i] == Sub(t.0, v.subs[i].starvedRounds + (if t.3 then 1 else 0))
    && WindowIn(v', i) == (if i in v.windows then Some((v.windows[i].0, t.1)) else None)
  }

  ghost predicate SameAt(v: View, v': View, i: Ident) {
    && (i in v'.subs <==> i in v.subs) && (i in v.subs ==> v'.subs[i] == v.subs[i])
    && WindowIn(v', i) == WindowIn(v, i)
  }

  /** What all the subscribers send when each has its own turn in v. */
  ghost function SentByAll(v: View, order: seq<Ident>, chance: Ident -> Chance): nat {
    if order == [] then 0
    else
      var i := order[|order| - 1];
      SentByAll(v, order[..|order| - 1], chance) + (if i in v.subs then OwnTurn(v, i, chance(i)).2 else 0)
  }

  lemma TurnOfOne(v: View, i: Ident, c: Chance, j: Ident)
    ensures var r := TurnOf(v, i, c);
            && (j != i || i !in v.subs ==> SameAt(v, r.0, j))
            && (i in v.subs ==> HadOwnTurn(v, r.0, i, c))
            && r.1 == (if i in v.subs then OwnTurn(v, i, c).2 else 0)
  {
    hide OwnTurn;
  }

  lemma SameTurn(v: View, m: View, v': View, i: Ident, c: Chance)
    requires SameAt(v, m, i) && i in v.subs && i in m.subs && HadOwnTurn(m, v', i, c)
    ensures OwnTurn(m, i, c) == OwnTurn(v, i, c) && HadOwnTurn(v, v', i, c)
  {
    hide Turn;
  }

  lemma StillHad(v: View, m: View, v': View, i: Ident, c: Chance)
    requires i in v.subs && HadOwnTurn(v, m, i, c) && SameAt(m, v', i)
    ensures HadOwnTurn(v, v', i, c)
  {
    hide OwnTurn;
  }

  /**
   drain_all treats subscribers independently: whatever the order, each buffered
   subscriber ends as its own turn leaves it, everybody else as before, and the
   total returned is the sum of what the turns send.
   */
  lemma {:induction false} TurnsAreIndependent(v: View, order: seq<Ident>, chance: Ident -> Chance)
    requires Distinct(order)
    ensures var r := Turns(v, order, chance);
            && (forall i | i in order && i in v.subs :: HadOwnTurn(v, r.0, i, chance(i)))
            && (forall i | i !in order || i !in v.subs :: SameAt(v, r.0, i))
            && r.1 == SentByAll(v, order, chance)
  {
    if order != [] {
      hide HadOwnTurn, SameAt, TurnOf, OwnTurn;
      var k := |order| - 1;
      var x := order[k];
      TurnsAreIndependent(v, order[..k], chance);
      var m, r := Turns(v, order[..k], chance), Turns(v, order, chance);
      assert x !in order[..k];
      assert x in m.0.subs <==> x in v.subs by { SubsAt(v, m.0, x); }
      assert r.0 == TurnOf(m.0, x, chance(x)).0 && r.1 == m.1 + TurnOf(m.0, x, chance(x)).1;
      TurnOfOne(m.0, x, chance(x), x);
      if x in v.subs {
        SameTurn(v, m.0, r.0, x, chance(x));
      } else {
        SameTwice(v, m.0, r.0, x);
      }
      forall i | i != x && i in order && i in v.subs
        ensures HadOwnTurn(v, r.0, i, chance(i))
      {
        TurnOfOne(m.0, x, chance(x), i);
        StillHad(v, m.0, r.0, i, chance(i));
      }
      forall i | i != x && (i !in order || i !in v.subs)
        ensures SameAt(v, r.0, i)
      {
        TurnOfOne(m.0, x, chance(x), i);
        SameTwice(v, m.0, r.0, i);
      }
    }
  }

  lemma SubsAt(v: View, m: View, i: Ident)
    requires SameAt(v, m, i)
    ensures i in m.subs <==> i in v.subs
  {
  }

  lemma SameTwice(v: View, m: View, r: View, i: Ident)
    requires SameAt(v, m, i) && SameAt(m, r, i)
    ensures SameAt(v, r, i)
  {
  }

  class BufferManager {
    const maxMessages: int
    const maxBytes: int
    const maxAge: real
    var buffers: map<Ident, SubscriberBuffer>
    var windows: map<Ident, CreditWindow>
    var starved: nat    // record_starved calls of drain_all

    ghost predicate Valid()
      reads this, buffers.Values, windows.Values
    {
      && (forall i | i in buffers :: buffers[i].ident == i && buffers[i].Valid())
      && (forall i | i in windows :: windows[i].ident == i && windows[i].Spendable())
    }

    ghost function WindowOf(i: Ident): Option<(int, nat)>
      reads this, if i in windows then {windows[i]} else {}
    {
      if i in windows then Some((windows[i].credit, windows[i].used)) else None
    }

    ghost function Subs(): map<Ident, Sub>
      reads this`buffers, buffers.Values
    {
      map i | i in buffers :: Sub(buffers[i].Model(), buffers[i].starvedRounds)
    }

    ghost function Windows(): map<Ident, (int, nat)>
      reads this`windows, windows.Values
    {
      map i | i in windows :: (windows[i].credit, windows[i].used)
    }

    ghost function Model(): View
      reads this, buffers.Values, windows.Values
    {
      View(Subs(), Windows(), starved)
    }

    constructor (maxMessages: int, maxBytes: int, maxAge: real)
      ensures Valid() && buffers == map[] && windows == map[] && starved == 0
      ensures this.maxMessages >= 1 && this.maxBytes >= 0 && this.maxAge >= 0.0
      ensures maxMessages >= 1 ==> this.maxMessages == maxMessages
      ensures maxBytes >= 0 ==> this.maxBytes == maxBytes
      ensures maxAge >= 0.0 ==> this.maxAge == maxAge
    {
      this.maxMessages := if maxMessages > 1 then maxMessages else 1;
      this.maxBytes := if maxBytes > 0 then maxBytes else 0;
      this.maxAge := if maxAge > 0.0 then maxAge else 0.0;
      buffers, windows, starved := map[], map[], 0;
    }

    /** A heartbeat opens a fresh window in place of the old one. */
    method SetCredit(ident: Ident, credit: int)
      requires Valid()
      modifies this`windows
      ensures Valid() && WindowOf(ident) == Some((credit, 0))
      ensures windows.Keys == old(windows.Keys) + {ident} && fresh(windows[ident])
      ensures forall i | i in old(windows) && i != ident :: windows[i] == old(windows[i])
    {
      var w := new CreditWindow(ident, credit);
      windows := windows[ident := w];
    }

    /** The limits a subscriber gets that asks for these. */
    function Granted(asked: Limits): (r: Limits)
      ensures r.policy == asked.policy
      ensures maxMessages > 0 ==> 0 < r.maxMessages <= maxMessages
      ensures 0 < asked.maxMessages && (maxMessages <= 0 || asked.maxMessages <= maxMessages) ==>
                r.maxMessages == asked.maxMessages
      ensures maxBytes > 0 ==> 0 < r.maxBytes <= maxBytes
      ensures 0 < asked.maxBytes && (maxBytes <= 0 || asked.maxBytes <= maxBytes) ==> r.maxBytes == asked.maxBytes
      ensures maxAge > 0.0 ==> 0.0 < r.maxAge <= maxAge
      ensures 0.0 < asked.maxAge && (maxAge <= 0.0 || asked.maxAge <= maxAge) ==> r.maxAge == asked.maxAge
    {
      Limits(asked.policy, Clamp(asked.maxMessages, maxMessages), Clamp(asked.maxBytes, maxBytes),
             ClampAge(asked.maxAge, maxAge))
    }

    /** REGISTER gives the subscriber an empty buffer within the server's limits. */
    method SetPolicy(ident: Ident, asked: Limits)
      requires Valid()
      modifies this`buffers
      ensures Valid() && buffers.Keys == old(buffers.Keys) + {ident} && fresh(buffers[ident])
      ensures buffers[ident].Model() == New(Granted(asked))
      ensures forall i | i in old(buffers) && i != ident :: buffers[i] == old(buffers[i])
    {
      var b := new SubscriberBuffer(ident, Granted(asked));
      buffers := buffers[ident := b];
    }

    method Clear(ident: Ident)
      requires Valid()
      modifies this`buffers, this`windows
      ensures Valid()
      ensures buffers == old(buffers) - {ident} && windows == old(windows) - {ident}
    {
      buffers := buffers - {ident};
      windows := windows - {ident};
    }

    /** A frame goes to this subscriber's buffer, if it has one. */
    method Enqueue(ident: Ident, topic: string, frame: seq<byte>, now: real)
      requires Valid()
      modifies if ident in buffers then {buffers[ident]} else {}
      ensures Valid() && Model() == Queued(old(Model()), ident, Entry(topic, frame, |frame|, now))
    {
      hide SubscriberBuffer.Model, BufferModel.Enqueue;
      if ident in buffers {
        buffers[ident].Enqueue(topic, frame, now);
        assert forall i | i in buffers && i != ident :: buffers[i].Model() == old(buffers[i].Model());
        assert Subs() == old(Subs())[ident := Sub(buffers[ident].Model(), buffers[ident].starvedRounds)];
        assert Windows() == old(Windows());
      }
    }

    /** One subscriber's turn of drain_all. */
    method DrainOne(ident: Ident, c: Chance) returns (n: nat)
      requires Valid() && ident in buffers
      modifies this`starved, buffers[ident], if ident in windows then {windows[ident]} else {}
      ensures Valid()
      ensures var t := Turn(old(buffers[ident].Model()), old(WindowOf(ident)), c.credit, c.now, c.room);
              && buffers[ident].Model() == t.0
              && n == t.2
              && (ident in windows ==> windows[ident].used == t.1)
              && buffers[ident].starvedRounds == old(buffers[ident].starvedRounds) + (if t.3 then 1 else 0)
              && starved == old(starved) + (if t.3 then 1 else 0)
      ensures forall k | k in buffers && k != ident ::
                && buffers[k].Model() == old(buffers[k].Model())
                && buffers[k].starvedRounds == old(buffers[k].starvedRounds)
      ensures forall k | k in windows && k != ident :: windows[k].used == old(windows[k].used)
    {
      hide Drain, Valid;
      assert buffers[ident].Valid() by { ValidAt(ident); }
      n := 0;
      var buf := buffers[ident];
      var empty := if buf.lim.policy == Conflate then buf.latest == [] else buf.q == [];
      if empty {
        return;
      }
      var budget := -1;
      if ident in windows {
        budget := windows[ident].credit - windows[ident].used;
        if budget <= 0 {
          CountStarved(ident);
          return;
        }
      } else if c.credit >= 0 {
        return;
      }
      n := SendWithin(ident, budget, c);
    }

    lemma ValidAt(ident: Ident)
      requires Valid() && ident in buffers
      ensures buffers[ident].Valid()
    {
    }

    method CountStarved(ident: Ident)
      requires Valid() && ident in buffers
      modifies this`starved, buffers[ident]
      ensures Valid() && starved == old(starved) + 1
      ensures buffers[ident].starvedRounds == old(buffers[ident].starvedRounds) + 1
      ensures forall k | k in buffers && k != ident :: buffers[k].starvedRounds == old(buffers[k].starvedRounds)
      ensures forall k | k in buffers :: buffers[k].Model() == old(buffers[k].Model())
    {
      starved := starved + 1;
      buffers[ident].starvedRounds := buffers[ident].starvedRounds + 1;
    }

    /** Drains one buffer within what its window has left and charges the window. */
    method SendWithin(ident: Ident, budget: int, c: Chance) returns (n: nat)
      requires Valid() && ident in buffers
      requires ident in windows ==> 0 < budget == windows[ident].credit - windows[ident].used
      modifies buffers[ident], if ident in windows then {windows[ident]} else {}
      ensures Valid()
      ensures (buffers[ident].Model(), n) == Drain(old(buffers[ident].Model()), c.now, c.room, -1, budget)
      ensures ident in windows ==> windows[ident].used == old(windows[ident].used) + n
      ensures forall k | k in buffers :: buffers[k].starvedRounds == old(buffers[k].starvedRounds)
      ensures forall k | k in buffers && k != ident :: buffers[k].Model() == old(buffers[k].Model())
      ensures forall k | k in windows && k != ident :: windows[k].used == old(windows[k].used)
    {
      hide Drain, SubscriberBuffer.Model;
      var wire;
      n, wire := buffers[ident].Drain(c.now, c.room, -1, budget);
      if ident in windows {
        windows[ident].used := windows[ident].used + n;
      }
    }

    twostate lemma OneSubChanged(ident: Ident)
      requires buffers == old(buffers) && ident in buffers
      requires forall k | k in buffers && k != ident ::
                 && buffers[k].Model() == old(buffers[k].Model())
                 && buffers[k].starvedRounds == old(buffers[k].starvedRounds)
      ensures Subs() == old(Subs())[ident := Sub(buffers[ident].Model(), buffers[ident].starvedRounds)]
    {
      hide SubscriberBuffer.Model;
    }

    twostate lemma OneWindowChanged(ident: Ident)
      requires windows == old(windows)
      requires forall k | k in windows && k != ident :: windows[k].used == old(windows[k].used)
      ensures Windows() == if ident in windows
                           then old(Windows())[ident := (windows[ident].credit, windows[ident].used)]
                           else old(Windows())
    {
    }

    method TakeTurn(ident: Ident, c: Chance) returns (n: nat)
      requires Valid() && ident in buffers
      modifies this`starved, buffers[ident], if ident in windows then {windows[ident]} else {}
      ensures Valid() && (Model(), n) == TurnOf(old(Model()), ident, c)
    {
      hide Turn, SubscriberBuffer.Model, Valid;
      ghost var v := Model();
      assert WindowIn(v, ident) == WindowOf(ident);
      n := DrainOne(ident, c);
      ghost var t := OwnTurn(v, ident, c);
      OneSubChanged(ident);
      OneWindowChanged(ident);
      hide Subs, Windows;
      assert Model().subs == Subs() && Model().windows == Windows();
    }

    /**
     drain_all over a snapshot of the subscribers, as the dict gives them.  The
     credit, the clock and the room of each turn are the environment's.
     */
    method DrainAll(order: seq<Ident>, chance: Ident -> Chance) returns (total: nat)
      requires Valid()
      requires forall i :: i in buffers <==> i in order
      requires Distinct(order)
      modifies this`starved, buffers.Values, windows.Values
      ensures Valid() && (Model(), total) == Turns(old(Model()), order, chance)
    {
      hide TurnOf, SubscriberBuffer.Model, Valid, Model;
      total := 0;
      for j := 0 to |order|
        invariant Valid() && (Model(), total) == Turns(old(Model()), order[..j], chance)
      {
        assert order[..j + 1][..j] == order[..j];
        assert order[j] in order;
        var n := TakeTurn(order[j], chance(order[j]));
        total := total + n;
      }
      assert order[..|order|] == order;
    }
  }
}
