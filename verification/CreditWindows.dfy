/**
 Credit windows under concurrency.  The data thread drains one subscriber after
 another; between any two of its steps the control thread may store a credit,
 open a new window, or drop the subscriber's credit or window.  A window object
 lives on in the data thread's hands after it has been replaced or dropped.
 */
module CreditWindows {
  import opened Wrappers
  import opened BufferModel

  type Ident = seq<int>

  datatype Window = Window(ident: Ident, credit: int, used: nat)

  /** Where the data thread is inside drain_all; w is the window object it holds. */
  datatype DataPc =
    | Idle
    | Checked(ident: Ident, credit: int)
    | Draining(ident: Ident, w: Option<nat>, budget: int, n: nat)

  /** One frame handed to the socket, and the window it is charged to. */
  datatype Sending = Sending(ident: Ident, w: Option<nat>)

  datatype State = State(
    windows: seq<Window>,        // every window object ever created
    current: map<Ident, nat>,    // _credit_windows
    credits: map<Ident, int>,    // the credit table behind the credit callback
    pc: DataPc,
    sends: seq<Sending>)         // history

  datatype Action =
    // control thread
    | StoreCredit(ident: Ident, credit: int)
    | SetCredit(ident: Ident, credit: int)
    | DropCredit(ident: Ident)
    | ClearWindow(ident: Ident)
    // data thread
    | Visit(ident: Ident)
    | ReadWindow
    | SendFrame
    | EndDrain

  const EMPTY: State := State([], map[], map[], Idle, [])

  function Budget(w: Window): int {
    w.credit - w.used
  }

  function Next(s: State, a: Action): State {
    match a
    case StoreCredit(i, c) => s.(credits := s.credits[i := c])
    case SetCredit(i, c) => s.(windows := s.windows + [Window(i, c, 0)], current := s.current[i := |s.windows|])
    case DropCredit(i) => s.(credits := s.credits - {i})
    case ClearWindow(i) => s.(current := s.current - {i})
    case Visit(i) =>
      if s.pc.Idle? then s.(pc := Checked(i, if i in s.credits then s.credits[i] else -1)) else s
    case ReadWindow => if s.pc.Checked? then s.(pc := AfterWindow(s, s.pc.ident, s.pc.credit)) else s
    case SendFrame =>
      if s.pc.Draining? && s.pc.n < DRAIN_BUDGET && (s.pc.budget < 0 || s.pc.n < s.pc.budget)
      then s.(pc := s.pc.(n := s.pc.n + 1), sends := s.sends + [Sending(s.pc.ident, s.pc.w)])
      else s
    case EndDrain =>
      if s.pc.Draining? then s.(pc := Idle, windows := Charge(s.windows, s.pc.w, s.pc.n)) else s
  }

  function AfterWindow(s: State, i: Ident, credit: int): DataPc {
    if i in s.current && s.current[i] < |s.windows| then
      var budget := Budget(s.windows[s.current[i]]);
      if budget <= 0 then Idle else Draining(i, Some(s.current[i]), budget, 0)
    else if credit >= 0 then Idle
    else Draining(i, None, -1, 0)
  }

  function Charge(ws: seq<Window>, w: Option<nat>, n: nat): seq<Window> {
    if w.Some? && w.value < |ws| then ws[w.value := ws[w.value].(used := ws[w.value].used + n)] else ws
  }

  function Run(s: State, schedule: seq<Action>): State {
    if schedule == [] then s else Next(Run(s, schedule[..|schedule| - 1]), schedule[|schedule| - 1])
  }

  // ----- what has been sent -----

  /** Frames charged to window k. */
  ghost function Against(sends: seq<Sending>, k: nat): nat {
    if sends == [] then 0
    else Against(sends[..|sends| - 1], k) + (if sends[|sends| - 1].w == Some(k) then 1 else 0)
  }

  ghost function SentTo(sends: seq<Sending>, i: Ident): nat {
    if sends == [] then 0
    else SentTo(sends[..|sends| - 1], i) + (if sends[|sends| - 1].ident == i then 1 else 0)
  }

  /** Frames sent to i in drains that held no window. */
  ghost function FreeTo(sends: seq<Sending>, i: Ident): nat {
    if sends == [] then 0
    else FreeTo(sends[..|sends| - 1], i) +
         (if sends[|sends| - 1].ident == i && sends[|sends| - 1].w == None then 1 else 0)
  }

  /** Everything the windows opened for i allow. */
  ghost function Granted(ws: seq<Window>, i: Ident): nat {
    if ws == [] then 0
    else Granted(ws[..|ws| - 1], i) + (if ws[|ws| - 1].ident == i then Grant(ws[|ws| - 1]) else 0)
  }

  ghost function Charged(ws: seq<Window>, sends: seq<Sending>, i: Ident): nat {
    if ws == [] then 0
    else Charged(ws[..|ws| - 1], sends, i) + (if ws[|ws| - 1].ident == i then Against(sends, |ws| - 1) else 0)
  }

  function Grant(w: Window): nat {
    if w.credit > 0 then w.credit else 0
  }

  // ----- the invariant -----

  function InFlight(pc: DataPc, k: nat): nat {
    if pc.Draining? && pc.w == Some(k) then pc.n else 0
  }

  ghost predicate WindowOk(s: State, k: nat)
    requires k < |s.windows|
  {
    && Against(s.sends, k) == s.windows[k].used + InFlight(s.pc, k)
    && s.windows[k].used + InFlight(s.pc, k) <= Grant(s.windows[k])
  }

  ghost predicate PcOk(s: State) {
    match s.pc
    case Idle => true
    case Checked(_, _) => true
    case Draining(i, None, budget, n) => true
    case Draining(i, Some(k), budget, n) =>
      k < |s.windows| && s.windows[k].ident == i && budget == Budget(s.windows[k]) && n <= budget
  }

  ghost predicate SendsOk(s: State) {
    forall j | 0 <= j < |s.sends| && s.sends[j].w.Some? ::
      s.sends[j].w.value < |s.windows| && s.windows[s.sends[j].w.value].ident == s.sends[j].ident
  }

  ghost predicate Inv(s: State) {
    && (forall k | 0 <= k < |s.windows| :: WindowOk(s, k))
    && (forall i | i in s.current :: s.current[i] < |s.windows| && s.windows[s.current[i]].ident == i)
    && PcOk(s)
    && SendsOk(s)
  }

  lemma {:induction false} AgainstNone(sends: seq<Sending>, k: nat)
    requires forall j | 0 <= j < |sends| :: sends[j].w != Some(k)
    ensures Against(sends, k) == 0
  {
    if sends != [] {
      AgainstNone(sends[..|sends| - 1], k);
    }
  }

  lemma SendOneMore(sends: seq<Sending>, x: Sending)
    ensures forall k: nat :: Against(sends + [x], k) == Against(sends, k) + (if x.w == Some(k) then 1 else 0)
    ensures forall i :: SentTo(sends + [x], i) == SentTo(sends, i) + (if x.ident == i then 1 else 0)
    ensures forall i :: FreeTo(sends + [x], i) == FreeTo(sends, i) + (if x.ident == i && x.w == None then 1 else 0)
  {
    assert (sends + [x])[..|sends|] == sends;
  }

  lemma OpenKeepsInv(s: State, i: Ident, c: int)
    requires Inv(s)
    ensures Inv(Next(s, SetCredit(i, c)))
  {
    hide Against;
    var s' := Next(s, SetCredit(i, c));
    AgainstNone(s.sends, |s.windows|);
    forall k | 0 <= k <= |s.windows|
      ensures WindowOk(s', k)
    {
      assert k < |s.windows| ==> WindowOk(s, k);
    }
  }

  lemma SendKeepsInv(s: State)
    requires Inv(s)
    ensures Inv(Next(s, SendFrame))
  {
    hide Against;
    var s' := Next(s, SendFrame);
    if s' != s {
      SendOneMore(s.sends, Sending(s.pc.ident, s.pc.w));
      forall k | 0 <= k < |s.windows|
        ensures WindowOk(s', k)
      {
        assert WindowOk(s, k);
      }
    }
  }

  /** Each step of either thread keeps the window accounts. */
  lemma StepKeepsInv(s: State, a: Action)
    requires Inv(s)
    ensures Inv(Next(s, a))
  {
    match a
    case SetCredit(i, c) => OpenKeepsInv(s, i, c);
    case SendFrame => SendKeepsInv(s);
    case _ =>
      hide Against;
      var s' := Next(s, a);
      forall k | 0 <= k < |s.windows|
        ensures WindowOk(s', k)
      {
        assert WindowOk(s, k);
      }
  }

  lemma {:induction false} RunKeepsInv(s: State, schedule: seq<Action>)
    requires Inv(s)
    ensures Inv(Run(s, schedule))
  {
    if schedule != [] {
      RunKeepsInv(s, schedule[..|schedule| - 1]);
      StepKeepsInv(Run(s, schedule[..|schedule| - 1]), schedule[|schedule| - 1]);
    }
  }

  /**
   For every window ever created, whatever the control thread does meanwhile,
   the frames charged to it never exceed max(0, credit).
   */
  lemma WindowNeverOverspent(schedule: seq<Action>, k: nat)
    requires k < |Run(EMPTY, schedule).windows|
    ensures var s := Run(EMPTY, schedule);
            s.windows[k].used <= Against(s.sends, k) <= Grant(s.windows[k])
  {
    RunKeepsInv(EMPTY, schedule);
    assert WindowOk(Run(EMPTY, schedule), k);
  }

  // ----- per subscriber -----

  lemma {:induction false} ChargedNothing(ws: seq<Window>, i: Ident)
    ensures Charged(ws, [], i) == 0
  {
    if ws != [] {
      ChargedNothing(ws[..|ws| - 1], i);
    }
  }

  lemma {:induction false} ChargedOneMore(ws: seq<Window>, sends: seq<Sending>, x: Sending, i: Ident)
    requires x.w.Some? ==> x.w.value < |ws| ==> ws[x.w.value].ident == x.ident
    ensures Charged(ws, sends + [x], i) ==
            Charged(ws, sends, i) + (if x.w.Some? && x.w.value < |ws| && x.ident == i then 1 else 0)
  {
    SendOneMore(sends, x);
    if ws != [] {
      ChargedOneMore(ws[..|ws| - 1], sends, x, i);
    }
  }

  /** Every frame sent to i was free or is charged to one of i's windows. */
  lemma {:induction false} SendsSplit(ws: seq<Window>, sends: seq<Sending>, i: Ident)
    requires forall j | 0 <= j < |sends| && sends[j].w.Some? ::
               sends[j].w.value < |ws| && ws[sends[j].w.value].ident == sends[j].ident
    ensures SentTo(sends, i) == FreeTo(sends, i) + Charged(ws, sends, i)
    decreases |sends|
  {
    if sends == [] {
      ChargedNothing(ws, i);
    } else {
      var k := |sends| - 1;
      SendsSplit(ws, sends[..k], i);
      assert sends == sends[..k] + [sends[k]];
      ChargedOneMore(ws, sends[..k], sends[k], i);
    }
  }

  lemma {:induction false} ChargedWithinGrants(s: State, n: nat, i: Ident)
    requires Inv(s) && n <= |s.windows|
    ensures Charged(s.windows[..n], s.sends, i) <= Granted(s.windows[..n], i)
  {
    if n > 0 {
      ChargedWithinGrants(s, n - 1, i);
      assert s.windows[..n][..n - 1] == s.windows[..n - 1];
      assert WindowOk(s, n - 1);
    }
  }

  /**
   Over every schedule, what a subscriber was sent is bounded by the credit
   granted plus the sends before it had a window.
   */
  lemma SendsBoundedByGrants(schedule: seq<Action>, i: Ident)
    ensures var s := Run(EMPTY, schedule);
            SentTo(s.sends, i) <= FreeTo(s.sends, i) + Granted(s.windows, i)
  {
    RunKeepsInv(EMPTY, schedule);
    var s := Run(EMPTY, schedule);
    SendsSplit(s.windows, s.sends, i);
    ChargedWithinGrants(s, |s.windows|, i);
    assert s.windows[..|s.windows|] == s.windows;
  }

  ghost predicate FreeDrain(s: State, i: Ident) {
    s.pc.Draining? && s.pc.ident == i && s.pc.w == None
  }

  /**
   While a subscriber has a window, no drain without one starts; so once a drain
   that began before its first heartbeat has ended, nothing is sent uncharged.
   */
  lemma {:induction false} NoFreeSendsWhileWindowed(s: State, schedule: seq<Action>, i: Ident)
    requires Inv(s) && !FreeDrain(s, i)
    requires forall k | 0 <= k <= |schedule| :: i in Run(s, schedule[..k]).current
    ensures FreeTo(Run(s, schedule).sends, i) == FreeTo(s.sends, i)
    ensures !FreeDrain(Run(s, schedule), i)
  {
    if schedule != [] {
      var n := |schedule| - 1;
      hide Next, FreeTo, Inv;
      forall k | 0 <= k <= n
        ensures i in Run(s, schedule[..n][..k]).current
      {
        assert schedule[..n][..k] == schedule[..k];
      }
      NoFreeSendsWhileWindowed(s, schedule[..n], i);
      RunKeepsInv(s, schedule[..n]);
      assert schedule[..n] == schedule[..|schedule|][..n];
      WindowedStep(Run(s, schedule[..n]), schedule[n], i);
    }
  }

  lemma WindowedStep(s: State, a: Action, i: Ident)
    requires Inv(s) && !FreeDrain(s, i) && i in s.current
    ensures FreeTo(Next(s, a).sends, i) == FreeTo(s.sends, i)
    ensures !FreeDrain(Next(s, a), i)
  {
    if a.SendFrame? && s.pc.Draining? {
      SendOneMore(s.sends, Sending(s.pc.ident, s.pc.w));
    }
  }

  // ----- and credit can be used up -----

  function SendTimes(s: State, k: nat): State {
    if k == 0 then s else Next(SendTimes(s, k - 1), SendFrame)
  }

  ghost function Copies(i: Ident, w: Option<nat>, k: nat): seq<Sending> {
    seq(k, _ => Sending(i, w))
  }

  lemma {:induction false} SendsGoThrough(s: State, k: nat)
    requires s.pc.Draining? && s.pc.n + k <= DRAIN_BUDGET && (s.pc.budget < 0 || s.pc.n + k <= s.pc.budget)
    ensures SendTimes(s, k) == s.(pc := s.pc.(n := s.pc.n + k), sends := s.sends + Copies(s.pc.ident, s.pc.w, k))
  {
    if k == 0 {
      assert s.sends + Copies(s.pc.ident, s.pc.w, 0) == s.sends;
    } else {
      SendsGoThrough(s, k - 1);
      var c := Copies(s.pc.ident, s.pc.w, k - 1);
      assert Copies(s.pc.ident, s.pc.w, k) == c + [Sending(s.pc.ident, s.pc.w)];
      assert s.sends + c + [Sending(s.pc.ident, s.pc.w)] == s.sends + (c + [Sending(s.pc.ident, s.pc.w)]);
    }
  }

  /**
   The window is no obstacle below its credit: visited undisturbed, a subscriber
   whose window has credit left can be sent any number up to that and the send
   limit, and exactly these are charged to the window.
   */
  lemma WindowServes(s: State, i: Ident, k: nat)
    requires Inv(s) && s.pc.Idle? && i in s.current
    requires var w := s.windows[s.current[i]]; 0 < w.credit - w.used && k <= w.credit - w.used && k <= 512
    ensures var w := s.current[i];
            Next(SendTimes(Next(Next(s, Visit(i)), ReadWindow), k), EndDrain) ==
            s.(windows := s.windows[w := s.windows[w].(used := s.windows[w].used + k)],
               sends := s.sends + Copies(i, Some(w), k))
  {
    SendsGoThrough(Next(Next(s, Visit(i)), ReadWindow), k);
  }

  /**
   A used-up window, or credit without a window yet, sends nothing; a subscriber
   that never reported is not limited.
   */
  lemma WhoIsHeldBack(s: State, i: Ident, k: nat)
    requires Inv(s) && s.pc.Idle?
    ensures var s2 := Next(Next(s, Visit(i)), ReadWindow);
            if i in s.current
            then s2.pc.Idle? <==> s.windows[s.current[i]].used >= s.windows[s.current[i]].credit
            else s2.pc.Idle? <==> i in s.credits && s.credits[i] >= 0
    ensures i !in s.current && i !in s.credits && k <= 512 ==>
              Next(SendTimes(Next(Next(s, Visit(i)), ReadWindow), k), EndDrain) ==
              s.(sends := s.sends + Copies(i, None, k))
  {
    if i !in s.current && i !in s.credits && k <= 512 {
      SendsGoThrough(Next(Next(s, Visit(i)), ReadWindow), k);
    }
  }

  /** A heartbeat's window can be used up to its credit. */
  lemma FreshWindowServes(s: State, i: Ident, c: int, k: nat)
    requires Inv(s) && s.pc.Idle? && 0 < c && k <= c && k <= 512
    ensures var s1 := Next(s, SetCredit(i, c));
            Next(SendTimes(Next(Next(s1, Visit(i)), ReadWindow), k), EndDrain).sends ==
            s.sends + Copies(i, Some(|s.windows|), k)
  {
    StepKeepsInv(s, SetCredit(i, c));
    hide Inv;
    WindowServes(Next(s, SetCredit(i, c)), i, k);
  }

  /** A window that was dropped stays dropped, and so does a credit, until the next heartbeat. */
  lemma {:induction false} DroppedStaysDropped(s: State, i: Ident, schedule: seq<Action>)
    ensures (forall k | 0 <= k < |schedule| :: !(schedule[k].SetCredit? && schedule[k].ident == i)) ==>
              i !in Run(Next(s, ClearWindow(i)), schedule).current
    ensures (forall k | 0 <= k < |schedule| :: !(schedule[k].StoreCredit? && schedule[k].ident == i)) ==>
              i !in Run(Next(s, DropCredit(i)), schedule).credits
  {
    if schedule != [] {
      DroppedStaysDropped(s, i, schedule[..|schedule| - 1]);
    }
  }
}
