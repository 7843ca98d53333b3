/**
 What the control plane's tables say about one client and one identity, told
 from the history of commands alone.
 */
module ControlHistory {
  import opened Wrappers
  import opened Routing
  import BufferModel
  import opened ControlPlane

  function At<K, V>(m: map<K, V>, k: K): Option<V> {
    if k in m then Some(m[k]) else None
  }

  // ----- one identity -----

  /** What the broker keeps under one identity. */
  datatype Slot = Slot(
    credit: Option<int>, window: Option<int>, buffer: Option<BufferModel.Limits>, patterns: set<string>)

  const NOTHING: Slot := Slot(None, None, None, {})

  function SlotOf(p: Plane, id: Ident): Slot {
    Slot(At(p.credits, id), At(p.windows, id), At(p.buffers, id), Get(p.index.byIdentity, id))
  }

  /** A sweep takes a registered client with this identity off. */
  ghost predicate SweptAway(p: Plane, offline: seq<string>, id: Ident, idOf: string -> Ident) {
    exists k :: k in offline && k in p.reg.byClient && idOf(k) == id
  }

  /**
   What one command does to what is kept under an identity.  The tables are asked
   only who is online: whether a name is taken, and whom a sweep concerns.
   */
  ghost function Changed(s: Slot, p: Plane, c: Command, id: Ident, idOf: string -> Ident): Slot {
    match c
    case Register(cid, user, topics, buffer, _) =>
      if idOf(cid) == id && user !in p.reg.byUser
      then s.(patterns := s.patterns + (set t | t in topics), buffer := if buffer.Some? then buffer else s.buffer)
      else s
    case Heartbeat(cid, credit, _) =>
      if idOf(cid) == id && credit.Some? then s.(credit := credit, window := credit) else s
    case SubscribeTo(cid, q) => if idOf(cid) == id then s.(patterns := s.patterns + {q}) else s
    case UnsubscribeFrom(cid, q) => if idOf(cid) == id then s.(patterns := s.patterns - {q}) else s
    case Disconnect(cid) => if idOf(cid) == id then NOTHING else s
    case Sweep(_, offline) => if SweptAway(p, offline, id, idOf) then NOTHING else s
  }

  /** What the commands so far have put under an identity and not taken away. */
  ghost function SlotAfter(commands: seq<Command>, id: Ident, idOf: string -> Ident): Slot {
    if commands == [] then NOTHING
    else
      var before := commands[..|commands| - 1];
      Changed(SlotAfter(before, id, idOf), Run(before, idOf), commands[|commands| - 1], id, idOf)
  }

  lemma {:induction false} SubscribeAllAt(x: Index, i: Ident, topics: seq<string>, id: Ident)
    ensures Get(SubscribeAll(x, i, topics).byIdentity, id) ==
            Get(x.byIdentity, id) + (if id == i then set t | t in topics else {})
  {
    if topics != [] {
      var n := |topics| - 1;
      SubscribeAllAt(x, i, topics[..n], id);
      assert forall t :: t in topics <==> t in topics[..n] || t == topics[n];
    }
  }

  lemma UnsubscribeAt(x: Index, i: Ident, p: string, id: Ident)
    ensures Get(Unsubscribe(x, i, p).byIdentity, id) == Get(x.byIdentity, id) - (if id == i then {p} else {})
  {
  }

  lemma ForgetAt(p: Plane, i: Ident, id: Ident)
    ensures SlotOf(Forget(p, i), id) == if id == i then NOTHING else SlotOf(p, id)
  {
    hide Scrub;
  }

  ghost predicate Named(p: Plane, cids: seq<string>, id: Ident) {
    exists k :: k in cids && k in p.identOf && p.identOf[k] == id
  }

  lemma {:induction false} CleanUpAllAt(p: Plane, cids: seq<string>, id: Ident)
    ensures SlotOf(CleanUpAll(p, cids), id) == if Named(p, cids, id) then NOTHING else SlotOf(p, id)
    ensures forall k :: k in CleanUpAll(p, cids).identOf <==> k in p.identOf && k !in cids
    ensures forall k | k in CleanUpAll(p, cids).identOf :: CleanUpAll(p, cids).identOf[k] == p.identOf[k]
  {
    if cids != [] {
      hide Remove, SlotOf;
      var n := |cids| - 1;
      var m, last := CleanUpAll(p, cids[..n]), cids[n];
      CleanUpAllAt(p, cids[..n], id);
      assert forall k :: k in cids <==> k in cids[..n] || k == last;
      if last in m.identOf {
        ForgetAt(m, m.identOf[last], id);
        SlotIgnoresNames(Forget(m, m.identOf[last]), Forget(m, m.identOf[last]).identOf - {last}, id);
      }
      NamedBefore(p, cids, id);
    }
  }

  lemma SlotIgnoresNames(p: Plane, names: map<string, Ident>, id: Ident)
    ensures SlotOf(p.(identOf := names), id) == SlotOf(p, id)
  {
  }

  lemma NamedBefore(p: Plane, cids: seq<string>, id: Ident)
    requires cids != []
    ensures var n := |cids| - 1;
            Named(p, cids, id) <==> Named(p, cids[..n], id) || (cids[n] in p.identOf && p.identOf[cids[n]] == id)
  {
    var n := |cids| - 1;
    assert forall k :: k in cids <==> k in cids[..n] || k == cids[n];
  }

  lemma SweepAt(p: Plane, offline: seq<string>, now: real, id: Ident, idOf: string -> Ident)
    requires Inv(p, idOf)
    ensures SlotOf(Next(p, Sweep(now, offline), idOf), id) ==
            if SweptAway(p, offline, id, idOf) then NOTHING else SlotOf(p, id)
  {
    hide Consistent, CleanUpAll, UnregisterAll;
    var p1 := p.(reg := UnregisterAll(p.reg, offline));
    CleanUpAllAt(p1, offline, id);
    assert Named(p1, offline, id) <==> SweptAway(p, offline, id, idOf);
  }

  lemma RegisterAt(p: Plane, c: Command, id: Ident, idOf: string -> Ident)
    requires c.Register?
    ensures SlotOf(Next(p, c, idOf), id) == Changed(SlotOf(p, id), p, c, id, idOf)
  {
    hide SubscribeAll;
    SubscribeAllAt(p.index, idOf(c.cid), c.topics, id);
  }

  /** One command changes what is under an identity as the history says. */
  lemma NextAt(p: Plane, c: Command, id: Ident, idOf: string -> Ident)
    requires Inv(p, idOf)
    ensures SlotOf(Next(p, c, idOf), id) == Changed(SlotOf(p, id), p, c, id, idOf)
  {
    hide Inv, SubscribeAll, Subscribe, Unsubscribe, Remove, CleanUpAll, UnregisterAll, Forget, Unregister, Seen;
    match c
    case Register(_, _, _, _, _) => RegisterAt(p, c, id, idOf);
    case Heartbeat(cid, credit, now) =>
    case SubscribeTo(cid, q) => SubscribeAt(p.index, idOf(cid), q, id);
    case UnsubscribeFrom(cid, q) => UnsubscribeAt(p.index, idOf(cid), q, id);
    case Disconnect(cid) => ForgetAt(p, idOf(cid), id);
    case Sweep(now, offline) => SweepAt(p, offline, now, id, idOf);
  }

  lemma SubscribeAt(x: Index, i: Ident, p: string, id: Ident)
    ensures Get(Subscribe(x, i, p).byIdentity, id) == Get(x.byIdentity, id) + (if id == i then {p} else {})
  {
  }

  /**
   Over every run, what the broker keeps under an identity is what the commands
   have put there since it was last forgotten: the last credit reported, also as
   the open window, the last buffer asked for, and the patterns subscribed.
   */
  lemma {:induction false} TablesTellHistory(commands: seq<Command>, id: Ident, idOf: string -> Ident)
    ensures SlotOf(Run(commands, idOf), id) == SlotAfter(commands, id, idOf)
  {
    if commands != [] {
      hide Next, SlotOf, Changed;
      var before, c := commands[..|commands| - 1], commands[|commands| - 1];
      TablesTellHistory(before, id, idOf);
      RunKeepsInv(before, idOf);
      NextAt(Run(before, idOf), c, id, idOf);
    }
  }

  /** So a topic is routed to exactly the identities that the history leaves with a pattern it falls under. */
  lemma RoutesTellHistory(commands: seq<Command>, id: Ident, idOf: string -> Ident, topic: string)
    ensures id in Lookup(Run(commands, idOf).index, topic) <==>
            exists p :: p in SlotAfter(commands, id, idOf).patterns && Matches(p, topic)
  {
    hide Lookup, Matches, Consistent, Next, SlotAfter;
    RunKeepsInv(commands, idOf);
    TablesTellHistory(commands, id, idOf);
    LookupIsMatches(Run(commands, idOf).index, topic, id);
  }

  // ----- one client -----

  ghost function HeardNow(h: Option<Client>, p: Plane, c: Command, cid: string): Option<Client> {
    match c
    case Register(k, user, _, _, now) => if k == cid && user !in p.reg.byUser then Some(Client(user, now)) else h
    case Heartbeat(k, _, now) => if k == cid && h.Some? then Some(Client(h.value.username, now)) else h
    case Disconnect(k) => if k == cid then None else h
    case Sweep(_, offline) => if cid in offline then None else h
    case _ => h
  }

  /** The registration the commands have left a client with: its name, and when it was last heard. */
  ghost function Heard(commands: seq<Command>, cid: string, idOf: string -> Ident): Option<Client> {
    if commands == [] then None
    else
      var before := commands[..|commands| - 1];
      HeardNow(Heard(before, cid, idOf), Run(before, idOf), commands[|commands| - 1], cid)
  }

  lemma NextRegistration(p: Plane, c: Command, cid: string, idOf: string -> Ident)
    ensures At(Next(p, c, idOf).reg.byClient, cid) == HeardNow(At(p.reg.byClient, cid), p, c, cid)
  {
    hide SubscribeAll, Subscribe, Unsubscribe, Remove, CleanUpAll, UnregisterAll, Forget;
    if c.Sweep? {
      UnregisterAllAt(p.reg, c.offline, cid);
      CleanUpKeepsRegistry(p.(reg := UnregisterAll(p.reg, c.offline)), c.offline);
    } else if c.Disconnect? {
      assert Next(p, c, idOf).reg == Unregister(p.reg, c.cid);
    }
  }

  lemma {:induction false} UnregisterAllAt(r: Registry, cids: seq<string>, cid: string)
    ensures At(UnregisterAll(r, cids).byClient, cid) == if cid in cids then None else At(r.byClient, cid)
  {
    if cids != [] {
      UnregisterAllAt(r, cids[..|cids| - 1], cid);
      assert cid in cids <==> cid in cids[..|cids| - 1] || cid == cids[|cids| - 1];
    }
  }

  /**
   Over every run, the registry holds for a client the name of its last accepted
   REGISTER and the time it was last heard.
   */
  lemma {:induction false} RegistryTellsHistory(commands: seq<Command>, cid: string, idOf: string -> Ident)
    ensures At(Run(commands, idOf).reg.byClient, cid) == Heard(commands, cid, idOf)
  {
    if commands != [] {
      hide Next, HeardNow;
      var before, c := commands[..|commands| - 1], commands[|commands| - 1];
      RegistryTellsHistory(before, cid, idOf);
      NextRegistration(Run(before, idOf), c, cid, idOf);
    }
  }

  /** So a client heard of within the timeout survives a sweep, and one silent for longer does not. */
  lemma SweptIffSilent(commands: seq<Command>, idOf: string -> Ident, timeout: real, sweep: Command, cid: string)
    requires sweep.Sweep? && Proper(Run(commands, idOf), sweep, timeout)
    ensures cid in Next(Run(commands, idOf), sweep, idOf).reg.byClient <==>
            Heard(commands, cid, idOf).Some? && sweep.now - Heard(commands, cid, idOf).value.lastSeen <= timeout
  {
    hide Next, Heard, Gone, Proper, Run;
    RegistryTellsHistory(commands, cid, idOf);
    SweepLeavesNothing(commands, idOf, timeout, sweep, cid, "");
  }
}
