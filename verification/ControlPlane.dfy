/**
 The control plane's tables as a value: who is online, which identity a client
 has, and what the broker keeps per identity.  ControlServer.dfy holds the
 objects that carry these tables.

 An identity is determined by the client id, as the client library sets it.
 */
module ControlPlane {
  import opened Wrappers
  import opened Routing
  import opened BufferModel

  datatype Client = Client(username: string, lastSeen: real)

  /** OnlineRegistry: clients by id, and the client id online under a username. */
  datatype Registry = Registry(byClient: map<string, Client>, byUser: map<string, string>)

  datatype Plane = Plane(
    reg: Registry,
    identOf: map<string, Ident>,    // _ident_by_client_id
    index: Index,                   // routing
    credits: map<Ident, int>,
    windows: map<Ident, int>,       // credit of the open window
    buffers: map<Ident, Limits>)    // buffered subscribers

  const EMPTY_PLANE: Plane := Plane(Registry(map[], map[]), map[], EMPTY_INDEX, map[], map[], map[])

  datatype Command =
    | Register(cid: string, username: string, topics: seq<string>, buffer: Option<Limits>, now: real)
    | Heartbeat(cid: string, credit: Option<int>, now: real)
    | SubscribeTo(cid: string, pattern: string)
    | UnsubscribeFrom(cid: string, pattern: string)
    | Disconnect(cid: string)
    | Sweep(now: real, offline: seq<string>)  // offline: the timed-out clients, in any order

  // ----- the registry -----

  function RegisterIn(r: Registry, cid: string, username: string, now: real): (bool, Registry) {
    if username in r.byUser then (false, r)
    else (true, Registry(r.byClient[cid := Client(username, now)], r.byUser[username := cid]))
  }

  function Unregister(r: Registry, cid: string): Registry {
    if cid in r.byClient then Registry(r.byClient - {cid}, r.byUser - {r.byClient[cid].username}) else r
  }

  function UnregisterAll(r: Registry, cids: seq<string>): Registry {
    if cids == [] then r else Unregister(UnregisterAll(r, cids[..|cids| - 1]), cids[|cids| - 1])
  }

  function Seen(r: Registry, cid: string, now: real): Registry {
    if cid in r.byClient then r.(byClient := r.byClient[cid := r.byClient[cid].(lastSeen := now)]) else r
  }

  predicate TimedOut(r: Registry, cid: string, now: real, timeout: real) {
    cid in r.byClient && now - r.byClient[cid].lastSeen > timeout
  }

  // ----- the broker's reaction -----

  function SubscribeAll(x: Index, id: Ident, topics: seq<string>): Index {
    if topics == [] then x
    else Subscribe(SubscribeAll(x, id, topics[..|topics| - 1]), id, topics[|topics| - 1])
  }

  /** Everything kept under an identity goes. */
  function Forget(p: Plane, id: Ident): Plane {
    p.(index := Remove(p.index, id), credits := p.credits - {id},
       windows := p.windows - {id}, buffers := p.buffers - {id})
  }

  /** A swept client's identity is looked up, forgotten and unlinked. */
  function CleanUp(p: Plane, cid: string): Plane {
    if cid in p.identOf then Forget(p, p.identOf[cid]).(identOf := p.identOf - {cid}) else p
  }

  function CleanUpAll(p: Plane, cids: seq<string>): Plane {
    if cids == [] then p else CleanUp(CleanUpAll(p, cids[..|cids| - 1]), cids[|cids| - 1])
  }

  function Next(p: Plane, c: Command, idOf: string -> Ident): Plane {
    match c
    case Register(cid, user, topics, buffer, now) =>
      var (ok, reg) := RegisterIn(p.reg, cid, user, now);
      if !ok then p
      else
        p.(reg := reg, identOf := p.identOf[cid := idOf(cid)],
           index := SubscribeAll(p.index, idOf(cid), topics),
           buffers := if buffer.Some? then p.buffers[idOf(cid) := buffer.value] else p.buffers)
    case Heartbeat(cid, credit, now) =>
      var p1 := p.(reg := Seen(p.reg, cid, now));
      if credit.Some?
      then p1.(credits := p.credits[idOf(cid) := credit.value], windows := p.windows[idOf(cid) := credit.value])
      else p1
    case SubscribeTo(cid, pattern) => p.(index := Subscribe(p.index, idOf(cid), pattern))
    case UnsubscribeFrom(cid, pattern) => p.(index := Unsubscribe(p.index, idOf(cid), pattern))
    case Disconnect(cid) =>
      Forget(p, idOf(cid)).(identOf := p.identOf - {cid}, reg := Unregister(p.reg, cid))
    case Sweep(now, offline) =>
      CleanUpAll(p.(reg := UnregisterAll(p.reg, offline)), offline)
  }

  /** A sweep handles exactly the clients that timed out. */
  ghost predicate Proper(p: Plane, c: Command, timeout: real) {
    c.Sweep? ==> forall cid :: cid in c.offline <==> TimedOut(p.reg, cid, c.now, timeout)
  }

  function Run(commands: seq<Command>, idOf: string -> Ident): Plane {
    if commands == [] then EMPTY_PLANE
    else Next(Run(commands[..|commands| - 1], idOf), commands[|commands| - 1], idOf)
  }

  // ----- the invariant -----

  ghost predicate RegistryOk(r: Registry) {
    forall c | c in r.byClient :: r.byClient[c].username in r.byUser && r.byUser[r.byClient[c].username] == c
  }

  /** Some registered client has this identity. */
  ghost predicate Owned(p: Plane, id: Ident, idOf: string -> Ident) {
    exists c :: c in p.reg.byClient && idOf(c) == id
  }

  ghost predicate Inv(p: Plane, idOf: string -> Ident) {
    && RegistryOk(p.reg)
    && p.identOf.Keys == p.reg.byClient.Keys
    && (forall c | c in p.identOf :: p.identOf[c] == idOf(c))
    && (forall id | id in p.buffers :: Owned(p, id, idOf))
    && Consistent(p.index)
  }

  lemma {:induction false} SubscribeAllConsistent(x: Index, id: Ident, topics: seq<string>)
    requires Consistent(x)
    ensures Consistent(SubscribeAll(x, id, topics))
  {
    hide Consistent, Subscribe;
    if topics != [] {
      var n := |topics| - 1;
      SubscribeAllConsistent(x, id, topics[..n]);
      SubscribeConsistent(SubscribeAll(x, id, topics[..n]), id, topics[n]);
    }
  }

  lemma {:induction false} UnregisterAllRemoves(r: Registry, cids: seq<string>)
    requires RegistryOk(r)
    ensures RegistryOk(UnregisterAll(r, cids))
    ensures forall c :: c in UnregisterAll(r, cids).byClient <==> c in r.byClient && c !in cids
  {
    if cids != [] {
      var n := |cids| - 1;
      UnregisterAllRemoves(r, cids[..n]);
      assert forall c :: c in cids <==> c in cids[..n] || c == cids[n];
    }
  }

  lemma {:induction false} CleanUpAllRemoves(p: Plane, cids: seq<string>, idOf: string -> Ident)
    requires Consistent(p.index) && forall c | c in p.identOf :: p.identOf[c] == idOf(c)
    ensures var p' := CleanUpAll(p, cids);
            && Consistent(p'.index) && p'.reg == p.reg
            && (forall c :: c in p'.identOf <==> c in p.identOf && c !in cids)
            && (forall c | c in p'.identOf :: p'.identOf[c] == idOf(c))
            && p'.buffers.Keys <= p.buffers.Keys && p'.credits.Keys <= p.credits.Keys
            && p'.windows.Keys <= p.windows.Keys
            && p'.index.byIdentity.Keys <= p.index.byIdentity.Keys
            && (forall c | c in cids && c in p.identOf :: Gone(p', idOf(c)))
  {
    if cids != [] {
      hide Consistent, Scrub;
      var n := |cids| - 1;
      CleanUpAllRemoves(p, cids[..n], idOf);
      var m := CleanUpAll(p, cids[..n]);
      if cids[n] in m.identOf {
        RemoveConsistent(m.index, m.identOf[cids[n]]);
      }
      assert forall c :: c in cids <==> c in cids[..n] || c == cids[n];
      forall c | c in cids && c in p.identOf
        ensures Gone(CleanUpAll(p, cids), idOf(c))
      {
        if c in cids[..n] {
          assert Gone(m, idOf(c));
        }
      }
    }
  }

  /** Nothing is kept under this identity. */
  ghost predicate Gone(p: Plane, id: Ident) {
    id !in p.credits && id !in p.windows && id !in p.buffers && id !in p.index.byIdentity
  }

  lemma RegisterKeepsInv(p: Plane, c: Command, idOf: string -> Ident)
    requires Inv(p, idOf) && c.Register?
    ensures Inv(Next(p, c, idOf), idOf)
  {
    hide Consistent;
    SubscribeAllConsistent(p.index, idOf(c.cid), c.topics);
    var p' := Next(p, c, idOf);
    if p' != p {
      forall id | id in p'.buffers
        ensures Owned(p', id, idOf)
      {
        if id in p.buffers {
          var k :| k in p.reg.byClient && idOf(k) == id;
          assert k in p'.reg.byClient;
        } else {
          assert c.cid in p'.reg.byClient;
        }
      }
    }
  }

  lemma DisconnectKeepsInv(p: Plane, c: Command, idOf: string -> Ident)
    requires Inv(p, idOf) && c.Disconnect?
    ensures Inv(Next(p, c, idOf), idOf)
  {
    hide Consistent, Remove;
    RemoveConsistent(p.index, idOf(c.cid));
    var p' := Next(p, c, idOf);
    forall id | id in p'.buffers
      ensures Owned(p', id, idOf)
    {
      var k :| k in p.reg.byClient && idOf(k) == id;
      assert k in p'.reg.byClient;
    }
  }

  lemma SweepKeepsInv(p: Plane, c: Command, idOf: string -> Ident)
    requires Inv(p, idOf) && c.Sweep?
    ensures Inv(Next(p, c, idOf), idOf)
  {
    hide Consistent, RegistryOk;
    var p1 := p.(reg := UnregisterAll(p.reg, c.offline));
    UnregisterAllRemoves(p.reg, c.offline);
    CleanUpAllRemoves(p1, c.offline, idOf);
    var p' := Next(p, c, idOf);
    forall id | id in p'.buffers
      ensures Owned(p', id, idOf)
    {
      var k :| k in p.reg.byClient && idOf(k) == id;
      assert k in p.identOf;
      assert k in p'.reg.byClient;
    }
  }

  lemma SeenKeepsRegistry(r: Registry, cid: string, now: real)
    requires RegistryOk(r)
    ensures RegistryOk(Seen(r, cid, now)) && Seen(r, cid, now).byClient.Keys == r.byClient.Keys
  {
  }

  lemma OtherKeepsInv(p: Plane, c: Command, idOf: string -> Ident)
    requires Inv(p, idOf) && (c.Heartbeat? || c.SubscribeTo? || c.UnsubscribeFrom?)
    ensures Inv(Next(p, c, idOf), idOf)
  {
    hide Consistent, Owned, Subscribe, Unsubscribe, Seen, RegistryOk;
    var p' := Next(p, c, idOf);
    if c.Heartbeat? {
      SeenKeepsRegistry(p.reg, c.cid, c.now);
    }
    assert p'.reg.byClient.Keys == p.reg.byClient.Keys;
    OwnersStay(p, p', idOf);
    match c {
      case SubscribeTo(cid, pattern) => SubscribeConsistent(p.index, idOf(cid), pattern);
      case UnsubscribeFrom(cid, pattern) => UnsubscribeConsistent(p.index, idOf(cid), pattern);
      case _ =>
    }
  }

  lemma StepKeepsInv(p: Plane, c: Command, idOf: string -> Ident)
    requires Inv(p, idOf)
    ensures Inv(Next(p, c, idOf), idOf)
  {
    hide Inv, Next;
    match c
    case Register(_, _, _, _, _) => RegisterKeepsInv(p, c, idOf);
    case Disconnect(_) => DisconnectKeepsInv(p, c, idOf);
    case Sweep(_, _) => SweepKeepsInv(p, c, idOf);
    case _ => OtherKeepsInv(p, c, idOf);
  }

  lemma OwnersStay(p: Plane, p': Plane, idOf: string -> Ident)
    requires p'.reg.byClient.Keys == p.reg.byClient.Keys
    ensures forall id :: Owned(p, id, idOf) <==> Owned(p', id, idOf)
  {
    assert forall c :: c in p.reg.byClient <==> c in p'.reg.byClient;
  }

  lemma {:induction false} RunKeepsInv(commands: seq<Command>, idOf: string -> Ident)
    ensures Inv(Run(commands, idOf), idOf)
  {
    if commands == [] {
      assert forall p: string :: Owners(EMPTY_INDEX.byIdentity, p) == {};
    } else {
      hide Inv, Next;
      var n := |commands| - 1;
      RunKeepsInv(commands[..n], idOf);
      StepKeepsInv(Run(commands[..n], idOf), commands[n], idOf);
    }
  }

  // ----- what every run guarantees -----

  /** No two registered clients share a username. */
  lemma OneClientPerUsername(commands: seq<Command>, idOf: string -> Ident, c: string, d: string)
    requires var r := Run(commands, idOf).reg; c in r.byClient && d in r.byClient && c != d
    ensures var r := Run(commands, idOf).reg; r.byClient[c].username != r.byClient[d].username
  {
    RunKeepsInv(commands, idOf);
  }

  /** A buffer never outlives the registration of a client with its identity. */
  lemma BuffersBelongToRegistered(commands: seq<Command>, idOf: string -> Ident, id: Ident)
    requires id in Run(commands, idOf).buffers
    ensures Owned(Run(commands, idOf), id, idOf)
  {
    RunKeepsInv(commands, idOf);
  }

  lemma GoneIsUnmatched(p: Plane, id: Ident, t: string)
    requires Consistent(p.index) && Gone(p, id)
    ensures id !in Lookup(p.index, t)
  {
    hide Consistent, Lookup;
    LookupIsMatches(p.index, t, id);
  }

  /** After any run, a client's DISCONNECT leaves nothing of it. */
  lemma DisconnectLeavesNothing(commands: seq<Command>, idOf: string -> Ident, cid: string, t: string)
    ensures var p := Next(Run(commands, idOf), Disconnect(cid), idOf);
            && cid !in p.reg.byClient && cid !in p.identOf
            && Gone(p, idOf(cid)) && idOf(cid) !in Lookup(p.index, t)
  {
    hide Consistent, Lookup, Scrub;
    RunKeepsInv(commands, idOf);
    var p := Next(Run(commands, idOf), Disconnect(cid), idOf);
    DisconnectKeepsInv(Run(commands, idOf), Disconnect(cid), idOf);
    GoneIsUnmatched(p, idOf(cid), t);
  }

  /** After any run, a sweep leaves nothing of a registered client that timed out, and keeps the others registered. */
  lemma SweepLeavesNothing(commands: seq<Command>, idOf: string -> Ident, timeout: real, sweep: Command,
                           cid: string, t: string)
    requires sweep.Sweep? && Proper(Run(commands, idOf), sweep, timeout)
    ensures var before, p := Run(commands, idOf), Next(Run(commands, idOf), sweep, idOf);
            if cid !in before.reg.byClient then cid !in p.reg.byClient
            else if sweep.now - before.reg.byClient[cid].lastSeen <= timeout then cid in p.reg.byClient
            else cid !in p.reg.byClient && cid !in p.identOf && Gone(p, idOf(cid)) && idOf(cid) !in Lookup(p.index, t)
  {
    hide Consistent, Lookup, CleanUpAll, UnregisterAll;
    RunKeepsInv(commands, idOf);
    var before := Run(commands, idOf);
    var p1 := before.(reg := UnregisterAll(before.reg, sweep.offline));
    UnregisterAllRemoves(before.reg, sweep.offline);
    CleanUpAllRemoves(p1, sweep.offline, idOf);
    var p := Next(before, sweep, idOf);
    if TimedOut(before.reg, cid, sweep.now, timeout) {
      assert cid in before.identOf;
      GoneIsUnmatched(p, idOf(cid), t);
    }
  }

  // ----- what a sweep cannot reach -----

  /** Every identity with credit, a window or subscriptions belongs to a registered client. */
  ghost predicate NoOrphans(p: Plane, idOf: string -> Ident) {
    forall id :: id in p.credits || id in p.windows || id in p.index.byIdentity ==> Owned(p, id, idOf)
  }

  /** A credit report adds an orphan exactly when its sender's identity belongs to no registered client. */
  lemma CreditOrphansExactlyUnregistered(p: Plane, idOf: string -> Ident, cid: string, credit: int, now: real)
    requires NoOrphans(p, idOf)
    ensures NoOrphans(Next(p, Heartbeat(cid, Some(credit), now), idOf), idOf) <==> Owned(p, idOf(cid), idOf)
  {
    var p' := Next(p, Heartbeat(cid, Some(credit), now), idOf);
    OwnersStay(p, p', idOf);
    assert idOf(cid) in p'.credits;
  }

  /** A subscription adds an orphan exactly when its sender's identity belongs to no registered client. */
  lemma SubscriptionOrphansExactlyUnregistered(p: Plane, idOf: string -> Ident, cid: string, pattern: string)
    requires NoOrphans(p, idOf)
    ensures NoOrphans(Next(p, SubscribeTo(cid, pattern), idOf), idOf) <==> Owned(p, idOf(cid), idOf)
  {
    var p' := Next(p, SubscribeTo(cid, pattern), idOf);
    OwnersStay(p, p', idOf);
    assert idOf(cid) in p'.index.byIdentity;
  }

  lemma {:induction false} SubscribeAllKeys(x: Index, id: Ident, topics: seq<string>)
    ensures SubscribeAll(x, id, topics).byIdentity.Keys <= x.byIdentity.Keys + {id}
  {
    if topics != [] {
      SubscribeAllKeys(x, id, topics[..|topics| - 1]);
    }
  }

  lemma RegisterKeepsNoOrphans(p: Plane, c: Command, idOf: string -> Ident)
    requires NoOrphans(p, idOf) && c.Register?
    ensures NoOrphans(Next(p, c, idOf), idOf)
  {
    hide Subscribe, SubscribeAll;
    var p' := Next(p, c, idOf);
    SubscribeAllKeys(p.index, idOf(c.cid), c.topics);
    if p' != p {
      assert c.cid in p'.reg.byClient;
      OwnersOnlyGrow(p, p', idOf);
    }
  }

  lemma OwnersOnlyGrow(p: Plane, p': Plane, idOf: string -> Ident)
    requires p.reg.byClient.Keys <= p'.reg.byClient.Keys
    ensures forall id | Owned(p, id, idOf) :: Owned(p', id, idOf)
  {
    assert forall c | c in p.reg.byClient :: c in p'.reg.byClient;
  }

  /** An identity that none of the leaving clients has keeps its owner. */
  lemma OwnerStays(p: Plane, p': Plane, idOf: string -> Ident, gone: seq<string>, id: Ident)
    requires forall c :: c in p'.reg.byClient <==> c in p.reg.byClient && c !in gone
    requires Owned(p, id, idOf) && forall c | c in gone && c in p.reg.byClient :: idOf(c) != id
    ensures Owned(p', id, idOf)
  {
    var c :| c in p.reg.byClient && idOf(c) == id;
    assert c in p'.reg.byClient;
  }

  lemma DisconnectKeepsNoOrphans(p: Plane, c: Command, idOf: string -> Ident)
    requires NoOrphans(p, idOf) && c.Disconnect?
    ensures NoOrphans(Next(p, c, idOf), idOf)
  {
    hide Scrub;
    var p' := Next(p, c, idOf);
    forall id | id in p'.credits || id in p'.windows || id in p'.index.byIdentity
      ensures Owned(p', id, idOf)
    {
      assert Owned(p, id, idOf) && id != idOf(c.cid);
      OwnerStays(p, p', idOf, [c.cid], id);
    }
  }

  lemma SweepKeepsNoOrphans(p: Plane, c: Command, idOf: string -> Ident)
    requires Inv(p, idOf) && NoOrphans(p, idOf) && c.Sweep?
    ensures NoOrphans(Next(p, c, idOf), idOf)
  {
    hide Consistent, RegistryOk, CleanUpAll, UnregisterAll;
    var p1 := p.(reg := UnregisterAll(p.reg, c.offline));
    UnregisterAllRemoves(p.reg, c.offline);
    CleanUpAllRemoves(p1, c.offline, idOf);
    var p' := Next(p, c, idOf);
    forall id | id in p'.credits || id in p'.windows || id in p'.index.byIdentity
      ensures Owned(p', id, idOf)
    {
      assert Owned(p, id, idOf);
      forall k | k in c.offline && k in p.reg.byClient
        ensures idOf(k) != id
      {
        assert k in p.identOf && Gone(p', idOf(k));
      }
      OwnerStays(p, p', idOf, c.offline, id);
    }
  }

  /** The command puts credit or a subscription under an identity no registered client has. */
  ghost predicate Strays(p: Plane, c: Command, idOf: string -> Ident) {
    ((c.Heartbeat? && c.credit.Some?) || c.SubscribeTo?) && !Owned(p, idOf(c.cid), idOf)
  }

  /** One command keeps every table free of orphans exactly when it does not stray. */
  lemma OrphansOnlyByStraying(p: Plane, c: Command, idOf: string -> Ident)
    requires Inv(p, idOf) && NoOrphans(p, idOf)
    ensures NoOrphans(Next(p, c, idOf), idOf) <==> !Strays(p, c, idOf)
  {
    match c
    case Register(_, _, _, _, _) => RegisterKeepsNoOrphans(p, c, idOf);
    case Disconnect(_) => DisconnectKeepsNoOrphans(p, c, idOf);
    case Sweep(_, _) => SweepKeepsNoOrphans(p, c, idOf);
    case Heartbeat(cid, credit, now) =>
      hide Consistent, NoOrphans;
      match credit {
        case Some(n) => CreditOrphansExactlyUnregistered(p, idOf, cid, n, now);
        case None =>
          OwnersStay(p, Next(p, c, idOf), idOf);
          NoNewKeysNoOrphans(p, Next(p, c, idOf), idOf);
      }
    case SubscribeTo(cid, pattern) => SubscriptionOrphansExactlyUnregistered(p, idOf, cid, pattern);
    case UnsubscribeFrom(cid, pattern) =>
      hide Consistent, NoOrphans;
      OwnersStay(p, Next(p, c, idOf), idOf);
      NoNewKeysNoOrphans(p, Next(p, c, idOf), idOf);
  }

  lemma NoNewKeysNoOrphans(p: Plane, p': Plane, idOf: string -> Ident)
    requires NoOrphans(p, idOf)
    requires forall id :: Owned(p, id, idOf) <==> Owned(p', id, idOf)
    requires p'.credits.Keys <= p.credits.Keys && p'.windows.Keys <= p.windows.Keys
    requires p'.index.byIdentity.Keys <= p.index.byIdentity.Keys
    ensures NoOrphans(p', idOf)
  {
    hide Owned;
  }

  lemma {:induction false} NeverStrayedNoOrphans(commands: seq<Command>, idOf: string -> Ident)
    requires forall i | 0 <= i < |commands| :: !Strays(Run(commands[..i], idOf), commands[i], idOf)
    ensures NoOrphans(Run(commands, idOf), idOf)
  {
    if commands != [] {
      hide NoOrphans, Strays, Next;
      var n := |commands| - 1;
      assert forall i | 0 <= i < n :: commands[..n][..i] == commands[..i];
      NeverStrayedNoOrphans(commands[..n], idOf);
      RunKeepsInv(commands[..n], idOf);
      OrphansOnlyByStraying(Run(commands[..n], idOf), commands[n], idOf);
    }
  }

  lemma OneMore(commands: seq<Command>, idOf: string -> Ident, i: nat)
    requires i < |commands|
    ensures Run(commands[..i + 1], idOf) == Next(Run(commands[..i], idOf), commands[i], idOf)
  {
    hide Next;
    assert commands[..i + 1][..i] == commands[..i];
  }

  lemma FirstOf(commands: seq<Command>, k: nat, i: nat)
    requires i <= k <= |commands|
    ensures commands[..k][..i] == commands[..i]
  {
  }

  /**
   Over whole runs: every state up to the end is free of orphans exactly when
   every credit report and every subscription came while a registered client had
   its sender's identity.
   */
  lemma NoOrphansIff(commands: seq<Command>, idOf: string -> Ident)
    ensures (forall i | 0 <= i <= |commands| :: NoOrphans(Run(commands[..i], idOf), idOf)) <==>
            (forall i | 0 <= i < |commands| :: !Strays(Run(commands[..i], idOf), commands[i], idOf))
  {
    hide NoOrphans, Strays, Next, Run;
    if forall i | 0 <= i <= |commands| :: NoOrphans(Run(commands[..i], idOf), idOf) {
      forall i | 0 <= i < |commands|
        ensures !Strays(Run(commands[..i], idOf), commands[i], idOf)
      {
        assert NoOrphans(Run(commands[..i + 1], idOf), idOf);
        OneMore(commands, idOf, i);
        RunKeepsInv(commands[..i], idOf);
        OrphansOnlyByStraying(Run(commands[..i], idOf), commands[i], idOf);
      }
    }
    if forall i | 0 <= i < |commands| :: !Strays(Run(commands[..i], idOf), commands[i], idOf) {
      forall k | 0 <= k <= |commands|
        ensures NoOrphans(Run(commands[..k], idOf), idOf)
      {
        forall i | 0 <= i < k
          ensures !Strays(Run(commands[..k][..i], idOf), commands[..k][i], idOf)
        {
          FirstOf(commands, k, i);
        }
        NeverStrayedNoOrphans(commands[..k], idOf);
      }
    }
  }

  /** Credit nobody owns: no registered client has the identity. */
  ghost predicate Stranded(p: Plane, id: Ident, idOf: string -> Ident) {
    id in p.credits && !Owned(p, id, idOf)
  }

  /** The command comes from a client with this identity and registers it or says goodbye. */
  predicate Claims(c: Command, id: Ident, idOf: string -> Ident) {
    (c.Register? || c.Disconnect?) && idOf(c.cid) == id
  }

  lemma StrandedStep(p: Plane, c: Command, id: Ident, idOf: string -> Ident)
    requires Inv(p, idOf) && Stranded(p, id, idOf) && !Claims(c, id, idOf)
    ensures Stranded(Next(p, c, idOf), id, idOf)
  {
    hide Consistent, Subscribe, Unsubscribe, Remove, SubscribeAll, CleanUpAll, UnregisterAll, RegistryOk;
    var p' := Next(p, c, idOf);
    if c.Sweep? {
      UnregisterAllRemoves(p.reg, c.offline);
      assert forall k | k in p.identOf :: p.identOf[k] != id;
      var p1 := p.(reg := UnregisterAll(p.reg, c.offline));
      CleanUpKeepsStrangers(p1, c.offline, id);
      CleanUpAllRemoves(p1, c.offline, idOf);
    }
    assert forall k | k in p'.reg.byClient :: k in p.reg.byClient || (c.Register? && k == c.cid);
    assert id in p'.credits;
  }

  lemma {:induction false} CleanUpKeepsStrangers(p: Plane, cids: seq<string>, id: Ident)
    requires forall c | c in p.identOf :: p.identOf[c] != id
    ensures var p' := CleanUpAll(p, cids);
            && (id in p.credits ==> id in p'.credits)
            && (forall c | c in p'.identOf :: c in p.identOf && p'.identOf[c] == p.identOf[c])
  {
    if cids != [] {
      hide Remove;
      CleanUpKeepsStrangers(p, cids[..|cids| - 1], id);
    }
  }

  /**
   Credit reported for an identity no registered client has, say by a heartbeat
   that arrives after its client was swept, survives every later run of commands
   and sweeps in which no client with that identity registers or disconnects.
   */
  lemma {:induction false} StrayCreditSurvives(commands: seq<Command>, idOf: string -> Ident, cid: string, credit: int,
                                               now: real, later: seq<Command>)
    requires !Owned(Run(commands, idOf), idOf(cid), idOf)
    requires forall i | 0 <= i < |later| :: !Claims(later[i], idOf(cid), idOf)
    ensures Stranded(Run(commands + [Heartbeat(cid, Some(credit), now)] + later, idOf), idOf(cid), idOf)
  {
    var beat := Heartbeat(cid, Some(credit), now);
    var all := commands + [beat] + later;
    RunUnfolds(all, idOf);
    hide Run;
    if later == [] {
      assert all[..|all| - 1] == commands && all[|all| - 1] == beat;
      OwnersStay(Run(commands, idOf), Next(Run(commands, idOf), beat, idOf), idOf);
    } else {
      hide Stranded, Claims, Next;
      var n := |later| - 1;
      StrayCreditSurvives(commands, idOf, cid, credit, now, later[..n]);
      assert all[..|all| - 1] == commands + [beat] + later[..n] && all[|all| - 1] == later[n];
      RunKeepsInv(all[..|all| - 1], idOf);
      StrandedStep(Run(all[..|all| - 1], idOf), later[n], idOf(cid), idOf);
    }
  }

  // ----- usernames and clients -----

  /** The two maps of the registry are inverse to each other. */
  ghost predicate ExactInverse(r: Registry) {
    && RegistryOk(r)
    && forall u | u in r.byUser :: r.byUser[u] in r.byClient && r.byClient[r.byUser[u]].username == u
  }

  /** A successful REGISTER keeps them inverse exactly when the client was not registered before. */
  lemma RegisterKeepsInverseIff(r: Registry, cid: string, username: string, now: real)
    requires ExactInverse(r)
    ensures ExactInverse(RegisterIn(r, cid, username, now).1) <==> username in r.byUser || cid !in r.byClient
  {
    var r' := RegisterIn(r, cid, username, now).1;
    if username !in r.byUser && cid in r.byClient {
      var former := r.byClient[cid].username;
      assert r'.byUser[former] == cid && r'.byClient[cid].username != former;
    }
  }

  lemma UnregisterKeepsInverse(r: Registry, cid: string)
    requires ExactInverse(r)
    ensures ExactInverse(Unregister(r, cid))
  {
  }

  lemma {:induction false} UnregisterAllKeepsInverse(r: Registry, cids: seq<string>)
    requires ExactInverse(r)
    ensures ExactInverse(UnregisterAll(r, cids))
  {
    if cids != [] {
      hide ExactInverse, Unregister;
      UnregisterAllKeepsInverse(r, cids[..|cids| - 1]);
      UnregisterKeepsInverse(UnregisterAll(r, cids[..|cids| - 1]), cids[|cids| - 1]);
    }
  }

  lemma SeenKeepsInverse(r: Registry, cid: string, now: real)
    requires ExactInverse(r)
    ensures ExactInverse(Seen(r, cid, now))
  {
  }

  /** The command registers, under a free name, a client that is registered already. */
  predicate Renames(p: Plane, c: Command) {
    c.Register? && c.username !in p.reg.byUser && c.cid in p.reg.byClient
  }

  lemma InverseKeptIff(p: Plane, c: Command, idOf: string -> Ident)
    requires ExactInverse(p.reg)
    ensures ExactInverse(Next(p, c, idOf).reg) <==> !Renames(p, c)
  {
    hide ExactInverse, RegisterIn, Unregister, Seen, UnregisterAll, Subscribe, Unsubscribe, Remove, CleanUpAll;
    match c
    case Register(cid, user, _, _, now) =>
      RegisterKeepsInverseIff(p.reg, cid, user, now);
      RegisterAnswer(p.reg, cid, user, now);
    case Disconnect(cid) => UnregisterKeepsInverse(p.reg, cid);
    case Sweep(_, offline) =>
      UnregisterAllKeepsInverse(p.reg, offline);
      CleanUpKeepsRegistry(p.(reg := UnregisterAll(p.reg, offline)), offline);
    case Heartbeat(cid, _, now) => SeenKeepsInverse(p.reg, cid, now);
    case _ =>
  }

  lemma RegisterAnswer(r: Registry, cid: string, username: string, now: real)
    ensures var (ok, r') := RegisterIn(r, cid, username, now); ok == (username !in r.byUser) && (!ok ==> r' == r)
  {
  }

  lemma {:induction false} CleanUpKeepsRegistry(p: Plane, cids: seq<string>)
    ensures CleanUpAll(p, cids).reg == p.reg
  {
    if cids != [] {
      hide Remove;
      CleanUpKeepsRegistry(p, cids[..|cids| - 1]);
    }
  }

  lemma {:induction false} NeverRenamedInverse(commands: seq<Command>, idOf: string -> Ident)
    requires forall i | 0 <= i < |commands| :: !Renames(Run(commands[..i], idOf), commands[i])
    ensures ExactInverse(Run(commands, idOf).reg)
  {
    if commands != [] {
      hide ExactInverse, Renames, Next;
      var n := |commands| - 1;
      assert forall i | 0 <= i < n :: commands[..n][..i] == commands[..i];
      NeverRenamedInverse(commands[..n], idOf);
      InverseKeptIff(Run(commands[..n], idOf), commands[n], idOf);
    }
  }

  /**
   Over whole runs: the maps are inverse in every state exactly when no registered
   client registers under a new name.
   */
  lemma InverseIff(commands: seq<Command>, idOf: string -> Ident)
    ensures (forall i | 0 <= i <= |commands| :: ExactInverse(Run(commands[..i], idOf).reg)) <==>
            (forall i | 0 <= i < |commands| :: !Renames(Run(commands[..i], idOf), commands[i]))
  {
    hide ExactInverse, Renames, Next, Run;
    if forall i | 0 <= i <= |commands| :: ExactInverse(Run(commands[..i], idOf).reg) {
      forall i | 0 <= i < |commands|
        ensures !Renames(Run(commands[..i], idOf), commands[i])
      {
        assert ExactInverse(Run(commands[..i + 1], idOf).reg);
        OneMore(commands, idOf, i);
        InverseKeptIff(Run(commands[..i], idOf), commands[i], idOf);
      }
    }
    if forall i | 0 <= i < |commands| :: !Renames(Run(commands[..i], idOf), commands[i]) {
      forall k | 0 <= k <= |commands|
        ensures ExactInverse(Run(commands[..k], idOf).reg)
      {
        forall i | 0 <= i < k
          ensures !Renames(Run(commands[..k][..i], idOf), commands[..k][i])
        {
          FirstOf(commands, k, i);
        }
        NeverRenamedInverse(commands[..k], idOf);
      }
    }
  }

  /** The name is taken and no registered client has it. */
  ghost predicate StaleName(r: Registry, u: string) {
    u in r.byUser && forall c | c in r.byClient :: r.byClient[c].username != u
  }

  lemma UnregisterKeepsStale(r: Registry, cid: string, u: string)
    requires StaleName(r, u)
    ensures StaleName(Unregister(r, cid), u)
  {
  }

  lemma {:induction false} UnregisterAllKeepsStale(r: Registry, cids: seq<string>, u: string)
    requires StaleName(r, u)
    ensures StaleName(UnregisterAll(r, cids), u)
  {
    if cids != [] {
      hide StaleName, Unregister;
      UnregisterAllKeepsStale(r, cids[..|cids| - 1], u);
      UnregisterKeepsStale(UnregisterAll(r, cids[..|cids| - 1]), cids[|cids| - 1], u);
    }
  }

  lemma StaleStep(p: Plane, c: Command, idOf: string -> Ident, u: string)
    requires StaleName(p.reg, u)
    ensures StaleName(Next(p, c, idOf).reg, u)
  {
    hide UnregisterAll, Subscribe, Unsubscribe, Remove, CleanUpAll, SubscribeAll;
    match c
    case Disconnect(cid) => UnregisterKeepsStale(p.reg, cid, u);
    case Sweep(_, offline) =>
      UnregisterAllKeepsStale(p.reg, offline, u);
      CleanUpKeepsRegistry(p.(reg := UnregisterAll(p.reg, offline)), offline);
    case _ =>
  }

  lemma {:induction false} OldNameGoesStale(commands: seq<Command>, idOf: string -> Ident, again: Command,
                                            later: seq<Command>)
    requires Renames(Run(commands, idOf), again)
    ensures var u := Run(commands, idOf).reg.byClient[again.cid].username;
            StaleName(Run(commands + [again] + later, idOf).reg, u)
  {
    var u := Run(commands, idOf).reg.byClient[again.cid].username;
    var all := commands + [again] + later;
    RunUnfolds(all, idOf);
    if later == [] {
      assert all[..|all| - 1] == commands && all[|all| - 1] == again;
      RunKeepsInv(commands, idOf);
      RenamingStales(Run(commands, idOf), again, idOf);
    } else {
      var n := |later| - 1;
      OldNameGoesStale(commands, idOf, again, later[..n]);
      hide Inv, StaleName, Renames, Next, Run;
      assert all[..|all| - 1] == commands + [again] + later[..n] && all[|all| - 1] == later[n];
      StaleStep(Run(all[..|all| - 1], idOf), later[n], idOf, u);
    }
  }

  /**
   When a registered client registers again under another free name, its old
   name is lost for good: after any later commands, also after the client has
   left, nobody has it and every REGISTER under it is refused.
   */
  lemma OldNameIsLost(commands: seq<Command>, idOf: string -> Ident, again: Command, later: seq<Command>)
    requires Renames(Run(commands, idOf), again)
    ensures var u := Run(commands, idOf).reg.byClient[again.cid].username;
            var r := Run(commands + [again] + later, idOf).reg;
            && (forall c | c in r.byClient :: r.byClient[c].username != u)
            && (forall c, now :: RegisterIn(r, c, u, now) == (false, r))
  {
    OldNameGoesStale(commands, idOf, again, later);
    hide Run;
  }

  lemma RenamingStales(p: Plane, again: Command, idOf: string -> Ident)
    requires Inv(p, idOf) && Renames(p, again)
    ensures StaleName(Next(p, again, idOf).reg, p.reg.byClient[again.cid].username)
  {
    hide Consistent, Subscribe, SubscribeAll;
  }

  lemma RunUnfolds(commands: seq<Command>, idOf: string -> Ident)
    requires commands != []
    ensures Run(commands, idOf) == Next(Run(commands[..|commands| - 1], idOf), commands[|commands| - 1], idOf)
  {
  }
}
