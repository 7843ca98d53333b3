/**
 The objects behind ControlPlane: the registry, and the broker's dispatcher over
 the routing table and the buffer manager.
 */
module ControlServers {
  import opened Wrappers
  import opened Routing
  import opened SubscriptionTables
  import opened BufferModel
  import opened BufferManagers
  import opened ControlPlane

  class OnlineRegistry {
    const heartbeatTimeout: real
    var byClient: map<string, Client>
    var byUser: map<string, string>

    ghost function Model(): Registry
      reads this
    {
      Registry(byClient, byUser)
    }

    constructor (heartbeatTimeout: real)
      ensures Model() == Registry(map[], map[]) && this.heartbeatTimeout == heartbeatTimeout
    {
      this.heartbeatTimeout, byClient, byUser := heartbeatTimeout, map[], map[];
    }

    /** Refuses a username that is online already. */
    method Register(cid: string, username: string, now: real) returns (ok: bool)
      modifies this
      ensures (ok, Model()) == RegisterIn(old(Model()), cid, username, now)
    {
      if username in byUser {
        return false;
      }
      byClient := byClient[cid := Client(username, now)];
      byUser := byUser[username := cid];
      return true;
    }

    method Heartbeat(cid: string, now: real)
      modifies this
      ensures Model() == Seen(old(Model()), cid, now)
    {
      if cid in byClient {
        byClient := byClient[cid := byClient[cid].(lastSeen := now)];
      }
    }

    method Unregister(cid: string)
      modifies this
      ensures Model() == ControlPlane.Unregister(old(Model()), cid)
    {
      if cid in byClient {
        var username := byClient[cid].username;
        byClient := byClient - {cid};
        byUser := byUser - {username};
      }
    }

    /** Unregisters every client not heard of for longer than the timeout and says which. */
    method SweepTimeout(now: real) returns (offline: seq<string>)
      modifies this
      ensures forall c :: c in offline <==> TimedOut(old(Model()), c, now, heartbeatTimeout)
      ensures Model() == UnregisterAll(old(Model()), offline)
    {
      offline := TimedOutClients(now);
      var i := 0;
      while i < |offline|
        invariant i <= |offline| && Model() == UnregisterAll(old(Model()), offline[..i])
      {
        Unregister(offline[i]);
        i := i + 1;
        assert offline[..i][..i - 1] == offline[..i - 1];
      }
      assert offline[..i] == offline;
    }

    method TimedOutClients(now: real) returns (offline: seq<string>)
      ensures forall c :: c in offline <==> TimedOut(Model(), c, now, heartbeatTimeout)
    {
      offline := [];
      var todo := byClient.Keys;
      while todo != {}
        invariant todo <= byClient.Keys
        invariant forall c :: c in offline <==> c !in todo && TimedOut(Model(), c, now, heartbeatTimeout)
        decreases todo
      {
        var c :| c in todo;
        if now - byClient[c].lastSeen > heartbeatTimeout {
          offline := offline + [c];
        }
        todo := todo - {c};
      }
    }
  }

  class ControlServer {
    const idOf: string -> Ident
    const registry: OnlineRegistry
    const routing: SubscriptionTable
    const manager: BufferManager
    var identOf: map<string, Ident>
    var credits: map<Ident, int>

    ghost predicate Valid()
      reads this, routing, manager, manager.buffers.Values, manager.windows.Values
    {
      routing.Valid() && manager.Valid()
    }

    ghost function Model(): Plane
      reads this, registry, routing, manager
    {
      Plane(registry.Model(), identOf, routing.readIndex, credits, Grants(), LimitsHeld())
    }

    /** The credit each open window was opened with. */
    ghost function Grants(): map<Ident, int>
      reads manager`windows
    {
      map i | i in manager.windows :: manager.windows[i].credit
    }

    ghost function LimitsHeld(): map<Ident, Limits>
      reads manager`buffers
    {
      map i | i in manager.buffers :: manager.buffers[i].lim
    }

    constructor (idOf: string -> Ident, timeout: real, maxMessages: int, maxBytes: int, maxAge: real)
      ensures Valid() && Model() == EMPTY_PLANE && fresh(registry) && fresh(routing) && fresh(manager)
    {
      this.idOf := idOf;
      registry := new OnlineRegistry(timeout);
      routing := new SubscriptionTable();
      manager := new BufferManager(maxMessages, maxBytes, maxAge);
      identOf, credits := map[], map[];
    }

    /**
     A registration is recorded with its subscriptions and, if asked for, an empty
     buffer within the server's limits.
     */
    method OnRegister(cid: string, username: string, topics: seq<string>, buffer: Option<Limits>, now: real)
      requires Valid()
      modifies this, registry, routing, manager
      ensures Valid()
      ensures var granted := if buffer.Some? then Some(manager.Granted(buffer.value)) else None;
              Model() == Next(old(Model()), Register(cid, username, topics, granted, now), idOf)
    {
      hide Routing.Subscribe, SubscriptionTable.Valid, BufferManager.Valid, BufferManager.Granted, Grants;
      var ident := idOf(cid);
      var ok := registry.Register(cid, username, now);
      if ok {
        identOf := identOf[cid := ident];
        SubscribeTopics(ident, topics);
        if buffer.Some? {
          GrantBuffer(ident, buffer.value);
        }
      }
    }

    method SubscribeTopics(ident: Ident, topics: seq<string>)
      requires routing.Valid()
      modifies routing
      ensures routing.Valid() && routing.readIndex == SubscribeAll(old(routing.readIndex), ident, topics)
    {
      hide Routing.Subscribe, SubscriptionTable.Valid;
      var i := 0;
      while i < |topics|
        invariant i <= |topics| && routing.Valid()
        invariant routing.readIndex == SubscribeAll(old(routing.readIndex), ident, topics[..i])
      {
        routing.Subscribe(ident, topics[i]);
        i := i + 1;
        assert topics[..i][..i - 1] == topics[..i - 1];
      }
      assert topics[..i] == topics;
    }

    method GrantBuffer(ident: Ident, asked: Limits)
      requires manager.Valid()
      modifies manager`buffers
      ensures manager.Valid() && LimitsHeld() == old(LimitsHeld())[ident := manager.Granted(asked)]
    {
      hide BufferManager.Valid, BufferManager.Granted;
      manager.SetPolicy(ident, asked);
    }

    method OnHeartbeat(cid: string, credit: Option<int>, now: real)
      requires Valid()
      modifies this, registry, manager
      ensures Valid() && Model() == Next(old(Model()), Heartbeat(cid, credit, now), idOf)
    {
      hide SubscriptionTable.Valid, LimitsHeld;
      registry.Heartbeat(cid, now);
      if credit.Some? {
        credits := credits[idOf(cid) := credit.value];
        OpenWindow(idOf(cid), credit.value);
      }
    }

    method OpenWindow(ident: Ident, credit: int)
      requires manager.Valid()
      modifies manager`windows
      ensures manager.Valid() && Grants() == old(Grants())[ident := credit]
    {
      hide BufferManager.Valid;
      manager.SetCredit(ident, credit);
    }

    method OnSubscribe(cid: string, pattern: string)
      requires Valid()
      modifies routing
      ensures Valid() && Model() == Next(old(Model()), SubscribeTo(cid, pattern), idOf)
    {
      hide SubscriptionTable.Valid, BufferManager.Valid, Routing.Subscribe;
      routing.Subscribe(idOf(cid), pattern);
    }

    method OnUnsubscribe(cid: string, pattern: string)
      requires Valid()
      modifies routing
      ensures Valid() && Model() == Next(old(Model()), UnsubscribeFrom(cid, pattern), idOf)
    {
      hide SubscriptionTable.Valid, BufferManager.Valid, Routing.Unsubscribe;
      routing.Unsubscribe(idOf(cid), pattern);
    }

    method ForgetIdentity(ident: Ident)
      requires Valid()
      modifies this`credits, routing, manager
      ensures Valid() && Model() == Forget(old(Model()), ident)
    {
      hide SubscriptionTable.Valid, BufferManager.Valid, Remove;
      routing.Remove(ident);
      credits := credits - {ident};
      manager.Clear(ident);
      assert Grants() == old(Grants()) - {ident};
      assert LimitsHeld() == old(LimitsHeld()) - {ident};
    }

    method OnDisconnect(cid: string)
      requires Valid()
      modifies this, registry, routing, manager
      ensures Valid() && Model() == Next(old(Model()), Disconnect(cid), idOf)
    {
      hide Remove, SubscriptionTable.Valid, BufferManager.Valid, Grants, LimitsHeld;
      ForgetIdentity(idOf(cid));
      identOf := identOf - {cid};
      registry.Unregister(cid);
    }

    /** One round of the heartbeat sweep. */
    method OnSweep(now: real)
      requires Valid()
      modifies this, registry, routing, manager
      ensures Valid()
      ensures exists offline: seq<string> ::
                && Proper(old(Model()), Sweep(now, offline), registry.heartbeatTimeout)
                && Model() == Next(old(Model()), Sweep(now, offline), idOf)
    {
      hide Remove, Forget, SubscriptionTable.Valid, BufferManager.Valid, Grants, LimitsHeld;
      ghost var before := Model();
      var offline := registry.SweepTimeout(now);
      ghost var start := Model();
      var i := 0;
      while i < |offline|
        modifies this, routing, manager
        invariant Valid() && i <= |offline| && Model() == CleanUpAll(start, offline[..i])
      {
        var cid := offline[i];
        if cid in identOf {
          var ident := identOf[cid];
          ForgetIdentity(ident);
          identOf := identOf - {cid};
        }
        i := i + 1;
        assert offline[..i][..i - 1] == offline[..i - 1];
      }
      assert offline[..i] == offline;
      assert Proper(before, Sweep(now, offline), registry.heartbeatTimeout);
    }
  }
}
