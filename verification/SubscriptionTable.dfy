/** The table object: match with its result cache, and the three edits. */
module SubscriptionTables {
  import opened Routing

  class SubscriptionTable {
    var readIndex: Index
    var version: nat
    var matchCache: map<string, (nat, set<Ident>)>

    ghost predicate Valid()
      reads this
    {
      && Consistent(readIndex)
      && (forall t | t in matchCache ::
            matchCache[t].0 <= version &&
            (matchCache[t].0 == version ==> matchCache[t].1 == Lookup(readIndex, t)))
    }

    constructor ()
      ensures Valid() && readIndex == EMPTY_INDEX && version == 0
    {
      readIndex, version, matchCache := EMPTY_INDEX, 0, map[];
    }

    /** The subscribers of a topic: exactly those owning a pattern it falls under, cached or not. */
    method Match(topic: string) returns (r: set<Ident>)
      requires Valid()
      modifies this`matchCache
      ensures Valid()
      ensures r == Lookup(readIndex, topic)
      ensures forall id :: id in r <==> Subscribed(readIndex, id, topic)
    {
      hide Lookup, Subscribed, Consistent;
      var ver := version;
      if topic in matchCache && matchCache[topic].0 == ver {
        r := matchCache[topic].1;
      } else {
        r := Compute(readIndex, topic);
        matchCache := matchCache[topic := (ver, r)];
      }
      forall id
        ensures id in r <==> Subscribed(readIndex, id, topic)
      {
        LookupIsMatches(readIndex, topic, id);
      }
    }

    static method Compute(x: Index, topic: string) returns (matched: set<Ident>)
      ensures matched == Lookup(x, topic)
    {
      hide Join, Split;
      matched := Get(x.exact, topic);
      matched := matched + Get(x.wild, topic);
      var parts := Split(topic);
      var i := |parts| - 1;
      while i > 0
        invariant 0 <= i < |parts|
        invariant Lookup(x, topic) == matched + PrefixHits(x.wild, parts, i + 1)
      {
        matched := matched + Get(x.wild, Join(parts[..i]));
        i := i - 1;
      }
    }

    method Install(x: Index)
      requires Valid() && Consistent(x)
      modifies this
      ensures Valid() && readIndex == x && version == old(version) + 1 && matchCache == map[]
    {
      readIndex := x;
      version := version + 1;
      matchCache := map[];
    }

    method Subscribe(identity: Ident, pattern: string)
      requires Valid()
      modifies this
      ensures Valid() && readIndex == Routing.Subscribe(old(readIndex), identity, pattern)
      ensures version == old(version) + 1
    {
      hide Consistent;
      SubscribeConsistent(readIndex, identity, pattern);
      var byIdentity := readIndex.byIdentity[identity := Get(readIndex.byIdentity, identity) + {pattern}];
      var exact, wild := readIndex.exact, readIndex.wild;
      if IsWild(pattern) {
        wild := Put(wild, Prefix(pattern), identity);
      } else {
        exact := Put(exact, pattern, identity);
      }
      Install(Index(exact, wild, byIdentity));
    }

    method Unsubscribe(identity: Ident, pattern: string)
      requires Valid()
      modifies this
      ensures Valid() && readIndex == Routing.Unsubscribe(old(readIndex), identity, pattern)
      ensures version == old(version) + 1
    {
      hide Consistent;
      UnsubscribeConsistent(readIndex, identity, pattern);
      var byIdentity := readIndex.byIdentity;
      var pats := Get(byIdentity, identity) - {pattern};
      if pats != {} {
        byIdentity := byIdentity[identity := pats];
      } else {
        byIdentity := byIdentity - {identity};
      }
      var exact, wild := readIndex.exact, readIndex.wild;
      if IsWild(pattern) {
        wild := Take(wild, Prefix(pattern), identity);
      } else {
        exact := Take(exact, pattern, identity);
      }
      Install(Index(exact, wild, byIdentity));
    }

    /** Visits the identity's patterns in any order. */
    method Remove(identity: Ident)
      requires Valid()
      modifies this
      ensures Valid() && readIndex == Routing.Remove(old(readIndex), identity)
      ensures version == old(version) + 1
    {
      hide Consistent, PartlyScrubbed, Scrub;
      ghost var base := readIndex;
      RemoveConsistent(base, identity);
      var todo := Get(readIndex.byIdentity, identity);
      var exact, wild := readIndex.exact, readIndex.wild;
      StartScrub(base, identity);
      while todo != {}
        invariant todo <= Get(base.byIdentity, identity)
        invariant PartlyScrubbed(base, identity, todo, exact, wild)
        modifies {}
        decreases todo
      {
        var pattern :| pattern in todo;
        if IsWild(pattern) {
          ScrubWild(base, identity, todo, exact, wild, pattern);
          wild := Take(wild, Prefix(pattern), identity);
        } else {
          ScrubExact(base, identity, todo, exact, wild, pattern);
          exact := Take(exact, pattern, identity);
        }
        todo := todo - {pattern};
      }
      FullyScrubbed(base, identity, exact, wild);
      Install(Index(exact, wild, readIndex.byIdentity - {identity}));
    }
  }

  /** The identity is still listed only under the patterns not visited yet. */
  ghost predicate PartlyScrubbed(base: Index, id: Ident, todo: set<string>,
                                 exact: map<string, set<Ident>>, wild: map<string, set<Ident>>) {
    && (forall p: string {:trigger Get(exact, p)} ::
          Get(exact, p) == if p in todo && !IsWild(p) then Get(base.exact, p) else Get(base.exact, p) - {id})
    && (forall q: string {:trigger Get(wild, q)} ::
          Get(wild, q) == if q + ".*" in todo then Get(base.wild, q) else Get(base.wild, q) - {id})
    && (forall p | p in exact :: exact[p] != {})
    && (forall q | q in wild :: wild[q] != {})
  }

  lemma StartScrub(base: Index, id: Ident)
    requires Consistent(base)
    ensures PartlyScrubbed(base, id, Get(base.byIdentity, id), base.exact, base.wild)
  {
    var todo := Get(base.byIdentity, id);
    forall p: string | !(p in todo && !IsWild(p))
      ensures id !in Get(base.exact, p)
    {
      assert !IsWild(p) ==> Get(base.exact, p) == Owners(base.byIdentity, p);
    }
    forall q: string | q + ".*" !in todo
      ensures id !in Get(base.wild, q)
    {
      assert Get(base.wild, q) == Owners(base.byIdentity, q + ".*");
    }
  }

  lemma GetAfterTake(m: map<string, set<Ident>>, k: string, id: Ident, r: string)
    ensures Get(Take(m, k, id), r) == Get(m, r) - (if r == k then {id} else {})
  {
  }

  lemma ScrubExact(base: Index, id: Ident, todo: set<string>,
                   exact: map<string, set<Ident>>, wild: map<string, set<Ident>>, pattern: string)
    requires PartlyScrubbed(base, id, todo, exact, wild) && pattern in todo && !IsWild(pattern)
    ensures PartlyScrubbed(base, id, todo - {pattern}, Take(exact, pattern, id), wild)
  {
    hide IsWild;
    forall p: string
      ensures Get(Take(exact, pattern, id), p) ==
              if p in todo - {pattern} && !IsWild(p) then Get(base.exact, p) else Get(base.exact, p) - {id}
    {
      GetAfterTake(exact, pattern, id, p);
    }
    forall q: string
      ensures q + ".*" in todo <==> q + ".*" in todo - {pattern}
    {
      WildShape(q);
    }
  }

  lemma ScrubWild(base: Index, id: Ident, todo: set<string>,
                  exact: map<string, set<Ident>>, wild: map<string, set<Ident>>, pattern: string)
    requires PartlyScrubbed(base, id, todo, exact, wild) && pattern in todo && IsWild(pattern)
    ensures PartlyScrubbed(base, id, todo - {pattern}, exact, Take(wild, Prefix(pattern), id))
  {
    hide IsWild, Prefix;
    WildOf(pattern);
    forall q: string
      ensures Get(Take(wild, Prefix(pattern), id), q) ==
              if q + ".*" in todo - {pattern} then Get(base.wild, q) else Get(base.wild, q) - {id}
    {
      GetAfterTake(wild, Prefix(pattern), id, q);
      WildShape(q);
    }
  }

  lemma FullyScrubbed(base: Index, id: Ident, exact: map<string, set<Ident>>, wild: map<string, set<Ident>>)
    requires PartlyScrubbed(base, id, {}, exact, wild)
    ensures exact == Scrub(base.exact, id) && wild == Scrub(base.wild, id)
  {
    forall p: string
      ensures Get(exact, p) == Get(Scrub(base.exact, id), p) && Get(wild, p) == Get(Scrub(base.wild, id), p)
    {
    }
    SameMap(exact, Scrub(base.exact, id));
    SameMap(wild, Scrub(base.wild, id));
  }

  lemma SameMap(m: map<string, set<Ident>>, m': map<string, set<Ident>>)
    requires forall p: string {:trigger Get(m, p)} :: Get(m, p) == Get(m', p)
    requires (forall p | p in m :: m[p] != {}) && (forall p | p in m' :: m'[p] != {})
    ensures m == m'
  {
    forall p
      ensures p in m <==> p in m'
      ensures p in m ==> p in m' && m[p] == m'[p]
    {
      assert Get(m, p) == Get(m', p);
    }
  }

  // ----- after any sequence of edits -----

  datatype Edit =
    | Add(id: Ident, pattern: string)
    | Drop(id: Ident, pattern: string)
    | DropAll(id: Ident)

  function Edited(x: Index, e: Edit): Index {
    match e
    case Add(id, p) => Routing.Subscribe(x, id, p)
    case Drop(id, p) => Routing.Unsubscribe(x, id, p)
    case DropAll(id) => Routing.Remove(x, id)
  }

  function IndexAfter(edits: seq<Edit>): Index {
    if edits == [] then EMPTY_INDEX else Edited(IndexAfter(edits[..|edits| - 1]), edits[|edits| - 1])
  }

  /** The plain relation the index stands for: id holds pattern p. */
  ghost predicate Holds(edits: seq<Edit>, id: Ident, p: string) {
    if edits == [] then false
    else
      var e, before := edits[|edits| - 1], Holds(edits[..|edits| - 1], id, p);
      match e
      case Add(i, q) => before || (i == id && q == p)
      case Drop(i, q) => before && !(i == id && q == p)
      case DropAll(i) => before && i != id
  }

  lemma {:induction false} IndexHoldsRelation(edits: seq<Edit>, id: Ident, p: string)
    ensures Holds(edits, id, p) <==> id in Owners(IndexAfter(edits).byIdentity, p)
  {
    if edits != [] {
      var before, e := edits[..|edits| - 1], edits[|edits| - 1];
      IndexHoldsRelation(before, id, p);
      match e {
        case Add(i, q) => OwnersAfterSubscribe(IndexAfter(before), i, q, p);
        case Drop(i, q) => OwnersAfterUnsubscribe(IndexAfter(before), i, q, p);
        case DropAll(i) => OwnersAfterRemove(IndexAfter(before), i, p);
      }
    }
  }

  lemma {:induction false} IndexStaysConsistent(edits: seq<Edit>)
    ensures Consistent(IndexAfter(edits))
  {
    if edits == [] {
      assert forall p: string :: Owners(EMPTY_INDEX.byIdentity, p) == {};
    } else {
      hide Consistent;
      var before, e := edits[..|edits| - 1], edits[|edits| - 1];
      IndexStaysConsistent(before);
      match e {
        case Add(i, q) => SubscribeConsistent(IndexAfter(before), i, q);
        case Drop(i, q) => UnsubscribeConsistent(IndexAfter(before), i, q);
        case DropAll(i) => RemoveConsistent(IndexAfter(before), i);
      }
    }
  }

  /**
   After any sequence of subscribe, unsubscribe and remove, the identities a
   topic is routed to are exactly those holding a pattern it falls under.
   */
  lemma RoutingIsPatternMatching(edits: seq<Edit>, topic: string, id: Ident)
    ensures id in Lookup(IndexAfter(edits), topic) <==> exists p :: Holds(edits, id, p) && Matches(p, topic)
  {
    hide Lookup, Consistent, Holds, Matches;
    var x := IndexAfter(edits);
    IndexStaysConsistent(edits);
    LookupIsMatches(x, topic, id);
    forall p: string
      ensures Holds(edits, id, p) <==> id in x.byIdentity && p in x.byIdentity[id]
    {
      IndexHoldsRelation(edits, id, p);
    }
  }
}
