/**
 The subscription table: a copy-on-write index of exact and prefix patterns
 with a versioned cache of results, and the one-line predicate it implements.
 */
module Routing {

  type Ident = seq<int>

  datatype Index = Index(
    exact: map<string, set<Ident>>,      // pattern -> subscribers
    wild: map<string, set<Ident>>,       // prefix p of pattern p.* -> subscribers
    byIdentity: map<Ident, set<string>>) // subscriber -> patterns

  const EMPTY_INDEX: Index := Index(map[], map[], map[])

  function Get<K, V>(m: map<K, set<V>>, k: K): set<V> {
    if k in m then m[k] else {}
  }

  // ----- patterns -----

  predicate IsWild(p: string) {
    |p| >= 2 && p[|p| - 2..] == ".*"
  }

  function Prefix(p: string): string
    requires IsWild(p)
  {
    p[..|p| - 2]
  }

  predicate StartsWith(t: string, q: string) {
    q <= t
  }

  /** Whether a topic falls under a pattern. */
  predicate Matches(p: string, t: string) {
    if IsWild(p) then t == Prefix(p) || StartsWith(t, Prefix(p) + ".") else p == t
  }

  /** t.split("."). */
  function Split(t: string): (parts: seq<string>)
    ensures parts != []
  {
    if t == "" then [""]
    else
      var rest := Split(t[1..]);
      if t[0] == '.' then [""] + rest else [[t[0]] + rest[0]] + rest[1..]
  }

  /** ".".join(parts). */
  function Join(parts: seq<string>): string {
    if parts == [] then ""
    else if |parts| == 1 then parts[0]
    else parts[0] + "." + Join(parts[1..])
  }

  lemma JoinAfterDot(t: string, i: nat)
    requires t != "" && t[0] == '.' && 1 <= i <= |Split(t[1..])|
    ensures Join(Split(t)[..i + 1]) == "." + Join(Split(t[1..])[..i])
  {
    var parts := Split(t)[..i + 1];
    assert parts[1..] == Split(t[1..])[..i];
    assert Join(parts) == parts[0] + "." + Join(parts[1..]);
    assert parts[0] == "" && "" + "." == ".";
  }

  lemma JoinGrowsFirst(c: char, head: seq<string>)
    requires head != []
    ensures Join([[c] + head[0]] + head[1..]) == [c] + Join(head)
  {
    var parts := [[c] + head[0]] + head[1..];
    assert parts[1..] == head[1..];
    if |head| > 1 {
      assert ([c] + head[0]) + "." + Join(head[1..]) == [c] + (head[0] + "." + Join(head[1..]));
    }
  }

  lemma JoinAfterChar(t: string, i: nat)
    requires t != "" && t[0] != '.' && 1 <= i <= |Split(t[1..])|
    ensures i <= |Split(t)| && Join(Split(t)[..i]) == [t[0]] + Join(Split(t[1..])[..i])
  {
    hide Join;
    var head := Split(t[1..])[..i];
    assert Split(t)[..i] == [[t[0]] + head[0]] + head[1..];
    JoinGrowsFirst(t[0], head);
  }

  /** A joined proper prefix of the split is the topic cut before one of its dots. */
  lemma {:induction false} JoinCutsAtDot(t: string, i: nat) returns (k: nat)
    requires 1 <= i < |Split(t)|
    ensures k < |t| && t[k] == '.' && Join(Split(t)[..i]) == t[..k]
  {
    var rest := Split(t[1..]);
    if t[0] == '.' && i == 1 {
      assert Split(t)[..1] == [""];
      k := 0;
    } else if t[0] == '.' {
      var k' := JoinCutsAtDot(t[1..], i - 1);
      JoinAfterDot(t, i - 1);
      k := k' + 1;
      assert t[..k] == "." + t[1..][..k'];
    } else {
      var k' := JoinCutsAtDot(t[1..], i);
      JoinAfterChar(t, i);
      k := k' + 1;
      assert t[..k] == [t[0]] + t[1..][..k'];
    }
  }

  /** Every cut before a dot is a joined proper prefix of the split. */
  lemma {:induction false} DotCutIsJoin(t: string, k: nat) returns (i: nat)
    requires k < |t| && t[k] == '.'
    ensures 1 <= i < |Split(t)| && Join(Split(t)[..i]) == t[..k]
  {
    var rest := Split(t[1..]);
    if k == 0 {
      i := 1;
      assert Split(t)[..1] == [""];
    } else if t[0] == '.' {
      var i' := DotCutIsJoin(t[1..], k - 1);
      JoinAfterDot(t, i');
      i := i' + 1;
      assert t[..k] == "." + t[1..][..k - 1];
    } else {
      i := DotCutIsJoin(t[1..], k - 1);
      JoinAfterChar(t, i);
      assert t[..k] == [t[0]] + t[1..][..k - 1];
    }
  }

  /** The joined proper prefixes of the split are exactly the q with topic starting with q + ".". */
  lemma JoinedPrefixes(t: string, q: string)
    ensures (exists i :: 1 <= i < |Split(t)| && Join(Split(t)[..i]) == q) <==> StartsWith(t, q + ".")
  {
    if i :| 1 <= i < |Split(t)| && Join(Split(t)[..i]) == q {
      var k := JoinCutsAtDot(t, i);
      assert t[..k + 1] == q + ".";
    }
    if StartsWith(t, q + ".") {
      assert t[|q|] == (q + ".")[|q|] == '.';
      assert t[..|q|] == (q + ".")[..|q|] == q;
      var i := DotCutIsJoin(t, |q|);
    }
  }

  // ----- the index -----

  function Owners(byIdentity: map<Ident, set<string>>, p: string): set<Ident> {
    set id | id in byIdentity && p in byIdentity[id]
  }

  /** The three maps tell the same subscriptions and hold no empty sets. */
  ghost predicate Consistent(x: Index) {
    && (forall p: string {:trigger Owners(x.byIdentity, p)} ::
          !IsWild(p) ==> Get(x.exact, p) == Owners(x.byIdentity, p))
    && (forall q: string {:trigger Get(x.wild, q)} :: Get(x.wild, q) == Owners(x.byIdentity, q + ".*"))
    && (forall p | p in x.exact :: !IsWild(p) && x.exact[p] != {})
    && (forall q | q in x.wild :: x.wild[q] != {})
    && (forall id | id in x.byIdentity :: x.byIdentity[id] != {})
  }

  /** The prefixes looked up for parts[..1], ..., parts[..i - 1], joined. */
  function PrefixHits(wild: map<string, set<Ident>>, parts: seq<string>, i: nat): set<Ident>
    requires i <= |parts|
  {
    if i <= 1 then {} else Get(wild, Join(parts[..i - 1])) + PrefixHits(wild, parts, i - 1)
  }

  /** What match computes when nothing is cached. */
  function Lookup(x: Index, t: string): set<Ident> {
    Get(x.exact, t) + Get(x.wild, t) + PrefixHits(x.wild, Split(t), |Split(t)|)
  }

  lemma {:induction false} PrefixHitsMeaning(wild: map<string, set<Ident>>, parts: seq<string>, i: nat, id: Ident)
    requires i <= |parts|
    ensures id in PrefixHits(wild, parts, i) <==> exists j :: 1 <= j < i && id in Get(wild, Join(parts[..j]))
  {
    if i > 1 {
      PrefixHitsMeaning(wild, parts, i - 1, id);
    }
  }

  /** id owns a pattern the topic falls under. */
  ghost predicate Subscribed(x: Index, id: Ident, t: string) {
    id in x.byIdentity && exists p :: p in x.byIdentity[id] && Matches(p, t)
  }

  lemma WildShape(q: string)
    ensures IsWild(q + ".*") && Prefix(q + ".*") == q
  {
  }

  lemma WildOf(p: string)
    requires IsWild(p)
    ensures p == Prefix(p) + ".*"
  {
  }

  /** The index lookup is the pattern predicate, for every topic and every pattern. */
  lemma LookupIsMatches(x: Index, t: string, id: Ident)
    requires Consistent(x)
    ensures id in Lookup(x, t) <==> Subscribed(x, id, t)
  {
    PrefixHitsMeaning(x.wild, Split(t), |Split(t)|, id);
    if id in Lookup(x, t) {
      HitIsSubscribed(x, t, id);
    }
    if Subscribed(x, id, t) {
      var p :| p in x.byIdentity[id] && Matches(p, t);
      SubscribedIsHit(x, t, id, p);
    }
  }

  lemma HitIsSubscribed(x: Index, t: string, id: Ident)
    requires Consistent(x) && id in Lookup(x, t)
    ensures Subscribed(x, id, t)
  {
    hide Split, Join, PrefixHits;
    PrefixHitsMeaning(x.wild, Split(t), |Split(t)|, id);
    if id in Get(x.exact, t) {
      assert id in Owners(x.byIdentity, t) && Matches(t, t);
    } else if id in Get(x.wild, t) {
      WildShape(t);
      assert id in Owners(x.byIdentity, t + ".*") && Matches(t + ".*", t);
    } else {
      var j :| 1 <= j < |Split(t)| && id in Get(x.wild, Join(Split(t)[..j]));
      var q := Join(Split(t)[..j]);
      WildShape(q);
      var k := JoinCutsAtDot(t, j);
      assert t[..k + 1] == q + ".";
      assert id in Owners(x.byIdentity, q + ".*") && Matches(q + ".*", t);
    }
  }

  lemma SubscribedIsHit(x: Index, t: string, id: Ident, p: string)
    requires Consistent(x) && id in x.byIdentity && p in x.byIdentity[id] && Matches(p, t)
    ensures id in Lookup(x, t)
  {
    hide Split, Join, PrefixHits;
    assert id in Owners(x.byIdentity, p);
    if IsWild(p) {
      var q := Prefix(p);
      WildOf(p);
      assert id in Get(x.wild, q);
      if t != q {
        JoinedPrefixes(t, q);
        PrefixHitsMeaning(x.wild, Split(t), |Split(t)|, id);
      }
    }
  }

  // ----- edits -----

  function Put(m: map<string, set<Ident>>, k: string, id: Ident): map<string, set<Ident>> {
    m[k := Get(m, k) + {id}]
  }

  /** id leaves the set at k; an emptied set goes. */
  function Take(m: map<string, set<Ident>>, k: string, id: Ident): map<string, set<Ident>> {
    var s := Get(m, k) - {id};
    if s != {} then m[k := s] else m - {k}
  }

  function Subscribe(x: Index, id: Ident, p: string): Index {
    var byIdentity := x.byIdentity[id := Get(x.byIdentity, id) + {p}];
    if IsWild(p) then Index(x.exact, Put(x.wild, Prefix(p), id), byIdentity)
    else Index(Put(x.exact, p, id), x.wild, byIdentity)
  }

  function Unsubscribe(x: Index, id: Ident, p: string): Index {
    var pats := Get(x.byIdentity, id) - {p};
    var byIdentity := if pats != {} then x.byIdentity[id := pats] else x.byIdentity - {id};
    if IsWild(p) then Index(x.exact, Take(x.wild, Prefix(p), id), byIdentity)
    else Index(Take(x.exact, p, id), x.wild, byIdentity)
  }

  /** id leaves every set. */
  function Scrub(m: map<string, set<Ident>>, id: Ident): map<string, set<Ident>> {
    map k | k in m && m[k] - {id} != {} :: m[k] - {id}
  }

  function Remove(x: Index, id: Ident): Index {
    Index(Scrub(x.exact, id), Scrub(x.wild, id), x.byIdentity - {id})
  }

  lemma OwnersAfterSubscribe(x: Index, id: Ident, p: string, r: string)
    ensures Owners(Subscribe(x, id, p).byIdentity, r) == Owners(x.byIdentity, r) + (if r == p then {id} else {})
  {
  }

  lemma OwnersAfterUnsubscribe(x: Index, id: Ident, p: string, r: string)
    ensures Owners(Unsubscribe(x, id, p).byIdentity, r) == Owners(x.byIdentity, r) - (if r == p then {id} else {})
  {
    var before, after := x.byIdentity, Unsubscribe(x, id, p).byIdentity;
    forall i
      ensures i in Owners(after, r) <==> i in Owners(before, r) && !(r == p && i == id)
    {
      assert Get(after, id) == Get(before, id) - {p};
      assert i != id ==> Get(after, i) == Get(before, i);
      assert i in Owners(after, r) <==> r in Get(after, i);
    }
  }

  lemma OwnersAfterRemove(x: Index, id: Ident, r: string)
    ensures Owners(Remove(x, id).byIdentity, r) == Owners(x.byIdentity, r) - {id}
  {
  }

  lemma SubscribeConsistent(x: Index, id: Ident, p: string)
    requires Consistent(x)
    ensures Consistent(Subscribe(x, id, p))
  {
    hide Owners, IsWild, Prefix;
    var y := Subscribe(x, id, p);
    forall r: string | !IsWild(r)
      ensures Get(y.exact, r) == Owners(y.byIdentity, r)
    {
      OwnersAfterSubscribe(x, id, p, r);
      assert Get(x.exact, r) == Owners(x.byIdentity, r);
    }
    forall q: string
      ensures Get(y.wild, q) == Owners(y.byIdentity, q + ".*")
    {
      WildShape(q);
      if IsWild(p) {
        WildOf(p);
      }
      OwnersAfterSubscribe(x, id, p, q + ".*");
      assert Get(x.wild, q) == Owners(x.byIdentity, q + ".*");
    }
  }

  lemma UnsubscribeConsistent(x: Index, id: Ident, p: string)
    requires Consistent(x)
    ensures Consistent(Unsubscribe(x, id, p))
  {
    hide Owners, IsWild, Prefix;
    var y := Unsubscribe(x, id, p);
    forall r: string | !IsWild(r)
      ensures Get(y.exact, r) == Owners(y.byIdentity, r)
    {
      OwnersAfterUnsubscribe(x, id, p, r);
      assert Get(x.exact, r) == Owners(x.byIdentity, r);
    }
    forall q: string
      ensures Get(y.wild, q) == Owners(y.byIdentity, q + ".*")
    {
      WildShape(q);
      if IsWild(p) {
        WildOf(p);
      }
      OwnersAfterUnsubscribe(x, id, p, q + ".*");
      assert Get(x.wild, q) == Owners(x.byIdentity, q + ".*");
    }
  }

  lemma RemoveConsistent(x: Index, id: Ident)
    requires Consistent(x)
    ensures Consistent(Remove(x, id))
  {
    hide Owners, IsWild, Prefix;
    var y := Remove(x, id);
    forall r: string | !IsWild(r)
      ensures Get(y.exact, r) == Owners(y.byIdentity, r)
    {
      OwnersAfterRemove(x, id, r);
      assert Get(x.exact, r) == Owners(x.byIdentity, r);
    }
    forall q: string
      ensures Get(y.wild, q) == Owners(y.byIdentity, q + ".*")
    {
      OwnersAfterRemove(x, id, q + ".*");
      assert Get(x.wild, q) == Owners(x.byIdentity, q + ".*");
    }
  }
}
