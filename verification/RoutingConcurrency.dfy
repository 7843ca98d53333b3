/**
 match runs without a lock while a writer edits the table.  Any number of
 readers interleave with the one writer the lock admits, one shared read or
 write at a time: a reader reads the version, the cache, the index, and stores
 its result; the writer installs an index, bumps the version, clears the cache.
 */
module RoutingConcurrency {
  import opened Routing
  import opened SubscriptionTables

  datatype WriterPc = WIdle | WInstalled | WBumped

  datatype ReaderPc =
    | HasVersion(topic: string, ver: nat)
    | Missed(topic: string, ver: nat)
    | Computed(topic: string, ver: nat, result: set<Ident>)
    | Returned(topic: string, ver: nat, result: set<Ident>)

  datatype State = State(
    index: Index, version: nat, cache: map<string, (nat, set<Ident>)>,
    writer: WriterPc, readers: map<nat, ReaderPc>,
    hist: seq<Index>)  // history: hist[k] is what the k-th write installed, hist[0] the empty index

  datatype Action =
    | ReadVersion(reader: nat, topic: string)
    | ReadCache(reader: nat)
    | ReadIndex(reader: nat)
    | StoreEntry(reader: nat)
    | InstallIndex(edit: Edit)
    | BumpVersion
    | ClearCache

  const START: State := State(EMPTY_INDEX, 0, map[], WIdle, map[], [EMPTY_INDEX])

  function Next(s: State, a: Action): State {
    match a
    case ReadVersion(r, t) =>
      if r in s.readers && !s.readers[r].Returned? then s
      else s.(readers := s.readers[r := HasVersion(t, s.version)])
    case ReadCache(r) =>
      if r in s.readers && s.readers[r].HasVersion? then
        var t, ver := s.readers[r].topic, s.readers[r].ver;
        if t in s.cache && s.cache[t].0 == ver
        then s.(readers := s.readers[r := Returned(t, ver, s.cache[t].1)])
        else s.(readers := s.readers[r := Missed(t, ver)])
      else s
    case ReadIndex(r) =>
      if r in s.readers && s.readers[r].Missed? then
        var t, ver := s.readers[r].topic, s.readers[r].ver;
        s.(readers := s.readers[r := Computed(t, ver, Lookup(s.index, t))])
      else s
    case StoreEntry(r) =>
      if r in s.readers && s.readers[r].Computed? then
        var t, ver, res := s.readers[r].topic, s.readers[r].ver, s.readers[r].result;
        s.(cache := s.cache[t := (ver, res)], readers := s.readers[r := Returned(t, ver, res)])
      else s
    case InstallIndex(e) =>
      if s.writer.WIdle?
      then s.(index := Edited(s.index, e), hist := s.hist + [Edited(s.index, e)], writer := WInstalled)
      else s
    case BumpVersion => if s.writer.WInstalled? then s.(version := s.version + 1, writer := WBumped) else s
    case ClearCache => if s.writer.WBumped? then s.(cache := map[], writer := WIdle) else s
  }

  function Run(s: State, schedule: seq<Action>): State {
    if schedule == [] then s else Next(Run(s, schedule[..|schedule| - 1]), schedule[|schedule| - 1])
  }

  // ----- the invariant -----

  /** result is the lookup in the index of some write no older than ver. */
  ghost predicate FromAtLeast(hist: seq<Index>, ver: nat, t: string, result: set<Ident>) {
    exists m :: ver <= m < |hist| && result == Lookup(hist[m], t)
  }

  ghost predicate ReaderOk(pc: ReaderPc, hist: seq<Index>, version: nat) {
    && pc.ver <= version
    && (pc.Computed? || pc.Returned? ==> FromAtLeast(hist, pc.ver, pc.topic, pc.result))
  }

  ghost predicate Inv(s: State) {
    && s.hist != [] && s.index == s.hist[|s.hist| - 1]
    && |s.hist| == s.version + (if s.writer.WInstalled? then 2 else 1)
    && (forall t | t in s.cache ::
          s.cache[t].0 <= s.version && FromAtLeast(s.hist, s.cache[t].0, t, s.cache[t].1))
    && (forall r | r in s.readers :: ReaderOk(s.readers[r], s.hist, s.version))
  }

  lemma StillFromAtLeast(hist: seq<Index>, x: Index, ver: nat, t: string, result: set<Ident>)
    requires FromAtLeast(hist, ver, t, result)
    ensures FromAtLeast(hist + [x], ver, t, result)
  {
    var m :| ver <= m < |hist| && result == Lookup(hist[m], t);
    assert (hist + [x])[m] == hist[m];
  }

  lemma InstallKeepsInv(s: State, e: Edit)
    requires Inv(s) && s.writer.WIdle?
    ensures Inv(Next(s, InstallIndex(e)))
  {
    hide Lookup, Edited, FromAtLeast;
    var s' := Next(s, InstallIndex(e));
    var x := Edited(s.index, e);
    forall t | t in s.cache
      ensures FromAtLeast(s'.hist, s.cache[t].0, t, s.cache[t].1)
    {
      StillFromAtLeast(s.hist, x, s.cache[t].0, t, s.cache[t].1);
    }
    forall r | r in s.readers
      ensures ReaderOk(s.readers[r], s'.hist, s.version)
    {
      var pc := s.readers[r];
      if pc.Computed? || pc.Returned? {
        StillFromAtLeast(s.hist, x, pc.ver, pc.topic, pc.result);
      }
    }
  }

  lemma ReadIndexKeepsInv(s: State, r: nat)
    requires Inv(s) && r in s.readers && s.readers[r].Missed?
    ensures Inv(Next(s, ReadIndex(r)))
  {
    hide Lookup, FromAtLeast;
    var ver, t := s.readers[r].ver, s.readers[r].topic;
    assert ReaderOk(s.readers[r], s.hist, s.version);
    LatestIsRecent(s.hist, ver, t);
  }

  lemma LatestIsRecent(hist: seq<Index>, ver: nat, t: string)
    requires ver < |hist|
    ensures FromAtLeast(hist, ver, t, Lookup(hist[|hist| - 1], t))
  {
    hide Lookup;
  }

  lemma StepKeepsInv(s: State, a: Action)
    requires Inv(s)
    ensures Inv(Next(s, a))
  {
    hide Inv;
    match a
    case InstallIndex(e) =>
      if s.writer.WIdle? {
        InstallKeepsInv(s, e);
      }
    case ReadIndex(r) =>
      if r in s.readers && s.readers[r].Missed? {
        ReadIndexKeepsInv(s, r);
      }
    case ReadVersion(_, _) => OtherStepKeepsInv(s, a);
    case ReadCache(_) => OtherStepKeepsInv(s, a);
    case StoreEntry(r) => StoreKeepsInv(s, r);
    case BumpVersion => OtherStepKeepsInv(s, a);
    case ClearCache => OtherStepKeepsInv(s, a);
  }

  lemma StoreKeepsInv(s: State, r: nat)
    requires Inv(s)
    ensures Inv(Next(s, StoreEntry(r)))
  {
    hide Lookup, FromAtLeast;
  }

  lemma OtherStepKeepsInv(s: State, a: Action)
    requires Inv(s) && (a.ReadVersion? || a.ReadCache? || a.BumpVersion? || a.ClearCache?)
    ensures Inv(Next(s, a))
  {
    hide Lookup, Edited, FromAtLeast;
  }

  lemma {:induction false} RunKeepsInv(s: State, schedule: seq<Action>)
    requires Inv(s)
    ensures Inv(Run(s, schedule))
  {
    if schedule != [] {
      RunKeepsInv(s, schedule[..|schedule| - 1]);
      StepKeepsInv(Run(s, schedule[..|schedule| - 1]), schedule[|schedule| - 1]);
    }
  }

  // ----- what every interleaving guarantees -----

  /** When no write is in progress, a cached entry of the current version is what a fresh lookup gives. */
  lemma CurrentEntriesAreFresh(schedule: seq<Action>, t: string)
    requires var s := Run(START, schedule); s.writer.WIdle? && t in s.cache && s.cache[t].0 == s.version
    ensures var s := Run(START, schedule); s.cache[t].1 == Lookup(s.index, t)
  {
    hide Lookup;
    RunKeepsInv(START, schedule);
    var s := Run(START, schedule);
    assert FromAtLeast(s.hist, s.version, t, s.cache[t].1);
  }

  lemma {:induction false} VersionGrows(s: State, schedule: seq<Action>)
    requires Inv(s)
    ensures s.version <= Run(s, schedule).version
    ensures s.hist <= Run(s, schedule).hist
  {
    if schedule != [] {
      VersionGrows(s, schedule[..|schedule| - 1]);
    }
  }

  /** A reader keeps the version it read until it starts its next match. */
  lemma {:induction false} VersionIsKept(s: State, schedule: seq<Action>, r: nat, t: string)
    requires r in s.readers && s.readers[r].topic == t
    requires forall j | 0 <= j < |schedule| :: !(schedule[j].ReadVersion? && schedule[j].reader == r)
    ensures var s' := Run(s, schedule);
            r in s'.readers && s'.readers[r].topic == t && s'.readers[r].ver == s.readers[r].ver
  {
    if schedule != [] {
      hide Lookup, Edited;
      VersionIsKept(s, schedule[..|schedule| - 1], r, t);
    }
  }

  /**
   A match that reads the version after write k was bumped returns the lookup in
   an index at least as new as write k, and no newer than the last installed.
   before is everything up to that read, after everything until the match returns.
   */
  lemma MatchIsAtLeastAsNew(before: seq<Action>, r: nat, t: string, after: seq<Action>, k: nat)
    requires var s := Run(START, before); k <= s.version && (r in s.readers ==> s.readers[r].Returned?)
    requires forall j | 0 <= j < |after| :: !(after[j].ReadVersion? && after[j].reader == r)
    requires var s' := Run(Next(Run(START, before), ReadVersion(r, t)), after);
             r in s'.readers && s'.readers[r].Returned?
    ensures var s' := Run(Next(Run(START, before), ReadVersion(r, t)), after);
            && s'.readers[r].topic == t
            && exists m :: k <= m < |s'.hist| && s'.readers[r].result == Lookup(s'.hist[m], t)
  {
    hide Lookup;
    RunKeepsInv(START, before);
    var s := Next(Run(START, before), ReadVersion(r, t));
    StepKeepsInv(Run(START, before), ReadVersion(r, t));
    RunKeepsInv(s, after);
    VersionIsKept(s, after, r, t);
    var s' := Run(s, after);
    assert FromAtLeast(s'.hist, s'.readers[r].ver, t, s'.readers[r].result);
  }

  /** hist[k] is the index after the first k edits, so every answer is a pattern-matching answer. */
  ghost function EditsOf(s: State, schedule: seq<Action>): seq<Edit> {
    if schedule == [] then []
    else
      var n := |schedule| - 1;
      EditsOf(s, schedule[..n]) +
      (if schedule[n].InstallIndex? && Run(s, schedule[..n]).writer.WIdle? then [schedule[n].edit] else [])
  }

  ghost predicate HistMatches(s: State, edits: seq<Edit>) {
    && |s.hist| == |edits| + 1
    && s.index == IndexAfter(edits)
    && forall k | 0 <= k <= |edits| :: s.hist[k] == IndexAfter(edits[..k])
  }

  lemma InstallMatches(s: State, edits: seq<Edit>, e: Edit)
    requires HistMatches(s, edits) && s.writer.WIdle?
    ensures HistMatches(Next(s, InstallIndex(e)), edits + [e])
  {
    hide Edited;
    assert (edits + [e])[..|edits|] == edits;
    forall k | 0 <= k <= |edits| + 1
      ensures Next(s, InstallIndex(e)).hist[k] == IndexAfter((edits + [e])[..k])
    {
      if k <= |edits| {
        assert (edits + [e])[..k] == edits[..k];
      } else {
        assert (edits + [e])[..k] == edits + [e];
      }
    }
  }

  lemma NoInstallMatches(s: State, edits: seq<Edit>, a: Action)
    requires HistMatches(s, edits) && !(a.InstallIndex? && s.writer.WIdle?)
    ensures HistMatches(Next(s, a), edits)
  {
    hide IndexAfter, Lookup;
    assert Next(s, a).hist == s.hist && Next(s, a).index == s.index;
  }

  lemma {:induction false} HistoryIsEdits(schedule: seq<Action>)
    ensures HistMatches(Run(START, schedule), EditsOf(START, schedule))
  {
    if schedule == [] {
      assert EditsOf(START, schedule)[..0] == [];
    } else {
      hide HistMatches, Next;
      var n := |schedule| - 1;
      HistoryIsEdits(schedule[..n]);
      var s, edits := Run(START, schedule[..n]), EditsOf(START, schedule[..n]);
      if schedule[n].InstallIndex? && s.writer.WIdle? {
        InstallMatches(s, edits, schedule[n].edit);
      } else {
        NoInstallMatches(s, edits, schedule[n]);
        assert EditsOf(START, schedule) == edits;
      }
    }
  }

  lemma {:induction false} RunConcat(s: State, a: seq<Action>, b: seq<Action>)
    ensures Run(s, a + b) == Run(Run(s, a), b)
    decreases |b|
  {
    if b == [] {
      assert a + b == a;
    } else {
      var n := |b| - 1;
      assert (a + b)[..|a + b| - 1] == a + b[..n];
      RunConcat(s, a, b[..n]);
    }
  }

  /**
   Every answer of an unlocked match is exactly the set of identities holding a
   matching pattern after the first m edits, where m counts at least every edit
   whose version bump preceded the match and at most every edit installed by its end.
   */
  lemma MatchAnswersSomeRecentRelation(before: seq<Action>, r: nat, t: string, after: seq<Action>) returns (m: nat)
    requires var s := Run(START, before); r in s.readers ==> s.readers[r].Returned?
    requires forall j | 0 <= j < |after| :: !(after[j].ReadVersion? && after[j].reader == r)
    requires var s' := Run(START, before + [ReadVersion(r, t)] + after);
             r in s'.readers && s'.readers[r].Returned?
    ensures var schedule := before + [ReadVersion(r, t)] + after;
            var s', edits := Run(START, schedule), EditsOf(START, schedule);
            && Run(START, before).version <= m <= |edits|
            && forall id :: id in s'.readers[r].result <==> exists p :: Holds(edits[..m], id, p) && Matches(p, t)
  {
    hide Next, Lookup, Inv, Holds, Matches, IndexAfter;
    var schedule := before + [ReadVersion(r, t)] + after;
    var first := before + [ReadVersion(r, t)];
    RunConcat(START, first, after);
    assert first[..|first| - 1] == before;
    var s := Run(START, before);
    MatchIsAtLeastAsNew(before, r, t, after, s.version);
    var s' := Run(START, schedule);
    m :| s.version <= m < |s'.hist| && s'.readers[r].result == Lookup(s'.hist[m], t);
    HistoryIsEdits(schedule);
    var edits := EditsOf(START, schedule);
    assert s'.hist[m] == IndexAfter(edits[..m]);
    forall id
      ensures id in s'.readers[r].result <==> exists p :: Holds(edits[..m], id, p) && Matches(p, t)
    {
      RoutingIsPatternMatching(edits[..m], t, id);
    }
  }

  // ----- undisturbed, a write and a match do their work -----

  /** A write that nobody interrupts installs the edited index under the next version and empties the cache. */
  lemma UndisturbedWrite(s: State, e: Edit)
    requires s.writer.WIdle?
    ensures Next(Next(Next(s, InstallIndex(e)), BumpVersion), ClearCache) ==
            s.(index := Edited(s.index, e), version := s.version + 1, cache := map[],
               hist := s.hist + [Edited(s.index, e)])
  {
    hide Edited;
  }

  /**
   A match that nobody interrupts while no write is in progress returns the fresh
   lookup and leaves it in the cache.
   */
  lemma UndisturbedMatch(s: State, r: nat, t: string)
    requires Inv(s) && s.writer.WIdle? && (r in s.readers ==> s.readers[r].Returned?)
    ensures var s' := Next(Next(Next(Next(s, ReadVersion(r, t)), ReadCache(r)), ReadIndex(r)), StoreEntry(r));
            && r in s'.readers && s'.readers[r] == Returned(t, s.version, Lookup(s.index, t))
            && t in s'.cache && s'.cache[t] == (s.version, Lookup(s.index, t))
            && s'.index == s.index && s'.version == s.version
  {
    hide Lookup;
    if t in s.cache && s.cache[t].0 == s.version {
      assert FromAtLeast(s.hist, s.version, t, s.cache[t].1);
    }
  }
}
