/** The object behind BufferModel: the fields the broker updates in place. */
module SubscriberBuffers {
  import opened Bytes
  import opened BufferModel
  import opened BufferRuns

  ghost function FramesOf(s: seq<Entry>): (r: seq<seq<byte>>)
    ensures |r| == |s|
  {
    seq(|s|, i requires 0 <= i < |s| => s[i].frame)
  }

  /** The frames handed to the socket since the log had n entries. */
  ghost function WireSince(log: seq<Exited>, n: nat): seq<seq<byte>>
    requires n <= |log|
  {
    FramesOf(SentOf(log[n..]))
  }

  lemma WireGrows(log: seq<Exited>, n: nat, e: Entry, fate: Fate)
    requires n <= |log|
    ensures WireSince(log + [Exited(e, fate)], n) == WireSince(log, n) + (if fate == Sent then [e.frame] else [])
  {
    var l := log[n..];
    assert (log + [Exited(e, fate)])[n..] == l + [Exited(e, fate)];
    assert (l + [Exited(e, fate)])[..|l|] == l;
  }

  lemma WireStart(log: seq<Exited>)
    ensures WireSince(log, |log|) == []
  {
    assert log[|log|..] == [];
  }

  /** The topics of the dict, in the order a loop over it visits them. */
  function TopicsOf(s: seq<Entry>): (ts: seq<string>)
    ensures |ts| == |s|
  {
    seq(|s|, k requires 0 <= k < |s| => s[k].topic)
  }

  /** The dict holds an entry for every topic not visited yet, the next one in front. */
  lemma NextTopic(s: seq<Entry>, topics: seq<string>, j: nat)
    requires j < |topics| && TopicsOf(s) == topics[j..]
    ensures s != [] && Find(s, topics[j]) == 0
    ensures TopicsOf(Without(s, 0)) == topics[j + 1..]
  {
    assert s[0].topic == TopicsOf(s)[0] == topics[j];
    assert Without(s, 0) == s[1..];
  }

  class SubscriberBuffer {
    const ident: seq<int>
    const lim: Limits
    var q: seq<Entry>       // drop_old
    var latest: seq<Entry>  // conflate: topic -> newest frame, in insertion order
    var bytes: int
    var evicted: nat
    var expired: nat
    var conflated: nat
    var sent: nat
    var starvedRounds: nat
    var drops: seq<Drop>    // calls of the drop callback
    ghost var hist: seq<Entry>
    ghost var log: seq<Exited>

    ghost predicate Valid()
      reads this
    {
      && (lim.policy == DropOld ==> latest == [])
      && (lim.policy == Conflate ==> q == [])
    }

    ghost function Model(): Buffer
      reads this
    {
      Buffer(lim, if lim.policy == Conflate then latest else q, bytes,
             evicted, expired, conflated, sent, drops, hist, log)
    }

    constructor (ident: seq<int>, lim: Limits)
      ensures Valid() && Model() == New(lim) && this.ident == ident && this.lim == lim && starvedRounds == 0
    {
      this.ident, this.lim := ident, lim;
      q, latest, bytes, drops, hist, log := [], [], 0, [], [], [];
      evicted, expired, conflated, sent, starvedRounds := 0, 0, 0, 0, 0;
    }

    /** The oldest queued frame leaves. */
    method PopLeft(fate: Fate)
      requires Valid() && lim.policy == DropOld && q != [] && fate != Conflated
      modifies this
      ensures Valid() && Model() == Leave(old(Model()), 0, fate)
      ensures q == old(q)[1..] && log == old(log) + [Exited(old(q)[0], fate)]
      ensures starvedRounds == old(starvedRounds)
    {
      var e := q[0];
      q := q[1..];
      Account(e, fate);
      assert old(q)[1..] == Without(old(q), 0);
    }

    /** The entry at position i of the dict leaves. */
    method DeleteAt(i: nat, fate: Fate)
      requires Valid() && lim.policy == Conflate && i < |latest| && fate != Conflated
      modifies this
      ensures Valid() && Model() == Leave(old(Model()), i, fate)
      ensures latest == Without(old(latest), i) && log == old(log) + [Exited(old(latest)[i], fate)]
      ensures starvedRounds == old(starvedRounds)
    {
      var e := latest[i];
      latest := latest[..i] + latest[i + 1..];
      Account(e, fate);
    }

    method Account(e: Entry, fate: Fate)
      modifies this`bytes, this`evicted, this`expired, this`conflated, this`sent, this`drops, this`log
      ensures Model() == Book(old(Model()), e, fate)
    {
      bytes := bytes - e.nbytes;
      log := log + [Exited(e, fate)];
      match fate {
        case Sent => sent := sent + 1;
        case Evicted =>
          evicted := evicted + 1;
          drops := drops + [Drop(e.topic, Evicted)];
        case Expired =>
          expired := expired + 1;
          drops := drops + [Drop(e.topic, Expired)];
        case Conflated => conflated := conflated + 1;
      }
    }

    method Enqueue(topic: string, frame: seq<byte>, now: real)
      requires Valid()
      modifies this
      ensures Valid()
      ensures Model() == BufferModel.Enqueue(old(Model()), Entry(topic, frame, |frame|, now))
      ensures starvedRounds == old(starvedRounds)
    {
      var e := Entry(topic, frame, |frame|, now);
      if lim.policy == Conflate {
        EnqueueLatest(e);
      } else {
        EnqueueQueue(e);
      }
    }

    method EnqueueLatest(e: Entry)
      requires Valid() && lim.policy == Conflate
      modifies this
      ensures Valid()
      ensures Model() == EnqueueConflate(old(Model()), e)
      ensures starvedRounds == old(starvedRounds)
    {
      hide Book, ShrinkConflate;
      var i := Find(latest, e.topic);
      if i < |latest| {
        Account(latest[i], Conflated);
        latest := latest[i := e];
      } else {
        latest := latest + [e];
      }
      bytes := bytes + e.nbytes;
      hist := hist + [e];
      ShrinkLatest();
    }

    /** Over the byte limit the oldest topics go, the last one stays. */
    method ShrinkLatest()
      requires Valid() && lim.policy == Conflate
      modifies this
      ensures Valid()
      ensures Model() == ShrinkConflate(old(Model()))
      ensures starvedRounds == old(starvedRounds)
    {
      hide Book;
      while lim.maxBytes > 0 && bytes > lim.maxBytes && |latest| > 1
        invariant Valid() && starvedRounds == old(starvedRounds)
        invariant ShrinkConflate(Model()) == ShrinkConflate(old(Model()))
        decreases |latest|
      {
        DeleteAt(Oldest(latest), Evicted);
      }
    }

    method EnqueueQueue(e: Entry)
      requires Valid() && lim.policy == DropOld
      modifies this
      ensures Valid()
      ensures Model() == EnqueueOld(old(Model()), e)
      ensures starvedRounds == old(starvedRounds)
    {
      hide Book, ShrinkOld;
      if lim.maxMessages > 0 && |q| >= lim.maxMessages {
        PopLeft(Evicted);
      }
      q := q + [e];
      bytes := bytes + e.nbytes;
      hist := hist + [e];
      ShrinkQueue();
    }

    /** Over the byte limit the oldest frames go. */
    method ShrinkQueue()
      requires Valid() && lim.policy == DropOld
      modifies this
      ensures Valid()
      ensures Model() == ShrinkOld(old(Model()))
      ensures starvedRounds == old(starvedRounds)
    {
      hide Book;
      while lim.maxBytes > 0 && bytes > lim.maxBytes && q != []
        invariant Valid() && starvedRounds == old(starvedRounds)
        invariant ShrinkOld(Model()) == ShrinkOld(old(Model()))
        decreases |q|
      {
        PopLeft(Evicted);
      }
    }

    /** Sends what it can; wire is what the socket accepted, room frames at most. */
    method Drain(now: real, room: nat, credit: int, budget: int) returns (n: nat, wire: seq<seq<byte>>)
      requires Valid()
      modifies this
      ensures Valid()
      ensures (Model(), n) == BufferModel.Drain(old(Model()), now, room, credit, budget)
      ensures NoneCouldGo(Model(), n, now, room, credit, budget)
      ensures |old(log)| <= |log| && wire == WireSince(log, |old(log)|)
      ensures starvedRounds == old(starvedRounds)
    {
      DrainSendsWhatItMay(Model(), now, room, credit, budget);
      if lim.policy == Conflate {
        n, wire := DrainLatest(now, room, credit, budget);
      } else {
        n, wire := DrainQueue(now, room, credit, budget);
      }
    }

    method DrainQueue(now: real, room: nat, credit: int, budget: int) returns (n: nat, wire: seq<seq<byte>>)
      requires Valid() && lim.policy == DropOld
      modifies this
      ensures Valid()
      ensures (Model(), n) == DrainFrom(old(Model()), now, room, credit, budget, 0)
      ensures |old(log)| <= |log| && wire == WireSince(log, |old(log)|)
      ensures starvedRounds == old(starvedRounds)
    {
      hide WireSince, Book;
      var left, todo := room, budget;
      n, wire := 0, [];
      WireStart(log);
      while q != [] && n < DRAIN_BUDGET
        invariant Valid() && starvedRounds == old(starvedRounds)
        invariant DrainFrom(Model(), now, left, credit, todo, n) ==
                  DrainFrom(old(Model()), now, room, credit, budget, 0)
        invariant |old(log)| <= |log| && wire == WireSince(log, |old(log)|)
        decreases |q|
      {
        var e := q[0];
        if lim.maxAge > 0.0 && now - e.enqueuedAt > lim.maxAge {
          WireGrows(log, |old(log)|, e, Expired);
          PopLeft(Expired);
          continue;
        }
        if credit == 0 || todo == 0 {
          break;
        }
        if left == 0 {
          break;
        }
        left, wire := left - 1, wire + [e.frame];
        WireGrows(log, |old(log)|, e, Sent);
        PopLeft(Sent);
        n := n + 1;
        if todo > 0 {
          todo := todo - 1;
        }
      }
    }

    method DrainLatest(now: real, room: nat, credit: int, budget: int) returns (n: nat, wire: seq<seq<byte>>)
      requires Valid() && lim.policy == Conflate
      modifies this
      ensures Valid()
      ensures (Model(), n) == DrainFrom(old(Model()), now, room, credit, budget, 0)
      ensures |old(log)| <= |log| && wire == WireSince(log, |old(log)|)
      ensures starvedRounds == old(starvedRounds)
    {
      hide WireSince, Book, Find, TopicsOf, Without;
      var left, todo := room, budget;
      n, wire := 0, [];
      WireStart(log);
      var topics := TopicsOf(latest);
      var j := 0;
      while j < |topics| && n < DRAIN_BUDGET
        invariant Valid() && starvedRounds == old(starvedRounds)
        invariant j <= |topics| && TopicsOf(latest) == topics[j..]
        invariant DrainFrom(Model(), now, left, credit, todo, n) ==
                  DrainFrom(old(Model()), now, room, credit, budget, 0)
        invariant |old(log)| <= |log| && wire == WireSince(log, |old(log)|)
        decreases |topics| - j
      {
        NextTopic(latest, topics, j);
        var i := Find(latest, topics[j]);
        var e := latest[i];
        j := j + 1;
        if lim.maxAge > 0.0 && now - e.enqueuedAt > lim.maxAge {
          WireGrows(log, |old(log)|, e, Expired);
          DeleteAt(i, Expired);
          continue;
        }
        if credit == 0 || todo == 0 {
          break;
        }
        if left == 0 {
          break;
        }
        left, wire := left - 1, wire + [e.frame];
        WireGrows(log, |old(log)|, e, Sent);
        DeleteAt(i, Sent);
        n := n + 1;
        if todo > 0 {
          todo := todo - 1;
        }
      }
    }

    /** The age of the oldest frame held, in milliseconds and not rounded; O(1) under drop_old. */
    method OldestAgeMs(now: real) returns (age: real)
      requires Valid() && (lim.policy == DropOld ==> Timely(q))
      ensures Model().held == [] ==> age == 0.0
      ensures Model().held != [] ==>
                exists e :: e in Model().held && age == (now - e.enqueuedAt) * 1000.0 &&
                  forall e' | e' in Model().held :: e.enqueuedAt <= e'.enqueuedAt
    {
      if lim.policy == Conflate {
        if latest == [] {
          return 0.0;
        }
        var oldest := latest[0];
        for i := 1 to |latest|
          invariant oldest in latest
          invariant forall j | 0 <= j < i :: oldest.enqueuedAt <= latest[j].enqueuedAt
        {
          if latest[i].enqueuedAt < oldest.enqueuedAt {
            oldest := latest[i];
          }
        }
        return (now - oldest.enqueuedAt) * 1000.0;
      } else if q != [] {
        assert q[0] in q;
        return (now - q[0].enqueuedAt) * 1000.0;
      } else {
        return 0.0;
      }
    }
  }
}
