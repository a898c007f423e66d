/** Remote shell history, fetched once per host: any number of tabs and fetch threads, one lock. */
module RemoteHistory {
  import opened Text
  import opened SessionHistory

  type Key = string
  type Tid = nat

  /** A fetch thread: about to start, running its fetch, or holding what the fetch returned. */
  datatype Phase = Starting | Fetching | Fetched(entries: seq<string>)

  datatype Thread = Thread(key: Key, phase: Phase)

  /**
   * The shared cache and pending set, the live fetch threads, the hosts whose thread could not be
   * started, and how often each host was asked.
   */
  datatype Shared = Shared(
    cache: map<Key, seq<string>>, pending: set<Key>, threads: map<Tid, Thread>, stuck: set<Key>, asked: multiset<Key>)

  const EMPTY := Shared(map[], {}, map[], {}, multiset{})

  datatype Step =
    | Query(key: Key, tid: Tid)
    | Begin(tid: Tid)
    | FailToBegin(tid: Tid)
    | Fetch(tid: Tid, text: Option<string>)
    | Publish(tid: Tid)

  /** Thread ids are never reused while the thread lives. */
  predicate Enabled(s: Shared, a: Step) {
    match a
    case Query(_, tid) => tid !in s.threads
    case Begin(tid) => tid in s.threads && s.threads[tid].phase.Starting?
    case FailToBegin(tid) => tid in s.threads && s.threads[tid].phase.Starting?
    case Fetch(tid, _) => tid in s.threads && s.threads[tid].phase.Fetching?
    case Publish(tid) => tid in s.threads && s.threads[tid].phase.Fetched?
  }

  function Next(s: Shared, a: Step): Shared
    requires Enabled(s, a)
  {
    match a
    case Query(key, tid) =>
      if key in s.cache || key in s.pending then s
      else s.(pending := s.pending + {key}, threads := s.threads[tid := Thread(key, Starting)])
    case Begin(tid) => s.(threads := s.threads[tid := s.threads[tid].(phase := Fetching)])
    case FailToBegin(tid) => s.(threads := s.threads - {tid}, stuck := s.stuck + {s.threads[tid].key})
    case Fetch(tid, text) =>
      // a failed fetch counts as empty history
      var entries := RecentFirst(SplitLines(if text.Some? then text.value else ""));
      s.(threads := s.threads[tid := s.threads[tid].(phase := Fetched(entries))],
         asked := s.asked + multiset{s.threads[tid].key})
    case Publish(tid) =>
      var t := s.threads[tid];
      s.(cache := s.cache[t.key := t.phase.entries], pending := s.pending - {t.key}, threads := s.threads - {tid})
  }

  predicate IsRun(s: Shared, steps: seq<Step>)
    decreases |steps|
  {
    steps == [] || (Enabled(s, steps[0]) && IsRun(Next(s, steps[0]), steps[1..]))
  }

  function After(s: Shared, steps: seq<Step>): Shared
    requires IsRun(s, steps)
    decreases |steps|
  {
    if steps == [] then s else After(Next(s, steps[0]), steps[1..])
  }

  /** `tid` is a live fetch for `key`. */
  predicate Serves(s: Shared, tid: Tid, key: Key) { tid in s.threads && s.threads[tid].key == key }

  /** The state of one host. */
  ghost predicate KeyInv(s: Shared, key: Key) {
    && !(key in s.pending && key in s.cache)
    && (forall t :: Serves(s, t, key) ==> key in s.pending)
    && (key in s.pending ==> key in s.stuck || exists t :: Serves(s, t, key))
    && (key in s.stuck ==> key in s.pending && s.asked[key] == 0 && forall t :: !Serves(s, t, key))
    && (forall t, u :: Serves(s, t, key) && Serves(s, u, key) ==> t == u)
    && (key in s.cache ==> s.asked[key] == 1)
    && (key !in s.cache && key !in s.pending ==> s.asked[key] == 0)
    && (forall t :: Serves(s, t, key) ==> s.asked[key] == if s.threads[t].phase.Fetched? then 1 else 0)
  }

  ghost predicate Inv(s: Shared) { forall key :: KeyInv(s, key) }

  lemma StepKeepsKey(s: Shared, a: Step, key: Key)
    requires Inv(s) && Enabled(s, a)
    ensures KeyInv(Next(s, a), key)
  {
    hide RecentFirst, SplitLines;
    assert KeyInv(s, key);
    var s' := Next(s, a);
    match a
    case Query(k, tid) =>
      QueryKeepsKey(s, k, tid, key);
    case Begin(tid) =>
      assert forall t :: Serves(s', t, key) <==> Serves(s, t, key);
    case FailToBegin(tid) =>
      assert KeyInv(s, s.threads[tid].key);
      assert Serves(s, tid, s.threads[tid].key);
      assert forall t :: Serves(s', t, key) <==> Serves(s, t, key) && t != tid;
    case Fetch(tid, text) =>
      assert KeyInv(s, s.threads[tid].key);
      assert Serves(s, tid, s.threads[tid].key);
      assert forall t :: Serves(s', t, key) <==> Serves(s, t, key);
    case Publish(tid) =>
      assert KeyInv(s, s.threads[tid].key);
      assert Serves(s, tid, s.threads[tid].key);
      assert forall t :: Serves(s', t, key) <==> Serves(s, t, key) && t != tid;
  }

  lemma QueryKeepsKey(s: Shared, k: Key, tid: Tid, key: Key)
    requires Inv(s) && Enabled(s, Query(k, tid))
    ensures KeyInv(Next(s, Query(k, tid)), key)
  {
    assert KeyInv(s, key);
    var s' := Next(s, Query(k, tid));
    if !(k in s.cache || k in s.pending) {
      assert forall t :: Serves(s', t, key) <==> Serves(s, t, key) || (t == tid && key == k);
      if key == k { assert Serves(s', tid, key); }
    }
  }

  lemma {:induction false} RunKeepsInv(s: Shared, steps: seq<Step>)
    requires Inv(s) && IsRun(s, steps)
    ensures Inv(After(s, steps))
    decreases |steps|
  {
    hide Next, Enabled, KeyInv;
    if steps != [] {
      forall key ensures KeyInv(Next(s, steps[0]), key) { StepKeepsKey(s, steps[0], key); }
      RunKeepsInv(Next(s, steps[0]), steps[1..]);
    }
  }

  /**
   * Over any interleaving of queries and fetch threads: each host is asked at most once, a host is
   * never both pending and cached, and a pending host has exactly one live fetch, unless its thread
   * could not be started.
   */
  lemma FetchedAtMostOnce(steps: seq<Step>, key: Key)
    requires IsRun(EMPTY, steps)
    ensures var s := After(EMPTY, steps);
            && s.asked[key] <= 1
            && !(key in s.pending && key in s.cache)
            && (key in s.pending <==> key in s.stuck || exists t :: Serves(s, t, key))
            && (key in s.stuck ==> s.asked[key] == 0 && forall t :: !Serves(s, t, key))
            && (forall t, u :: Serves(s, t, key) && Serves(s, u, key) ==> t == u)
  {
    hide IsRun, After;
    assert Inv(EMPTY) by { assert forall t, k :: !Serves(EMPTY, t, k); }
    RunKeepsInv(EMPTY, steps);
    assert KeyInv(After(EMPTY, steps), key);
  }

  lemma {:induction false} CacheStays(s: Shared, steps: seq<Step>, key: Key)
    requires Inv(s) && IsRun(s, steps) && key in s.cache
    ensures key in After(s, steps).cache && After(s, steps).cache[key] == s.cache[key]
    decreases |steps|
  {
    hide KeyInv;
    if steps != [] {
      var a := steps[0];
      assert key in Next(s, a).cache && Next(s, a).cache[key] == s.cache[key] by { CacheKept(s, a, key); }
      forall k ensures KeyInv(Next(s, a), k) { StepKeepsKey(s, a, k); }
      CacheStays(Next(s, a), steps[1..], key);
    }
  }

  lemma CacheKept(s: Shared, a: Step, key: Key)
    requires Inv(s) && Enabled(s, a) && key in s.cache
    ensures key in Next(s, a).cache && Next(s, a).cache[key] == s.cache[key]
  {
    hide RecentFirst, SplitLines;
    assert KeyInv(s, key);
    assert a.Publish? ==> Serves(s, a.tid, s.threads[a.tid].key);
  }

  /** What was cached at any moment of any run is what every later query sees. */
  lemma CachedEntryNeverChanges(steps: seq<Step>, more: seq<Step>, key: Key)
    requires IsRun(EMPTY, steps) && IsRun(After(EMPTY, steps), more) && key in After(EMPTY, steps).cache
    ensures key in After(After(EMPTY, steps), more).cache
    ensures After(After(EMPTY, steps), more).cache[key] == After(EMPTY, steps).cache[key]
  {
    hide IsRun, After;
    assert Inv(EMPTY) by { assert forall t, k :: !Serves(EMPTY, t, k); }
    RunKeepsInv(EMPTY, steps);
    CacheStays(After(EMPTY, steps), more, key);
  }

  /** A host whose thread could not be started stays pending, is never asked and never cached. */
  lemma {:induction false} StuckForEver(s: Shared, steps: seq<Step>, key: Key)
    requires Inv(s) && IsRun(s, steps) && key in s.stuck
    ensures var e := After(s, steps); key in e.stuck && key in e.pending && key !in e.cache && e.asked[key] == 0
    decreases |steps|
  {
    hide KeyInv;
    if steps == [] {
      StuckNow(s, key);
    } else {
      var a := steps[0];
      assert key in Next(s, a).stuck;
      forall k ensures KeyInv(Next(s, a), k) { StepKeepsKey(s, a, k); }
      StuckForEver(Next(s, a), steps[1..], key);
    }
  }

  lemma StuckNow(s: Shared, key: Key)
    requires Inv(s) && key in s.stuck
    ensures key in s.pending && key !in s.cache && s.asked[key] == 0
  {
    assert KeyInv(s, key);
  }

  /** The class-level cache and pending set; each method body runs under the lock. */
  class HistoryCache {
    var cache: map<Key, seq<string>>
    var pending: set<Key>

    constructor ()
      ensures cache == map[] && pending == {}
    {
      cache, pending := map[], {};
    }

    /** Whether the caller has to start a fetch thread. */
    method EnsureFetched(key: Key) returns (start: bool)
      modifies this`pending
      ensures start <==> key !in cache && key !in old(pending)
      ensures pending == if start then old(pending) + {key} else old(pending)
    {
      if key in cache || key in pending {
        return false;
      }
      pending := pending + {key};
      start := true;
    }

    /** The end of a fetch thread; no text stands for a fetch that failed or returned nothing. */
    method Publish(key: Key, text: Option<string>)
      modifies this
      ensures cache == old(cache)[key := RecentFirst(SplitLines(if text.Some? then text.value else ""))]
      ensures pending == old(pending) - {key}
    {
      var entries := RecentFirstDedupe(SplitLines(if text.Some? then text.value else ""));
      cache := cache[key := entries];
      pending := pending - {key};
    }

    /** The object shows the shared part of a state of the protocol. */
    ghost predicate Shows(s: Shared)
      reads this
    {
      cache == s.cache && pending == s.pending
    }

    /** A query takes exactly the protocol's step. */
    method QueryStep(ghost s: Shared, key: Key, ghost tid: Tid) returns (start: bool, ghost s': Shared)
      requires Shows(s) && Enabled(s, Query(key, tid))
      modifies this`pending
      ensures s' == Next(s, Query(key, tid)) && Shows(s')
      ensures start <==> tid in s'.threads
    {
      s' := Next(s, Query(key, tid));
      start := EnsureFetched(key);
    }

    /** A thread that has fetched `text` publishes exactly as the protocol does. */
    method PublishStep(ghost s: Shared, ghost tid: Tid, key: Key, text: Option<string>) returns (ghost s': Shared)
      requires Shows(s) && Enabled(s, Step.Publish(tid)) && s.threads[tid].key == key
      requires s.threads[tid].phase.entries == RecentFirst(SplitLines(if text.Some? then text.value else ""))
      modifies this
      ensures s' == Next(s, Step.Publish(tid)) && Shows(s')
    {
      hide RecentFirst, SplitLines;
      s' := Next(s, Step.Publish(tid));
      Publish(key, text);
    }
  }
}
