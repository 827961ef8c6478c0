/** What the cache answers, told from the history of calls alone: recency, capacity, and agreement
    of every Get with the latest Set. */
module LruHistory {
  import opened Common
  import opened LruModel

  /** The clock never runs backwards over a history. */
  ghost predicate Monotone<V>(trace: seq<Event<V>>) {
    forall i, j :: 0 <= i < j < |trace| ==> trace[i].now <= trace[j].now
  }

  function Last<T>(s: seq<T>): T
    requires s != []
  {
    s[|s| - 1]
  }

  function Prefix<T>(s: seq<T>): seq<T>
    requires s != []
  {
    s[..|s| - 1]
  }

  // ---------- recency ----------

  /** A key is used by a Set of it and by a Get that hits it; an expired Get uses nothing. */
  predicate Uses<V>(cfg: Config, s: Lru<V>, e: Event<V>, k: string) {
    match e.op
    case Get(key) => key == k && Hits(cfg, s, e.now, key)
    case Set(key, _) => key == k
    case _ => false
  }

  /** One plus the position of the latest call that used k; 0 when no call did. */
  function LastUse<V>(cfg: Config, trace: seq<Event<V>>, k: string): nat {
    if trace == [] then 0
    else if Uses(cfg, Run(cfg, Prefix(trace)), Last(trace), k) then |trace|
    else LastUse(cfg, Prefix(trace), k)
  }

  ghost predicate Decreasing(s: seq<string>, rank: string -> int) {
    forall i, j :: 0 <= i < j < |s| ==> rank(s[i]) > rank(s[j])
  }

  lemma DecreasingCons(x: string, s: seq<string>, rank: string -> int)
    ensures Decreasing([x] + s, rank) <==> Decreasing(s, rank) && forall y | y in s :: rank(x) > rank(y)
  {
    var t := [x] + s;
    if Decreasing(t, rank) {
      forall j | 0 <= j < |s| ensures rank(x) > rank(s[j]) {
        assert t[0] == x && t[j + 1] == s[j];
      }
      forall i, j | 0 <= i < j < |s| ensures rank(s[i]) > rank(s[j]) {
        assert t[i + 1] == s[i] && t[j + 1] == s[j];
      }
    }
  }

  lemma {:induction false} DecreasingRestrict(s: seq<string>, ks: set<string>, rank: string -> int)
    requires Decreasing(s, rank)
    ensures Decreasing(Restrict(s, ks), rank)
    ensures forall x | x in Restrict(s, ks) :: x in s
  {
    if s != [] {
      assert s == [s[0]] + s[1..];
      DecreasingRestrict(s[1..], ks, rank);
      DecreasingCons(s[0], s[1..], rank);
      DecreasingCons(s[0], Restrict(s[1..], ks), rank);
      assert [] + Restrict(s[1..], ks) == Restrict(s[1..], ks);
    }
  }

  lemma DecreasingWithout(s: seq<string>, k: string, rank: string -> int)
    requires Distinct(s) && Decreasing(s, rank)
    ensures Decreasing(Without(s, k), rank)
  {
    var others := (set x | x in s) - {k};
    WithoutIsRestrict(s, k, others);
    DecreasingRestrict(s, others, rank);
  }

  /** Putting the used key in front keeps a list ordered by rank, once that key gets the top rank. */
  lemma FrontKeepsDecreasing(key: string, order: seq<string>, before: string -> int, after: string -> int)
    requires Distinct(order) && Decreasing(order, before)
    requires forall k | k in order && k != key :: after(k) == before(k) && after(k) < after(key)
    ensures Decreasing([key] + Without(order, key), after)
  {
    hide Without;
    DecreasingWithout(order, key, before);
    WithoutFacts(order, key);
    DecreasingCons(key, Without(order, key), after);
  }

  lemma StepKeepsRecency<V>(cfg: Config, s: Lru<V>, e: Event<V>, before: string -> int, after: string -> int, n: int)
    requires Inv(s) && Decreasing(s.order, before)
    requires forall k | k in s.order :: before(k) < n
    requires forall k :: after(k) == if Uses(cfg, s, e, k) then n else before(k)
    ensures Decreasing(Step(cfg, s, e).order, after)
  {
    hide Without; hide Restrict;
    match e.op
    case Get(key) =>
      if Hits(cfg, s, e.now, key) {
        FrontKeepsDecreasing(key, s.order, before, after);
      }
    case Set(key, value) =>
      var room := MadeRoom(cfg, s, key);
      SetOnRoom(cfg, s, e.now, key, value);
      WithoutFacts(s.order, Back(s.order));
      DecreasingWithout(s.order, Back(s.order), before);
      FrontKeepsDecreasing(key, room.order, before, after);
    case Delete(key) => DecreasingWithout(s.order, key, before);
    case Clear =>
    case Cleanup => DecreasingRestrict(s.order, s.entries.Keys - ExpiredKeys(cfg, s, e.now), before);
  }

  lemma {:induction false} LastUseBound<V>(cfg: Config, trace: seq<Event<V>>, k: string)
    ensures LastUse(cfg, trace, k) <= |trace|
  {
    if trace != [] {
      LastUseBound(cfg, Prefix(trace), k);
    }
  }

  /** The list orders its keys by latest use, strictly: most recently used first. */
  lemma {:induction false} ListIsRecencyOrder<V>(cfg: Config, trace: seq<Event<V>>)
    ensures Decreasing(Run(cfg, trace).order, k => LastUse(cfg, trace, k))
  {
    if trace != [] {
      var s := Run(cfg, Prefix(trace));
      ListIsRecencyOrder(cfg, Prefix(trace));
      RunKeepsInv(cfg, Prefix(trace));
      forall k ensures LastUse(cfg, Prefix(trace), k) < |trace| {
        LastUseBound(cfg, Prefix(trace), k);
      }
      var before := k => LastUse(cfg, Prefix(trace), k);
      var after := k => LastUse(cfg, trace, k);
      StepKeepsRecency(cfg, s, Last(trace), before, after, |trace|);
      assert Decreasing(Run(cfg, trace).order, after);
    }
  }

  /** Every cached key was used, and its access stamp is the clock reading of its latest use. */
  lemma {:induction false} AccessStamps<V>(cfg: Config, trace: seq<Event<V>>, k: string)
    requires k in Run(cfg, trace).entries
    ensures 1 <= LastUse(cfg, trace, k) <= |trace|
    ensures Run(cfg, trace).entries[k].accessedAt == trace[LastUse(cfg, trace, k) - 1].now
  {
    assert trace != [];
    var s := Run(cfg, Prefix(trace));
    if !Uses(cfg, s, Last(trace), k) {
      assert k in s.entries && Run(cfg, trace).entries[k] == s.entries[k];
      AccessStamps(cfg, Prefix(trace), k);
    }
  }

  /** Along the list, access stamps never increase. */
  lemma AccessStampsFollowList<V>(cfg: Config, trace: seq<Event<V>>, i: nat, j: nat)
    requires Monotone(trace)
    requires i < j < |Run(cfg, trace).order|
    ensures Inv(Run(cfg, trace))
    ensures Run(cfg, trace).entries[Run(cfg, trace).order[i]].accessedAt
         >= Run(cfg, trace).entries[Run(cfg, trace).order[j]].accessedAt
  {
    var s := Run(cfg, trace);
    RunKeepsInv(cfg, trace);
    ListIsRecencyOrder(cfg, trace);
    var rank := k => LastUse(cfg, trace, k);
    assert rank(s.order[i]) > rank(s.order[j]);
    AccessStamps(cfg, trace, s.order[i]);
    AccessStamps(cfg, trace, s.order[j]);
  }

  // ---------- eviction and capacity ----------

  /** The key a call pushes out, if any. */
  function Evicted<V>(cfg: Config, s: Lru<V>, e: Event<V>): Option<string> {
    if e.op.Set? && MustEvict(cfg, s, e.op.key) && Back(s.order) != EMPTY_KEY then Some(Back(s.order)) else None
  }

  lemma BackIsLeast(order: seq<string>, rank: string -> int)
    requires order != [] && Decreasing(order, rank)
    ensures forall k | k in order && k != Back(order) :: rank(k) > rank(Back(order))
  {
    forall k | k in order && k != Back(order) ensures rank(k) > rank(Back(order)) {
      var i :| 0 <= i < |order| && order[i] == k;
      assert rank(order[i]) > rank(order[|order| - 1]);
    }
  }

  lemma EvictionTakesTheBack<V>(cfg: Config, s: Lru<V>, e: Event<V>)
    requires Inv(s)
    ensures Evicted(cfg, s, e).None? && e.op.Set? ==> s.entries.Keys <= Step(cfg, s, e).entries.Keys
    ensures Evicted(cfg, s, e).Some? ==>
              && s.order != [] && Evicted(cfg, s, e).value == Back(s.order) && Back(s.order) in s.entries
              && Step(cfg, s, e).entries.Keys == s.entries.Keys - {Back(s.order)} + {e.op.key}
  {
    if s.order != [] {
      assert Back(s.order) in s.order;
    }
  }

  /** An eviction takes exactly one key, the one whose latest use is the oldest of all. */
  lemma EvictionTakesLeastRecentlyUsed<V>(cfg: Config, trace: seq<Event<V>>, e: Event<V>)
    ensures match Evicted(cfg, Run(cfg, trace), e)
            case None => e.op.Set? ==> Run(cfg, trace).entries.Keys <= Step(cfg, Run(cfg, trace), e).entries.Keys
            case Some(out) =>
              && out in Run(cfg, trace).entries
              && Step(cfg, Run(cfg, trace), e).entries.Keys == Run(cfg, trace).entries.Keys - {out} + {e.op.key}
              && forall k | k in Run(cfg, trace).entries && k != out :: LastUse(cfg, trace, k) > LastUse(cfg, trace, out)
  {
    RunKeepsInv(cfg, trace);
    ListIsRecencyOrder(cfg, trace);
    EvictionTakesTheBack(cfg, Run(cfg, trace), e);
    var rank := k => LastUse(cfg, trace, k);
    if Run(cfg, trace).order != [] {
      BackIsLeast(Run(cfg, trace).order, rank);
      forall k | k in Run(cfg, trace).entries && k != Back(Run(cfg, trace).order)
        ensures LastUse(cfg, trace, k) > LastUse(cfg, trace, Back(Run(cfg, trace).order))
      {
        assert rank(k) > rank(Back(Run(cfg, trace).order));
      }
    }
  }

  /** A Set keeps the capacity bound in all cases but one: the cache is full and its least recently
      used key is the empty string, which the list cannot tell from "nothing to evict". */
  lemma SetKeepsCapacityIff<V>(cfg: Config, s: Lru<V>, now: int, key: string, value: V)
    requires Inv(s) && 1 <= cfg.maxEntries && |s.entries| <= cfg.maxEntries
    ensures |SetStep(cfg, s, now, key, value).entries| <= cfg.maxEntries
       <==> (key in s.entries || |s.entries| < cfg.maxEntries || Back(s.order) != EMPTY_KEY)
  {
    hide Without; hide Distinct;
    InvSize(s);
    SizeAfterSet(cfg, s, now, key, value);
  }

  /** A Set of a new key adds one entry, less the one it could evict. */
  lemma SizeAfterSet<V>(cfg: Config, s: Lru<V>, now: int, key: string, value: V)
    requires Inv(s) && 1 <= cfg.maxEntries
    ensures |SetStep(cfg, s, now, key, value).entries| ==
            |s.entries| + (if key in s.entries then 0 else 1)
                        - (if MustEvict(cfg, s, key) && Back(s.order) != EMPTY_KEY then 1 else 0)
  {
    hide Without; hide Distinct;
    InvSize(s);
    var t := SetStep(cfg, s, now, key, value);
    var out := if MustEvict(cfg, s, key) && Back(s.order) != EMPTY_KEY then {Back(s.order)} else {};
    assert s.order != [] ==> Back(s.order) in s.order;
    assert out <= s.entries.Keys;
    assert t.entries.Keys == s.entries.Keys - out + {key};
    assert |s.entries.Keys - out| == |s.entries.Keys| - |out|;
    assert |t.entries.Keys| == |t.entries| && |s.entries.Keys| == |s.entries|;
  }

  /** The failing case is reachable: two Sets overflow a cache of one entry. */
  lemma EmptyKeyOverflows(cfg: Config, value: int)
    requires cfg.maxEntries == 1
    ensures var trace := [Event(0, Set("", value)), Event(0, Set("a", value))];
            |Run(cfg, trace).entries| == 2
  {
    var first := Event(0, Set("", value));
    var second := Event(0, Set("a", value));
    var trace := [first, second];
    assert Prefix(trace) == [first] && Prefix([first]) == [];
    var start := Run(cfg, Prefix([first]));
    assert start == Empty();
    var s := Run(cfg, [first]);
    assert s == Step(cfg, start, first);
    assert s.order == [""];
    assert Run(cfg, trace) == Step(cfg, s, second);
    assert Run(cfg, trace).entries.Keys == {"", "a"};
    assert |Run(cfg, trace).entries.Keys| == |Run(cfg, trace).entries|;
  }

  /** No call but a Set enlarges the cache. */
  lemma OnlySetGrows<V>(cfg: Config, s: Lru<V>, e: Event<V>)
    requires !e.op.Set?
    ensures Step(cfg, s, e).entries.Keys <= s.entries.Keys
    ensures |Step(cfg, s, e).entries| <= |s.entries|
  {
    var t := Step(cfg, s, e);
    assert t.entries.Keys <= s.entries.Keys;
    SubsetSize(t.entries.Keys, s.entries.Keys);
    assert |t.entries.Keys| == |t.entries| && |s.entries.Keys| == |s.entries|;
  }

  lemma SubsetSize<T>(a: set<T>, b: set<T>)
    requires a <= b
    ensures |a| <= |b|
  {
    assert b == a + (b - a);
  }

  /** Over every history that never sets the empty key, the bound holds. */
  lemma {:induction false} CapacityHolds<V>(cfg: Config, trace: seq<Event<V>>)
    requires 1 <= cfg.maxEntries
    requires forall e | e in trace && e.op.Set? :: e.op.key != EMPTY_KEY
    ensures |Run(cfg, trace).entries| <= cfg.maxEntries
    ensures EMPTY_KEY !in Run(cfg, trace).entries
  {
    if trace != [] {
      var s, e := Run(cfg, Prefix(trace)), Last(trace);
      CapacityHolds(cfg, Prefix(trace));
      RunKeepsInv(cfg, Prefix(trace));
      if e.op.Set? {
        InvSize(s);
        assert s.order != [] ==> Back(s.order) in s.order;
        SetKeepsCapacityIff(cfg, s, e.now, e.op.key, e.op.value);
      } else {
        OnlySetGrows(cfg, s, e);
      }
    }
  }

  function Gets<V>(trace: seq<Event<V>>): nat {
    if trace == [] then 0 else Gets(Prefix(trace)) + (if Last(trace).op.Get? then 1 else 0)
  }

  function HittingGets<V>(cfg: Config, trace: seq<Event<V>>): nat {
    if trace == [] then 0
    else
      var e := Last(trace);
      HittingGets(cfg, Prefix(trace)) +
      (if e.op.Get? && Lookup(cfg, Run(cfg, Prefix(trace)), e.now, e.op.key).Some? then 1 else 0)
  }

  function Evictions<V>(cfg: Config, trace: seq<Event<V>>): nat {
    if trace == [] then 0
    else
      Evictions(cfg, Prefix(trace)) + (if Evicted(cfg, Run(cfg, Prefix(trace)), Last(trace)).Some? then 1 else 0)
  }

  /** The counters tell the truth over every history: each Get is a hit or a miss and counted once, each
      eviction is counted, and nothing resets them, Clear included. */
  lemma {:induction false} CountersAreExact<V>(cfg: Config, trace: seq<Event<V>>)
    ensures var s := Run(cfg, trace);
            s.hits == HittingGets(cfg, trace) && s.hits + s.misses == Gets(trace) && s.evicts == Evictions(cfg, trace)
  {
    hide Without; hide Restrict;
    if trace != [] {
      CountersAreExact(cfg, Prefix(trace));
    }
  }

  // ---------- agreement with the history ----------

  /** The latest Set of k that no Delete of k and no Clear follows: its value and its time.
      This is what a cache without bound and without expiry would hold. */
  function LatestSet<V>(trace: seq<Event<V>>, k: string): Option<(V, int)> {
    if trace == [] then None
    else
      match Last(trace).op
      case Set(key, value) => if key == k then Some((value, Last(trace).now)) else LatestSet(Prefix(trace), k)
      case Delete(key) => if key == k then None else LatestSet(Prefix(trace), k)
      case Clear => None
      case _ => LatestSet(Prefix(trace), k)
  }

  /** Whether k was evicted after its latest Set. */
  predicate EvictedSince<V>(cfg: Config, trace: seq<Event<V>>, k: string) {
    trace != [] &&
    (var e := Last(trace);
     !(e.op.Set? && e.op.key == k) &&
     (Evicted(cfg, Run(cfg, Prefix(trace)), e) == Some(k) || EvictedSince(cfg, Prefix(trace), k)))
  }

  /** What one call does to the entry of k: a Set replaces it, a Delete, a Clear or an eviction removes it,
      a Cleanup removes it exactly when it has expired, and otherwise it keeps its value and its age. */
  lemma EntryStep<V>(cfg: Config, s: Lru<V>, e: Event<V>, k: string)
    requires Inv(s)
    ensures var t := Step(cfg, s, e);
            if e.op.Set? && e.op.key == k then k in t.entries && t.entries[k] == Entry(e.op.value, e.now, e.now)
            else if k !in s.entries || (e.op.Delete? && e.op.key == k) || e.op.Clear? || Evicted(cfg, s, e) == Some(k)
                    || (e.op.Cleanup? && Expired(cfg, s.entries[k], e.now))
            then k !in t.entries
            else k in t.entries && t.entries[k].value == s.entries[k].value
                                && t.entries[k].insertedAt == s.entries[k].insertedAt
    ensures Evicted(cfg, s, e) == Some(k) ==> e.op.Set? && e.op.key != k
  {
    hide Without; hide Restrict;
    if e.op.Set? {
      assert s.order != [] ==> Back(s.order) in s.order;
    }
  }

  /** A cached entry is the latest Set; a live latest Set that is not cached was evicted or has expired. */
  lemma {:induction false} EntriesAreLatestSets<V>(cfg: Config, trace: seq<Event<V>>, k: string)
    requires Monotone(trace)
    ensures var s := Run(cfg, trace);
            if k in s.entries then
              LatestSet(trace, k) == Some((s.entries[k].value, s.entries[k].insertedAt)) && !EvictedSince(cfg, trace, k)
            else
              LatestSet(trace, k).Some? ==>
                EvictedSince(cfg, trace, k) || Last(trace).now - LatestSet(trace, k).value.1 > cfg.ttl
  {
    hide Step; hide Inv; hide Evicted;
    if trace != [] {
      EntriesAreLatestSets(cfg, Prefix(trace), k);
      RunKeepsInv(cfg, Prefix(trace));
      EntryStep(cfg, Run(cfg, Prefix(trace)), Last(trace), k);
      assert Run(cfg, trace) == Step(cfg, Run(cfg, Prefix(trace)), Last(trace));
      assert Prefix(trace) != [] ==> Last(Prefix(trace)).now <= Last(trace).now;
      hide Run;
    }
  }

  /** The cache law: a Get returns the value of the latest Set when that Set is at most ttl old and its
      key has not been evicted since, and it misses in every other case. */
  lemma GetAgreesWithHistory<V>(cfg: Config, trace: seq<Event<V>>, now: int, k: string)
    requires Monotone(trace) && (trace != [] ==> Last(trace).now <= now)
    ensures Lookup(cfg, Run(cfg, trace), now, k) ==
            match LatestSet(trace, k)
            case Some((value, at)) => if now - at <= cfg.ttl && !EvictedSince(cfg, trace, k) then Some(value) else None
            case None => None
  {
    EntriesAreLatestSets(cfg, trace, k);
  }

  ghost function KeysSet<V>(trace: seq<Event<V>>): set<string> {
    set e | e in trace && e.op.Set? :: e.op.key
  }

  /** With room for every key ever set, nothing is evicted ... */
  lemma {:induction false} NothingEvictedWithRoom<V>(cfg: Config, trace: seq<Event<V>>, k: string)
    requires |KeysSet(trace)| <= cfg.maxEntries
    ensures !EvictedSince(cfg, trace, k)
    ensures Run(cfg, trace).entries.Keys <= KeysSet(trace)
  {
    if trace != [] {
      var s, e := Run(cfg, Prefix(trace)), Last(trace);
      assert trace == Prefix(trace) + [e];
      assert KeysSet(Prefix(trace)) <= KeysSet(trace);
      SubsetSize(KeysSet(Prefix(trace)), KeysSet(trace));
      NothingEvictedWithRoom(cfg, Prefix(trace), k);
      if e.op.Set? {
        assert e in trace;
        if e.op.key !in s.entries {
          SubsetSize(s.entries.Keys + {e.op.key}, KeysSet(trace));
          assert |s.entries.Keys| == |s.entries|;
        }
      } else {
        OnlySetGrows(cfg, s, e);
      }
    }
  }

  /** ... so the cache behaves as an unbounded map with a time to live. */
  lemma RoomyCacheIsATimedMap<V>(cfg: Config, trace: seq<Event<V>>, now: int, k: string)
    requires Monotone(trace) && (trace != [] ==> Last(trace).now <= now)
    requires |KeysSet(trace)| <= cfg.maxEntries
    ensures Lookup(cfg, Run(cfg, trace), now, k) ==
            match LatestSet(trace, k)
            case Some((value, at)) => if now - at <= cfg.ttl then Some(value) else None
            case None => None
  {
    NothingEvictedWithRoom(cfg, trace, k);
    GetAgreesWithHistory(cfg, trace, now, k);
  }

  // ---------- from the bounds the cache was made with ----------

  /** The keys other than k that calls from position i on looked up or set. */
  ghost function OthersNamed<V>(trace: seq<Event<V>>, i: nat, k: string): set<string>
    requires i <= |trace|
  {
    set e | e in trace[i..] && (e.op.Get? || e.op.Set?) && e.op.key != k :: e.op.key
  }

  lemma {:induction false} UsedLater<V>(cfg: Config, trace: seq<Event<V>>, i: nat, k: string, x: string)
    requires i <= |trace| && LastUse(cfg, trace, x) > i && x != k
    ensures x in OthersNamed(trace, i, k)
  {
    hide Hits; hide Run;
    if Uses(cfg, Run(cfg, Prefix(trace)), Last(trace), x) {
      assert Last(trace) in trace[i..];
    } else {
      LastUseBound(cfg, Prefix(trace), x);
      UsedLater(cfg, Prefix(trace), i, k, x);
      OthersGrow(trace, i, k);
    }
  }

  lemma OthersGrow<V>(trace: seq<Event<V>>, i: nat, k: string)
    requires trace != [] && i < |trace|
    ensures var before, e := OthersNamed(Prefix(trace), i, k), Last(trace);
            OthersNamed(trace, i, k) ==
            before + (if (e.op.Get? || e.op.Set?) && e.op.key != k then {e.op.key} else {})
  {
    assert trace[i..] == Prefix(trace)[i..] + [Last(trace)];
  }

  /** Call i set k to v, and none after it set it again, deleted it or cleared the cache. */
  ghost predicate SetLast<V>(trace: seq<Event<V>>, i: nat, k: string, v: V) {
    && i < |trace| && trace[i].op == Op.Set(k, v)
    && forall j | i < j < |trace| :: !trace[j].op.Clear? && !((trace[j].op.Set? || trace[j].op.Delete?) && trace[j].op.key == k)
  }

  /** A key is not evicted while fewer other keys than the cache has room for are looked up or set. */
  lemma {:induction false} NotEvictedYet<V>(cfg: Config, trace: seq<Event<V>>, i: nat, k: string, v: V)
    requires SetLast(trace, i, k, v) && |OthersNamed(trace, i + 1, k)| < cfg.maxEntries
    ensures !EvictedSince(cfg, trace, k) && LatestSet(trace, k) == Some((v, trace[i].now))
    ensures i < LastUse(cfg, trace, k)
  {
    hide Run;
    if i < |trace| - 1 {
      OthersGrow(trace, i + 1, k);
      SubsetSize(OthersNamed(Prefix(trace), i + 1, k), OthersNamed(trace, i + 1, k));
      NotEvictedYet(cfg, Prefix(trace), i, k, v);
      if Evicted(cfg, Run(cfg, Prefix(trace)), Last(trace)) == Some(k) {
        EvictionNeedsOthers(cfg, trace, i, k);
      }
    }
  }

  /** Whoever is evicted last had as many other keys named after its latest use as the cache has room for. */
  lemma EvictionNeedsOthers<V>(cfg: Config, trace: seq<Event<V>>, i: nat, k: string)
    requires i + 1 < |trace| && i < LastUse(cfg, Prefix(trace), k)
    requires Evicted(cfg, Run(cfg, Prefix(trace)), Last(trace)) == Some(k)
    ensures |OthersNamed(trace, i + 1, k)| >= cfg.maxEntries
  {
    var s, e := Run(cfg, Prefix(trace)), Last(trace);
    EvictionTakesLeastRecentlyUsed(cfg, Prefix(trace), e);
    OthersGrow(trace, i + 1, k);
    hide Run; hide LastUse; hide OthersNamed;
    var others := s.entries.Keys - {k};
    forall x | x in others ensures x in OthersNamed(Prefix(trace), i + 1, k) {
      UsedLater(cfg, Prefix(trace), i + 1, k, x);
    }
    SubsetSize(others + {e.op.key}, OthersNamed(trace, i + 1, k));
    assert |s.entries.Keys| == |s.entries| && |others| == |s.entries| - 1;
    assert |others + {e.op.key}| == |others| + 1;
  }

  /** What the two bounds given to a new cache are for: a key that was set at most ttl ago answers with its
      value as long as fewer than maxEntries other keys were looked up or set since. */
  lemma FreshKeyAnswers<V>(maxEntries: int, ttl: int, trace: seq<Event<V>>, i: nat, k: string, v: V, now: int)
    requires maxEntries > 0 && ttl > 0
    requires Monotone(trace) && SetLast(trace, i, k, v) && Last(trace).now <= now
    requires |OthersNamed(trace, i + 1, k)| < maxEntries && now - trace[i].now <= ttl
    ensures var cfg := Normalize(maxEntries, ttl); Lookup(cfg, Run(cfg, trace), now, k) == Some(v)
  {
    var cfg := Normalize(maxEntries, ttl);
    NotEvictedYet(cfg, trace, i, k, v);
    GetAgreesWithHistory(cfg, trace, now, k);
  }

  /** Keys that were looked up count as well as keys that were set: with room for two, a single other key
      set since is enough to push a key out when an older one was looked up in between. */
  lemma LookupsCountToo(value: int)
    ensures var cfg := Normalize(2, 10);
            var trace := [Event(0, Op.Set("a", value)), Event(0, Set("k", value)), Event(0, Get("a")), Event(0, Set("c", value))];
            Lookup(cfg, Run(cfg, trace), 0, "k") == None
  {
    var cfg, e := Normalize(2, 10), Entry(value, 0, 0);
    var a, k, hit, c := Event(0, Op.Set("a", value)), Event(0, Op.Set("k", value)), Event(0, Op<int>.Get("a")), Event(0, Op.Set("c", value));
    RunSnoc(cfg, [], a);
    RunSnoc(cfg, [a], k);
    RunSnoc(cfg, [a, k], hit);
    RunSnoc(cfg, [a, k, hit], c);
    assert [] + [a] == [a] && [a] + [k] == [a, k] && [a, k] + [hit] == [a, k, hit] && [a, k, hit] + [c] == [a, k, hit, c];
    assert Run(cfg, []) == Empty<int>();
    hide Run;
    var full := Lru(["k", "a"], map["a" := e, "k" := e], 0, 0, 0);
    var turned := Lru(["a", "k"], map["a" := e, "k" := e], 1, 0, 0);
    assert Step(cfg, Step(cfg, Empty(), a), k) == full;
    assert Step(cfg, full, hit) == turned by { assert Without(["k", "a"], "a") == ["k"]; }
    assert |turned.entries| == 2 && Back(turned.order) == "k";
    assert "k" !in Step(cfg, turned, c).entries;
  }

  lemma RunSnoc<V>(cfg: Config, trace: seq<Event<V>>, e: Event<V>)
    ensures Run(cfg, trace + [e]) == Step(cfg, Run(cfg, trace), e)
  {
    assert Prefix(trace + [e]) == trace;
    hide Step;
  }
}
