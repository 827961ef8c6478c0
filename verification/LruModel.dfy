/** What one LRU cache call means, on values: a recency-ordered list of keys (most recent first)
    beside a table of entries. The heap classes in LruCache refine these functions. */
module LruModel {
  import opened Common

  /** Durations are in nanoseconds. */
  const DEFAULT_MAX_ENTRIES := 1000
  const DEFAULT_TTL := 300_000_000_000

  datatype Config = Config(maxEntries: int, ttl: int)

  datatype Entry<V> = Entry(value: V, insertedAt: int, accessedAt: int)

  datatype Lru<V> = Lru(order: seq<string>, entries: map<string, Entry<V>>, hits: nat, misses: nat, evicts: nat)

  datatype Op<V> = Get(key: string) | Set(key: string, value: V) | Delete(key: string) | Clear | Cleanup

  /** One call together with the clock reading it was made at. */
  datatype Event<V> = Event(now: int, op: Op<V>)

  // ---------- sequences of keys ----------

  /** Drops the first occurrence of k. */
  function Without(s: seq<string>, k: string): seq<string> {
    if s == [] then [] else if s[0] == k then s[1..] else [s[0]] + Without(s[1..], k)
  }

  /** Keeps the elements that lie in ks, in their order. */
  function Restrict(s: seq<string>, ks: set<string>): seq<string> {
    if s == [] then [] else (if s[0] in ks then [s[0]] else []) + Restrict(s[1..], ks)
  }

  // ---------- the operations ----------

  function Normalize(maxEntries: int, ttl: int): Config {
    Config(if maxEntries <= 0 then DEFAULT_MAX_ENTRIES else maxEntries, if ttl <= 0 then DEFAULT_TTL else ttl)
  }

  const EMPTY_KEY := ""

  function Empty<V>(): Lru<V> { Lru([], map[], 0, 0, 0) }

  predicate Expired<V>(cfg: Config, e: Entry<V>, now: int) { now - e.insertedAt > cfg.ttl }

  predicate Hits<V>(cfg: Config, s: Lru<V>, now: int, key: string) {
    key in s.entries && !Expired(cfg, s.entries[key], now)
  }

  /** What a Get returns to its caller. */
  function Lookup<V>(cfg: Config, s: Lru<V>, now: int, key: string): Option<V> {
    if Hits(cfg, s, now, key) then Some(s.entries[key].value) else None
  }

  function GetStep<V>(cfg: Config, s: Lru<V>, now: int, key: string): Lru<V> {
    if Hits(cfg, s, now, key) then
      s.(order := [key] + Without(s.order, key),
         entries := s.entries[key := s.entries[key].(accessedAt := now)],
         hits := s.hits + 1)
    else
      s.(misses := s.misses + 1)
  }

  /** The list's answer for "least recently used"; the empty string doubles as "the list is empty". */
  function Back(order: seq<string>): string {
    if order == [] then EMPTY_KEY else order[|order| - 1]
  }

  function EvictOldest<V>(s: Lru<V>): Lru<V> {
    var key := Back(s.order);
    if key == EMPTY_KEY then s
    else s.(order := Without(s.order, key), entries := s.entries - {key}, evicts := s.evicts + 1)
  }

  predicate MustEvict<V>(cfg: Config, s: Lru<V>, key: string) {
    key !in s.entries && |s.entries| >= cfg.maxEntries
  }

  /** The cache that a Set of a new key adds to. */
  function MadeRoom<V>(cfg: Config, s: Lru<V>, key: string): Lru<V> {
    if MustEvict(cfg, s, key) then EvictOldest(s) else s
  }

  function SetStep<V>(cfg: Config, s: Lru<V>, now: int, key: string, value: V): Lru<V> {
    if key in s.entries then
      s.(order := [key] + Without(s.order, key), entries := s.entries[key := Entry(value, now, now)])
    else
      var room := MadeRoom(cfg, s, key);
      room.(order := [key] + room.order, entries := room.entries[key := Entry(value, now, now)])
  }

  function DeleteStep<V>(s: Lru<V>, key: string): Lru<V> {
    if key in s.entries then s.(order := Without(s.order, key), entries := s.entries - {key}) else s
  }

  function ExpiredKeys<V>(cfg: Config, s: Lru<V>, now: int): set<string> {
    set k | k in s.entries && Expired(cfg, s.entries[k], now)
  }

  function CleanupStep<V>(cfg: Config, s: Lru<V>, now: int): Lru<V> {
    var gone := ExpiredKeys(cfg, s, now);
    s.(order := Restrict(s.order, s.entries.Keys - gone), entries := s.entries - gone)
  }

  function Step<V>(cfg: Config, s: Lru<V>, e: Event<V>): Lru<V> {
    match e.op
    case Get(key) => GetStep(cfg, s, e.now, key)
    case Set(key, value) => SetStep(cfg, s, e.now, key, value)
    case Delete(key) => DeleteStep(s, key)
    case Clear => s.(order := [], entries := map[])
    case Cleanup => CleanupStep(cfg, s, e.now)
  }

  /** The cache after a whole history of calls, newest call last. */
  function Run<V>(cfg: Config, trace: seq<Event<V>>): Lru<V> {
    if trace == [] then Empty() else Step(cfg, Run(cfg, trace[..|trace| - 1]), trace[|trace| - 1])
  }

  // ---------- the representation invariant ----------

  /** Keys are distinct, the listed keys are exactly the table's domain. */
  ghost predicate Inv<V>(s: Lru<V>) {
    Distinct(s.order) && (forall k :: k in s.order <==> k in s.entries)
  }

  // ---------- facts about key lists ----------

  lemma ConsDistinct<T>(x: T, s: seq<T>)
    ensures Distinct([x] + s) <==> x !in s && Distinct(s)
  {
    var t := [x] + s;
    if Distinct(t) {
      forall j | 0 <= j < |s| ensures s[j] != x {
        assert t[0] == x && t[j + 1] == s[j];
      }
      forall i, j | 0 <= i < j < |s| ensures s[i] != s[j] {
        assert t[i + 1] == s[i] && t[j + 1] == s[j];
      }
    }
  }

  lemma {:induction false} WithoutFacts(s: seq<string>, k: string)
    requires Distinct(s)
    ensures Distinct(Without(s, k))
    ensures forall x :: x in Without(s, k) <==> x in s && x != k
    ensures k !in s ==> Without(s, k) == s
    ensures k in s ==> |Without(s, k)| == |s| - 1
  {
    if s != [] {
      WithoutFacts(s[1..], k);
      assert s == [s[0]] + s[1..];
      assert s[0] !in s[1..];
      ConsDistinct(s[0], Without(s[1..], k));
    }
  }

  lemma {:induction false} RestrictFacts(s: seq<string>, ks: set<string>)
    requires Distinct(s)
    ensures Distinct(Restrict(s, ks))
    ensures forall x :: x in Restrict(s, ks) <==> x in s && x in ks
    ensures (forall x | x in s :: x in ks) ==> Restrict(s, ks) == s
  {
    if s != [] {
      RestrictFacts(s[1..], ks);
      assert s == [s[0]] + s[1..];
    }
  }

  lemma {:induction false} RestrictSame(s: seq<string>, ks: set<string>, js: set<string>)
    requires forall x | x in s :: x in ks <==> x in js
    ensures Restrict(s, ks) == Restrict(s, js)
  {
    if s != [] {
      RestrictSame(s[1..], ks, js);
    }
  }

  lemma {:induction false} RestrictTwice(s: seq<string>, ks: set<string>, js: set<string>)
    ensures Restrict(Restrict(s, ks), js) == Restrict(s, ks * js)
  {
    if s != [] {
      RestrictTwice(s[1..], ks, js);
      var rest := Restrict(s[1..], ks);
      if s[0] in ks {
        assert ([s[0]] + rest)[1..] == rest;
      } else {
        assert [] + rest == rest;
      }
    }
  }

  /** Deleting one key is restricting to the others. */
  lemma {:induction false} WithoutIsRestrict(s: seq<string>, k: string, ks: set<string>)
    requires Distinct(s)
    requires forall x | x in s && x != k :: x in ks
    requires k !in ks
    ensures Without(s, k) == Restrict(s, ks)
  {
    if s != [] {
      if s[0] == k {
        RestrictFacts(s[1..], ks);
        assert k !in s[1..];
        assert [] + Restrict(s[1..], ks) == s[1..];
      } else {
        WithoutIsRestrict(s[1..], k, ks);
      }
    }
  }

  /** The length of a duplicate-free list is the size of the set of its elements. */
  lemma {:induction false} DistinctSize<T>(s: seq<T>, elems: set<T>)
    requires Distinct(s)
    requires forall x :: x in s <==> x in elems
    ensures |s| == |elems|
  {
    if s == [] {
      assert elems == {};
    } else {
      var rest := s[1..];
      assert s == [s[0]] + rest;
      DistinctSize(rest, elems - {s[0]});
    }
  }

  lemma {:induction false} InvSize<V>(s: Lru<V>)
    requires Inv(s)
    ensures |s.order| == |s.entries|
  {
    DistinctSize(s.order, s.entries.Keys);
    assert |s.entries.Keys| == |s.entries|;
  }

  // ---------- every operation keeps the invariant ----------

  lemma {:induction false} EvictOldestKeepsInv<V>(s: Lru<V>)
    requires Inv(s)
    ensures Inv(EvictOldest(s))
    ensures EvictOldest(s).entries.Keys <= s.entries.Keys
  {
    WithoutFacts(s.order, Back(s.order));
  }

  /** A Set makes room if it must and then puts its key in front. */
  lemma SetOnRoom<V>(cfg: Config, s: Lru<V>, now: int, key: string, value: V)
    requires Inv(s)
    ensures var room, t := MadeRoom(cfg, s, key), SetStep(cfg, s, now, key, value);
            t.order == [key] + Without(room.order, key) && t.entries == room.entries[key := Entry(value, now, now)]
  {
    EvictOldestKeepsInv(s);
    WithoutFacts(MadeRoom(cfg, s, key).order, key);
  }

  lemma {:induction false} StepKeepsInv<V>(cfg: Config, s: Lru<V>, e: Event<V>)
    requires Inv(s)
    ensures Inv(Step(cfg, s, e))
  {
    hide Without; hide Restrict;
    match e.op
    case Get(key) => WithoutFacts(s.order, key);
    case Set(key, value) =>
      WithoutFacts(s.order, key);
      EvictOldestKeepsInv(s);
      ConsDistinct(key, MadeRoom(cfg, s, key).order);
    case Delete(key) => WithoutFacts(s.order, key);
    case Clear =>
    case Cleanup => RestrictFacts(s.order, s.entries.Keys - ExpiredKeys(cfg, s, e.now));
  }

  lemma {:induction false} RunKeepsInv<V>(cfg: Config, trace: seq<Event<V>>)
    ensures Inv(Run(cfg, trace))
  {
    if trace != [] {
      RunKeepsInv(cfg, trace[..|trace| - 1]);
      StepKeepsInv(cfg, Run(cfg, trace[..|trace| - 1]), trace[|trace| - 1]);
    }
  }
}
