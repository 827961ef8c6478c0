/** The service registry behind the cache: which answers it serves, and how old they can be. */
module CachedRegistry {
  import opened Common
  import opened LruModel
  import opened LruHistory
  import opened LruCache

  datatype Service = Service(id: string, name: string, ty: string, endpoint: string)

  /** A repository answer, and what the cache stores: one service or a list of them. */
  datatype Answer = One(service: Service) | Many(services: seq<Service>)

  datatype Query = ByName(name: string) | ByType(ty: string) | ListAll

  const NAME_PREFIX := "name:"
  const TYPE_PREFIX := "discover:"
  const LIST_KEY := "list:all"

  function Key(q: Query): string {
    match q
    case ByName(name) => NAME_PREFIX + name
    case ByType(ty) => TYPE_PREFIX + ty
    case ListAll => LIST_KEY
  }

  /** The type assertion on a cached value. */
  predicate Fits(q: Query, a: Answer) { a.One? <==> q.ByName? }

  /** A call together with what the repository answered, None for an error; or a tick of the cache's own
      background cleanup. */
  datatype Call =
    | Ask(q: Query, answer: Option<Answer>)
    | Register(name: string, ok: bool)
    | Unregister(ok: bool)
    | Tick

  predicate Proper(c: Call) { c.Ask? && c.answer.Some? ==> Fits(c.q, c.answer.value) }

  /** Whether a call makes cached answers to q stale in the eyes of the wrapper: a registration drops the
      named service and the full list but no list by type; an unregistration drops everything. */
  predicate Invalidates(c: Call, q: Query) {
    match c
    case Ask(_, _) => false
    case Register(name, ok) => ok && (q == ByName(name) || q == ListAll)
    case Unregister(ok) => ok
    case Tick => false
  }

  predicate Served(cfg: Config, s: Lru<Answer>, q: Query, now: int) {
    var cached := Lookup(cfg, s, now, Key(q));
    cached.Some? && Fits(q, cached.value)
  }

  /** What the caller gets. */
  function Reply(cfg: Config, s: Lru<Answer>, q: Query, answer: Option<Answer>, now: int): Option<Answer> {
    if Served(cfg, s, q, now) then Lookup(cfg, s, now, Key(q)) else answer
  }

  /** The cache operations one call performs. */
  function Events(cfg: Config, s: Lru<Answer>, c: Call, now: int): seq<Event<Answer>> {
    match c
    case Ask(q, answer) =>
      if Served(cfg, s, q, now) || answer.None? then [Event(now, Get(Key(q)))]
      else [Event(now, Get(Key(q))), Event(now, Set(Key(q), answer.value))]
    case Register(name, ok) =>
      if ok then [Event(now, Delete(Key(ByName(name)))), Event(now, Delete(LIST_KEY))] else []
    case Unregister(ok) => if ok then [Event(now, Clear)] else []
    case Tick => [Event(now, Cleanup)]
  }

  /** All cache operations of a history of calls. */
  function Trace(cfg: Config, calls: seq<(Call, int)>): seq<Event<Answer>> {
    if calls == [] then []
    else
      var before := Trace(cfg, calls[..|calls| - 1]);
      before + Events(cfg, Run(cfg, before), calls[|calls| - 1].0, calls[|calls| - 1].1)
  }

  // ---------- keys ----------

  /** Different queries never share a cache key, so no query can read or drop another's answer. */
  lemma KeysDiffer(q: Query, r: Query)
    ensures Key(q) == Key(r) <==> q == r
  {
    assert NAME_PREFIX[0] == 'n' && TYPE_PREFIX[0] == 'd' && LIST_KEY[0] == 'l';
    assert Key(q)[0] == (match q case ByName(_) => 'n' case ByType(_) => 'd' case ListAll => 'l');
    assert Key(r)[0] == (match r case ByName(_) => 'n' case ByType(_) => 'd' case ListAll => 'l');
    if q.ByName? && r.ByName? {
      assert Key(q)[|NAME_PREFIX|..] == q.name && Key(r)[|NAME_PREFIX|..] == r.name;
    }
    if q.ByType? && r.ByType? {
      assert Key(q)[|TYPE_PREFIX|..] == q.ty && Key(r)[|TYPE_PREFIX|..] == r.ty;
    }
  }

  // ---------- the latest fetch ----------

  /** The latest answer to q that had to be fetched from the repository, with its time, unless a later call
      invalidated it. */
  function LatestFetch(cfg: Config, calls: seq<(Call, int)>, q: Query): Option<(Answer, int)> {
    if calls == [] then None
    else
      var init := calls[..|calls| - 1];
      var (c, now) := calls[|calls| - 1];
      if c.Ask? && c.q == q && c.answer.Some? && !Served(cfg, Run(cfg, Trace(cfg, init)), q, now)
      then Some((c.answer.value, now))
      else if Invalidates(c, q) then None
      else LatestFetch(cfg, init, q)
  }

  /** Call j was answered with v at time at, and nothing since has invalidated it. */
  ghost predicate Fetch(calls: seq<(Call, int)>, q: Query, v: Answer, at: int, j: nat) {
    && j < |calls| && calls[j] == (Ask(q, Some(v)), at)
    && forall m :: j < m < |calls| ==> !Invalidates(calls[m].0, q)
  }

  lemma {:induction false} LatestFetchIsACall(cfg: Config, calls: seq<(Call, int)>, q: Query) returns (j: nat)
    requires LatestFetch(cfg, calls, q).Some?
    ensures var (v, at) := LatestFetch(cfg, calls, q).value; Fetch(calls, q, v, at, j)
  {
    hide Served; hide Run; hide Trace; hide Invalidates;
    var init := calls[..|calls| - 1];
    var (c, now) := calls[|calls| - 1];
    if c.Ask? && c.q == q && c.answer.Some? && !Served(cfg, Run(cfg, Trace(cfg, init)), q, now) {
      j := |calls| - 1;
    } else {
      j := LatestFetchIsACall(cfg, init, q);
      assert forall m | 0 <= m < |init| :: init[m] == calls[m];
    }
  }

  lemma LatestSetSnoc(trace: seq<Event<Answer>>, e: Event<Answer>, k: string)
    ensures LatestSet(trace + [e], k) ==
            match e.op
            case Set(key, v) => if key == k then Some((v, e.now)) else LatestSet(trace, k)
            case Delete(key) => if key == k then None else LatestSet(trace, k)
            case Clear => None
            case Get(_) => LatestSet(trace, k)
            case Cleanup => LatestSet(trace, k)
  {
    assert Prefix(trace + [e]) == trace;
  }

  /** What one call does to the latest Set of q's key. */
  lemma CallSets(cfg: Config, trace: seq<Event<Answer>>, c: Call, now: int, q: Query)
    ensures LatestSet(trace + Events(cfg, Run(cfg, trace), c, now), Key(q)) ==
            if Invalidates(c, q) then None
            else if c.Ask? && c.q == q && c.answer.Some? && !Served(cfg, Run(cfg, trace), q, now)
            then Some((c.answer.value, now)) else LatestSet(trace, Key(q))
  {
    hide LatestSet; hide Key;
    var events := Events(cfg, Run(cfg, trace), c, now);
    assert trace + [] == trace;
    if |events| >= 1 {
      LatestSetSnoc(trace, events[0], Key(q));
      if |events| == 2 {
        LatestSetSnoc(trace + [events[0]], events[1], Key(q));
        assert trace + events == (trace + [events[0]]) + [events[1]];
      } else {
        assert events == [events[0]];
      }
    }
    match c
    case Ask(r, _) => KeysDiffer(q, r);
    case Register(name, _) =>
      KeysDiffer(q, ByName(name));
      KeysDiffer(q, ListAll);
      assert Key(ListAll) == LIST_KEY by { ListKey(); }
    case Unregister(_) =>
    case Tick =>
  }

  lemma ListKey()
    ensures Key(ListAll) == LIST_KEY
  {}

  /** What the cache was last set to for q is exactly the latest fetch of q, not invalidated since. */
  lemma {:induction false} CacheHoldsFetches(cfg: Config, calls: seq<(Call, int)>, q: Query)
    requires forall p | p in calls :: Proper(p.0)
    ensures LatestSet(Trace(cfg, calls), Key(q)) == LatestFetch(cfg, calls, q)
    ensures LatestFetch(cfg, calls, q).Some? ==> Fits(q, LatestFetch(cfg, calls, q).value.0)
  {
    hide LatestSet; hide Events; hide Key; hide Served; hide Run; hide Invalidates;
    if calls == [] {
      NoSets(Key(q));
    } else {
      var init := calls[..|calls| - 1];
      var (c, now) := calls[|calls| - 1];
      CacheHoldsFetches(cfg, init, q);
      CallSets(cfg, Trace(cfg, init), c, now, q);
      AskInvalidatesNothing(c, q);
      assert Proper(calls[|calls| - 1].0);
    }
  }

  lemma AskInvalidatesNothing(c: Call, q: Query)
    ensures c.Ask? ==> !Invalidates(c, q)
  {}

  lemma NoSets(k: string)
    ensures LatestSet<Answer>([], k).None?
  {}

  // ---------- bounded staleness ----------

  ghost predicate MonotoneCalls(calls: seq<(Call, int)>) {
    forall i, j :: 0 <= i < j < |calls| ==> calls[i].1 <= calls[j].1
  }

  lemma EventsAtNow(cfg: Config, s: Lru<Answer>, c: Call, now: int)
    ensures forall e | e in Events(cfg, s, c, now) :: e.now == now
  {
    hide Served; hide Key;
  }

  lemma {:induction false} TraceIsMonotone(cfg: Config, calls: seq<(Call, int)>)
    requires MonotoneCalls(calls)
    ensures Monotone(Trace(cfg, calls))
    ensures forall e | e in Trace(cfg, calls) :: calls != [] && e.now <= calls[|calls| - 1].1
  {
    hide Run; hide Events;
    if calls != [] {
      var init := calls[..|calls| - 1];
      var (c, now) := calls[|calls| - 1];
      TraceIsMonotone(cfg, init);
      var before := Trace(cfg, init);
      var events := Events(cfg, Run(cfg, before), c, now);
      EventsAtNow(cfg, Run(cfg, before), c, now);
      var all := before + events;
      forall i, j | 0 <= i < j < |all| ensures all[i].now <= all[j].now {
        if j >= |before| {
          assert all[j] in events;
          assert i < |before| ==> all[i] in before;
          assert i >= |before| ==> all[i] in events;
        }
      }
    }
  }

  /** q was fetched at most ttl ago, not invalidated since, and its key was not evicted since. */
  predicate StillCached(cfg: Config, calls: seq<(Call, int)>, q: Query, now: int) {
    match LatestFetch(cfg, calls, q)
    case Some((_, at)) => now - at <= cfg.ttl && !EvictedSince(cfg, Trace(cfg, calls), Key(q))
    case None => false
  }

  /** The law of the wrapper, after every history: the latest fetch of a query is the reply, whatever the
      repository would say now, exactly while it is still cached. */
  lemma ServedExactly(cfg: Config, calls: seq<(Call, int)>, q: Query, now: int)
    requires MonotoneCalls(calls) && (calls != [] ==> calls[|calls| - 1].1 <= now)
    requires forall p | p in calls :: Proper(p.0)
    ensures var s := Run(cfg, Trace(cfg, calls));
            && (Served(cfg, s, q, now) <==> StillCached(cfg, calls, q, now))
            && forall answer :: Reply(cfg, s, q, answer, now) ==
                 if StillCached(cfg, calls, q, now) then Some(LatestFetch(cfg, calls, q).value.0) else answer
  {
    var trace := Trace(cfg, calls);
    TraceIsMonotone(cfg, calls);
    CacheHoldsFetches(cfg, calls, q);
    if trace != [] {
      assert Last(trace) in trace;
    }
    GetAgreesWithHistory(cfg, trace, now, Key(q));
    hide LatestSet; hide LatestFetch; hide Trace; hide Key; hide Run; hide EvictedSince; hide Lookup;
  }

  /** A reply is the repository's answer of this moment, or one it gave to the same query at most ttl ago,
      with no invalidating call in between. */
  ghost predicate Recent(cfg: Config, calls: seq<(Call, int)>, q: Query, answer: Option<Answer>, now: int,
                         reply: Option<Answer>) {
    reply == answer ||
    (reply.Some? && Fits(q, reply.value) &&
     exists j, at :: Fetch(calls, q, reply.value, at, j) && now - at <= cfg.ttl)
  }

  /** Bounded staleness, after every history. */
  lemma RepliesAreRecent(cfg: Config, calls: seq<(Call, int)>, q: Query, answer: Option<Answer>, now: int)
    requires MonotoneCalls(calls) && (calls != [] ==> calls[|calls| - 1].1 <= now)
    requires forall p | p in calls :: Proper(p.0)
    ensures Recent(cfg, calls, q, answer, now, Reply(cfg, Run(cfg, Trace(cfg, calls)), q, answer, now))
  {
    ServedExactly(cfg, calls, q, now);
    CacheHoldsFetches(cfg, calls, q);
    hide Reply; hide Trace; hide Run; hide LatestFetch; hide Fetch;
    if StillCached(cfg, calls, q, now) {
      var j := LatestFetchIsACall(cfg, calls, q);
    }
  }

  /** After every history, a successful unregistration takes every cached answer out of service. */
  lemma UnregistrationDropsAll(cfg: Config, calls: seq<(Call, int)>, at: int, q: Query, now: int)
    ensures !Served(cfg, Run(cfg, Trace(cfg, calls + [(Unregister(true), at)])), q, now)
  {
    hide Run; hide After; hide Trace; hide Key;
    OneMoreCall(cfg, calls, Unregister(true), at);
    UnregisterClears(cfg, Run(cfg, Trace(cfg, calls)), true, at);
  }

  /** After every history, a successful registration takes exactly two cached answers out of service, the
      service of its name and the full list. Lists by type go on being served as they were. */
  lemma RegistrationDropsExactly(cfg: Config, calls: seq<(Call, int)>, name: string, at: int, q: Query, now: int)
    ensures var s := Run(cfg, Trace(cfg, calls));
            var s' := Run(cfg, Trace(cfg, calls + [(Register(name, true), at)]));
            && (Served(cfg, s', q, now) <==> Served(cfg, s, q, now) && q != ByName(name) && q != ListAll)
            && (Served(cfg, s', q, now) ==> Lookup(cfg, s', now, Key(q)) == Lookup(cfg, s, now, Key(q)))
  {
    AfterRegistration(cfg, calls, name, at);
    KeysDiffer(q, ByName(name));
    KeysDiffer(q, ListAll);
    assert Key(ListAll) == LIST_KEY by { ListKey(); }
    hide Key; hide Trace; hide Run; hide Served; hide Lookup; hide DeleteStep;
    var s := Run(cfg, Trace(cfg, calls));
    DeleteServes(cfg, s, Key(ByName(name)), q, now);
    DeleteServes(cfg, DeleteStep(s, Key(ByName(name))), LIST_KEY, q, now);
  }

  /** Deleting a key takes the query filed there out of service and no other. */
  lemma DeleteServes(cfg: Config, s: Lru<Answer>, key: string, q: Query, now: int)
    ensures var s' := DeleteStep(s, key);
            && (Served(cfg, s', q, now) <==> Served(cfg, s, q, now) && Key(q) != key)
            && (Key(q) != key ==> Lookup(cfg, s', now, Key(q)) == Lookup(cfg, s, now, Key(q)))
  {
    hide Key; hide Without;
  }

  lemma AfterRegistration(cfg: Config, calls: seq<(Call, int)>, name: string, at: int)
    ensures Run(cfg, Trace(cfg, calls + [(Register(name, true), at)])) ==
            DeleteStep(DeleteStep(Run(cfg, Trace(cfg, calls)), Key(ByName(name))), LIST_KEY)
  {
    hide Key; hide DeleteStep; hide Run; hide After; hide Trace;
    OneMoreCall(cfg, calls, Register(name, true), at);
    AfterTwo(cfg, Run(cfg, Trace(cfg, calls)), Event(at, Op<Answer>.Delete(Key(ByName(name)))),
             Event(at, Op<Answer>.Delete(LIST_KEY)));
  }

  /** The cache after one call more is what that call's operations make of the cache before. */
  lemma OneMoreCall(cfg: Config, calls: seq<(Call, int)>, c: Call, now: int)
    ensures Run(cfg, Trace(cfg, calls + [(c, now)])) ==
            After(cfg, Run(cfg, Trace(cfg, calls)), Events(cfg, Run(cfg, Trace(cfg, calls)), c, now))
  {
    hide Events; hide Run; hide After;
    var trace, more := Trace(cfg, calls), calls + [(c, now)];
    assert more[..|more| - 1] == calls;
    RunAppend(cfg, trace, Events(cfg, Run(cfg, trace), c, now));
  }

  // ---------- the wrapper ----------

  /** The repository's answers, one function of the call number for each kind of call. */
  datatype Repository = Repository(ask: (nat, Query) -> Option<Answer>, writes: nat -> bool)

  /** A cache after several operations. */
  function After(cfg: Config, s: Lru<Answer>, events: seq<Event<Answer>>): Lru<Answer>
    decreases |events|
  {
    if events == [] then s else After(cfg, Step(cfg, s, events[0]), events[1..])
  }

  lemma AfterNone(cfg: Config, s: Lru<Answer>)
    ensures After(cfg, s, []) == s
  {}

  lemma AfterOne(cfg: Config, s: Lru<Answer>, e: Event<Answer>)
    ensures After(cfg, s, [e]) == Step(cfg, s, e)
  {
    assert [e][1..] == [];
  }

  lemma AfterTwo(cfg: Config, s: Lru<Answer>, e: Event<Answer>, f: Event<Answer>)
    ensures After(cfg, s, [e, f]) == Step(cfg, Step(cfg, s, e), f)
  {
    assert [e, f][1..] == [f];
    AfterOne(cfg, Step(cfg, s, e), f);
  }

  /** Performing operations one by one is what extends the trace. */
  lemma {:induction false} RunAppend(cfg: Config, trace: seq<Event<Answer>>, events: seq<Event<Answer>>)
    ensures Run(cfg, trace + events) == After(cfg, Run(cfg, trace), events)
    decreases |events|
  {
    hide Step;
    if events == [] {
      assert trace + events == trace;
    } else {
      assert Prefix(trace + [events[0]]) == trace;
      assert trace + events == (trace + [events[0]]) + events[1..];
      RunAppend(cfg, trace + [events[0]], events[1..]);
    }
  }

  /** Every kind of query is answered with its own kind of answer, as the repository's types say. */
  ghost predicate Typed(repo: Repository) {
    forall n, q :: repo.ask(n, q).Some? ==> Fits(q, repo.ask(n, q).value)
  }

  class CachedRegistryRepository {
    const repo: Repository
    const cache: LRUCache<Answer>
    var asked: nat
    /** Every call so far. */
    ghost var history: seq<(Call, int)>

    ghost predicate Valid()
      reads this, cache, cache.list, cache.list.nodes
    {
      cache.Valid() && Typed(repo) && forall p | p in history :: Proper(p.0)
    }

    /** The cache is what the calls of this wrapper made of an empty one. */
    ghost predicate Tracked()
      reads this, cache, cache.list, cache.list.nodes
      requires Valid()
    {
      cache.State() == Run(cache.cfg, Trace(cache.cfg, history))
    }

    constructor (repo: Repository, cache: LRUCache<Answer>)
      requires cache.Valid() && Typed(repo)
      ensures this.repo == repo && this.cache == cache && asked == 0 && history == []
      ensures Valid() && (cache.State() == Empty() ==> Tracked())
    {
      this.repo, this.cache, asked, history := repo, cache, 0, [];
    }

    /** Discover, DiscoverByName and ListAll. While the latest fetch of the query is still cached it is the
        reply and the repository is not asked; otherwise the reply is the repository's. */
    method Find(q: Query, now: int) returns (reply: Option<Answer>)
      requires Valid()
      modifies this, cache, cache.list.Repr()
      ensures Valid() && (old(Tracked()) ==> Tracked())
      ensures history == old(history) + [(Ask(q, repo.ask(old(asked), q)), now)]
      ensures old(Tracked()) && MonotoneCalls(history) ==>
                if StillCached(cache.cfg, old(history), q, now)
                then reply == Some(LatestFetch(cache.cfg, old(history), q).value.0) && asked == old(asked)
                else reply == repo.ask(old(asked), q) && asked == old(asked) + 1
      ensures var cached := Lookup(cache.cfg, old(cache.State()), now, Key(q));
              if cached.Some? && (cached.value.One? <==> q.ByName?) then reply == cached && asked == old(asked)
              else reply == repo.ask(old(asked), q) && asked == old(asked) + 1
      ensures old(Tracked()) && MonotoneCalls(history) ==>
                Recent(cache.cfg, old(history), q, repo.ask(old(asked), q), now, reply)
      ensures var s, answer := old(cache.State()), repo.ask(old(asked), q);
              && reply == Reply(cache.cfg, s, q, answer, now)
              && cache.State() == After(cache.cfg, s, Events(cache.cfg, s, Ask(q, answer), now))
    {
      ghost var answer := repo.ask(asked, q);
      FindFacts(cache.cfg, cache.State(), history, q, answer, now);
      hide Recent; hide Reply; hide Events; hide Trace; hide Run; hide MonotoneCalls; hide StillCached; hide LatestFetch;
      hide Served; hide After; hide Inv;
      history := history + [(Ask(q, answer), now)];
      reply := Fetched(q, now);
    }

    /** The lookup, the fetch and the store. */
    method Fetched(q: Query, now: int) returns (reply: Option<Answer>)
      requires cache.Valid()
      modifies this`asked, cache, cache.list.Repr()
      ensures cache.Valid()
      ensures asked == old(asked) + (if Served(cache.cfg, old(cache.State()), q, now) then 0 else 1)
      ensures var cached := Lookup(cache.cfg, old(cache.State()), now, Key(q));
              if cached.Some? && (cached.value.One? <==> q.ByName?) then reply == cached && asked == old(asked)
              else reply == repo.ask(old(asked), q) && asked == old(asked) + 1
      ensures var s, answer := old(cache.State()), repo.ask(old(asked), q);
              && reply == Reply(cache.cfg, s, q, answer, now)
              && cache.State() == After(cache.cfg, s, Events(cache.cfg, s, Ask(q, answer), now))
    {
      hide After; hide Without; hide Key; hide GetStep; hide SetStep;
      ghost var s := cache.State();
      ghost var get := Event(now, Op<Answer>.Get(Key(q)));
      AfterOne(cache.cfg, s, get);
      var cached := cache.Get(now, Key(q));
      assert cache.State() == Step(cache.cfg, s, get);
      if cached.Some? {
        if Fits(q, cached.value) {
          return cached;
        }
      }
      var answer := repo.ask(asked, q);
      asked := asked + 1;
      if answer.None? {
        return None;
      }
      cache.Set(now, Key(q), answer.value);
      AfterTwo(cache.cfg, s, get, Event(now, Set(Key(q), answer.value)));
      return answer;
    }

    method RegisterService(service: Service, now: int) returns (ok: bool)
      requires Valid()
      modifies this, cache, cache.list.Repr()
      ensures Valid() && (old(Tracked()) ==> Tracked())
      ensures ok == repo.writes(old(asked)) && history == old(history) + [(Register(service.name, ok), now)]
      ensures var s := old(cache.State());
              cache.State() == After(cache.cfg, s, Events(cache.cfg, s, Register(service.name, ok), now))
    {
      hide After; hide Key; hide Trace; hide Run; hide Inv;
      ok := repo.writes(asked);
      asked := asked + 1;
      OneMoreCall(cache.cfg, history, Register(service.name, ok), now);
      history := history + [(Register(service.name, ok), now)];
      assert After(cache.cfg, cache.State(), []) == cache.State() by { AfterNone(cache.cfg, cache.State()); }
      if ok {
        InvalidateCache(service.name, now);
      }
    }

    method InvalidateCache(name: string, now: int)
      requires cache.Valid()
      modifies cache, cache.list.Repr()
      ensures cache.Valid()
      ensures var s := old(cache.State());
              cache.State() == After(cache.cfg, s, Events(cache.cfg, s, Register(name, true), now))
    {
      hide After; hide Without; hide Key; hide DeleteStep;
      AfterTwo(cache.cfg, cache.State(), Event(now, Delete(Key(ByName(name)))), Event(now, Delete(LIST_KEY)));
      cache.Delete(Key(ByName(name)));
      cache.Delete(LIST_KEY);
    }

    /** A tick of the background loop. */
    method Tick(now: int)
      requires Valid()
      modifies this`history, cache, cache.list.Repr()
      ensures Valid() && (old(Tracked()) ==> Tracked()) && history == old(history) + [(Call.Tick, now)]
      ensures cache.State() == After(cache.cfg, old(cache.State()), Events(cache.cfg, old(cache.State()), Call.Tick, now))
    {
      hide Trace; hide Run; hide After; hide Inv; hide CleanupStep; hide Events;
      OneMoreCall(cache.cfg, history, Call.Tick, now);
      TickCleans(cache.cfg, cache.State(), now);
      history := history + [(Call.Tick, now)];
      cache.CleanupExpired(now);
    }

    method UnregisterService(now: int) returns (ok: bool)
      requires Valid()
      modifies this, cache
      ensures Valid() && (old(Tracked()) ==> Tracked())
      ensures ok == repo.writes(old(asked)) && history == old(history) + [(Unregister(ok), now)]
      ensures var s := old(cache.State());
              cache.State() == After(cache.cfg, s, Events(cache.cfg, s, Unregister(ok), now))
    {
      hide Trace; hide Run; hide After; hide Inv; hide Events;
      ok := repo.writes(asked);
      asked := asked + 1;
      OneMoreCall(cache.cfg, history, Unregister(ok), now);
      UnregisterClears(cache.cfg, cache.State(), ok, now);
      history := history + [(Unregister(ok), now)];
      if ok {
        cache.Clear();
      }
    }
  }

  lemma TickCleans(cfg: Config, s: Lru<Answer>, now: int)
    ensures After(cfg, s, Events(cfg, s, Call.Tick, now)) == CleanupStep(cfg, s, now)
  {
    AfterOne(cfg, s, Event(now, Op<Answer>.Cleanup));
  }

  lemma UnregisterClears(cfg: Config, s: Lru<Answer>, ok: bool, now: int)
    ensures After(cfg, s, Events(cfg, s, Unregister(ok), now)) == if ok then s.(order := [], entries := map[]) else s
  {
    AfterNone(cfg, s);
    AfterOne(cfg, s, Event(now, Op<Answer>.Clear));
  }

  /** One query, on the state the calls before it led to: the next state is tracked and the reply recent. */
  lemma FindFacts(cfg: Config, s: Lru<Answer>, calls: seq<(Call, int)>, q: Query, answer: Option<Answer>, now: int)
    requires (forall p | p in calls :: Proper(p.0)) && (answer.Some? ==> Fits(q, answer.value))
    ensures var more := calls + [(Ask(q, answer), now)];
            && (forall p | p in more :: Proper(p.0))
            && (s == Run(cfg, Trace(cfg, calls)) ==>
                  Run(cfg, Trace(cfg, more)) == After(cfg, s, Events(cfg, s, Ask(q, answer), now)))
            && (s == Run(cfg, Trace(cfg, calls)) && MonotoneCalls(more) ==>
                  && Recent(cfg, calls, q, answer, now, Reply(cfg, s, q, answer, now))
                  && (Served(cfg, s, q, now) <==> StillCached(cfg, calls, q, now))
                  && Reply(cfg, s, q, answer, now) ==
                     if StillCached(cfg, calls, q, now) then Some(LatestFetch(cfg, calls, q).value.0) else answer)
  {
    hide Recent; hide Reply; hide Events; hide Trace; hide Run; hide After; hide Served; hide LatestFetch;
    var more := calls + [(Ask(q, answer), now)];
    OneMoreCall(cfg, calls, Ask(q, answer), now);
    if MonotoneCalls(more) {
      assert forall i | 0 <= i < |calls| :: calls[i] == more[i];
      assert more[|calls|].1 == now;
      RepliesAreRecent(cfg, calls, q, answer, now);
      ServedExactly(cfg, calls, q, now);
    }
  }
}
