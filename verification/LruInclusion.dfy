/** LRU inclusion: run the same calls at the same times on a small and on a large cache, and the small
    one stays an order-preserving part of the large one. */
module LruInclusion {
  import opened Common
  import opened LruModel
  import opened LruHistory

  /** List ao is list bo cut down to the keys ka; ka and kb are the keys of the two. */
  ghost predicate Sublist(ao: seq<string>, ka: set<string>, bo: seq<string>, kb: set<string>) {
    && Distinct(bo) && ka <= kb
    && (forall k :: k in bo <==> k in kb)
    && ao == Restrict(bo, ka)
  }

  /** a holds a part of b's keys, with the same entries, in b's order. The empty key, which is never
      evicted, sits in both or in neither. */
  ghost predicate Part<V>(a: Lru<V>, b: Lru<V>) {
    && Sublist(a.order, a.entries.Keys, b.order, b.entries.Keys)
    && Subtable(a.entries, b.entries)
    && (EMPTY_KEY in b.entries ==> EMPTY_KEY in a.entries)
  }

  ghost predicate Subtable<V>(ea: map<string, Entry<V>>, eb: map<string, Entry<V>>) {
    forall k :: k in ea ==> k in eb && ea[k] == eb[k]
  }

  lemma PutSubtable<V>(ea: map<string, Entry<V>>, eb: map<string, Entry<V>>, k: string, e: Entry<V>)
    requires Subtable(ea, eb)
    ensures Subtable(ea[k := e], eb[k := e])
    ensures ea[k := e].Keys == ea.Keys + {k} && eb[k := e].Keys == eb.Keys + {k}
  {}

  /** How many keys only the larger cache holds. */
  ghost function Gap<V>(a: Lru<V>, b: Lru<V>): nat { |b.entries.Keys - a.entries.Keys| }

  lemma GapIsSizeDifference<V>(a: Lru<V>, b: Lru<V>)
    requires a.entries.Keys <= b.entries.Keys
    ensures |b.entries| == |a.entries| + Gap(a, b)
  {
    assert b.entries.Keys == a.entries.Keys + (b.entries.Keys - a.entries.Keys);
    assert |a.entries.Keys| == |a.entries| && |b.entries.Keys| == |b.entries|;
  }

  lemma DifferenceGrows<T>(a: set<T>, b: set<T>, k: T)
    requires k in a && k in b
    ensures |b - (a - {k})| == |b - a| + 1
  {
    assert b - (a - {k}) == (b - a) + {k};
  }

  lemma DifferenceShrinks<T>(a: set<T>, b: set<T>, k: T)
    requires k in b && k !in a
    ensures |(b - {k}) - a| + 1 == |b - a|
  {
    assert b - a == ((b - {k}) - a) + {k};
  }

  lemma DifferenceAfterPut<T>(a: set<T>, b: set<T>, k: T)
    ensures |(b + {k}) - (a + {k})| == |b - a| - (if k in b && k !in a then 1 else 0)
  {
    var d := (b + {k}) - (a + {k});
    if k in b && k !in a {
      assert b - a == d + {k};
    } else {
      assert b - a == d;
    }
  }

  // ---------- key lists ----------

  lemma RestrictWithout(s: seq<string>, k: string, ks: set<string>)
    requires Distinct(s)
    ensures Restrict(Without(s, k), ks) == Restrict(s, ks - {k})
  {
    var others := (set x | x in s) - {k};
    WithoutIsRestrict(s, k, others);
    RestrictTwice(s, others, ks);
    RestrictSame(s, others * ks, ks - {k});
  }

  lemma RestrictCons(k: string, s: seq<string>, ks: set<string>)
    ensures Restrict([k] + s, ks) == (if k in ks then [k] else []) + Restrict(s, ks)
  {
    assert ([k] + s)[1..] == s;
  }

  lemma {:induction false} BackOfRestrict(s: seq<string>, ks: set<string>)
    requires s != [] && Back(s) in ks
    ensures Restrict(s, ks) != [] && Back(Restrict(s, ks)) == Back(s)
  {
    if |s| > 1 {
      BackOfRestrict(s[1..], ks);
    }
  }

  lemma SublistFacts(ao: seq<string>, ka: set<string>, bo: seq<string>, kb: set<string>)
    requires Sublist(ao, ka, bo, kb)
    ensures Distinct(ao) && forall k :: k in ao <==> k in ka
  {
    RestrictFacts(bo, ka);
  }

  lemma PartInv<V>(a: Lru<V>, b: Lru<V>)
    requires Part(a, b)
    ensures Inv(a) && Inv(b)
  {
    SublistFacts(a.order, a.entries.Keys, b.order, b.entries.Keys);
  }

  /** The smaller list alone loses k. */
  lemma DropSmallList(ao: seq<string>, ka: set<string>, bo: seq<string>, kb: set<string>, k: string)
    requires Sublist(ao, ka, bo, kb)
    ensures Sublist(Without(ao, k), ka - {k}, bo, kb)
  {
    SublistFacts(ao, ka, bo, kb);
    WithoutIsRestrict(ao, k, ka - {k});
    RestrictTwice(bo, ka, ka - {k});
    assert ka * (ka - {k}) == ka - {k};
  }

  /** The larger list alone loses a key the smaller lacks. */
  lemma DropLargeList(ao: seq<string>, ka: set<string>, bo: seq<string>, kb: set<string>, k: string)
    requires Sublist(ao, ka, bo, kb) && k !in ka
    ensures Sublist(ao, ka, Without(bo, k), kb - {k})
  {
    WithoutFacts(bo, k);
    RestrictWithout(bo, k, ka);
    assert ka - {k} == ka;
  }

  /** Both lists get a new first key. */
  lemma ConsList(ao: seq<string>, ka: set<string>, bo: seq<string>, kb: set<string>, k: string)
    requires Sublist(ao, ka, bo, kb) && k !in kb
    ensures Sublist([k] + ao, ka + {k}, [k] + bo, kb + {k})
  {
    ConsDistinct(k, bo);
    RestrictCons(k, bo, ka + {k});
    RestrictSame(bo, ka + {k}, ka);
  }

  /** The larger list alone gets a new first key. */
  lemma ConsLargeList(ao: seq<string>, ka: set<string>, bo: seq<string>, kb: set<string>, k: string)
    requires Sublist(ao, ka, bo, kb) && k !in kb
    ensures Sublist(ao, ka, [k] + bo, kb + {k})
  {
    ConsDistinct(k, bo);
    RestrictCons(k, bo, ka);
    assert [] + Restrict(bo, ka) == Restrict(bo, ka);
  }

  lemma DropBothList(ao: seq<string>, ka: set<string>, bo: seq<string>, kb: set<string>, k: string)
    requires Sublist(ao, ka, bo, kb)
    ensures Sublist(Without(ao, k), ka - {k}, Without(bo, k), kb - {k})
  {
    DropSmallList(ao, ka, bo, kb, k);
    DropLargeList(Without(ao, k), ka - {k}, bo, kb, k);
  }

  lemma PutList(ao: seq<string>, ka: set<string>, bo: seq<string>, kb: set<string>, k: string)
    requires Sublist(ao, ka, bo, kb)
    ensures Sublist([k] + Without(ao, k), ka + {k}, [k] + Without(bo, k), kb + {k})
  {
    DropBothList(ao, ka, bo, kb, k);
    ConsList(Without(ao, k), ka - {k}, Without(bo, k), kb - {k}, k);
    assert (ka - {k}) + {k} == ka + {k} && (kb - {k}) + {k} == kb + {k};
  }

  // ---------- the pieces of a step ----------

  lemma DropKeepsPart<V>(a: Lru<V>, b: Lru<V>, k: string, a': Lru<V>, b': Lru<V>)
    requires Part(a, b)
    requires a'.order == Without(a.order, k) && a'.entries == a.entries - {k}
    requires b'.order == Without(b.order, k) && b'.entries == b.entries - {k}
    ensures Part(a', b') && Gap(a', b') <= Gap(a, b)
  {
    DropBothList(a.order, a.entries.Keys, b.order, b.entries.Keys, k);
    assert a'.entries.Keys == a.entries.Keys - {k} && b'.entries.Keys == b.entries.Keys - {k};
    SubsetSize(b'.entries.Keys - a'.entries.Keys, b.entries.Keys - a.entries.Keys);
  }

  /** The smaller cache alone loses a key other than the empty one. */
  lemma DropSmallKeepsPart<V>(a: Lru<V>, b: Lru<V>, k: string, a': Lru<V>)
    requires Part(a, b) && k in a.entries && k != EMPTY_KEY
    requires a'.order == Without(a.order, k) && a'.entries == a.entries - {k}
    ensures Part(a', b) && Gap(a', b) == Gap(a, b) + 1
  {
    DropSmallList(a.order, a.entries.Keys, b.order, b.entries.Keys, k);
    assert a'.entries.Keys == a.entries.Keys - {k};
    DifferenceGrows(a.entries.Keys, b.entries.Keys, k);
  }

  /** The larger cache alone loses a key the smaller does not hold. */
  lemma DropLargeKeepsPart<V>(a: Lru<V>, b: Lru<V>, k: string, b': Lru<V>)
    requires Part(a, b) && k in b.entries && k !in a.entries
    requires b'.order == Without(b.order, k) && b'.entries == b.entries - {k}
    ensures Part(a, b') && Gap(a, b') + 1 == Gap(a, b)
  {
    DropLargeList(a.order, a.entries.Keys, b.order, b.entries.Keys, k);
    assert b'.entries.Keys == b.entries.Keys - {k};
    DifferenceShrinks(a.entries.Keys, b.entries.Keys, k);
  }

  /** Both caches put k in front with the same entry. */
  lemma PutKeepsPart<V>(a: Lru<V>, b: Lru<V>, k: string, e: Entry<V>, a': Lru<V>, b': Lru<V>)
    requires Part(a, b)
    requires Sublist(a'.order, a.entries.Keys + {k}, b'.order, b.entries.Keys + {k})
    requires a'.entries == a.entries[k := e]
    requires b'.entries == b.entries[k := e]
    ensures Part(a', b')
    ensures Gap(a', b') == Gap(a, b) - (if k in b.entries && k !in a.entries then 1 else 0)
  {
    PutSubtable(a.entries, b.entries, k, e);
    DifferenceAfterPut(a.entries.Keys, b.entries.Keys, k);
  }

  // ---------- one step ----------

  /** The two caches after each made room for k. */
  lemma RoomKeepsPart<V>(small: Config, large: Config, a: Lru<V>, b: Lru<V>, k: string, a': Lru<V>, b': Lru<V>)
    requires 1 <= small.maxEntries <= large.maxEntries
    requires Part(a, b) && Gap(a, b) <= large.maxEntries - small.maxEntries
    requires k !in a.entries
    requires a' == MadeRoom(small, a, k) && b' == MadeRoom(large, b, k)
    ensures Part(a', b')
    ensures Gap(a', b') <= large.maxEntries - small.maxEntries + (if k in b.entries then 1 else 0)
  {
    GapIsSizeDifference(a, b);
    PartInv(a, b);
    var x, y := Back(a.order), Back(b.order);
    assert a.order != [] ==> x in a.order;
    assert b.order != [] ==> y in b.order;
    var dropA := MustEvict(small, a, k) && x != EMPTY_KEY;
    var dropB := MustEvict(large, b, k) && y != EMPTY_KEY;
    if MustEvict(large, b, k) {
      InvSize(b);
      if y in a.entries {
        BackOfRestrict(b.order, a.entries.Keys);
      }
    }
    if dropA && dropB && x == y {
      DropKeepsPart(a, b, x, a', b');
    } else if dropA && dropB {
      DropLargeKeepsPart(a, b, y, b');
      DropSmallKeepsPart(a, b', x, a');
    } else if dropA {
      DropSmallKeepsPart(a, b, x, a');
    } else if dropB {
      DropLargeKeepsPart(a, b, y, b');
    }
  }

  lemma SetKeepsPart<V>(small: Config, large: Config, a: Lru<V>, b: Lru<V>, now: int, k: string, v: V)
    requires 1 <= small.maxEntries <= large.maxEntries
    requires Part(a, b) && Gap(a, b) <= large.maxEntries - small.maxEntries
    ensures var a', b' := SetStep(small, a, now, k, v), SetStep(large, b, now, k, v);
            Part(a', b') && Gap(a', b') <= large.maxEntries - small.maxEntries
  {
    if k in a.entries {
      PutList(a.order, a.entries.Keys, b.order, b.entries.Keys, k);
      PutKeepsPart(a, b, k, Entry(v, now, now), SetStep(small, a, now, k, v), SetStep(large, b, now, k, v));
    } else {
      var ra := MadeRoom(small, a, k);
      var rb := MadeRoom(large, b, k);
      RoomKeepsPart(small, large, a, b, k, ra, rb);
      PutList(ra.order, ra.entries.Keys, rb.order, rb.entries.Keys, k);
      PartInv(a, b);
      SetOnRoom(small, a, now, k, v);
      SetOnRoom(large, b, now, k, v);
      PutKeepsPart(ra, rb, k, Entry(v, now, now), SetStep(small, a, now, k, v), SetStep(large, b, now, k, v));
    }
  }

  lemma GetKeepsPart<V>(small: Config, large: Config, a: Lru<V>, b: Lru<V>, now: int, k: string)
    requires small.ttl == large.ttl && Part(a, b)
    ensures var a', b' := GetStep(small, a, now, k), GetStep(large, b, now, k);
            Part(a', b') && Gap(a', b') == Gap(a, b)
  {
    var a', b' := GetStep(small, a, now, k), GetStep(large, b, now, k);
    if Hits(small, a, now, k) {
      PutList(a.order, a.entries.Keys, b.order, b.entries.Keys, k);
      PutKeepsPart(a, b, k, a.entries[k].(accessedAt := now), a', b');
    } else if Hits(large, b, now, k) {
      var ka, kb := a.entries.Keys, b.entries.Keys;
      DropLargeList(a.order, ka, b.order, kb, k);
      ConsLargeList(a.order, ka, Without(b.order, k), kb - {k}, k);
      assert b'.entries.Keys == kb == (kb - {k}) + {k};
    }
  }

  lemma CleanupList(ao: seq<string>, ka: set<string>, bo: seq<string>, kb: set<string>, ja: set<string>, jb: set<string>)
    requires Sublist(ao, ka, bo, kb)
    requires ja <= ka && jb <= kb && ja == ka * jb
    ensures Sublist(Restrict(ao, ja), ja, Restrict(bo, jb), jb)
  {
    RestrictFacts(bo, jb);
    RestrictTwice(bo, ka, ja);
    RestrictTwice(bo, jb, ja);
    assert ka * ja == ja == jb * ja;
  }

  lemma CleanupKeepsPart<V>(small: Config, large: Config, a: Lru<V>, b: Lru<V>, now: int)
    requires small.ttl == large.ttl && Part(a, b)
    ensures var a', b' := CleanupStep(small, a, now), CleanupStep(large, b, now);
            Part(a', b') && Gap(a', b') <= Gap(a, b)
  {
    var a', b' := CleanupStep(small, a, now), CleanupStep(large, b, now);
    var ka, kb := a.entries.Keys, b.entries.Keys;
    var ja, jb := ka - ExpiredKeys(small, a, now), kb - ExpiredKeys(large, b, now);
    assert ja == ka * jb;
    CleanupList(a.order, ka, b.order, kb, ja, jb);
    assert a'.entries.Keys == ja && b'.entries.Keys == jb;
    SubsetSize(jb - ja, kb - ka);
  }

  lemma DeleteKeepsPart<V>(a: Lru<V>, b: Lru<V>, k: string)
    requires Part(a, b)
    ensures Part(DeleteStep(a, k), DeleteStep(b, k)) && Gap(DeleteStep(a, k), DeleteStep(b, k)) <= Gap(a, b)
  {
    if k in a.entries {
      DropKeepsPart(a, b, k, DeleteStep(a, k), DeleteStep(b, k));
    } else if k in b.entries {
      DropLargeKeepsPart(a, b, k, DeleteStep(b, k));
    }
  }

  // ---------- whole runs ----------

  /** Inclusion, for every history, every pair of capacities, and every key, the empty one included. */
  lemma {:induction false} Inclusion<V>(small: Config, large: Config, trace: seq<Event<V>>)
    requires 1 <= small.maxEntries <= large.maxEntries && small.ttl == large.ttl
    ensures Part(Run(small, trace), Run(large, trace))
    ensures Gap(Run(small, trace), Run(large, trace)) <= large.maxEntries - small.maxEntries
  {
    if trace != [] {
      var e := Last(trace);
      var a, b := Run(small, Prefix(trace)), Run(large, Prefix(trace));
      Inclusion(small, large, Prefix(trace));
      match e.op
      case Get(key) => GetKeepsPart(small, large, a, b, e.now, key);
      case Set(key, value) => SetKeepsPart(small, large, a, b, e.now, key, value);
      case Delete(key) => DeleteKeepsPart(a, b, key);
      case Clear =>
      case Cleanup => CleanupKeepsPart(small, large, a, b, e.now);
    }
  }

  /** A larger cache is never worse: each hit of the smaller is a hit of the larger with the same value,
      and the larger holds at most the capacity difference more. */
  lemma LargerCacheHitsMore<V>(small: Config, large: Config, trace: seq<Event<V>>, now: int, k: string)
    requires 1 <= small.maxEntries <= large.maxEntries && small.ttl == large.ttl
    ensures Lookup(small, Run(small, trace), now, k).Some? ==>
              Lookup(large, Run(large, trace), now, k) == Lookup(small, Run(small, trace), now, k)
    ensures |Run(small, trace).entries| <= |Run(large, trace).entries|
         <= |Run(small, trace).entries| + large.maxEntries - small.maxEntries
  {
    Inclusion(small, large, trace);
    GapIsSizeDifference(Run(small, trace), Run(large, trace));
  }
}
