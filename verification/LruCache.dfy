/** The cache as it is built: a hand-linked list between two sentinels, kept in step with a table of
    entry objects. Every method is proved to do to the heap what LruModel says it does to values. */
module LruCache {
  import opened Common
  import opened LruModel

  class ListNode {
    const key: string
    var prev: ListNode?
    var next: ListNode?

    constructor (key: string)
      ensures this.key == key && prev == null && next == null
    {
      this.key := key;
      prev, next := null, null;
    }
  }

  class LinkedList {
    var head: ListNode
    var tail: ListNode
    var len: int
    /** Every node from the head sentinel to the tail sentinel. */
    ghost var nodes: seq<ListNode>

    /** The nodes are distinct and next and prev are inverse along them. */
    ghost predicate Valid()
      reads this, nodes
    {
      && 2 <= |nodes| && len == |nodes| - 2
      && head == nodes[0] && tail == nodes[|nodes| - 1]
      && Distinct(nodes)
      && (forall i {:trigger nodes[i].next} :: 0 <= i < |nodes| - 1 ==> nodes[i].next == nodes[i + 1])
      && (forall i {:trigger nodes[i].prev} :: 1 <= i < |nodes| ==> nodes[i].prev == nodes[i - 1])
    }

    /** The keys between the sentinels, front first. */
    ghost function Keys(): seq<string>
      reads this
      requires 2 <= |nodes|
    {
      KeysOf(nodes[1..|nodes| - 1])
    }

    /** The objects the list is made of. */
    ghost function Repr(): (objects: set<object>)
      reads this
      ensures this in objects && forall n | n in nodes :: n in objects
    {
      {this} + set n: ListNode | n in nodes :: n
    }

    constructor ()
      ensures Valid() && Keys() == []
      ensures fresh(Repr())
    {
      var h := new ListNode("");
      var t := new ListNode("");
      head, tail, len := h, t, 0;
      nodes := [h, t];
      new;
      head.next := tail;
      tail.prev := head;
    }

    method PushFront(key: string)
      requires Valid()
      modifies Repr()
      ensures Valid() && Keys() == [key] + old(Keys())
      ensures fresh(Repr() - old(Repr()))
    {
      var node := new ListNode(key);
      node.next := head.next;
      node.prev := head;
      head.next.prev := node;
      head.next := node;
      len := len + 1;
      ghost var was := nodes;
      nodes := [was[0], node] + was[1..];
      assert forall i :: 2 <= i < |nodes| ==> nodes[i] == was[i - 1];
      assert nodes[1..|nodes| - 1] == [node] + was[1..|was| - 1];
      assert forall n | n in nodes :: n == node || n in was;
    }

    method FindNode(key: string) returns (node: ListNode?, ghost at: nat)
      requires Valid()
      ensures node == null <==> key !in Keys()
      ensures node != null ==> 1 <= at < |nodes| - 1 && nodes[at] == node && node.key == key &&
                               key !in KeysOf(nodes[1..at])
    {
      var current := head.next;
      at := 1;
      while current != tail
        invariant 1 <= at < |nodes| && current == nodes[at]
        invariant key !in KeysOf(nodes[1..at])
        decreases |nodes| - at
      {
        if current.key == key {
          KeysOfIndex(nodes[1..|nodes| - 1]);
          assert nodes[1..|nodes| - 1][at - 1] == current;
          return current, at;
        }
        KeysOfSnoc(nodes, at);
        current := current.next;
        at := at + 1;
      }
      return null, at;
    }

    method Remove(key: string)
      requires Valid()
      modifies Repr()
      ensures Valid() && Keys() == Without(old(Keys()), key)
      ensures Repr() <= old(Repr())
    {
      var node, at := FindNode(key);
      if node != null {
        ghost var was := nodes;
        Unlink(node, at);
        WithoutFound(was[1..at], node, was[at + 1..|was| - 1]);
        CutInside(was, at);
      } else {
        WithoutAbsent(Keys(), key);
      }
    }

    method Unlink(node: ListNode, ghost at: nat)
      requires Valid() && 1 <= at < |nodes| - 1 && nodes[at] == node
      modifies Repr()
      ensures Valid() && nodes == Cut(old(nodes), at)
      ensures Repr() <= old(Repr())
    {
      ghost var was := nodes;
      assert node.prev == was[at - 1] && node.next == was[at + 1];
      node.prev.next := node.next;
      node.next.prev := node.prev;
      len := len - 1;
      nodes := Cut(was, at);
      CutFacts(was, at);
    }

    method MoveToFront(key: string)
      requires Valid()
      modifies Repr()
      ensures Valid() && Keys() == [key] + Without(old(Keys()), key)
      ensures fresh(Repr() - old(Repr()))
    {
      Remove(key);
      PushFront(key);
    }

    method BackKey() returns (key: string)
      requires Valid()
      ensures key == Back(Keys())
    {
      KeysOfIndex(nodes[1..|nodes| - 1]);
      if tail.prev == head {
        return EMPTY_KEY;
      }
      return tail.prev.key;
    }
  }

  /** The sequence without its element at position at. */
  ghost function Cut<T>(s: seq<T>, at: nat): seq<T>
    requires at < |s|
  {
    s[..at] + s[at + 1..]
  }

  lemma CutFacts<T>(s: seq<T>, at: nat)
    requires at < |s|
    ensures |Cut(s, at)| == |s| - 1
    ensures forall i :: 0 <= i < |s| - 1 ==> Cut(s, at)[i] == s[if i < at then i else i + 1]
    ensures forall x | x in Cut(s, at) :: x in s
    ensures Distinct(s) ==> Distinct(Cut(s, at))
  {}

  /** Cutting an inner element, seen between the two ends. */
  lemma CutInside<T>(s: seq<T>, at: nat)
    requires 1 <= at < |s| - 1
    ensures s[1..|s| - 1] == s[1..at] + [s[at]] + s[at + 1..|s| - 1]
    ensures Cut(s, at)[1..|s| - 2] == s[1..at] + s[at + 1..|s| - 1]
  {
    var inner, parts := s[1..|s| - 1], s[1..at] + [s[at]] + s[at + 1..|s| - 1];
    assert |inner| == |parts|;
    forall i | 0 <= i < |inner| ensures inner[i] == parts[i] {}
    var cut, rest := Cut(s, at)[1..|s| - 2], s[1..at] + s[at + 1..|s| - 1];
    assert |cut| == |rest|;
    forall i | 0 <= i < |cut| ensures cut[i] == rest[i] {}
  }

  ghost function KeysOf(nodes: seq<ListNode>): (keys: seq<string>) {
    if nodes == [] then [] else [nodes[0].key] + KeysOf(nodes[1..])
  }

  lemma {:induction false} KeysOfIndex(nodes: seq<ListNode>)
    ensures |KeysOf(nodes)| == |nodes|
    ensures forall i :: 0 <= i < |nodes| ==> KeysOf(nodes)[i] == nodes[i].key
  {
    if nodes != [] {
      KeysOfIndex(nodes[1..]);
    }
  }

  lemma {:induction false} KeysOfAppend(nodes: seq<ListNode>, last: ListNode)
    ensures KeysOf(nodes + [last]) == KeysOf(nodes) + [last.key]
  {
    if nodes != [] {
      assert (nodes + [last])[1..] == nodes[1..] + [last];
      KeysOfAppend(nodes[1..], last);
    }
  }

  lemma KeysOfSnoc(nodes: seq<ListNode>, at: nat)
    requires 1 <= at < |nodes|
    ensures KeysOf(nodes[1..at + 1]) == KeysOf(nodes[1..at]) + [nodes[at].key]
  {
    assert nodes[1..at + 1] == nodes[1..at] + [nodes[at]];
    KeysOfAppend(nodes[1..at], nodes[at]);
  }

  lemma {:induction false} WithoutAbsent(keys: seq<string>, key: string)
    requires key !in keys
    ensures Without(keys, key) == keys
  {
    if keys != [] {
      WithoutAbsent(keys[1..], key);
    }
  }

  lemma {:induction false} WithoutFound(before: seq<ListNode>, node: ListNode, after: seq<ListNode>)
    requires node.key !in KeysOf(before)
    ensures Without(KeysOf(before + [node] + after), node.key) == KeysOf(before + after)
  {
    if before == [] {
      assert before + [node] + after == [node] + after && before + after == after;
    } else {
      var rest := before[1..];
      WithoutFound(rest, node, after);
      assert before + [node] + after == [before[0]] + (rest + [node] + after);
      assert before + after == [before[0]] + (rest + after);
      KeysOfCons(before[0], rest);
      KeysOfCons(before[0], rest + [node] + after);
      KeysOfCons(before[0], rest + after);
      assert before == [before[0]] + rest;
    }
  }

  lemma KeysOfCons(first: ListNode, rest: seq<ListNode>)
    ensures KeysOf([first] + rest) == [first.key] + KeysOf(rest)
  {
    assert ([first] + rest)[1..] == rest;
  }

  class LRUCache<V> {
    var items: map<string, Entry<V>>
    var list: LinkedList
    const cfg: Config
    var hits: nat
    var misses: nat
    var evicts: nat

    /** The list is well linked, and listed keys and table keys agree. */
    ghost predicate Valid()
      reads this, list, list.nodes
    {
      list.Valid() && Inv(State())
    }

    /** The cache as LruModel sees it. */
    ghost function State(): Lru<V>
      reads this, list
      requires 2 <= |list.nodes|
    {
      Lru(list.Keys(), items, hits, misses, evicts)
    }

    /** The list's own count is the size of the table. */
    lemma LenIsSize()
      requires Valid()
      ensures list.len == |items|
    {
      KeysOfIndex(list.nodes[1..|list.nodes| - 1]);
      InvSize(State());
    }

    constructor (maxEntries: int, ttl: int)
      ensures Valid() && State() == Empty() && fresh(list.Repr())
      ensures cfg == Normalize(maxEntries, ttl)
      ensures cfg.maxEntries == (if maxEntries > 0 then maxEntries else 1000)
      ensures cfg.ttl == (if ttl > 0 then ttl else 300_000_000_000)
    {
      items := map[];
      list := new LinkedList();
      cfg := Normalize(maxEntries, ttl);
      hits, misses, evicts := 0, 0, 0;
    }

    method Get(now: int, key: string) returns (value: Option<V>)
      requires Valid()
      modifies this, list.Repr()
      ensures Valid() && list == old(list) && fresh(list.Repr() - old(list.Repr()))
      ensures value == Lookup(cfg, old(State()), now, key)
      ensures State() == GetStep(cfg, old(State()), now, key)
    {
      hide Without; hide KeysOf;
      StepKeepsInv(cfg, State(), Event(now, Op<V>.Get(key)));
      if key !in items {
        misses := misses + 1;
        return None;
      }
      if now - items[key].insertedAt > cfg.ttl {
        misses := misses + 1;
        return None;
      }
      list.MoveToFront(key);
      items := items[key := items[key].(accessedAt := now)];
      hits := hits + 1;
      return Some(items[key].value);
    }

    method Set(now: int, key: string, value: V)
      requires Valid()
      modifies this, list.Repr()
      ensures Valid() && list == old(list) && fresh(list.Repr() - old(list.Repr()))
      ensures State() == SetStep(cfg, old(State()), now, key, value)
    {
      hide Without; hide KeysOf; hide Inv; hide Restrict; hide LruModel.EvictOldest; hide Distinct;
      ghost var room := MadeRoom(cfg, State(), key);
      StepKeepsInv(cfg, State(), Event(now, Op.Set(key, value)));
      if key in items {
        items := items[key := Entry(value, now, now)];
        list.MoveToFront(key);
        return;
      }
      if |items| >= cfg.maxEntries {
        EvictOldest();
      }
      assert State() == room;
      items := items[key := Entry(value, now, now)];
      list.PushFront(key);
    }

    method EvictOldest()
      requires Valid()
      modifies this, list.Repr()
      ensures Valid() && list == old(list) && list.Repr() <= old(list.Repr())
      ensures State() == LruModel.EvictOldest(old(State()))
    {
      hide Without; hide KeysOf;
      EvictOldestKeepsInv(State());
      var key := list.BackKey();
      if key != EMPTY_KEY {
        list.Remove(key);
        items := items - {key};
        evicts := evicts + 1;
      }
    }

    method Delete(key: string)
      requires Valid()
      modifies this, list.Repr()
      ensures Valid() && list == old(list) && list.Repr() <= old(list.Repr())
      ensures State() == DeleteStep(old(State()), key)
    {
      hide Without; hide KeysOf;
      StepKeepsInv(cfg, State(), Event(0, Op<V>.Delete(key)));
      if key in items {
        list.Remove(key);
        items := items - {key};
      }
    }

    method Clear()
      requires Valid()
      modifies this
      ensures Valid() && fresh(list.Repr())
      ensures State() == old(State()).(order := [], entries := map[])
    {
      items := map[];
      list := new LinkedList();
    }

    /** The expired keys are visited in whatever order the table yields them. */
    method CleanupExpired(now: int)
      requires Valid()
      modifies this, list.Repr()
      ensures Valid() && list == old(list) && list.Repr() <= old(list.Repr())
      ensures State() == CleanupStep(cfg, old(State()), now)
    {
      hide Without; hide KeysOf; hide Restrict;
      ghost var start := State();
      ghost var gone: set<string> := {};
      var todo := items.Keys;
      RestrictFacts(start.order, start.entries.Keys);
      assert start.entries.Keys - gone == start.entries.Keys && start.entries - gone == start.entries;
      while todo != {}
        invariant todo <= items.Keys
        invariant gone == ExpiredKeys(cfg, start, now) - todo
        invariant Valid() && list == old(list) && list.Repr() <= old(list.Repr())
        invariant State() == Swept(start, gone)
        decreases todo
      {
        var key :| key in todo;
        todo := todo - {key};
        if now - items[key].insertedAt > cfg.ttl {
          SweepOne(start, gone, key);
          list.Remove(key);
          items := items - {key};
          gone := gone + {key};
        }
      }
      assert gone == ExpiredKeys(cfg, start, now);
    }
  }

  /** The cache s after the keys in gone were swept out. */
  ghost function Swept<V>(s: Lru<V>, gone: set<string>): Lru<V> {
    s.(order := Restrict(s.order, s.entries.Keys - gone), entries := s.entries - gone)
  }

  lemma SweepOne<V>(s: Lru<V>, gone: set<string>, key: string)
    requires Inv(s) && key in s.entries && key !in gone
    ensures Inv(Swept(s, gone + {key}))
    ensures Swept(s, gone + {key}) == DeleteStep(Swept(s, gone), key)
  {
    var ks := s.entries.Keys - gone;
    var kept := Swept(s, gone);
    RestrictFacts(s.order, ks);
    RestrictFacts(s.order, s.entries.Keys - (gone + {key}));
    assert kept.entries.Keys == ks && s.entries.Keys - (gone + {key}) == ks - {key};
    SweepOrder(s.order, ks, key);
    hide Without; hide Restrict; hide Distinct;
    assert s.entries - (gone + {key}) == kept.entries - {key};
  }

  lemma SweepOrder(order: seq<string>, ks: set<string>, key: string)
    requires Distinct(order)
    ensures Restrict(order, ks - {key}) == Without(Restrict(order, ks), key)
  {
    RestrictFacts(order, ks);
    WithoutIsRestrict(Restrict(order, ks), key, ks - {key});
    RestrictTwice(order, ks, ks - {key});
    assert ks * (ks - {key}) == ks - {key};
  }
}
