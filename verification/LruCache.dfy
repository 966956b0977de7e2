/** server/src/cache/LRUCache.js in its own form: a doubly linked list between two sentinel
    nodes, relinked in place, and a hash map from keys to nodes. */
module LruCache {
  import opened Collections
  import opened Wrappers
  import opened LruSpec

  class Node<K, V> {
    const key: Option<K>  // None (null) in the two sentinels only
    var value: Option<V>
    var expiresAt: Expiry
    var prev: Node?<K, V>
    var next: Node?<K, V>

    constructor (key: Option<K>, value: Option<V>, expiresAt: Expiry)
      ensures this.key == key && this.value == value && this.expiresAt == expiresAt
      ensures prev == null && next == null
    {
      this.key, this.value, this.expiresAt := key, value, expiresAt;
      prev, next := null, null;
    }
  }

  ghost predicate Distinct<K, V>(nodes: seq<Node<K, V>>) {
    forall i, j :: 0 <= i < j < |nodes| ==> nodes[i] != nodes[j]
  }

  /** The map sends the keys of `nodes` to those nodes and, being no larger, has no other key.
      A node's key never changes, so this does not depend on the heap. */
  ghost predicate Keyed<K, V>(nodes: seq<Node<K, V>>, index: map<K, Node<K, V>>) {
    && |index| == |nodes|
    && (forall i :: 0 <= i < |nodes| ==>
          nodes[i].key.Some? && nodes[i].key.value in index && index[nodes[i].key.value] == nodes[i])
  }

  ghost predicate Owned<K, V>(chain: seq<Node<K, V>>, spine: set<Node<K, V>>) {
    forall i :: 0 <= i < |chain| ==> chain[i] in spine
  }

  ghost predicate Stores<K, V>(n: Node<K, V>, e: Entry<K, V>)
    reads n`value, n`expiresAt
  {
    n.key == Some(e.key) && n.value == Some(e.value) && n.expiresAt == e.expiresAt
  }

  /** `nodes` store exactly `entries`, in this order. */
  ghost predicate Holds<K, V>(nodes: seq<Node<K, V>>, entries: seq<Entry<K, V>>, spine: set<Node<K, V>>)
    requires Owned(nodes, spine)
    reads spine`value, spine`expiresAt
  {
    && |nodes| == |entries|
    && (forall i :: 0 <= i < |nodes| ==> Stores(nodes[i], entries[i]))
  }

  /** `nodes` is `chain` without its two ends. */
  ghost predicate Inner<K, V>(chain: seq<Node<K, V>>, nodes: seq<Node<K, V>>) {
    && |chain| == |nodes| + 2
    && (forall i :: 0 <= i < |nodes| ==> nodes[i] == chain[i + 1])
  }

  lemma InnerDistinct<K, V>(chain: seq<Node<K, V>>, nodes: seq<Node<K, V>>)
    requires Inner(chain, nodes) && Distinct(chain)
    ensures Distinct(nodes)
  {
  }

  lemma InnerCut<K, V>(chain: seq<Node<K, V>>, nodes: seq<Node<K, V>>, i: nat)
    requires Inner(chain, nodes) && i < |nodes|
    ensures Inner(Cut(chain, i + 1), Cut(nodes, i))
  {
  }

  lemma InnerInsert<K, V>(chain: seq<Node<K, V>>, nodes: seq<Node<K, V>>, n: Node<K, V>)
    requires Inner(chain, nodes)
    ensures Inner([chain[0], n] + chain[1..], [n] + nodes)
  {
  }

  function Cut<T>(s: seq<T>, i: nat): seq<T>
    requires i < |s|
  {
    s[..i] + s[i + 1..]
  }

  lemma KeyedCut<K, V>(chain: seq<Node<K, V>>, nodes: seq<Node<K, V>>, index: map<K, Node<K, V>>, i: nat)
    requires Inner(chain, nodes) && Distinct(chain)
    requires Keyed(nodes, index) && i < |nodes|
    ensures Keyed(Cut(nodes, i), index - {nodes[i].key.value})
    ensures Keyed([nodes[i]] + Cut(nodes, i), index)
  {
  }

  lemma KeyedAdd<K, V>(nodes: seq<Node<K, V>>, index: map<K, Node<K, V>>, n: Node<K, V>)
    requires Keyed(nodes, index) && n.key.Some? && n.key.value !in index
    ensures Keyed([n] + nodes, index[n.key.value := n])
  {
  }

  lemma HoldsCut<K, V>(nodes: seq<Node<K, V>>, entries: seq<Entry<K, V>>, spine: set<Node<K, V>>, i: nat)
    requires Owned(nodes, spine) && Holds(nodes, entries, spine) && i < |nodes|
    ensures Owned(Cut(nodes, i), spine) && Holds(Cut(nodes, i), Cut(entries, i), spine)
    ensures var moved := [nodes[i]] + Cut(nodes, i);
            Owned(moved, spine) && Holds(moved, [entries[i]] + Cut(entries, i), spine)
  {
  }

  lemma HoldsPrepend<K, V>(n: Node<K, V>, nodes: seq<Node<K, V>>, e: Entry<K, V>, entries: seq<Entry<K, V>>,
                           spine: set<Node<K, V>>)
    requires Owned(nodes, spine) && Holds(nodes, entries, spine)
    requires Stores(n, e)
    ensures Owned([n] + nodes, spine + {n}) && Holds([n] + nodes, [e] + entries, spine + {n})
  {
  }

  /** Every key of the map has its node in the list: both have the same number of elements. */
  lemma KeyedFind<K, V>(nodes: seq<Node<K, V>>, index: map<K, Node<K, V>>, key: K)
    returns (i: nat)
    requires Keyed(nodes, index) && Distinct(nodes) && key in index
    ensures i < |nodes| && nodes[i] == index[key] && nodes[i].key == Some(key)
  {
    i := 0;
    var keys := {};
    while i < |nodes| && nodes[i].key.value != key
      invariant i <= |nodes|
      invariant keys == set p | 0 <= p < i :: nodes[p].key.value
      invariant |keys| == i && key !in keys && keys <= index.Keys
    {
      keys := keys + {nodes[i].key.value};
      i := i + 1;
    }
    if i == |nodes| {
      SubsetSize(keys + {key}, index.Keys);
      assert false;
    }
  }

  /** What the map's answer for a key says about the abstract list. */
  lemma LookupAgrees<K, V>(chain: seq<Node<K, V>>, nodes: seq<Node<K, V>>, index: map<K, Node<K, V>>,
                           entries: seq<Entry<K, V>>, spine: set<Node<K, V>>, key: K)
    returns (i: nat)
    requires Inner(chain, nodes) && Distinct(chain)
    requires Keyed(nodes, index) && Owned(nodes, spine) && Holds(nodes, entries, spine)
    ensures key !in index ==> Lookup(entries, key).None? && Without(entries, key) == entries
    ensures key in index ==> i < |nodes| && nodes[i] == index[key] && entries[i].key == key
    ensures key in index ==> Lookup(entries, key) == Some(entries[i]) && Without(entries, key) == Cut(entries, i)
  {
    i := 0;
    InnerDistinct(chain, nodes);
    if key in index {
      i := KeyedFind(nodes, index, key);
      LookupAt(entries, i);
      WithoutAt(entries, i);
    } else {
      LookupAbsent(entries, key);
      WithoutAbsent(entries, key);
    }
  }

  class LRUCache<K(==), V> {
    const capacity: int
    const defaultTtlMs: int
    const head: Node<K, V>
    const tail: Node<K, V>
    var index: map<K, Node<K, V>>
    var stats: Stats
    ghost var chain: seq<Node<K, V>>      // every node from head to tail
    ghost var nodes: seq<Node<K, V>>      // the nodes between the sentinels
    ghost var entries: seq<Entry<K, V>>   // what those nodes store
    ghost var spine: set<Node<K, V>>      // every node that is or was in the chain

    /** The nodes form one chain from head to tail, linked alike in both directions. */
    ghost predicate Linked()
      reads this`chain, this`spine, spine`prev, spine`next
    {
      && Owned(chain, spine)
      && |chain| >= 2 && chain[0] == head && chain[|chain| - 1] == tail
      && Distinct(chain)
      && (forall i {:trigger chain[i].next} :: 0 <= i < |chain| - 1 ==> chain[i].next == chain[i + 1])
      && (forall i {:trigger chain[i].prev} :: 1 <= i < |chain| ==> chain[i].prev == chain[i - 1])
    }

    ghost predicate Valid()
      reads this`chain, this`nodes, this`entries, this`index, this`spine, spine
    {
      && capacity >= 1
      && Linked()
      && Inner(chain, nodes)
      && Keyed(nodes, index)
      && Owned(nodes, spine) && Holds(nodes, entries, spine)
      && |index| <= capacity
    }

    /** The abstract cache this object stands for. */
    ghost function View(): Cache<K, V>
      reads this
    {
      Cache(capacity, defaultTtlMs, entries, stats)
    }

    /** The object's invariant gives the list's: within capacity, no key twice. */
    lemma ValidIsWellFormed()
      requires Valid()
      ensures WellFormed(View())
    {
    }

    constructor (capacity: int, defaultTtlMs: int)
      requires capacity >= 1
      ensures Valid() && fresh(spine)
      ensures View() == Cache(capacity, defaultTtlMs, [], Stats(0, 0, 0, 0))
    {
      this.capacity, this.defaultTtlMs := capacity, defaultTtlMs;
      index := map[];
      var h := new Node<K, V>(None, None, Never);
      var t := new Node<K, V>(None, None, Never);
      head, tail := h, t;
      stats := Stats(0, 0, 0, 0);
      chain, nodes, entries := [h, t], [], [];
      spine := {h, t};
      new;
      head.next := tail;
      tail.prev := head;
    }

    /** The constructor with its range check: `new LRUCache(c)` throws unless c >= 1. */
    static method Create(capacity: int, defaultTtlMs: int) returns (r: Result<LRUCache<K, V>, string>)
      ensures r.Failure? <==> capacity < 1
      ensures r.Success? ==> r.value.Valid() && fresh(r.value) && fresh(r.value.spine)
      ensures r.Success? ==> r.value.View() == Cache(capacity, defaultTtlMs, [], Stats(0, 0, 0, 0))
    {
      if capacity < 1 {
        return Failure("LRU capacity must be >= 1");
      }
      var c := new LRUCache<K, V>(capacity, defaultTtlMs);
      r := Success(c);
    }

    method Detach(node: Node<K, V>, ghost i: nat)
      requires Linked() && 1 <= i < |chain| - 1 && chain[i] == node
      modifies this`chain, spine`prev, spine`next
      ensures chain == old(Cut(chain, i))
      ensures Linked()
    {
      node.prev.next := node.next;
      node.next.prev := node.prev;
      chain := Cut(chain, i);
    }

    method InsertAtHead(node: Node<K, V>)
      requires Linked() && node in spine && node !in chain
      modifies this`chain, spine`prev, spine`next
      ensures chain == old([chain[0], node] + chain[1..])
      ensures Linked()
    {
      node.next := head.next;
      node.prev := head;
      head.next.prev := node;
      head.next := node;
      chain := [chain[0], node] + chain[1..];
    }

    /** Promotes a node that holds an entry to most recently used. */
    method MoveToHead(node: Node<K, V>, ghost i: nat)
      requires Valid() && i < |nodes| && nodes[i] == node
      modifies this`chain, this`nodes, this`entries, spine`prev, spine`next
      ensures Valid()
      ensures entries == old([entries[i]] + Cut(entries, i))
    {
      KeyedCut(chain, nodes, index, i);
      HoldsCut(nodes, entries, spine, i);
      InnerCut(chain, nodes, i);
      Detach(node, i + 1);
      InnerInsert(chain, Cut(nodes, i), node);
      InsertAtHead(node);
      nodes := [node] + Cut(nodes, i);
      entries := [entries[i]] + Cut(entries, i);
    }

    /** Takes a node out of the list and out of the map. */
    method Remove(node: Node<K, V>, ghost i: nat)
      requires Valid() && i < |nodes| && nodes[i] == node
      modifies this`chain, this`nodes, this`entries, this`index, spine`prev, spine`next
      ensures Valid()
      ensures entries == old(Cut(entries, i))
      ensures index == old(index - {node.key.value})
    {
      KeyedCut(chain, nodes, index, i);
      HoldsCut(nodes, entries, spine, i);
      InnerCut(chain, nodes, i);
      Detach(node, i + 1);
      index := index - {node.key.value};
      nodes, entries := Cut(nodes, i), Cut(entries, i);
    }

    /** Evicts the least recently used node, the one before the tail sentinel. */
    method EvictLRU()
      requires Valid()
      modifies this`chain, this`nodes, this`entries, this`index, this`stats, spine`prev, spine`next
      ensures Valid()
      ensures old(entries) == [] ==> entries == [] && stats == old(stats)
      ensures old(entries) != [] ==> entries == old(entries[..|entries| - 1])
      ensures old(entries) != [] ==> stats == old(stats.(evictions := stats.evictions + 1))
      ensures forall k :: k in index ==> k in old(index)
    {
      var lruNode := tail.prev;
      assert chain[|chain| - 1].prev == chain[|chain| - 2];
      if lruNode == head {
        return;
      }
      Remove(lruNode, |nodes| - 1);
      stats := stats.(evictions := stats.evictions + 1);
    }

    /** The expired branch of `get`: the entry goes, and the call counts as a miss. */
    method Expire(node: Node<K, V>, ghost i: nat)
      requires Valid() && i < |nodes| && nodes[i] == node
      modifies this`chain, this`nodes, this`entries, this`index, this`stats, spine`prev, spine`next
      ensures Valid()
      ensures entries == old(Cut(entries, i))
      ensures stats == Miss(old(stats.(expirations := stats.expirations + 1)))
    {
      Remove(node, i);
      stats := stats.(expirations := stats.expirations + 1);
      stats := stats.(misses := stats.misses + 1);
    }

    /** The hit branch of `get`: the entry is promoted, counted and returned. */
    method Touch(node: Node<K, V>, ghost i: nat) returns (r: Option<V>)
      requires Valid() && i < |nodes| && nodes[i] == node
      modifies this`chain, this`nodes, this`entries, this`stats, spine`prev, spine`next
      ensures Valid()
      ensures entries == old([entries[i]] + Cut(entries, i))
      ensures stats == Hit(old(stats))
      ensures r == Some(old(entries[i].value))
    {
      assert Stores(node, entries[i]);
      MoveToHead(node, i);
      stats := stats.(hits := stats.hits + 1);
      r := node.value;
    }

    /** `get(key)` at clock reading `now`; None is the null of a miss or an expired entry. */
    method Get(key: K, now: int) returns (r: Option<V>)
      requires Valid()
      modifies this`chain, this`nodes, this`entries, this`index, this`stats, spine`prev, spine`next
      ensures Valid()
      ensures (View(), r) == LruSpec.Get(old(View()), key, now)
    {
      ghost var i := LookupAgrees(chain, nodes, index, entries, spine, key);
      if key !in index {
        stats := stats.(misses := stats.misses + 1);
        r := None;
      } else {
        var node := index[key];
        ghost var e := entries[i];
        assert Stores(node, e) && Lookup(entries, key) == Some(e);
        if node.expiresAt.At? && now > node.expiresAt.ms {
          Expire(node, i);
          r := None;
        } else {
          r := Touch(node, i);
        }
      }
    }

    /** Overwrites a stored entry in place and promotes it. */
    method Update(existing: Node<K, V>, value: V, expiresAt: Expiry, ghost i: nat)
      requires Valid() && i < |nodes| && nodes[i] == existing
      modifies this`chain, this`nodes, this`entries, spine
      ensures Valid()
      ensures entries == old([Entry(existing.key.value, value, expiresAt)] + Cut(entries, i))
    {
      assert existing == chain[i + 1];
      existing.value := Some(value);
      existing.expiresAt := expiresAt;
      entries := entries[i := Entry(existing.key.value, value, expiresAt)];
      assert Cut(entries, i) == old(Cut(entries, i));
      MoveToHead(existing, i);
    }

    /** Puts a node that is not part of the cache yet at the front of the chain. */
    method Link(node: Node<K, V>)
      requires Linked() && node !in spine
      modifies this`chain, this`spine, spine`prev, spine`next, node`prev, node`next
      ensures Linked()
      ensures spine == old(spine) + {node} && chain == old([chain[0], node] + chain[1..])
    {
      spine := spine + {node};
      InsertAtHead(node);
    }

    /** Stores a new node for a key the cache does not hold, given room for it. */
    method Insert(node: Node<K, V>, ghost e: Entry<K, V>)
      requires Valid() && |index| < capacity
      requires node !in spine && e.key !in index
      requires Stores(node, e)
      modifies this`chain, this`nodes, this`entries, this`index, this`spine
      modifies spine`prev, spine`next, node`prev, node`next
      ensures Valid()
      ensures spine == old(spine) + {node}
      ensures entries == old([e] + entries)
    {
      KeyedAdd(nodes, index, node);
      InnerInsert(chain, nodes, node);
      HoldsPrepend(node, nodes, e, entries, spine);
      Link(node);
      index := index[node.key.value := node];
      nodes := [node] + nodes;
      entries := [e] + entries;
    }

    /** `put(key, value, ttlMs)` at clock reading `now`. */
    method Put(key: K, value: V, ttl: Ttl, now: int)
      requires Valid()
      modifies this, spine
      ensures Valid() && fresh(spine - old(spine))
      ensures View() == LruSpec.Put(old(View()), key, value, ttl, now)
    {
      var expiresAt := ExpiresAt(ttl, defaultTtlMs, now);
      ghost var i := LookupAgrees(chain, nodes, index, entries, spine, key);
      if key in index {
        var existing := index[key];
        Update(existing, value, expiresAt, i);
        return;
      }
      Add(key, value, expiresAt);
    }

    /** `put` of a key the cache does not hold: evicts one entry if full, then inserts. */
    method Add(key: K, value: V, expiresAt: Expiry)
      requires Valid() && key !in index
      modifies this, spine
      ensures Valid() && fresh(spine - old(spine))
      ensures var full := old(|entries| >= capacity && entries != []);
              && entries == [Entry(key, value, expiresAt)] + old(if full then entries[..|entries| - 1] else entries)
              && stats == old(if full then stats.(evictions := stats.evictions + 1) else stats)
    {
      if |index| >= capacity {
        EvictLRU();
      }
      var node := new Node(Some(key), Some(value), expiresAt);
      Insert(node, Entry(key, value, expiresAt));
    }

    method Delete(key: K) returns (found: bool)
      requires Valid()
      modifies this`chain, this`nodes, this`entries, this`index, spine`prev, spine`next
      ensures Valid()
      ensures (View(), found) == LruSpec.Delete(old(View()), key)
    {
      ghost var i := LookupAgrees(chain, nodes, index, entries, spine, key);
      if key !in index {
        return false;
      }
      var node := index[key];
      Remove(node, i);
      return true;
    }

    method Clear()
      requires Valid()
      modifies this`chain, this`nodes, this`entries, this`index, head`next, tail`prev
      ensures Valid()
      ensures View() == LruSpec.Clear(old(View()))
    {
      index := map[];
      head.next := tail;
      tail.prev := head;
      chain, nodes, entries := [head, tail], [], [];
    }
  }
}
