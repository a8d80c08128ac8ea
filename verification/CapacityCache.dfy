/**
 The decision cache with least-recently-used eviction.

 List iterators are modelled by node numbers: an iterator is valid as long as a
 node with its number is in the list.
 */
module CapacityCache {
  import opened PolicyTypes
  import opened PolicyKeys

  const AccessAllowed := 2
  const AccessDenied := 1
  const CacheMiss := -1

  /** What the plugin for a policy type says about the entry at hand. */
  datatype PluginView = NoPlugin | Plugin(usable: bool, updateSession: bool, cacheable: bool, verdict: int)

  datatype Node = Node(ref: nat, key: string)

  datatype Value = Value(result: PolicyResult, session: string, usage: nat)

  /** The position of the node with number `ref`. */
  function Find(usage: seq<Node>, ref: nat): (i: nat)
    requires exists i :: 0 <= i < |usage| && usage[i].ref == ref
    ensures i < |usage| && usage[i].ref == ref
  {
    if usage[0].ref == ref then 0
    else
      assert exists i :: 0 <= i < |usage[1..]| && usage[1..][i].ref == ref by {
        var i :| 0 <= i < |usage| && usage[i].ref == ref;
        assert usage[1..][i - 1].ref == ref;
      }
      1 + Find(usage[1..], ref)
  }

  function RemoveAt(usage: seq<Node>, i: nat): seq<Node>
    requires i < |usage|
  {
    usage[..i] + usage[i + 1..]
  }

  /** `splice` to the front. */
  function ToFront(usage: seq<Node>, i: nat): seq<Node>
    requires i < |usage|
  {
    [usage[i]] + RemoveAt(usage, i)
  }

  // ----- the invariant, on values -----

  ghost predicate DistinctNodes(usage: seq<Node>) {
    forall i, j :: 0 <= i < j < |usage| ==> usage[i].key != usage[j].key && usage[i].ref != usage[j].ref
  }

  /** The usage list is a permutation of the keys of the map, and the map's iterators are valid. */
  ghost predicate Linked(usage: seq<Node>, values: map<string, Value>) {
    && (forall i :: 0 <= i < |usage| ==> usage[i].key in values && values[usage[i].key].usage == usage[i].ref)
    && (forall k :: k in values ==> exists i :: 0 <= i < |usage| && usage[i].key == k)
  }

  /** More recently used entries come first. */
  ghost predicate ByRecency(usage: seq<Node>, used: map<string, nat>) {
    && (forall i :: 0 <= i < |usage| ==> usage[i].key in used)
    && (forall i, j :: 0 <= i < j < |usage| ==> used[usage[i].key] > used[usage[j].key])
  }

  ghost predicate Below(usage: seq<Node>, used: map<string, nat>, next: nat, tick: nat) {
    && (forall i :: 0 <= i < |usage| ==> usage[i].ref < next)
    && (forall k :: k in used ==> used[k] < tick)
  }

  ghost predicate Sound(usage: seq<Node>, values: map<string, Value>, used: map<string, nat>, next: nat, tick: nat) {
    DistinctNodes(usage) && Linked(usage, values) && ByRecency(usage, used) && Below(usage, used, next, tick)
  }

  lemma {:induction false} SizesAgree(usage: seq<Node>, values: map<string, Value>)
    requires DistinctNodes(usage) && Linked(usage, values)
    ensures |usage| == |values|
    decreases |usage|
  {
    if usage == [] {
      assert forall k :: k !in values;
    } else {
      var n := |usage| - 1;
      var k := usage[n].key;
      RemoveDistinct(usage, n);
      RemoveLinked(usage, values, n);
      assert k in values && RemoveAt(usage, n) == usage[..n];
      hide DistinctNodes, Linked, RemoveAt;
      SizesAgree(usage[..n], values - {k});
      assert values.Keys == (values - {k}).Keys + {k};
    }
  }

  lemma RemovedAt(usage: seq<Node>, i: nat, j: nat)
    requires i < |usage| && j < |usage| - 1
    ensures RemoveAt(usage, i)[j] == usage[if j < i then j else j + 1]
  {
  }

  lemma RemoveDistinct(usage: seq<Node>, i: nat)
    requires DistinctNodes(usage) && i < |usage|
    ensures DistinctNodes(RemoveAt(usage, i))
    ensures forall j :: 0 <= j < |usage| - 1 ==> RemoveAt(usage, i)[j].ref != usage[i].ref && RemoveAt(usage, i)[j].key != usage[i].key
  {
    forall j | 0 <= j < |usage| - 1 ensures RemoveAt(usage, i)[j] == usage[if j < i then j else j + 1] {
      RemovedAt(usage, i, j);
    }
  }

  lemma RemoveLinked(usage: seq<Node>, values: map<string, Value>, i: nat)
    requires DistinctNodes(usage) && Linked(usage, values) && i < |usage|
    ensures Linked(RemoveAt(usage, i), values - {usage[i].key})
  {
    var u, v := RemoveAt(usage, i), values - {usage[i].key};
    RemoveDistinct(usage, i);
    forall j | 0 <= j < |u| ensures u[j].key in v && v[u[j].key].usage == u[j].ref { RemovedAt(usage, i, j); }
    forall k | k in v ensures exists j :: 0 <= j < |u| && u[j].key == k {
      var j :| 0 <= j < |usage| && usage[j].key == k;
      RemovedAt(usage, i, if j < i then j else j - 1);
    }
  }

  lemma RemoveOrdered(usage: seq<Node>, used: map<string, nat>, next: nat, tick: nat, i: nat)
    requires ByRecency(usage, used) && Below(usage, used, next, tick) && i < |usage|
    ensures ByRecency(RemoveAt(usage, i), used) && Below(RemoveAt(usage, i), used, next, tick)
  {
    forall j | 0 <= j < |usage| - 1 ensures RemoveAt(usage, i)[j] == usage[if j < i then j else j + 1] {
      RemovedAt(usage, i, j);
    }
  }

  lemma RemoveKeepsSound(usage: seq<Node>, values: map<string, Value>, used: map<string, nat>, next: nat, tick: nat, i: nat)
    requires Sound(usage, values, used, next, tick) && i < |usage|
    ensures Sound(RemoveAt(usage, i), values - {usage[i].key}, used, next, tick)
  {
    hide DistinctNodes, Linked, ByRecency, Below, RemoveAt;
    RemoveDistinct(usage, i);
    RemoveLinked(usage, values, i);
    RemoveOrdered(usage, used, next, tick, i);
  }

  lemma FrontLinked(usage: seq<Node>, values: map<string, Value>, node: Node, value: Value)
    requires Linked(usage, values) && node.key !in values && value.usage == node.ref
    ensures Linked([node] + usage, values[node.key := value])
  {
    var u, v := [node] + usage, values[node.key := value];
    forall k | k in v ensures exists j :: 0 <= j < |u| && u[j].key == k {
      if k == node.key {
        assert u[0].key == k;
      } else {
        var j :| 0 <= j < |usage| && usage[j].key == k;
        assert u[j + 1].key == k;
      }
    }
  }

  lemma FrontOrdered(usage: seq<Node>, used: map<string, nat>, next: nat, tick: nat, node: Node)
    requires ByRecency(usage, used) && Below(usage, used, next, tick) && node.ref < next
    requires forall i :: 0 <= i < |usage| ==> usage[i].key != node.key
    ensures ByRecency([node] + usage, used[node.key := tick]) && Below([node] + usage, used[node.key := tick], next, tick + 1)
  {
  }

  /** Putting a fresh or just removed node in front makes its key the most recent one. */
  lemma FrontKeepsSound(usage: seq<Node>, values: map<string, Value>, used: map<string, nat>, next: nat, tick: nat,
                        node: Node, value: Value)
    requires Sound(usage, values, used, next, tick) && node.key !in values && value.usage == node.ref && node.ref < next
    requires forall i :: 0 <= i < |usage| ==> usage[i].ref != node.ref
    ensures Sound([node] + usage, values[node.key := value], used[node.key := tick], next, tick + 1)
  {
    FrontLinked(usage, values, node, value);
    assert forall i :: 0 <= i < |usage| ==> usage[i].key != node.key;
    hide Linked, ByRecency, Below;
    FrontOrdered(usage, used, next, tick, node);
  }

  lemma FindIs(usage: seq<Node>, p: nat)
    requires DistinctNodes(usage) && p < |usage|
    ensures Find(usage, usage[p].ref) == p
  {
  }

  /** Moving a node in front keeps the cache sound and makes its key the most recent one. */
  lemma ToFrontKeepsSound(usage: seq<Node>, values: map<string, Value>, used: map<string, nat>, next: nat, tick: nat,
                          i: nat, value: Value)
    requires Sound(usage, values, used, next, tick) && i < |usage| && value.usage == usage[i].ref
    ensures Sound(ToFront(usage, i), values[usage[i].key := value], used[usage[i].key := tick], next, tick + 1)
  {
    var node := usage[i];
    RemoveDistinct(usage, i);
    assert node.ref < next;
    hide DistinctNodes, Linked, ByRecency, Below, RemoveAt;
    RemoveKeepsSound(usage, values, used, next, tick, i);
    FrontKeepsSound(RemoveAt(usage, i), values - {node.key}, used, next, tick, node, value);
    assert values[node.key := value] == (values - {node.key})[node.key := value];
  }

  lemma FrontOf(usage: seq<Node>, i: nat)
    requires i < |usage|
    ensures ToFront(usage, i) != [] && ToFront(usage, i)[0] == usage[i]
  {
  }

  /**
   Exactly when an update of a full cache is well defined: after the eviction,
   the iterator found for a present key is still in the list if and only if the
   key is not the least recent one.
   */
  lemma IteratorSurvivesEviction(usage: seq<Node>, values: map<string, Value>, key: string)
    requires DistinctNodes(usage) && Linked(usage, values) && key in values
    ensures usage != []
    ensures (exists i :: 0 <= i < |usage| - 1 && usage[i].ref == values[key].usage) <==> usage[|usage| - 1].key != key
  {
    var i :| 0 <= i < |usage| && usage[i].key == key;
    assert usage[i].ref == values[key].usage;
  }

  class CapacityCache {
    const capacity: nat
    var usage: seq<Node>
    var values: map<string, Value>
    var next: nat
    ghost var used: map<string, nat>
    ghost var tick: nat

    /** The list is a duplicate-free, recency-ordered permutation of the keys, within the capacity. */
    ghost predicate Valid()
      reads this
    {
      Sound(usage, values, used, next, tick) && |values| <= capacity
    }

    constructor (capacity: nat)
      ensures this.capacity == capacity && Valid() && values == map[]
    {
      this.capacity := capacity;
      usage, values, next, used, tick := [], map[], 0, map[], 0;
    }

    ghost function Position(key: string): nat
      requires Valid() && key in values
      reads this
      ensures Position(key) < |usage| && usage[Position(key)] == Node(values[key].usage, key)
    {
      var i :| 0 <= i < |usage| && usage[i].key == key;
      i
    }

    /** Moves the node that an iterator of the map points to in front and stamps it as just used. */
    method Touch(key: string, value: Value)
      requires Valid() && key in values && value.usage == values[key].usage
      modifies this
      ensures Valid() && values == old(values)[key := value] && usage[0].key == key && next == old(next)
      ensures usage == ToFront(old(usage), old(Position(key)))
    {
      hide DistinctNodes, Linked, ByRecency, Below, RemoveAt, ToFront, Find;
      ghost var p := Position(key);
      FindIs(usage, p);
      var i := Find(usage, value.usage);
      ToFrontKeepsSound(usage, values, used, next, tick, i, value);
      assert ToFront(usage, i)[0].key == key by { FrontOf(usage, i); }
      usage := ToFront(usage, i);
      values := values[key := value];
      used, tick := used[key := tick], tick + 1;
      assert values.Keys == old(values).Keys;
    }

    /** Erases an entry through its iterators. */
    method Drop(key: string)
      requires Valid() && key in values
      modifies this
      ensures Valid() && values == old(values) - {key} && next == old(next)
      ensures usage == RemoveAt(old(usage), old(Position(key)))
    {
      hide DistinctNodes, Linked, ByRecency, Below, RemoveAt, Find;
      ghost var p := Position(key);
      FindIs(usage, p);
      var i := Find(usage, values[key].usage);
      RemoveKeepsSound(usage, values, used, next, tick, i);
      usage := RemoveAt(usage, i);
      values := values - {key};
      assert old(values).Keys == values.Keys + {key};
    }

    /** A hit becomes the most recent entry; an entry that is no longer usable is removed. */
    method Get(key: PolicyKey, session: string, plugin: PluginView) returns (r: int)
      requires Valid()
      modifies this
      ensures Valid()
      ensures CacheKey(key) !in old(values) ==> r == CacheMiss && values == old(values) && usage == old(usage)
      ensures CacheKey(key) in old(values) ==>
        match plugin
        case NoPlugin => r == AccessDenied && values == old(values) && usage == old(usage)
        case Plugin(usable, updateSession, _, verdict) =>
          if usable then
            && r == verdict && |usage| > 0 && usage[0].key == CacheKey(key)
            && values.Keys == old(values).Keys && values[CacheKey(key)].result == old(values)[CacheKey(key)].result
            && values[CacheKey(key)].session == (if updateSession then session else old(values)[CacheKey(key)].session)
            && values == old(values)[CacheKey(key) := values[CacheKey(key)]]
          else r == CacheMiss && values == old(values) - {CacheKey(key)}
    {
      var cacheKey := CacheKey(key);
      hide CacheKey, Sound;
      if cacheKey !in values {
        return CacheMiss;
      }
      if plugin.NoPlugin? {
        return AccessDenied;
      }
      var value := values[cacheKey];
      if plugin.usable {
        Touch(cacheKey, if plugin.updateSession then value.(session := session) else value);
        return plugin.verdict;
      }
      Drop(cacheKey);
      r := CacheMiss;
    }

    method Clear()
      modifies this
      ensures Valid() && values == map[] && usage == []
    {
      usage, values, used := [], map[], map[];
    }

    /** Removes the least recently used entry. */
    method Evict()
      requires Valid() && usage != []
      modifies this
      ensures Valid() && usage == old(usage)[..|old(usage)| - 1] && next == old(next)
      ensures values == old(values) - {old(usage)[|old(usage)| - 1].key} && |values| == |old(values)| - 1
    {
      var last := |usage| - 1;
      var lastUsedKey := usage[last].key;
      assert lastUsedKey in values;
      assert usage[..last] == RemoveAt(usage, last);
      hide DistinctNodes, Linked, ByRecency, Below, RemoveAt;
      RemoveKeepsSound(usage, values, used, next, tick, last);
      usage := usage[..last];
      values := values - {lastUsedKey};
      assert old(values).Keys == values.Keys + {lastUsedKey};
    }

    /**
     The iterator that `Update` looks up stays valid: the key is absent, the cache
     is not full, or the key is not the one that would be evicted.
     */
    predicate UpdateIsDefined(cacheKey: string)
      reads this
    {
      cacheKey !in values || |values| < capacity || usage == [] || usage[|usage| - 1].key != cacheKey
    }

    /**
     Stores a result as the most recent entry.  A full cache first evicts its
     least recent entry, even if the key is already present.
     */
    method Update(key: PolicyKey, session: string, result: PolicyResult, plugin: PluginView) returns (r: int)
      requires Valid() && UpdateIsDefined(CacheKey(key))
      modifies this
      ensures Valid()
      ensures plugin.NoPlugin? ==> r == AccessDenied && values == old(values) && usage == old(usage)
      ensures plugin.Plugin? ==> r == plugin.verdict
      ensures plugin.Plugin? && capacity == 0 ==> values == old(values)
      ensures plugin.Plugin? && capacity > 0 && !plugin.cacheable ==> values == old(values) - {CacheKey(key)}
      ensures plugin.Plugin? && capacity > 0 && plugin.cacheable ==>
                && usage != [] && usage[0].key == CacheKey(key)
                && CacheKey(key) in values && values[CacheKey(key)].result == result && values[CacheKey(key)].session == session
                && values == Evicted(old(usage), old(values))[CacheKey(key) := values[CacheKey(key)]]
    {
      var cacheKey := CacheKey(key);
      hide CacheKey, Sound;
      if plugin.NoPlugin? {
        return AccessDenied;
      }
      if capacity > 0 {
        var present := cacheKey in values;
        if plugin.cacheable {
          EvictIfFull();
          if present {
            Touch(cacheKey, Value(result, session, values[cacheKey].usage));
          } else {
            PushFront(cacheKey, result, session);
          }
        } else if present {
          Drop(cacheKey);
        }
      }
      r := plugin.verdict;
    }

    ghost function Evicted(usage: seq<Node>, values: map<string, Value>): map<string, Value> {
      if |values| == capacity && usage != [] then values - {usage[|usage| - 1].key} else values
    }

    method EvictIfFull()
      requires Valid() && capacity > 0
      modifies this
      ensures Valid() && values == Evicted(old(usage), old(values)) && |values| < capacity
    {
      SizesAgree(usage, values);
      if |values| == capacity {
        Evict();
      }
    }

    method PushFront(key: string, result: PolicyResult, session: string)
      requires Valid() && key !in values && |values| < capacity
      modifies this
      ensures Valid() && values == old(values)[key := Value(result, session, old(next))]
      ensures usage == [Node(old(next), key)] + old(usage)
    {
      var node, value := Node(next, key), Value(result, session, next);
      hide DistinctNodes, Linked, ByRecency, Below;
      BelowNext(usage, values, used, next, tick);
      FrontKeepsSound(usage, values, used, next + 1, tick, node, value);
      usage, values, next := [node] + usage, values[key := value], next + 1;
      used, tick := used[key := tick], tick + 1;
      assert values.Keys == old(values).Keys + {key};
    }
  }

  lemma BelowNext(usage: seq<Node>, values: map<string, Value>, used: map<string, nat>, next: nat, tick: nat)
    requires Sound(usage, values, used, next, tick)
    ensures Sound(usage, values, used, next + 1, tick)
    ensures forall i :: 0 <= i < |usage| ==> usage[i].ref != next
  {
  }
}
