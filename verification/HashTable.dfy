/** The chained hash table whose nodes also sit on an iteration list with back references (MojHashBase). */
module HashTables {

  /** What an iterRef points at: the table's begin, or the iterNext of a node. */
  datatype Ref<V> = NoRef | ToBegin | ToNext(node: Node<V>)

  class Node<V> {
    const key: int
    var val: V
    var bucketNext: Node?<V>
    var iterNext: Node?<V>
    var iterRef: Ref<V>

    constructor (key: int, val: V)
      ensures this.key == key && this.val == val && bucketNext == null && iterNext == null && iterRef == NoRef
    {
      this.key, this.val := key, val;
      bucketNext, iterNext, iterRef := null, null, NoRef;
    }
  }

  const FILL_FACTOR: nat := 2
  const INITIAL_SIZE: nat := 8

  function At<V>(ns: seq<Node<V>>, i: nat): Node?<V> {
    if i < |ns| then ns[i] else null
  }

  function Before<V>(ns: seq<Node<V>>, i: nat): Ref<V>
    requires i <= |ns|
  {
    if i == 0 then ToBegin else ToNext(ns[i - 1])
  }

  function Without<V>(ns: seq<Node<V>>, i: nat): seq<Node<V>>
    requires i < |ns|
  {
    ns[..i] + ns[i + 1..]
  }

  ghost predicate Distinct<V>(ns: seq<Node<V>>) {
    forall i, j :: 0 <= i < j < |ns| ==> ns[i] != ns[j]
  }

  /** A bucket's chain. */
  ghost predicate Chain<V>(head: Node?<V>, ns: seq<Node<V>>)
    reads ns`bucketNext
  {
    head == At(ns, 0) && forall i {:trigger ns[i].bucketNext} :: 0 <= i < |ns| ==> ns[i].bucketNext == At(ns, i + 1)
  }

  /** The iteration list: next links forward, and each iterRef at the cell that holds its node. */
  ghost predicate Iter<V>(begin: Node?<V>, ns: seq<Node<V>>)
    reads ns`iterNext, ns`iterRef
  {
    && begin == At(ns, 0)
    && (forall i {:trigger ns[i].iterNext} :: 0 <= i < |ns| ==> ns[i].iterNext == At(ns, i + 1))
    && (forall i {:trigger ns[i].iterRef} :: 0 <= i < |ns| ==> ns[i].iterRef == Before(ns, i))
  }

  ghost function Members<V>(chains: seq<seq<Node<V>>>): (m: set<Node<V>>)
    ensures forall b, x :: 0 <= b < |chains| && x in chains[b] ==> x in m
  {
    set b, x | 0 <= b < |chains| && x in chains[b] :: x
  }

  lemma MembersAllocated<V>(chains: seq<seq<Node<V>>>)
    ensures forall x :: x in Members(chains) ==> allocated(x)
  {
  }

  function Slot(hash: int -> nat, key: int, n: nat): nat
    requires n > 0
  {
    hash(key) % n
  }

  /** Each node is in the chain of its own bucket, once, and in no other. */
  ghost predicate Placed<V>(order: seq<Node<V>>, chains: seq<seq<Node<V>>>, hash: int -> nat) {
    && (forall b :: 0 <= b < |chains| ==> Distinct(chains[b]))
    && (forall b, x :: 0 <= b < |chains| && x in chains[b] ==> x in order && Slot(hash, x.key, |chains|) == b)
    && (order != [] ==> |chains| > 0)
    && (forall x :: x in order && |chains| > 0 ==> x in chains[Slot(hash, x.key, |chains|)])
  }

  ghost predicate Keyed<V>(ns: seq<Node<V>>) {
    forall i, j :: 0 <= i < j < |ns| ==> ns[i].key != ns[j].key
  }

  /** The map the nodes stand for. */
  ghost function MapOf<V>(ns: seq<Node<V>>): map<int, V>
    reads ns`val
  {
    if ns == [] then map[] else MapOf(ns[1..])[ns[0].key := ns[0].val]
  }

  lemma MapOfCons<V>(node: Node<V>, ns: seq<Node<V>>)
    ensures MapOf([node] + ns) == MapOf(ns)[node.key := node.val]
  {
    assert ([node] + ns)[1..] == ns;
  }

  lemma {:induction false} MapKeys<V>(ns: seq<Node<V>>, key: int)
    ensures key in MapOf(ns) <==> exists i :: 0 <= i < |ns| && ns[i].key == key
  {
    if ns != [] {
      MapKeys(ns[1..], key);
      if exists i :: 0 <= i < |ns| && ns[i].key == key {
        var i :| 0 <= i < |ns| && ns[i].key == key;
        if i > 0 {
          assert ns[1..][i - 1].key == key;
        }
      }
    }
  }

  lemma {:induction false} MapAt<V>(ns: seq<Node<V>>, i: nat)
    requires Keyed(ns) && i < |ns|
    ensures ns[i].key in MapOf(ns) && MapOf(ns)[ns[i].key] == ns[i].val
  {
    if i > 0 {
      MapAt(ns[1..], i - 1);
    }
  }

  lemma {:induction false} MapWithout<V>(ns: seq<Node<V>>, i: nat)
    requires Keyed(ns) && i < |ns|
    ensures MapOf(Without(ns, i)) == MapOf(ns) - {ns[i].key}
  {
    if i == 0 {
      MapKeys(ns[1..], ns[0].key);
      assert Without(ns, 0) == ns[1..];
    } else {
      MapWithout(ns[1..], i - 1);
      assert Without(ns, i)[1..] == Without(ns[1..], i - 1);
    }
  }

  lemma PlacedInsert<V>(order: seq<Node<V>>, chains: seq<seq<Node<V>>>, hash: int -> nat, node: Node<V>)
    requires Placed(order, chains, hash) && node !in order && |chains| > 0
    ensures var b := Slot(hash, node.key, |chains|);
            node !in chains[b] && Placed([node] + order, chains[b := [node] + chains[b]], hash)
  {
    var b := Slot(hash, node.key, |chains|);
    var after := chains[b := [node] + chains[b]];
    forall c | 0 <= c < |after| ensures Distinct(after[c]) {
      assert Distinct(chains[c]);
    }
  }

  lemma PlacedNext<V>(order: seq<Node<V>>, k: nat, chains: seq<seq<Node<V>>>, hash: int -> nat)
    requires Distinct(order) && k < |order| && Placed(order[..k], chains, hash) && |chains| > 0
    ensures var node := order[k];
            var b := Slot(hash, node.key, |chains|);
            && (forall c :: 0 <= c < |chains| ==> node !in chains[c])
            && Placed(order[..k + 1], chains[b := [node] + chains[b]], hash)
  {
    var node := order[k];
    assert node !in order[..k];
    assert forall c :: 0 <= c < |chains| ==> node !in chains[c];
    PlacedInsert(order[..k], chains, hash, node);
    assert order[..k + 1] == order[..k] + [node];
    forall x ensures x in order[..k + 1] <==> x in [node] + order[..k] {}
  }

  lemma PlacedRemove<V>(order: seq<Node<V>>, i: nat, chains: seq<seq<Node<V>>>, hash: int -> nat, j: nat)
    requires Placed(order, chains, hash) && Distinct(order) && i < |order| && |chains| > 0
    requires var b := Slot(hash, order[i].key, |chains|); j < |chains[b]| && chains[b][j] == order[i]
    ensures var b := Slot(hash, order[i].key, |chains|);
            Placed(Without(order, i), chains[b := Without(chains[b], j)], hash)
  {
    var node := order[i];
    var b := Slot(hash, node.key, |chains|);
    var rest, chain := Without(order, i), Without(chains[b], j);
    var after := chains[b := chain];
    assert Distinct(chains[b]);
    forall k | 0 <= k < |chain| ensures chain[k] == chains[b][if k < j then k else k + 1] {}
    forall x ensures x in rest <==> x in order && x != node {
      RemovedHas(order, i, x);
    }
    forall x ensures x in chain <==> x in chains[b] && x != node {
      RemovedHas(chains[b], j, x);
    }
    forall c | 0 <= c < |after| ensures Distinct(after[c]) {
      assert Distinct(chains[c]);
    }
  }

  lemma WithoutAt<V>(ns: seq<Node<V>>, i: nat, k: nat)
    requires i < |ns| && k < |ns| - 1
    ensures Without(ns, i)[k] == ns[if k < i then k else k + 1]
  {
  }

  /** Position m is another node than position i and its neighbours, unless it is one of them. */
  lemma Apart<V>(ns: seq<Node<V>>, m: nat, i: nat)
    requires Distinct(ns) && m < |ns| && i < |ns|
    ensures m != i ==> ns[m] != ns[i]
    ensures i > 0 && m != i - 1 ==> ns[m] != ns[i - 1]
    ensures i + 1 < |ns| && m != i + 1 ==> ns[m] != ns[i + 1]
  {
  }

  lemma RemovedHas<V>(ns: seq<Node<V>>, i: nat, x: Node<V>)
    requires Distinct(ns) && i < |ns|
    ensures x in Without(ns, i) <==> x in ns && x != ns[i]
  {
    var rest := Without(ns, i);
    if x in ns && x != ns[i] {
      var k :| 0 <= k < |ns| && ns[k] == x;
      assert rest[if k < i then k else k - 1] == x;
    }
    forall k | 0 <= k < |rest| ensures rest[k] == ns[if k < i then k else k + 1] {}
  }

  class HashTable<V> {
    const hash: int -> nat
    var buckets: array<Node?<V>>
    var begin: Node?<V>
    var size: nat
    ghost var order: seq<Node<V>>
    ghost var chains: seq<seq<Node<V>>>

    /** The chains as they hang from the buckets. */
    ghost predicate Hung()
      reads this`buckets, this`chains, buckets, Members(chains)`bucketNext
    {
      |chains| == buckets.Length && forall b :: 0 <= b < |chains| ==> Chain(buckets[b], chains[b])
    }

    /** Everything but the load. */
    ghost predicate Sound()
      reads this, buckets, order, Members(chains)
    {
      Hung() && Iter(begin, order) && Placed(order, chains, hash) && Keyed(order) && size == |order|
    }

    ghost predicate Valid()
      reads this, buckets, order, Members(chains)
    {
      Sound() && size <= FILL_FACTOR * buckets.Length
    }

    ghost function Contents(): map<int, V>
      reads this, order
    {
      MapOf(order)
    }

    ghost function Nodes(): set<Node<V>>
      reads this
    {
      (set x | x in order) + Members(chains)
    }

    constructor (hash: int -> nat)
      ensures Valid() && Contents() == map[] && size == 0 && Nodes() == {} && this.hash == hash && fresh(buckets)
    {
      this.hash := hash;
      buckets := new Node?<V>[0];
      begin, size, order, chains := null, 0, [], [];
    }

    /** An empty table of so many buckets. */
    constructor WithBuckets(hash: int -> nat, n: nat)
      ensures Valid() && order == [] && Nodes() == {} && this.hash == hash && fresh(buckets) && buckets.Length == n
    {
      this.hash := hash;
      buckets := new Node?<V>[n](_ => null);
      begin, size, order, chains := null, 0, [], seq(n, _ => []);
    }

    /** `find`: the node with the key, searched in its bucket only. */
    method Find(key: int) returns (node: Node?<V>, ghost j: nat)
      requires Valid()
      ensures node != null <==> key in Contents()
      ensures node != null ==> node.key == key && node in order && Contents()[key] == node.val
      ensures node != null ==> buckets.Length > 0 && var b := Slot(hash, key, buckets.Length);
              j < |chains[b]| && chains[b][j] == node
    {
      MapKeys(order, key);
      node, j := null, 0;
      if size == 0 {
        return;
      }
      var idx := Slot(hash, key, buckets.Length);
      ghost var chain := chains[idx];
      node := buckets[idx];
      assert Chain(node, chain);
      while node != null
        invariant j <= |chain| && node == At(chain, j)
        invariant forall k :: 0 <= k < j ==> chain[k].key != key
        decreases |chain| - j
      {
        if node.key == key {
          ghost var i :| 0 <= i < |order| && order[i] == node;
          MapAt(order, i);
          return;
        }
        node := node.bucketNext;
        j := j + 1;
      }
      assert forall i :: 0 <= i < |order| && order[i].key == key ==> order[i] in chain;
    }

    /** `Bucket::insert`: at the head. */
    method BucketInsert(node: Node<V>, idx: nat)
      requires Hung() && idx < buckets.Length && node.bucketNext == null
      requires forall b :: 0 <= b < |chains| ==> node !in chains[b]
      modifies buckets, node`bucketNext, this`chains
      ensures chains == old(chains[idx := [node] + chains[idx]]) && Hung()
    {
      ghost var was := chains;
      ghost var chain := chains[idx];
      node.bucketNext := buckets[idx];
      buckets[idx] := node;
      chains := chains[idx := [node] + chain];
      forall b | 0 <= b < buckets.Length ensures Chain(buckets[b], chains[b]) {
        if b == idx {
          forall i | 0 <= i < |chains[b]| ensures chains[b][i].bucketNext == At(chains[b], i + 1) {
            if i > 0 {
              assert chains[b][i] == chain[i - 1];
            }
          }
        } else {
          assert chains[b] == was[b];
        }
      }
    }

    /** At the head of the iteration list. */
    method IterInsert(node: Node<V>)
      requires Iter(begin, order) && node !in order && Keyed(order)
      modifies this`begin, this`order, node`iterNext, node`iterRef, if begin == null then {} else {begin}`iterRef
      ensures order == old([node] + order) && Iter(begin, order)
    {
      if begin != null {
        begin.iterRef := ToNext(node);
      }
      node.iterNext := begin;
      node.iterRef := ToBegin;
      begin := node;
      order := [node] + order;
    }

    /** `Impl::put`. */
    method Insert(node: Node<V>, idx: nat)
      requires Sound() && buckets.Length > 0 && idx == Slot(hash, node.key, buckets.Length)
      requires node !in order && node.bucketNext == null && node.key !in Contents()
      modifies this, buckets, node`bucketNext, node`iterNext, node`iterRef,
               (if begin == null then {} else {begin})`iterRef
      ensures Sound() && order == [node] + old(order) && buckets == old(buckets)
      ensures Contents() == old(Contents())[node.key := node.val]
      ensures Members(chains) <= old(Members(chains)) + {node}
    {
      PlacedInsert(order, chains, hash, node);
      assert forall b :: 0 <= b < |chains| ==> node !in chains[b];
      BucketInsert(node, idx);
      JoinList(node);
    }

    /** On the iteration list, and counted. */
    method JoinList(node: Node<V>)
      requires Iter(begin, order) && Keyed(order) && size == |order| && node !in order && node.key !in Contents()
      modifies this`begin, this`order, this`size, node`iterNext, node`iterRef,
               (if begin == null then {} else {begin})`iterRef
      ensures Iter(begin, order) && Keyed(order) && size == |order| && order == [node] + old(order)
      ensures Contents() == old(Contents())[node.key := node.val]
    {
      MapKeys(order, node.key);
      MapOfCons(node, order);
      ghost var now := MapOf([node] + order);
      IterInsert(node);
      size := size + 1;
      assert MapOf(order) == now;
    }

    /** `realloc`: a new bucket array, and every node of the iteration list into its new bucket. */
    method Realloc(n: nat)
      requires Iter(begin, order) && Keyed(order) && size == |order| && n > 0
      modifies this`buckets, this`chains, order`bucketNext
      ensures Sound() && buckets.Length == n && fresh(buckets) && Members(chains) <= set x | x in order
    {
      KeyedIsDistinct(order);
      buckets := new Node?<V>[n](_ => null);
      chains := seq(n, _ => []);
      var node := begin;
      ghost var k := 0;
      while node != null
        invariant k <= |order| && node == At(order, k) && fresh(buckets) && buckets.Length == n
        invariant Iter(begin, order) && Hung() && Placed(order[..k], chains, hash)
        decreases |order| - k
      {
        Move(node, k);
        node := node.iterNext;
        k := k + 1;
      }
      assert order[..k] == order;
    }

    /** One node of the iteration list into its new bucket. */
    method Move(node: Node<V>, ghost k: nat)
      requires k < |order| && order[k] == node && Distinct(order) && Hung() && buckets.Length > 0 &&
               Placed(order[..k], chains, hash)
      modifies buckets, this`chains, node`bucketNext
      ensures Hung() && Placed(order[..k + 1], chains, hash)
    {
      PlacedNext(order, k, chains, hash);
      node.bucketNext := null;
      BucketInsert(node, Slot(hash, node.key, buckets.Length));
    }

    /** Room for one more: twice the buckets if the load would go over the fill factor. */
    method Grow(key: int, idx: nat) returns (at: nat)
      requires Valid() && (size > 0 ==> idx == Slot(hash, key, buckets.Length))
      modifies this`buckets, this`chains, order`bucketNext
      ensures Contents() == old(Contents())
      ensures Sound() && size < FILL_FACTOR * buckets.Length && at == Slot(hash, key, buckets.Length)
      ensures (buckets == old(buckets) && chains == old(chains)) ||
              (fresh(buckets) && Members(chains) <= set x | x in order)
    {
      at := idx;
      var numBuckets := if size == 0 then 0 else buckets.Length;
      if size >= numBuckets * FILL_FACTOR {
        Realloc(if INITIAL_SIZE > numBuckets * 2 then INITIAL_SIZE else numBuckets * 2);
        at := Slot(hash, key, buckets.Length);
      }
    }

    /** `put` of a key that is not there; `idx` is the bucket `find` came to, which stands unless the table grows. */
    method Put(key: int, val: V, idx: nat)
      requires Valid() && key !in Contents() && (size > 0 ==> idx == Slot(hash, key, buckets.Length))
      modifies this, buckets, Nodes()`bucketNext, Nodes()`iterNext, Nodes()`iterRef
      ensures Valid() && Contents() == old(Contents())[key := val] && size == old(size) + 1
      ensures buckets == old(buckets) || fresh(buckets)
      ensures forall x :: x in Nodes() ==> x in old(Nodes()) || fresh(x)
    {
      MembersAllocated(chains);
      var at := Grow(key, idx);
      MembersAllocated(chains);
      var node := new Node(key, val);
      Insert(node, at);
    }

    /** `MojHashMap::put`: the value of a key that is there is replaced in its node. */
    method Set(key: int, val: V)
      requires Valid()
      modifies this, buckets, Nodes()
      ensures Valid() && Contents() == old(Contents())[key := val]
      ensures size == old(size) + if key in old(Contents()) then 0 else 1
      ensures buckets == old(buckets) || fresh(buckets)
      ensures forall x :: x in Nodes() ==> x in old(Nodes()) || fresh(x)
    {
      var node;
      ghost var j;
      node, j := Find(key);
      if node == null {
        Put(key, val, if size == 0 then 0 else Slot(hash, key, buckets.Length));
      } else {
        Assign(node, val);
      }
    }

    method Assign(node: Node<V>, val: V)
      requires node in order && Keyed(order)
      modifies node`val
      ensures Contents() == old(Contents())[node.key := val]
    {
      ghost var was := Contents();
      forall i | 0 <= i < |order| ensures order[i].key in was && was[order[i].key] == order[i].val { MapAt(order, i); }
      forall key ensures key in was ==> exists i :: 0 <= i < |order| && order[i].key == key { MapKeys(order, key); }
      node.val := val;
      forall i | 0 <= i < |order| ensures order[i].key in Contents() && Contents()[order[i].key] == order[i].val {
        MapAt(order, i);
      }
      forall key ensures key in Contents() ==> exists i :: 0 <= i < |order| && order[i].key == key {
        MapKeys(order, key);
      }
    }

    /** `Bucket::remove`: along the cells that hold the chain. */
    method BucketRemove(node: Node<V>, idx: nat, ghost j: nat)
      requires Hung() && idx < buckets.Length && j < |chains[idx]| && chains[idx][j] == node && Distinct(chains[idx])
      requires forall b, x :: 0 <= b < |chains| && b != idx && x in chains[b] ==> x !in chains[idx]
      modifies buckets, this`chains, chains[idx]`bucketNext
      ensures chains == old(chains[idx := Without(chains[idx], j)]) && Hung()
    {
      ghost var was: seq<seq<Node<V>>> := chains;
      ghost var chain: seq<Node<V>>, k := chains[idx], 0;
      var prev: Node?<V> := null;
      var cell := buckets[idx];
      assert Chain(buckets[idx], chain);
      while cell != node
        invariant k <= j && cell == At(chain, k) && prev == if k == 0 then null else chain[k - 1]
        decreases j - k
      {
        prev := cell;
        cell := cell.bucketNext;
        k := k + 1;
      }
      if prev == null {
        buckets[idx] := node.bucketNext;
      } else {
        prev.bucketNext := node.bucketNext;
      }
      node.bucketNext := null;
      ghost var rest := Without(chain, j);
      chains := chains[idx := rest];
      forall b | 0 <= b < buckets.Length ensures Chain(buckets[b], chains[b]) {
        if b == idx {
          forall i | 0 <= i < |rest| ensures rest[i] == chain[if i < j then i else i + 1] {}
          forall i | 0 <= i < |rest| ensures rest[i].bucketNext == At(rest, i + 1) {}
        } else {
          forall i | 0 <= i < |was[b]| ensures was[b][i].bucketNext == At(was[b], i + 1) {
            assert was[b][i] in was[b] && was[b][i] !in chain;
            assert node in chain && (prev != null ==> prev in chain);
          }
        }
      }
    }

    /** Off the iteration list: the cell its iterRef addresses takes its successor. */
    method IterRemove(node: Node<V>, ghost i: nat)
      requires Iter(begin, order) && Distinct(order) && i < |order| && order[i] == node
      modifies this`begin, this`order, order`iterNext, order`iterRef
      ensures order == Without(old(order), i) && Iter(begin, order)
    {
      ghost var was := order;
      var next := node.iterNext;
      match node.iterRef {
        case ToBegin => begin := next;
        case ToNext(prev) => prev.iterNext := next;
        case NoRef => assert false;
      }
      if next != null {
        next.iterRef := node.iterRef;
      }
      order := Without(order, i);
      forall k | 0 <= k < |order|
        ensures order[k].iterNext == At(order, k + 1) && order[k].iterRef == Before(order, k)
      {
        WithoutAt(was, i, k);
        if k + 1 < |order| {
          WithoutAt(was, i, k + 1);
        }
        if k > 0 {
          WithoutAt(was, i, k - 1);
        }
        Apart(was, if k < i then k else k + 1, i);
      }
      if |order| > 0 {
        WithoutAt(was, i, 0);
      }
    }

    /** `del`. */
    method Del(key: int) returns (found: bool)
      requires Valid()
      modifies this, buckets, Nodes()`bucketNext, Nodes()`iterNext, Nodes()`iterRef
      ensures Valid() && Contents() == old(Contents()) - {key} && (found <==> key in old(Contents()))
      ensures Nodes() <= old(Nodes())
      ensures size == old(size) - (if found then 1 else 0) && buckets == old(buckets)
    {
      var node;
      ghost var j;
      node, j := Find(key);
      found := node != null;
      if node != null {
        var idx := Slot(hash, key, buckets.Length);
        ghost var i :| 0 <= i < |order| && order[i] == node;
        Unlink(node, idx, i, j);
      }
    }

    /** Out of its bucket and off the list. */
    method Unlink(node: Node<V>, idx: nat, ghost i: nat, ghost j: nat)
      requires Sound() && i < |order| && order[i] == node && idx < buckets.Length &&
               idx == Slot(hash, node.key, buckets.Length)
      requires j < |chains[idx]| && chains[idx][j] == node
      modifies this, buckets, Nodes()`bucketNext, Nodes()`iterNext, Nodes()`iterRef
      ensures Nodes() <= old(Nodes())
      ensures Sound() && Contents() == old(Contents()) - {node.key} && size == old(size) - 1 && buckets == old(buckets)
    {
      hide Chain, Iter, Keyed, Distinct, MapOf;
      LeaveBucket(node, idx, i, j);
      LeaveList(node, i);
    }

    /** On the iteration list still, but in no bucket. */
    ghost predicate Leaving(i: nat)
      reads this, buckets, order, Members(chains)
    {
      && Hung() && Iter(begin, order) && Keyed(order) && size == |order|
      && i < |order| && Placed(Without(order, i), chains, hash)
    }

    method LeaveBucket(node: Node<V>, idx: nat, ghost i: nat, ghost j: nat)
      requires Sound() && i < |order| && order[i] == node && idx < buckets.Length &&
               idx == Slot(hash, node.key, buckets.Length)
      requires j < |chains[idx]| && chains[idx][j] == node
      modifies buckets, this`chains, chains[idx]`bucketNext
      ensures Leaving(i) && Members(chains) <= old(Members(chains))
    {
      KeyedIsDistinct(order);
      PlacedRemove(order, i, chains, hash, j);
      BucketsApart(idx);
      BucketRemove(node, idx, j);
    }

    method LeaveList(node: Node<V>, ghost i: nat)
      requires Leaving(i) && order[i] == node
      modifies this`begin, this`order, this`size, order`iterNext, order`iterRef
      ensures Sound() && order == old(Without(order, i)) && size == old(size) - 1
      ensures Contents() == old(Contents()) - {node.key}
    {
      MapWithout(order, i);
      ghost var rest := MapOf(Without(order, i));
      KeyedIsDistinct(order);
      KeyedWithout(order, i);
      MembersAllocated(chains);
      IterRemove(node, i);
      size := size - 1;
      assert MapOf(order) == rest;
    }

    /** `clone`: as many buckets, and a node of its own for every entry. */
    method Clone() returns (copy: HashTable<V>)
      requires Valid()
      ensures copy.Valid() && fresh(copy) && copy.Contents() == Contents() && copy.size == size
      ensures copy.buckets.Length == buckets.Length && fresh(copy.buckets) && forall x :: x in copy.Nodes() ==> fresh(x)
      ensures copy.hash == hash
    {
      MembersAllocated(chains);
      copy := new HashTable<V>.WithBuckets(hash, buckets.Length);
      CloneNodes(copy);
    }

    /** The nodes of `clone`. */
    method CloneNodes(copy: HashTable<V>)
      requires Iter(begin, order) && Keyed(order) && copy != this
      requires copy.Sound() && copy.order == [] && copy.Nodes() == {} && (order != [] ==> copy.buckets.Length > 0)
      modifies copy, copy.buckets
      ensures copy.Sound() && copy.Contents() == Contents() && copy.size == |order| && copy.buckets == old(copy.buckets)
      ensures forall x :: x in copy.Nodes() ==> fresh(x)
    {
      var node := begin;
      ghost var k := 0;
      while node != null
        invariant k <= |order| && node == At(order, k) && copy.Sound() && copy.size == k &&
                  copy.Contents() == MapOf(order[..k])
        invariant copy.buckets == old(copy.buckets) && forall x :: x in copy.Nodes() ==> fresh(x)
        decreases |order| - k
      {
        CloneNext(copy, node, k);
        node := node.iterNext;
        k := k + 1;
      }
      assert order[..k] == order;
    }

    method CloneNext(copy: HashTable<V>, node: Node<V>, ghost k: nat)
      requires k < |order| && node == order[k] && Keyed(order) && copy != this
      requires copy.Sound() && copy.buckets.Length > 0 && copy.Contents() == MapOf(order[..k])
      modifies copy, copy.buckets, copy.Nodes()`iterRef
      ensures copy.Sound() && copy.buckets == old(copy.buckets) && copy.size == old(copy.size) + 1
      ensures copy.Contents() == MapOf(order[..k + 1])
      ensures forall x :: x in copy.Nodes() ==> x in old(copy.Nodes()) || fresh(x)
    {
      MapNext(order, k);
      copy.PutClone(node.key, node.val);
    }

    /** One more entry of another table, in a node of its own. */
    method PutClone(key: int, val: V)
      requires Sound() && buckets.Length > 0 && key !in Contents()
      modifies this, buckets, Nodes()`iterRef
      ensures Sound() && buckets == old(buckets) && size == old(size) + 1
      ensures Contents() == old(Contents())[key := val]
      ensures forall x :: x in Nodes() ==> x in old(Nodes()) || fresh(x)
    {
      MembersAllocated(chains);
      var newNode := new Node(key, val);
      Insert(newNode, Slot(hash, key, buckets.Length));
    }

    /** Every entry looked up in the other table. */
    method Within(rhs: HashTable<V>, same: (V, V) -> bool) returns (r: bool)
      requires Iter(begin, order) && rhs.Valid() && forall v, w :: same(v, w) <==> v == w
      ensures r <==> forall i :: 0 <= i < |order| ==>
                order[i].key in rhs.Contents() && rhs.Contents()[order[i].key] == order[i].val
    {
      var node := begin;
      ghost var k := 0;
      while node != null
        invariant k <= |order| && node == At(order, k)
        invariant forall i :: 0 <= i < k ==>
                    order[i].key in rhs.Contents() && rhs.Contents()[order[i].key] == order[i].val
        decreases |order| - k
      {
        ghost var theirs := rhs.Contents();
        var rhsNode;
        ghost var j;
        assert forall x :: x in rhs.order ==> allocated(x);
        rhsNode, j := rhs.Find(node.key);
        assert rhs.Contents() == theirs && order[k] == node;
        if rhsNode == null || !same(node.val, rhsNode.val) {
          return false;
        }
        node := node.iterNext;
        k := k + 1;
      }
      r := true;
    }

    /** `equals`: sizes first, then the entries. */
    method Equals(rhs: HashTable<V>, same: (V, V) -> bool) returns (r: bool)
      requires Valid() && rhs.Valid() && forall v, w :: same(v, w) <==> v == w
      ensures r <==> Contents() == rhs.Contents()
    {
      MapSize(order);
      MapSize(rhs.order);
      if size != rhs.size {
        return false;
      }
      r := Within(rhs, same);
      SubmapOfSameSize(order, rhs.Contents());
    }

    lemma BucketsApart(idx: nat)
      requires Placed(order, chains, hash) && idx < |chains|
      ensures Distinct(chains[idx])
      ensures forall b, x :: 0 <= b < |chains| && b != idx && x in chains[b] ==> x !in chains[idx]
    {
      forall b, x | 0 <= b < |chains| && b != idx && x in chains[b] ensures x !in chains[idx] {
        assert Slot(hash, x.key, |chains|) == b;
      }
    }
  }

  lemma KeyedIsDistinct<V>(ns: seq<Node<V>>)
    requires Keyed(ns)
    ensures Distinct(ns)
  {
  }

  lemma KeyedWithout<V>(ns: seq<Node<V>>, i: nat)
    requires Keyed(ns) && i < |ns|
    ensures Keyed(Without(ns, i))
  {
    var rest := Without(ns, i);
    forall k | 0 <= k < |rest| ensures rest[k] == ns[if k < i then k else k + 1] {}
  }

  lemma {:induction false} MapNext<V>(ns: seq<Node<V>>, k: nat)
    requires Keyed(ns) && k < |ns|
    ensures ns[k].key !in MapOf(ns[..k]) && MapOf(ns[..k + 1]) == MapOf(ns[..k])[ns[k].key := ns[k].val]
  {
    MapKeys(ns[..k], ns[k].key);
    if k == 0 {
      assert ns[..1][1..] == [] && ns[..0] == [];
    } else {
      assert ns[..k + 1][1..] == ns[1..][..k] && ns[..k][1..] == ns[1..][..k - 1];
      MapNext(ns[1..], k - 1);
    }
  }

  lemma {:induction false} MapSize<V>(ns: seq<Node<V>>)
    requires Keyed(ns)
    ensures |MapOf(ns)| == |ns|
  {
    if ns != [] {
      MapSize(ns[1..]);
      MapKeys(ns[1..], ns[0].key);
      assert MapOf(ns).Keys == MapOf(ns[1..]).Keys + {ns[0].key};
    }
  }

  /** A map with no more entries is the same map exactly if it has all the entries. */
  lemma SubmapOfSameSize<V>(ns: seq<Node<V>>, m: map<int, V>)
    requires Keyed(ns) && |m| == |ns|
    ensures MapOf(ns) == m <==> forall i :: 0 <= i < |ns| ==> ns[i].key in m && m[ns[i].key] == ns[i].val
  {
    MapSize(ns);
    forall i | 0 <= i < |ns| ensures ns[i].key in MapOf(ns) && MapOf(ns)[ns[i].key] == ns[i].val {
      MapAt(ns, i);
    }
    if forall i :: 0 <= i < |ns| ==> ns[i].key in m && m[ns[i].key] == ns[i].val {
      forall key | key in MapOf(ns) ensures key in m && m[key] == MapOf(ns)[key] {
        MapKeys(ns, key);
        var i :| 0 <= i < |ns| && ns[i].key == key;
      }
      SameKeys(MapOf(ns).Keys, m.Keys);
    }
  }

  lemma SameKeys(a: set<int>, b: set<int>)
    requires a <= b && |a| == |b|
    ensures a == b
  {
    assert b == a + (b - a);
    assert |a + (b - a)| == |a| + |b - a|;
    assert b - a == {};
  }

  // ----- whole runs -----

  /** A call a client can make. */
  datatype Op<V> = SetOp(key: int, val: V) | DelOp(key: int) | CloneOp

  function Done<V>(m: map<int, V>, op: Op<V>): map<int, V> {
    match op
    case SetOp(key, val) => m[key := val]
    case DelOp(key) => m - {key}
    case CloneOp => m
  }

  /** What a finite map holds after the calls. */
  function Replay<V>(ops: seq<Op<V>>): map<int, V> {
    if ops == [] then map[] else Done(Replay(ops[..|ops| - 1]), ops[|ops| - 1])
  }

  lemma ReplayNext<V>(ops: seq<Op<V>>, i: nat)
    requires i < |ops|
    ensures Replay(ops[..i + 1]) == Done(Replay(ops[..i]), ops[i])
  {
    assert ops[..i + 1][..i] == ops[..i];
  }

  /** One call on a table; a table that was cloned is gone on with as the copy. */
  method Call<V>(t: HashTable<V>, op: Op<V>) returns (u: HashTable<V>)
    requires t.Valid()
    modifies t, t.buckets, t.Nodes()
    ensures u.Valid() && u.Contents() == Done(old(t.Contents()), op) && (u == t || fresh(u))
    ensures u.buckets == old(t.buckets) || fresh(u.buckets)
    ensures forall x :: x in u.Nodes() ==> x in old(t.Nodes()) || fresh(x)
  {
    u := t;
    match op {
      case SetOp(key, val) => t.Set(key, val);
      case DelOp(key) => var found := t.Del(key);
      case CloneOp => u := t.Clone();
    }
  }

  /** Any run of calls on a new table leaves it sound, its load within the bound, and holding what a map would hold. */
  method Run<V>(hash: int -> nat, ops: seq<Op<V>>) returns (t: HashTable<V>)
    ensures t.Valid() && t.Contents() == Replay(ops)
  {
    t := new HashTable<V>(hash);
    var i := 0;
    while i < |ops|
      invariant i <= |ops| && t.Valid() && t.Contents() == Replay(ops[..i])
      invariant fresh(t) && fresh(t.buckets) && forall x :: x in t.Nodes() ==> fresh(x)
    {
      ReplayNext(ops, i);
      t := Call(t, ops[i]);
      i := i + 1;
    }
    assert ops[..i] == ops;
  }
}
