/** Walking a red-black tree over its parent links, and what is built on the walk. */
module RbWalk {
  import opened RbNodes
  import opened RbInsert
  import opened RbTrees

  // ----- positions in a finished tree -----

  /** The node above, none above the root; the head a context starts from plays no part here. */
  function Over<V>(c: Ctx<V>): Node?<V> {
    if c.Top? then null else c.n
  }

  ghost function WayNodes<V>(c: Ctx<V>): set<Node<V>> {
    if c.Top? then {} else {c.n} + Nodes(c.sib) + WayNodes(c.up)
  }

  ghost predicate Way<V>(c: Ctx<V>, hole: Node?<V>)
    reads WayNodes(c)
  {
    match c
    case Top(_) => true
    case Frame(up, n, red, dir, sib) =>
      && n.Child(dir) == hole && n.Child(!dir) == Root(sib) && n.red == red && n.parent == Over(up)
      && n !in Nodes(sib) && n !in WayNodes(up) && Nodes(sib) !! WayNodes(up)
      && Rep(sib, n) && Way(up, n)
  }

  /** `node` is where the way `c` leads, with the subtree `t` below it. */
  ghost predicate At<V>(c: Ctx<V>, t: Tree<V>, node: Node<V>)
    reads WayNodes(c), Nodes(t)
  {
    t.Br? && t.n == node && Rep(t, Over(c)) && Way(c, node) && Nodes(t) !! WayNodes(c)
  }

  /** The position of that node in the sorted order. */
  ghost function Rank<V>(c: Ctx<V>, t: Tree<V>): nat
    requires t.Br?
  {
    |Before(c)| + |InOrder(t.l)|
  }

  lemma RankIsPosition<V>(c: Ctx<V>, t: Tree<V>)
    requires t.Br?
    ensures Rank(c, t) < |Full(c, t)| && Full(c, t)[Rank(c, t)] == t.n
    ensures |Full(c, t)| == Rank(c, t) + 1 + |InOrder(t.r)| + |After(c)|
  {
    assert Full(c, t) == (Before(c) + InOrder(t.l)) + [t.n] + (InOrder(t.r) + After(c));
  }

  lemma AroundNode<V>(c: Ctx<V>, t: Tree<V>)
    requires t.Br?
    ensures Rank(c, t) < |Full(c, t)|
    ensures t.r.Leaf? ==> Full(c, t)[Rank(c, t) + 1..] == After(c)
    ensures t.l.Leaf? ==> Full(c, t)[..Rank(c, t)] == Before(c)
  {
    var l, r := Before(c) + InOrder(t.l), InOrder(t.r) + After(c);
    assert Full(c, t) == l + [t.n] + r;
    assert (l + [t.n] + r)[|l| + 1..] == r && (l + [t.n] + r)[..|l|] == l;
  }

  lemma GoDown<V>(c: Ctx<V>, t: Tree<V>, d: Dir)
    requires t.Br? && At(c, t, t.n) && Kid(t, d).Br?
    ensures At(Frame(c, t.n, t.red, d, Kid(t, !d)), Kid(t, d), Kid(t, d).n)
    ensures Full(Frame(c, t.n, t.red, d, Kid(t, !d)), Kid(t, d)) == Full(c, t)
    ensures WayNodes(Frame(c, t.n, t.red, d, Kid(t, !d))) + Nodes(Kid(t, d)) == WayNodes(c) + Nodes(t)
  {
    FullUp(c, t.n, t.red, d, Kid(t, !d), Kid(t, d));
  }

  lemma GoUp<V>(c: Ctx<V>, t: Tree<V>)
    requires t.Br? && c.Frame? && At(c, t, t.n)
    ensures At(c.up, Make(c.n, c.red, c.dir, t, c.sib), c.n)
    ensures Full(c.up, Make(c.n, c.red, c.dir, t, c.sib)) == Full(c, t)
    ensures WayNodes(c.up) + Nodes(Make(c.n, c.red, c.dir, t, c.sib)) == WayNodes(c) + Nodes(t)
  {
    FullUp(c.up, c.n, c.red, c.dir, c.sib, t);
    var m := Make(c.n, c.red, c.dir, t, c.sib);
    assert Nodes(m) == {c.n} + Nodes(t) + Nodes(c.sib) by {
      if c.dir {
      } else {
      }
    }
    assert Rep(t, c.n) && Rep(c.sib, c.n) && RepBelow(m);
  }

  /** As far as possible to one side. */
  method Extreme<V>(start: Node<V>, d: Dir, ghost c0: Ctx<V>, ghost t0: Tree<V>)
    returns (node: Node<V>, ghost c: Ctx<V>, ghost t: Tree<V>)
    requires At(c0, t0, start)
    ensures At(c, t, node) && Full(c, t) == Full(c0, t0)
    ensures WayNodes(c) + Nodes(t) == WayNodes(c0) + Nodes(t0)
    ensures d ==> Rank(c, t) == |Before(c0)| + |InOrder(t0)| - 1
    ensures !d ==> Rank(c, t) == |Before(c0)|
  {
    node, c, t := start, c0, t0;
    while node.Child(d) != null
      invariant At(c, t, node) && Full(c, t) == Full(c0, t0)
      invariant WayNodes(c) + Nodes(t) == WayNodes(c0) + Nodes(t0)
      invariant d ==> |Before(c)| + |InOrder(t)| == |Before(c0)| + |InOrder(t0)|
      invariant !d ==> |Before(c)| == |Before(c0)|
      decreases t
    {
      GoDown(c, t, d);
      node := node.Child(d);
      c, t := Frame(c, t.n, t.red, d, Kid(t, !d)), Kid(t, d);
    }
  }

  /** Where an iterator is: somewhere in a tree, or past its end. */
  datatype Place<V> = Nowhere | There(c: Ctx<V>, t: Tree<V>)

  ghost function PlaceNodes<V>(pl: Place<V>): set<Node<V>> {
    if pl.There? then WayNodes(pl.c) + Nodes(pl.t) else {}
  }

  /** `node` is entry `i` of the order; null is one past either end. */
  ghost predicate On<V>(pl: Place<V>, node: Node?<V>, order: seq<Node<V>>, i: int)
    reads PlaceNodes(pl)
  {
    if node == null then i == -1 || i == |order|
    else
      && pl.There? && At(pl.c, pl.t, node)
      && Full(pl.c, pl.t) == order && Rank(pl.c, pl.t) == i && i < |order| && order[i] == node
  }

  lemma PlaceAllocated<V>(pl: Place<V>)
    ensures forall n :: n in PlaceNodes(pl) ==> allocated(n)
  {
    if pl.There? {
      WayAllocated(pl.c);
      NodesAllocated(pl.t);
    }
  }

  lemma {:induction false} WayAllocated<V>(c: Ctx<V>)
    ensures forall n :: n in WayNodes(c) ==> allocated(n)
  {
    if c.Frame? {
      NodesAllocated(c.sib);
      WayAllocated(c.up);
    }
  }

  /** `Node::next`: the neighbour in the order on side d, over the parent links if need be. */
  method Next<V>(start: Node<V>, d: Dir, ghost pl0: Place<V>, ghost order: seq<Node<V>>, ghost i: int)
    returns (node: Node?<V>, ghost pl: Place<V>)
    requires On(pl0, start, order, i)
    ensures On(pl, node, order, if d then i + 1 else i - 1) && PlaceNodes(pl) == PlaceNodes(pl0)
  {
    ghost var c, t := pl0.c, pl0.t;
    RankIsPosition(c, t);
    if start.Child(d) != null {
      GoDown(c, t, d);
      c, t := Frame(c, t.n, t.red, d, Kid(t, !d)), Kid(t, d);
      node, c, t := Extreme(start.Child(d), !d, c, t);
    } else {
      var last: Node<V> := start;
      node := start.parent;
      while node != null && last == node.Child(d)
        invariant At(c, t, last) && node == Over(c) && Full(c, t) == order
        invariant WayNodes(c) + Nodes(t) == PlaceNodes(pl0)
        invariant if d then |After(c)| == |order| - i - 1 else |Before(c)| == i
        decreases c
      {
        assert c.dir == d;
        last := node;
        node := node.parent;
        GoUp(c, t);
        c, t := c.up, Make(c.n, c.red, c.dir, t, c.sib);
      }
      if node != null {
        GoUp(c, t);
        c, t := c.up, Make(c.n, c.red, c.dir, t, c.sib);
      }
    }
    RankIsPosition(c, t);
    pl := There(c, t);
  }

  /** The first position of a tree, if it has one. */
  method Begin<V>(root: Node?<V>, ghost tree: Tree<V>) returns (node: Node?<V>, ghost pl: Place<V>)
    requires WellFormed(root, tree)
    ensures On(pl, node, InOrder(tree), 0) && PlaceNodes(pl) == Nodes(tree)
  {
    if root == null {
      return null, Nowhere;
    }
    ghost var c, t;
    node, c, t := Extreme(root, false, Top(root), tree);
    RankIsPosition(c, t);
    pl := There(c, t);
  }

  // ----- searching -----

  /** `search`: the node with the key, or the last one on the way to where it would be. */
  method Search<V>(root: Node<V>, key: int, ghost tree: Tree<V>)
    returns (node: Node<V>, ghost pl: Place<V>, ghost i: int)
    requires WellFormed(root, tree)
    ensures On(pl, node, InOrder(tree), i)
    ensures node.key < key ==> AllAbove(InOrder(tree)[i + 1..], key)
    ensures node.key > key ==> AllBelow(InOrder(tree)[..i], key)
  {
    ghost var order, c, t := InOrder(tree), Top(root), tree;
    node := root;
    while true
      invariant At(c, t, node) && Searching(c, t, key, order)
      decreases t
    {
      if node.key == key {
        break;
      }
      var d := node.key < key;
      if node.Child(d) == null {
        break;
      }
      if d {
        DescendRight(c, t, key);
      } else {
        DescendLeft(c, t, key);
      }
      GoDown(c, t, d);
      node := node.Child(d);
      c, t := Frame(c, t.n, t.red, d, Kid(t, !d)), Kid(t, d);
    }
    RankIsPosition(c, t);
    pl, i := There(c, t), Rank(c, t);
    AroundNode(c, t);
  }

  /** `find`. */
  method Find<V>(tree: RbTree<V>, key: int) returns (node: Node?<V>)
    requires tree.Valid()
    ensures node != null <==> key in tree.Contents()
    ensures node != null ==> node.key == key && tree.Contents()[key] == node.val
  {
    if tree.root == null {
      return null;
    }
    ghost var order := InOrder(tree.tree);
    var at;
    ghost var pl, i;
    at, pl, i := Search(tree.root, key, tree.tree);
    node := if at.key == key then at else null;
    MapOfEntry(order, i);
    NoOtherEntry(order, i, key);
  }

  /** A key that is below all entries after i and above all before is at i or nowhere. */
  lemma NoOtherEntry<V>(order: seq<Node<V>>, i: int, key: int)
    requires Sorted(order) && 0 <= i < |order|
    requires order[i].key < key ==> AllAbove(order[i + 1..], key)
    requires order[i].key > key ==> AllBelow(order[..i], key)
    ensures key in MapOf(order) ==> order[i].key == key
  {
    if order[i].key < key {
      AboveFrom(order, i + 1, key);
    } else if order[i].key > key {
      BelowTo(order, i, key);
    }
    if key in MapOf(order) {
      var j := MapOfIndex(order, key);
    }
  }

  lemma {:induction false} MapOfEntry<V>(ns: seq<Node<V>>, i: int)
    requires Sorted(ns) && 0 <= i < |ns|
    ensures ns[i].key in MapOf(ns) && MapOf(ns)[ns[i].key] == ns[i].val
  {
    if i > 0 {
      MapOfEntry(ns[1..], i - 1);
    } else {
      MapOfBounds(ns[1..], ns[0].key);
    }
  }

  lemma {:induction false} MapOfIndex<V>(ns: seq<Node<V>>, key: int) returns (i: int)
    requires key in MapOf(ns)
    ensures 0 <= i < |ns| && ns[i].key == key
  {
    if ns[0].key == key {
      i := 0;
    } else {
      i := MapOfIndex(ns[1..], key);
      i := i + 1;
    }
  }

  lemma AboveFrom<V>(ns: seq<Node<V>>, i: nat, key: int)
    requires i <= |ns| && AllAbove(ns[i..], key)
    ensures forall j :: i <= j < |ns| ==> ns[j].key > key
  {
    forall j | i <= j < |ns| ensures ns[j].key > key {
      assert ns[j] == ns[i..][j - i];
    }
  }

  lemma BelowTo<V>(ns: seq<Node<V>>, i: nat, key: int)
    requires i <= |ns| && AllBelow(ns[..i], key)
    ensures forall j :: 0 <= j < i ==> ns[j].key < key
  {
    forall j | 0 <= j < i ensures ns[j].key < key {
      assert ns[j] == ns[..i][j];
    }
  }

  /** The first entry not below the key. */
  method LowerBound<V>(tree: RbTree<V>, key: int) returns (node: Node?<V>, ghost pl: Place<V>, ghost i: nat)
    requires tree.Valid()
    ensures On(pl, node, InOrder(tree.tree), i) && i <= |InOrder(tree.tree)|
    ensures AllBelow(InOrder(tree.tree)[..i], key)
    ensures forall j :: i <= j < |InOrder(tree.tree)| ==> InOrder(tree.tree)[j].key >= key
  {
    ghost var order := InOrder(tree.tree);
    if tree.root == null {
      return null, Nowhere, 0;
    }
    ghost var k;
    node, pl, k := Search(tree.root, key, tree.tree);
    if node.key < key {
      i := k + 1;
      AboveFrom(order, i, key);
      node, pl := Next(node, true, pl, order, k);
    } else {
      i := k;
    }
  }

  /** The first entry above the key. */
  method UpperBound<V>(tree: RbTree<V>, key: int) returns (node: Node?<V>, ghost pl: Place<V>, ghost i: nat)
    requires tree.Valid()
    ensures On(pl, node, InOrder(tree.tree), i) && i <= |InOrder(tree.tree)|
    ensures forall j :: 0 <= j < i ==> InOrder(tree.tree)[j].key <= key
    ensures AllAbove(InOrder(tree.tree)[i..], key)
  {
    ghost var order := InOrder(tree.tree);
    if tree.root == null {
      return null, Nowhere, 0;
    }
    ghost var k;
    node, pl, k := Search(tree.root, key, tree.tree);
    if node.key > key {
      i := k;
      BelowTo(order, i, key);
    } else {
      i := k + 1;
      node, pl := Next(node, true, pl, order, k);
    }
  }

  // ----- comparing -----

  /** `compareFull`: key first, then value. */
  function CompareFull<V>(m: Node<V>, n: Node<V>, comp: (V, V) -> int): int {
    if m.key < n.key then -1 else if m.key > n.key then 1 else comp(m.val, n.val)
  }

  /** Lexicographic comparison of entry lists. */
  ghost function EntryOrder<V>(a: seq<Node<V>>, b: seq<Node<V>>, comp: (V, V) -> int): int {
    if a == [] then (if b == [] then 0 else -1)
    else if b == [] then 1
    else if CompareFull(a[0], b[0], comp) != 0 then CompareFull(a[0], b[0], comp)
    else EntryOrder(a[1..], b[1..], comp)
  }

  /** The lists hold the same keys and equal values up to here. */
  ghost predicate Agree<V>(a: seq<Node<V>>, b: seq<Node<V>>, i: nat, comp: (V, V) -> int) {
    && i <= |a| && i <= |b|
    && forall j :: 0 <= j < i ==> a[j].key == b[j].key && comp(a[j].val, b[j].val) == 0
  }

  /** The order of lists that agree up to here, as far as it shows here. */
  ghost predicate DecidedAt<V>(r: int, a: seq<Node<V>>, b: seq<Node<V>>, i: nat, comp: (V, V) -> int)
    requires i <= |a| && i <= |b|
  {
    if i == |a| then (if i == |b| then r == 0 else r < 0)
    else if i == |b| then r > 0
    else if a[i].key != b[i].key then (if a[i].key < b[i].key then r < 0 else r > 0)
    else comp(a[i].val, b[i].val) != 0 ==> r == comp(a[i].val, b[i].val)
  }

  /** The first difference decides; a proper beginning is smaller. */
  lemma {:induction false} FirstDifferenceDecides<V>(a: seq<Node<V>>, b: seq<Node<V>>, i: nat, comp: (V, V) -> int)
    requires Agree(a, b, i, comp)
    ensures DecidedAt(EntryOrder(a, b, comp), a, b, i, comp)
  {
    if i > 0 {
      assert a[0].key == b[0].key;
      FirstDifferenceDecides(a[1..], b[1..], i - 1, comp);
    }
  }

  /** `compare` walks both trees in step. */
  method Compare<V>(a: RbTree<V>, b: RbTree<V>, comp: (V, V) -> int) returns (r: int)
    requires a.Valid() && b.Valid()
    ensures r == EntryOrder(InOrder(a.tree), InOrder(b.tree), comp)
    ensures forall i: nat :: Agree(InOrder(a.tree), InOrder(b.tree), i, comp) ==>
              DecidedAt(r, InOrder(a.tree), InOrder(b.tree), i, comp)
  {
    r := Walk(a, b, comp);
    forall i: nat | Agree(InOrder(a.tree), InOrder(b.tree), i, comp)
      ensures DecidedAt(r, InOrder(a.tree), InOrder(b.tree), i, comp)
    {
      FirstDifferenceDecides(InOrder(a.tree), InOrder(b.tree), i, comp);
    }
  }

  lemma EntryOrderFrom<V>(a: seq<Node<V>>, b: seq<Node<V>>, i: nat, comp: (V, V) -> int)
    requires i <= |a| && i <= |b|
    ensures EntryOrder(a[i..], b[i..], comp) ==
            if i == |a| then (if i == |b| then 0 else -1) else if i == |b| then 1
            else if CompareFull(a[i], b[i], comp) != 0 then CompareFull(a[i], b[i], comp)
            else EntryOrder(a[i + 1..], b[i + 1..], comp)
  {
    if i < |a| && i < |b| {
      assert a[i..][1..] == a[i + 1..] && b[i..][1..] == b[i + 1..];
    }
  }

  method Walk<V>(a: RbTree<V>, b: RbTree<V>, comp: (V, V) -> int) returns (r: int)
    requires a.Valid() && b.Valid()
    ensures r == EntryOrder(InOrder(a.tree), InOrder(b.tree), comp)
  {
    ghost var m, n, i, p, q := InOrder(a.tree), InOrder(b.tree), 0, Nowhere, Nowhere;
    var x, y;
    NodesAllocated(a.tree);
    NodesAllocated(b.tree);
    x, p := Begin(a.root, a.tree);
    PlaceAllocated(p);
    y, q := Begin(b.root, b.tree);
    while true
      invariant 0 <= i <= |m| && i <= |n| && On(p, x, m, i) && On(q, y, n, i)
      invariant EntryOrder(m, n, comp) == EntryOrder(m[i..], n[i..], comp)
      decreases |m| - i
    {
      EntryOrderFrom(m, n, i, comp);
      if x == null {
        return if y == null then 0 else -1;
      }
      if y == null {
        return 1;
      }
      r := CompareFull(x, y, comp);
      if r != 0 {
        return;
      }
      PlaceAllocated(q);
      x, p := Next(x, true, p, m, i);
      PlaceAllocated(p);
      y, q := Next(y, true, q, n, i);
      i := i + 1;
    }
  }

  /** A value comparison that is zero on equal values only. */
  ghost predicate Separates<V(!new)>(comp: (V, V) -> int) {
    forall v, w :: comp(v, w) == 0 <==> v == w
  }

  /** Equal entry lists and equal maps are the same thing. */
  lemma {:induction false} EqualOrdersEqualMaps<V(!new)>(a: seq<Node<V>>, b: seq<Node<V>>, comp: (V, V) -> int)
    requires Sorted(a) && Sorted(b) && Separates(comp)
    ensures EntryOrder(a, b, comp) == 0 <==> MapOf(a) == MapOf(b)
  {
    if a == [] || b == [] {
      if a != [] {
        MapOfEntry(a, 0);
      }
      if b != [] {
        MapOfEntry(b, 0);
      }
    } else {
      EqualOrdersEqualMaps(a[1..], b[1..], comp);
      MapOfEntry(a, 0);
      MapOfEntry(b, 0);
      MapOfBounds(a[1..], a[0].key);
      MapOfBounds(b[1..], b[0].key);
      if MapOf(a) == MapOf(b) {
        var i := MapOfIndex(b, a[0].key);
        var j := MapOfIndex(a, b[0].key);
        assert a[0].key == b[0].key;
        assert MapOf(a[1..]) == MapOf(a) - {a[0].key} == MapOf(b[1..]);
      }
    }
  }

  /** `equals`. */
  method Equals<V(!new)>(a: RbTree<V>, b: RbTree<V>, comp: (V, V) -> int) returns (same: bool)
    requires a.Valid() && b.Valid() && Separates(comp)
    ensures same <==> a.Contents() == b.Contents()
  {
    EqualOrdersEqualMaps(InOrder(a.tree), InOrder(b.tree), comp);
    if a.size != b.size {
      if EntryOrder(InOrder(a.tree), InOrder(b.tree), comp) == 0 {
        EqualOrdersEqualLengths(InOrder(a.tree), InOrder(b.tree), comp);
      }
      return false;
    }
    var r := Compare(a, b, comp);
    same := r == 0;
  }

  lemma {:induction false} EqualOrdersEqualLengths<V>(a: seq<Node<V>>, b: seq<Node<V>>, comp: (V, V) -> int)
    requires EntryOrder(a, b, comp) == 0
    ensures |a| == |b|
  {
    if a != [] && b != [] {
      EqualOrdersEqualLengths(a[1..], b[1..], comp);
    }
  }

  // ----- difference and copy -----

  /** An entry the other map has, value and all. */
  ghost predicate Shared<V>(n: Node<V>, other: map<int, V>) {
    n.key in other && other[n.key] == n.val
  }

  /** The entries of the first sequence that the other map lacks. */
  ghost function Lacking<V>(ns: seq<Node<V>>, other: map<int, V>): map<int, V> {
    if ns == [] then map[]
    else
      var n := ns[|ns| - 1];
      var rest := Lacking(ns[..|ns| - 1], other);
      if Shared(n, other) then rest else rest[n.key := n.val]
  }

  lemma {:induction false} LackingIsDifference<V>(ns: seq<Node<V>>, other: map<int, V>)
    requires Sorted(ns)
    ensures Lacking(ns, other) == map k | k in MapOf(ns) && !(k in other && other[k] == MapOf(ns)[k]) :: MapOf(ns)[k]
  {
    if ns != [] {
      var init, n := ns[..|ns| - 1], ns[|ns| - 1];
      LackingIsDifference(init, other);
      assert ns == init + [n];
      MapOfConcat(init, [n]);
      MapOfFew([n]);
      assert AllBelow(init, n.key);
      MapOfBounds(init, n.key);
    }
  }

  /** Compared by key first, an entry is not shared with anything passed or still ahead. */
  lemma NotShared<V(!new)>(n: Node<V>, others: seq<Node<V>>, j: nat, comp: (V, V) -> int)
    requires Sorted(others) && Separates(comp) && j <= |others|
    requires forall k :: 0 <= k < j ==> CompareFull(n, others[k], comp) > 0
    requires j < |others| ==> CompareFull(n, others[j], comp) < 0
    ensures !Shared(n, MapOf(others))
  {
    if n.key in MapOf(others) {
      var k := MapOfIndex(others, n.key);
      MapOfEntry(others, k);
      assert k != j ==> CompareFull(n, others[k], comp) == comp(n.val, others[k].val);
    }
  }

  /** Moving whichever of two iterators is behind, or both. */
  method StepPast<V>(x: Node<V>, y: Node?<V>, c: int, ghost p: Place<V>, ghost m: seq<Node<V>>, ghost i: int,
                     ghost q: Place<V>, ghost n: seq<Node<V>>, ghost j: int)
    returns (x2: Node?<V>, y2: Node?<V>, ghost p2: Place<V>, ghost q2: Place<V>)
    requires On(p, x, m, i) && On(q, y, n, j) && (y == null ==> c < 0)
    ensures On(p2, x2, m, if c <= 0 then i + 1 else i) && On(q2, y2, n, if c >= 0 then j + 1 else j)
    ensures PlaceNodes(p2) == PlaceNodes(p) && PlaceNodes(q2) == PlaceNodes(q)
  {
    PlaceAllocated(q);
    x2, y2, p2, q2 := x, y, p, q;
    if c <= 0 {
      x2, p2 := Next(x, true, p, m, i);
    }
    PlaceAllocated(p2);
    if c >= 0 {
      y2, q2 := Next(y, true, q, n, j);
    }
  }

  /** All passed entries of the second list are below the current one of the first. */
  ghost predicate Behind<V>(m: seq<Node<V>>, i: nat, n: seq<Node<V>>, j: nat, comp: (V, V) -> int)
    requires j <= |n|
  {
    i < |m| && j > 0 ==> CompareFull(m[i], n[j - 1], comp) > 0 && Behind(m, i, n, j - 1, comp)
  }

  lemma {:induction false} BehindAll<V>(m: seq<Node<V>>, i: nat, n: seq<Node<V>>, j: nat, comp: (V, V) -> int)
    requires j <= |n| && i < |m|
    ensures Behind(m, i, n, j, comp) <==> forall k :: 0 <= k < j ==> CompareFull(m[i], n[k], comp) > 0
  {
    if j > 0 {
      BehindAll(m, i, n, j - 1, comp);
    }
  }

  /** What has been passed stays behind. */
  lemma StaysBehind<V>(m: seq<Node<V>>, i: nat, n: seq<Node<V>>, j: nat, c: int, comp: (V, V) -> int)
    requires Sorted(m) && Sorted(n) && i < |m| && j <= |n|
    requires Behind(m, i, n, j, comp)
    requires if j == |n| then c < 0 else c == CompareFull(m[i], n[j], comp)
    ensures Behind(m, if c <= 0 then i + 1 else i, n, if c >= 0 then j + 1 else j, comp)
  {
    var i2, j2 := (if c <= 0 then i + 1 else i), (if c >= 0 then j + 1 else j);
    BehindAll(m, i, n, j, comp);
    if i2 < |m| {
      BehindAll(m, i2, n, j2, comp);
    }
  }

  /** One step of `diff`: the entry goes to the result if it is below the other iterator's. */
  method Keep<V(!new)>(out: RbTree<V>, x: Node<V>, ghost m: seq<Node<V>>, ghost i: nat, ghost n: seq<Node<V>>,
                       ghost j: nat,
                       c: int, ghost comp: (V, V) -> int, ghost was: set<Node<V>>)
    requires was == Nodes(out.tree)
    requires out.Valid() && Separates(comp) && Sorted(n) && Sorted(m)
    requires i < |m| && m[i] == x && j <= |n| && Behind(m, i, n, j, comp)
    requires if j == |n| then c < 0 else c == CompareFull(x, n[j], comp)
    requires out.Contents() == Lacking(m[..i], MapOf(n))
    modifies out, Nodes(out.tree)
    ensures out.Valid() && (forall k :: k in Nodes(out.tree) ==> k in was || fresh(k))
    ensures var i2, j2 := (if c <= 0 then i + 1 else i), (if c >= 0 then j + 1 else j);
            out.Contents() == Lacking(m[..i2], MapOf(n)) && Behind(m, i2, n, j2, comp)
  {
    assert m[..i + 1][..i] == m[..i];
    StaysBehind(m, i, n, j, c, comp);
    if c < 0 {
      BehindAll(m, i, n, j, comp);
      NotShared(x, n, j, comp);
      out.Put(x.key, x.val);
    } else if c == 0 {
      MapOfEntry(n, j);
    }
  }

  /** An iterator: its place, its node, and the entries it goes over. */
  datatype Stand<V> = Stand(at: Place<V>, node: Node?<V>, order: seq<Node<V>>, i: int)

  /** Where an iterator stands does not depend on other nodes. */
  twostate lemma StillOn<V>(s: Stand<V>)
    requires forall n :: n in PlaceNodes(s.at) ==> old(allocated(n))
    requires old(On(s.at, s.node, s.order, s.i)) && unchanged(PlaceNodes(s.at))
    ensures On(s.at, s.node, s.order, s.i)
  {
  }

  twostate lemma StillValid<V>(out: RbTree<V>)
    requires forall n :: n in old(Nodes(out.tree)) ==> old(allocated(n))
    requires old(out.Valid()) && unchanged(out) && unchanged(old(Nodes(out.tree)))
    ensures out.Valid() && out.Contents() == old(out.Contents()) && Nodes(out.tree) == old(Nodes(out.tree))
  {
  }

  /** One round of `diff`. */
  method DiffStep<V(!new)>(out: RbTree<V>, x: Node<V>, y: Node?<V>, ghost p: Place<V>, ghost m: seq<Node<V>>,
                           ghost i: nat,
                           ghost q: Place<V>, ghost n: seq<Node<V>>, ghost j: nat, comp: (V, V) -> int,
                           ghost was: set<Node<V>>)
    returns (x2: Node?<V>, y2: Node?<V>, ghost p2: Place<V>, ghost q2: Place<V>, ghost i2: nat, ghost j2: nat)
    requires out.Valid() && Separates(comp) && Sorted(n) && Sorted(m)
    requires On(p, x, m, i) && On(q, y, n, j) && j <= |n| && Behind(m, i, n, j, comp)
    requires was == Nodes(out.tree) && was !! PlaceNodes(p) && was !! PlaceNodes(q)
    requires out.Contents() == Lacking(m[..i], MapOf(n))
    modifies out, Nodes(out.tree)
    ensures out.Valid() && (forall k :: k in Nodes(out.tree) ==> k in was || fresh(k))
    ensures i <= i2 <= |m| && j <= j2 <= |n| && i + j < i2 + j2
    ensures On(p2, x2, m, i2) && On(q2, y2, n, j2)
    ensures PlaceNodes(p2) == PlaceNodes(p) && PlaceNodes(q2) == PlaceNodes(q)
    ensures out.Contents() == Lacking(m[..i2], MapOf(n)) && Behind(m, i2, n, j2, comp)
  {
    NodesAllocated(out.tree);
    PlaceAllocated(p);
    PlaceAllocated(q);
    var c := if y == null then -1 else CompareFull(x, y, comp);
    Keep(out, x, m, i, n, j, c, comp, was);
    StillOn(Stand(p, x, m, i));
    StillOn(Stand(q, y, n, j));
    NodesAllocated(out.tree);
    label Kept:
    x2, y2, p2, q2 := StepPast(x, y, c, p, m, i, q, n, j);
    StillValid@Kept(out);
    i2, j2 := (if c <= 0 then i + 1 else i), (if c >= 0 then j + 1 else j);
  }

  /** The loop of `diff`. */
  method DiffLoop<V(!new)>(out: RbTree<V>, x0: Node?<V>, y0: Node?<V>, ghost p0: Place<V>, ghost m: seq<Node<V>>,
                           ghost q0: Place<V>, ghost n: seq<Node<V>>, comp: (V, V) -> int)
    requires out.Valid() && out.Contents() == map[] && Nodes(out.tree) == {}
    requires Separates(comp) && Sorted(n) && Sorted(m)
    requires On(p0, x0, m, 0) && On(q0, y0, n, 0)
    modifies out
    ensures out.Valid() && out.Contents() == Lacking(m[..|m|], MapOf(n))
    ensures forall k :: k in Nodes(out.tree) ==> fresh(k)
  {
    var x, y := x0, y0;
    ghost var p, q, i, j := p0, q0, 0, 0;
    PlaceAllocated(p);
    PlaceAllocated(q);
    ghost var places := PlaceNodes(p) + PlaceNodes(q);
    while x != null
      invariant 0 <= i <= |m| && 0 <= j <= |n|
      invariant (On(p, x, m, i) && On(q, y, n, j)) == true
      invariant PlaceNodes(p) + PlaceNodes(q) == places
      invariant out.Valid() && forall k :: k in Nodes(out.tree) ==> fresh(k)
      invariant out.Contents() == Lacking(m[..i], MapOf(n)) && Behind(m, i, n, j, comp)
      decreases |m| - i + |n| - j
    {
      ghost var was := Nodes(out.tree);
      assert was !! places;
      x, y, p, q, i, j := DiffStep(out, x, y, p, m, i, q, n, j, comp, was);
    }
  }

  /** `diff`: the entries of `a` that `b` does not have. */
  method Diff<V(!new)>(a: RbTree<V>, b: RbTree<V>, comp: (V, V) -> int) returns (out: RbTree<V>)
    requires a.Valid() && b.Valid() && Separates(comp)
    ensures out.Valid() && fresh(out) && fresh(Nodes(out.tree))
    ensures out.Contents() == map k | k in a.Contents() &&
            !(k in b.Contents() && b.Contents()[k] == a.Contents()[k]) :: a.Contents()[k]
  {
    hide Rep, Balanced, Sorted;
    ghost var m, n := InOrder(a.tree), InOrder(b.tree);
    NodesAllocated(a.tree);
    NodesAllocated(b.tree);
    out := new RbTree<V>();
    var x, y;
    ghost var p, q;
    x, p := Begin(a.root, a.tree);
    PlaceAllocated(p);
    y, q := Begin(b.root, b.tree);
    DiffLoop(out, x, y, p, m, q, n, comp);
    assert m[..|m|] == m;
    LackingIsDifference(m, MapOf(n));
  }

  /** The same keys, values and colors in the same shape. */
  ghost predicate SameShape<V>(s: Tree<V>, t: Tree<V>) {
    match s
    case Leaf => t.Leaf?
    case Br(m, red, l, r) =>
      t.Br? && t.n.key == m.key && t.n.val == m.val && t.red == red && SameShape(l, t.l) && SameShape(r, t.r)
  }

  lemma {:induction false} SameShapeSameMap<V>(s: Tree<V>, t: Tree<V>)
    requires SameShape(s, t)
    ensures |InOrder(s)| == |InOrder(t)|
    ensures forall i :: 0 <= i < |InOrder(s)| ==> InOrder(s)[i].key == InOrder(t)[i].key
    ensures MapOf(InOrder(s)) == MapOf(InOrder(t))
    ensures Balanced(s) ==> Balanced(t)
    ensures BlackHeight(s) == BlackHeight(t) && IsRed(s) == IsRed(t)
  {
    if s.Br? {
      SameShapeSameMap(s.l, t.l);
      SameShapeSameMap(s.r, t.r);
      MapOfConcat(InOrder(s.l) + [s.n], InOrder(s.r));
      MapOfConcat(InOrder(s.l), [s.n]);
      MapOfConcat(InOrder(t.l) + [t.n], InOrder(t.r));
      MapOfConcat(InOrder(t.l), [t.n]);
      MapOfFew([s.n]);
      MapOfFew([t.n]);
    }
  }

  method CloneNode<V>(src: Node<V>, ghost t: Tree<V>) returns (dest: Node<V>)
    requires RepBelow(t) && t.Br? && Root(t) == src
    ensures RepBelow(t.l) && RepBelow(t.r) && fresh(dest)
    ensures dest.key == src.key && dest.val == src.val && dest.red == src.red
    ensures dest.left == null && dest.right == null && dest.parent == null
  {
    NodesAllocated(t.l);
    NodesAllocated(t.r);
    dest := new Node(src.key, src.val);
    dest.red := src.red;
    RepBelowKept(t.l);
    RepBelowKept(t.r);
  }

  /** `clone` of a subtree. */
  method CloneNodes<V>(src: Node<V>, ghost t: Tree<V>) returns (dest: Node<V>, ghost copy: Tree<V>)
    requires RepBelow(t) && t.Br? && Root(t) == src
    ensures RepBelow(copy) && Root(copy) == dest && SameShape(t, copy) && fresh(Nodes(copy)) && dest.parent == null
    decreases t, 1
  {
    NodesAllocated(t.r);
    dest := CloneNode(src, t);
    assert dest !in Nodes(t.r);
    ghost var l, r;
    l := CloneChild(dest, false, src.left, t.l);
    NodesAllocated(l);
    r := CloneChild(dest, true, src.right, t.r);
    copy := Br(dest, src.red, l, r);
  }

  method CloneChild<V>(dest: Node<V>, d: Dir, child: Node?<V>, ghost t: Tree<V>) returns (ghost copy: Tree<V>)
    requires RepBelow(t) && Root(t) == child && dest.Child(d) == null
    modifies dest
    ensures Rep(copy, dest) && Root(copy) == dest.Child(d) && SameShape(t, copy) && fresh(Nodes(copy))
    ensures dest.red == old(dest.red) && dest.parent == old(dest.parent) && dest.Child(!d) == old(dest.Child(!d))
    decreases t, 2
  {
    copy := Leaf;
    if child != null {
      var c;
      c, copy := CloneNodes(child, t);
      Hang(dest, d, copy, c);
    }
  }

  /** `clone`: a tree of its own with the same contents. */
  method Clone<V>(src: RbTree<V>) returns (dest: RbTree<V>)
    requires src.Valid()
    ensures dest.Valid() && fresh(dest) && fresh(Nodes(dest.tree))
    ensures dest.Contents() == src.Contents() && dest.size == src.size && SameShape(src.tree, dest.tree)
  {
    NodesAllocated(src.tree);
    dest := new RbTree<V>();
    if src.root != null {
      var root;
      ghost var copy;
      root, copy := CloneNodes(src.root, src.tree);
      SameShapeSameMap(src.tree, copy);
      dest.root, dest.size, dest.tree := root, src.size, copy;
    }
  }
}
