/** The ordered map MojRbTreeBase implements with red-black nodes. */
module RbTrees {
  import opened RbNodes
  import opened RbInsert
  import opened RbDelete

  // ----- sorted nodes as a map -----

  ghost function MapOf<V>(ns: seq<Node<V>>): map<int, V> {
    if ns == [] then map[] else map[ns[0].key := ns[0].val] + MapOf(ns[1..])
  }

  lemma {:induction false} MapOfConcat<V>(a: seq<Node<V>>, b: seq<Node<V>>)
    ensures MapOf(a + b) == MapOf(a) + MapOf(b)
  {
    if a == [] {
      assert a + b == b;
    } else {
      assert (a + b)[1..] == a[1..] + b;
      MapOfConcat(a[1..], b);
    }
  }

  lemma {:induction false} MapOfBounds<V>(ns: seq<Node<V>>, key: int)
    ensures AllBelow(ns, key) ==> forall k :: k in MapOf(ns) ==> k < key
    ensures AllAbove(ns, key) ==> forall k :: k in MapOf(ns) ==> k > key
  {
    if ns != [] {
      MapOfBounds(ns[1..], key);
    }
  }

  /** What is known of the map when the search for a key has narrowed to `mid`. */
  lemma MapOfSplit<V>(b: seq<Node<V>>, mid: seq<Node<V>>, a: seq<Node<V>>, key: int)
    requires AllBelow(b, key) && AllAbove(a, key)
    ensures MapOf(b + mid + a) == MapOf(b) + MapOf(mid) + MapOf(a)
    ensures key !in MapOf(b) && key !in MapOf(a)
  {
    MapOfBounds(b, key);
    MapOfBounds(a, key);
    MapOfConcat(b + mid, a);
    MapOfConcat(b, mid);
  }

  lemma Merge<V>(b: map<int, V>, mid: map<int, V>, a: map<int, V>, key: int, val: V)
    requires key !in b && key !in a && mid.Keys <= {key}
    ensures b + map[key := val] + a == (b + mid + a)[key := val]
    ensures b + a == (b + mid + a) - {key}
  {
  }

  lemma MapOfFew<V>(ns: seq<Node<V>>)
    ensures ns == [] ==> MapOf(ns) == map[]
    ensures |ns| == 1 ==> MapOf(ns) == map[ns[0].key := ns[0].val]
  {
    if |ns| == 1 {
      assert ns[1..] == [];
    }
  }

  /** Putting a node where the search for its key ended is putting its entry. */
  lemma MapOfPut<V>(b: seq<Node<V>>, mid: seq<Node<V>>, a: seq<Node<V>>, n: Node<V>)
    requires AllBelow(b, n.key) && AllAbove(a, n.key)
    requires mid == [] || (|mid| == 1 && mid[0].key == n.key)
    ensures MapOf(b + [n] + a) == MapOf(b + mid + a)[n.key := n.val]
    ensures n.key in MapOf(b + mid + a) <==> mid != []
  {
    MapOfSplit(b, mid, a, n.key);
    MapOfSplit(b, [n], a, n.key);
    MapOfFew(mid);
    MapOfFew([n]);
    Merge(MapOf(b), MapOf(mid), MapOf(a), n.key, n.val);
  }

  lemma MapOfDelete<V>(b: seq<Node<V>>, mid: seq<Node<V>>, a: seq<Node<V>>, key: int)
    requires AllBelow(b, key) && AllAbove(a, key)
    requires mid == [] || (|mid| == 1 && mid[0].key == key)
    ensures MapOf(b + a) == MapOf(b + mid + a) - {key}
    ensures key in MapOf(b + mid + a) <==> mid != []
  {
    MapOfSplit(b, mid, a, key);
    MapOfConcat(b, a);
    MapOfFew(mid);
    if mid != [] {
      Merge(MapOf(b), MapOf(mid), MapOf(a), key, mid[0].val);
    } else {
      assert MapOf(b) + MapOf(a) == MapOf(b) + map[] + MapOf(a);
    }
  }

  lemma SortedBounds<V>(b: seq<Node<V>>, n: Node<V>, a: seq<Node<V>>)
    requires Sorted(b + [n] + a)
    ensures AllBelow(b, n.key) && AllAbove(a, n.key)
  {
    var all := b + [n] + a;
    assert all[|b|] == n;
    assert forall i :: 0 <= i < |b| ==> all[i] == b[i];
    assert forall i :: 0 <= i < |a| ==> all[|b| + 1 + i] == a[i];
  }

  lemma SortedPut<V>(b: seq<Node<V>>, mid: seq<Node<V>>, a: seq<Node<V>>, n: Node<V>)
    requires Sorted(b + mid + a) && AllBelow(b, n.key) && AllAbove(a, n.key)
    ensures Sorted(b + [n] + a)
  {
    var all, ns := b + mid + a, b + [n] + a;
    forall i, j | 0 <= i < j < |ns| ensures ns[i].key < ns[j].key {
      assert i < |b| ==> ns[i] == all[i];
      assert j < |b| ==> ns[j] == all[j];
      assert i > |b| ==> ns[i] == all[i - 1 + |mid|] == a[i - |b| - 1];
      assert j > |b| ==> ns[j] == all[j - 1 + |mid|] == a[j - |b| - 1];
    }
  }

  /** What hangs under the dummy head becomes the tree, its root black. */
  method Crown<V>(ghost all: Tree<V>, head: Node<V>) returns (root: Node?<V>)
    requires Rep(all, head) && head.right == Root(all) && head !in Nodes(all)
    modifies Nodes(all)
    ensures Rep(if all.Leaf? then Leaf else all.(red := false), null) && root == Root(all)
  {
    NodesAllocated(all);
    root := head.Child(true);
    if root != null {
      root.parent := null;
      root.red := false;
    }
  }

  /** A subtree root gives way to another node. */
  method ReplaceRoot<V>(ghost foc: Tree<V>, q: Node<V>, node: Node<V>, ghost above: Node<V>)
    requires foc.Br? && Root(foc) == q && Rep(foc, above) && above !in Nodes(foc)
    requires node !in Nodes(foc) && node != above && (above.left != q ==> above.right == q)
    modifies Nodes(foc) + {above, node}
    ensures Rep(Br(node, foc.red, foc.l, foc.r), above)
    ensures above.left == (if old(above.left) == q then node else old(above.left))
    ensures above.right == (if old(above.left) == q then old(above.right) else node)
    ensures above.red == old(above.red) && above.parent == old(above.parent)
  {
    NodesAllocated(foc);
    assert foc.l.Br? ==> foc.l.n in Nodes(foc.l);
    assert foc.r.Br? ==> foc.r.n in Nodes(foc.r);
    Replace(q, node);
    RepBelowKept(foc.l);
    RepBelowKept(foc.r);
  }

  /** The found node gives way to the new one. */
  method ReplaceFound<V>(ghost c: Ctx<V>, ghost foc: Tree<V>, q: Node<V>, node: Node<V>)
    requires SplitAt(c, foc, q) && node !in Nodes(foc) && node !in CtxNodes(c)
    modifies Nodes(foc) + {Above(c), node}
    ensures SplitAt(c, Br(node, foc.red, foc.l, foc.r), node)
  {
    CtxAllocated(c);
    assert c.Frame? ==> q !in Nodes(c.sib);
    ReplaceRoot(foc, q, node, Above(c));
  }

  ghost function FixCtx<V>(c: Ctx<V>, grown: Tree<V>): Ctx<V>
    requires grown.Br? && (RedRed(c, grown) ==> RedPath(c))
  {
    if RedRed(c, grown) then FixedCtx(c, grown) else c
  }

  ghost function FixFocus<V>(c: Ctx<V>, grown: Tree<V>): Tree<V>
    requires grown.Br? && (RedRed(c, grown) ==> RedPath(c))
  {
    if RedRed(c, grown) then FixedFocus(c, grown) else grown
  }

  /** A new red node below p, or a color flip at q, or nothing. */
  method Grow<V>(p: Node?<V>, q: Node?<V>, dir: Dir, node: Node<V>, ghost c: Ctx<V>, ghost foc: Tree<V>)
    returns (at: Node<V>, inserted: bool)
    requires SplitAt(c, foc, q) && (foc.Leaf? ==> p == Above(c) && dir == HoleDir(c))
    requires node !in Nodes(foc) && node !in CtxNodes(c)
    requires node.left == null && node.right == null && node.red
    modifies Nodes(foc) + {Above(c), node}
    ensures inserted <==> foc.Leaf?
    ensures SplitAt(c, Grown(foc, node), at)
    ensures !inserted ==>
              node.left == old(node.left) && node.right == old(node.right) && node.red == old(node.red) &&
                  node.parent == old(node.parent)
  {
    CtxAllocated(c);
    NodesAllocated(foc);
    inserted := false;
    if q == null {
      at := node;
      Rehang(c, null, p, dir, Br(node, true, Leaf, Leaf), at);
      inserted := true;
    } else {
      at := q;
      assert Rep(foc.l, q) && Rep(foc.r, q);
      assert IsRedNode(q.left) == IsRed(foc.l) && IsRedNode(q.right) == IsRed(foc.r);
      if IsRedNode(q.Child(false)) && IsRedNode(q.Child(true)) {
        FlippedSame(foc);
        Flip(foc, Above(c), q, q.Child(false), q.Child(true));
      }
    }
  }

  /** One visit of the downward loop, up to the comparison of keys. */
  method Visit<V>(t: Node<V>, g: Node?<V>, p: Node?<V>, q: Node?<V>, dir: Dir, last: Dir, node: Node<V>,
                  ghost wait: bool, ghost c: Ctx<V>, ghost foc: Tree<V>)
    returns (at: Node<V>, inserted: bool)
    requires SplitAt(c, foc, q) && Fitting(c, foc) && Helpers(wait, t, g, p, dir, last, c, foc, node.key)
    requires node !in Nodes(foc) && node !in CtxNodes(c)
    requires node.left == null && node.right == null && node.red
    modifies Nodes(foc) + CtxNodes(c) + {node}
    ensures inserted <==> foc.Leaf?
    ensures RedRed(c, Grown(foc, node)) ==> RedPath(c)
    ensures var grown := Grown(foc, node);
            SplitAt(FixCtx(c, grown), FixFocus(c, grown), at) && Fitting(FixCtx(c, grown), FixFocus(c, grown))
    ensures !inserted ==>
              node.left == old(node.left) && node.right == old(node.right) && node.red == old(node.red) &&
                  node.parent == old(node.parent)
  {
    CtxAllocated(c);
    NodesAllocated(foc);
    RedRedHasHelpers(wait, t, g, p, dir, last, c, foc, node.key, node);
    at, inserted := Grow(p, q, dir, node, c, foc);
    if IsRedNode(at) && IsRedNode(p) {
      Fix(t, g, p, at, last, c, Grown(foc, node));
    }
  }

  /** A visit that does not insert leaves the order and the search as they were; one that does puts the node in. */
  lemma VisitKeeps<V>(c: Ctx<V>, foc: Tree<V>, key: int, node: Node<V>, order: seq<Node<V>>)
    requires Searching(c, foc, key, order) && node.key == key
    requires RedRed(c, Grown(foc, node)) ==> RedPath(c)
    ensures var grown := Grown(foc, node);
            && Nodes(FixFocus(c, grown)) + CtxNodes(FixCtx(c, grown)) ==
               Nodes(foc) + CtxNodes(c) + (if foc.Leaf? then {node} else {})
            && Head(FixCtx(c, grown)) == Head(c)
            && if foc.Br? then Searching(FixCtx(c, grown), FixFocus(c, grown), key, order)
               else PutInto(order, Full(FixCtx(c, grown), FixFocus(c, grown)), node, true)
  {
    var grown := Grown(foc, node);
    if Flippable(foc) {
      FlippedSame(foc);
    }
    if RedRed(c, grown) {
      FixedIsPlugged(c, grown);
      FixedBounds(c, grown);
    }
    if foc.Leaf? {
      var b, a := Before(c), After(c);
      assert Full(c, foc) == b + [] + a && Full(c, grown) == b + [node] + a;
      MapOfPut(b, [], a, node);
      SortedPut(b, [], a, node);
    }
  }

  /** The new sorted sequence stands for the old map with the node's entry put in. */
  ghost predicate PutInto<V>(order: seq<Node<V>>, order2: seq<Node<V>>, node: Node<V>, inserted: bool) {
    && Sorted(order2) && MapOf(order2) == MapOf(order)[node.key := node.val]
    && |order2| == |order| + (if inserted then 1 else 0)
    && (node.key in MapOf(order) <==> !inserted)
  }

  lemma Regrouped<T>(a: seq<T>, b: seq<T>, c: seq<T>, d: seq<T>, e: seq<T>)
    ensures a + (b + c + d) + e == a + b + c + d + e == a + b + (c + d + e)
  {
  }

  /** Rotations only take nodes off the way down. */
  lemma FixedBounds<V>(c: Ctx<V>, t: Tree<V>)
    requires RedPath(c) && t.Br?
    ensures Head(FixedCtx(c, t)) == Head(c)
    ensures forall key :: AllBelow(Before(c), key) ==> AllBelow(Before(FixedCtx(c, t)), key)
    ensures forall key :: AllAbove(After(c), key) ==> AllAbove(After(FixedCtx(c, t)), key)
  {
    var f, up := FixedCtx(c, t), c.up.up;
    if c.dir == c.up.dir {
      if c.dir {
        Regrouped(Before(up), InOrder(c.up.sib), [c.up.n], InOrder(c.sib), [c.n]);
      } else {
        Regrouped([c.n], InOrder(c.sib), [c.up.n], InOrder(c.up.sib), After(up));
      }
    } else {
      var x := if c.dir then [c.up.n] + InOrder(c.up.sib) else [c.n] + InOrder(c.sib);
      assert Before(up) <= Before(c);
      assert After(c) == x + After(up);
      assert forall i :: 0 <= i < |After(up)| ==> After(up)[i] == After(c)[|x| + i];
    }
  }

  lemma FoundHere<V>(c: Ctx<V>, foc: Tree<V>, key: int, node: Node<V>, order: seq<Node<V>>)
    requires Searching(c, foc, key, order) && foc.Br? && foc.n.key == key == node.key
    ensures PutInto(order, Full(c, Br(node, foc.red, foc.l, foc.r)), node, false)
  {
    var b, a := Before(c) + InOrder(foc.l), InOrder(foc.r) + After(c);
    assert order == b + [foc.n] + a;
    assert Full(c, Br(node, foc.red, foc.l, foc.r)) == b + [node] + a;
    SortedBounds(b, foc.n, a);
    MapOfPut(b, [foc.n], a, node);
    SortedPut(b, [foc.n], a, node);
  }

  lemma Descend<V>(c: Ctx<V>, foc: Tree<V>, at: Node<V>, key: int, order: seq<Node<V>>)
    requires SplitAt(c, foc, at) && Searching(c, foc, key, order) && Fitting(c, foc) && at.key != key
    ensures var d := at.key < key;
            var c2, foc2 := Frame(c, foc.n, foc.red, d, Kid(foc, !d)), Kid(foc, d);
            && SplitAt(c2, foc2, at.Child(d)) && Searching(c2, foc2, key, order) && Fitting(c2, foc2)
            && Nodes(foc2) + CtxNodes(c2) == Nodes(foc) + CtxNodes(c)
            && PathLength(foc, key) == 1 + PathLength(foc2, key)
  {
    var d := at.key < key;
    FullUp(c, foc.n, foc.red, d, Kid(foc, !d), Kid(foc, d));
    if d {
      DescendRight(c, foc, key);
    } else {
      DescendLeft(c, foc, key);
    }
  }

  /** The state of the loop of `put`. */
  ghost predicate Going<V>(wait: bool, t: Node<V>, g: Node?<V>, p: Node?<V>, q: Node?<V>, dir: Dir, last: Dir,
                           c: Ctx<V>, foc: Tree<V>, key: int, order: seq<Node<V>>, all: set<Node<V>>)
    reads CtxNodes(c), Nodes(foc)
  {
    && SplitAt(c, foc, q) && Searching(c, foc, key, order) && Fitting(c, foc)
    && Helpers(wait, t, g, p, dir, last, c, foc, key)
    && Nodes(foc) + CtxNodes(c) == all
  }

  /** The state after a visit that neither inserted nor found the key, moved one node down. */
  lemma GoesOn<V>(wait: bool, t: Node<V>, g: Node?<V>, p: Node?<V>, dir: Dir, last: Dir, c0: Ctx<V>, foc0: Tree<V>,
                  node: Node<V>, order: seq<Node<V>>, at: Node<V>)
    requires Helpers(wait, t, g, p, dir, last, c0, foc0, node.key) && Fitting(c0, foc0) && foc0.Br?
    requires Searching(c0, foc0, node.key, order)
    requires RedRed(c0, Grown(foc0, node)) ==> RedPath(c0)
    requires var grown := Grown(foc0, node);
             SplitAt(FixCtx(c0, grown), FixFocus(c0, grown), at) && Fitting(FixCtx(c0, grown), FixFocus(c0, grown))
    requires at.key != node.key
    ensures var c, foc, d := FixCtx(c0, Grown(foc0, node)), FixFocus(c0, Grown(foc0, node)), at.key < node.key;
            var wait2 := RedRed(c0, Grown(foc0, node)) && c0.dir != c0.up.dir;
            && Going(wait2, if g != null then g else t, p, at, at.Child(d), d, dir,
                     Frame(c, foc.n, foc.red, d, Kid(foc, !d)), Kid(foc, d), node.key, order,
                         Nodes(foc0) + CtxNodes(c0))
            && 2 * PathLength(foc0, node.key) + (if wait then 0 else 1)
               > 2 * PathLength(Kid(foc, d), node.key) + (if wait2 then 0 else 1)
  {
    var grown := Grown(foc0, node);
    var c, foc := FixCtx(c0, grown), FixFocus(c0, grown);
    VisitKeeps(c0, foc0, node.key, node, order);
    FixedIsRoot(c0, foc0, node);
    HelpersMove(wait, t, g, p, dir, last, c0, foc0, node.key, node, c, foc);
    PathLengthAfter(c0, foc0, node.key, node, foc);
    Descend(c, foc, at, node.key, order);
  }

  lemma FixedIsRoot<V>(c: Ctx<V>, foc: Tree<V>, node: Node<V>)
    requires RedRed(c, Grown(foc, node)) ==> RedPath(c)
    ensures foc.Br? ==> FixFocus(c, Grown(foc, node)).n == foc.n
  {
  }

  /** The structure left when `put` stops: the node is in, and the tree fits together. */
  ghost predicate Placed<V>(c: Ctx<V>, foc: Tree<V>, node: Node<V>, inserted: bool, order: seq<Node<V>>,
                            all: set<Node<V>>)
    reads CtxNodes(c), Nodes(foc)
  {
    && SplitAt(c, foc, Root(foc)) && Fitting(c, foc)
    && PutInto(order, Full(c, foc), node, inserted)
    && Nodes(foc) + CtxNodes(c) <= all + {node}
  }

  /** A visit and the comparison after it; `done` when the node is in. */
  method Turn<V>(t: Node<V>, g: Node?<V>, p: Node?<V>, q: Node?<V>, dir: Dir, last: Dir, node: Node<V>,
                 ghost wait: bool, ghost c: Ctx<V>, ghost foc: Tree<V>, ghost order: seq<Node<V>>)
    returns (at: Node<V>, inserted: bool, done: bool, ghost c2: Ctx<V>, ghost foc2: Tree<V>)
    requires Going(wait, t, g, p, q, dir, last, c, foc, node.key, order, Nodes(foc) + CtxNodes(c))
    requires node !in Nodes(foc) && node !in CtxNodes(c)
    requires node.left == null && node.right == null && node.red
    modifies Nodes(foc) + CtxNodes(c) + {node}
    ensures RedRed(c, Grown(foc, node)) ==> RedPath(c)
    ensures done ==> Placed(c2, foc2, node, inserted, order, Nodes(foc) + CtxNodes(c)) && Head(c2) == Head(c)
    ensures !done ==> foc.Br? && at.key != node.key && node.left == null && node.right == null && node.red
    ensures !done ==> Head(c2) == Head(c) && c2 == FixCtx(c, Grown(foc, node)) && foc2 == FixFocus(c, Grown(foc, node))
    ensures !done ==> SplitAt(c2, foc2, at) && Fitting(c2, foc2)
  {
    ghost var grown := Grown(foc, node);
    at, inserted := Visit(t, g, p, q, dir, last, node, wait, c, foc);
    VisitKeeps(c, foc, node.key, node, order);
    c2, foc2 := FixCtx(c, grown), FixFocus(c, grown);
    done := inserted || at.key == node.key;
    if !inserted && at.key == node.key {
      FoundHere(c2, foc2, node.key, node, order);
      ReplaceFound(c2, foc2, at, node);
      foc2 := Br(node, foc2.red, foc2.l, foc2.r);
    }
  }

  /** The top-down loop of `put`. */
  method PutBelow<V>(head: Node<V>, root: Node<V>, node: Node<V>, ghost tree: Tree<V>)
    returns (inserted: bool, ghost c: Ctx<V>, ghost foc: Tree<V>)
    requires SplitAt(Top(head), tree, root) && Balanced(tree) && !IsRed(tree) && Sorted(InOrder(tree))
    requires node !in Nodes(tree) && head != node
    requires node.left == null && node.right == null && node.red
    modifies Nodes(tree), head, node
    ensures Placed(c, foc, node, inserted, InOrder(tree), Nodes(tree) + {head}) && Head(c) == head
  {
    ghost var order, all, wait := InOrder(tree), Nodes(tree) + {head}, false;
    c, foc := Top(head), tree;
    NodesAllocated(tree);
    var t: Node<V> := head;
    var g: Node?<V>, p: Node?<V>, q: Node?<V> := null, null, root;
    var dir, last := false, false;
    while true
      invariant Going(wait, t, g, p, q, dir, last, c, foc, node.key, order, all) && Head(c) == head
      invariant node.left == null && node.right == null && node.red
      decreases 2 * PathLength(foc, node.key) + if wait then 0 else 1
    {
      ghost var c0, foc0 := c, foc;
      var at, done;
      at, inserted, done, c, foc := Turn(t, g, p, q, dir, last, node, wait, c, foc, order);
      if done {
        break;
      }
      GoesOn(wait, t, g, p, dir, last, c0, foc0, node, order, at);
      wait := RedRed(c0, Grown(foc0, node)) && c0.dir != c0.up.dir;
      last, dir := dir, at.key < node.key;
      if g != null {
        t := g;
      }
      g, p, q := p, at, at.Child(dir);
      c, foc := Frame(c, foc.n, foc.red, dir, Kid(foc, !dir)), Kid(foc, dir);
    }
  }

  /** What `validate` checks of a tree, with the order stated globally. */
  ghost predicate WellFormed<V>(root: Node?<V>, tree: Tree<V>)
    reads Nodes(tree)
  {
    root == Root(tree) && Rep(tree, null) && Balanced(tree) && !IsRed(tree) && Sorted(InOrder(tree))
  }

  /** Filling the hole again and crowning what hangs under the head. */
  method Finish<V>(head: Node<V>, ghost c: Ctx<V>, ghost foc: Tree<V>) returns (root: Node?<V>, ghost tree: Tree<V>)
    requires SplitAt(c, foc, Root(foc)) && Fitting(c, foc) && Head(c) == head && Sorted(Full(c, foc))
    modifies Nodes(foc) + CtxNodes(c)
    ensures WellFormed(root, tree) && InOrder(tree) == Full(c, foc)
    ensures Nodes(tree) + {head} == Nodes(foc) + CtxNodes(c) && head !in Nodes(tree)
  {
    PlugRep(c, foc);
    PlugInOrder(c, foc);
    PlugBalanced(c, foc);
    tree := Plug(c, foc);
    root := Crown(tree, head);
    if tree.Br? {
      Blackened(tree);
      tree := tree.(red := false);
    }
  }

  /** The new sorted sequence stands for the old map without the key. */
  ghost predicate DeletedFrom<V>(order: seq<Node<V>>, order2: seq<Node<V>>, key: int, found: bool) {
    && Sorted(order2) && MapOf(order2) == MapOf(order) - {key}
    && |order2| == |order| - (if found then 1 else 0)
    && (key in MapOf(order) <==> found)
  }

  lemma DeletesFound<V>(b: seq<Node<V>>, f: Node<V>, a: seq<Node<V>>)
    requires Sorted(b + [f] + a)
    ensures DeletedFrom(b + [f] + a, b + a, f.key, true)
  {
    SortedBounds(b, f, a);
    MapOfDelete(b, [f], a, f.key);
    forall i, j | 0 <= i < j < |b + a| ensures (b + a)[i].key < (b + a)[j].key {
      assert i < |b| ==> (b + a)[i] == b[i] == (b + [f] + a)[i];
      assert j < |b| ==> (b + a)[j] == b[j] == (b + [f] + a)[j];
      assert i >= |b| ==> (b + a)[i] == (b + [f] + a)[i + 1];
      assert j >= |b| ==> (b + a)[j] == (b + [f] + a)[j + 1];
    }
  }

  lemma DeletesNothing<V>(c: Ctx<V>, key: int)
    requires Sorted(Full(c, Leaf)) && Found(null, c, key)
    ensures DeletedFrom(Full(c, Leaf), Full(c, Leaf), key, false)
  {
    assert Before(c) + After(c) == Full(c, Leaf);
    MapOfDelete(Before(c), [], After(c), key);
  }

  /** The state of the loop of `del`. */
  ghost predicate Removing<V>(q: Node<V>, p: Node?<V>, f: Node?<V>, dir: Dir, key: int,
                              c: Ctx<V>, foc: Tree<V>, order: seq<Node<V>>, all: set<Node<V>>)
    reads CtxNodes(c), Nodes(foc)
  {
    && SplitAt(c, foc, Root(foc)) && Pushing(c, foc) && Full(c, foc) == order && Found(f, c, key)
    && q == Above(c) && dir == HoleDir(c) && (c.Frame? ==> p == Above(c.up))
    && (if c.Top? then foc.Br? else dir == (q.key < key))
    && Nodes(foc) + CtxNodes(c) == all
  }

  /** A visit, moved one node down. */
  lemma RemovingGoesOn<V>(f: Node?<V>, key: int, c: Ctx<V>, foc: Tree<V>, order: seq<Node<V>>)
    requires foc.Br? && Found(f, c, key) && Full(c, foc) == order && Sorted(order) && Pushing(c, foc)
    requires var d := foc.n.key < key;
             SplitAt(PushedCtx(c, foc, d), PushedFocus(c, foc, d), foc.n)
    ensures var d := foc.n.key < key;
            var c2, foc2 := PushedCtx(c, foc, d), PushedFocus(c, foc, d);
            var c3, foc3 := Frame(c2, foc2.n, foc2.red, d, Kid(foc2, !d)), Kid(foc, d);
            && Removing(foc.n, Above(c2), if foc.n.key == key then foc.n
                        else f, d, key, c3, foc3, order, Nodes(foc) + CtxNodes(c))
            && Head(c3) == Head(c)
  {
    var d := foc.n.key < key;
    FoundMoves(f, c, foc, key, order);
    PushKeeps(c, foc, d);
    PushOrder(c, foc, d);
    SplitDown(PushedCtx(c, foc, d), PushedFocus(c, foc, d), d);
  }

  /** The top-down loop of `del`: q ends as the last node on the way, p above it, f the node found. */
  method DelBelow<V>(head: Node<V>, key: int, ghost tree: Tree<V>)
    returns (q: Node<V>, p: Node?<V>, f: Node?<V>, ghost c: Ctx<V>)
    requires SplitAt(Top(head), tree, Root(tree)) && tree.Br? && Balanced(tree) && Sorted(InOrder(tree))
    modifies Nodes(tree), head
    ensures Removing(q, p, f, HoleDir(c), key, c, Leaf, InOrder(tree), Nodes(tree) + {head})
    ensures c.Frame? && Head(c) == head
  {
    ghost var order, all, foc := InOrder(tree), Nodes(tree) + {head}, tree;
    NodesAllocated(tree);
    c := Top(head);
    q, p, f := head, null, null;
    var dir := true;
    while q.Child(dir) != null
      invariant Removing(q, p, f, dir, key, c, foc, order, all) && Head(c) == head
      decreases foc
    {
      ghost var f0 := f;
      var last := dir;
      var g := p;
      p, q := q, q.Child(dir);
      if q.key == key {
        f := q;
      }
      dir := q.key < key;
      p := Push(g, p, q, last, dir, c, foc);
      RemovingGoesOn(f0, key, c, foc, order);
      c, foc := Frame(PushedCtx(c, foc, dir), q, PushedFocus(c, foc, dir).red, dir,
                      Kid(PushedFocus(c, foc, dir), !dir)), Kid(foc, dir);
    }
  }

  /** The last node takes the place of the found one, and its own place is given up. */
  method TakeOut<V>(q: Node<V>, p: Node<V>, f: Node<V>, key: int, ghost c: Ctx<V>, ghost order: seq<Node<V>>)
    returns (ghost c2: Ctx<V>)
    requires c.Frame? && Removing(q, p, f, c.dir, key, c, Leaf, order, CtxNodes(c)) && Sorted(order)
    modifies CtxNodes(c)
    ensures SplitAt(c2, Leaf, null) && Fitting(c2, Leaf) && Head(c2) == Head(c)
    ensures DeletedFrom(order, Full(c2, Leaf), key, true)
    ensures CtxNodes(c2) <= CtxNodes(c) - {f}
  {
    CtxAllocated(c);
    LastIsLeaf(c);
    FirstAfterOnSpine(c);
    SpineIsClear(c, null, f);
    RemovedOrder(c, f, key);
    DeletesFound(Before(c), f, After(c)[1..]);
    if f == q {
      // replacing a node by itself changes nothing
      Rehang(c.up, q, p, p.Child(true) == q, Leaf, null);
      c2 := c.up;
    } else {
      SubstNodes(c.up, f, q);
      SubstFits(c.up, f, q, false, 1);
      Splice(f, q, p, c.up);
      c2 := Subst(c.up, f, q);
    }
  }

  /** `del` on a non-empty tree, below a dummy head. */
  method Remove<V>(head: Node<V>, key: int, ghost tree: Tree<V>)
    returns (found: bool, root: Node?<V>, ghost tree2: Tree<V>)
    requires SplitAt(Top(head), tree, Root(tree)) && tree.Br? && Balanced(tree) && Sorted(InOrder(tree))
    modifies Nodes(tree), head
    ensures WellFormed(root, tree2) && DeletedFrom(InOrder(tree), InOrder(tree2), key, found)
    ensures Nodes(tree2) <= Nodes(tree)
  {
    NodesAllocated(tree);
    var q, p, f;
    ghost var c;
    q, p, f, c := DelBelow(head, key, tree);
    found := f != null;
    if f != null {
      c := TakeOut(q, p, f, key, c, InOrder(tree));
    } else {
      DeletesNothing(c, key);
    }
    root, tree2 := Finish(head, c, Leaf);
  }

  class RbTree<V> {
    var root: Node?<V>
    var size: nat
    ghost var tree: Tree<V>

    ghost predicate Valid()
      reads this, Nodes(tree)
    {
      WellFormed(root, tree) && size == |InOrder(tree)|
    }

    /** The map the tree stands for. */
    ghost function Contents(): map<int, V>
      reads this
    {
      MapOf(InOrder(tree))
    }

    constructor ()
      ensures Valid() && Contents() == map[] && size == 0 && tree == Leaf
    {
      root, size, tree := null, 0, Leaf;
    }

    method Put(key: int, val: V)
      requires Valid()
      modifies this, Nodes(tree)
      ensures Valid() && Contents() == old(Contents())[key := val]
      ensures size == old(size) + if key in old(Contents()) then 0 else 1
      ensures fresh(Nodes(tree) - old(Nodes(tree)))
    {
      NodesAllocated(tree);
      var node := new Node(key, val);
      if root == null {
        root, size, tree := node, 1, Br(node, false, Leaf, Leaf);
        root.red := false;
        assert InOrder(tree) == [node] && RepBelow(tree);
        MapOfFew([node]);
      } else {
        var head := new Node(root.key, root.val);
        Insert(head, node);
      }
    }

    /** `put` on a non-empty tree, below a dummy head. */
    method Insert(head: Node<V>, node: Node<V>)
      requires Valid() && root != null
      requires head !in Nodes(tree) && node !in Nodes(tree) && head != node
      requires head.left == null && head.parent == null
      requires node.left == null && node.right == null && node.red
      modifies this, Nodes(tree), head, node
      ensures Valid() && Contents() == old(Contents())[node.key := node.val]
      ensures size == old(size) + if node.key in old(Contents()) then 0 else 1
      ensures Nodes(tree) <= old(Nodes(tree)) + {node}
    {
      NodesAllocated(tree);
      Hang(head, true, tree, root);
      ghost var c, foc;
      var inserted;
      inserted, c, foc := PutBelow(head, root, node, tree);
      if inserted {
        size := size + 1;
      }
      root, tree := Finish(head, c, foc);
    }

    method Del(key: int) returns (found: bool)
      requires Valid()
      modifies this, Nodes(tree)
      ensures Valid() && Contents() == old(Contents()) - {key}
      ensures found <==> key in old(Contents())
      ensures size == old(size) - if found then 1 else 0
      ensures Nodes(tree) <= old(Nodes(tree))
    {
      found := false;
      NodesAllocated(tree);
      if root != null {
        var head := new Node(root.key, root.val);
        Hang(head, true, tree, root);
        found, root, tree := Remove(head, key, tree);
        if found {
          size := size - 1;
        }
      }
    }
  }
}
