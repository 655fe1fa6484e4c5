/** The steps of top-down insertion: color flips, rotations, and the stale helper pointers. */
module RbInsert {
  import opened RbNodes

  // ----- color flip -----

  predicate Flippable<V>(t: Tree<V>) { t.Br? && IsRed(t.l) && IsRed(t.r) }

  function Flipped<V>(t: Tree<V>): Tree<V>
    requires Flippable(t)
  {
    Br(t.n, true, t.l.(red := false), t.r.(red := false))
  }

  lemma Painted<V>(t: Tree<V>, red: bool)
    requires t.Br?
    ensures var b := t.(red := red);
            InOrder(b) == InOrder(t) && Nodes(b) == Nodes(t) && Root(b) == Root(t)
  {
  }

  lemma Blackened<V>(t: Tree<V>)
    requires t.Br?
    ensures var b := t.(red := false);
            InOrder(b) == InOrder(t) && Nodes(b) == Nodes(t) && Root(b) == Root(t)
    ensures Balanced(t) ==> Balanced(t.(red := false))
    ensures BlackHeight(t.(red := false)) == BlackHeight(t) + if t.red then 1 else 0
  {
  }

  lemma FlippedSame<V>(t: Tree<V>)
    requires Flippable(t)
    ensures InOrder(Flipped(t)) == InOrder(t) && Nodes(Flipped(t)) == Nodes(t)
    ensures Balanced(t) ==> Balanced(Flipped(t)) && BlackHeight(Flipped(t)) == BlackHeight(t)
    ensures Balanced(t) ==> !Flippable(Flipped(t).l) && !Flippable(Flipped(t).r)
  {
    Blackened(t.l);
    Blackened(t.r);
  }

  method Flip<V>(ghost t: Tree<V>, ghost parent: Node<V>, q: Node<V>, l: Node<V>, r: Node<V>)
    requires Flippable(t) && Root(t) == q && Root(t.l) == l && Root(t.r) == r && Rep(t, parent)
    modifies q`red, l`red, r`red
    ensures Rep(Flipped(t), parent)
  {
    NodesAllocated(t);
    FlippedSame(t);
    assert l in Nodes(t.l) && r in Nodes(t.r);
    Recolor(t.l, q, l, false);
    Recolor(t.r, q, r, false);
    q.red := true;
  }

  /** One color changes; the shape stays. */
  method Recolor<V>(ghost t: Tree<V>, ghost parent: Node?<V>, q: Node<V>, red: bool)
    requires t.Br? && Root(t) == q && Rep(t, parent)
    modifies q`red
    ensures Rep(t.(red := red), parent)
  {
    NodesAllocated(t);
    q.red := red;
  }

  // ----- a red node under a red parent -----

  /** The path has a red node p under a black node g. */
  predicate RedPath<V>(c: Ctx<V>) { c.Frame? && c.red && c.up.Frame? && !c.up.red }

  ghost function ParentTree<V>(c: Ctx<V>, t: Tree<V>): Tree<V>
    requires c.Frame?
  {
    Make(c.n, c.red, c.dir, t, c.sib)
  }

  ghost function GrandTree<V>(c: Ctx<V>, t: Tree<V>): Tree<V>
    requires c.Frame? && c.up.Frame?
  {
    ParentTree(c.up, ParentTree(c, t))
  }

  /** What hangs under the great-grandparent after one rotation or two. */
  ghost function FixedTree<V>(c: Ctx<V>, t: Tree<V>): Tree<V>
    requires RedPath(c) && t.Br?
  {
    var last := c.up.dir;
    if c.dir == last then Rotated(GrandTree(c, t), !last)
    else Rotated(ParentTree(c.up, Rotated(ParentTree(c, t), last)), !last)
  }

  /** Where q then is: still under p, or on top. */
  ghost function FixedCtx<V>(c: Ctx<V>, t: Tree<V>): Ctx<V>
    requires RedPath(c) && t.Br?
  {
    var last := c.up.dir;
    if c.dir == last then Frame(c.up.up, c.n, false, last, Make(c.up.n, true, !last, c.up.sib, c.sib))
    else c.up.up
  }

  ghost function FixedFocus<V>(c: Ctx<V>, t: Tree<V>): Tree<V>
    requires RedPath(c) && t.Br?
  {
    if c.dir == c.up.dir then t else FixedTree(c, t)
  }

  lemma FixedIsPlugged<V>(c: Ctx<V>, t: Tree<V>)
    requires RedPath(c) && t.Br?
    ensures Root(FixedFocus(c, t)) == t.n
    ensures c.dir == c.up.dir ==> FixedTree(c, t) == ParentTree(FixedCtx(c, t), t)
    ensures InOrder(FixedTree(c, t)) == InOrder(GrandTree(c, t))
    ensures Nodes(FixedTree(c, t)) == Nodes(GrandTree(c, t))
    ensures Full(FixedCtx(c, t), FixedFocus(c, t)) == Full(c, t)
    ensures Nodes(FixedFocus(c, t)) + CtxNodes(FixedCtx(c, t)) == Nodes(t) + CtxNodes(c)
  {
    var last, up := c.up.dir, c.up.up;
    var g, p := GrandTree(c, t), ParentTree(c, t);
    FullUp(c.up, c.n, c.red, c.dir, c.sib, t);
    FullUp(up, c.up.n, c.up.red, last, c.up.sib, p);
    if c.dir == last {
      RotatedSame(g, !last);
      var f := FixedCtx(c, t);
      FullUp(up, f.n, f.red, f.dir, f.sib, t);
    } else {
      RotatedSame(p, last);
      var g1 := ParentTree(c.up, Rotated(p, last));
      assert InOrder(g1) == InOrder(g);
      RotatedSame(g1, !last);
    }
  }

  /** A fit but for the red-red edge becomes a fit. */
  lemma FixedFits<V>(c: Ctx<V>, t: Tree<V>)
    requires RedPath(c) && IsRed(t) && Balanced(t)
    requires Balanced(c.sib) && !IsRed(c.sib) && BlackHeight(c.sib) == BlackHeight(t)
    requires Balanced(c.up.sib) && !IsRed(c.up.sib) && BlackHeight(c.up.sib) == BlackHeight(t)
    requires Fits(c.up.up, false, BlackHeight(t) + 1)
    ensures Balanced(FixedFocus(c, t))
    ensures Fits(FixedCtx(c, t), IsRed(FixedFocus(c, t)), BlackHeight(FixedFocus(c, t)))
  {
  }

  /** One rotation at g when q is on the same side as p, else one at p and then one at g. */
  method RotateUp<V>(g: Node<V>, p: Node<V>, q: Node<V>, last: Dir, ghost c: Ctx<V>, ghost foc: Tree<V>)
    returns (top: Node<V>)
    requires RedPath(c) && foc.Br? && Root(foc) == q
    requires p == c.n && g == c.up.n && last == c.up.dir
    requires RepBelow(GrandTree(c, foc))
    modifies Nodes(GrandTree(c, foc))
    ensures RepBelow(FixedTree(c, foc)) && Root(FixedTree(c, foc)) == top
  {
    ghost var psub := ParentTree(c, foc);
    NodesAllocated(GrandTree(c, foc));
    if q == p.Child(last) {
      assert c.dir == last;
      top := Rotate(GrandTree(c, foc), g, !last);
    } else {
      RotatedSame(psub, last);
      var mid := Rotate(psub, p, last);
      Hang(g, last, Rotated(psub, last), mid);
      top := Rotate(ParentTree(c.up, Rotated(psub, last)), g, !last);
    }
  }

  method Fix<V>(t: Node<V>, g: Node<V>, p: Node<V>, q: Node<V>, last: Dir, ghost c: Ctx<V>, ghost foc: Tree<V>)
    requires RedPath(c) && foc.Br? && Root(foc) == q
    requires p == c.n && g == c.up.n && t == Above(c.up.up) && last == c.up.dir
    requires CtxRep(c, q) && Rep(foc, p) && Nodes(foc) !! CtxNodes(c)
    modifies Nodes(foc) + CtxNodes(c)
    ensures CtxRep(FixedCtx(c, foc), q) && Rep(FixedFocus(c, foc), Above(FixedCtx(c, foc)))
    ensures Nodes(FixedFocus(c, foc)) !! CtxNodes(FixedCtx(c, foc))
  {
    NodesAllocated(foc);
    CtxAllocated(c);
    FixedIsPlugged(c, foc);
    ghost var up, psub, gsub := c.up.up, ParentTree(c, foc), GrandTree(c, foc);
    assert CtxRep(c.up, p);
    assert CtxRep(up, g);
    assert RepBelow(psub);
    assert Nodes(gsub) !! CtxNodes(up);
    var dir2 := t.Child(true) == g;
    assert dir2 == HoleDir(up) by {
      if up.Frame? {
        assert up.n.Child(up.dir) == g && g !in Nodes(up.sib);
      }
    }
    var top := RotateUp(g, p, q, last, c, foc);
    Rehang(up, g, t, dir2, FixedTree(c, foc), top);
  }

  // ----- the state of the descent -----

  /** The structure is split at q: a represented context around a represented subtree. */
  ghost predicate SplitAt<V>(c: Ctx<V>, foc: Tree<V>, q: Node?<V>)
    reads CtxNodes(c), Nodes(foc)
  {
    CtxRep(c, q) && Rep(foc, Above(c)) && Root(foc) == q && Nodes(foc) !! CtxNodes(c)
  }

  /** Everything before the hole is below the key and everything after it above. */
  ghost predicate Searching<V>(c: Ctx<V>, foc: Tree<V>, key: int, order: seq<Node<V>>) {
    Full(c, foc) == order && Sorted(order) && AllBelow(Before(c), key) && AllAbove(After(c), key)
  }

  ghost predicate Fitting<V>(c: Ctx<V>, foc: Tree<V>) {
    Balanced(foc) && Fits(c, IsRed(foc), BlackHeight(foc))
  }

  /** The next node towards the key exists and will not be flipped. */
  predicate NextSafe<V>(foc: Tree<V>, key: int)
    requires foc.Br?
  {
    var kid := Kid(foc, foc.n.key < key);
    kid.Br? && !Flippable(kid)
  }

  /**
   * What is known of t, g and p. They are the true ancestors of q, except that a single rotation
   * leaves t stale and a double rotation leaves t and g stale (`wait`). Wherever one of them is
   * stale, no red-red edge can arise until it has been refreshed.
   */
  ghost predicate Helpers<V>(wait: bool, t: Node<V>, g: Node?<V>, p: Node?<V>, dir: Dir, last: Dir,
                             c: Ctx<V>, foc: Tree<V>, key: int)
  {
    match c
    case Top(head) => !wait && p == null && g == null && t == head && foc.Br? && !foc.red
    case Frame(up, n, red, d, sib) =>
      && p == n && dir == d
      && if wait then g != null && !red && IsRed(foc) && NextSafe(foc, key)
         else
           && !(IsRed(foc) && IsRed(sib))
           && (up.Top? ==> g == null && t == Above(up))
           && (up.Frame? ==> g == up.n && last == up.dir)
           && (|| !red
               || (foc.Br? && !Flippable(foc))
               || (up.Frame? && t == Above(up.up) && !IsRed(up.sib)))
  }

  /** The subtree once the new node has been put in or the colors have been flipped. */
  function Grown<V>(foc: Tree<V>, node: Node<V>): Tree<V> {
    if foc.Leaf? then Br(node, true, Leaf, Leaf) else if Flippable(foc) then Flipped(foc) else foc
  }

  predicate RedRed<V>(c: Ctx<V>, foc: Tree<V>) { IsRed(foc) && c.Frame? && c.red }

  /** A red-red edge only arises where t and g are the true ancestors and g's other child is black. */
  lemma RedRedHasHelpers<V>(wait: bool, t: Node<V>, g: Node?<V>, p: Node?<V>, dir: Dir, last: Dir,
                            c: Ctx<V>, foc: Tree<V>, key: int, node: Node<V>)
    requires Helpers(wait, t, g, p, dir, last, c, foc, key) && Fitting(c, foc)
    ensures Balanced(Grown(foc, node)) && BlackHeight(Grown(foc, node)) == BlackHeight(foc)
    ensures !RedRed(c, Grown(foc, node)) ==> Fitting(c, Grown(foc, node))
    ensures RedRed(c, Grown(foc, node)) ==>
              && RedPath(c) && p == c.n && g == c.up.n && t == Above(c.up.up) && last == c.up.dir
              && Fitting(FixedCtx(c, Grown(foc, node)), FixedFocus(c, Grown(foc, node)))
  {
    var grown := Grown(foc, node);
    if Flippable(foc) {
      FlippedSame(foc);
    }
    if RedRed(c, grown) {
      assert Fits(c.up, true, BlackHeight(foc));
      FixedFits(c, grown);
    } else if c.Frame? {
      assert Fits(c.up, c.red, BlackHeight(foc) + if c.red then 0 else 1);
    }
  }

  /** Going down one node: the helpers move along, and whatever was stale is refreshed in time. */
  lemma HelpersMove<V>(wait: bool, t: Node<V>, g: Node?<V>, p: Node?<V>, dir: Dir, last: Dir,
                       c: Ctx<V>, foc: Tree<V>, key: int, node: Node<V>, c2: Ctx<V>, foc2: Tree<V>)
    requires Helpers(wait, t, g, p, dir, last, c, foc, key) && Fitting(c, foc) && foc.Br?
    requires AllBelow(Before(c), key) && AllAbove(After(c), key) && foc.n.key != key
    requires var grown := Grown(foc, node);
             if RedRed(c, grown) then RedPath(c) && c2 == FixedCtx(c, grown) && foc2 == FixedFocus(c, grown)
             else c2 == c && foc2 == grown
    ensures var d := foc2.n.key < key;
            var double := RedRed(c, Grown(foc, node)) && c.dir != c.up.dir;
            Helpers(double, if g != null then g else t, p, foc2.n, d, dir,
                    Frame(c2, foc2.n, foc2.red, d, Kid(foc2, !d)), Kid(foc2, d), key)
  {
    if Flippable(foc) {
      FlippedSame(foc);
    }
    if RedRed(c, Grown(foc, node)) {
      assert c.n in (if c.dir then Before(c) else After(c));
      assert c.up.n in (if c.up.dir then Before(c) else After(c));
    }
  }

  /** The number of nodes from a subtree root towards the key. */
  ghost function PathLength<V>(t: Tree<V>, key: int): nat {
    if t.Leaf? then 0 else 1 + PathLength(Kid(t, t.n.key < key), key)
  }

  lemma FlipKeepsPath<V>(foc: Tree<V>, key: int)
    requires foc.Br?
    ensures Flippable(foc) ==> PathLength(Flipped(foc), key) == PathLength(foc, key)
  {
    if Flippable(foc) {
      assert PathLength(foc.l.(red := false), key) == PathLength(foc.l, key);
      assert PathLength(foc.r.(red := false), key) == PathLength(foc.r, key);
    }
  }

  lemma PathLengthAfter<V>(c: Ctx<V>, foc: Tree<V>, key: int, node: Node<V>, foc2: Tree<V>)
    requires foc.Br? && AllBelow(Before(c), key) && AllAbove(After(c), key) && foc.n.key != key
    requires var grown := Grown(foc, node);
             if RedRed(c, grown) then RedPath(c) && foc2 == FixedFocus(c, grown) else foc2 == grown
    ensures var double := RedRed(c, Grown(foc, node)) && c.dir != c.up.dir;
            PathLength(foc2, key) == PathLength(foc, key) + if double then 1 else 0
  {
    FlipKeepsPath(foc, key);
    if RedRed(c, Grown(foc, node)) {
      assert c.n in (if c.dir then Before(c) else After(c));
      assert c.up.n in (if c.up.dir then Before(c) else After(c));
    }
  }
}
