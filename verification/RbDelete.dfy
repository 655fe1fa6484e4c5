/** The steps of top-down deletion: pushing a red node down, and taking the last node out. */
module RbDelete {
  import opened RbNodes
  import opened RbInsert

  // ----- moving the split point -----

  lemma SplitDown<V>(c: Ctx<V>, t: Tree<V>, d: Dir)
    requires t.Br? && SplitAt(c, t, t.n)
    ensures SplitAt(Frame(c, t.n, t.red, d, Kid(t, !d)), Kid(t, d), Root(Kid(t, d)))
    ensures Full(Frame(c, t.n, t.red, d, Kid(t, !d)), Kid(t, d)) == Full(c, t)
    ensures CtxNodes(Frame(c, t.n, t.red, d, Kid(t, !d))) + Nodes(Kid(t, d)) == CtxNodes(c) + Nodes(t)
  {
    FullUp(c, t.n, t.red, d, Kid(t, !d), Kid(t, d));
  }

  lemma SplitUp<V>(c: Ctx<V>, t: Tree<V>)
    requires c.Frame? && SplitAt(c, t, Root(t))
    ensures SplitAt(c.up, Make(c.n, c.red, c.dir, t, c.sib), c.n)
    ensures Full(c.up, Make(c.n, c.red, c.dir, t, c.sib)) == Full(c, t)
    ensures CtxNodes(c.up) + Nodes(Make(c.n, c.red, c.dir, t, c.sib)) == CtxNodes(c) + Nodes(t)
  {
    FullUp(c.up, c.n, c.red, c.dir, c.sib, t);
    var m := Make(c.n, c.red, c.dir, t, c.sib);
    assert Nodes(m) == {c.n} + Nodes(t) + Nodes(c.sib) by {
      if c.dir {
      } else {
      }
    }
    assert CtxRep(c.up, c.n) && RepBelow(m);
  }

  /** Changing the color of the node at the split point. */
  method Paint<V>(ghost c: Ctx<V>, ghost t: Tree<V>, n: Node<V>, red: bool)
    requires t.Br? && SplitAt(c, t, n)
    modifies n`red
    ensures SplitAt(c, t.(red := red), n)
  {
    CtxAllocated(c);
    Recolor(t, Above(c), n, red);
  }

  // ----- pushing a red node down -----

  /**
   * The tree fits together, and the node above the hole, or the one in it, is red, except that
   * nothing is asked above the root.
   */
  ghost predicate Pushing<V>(c: Ctx<V>, foc: Tree<V>) {
    && Fitting(c, foc)
    && (c.Frame? ==> c.red || IsRed(foc) || (c.up.Top? && !IsRed(c.sib)))
  }

  /** What one visit of the loop does. */
  datatype Move = Nothing | RotateChild | FlipSibling | RotateSibling | RotateSiblingTwice

  function MoveAt<V>(c: Ctx<V>, foc: Tree<V>, dir: Dir): Move
    requires foc.Br?
  {
    if foc.red || IsRed(Kid(foc, dir)) then Nothing
    else if IsRed(Kid(foc, !dir)) then RotateChild
    else if c.Top? || c.sib.Leaf? then Nothing
    else if !IsRed(Kid(c.sib, !c.dir)) && !IsRed(Kid(c.sib, c.dir)) then FlipSibling
    else if IsRed(Kid(c.sib, c.dir)) then RotateSiblingTwice
    else RotateSibling
  }

  /** The context of the visited node afterwards. */
  function PushedCtx<V>(c: Ctx<V>, foc: Tree<V>, dir: Dir): Ctx<V>
    requires foc.Br?
  {
    match MoveAt(c, foc, dir)
    case Nothing => c
    case RotateChild =>
      var s := Kid(foc, !dir);
      Frame(c, s.n, false, dir, Kid(s, !dir))
    case FlipSibling => Frame(c.up, c.n, false, c.dir, c.sib.(red := true))
    case RotateSibling =>
      var s, last := c.sib, c.dir;
      Frame(Frame(c.up, s.n, true, last, Kid(s, !last).(red := false)), c.n, false, last, Kid(s, last))
    case RotateSiblingTwice =>
      var s, last := c.sib, c.dir;
      var x := Kid(s, last);
      Frame(Frame(c.up, x.n, true, last, Make(s.n, false, last, Kid(x, !last), Kid(s, !last))), c.n, false, last,
            Kid(x, last))
  }

  /** The subtree of the visited node afterwards. */
  function PushedFocus<V>(c: Ctx<V>, foc: Tree<V>, dir: Dir): (t: Tree<V>)
    requires foc.Br?
    ensures t.Br? && t.n == foc.n && Kid(t, dir) == Kid(foc, dir)
  {
    match MoveAt(c, foc, dir)
    case Nothing => foc
    case RotateChild => Make(foc.n, true, dir, Kid(foc, dir), Kid(Kid(foc, !dir), dir))
    case _ => foc.(red := true)
  }

  lemma RotateChildFits<V>(c: Ctx<V>, foc: Tree<V>, dir: Dir)
    requires foc.Br? && !foc.red && IsRed(Kid(foc, !dir)) && !IsRed(Kid(foc, dir)) && Fitting(c, foc)
    ensures var s := Kid(foc, !dir);
            Fitting(Frame(c, s.n, false, dir, Kid(s, !dir)), Make(foc.n, true, dir, Kid(foc, dir), Kid(s, dir)))
  {
    var s := Kid(foc, !dir);
    assert Balanced(s) && Balanced(Kid(foc, dir));
    assert Balanced(Make(foc.n, true, dir, Kid(foc, dir), Kid(s, dir)));
  }

  lemma FlipSiblingFits<V>(c: Ctx<V>, foc: Tree<V>)
    requires foc.Br? && !foc.red && !IsRed(foc.l) && !IsRed(foc.r) && Fitting(c, foc)
    requires c.Frame? && (c.red || c.up.Top?) && c.sib.Br? && !c.sib.red && !IsRed(c.sib.l) && !IsRed(c.sib.r)
    ensures Fitting(Frame(c.up, c.n, false, c.dir, c.sib.(red := true)), foc.(red := true))
  {
    var s := c.sib.(red := true);
    assert Balanced(s) && BlackHeight(s) == BlackHeight(foc) - 1 == BlackHeight(foc.(red := true));
    if c.red {
      assert Fits(c.up, true, BlackHeight(foc));
      assert Fits(c.up, false, BlackHeight(foc));
    }
  }

  lemma RotateSiblingFits<V>(c: Ctx<V>, foc: Tree<V>, dir: Dir)
    requires foc.Br? && Pushing(c, foc)
    requires MoveAt(c, foc, dir).RotateSibling? || MoveAt(c, foc, dir).RotateSiblingTwice?
    ensures Fitting(PushedCtx(c, foc, dir), PushedFocus(c, foc, dir))
  {
    var c2, foc2, s, last := PushedCtx(c, foc, dir), PushedFocus(c, foc, dir), c.sib, c.dir;
    assert Balanced(foc2) && BlackHeight(foc2) == BlackHeight(foc) - 1;
    assert Balanced(Kid(s, last)) && Balanced(Kid(s, !last));
    assert BlackHeight(Kid(s, last)) == BlackHeight(Kid(s, !last)) == BlackHeight(foc) - 1;
    assert Fits(c.up, true, BlackHeight(foc));
    if MoveAt(c, foc, dir).RotateSibling? {
      Blackened(Kid(s, !last));
    }
    assert Fits(c2.up, false, BlackHeight(foc));
  }

  lemma StepDownFits<V>(c: Ctx<V>, t: Tree<V>, d: Dir)
    requires t.Br? && Fitting(c, t)
    ensures Fitting(Frame(c, t.n, t.red, d, Kid(t, !d)), Kid(t, d))
  {
  }

  /** After the visit the invariant holds one level further down. */
  lemma PushKeeps<V>(c: Ctx<V>, foc: Tree<V>, dir: Dir)
    requires foc.Br? && Pushing(c, foc)
    ensures var c2, foc2 := PushedCtx(c, foc, dir), PushedFocus(c, foc, dir);
            Pushing(Frame(c2, foc2.n, foc2.red, dir, Kid(foc2, !dir)), Kid(foc2, dir))
  {
    var c2, foc2 := PushedCtx(c, foc, dir), PushedFocus(c, foc, dir);
    match MoveAt(c, foc, dir) {
      case Nothing =>
      case RotateChild => RotateChildFits(c, foc, dir);
      case FlipSibling =>
        FlipSiblingFits(c, foc);
      case _ => RotateSiblingFits(c, foc, dir);
    }
    StepDownFits(c2, foc2, dir);
  }

  lemma SplitSame<V>(c: Ctx<V>, t: Tree<V>)
    requires c.Frame?
    ensures Full(c, t) == Full(c.up, ParentTree(c, t))
    ensures Nodes(t) + CtxNodes(c) == Nodes(ParentTree(c, t)) + CtxNodes(c.up)
  {
    FullUp(c.up, c.n, c.red, c.dir, c.sib, t);
    assert Nodes(ParentTree(c, t)) == {c.n} + Nodes(t) + Nodes(c.sib);
  }

  /** The part of the tree around the visited node that a move rearranges. */
  lemma TwoUp<V>(c: Ctx<V>, t: Tree<V>)
    requires c.Frame? && c.up.Frame?
    ensures Full(c, t) == Full(c.up.up, GrandTree(c, t))
    ensures Nodes(t) + CtxNodes(c) == Nodes(GrandTree(c, t)) + CtxNodes(c.up.up)
  {
    SplitSame(c, t);
    SplitSame(c.up, ParentTree(c, t));
  }

  /** A rotation at the parent, the colors left open. */
  lemma SiblingOrder<V>(c: Ctx<V>, foc: Tree<V>, dir: Dir)
    requires foc.Br? && (MoveAt(c, foc, dir).RotateSibling? || MoveAt(c, foc, dir).RotateSiblingTwice?)
    ensures InOrder(GrandTree(PushedCtx(c, foc, dir), PushedFocus(c, foc, dir))) == InOrder(ParentTree(c, foc))
    ensures Nodes(GrandTree(PushedCtx(c, foc, dir), PushedFocus(c, foc, dir))) == Nodes(ParentTree(c, foc))
  {
    var s, last, p := c.sib, c.dir, ParentTree(c, foc);
    Painted(foc, true);
    if MoveAt(c, foc, dir).RotateSibling? {
      if Kid(s, !last).Br? {
        Painted(Kid(s, !last), false);
      }
      RotatedSame(p, last);
    } else {
      RotatedSame(s, !last);
      RotatedSame(Make(c.n, c.red, last, foc, Rotated(s, !last)), last);
    }
  }

  /** Rotations and flips keep the order and the nodes. */
  lemma PushOrder<V>(c: Ctx<V>, foc: Tree<V>, dir: Dir)
    requires foc.Br?
    ensures Full(PushedCtx(c, foc, dir), PushedFocus(c, foc, dir)) == Full(c, foc)
    ensures Nodes(PushedFocus(c, foc, dir)) + CtxNodes(PushedCtx(c, foc, dir)) == Nodes(foc) + CtxNodes(c)
    ensures Head(PushedCtx(c, foc, dir)) == Head(c)
  {
    var c2, foc2 := PushedCtx(c, foc, dir), PushedFocus(c, foc, dir);
    match MoveAt(c, foc, dir) {
      case Nothing =>
      case RotateChild =>
        RotatedSame(foc, dir);
        SplitSame(c2, foc2);
      case FlipSibling =>
        Painted(c.sib, true);
        Painted(foc, true);
      case _ =>
        SiblingOrder(c, foc, dir);
        TwoUp(c2, foc2);
        SplitSame(c, foc);
    }
  }

  // ----- the moves on the node structure -----

  method RotateChildUp<V>(p: Node<V>, q: Node<V>, last: Dir, dir: Dir, ghost c: Ctx<V>, ghost foc: Tree<V>)
    returns (p2: Node<V>)
    requires SplitAt(c, foc, q) && foc.Br? && p == Above(c) && last == HoleDir(c)
    requires MoveAt(c, foc, dir).RotateChild?
    modifies Nodes(foc) + CtxNodes(c)
    ensures SplitAt(PushedCtx(c, foc, dir), PushedFocus(c, foc, dir), q) && p2 == Above(PushedCtx(c, foc, dir))
  {
    NodesAllocated(foc);
    CtxAllocated(c);
    RotatedSame(foc, dir);
    var save := Rotate(foc, q, dir);
    Rehang(c, q, p, last, Rotated(foc, dir), save);
    p2 := p.Child(last);
    SplitDown(c, Rotated(foc, dir), dir);
  }

  method FlipColors<V>(p: Node<V>, q: Node<V>, s: Node<V>, ghost c: Ctx<V>, ghost foc: Tree<V>, ghost dir: Dir)
    requires SplitAt(c, foc, q) && foc.Br? && c.Frame? && p == c.n && Root(c.sib) == s
    requires MoveAt(c, foc, dir).FlipSibling?
    modifies p`red, q`red, s`red
    ensures SplitAt(PushedCtx(c, foc, dir), PushedFocus(c, foc, dir), q)
  {
    ghost var up, last := c.up, c.dir;
    SplitUp(c, foc);
    Paint(up, ParentTree(c, foc), p, false);
    SplitDown(up, Make(p, false, last, foc, c.sib), !last);
    Paint(Frame(up, p, false, !last, foc), c.sib, s, true);
    SplitUp(Frame(up, p, false, !last, foc), c.sib.(red := true));
    SplitDown(up, Make(p, false, last, foc, c.sib.(red := true)), last);
    Paint(Frame(up, p, false, last, c.sib.(red := true)), foc, q, true);
  }

  /** The inner child of the sibling comes up between p and the sibling. */
  method RotateInner<V>(p: Node<V>, s: Node<V>, last: Dir, ghost red: bool, ghost foc: Tree<V>, ghost sib: Tree<V>)
    requires sib.Br? && Kid(sib, last).Br? && Root(sib) == s
    requires RepBelow(Make(p, red, last, foc, sib))
    modifies Nodes(sib) + {p}
    ensures RepBelow(Make(p, red, last, foc, Rotated(sib, !last)))
    ensures Nodes(Make(p, red, last, foc, Rotated(sib, !last))) == Nodes(Make(p, red, last, foc, sib))
  {
    NodesAllocated(foc);
    NodesAllocated(sib);
    RotatedSame(sib, !last);
    assert RepBelow(foc) && RepBelow(sib);
    var mid := Rotate(sib, s, !last);
    Hang(p, !last, Rotated(sib, !last), mid);
  }

  /** The sibling, or its inner child, comes up over p. */
  method RotateAtParent<V>(p: Node<V>, s: Node<V>, last: Dir, twice: bool, ghost c: Ctx<V>, ghost foc: Tree<V>)
    returns (top: Node<V>)
    requires c.Frame? && p == c.n && last == c.dir && c.sib.Br? && Root(c.sib) == s
    requires twice ==> Kid(c.sib, last).Br?
    requires RepBelow(ParentTree(c, foc))
    modifies Nodes(ParentTree(c, foc))
    ensures var t := Rotated(if twice then Make(p, c.red, last, foc, Rotated(c.sib, !last))
                             else ParentTree(c, foc), last);
            RepBelow(t) && Root(t) == top && Nodes(t) == Nodes(ParentTree(c, foc))
  {
    ghost var sub := ParentTree(c, foc);
    NodesAllocated(sub);
    if twice {
      RotateInner(p, s, last, c.red, foc, c.sib);
      sub := Make(p, c.red, last, foc, Rotated(c.sib, !last));
    }
    RotatedSame(sub, last);
    top := Rotate(sub, p, last);
  }

  /** The new top red, its two children black, q red. */
  method RecolorFour<V>(top: Node<V>, p: Node<V>, other: Node<V>, q: Node<V>, last: Dir,
                        ghost up: Ctx<V>, ghost foc: Tree<V>, ghost psib: Tree<V>, ghost outer: Tree<V>)
    requires foc.Br? && outer.Br? && Root(foc) == q && Root(outer) == other
    requires SplitAt(up, Make(top, false, last, Make(p, true, last, foc, psib), outer), top)
    modifies top`red, p`red, other`red, q`red
    ensures SplitAt(Frame(Frame(up, top, true, last, outer.(red := false)), p, false, last, psib), foc.(red := true), q)
  {
    ghost var low, hot, cool := Make(p, true, last, foc, psib), foc.(red := true), outer.(red := false);
    Paint(up, Make(top, false, last, low, outer), top, true);
    SplitDown(up, Make(top, true, last, low, outer), last);
    ghost var c1 := Frame(up, top, true, last, outer);
    SplitDown(c1, low, last);
    Paint(Frame(c1, p, true, last, psib), foc, q, true);
    SplitUp(Frame(c1, p, true, last, psib), hot);
    Paint(c1, Make(p, true, last, hot, psib), p, false);
    low := Make(p, false, last, hot, psib);
    SplitUp(c1, low);
    SplitDown(up, Make(top, true, last, low, outer), !last);
    Paint(Frame(up, top, true, !last, low), outer, other, false);
    SplitUp(Frame(up, top, true, !last, low), cool);
    SplitDown(up, Make(top, true, last, low, cool), last);
    SplitDown(Frame(up, top, true, last, cool), low, last);
  }

  method RotateSiblingUp<V>(g: Node<V>, p: Node<V>, q: Node<V>, s: Node<V>, last: Dir, ghost dir: Dir, ghost c: Ctx<V>,
                            ghost foc: Tree<V>)
    requires SplitAt(c, foc, q) && foc.Br? && c.Frame? && p == c.n && last == c.dir && Root(c.sib) == s &&
             g == Above(c.up)
    requires MoveAt(c, foc, dir).RotateSibling? || MoveAt(c, foc, dir).RotateSiblingTwice?
    modifies Nodes(foc) + CtxNodes(c)
    ensures SplitAt(PushedCtx(c, foc, dir), PushedFocus(c, foc, dir), q)
  {
    NodesAllocated(foc);
    CtxAllocated(c);
    ghost var up, sib := c.up, c.sib;
    SplitUp(c, foc);
    assert Nodes(ParentTree(c, foc)) !! CtxNodes(up);
    var dir2 := g.Child(true) == p;
    assert dir2 == HoleDir(up) by {
      if up.Frame? {
        assert up.n.Child(up.dir) == p && p !in Nodes(up.sib);
      }
    }
    KidColors(sib, last);
    var twice := IsRedNode(s.Child(last));
    var top := RotateAtParent(p, s, last, twice, c, foc);
    ghost var t := Rotated(if twice then Make(p, c.red, last, foc, Rotated(sib, !last)) else ParentTree(c, foc), last);
    Rehang(up, p, g, dir2, t, top);
    ghost var psib := if twice then Kid(Kid(sib, last), last) else Kid(sib, last);
    ghost var outer := if twice then Make(s, true, last, Kid(Kid(sib, last), !last), Kid(sib, !last))
        else Kid(sib, !last);
    assert t == Make(top, false, last, Make(p, true, last, foc, psib), outer);
    RecolorFour(top, p, top.Child(!last), q, last, up, foc, psib, outer);
  }

  /** One visit of the loop of `del`, below the comparison of keys. */
  method Push<V>(g: Node?<V>, p: Node<V>, q: Node<V>, last: Dir, dir: Dir, ghost c: Ctx<V>, ghost foc: Tree<V>)
    returns (p2: Node<V>)
    requires SplitAt(c, foc, q) && foc.Br? && p == Above(c) && last == HoleDir(c) && (c.Frame? ==> g == Above(c.up))
    modifies Nodes(foc) + CtxNodes(c)
    ensures SplitAt(PushedCtx(c, foc, dir), PushedFocus(c, foc, dir), q) && p2 == Above(PushedCtx(c, foc, dir))
  {
    NodesAllocated(foc);
    CtxAllocated(c);
    p2 := p;
    KidColors(foc, dir);
    if !IsRedNode(q) && !IsRedNode(q.Child(dir)) {
      if IsRedNode(q.Child(!dir)) {
        p2 := RotateChildUp(p, q, last, dir, c, foc);
      } else {
        var s := p.Child(!last);
        assert s == if c.Top? then null else Root(c.sib);
        if s != null {
          KidColors(c.sib, last);
          if !IsRedNode(s.Child(!last)) && !IsRedNode(s.Child(last)) {
            FlipColors(p, q, s, c, foc, dir);
          } else {
            RotateSiblingUp(g, p, q, s, last, dir, c, foc);
          }
        }
      }
    }
  }

  // ----- taking the last node out -----

  /** The nodes on the way from the head to the hole. */
  ghost function Spine<V>(c: Ctx<V>): set<Node<V>> {
    match c
    case Top(_) => {}
    case Frame(up, n, _, _, _) => {n} + Spine(up)
  }

  /** `f` hangs beside the way down nowhere, and is not the head. */
  ghost predicate Clear<V>(c: Ctx<V>, f: Node<V>) {
    match c
    case Top(head) => f != head
    case Frame(up, _, _, _, sib) => f !in Nodes(sib) && Clear(up, f)
  }

  /** The context with `q` in the place of `f`. */
  function Subst<V>(c: Ctx<V>, f: Node<V>, q: Node<V>): Ctx<V> {
    match c
    case Top(head) => c
    case Frame(up, n, red, dir, sib) => Frame(Subst(up, f, q), if n == f then q else n, red, dir, sib)
  }

  lemma {:induction false} SpineIsClear<V>(c: Ctx<V>, hole: Node?<V>, f: Node<V>)
    requires CtxRep(c, hole) && f in Spine(c)
    ensures Clear(c, f) && f in CtxNodes(c)
  {
    if c.n == f {
      OutsideIsClear(c.up, f);
    } else {
      SpineIsClear(c.up, c.n, f);
    }
  }

  lemma {:induction false} OutsideIsClear<V>(c: Ctx<V>, f: Node<V>)
    requires f !in CtxNodes(c)
    ensures Clear(c, f) && f !in Spine(c)
  {
    if c.Frame? {
      OutsideIsClear(c.up, f);
    }
  }

  lemma {:induction false} SubstNodes<V>(c: Ctx<V>, f: Node<V>, q: Node<V>)
    requires Clear(c, f) && q != f
    ensures CtxNodes(c) - {f} <= CtxNodes(Subst(c, f, q)) <= CtxNodes(c) - {f} + {q}
    ensures f !in CtxNodes(c) ==> Subst(c, f, q) == c
    ensures f in Spine(c) <==> f in CtxNodes(c)
    ensures f in Spine(c) ==> q in CtxNodes(Subst(c, f, q))
    ensures Head(Subst(c, f, q)) == Head(c)
  {
    if c.Frame? {
      SubstNodes(c.up, f, q);
    }
  }

  lemma {:induction false} SubstFits<V>(c: Ctx<V>, f: Node<V>, q: Node<V>, red: bool, h: nat)
    requires Fits(c, red, h)
    ensures Fits(Subst(c, f, q), red, h)
  {
    if c.Frame? {
      SubstFits(c.up, f, q, c.red, h + if c.red then 0 else 1);
    }
  }

  /** Links to f become links to q, child links to q become null. */
  function ChildLink<V>(x: Node?<V>, f: Node<V>, q: Node<V>): Node?<V> {
    if x == f then q else if x == q then null else x
  }

  function ParentLink<V>(x: Node?<V>, f: Node<V>, q: Node<V>): Node?<V> {
    if x == f then q else x
  }

  /** Every node but f has its links redirected, and q has those of f. */
  twostate predicate Redirected<V>(ns: set<Node<V>>, f: Node<V>, q: Node<V>)
    reads ns, q
  {
    && (forall n :: n in ns ==> old(allocated(n)))
    && (forall n :: n in ns && n != f ==>
          && n.left == ChildLink(old(n.left), f, q) && n.right == ChildLink(old(n.right), f, q)
          && n.red == old(n.red) && n.parent == ParentLink(old(n.parent), f, q))
    && (f in ns ==>
          && q.left == ChildLink(old(f.left), f, q) && q.right == ChildLink(old(f.right), f, q)
          && q.red == old(f.red) && q.parent == ParentLink(old(f.parent), f, q))
  }

  /** A part of the structure, the node it hangs from or that hangs in it, and the two nodes that change places. */
  datatype Part<V, X> = Part(at: X, link: Node?<V>, f: Node<V>, q: Node<V>)

  /** A subtree without f and q only sees the parent link of its root redirected. */
  twostate lemma {:induction false} RedirectedTree<V>(s: Part<V, Tree<V>>)
    requires old(Rep(s.at, s.link)) && s.f !in Nodes(s.at) && s.q !in Nodes(s.at)
    requires Redirected(Nodes(s.at), s.f, s.q)
    ensures Rep(s.at, ParentLink(s.link, s.f, s.q))
    decreases s.at
  {
    var t := s.at;
    if t.Br? {
      assert old(Rep(t.l, t.n)) && old(Rep(t.r, t.n));
      RedirectedTree(Part(t.l, t.n, s.f, s.q));
      RedirectedTree(Part(t.r, t.n, s.f, s.q));
    }
  }

  /** The innermost frame, once what is above it and beside it is redirected. */
  twostate lemma RedirectedFrame<V>(s: Part<V, Ctx<V>>)
    requires old(CtxRep(s.at, s.link)) && Clear(s.at, s.f) && s.q !in CtxNodes(s.at) && s.q != s.f && s.at.Frame?
    requires Redirected(CtxNodes(s.at), s.f, s.q)
    requires CtxRep(Subst(s.at.up, s.f, s.q), ChildLink(s.at.n, s.f, s.q))
    requires Rep(s.at.sib, ParentLink(s.at.n, s.f, s.q))
    ensures CtxRep(Subst(s.at, s.f, s.q), ChildLink(s.link, s.f, s.q))
  {
    SubstNodes(s.at.up, s.f, s.q);
  }

  /** Redirecting all links turns the context into the one with q in the place of f. */
  twostate lemma {:induction false} RedirectedCtx<V>(s: Part<V, Ctx<V>>)
    requires old(CtxRep(s.at, s.link)) && Clear(s.at, s.f) && s.q !in CtxNodes(s.at) && s.q != s.f
    requires Redirected(CtxNodes(s.at), s.f, s.q)
    ensures CtxRep(Subst(s.at, s.f, s.q), ChildLink(s.link, s.f, s.q))
    decreases s.at
  {
    var f, q := s.f, s.q;
    match s.at {
      case Top(_) =>
      case Frame(up, n, red, dir, sib) =>
        assert old(CtxRep(up, n)) && old(Rep(sib, n));
        RedirectedCtx(Part(up, n, f, q));
        RedirectedTree(Part(sib, n, f, q));
        RedirectedFrame(s);
    }
  }

  /** Child links and parent links agree among these nodes; only `top` links to the hole. */
  ghost predicate Linked<V>(ns: set<Node<V>>, hole: Node?<V>, top: Node?<V>)
    reads ns
  {
    && (forall n :: n in ns ==>
          && (n.left != null ==> if n.left == hole then n == top else n.left in ns && n.left.parent == n)
          && (n.right != null ==> if n.right == hole then n == top else n.right in ns && n.right.parent == n))
    && (forall n :: n in ns ==> n.left == n.right ==> n.left == null)
  }

  ghost predicate Owned<V>(ns: set<Node<V>>, root: Node?<V>)
    reads ns
  {
    forall n :: n in ns && n != root ==> n.parent in ns && (n.parent.left == n || n.parent.right == n)
  }

  lemma {:induction false} TreeLinked<V>(t: Tree<V>, hole: Node<V>)
    requires RepBelow(t) && hole !in Nodes(t)
    ensures Linked(Nodes(t), hole, null) && Owned(Nodes(t), Root(t))
  {
    if t.Br? {
      assert RepBelow(t.l) && RepBelow(t.r);
      TreeLinked(t.l, hole);
      TreeLinked(t.r, hole);
    }
  }

  lemma {:induction false} CtxLinked<V>(c: Ctx<V>, hole: Node<V>)
    requires CtxRep(c, hole) && hole !in CtxNodes(c)
    ensures Linked(CtxNodes(c), hole, Above(c)) && Owned(CtxNodes(c), Head(c)) && Head(c).parent == null
  {
    match c {
      case Top(_) =>
      case Frame(up, n, red, dir, sib) =>
        CtxLinked(up, n);
        TreeLinked(sib, hole);
        assert Owned(CtxNodes(up), Head(up)) && Owned(Nodes(sib), Root(sib));
    }
  }

  lemma {:induction false} SpineLinks<V>(c: Ctx<V>, hole: Node<V>, f: Node<V>)
    requires CtxRep(c, hole) && f in Spine(c) && hole !in CtxNodes(c)
    ensures f.parent != null && f.parent != f && f.left != f && f.right != f
    ensures f.parent in CtxNodes(c) && (f.parent.left == f || f.parent.right == f)
    ensures f.left != f.parent && f.right != f.parent && (f.left == f.right ==> f.left == null)
    ensures f.left != null && f.left != hole ==> f.left in CtxNodes(c) && f.left.parent == f
    ensures f.right != null && f.right != hole ==> f.right in CtxNodes(c) && f.right.parent == f
    ensures f.left == hole || f.right == hole ==> f == Above(c)
  {
    if c.n == f {
      assert Rep(c.sib, f) && CtxRep(c.up, f);
      assert c.up.Frame? ==> c.up.n.Child(c.up.dir) == f;
    } else {
      SpineLinks(c.up, c.n, f);
    }
  }

  /** What `replace` and the `setChild` after it do, link by link; q was the hole below p. */
  twostate predicate Relinked<V>(f: Node<V>, q: Node<V>, p: Node<V>, up: Node<V>, l: Node?<V>, r: Node?<V>)
    reads q, p, up, l, r
  {
    && q.left == ChildLink(old(f.left), f, q) && q.right == ChildLink(old(f.right), f, q)
    && q.red == old(f.red) && q.parent == old(f.parent)
    && (p != f ==> p.left == ChildLink(old(p.left), f, q) && p.right == ChildLink(old(p.right), f, q))
    && (p != f ==> p.red == old(p.red))
    && (p != f && p != l && p != r ==> p.parent == old(p.parent))
    && up.left == (if old(up.left) == f then q else old(up.left))
    && up.right == (if old(up.left) == f then old(up.right) else q)
    && up.red == old(up.red) && up.parent == old(up.parent)
    && (l != null && l != q ==> l.parent == q && l.red == old(l.red))
    && (l != null && l != q && l != p ==> l.left == old(l.left) && l.right == old(l.right))
    && (r != null && r != q ==> r.parent == q && r.red == old(r.red))
    && (r != null && r != q && r != p ==> r.left == old(r.left) && r.right == old(r.right))
  }

  method Relink<V>(f: Node<V>, q: Node<V>, p: Node<V>)
    requires f.parent != null && f.parent != f && f.left != f && f.right != f && q != f && q != p && q != f.parent
    requires f.left != f.parent && f.right != f.parent && (f.left == f.right ==> f.left == null)
    requires f.left != null ==> f.left.parent == f
    requires f.right != null ==> f.right.parent == f
    requires f.parent.left == f || f.parent.right == f
    requires p != f.parent && (p == f || (p.left != f && p.right != f))
    requires (p.left == q || p.right == q) && (p.left == p.right ==> p.left == null)
    requires f.left == q || f.right == q ==> f == p
    requires q.left == null && q.right == null
    modifies f, q, p, f.parent, f.left, f.right
    ensures Relinked(f, q, p, old(f.parent), old(f.left), old(f.right))
  {
    var child := q.Child(q.Child(false) == null);
    Replace(f, q);
    p.SetChild(p.Child(true) == q, child);
  }

  /** The nodes of a context, its head, and the nodes that change places, the last one taken from below p. */
  datatype Cut<V> = Cut(ns: set<Node<V>>, head: Node<V>, f: Node<V>, q: Node<V>, p: Node<V>)

  /** Those changes redirect every link. */
  twostate lemma RelinkRedirects<V>(cut: Cut<V>)
    requires forall n :: n in cut.ns ==> old(allocated(n))
    requires old(Linked(cut.ns, cut.q, cut.p) && Owned(cut.ns, cut.head) && cut.head.parent == null)
    requires cut.f in cut.ns && cut.p in cut.ns && cut.q !in cut.ns && cut.f != cut.head
    requires old(cut.f.parent) != cut.f && old(cut.f.parent) != cut.p
    requires Relinked(cut.f, cut.q, cut.p, old(cut.f.parent), old(cut.f.left), old(cut.f.right))
    requires forall n :: (n in cut.ns && n != cut.f && n != cut.p && n != old(cut.f.parent) && n != old(cut.f.left) &&
                          n != old(cut.f.right)) ==> Same(n)
    ensures Redirected(cut.ns, cut.f, cut.q)
  {
    var ns, f, q := cut.ns, cut.f, cut.q;
    forall n | n in ns && n != f
      ensures n.left == ChildLink(old(n.left), f, q) && n.right == ChildLink(old(n.right), f, q) && n.red == old(n.red)
    {
    }
    forall n | n in ns && n != f
      ensures n.parent == ParentLink(old(n.parent), f, q)
    {
    }
  }

  /** The found node f gives its place to the last node q, which is taken out of its own place below p. */
  method Splice<V>(f: Node<V>, q: Node<V>, p: Node<V>, ghost c: Ctx<V>)
    requires CtxRep(c, q) && p == Above(c) && q !in CtxNodes(c) && f in Spine(c)
    requires q.parent == p && q.left == null && q.right == null
    modifies CtxNodes(c) + {q}
    ensures CtxRep(Subst(c, f, q), null)
  {
    CtxAllocated(c);
    SpineIsClear(c, q, f);
    SpineLinks(c, q, f);
    CtxLinked(c, q);
    assert p != f.parent && p.Child(c.dir) == q && p.Child(!c.dir) != q && p.Child(!c.dir) != f;
    Relink(f, q, p);
    RelinkRedirects(Cut(CtxNodes(c), Head(c), f, q, p));
    RedirectedCtx(Part(c, q, f, q));
  }

  // ----- what deletion does to the order -----

  /** The sequence with q in the place of f. */
  ghost function SubstSeq<V>(ns: seq<Node<V>>, f: Node<V>, q: Node<V>): (r: seq<Node<V>>)
    ensures |r| == |ns|
    ensures forall i :: 0 <= i < |ns| ==> r[i] == if ns[i] == f then q else ns[i]
  {
    seq(|ns|, i requires 0 <= i < |ns| => if ns[i] == f then q else ns[i])
  }

  lemma {:induction false} SubstOrder<V>(c: Ctx<V>, f: Node<V>, q: Node<V>)
    requires Clear(c, f)
    ensures Before(Subst(c, f, q)) == SubstSeq(Before(c), f, q)
    ensures After(Subst(c, f, q)) == SubstSeq(After(c), f, q)
  {
    if c.Frame? {
      SubstOrder(c.up, f, q);
      NodesInOrder(c.sib);
      forall i | 0 <= i < |InOrder(c.sib)| ensures InOrder(c.sib)[i] != f {
        assert InOrder(c.sib)[i] in InOrder(c.sib);
      }
    }
  }

  lemma InnerOrder<V>(s: Tree<V>, last: Dir)
    requires s.Br? && Kid(s, last).Br?
    ensures var x := Kid(s, last);
            var outer := Make(s.n, false, last, Kid(x, !last), Kid(s, !last));
            InOrder(s) == if last then InOrder(outer) + [x.n] + InOrder(Kid(x, last))
                else InOrder(Kid(x, last)) + [x.n] + InOrder(outer)
  {
  }

  lemma TwiceSides<V>(c: Ctx<V>)
    requires c.Frame? && c.sib.Br? && Kid(c.sib, c.dir).Br?
    ensures var last, s, x := c.dir, c.sib, Kid(c.sib, c.dir);
            var c2 := Frame(Frame(c.up, x.n, true, last, Make(s.n, false, last, Kid(x, !last), Kid(s, !last))), c.n,
                            false, last, Kid(x, last));
            Before(c2) == Before(c) && After(c2) == After(c)
  {
    InnerOrder(c.sib, c.dir);
  }

  lemma OnceSides<V>(c: Ctx<V>)
    requires c.Frame? && c.sib.Br? && Kid(c.sib, !c.dir).Br?
    ensures var last, s := c.dir, c.sib;
            var c2 := Frame(Frame(c.up, s.n, true, last, Kid(s, !last).(red := false)), c.n, false, last, Kid(s, last));
            Before(c2) == Before(c) && After(c2) == After(c)
  {
    Painted(Kid(c.sib, !c.dir), false);
  }

  /** A move leaves what lies beyond the visited node, on the side gone to, alone. */
  lemma PushSides<V>(c: Ctx<V>, foc: Tree<V>, dir: Dir)
    requires foc.Br?
    ensures dir ==> After(PushedCtx(c, foc, dir)) == After(c)
    ensures !dir ==> Before(PushedCtx(c, foc, dir)) == Before(c)
  {
    match MoveAt(c, foc, dir) {
      case FlipSibling => Painted(c.sib, true);
      case RotateSibling => OnceSides(c);
      case RotateSiblingTwice => TwiceSides(c);
      case _ =>
    }
  }

  /** What is known of the found node: it is the first one after the hole, or all there are above the key. */
  ghost predicate Found<V>(f: Node?<V>, c: Ctx<V>, key: int) {
    && AllBelow(Before(c), key)
    && if f == null then AllAbove(After(c), key) else After(c) != [] && After(c)[0] == f && f.key == key
  }

  /** Everything still below the hole comes before the found node. */
  lemma BelowFound<V>(f: Node<V>, c: Ctx<V>, foc: Tree<V>, key: int)
    requires foc.Br? && Found(f, c, key) && Sorted(Full(c, foc))
    ensures foc.n.key < key
  {
    var order := Full(c, foc);
    var j, k := |Before(c)| + |InOrder(foc.l)|, |order| - |After(c)|;
    assert order[k] == After(c)[0] == f;
    assert order[j] == foc.n;
  }

  lemma FoundMoves<V>(f: Node?<V>, c: Ctx<V>, foc: Tree<V>, key: int, order: seq<Node<V>>)
    requires foc.Br? && Found(f, c, key) && Full(c, foc) == order && Sorted(order)
    ensures var dir := foc.n.key < key;
            var c2, foc2 := PushedCtx(c, foc, dir), PushedFocus(c, foc, dir);
            var c3 := Frame(c2, foc2.n, foc2.red, dir, Kid(foc2, !dir));
            && Full(c3, Kid(foc2, dir)) == order
            && Found(if foc.n.key == key then foc.n else f, c3, key)
  {
    var n, dir := foc.n, foc.n.key < key;
    var c2, foc2 := PushedCtx(c, foc, dir), PushedFocus(c, foc, dir);
    var c3 := Frame(c2, n, foc2.red, dir, Kid(foc2, !dir));
    if f != null {
      BelowFound(f, c, foc, key);
    }
    PushOrder(c, foc, dir);
    PushSides(c, foc, dir);
    FullUp(c2, n, foc2.red, dir, Kid(foc2, !dir), Kid(foc2, dir));
    if dir {
      var m := |Before(c3)| - 1;
      assert Before(c3)[m] == n && order[m] == n;
      forall i | 0 <= i < |Before(c3)| ensures Before(c3)[i].key < key {
        assert Before(c3)[i] == order[i];
      }
    } else {
      var m := |order| - |After(c3)|;
      assert After(c3)[0] == n && order[m] == n;
      if n.key > key {
        forall i | 0 <= i < |After(c3)| ensures After(c3)[i].key > key {
          assert After(c3)[i] == order[m + i];
        }
      }
    }
  }

  lemma {:induction false} FirstAfterOnSpine<V>(c: Ctx<V>)
    requires After(c) != []
    ensures After(c)[0] in Spine(c)
  {
    if c.dir {
      FirstAfterOnSpine(c.up);
    }
  }

  lemma ShortTree<V>(t: Tree<V>)
    requires Balanced(t) && BlackHeight(t) == 1
    ensures t.Leaf? || t.red
  {
  }

  /** Where the loop ends, the node above the hole is the last on its way and a leaf. */
  lemma LastIsLeaf<V>(c: Ctx<V>)
    requires c.Frame? && Pushing(c, Leaf)
    ensures c.sib.Leaf? && Fits(c.up, false, 1)
  {
    ShortTree(c.sib);
    if c.red {
      assert Fits(c.up, true, 1);
    }
  }

  /** The found node heads what follows; all after it is above the key. */
  lemma AboveFound<V>(b: seq<Node<V>>, f: Node<V>, a: seq<Node<V>>)
    requires Sorted(b + a) && a != [] && a[0] == f
    ensures AllAbove(a[1..], f.key) && f !in b && f !in a[1..]
    ensures b + a == b + [f] + a[1..]
  {
    var all := b + a;
    forall i | 0 <= i < |a[1..]| ensures a[1..][i].key > f.key {
      assert all[|b|] == a[0] && all[|b| + 1 + i] == a[1..][i];
    }
    forall i | 0 <= i < |b| ensures b[i] != f {
      assert all[|b|] == a[0] && all[i] == b[i];
    }
  }

  lemma SubstSeqElsewhere<V>(ns: seq<Node<V>>, f: Node<V>, q: Node<V>)
    requires f !in ns
    ensures SubstSeq(ns, f, q) == ns
  {
    forall i | 0 <= i < |ns| ensures ns[i] != f {
      assert ns[i] in ns;
    }
  }

  /** Another node in the place of the found one: the sequence around the hole. */
  lemma SubstitutedOrder<V>(up: Ctx<V>, f: Node<V>, q: Node<V>)
    requires Clear(up, f) && f !in Before(up) && After(up) != [] && After(up)[0] == f && f !in After(up)[1..]
    ensures Full(Subst(up, f, q), Leaf) == Before(up) + [q] + After(up)[1..]
  {
    SubstOrder(up, f, q);
    SubstSeqElsewhere(Before(up), f, q);
    SubstSeqElsewhere(After(up)[1..], f, q);
    assert SubstSeq(After(up), f, q) == [q] + After(up)[1..];
  }

  /** Taking out the last node in favor of the found one removes just that one from the order. */
  lemma RemovedOrder<V>(c: Ctx<V>, f: Node<V>, key: int)
    requires c.Frame? && c.sib.Leaf? && Found(f, c, key) && c.dir == (c.n.key < key)
    requires Sorted(Full(c, Leaf)) && Clear(c, f)
    ensures Full(c, Leaf) == Before(c) + [f] + After(c)[1..]
    ensures f == c.n ==> Full(c.up, Leaf) == Before(c) + After(c)[1..]
    ensures f != c.n ==> Full(Subst(c.up, f, c.n), Leaf) == Before(c) + After(c)[1..]
  {
    assert Full(c, Leaf) == Before(c) + After(c);
    AboveFound(Before(c), f, After(c));
    if f == c.n {
      BottomOrder(c.up, c);
    } else {
      BottomOrder(c.up, c);
      SubstitutedOrder(c.up, f, c.n);
    }
  }

  /** The order around a node with no other child. */
  lemma BottomOrder<V>(up: Ctx<V>, c: Ctx<V>)
    requires c.Frame? && c.up == up && c.sib.Leaf?
    ensures c.dir ==> Before(c) == Before(up) + [c.n] && After(c) == After(up)
    ensures !c.dir ==> Before(c) == Before(up) && After(c) == [c.n] + After(up)
    ensures Full(up, Leaf) == Before(up) + After(up)
  {
    assert Before(up) + [] == Before(up) && [c.n] + [] == [c.n];
  }
}
