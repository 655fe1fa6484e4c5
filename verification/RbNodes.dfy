/** Red-black tree nodes, the pure trees they form, and the paths down into those trees. */
module RbNodes {

  /** DirRight is true, DirLeft is false. */
  type Dir = bool

  class Node<V> {
    const key: int
    const val: V
    var red: bool
    var parent: Node?<V>
    var left: Node?<V>
    var right: Node?<V>

    constructor (key: int, val: V)
      ensures this.key == key && this.val == val
      ensures red && parent == null && left == null && right == null
    {
      this.key, this.val := key, val;
      red, parent, left, right := true, null, null, null;
    }

    function Child(dir: Dir): Node?<V>
      reads this
    {
      if dir then right else left
    }

    method SetChild(dir: Dir, node: Node?<V>)
      requires node != this
      modifies this, if node == null then {} else {node}
      ensures Child(dir) == node && Child(!dir) == old(Child(!dir))
      ensures red == old(red) && parent == old(parent)
      ensures node != null ==> node.parent == this && node.red == old(node.red)
      ensures node != null ==> node.left == old(node.left) && node.right == old(node.right)
    {
      if dir {
        right := node;
      } else {
        left := node;
      }
      if node != null {
        node.parent := this;
      }
    }
  }

  twostate predicate Same<V>(n: Node<V>)
    reads n
  {
    n.left == old(n.left) && n.right == old(n.right) && n.parent == old(n.parent) && n.red == old(n.red)
  }

  /** `Node::replace`: `node` takes this node's links and color. */
  method Replace<V>(gone: Node<V>, node: Node<V>)
    requires gone.parent != null && node != gone.parent && gone.parent != gone
    requires gone.left != gone && gone.right != gone && gone.left != gone.parent && gone.right != gone.parent
    requires gone.left == gone.right ==> gone.left == null
    requires gone.left != null ==> gone.left.parent == gone
    requires gone.right != null ==> gone.right.parent == gone
    requires gone.parent.left != gone ==> gone.parent.right == gone
    modifies node, gone.parent, gone.left, gone.right
    ensures node == gone ==> Same(node) && Same(gone.parent)
    ensures node == gone && gone.left != null ==> Same(gone.left)
    ensures node == gone && gone.right != null ==> Same(gone.right)
    ensures node != gone ==>
      && node.left == (if old(gone.left) == node then null else old(gone.left))
      && node.right == (if old(gone.right) == node then null else old(gone.right))
      && node.red == old(gone.red) && node.parent == old(gone.parent)
    ensures gone.parent.left == (if old(gone.parent.left) == gone then node else old(gone.parent.left))
    ensures gone.parent.right == (if old(gone.parent.left) == gone then old(gone.parent.right) else node)
    ensures gone.parent.red == old(gone.parent.red) && gone.parent.parent == old(gone.parent.parent)
    ensures node != gone && gone.left != null && gone.left != node ==>
      && gone.left.parent == node && gone.left.red == old(gone.left.red)
      && gone.left.left == old(gone.left.left) && gone.left.right == old(gone.left.right)
    ensures node != gone && gone.right != null && gone.right != node ==>
      && gone.right.parent == node && gone.right.red == old(gone.right.red)
      && gone.right.left == old(gone.right.left) && gone.right.right == old(gone.right.right)
  {
    node.SetChild(false, if gone.Child(false) == node then null else gone.Child(false));
    node.SetChild(true, if gone.Child(true) == node then null else gone.Child(true));
    node.red := gone.red;
    if gone.parent != null {
      if gone.parent.Child(false) == gone {
        gone.parent.SetChild(false, node);
      } else {
        gone.parent.SetChild(true, node);
      }
    }
  }

  function IsRedNode<V>(n: Node?<V>): bool
    reads n
  {
    n != null && n.red
  }

  /** The shape a node structure has: which nodes, in which colors, where. */
  datatype Tree<V> = Leaf | Br(n: Node<V>, red: bool, l: Tree<V>, r: Tree<V>)

  ghost function Nodes<V>(t: Tree<V>): set<Node<V>> {
    if t.Leaf? then {} else {t.n} + Nodes(t.l) + Nodes(t.r)
  }

  ghost function InOrder<V>(t: Tree<V>): seq<Node<V>> {
    if t.Leaf? then [] else InOrder(t.l) + [t.n] + InOrder(t.r)
  }

  function Root<V>(t: Tree<V>): Node?<V> {
    if t.Leaf? then null else t.n
  }

  predicate IsRed<V>(t: Tree<V>) { t.Br? && t.red }

  function Kid<V>(t: Tree<V>, dir: Dir): Tree<V>
    requires t.Br?
  {
    if dir then t.r else t.l
  }

  /** A branch by its child on one side and the other child. */
  function Make<V>(n: Node<V>, red: bool, dir: Dir, kid: Tree<V>, other: Tree<V>): Tree<V> {
    if dir then Br(n, red, other, kid) else Br(n, red, kid, other)
  }

  /** The node structure under `t` is exactly this shape, child links and parent links alike. */
  ghost predicate Rep<V>(t: Tree<V>, parent: Node?<V>)
    reads Nodes(t)
  {
    t.Br? ==> t.n.parent == parent && RepBelow(t)
  }

  /** As Rep, whatever the parent link of the root. */
  ghost predicate RepBelow<V>(t: Tree<V>)
    reads Nodes(t)
  {
    t.Br? ==>
      && t.n.red == t.red && t.n.left == Root(t.l) && t.n.right == Root(t.r)
      && t.n !in Nodes(t.l) && t.n !in Nodes(t.r) && Nodes(t.l) !! Nodes(t.r)
      && (t.l.Br? ==> t.l.n.parent == t.n) && RepBelow(t.l)
      && (t.r.Br? ==> t.r.n.parent == t.n) && RepBelow(t.r)
  }

  lemma KidColors<V>(t: Tree<V>, d: Dir)
    requires t.Br? && RepBelow(t)
    ensures IsRedNode(t.n.Child(d)) == IsRed(Kid(t, d)) && IsRedNode(t.n.Child(!d)) == IsRed(Kid(t, !d))
  {
    assert RepBelow(t.l) && RepBelow(t.r);
  }

  // ----- the red-black discipline -----

  /** Black nodes on every way down, the missing child counted as one. */
  ghost function BlackHeight<V>(t: Tree<V>): (h: nat)
    ensures h > 0
  {
    if t.Leaf? then 1 else BlackHeight(t.l) + if t.red then 0 else 1
  }

  /** No red node has a red child, and all ways down have the same black height. */
  ghost predicate Balanced<V>(t: Tree<V>) {
    t.Br? ==>
      && Balanced(t.l) && Balanced(t.r) && BlackHeight(t.l) == BlackHeight(t.r)
      && (t.red ==> !IsRed(t.l) && !IsRed(t.r))
  }

  /** The longest way down. */
  ghost function Height<V>(t: Tree<V>): nat {
    if t.Leaf? then 0 else 1 + if Height(t.l) < Height(t.r) then Height(t.r) else Height(t.l)
  }

  function Pow2(n: nat): (p: nat)
    ensures p > 0
  {
    if n == 0 then 1 else 2 * Pow2(n - 1)
  }

  lemma {:induction false} Pow2Grows(m: nat, n: nat)
    requires m <= n
    ensures Pow2(m) <= Pow2(n)
  {
    if m < n {
      Pow2Grows(m, n - 1);
    }
  }

  lemma {:induction false} BalancedBounds<V>(t: Tree<V>)
    requires Balanced(t)
    ensures Height(t) <= 2 * (BlackHeight(t) - 1) + if IsRed(t) then 1 else 0
    ensures Pow2(BlackHeight(t) - 1) <= |InOrder(t)| + 1
  {
    if t.Br? {
      BalancedBounds(t.l);
      BalancedBounds(t.r);
    }
  }

  /** A balanced tree is at most twice as high as a perfect one: two to half its height is at most its size plus one. */
  lemma HeightIsLogarithmic<V>(t: Tree<V>)
    requires Balanced(t) && !IsRed(t)
    ensures Pow2(Height(t) / 2) <= |InOrder(t)| + 1
  {
    BalancedBounds(t);
    Pow2Grows(Height(t) / 2, BlackHeight(t) - 1);
  }

  ghost predicate Sorted<V>(ns: seq<Node<V>>) {
    forall i, j :: 0 <= i < j < |ns| ==> ns[i].key < ns[j].key
  }

  ghost predicate AllBelow<V>(ns: seq<Node<V>>, key: int) {
    forall i :: 0 <= i < |ns| ==> ns[i].key < key
  }

  ghost predicate AllAbove<V>(ns: seq<Node<V>>, key: int) {
    forall i :: 0 <= i < |ns| ==> ns[i].key > key
  }

  // ----- contexts -----

  /**
   * A tree with one subtree left out. The hole is the right child of the dummy head, or the
   * child on side `dir` of a node whose other child is `sib`.
   */
  datatype Ctx<V> = Top(head: Node<V>) | Frame(up: Ctx<V>, n: Node<V>, red: bool, dir: Dir, sib: Tree<V>)

  ghost function CtxNodes<V>(c: Ctx<V>): set<Node<V>> {
    match c
    case Top(head) => {head}
    case Frame(up, n, _, _, sib) => {n} + Nodes(sib) + CtxNodes(up)
  }

  /** The node the hole hangs from. */
  function Above<V>(c: Ctx<V>): Node<V> {
    match c
    case Top(head) => head
    case Frame(_, n, _, _, _) => n
  }

  function HoleDir<V>(c: Ctx<V>): Dir {
    match c
    case Top(_) => true
    case Frame(_, _, _, dir, _) => dir
  }

  function Head<V>(c: Ctx<V>): Node<V> {
    match c
    case Top(head) => head
    case Frame(up, _, _, _, _) => Head(up)
  }

  /** The structure around a hole in which `hole` hangs. */
  ghost predicate CtxRep<V>(c: Ctx<V>, hole: Node?<V>)
    reads CtxNodes(c)
  {
    match c
    case Top(head) => head.right == hole && head.left == null && head.parent == null
    case Frame(up, n, red, dir, sib) =>
      && n.Child(dir) == hole && n.Child(!dir) == Root(sib)
      && n.red == red && n.parent == Above(up)
      && n !in Nodes(sib) && n !in CtxNodes(up) && Nodes(sib) !! CtxNodes(up)
      && Rep(sib, n) && CtxRep(up, n)
  }

  /** Filling the hole. */
  function Plug<V>(c: Ctx<V>, t: Tree<V>): Tree<V> {
    match c
    case Top(_) => t
    case Frame(up, n, red, dir, sib) => Plug(up, Make(n, red, dir, t, sib))
  }

  /** The nodes before the hole and after it, in order. */
  ghost function Before<V>(c: Ctx<V>): seq<Node<V>> {
    match c
    case Top(_) => []
    case Frame(up, n, _, dir, sib) => if dir then Before(up) + InOrder(sib) + [n] else Before(up)
  }

  ghost function After<V>(c: Ctx<V>): seq<Node<V>> {
    match c
    case Top(_) => []
    case Frame(up, n, _, dir, sib) => if dir then After(up) else [n] + InOrder(sib) + After(up)
  }

  ghost function Full<V>(c: Ctx<V>, t: Tree<V>): seq<Node<V>> {
    Before(c) + InOrder(t) + After(c)
  }

  /** A subtree with this root color and black height fits the hole. */
  ghost predicate Fits<V>(c: Ctx<V>, red: bool, height: nat) {
    match c
    case Top(_) => true
    case Frame(up, n, nred, dir, sib) =>
      && Balanced(sib) && BlackHeight(sib) == height
      && (nred ==> !red && !IsRed(sib))
      && Fits(up, nred, height + if nred then 0 else 1)
  }

  /** Moving the hole up past one node changes nothing in the order. */
  lemma FullUp<V>(up: Ctx<V>, n: Node<V>, red: bool, dir: Dir, sib: Tree<V>, t: Tree<V>)
    ensures Full(Frame(up, n, red, dir, sib), t) == Full(up, Make(n, red, dir, t, sib))
  {
  }

  lemma {:induction false} PlugInOrder<V>(c: Ctx<V>, t: Tree<V>)
    ensures InOrder(Plug(c, t)) == Full(c, t)
  {
    match c {
      case Top(_) =>
      case Frame(up, n, red, dir, sib) =>
        PlugInOrder(up, Make(n, red, dir, t, sib));
        FullUp(up, n, red, dir, sib, t);
    }
  }

  lemma {:induction false} PlugBalanced<V>(c: Ctx<V>, t: Tree<V>)
    requires Balanced(t) && Fits(c, IsRed(t), BlackHeight(t))
    ensures Balanced(Plug(c, t))
  {
    match c {
      case Top(_) =>
      case Frame(up, n, red, dir, sib) => PlugBalanced(up, Make(n, red, dir, t, sib));
    }
  }

  /** Filling the hole of a represented context with a represented tree gives a represented tree. */
  lemma {:induction false} PlugRep<V>(c: Ctx<V>, t: Tree<V>)
    requires CtxRep(c, Root(t)) && Rep(t, Above(c)) && Nodes(t) !! CtxNodes(c)
    ensures var all := Plug(c, t);
            Rep(all, Head(c)) && Head(c).right == Root(all) && Head(c) !in Nodes(all)
    ensures Nodes(Plug(c, t)) + {Head(c)} == Nodes(t) + CtxNodes(c)
  {
    match c {
      case Top(_) =>
      case Frame(up, n, red, dir, sib) => PlugRep(up, Make(n, red, dir, t, sib));
    }
  }

  lemma {:induction false} NodesInOrder<V>(t: Tree<V>)
    ensures forall n :: n in Nodes(t) <==> n in InOrder(t)
  {
    if t.Br? {
      NodesInOrder(t.l);
      NodesInOrder(t.r);
    }
  }

  /** Going right at a smaller node keeps everything before the hole below the key. */
  lemma DescendRight<V>(c: Ctx<V>, t: Tree<V>, key: int)
    requires t.Br? && Sorted(Full(c, t)) && t.n.key < key && AllBelow(Before(c), key)
    ensures AllBelow(Before(Frame(c, t.n, t.red, true, t.l)), key)
  {
    var full, m := Full(c, t), |Before(c)| + |InOrder(t.l)|;
    assert full == Before(c) + InOrder(t.l) + [t.n] + InOrder(t.r) + After(c);
    assert full[m] == t.n;
    assert Before(Frame(c, t.n, t.red, true, t.l)) == full[..m + 1];
  }

  /** Going left at a greater node keeps everything after the hole above the key. */
  lemma DescendLeft<V>(c: Ctx<V>, t: Tree<V>, key: int)
    requires t.Br? && Sorted(Full(c, t)) && t.n.key > key && AllAbove(After(c), key)
    ensures AllAbove(After(Frame(c, t.n, t.red, false, t.r)), key)
  {
    var full, m := Full(c, t), |Before(c)| + |InOrder(t.l)|;
    assert full == Before(c) + InOrder(t.l) + ([t.n] + InOrder(t.r) + After(c));
    assert full[m] == t.n;
    assert After(Frame(c, t.n, t.red, false, t.r)) == full[m..];
  }

  // ----- rotation -----

  /** `Node::rotate`: the child on side !dir comes up, black, and the node goes down red. */
  function Rotated<V>(t: Tree<V>, dir: Dir): Tree<V>
    requires t.Br? && Kid(t, !dir).Br?
  {
    var s := Kid(t, !dir);
    Make(s.n, false, dir, Make(t.n, true, dir, Kid(t, dir), Kid(s, dir)), Kid(s, !dir))
  }

  lemma RotatedSame<V>(t: Tree<V>, dir: Dir)
    requires t.Br? && Kid(t, !dir).Br?
    ensures InOrder(Rotated(t, dir)) == InOrder(t)
    ensures Nodes(Rotated(t, dir)) == Nodes(t)
  {
    var s := Kid(t, !dir);
    if dir {
      assert InOrder(t) == InOrder(s.l) + [s.n] + InOrder(s.r) + [t.n] + InOrder(t.r);
    } else {
      assert InOrder(t) == InOrder(t.l) + [t.n] + InOrder(s.l) + [s.n] + InOrder(s.r);
    }
  }

  /** The nodes of a shape at hand are allocated. */
  lemma {:induction false} NodesAllocated<V>(t: Tree<V>)
    ensures forall n :: n in Nodes(t) ==> allocated(n)
  {
    if t.Br? {
      NodesAllocated(t.l);
      NodesAllocated(t.r);
    }
  }

  /** `setChild` on a whole subtree. */
  method Hang<V>(p: Node<V>, dir: Dir, ghost t: Tree<V>, child: Node?<V>)
    requires Root(t) == child && RepBelow(t) && p !in Nodes(t)
    modifies p, if child == null then {} else {child}
    ensures p.Child(dir) == child && p.Child(!dir) == old(p.Child(!dir))
    ensures p.red == old(p.red) && p.parent == old(p.parent)
    ensures Rep(t, p)
  {
    NodesAllocated(t);
    p.SetChild(dir, child);
  }

  /** The inner grandchild changes sides below the node that goes down. */
  method Lower<V>(node: Node<V>, dir: Dir, ghost low: Tree<V>, ghost inner: Tree<V>, child: Node?<V>)
    requires Rep(low, node) && node.Child(dir) == Root(low)
    requires RepBelow(inner) && Root(inner) == child
    requires node !in Nodes(low) && node !in Nodes(inner) && Nodes(low) !! Nodes(inner)
    modifies node, if child == null then {} else {child}
    ensures RepBelow(Make(node, true, dir, low, inner))
  {
    NodesAllocated(low);
    Hang(node, !dir, inner, child);
    node.red := true;
  }

  /** The node that comes up takes the other one as its child. */
  method Raise<V>(save: Node<V>, dir: Dir, ghost down: Tree<V>, ghost outer: Tree<V>, child: Node<V>)
    requires Rep(outer, save) && save.Child(!dir) == Root(outer)
    requires RepBelow(down) && Root(down) == child
    requires save !in Nodes(down) && save !in Nodes(outer) && Nodes(down) !! Nodes(outer)
    modifies save, child
    ensures RepBelow(Make(save, false, dir, down, outer))
  {
    NodesAllocated(outer);
    Hang(save, dir, down, child);
    save.red := false;
  }

  method Rotate<V>(ghost t: Tree<V>, node: Node<V>, dir: Dir) returns (save: Node<V>)
    requires RepBelow(t) && Root(t) == node && Kid(t, !dir).Br?
    modifies Nodes(t)
    ensures RepBelow(Rotated(t, dir)) && Nodes(Rotated(t, dir)) == Nodes(t)
    ensures save == Root(Rotated(t, dir)) == Kid(t, !dir).n
  {
    ghost var s := Kid(t, !dir);
    ghost var inner, outer, low := Kid(s, dir), Kid(s, !dir), Kid(t, dir);
    RotatedSame(t, dir);
    NodesAllocated(t);
    save := node.Child(!dir);
    Lower(node, dir, low, inner, save.Child(dir));
    Raise(save, dir, Make(node, true, dir, low, inner), outer, node);
  }

  lemma {:induction false} CtxAllocated<V>(c: Ctx<V>)
    ensures forall n :: n in CtxNodes(c) ==> allocated(n)
  {
    if c.Frame? {
      NodesAllocated(c.sib);
      CtxAllocated(c.up);
    }
  }

  /** Hanging another subtree into the hole of a context. */
  method Rehang<V>(ghost c: Ctx<V>, ghost hole: Node?<V>, top: Node<V>, dir: Dir, ghost t: Tree<V>, child: Node?<V>)
    requires CtxRep(c, hole) && top == Above(c) && dir == HoleDir(c)
    requires Root(t) == child && RepBelow(t) && Nodes(t) !! CtxNodes(c)
    modifies top, if child == null then {} else {child}
    ensures CtxRep(c, child) && Rep(t, top)
  {
    CtxAllocated(c);
    Hang(top, dir, t, child);
  }

  /** A shape stays as long as at most the parent link of its root changes. */
  twostate lemma {:induction false} RepBelowKept<V>(t: Tree<V>)
    requires old(RepBelow(t))
    requires forall n :: n in Nodes(t) ==> old(allocated(n))
    requires forall n :: n in Nodes(t) ==> n.left == old(n.left) && n.right == old(n.right) && n.red == old(n.red)
    requires forall n :: n in Nodes(t) && n != Root(t) ==> n.parent == old(n.parent)
    ensures RepBelow(t)
  {
    if t.Br? {
      RepBelowKept(t.l);
      RepBelowKept(t.r);
    }
  }
}
