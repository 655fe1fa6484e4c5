/** What a projection keeps, leaf by leaf (MojObjectFilter). */
module FilterLeaves {
  import opened Bytes
  import opened Values
  import opened ObjectBuilders
  import opened FilterTries

  /** One step down: into a property of this name, or into an element. */
  type Step = Option<seq<byte>>

  /** A scalar or an empty container, and the way to it. */
  datatype Leaf = Leaf(way: seq<Step>, value: Value)

  /** The leaves of a value, in order. */
  function Leaves(v: Value): seq<Leaf>
    decreases v, 1
  {
    match v
    case Object(props) => if props == [] then [Leaf([], v)] else PropLeaves(props)
    case Array(elems) => if elems == [] then [Leaf([], v)] else ElemLeaves(elems)
    case _ => [Leaf([], v)]
  }

  function PropLeaves(props: seq<Prop>): seq<Leaf>
    decreases props, 0
  {
    if props == [] then [] else Below(Some(props[0].name), Leaves(props[0].val)) + PropLeaves(props[1..])
  }

  function ElemLeaves(elems: seq<Value>): seq<Leaf>
    decreases elems, 0
  {
    if elems == [] then [] else Below(None, Leaves(elems[0])) + ElemLeaves(elems[1..])
  }

  function Below(step: Step, leaves: seq<Leaf>): seq<Leaf> {
    if leaves == [] then []
    else [Leaf([step] + leaves[0].way, leaves[0].value)] + Below(step, leaves[1..])
  }

  /** The names on the way. */
  function Names(way: seq<Step>): Path {
    if way == [] then []
    else (match way[0] case Some(name) => [name] case None => []) + Names(way[1..])
  }

  /** Some path ends on the way, or at its end. */
  predicate Selected(sel: seq<Path>, way: seq<Step>) {
    exists i :: 0 <= i < |sel| && sel[i] != [] && sel[i] <= Names(way)
  }

  function Chosen(sel: seq<Path>, leaves: seq<Leaf>): seq<Leaf> {
    if leaves == [] then []
    else (if Selected(sel, leaves[0].way) then [leaves[0]] else []) + Chosen(sel, leaves[1..])
  }

  lemma {:induction false} ChosenConcat(sel: seq<Path>, a: seq<Leaf>, b: seq<Leaf>)
    ensures Chosen(sel, a + b) == Chosen(sel, a) + Chosen(sel, b)
  {
    if a == [] {
      assert a + b == b;
    } else {
      assert (a + b)[1..] == a[1..] + b;
      ChosenConcat(sel, a[1..], b);
    }
  }

  lemma NamesBelow(name: seq<byte>, way: seq<Step>)
    ensures Names([Some(name)] + way) == [name] + Names(way) && Names([None] + way) == Names(way)
  {
    assert ([Some(name)] + way)[1..] == way && ([None] + way)[1..] == way;
  }

  /** Below a name those are selected that the paths under the name select, and all if a path ends there. */
  lemma SelectedBelow(sel: seq<Path>, name: seq<byte>, way: seq<Step>)
    ensures Selected(sel, [Some(name)] + way) <==> [] in Under(sel, name) || Selected(Under(sel, name), way)
    ensures Selected(sel, [None] + way) <==> Selected(sel, way)
  {
    var inside := Under(sel, name);
    NamesBelow(name, way);
    if i :| 0 <= i < |sel| && sel[i] != [] && sel[i] <= [name] + Names(way) {
      assert sel[i][0] == name && sel[i] == [name] + sel[i][1..];
      UnderHas(sel, i);
      var k :| 0 <= k < |inside| && inside[k] == sel[i][1..];
      assert inside[k] <= Names(way);
    }
    if k :| 0 <= k < |inside| && inside[k] <= Names(way) {
      var j := UnderComesFrom(sel, name, k);
      assert sel[j] <= [name] + Names(way);
    }
    if [] in inside {
      var k :| 0 <= k < |inside| && inside[k] == [];
      assert inside[k] <= Names(way);
    }
  }

  lemma {:induction false} ChosenBelow(sel: seq<Path>, name: seq<byte>, leaves: seq<Leaf>)
    ensures var inside, below := Under(sel, name), Below(Some(name), leaves);
            Chosen(sel, below) == if [] in inside then below else Below(Some(name), Chosen(inside, leaves))
    ensures Chosen(sel, Below(None, leaves)) == Below(None, Chosen(sel, leaves))
  {
    if leaves != [] {
      ChosenBelow(sel, name, leaves[1..]);
      SelectedBelow(sel, name, leaves[0].way);
      var below, plain := Below(Some(name), leaves), Below(None, leaves);
      assert below[1..] == Below(Some(name), leaves[1..]) && plain[1..] == Below(None, leaves[1..]);
      var chosen := Chosen(Under(sel, name), leaves[1..]);
      assert ([leaves[0]] + chosen)[1..] == chosen && [] + chosen == chosen;
      var same := Chosen(sel, leaves[1..]);
      assert ([leaves[0]] + same)[1..] == same && [] + same == same;
    }
  }

  lemma {:induction false} NothingUnder(sel: seq<Path>, leaves: seq<Leaf>)
    requires sel == []
    ensures Chosen(sel, leaves) == []
  {
    if leaves != [] {
      NothingUnder(sel, leaves[1..]);
    }
  }

  function KeptLeaves(w: Option<Value>): seq<Leaf> {
    match w
    case Some(v) => Leaves(v)
    case None => []
  }

  lemma PropLeavesConcat(first: seq<Prop>, rest: seq<Prop>)
    requires |first| <= 1
    ensures PropLeaves(first + rest) == PropLeaves(first) + PropLeaves(rest)
  {
    if first == [] {
      assert first + rest == rest;
    } else {
      assert (first + rest)[1..] == rest && first[1..] == [];
      assert PropLeaves(first) == Below(Some(first[0].name), Leaves(first[0].val)) + [];
    }
  }

  lemma ElemLeavesConcat(first: seq<Value>, rest: seq<Value>)
    requires |first| <= 1
    ensures ElemLeaves(first + rest) == ElemLeaves(first) + ElemLeaves(rest)
  {
    if first == [] {
      assert first + rest == rest;
    } else {
      assert (first + rest)[1..] == rest && first[1..] == [];
      assert ElemLeaves(first) == Below(None, Leaves(first[0])) + [];
    }
  }

  /** A projection keeps exactly the leaves on whose way a selected path ends, in their order, and makes no others. */
  lemma {:induction false} ProjectLeaves(sel: seq<Path>, v: Value)
    ensures KeptLeaves(Project(sel, v)) == Chosen(sel, Leaves(v))
    decreases v, 1
  {
    match v {
      case Object(props) =>
        ProjectPropLeaves(sel, props);
        assert [Leaf([], v)][1..] == [];
      case Array(elems) =>
        ProjectElemLeaves(sel, elems);
        assert [Leaf([], v)][1..] == [];
      case _ =>
        assert [Leaf([], v)][1..] == [];
    }
  }

  lemma {:induction false} ProjectPropLeaves(sel: seq<Path>, props: seq<Prop>)
    ensures PropLeaves(ProjectProps(sel, props)) == Chosen(sel, PropLeaves(props))
    ensures ProjectProps(sel, props) == [] ==> Chosen(sel, PropLeaves(props)) == []
    decreases props, 0
  {
    if props != [] {
      var name, val, inside := props[0].name, props[0].val, Under(sel, props[0].name);
      ProjectPropLeaves(sel, props[1..]);
      ChosenConcat(sel, Below(Some(name), Leaves(val)), PropLeaves(props[1..]));
      ChosenBelow(sel, name, Leaves(val));
      if inside == [] {
        NothingUnder(inside, Leaves(val));
        PropLeavesConcat([], ProjectProps(sel, props[1..]));
      } else if [] in inside {
        PropLeavesConcat([props[0]], ProjectProps(sel, props[1..]));
        assert [props[0]][1..] == [];
      } else {
        ProjectLeaves(inside, val);
        match Project(inside, val) {
          case Some(w) =>
            var first := Prop(name, w);
            PropLeavesConcat([first], ProjectProps(sel, props[1..]));
            assert [first][1..] == [];
          case None => PropLeavesConcat([], ProjectProps(sel, props[1..]));
        }
      }
    }
  }

  lemma {:induction false} ProjectElemLeaves(sel: seq<Path>, elems: seq<Value>)
    ensures ElemLeaves(ProjectElems(sel, elems)) == Chosen(sel, ElemLeaves(elems))
    ensures ProjectElems(sel, elems) == [] ==> Chosen(sel, ElemLeaves(elems)) == []
    decreases elems, 0
  {
    if elems != [] {
      ProjectElemLeaves(sel, elems[1..]);
      ChosenConcat(sel, Below(None, Leaves(elems[0])), ElemLeaves(elems[1..]));
      ChosenBelow(sel, [], Leaves(elems[0]));
      ProjectLeaves(sel, elems[0]);
      match Project(sel, elems[0]) {
        case Some(w) =>
          ElemLeavesConcat([w], ProjectElems(sel, elems[1..]));
          assert [w][1..] == [];
        case None => ElemLeavesConcat([], ProjectElems(sel, elems[1..]));
      }
    }
  }
}
