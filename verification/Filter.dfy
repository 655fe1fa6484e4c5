/** The filter visitor: one pass over a value's events that hands on those the select set keeps (MojObjectFilter). */
module Filters {
  import opened Bytes
  import opened Values
  import opened ObjectBuilders
  import opened FilterLosses
  import opened FilterOrders
  import opened FilterTries

  const SIZE_MAX: nat := 0xFFFF_FFFF_FFFF_FFFF

  /** The state of one open container; `child` is the iterator into the children of its node. */
  datatype FState = FState(node: Option<Trie>, child: nat, includeCount: nat, included: bool, isArray: bool)

  /** The filter, and what its visitor has heard. */
  datatype Filter = Filter(stack: seq<FState>, state: FState, nextNode: Option<Trie>, out: seq<Event>)

  /** `setVisitor`. */
  function Start(root: Trie): Filter {
    Filter([], FState(Some(root), 0, 0, true, false), Some(root), [])
  }

  /** `begin`. */
  function Begin(f: Filter, isArray: bool): Filter {
    var included := f.state.includeCount > 0 || f.stack == [];
    var count := if f.state.includeCount >= 1 then SIZE_MAX else f.state.includeCount;
    Filter(f.stack + [f.state], FState(f.nextNode, 0, count, included, isArray), f.nextNode,
           if included then f.out + [Opening(isArray)] else f.out)
  }

  function Opening(isArray: bool): Event {
    if isArray then BeginArray else BeginObject
  }

  /** `end`. */
  function End(f: Filter, e: Event): Filter
    requires f.stack != []
  {
    var n := |f.stack| - 1;
    var state := f.stack[n];
    Filter(f.stack[..n], if state.includeCount > 0 then state.(includeCount := state.includeCount - 1) else state,
           f.state.node, if f.state.included then f.out + [e] else f.out)
  }

  /** The value methods. */
  function Scalar(f: Filter, e: Event): Filter {
    if f.state.includeCount > 0
    then f.(state := f.state.(includeCount := f.state.includeCount - 1), out := f.out + [e])
    else f
  }

  /** `include`: what a parent not yet handed on adds, its name unless it is an array element, and its opening. */
  function IncludeEvents(state: FState, prev: FState): seq<Event> {
    if state.included then []
    else
      (if prev.isArray then [] else [PropName(if state.node.Some? then state.node.value.name else [])]) +
      [Opening(state.isArray)]
  }

  function Pending(chain: seq<FState>): seq<Event> {
    if |chain| <= 1 then []
    else Pending(chain[..|chain| - 1]) + IncludeEvents(chain[|chain| - 1], chain[|chain| - 2])
  }

  function Mark(state: FState): FState {
    state.(included := true)
  }

  function MarkAll(chain: seq<FState>): (r: seq<FState>)
    ensures |r| == |chain| && forall i :: 0 <= i < |chain| ==> r[i] == Mark(chain[i])
  {
    seq(|chain|, i requires 0 <= i < |chain| => Mark(chain[i]))
  }

  /** `includeParents`. */
  function IncludeParents(f: Filter): Filter {
    f.(stack := MarkAll(f.stack), state := Mark(f.state), out := f.out + Pending(f.stack + [f.state]))
  }

  /** `propName`, first half: where the name stands in the trie. */
  function Match(f: Filter, name: seq<byte>): Filter {
    match f.state.node
    case None => f.(nextNode := None)
    case Some(t) =>
      var j := Advance(t.children, f.state.child, name);
      var state := f.state.(child := j);
      if j < |t.children| && t.children[j].name == name then
        if t.children[j].children == [] then f.(state := state.(includeCount := 1), nextNode := None)
        else f.(state := state.(includeCount := 0), nextNode := Some(t.children[j]))
      else f.(state := state.(includeCount := 0), nextNode := None)
  }

  /** `propName`. */
  function Name(f: Filter, name: seq<byte>): Filter {
    var g := Match(f, name);
    if g.state.includeCount == 0 then g
    else
      var h := if g.state.included then g else IncludeParents(g);
      h.(out := h.out + [PropName(name)])
  }

  /** One visitor call; an end call needs an open container. */
  function On(f: Filter, e: Event): Filter {
    match e
    case BeginObject => Begin(f, false)
    case BeginArray => Begin(f, true)
    case EndObject => if f.stack == [] then f else End(f, e)
    case EndArray => if f.stack == [] then f else End(f, e)
    case PropName(name) => Name(f, name)
    case _ => Scalar(f, e)
  }

  function Run(f: Filter, es: seq<Event>): Filter
    decreases |es|
  {
    if es == [] then f else Run(On(f, es[0]), es[1..])
  }

  lemma {:induction false} RunConcat(f: Filter, a: seq<Event>, b: seq<Event>)
    ensures Run(f, a + b) == Run(Run(f, a), b)
    decreases |a|
  {
    if a == [] {
      assert a + b == b;
    } else {
      assert (a + b)[1..] == a[1..] + b;
      RunConcat(On(f, a[0]), a[1..], b);
    }
  }

  lemma RunOne(f: Filter, e: Event)
    ensures Run(f, [e]) == On(f, e)
  {
    assert [e][1..] == [];
  }

  /** A container: its opening, its inside, its end. */
  lemma RunBracketed(f: Filter, isArray: bool, inside: seq<Event>)
    ensures var e := if isArray then EndArray else EndObject;
            Run(f, [Opening(isArray)] + inside + [e]) == On(Run(Begin(f, isArray), inside), e)
  {
    var e := if isArray then EndArray else EndObject;
    RunConcat(f, [Opening(isArray)] + inside, [e]);
    RunConcat(f, [Opening(isArray)], inside);
    RunOne(f, Opening(isArray));
    RunOne(Run(Begin(f, isArray), inside), e);
  }

  // ----- whole subtrees -----

  /** No container has more children than the counter can count. */
  predicate Countable(v: Value)
    decreases v, 1
  {
    match v
    case Object(props) => |props| <= SIZE_MAX && CountableProps(props)
    case Array(elems) => |elems| <= SIZE_MAX && CountableElems(elems)
    case _ => true
  }

  predicate CountableProps(props: seq<Prop>)
    decreases props, 0
  {
    props == [] || (Countable(props[0].val) && CountableProps(props[1..]))
  }

  predicate CountableElems(elems: seq<Value>)
    decreases elems, 0
  {
    elems == [] || (Countable(elems[0]) && CountableElems(elems[1..]))
  }

  /** Inside something kept whole, or about to be. */
  predicate Keeping(f: Filter, n: nat) {
    f.state.includeCount >= n && f.state.included && f.nextNode == None && f.stack != []
  }

  function Kept(f: Filter, n: nat, es: seq<Event>): Filter
    requires f.state.includeCount >= n
  {
    f.(state := f.state.(includeCount := f.state.includeCount - n), out := f.out + es)
  }

  lemma {:induction false} KeepsWhole(f: Filter, v: Value)
    requires Keeping(f, 1) && Countable(v)
    ensures Run(f, Visit(v)) == Kept(f, 1, Visit(v))
    decreases v, 1
  {
    match v {
      case Object(props) =>
        RunBracketed(f, false, VisitProps(props));
        var g := Begin(f, false);
        KeepsProps(g, props);
        assert g.stack[..|g.stack| - 1] == f.stack;
        Assoc4(f.out, [BeginObject], VisitProps(props), [EndObject]);
      case Array(elems) =>
        RunBracketed(f, true, VisitElems(elems));
        var g := Begin(f, true);
        KeepsElems(g, elems);
        assert g.stack[..|g.stack| - 1] == f.stack;
        Assoc4(f.out, [BeginArray], VisitElems(elems), [EndArray]);
      case _ =>
        RunOne(f, Visit(v)[0]);
    }
  }

  lemma {:induction false} KeepsProps(f: Filter, props: seq<Prop>)
    requires Keeping(f, |props|) && f.state.node == None && CountableProps(props)
    ensures Run(f, VisitProps(props)) == Kept(f, |props|, VisitProps(props))
    decreases props, 0
  {
    if props == [] {
      assert f.out + [] == f.out;
    } else {
      var p, rest := props[0], props[1..];
      var g := Kept(f, 0, [PropName(p.name)]);
      RunConcat(f, [PropName(p.name)] + Visit(p.val), VisitProps(rest));
      RunConcat(f, [PropName(p.name)], Visit(p.val));
      RunOne(f, PropName(p.name));
      KeepsWhole(g, p.val);
      KeepsProps(Kept(g, 1, Visit(p.val)), rest);
      Assoc4(f.out, [PropName(p.name)], Visit(p.val), VisitProps(rest));
    }
  }

  lemma {:induction false} KeepsElems(f: Filter, elems: seq<Value>)
    requires Keeping(f, |elems|) && f.state.node == None && CountableElems(elems)
    ensures Run(f, VisitElems(elems)) == Kept(f, |elems|, VisitElems(elems))
    decreases elems, 0
  {
    if elems == [] {
      assert f.out + [] == f.out;
    } else {
      RunConcat(f, Visit(elems[0]), VisitElems(elems[1..]));
      KeepsWhole(f, elems[0]);
      KeepsElems(Kept(f, 1, Visit(elems[0])), elems[1..]);
      Assoc4(f.out, [], Visit(elems[0]), VisitElems(elems[1..]));
      assert f.out + [] == f.out && [] + Visit(elems[0]) == Visit(elems[0]);
    }
  }

  // ----- skipped subtrees -----

  /** Nothing selected from here. */
  predicate Skipping(f: Filter) {
    f.state.includeCount == 0 && f.nextNode == None && f.stack != []
  }

  lemma {:induction false} SkipsWhole(f: Filter, v: Value)
    requires Skipping(f)
    ensures Run(f, Visit(v)) == f
    decreases v, 1
  {
    match v {
      case Object(props) =>
        RunBracketed(f, false, VisitProps(props));
        SkipsProps(Begin(f, false), props);
      case Array(elems) =>
        RunBracketed(f, true, VisitElems(elems));
        SkipsElems(Begin(f, true), elems);
      case _ =>
        RunOne(f, Visit(v)[0]);
    }
  }

  lemma {:induction false} SkipsProps(f: Filter, props: seq<Prop>)
    requires Skipping(f) && f.state.node == None
    ensures Run(f, VisitProps(props)) == f
    decreases props, 0
  {
    if props != [] {
      var p, rest := props[0], props[1..];
      RunConcat(f, [PropName(p.name)] + Visit(p.val), VisitProps(rest));
      RunConcat(f, [PropName(p.name)], Visit(p.val));
      RunOne(f, PropName(p.name));
      SkipsWhole(f, p.val);
      SkipsProps(f, rest);
    }
  }

  lemma {:induction false} SkipsElems(f: Filter, elems: seq<Value>)
    requires Skipping(f)
    ensures Run(f, VisitElems(elems)) == f
    decreases elems, 0
  {
    if elems != [] {
      RunConcat(f, Visit(elems[0]), VisitElems(elems[1..]));
      SkipsWhole(f, elems[0]);
      SkipsElems(f, elems[1..]);
    }
  }

  // ----- subtrees with something selected inside -----

  /** Handing on these events, the opened parents first; nothing happens if there are none. */
  function Emitted(f: Filter, es: seq<Event>): Filter {
    if es == [] then f else var g := IncludeParents(f); g.(out := g.out + es)
  }

  lemma {:induction false} NothingPending(chain: seq<FState>)
    requires forall i :: 0 <= i < |chain| ==> chain[i].included
    ensures Pending(chain) == []
  {
    if |chain| > 1 {
      NothingPending(chain[..|chain| - 1]);
    }
  }

  /** Once the parents are handed on they are not handed on again. */
  lemma EmittedTwice(f: Filter, a: seq<Event>, b: seq<Event>)
    ensures Emitted(Emitted(f, a), b) == Emitted(f, a + b)
  {
    if a != [] && b != [] {
      var g := Emitted(f, a);
      AlreadyIncluded(g);
      Assoc(IncludeParents(f).out, a, b);
    } else if a == [] {
      assert a + b == b;
    } else {
      assert a + b == a;
    }
  }

  lemma AlreadyIncluded(g: Filter)
    requires g.state.included && forall i :: 0 <= i < |g.stack| ==> g.stack[i].included
    ensures IncludeParents(g) == g
  {
    NothingPending(g.stack + [g.state]);
    AllMarked(g.stack);
    assert g.out + [] == g.out;
  }

  /** A container handed on has all its parents handed on. */
  predicate Nested(f: Filter) {
    f.state.included ==> forall i :: 0 <= i < |f.stack| ==> f.stack[i].included
  }

  /** The same but for where the iterator and the next node stand. */
  predicate Alike(f: Filter, g: Filter) {
    f.stack == g.stack && f.out == g.out && f.state.(child := 0) == g.state.(child := 0)
  }

  lemma AlikeEmitted(f: Filter, g: Filter, es: seq<Event>)
    requires Alike(f, g)
    ensures Alike(Emitted(f, es), Emitted(g, es))
  {
    AlikePending(f.stack, f.state, g.state);
  }

  /** An open place of the trie to look for something in. */
  predicate Looking(f: Filter, t: Trie) {
    f.state.includeCount == 0 && f.nextNode == Some(t) && f.stack != [] && Nested(f)
  }

  /** What a value adds: its projection, under its name unless it is an array element. */
  function Inside(f: Filter, t: Trie, v: Value): seq<Event> {
    match Scan(t, v)
    case None => []
    case Some(w) => (if f.state.isArray then [] else [PropName(t.name)]) + Visit(w)
  }

  /** The events of a container with something kept in it, its parents before it. */
  lemma ClosesKept(f: Filter, t: Trie, isArray: bool, r: Filter, kept: seq<Event>)
    requires Looking(f, t) && Alike(r, Emitted(Begin(f, isArray), kept))
    ensures var e := if isArray then EndArray else EndObject;
            var name := if f.state.isArray then [] else [PropName(t.name)];
            End(r, e) == if kept == [] then f else Emitted(f, name + ([Opening(isArray)] + kept + [e]))
  {
    var g := Begin(f, isArray);
    var chain := f.stack + [f.state];
    if kept == [] {
      assert g.stack[..|g.stack| - 1] == f.stack;
    } else {
      assert (chain + [g.state])[..|chain|] == chain;
      assert MarkAll(chain)[..|f.stack|] == MarkAll(f.stack);
      var name := if f.state.isArray then [] else [PropName(t.name)];
      var e := if isArray then EndArray else EndObject;
      PendingTop(chain, g.state);
      Joined(f.out, Pending(chain), name, [Opening(isArray)], kept, [e]);
    }
  }

  lemma Joined(a: seq<Event>, b: seq<Event>, c: seq<Event>, d: seq<Event>, e: seq<Event>, g: seq<Event>)
    ensures a + (b + (c + d)) + e + g == a + b + (c + (d + e + g))
  {
  }

  lemma {:induction false} FindsInside(f: Filter, t: Trie, v: Value)
    requires Looking(f, t) && Countable(v)
    ensures Run(f, Visit(v)) == Emitted(f, Inside(f, t, v))
    decreases v, 1
  {
    match v {
      case Object(props) =>
        FindsProps(Begin(f, false), t, 0, props);
        ObjectCloses(f, t, props, ScanProps(t, 0, props));
      case Array(elems) =>
        FindsElems(Begin(f, true), t, elems);
        ArrayCloses(f, t, elems, ScanElems(t, elems));
      case _ =>
        RunOne(f, Visit(v)[0]);
    }
  }

  lemma ObjectCloses(f: Filter, t: Trie, props: seq<Prop>, kept: seq<Prop>)
    requires Looking(f, t) && Alike(Run(Begin(f, false), VisitProps(props)), Emitted(Begin(f, false), VisitProps(kept)))
    requires kept == ScanProps(t, 0, props)
    ensures Run(f, Visit(Object(props))) == Emitted(f, Inside(f, t, Object(props)))
  {
    RunBracketed(f, false, VisitProps(props));
    ClosesKept(f, t, false, Run(Begin(f, false), VisitProps(props)), VisitProps(kept));
    VisitNothing(kept);
  }

  lemma ArrayCloses(f: Filter, t: Trie, elems: seq<Value>, kept: seq<Value>)
    requires Looking(f, t) && Alike(Run(Begin(f, true), VisitElems(elems)), Emitted(Begin(f, true), VisitElems(kept)))
    requires kept == ScanElems(t, elems)
    ensures Run(f, Visit(Array(elems))) == Emitted(f, Inside(f, t, Array(elems)))
  {
    RunBracketed(f, true, VisitElems(elems));
    ClosesKept(f, t, true, Run(Begin(f, true), VisitElems(elems)), VisitElems(kept));
    VisitNoElems(kept);
  }

  lemma VisitNothing(props: seq<Prop>)
    ensures VisitProps(props) == [] <==> props == []
  {
  }

  lemma VisitNoElems(elems: seq<Value>)
    ensures VisitElems(elems) == [] <==> elems == []
  {
    if elems != [] {
      assert Visit(elems[0]) != [];
    }
  }

  lemma {:induction false} FindsElems(f: Filter, t: Trie, elems: seq<Value>)
    requires Looking(f, t) && f.state.isArray && CountableElems(elems)
    ensures Run(f, VisitElems(elems)) == Emitted(f, VisitElems(ScanElems(t, elems)))
    decreases elems, 0
  {
    if elems != [] {
      var first, rest := Inside(f, t, elems[0]), ScanElems(t, elems[1..]);
      RunConcat(f, Visit(elems[0]), VisitElems(elems[1..]));
      FindsInside(f, t, elems[0]);
      StillLooking(f, t, first);
      FindsElems(Emitted(f, first), t, elems[1..]);
      EmittedTwice(f, first, VisitElems(rest));
      FirstElem(Scan(t, elems[0]), rest);
    }
  }

  lemma FirstElem(w: Option<Value>, rest: seq<Value>)
    ensures VisitElems((match w case Some(x) => [x] case None => []) + rest) ==
            (match w case Some(x) => [] + Visit(x) case None => []) + VisitElems(rest)
  {
    if w.Some? {
      assert ([w.value] + rest)[1..] == rest && [] + Visit(w.value) == Visit(w.value);
    } else {
      assert [] + rest == rest;
    }
  }

  lemma StillLooking(f: Filter, t: Trie, es: seq<Event>)
    requires Looking(f, t)
    ensures Looking(Emitted(f, es), t) && Emitted(f, es).state.isArray == f.state.isArray
  {
  }

  /** One property: what it adds, and where the iterator is afterwards. */
  lemma {:induction false} FindsProp(f: Filter, t: Trie, k: nat, p: Prop) returns (g: Filter)
    requires f.state.includeCount == 0 && f.stack != [] && Nested(f)
    requires f.state.node == Some(t) && f.state.child == k && !f.state.isArray && Countable(p.val)
    ensures Alike(f, g) && g.state.child == Advance(t.children, k, p.name)
    ensures Run(f, [PropName(p.name)] + Visit(p.val)) == Emitted(g, VisitProps(ScanProp(t, g.state.child, p)))
    decreases p, 1
  {
    var j := Advance(t.children, k, p.name);
    RunConcat(f, [PropName(p.name)], Visit(p.val));
    RunOne(f, PropName(p.name));
    if j >= |t.children| || t.children[j].name != p.name {
      g := f.(state := f.state.(child := j), nextNode := None);
      SkipsWhole(g, p.val);
    } else if t.children[j].children == [] {
      g := f.(state := f.state.(child := j), nextNode := None);
      LeafFound(f, t, j, p);
      assert VisitProps([p]) == [PropName(p.name)] + Visit(p.val) by {
        assert [p][1..] == [];
      }
    } else {
      var c := t.children[j];
      g := f.(state := f.state.(child := j), nextNode := Some(c));
      FindsInside(g, c, p.val);
      if Scan(c, p.val).Some? {
        var w := Prop(p.name, Scan(c, p.val).value);
        assert [w][1..] == [];
        assert VisitProps([w]) == [PropName(p.name)] + Visit(w.val);
      }
    }
  }

  /** A path ends here: parents, name and the whole value. */
  lemma LeafFound(f: Filter, t: Trie, j: nat, p: Prop)
    requires f.state.includeCount == 0 && f.stack != [] && Nested(f)
    requires f.state.node == Some(t) && !f.state.isArray && Countable(p.val)
    requires j == Advance(t.children, f.state.child, p.name) < |t.children|
    requires t.children[j].name == p.name && t.children[j].children == []
    ensures Run(On(f, PropName(p.name)), Visit(p.val)) ==
            Emitted(f.(state := f.state.(child := j), nextNode := None), [PropName(p.name)] + Visit(p.val))
  {
    var m := f.(state := f.state.(child := j, includeCount := 1), nextNode := None);
    var h := On(f, PropName(p.name));
    assert h == (if f.state.included then m else IncludeParents(m)).(out := h.out);
    LeafEvents(f, m, [PropName(p.name)]);
    KeepsWhole(h, p.val);
    var g := f.(state := f.state.(child := j), nextNode := None);
    LeafEvents(f, g, [PropName(p.name)] + Visit(p.val));
    Assoc4(f.out, Pending(f.stack + [f.state]), [PropName(p.name)], Visit(p.val));
    if f.state.included {
      AllMarked(f.stack);
    }
  }

  lemma AllMarked(chain: seq<FState>)
    requires forall i :: 0 <= i < |chain| ==> chain[i].included
    ensures MarkAll(chain) == chain
  {
  }

  /** What stands before the name of a leaf: the parents not handed on yet. */
  lemma LeafEvents(f: Filter, m: Filter, es: seq<Event>)
    requires Nested(f) && m.stack == f.stack && m.out == f.out
    requires m.state.(child := 0, includeCount := 0) == f.state.(child := 0, includeCount := 0)
    ensures (if m.state.included then m.out else IncludeParents(m).out) + es ==
            f.out + Pending(f.stack + [f.state]) + es
    ensures IncludeParents(m).out + es == f.out + Pending(f.stack + [f.state]) + es
  {
    AlikePending(f.stack, f.state, m.state);
    if f.state.included {
      NothingPending(f.stack + [f.state]);
      assert f.out + [] == f.out;
    }
  }

  lemma AlikePending(stack: seq<FState>, a: FState, b: FState)
    requires a.(child := 0, includeCount := 0) == b.(child := 0, includeCount := 0)
    ensures Pending(stack + [a]) == Pending(stack + [b])
  {
    if stack != [] {
      PendingTop(stack, a);
      PendingTop(stack, b);
    }
  }

  lemma PendingTop(stack: seq<FState>, top: FState)
    requires stack != []
    ensures Pending(stack + [top]) == Pending(stack) + IncludeEvents(top, stack[|stack| - 1])
  {
    assert (stack + [top])[..|stack|] == stack;
  }

  lemma {:induction false} FindsProps(f: Filter, t: Trie, k: nat, props: seq<Prop>)
    requires f.state.includeCount == 0 && f.stack != [] && Nested(f)
    requires f.state.node == Some(t) && f.state.child == k && !f.state.isArray && CountableProps(props)
    ensures Alike(Run(f, VisitProps(props)), Emitted(f, VisitProps(ScanProps(t, k, props))))
    decreases props, 0
  {
    if props != [] {
      var p, rest := props[0], props[1..];
      RunConcat(f, [PropName(p.name)] + Visit(p.val), VisitProps(rest));
      var g := FindsProp(f, t, k, p);
      var j := g.state.child;
      var first, kept := ScanProp(t, j, p), ScanProps(t, j, rest);
      FindsProps(Emitted(g, VisitProps(first)), t, j, rest);
      EmittedTwice(g, VisitProps(first), VisitProps(kept));
      FirstProps(first, kept);
      AlikeEmitted(f, g, VisitProps(first + kept));
    }
  }

  lemma FirstProps(first: seq<Prop>, kept: seq<Prop>)
    requires |first| <= 1
    ensures VisitProps(first + kept) == VisitProps(first) + VisitProps(kept)
  {
    if first != [] {
      assert (first + kept)[1..] == kept && first[1..] == [];
    } else {
      assert first + kept == kept;
    }
  }

  // ----- the whole filter -----

  /** What the filter lets through: the root container always, a root scalar never. */
  function Filtered(sel: seq<Path>, v: Value): seq<Event> {
    match v
    case Object(props) => Visit(Object(ProjectProps(sel, props)))
    case Array(elems) => Visit(Array(ProjectElems(sel, elems)))
    case _ => []
  }

  function ScanRoot(t: Trie, v: Value): seq<Event> {
    match v
    case Object(props) => Visit(Object(ScanProps(t, 0, props)))
    case Array(elems) => Visit(Array(ScanElems(t, elems)))
    case _ => []
  }

  /** One pass of any trie's filter over any value. */
  lemma ScansRoot(t: Trie, v: Value)
    requires Countable(v)
    ensures Run(Start(t), Visit(v)).out == ScanRoot(t, v)
  {
    var f := Start(t);
    match v {
      case Object(props) =>
        FindsProps(Begin(f, false), t, 0, props);
        RootCloses(t, false, VisitProps(props), VisitProps(ScanProps(t, 0, props)));
      case Array(elems) =>
        FindsElems(Begin(f, true), t, elems);
        RootCloses(t, true, VisitElems(elems), VisitElems(ScanElems(t, elems)));
      case _ =>
        RunOne(f, Visit(v)[0]);
    }
  }

  lemma RootCloses(t: Trie, isArray: bool, inside: seq<Event>, kept: seq<Event>)
    requires Alike(Run(Begin(Start(t), isArray), inside), Emitted(Begin(Start(t), isArray), kept))
    ensures var e := if isArray then EndArray else EndObject;
            Run(Start(t), [Opening(isArray)] + inside + [e]).out == [Opening(isArray)] + kept + [e]
  {
    var g := Begin(Start(t), isArray);
    RunBracketed(Start(t), isArray, inside);
    RootEmits(g, isArray, kept);
    var r := Run(g, inside);
    assert r.out == [Opening(isArray)] + kept && r.state.included && r.stack != [];
  }

  lemma RootEmits(g: Filter, isArray: bool, kept: seq<Event>)
    requires g.out == [Opening(isArray)] && g.state.included && forall i :: 0 <= i < |g.stack| ==> g.stack[i].included
    ensures Emitted(g, kept).out == [Opening(isArray)] + kept && Emitted(g, kept).state.included
    ensures |Emitted(g, kept).stack| == |g.stack|
  {
    NothingPending(g.stack + [g.state]);
    assert g.out + [] == g.out && g.out + [] + kept == g.out + kept;
  }

  /** With all paths landed and the trie in order the filter is the projection to the paths. */
  lemma ProjectsInOrder(strings: seq<seq<byte>>, v: Value)
    requires AllLand(Paths(strings)) && Monotone(Init(strings)) && Valid(v) && Countable(v)
    ensures Run(Start(Init(strings)), Visit(v)).out == Filtered(Paths(strings), v)
  {
    var t, sel := Init(strings), Paths(strings);
    InitReflects(strings);
    ValidIsOrdered(v);
    ScansRoot(t, v);
    match v {
      case Object(props) =>
        ScanPropsAreKept(t, 0, props);
        KeepPropsAreProjected(t, sel, props);
      case Array(elems) =>
        ScanElemsAreKept(t, elems);
        KeepElemsAreProjected(t, sel, elems);
      case _ =>
    }
  }

  lemma {:induction false} ThreadIsValid(t: Trie, sel: seq<Path>, v: Value)
    requires AllParted(sel) && Reflects(t, sel) && Thread(t, v)
    ensures Valid(v) && Countable(v)
    decreases t
  {
    if v != Null {
      var p := v.props[0];
      var j :| 0 <= j < |t.children| && p.name == t.children[j].name && Thread(t.children[j], p.val);
      assert Says(t.children[j], Under(sel, p.name));
      UnderAllParted(sel, p.name);
      if t.children[j].children != [] {
        ThreadIsValid(t.children[j], Under(sel, p.name), p.val);
      }
      assert v.props == [p] && v.props[1..] == [];
    }
  }

  lemma OneCounts(name: seq<byte>, val: Value)
    requires Countable(val)
    ensures Countable(Object([Prop(name, val)]))
  {
    assert [Prop(name, val)][1..] == [];
  }

  lemma {:induction false} NestIsCountable(path: Path)
    ensures Countable(Nest(path))
    decreases |path|
  {
    if path != [] {
      NestIsCountable(path[1..]);
      OneCounts(path[0], Nest(path[1..]));
    }
  }

  /** Where a path does not land or names are misordered, the filter leaves out something selected of some object. */
  lemma FilterMisses(strings: seq<seq<byte>>) returns (v: Value)
    requires Strung(strings) && (!AllLand(Paths(strings)) || Misordered(Paths(strings)))
    ensures Valid(v) && Countable(v) && v.Object? && ProjectProps(Paths(strings), v.props) != []
    ensures Run(Start(Init(strings)), Visit(v)).out == [BeginObject, EndObject] != Filtered(Paths(strings), v)
  {
    var t, sel := Init(strings), Paths(strings);
    if AllLand(sel) {
      InOrderIff(strings);
      InitReflects(strings);
      PathsAllParted(strings);
      ReflectsIsDistinct(t, sel);
      v := ScanMisses(t);
      ThreadIsValid(t, sel, v);
      KeepPropsAreProjected(t, sel, v.props);
    } else {
      var path := LostPath(strings);
      v := Nest(path);
      NestIsCountable(path);
    }
    ScansRoot(t, v);
    assert |VisitProps(ProjectProps(sel, v.props))| > 0 == |VisitProps([])|;
  }

  /**
   * The filter is the projection to its select paths on every value, exactly if all paths land in the trie and, at no
   * place that no path ends at or above, a greater name is given before a smaller one.
   */
  lemma FilterIsProjectionIff(strings: seq<seq<byte>>)
    requires Strung(strings)
    ensures (forall v :: Valid(v) && Countable(v) ==>
             Run(Start(Init(strings)), Visit(v)).out == Filtered(Paths(strings), v)) <==>
            AllLand(Paths(strings)) && !Misordered(Paths(strings))
  {
    if AllLand(Paths(strings)) && !Misordered(Paths(strings)) {
      InOrderIff(strings);
      forall v | Valid(v) && Countable(v)
        ensures Run(Start(Init(strings)), Visit(v)).out == Filtered(Paths(strings), v)
      {
        ProjectsInOrder(strings, v);
      }
    } else {
      var v := FilterMisses(strings);
    }
  }

  /**
   * For strings in order and without empty parts: exactly if no selected name goes on, where another selected path has
   * its dot, with a character below the dot.
   */
  lemma ClashDecides(sel: seq<Path>)
    requires Selects(sel)
    ensures (forall v :: Valid(v) && Countable(v) ==>
             Run(Start(Init(Strings(sel))), Visit(v)).out == Filtered(sel, v)) <==>
            !Clash(Strings(sel))
  {
    PathsOfStrings(sel);
    SelectsAllLand(sel);
    StringsStrung(sel);
    ClashIff(sel);
    FilterIsProjectionIff(Strings(sel));
  }

  lemma {:induction false} JoinNulFree(path: Path)
    requires Parted(path)
    ensures NulFree(Join(path))
    decreases |path|
  {
    if path != [] {
      JoinNulFree(path[1..]);
      assert Part(path[0]);
    }
  }

  lemma StringsStrung(sel: seq<Path>)
    requires AllParted(sel)
    ensures Strung(Strings(sel))
  {
    StringsAre(sel);
    forall i | 0 <= i < |sel| ensures NulFree(Strings(sel)[i]) {
      JoinNulFree(sel[i]);
    }
  }

  /** All characters of the path sort above the dot. */
  predicate AboveDot(path: Path) {
    forall i, k :: 0 <= i < |path| && 0 <= k < |path[i]| ==> path[i][k] > DOT
  }

  lemma {:induction false} NoneBelowDot(path: Path, k: nat)
    requires AboveDot(path) && k < |Join(path)|
    ensures Join(path)[k] >= DOT
    decreases |path|
  {
    var x := path[0];
    if |x| < k {
      assert Join(path)[k] == Join(path[1..])[k - |x| - 1];
      NoneBelowDot(path[1..], k - |x| - 1);
    }
  }

  /** So it is for names of letters and digits. */
  lemma FilterIsProjection(sel: seq<Path>, v: Value)
    requires Selects(sel) && forall i :: 0 <= i < |sel| ==> AboveDot(sel[i])
    requires Valid(v) && Countable(v)
    ensures Run(Start(Init(Strings(sel))), Visit(v)).out == Filtered(sel, v)
  {
    StringsAre(sel);
    forall i: nat, j: nat, u, c ensures !ClashAt(Strings(sel), i, j, u, c) {
      if i < |sel| && u + [c] <= Join(sel[i]) {
        NoneBelowDot(sel[i], |u|);
        assert (u + [c])[|u|] == Join(sel[i])[|u|];
      }
    }
    ClashDecides(sel);
  }

  const DASHED: seq<byte> := [97, 45, 98]
  const DASH_AND_DOT: seq<Path> := [[DASHED], [[97], [99]]]

  lemma DashSelects()
    ensures Selects(DASH_AND_DOT)
  {
    var b: Path := [[97], [99]];
    assert Join([DASHED]) == DASHED && b[1..] == [[99]] && Join(b) == [97, 46, 99];
    assert DASHED[1..] == [45, 98] && [97, 46, 99][1..] == [46, 99];
    assert Lex(Join(DASH_AND_DOT[0]), Join(DASH_AND_DOT[1])) < 0;
  }

  lemma DashTrie()
    ensures Init(Strings(DASH_AND_DOT)) == Trie([], [Trie(DASHED, []), Trie([97], [Trie([99], [])])])
  {
    var b: Path, one := [[97], [99]], Trie(DASHED, []);
    DashSelects();
    PathsOfStrings(DASH_AND_DOT);
    assert DASH_AND_DOT[..1] == [[DASHED]] && [[DASHED]][..0] == [];
    assert FilterTries.Build(Trie([], []), [[DASHED]]) == Trie([], [one]);
    assert [one][1..] == [] && FindChild([one], [97]) == 1;
    assert b[1..] == [[99]] && Chain(b) == Trie([97], [Chain([[99]])]);
  }

  lemma DashScans(t: Trie, p: Prop)
    requires |t.children| == 2 && t.children[0].name == DASHED && t.children[1].name == [97] && p.name == [97]
    ensures ScanRoot(t, Object([p])) == [BeginObject, EndObject]
  {
    assert [p][1..] == [];
    assert Advance(t.children, 0, [97]) == 0;
    assert ScanProps(t, 0, [p]) == [];
  }

  /** Selecting a-b and a.c, the filter finds nothing in an object with a property c in a property a. */
  lemma DashBeforeDot()
    ensures var v := Object([Prop([97], Object([Prop([99], Null)]))]);
            && Run(Start(Init(Strings(DASH_AND_DOT))), Visit(v)).out == [BeginObject, EndObject]
            && Filtered(DASH_AND_DOT, v) == Visit(v) != [BeginObject, EndObject]
  {
    var c := Prop([99], Null);
    var p := Prop([97], Object([c]));
    DashTrie();
    OneCounts([99], Null);
    OneCounts([97], Object([c]));
    ScansRoot(Init(Strings(DASH_AND_DOT)), Object([p]));
    DashScans(Init(Strings(DASH_AND_DOT)), p);
    DashProjects(p, c);
    assert Visit(Object([p]))[1] == PropName([97]);
  }

  lemma UnderOne(path: Path, name: seq<byte>)
    requires path != [] && path[0] == name
    ensures Under([path], name) == [path[1..]]
  {
    assert [path][1..] == [];
  }

  lemma DashProjects(p: Prop, c: Prop)
    requires c == Prop([99], Null) && p == Prop([97], Object([c]))
    ensures ProjectProps(DASH_AND_DOT, [p]) == [p]
  {
    assert [p][1..] == [] && [c][1..] == [];
    var dotted: Path, inner: Path := [[97], [99]], [[99]];
    assert dotted[1..] == inner && inner[1..] == [];
    UnderOne(dotted, [97]);
    UnderOne(inner, [99]);
    assert DASH_AND_DOT[1..] == [dotted] && DASH_AND_DOT[0][0] == DASHED != [97];
    assert Under(DASH_AND_DOT, [97]) == [inner];
    assert ProjectProps([[[99]]], [c]) == [c];
  }

  const DOT_AB: seq<byte> := [46, 97, 46, 98]
  const LONG_FIRST: seq<seq<byte>> := [DOT_AB, [97]]

  lemma LongFirstSplits()
    ensures Split(DOT_AB) == [[97], [98]] && Split([97]) == [[97]]
  {
    assert DOT_AB[1..] == [97, 46, 98] && [97, 46, 98][2..] == [98];
    assert FindDot([98], 0) == 1 && FindDot([97, 46, 98], 0) == 1 && FindDot([97], 0) == 1;
    assert [97, 46, 98][..1] == [97] && [98][..1] == [98] && [97][..1] == [97];
    assert Split([97, 46, 98]) == [[97]] + Split([98]);
  }

  lemma LongFirstPaths()
    ensures Paths(LONG_FIRST) == [[[97], [98]], [[97]]]
  {
    LongFirstSplits();
    var one := LONG_FIRST[..1];
    assert one == [DOT_AB] && one[..0] == [];
    assert Paths(one) == [Split(DOT_AB)];
    assert Paths(LONG_FIRST) == [Split(DOT_AB)] + [Split([97])];
  }

  lemma LongFirstTrie()
    ensures Init(LONG_FIRST) == Trie([], [Trie([97], [Trie([98], [])])])
  {
    var long: Path, short: Path := [[97], [98]], [[97]];
    LongFirstPaths();
    assert [long, short][..1] == [long] && [long][..0] == [];
    assert long[1..] == [[98]] && short[1..] == [];
    assert Chain(long) == Trie([97], [Chain([[98]])]);
    assert FilterTries.Build(Trie([], []), [long]) == Trie([], [Trie([97], [Trie([98], [])])]);
  }

  /** Selecting .a.b and a, strings in order that do not clash, the path a is lost: the filter finds only b of it. */
  lemma LongBeforeShort()
    ensures var v := Object([Prop([97], Object([Prop([99], Null)]))]);
            && Lex(LONG_FIRST[0], LONG_FIRST[1]) < 0 && !AllLand(Paths(LONG_FIRST)) && !Clash(LONG_FIRST)
            && Run(Start(Init(LONG_FIRST)), Visit(v)).out == [BeginObject, EndObject]
            && Filtered(Paths(LONG_FIRST), v) == Visit(v) != [BeginObject, EndObject]
  {
    var c := Prop([99], Null);
    var p := Prop([97], Object([c]));
    LongFirstPaths();
    LongFirstTrie();
    OneCounts([99], Null);
    OneCounts([97], Object([c]));
    ScansRoot(Init(LONG_FIRST), Object([p]));
    LongFirstScans(p, c);
    LongFirstProjects(p);
    LongFirstLost();
    NoClashInTwo();
    assert Visit(Object([p]))[1] == PropName([97]);
  }

  lemma LongFirstLost()
    ensures !AllLand([[[97], [98]], [[97]]])
  {
    var long: Path, short: Path := [[97], [98]], [[97]];
    assert [long, short][..1] == [long] && [long][1..] == [];
    assert short < long;
  }

  lemma NoClashInTwo()
    ensures !Clash(LONG_FIRST)
  {
    forall i: nat, j: nat, u, c: byte ensures !ClashAt(LONG_FIRST, i, j, u, c) {
      if i < |LONG_FIRST| && u + [c] <= LONG_FIRST[i] {
        assert (u + [c])[|u|] == LONG_FIRST[i][|u|] >= DOT;
      }
    }
  }

  lemma LongFirstScans(p: Prop, c: Prop)
    requires c == Prop([99], Null) && p == Prop([97], Object([c]))
    ensures ScanRoot(Trie([], [Trie([97], [Trie([98], [])])]), Object([p])) == [BeginObject, EndObject]
  {
    var b := Trie([98], []);
    var a := Trie([97], [b]);
    assert [p][1..] == [] && [c][1..] == [];
    assert ScanProps(a, 0, [c]) == [];
    LexZeroIsEqual([97], [97]);
    assert Scan(a, p.val) == None;
    assert Advance([a], 0, p.name) == 0 && ScanProp(Trie([], [a]), 0, p) == [];
    assert ScanProps(Trie([], [a]), 0, [p]) == [];
  }

  lemma LongFirstProjects(p: Prop)
    requires p.name == [97]
    ensures ProjectProps([[[97], [98]], [[97]]], [p]) == [p]
  {
    var long: Path, short: Path := [[97], [98]], [[97]];
    assert [p][1..] == [] && short[1..] == [] && [long, short][1..] == [short] && [short][1..] == [];
    UnderOne(short, [97]);
    assert Under([long, short], [97]) == [long[1..]] + Under([short], [97]);
    assert Under([long, short], [97])[1] == [];
  }

  /** The filter as the visitor object. */
  class ObjectFilter {
    const root: Trie
    var stack: seq<FState>
    var state: FState
    var nextNode: Option<Trie>
    var out: seq<Event>

    ghost function View(): Filter
      reads this
    {
      Filter(stack, state, nextNode, out)
    }

    /** `init` and `setVisitor`. */
    constructor (strings: seq<seq<byte>>)
      ensures root == Init(strings) && View() == Start(root)
    {
      root := Init(strings);
      stack, out := [], [];
      state, nextNode := FState(Some(Init(strings)), 0, 0, true, false), Some(Init(strings));
    }

    method BeginContainer(isArray: bool)
      modifies this
      ensures View() == Begin(old(View()), isArray)
    {
      stack := stack + [state];
      state := state.(included := state.includeCount > 0 || |stack| == 1, isArray := isArray, node := nextNode);
      state := state.(child := 0);
      if state.includeCount >= 1 {
        state := state.(includeCount := SIZE_MAX);
      }
      if state.included {
        out := out + [Opening(isArray)];
      }
    }

    method EndContainer(e: Event)
      requires stack != []
      modifies this
      ensures View() == End(old(View()), e)
    {
      if state.included {
        out := out + [e];
      }
      nextNode := state.node;
      state := stack[|stack| - 1];
      stack := stack[..|stack| - 1];
      if state.includeCount > 0 {
        state := state.(includeCount := state.includeCount - 1);
      }
    }

    /** `include` on the record at position i of the chain of open containers, the current one last. */
    method Include(i: nat)
      requires 0 < i <= |stack|
      modifies this
      ensures var chain := old(stack + [state]);
              stack + [state] == chain[i := Mark(chain[i])] && |stack| == |old(stack)| && nextNode == old(nextNode)
      ensures out == old(out) + IncludeEvents(old(stack + [state])[i], old(stack + [state])[i - 1])
    {
      var it, prev := if i < |stack| then stack[i] else state, stack[i - 1];
      if !it.included {
        if !prev.isArray {
          out := out + [PropName(if it.node.Some? then it.node.value.name else [])];
        }
        out := out + [Opening(it.isArray)];
      }
      if i < |stack| {
        stack := stack[i := Mark(it)];
      } else {
        state := Mark(it);
      }
    }

    /** The first i containers of the chain are handed on, and what they add is said. */
    ghost predicate HandedOn(chain: seq<FState>, i: nat, said: seq<Event>)
      requires i <= |chain|
      reads this
    {
      |stack| == |chain| - 1 && stack + [state] == MarkUpTo(chain, i) && out == said + Pending(chain[..i])
    }

    /** One more container of the chain. */
    method IncludeNext(ghost chain: seq<FState>, i: nat, ghost said: seq<Event>)
      requires 0 < i <= |stack| == |chain| - 1 && HandedOn(chain, i, said)
      modifies this
      ensures HandedOn(chain, i + 1, said) && nextNode == old(nextNode)
    {
      PendingNext(said, chain, i);
      MarkNext(chain, i);
      Include(i);
    }

    /** `includeParents`: from the outermost container that has not been handed on. */
    method IncludeAll()
      requires stack != [] && stack[0].included
      modifies this
      ensures View() == IncludeParents(old(View()))
    {
      IncludeFrom(stack + [state]);
      WholeChain(old(View()), View());
    }

    method IncludeFrom(ghost chain: seq<FState>)
      requires stack != [] && stack[0].included && chain == stack + [state]
      modifies this
      ensures HandedOn(chain, |chain|, old(out)) && nextNode == old(nextNode)
    {
      ghost var said := out;
      var i := 1;
      MarkFirst(chain);
      assert said + [] == said;
      while i <= |stack|
        invariant 1 <= i <= |stack| + 1 == |chain| && nextNode == old(nextNode)
        invariant HandedOn(chain, i, said) == true
      {
        IncludeNext(chain, i, said);
        i := i + 1;
      }
    }

    /** `propName`. */
    method OnName(name: seq<byte>)
      requires stack != [] && stack[0].included
      modifies this
      ensures View() == Name(old(View()), name)
    {
      nextNode := None;
      if state.node.Some? {
        var children := state.node.value.children;
        var k := state.child;
        while k < |children| && Lex(children[k].name, name) < 0
          invariant Advance(children, k, name) == Advance(children, state.child, name)
          decreases |children| - k
        {
          k := k + 1;
        }
        state := state.(child := k);
        if k < |children| && children[k].name == name {
          if children[k].children == [] {
            state := state.(includeCount := 1);
          } else {
            state := state.(includeCount := 0);
            nextNode := Some(children[k]);
          }
        } else {
          state := state.(includeCount := 0);
        }
      }
      if state.includeCount > 0 {
        if !state.included {
          IncludeAll();
        }
        out := out + [PropName(name)];
      }
    }

    /** One visitor call; property names and ends come inside a container. */
    method Handle(e: Event)
      requires e.EndObject? || e.EndArray? || e.PropName? ==> stack != [] && stack[0].included
      modifies this
      ensures View() == On(old(View()), e)
    {
      match e {
        case BeginObject => BeginContainer(false);
        case BeginArray => BeginContainer(true);
        case EndObject => EndContainer(e);
        case EndArray => EndContainer(e);
        case PropName(name) => OnName(name);
        case _ =>
          if state.includeCount > 0 {
            state := state.(includeCount := state.includeCount - 1);
            out := out + [e];
          }
      }
    }
  }

  ghost function MarkUpTo(chain: seq<FState>, i: nat): (r: seq<FState>)
    requires i <= |chain|
  {
    MarkAll(chain[..i]) + chain[i..]
  }

  lemma MarkFirst(chain: seq<FState>)
    requires chain != [] && chain[0].included
    ensures MarkUpTo(chain, 1) == chain
  {
  }

  lemma MarkNext(chain: seq<FState>, i: nat)
    requires 0 < i < |chain|
    ensures MarkUpTo(chain, i)[i := Mark(chain[i])] == MarkUpTo(chain, i + 1)
    ensures |MarkUpTo(chain, i)| == |chain|
    ensures IncludeEvents(MarkUpTo(chain, i)[i], MarkUpTo(chain, i)[i - 1]) == IncludeEvents(chain[i], chain[i - 1])
  {
    assert MarkUpTo(chain, i)[i] == chain[i] && MarkUpTo(chain, i)[i - 1] == Mark(chain[i - 1]);
  }

  lemma PendingNext(said: seq<Event>, chain: seq<FState>, i: nat)
    requires 0 < i < |chain|
    ensures said + Pending(chain[..i + 1]) == said + Pending(chain[..i]) + IncludeEvents(chain[i], chain[i - 1])
  {
    assert chain[..i + 1][..i] == chain[..i];
  }

  /** With the whole chain handed on, the parents are. */
  lemma WholeChain(f: Filter, g: Filter)
    requires |g.stack| == |f.stack| && g.nextNode == f.nextNode
    requires var chain := f.stack + [f.state];
             g.stack + [g.state] == MarkUpTo(chain, |chain|) && g.out == f.out + Pending(chain[..|chain|])
    ensures g == IncludeParents(f)
  {
    var chain, n := f.stack + [f.state], |f.stack|;
    assert chain[..|chain|] == chain;
    assert (g.stack + [g.state])[n] == g.state && (g.stack + [g.state])[..n] == g.stack;
    assert MarkAll(chain)[..n] == MarkAll(f.stack);
  }
}
