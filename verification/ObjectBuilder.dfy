/** Rebuilding a value from its visitor events (MojObjectBuilder). */
module ObjectBuilders {
  import opened Bytes
  import opened Values

  datatype Option<+T> = None | Some(value: T)

  // ----- property lists -----

  type Props = seq<Prop>

  /** `get`. */
  function Get(o: Props, name: seq<byte>): Option<Value> {
    if o == [] then None else if o[0].name == name then Some(o[0].val) else Get(o[1..], name)
  }

  /** The sorted property list after MojObject::put: replaced or inserted in name order. */
  function PutProp(props: seq<Prop>, name: seq<byte>, val: Value): seq<Prop> {
    if props == [] then [Prop(name, val)]
    else if Lex(props[0].name, name) < 0 then [props[0]] + PutProp(props[1..], name, val)
    else if props[0].name == name then [Prop(name, val)] + props[1..]
    else [Prop(name, val)] + props
  }

  predicate Above(o: Props, name: seq<byte>) {
    forall i :: 0 <= i < |o| ==> Lex(name, o[i].name) < 0
  }

  predicate Ascending(o: Props) {
    o == [] || (Above(o[1..], o[0].name) && Ascending(o[1..]))
  }

  lemma {:induction false} AboveHasNot(o: Props, name: seq<byte>)
    requires Above(o, name)
    ensures Get(o, name) == None
  {
    if o != [] {
      LexZeroIsEqual(name, o[0].name);
      AboveHasNot(o[1..], name);
    }
  }

  lemma AboveAbove(o: Props, low: seq<byte>, name: seq<byte>)
    requires Above(o, name) && Lex(low, name) < 0
    ensures Above(o, low)
  {
    forall i | 0 <= i < |o| ensures Lex(low, o[i].name) < 0 {
      LexTransitive(low, name, o[i].name);
    }
  }

  lemma {:induction false} GetPut(o: Props, name: seq<byte>, val: Value, other: seq<byte>)
    requires Ascending(o)
    ensures Get(PutProp(o, name, val), other) == if other == name then Some(val) else Get(o, other)
  {
    if o == [] {
      assert [Prop(name, val)][1..] == [];
    } else {
      LexZeroIsEqual(o[0].name, name);
      if Lex(o[0].name, name) < 0 {
        GetPut(o[1..], name, val, other);
      } else if o[0].name != name {
        assert ([Prop(name, val)] + o)[1..] == o;
      }
    }
  }

  lemma {:induction false} PutAscending(o: Props, name: seq<byte>, val: Value)
    requires Ascending(o)
    ensures Ascending(PutProp(o, name, val))
    ensures forall low :: Above(o, low) && Lex(low, name) < 0 ==> Above(PutProp(o, name, val), low)
  {
    if o != [] {
      LexZeroIsEqual(o[0].name, name);
      LexAntisymmetric(o[0].name, name);
      if Lex(o[0].name, name) < 0 {
        PutAscending(o[1..], name, val);
        var rest := PutProp(o[1..], name, val);
        assert ([o[0]] + rest)[1..] == rest;
      } else if o[0].name == name {
        assert ([Prop(name, val)] + o[1..])[1..] == o[1..];
      } else {
        assert ([Prop(name, val)] + o)[1..] == o;
        AboveAbove(o[1..], name, o[0].name);
      }
    }
  }

  lemma {:induction false} PutPropAppends(props: seq<Prop>, name: seq<byte>, val: Value)
    requires forall i :: 0 <= i < |props| ==> Lex(props[i].name, name) < 0
    ensures PutProp(props, name, val) == props + [Prop(name, val)]
  {
    if props != [] {
      PutPropAppends(props[1..], name, val);
    }
  }

  // ----- the builder -----

  /** A container under construction, and the property name it was opened under. */
  datatype Rec = Rec(obj: Value, propName: seq<byte>)

  datatype BuilderState = BuilderState(stack: seq<Rec>, obj: Option<Value>, propName: seq<byte>)

  const EMPTY_BUILDER := BuilderState([], None, [])

  /** Every open record is an object or an array. */
  predicate Containers(stack: seq<Rec>) {
    forall i :: 0 <= i < |stack| ==> stack[i].obj.Object? || stack[i].obj.Array?
  }

  /** A finished value goes into the innermost open container, or becomes the result. */
  function Accept(bs: BuilderState, val: Value): (r: BuilderState)
    requires Containers(bs.stack)
    ensures Containers(r.stack) && |r.stack| == |bs.stack|
  {
    if bs.stack == [] then bs.(obj := Some(val))
    else
      var n := |bs.stack| - 1;
      var top := bs.stack[n];
      var obj := if top.obj.Object? then Object(PutProp(top.obj.props, bs.propName, val))
                 else Array(top.obj.elems + [val]);
      bs.(stack := bs.stack[n := top.(obj := obj)])
  }

  function Push(bs: BuilderState, empty: Value): (r: BuilderState)
    requires Containers(bs.stack) && (empty.Object? || empty.Array?)
    ensures Containers(r.stack)
  {
    bs.(stack := bs.stack + [Rec(empty, bs.propName)])
  }

  function Pop(bs: BuilderState): (r: BuilderState)
    requires Containers(bs.stack) && bs.stack != []
    ensures Containers(r.stack)
  {
    var n := |bs.stack| - 1;
    var rec := bs.stack[n];
    Accept(bs.(stack := bs.stack[..n], propName := rec.propName), rec.obj)
  }

  /** One visitor call; an end event needs an open container. */
  function Build(bs: BuilderState, e: Event): (r: BuilderState)
    requires Containers(bs.stack)
    requires e.EndObject? || e.EndArray? ==> bs.stack != []
    ensures Containers(r.stack)
  {
    match e
    case BeginObject => Push(bs, Object([]))
    case BeginArray => Push(bs, Array([]))
    case EndObject => Pop(bs)
    case EndArray => Pop(bs)
    case PropName(name) => bs.(propName := name)
    case NullValue => Accept(bs, Null)
    case BoolValue(b) => Accept(bs, Bool(b))
    case IntValue(i) => Accept(bs, Int(i))
    case DecimalValue(rep) => Accept(bs, Decimal(rep))
    case StringValue(s) => Accept(bs, Str(s))
  }

  /** A run of visitor calls; None when an end event has nothing to close. */
  function BuildAll(bs: BuilderState, es: seq<Event>): (r: Option<BuilderState>)
    requires Containers(bs.stack)
    ensures r.Some? ==> Containers(r.value.stack)
    decreases es
  {
    if es == [] then Some(bs)
    else if (es[0].EndObject? || es[0].EndArray?) && bs.stack == [] then None
    else BuildAll(Build(bs, es[0]), es[1..])
  }

  lemma {:induction false} BuildAllConcat(bs: BuilderState, a: seq<Event>, b: seq<Event>)
    requires Containers(bs.stack) && BuildAll(bs, a).Some?
    ensures BuildAll(bs, a + b) == BuildAll(BuildAll(bs, a).value, b)
    decreases a
  {
    if a == [] {
      assert a + b == b;
    } else {
      assert (a + b)[1..] == a[1..] + b;
      BuildAllConcat(Build(bs, a[0]), a[1..], b);
    }
  }

  /** The state with the innermost container, and nothing below it, replaced. */
  function SetTop(bs: BuilderState, obj: Value): BuilderState
    requires bs.stack != []
  {
    bs.(stack := bs.stack[|bs.stack| - 1 := bs.stack[|bs.stack| - 1].(obj := obj)])
  }

  /** Opening a container, filling it and closing it accepts the filled container. */
  lemma Closes(bs: BuilderState, empty: Value, inside: seq<Event>, full: Value, name: seq<byte>, end: Event)
    requires Containers(bs.stack)
    requires (empty == Object([]) && full.Object? && end.EndObject?) ||
             (empty == Array([]) && full.Array? && end.EndArray?)
    requires BuildAll(Push(bs, empty), inside) == Some(SetTop(Push(bs, empty), full).(propName := name))
    ensures BuildAll(bs, [if empty.Object? then BeginObject else BeginArray] + inside + [end]) == Some(Accept(bs, full))
  {
    var filled := SetTop(Push(bs, empty), full).(propName := name);
    var begin := if empty.Object? then BeginObject else BeginArray;
    assert ([begin] + inside + [end])[1..] == inside + [end];
    BuildAllConcat(Push(bs, empty), inside, [end]);
    assert filled.stack[..|bs.stack|] == bs.stack;
    assert [end][1..] == [];
    assert Pop(filled) == Accept(bs, full);
  }

  /** The name left behind by a walk of properties. */
  function LastName(name: seq<byte>, props: seq<Prop>): seq<byte>
    decreases props
  {
    if props == [] then name else LastName(props[0].name, props[1..])
  }

  lemma SetTopTwice(bs: BuilderState, a: Value, b: Value)
    requires bs.stack != []
    ensures SetTop(SetTop(bs, a), b) == SetTop(bs, b)
    ensures SetTop(bs, bs.stack[|bs.stack| - 1].obj) == bs
  {
    var n := |bs.stack| - 1;
    assert bs.stack[n := bs.stack[n]] == bs.stack;
  }

  // ----- what is built -----

  /** The value the walk of any value builds, its names in whatever order and however often. */
  function Settle(v: Value): Value
    decreases v, 1
  {
    match v
    case Object(props) => Object(SettleProps([], props))
    case Array(elems) => Array(SettleElems(elems))
    case _ => v
  }

  function SettleProps(done: Props, props: Props): Props
    decreases props, 0
  {
    if props == [] then done
    else SettleProps(PutProp(done, props[0].name, Settle(props[0].val)), props[1..])
  }

  function SettleElems(elems: seq<Value>): seq<Value>
    decreases elems, 0
  {
    if elems == [] then [] else [Settle(elems[0])] + SettleElems(elems[1..])
  }

  /** The walk of any value hands over what it settles to and disturbs nothing else. */
  lemma {:induction false} BuildSettles(bs: BuilderState, v: Value)
    requires Containers(bs.stack)
    ensures BuildAll(bs, Visit(v)) == Some(Accept(bs, Settle(v)))
    decreases v, 1
  {
    match v {
      case Object(props) =>
        BuildProps(Push(bs, Object([])), [], props);
        Closes(bs, Object([]), VisitProps(props), Settle(v), LastName(bs.propName, props), EndObject);
      case Array(elems) =>
        BuildElems(Push(bs, Array([])), [], elems);
        assert [] + SettleElems(elems) == SettleElems(elems);
        Closes(bs, Array([]), VisitElems(elems), Settle(v), bs.propName, EndArray);
      case _ =>
        assert Visit(v)[1..] == [];
    }
  }

  lemma {:induction false} BuildProps(bs: BuilderState, done: Props, props: Props)
    requires Containers(bs.stack) && bs.stack != []
    requires bs.stack[|bs.stack| - 1].obj == Object(done)
    ensures BuildAll(bs, VisitProps(props))
         == Some(SetTop(bs, Object(SettleProps(done, props))).(propName := LastName(bs.propName, props)))
    decreases props, 0
  {
    if props == [] {
      SetTopTwice(bs, Object(done), Object(done));
    } else {
      var p, rest := props[0], props[1..];
      var named, more := bs.(propName := p.name), PutProp(done, p.name, Settle(p.val));
      assert VisitProps(props) == [PropName(p.name)] + (Visit(p.val) + VisitProps(rest));
      assert BuildAll(bs, VisitProps(props)) == BuildAll(named, Visit(p.val) + VisitProps(rest));
      BuildSettles(named, p.val);
      BuildAllConcat(named, Visit(p.val), VisitProps(rest));
      BuildProps(SetTop(named, Object(more)), more, rest);
      SetTopTwice(named, Object(more), Object(SettleProps(more, rest)));
    }
  }

  lemma {:induction false} BuildElems(bs: BuilderState, done: seq<Value>, elems: seq<Value>)
    requires Containers(bs.stack) && bs.stack != []
    requires bs.stack[|bs.stack| - 1].obj == Array(done)
    ensures BuildAll(bs, VisitElems(elems)) == Some(SetTop(bs, Array(done + SettleElems(elems))))
    decreases elems, 0
  {
    if elems == [] {
      assert done + SettleElems(elems) == done;
      SetTopTwice(bs, Array(done), Array(done));
    } else {
      var first, rest := Settle(elems[0]), SettleElems(elems[1..]);
      BuildSettles(bs, elems[0]);
      var put := SetTop(bs, Array(done + [first]));
      assert Accept(bs, first) == put;
      assert (done + [first]) + rest == done + SettleElems(elems);
      BuildElems(put, done + [first], elems[1..]);
      SetTopTwice(bs, Array(done + [first]), Array(done + SettleElems(elems)));
      BuildAllConcat(bs, Visit(elems[0]), VisitElems(elems[1..]));
    }
  }

  /** A value as the object model holds it is built as it is. */
  lemma {:induction false} ValidSettles(v: Value)
    requires Valid(v)
    ensures Settle(v) == v
    decreases v, 1
  {
    match v {
      case Object(props) =>
        ValidPropsSettle([], props);
        assert [] + props == props;
      case Array(elems) => ValidElemsSettle(elems);
      case _ =>
    }
  }

  lemma {:induction false} ValidPropsSettle(done: Props, props: Props)
    requires ValidProps(done + props)
    ensures SettleProps(done, props) == done + props
    decreases props, 0
  {
    if props == [] {
      assert done + props == done;
    } else {
      var p := props[0];
      assert (done + props)[|done|] == p;
      forall i | 0 <= i < |done| ensures Lex(done[i].name, p.name) < 0 {
        assert (done + props)[i] == done[i];
      }
      PutPropAppends(done, p.name, p.val);
      ValidSettles(p.val);
      assert (done + [p]) + props[1..] == done + props;
      ValidPropsSettle(done + [p], props[1..]);
    }
  }

  lemma {:induction false} ValidElemsSettle(elems: seq<Value>)
    requires ValidElems(elems)
    ensures SettleElems(elems) == elems
    decreases elems, 0
  {
    if elems != [] {
      ValidSettles(elems[0]);
      ValidElemsSettle(elems[1..]);
    }
  }

  /** The walk of a value, replayed, hands over exactly that value and disturbs nothing else. */
  lemma BuildVisit(bs: BuilderState, v: Value)
    requires Containers(bs.stack) && Valid(v)
    ensures BuildAll(bs, Visit(v)) == Some(Accept(bs, v))
  {
    BuildSettles(bs, v);
    ValidSettles(v);
  }

  // ----- names in order, and the last value under each -----

  /** Names are in order, each once, at every level. */
  predicate InOrder(v: Value) {
    match v
    case Object(props) => Ascending(props) && forall i :: 0 <= i < |props| ==> InOrder(props[i].val)
    case Array(elems) => forall i :: 0 <= i < |elems| ==> InOrder(elems[i])
    case _ => true
  }

  /** All containers under construction, and the result if there is one, have their names in order. */
  predicate Orderly(bs: BuilderState) {
    (bs.obj.Some? ==> InOrder(bs.obj.value)) && forall i :: 0 <= i < |bs.stack| ==> InOrder(bs.stack[i].obj)
  }

  lemma {:induction false} PutInOrder(o: Props, name: seq<byte>, val: Value)
    requires forall i :: 0 <= i < |o| ==> InOrder(o[i].val)
    requires InOrder(val)
    ensures forall i :: 0 <= i < |PutProp(o, name, val)| ==> InOrder(PutProp(o, name, val)[i].val)
  {
    if o != [] && Lex(o[0].name, name) < 0 {
      PutInOrder(o[1..], name, val);
    }
  }

  lemma AcceptInOrder(bs: BuilderState, val: Value)
    requires Containers(bs.stack) && Orderly(bs) && InOrder(val)
    ensures Orderly(Accept(bs, val))
  {
    if bs.stack != [] {
      var top := bs.stack[|bs.stack| - 1].obj;
      if top.Object? {
        PutAscending(top.props, bs.propName, val);
        PutInOrder(top.props, bs.propName, val);
      }
    }
  }

  /** Whatever is sent, the builder keeps the names of everything it holds in order. */
  lemma {:induction false} BuildKeepsOrder(bs: BuilderState, es: seq<Event>)
    requires Containers(bs.stack) && Orderly(bs) && BuildAll(bs, es).Some?
    ensures Orderly(BuildAll(bs, es).value)
    decreases es
  {
    if es != [] {
      match es[0] {
        case EndObject => PopInOrder(bs);
        case EndArray => PopInOrder(bs);
        case NullValue => AcceptInOrder(bs, Null);
        case BoolValue(b) => AcceptInOrder(bs, Bool(b));
        case IntValue(i) => AcceptInOrder(bs, Int(i));
        case DecimalValue(rep) => AcceptInOrder(bs, Decimal(rep));
        case StringValue(s) => AcceptInOrder(bs, Str(s));
        case _ =>
      }
      BuildKeepsOrder(Build(bs, es[0]), es[1..]);
    }
  }

  lemma PopInOrder(bs: BuilderState)
    requires Containers(bs.stack) && Orderly(bs) && bs.stack != []
    ensures Orderly(Pop(bs))
  {
    var rec := bs.stack[|bs.stack| - 1];
    AcceptInOrder(bs.(stack := bs.stack[..|bs.stack| - 1], propName := rec.propName), rec.obj);
  }

  /** The last place of a name among the properties, or their number. */
  function LastOf(props: Props, name: seq<byte>): (i: nat)
    ensures i <= |props| && (i < |props| ==> props[i].name == name)
    ensures forall j :: 0 <= j < |props| && (i == |props| || i < j) ==> props[j].name != name
  {
    if props == [] then 0
    else if props[|props| - 1].name == name then |props| - 1
    else
      var i := LastOf(props[..|props| - 1], name);
      if i == |props| - 1 then |props| else i
  }

  /** The built value has each name once, in order, with the last value given under it; elements stay as they were. */
  ghost predicate Holds(w: Value, v: Value)
    decreases v
  {
    match v
    case Object(props) =>
      && w.Object? && Ascending(w.props)
      && (forall name :: Get(w.props, name).Some? <==> LastOf(props, name) < |props|)
      && forall i :: 0 <= i < |props| && LastOf(props, props[i].name) == i ==>
           Get(w.props, props[i].name).Some? && Holds(Get(w.props, props[i].name).value, props[i].val)
    case Array(elems) =>
      w.Array? && |w.elems| == |elems| && forall i :: 0 <= i < |elems| ==> Holds(w.elems[i], elems[i])
    case _ => w == v
  }

  /** Looking a name up after the walk of properties: the last of the name decides, else what was there before. */
  lemma {:induction false} LastWins(done: Props, props: Props, name: seq<byte>)
    requires Ascending(done)
    ensures Ascending(SettleProps(done, props))
    ensures var i := LastOf(props, name);
            Get(SettleProps(done, props), name) == if i < |props| then Some(Settle(props[i].val)) else Get(done, name)
    decreases |props|
  {
    if props != [] {
      var more := PutProp(done, props[0].name, Settle(props[0].val));
      PutAscending(done, props[0].name, Settle(props[0].val));
      GetPut(done, props[0].name, Settle(props[0].val), name);
      LastWins(more, props[1..], name);
      LastOfRest(props, name);
    }
  }

  lemma LastOfRest(props: Props, name: seq<byte>)
    requires props != []
    ensures var i, j := LastOf(props, name), LastOf(props[1..], name);
            if j < |props| - 1 then i == j + 1 else i == if props[0].name == name then 0 else |props|
  {
    var rest := props[1..];
    assert forall k :: 0 <= k < |rest| ==> rest[k] == props[k + 1];
    assert forall k :: 0 < k < |props| ==> props[k] == rest[k - 1];
  }

  lemma {:induction false} SettleHolds(v: Value)
    ensures Holds(Settle(v), v)
    decreases v, 1
  {
    match v {
      case Object(props) =>
        var w := SettleProps([], props);
        LastWins([], props, []);
        forall name ensures Get(w, name).Some? <==> LastOf(props, name) < |props| {
          LastWins([], props, name);
        }
        forall i | 0 <= i < |props| && LastOf(props, props[i].name) == i
          ensures Get(w, props[i].name).Some? && Holds(Get(w, props[i].name).value, props[i].val)
        {
          LastWins([], props, props[i].name);
          SettleHolds(props[i].val);
        }
      case Array(elems) => SettleElemsHold(elems);
      case _ =>
    }
  }

  lemma {:induction false} SettleElemsHold(elems: seq<Value>)
    ensures |SettleElems(elems)| == |elems|
    ensures forall i :: 0 <= i < |elems| ==> Holds(SettleElems(elems)[i], elems[i])
    decreases elems, 0
  {
    if elems != [] {
      SettleHolds(elems[0]);
      SettleElemsHold(elems[1..]);
    }
  }

  /** The events of any value, names unordered and repeated, build a value that holds the last under each name. */
  lemma LastValueBuilt(v: Value) returns (w: Value)
    ensures BuildAll(EMPTY_BUILDER, Visit(v)) == Some(BuilderState([], Some(w), [])) && Holds(w, v) && InOrder(w)
  {
    w := Settle(v);
    BuildSettles(EMPTY_BUILDER, v);
    SettleHolds(v);
    BuildKeepsOrder(EMPTY_BUILDER, Visit(v));
  }

  /** The builder as the object the parsers drive. */
  class ObjectBuilder {
    var stack: seq<Rec>
    var obj: Option<Value>
    var propName: seq<byte>

    ghost predicate Ready()
      reads this
    {
      Containers(stack)
    }

    ghost function State(): BuilderState
      reads this
    {
      BuilderState(stack, obj, propName)
    }

    constructor ()
      ensures Ready() && State() == EMPTY_BUILDER
    {
      stack, obj, propName := [], None, [];
    }

    method AcceptValue(val: Value)
      requires Ready()
      modifies this
      ensures Ready() && State() == Accept(old(State()), val)
    {
      if stack == [] {
        obj := Some(val);
      } else {
        var n := |stack| - 1;
        if stack[n].obj.Object? {
          stack := stack[n := stack[n].(obj := Object(PutProp(stack[n].obj.props, propName, val)))];
        } else {
          stack := stack[n := stack[n].(obj := Array(stack[n].obj.elems + [val]))];
        }
      }
    }

    /** One visitor call. */
    method Handle(e: Event)
      requires Ready()
      requires e.EndObject? || e.EndArray? ==> stack != []
      modifies this
      ensures Ready() && State() == Build(old(State()), e)
    {
      match e {
        case BeginObject => stack := stack + [Rec(Object([]), propName)];
        case BeginArray => stack := stack + [Rec(Array([]), propName)];
        case EndObject => Close();
        case EndArray => Close();
        case PropName(name) => propName := name;
        case NullValue => AcceptValue(Null);
        case BoolValue(b) => AcceptValue(Bool(b));
        case IntValue(i) => AcceptValue(Int(i));
        case DecimalValue(rep) => AcceptValue(Decimal(rep));
        case StringValue(s) => AcceptValue(Str(s));
      }
    }

    method Close()
      requires Ready() && stack != []
      modifies this
      ensures Ready() && State() == Pop(old(State()))
    {
      var n := |stack| - 1;
      var rec := stack[n];
      propName := rec.propName;
      stack := stack[..n];
      AcceptValue(rec.obj);
    }
  }
}
