/** Object values, the visitor events they are walked as, and their order. */
module Values {
  import opened Bytes

  /** MojObject without TypeUndefined. A decimal is its 64-bit representation. */
  datatype Value =
    | Null
    | Object(props: seq<Prop>)
    | Array(elems: seq<Value>)
    | Str(s: seq<byte>)
    | Bool(b: bool)
    | Decimal(rep: int64)
    | Int(i: int64)

  datatype Prop = Prop(name: seq<byte>, val: Value)

  /** One call on a MojObjectVisitor. */
  datatype Event =
    | BeginObject
    | EndObject
    | BeginArray
    | EndArray
    | PropName(name: seq<byte>)
    | NullValue
    | BoolValue(b: bool)
    | IntValue(i: int64)
    | DecimalValue(rep: int64)
    | StringValue(s: seq<byte>)

  /** Property names are strictly increasing, as the property map keeps them. */
  predicate SortedProps(props: seq<Prop>) {
    forall i, j :: 0 <= i < j < |props| ==> Lex(props[i].name, props[j].name) < 0
  }

  /** A value as the object model can hold it: NUL-free strings, sorted properties. */
  predicate Valid(v: Value) {
    match v
    case Object(props) => ValidProps(props)
    case Array(elems) => ValidElems(elems)
    case Str(s) => NulFree(s)
    case _ => true
  }

  predicate ValidProps(props: seq<Prop>) {
    SortedProps(props) &&
    forall i :: 0 <= i < |props| ==> NulFree(props[i].name) && Valid(props[i].val)
  }

  predicate ValidElems(elems: seq<Value>) {
    forall i :: 0 <= i < |elems| ==> Valid(elems[i])
  }

  /** Only the strings are constrained: what the byte and text forms need of a value. */
  predicate Clean(v: Value)
    decreases v, 1
  {
    match v
    case Object(props) => CleanProps(props)
    case Array(elems) => CleanElems(elems)
    case Str(s) => NulFree(s)
    case _ => true
  }

  predicate CleanProps(props: seq<Prop>)
    decreases props, 0
  {
    props == [] || (NulFree(props[0].name) && Clean(props[0].val) && CleanProps(props[1..]))
  }

  predicate CleanElems(elems: seq<Value>)
    decreases elems, 0
  {
    elems == [] || (Clean(elems[0]) && CleanElems(elems[1..]))
  }

  lemma {:induction false} ValidIsClean(v: Value)
    requires Valid(v)
    ensures Clean(v)
    decreases v, 1
  {
    match v {
      case Object(props) => ValidPropsAreClean(props);
      case Array(elems) => ValidElemsAreClean(elems);
      case _ =>
    }
  }

  lemma {:induction false} ValidPropsAreClean(props: seq<Prop>)
    requires ValidProps(props)
    ensures CleanProps(props)
    decreases props, 0
  {
    if props != [] {
      ValidIsClean(props[0].val);
      ValidPropsAreClean(props[1..]);
    }
  }

  lemma {:induction false} ValidElemsAreClean(elems: seq<Value>)
    requires ValidElems(elems)
    ensures CleanElems(elems)
    decreases elems, 0
  {
    if elems != [] {
      ValidIsClean(elems[0]);
      ValidElemsAreClean(elems[1..]);
    }
  }

  /** The events of a depth-first walk. */
  function Visit(v: Value): seq<Event>
    decreases v, 1
  {
    match v
    case Null => [NullValue]
    case Object(props) => [BeginObject] + VisitProps(props) + [EndObject]
    case Array(elems) => [BeginArray] + VisitElems(elems) + [EndArray]
    case Str(s) => [StringValue(s)]
    case Bool(b) => [BoolValue(b)]
    case Decimal(rep) => [DecimalValue(rep)]
    case Int(i) => [IntValue(i)]
  }

  function VisitProps(props: seq<Prop>): seq<Event>
    decreases props, 0
  {
    if props == [] then []
    else [PropName(props[0].name)] + Visit(props[0].val) + VisitProps(props[1..])
  }

  function VisitElems(elems: seq<Value>): seq<Event>
    decreases elems, 0
  {
    if elems == [] then [] else Visit(elems[0]) + VisitElems(elems[1..])
  }

  /** The position of a value's type in MojObject::Type. */
  function TypeRank(v: Value): nat {
    match v
    case Null => 1
    case Object(_) => 2
    case Array(_) => 3
    case Str(_) => 4
    case Bool(_) => 5
    case Decimal(_) => 6
    case Int(_) => 7
  }

  /** The sign of MojObject::compare. */
  function Compare(v: Value, w: Value): (r: int)
    ensures -1 <= r <= 1
    decreases v, 1
  {
    if TypeRank(v) != TypeRank(w) then Cmp(TypeRank(v), TypeRank(w))
    else match v
      case Null => 0
      case Object(props) => CompareProps(props, w.props)
      case Array(elems) => CompareElems(elems, w.elems)
      case Str(s) => Lex(s, w.s)
      case Bool(b) => Cmp(if b then 1 else 0, if w.b then 1 else 0)
      case Decimal(rep) => Cmp(rep, w.rep)
      case Int(i) => Cmp(i, w.i)
  }

  /** Property maps compare entry by entry, name before value. */
  function CompareProps(p: seq<Prop>, q: seq<Prop>): (r: int)
    ensures -1 <= r <= 1
    decreases p, 0
  {
    if p == [] then (if q == [] then 0 else -1)
    else if q == [] then 1
    else
      var c := Lex(p[0].name, q[0].name);
      if c != 0 then c
      else
        var d := Compare(p[0].val, q[0].val);
        if d != 0 then d else CompareProps(p[1..], q[1..])
  }

  function CompareElems(p: seq<Value>, q: seq<Value>): (r: int)
    ensures -1 <= r <= 1
    decreases p, 0
  {
    if p == [] then (if q == [] then 0 else -1)
    else if q == [] then 1
    else
      var d := Compare(p[0], q[0]);
      if d != 0 then d else CompareElems(p[1..], q[1..])
  }
}
