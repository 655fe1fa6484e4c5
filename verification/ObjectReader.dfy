/** The explicit-stack reader of the binary encoding (MojObjectReader). */
module ObjectReaders {
  import opened Bytes
  import opened Values
  import opened Encoding
  import opened ObjectBuilders

  datatype Error = UnexpectedEof | UnexpectedMarker
  datatype Result<+T> = Ok(value: T) | Err(error: Error)

  /** What the reader expects next at one nesting level. */
  datatype Expect = ExpectValue | InObject | InArray

  /** The unread bytes, the nesting stack (top last), and whether to swallow the next object start. */
  datatype ReaderState = ReaderState(rest: seq<byte>, stack: seq<Expect>, skipBegin: bool)

  /** A new state with the events that led to it. */
  datatype Read = Read(st: ReaderState, events: seq<Event>)

  // ----- primitive reads (MojDataReader) -----

  function ReadUnsigned(rest: seq<byte>, k: nat): (r: Result<nat>)
    ensures r.Ok? <==> |rest| >= k
    ensures r.Ok? ==> r.value < Pow256(k)
  {
    if |rest| < k then Err(UnexpectedEof)
    else
      FromBigEndianBound(rest[..k]);
      Ok(FromBigEndian(rest[..k]))
  }

  /** The width of the number behind an integer marker. */
  function WidthOf(marker: byte): nat {
    if marker == ZERO_INT then 0
    else if marker == UINT8 then 1
    else if marker == UINT16 then 2
    else if marker == UINT32 then 4
    else 8
  }

  predicate IsIntMarker(marker: byte) { NEGATIVE_INT <= marker <= INT64 }

  function ReadSigned(rest: seq<byte>, k: nat): (r: Result<int64>)
    requires k <= 8
    ensures r.Ok? <==> |rest| >= k
  {
    match ReadUnsigned(rest, k)
    case Err(e) => Err(e)
    case Ok(u) =>
      Pow256Values();
      Pow256Monotone(k, 8);
      Ok(ToSigned64(u))
  }

  lemma {:induction false} Pow256Monotone(j: nat, k: nat)
    requires j <= k
    ensures Pow256(j) <= Pow256(k)
    decreases k - j
  {
    if j < k {
      Pow256Monotone(j + 1, k);
      assert Pow256(j + 1) == 256 * Pow256(j);
    }
  }

  /** The offset of the first NUL. */
  function FindNul(rest: seq<byte>): (r: Result<nat>)
    ensures r.Ok? ==> r.value < |rest| && rest[r.value] == 0 && NulFree(rest[..r.value])
    ensures r.Err? ==> NulFree(rest) && r.error == UnexpectedEof
  {
    if rest == [] then Err(UnexpectedEof)
    else if rest[0] == 0 then Ok(0)
    else match FindNul(rest[1..])
      case Err(e) => Err(e)
      case Ok(n) =>
        assert rest[..n + 1] == [rest[0]] + rest[1..][..n];
        Ok(n + 1)
  }

  // ----- one step -----

  /** A value whose marker has been consumed; `stack` no longer expects it. */
  function ReadValue(marker: byte, rest: seq<byte>, stack: seq<Expect>, skip: bool): (r: Result<Read>)
    ensures r.Ok? ==> |r.value.st.rest| <= |rest|
  {
    if marker == OBJECT_BEGIN then
      Ok(Read(ReaderState(rest, stack + [InObject], false), if skip then [] else [BeginObject]))
    else if marker == ARRAY_BEGIN then
      Ok(Read(ReaderState(rest, stack + [InArray], skip), [BeginArray]))
    else if marker == STRING_MARKER then
      match FindNul(rest)
      case Err(e) => Err(e)
      case Ok(n) => Ok(Read(ReaderState(rest[n + 1..], stack, skip), [StringValue(rest[..n])]))
    else if marker == NULL_MARKER then
      Ok(Read(ReaderState(rest, stack, skip), [NullValue]))
    else if marker == TRUE_MARKER then
      Ok(Read(ReaderState(rest, stack, skip), [BoolValue(true)]))
    else if marker == FALSE_MARKER then
      Ok(Read(ReaderState(rest, stack, skip), [BoolValue(false)]))
    else if marker == NEGATIVE_DECIMAL || marker == POSITIVE_DECIMAL then
      match ReadSigned(rest, 8)
      case Err(e) => Err(e)
      case Ok(v) => Ok(Read(ReaderState(rest[8..], stack, skip), [DecimalValue(v)]))
    else if IsIntMarker(marker) then
      match ReadSigned(rest, WidthOf(marker))
      case Err(e) => Err(e)
      case Ok(v) => Ok(Read(ReaderState(rest[WidthOf(marker)..], stack, skip), [IntValue(v)]))
    else if marker == EXTENSION then
      match ReadUnsigned(rest, 4)
      case Err(e) => Err(e)
      case Ok(n) =>
        if |rest| - 4 < n then Err(UnexpectedEof)
        else Ok(Read(ReaderState(rest[4 + n..], stack, skip), []))
    else Err(UnexpectedMarker)
  }

  /** MojObjectReader::next, without a token set. */
  function Step(st: ReaderState): (r: Result<Read>)
    ensures r.Ok? ==> |r.value.st.rest| < |st.rest|
  {
    var stack := if st.stack == [] then [ExpectValue] else st.stack;
    if st.rest == [] then Err(UnexpectedEof)
    else
      var marker, rest, n := st.rest[0], st.rest[1..], |stack| - 1;
      match stack[n]
      case ExpectValue => ReadValue(marker, rest, stack[..n], st.skipBegin)
      case InObject =>
        if marker == OBJECT_END then Ok(Read(ReaderState(rest, stack[..n], st.skipBegin), [EndObject]))
        else if marker == STRING_MARKER then
          match FindNul(rest)
          case Err(e) => Err(e)
          case Ok(k) => Ok(Read(ReaderState(rest[k + 1..], stack + [ExpectValue], st.skipBegin), [PropName(rest[..k])]))
        else Err(UnexpectedMarker)
      case InArray =>
        if marker == OBJECT_END then Ok(Read(ReaderState(rest, stack[..n], st.skipBegin), [EndArray]))
        else ReadValue(marker, rest, stack, st.skipBegin)
  }

  // ----- whole runs -----

  /** Read everything there is (MojObjectReader::read), or one value (nextObject). */
  datatype Mode = ToEnd | OneValue

  predicate Stop(mode: Mode, st: ReaderState) {
    match mode
    case ToEnd => st.rest == []
    case OneValue => st.stack == []
  }

  function Prepend(evs: seq<Event>, r: Result<Read>): Result<Read> {
    match r
    case Err(e) => Err(e)
    case Ok(v) => Ok(Read(v.st, evs + v.events))
  }

  /** Take a step, then go on until the mode says stop. */
  function Run(mode: Mode, st: ReaderState): Result<Read>
    decreases |st.rest|, 1
  {
    match Step(st)
    case Err(e) => Err(e)
    case Ok(v) => Prepend(v.events, Continue(mode, v.st))
  }

  function Continue(mode: Mode, st: ReaderState): Result<Read>
    decreases |st.rest|, 2
  {
    if Stop(mode, st) then Ok(Read(st, [])) else Run(mode, st)
  }

  lemma PrependPrepend(a: seq<Event>, b: seq<Event>, r: Result<Read>)
    ensures Prepend(a, Prepend(b, r)) == Prepend(a + b, r)
  {
    if r.Ok? {
      assert a + (b + r.value.events) == a + b + r.value.events;
    }
  }

  lemma PrependNothing(r: Result<Read>)
    ensures Prepend([], r) == r
  {
    if r.Ok? {
      assert [] + r.value.events == r.value.events;
    }
  }

  // ----- the round trip -----

  /** A value may start here. */
  predicate AtValue(stack: seq<Expect>) {
    stack == [] || stack[|stack| - 1] != InObject
  }

  /** The stack once that value has been read. */
  function AfterValue(stack: seq<Expect>): seq<Expect>
    requires AtValue(stack)
  {
    if stack == [] || stack[|stack| - 1] == InArray then stack else stack[..|stack| - 1]
  }

  lemma NextAtValue(st: ReaderState)
    requires AtValue(st.stack) && st.rest != [] && st.rest[0] != OBJECT_END
    ensures Step(st) == ReadValue(st.rest[0], st.rest[1..], AfterValue(st.stack), st.skipBegin)
  {
    if st.stack == [] {
      assert [ExpectValue][..0] == [];
    }
  }

  lemma {:induction false} FindNulTerminated(s: seq<byte>, x: seq<byte>)
    requires NulFree(s)
    ensures FindNul(s + [0] + x) == Ok(|s|)
  {
    var r := s + [0] + x;
    if s != [] {
      assert r[1..] == s[1..] + [0] + x;
      FindNulTerminated(s[1..], x);
    }
  }

  lemma ReadSignedBack(v: int64, k: nat, x: seq<byte>)
    requires k <= 8 && ToUnsigned64(v) < Pow256(k)
    ensures ReadSigned(BigEndian(ToUnsigned64(v), k) + x, k) == Ok(v)
    ensures (BigEndian(ToUnsigned64(v), k) + x)[k..] == x
  {
    assert (BigEndian(ToUnsigned64(v), k) + x)[..k] == BigEndian(ToUnsigned64(v), k);
    BigEndianRoundTrip(ToUnsigned64(v), k);
    Pow256Values();
    Pow256Monotone(k, 8);
  }

  /** A scalar is read in one step. */
  lemma ReadsScalar(v: Value, x: seq<byte>, stack: seq<Expect>)
    requires Clean(v) && !IsContainer(v)
    ensures ReadValue(Encode(v)[0], (Encode(v) + x)[1..], stack, false) ==
            Ok(Read(ReaderState(x, stack, false), Visit(v)))
  {
    var rest := (Encode(v) + x)[1..];
    match v {
      case Null => assert rest == x;
      case Bool(_) => assert rest == x;
      case Str(s) => ReadsStr(s, x, stack);
      case Decimal(rep) => ReadsDecimal(rep, x, stack);
      case Int(i) => ReadsInt(i, x, stack);
    }
  }

  lemma ReadsStr(s: seq<byte>, x: seq<byte>, stack: seq<Expect>)
    requires NulFree(s)
    ensures ReadValue(Encode(Str(s))[0], (Encode(Str(s)) + x)[1..], stack, false) ==
            Ok(Read(ReaderState(x, stack, false), Visit(Str(s))))
  {
    var rest := (Encode(Str(s)) + x)[1..];
    assert rest == s + [0] + x;
    FindNulTerminated(s, x);
    assert rest[..|s|] == s && rest[|s| + 1..] == x;
  }

  lemma ReadsDecimal(rep: int64, x: seq<byte>, stack: seq<Expect>)
    ensures ReadValue(Encode(Decimal(rep))[0], (Encode(Decimal(rep)) + x)[1..], stack, false) ==
            Ok(Read(ReaderState(x, stack, false), Visit(Decimal(rep))))
  {
    assert (Encode(Decimal(rep)) + x)[1..] == BigEndian(ToUnsigned64(rep), 8) + x;
    Pow256Values();
    ReadSignedBack(rep, 8, x);
  }

  lemma ReadsInt(i: int64, x: seq<byte>, stack: seq<Expect>)
    ensures ReadValue(Encode(Int(i))[0], (Encode(Int(i)) + x)[1..], stack, false) ==
            Ok(Read(ReaderState(x, stack, false), Visit(Int(i))))
  {
    IntShape(i);
    assert (Encode(Int(i)) + x)[1..] == BigEndian(ToUnsigned64(i), IntWidth(i)) + x;
    assert WidthOf(IntMarker(i)) == IntWidth(i);
    ReadSignedBack(i, IntWidth(i), x);
  }

  /** A step followed by a run that is already understood. */
  lemma StepThen(mode: Mode, st: ReaderState, mid: ReaderState, evs: seq<Event>, more: seq<Event>, end: Result<Read>)
    requires Step(st) == Ok(Read(mid, evs))
    requires Continue(mode, mid) == Prepend(more, end)
    ensures Run(mode, st) == Prepend(evs + more, end)
  {
    PrependPrepend(evs, more, end);
  }

  /** A step and a run, followed by a run that is already understood. */
  lemma TwoStepsThen(mode: Mode, st: ReaderState, mid: ReaderState, last: ReaderState,
                     evs: seq<Event>, mids: seq<Event>, more: seq<Event>, end: Result<Read>)
    requires Step(st) == Ok(Read(mid, evs)) && !Stop(mode, st) && !Stop(mode, mid)
    requires Run(mode, mid) == Prepend(mids, Continue(mode, last))
    requires Continue(mode, last) == Prepend(more, end)
    ensures Continue(mode, st) == Prepend(evs + (mids + more), end)
  {
    PrependPrepend(mids, more, end);
    StepThen(mode, st, mid, evs, mids + more, end);
  }

  lemma NextPropName(name: seq<byte>, tail: seq<byte>, stack: seq<Expect>)
    requires NulFree(name)
    ensures Step(ReaderState(EncodeString(name) + tail, stack + [InObject], false))
         == Ok(Read(ReaderState(tail, stack + [InObject] + [ExpectValue], false), [PropName(name)]))
  {
    var rest := (EncodeString(name) + tail)[1..];
    assert rest == name + [0] + tail;
    FindNulTerminated(name, tail);
    assert rest[..|name|] == name && rest[|name| + 1..] == tail;
  }

  lemma NextEnd(x: seq<byte>, stack: seq<Expect>, inside: Expect)
    requires inside != ExpectValue
    ensures Step(ReaderState([OBJECT_END] + x, stack + [inside], false))
         == Ok(Read(ReaderState(x, stack, false), [if inside == InObject then EndObject else EndArray]))
  {
    assert ([OBJECT_END] + x)[1..] == x;
    assert (stack + [inside])[..|stack|] == stack;
  }

  lemma NextBegin(v: Value, tail: seq<byte>, stack: seq<Expect>, skip: bool)
    requires AtValue(stack) && IsContainer(v) && (v.Array? ==> !skip)
    ensures Step(ReaderState([Encode(v)[0]] + tail, stack, skip))
         == Ok(Read(ReaderState(tail, AfterValue(stack) + [if v.Object? then InObject else InArray], false),
                    if skip then [] else [Visit(v)[0]]))
  {
    var st := ReaderState([Encode(v)[0]] + tail, stack, skip);
    NextAtValue(st);
    assert st.rest[1..] == tail;
  }

  /** A container whose inside is already understood. */
  lemma ReadsContainer(mode: Mode, v: Value, body: seq<byte>, more: seq<Event>, stack: seq<Expect>, skip: bool,
                       end: Result<Read>)
    requires AtValue(stack) && IsContainer(v) && (v.Array? ==> !skip)
    requires Continue(mode, ReaderState(body, AfterValue(stack) + [if v.Object? then InObject else InArray], false)) ==
             Prepend(more, end)
    requires Visit(v) == [Visit(v)[0]] + more
    ensures Run(mode, ReaderState([Encode(v)[0]] + body, stack, skip)) == Prepend(if skip then more else Visit(v), end)
  {
    var mid := ReaderState(body, AfterValue(stack) + [if v.Object? then InObject else InArray], false);
    NextBegin(v, body, stack, skip);
    StepThen(mode, ReaderState([Encode(v)[0]] + body, stack, skip), mid, if skip then [] else [Visit(v)[0]], more, end);
    assert [] + more == more;
  }

  /** The bytes of a value, met where a value may start, yield its walk and are consumed exactly. */
  lemma {:induction false} ReadsValue(mode: Mode, v: Value, x: seq<byte>, stack: seq<Expect>)
    requires Clean(v) && AtValue(stack)
    ensures Run(mode, ReaderState(Encode(v) + x, stack, false))
         == Prepend(Visit(v), Continue(mode, ReaderState(x, AfterValue(stack), false)))
    decreases v, 1
  {
    var end := Continue(mode, ReaderState(x, AfterValue(stack), false));
    VisitSplit(v);
    if v.Object? {
      PropsThenEncodes(v.props, x);
      assert Encode(v) + x == [Encode(v)[0]] + PropsThen(v.props, x);
      ReadsProps(mode, v.props, x, AfterValue(stack));
      ReadsContainer(mode, v, PropsThen(v.props, x), VisitProps(v.props) + [EndObject], stack, false, end);
    } else if v.Array? {
      ElemsThenEncodes(v.elems, x);
      assert Encode(v) + x == [Encode(v)[0]] + ElemsThen(v.elems, x);
      ReadsElems(mode, v.elems, x, AfterValue(stack));
      ReadsContainer(mode, v, ElemsThen(v.elems, x), VisitElems(v.elems) + [EndArray], stack, false, end);
    } else {
      NextAtValue(ReaderState(Encode(v) + x, stack, false));
      ReadsScalar(v, x, AfterValue(stack));
    }
  }

  lemma VisitPropsSplit(props: seq<Prop>)
    requires props != []
    ensures VisitProps(props) + [EndObject]
         == [PropName(props[0].name)] + (Visit(props[0].val) + (VisitProps(props[1..]) + [EndObject]))
  {
  }

  lemma VisitSplit(v: Value)
    ensures v.Object? ==> Visit(v) == [BeginObject] + (VisitProps(v.props) + [EndObject])
    ensures v.Array? ==> Visit(v) == [BeginArray] + (VisitElems(v.elems) + [EndArray])
  {
  }

  lemma {:induction false} ReadsProps(mode: Mode, props: seq<Prop>, x: seq<byte>, stack: seq<Expect>)
    requires CleanProps(props)
    ensures Continue(mode, ReaderState(PropsThen(props, x), stack + [InObject], false))
         == Prepend(VisitProps(props) + [EndObject], Continue(mode, ReaderState(x, stack, false)))
    decreases props, 0
  {
    var st, end := ReaderState(PropsThen(props, x), stack + [InObject], false),
        Continue(mode, ReaderState(x, stack, false));
    if props == [] {
      NextEnd(x, stack, InObject);
      assert [] + [EndObject] == [EndObject];
    } else {
      var p, tail, more := props[0], PropsThen(props[1..], x), VisitProps(props[1..]) + [EndObject];
      var inner := stack + [InObject] + [ExpectValue];
      NextPropName(p.name, Encode(p.val) + tail, stack);
      assert AfterValue(inner) == stack + [InObject];
      ReadsValue(mode, p.val, tail, inner);
      ReadsProps(mode, props[1..], x, stack);
      TwoStepsThen(mode, st, ReaderState(Encode(p.val) + tail, inner, false),
                   ReaderState(tail, stack + [InObject], false),
                   [PropName(p.name)], Visit(p.val), more, end);
      VisitPropsSplit(props);
    }
  }

  lemma {:induction false} ReadsElems(mode: Mode, elems: seq<Value>, x: seq<byte>, stack: seq<Expect>)
    requires CleanElems(elems)
    ensures Continue(mode, ReaderState(ElemsThen(elems, x), stack + [InArray], false))
         == Prepend(VisitElems(elems) + [EndArray], Continue(mode, ReaderState(x, stack, false)))
    decreases elems, 0
  {
    var end := Continue(mode, ReaderState(x, stack, false));
    if elems == [] {
      NextEnd(x, stack, InArray);
      assert [] + [EndArray] == [EndArray];
    } else {
      ReadsValue(mode, elems[0], ElemsThen(elems[1..], x), stack + [InArray]);
      ReadsElems(mode, elems[1..], x, stack);
      PrependPrepend(Visit(elems[0]), VisitElems(elems[1..]) + [EndArray], end);
      assert VisitElems(elems) + [EndArray] == Visit(elems[0]) + (VisitElems(elems[1..]) + [EndArray]);
    }
  }

  /** Reading one value stops exactly behind it, with an empty stack, whatever follows. */
  lemma OneValueRoundTrip(v: Value, x: seq<byte>)
    requires Clean(v)
    ensures Run(OneValue, ReaderState(Encode(v) + x, [], false)) == Ok(Read(ReaderState(x, [], false), Visit(v)))
  {
    ReadsValue(OneValue, v, x, []);
    assert Visit(v) + [] == Visit(v);
  }

  /** A reader told to swallow an object's start yields the rest of the object's walk. */
  lemma SkipBeginRoundTrip(props: seq<Prop>, x: seq<byte>)
    requires CleanProps(props)
    ensures Run(OneValue, ReaderState(Encode(Object(props)) + x, [], true))
         == Ok(Read(ReaderState(x, [], false), Visit(Object(props))[1..]))
  {
    var v := Object(props);
    PropsThenEncodes(props, x);
    assert Encode(v) + x == [Encode(v)[0]] + PropsThen(props, x);
    assert Visit(v) == [BeginObject] + (VisitProps(props) + [EndObject]);
    ReadsProps(OneValue, props, x, []);
    ReadsContainer(OneValue, v, PropsThen(props, x), VisitProps(props) + [EndObject], [], true,
                   Continue(OneValue, ReaderState(x, [], false)));
    assert Visit(v)[1..] == VisitProps(props) + [EndObject] + [];
  }

  /** MojObject::fromBytes undoes MojObject::toBytes. */
  lemma BinaryRoundTrip(v: Value)
    requires Valid(v)
    ensures Run(ToEnd, ReaderState(Encode(v), [], false)) == Ok(Read(ReaderState([], [], false), Visit(v)))
    ensures BuildAll(EMPTY_BUILDER, Visit(v)) == Some(EMPTY_BUILDER.(obj := Some(v)))
  {
    ValidIsClean(v);
    ReadsValue(ToEnd, v, [], []);
    assert Encode(v) + [] == Encode(v) && Visit(v) + [] == Visit(v);
    BuildVisit(EMPTY_BUILDER, v);
  }
}
