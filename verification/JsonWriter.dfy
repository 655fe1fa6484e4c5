/** JSON text and the writer that produces it from visitor events (MojJsonWriter). */
module JsonWriters {
  import opened Bytes
  import opened Values

  /** MojDecimal::stringValue, which is not part of this model. */
  type DecimalShow = int64 -> seq<byte>

  function Hex(d: nat): byte
    requires d < 16
  {
    if d < 10 then 48 + d else 55 + d
  }

  /** The letter the escape table has for a character: 0 for none, 1 for the \u form. */
  function EscapeLetter(c: byte): byte {
    if c == 8 then 98
    else if c == 9 then 116
    else if c == 10 then 110
    else if c == 12 then 102
    else if c == 13 then 114
    else if c == 34 || c == 92 then c
    else if c < 32 then 1
    else 0
  }

  function Escape(c: byte): seq<byte> {
    if EscapeLetter(c) == 0 then [c]
    else if EscapeLetter(c) == 1 then [92, 117, 48, 48, Hex(c / 16), Hex(c % 16)]
    else [92, EscapeLetter(c)]
  }

  function Escaped(s: seq<byte>): seq<byte> {
    if s == [] then [] else Escape(s[0]) + Escaped(s[1..])
  }

  function Quoted(s: seq<byte>): seq<byte> {
    [34] + Escaped(s) + [34]
  }

  function DigitText(n: nat): seq<byte> {
    if n < 10 then [48 + n] else DigitText(n / 10) + [48 + n % 10]
  }

  /** "%lld". */
  function IntText(i: int64): seq<byte> {
    if i < 0 then [45] + DigitText(0 - i) else DigitText(i)
  }

  /** The text of a value. */
  function Json(show: DecimalShow, v: Value): seq<byte>
    decreases v, 1
  {
    match v
    case Null => [110, 117, 108, 108]
    case Object(props) => [123] + PropsText(show, props) + [125]
    case Array(elems) => [91] + ElemsText(show, elems) + [93]
    case Str(s) => Quoted(s)
    case Bool(b) => if b then [116, 114, 117, 101] else [102, 97, 108, 115, 101]
    case Decimal(rep) => show(rep)
    case Int(i) => IntText(i)
  }

  function PropsText(show: DecimalShow, props: seq<Prop>): seq<byte>
    decreases props, 0
  {
    if props == [] then []
    else
      Quoted(props[0].name) + [58] + Json(show, props[0].val) +
      if |props| == 1 then [] else [44] + PropsText(show, props[1..])
  }

  function ElemsText(show: DecimalShow, elems: seq<Value>): seq<byte>
    decreases elems, 0
  {
    if elems == [] then []
    else Json(show, elems[0]) + if |elems| == 1 then [] else [44] + ElemsText(show, elems[1..])
  }

  // ----- the writer -----

  datatype WriterState = WriterState(str: seq<byte>, comma: bool)

  function Separator(comma: bool): seq<byte> {
    if comma then [44] else []
  }

  /** Text after the comma that is due, with one due afterwards or not. */
  function Put(ws: WriterState, text: seq<byte>, comma: bool): WriterState {
    WriterState(ws.str + Separator(ws.comma) + text, comma)
  }

  /** One visitor call. */
  function Write(show: DecimalShow, ws: WriterState, e: Event): WriterState {
    match e
    case BeginObject => Put(ws, [123], false)
    case BeginArray => Put(ws, [91], false)
    case EndObject => WriterState(ws.str + [125], true)
    case EndArray => WriterState(ws.str + [93], true)
    case PropName(name) => Put(ws, Quoted(name) + [58], false)
    case NullValue => Put(ws, Json(show, Null), true)
    case BoolValue(b) => Put(ws, Json(show, Bool(b)), true)
    case IntValue(i) => Put(ws, IntText(i), true)
    case DecimalValue(rep) => Put(ws, show(rep), true)
    case StringValue(s) => Put(ws, Quoted(s), true)
  }

  function WriteAll(show: DecimalShow, ws: WriterState, es: seq<Event>): WriterState
    decreases |es|
  {
    if es == [] then ws else WriteAll(show, Write(show, ws, es[0]), es[1..])
  }

  lemma {:induction false} WriteAllConcat(show: DecimalShow, ws: WriterState, a: seq<Event>, b: seq<Event>)
    ensures WriteAll(show, ws, a + b) == WriteAll(show, WriteAll(show, ws, a), b)
    decreases |a|
  {
    if a == [] {
      assert a + b == b;
    } else {
      assert (a + b)[1..] == a[1..] + b;
      WriteAllConcat(show, Write(show, ws, a[0]), a[1..], b);
    }
  }

  /** Commas in the right places: writing the walk of a value appends its text, after a comma if one was due. */
  lemma {:induction false} WriteVisit(show: DecimalShow, ws: WriterState, v: Value)
    ensures WriteAll(show, ws, Visit(v)) == Put(ws, Json(show, v), true)
    decreases v, 1
  {
    match v {
      case Object(props) =>
        WriteAllConcat(show, ws, [BeginObject] + VisitProps(props), [EndObject]);
        WriteAllConcat(show, ws, [BeginObject], VisitProps(props));
        var inside := Put(ws, [123], false);
        assert [BeginObject][1..] == [] && [EndObject][1..] == [];
        WriteProps(show, inside, props);
        Bracket(ws.str + Separator(ws.comma), 123, PropsText(show, props), 125);
      case Array(elems) =>
        WriteAllConcat(show, ws, [BeginArray] + VisitElems(elems), [EndArray]);
        WriteAllConcat(show, ws, [BeginArray], VisitElems(elems));
        var inside := Put(ws, [91], false);
        assert [BeginArray][1..] == [] && [EndArray][1..] == [];
        WriteElems(show, inside, elems);
        Bracket(ws.str + Separator(ws.comma), 91, ElemsText(show, elems), 93);
      case _ =>
        assert Visit(v)[1..] == [];
    }
  }

  lemma Bracket(s: seq<byte>, a: byte, text: seq<byte>, b: byte)
    ensures s + [a] + Separator(false) + text + [b] == s + ([a] + text + [b])
  {
  }

  lemma {:induction false} WriteProps(show: DecimalShow, ws: WriterState, props: seq<Prop>)
    ensures WriteAll(show, ws, VisitProps(props)) ==
            if props == [] then ws else Put(ws, PropsText(show, props), true)
    decreases props, 0
  {
    if props != [] {
      var name, val, rest := props[0].name, props[0].val, props[1..];
      var named := Put(ws, Quoted(name) + [58], false);
      WriteAllConcat(show, ws, [PropName(name)] + Visit(val), VisitProps(rest));
      WriteAllConcat(show, ws, [PropName(name)], Visit(val));
      assert [PropName(name)][1..] == [];
      WriteVisit(show, named, val);
      var valued := Put(named, Json(show, val), true);
      WriteProps(show, valued, rest);
      var tail := if |props| == 1 then [] else [44] + PropsText(show, rest);
      assert WriteAll(show, ws, VisitProps(props)).str == valued.str + tail by {
        if |props| > 1 {
          Assoc4(valued.str, [44], PropsText(show, rest), []);
          assert valued.str + [44] + PropsText(show, rest) == valued.str + ([44] + PropsText(show, rest));
        }
      }
      PropJoined(ws.str + Separator(ws.comma), Quoted(name) + [58], Json(show, val), tail);
    }
  }

  lemma PropJoined(s: seq<byte>, name: seq<byte>, val: seq<byte>, tail: seq<byte>)
    ensures s + name + Separator(false) + val + tail == s + (name + val + tail)
  {
  }

  lemma {:induction false} WriteElems(show: DecimalShow, ws: WriterState, elems: seq<Value>)
    ensures WriteAll(show, ws, VisitElems(elems)) ==
            if elems == [] then ws else Put(ws, ElemsText(show, elems), true)
    decreases elems, 0
  {
    if elems != [] {
      var rest := elems[1..];
      WriteAllConcat(show, ws, Visit(elems[0]), VisitElems(rest));
      WriteVisit(show, ws, elems[0]);
      var valued := Put(ws, Json(show, elems[0]), true);
      WriteElems(show, valued, rest);
      var tail := if |elems| == 1 then [] else [44] + ElemsText(show, rest);
      assert WriteAll(show, ws, VisitElems(elems)).str == valued.str + tail by {
        if |elems| > 1 {
          assert valued.str + [44] + ElemsText(show, rest) == valued.str + ([44] + ElemsText(show, rest));
        }
      }
      Assoc4(ws.str, Separator(ws.comma), Json(show, elems[0]), tail);
      assert ws.str + Separator(ws.comma) + (Json(show, elems[0]) + tail) ==
             ws.str + (Separator(ws.comma) + Json(show, elems[0]) + tail);
    }
  }

  /** The writer as the object that is visited. */
  class JsonWriter {
    var str: seq<byte>
    var comma: bool

    ghost function State(): WriterState
      reads this
    {
      WriterState(str, comma)
    }

    constructor ()
      ensures State() == WriterState([], false)
    {
      str, comma := [], false;
    }

    /** `writeComma`. */
    method WriteComma()
      modifies this
      ensures str == old(str) + Separator(old(comma)) && comma
    {
      if comma {
        str := str + [44];
      } else {
        comma := true;
      }
    }

    /** `writeString`: runs of plain characters are appended in one piece. */
    method WriteString(val: seq<byte>)
      modifies this`str
      ensures str == old(str) + Quoted(val)
    {
      str := str + [34];
      var from, cur := 0, 0;
      while cur < |val|
        invariant from <= cur <= |val|
        invariant str + val[from..cur] == old(str) + [34] + Escaped(val[..cur])
      {
        var c := val[cur];
        EscapedAppends(val[..cur], c);
        assert val[..cur] + [c] == val[..cur + 1];
        ghost var head, run := old(str) + [34], val[from..cur];
        Assoc(head, Escaped(val[..cur]), Escape(c));
        Assoc(str, run, Escape(c));
        if EscapeLetter(c) != 0 {
          str := str + val[from..cur];
          from := cur + 1;
          if EscapeLetter(c) == 1 {
            str := str + [92, 117, 48, 48, Hex(c / 16), Hex(c % 16)];
          } else {
            Assoc(str, [92], [EscapeLetter(c)]);
            str := str + [92];
            str := str + [EscapeLetter(c)];
          }
          assert str + val[from..cur + 1] == str;
        } else {
          assert val[from..cur + 1] == run + [c];
        }
        cur := cur + 1;
      }
      assert val[..cur] == val;
      Assoc4(old(str), [34], Escaped(val), [34]);
      str := str + val[from..cur];
      str := str + [34];
    }

    /** One visitor call. */
    method Handle(show: DecimalShow, e: Event)
      modifies this
      ensures State() == Write(show, old(State()), e)
    {
      match e {
        case EndObject =>
          str, comma := str + [125], true;
        case EndArray =>
          str, comma := str + [93], true;
        case BeginObject =>
          WriteComma();
          str, comma := str + [123], false;
        case BeginArray =>
          WriteComma();
          str, comma := str + [91], false;
        case PropName(name) =>
          WriteComma();
          WriteString(name);
          str, comma := str + [58], false;
        case NullValue =>
          WriteComma();
          str := str + [110, 117, 108, 108];
        case BoolValue(b) =>
          WriteComma();
          str := str + if b then [116, 114, 117, 101] else [102, 97, 108, 115, 101];
        case IntValue(i) =>
          WriteComma();
          str := str + IntText(i);
        case DecimalValue(rep) =>
          WriteComma();
          str := str + show(rep);
        case StringValue(s) =>
          WriteComma();
          WriteString(s);
      }
    }

    /** `visit` over the writer. */
    method WriteValue(show: DecimalShow, v: Value)
      modifies this
      ensures State() == Put(old(State()), Json(show, v), true)
    {
      WriteVisit(show, State(), v);
      var es := Visit(v);
      for i := 0 to |es|
        invariant WriteAll(show, old(State()), es) == WriteAll(show, State(), es[i..])
      {
        Handle(show, es[i]);
        assert es[i..][1..] == es[i + 1..];
      }
    }
  }

  lemma {:induction false} EscapedAppends(s: seq<byte>, c: byte)
    ensures Escaped(s + [c]) == Escaped(s) + Escape(c)
  {
    if s != [] {
      assert (s + [c])[1..] == s[1..] + [c];
      EscapedAppends(s[1..], c);
    }
  }
}
