/** The parser undoes the writer, on every value its depth allows. */
module JsonRoundTrips {
  import opened Bytes
  import opened Numbers
  import opened Values
  import opened ObjectBuilders
  import opened JsonGrammars
  import opened JsonReadings
  import opened JsonAccepts
  import opened JsonWriters
  import JP = JsonParsers

  /** A decimal whose text the parser takes for a number with a fraction or exponent, and reads back. */
  predicate ReadsBack(show: DecimalShow, dec: JP.DecimalText, rep: int64) {
    var t := show(rep);
    && t != [] && (IsDigit(t[0]) || t[0] == 45)
    && (forall i :: 0 <= i < |t| ==> JP.IsNumeric(t[i]))
    && (46 in t || 101 in t || 69 in t)
    && dec(t) == Some(rep)
  }

  /** The strings are free of NUL, and the decimals, if any, survive their own text form. */
  predicate Writable(show: DecimalShow, dec: JP.DecimalText, v: Value)
    decreases v, 1
  {
    match v
    case Object(props) => WritableProps(show, dec, props)
    case Array(elems) => WritableElems(show, dec, elems)
    case Str(s) => NulFree(s)
    case Decimal(rep) => ReadsBack(show, dec, rep)
    case _ => true
  }

  predicate WritableProps(show: DecimalShow, dec: JP.DecimalText, props: seq<Prop>)
    decreases props, 0
  {
    props == [] ||
    (NulFree(props[0].name) && Writable(show, dec, props[0].val) && WritableProps(show, dec, props[1..]))
  }

  predicate WritableElems(show: DecimalShow, dec: JP.DecimalText, elems: seq<Value>)
    decreases elems, 0
  {
    elems == [] || (Writable(show, dec, elems[0]) && WritableElems(show, dec, elems[1..]))
  }

  /** All of the text is used, with these events. */
  predicate Reads(dec: JP.DecimalText, p: JP.Parser, text: seq<byte>, heard: seq<Event>, q: JP.Parser) {
    JP.Live(p) && JP.Live(q) && JP.Feed(dec, p, text) == JP.More(q, heard)
  }

  lemma MovesReads(dec: JP.DecimalText, p: JP.Parser, text: seq<byte>, heard: seq<Event>, q: JP.Parser)
    requires Moves(dec, p, text + [], heard, q, [])
    ensures Reads(dec, p, text, heard, q)
  {
    assert text + [] == text && heard + [] == heard;
  }

  // ----- what the writer writes is of the grammar -----

  function GlyphOf(c: byte): Glyph {
    if EscapeLetter(c) == 0 then Raw(c)
    else if EscapeLetter(c) == 1 then Unit(48, 48, Hex(c / 16), Hex(c % 16))
    else Short(EscapeLetter(c))
  }

  function GlyphsOf(s: seq<byte>): seq<Glyph> {
    if s == [] then [] else [GlyphOf(s[0])] + GlyphsOf(s[1..])
  }

  lemma GlyphIs(c: byte)
    requires c != 0
    ensures GoodGlyph(GlyphOf(c)) && GlyphText(GlyphOf(c)) == Escape(c) && GlyphBytes(GlyphOf(c)) == [c]
  {
    if EscapeLetter(c) > 1 {
      var i := Place(LETTERS, EscapeLetter(c));
      assert LETTERS[i] == EscapeLetter(c);
    }
  }

  /** Every NUL-free text has its escaped form for glyphs. */
  lemma {:induction false} GlyphsAre(s: seq<byte>)
    requires NulFree(s)
    ensures GoodGlyphs(GlyphsOf(s)) && GlyphsText(GlyphsOf(s)) == Escaped(s) && GlyphsBytes(GlyphsOf(s)) == s
  {
    if s != [] {
      GlyphIs(s[0]);
      GlyphsAre(s[1..]);
      GlyphsCons(GlyphOf(s[0]), GlyphsOf(s[1..]), []);
      assert ([GlyphOf(s[0])] + GlyphsOf(s[1..]))[1..] == GlyphsOf(s[1..]);
    }
  }

  /** What section 7 of RFC 8259 allows in a string: control characters only escaped. */
  predicate Conforming(gs: seq<Glyph>) {
    GoodGlyphs(gs) && forall i :: 0 <= i < |gs| ==> gs[i].Raw? ==> gs[i].c >= 32
  }

  lemma {:induction false} EscapedConcat(s: seq<byte>, t: seq<byte>)
    ensures Escaped(s + t) == Escaped(s) + Escaped(t)
  {
    if s == [] {
      assert s + t == t;
    } else {
      assert (s + t)[1..] == s[1..] + t;
      EscapedConcat(s[1..], t);
      Assoc(Escape(s[0]), Escaped(s[1..]), Escaped(t));
    }
  }

  lemma EscapeLength(c: byte)
    ensures Escaped([c]) == Escape(c) && |Escape(c)| <= 6 && (c >= 128 ==> |Escape(c)| == 1)
  {
    assert [c][1..] == [] && Escape(c) + [] == Escape(c);
  }

  lemma ShortestEscape(g: Glyph)
    requires GoodGlyph(g) && (g.Raw? ==> g.c >= 32)
    ensures |Escaped(GlyphBytes(g))| <= |GlyphText(g)|
  {
    match g {
      case Raw(c) => EscapeLength(c);
      case Short(c) =>
        ShortMeans(c);
        EscapeLength(JP.Unescaped(c));
      case Unit(_, _, _, _) => UnitsAreLong(CodeUnit(g));
    }
  }

  lemma UnitsAreLong(u: nat)
    requires u < 0x1_0000
    ensures |Escaped(JP.Utf8(u))| <= 6
  {
    hide Escape;
    var b := JP.Utf8(u);
    EscapeLength(b[0]);
    if u >= 0x80 {
      EscapeLength(b[1]);
      EscapedConcat([b[0]], b[1..]);
      assert b == [b[0]] + b[1..];
      if u < 0x800 {
        assert b[1..] == [b[1]];
      } else {
        EscapeLength(b[2]);
        EscapedConcat([b[1]], [b[2]]);
        assert b[1..] == [b[1]] + [b[2]];
      }
    } else {
      assert b == [b[0]];
    }
  }

  /** No way to write a text that conforms is shorter than the writer's. */
  lemma {:induction false} ShortestText(gs: seq<Glyph>)
    requires Conforming(gs)
    ensures |Escaped(GlyphsBytes(gs))| <= |GlyphsText(gs)|
  {
    if gs != [] {
      ShortestEscape(gs[0]);
      ShortestText(gs[1..]);
      EscapedConcat(GlyphBytes(gs[0]), GlyphsBytes(gs[1..]));
    }
  }

  /** The writer's own conforms. */
  lemma {:induction false} WriterConforms(s: seq<byte>)
    requires NulFree(s)
    ensures Conforming(GlyphsOf(s)) && GlyphsText(GlyphsOf(s)) == Escaped(s) && GlyphsBytes(GlyphsOf(s)) == s
  {
    GlyphsAre(s);
    if s != [] {
      WriterConforms(s[1..]);
    }
  }

  lemma TextBack(dec: JP.DecimalText, p: JP.Parser, s: seq<byte>) returns (q: JP.Parser)
    requires InText(p) && NulFree(s)
    ensures Reads(dec, p, Escaped(s), [], q) && Longer(p, q, s)
  {
    GlyphsAre(s);
    q := GlyphsFeed(dec, p, GlyphsOf(s), []);
    MovesReads(dec, p, Escaped(s), [], q);
  }

  lemma {:induction false} DigitTextShape(n: nat)
    ensures DigitText(n) != [] && Numeric(DigitText(n)) && !Fractional(DigitText(n))
    ensures IsDigit(DigitText(n)[0]) && (DigitText(n)[0] == 48 <==> n == 0)
  {
    if n >= 10 {
      DigitTextShape(n / 10);
    }
  }

  lemma {:induction false} DigitsBack(s: seq<byte>, i: nat, n: nat)
    requires i + |DigitText(n)| <= |s| && s[i..i + |DigitText(n)|] == DigitText(n)
    ensures Digits(s, i, 10, 0) == Digits(s, i + |DigitText(n)|, 10, n)
  {
    var m := |DigitText(n)|;
    assert s[i + m - 1] == DigitText(n)[m - 1];
    if n >= 10 {
      assert s[i..i + m - 1] == s[i..i + m][..m - 1];
      DigitsBack(s, i, n / 10);
    }
  }

  /** The digits behind the sign, if there is one. */
  lemma IntTextShape(i: int64)
    ensures var t, at, n := IntText(i), if i < 0 then 1 else 0, if i < 0 then 0 - i else i;
            |t| == at + |DigitText(n)| && t[at..] == DigitText(n) && t[at] == DigitText(n)[0] && (i < 0 ==> t[0] == 45)
    ensures Numeric(IntText(i)) && !Fractional(IntText(i)) && (IsDigit(IntText(i)[0]) || IntText(i)[0] == 45)
  {
    DigitTextShape(if i < 0 then 0 - i else i);
  }

  /** Digits that do not begin with zero are read in base ten. */
  lemma DecimalRead(s: seq<byte>, at: nat, n: nat, e: nat)
    requires at < |s| && at == (if s[0] == 45 then 1 else 0) && IsDigit(s[at]) && s[at] != 48
    requires Digits(s, at, 10, 0) == (n, e)
    ensures StrToInt64(s) == (Clamp(if s[0] == 45 then 0 - n else n), e)
  {
    hide Digits;
    assert SkipSpaces(s, 0) == 0;
  }

  lemma ZeroRead()
    ensures StrToInt64([48]) == (0, 1)
  {
    var t: seq<byte> := [48];
    assert Digits(t, 0, 8, 0) == Digits(t, 1, 8, 0) == (0, 1);
  }

  lemma IntBack(i: int64)
    ensures StrToInt64(IntText(i)) == (i, |IntText(i)|)
    ensures Numeric(IntText(i)) && !Fractional(IntText(i)) && (IsDigit(IntText(i)[0]) || IntText(i)[0] == 45)
  {
    hide Numeric, Fractional, StrToInt64;
    var n: nat := if i < 0 then 0 - i else i;
    var t, at := IntText(i), if i < 0 then 1 else 0;
    IntTextShape(i);
    DigitTextShape(n);
    if n != 0 {
      assert t[at..at + |DigitText(n)|] == DigitText(n);
      DigitsBack(t, at, n);
      DecimalRead(t, at, n, |t|);
    } else {
      assert t == [48];
      ZeroRead();
    }
  }

  function Spelled(show: DecimalShow, v: Value): Form
    decreases v, 1
  {
    match v
    case Null => NullForm
    case Bool(b) => BoolForm(b)
    case Int(i) => NumberForm(IntText(i))
    case Decimal(rep) => NumberForm(show(rep))
    case Str(s) => StringForm(GlyphsOf(s))
    case Array(elems) => ArrayForm(SpelledElems(show, elems))
    case Object(props) => ObjectForm(SpelledProps(show, props))
  }

  /** A value with nothing around it. */
  function Bare(f: Form): Slot {
    Slot([], 0, f, [])
  }

  function SpelledElems(show: DecimalShow, elems: seq<Value>): Elems
    decreases elems, 0
  {
    if elems == [] then NoElem([])
    else if |elems| == 1 then LastElem(Bare(Spelled(show, elems[0])))
    else ElemThen(Bare(Spelled(show, elems[0])), SpelledElems(show, elems[1..]))
  }

  function SpelledProps(show: DecimalShow, props: seq<Prop>): Fields
    decreases props, 0
  {
    if props == [] then NoField([])
    else if |props| == 1 then LastField(SpelledProp(show, props[0]))
    else FieldThen(SpelledProp(show, props[0]), SpelledProps(show, props[1..]))
  }

  function SpelledProp(show: DecimalShow, p: Prop): Field
    decreases p, 2
  {
    Field([], GlyphsOf(p.name), [], Bare(Spelled(show, p.val)))
  }

  lemma BareText(f: Form)
    ensures SlotText(Bare(f)) == FormText(f)
  {
    assert [] + ([] + (FormText(f) + [])) == FormText(f);
  }

  /** What the writer writes of a value is a text of the grammar that means it. */
  lemma {:induction false} SpelledIs(show: DecimalShow, dec: JP.DecimalText, v: Value)
    requires Writable(show, dec, v)
    ensures GoodForm(dec, Spelled(show, v)) && FormText(Spelled(show, v)) == Json(show, v)
    ensures Meaning(dec, Spelled(show, v)) == v
    decreases v, 1
  {
    match v {
      case Object(props) => SpelledPropsAre(show, dec, props);
      case Array(elems) => SpelledElemsAre(show, dec, elems);
      case Str(s) => GlyphsAre(s);
      case Int(i) =>
        IntBack(i);
        NumericIs(IntText(i));
      case Decimal(rep) => NumericIs(show(rep));
      case _ =>
    }
  }

  lemma NumericIs(t: seq<byte>)
    requires Numeric(t)
    ensures forall i :: 0 <= i < |t| ==> IsDigit(t[i]) || t[i] in [43, 45, 46, 69, 101]
  {
    forall i | 0 <= i < |t| ensures IsDigit(t[i]) || t[i] in [43, 45, 46, 69, 101] {
      assert JP.IsNumeric(t[i]);
    }
  }

  lemma {:induction false} SpelledElemsAre(show: DecimalShow, dec: JP.DecimalText, elems: seq<Value>)
    requires WritableElems(show, dec, elems)
    ensures var e := SpelledElems(show, elems);
            GoodElems(dec, e) && ArrayInside(e) == ElemsText(show, elems) && ElemsMeaning(dec, e) == elems
    decreases elems, 0
  {
    if elems != [] {
      SpelledIs(show, dec, elems[0]);
      BareText(Spelled(show, elems[0]));
      SpelledElemsAre(show, dec, elems[1..]);
      assert elems == [elems[0]] + elems[1..];
    }
  }

  lemma {:induction false} SpelledPropsAre(show: DecimalShow, dec: JP.DecimalText, props: seq<Prop>)
    requires WritableProps(show, dec, props)
    ensures var fs := SpelledProps(show, props);
            GoodFields(dec, fs) && ObjectInside(fs) == PropsText(show, props) && FieldsMeaning(dec, fs) == props
    decreases props, 0
  {
    if props != [] {
      SpelledFieldIs(show, dec, props[0]);
      SpelledPropsAre(show, dec, props[1..]);
      assert props == [props[0]] + props[1..];
    }
  }

  lemma {:induction false} SpelledFieldIs(show: DecimalShow, dec: JP.DecimalText, p: Prop)
    requires NulFree(p.name) && Writable(show, dec, p.val)
    ensures var f := SpelledProp(show, p);
            GoodField(dec, f) && FieldText(f) == Quoted(p.name) + [58] + Json(show, p.val) && FieldMeaning(dec, f) == p
    decreases p, 2
  {
    GlyphsAre(p.name);
    SpelledIs(show, dec, p.val);
    BareText(Spelled(show, p.val));
    var n, v := Escaped(p.name), Json(show, p.val);
    assert [] + ([34] + (n + ([34] + ([] + ([58] + v))))) == [34] + n + [34] + [58] + v;
  }

  // ----- documents -----

  /** What may follow a value: comma, closing bracket, closing brace, NUL. */
  predicate Delimiter(c: byte) {
    c == 44 || c == 93 || c == 125 || c == 0
  }

  /** Reading a written value from the beginning of a document, up to where the parser stops. */
  lemma DocumentBack(show: DecimalShow, dec: JP.DecimalText, v: Value, c: byte)
    requires Writable(show, dec, v) && Depth(v) < JP.MAX_DEPTH && Delimiter(c)
    ensures var f := JP.Feed(dec, JP.FRESH, Json(show, v) + [c]);
            f.Stopped? && f.heard == Visit(v) && f.rest == [c] && JP.Finished(f.p)
  {
    hide JP.Switch, JP.Once;
    SpelledIs(show, dec, v);
    BareText(Spelled(show, v));
    var q := SlotFeeds(dec, JP.FRESH, Bare(Spelled(show, v)), [c]);
    Stops(dec, q, [c]);
    assert Visit(v) + [] == Visit(v);
  }

  /**
   * The round trip: parsing what the writer writes gives back the events of the value if it is nested at most 31 deep,
   * and is refused for its depth otherwise.
   */
  lemma JsonRoundTrip(show: DecimalShow, dec: JP.DecimalText, v: Value)
    requires Writable(show, dec, v)
    ensures JP.Parse(dec, Json(show, v)) ==
            if Depth(v) < JP.MAX_DEPTH then JP.Ok(Visit(v)) else JP.Err(JP.ParseMaxDepth)
  {
    hide JP.Parse;
    SpelledIs(show, dec, v);
    BareText(Spelled(show, v));
    SpelledParses(dec, Bare(Spelled(show, v)), []);
    assert Json(show, v) + [] == Json(show, v);
  }

  /** The same through the object builder: the value itself comes back. */
  lemma JsonRebuilds(show: DecimalShow, dec: JP.DecimalText, v: Value)
    requires Valid(v) && Writable(show, dec, v) && Depth(v) < JP.MAX_DEPTH
    ensures var r := JP.Parse(dec, WriteAll(show, WriterState([], false), Visit(v)).str);
            r.Ok? && BuildAll(EMPTY_BUILDER, r.heard) == Some(Accept(EMPTY_BUILDER, v))
  {
    WriteVisit(show, WriterState([], false), v);
    assert [] + [] + Json(show, v) == Json(show, v);
    JsonRoundTrip(show, dec, v);
    BuildVisit(EMPTY_BUILDER, v);
  }

  /** Whatever the parser accepts, the builder makes the value of it that holds the last under each name, in order. */
  lemma AcceptedBuilds(dec: JP.DecimalText, text: seq<byte>) returns (s: Slot, tail: seq<byte>, w: Value)
    requires JP.Parse(dec, text).Ok?
    ensures text == SlotText(s) + tail && GoodSlot(dec, s)
    ensures BuildAll(EMPTY_BUILDER, JP.Parse(dec, text).heard) == Some(BuilderState([], Some(w), []))
    ensures Holds(w, SlotMeaning(dec, s)) && InOrder(w)
  {
    hide JP.Parse;
    s, tail := AcceptedIsSpelled(dec, text);
    w := LastValueBuilt(SlotMeaning(dec, s));
  }

  // ----- integers of other texts -----

  lemma DigitsAreNumeric(s: seq<byte>)
    requires AllDigits(Unsigned(s))
    ensures s != [] && Numeric(s) && !Fractional(s) && (IsDigit(s[0]) || s[0] == 45)
  {
    forall i | 0 <= i < |s| ensures IsDigit(s[i]) || s[i] == 45 {
      if s[0] == 45 {
        assert i > 0 ==> s[i] == Unsigned(s)[i - 1];
      } else {
        assert s[i] == Unsigned(s)[i];
      }
    }
  }

  /** A number whose text is not read to its end is refused. */
  lemma NumberRefused(dec: JP.DecimalText, q: JP.Parser, e: Event)
    requires JP.Live(q) && q.top.state == JP.Number && JP.OnNumber(dec, q, 0) == JP.Bad([e], JP.ParseInt)
    ensures JP.Feed(dec, q, [0]) == JP.Failed([e], JP.ParseInt)
  {
    JP.OnceKeeps(dec, q, 0);
  }

  /** A document of digits alone is heard as they are read, and refused if they are not read to their end. */
  lemma IntegerParsed(dec: JP.DecimalText, s: seq<byte>)
    requires AllDigits(Unsigned(s))
    ensures JP.Parse(dec, s) ==
            if StrToInt64(s).1 == |s| then JP.Ok([IntValue(StrToInt64(s).0)]) else JP.Err(JP.ParseInt)
  {
    hide JP.Parse, StrToInt64;
    DigitsAreNumeric(s);
    if StrToInt64(s).1 == |s| {
      IntegerAccepted(dec, s);
    } else {
      IntegerRefused(dec, s);
    }
  }

  lemma IntegerAccepted(dec: JP.DecimalText, s: seq<byte>)
    requires s != [] && Numeric(s) && !Fractional(s) && (IsDigit(s[0]) || s[0] == 45) && StrToInt64(s).1 == |s|
    ensures JP.Parse(dec, s) == JP.Ok([IntValue(StrToInt64(s).0)])
  {
    hide JP.Parse, StrToInt64;
    NumericIs(s);
    BareText(NumberForm(s));
    SpelledParses(dec, Bare(NumberForm(s)), []);
    assert s + [] == s;
  }

  lemma IntegerRefused(dec: JP.DecimalText, s: seq<byte>)
    requires s != [] && Numeric(s) && !Fractional(s) && (IsDigit(s[0]) || s[0] == 45) && StrToInt64(s).1 != |s|
    ensures JP.Parse(dec, s) == JP.Err(JP.ParseInt)
  {
    hide JP.Parse, JP.Switch, JP.Once;
    var e := IntValue(StrToInt64(s).0);
    ParseIs(dec, s);
    var r := Enters(dec, JP.FRESH, s + [0]);
    var u := NumberStarts(dec, r, s + [0]);
    var q := NumberFeeds(dec, u, s, [0]);
    assert [] + s == s;
    Quietly(dec, r, s + [0], u, s + [0], [], q, [0]);
    Quietly(dec, JP.FRESH, s + [0], r, s + [0], [], q, [0]);
    NumberRefused(dec, q, e);
  }

  predicate HeardAs(r: JP.Parsed, i: int) {
    r.Ok? && |r.heard| == 1 && r.heard[0].IntValue? && r.heard[0].i == i
  }

  /** It is heard as its decimal value exactly if that fits 64 bits and the digits are not octal. */
  lemma IntegerReadIff(dec: JP.DecimalText, s: seq<byte>)
    requires AllDigits(Unsigned(s))
    ensures HeardAs(JP.Parse(dec, s), DecimalInt(s)) <==>
            Clamp(DecimalInt(s)) == DecimalInt(s) && NotOctal(Unsigned(s))
  {
    IntegerParsed(dec, s);
    ReadAsDecimalIff(s);
  }
}
