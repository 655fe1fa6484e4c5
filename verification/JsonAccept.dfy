/** The JSON parser accepts exactly the texts of the grammar, and hears what they mean (MojJsonParser). */
module JsonAccepts {
  import opened Bytes
  import opened Numbers
  import opened Values
  import opened JsonGrammars
  import opened JsonReadings
  import JP = JsonParsers

  // ----- a text of the grammar is read as what it means -----

  /** The first character of a value. */
  lemma FormFirst(dec: JP.DecimalText, f: Form)
    requires GoodForm(dec, f)
    ensures var t := FormText(f); t != [] && Plain(t[0]) && t[0] != 93 && t[0] != 125 && t[0] != 44 && t[0] != 0
  {
  }

  /** What is left of a slot behind its first gap. */
  function Core(s: Slot, rest: seq<byte>): seq<byte> {
    Nuls(s.nuls) + (FormText(s.form) + (GapText(s.after) + rest))
  }

  lemma SlotFirst(dec: JP.DecimalText, s: Slot, rest: seq<byte>)
    requires GoodSlot(dec, s)
    ensures var t := Core(s, rest);
            && t != [] && Plain(t[0]) && t[0] != 93 && SlotText(s) + rest == GapText(s.before) + t
  {
    FormFirst(dec, s.form);
    var f, a, n, b := FormText(s.form), GapText(s.after), Nuls(s.nuls), GapText(s.before);
    Assoc(b, n + (f + a), rest);
    Assoc(n, f + a, rest);
    Assoc(f, a, rest);
    assert s.nuls > 0 ==> n[0] == 0;
  }

  lemma {:induction false} NulsFeed(dec: JP.DecimalText, p: JP.Parser, n: nat, rest: seq<byte>) returns (q: JP.Parser)
    requires JP.Live(p) && p.top.state == JP.Start
    ensures InState(q, p, JP.Start) && Moves(dec, p, Nuls(n) + rest, [], q, rest)
    decreases n
  {
    hide JP.Feed;
    if n == 0 {
      q := p;
      Stays(dec, p, rest);
      assert Nuls(n) + rest == rest;
    } else {
      var more := Nuls(n - 1) + rest;
      assert Nuls(n) + rest == [0] + more;
      var r := Takes(dec, p, 0, more);
      q := NulsFeed(dec, r, n - 1, rest);
      Quietly(dec, p, Nuls(n) + rest, r, more, [], q, rest);
    }
  }

  /** A number needs a character that is none of it to end. */
  predicate Clear(f: Form, rest: seq<byte>) {
    f.NumberForm? ==> rest != [] && !JP.IsNumeric(rest[0])
  }

  lemma GapIsClear(f: Form, g: Gap, rest: seq<byte>)
    requires GoodGap(g) && (g == [] ==> Clear(f, rest))
    ensures Clear(f, GapText(g) + rest)
  {
    if g == [] {
      assert GapText(g) + rest == rest;
    } else {
      assert GoodFiller(g[0]);
      assert (GapText(g) + rest)[0] == FillerText(g[0])[0];
    }
  }

  /** A word or number at its first character. */
  lemma WordStarts(dec: JP.DecimalText, p: JP.Parser, s: seq<byte>) returns (q: JP.Parser)
    requires JP.Live(p) && p.top.state == JP.Start && s != [] && s[0] in [110, 116, 102]
    ensures Moves(dec, p, s, [], q, s) && InWord(q) && q.below == p.below
    ensures WordLeft(q) == if s[0] == 110 then FormText(NullForm) else FormText(BoolForm(s[0] == 116))
    ensures WordValue(q) == if s[0] == 110 then Null else Bool(s[0] == 116)
  {
    hide JP.Feed;
    q := Turn(dec, p, s);
  }

  lemma NumberStarts(dec: JP.DecimalText, p: JP.Parser, s: seq<byte>) returns (q: JP.Parser)
    requires JP.Live(p) && p.top.state == JP.Start && s != [] && (IsDigit(s[0]) || s[0] == 45)
    ensures Moves(dec, p, s, [], q, s) && JP.Live(q) && q.top.state == JP.Number && q.below == p.below
    ensures q.str == [] && !q.isDecimal
  {
    hide JP.Feed;
    q := Turn(dec, p, s);
  }

  lemma NumberFormFeeds(dec: JP.DecimalText, p: JP.Parser, t: seq<byte>, rest: seq<byte>) returns (q: JP.Parser)
    requires JP.Live(p) && p.top.state == JP.Start && GoodNumber(dec, t) && Clear(NumberForm(t), rest)
    ensures Ended(q, p.below) && Moves(dec, p, t + rest, Visit(Meaning(dec, NumberForm(t))), q, rest)
  {
    hide JP.Feed, JP.Once;
    var e := Visit(Meaning(dec, NumberForm(t)));
    var r := NumberStarts(dec, p, t + rest);
    var u := NumberFeeds(dec, r, t, rest);
    assert [] + t == t;
    Quietly(dec, p, t + rest, r, t + rest, [], u, rest);
    NumberTurn(dec, u, rest[0]);
    q := Turn(dec, u, rest);
    Quietly(dec, p, t + rest, u, rest, e, q, rest);
  }

  lemma StringOpens(dec: JP.DecimalText, p: JP.Parser, rest: seq<byte>) returns (q: JP.Parser)
    requires JP.Live(p) && p.top.state == JP.Start
    ensures Moves(dec, p, [34] + rest, [], q, rest) && InText(q) && q.top.state == JP.StringState
    ensures q.below == p.below && q.str == []
  {
    hide JP.Feed;
    q := Takes(dec, p, 34, rest);
  }

  lemma StringCloses(dec: JP.DecimalText, p: JP.Parser, rest: seq<byte>) returns (q: JP.Parser)
    requires JP.Live(p) && p.top.state == JP.StringState
    ensures Moves(dec, p, [34] + rest, Visit(Str(p.str)), q, rest) && Ended(q, p.below)
  {
    hide JP.Feed;
    q := Takes(dec, p, 34, rest);
  }

  lemma StringFormFeeds(dec: JP.DecimalText, p: JP.Parser, gs: seq<Glyph>, rest: seq<byte>) returns (q: JP.Parser)
    requires JP.Live(p) && p.top.state == JP.Start && GoodGlyphs(gs)
    ensures Ended(q, p.below) && Moves(dec, p, FormText(StringForm(gs)) + rest, Visit(Str(GlyphsBytes(gs))), q, rest)
  {
    hide JP.Feed, JP.Once;
    var s, inside, e := FormText(StringForm(gs)) + rest, GlyphsText(gs) + ([34] + rest), Visit(Str(GlyphsBytes(gs)));
    assert s == [34] + inside;
    var r := StringOpens(dec, p, inside);
    var u := GlyphsFeed(dec, r, gs, [34] + rest);
    assert [] + GlyphsBytes(gs) == GlyphsBytes(gs);
    q := StringCloses(dec, u, rest);
    Quietly(dec, p, s, r, inside, [], u, [34] + rest);
    Quietly(dec, p, s, u, [34] + rest, e, q, rest);
  }

  lemma ContainerOpens(dec: JP.DecimalText, p: JP.Parser, c: byte, rest: seq<byte>) returns (q: JP.Parser)
    requires JP.Live(p) && p.top.state == JP.Start && (c == 91 || c == 123)
    ensures Moves(dec, p, [c] + rest, [if c == 91 then BeginArray else BeginObject], q, rest) && JP.Live(q)
    ensures q.top == JP.StackRec(JP.EatWhitespace, if c == 91 then JP.ArrayState else JP.ObjFieldStart)
    ensures q.below == p.below
  {
    hide JP.Feed;
    q := Takes(dec, p, c, rest);
  }

  const ARRAY_BELOW := JP.StackRec(JP.ArraySep, JP.ArrayState)
  const OBJECT_BELOW := JP.StackRec(JP.EatWhitespace, JP.ObjSep)

  /** A plain character opens the level of an element or property value. */
  lemma LevelOpens(dec: JP.DecimalText, p: JP.Parser, s: seq<byte>) returns (q: JP.Parser)
    requires Eating(p) && (p.top.saved == JP.ArrayState || p.top.saved == JP.ObjValue)
    requires s != [] && Plain(s[0]) && (p.top.saved == JP.ArrayState ==> s[0] != 93) && |p.below| + 1 < JP.MAX_DEPTH
    ensures Moves(dec, p, s, [], q, s) && q.top == JP.RESET
    ensures q.below == p.below + [if p.top.saved == JP.ArrayState then ARRAY_BELOW else OBJECT_BELOW]
  {
    hide JP.Feed;
    var r := Enters(dec, p, s);
    q := Turn(dec, r, s);
    Quietly(dec, p, s, r, s, [], q, s);
  }

  /** A value from its first plain character on, with what stands behind it. */
  lemma {:induction false} CoreFeeds(dec: JP.DecimalText, p: JP.Parser, s: Slot, rest: seq<byte>)
    returns (q: JP.Parser)
    requires JP.Live(p) && p.top == JP.RESET && GoodSlot(dec, s) && (s.after == [] ==> Clear(s.form, rest))
    requires |p.below| + Depth(SlotMeaning(dec, s)) < JP.MAX_DEPTH
    ensures Ended(q, p.below) && Moves(dec, p, Core(s, rest), Visit(SlotMeaning(dec, s)), q, rest)
    decreases s, 1
  {
    hide JP.Feed, JP.Once;
    var e := Visit(SlotMeaning(dec, s));
    var t3 := GapText(s.after) + rest;
    var t2 := FormText(s.form) + t3;
    SlotFirst(dec, s, rest);
    var q1 := Enters(dec, p, Core(s, rest));
    var q2 := NulsFeed(dec, q1, s.nuls, t2);
    Quietly(dec, p, Core(s, rest), q1, Core(s, rest), [], q2, t2);
    GapIsClear(s.form, s.after, rest);
    var q3 := FormFeeds(dec, q2, s.form, t3);
    Quietly(dec, p, Core(s, rest), q2, t2, e, q3, t3);
    q := GapFeeds(dec, q3, s.after, rest);
    ThenQuietly(dec, p, Core(s, rest), e, q3, t3, q, rest);
  }

  /** A document: a value and what stands around it. */
  lemma SlotFeeds(dec: JP.DecimalText, p: JP.Parser, s: Slot, rest: seq<byte>) returns (q: JP.Parser)
    requires JP.Live(p) && p.top == JP.RESET && GoodSlot(dec, s) && (s.after == [] ==> Clear(s.form, rest))
    requires |p.below| + Depth(SlotMeaning(dec, s)) < JP.MAX_DEPTH
    ensures Ended(q, p.below) && Moves(dec, p, SlotText(s) + rest, Visit(SlotMeaning(dec, s)), q, rest)
  {
    hide JP.Feed, JP.Once;
    SlotFirst(dec, s, rest);
    var r := GapFeeds(dec, p, s.before, Core(s, rest));
    q := CoreFeeds(dec, r, s, rest);
    Quietly(dec, p, SlotText(s) + rest, r, Core(s, rest), Visit(SlotMeaning(dec, s)), q, rest);
  }

  lemma {:induction false} FormFeeds(dec: JP.DecimalText, p: JP.Parser, f: Form, rest: seq<byte>)
    returns (q: JP.Parser)
    requires JP.Live(p) && p.top.state == JP.Start && GoodForm(dec, f) && Clear(f, rest)
    requires |p.below| + Depth(Meaning(dec, f)) < JP.MAX_DEPTH
    ensures Ended(q, p.below) && Moves(dec, p, FormText(f) + rest, Visit(Meaning(dec, f)), q, rest)
    decreases f, 0
  {
    hide JP.Feed, JP.Once;
    match f {
      case NumberForm(t) => q := NumberFormFeeds(dec, p, t, rest);
      case StringForm(gs) => q := StringFormFeeds(dec, p, gs, rest);
      case ArrayForm(elems) =>
        var inside := ArrayInside(elems) + ([93] + rest);
        assert FormText(f) + rest == [91] + inside;
        var r := ContainerOpens(dec, p, 91, inside);
        q := ElemsFeed(dec, r, elems, rest);
        MovesOn(dec, p, FormText(f) + rest, [BeginArray], r, inside, VisitElems(ElemsMeaning(dec, elems)) + [EndArray],
                q, rest);
        Assoc([BeginArray], VisitElems(ElemsMeaning(dec, elems)), [EndArray]);
      case ObjectForm(fields) =>
        var inside := ObjectInside(fields) + ([125] + rest);
        assert FormText(f) + rest == [123] + inside;
        var r := ContainerOpens(dec, p, 123, inside);
        q := FieldsFeed(dec, r, fields, rest);
        MovesOn(dec, p, FormText(f) + rest, [BeginObject], r, inside,
                VisitProps(FieldsMeaning(dec, fields)) + [EndObject], q, rest);
        Assoc([BeginObject], VisitProps(FieldsMeaning(dec, fields)), [EndObject]);
      case _ =>
        var r := WordStarts(dec, p, FormText(f) + rest);
        q := WordFeeds(dec, r, rest);
        Quietly(dec, p, FormText(f) + rest, r, FormText(f) + rest, Visit(Meaning(dec, f)), q, rest);
    }
  }

  /** The value of an element or property, from where its gap begins. */
  lemma {:induction false} ValueFeeds(dec: JP.DecimalText, p: JP.Parser, s: Slot, rest: seq<byte>)
    returns (q: JP.Parser)
    requires Eating(p) && (p.top.saved == JP.ArrayState || p.top.saved == JP.ObjValue) && GoodSlot(dec, s)
    requires s.after == [] ==> Clear(s.form, rest)
    requires |p.below| + 1 + Depth(SlotMeaning(dec, s)) < JP.MAX_DEPTH
    ensures Ended(q, p.below + [if p.top.saved == JP.ArrayState then ARRAY_BELOW else OBJECT_BELOW])
    ensures Moves(dec, p, SlotText(s) + rest, Visit(SlotMeaning(dec, s)), q, rest)
    decreases s, 2
  {
    hide JP.Feed, JP.Once;
    SlotFirst(dec, s, rest);
    var q0 := GapFeeds(dec, p, s.before, Core(s, rest));
    var n := LevelOpens(dec, q0, Core(s, rest));
    Quietly(dec, p, SlotText(s) + rest, q0, Core(s, rest), [], n, Core(s, rest));
    q := CoreFeeds(dec, n, s, rest);
    Quietly(dec, p, SlotText(s) + rest, n, Core(s, rest), Visit(SlotMeaning(dec, s)), q, rest);
  }

  /** A plain character after a value inside a container meets the record of the container. */
  lemma Pops(dec: JP.DecimalText, p: JP.Parser, below: seq<JP.StackRec>, r: JP.StackRec, s: seq<byte>)
    returns (q: JP.Parser)
    requires Ended(p, below + [r]) && s != [] && Plain(s[0])
    ensures Moves(dec, p, s, [], q, s) && q.top == r && q.below == below
  {
    hide JP.Feed;
    var u := Enters(dec, p, s);
    q := Turn(dec, u, s);
    assert (below + [r])[..|below|] == below;
    Quietly(dec, p, s, u, s, [], q, s);
  }

  /** After an element: the next one, or the end of the array. */
  lemma AfterElem(dec: JP.DecimalText, p: JP.Parser, below: seq<JP.StackRec>, c: byte, rest: seq<byte>)
    returns (q: JP.Parser)
    requires Ended(p, below + [ARRAY_BELOW]) && (c == 44 || c == 93)
    ensures Moves(dec, p, [c] + rest, if c == 44 then [] else [EndArray], q, rest)
    ensures c == 44 ==> q.top == JP.StackRec(JP.EatWhitespace, JP.ArrayState) && q.below == below
    ensures c == 93 ==> Ended(q, below)
  {
    hide JP.Feed;
    var r := Pops(dec, p, below, ARRAY_BELOW, [c] + rest);
    q := Takes(dec, r, c, rest);
    Quietly(dec, p, [c] + rest, r, [c] + rest, if c == 44 then [] else [EndArray], q, rest);
  }

  /** After a property value: the next property, or the end of the object. */
  lemma AfterField(dec: JP.DecimalText, p: JP.Parser, below: seq<JP.StackRec>, c: byte, rest: seq<byte>)
    returns (q: JP.Parser)
    requires Ended(p, below + [OBJECT_BELOW]) && (c == 44 || c == 125)
    ensures Moves(dec, p, [c] + rest, if c == 44 then [] else [EndObject], q, rest)
    ensures c == 44 ==> q.top == JP.StackRec(JP.EatWhitespace, JP.ObjFieldStart) && q.below == below
    ensures c == 125 ==> Ended(q, below)
  {
    hide JP.Feed;
    var r := Pops(dec, p, below, OBJECT_BELOW, [c] + rest);
    var u := Enters(dec, r, [c] + rest);
    q := Takes(dec, u, c, rest);
    Quietly(dec, p, [c] + rest, r, [c] + rest, [], u, [c] + rest);
    Quietly(dec, p, [c] + rest, u, [c] + rest, if c == 44 then [] else [EndObject], q, rest);
  }

  /** The end of an array or object where an element or property could stand. */
  lemma ClosesHere(dec: JP.DecimalText, p: JP.Parser, g: Gap, c: byte, rest: seq<byte>) returns (q: JP.Parser)
    requires Eating(p) && GoodGap(g)
    requires (p.top.saved == JP.ArrayState && c == 93) || (p.top.saved == JP.ObjFieldStart && c == 125)
    ensures Moves(dec, p, GapText(g) + ([c] + rest), [if c == 93 then EndArray else EndObject], q, rest)
    ensures Ended(q, p.below)
  {
    hide JP.Feed;
    var s := GapText(g) + ([c] + rest);
    var r := GapFeeds(dec, p, g, [c] + rest);
    var u := Enters(dec, r, [c] + rest);
    q := Takes(dec, u, c, rest);
    Quietly(dec, p, s, r, [c] + rest, [], u, [c] + rest);
    Quietly(dec, p, s, u, [c] + rest, [if c == 93 then EndArray else EndObject], q, rest);
  }

  /** An element and the comma or bracket after it. */
  lemma {:induction false} ElemFeeds(dec: JP.DecimalText, p: JP.Parser, s: Slot, c: byte, rest: seq<byte>)
    returns (q: JP.Parser)
    requires JP.Live(p) && p.top == JP.StackRec(JP.EatWhitespace, JP.ArrayState) && GoodSlot(dec, s)
    requires (c == 44 || c == 93) && |p.below| + 1 + Depth(SlotMeaning(dec, s)) < JP.MAX_DEPTH
    ensures Moves(dec, p, SlotText(s) + ([c] + rest),
                  Visit(SlotMeaning(dec, s)) + if c == 44 then [] else [EndArray], q, rest)
    ensures c == 44 ==> q.top == p.top && q.below == p.below
    ensures c == 93 ==> Ended(q, p.below)
    decreases s, 3
  {
    hide JP.Feed, JP.Once;
    var r := ValueFeeds(dec, p, s, [c] + rest);
    q := AfterElem(dec, r, p.below, c, rest);
    MovesOn(dec, p, SlotText(s) + ([c] + rest), Visit(SlotMeaning(dec, s)), r, [c] + rest,
            if c == 44 then [] else [EndArray], q, rest);
  }

  /** The inside of an array and its bracket. */
  lemma {:induction false} ElemsFeed(dec: JP.DecimalText, p: JP.Parser, e: Elems, rest: seq<byte>)
    returns (q: JP.Parser)
    requires JP.Live(p) && p.top == JP.StackRec(JP.EatWhitespace, JP.ArrayState) && GoodElems(dec, e)
    requires |p.below| + DepthElems(ElemsMeaning(dec, e)) < JP.MAX_DEPTH
    ensures Ended(q, p.below)
    ensures Moves(dec, p, ArrayInside(e) + ([93] + rest), VisitElems(ElemsMeaning(dec, e)) + [EndArray], q, rest)
    decreases e, 0
  {
    hide JP.Feed, JP.Once;
    match e {
      case NoElem(gap) =>
        q := ClosesHere(dec, p, gap, 93, rest);
        assert [] + [EndArray] == [EndArray];
      case LastElem(slot) =>
        ElemsCons(SlotMeaning(dec, slot), []);
        q := ElemFeeds(dec, p, slot, 93, rest);
      case ElemThen(slot, more) =>
        var v, vs, t := SlotMeaning(dec, slot), ElemsMeaning(dec, more), ArrayInside(more) + ([93] + rest);
        ElemsCons(v, vs);
        Commas(SlotText(slot), ArrayInside(more), [93] + rest);
        var u := ElemFeeds(dec, p, slot, 44, t);
        q := ElemsFeed(dec, u, more, rest);
        MovesOn(dec, p, ArrayInside(e) + ([93] + rest), Visit(v) + [], u, t, VisitElems(vs) + [EndArray], q, rest);
        HeardTwo(Visit(v), VisitElems(vs), EndArray);
    }
  }

  lemma Commas(a: seq<byte>, b: seq<byte>, rest: seq<byte>)
    ensures a + ([44] + b) + rest == a + ([44] + (b + rest))
  {
  }

  lemma HeardTwo(a: seq<Event>, b: seq<Event>, e: Event)
    ensures a + [] + (b + [e]) == a + b + [e]
  {
  }

  /** A name from its quote to the one that closes it. */
  lemma NameFeeds(dec: JP.DecimalText, p: JP.Parser, name: seq<Glyph>, rest: seq<byte>) returns (q: JP.Parser)
    requires Eating(p) && p.top.saved == JP.ObjFieldStart && GoodGlyphs(name)
    ensures Moves(dec, p, [34] + (GlyphsText(name) + ([34] + rest)), [PropName(GlyphsBytes(name))], q, rest)
    ensures Eating(q) && q.top.saved == JP.ObjFieldEnd && q.below == p.below
  {
    hide JP.Feed;
    var inside := GlyphsText(name) + ([34] + rest);
    var r := Enters(dec, p, [34] + inside);
    var u := Takes(dec, r, 34, inside);
    Quietly(dec, p, [34] + inside, r, [34] + inside, [], u, inside);
    var w := GlyphsFeed(dec, u, name, [34] + rest);
    assert [] + GlyphsBytes(name) == GlyphsBytes(name);
    Quietly(dec, p, [34] + inside, u, inside, [], w, [34] + rest);
    q := Takes(dec, w, 34, rest);
    Quietly(dec, p, [34] + inside, w, [34] + rest, [PropName(GlyphsBytes(name))], q, rest);
  }

  /** The colon, and the gap before it. */
  lemma ColonFeeds(dec: JP.DecimalText, p: JP.Parser, g: Gap, rest: seq<byte>) returns (q: JP.Parser)
    requires Eating(p) && p.top.saved == JP.ObjFieldEnd && GoodGap(g)
    ensures Moves(dec, p, GapText(g) + ([58] + rest), [], q, rest)
    ensures Eating(q) && q.top.saved == JP.ObjValue && q.below == p.below
  {
    hide JP.Feed;
    var s := GapText(g) + ([58] + rest);
    var r := GapFeeds(dec, p, g, [58] + rest);
    var u := Enters(dec, r, [58] + rest);
    q := Takes(dec, u, 58, rest);
    Quietly(dec, p, s, r, [58] + rest, [], u, [58] + rest);
    Quietly(dec, p, s, u, [58] + rest, [], q, rest);
  }

  /** A text behind six pieces. */
  lemma SixPieces(a: seq<byte>, b: seq<byte>, c: seq<byte>, d: seq<byte>, e: seq<byte>, f: seq<byte>, g: seq<byte>,
                  rest: seq<byte>)
    ensures a + (b + (c + (d + (e + (f + g))))) + rest == a + (b + (c + (d + (e + (f + (g + rest))))))
  {
    Assoc(a, b + (c + (d + (e + (f + g)))), rest);
    Assoc(b, c + (d + (e + (f + g))), rest);
    Assoc(c, d + (e + (f + g)), rest);
    Assoc(d, e + (f + g), rest);
    Assoc(e, f + g, rest);
    Assoc(f, g, rest);
  }

  lemma FieldTextIs(f: Field, rest: seq<byte>)
    ensures FieldText(f) + rest == GapText(f.before) + ([34] + (GlyphsText(f.name) + ([34] + (GapText(f.colon) +
              ([58] + (SlotText(f.slot) + rest))))))
  {
    SixPieces(GapText(f.before), [34], GlyphsText(f.name), [34], GapText(f.colon), [58], SlotText(f.slot), rest);
  }

  /** A name, its colon and its value. */
  lemma {:induction false} FieldFeeds(dec: JP.DecimalText, p: JP.Parser, f: Field, rest: seq<byte>)
    returns (q: JP.Parser)
    requires JP.Live(p) && p.top == JP.StackRec(JP.EatWhitespace, JP.ObjFieldStart) && GoodField(dec, f)
    requires rest != [] && (rest[0] == 44 || rest[0] == 125)
    requires |p.below| + 1 + Depth(SlotMeaning(dec, f.slot)) < JP.MAX_DEPTH
    ensures Ended(q, p.below + [OBJECT_BELOW])
    ensures Moves(dec, p, FieldText(f) + rest,
                  [PropName(GlyphsBytes(f.name))] + Visit(SlotMeaning(dec, f.slot)), q, rest)
    decreases f, 1
  {
    hide JP.Feed, JP.Once;
    var name, s := [PropName(GlyphsBytes(f.name))], FieldText(f) + rest;
    var t3 := SlotText(f.slot) + rest;
    var t2 := GapText(f.colon) + ([58] + t3);
    var t1 := [34] + (GlyphsText(f.name) + ([34] + t2));
    FieldTextIs(f, rest);
    var q1 := GapFeeds(dec, p, f.before, t1);
    var q2 := NameFeeds(dec, q1, f.name, t2);
    Quietly(dec, p, s, q1, t1, name, q2, t2);
    var q3 := ColonFeeds(dec, q2, f.colon, t3);
    ThenQuietly(dec, p, s, name, q2, t2, q3, t3);
    q := ValueFeeds(dec, q3, f.slot, rest);
    MovesOn(dec, p, s, name, q3, t3, Visit(SlotMeaning(dec, f.slot)), q, rest);
  }

  /** A property and the comma or brace after it. */
  lemma {:induction false} FieldThenFeeds(dec: JP.DecimalText, p: JP.Parser, f: Field, c: byte, rest: seq<byte>)
    returns (q: JP.Parser)
    requires JP.Live(p) && p.top == JP.StackRec(JP.EatWhitespace, JP.ObjFieldStart) && GoodField(dec, f)
    requires (c == 44 || c == 125) && |p.below| + 1 + Depth(FieldMeaning(dec, f).val) < JP.MAX_DEPTH
    ensures var v := FieldMeaning(dec, f);
            Moves(dec, p, FieldText(f) + ([c] + rest),
                  [PropName(v.name)] + Visit(v.val) + if c == 44 then [] else [EndObject], q, rest)
    ensures c == 44 ==> q.top == p.top && q.below == p.below
    ensures c == 125 ==> Ended(q, p.below)
    decreases f, 2
  {
    hide JP.Feed, JP.Once;
    var v := FieldMeaning(dec, f);
    var r := FieldFeeds(dec, p, f, [c] + rest);
    q := AfterField(dec, r, p.below, c, rest);
    MovesOn(dec, p, FieldText(f) + ([c] + rest), [PropName(v.name)] + Visit(v.val), r, [c] + rest,
            if c == 44 then [] else [EndObject], q, rest);
  }

  /** The inside of an object and its brace. */
  lemma {:induction false} FieldsFeed(dec: JP.DecimalText, p: JP.Parser, fs: Fields, rest: seq<byte>)
    returns (q: JP.Parser)
    requires JP.Live(p) && p.top == JP.StackRec(JP.EatWhitespace, JP.ObjFieldStart) && GoodFields(dec, fs)
    requires |p.below| + DepthProps(FieldsMeaning(dec, fs)) < JP.MAX_DEPTH
    ensures Ended(q, p.below)
    ensures Moves(dec, p, ObjectInside(fs) + ([125] + rest), VisitProps(FieldsMeaning(dec, fs)) + [EndObject], q, rest)
    decreases fs, 0
  {
    hide JP.Feed, JP.Once;
    match fs {
      case NoField(gap) =>
        q := ClosesHere(dec, p, gap, 125, rest);
        assert [] + [EndObject] == [EndObject];
      case LastField(field) =>
        PropsCons(FieldMeaning(dec, field), []);
        q := FieldThenFeeds(dec, p, field, 125, rest);
      case FieldThen(field, more) =>
        var v, vs, t := FieldMeaning(dec, field), FieldsMeaning(dec, more), ObjectInside(more) + ([125] + rest);
        PropsCons(v, vs);
        Commas(FieldText(field), ObjectInside(more), [125] + rest);
        var u := FieldThenFeeds(dec, p, field, 44, t);
        q := FieldsFeed(dec, u, more, rest);
        var head := [PropName(v.name)] + Visit(v.val);
        MovesOn(dec, p, ObjectInside(fs) + ([125] + rest), head + [], u, t, VisitProps(vs) + [EndObject], q, rest);
        HeardTwo(head, VisitProps(vs), EndObject);
    }
  }

  // ----- a text that is accepted is one of the grammar -----

  lemma {:induction false} NulsRead(dec: JP.DecimalText, p: JP.Parser, s: seq<byte>)
    returns (n: nat, q: JP.Parser, rest: seq<byte>)
    requires p.top.state == JP.Start && Ends(dec, p, s)
    ensures s == Nuls(n) + rest && rest != [] && rest[0] != 0
    ensures InState(q, p, JP.Start) && Moves(dec, p, s, [], q, rest) && Ends(dec, q, rest)
    decreases |s|
  {
    hide JP.Feed;
    EndsNonEmpty(dec, p, s);
    if s[0] == 0 {
      var r := Turns(dec, p, s);
      var m;
      m, q, rest := NulsRead(dec, r, s[1..]);
      n := m + 1;
      Quietly(dec, p, s, r, s[1..], [], q, rest);
      assert s == [0] + s[1..];
      assert Nuls(n) == [0] + Nuls(m);
      assert s == Nuls(n) + rest;
    } else {
      n, q, rest := 0, p, s;
      Stays(dec, p, s);
    }
  }

  /** How a value may begin. */
  lemma FormBegins(dec: JP.DecimalText, p: JP.Parser, s: seq<byte>)
    requires p.top.state == JP.Start && Ends(dec, p, s) && s != [] && s[0] != 0
    ensures s[0] in [110, 116, 102, 34, 91, 123, 45] || IsDigit(s[0])
  {
    hide JP.Feed;
    var q := Turns(dec, p, s);
  }

  lemma NumberFormRead(dec: JP.DecimalText, p: JP.Parser, s: seq<byte>)
    returns (t: seq<byte>, q: JP.Parser, rest: seq<byte>)
    requires p.top.state == JP.Start && Ends(dec, p, s) && s != [] && (IsDigit(s[0]) || s[0] == 45)
    ensures s == t + rest && GoodNumber(dec, t) && Clear(NumberForm(t), rest)
    ensures Ended(q, p.below) && Moves(dec, p, s, Visit(Meaning(dec, NumberForm(t))), q, rest)
  {
    hide JP.Feed, JP.Once;
    var r := NumberStarts(dec, p, s);
    EndsOn(dec, p, s, [], r, s);
    var u;
    t, u, rest := NumberRead(dec, r, s);
    assert [] + t == t;
    Quietly(dec, p, s, r, s, [], u, rest);
    NumberTurn(dec, u, rest[0]);
    q := Turns(dec, u, rest);
    Quietly(dec, p, s, u, rest, Visit(Meaning(dec, NumberForm(t))), q, rest);
  }

  lemma StringFormRead(dec: JP.DecimalText, p: JP.Parser, s: seq<byte>)
    returns (gs: seq<Glyph>, q: JP.Parser, rest: seq<byte>)
    requires p.top.state == JP.Start && Ends(dec, p, s) && s != [] && s[0] == 34
    ensures GoodGlyphs(gs) && s == FormText(StringForm(gs)) + rest
    ensures Ended(q, p.below) && Moves(dec, p, s, Visit(Str(GlyphsBytes(gs))), q, rest)
  {
    hide JP.Feed, JP.Once;
    assert s == [34] + s[1..];
    var r := StringOpens(dec, p, s[1..]);
    EndsOn(dec, p, s, [], r, s[1..]);
    var u;
    gs, u, rest := GlyphsRead(dec, r, s[1..]);
    assert [] + GlyphsBytes(gs) == GlyphsBytes(gs);
    q := StringCloses(dec, u, rest);
    Quietly(dec, p, s, r, s[1..], [], u, [34] + rest);
    Quietly(dec, p, s, u, [34] + rest, Visit(Str(GlyphsBytes(gs))), q, rest);
    assert FormText(StringForm(gs)) + rest == [34] + (GlyphsText(gs) + ([34] + rest));
  }

  lemma WordFormRead(dec: JP.DecimalText, p: JP.Parser, s: seq<byte>)
    returns (f: Form, q: JP.Parser, rest: seq<byte>)
    requires p.top.state == JP.Start && Ends(dec, p, s) && s != [] && s[0] in [110, 116, 102]
    ensures GoodForm(dec, f) && !f.NumberForm? && Depth(Meaning(dec, f)) == 0 && s == FormText(f) + rest
    ensures Ended(q, p.below) && Moves(dec, p, s, Visit(Meaning(dec, f)), q, rest)
  {
    hide JP.Feed, JP.Once, WordLeft;
    f := if s[0] == 110 then NullForm else BoolForm(s[0] == 116);
    var r := WordStarts(dec, p, s);
    EndsOn(dec, p, s, [], r, s);
    q, rest := WordRead(dec, r, s);
    Quietly(dec, p, s, r, s, Visit(Meaning(dec, f)), q, rest);
  }

  /** One value. */
  lemma {:induction false} FormRead(dec: JP.DecimalText, p: JP.Parser, s: seq<byte>)
    returns (f: Form, q: JP.Parser, rest: seq<byte>)
    requires p.top.state == JP.Start && Ends(dec, p, s) && s != [] && s[0] != 0
    ensures GoodForm(dec, f) && s == FormText(f) + rest && |rest| < |s| && Clear(f, rest)
    ensures |p.below| + Depth(Meaning(dec, f)) < JP.MAX_DEPTH
    ensures Ended(q, p.below) && Moves(dec, p, s, Visit(Meaning(dec, f)), q, rest) && Ends(dec, q, rest)
    decreases |s|, 1
  {
    hide JP.Feed, JP.Once;
    FormBegins(dec, p, s);
    if s[0] == 91 || s[0] == 123 {
      f, q, rest := ContainerRead(dec, p, s);
    } else if s[0] == 34 {
      var gs;
      gs, q, rest := StringFormRead(dec, p, s);
      f := StringForm(gs);
    } else if s[0] in [110, 116, 102] {
      f, q, rest := WordFormRead(dec, p, s);
    } else {
      var t;
      t, q, rest := NumberFormRead(dec, p, s);
      f := NumberForm(t);
    }
    FormFirst(dec, f);
    EndsOn(dec, p, s, Visit(Meaning(dec, f)), q, rest);
  }

  lemma {:induction false} ContainerRead(dec: JP.DecimalText, p: JP.Parser, s: seq<byte>)
    returns (f: Form, q: JP.Parser, rest: seq<byte>)
    requires p.top.state == JP.Start && Ends(dec, p, s) && s != [] && (s[0] == 91 || s[0] == 123)
    ensures GoodForm(dec, f) && !f.NumberForm? && s == FormText(f) + rest
    ensures |p.below| + Depth(Meaning(dec, f)) < JP.MAX_DEPTH
    ensures Ended(q, p.below) && Moves(dec, p, s, Visit(Meaning(dec, f)), q, rest)
    decreases |s|, 0
  {
    hide JP.Feed, JP.Once;
    assert s == [s[0]] + s[1..];
    var open := [if s[0] == 91 then BeginArray else BeginObject];
    var r := ContainerOpens(dec, p, s[0], s[1..]);
    EndsOn(dec, p, s, open, r, s[1..]);
    if s[0] == 91 {
      var e;
      e, q, rest := ElemsRead(dec, r, s[1..]);
      f := ArrayForm(e);
      MovesOn(dec, p, s, open, r, s[1..], VisitElems(ElemsMeaning(dec, e)) + [EndArray], q, rest);
      Wrapped(91, ArrayInside(e), 93, rest, BeginArray, VisitElems(ElemsMeaning(dec, e)), EndArray);
    } else {
      var fs;
      fs, q, rest := FieldsRead(dec, r, s[1..]);
      f := ObjectForm(fs);
      MovesOn(dec, p, s, open, r, s[1..], VisitProps(FieldsMeaning(dec, fs)) + [EndObject], q, rest);
      Wrapped(123, ObjectInside(fs), 125, rest, BeginObject, VisitProps(FieldsMeaning(dec, fs)), EndObject);
    }
  }

  lemma Wrapped(a: byte, text: seq<byte>, b: byte, rest: seq<byte>, ea: Event, es: seq<Event>, eb: Event)
    ensures [a] + (text + ([b] + rest)) == [a] + text + [b] + rest && [ea] + (es + [eb]) == [ea] + es + [eb]
  {
  }

  /** A value and the gap behind it, from its first plain character on. */
  lemma {:induction false} CoreRead(dec: JP.DecimalText, p: JP.Parser, s: seq<byte>, before: Gap)
    returns (slot: Slot, q: JP.Parser, rest: seq<byte>)
    requires p.top == JP.RESET && Ends(dec, p, s) && s != [] && Plain(s[0]) && GoodGap(before)
    ensures GoodSlot(dec, slot) && slot.before == before && s == Core(slot, rest) && |rest| < |s|
    ensures rest != [] && Plain(rest[0]) && (slot.after == [] ==> Clear(slot.form, rest))
    ensures |p.below| + Depth(SlotMeaning(dec, slot)) < JP.MAX_DEPTH
    ensures Ended(q, p.below) && Moves(dec, p, s, Visit(SlotMeaning(dec, slot)), q, rest) && Ends(dec, q, rest)
    decreases |s|, 2
  {
    hide JP.Feed, JP.Once;
    var q1 := Enters(dec, p, s);
    EndsOn(dec, p, s, [], q1, s);
    var n, q2, t2 := NulsRead(dec, q1, s);
    Quietly(dec, p, s, q1, s, [], q2, t2);
    var f, q3, t3 := FormRead(dec, q2, t2);
    var e := Visit(Meaning(dec, f));
    Quietly(dec, p, s, q2, t2, e, q3, t3);
    var after;
    after, q, rest := GapRead(dec, q3, t3);
    ThenQuietly(dec, p, s, e, q3, t3, q, rest);
    slot := Slot(before, n, f, after);
    assert after == [] ==> t3 == rest;
  }

  /** The value of an element or property, from its first plain character on. */
  lemma {:induction false} ValueRead(dec: JP.DecimalText, p: JP.Parser, s: seq<byte>, before: Gap)
    returns (slot: Slot, q: JP.Parser, rest: seq<byte>)
    requires Eating(p) && (p.top.saved == JP.ArrayState || p.top.saved == JP.ObjValue) && Ends(dec, p, s)
    requires s != [] && Plain(s[0]) && (p.top.saved == JP.ArrayState ==> s[0] != 93) && GoodGap(before)
    ensures GoodSlot(dec, slot) && slot.before == before && s == Core(slot, rest) && |rest| < |s|
    ensures rest != [] && Plain(rest[0])
    ensures |p.below| + 1 + Depth(SlotMeaning(dec, slot)) < JP.MAX_DEPTH
    ensures Ended(q, p.below + [if p.top.saved == JP.ArrayState then ARRAY_BELOW else OBJECT_BELOW])
    ensures Moves(dec, p, s, Visit(SlotMeaning(dec, slot)), q, rest) && Ends(dec, q, rest)
    decreases |s|, 3
  {
    hide JP.Feed, JP.Once;
    LevelRoom(dec, p, s);
    var n := LevelOpens(dec, p, s);
    EndsOn(dec, p, s, [], n, s);
    slot, q, rest := CoreRead(dec, n, s, before);
    Quietly(dec, p, s, n, s, Visit(SlotMeaning(dec, slot)), q, rest);
  }

  lemma LevelRoom(dec: JP.DecimalText, p: JP.Parser, s: seq<byte>)
    requires Eating(p) && (p.top.saved == JP.ArrayState || p.top.saved == JP.ObjValue) && Ends(dec, p, s)
    requires s != [] && Plain(s[0]) && (p.top.saved == JP.ArrayState ==> s[0] != 93)
    ensures |p.below| + 1 < JP.MAX_DEPTH
  {
    hide JP.Feed;
    var r := Enters(dec, p, s);
    EndsOn(dec, p, s, [], r, s);
    var q := Turns(dec, r, s);
  }

  /** What may come after an element. */
  lemma ElemFollowed(dec: JP.DecimalText, p: JP.Parser, below: seq<JP.StackRec>, s: seq<byte>)
    requires Ended(p, below + [ARRAY_BELOW]) && Ends(dec, p, s) && s != [] && Plain(s[0])
    ensures s[0] == 44 || s[0] == 93
  {
    hide JP.Feed;
    var r := Pops(dec, p, below, ARRAY_BELOW, s);
    EndsOn(dec, p, s, [], r, s);
    var q := Turns(dec, r, s);
  }

  lemma FieldFollowed(dec: JP.DecimalText, p: JP.Parser, below: seq<JP.StackRec>, s: seq<byte>)
    requires Ended(p, below + [OBJECT_BELOW]) && Ends(dec, p, s) && s != [] && Plain(s[0])
    ensures s[0] == 44 || s[0] == 125
  {
    hide JP.Feed;
    var r := Pops(dec, p, below, OBJECT_BELOW, s);
    EndsOn(dec, p, s, [], r, s);
    var u := Enters(dec, r, s);
    EndsOn(dec, r, s, [], u, s);
    var q := Turns(dec, u, s);
  }

  /** The inside of an array and its bracket. */
  lemma {:induction false} ElemsRead(dec: JP.DecimalText, p: JP.Parser, s: seq<byte>)
    returns (e: Elems, q: JP.Parser, rest: seq<byte>)
    requires p.top == JP.StackRec(JP.EatWhitespace, JP.ArrayState) && Ends(dec, p, s)
    ensures GoodElems(dec, e) && s == ArrayInside(e) + ([93] + rest)
    ensures |p.below| + DepthElems(ElemsMeaning(dec, e)) < JP.MAX_DEPTH
    ensures Ended(q, p.below) && Moves(dec, p, s, VisitElems(ElemsMeaning(dec, e)) + [EndArray], q, rest)
    decreases |s|, 4
  {
    hide JP.Feed, JP.Once;
    var g, r, t := GapRead(dec, p, s);
    assert t == [t[0]] + t[1..];
    if t[0] == 93 {
      e, rest := NoElem(g), t[1..];
      q := ClosesHere(dec, p, g, 93, rest);
      assert [] + [EndArray] == [EndArray];
    } else {
      var slot, u, t1 := ValueRead(dec, r, t, g);
      var v := SlotMeaning(dec, slot);
      Quietly(dec, p, s, r, t, Visit(v), u, t1);
      SlotFirst(dec, slot, t1);
      ElemFollowed(dec, u, p.below, t1);
      assert t1 == [t1[0]] + t1[1..];
      var w := AfterElem(dec, u, p.below, t1[0], t1[1..]);
      MovesOn(dec, p, s, Visit(v), u, t1, if t1[0] == 44 then [] else [EndArray], w, t1[1..]);
      if t1[0] == 93 {
        e, q, rest := LastElem(slot), w, t1[1..];
        ElemsCons(v, []);
      } else {
        EndsOn(dec, p, s, Visit(v) + [], w, t1[1..]);
        var more;
        more, q, rest := ElemsRead(dec, w, t1[1..]);
        var vs := ElemsMeaning(dec, more);
        e := ElemThen(slot, more);
        ElemsCons(v, vs);
        Commas(SlotText(slot), ArrayInside(more), [93] + rest);
        MovesOn(dec, p, s, Visit(v) + [], w, t1[1..], VisitElems(vs) + [EndArray], q, rest);
        HeardTwo(Visit(v), VisitElems(vs), EndArray);
      }
    }
  }

  /** A name from its quote on. */
  lemma NameRead(dec: JP.DecimalText, p: JP.Parser, s: seq<byte>)
    returns (name: seq<Glyph>, q: JP.Parser, rest: seq<byte>)
    requires Eating(p) && p.top.saved == JP.ObjFieldStart && Ends(dec, p, s) && s != [] && Plain(s[0]) && s[0] != 125
    ensures GoodGlyphs(name) && s == [34] + (GlyphsText(name) + ([34] + rest))
    ensures Eating(q) && q.top.saved == JP.ObjFieldEnd && q.below == p.below
    ensures Moves(dec, p, s, [PropName(GlyphsBytes(name))], q, rest) && Ends(dec, q, rest)
  {
    hide JP.Feed;
    var r := Enters(dec, p, s);
    EndsOn(dec, p, s, [], r, s);
    var u := Turns(dec, r, s);
    assert s == [34] + s[1..];
    Quietly(dec, p, s, r, s, [], u, s[1..]);
    var w;
    name, w, rest := GlyphsRead(dec, u, s[1..]);
    assert [] + GlyphsBytes(name) == GlyphsBytes(name);
    Quietly(dec, p, s, u, s[1..], [], w, [34] + rest);
    q := Takes(dec, w, 34, rest);
    Quietly(dec, p, s, w, [34] + rest, [PropName(GlyphsBytes(name))], q, rest);
    EndsOn(dec, p, s, [PropName(GlyphsBytes(name))], q, rest);
  }

  lemma ColonRead(dec: JP.DecimalText, p: JP.Parser, s: seq<byte>)
    returns (g: Gap, q: JP.Parser, rest: seq<byte>)
    requires Eating(p) && p.top.saved == JP.ObjFieldEnd && Ends(dec, p, s)
    ensures GoodGap(g) && s == GapText(g) + ([58] + rest)
    ensures Eating(q) && q.top.saved == JP.ObjValue && q.below == p.below
    ensures Moves(dec, p, s, [], q, rest) && Ends(dec, q, rest)
  {
    hide JP.Feed;
    var r, t;
    g, r, t := GapRead(dec, p, s);
    var u := Enters(dec, r, t);
    EndsOn(dec, r, t, [], u, t);
    q := Turns(dec, u, t);
    rest := t[1..];
    assert t == [58] + rest;
    Quietly(dec, p, s, r, t, [], u, t);
    Quietly(dec, p, s, u, t, [], q, rest);
  }

  /** A property, its gap read already. */
  lemma {:induction false} FieldRead(dec: JP.DecimalText, p: JP.Parser, s: seq<byte>, before: Gap)
    returns (f: Field, q: JP.Parser, rest: seq<byte>)
    requires p.top == JP.StackRec(JP.EatWhitespace, JP.ObjFieldStart) && Ends(dec, p, s) && GoodGap(before)
    requires s != [] && Plain(s[0]) && s[0] != 125
    ensures GoodField(dec, f) && GapText(before) + s == FieldText(f) + rest && |rest| < |s|
    ensures rest != [] && (rest[0] == 44 || rest[0] == 125)
    ensures |p.below| + 1 + Depth(FieldMeaning(dec, f).val) < JP.MAX_DEPTH
    ensures Ended(q, p.below + [OBJECT_BELOW])
    ensures var v := FieldMeaning(dec, f);
            Moves(dec, p, s, [PropName(v.name)] + Visit(v.val), q, rest) && Ends(dec, q, rest)
    decreases |s|, 4
  {
    hide JP.Feed, JP.Once;
    var name, r1, t1 := NameRead(dec, p, s);
    var e := [PropName(GlyphsBytes(name))];
    var colon, r2, t2 := ColonRead(dec, r1, t1);
    ThenQuietly(dec, p, s, e, r1, t1, r2, t2);
    var g, r3, t3 := GapRead(dec, r2, t2);
    ThenQuietly(dec, p, s, e, r2, t2, r3, t3);
    var slot;
    slot, q, rest := ValueRead(dec, r3, t3, g);
    MovesOn(dec, p, s, e, r3, t3, Visit(SlotMeaning(dec, slot)), q, rest);
    SlotFirst(dec, slot, rest);
    FieldFollowed(dec, q, p.below, rest);
    f := Field(before, name, colon, slot);
    FieldTextIs(f, rest);
  }

  /** The inside of an object and its brace. */
  lemma {:induction false} FieldsRead(dec: JP.DecimalText, p: JP.Parser, s: seq<byte>)
    returns (fs: Fields, q: JP.Parser, rest: seq<byte>)
    requires p.top == JP.StackRec(JP.EatWhitespace, JP.ObjFieldStart) && Ends(dec, p, s)
    ensures GoodFields(dec, fs) && s == ObjectInside(fs) + ([125] + rest)
    ensures |p.below| + DepthProps(FieldsMeaning(dec, fs)) < JP.MAX_DEPTH
    ensures Ended(q, p.below) && Moves(dec, p, s, VisitProps(FieldsMeaning(dec, fs)) + [EndObject], q, rest)
    decreases |s|, 5
  {
    hide JP.Feed, JP.Once;
    var g, r, t := GapRead(dec, p, s);
    assert t == [t[0]] + t[1..];
    if t[0] == 125 {
      fs, rest := NoField(g), t[1..];
      q := ClosesHere(dec, p, g, 125, rest);
      assert [] + [EndObject] == [EndObject];
    } else {
      var field, u, t1 := FieldRead(dec, r, t, g);
      var v := FieldMeaning(dec, field);
      var head := [PropName(v.name)] + Visit(v.val);
      Quietly(dec, p, s, r, t, head, u, t1);
      assert t1 == [t1[0]] + t1[1..];
      var w := AfterField(dec, u, p.below, t1[0], t1[1..]);
      MovesOn(dec, p, s, head, u, t1, if t1[0] == 44 then [] else [EndObject], w, t1[1..]);
      if t1[0] == 125 {
        fs, q, rest := LastField(field), w, t1[1..];
        PropsCons(v, []);
      } else {
        EndsOn(dec, p, s, head + [], w, t1[1..]);
        var more;
        more, q, rest := FieldsRead(dec, w, t1[1..]);
        var vs := FieldsMeaning(dec, more);
        fs := FieldThen(field, more);
        PropsCons(v, vs);
        Commas(FieldText(field), ObjectInside(more), [125] + rest);
        MovesOn(dec, p, s, head + [], w, t1[1..], VisitProps(vs) + [EndObject], q, rest);
        HeardTwo(head, VisitProps(vs), EndObject);
      }
    }
  }

  // ----- values too deep -----

  /** A text on which the parser gives up because of the depth. */
  predicate Drowns(dec: JP.DecimalText, p: JP.Parser, s: seq<byte>) {
    JP.Live(p) && JP.Feed(dec, p, s).Failed? && JP.Feed(dec, p, s).error == JP.ParseMaxDepth
  }

  lemma DrownsOn(dec: JP.DecimalText, p: JP.Parser, s: seq<byte>, heard: seq<Event>, q: JP.Parser, rest: seq<byte>)
    requires Moves(dec, p, s, heard, q, rest) && Drowns(dec, q, rest)
    ensures Drowns(dec, p, s)
  {
  }

  /** The last level has no room for another. */
  lemma NoRoom(dec: JP.DecimalText, p: JP.Parser, s: seq<byte>)
    requires Eating(p) && |p.below| == JP.MAX_DEPTH - 1 && s != [] && Plain(s[0])
    requires p.top.saved == JP.ObjValue || (p.top.saved == JP.ArrayState && s[0] != 93)
    ensures Drowns(dec, p, s)
  {
    var r := Enters(dec, p, s);
    OnceCounted(dec, r, s[0]);
  }

  lemma {:induction false} FormDrowns(dec: JP.DecimalText, p: JP.Parser, f: Form, rest: seq<byte>)
    requires JP.Live(p) && p.top.state == JP.Start && GoodForm(dec, f)
    requires |p.below| + Depth(Meaning(dec, f)) >= JP.MAX_DEPTH
    ensures Drowns(dec, p, FormText(f) + rest)
    decreases f, 0
  {
    hide JP.Feed, JP.Once;
    match f {
      case ArrayForm(elems) =>
        var inside := ArrayInside(elems) + ([93] + rest);
        assert FormText(f) + rest == [91] + inside;
        var r := ContainerOpens(dec, p, 91, inside);
        ElemsDrown(dec, r, elems, rest);
        DrownsOn(dec, p, FormText(f) + rest, [BeginArray], r, inside);
      case ObjectForm(fields) =>
        var inside := ObjectInside(fields) + ([125] + rest);
        assert FormText(f) + rest == [123] + inside;
        var r := ContainerOpens(dec, p, 123, inside);
        FieldsDrown(dec, r, fields, rest);
        DrownsOn(dec, p, FormText(f) + rest, [BeginObject], r, inside);
      case _ =>
    }
  }

  lemma {:induction false} CoreDrowns(dec: JP.DecimalText, p: JP.Parser, s: Slot, rest: seq<byte>)
    requires JP.Live(p) && p.top == JP.RESET && GoodSlot(dec, s)
    requires |p.below| + Depth(SlotMeaning(dec, s)) >= JP.MAX_DEPTH
    ensures Drowns(dec, p, Core(s, rest))
    decreases s, 1
  {
    hide JP.Feed, JP.Once;
    var t2 := FormText(s.form) + (GapText(s.after) + rest);
    SlotFirst(dec, s, rest);
    var q1 := Enters(dec, p, Core(s, rest));
    var q2 := NulsFeed(dec, q1, s.nuls, t2);
    Quietly(dec, p, Core(s, rest), q1, Core(s, rest), [], q2, t2);
    FormDrowns(dec, q2, s.form, GapText(s.after) + rest);
    DrownsOn(dec, p, Core(s, rest), [], q2, t2);
  }

  lemma {:induction false} ValueDrowns(dec: JP.DecimalText, p: JP.Parser, s: Slot, rest: seq<byte>)
    requires Eating(p) && (p.top.saved == JP.ArrayState || p.top.saved == JP.ObjValue) && GoodSlot(dec, s)
    requires |p.below| + 1 + Depth(SlotMeaning(dec, s)) >= JP.MAX_DEPTH
    ensures Drowns(dec, p, SlotText(s) + rest)
    decreases s, 2
  {
    hide JP.Feed, JP.Once;
    SlotFirst(dec, s, rest);
    var q := GapFeeds(dec, p, s.before, Core(s, rest));
    if |p.below| == JP.MAX_DEPTH - 1 {
      NoRoom(dec, q, Core(s, rest));
    } else {
      var n := LevelOpens(dec, q, Core(s, rest));
      CoreDrowns(dec, n, s, rest);
      DrownsOn(dec, q, Core(s, rest), [], n, Core(s, rest));
    }
    DrownsOn(dec, p, SlotText(s) + rest, [], q, Core(s, rest));
  }

  lemma {:induction false} ElemsDrown(dec: JP.DecimalText, p: JP.Parser, e: Elems, rest: seq<byte>)
    requires JP.Live(p) && p.top == JP.StackRec(JP.EatWhitespace, JP.ArrayState) && GoodElems(dec, e)
    requires |p.below| + DepthElems(ElemsMeaning(dec, e)) >= JP.MAX_DEPTH
    ensures Drowns(dec, p, ArrayInside(e) + ([93] + rest))
    decreases e, 0
  {
    hide JP.Feed, JP.Once;
    match e {
      case NoElem(_) =>
      case LastElem(slot) =>
        ElemsCons(SlotMeaning(dec, slot), []);
        ValueDrowns(dec, p, slot, [93] + rest);
      case ElemThen(slot, more) =>
        var v, vs, t := SlotMeaning(dec, slot), ElemsMeaning(dec, more), ArrayInside(more) + ([93] + rest);
        ElemsCons(v, vs);
        Commas(SlotText(slot), ArrayInside(more), [93] + rest);
        if |p.below| + 1 + Depth(v) >= JP.MAX_DEPTH {
          ValueDrowns(dec, p, slot, [44] + t);
        } else {
          var u := ElemFeeds(dec, p, slot, 44, t);
          ElemsDrown(dec, u, more, rest);
          DrownsOn(dec, p, ArrayInside(e) + ([93] + rest), Visit(v) + [], u, t);
        }
    }
  }

  lemma {:induction false} FieldDrowns(dec: JP.DecimalText, p: JP.Parser, f: Field, rest: seq<byte>)
    requires JP.Live(p) && p.top == JP.StackRec(JP.EatWhitespace, JP.ObjFieldStart) && GoodField(dec, f)
    requires |p.below| + 1 + Depth(FieldMeaning(dec, f).val) >= JP.MAX_DEPTH
    ensures Drowns(dec, p, FieldText(f) + rest)
    decreases f, 1
  {
    hide JP.Feed, JP.Once;
    var name, s := [PropName(GlyphsBytes(f.name))], FieldText(f) + rest;
    var t3 := SlotText(f.slot) + rest;
    var t2 := GapText(f.colon) + ([58] + t3);
    var t1 := [34] + (GlyphsText(f.name) + ([34] + t2));
    FieldTextIs(f, rest);
    var q1 := GapFeeds(dec, p, f.before, t1);
    var q2 := NameFeeds(dec, q1, f.name, t2);
    var q3 := ColonFeeds(dec, q2, f.colon, t3);
    ValueDrowns(dec, q3, f.slot, rest);
    DrownsOn(dec, q2, t2, [], q3, t3);
    DrownsOn(dec, q1, t1, name, q2, t2);
    DrownsOn(dec, p, s, [], q1, t1);
  }

  lemma {:induction false} FieldsDrown(dec: JP.DecimalText, p: JP.Parser, fs: Fields, rest: seq<byte>)
    requires JP.Live(p) && p.top == JP.StackRec(JP.EatWhitespace, JP.ObjFieldStart) && GoodFields(dec, fs)
    requires |p.below| + DepthProps(FieldsMeaning(dec, fs)) >= JP.MAX_DEPTH
    ensures Drowns(dec, p, ObjectInside(fs) + ([125] + rest))
    decreases fs, 0
  {
    hide JP.Feed, JP.Once;
    match fs {
      case NoField(_) =>
      case LastField(field) =>
        PropsCons(FieldMeaning(dec, field), []);
        FieldDrowns(dec, p, field, [125] + rest);
      case FieldThen(field, more) =>
        var v, vs, t := FieldMeaning(dec, field), FieldsMeaning(dec, more), ObjectInside(more) + ([125] + rest);
        PropsCons(v, vs);
        Commas(FieldText(field), ObjectInside(more), [125] + rest);
        if |p.below| + 1 + Depth(v.val) >= JP.MAX_DEPTH {
          FieldDrowns(dec, p, field, [44] + t);
        } else {
          var u := FieldThenFeeds(dec, p, field, 44, t);
          FieldsDrown(dec, u, more, rest);
          DrownsOn(dec, p, ObjectInside(fs) + ([125] + rest), [PropName(v.name)] + Visit(v.val) + [], u, t);
        }
    }
  }

  // ----- documents -----

  /** What the closing NUL makes of it. */
  lemma ParseIs(dec: JP.DecimalText, s: seq<byte>)
    ensures JP.Parse(dec, s) ==
            match JP.Feed(dec, JP.FRESH, s + [0])
            case Stopped(_, heard, _) => JP.Ok(heard)
            case Failed(_, error) => JP.Err(error)
            case More(_, _) => JP.Err(JP.ParseEof)
  {
    hide JP.Switch, JP.Once;
    JP.FeedConcat(dec, JP.FRESH, s, [0]);
    var f := JP.Feed(dec, JP.FRESH, s);
    if f.Stopped? {
      FinishedStops(dec, f.p);
      assert f.heard + [] == f.heard;
    } else if f.More? && JP.Feed(dec, f.p, [0]).More? {
      NeverFinished(dec, f.p);
    }
  }

  lemma FinishedStops(dec: JP.DecimalText, p: JP.Parser)
    requires JP.Live(p) && JP.Finished(p)
    ensures JP.Feed(dec, p, [0]) == JP.Stopped(p, [], [0])
  {
  }

  lemma NeverFinished(dec: JP.DecimalText, p: JP.Parser)
    requires JP.Live(p) && JP.Feed(dec, p, [0]).More?
    ensures !JP.Finished(JP.Feed(dec, p, [0]).p)
  {
    var f := JP.Switch(dec, JP.Counted(p, 0), 0);
    assert [0][1..] == [] && JP.Feed(dec, f.p, []) == JP.More(f.p, []);
  }

  /** A plain character after a whole document stops the parser. */
  lemma Stops(dec: JP.DecimalText, p: JP.Parser, s: seq<byte>)
    requires Ended(p, []) && s != [] && Plain(s[0])
    ensures var f := JP.Feed(dec, p, s); f.Stopped? && f.heard == [] && f.rest == s && f.p.below == []
  {
    var r := Enters(dec, p, s);
    OnceCounted(dec, r, s[0]);
    JP.HearNothing(JP.Feed(dec, r, s));
  }

  /** What the parser leaves unread behind a document. */
  predicate Follows(s: Slot, tail: seq<byte>) {
    tail == [] || (Plain(tail[0]) && (s.after == [] ==> Clear(s.form, tail)))
  }

  /**
   * Any text of the grammar, white space, comments and escapes of any kind in it, is heard as the value it means if
   * that nests at most 31 deep, and is refused for its depth otherwise. What follows a document is not read.
   */
  lemma SpelledParses(dec: JP.DecimalText, s: Slot, tail: seq<byte>)
    requires GoodSlot(dec, s) && Follows(s, tail)
    ensures JP.Parse(dec, SlotText(s) + tail) ==
            if Depth(SlotMeaning(dec, s)) < JP.MAX_DEPTH then JP.Ok(Visit(SlotMeaning(dec, s)))
            else JP.Err(JP.ParseMaxDepth)
  {
    var text, rest := SlotText(s) + tail, tail + [0];
    ParseIs(dec, text);
    assert text + [0] == SlotText(s) + rest;
    if Depth(SlotMeaning(dec, s)) < JP.MAX_DEPTH {
      var q := SlotFeeds(dec, JP.FRESH, s, rest);
      Stops(dec, q, rest);
      assert Visit(SlotMeaning(dec, s)) + [] == Visit(SlotMeaning(dec, s));
    } else {
      SlotFirst(dec, s, rest);
      var q := GapFeeds(dec, JP.FRESH, s.before, Core(s, rest));
      CoreDrowns(dec, q, s, rest);
      DrownsOn(dec, JP.FRESH, SlotText(s) + rest, [], q, Core(s, rest));
    }
  }

  /** The text begins with a document of this value. */
  predicate Spells(dec: JP.DecimalText, text: seq<byte>, s: Slot, tail: seq<byte>, es: seq<Event>) {
    && text == SlotText(s) + tail && GoodSlot(dec, s) && Follows(s, tail)
    && Depth(SlotMeaning(dec, s)) < JP.MAX_DEPTH && es == Visit(SlotMeaning(dec, s))
  }

  /** Whatever is accepted is a document of the grammar. */
  lemma AcceptedIsSpelled(dec: JP.DecimalText, text: seq<byte>) returns (s: Slot, tail: seq<byte>)
    requires JP.Parse(dec, text).Ok?
    ensures Spells(dec, text, s, tail, JP.Parse(dec, text).heard)
  {
    hide JP.Feed, JP.Switch, JP.Once, JP.Parse;
    var all := text + [0];
    ParseIs(dec, text);
    var g, r, t := GapRead(dec, JP.FRESH, all);
    var q, rest;
    s, q, rest := CoreRead(dec, r, t, g);
    var e := Visit(SlotMeaning(dec, s));
    Quietly(dec, JP.FRESH, all, r, t, e, q, rest);
    SlotFirst(dec, s, rest);
    Stops(dec, q, rest);
    assert e + [] == e;
    tail := rest[..|rest| - 1];
    WithoutLast(text, SlotText(s), rest);
  }

  lemma WithoutLast(text: seq<byte>, a: seq<byte>, rest: seq<byte>)
    requires text + [0] == a + rest && rest != []
    ensures text == a + rest[..|rest| - 1] && rest == rest[..|rest| - 1] + [0]
  {
    assert text == (text + [0])[..|text|] && (text + [0])[|text|] == 0;
    assert rest[|rest| - 1] == (a + rest)[|a + rest| - 1];
  }

  /** The parser accepts exactly the texts that begin with a document of the grammar, and hears exactly its value. */
  lemma ParsesIff(dec: JP.DecimalText, text: seq<byte>, es: seq<Event>)
    ensures JP.Parse(dec, text) == JP.Ok(es) <==> exists s, tail :: Spells(dec, text, s, tail, es)
  {
    if JP.Parse(dec, text) == JP.Ok(es) {
      var s, tail := AcceptedIsSpelled(dec, text);
    }
    forall s, tail | Spells(dec, text, s, tail, es) ensures JP.Parse(dec, text) == JP.Ok(es) {
      SpelledParses(dec, s, tail);
    }
  }
}
