/** Where the JSON parser refuses a text, and with which error (MojJsonParser). */
module JsonRefusals {
  import opened Bytes
  import opened Numbers
  import opened Values
  import opened JsonGrammars
  import opened JsonReadings
  import opened JsonAccepts
  import JP = JsonParsers

  // ----- an unfinished text, and what goes wrong behind it -----

  /** An array up to where its next element begins, or an object up to where its next name begins. */
  datatype Head =
    | ArrayHead(before: Gap, nuls: nat, elems: seq<Slot>)
    | ObjectHead(before: Gap, nuls: nat, fields: seq<Field>)

  /** A container that is still open where its next value begins; in an object that value has its name. */
  datatype Opening = Opening(head: Head, gap: Gap, name: seq<Glyph>, colon: Gap)

  /** An escape that is none: an unknown letter, a digit that is none, or code unit zero. */
  datatype Escape = BadLetter(c: byte) | BadDigit(digits: seq<byte>, c: byte) | ZeroUnit

  datatype Fault =
    | NoValue(before: Gap, nuls: nat, c: byte)
    | BadWord(before: Gap, nuls: nat, word: Form, k: nat, c: byte)
    | BadNumber(before: Gap, nuls: nat, text: seq<byte>, c: byte)
    | BadString(before: Gap, nuls: nat, glyphs: seq<Glyph>, escape: Escape)
    | BadComment(before: Gap, c: byte)
    | NoName(head: Head, gap: Gap, c: byte)
    | BadName(head: Head, gap: Gap, glyphs: seq<Glyph>, escape: Escape)
    | NoColon(head: Head, gap: Gap, name: seq<Glyph>, colon: Gap, c: byte)
    | NoSeparator(slot: Slot, c: byte)

  function ElemsText(elems: seq<Slot>): seq<byte> {
    if elems == [] then [] else SlotText(elems[0]) + ([44] + ElemsText(elems[1..]))
  }

  function FieldsText(fields: seq<Field>): seq<byte> {
    if fields == [] then [] else FieldText(fields[0]) + ([44] + FieldsText(fields[1..]))
  }

  function NameText(name: seq<Glyph>, rest: seq<byte>): seq<byte> {
    [34] + (GlyphsText(name) + ([34] + rest))
  }

  /** A gap and the NULs before a value, and what follows. */
  function Lead(before: Gap, nuls: nat, rest: seq<byte>): seq<byte> {
    GapText(before) + (Nuls(nuls) + rest)
  }

  /** A text that begins with this. */
  function HeadText(h: Head, rest: seq<byte>): seq<byte> {
    match h
    case ArrayHead(g, n, elems) => Lead(g, n, [91] + (ElemsText(elems) + rest))
    case ObjectHead(g, n, fields) => Lead(g, n, [123] + (FieldsText(fields) + rest))
  }

  function OpeningText(o: Opening, rest: seq<byte>): seq<byte> {
    if o.head.ArrayHead? then HeadText(o.head, rest)
    else HeadText(o.head, GapText(o.gap) + NameText(o.name, GapText(o.colon) + ([58] + rest)))
  }

  function OpeningsText(os: seq<Opening>, rest: seq<byte>): seq<byte> {
    if os == [] then rest else OpeningText(os[0], OpeningsText(os[1..], rest))
  }

  function EscapeText(e: Escape, rest: seq<byte>): seq<byte> {
    match e
    case BadLetter(c) => [92] + ([c] + rest)
    case BadDigit(digits, c) => [92] + ([117] + (digits + ([c] + rest)))
    case ZeroUnit => [92] + ([117] + ([48, 48, 48] + ([48] + rest)))
  }

  function FaultText(f: Fault, rest: seq<byte>): seq<byte> {
    match f
    case NoValue(g, n, c) => Lead(g, n, [c] + rest)
    case BadWord(g, n, word, k, c) => Lead(g, n, FormText(word)[..Min(k, |FormText(word)|)] + ([c] + rest))
    case BadNumber(g, n, text, c) => Lead(g, n, text + ([c] + rest))
    case BadString(g, n, glyphs, e) => Lead(g, n, [34] + (GlyphsText(glyphs) + EscapeText(e, rest)))
    case BadComment(g, c) => GapText(g) + ([47] + ([c] + rest))
    case NoName(h, g, c) => HeadText(h, GapText(g) + ([c] + rest))
    case BadName(h, g, glyphs, e) => HeadText(h, GapText(g) + ([34] + (GlyphsText(glyphs) + EscapeText(e, rest))))
    case NoColon(h, g, name, colon, c) => HeadText(h, GapText(g) + NameText(name, GapText(colon) + ([c] + rest)))
    case NoSeparator(slot, c) => SlotText(slot) + ([c] + rest)
  }

  function Min(a: nat, b: nat): nat {
    if a < b then a else b
  }

  // ----- what is well formed -----

  predicate GoodHead(dec: JP.DecimalText, h: Head, level: nat) {
    match h
    case ArrayHead(g, _, elems) =>
      GoodGap(g) &&
      forall i :: 0 <= i < |elems| ==>
                    GoodSlot(dec, elems[i]) && level + 1 + Depth(SlotMeaning(dec, elems[i])) < JP.MAX_DEPTH
    case ObjectHead(g, _, fields) =>
      GoodGap(g) &&
      forall i :: 0 <= i < |fields| ==>
                    GoodField(dec, fields[i]) && level + 1 + Depth(FieldMeaning(dec, fields[i]).val) < JP.MAX_DEPTH
  }

  predicate GoodOpening(dec: JP.DecimalText, o: Opening, level: nat) {
    GoodHead(dec, o.head, level) && GoodGap(o.gap) && GoodGlyphs(o.name) && GoodGap(o.colon)
  }

  predicate GoodEscape(e: Escape) {
    match e
    case BadLetter(c) => c !in LETTERS && c != 117
    case BadDigit(digits, c) =>
      |digits| < 4 && (forall i :: 0 <= i < |digits| ==> DigitOf(digits[i]) < 16) && DigitOf(c) == 16
    case ZeroUnit => true
  }

  /** Characters no value begins with. */
  predicate BeginsNoValue(c: byte) {
    Plain(c) && !IsDigit(c) && c !in [0, 34, 45, 91, 102, 110, 116, 123]
  }

  /** What is wrong at a place inside these containers is not something else. */
  predicate Wrong(dec: JP.DecimalText, os: seq<Opening>, f: Fault) {
    match f
    case NoValue(g, n, c) =>
      GoodGap(g) && BeginsNoValue(c) && (c == 93 && n == 0 ==> os == [] || os[|os| - 1].head.ObjectHead?)
    case BadWord(g, n, word, k, c) =>
      GoodGap(g) && (word.NullForm? || word.BoolForm?) && 0 < k < |FormText(word)| && c != FormText(word)[k]
    case BadNumber(g, n, t, c) =>
      && GoodGap(g) && t != [] && (IsDigit(t[0]) || t[0] == 45) && Numeric(t) && !GoodNumber(dec, t)
      && !JP.IsNumeric(c)
    case BadString(g, n, glyphs, e) => GoodGap(g) && GoodGlyphs(glyphs) && GoodEscape(e)
    case BadComment(g, c) => GoodGap(g) && c != 42 && c != 47
    case NoName(h, g, c) =>
      h.ObjectHead? && GoodHead(dec, h, |os|) && GoodGap(g) && Plain(c) && c != 34 && c != 125
    case BadName(h, g, glyphs, e) =>
      h.ObjectHead? && GoodHead(dec, h, |os|) && GoodGap(g) && GoodGlyphs(glyphs) && GoodEscape(e)
    case NoColon(h, g, name, colon, c) =>
      h.ObjectHead? && GoodHead(dec, h, |os|) && GoodGap(g) && GoodGlyphs(name) && GoodGap(colon) && Plain(c) && c != 58
    case NoSeparator(slot, c) =>
      && os != [] && GoodSlot(dec, slot) && |os| + Depth(SlotMeaning(dec, slot)) < JP.MAX_DEPTH
      && Plain(c) && (slot.after == [] ==> Clear(slot.form, [c]))
      && c != 44 && c != if os[|os| - 1].head.ArrayHead? then 93 else 125
  }

  /** The error that belongs to it. */
  function ErrorOf(os: seq<Opening>, f: Fault): JP.Error {
    match f
    case NoValue(_, _, _) => JP.ParseUnexpected
    case BadWord(_, _, word, _, _) => if word.NullForm? then JP.ParseNull else JP.ParseBool
    case BadNumber(_, _, text, _) => if Fractional(text) then JP.ParseDecimal else JP.ParseInt
    case BadString(_, _, _, _) => JP.ParseEscape
    case BadComment(_, _) => JP.ParseComment
    case NoName(_, _, _) => JP.ParsePropName
    case BadName(_, _, _, _) => JP.ParseEscape
    case NoColon(_, _, _, _, _) => JP.ParsePropName
    case NoSeparator(_, _) =>
      if os != [] && os[|os| - 1].head.ArrayHead? then JP.ParseArray else JP.ParseValueSep
  }

  // ----- going on to where it happens -----

  predicate Fails(dec: JP.DecimalText, p: JP.Parser, s: seq<byte>, e: JP.Error) {
    JP.Live(p) && JP.Feed(dec, p, s).Failed? && JP.Feed(dec, p, s).error == e
  }

  lemma FailsOn(dec: JP.DecimalText, p: JP.Parser, s: seq<byte>, heard: seq<Event>, q: JP.Parser, rest: seq<byte>,
                e: JP.Error)
    requires Moves(dec, p, s, heard, q, rest) && Fails(dec, q, rest, e)
    ensures Fails(dec, p, s, e)
  {
  }

  /** The switch refuses the next character. */
  lemma FailsHere(dec: JP.DecimalText, p: JP.Parser, s: seq<byte>, e: JP.Error)
    requires JP.Live(p) && s != [] && JP.Once(dec, p, s[0]).Bad? && JP.Once(dec, p, s[0]).error == e
    ensures Fails(dec, p, s, e)
  {
    hide JP.Once;
    OnceCounted(dec, p, s[0]);
  }

  /** Where a value may begin: at the start of a document, or inside a container. */
  predicate AtValue(p: JP.Parser) {
    Eating(p) && p.top.saved in [JP.Start, JP.ArrayState, JP.ObjValue] && |Inner(p)| < JP.MAX_DEPTH
  }

  /** The records below that value. */
  function Inner(p: JP.Parser): seq<JP.StackRec> {
    if p.top.saved == JP.Start then p.below
    else p.below + [if p.top.saved == JP.ArrayState then ARRAY_BELOW else OBJECT_BELOW]
  }

  /** A plain character of a value opens its level. */
  lemma ValueOpens(dec: JP.DecimalText, p: JP.Parser, s: seq<byte>) returns (q: JP.Parser)
    requires AtValue(p) && s != [] && Plain(s[0]) && (s[0] == 93 ==> p.top.saved != JP.ArrayState)
    ensures JP.Live(q) && q.top.state == JP.Start && q.below == Inner(p) && Moves(dec, p, s, [], q, s)
  {
    hide JP.Feed, JP.Once;
    if p.top.saved == JP.Start {
      q := Enters(dec, p, s);
    } else {
      var r := LevelOpens(dec, p, s);
      q := Enters(dec, r, s);
      Quietly(dec, p, s, r, s, [], q, s);
    }
  }

  lemma LeadFeeds(dec: JP.DecimalText, p: JP.Parser, g: Gap, n: nat, rest: seq<byte>) returns (q: JP.Parser)
    requires AtValue(p) && GoodGap(g) && rest != [] && Plain(rest[0])
    requires rest[0] == 93 && n == 0 ==> p.top.saved != JP.ArrayState
    ensures JP.Live(q) && q.top.state == JP.Start && q.below == Inner(p)
    ensures Moves(dec, p, Lead(g, n, rest), [], q, rest)
  {
    hide JP.Feed, JP.Once;
    var t := Nuls(n) + rest;
    assert t[0] == if n > 0 then 0 else rest[0];
    var r := GapFeeds(dec, p, g, t);
    var u := ValueOpens(dec, r, t);
    q := NulsFeed(dec, u, n, rest);
    Quietly(dec, p, Lead(g, n, rest), r, t, [], u, t);
    Quietly(dec, p, Lead(g, n, rest), u, t, [], q, rest);
  }

  lemma {:induction false} ElemsPass(dec: JP.DecimalText, p: JP.Parser, elems: seq<Slot>, rest: seq<byte>)
    returns (heard: seq<Event>, q: JP.Parser)
    requires JP.Live(p) && p.top == JP.StackRec(JP.EatWhitespace, JP.ArrayState)
    requires GoodHead(dec, ArrayHead([], 0, elems), |p.below|)
    ensures q.top == p.top && q.below == p.below && Moves(dec, p, ElemsText(elems) + rest, heard, q, rest)
    decreases |elems|
  {
    hide JP.Feed, JP.Once;
    if elems == [] {
      heard, q := [], p;
      Stays(dec, p, rest);
      assert ElemsText(elems) + rest == rest;
    } else {
      var t := ElemsText(elems[1..]) + rest;
      Commas(SlotText(elems[0]), ElemsText(elems[1..]), rest);
      var r := ElemFeeds(dec, p, elems[0], 44, t);
      var more;
      more, q := ElemsPass(dec, r, elems[1..], rest);
      var e := Visit(SlotMeaning(dec, elems[0])) + [];
      heard := e + more;
      MovesOn(dec, p, ElemsText(elems) + rest, e, r, t, more, q, rest);
    }
  }

  lemma {:induction false} FieldsPass(dec: JP.DecimalText, p: JP.Parser, fields: seq<Field>, rest: seq<byte>)
    returns (heard: seq<Event>, q: JP.Parser)
    requires JP.Live(p) && p.top == JP.StackRec(JP.EatWhitespace, JP.ObjFieldStart)
    requires GoodHead(dec, ObjectHead([], 0, fields), |p.below|)
    ensures q.top == p.top && q.below == p.below && Moves(dec, p, FieldsText(fields) + rest, heard, q, rest)
    decreases |fields|
  {
    hide JP.Feed, JP.Once;
    if fields == [] {
      heard, q := [], p;
      Stays(dec, p, rest);
      assert FieldsText(fields) + rest == rest;
    } else {
      var v, t := FieldMeaning(dec, fields[0]), FieldsText(fields[1..]) + rest;
      Commas(FieldText(fields[0]), FieldsText(fields[1..]), rest);
      var r := FieldThenFeeds(dec, p, fields[0], 44, t);
      var more;
      more, q := FieldsPass(dec, r, fields[1..], rest);
      var e := [PropName(v.name)] + Visit(v.val) + [];
      heard := e + more;
      MovesOn(dec, p, FieldsText(fields) + rest, e, r, t, more, q, rest);
    }
  }

  lemma HeadFeeds(dec: JP.DecimalText, p: JP.Parser, h: Head, rest: seq<byte>)
    returns (heard: seq<Event>, q: JP.Parser)
    requires AtValue(p) && GoodHead(dec, h, |Inner(p)|)
    ensures Eating(q) && q.top.saved == if h.ArrayHead? then JP.ArrayState else JP.ObjFieldStart
    ensures q.below == Inner(p) && Moves(dec, p, HeadText(h, rest), heard, q, rest)
  {
    hide JP.Feed, JP.Once;
    var c: byte := if h.ArrayHead? then 91 else 123;
    var inside := (if h.ArrayHead? then ElemsText(h.elems) else FieldsText(h.fields)) + rest;
    var s := HeadText(h, rest);
    var r := LeadFeeds(dec, p, h.before, h.nuls, [c] + inside);
    var u := ContainerOpens(dec, r, c, inside);
    var begun := [if c == 91 then BeginArray else BeginObject];
    Quietly(dec, p, s, r, [c] + inside, begun, u, inside);
    var more;
    if h.ArrayHead? {
      more, q := ElemsPass(dec, u, h.elems, rest);
    } else {
      more, q := FieldsPass(dec, u, h.fields, rest);
    }
    heard := begun + more;
    MovesOn(dec, p, s, begun, u, inside, more, q, rest);
  }

  /** An object up to behind its next name. */
  lemma NamedFeeds(dec: JP.DecimalText, p: JP.Parser, h: Head, g: Gap, name: seq<Glyph>, rest: seq<byte>)
    returns (heard: seq<Event>, q: JP.Parser)
    requires AtValue(p) && GoodHead(dec, h, |Inner(p)|) && h.ObjectHead? && GoodGap(g) && GoodGlyphs(name)
    ensures Eating(q) && q.top.saved == JP.ObjFieldEnd && q.below == Inner(p)
    ensures Moves(dec, p, HeadText(h, GapText(g) + NameText(name, rest)), heard, q, rest)
  {
    hide JP.Feed, JP.Once;
    var t1 := NameText(name, rest);
    var t := GapText(g) + t1;
    var begun, r := HeadFeeds(dec, p, h, t);
    var u := GapFeeds(dec, r, g, t1);
    q := NameFeeds(dec, u, name, rest);
    var e := [PropName(GlyphsBytes(name))];
    ThenQuietly(dec, p, HeadText(h, t), begun, r, t, u, t1);
    heard := begun + e;
    MovesOn(dec, p, HeadText(h, t), begun, u, t1, e, q, rest);
  }

  lemma OpeningFeeds(dec: JP.DecimalText, p: JP.Parser, o: Opening, rest: seq<byte>)
    returns (heard: seq<Event>, q: JP.Parser)
    requires AtValue(p) && GoodOpening(dec, o, |Inner(p)|) && |Inner(p)| + 1 < JP.MAX_DEPTH
    ensures AtValue(q) && |Inner(q)| == |Inner(p)| + 1 && Moves(dec, p, OpeningText(o, rest), heard, q, rest)
    ensures q.top.saved == if o.head.ArrayHead? then JP.ArrayState else JP.ObjValue
  {
    hide JP.Feed, JP.Once;
    if o.head.ArrayHead? {
      heard, q := HeadFeeds(dec, p, o.head, rest);
    } else {
      var t := GapText(o.colon) + ([58] + rest);
      var r;
      heard, r := NamedFeeds(dec, p, o.head, o.gap, o.name, t);
      q := ColonFeeds(dec, r, o.colon, rest);
      ThenQuietly(dec, p, OpeningText(o, rest), heard, r, t, q, rest);
    }
  }

  /** The innermost container is the one these openings say. */
  predicate Inside(p: JP.Parser, os: seq<Opening>) {
    && AtValue(p) && |Inner(p)| == |os|
    && p.top.saved == if os == [] then JP.Start else if os[|os| - 1].head.ArrayHead? then JP.ArrayState else JP.ObjValue
  }

  predicate GoodOpenings(dec: JP.DecimalText, os: seq<Opening>) {
    |os| < JP.MAX_DEPTH && forall i :: 0 <= i < |os| ==> GoodOpening(dec, os[i], i)
  }

  /** From inside the first k openings to inside all of them. */
  lemma {:induction false} OpeningsFeed(dec: JP.DecimalText, p: JP.Parser, os: seq<Opening>, k: nat, rest: seq<byte>)
    returns (heard: seq<Event>, q: JP.Parser)
    requires k <= |os| && Inside(p, os[..k]) && GoodOpenings(dec, os)
    ensures Inside(q, os) && Moves(dec, p, OpeningsText(os[k..], rest), heard, q, rest)
    decreases |os| - k
  {
    hide JP.Feed, JP.Once, OpeningText, GoodHead, Inner;
    if k == |os| {
      heard, q := [], p;
      assert os[..k] == os;
      Stays(dec, p, rest);
    } else {
      var t := OpeningsText(os[k + 1..], rest);
      assert os[k..][1..] == os[k + 1..] && os[..k + 1][k] == os[k];
      var begun, r := OpeningFeeds(dec, p, os[k], t);
      var more;
      more, q := OpeningsFeed(dec, r, os, k + 1, rest);
      heard := begun + more;
      MovesOn(dec, p, OpeningsText(os[k..], rest), begun, r, t, more, q, rest);
    }
  }

  // ----- each fault -----

  lemma NoValueFails(dec: JP.DecimalText, p: JP.Parser, os: seq<Opening>, f: Fault, rest: seq<byte>)
    requires Inside(p, os) && f.NoValue? && Wrong(dec, os, f)
    ensures Fails(dec, p, FaultText(f, rest), JP.ParseUnexpected)
  {
    hide JP.Feed;
    var t := [f.c] + rest;
    var q := LeadFeeds(dec, p, f.before, f.nuls, t);
    FailsHere(dec, q, t, JP.ParseUnexpected);
    FailsOn(dec, p, FaultText(f, rest), [], q, t, JP.ParseUnexpected);
  }

  function WordError(p: JP.Parser): JP.Error {
    if p.top.state == JP.NullState then JP.ParseNull else JP.ParseBool
  }

  /** The next letter of a word with more to come, and any other. */
  lemma WordGoesOn(dec: JP.DecimalText, p: JP.Parser, rest: seq<byte>) returns (q: JP.Parser)
    requires InWord(p) && |WordLeft(p)| > 1
    ensures InWord(q) && WordLeft(q) == WordLeft(p)[1..] && WordError(q) == WordError(p)
    ensures Moves(dec, p, [WordLeft(p)[0]] + rest, [], q, rest)
  {
    hide JP.Feed;
    WordTurn(dec, p);
    q := Takes(dec, p, WordLeft(p)[0], rest);
    WordSame(JP.Once(dec, p, WordLeft(p)[0]).p, q);
  }

  lemma WordRefuses(dec: JP.DecimalText, p: JP.Parser, c: byte)
    requires InWord(p) && c != WordLeft(p)[0]
    ensures JP.Once(dec, p, c).Bad? && JP.Once(dec, p, c).error == WordError(p)
  {
  }

  lemma {:induction false} WordFails(dec: JP.DecimalText, p: JP.Parser, k: nat, c: byte, rest: seq<byte>)
    requires InWord(p) && k < |WordLeft(p)| && c != WordLeft(p)[k]
    ensures Fails(dec, p, WordLeft(p)[..k] + ([c] + rest), WordError(p))
    decreases k
  {
    hide JP.Feed, JP.Once, WordLeft, WordError;
    var left, t := WordLeft(p), [c] + rest;
    if k == 0 {
      assert left[..0] + t == t;
      WordRefuses(dec, p, c);
      FailsHere(dec, p, t, WordError(p));
    } else {
      var more := left[1..k] + t;
      assert left[..k] + t == [left[0]] + more;
      var r := WordGoesOn(dec, p, more);
      assert WordLeft(r)[..k - 1] == left[1..k];
      WordFails(dec, r, k - 1, c, rest);
      FailsOn(dec, p, left[..k] + t, [], r, more, WordError(p));
    }
  }

  lemma BadWordFails(dec: JP.DecimalText, p: JP.Parser, os: seq<Opening>, f: Fault, rest: seq<byte>)
    requires Inside(p, os) && f.BadWord? && Wrong(dec, os, f)
    ensures Fails(dec, p, FaultText(f, rest), ErrorOf(os, f))
  {
    hide JP.Feed, JP.Once;
    var word := FormText(f.word);
    var t := word[..f.k] + ([f.c] + rest);
    assert t[0] == word[0];
    var q := LeadFeeds(dec, p, f.before, f.nuls, t);
    var r := WordStarts(dec, q, t);
    WordFails(dec, r, f.k, f.c, rest);
    FailsOn(dec, q, t, [], r, t, ErrorOf(os, f));
    FailsOn(dec, p, FaultText(f, rest), [], q, t, ErrorOf(os, f));
  }

  lemma BadNumberFails(dec: JP.DecimalText, p: JP.Parser, os: seq<Opening>, f: Fault, rest: seq<byte>)
    requires Inside(p, os) && f.BadNumber? && Wrong(dec, os, f)
    ensures Fails(dec, p, FaultText(f, rest), ErrorOf(os, f))
  {
    hide JP.Feed;
    var t1 := [f.c] + rest;
    var t := f.text + t1;
    var q := LeadFeeds(dec, p, f.before, f.nuls, t);
    var r := NumberStarts(dec, q, t);
    var u := NumberFeeds(dec, r, f.text, t1);
    assert [] + f.text == f.text;
    NumberError(dec, u, f.c);
    FailsHere(dec, u, t1, ErrorOf(os, f));
    FailsOn(dec, r, t, [], u, t1, ErrorOf(os, f));
    FailsOn(dec, q, t, [], r, t, ErrorOf(os, f));
    FailsOn(dec, p, FaultText(f, rest), [], q, t, ErrorOf(os, f));
  }

  lemma NumberError(dec: JP.DecimalText, p: JP.Parser, c: byte)
    requires JP.Live(p) && p.top.state == JP.Number && !JP.IsNumeric(c) && (p.isDecimal <==> Fractional(p.str))
    requires p.str != [] && (IsDigit(p.str[0]) || p.str[0] == 45) && Numeric(p.str) && !GoodNumber(dec, p.str)
    ensures var t := JP.Once(dec, p, c);
            t.Bad? && t.error == if Fractional(p.str) then JP.ParseDecimal else JP.ParseInt
  {
    NumberTurn(dec, p, c);
  }

  /** The digits of an escape so far. */
  function Collected(digits: seq<byte>): nat {
    if digits == [] then 0
    else Collected(digits[..|digits| - 1]) + DigitOf(digits[|digits| - 1]) * JP.Place(|digits| - 1)
  }

  lemma {:induction false} DigitsFeed(dec: JP.DecimalText, p: JP.Parser, q: JP.Parser, digits: seq<byte>, k: nat,
                                      rest: seq<byte>)
    returns (r: JP.Parser)
    requires InText(p) && k <= |digits| < 4 && HexAt(q, p, k, Collected(digits[..k]))
    requires forall i :: 0 <= i < |digits| ==> DigitOf(digits[i]) < 16
    ensures HexAt(r, p, |digits|, Collected(digits)) && Moves(dec, q, digits[k..] + rest, [], r, rest)
    decreases |digits| - k
  {
    hide JP.Feed;
    if k == |digits| {
      r := q;
      assert digits[..k] == digits && digits[k..] + rest == rest;
      Stays(dec, q, rest);
    } else {
      var t := digits[k + 1..] + rest;
      assert digits[k..] + rest == [digits[k]] + t;
      assert digits[..k + 1][..k] == digits[..k] && digits[..k + 1][k] == digits[k];
      var u := HexFeeds(dec, p, q, k, Collected(digits[..k]), digits[k], t);
      r := DigitsFeed(dec, p, u, digits, k + 1, rest);
      Quietly(dec, q, digits[k..] + rest, u, t, [], r, rest);
    }
  }

  lemma DigitsFail(dec: JP.DecimalText, p: JP.Parser, q: JP.Parser, digits: seq<byte>, c: byte, rest: seq<byte>)
    requires InText(p) && HexAt(q, p, 0, 0) && |digits| < 4
    requires forall i :: 0 <= i < |digits| ==> DigitOf(digits[i]) < 16
    requires DigitOf(c) == 16 || (digits == [48, 48, 48] && c == 48)
    ensures Fails(dec, q, digits + ([c] + rest), JP.ParseEscape)
  {
    hide JP.Feed;
    var t := [c] + rest;
    assert digits[..0] == [] && digits[0..] == digits;
    var r := DigitsFeed(dec, p, q, digits, 0, t);
    if digits == [48, 48, 48] {
      assert digits[..2] == [48, 48] && digits[..2][..1] == [48];
      assert Collected([48]) == 0 && Collected([48, 48]) == 0;
    }
    FailsHere(dec, r, t, JP.ParseEscape);
    FailsOn(dec, q, digits + t, [], r, t, JP.ParseEscape);
  }

  /** In a string or a name. */
  lemma EscapeFails(dec: JP.DecimalText, p: JP.Parser, e: Escape, rest: seq<byte>)
    requires InText(p) && GoodEscape(e)
    ensures Fails(dec, p, EscapeText(e, rest), JP.ParseEscape)
  {
    hide JP.Feed;
    if e.BadLetter? {
      var q := BackslashFeeds(dec, p, [e.c] + rest);
      ShortMeans(e.c);
      FailsHere(dec, q, [e.c] + rest, JP.ParseEscape);
      FailsOn(dec, p, EscapeText(e, rest), [], q, [e.c] + rest, JP.ParseEscape);
    } else {
      var digits, c := if e.ZeroUnit? then [48, 48, 48] else e.digits, if e.ZeroUnit? then 48 else e.c;
      var t := digits + ([c] + rest);
      var q := BackslashFeeds(dec, p, [117] + t);
      var r := HexOpens(dec, p, q, t);
      DigitsFail(dec, p, r, digits, c, rest);
      FailsOn(dec, q, [117] + t, [], r, t, JP.ParseEscape);
      FailsOn(dec, p, EscapeText(e, rest), [], q, [117] + t, JP.ParseEscape);
    }
  }

  /** Good characters of a text, then a bad escape. */
  lemma GlyphsFail(dec: JP.DecimalText, p: JP.Parser, gs: seq<Glyph>, e: Escape, rest: seq<byte>)
    requires InText(p) && GoodGlyphs(gs) && GoodEscape(e)
    ensures Fails(dec, p, GlyphsText(gs) + EscapeText(e, rest), JP.ParseEscape)
  {
    var t := EscapeText(e, rest);
    var q := GlyphsFeed(dec, p, gs, t);
    EscapeFails(dec, q, e, rest);
    FailsOn(dec, p, GlyphsText(gs) + t, [], q, t, JP.ParseEscape);
  }

  lemma BadStringFails(dec: JP.DecimalText, p: JP.Parser, os: seq<Opening>, f: Fault, rest: seq<byte>)
    requires Inside(p, os) && f.BadString? && Wrong(dec, os, f)
    ensures Fails(dec, p, FaultText(f, rest), JP.ParseEscape)
  {
    hide JP.Feed, JP.Once;
    var inside := GlyphsText(f.glyphs) + EscapeText(f.escape, rest);
    var q := LeadFeeds(dec, p, f.before, f.nuls, [34] + inside);
    var r := StringOpens(dec, q, inside);
    GlyphsFail(dec, r, f.glyphs, f.escape, rest);
    FailsOn(dec, q, [34] + inside, [], r, inside, JP.ParseEscape);
    FailsOn(dec, p, FaultText(f, rest), [], q, [34] + inside, JP.ParseEscape);
  }

  lemma BadCommentFails(dec: JP.DecimalText, p: JP.Parser, os: seq<Opening>, f: Fault, rest: seq<byte>)
    requires Inside(p, os) && f.BadComment? && Wrong(dec, os, f)
    ensures Fails(dec, p, FaultText(f, rest), JP.ParseComment)
  {
    hide JP.Feed;
    var t := [f.c] + rest;
    var q := GapFeeds(dec, p, f.before, [47] + t);
    var r := Takes(dec, q, 47, t);
    FailsHere(dec, r, t, JP.ParseComment);
    FailsOn(dec, q, [47] + t, [], r, t, JP.ParseComment);
    FailsOn(dec, p, FaultText(f, rest), [], q, [47] + t, JP.ParseComment);
  }

  /** Neither a name nor the end of the object, or no colon. */
  lemma PlaceFails(dec: JP.DecimalText, p: JP.Parser, s: seq<byte>)
    requires Eating(p) && s != [] && Plain(s[0])
    requires p.top.saved == JP.ObjFieldStart || p.top.saved == JP.ObjFieldEnd
    requires if p.top.saved == JP.ObjFieldStart then s[0] != 34 && s[0] != 125 else s[0] != 58
    ensures Fails(dec, p, s, JP.ParsePropName)
  {
    hide JP.Feed;
    var u := Enters(dec, p, s);
    FailsHere(dec, u, s, JP.ParsePropName);
    FailsOn(dec, p, s, [], u, s, JP.ParsePropName);
  }

  lemma NoNameFails(dec: JP.DecimalText, p: JP.Parser, os: seq<Opening>, f: Fault, rest: seq<byte>)
    requires Inside(p, os) && f.NoName? && Wrong(dec, os, f)
    ensures Fails(dec, p, FaultText(f, rest), JP.ParsePropName)
  {
    hide JP.Feed, JP.Once;
    var t := [f.c] + rest;
    var heard, q := HeadFeeds(dec, p, f.head, GapText(f.gap) + t);
    var r := GapFeeds(dec, q, f.gap, t);
    PlaceFails(dec, r, t);
    FailsOn(dec, q, GapText(f.gap) + t, [], r, t, JP.ParsePropName);
    FailsOn(dec, p, FaultText(f, rest), heard, q, GapText(f.gap) + t, JP.ParsePropName);
  }

  /** A name from its quote to a bad escape. */
  lemma NameFails(dec: JP.DecimalText, p: JP.Parser, gs: seq<Glyph>, e: Escape, rest: seq<byte>)
    requires Eating(p) && p.top.saved == JP.ObjFieldStart && GoodGlyphs(gs) && GoodEscape(e)
    ensures Fails(dec, p, [34] + (GlyphsText(gs) + EscapeText(e, rest)), JP.ParseEscape)
  {
    hide JP.Feed;
    var inside := GlyphsText(gs) + EscapeText(e, rest);
    var q := Enters(dec, p, [34] + inside);
    var r := Takes(dec, q, 34, inside);
    GlyphsFail(dec, r, gs, e, rest);
    FailsOn(dec, q, [34] + inside, [], r, inside, JP.ParseEscape);
    FailsOn(dec, p, [34] + inside, [], q, [34] + inside, JP.ParseEscape);
  }

  lemma BadNameFails(dec: JP.DecimalText, p: JP.Parser, os: seq<Opening>, f: Fault, rest: seq<byte>)
    requires Inside(p, os) && f.BadName? && Wrong(dec, os, f)
    ensures Fails(dec, p, FaultText(f, rest), JP.ParseEscape)
  {
    hide JP.Feed, JP.Once;
    var t := [34] + (GlyphsText(f.glyphs) + EscapeText(f.escape, rest));
    var heard, q := HeadFeeds(dec, p, f.head, GapText(f.gap) + t);
    var r := GapFeeds(dec, q, f.gap, t);
    NameFails(dec, r, f.glyphs, f.escape, rest);
    FailsOn(dec, q, GapText(f.gap) + t, [], r, t, JP.ParseEscape);
    FailsOn(dec, p, FaultText(f, rest), heard, q, GapText(f.gap) + t, JP.ParseEscape);
  }

  lemma NoColonFails(dec: JP.DecimalText, p: JP.Parser, os: seq<Opening>, f: Fault, rest: seq<byte>)
    requires Inside(p, os) && f.NoColon? && Wrong(dec, os, f)
    ensures Fails(dec, p, FaultText(f, rest), JP.ParsePropName)
  {
    hide JP.Feed, JP.Once;
    var t1 := [f.c] + rest;
    var t := GapText(f.colon) + t1;
    var heard, q := NamedFeeds(dec, p, f.head, f.gap, f.name, t);
    var r := GapFeeds(dec, q, f.colon, t1);
    PlaceFails(dec, r, t1);
    FailsOn(dec, q, t, [], r, t1, JP.ParsePropName);
    FailsOn(dec, p, FaultText(f, rest), heard, q, t, JP.ParsePropName);
  }

  /** A plain character after a value inside a container that goes on with neither comma nor end. */
  lemma SeparatorFails(dec: JP.DecimalText, p: JP.Parser, below: seq<JP.StackRec>, isArray: bool, s: seq<byte>)
    requires Ended(p, below + [if isArray then ARRAY_BELOW else OBJECT_BELOW]) && s != [] && Plain(s[0])
    requires s[0] != 44 && s[0] != if isArray then 93 else 125
    ensures Fails(dec, p, s, if isArray then JP.ParseArray else JP.ParseValueSep)
  {
    hide JP.Feed;
    var q := Pops(dec, p, below, if isArray then ARRAY_BELOW else OBJECT_BELOW, s);
    if isArray {
      FailsHere(dec, q, s, JP.ParseArray);
      FailsOn(dec, p, s, [], q, s, JP.ParseArray);
    } else {
      var r := Enters(dec, q, s);
      FailsHere(dec, r, s, JP.ParseValueSep);
      FailsOn(dec, q, s, [], r, s, JP.ParseValueSep);
      FailsOn(dec, p, s, [], q, s, JP.ParseValueSep);
    }
  }

  lemma NoSeparatorFails(dec: JP.DecimalText, p: JP.Parser, os: seq<Opening>, f: Fault, rest: seq<byte>)
    requires Inside(p, os) && f.NoSeparator? && Wrong(dec, os, f)
    ensures Fails(dec, p, FaultText(f, rest), ErrorOf(os, f))
  {
    hide JP.Feed, JP.Once;
    var t := [f.c] + rest;
    var q := ValueFeeds(dec, p, f.slot, t);
    SeparatorFails(dec, q, p.below, os[|os| - 1].head.ArrayHead?, t);
    FailsOn(dec, p, FaultText(f, rest), Visit(SlotMeaning(dec, f.slot)), q, t, ErrorOf(os, f));
  }

  /** A fault at the place the parser is at. */
  lemma FaultFails(dec: JP.DecimalText, p: JP.Parser, os: seq<Opening>, f: Fault, rest: seq<byte>)
    requires Inside(p, os) && Wrong(dec, os, f)
    ensures Fails(dec, p, FaultText(f, rest), ErrorOf(os, f))
  {
    hide JP.Feed, JP.Once, FaultText, Wrong, Fails, Inside;
    match f {
      case NoValue(_, _, _) => NoValueFails(dec, p, os, f, rest);
      case BadWord(_, _, _, _, _) => BadWordFails(dec, p, os, f, rest);
      case BadNumber(_, _, _, _) => BadNumberFails(dec, p, os, f, rest);
      case BadString(_, _, _, _) => BadStringFails(dec, p, os, f, rest);
      case BadComment(_, _) => BadCommentFails(dec, p, os, f, rest);
      case NoName(_, _, _) => NoNameFails(dec, p, os, f, rest);
      case BadName(_, _, _, _) => BadNameFails(dec, p, os, f, rest);
      case NoColon(_, _, _, _, _) => NoColonFails(dec, p, os, f, rest);
      case NoSeparator(_, _) => NoSeparatorFails(dec, p, os, f, rest);
    }
  }

  /** Wherever in a document something goes wrong, the parser fails with the error for it, whatever follows. */
  lemma RefusedFrom(dec: JP.DecimalText, p: JP.Parser, os: seq<Opening>, f: Fault, tail: seq<byte>)
    requires JP.Live(p) && p.top == JP.RESET && p.below == [] && GoodOpenings(dec, os) && Wrong(dec, os, f)
    ensures Fails(dec, p, OpeningsText(os, FaultText(f, tail)), ErrorOf(os, f))
  {
    var t := FaultText(f, tail);
    assert os[..0] == [] && os[0..] == os;
    var heard, q := OpeningsFeed(dec, p, os, 0, t);
    FaultFails(dec, q, os, f, tail);
    FailsOn(dec, p, OpeningsText(os, t), heard, q, t, ErrorOf(os, f));
  }

  lemma RefusedWith(dec: JP.DecimalText, os: seq<Opening>, f: Fault, tail: seq<byte>)
    requires GoodOpenings(dec, os) && Wrong(dec, os, f)
    ensures JP.Parse(dec, OpeningsText(os, FaultText(f, tail))) == JP.Err(ErrorOf(os, f))
  {
    hide JP.Switch, JP.Once;
    var s := OpeningsText(os, FaultText(f, tail));
    RefusedFrom(dec, JP.FRESH, os, f, tail);
    ParseIs(dec, s);
    JP.FeedConcat(dec, JP.FRESH, s, [0]);
  }

  /** A text that ends where a value may begin is refused as unfinished. */
  lemma UnfinishedText(dec: JP.DecimalText, os: seq<Opening>, g: Gap)
    requires GoodOpenings(dec, os) && GoodGap(g)
    ensures JP.Parse(dec, OpeningsText(os, GapText(g))) == JP.Err(JP.ParseEof)
  {
    hide JP.Feed, JP.Switch, JP.Once, JP.Parse;
    var s := OpeningsText(os, GapText(g));
    assert os[..0] == [] && os[0..] == os && GapText(g) + [] == GapText(g);
    var heard, q := OpeningsFeed(dec, JP.FRESH, os, 0, GapText(g));
    var r := GapFeeds(dec, q, g, []);
    ThenQuietly(dec, JP.FRESH, s, heard, q, GapText(g), r, []);
    EmptyMore(dec, r);
    NulPasses(dec, r);
    JP.FeedConcat(dec, JP.FRESH, s, [0]);
    ParseIs(dec, s);
  }

  lemma NulPasses(dec: JP.DecimalText, p: JP.Parser)
    requires AtValue(p)
    ensures JP.Feed(dec, p, [0]).More?
  {
    hide JP.Feed, JP.Switch, JP.Once;
    var q := ValueOpens(dec, p, [0]);
    var r := NulsFeed(dec, q, 1, []);
    assert Nuls(1) + [] == [0];
    EmptyMore(dec, r);
  }

  lemma EmptyMore(dec: JP.DecimalText, p: JP.Parser)
    requires JP.Live(p)
    ensures JP.Feed(dec, p, []) == JP.More(p, [])
  {
  }
}
