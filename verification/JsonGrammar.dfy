/** Which texts the JSON parser accepts, and what it hears of them (MojJsonParser). */
module JsonGrammars {
  import opened Bytes
  import opened Numbers
  import opened Values
  import JP = JsonParsers

  // ----- the grammar -----

  /** White space, or a comment of either kind. */
  datatype Filler = Blank(c: byte) | Block(text: seq<byte>) | Line(text: seq<byte>)

  type Gap = seq<Filler>

  /** One character of a string: as it is, behind a backslash, or by its four hexadecimal digits. */
  datatype Glyph = Raw(c: byte) | Short(c: byte) | Unit(h0: byte, h1: byte, h2: byte, h3: byte)

  datatype Form =
    | NullForm
    | BoolForm(b: bool)
    | NumberForm(text: seq<byte>)
    | StringForm(glyphs: seq<Glyph>)
    | ArrayForm(elems: Elems)
    | ObjectForm(fields: Fields)

  /** A value with what stands around it; the parser passes over NULs right before a value. */
  datatype Slot = Slot(before: Gap, nuls: nat, form: Form, after: Gap)

  /** The inside of an array; a comma may come last. */
  datatype Elems = NoElem(gap: Gap) | LastElem(slot: Slot) | ElemThen(slot: Slot, more: Elems)

  datatype Field = Field(before: Gap, name: seq<Glyph>, colon: Gap, slot: Slot)

  /** The inside of an object; a comma may come last. */
  datatype Fields = NoField(gap: Gap) | LastField(field: Field) | FieldThen(field: Field, more: Fields)

  // ----- the text -----

  function FillerText(f: Filler): seq<byte> {
    match f
    case Blank(c) => [c]
    case Block(text) => [47, 42] + text + [42, 47]
    case Line(text) => [47, 47] + text + [10]
  }

  function GapText(g: Gap): seq<byte> {
    if g == [] then [] else FillerText(g[0]) + GapText(g[1..])
  }

  function GlyphText(g: Glyph): seq<byte> {
    match g
    case Raw(c) => [c]
    case Short(c) => [92, c]
    case Unit(h0, h1, h2, h3) => [92, 117, h0, h1, h2, h3]
  }

  function GlyphsText(gs: seq<Glyph>): seq<byte> {
    if gs == [] then [] else GlyphText(gs[0]) + GlyphsText(gs[1..])
  }

  function Nuls(n: nat): seq<byte> {
    if n == 0 then [] else [0] + Nuls(n - 1)
  }

  function FormText(f: Form): seq<byte>
    decreases f, 0
  {
    match f
    case NullForm => [110, 117, 108, 108]
    case BoolForm(b) => if b then [116, 114, 117, 101] else [102, 97, 108, 115, 101]
    case NumberForm(text) => text
    case StringForm(glyphs) => [34] + GlyphsText(glyphs) + [34]
    case ArrayForm(elems) => [91] + ArrayInside(elems) + [93]
    case ObjectForm(fields) => [123] + ObjectInside(fields) + [125]
  }

  function SlotText(s: Slot): seq<byte>
    decreases s, 1
  {
    GapText(s.before) + (Nuls(s.nuls) + (FormText(s.form) + GapText(s.after)))
  }

  function ArrayInside(e: Elems): seq<byte>
    decreases e, 0
  {
    match e
    case NoElem(gap) => GapText(gap)
    case LastElem(slot) => SlotText(slot)
    case ElemThen(slot, more) => SlotText(slot) + ([44] + ArrayInside(more))
  }

  /** A name, its colon and its value. */
  function FieldText(f: Field): seq<byte>
    decreases f, 1
  {
    GapText(f.before) + ([34] + (GlyphsText(f.name) + ([34] + (GapText(f.colon) + ([58] + SlotText(f.slot))))))
  }

  function ObjectInside(fs: Fields): seq<byte>
    decreases fs, 0
  {
    match fs
    case NoField(gap) => GapText(gap)
    case LastField(field) => FieldText(field)
    case FieldThen(field, more) => FieldText(field) + ([44] + ObjectInside(more))
  }

  // ----- what is well formed -----

  /** Space, tab, newline, vertical tab, form feed, carriage return. */
  const BLANKS: seq<byte> := [32, 9, 10, 11, 12, 13]

  /** A block comment ends at the first star and slash, a line comment at the first newline. */
  predicate GoodFiller(f: Filler) {
    match f
    case Blank(c) => c in BLANKS
    case Block(text) => forall i :: 0 <= i < |text| - 1 ==> !(text[i] == 42 && text[i + 1] == 47)
    case Line(text) => 10 !in text
  }

  predicate GoodGap(g: Gap) {
    forall i :: 0 <= i < |g| ==> GoodFiller(g[i])
  }

  /** The letters behind a backslash, and the characters they stand for. */
  const LETTERS: seq<byte> := [34, 92, 47, 98, 102, 110, 114, 116]
  const MEANT: seq<byte> := [34, 92, 47, 8, 12, 10, 13, 9]

  function CodeUnit(g: Glyph): nat
    requires g.Unit?
  {
    DigitOf(g.h0) * 0x1000 + DigitOf(g.h1) * 0x100 + DigitOf(g.h2) * 0x10 + DigitOf(g.h3)
  }

  predicate GoodGlyph(g: Glyph) {
    match g
    case Raw(c) => c != 34 && c != 92
    case Short(c) => c in LETTERS
    case Unit(h0, h1, h2, h3) =>
      DigitOf(h0) < 16 && DigitOf(h1) < 16 && DigitOf(h2) < 16 && DigitOf(h3) < 16 && CodeUnit(g) != 0
  }

  predicate GoodGlyphs(gs: seq<Glyph>) {
    forall i :: 0 <= i < |gs| ==> GoodGlyph(gs[i])
  }

  predicate Fractional(t: seq<byte>) {
    46 in t || 101 in t || 69 in t
  }

  /** Digits, signs, points and exponents, beginning with a digit or minus; and the number they make is accepted. */
  predicate GoodNumber(dec: JP.DecimalText, t: seq<byte>) {
    && t != [] && (IsDigit(t[0]) || t[0] == 45)
    && (forall i :: 0 <= i < |t| ==> IsDigit(t[i]) || t[i] in [43, 45, 46, 69, 101])
    && if Fractional(t) then dec(t).Some? else StrToInt64(t).1 == |t|
  }

  predicate GoodForm(dec: JP.DecimalText, f: Form)
    decreases f, 0
  {
    match f
    case NumberForm(text) => GoodNumber(dec, text)
    case StringForm(glyphs) => GoodGlyphs(glyphs)
    case ArrayForm(elems) => GoodElems(dec, elems)
    case ObjectForm(fields) => GoodFields(dec, fields)
    case _ => true
  }

  predicate GoodSlot(dec: JP.DecimalText, s: Slot)
    decreases s, 1
  {
    GoodGap(s.before) && GoodForm(dec, s.form) && GoodGap(s.after)
  }

  predicate GoodElems(dec: JP.DecimalText, e: Elems)
    decreases e, 0
  {
    match e
    case NoElem(gap) => GoodGap(gap)
    case LastElem(slot) => GoodSlot(dec, slot)
    case ElemThen(slot, more) => GoodSlot(dec, slot) && GoodElems(dec, more)
  }

  predicate GoodField(dec: JP.DecimalText, f: Field)
    decreases f, 2
  {
    GoodGap(f.before) && GoodGlyphs(f.name) && GoodGap(f.colon) && GoodSlot(dec, f.slot)
  }

  predicate GoodFields(dec: JP.DecimalText, fs: Fields)
    decreases fs, 0
  {
    match fs
    case NoField(gap) => GoodGap(gap)
    case LastField(field) => GoodField(dec, field)
    case FieldThen(field, more) => GoodField(dec, field) && GoodFields(dec, more)
  }

  // ----- what it means -----

  function GlyphBytes(g: Glyph): seq<byte>
    requires GoodGlyph(g)
  {
    match g
    case Raw(c) => [c]
    case Short(c) => [MEANT[Place(LETTERS, c)]]
    case Unit(_, _, _, _) => JP.Utf8(CodeUnit(g))
  }

  function Place(s: seq<byte>, c: byte): (i: nat)
    requires c in s
    ensures i < |s| && s[i] == c
  {
    if s[0] == c then 0 else 1 + Place(s[1..], c)
  }

  function GlyphsBytes(gs: seq<Glyph>): seq<byte>
    requires GoodGlyphs(gs)
  {
    if gs == [] then [] else GlyphBytes(gs[0]) + GlyphsBytes(gs[1..])
  }

  function Meaning(dec: JP.DecimalText, f: Form): Value
    requires GoodForm(dec, f)
    decreases f, 0
  {
    match f
    case NullForm => Null
    case BoolForm(b) => Bool(b)
    case NumberForm(text) => if Fractional(text) then Decimal(dec(text).value) else Int(StrToInt64(text).0)
    case StringForm(glyphs) => Str(GlyphsBytes(glyphs))
    case ArrayForm(elems) => Array(ElemsMeaning(dec, elems))
    case ObjectForm(fields) => Object(FieldsMeaning(dec, fields))
  }

  function SlotMeaning(dec: JP.DecimalText, s: Slot): Value
    requires GoodSlot(dec, s)
    decreases s, 1
  {
    Meaning(dec, s.form)
  }

  function ElemsMeaning(dec: JP.DecimalText, e: Elems): seq<Value>
    requires GoodElems(dec, e)
    decreases e, 0
  {
    match e
    case NoElem(_) => []
    case LastElem(slot) => [SlotMeaning(dec, slot)]
    case ElemThen(slot, more) => [SlotMeaning(dec, slot)] + ElemsMeaning(dec, more)
  }

  function FieldMeaning(dec: JP.DecimalText, f: Field): Prop
    requires GoodField(dec, f)
    decreases f, 2
  {
    Prop(GlyphsBytes(f.name), SlotMeaning(dec, f.slot))
  }

  function FieldsMeaning(dec: JP.DecimalText, fs: Fields): seq<Prop>
    requires GoodFields(dec, fs)
    decreases fs, 0
  {
    match fs
    case NoField(_) => []
    case LastField(field) => [FieldMeaning(dec, field)]
    case FieldThen(field, more) => [FieldMeaning(dec, field)] + FieldsMeaning(dec, more)
  }

  /** The two and three byte forms of section 3 of RFC 3629: lead byte, continuation bytes, and the bits they carry. */
  lemma Utf8IsRight(u: nat)
    requires u < 0x1_0000
    ensures var b := JP.Utf8(u);
            if u < 0x80 then b == [u]
            else if u < 0x800 then
              |b| == 2 && 0xc0 <= b[0] < 0xe0 && 0x80 <= b[1] < 0xc0 && u == Bits(b[0], 0xc0, 64) + Bits(b[1], 0x80, 1)
            else
              && |b| == 3 && 0xe0 <= b[0] < 0xf0 && 0x80 <= b[1] < 0xc0 && 0x80 <= b[2] < 0xc0
              && u == Bits(b[0], 0xe0, 4096) + Bits(b[1], 0x80, 64) + Bits(b[2], 0x80, 1)
  {
  }

  /** What a byte carries above its mark, times its place value. */
  function Bits(b: int, mark: int, weight: int): int {
    (b - mark) * weight
  }

  // ----- how deep it is -----

  /** How deep values sit below the root; an empty container adds nothing. */
  function Depth(v: Value): nat
    decreases v, 1
  {
    match v
    case Object(props) => DepthProps(props)
    case Array(elems) => DepthElems(elems)
    case _ => 0
  }

  function Max(a: nat, b: nat): nat {
    if a < b then b else a
  }

  function DepthProps(props: seq<Prop>): nat
    decreases props, 0
  {
    if props == [] then 0 else Max(1 + Depth(props[0].val), DepthProps(props[1..]))
  }

  function DepthElems(elems: seq<Value>): nat
    decreases elems, 0
  {
    if elems == [] then 0 else Max(1 + Depth(elems[0]), DepthElems(elems[1..]))
  }

  lemma ElemsCons(v: Value, vs: seq<Value>)
    ensures VisitElems([v] + vs) == Visit(v) + VisitElems(vs) && VisitElems([v]) == Visit(v)
    ensures DepthElems([v] + vs) == Max(1 + Depth(v), DepthElems(vs)) && DepthElems([v]) == 1 + Depth(v)
  {
    assert ([v] + vs)[1..] == vs && [v][1..] == [];
  }

  lemma PropsCons(p: Prop, ps: seq<Prop>)
    ensures VisitProps([p] + ps) == [PropName(p.name)] + Visit(p.val) + VisitProps(ps)
    ensures VisitProps([p]) == [PropName(p.name)] + Visit(p.val)
    ensures DepthProps([p] + ps) == Max(1 + Depth(p.val), DepthProps(ps)) && DepthProps([p]) == 1 + Depth(p.val)
  {
    assert ([p] + ps)[1..] == ps && [p][1..] == [];
  }
}
