/** The resumable JSON parser: one character at a time over an explicit stack of states (MojJsonParser). */
module JsonParsers {
  import opened Bytes
  import opened Numbers
  import opened Values
  import opened ObjectBuilders

  datatype State =
    | EatWhitespace | Start | Finish | NullState
    | CommentStart | Comment | CommentEol | CommentEnd
    | StringState | StringEscape | EscapeUnicode
    | BoolState | Number
    | ArrayState | ArraySep
    | ObjFieldStart | ObjField | ObjFieldEnd | ObjValue | ObjSep

  datatype StackRec = StackRec(state: State, saved: State)

  const MAX_DEPTH: nat := 32

  const RESET := StackRec(EatWhitespace, Start)

  datatype Error =
    | ParseUnexpected | ParseNull | ParseComment | ParseEscape | ParseBool | ParseInt | ParseDecimal
    | ParseArray | ParsePropName | ParseValueSep | ParseMaxDepth | ParseEof

  /** The fields of the parser; `below` and `top` are its stack up to m_depth. */
  datatype Parser = Parser(
    line: nat, col: nat, strPos: nat, ucsChar: nat, matchTrue: bool, isDecimal: bool, str: seq<byte>,
    below: seq<StackRec>, top: StackRec)

  /** What MojDecimal makes of a number's text, if it accepts it. */
  type DecimalText = seq<byte> -> Option<int64>

  const NULL_TEXT: seq<byte> := [110, 117, 108, 108]
  const TRUE_TEXT: seq<byte> := [116, 114, 117, 101]
  const FALSE_TEXT: seq<byte> := [102, 97, 108, 115, 101]

  /** `begin`: line and column restart, and the current record; the depth stays. */
  function Begin(p: Parser): Parser {
    p.(line := 1, col := 1, top := RESET)
  }

  const FRESH := Begin(Parser(0, 0, 0, 0, false, false, [], [], RESET))

  predicate Finished(p: Parser) {
    p.top.state == Finish && p.below == []
  }

  /** Characters a number collects. */
  predicate IsNumeric(c: byte) {
    IsDigit(c) || c == 46 || c == 101 || c == 69 || c == 43 || c == 45
  }

  /** Two and three byte forms of a code unit below 0x10000. */
  function Utf8(u: nat): seq<byte>
    requires u < 0x1_0000
  {
    if u < 0x80 then [u]
    else if u < 0x800 then [0xc0 + u / 64, 0x80 + u % 64]
    else [0xe0 + u / 4096, 0x80 + u / 64 % 64, 0x80 + u % 64]
  }

  // ----- one pass of the switch -----

  /** After one pass: the character is used up, or the switch is entered again, or parsing stops or fails. */
  datatype Turn =
    | Used(p: Parser, heard: seq<Event>)
    | Again(p: Parser, heard: seq<Event>)
    | Halt
    | Bad(heard: seq<Event>, error: Error)

  function To(p: Parser, state: State): Parser {
    p.(top := p.top.(state := state))
  }

  /** On past white space and comments, into `saved`. */
  function Skip(p: Parser, saved: State): Parser {
    p.(top := StackRec(EatWhitespace, saved))
  }

  /** Into a state that will return to `saved`. */
  function Enter(p: Parser, state: State, saved: State): Parser {
    p.(top := StackRec(state, saved))
  }

  function Push(p: Parser): Parser {
    p.(below := p.below + [p.top], top := RESET)
  }

  function Fail(error: Error): Turn {
    Bad([], error)
  }

  function Complete(p: Parser, e: Event): Turn {
    Used(Skip(p, Finish), [e])
  }

  function OnStart(p: Parser, c: byte): Turn {
    if c == 123 then Used(Skip(p, ObjFieldStart), [BeginObject])
    else if c == 91 then Used(Skip(p, ArrayState), [BeginArray])
    else if c == 110 then Again(To(p, NullState).(strPos := 0), [])
    else if c == 34 then Used(To(p, StringState).(str := []), [])
    else if c == 116 || c == 102 then Again(To(p, BoolState).(strPos := 0, matchTrue := c == 116), [])
    else if IsDigit(c) || c == 45 then Again(To(p, Number).(str := [], isDecimal := false), [])
    else if c == 0 then Used(p, [])
    else Fail(ParseUnexpected)
  }

  function OnNull(p: Parser, c: byte): Turn
    requires p.strPos < |NULL_TEXT|
  {
    if c != NULL_TEXT[p.strPos] then Fail(ParseNull)
    else
      var q := p.(strPos := p.strPos + 1);
      if q.strPos == |NULL_TEXT| then Complete(q, NullValue) else Used(q, [])
  }

  function MatchText(p: Parser): seq<byte> {
    if p.matchTrue then TRUE_TEXT else FALSE_TEXT
  }

  function OnBool(p: Parser, c: byte): Turn
    requires p.strPos < |MatchText(p)|
  {
    if c != MatchText(p)[p.strPos] then Fail(ParseBool)
    else
      var q := p.(strPos := p.strPos + 1);
      if q.strPos == |MatchText(p)| then Complete(q, BoolValue(p.matchTrue)) else Used(q, [])
  }

  function OnNumber(dec: DecimalText, p: Parser, c: byte): Turn {
    if IsNumeric(c) then Used(p.(str := p.str + [c], isDecimal := p.isDecimal || c == 46 || c == 101 || c == 69), [])
    else if p.isDecimal then
      match dec(p.str)
      case Some(rep) => Again(Skip(p, Finish), [DecimalValue(rep)])
      case None => Fail(ParseDecimal)
    else
      var (i, end) := StrToInt64(p.str);
      if end != |p.str| then Bad([IntValue(i)], ParseInt) else Again(Skip(p, Finish), [IntValue(i)])
  }

  /** The character an escape letter stands for; 0 for none. */
  function Unescaped(c: byte): byte {
    if c == 34 || c == 92 || c == 47 then c
    else if c == 98 then 8
    else if c == 110 then 10
    else if c == 114 then 13
    else if c == 116 then 9
    else if c == 102 then 12
    else 0
  }

  function OnEscape(p: Parser, c: byte): Turn {
    if c == 117 then Used(To(p, EscapeUnicode).(ucsChar := 0, strPos := 0), [])
    else if Unescaped(c) == 0 then Fail(ParseEscape)
    else Used(To(p, p.top.saved).(str := p.str + [Unescaped(c)]), [])
  }

  /** The place value of the n-th hexadecimal digit of four: 1 << (3 - n) * 4. */
  function Place(n: nat): nat {
    if n == 0 then 0x1000 else if n == 1 then 0x100 else if n == 2 then 0x10 else 1
  }

  function OnUnicode(p: Parser, c: byte): Turn
    requires p.strPos <= 3 && p.ucsChar + 16 * Place(p.strPos) <= 0x1_0000
  {
    if DigitOf(c) == 16 then Fail(ParseEscape)
    else
      var q := p.(ucsChar := p.ucsChar + DigitOf(c) * Place(p.strPos), strPos := p.strPos + 1);
      if q.strPos < 4 then Used(q, [])
      else if q.ucsChar == 0 then Fail(ParseEscape)
      else Used(To(q, q.top.saved).(str := q.str + Utf8(q.ucsChar)), [])
  }

  /** A string or a property name in progress. */
  function OnText(p: Parser, c: byte, field: bool): Turn {
    if c == 34 then (if field then Used(Skip(p, ObjFieldEnd), [PropName(p.str)]) else Complete(p, StringValue(p.str)))
    else if c == 92 then Used(Enter(p, StringEscape, p.top.state), [])
    else Used(p.(str := p.str + [c]), [])
  }

  function OnComment(p: Parser, c: byte): Turn {
    match p.top.state
    case CommentStart =>
      if c == 42 then Used(To(p, Comment), [])
      else if c == 47 then Used(To(p, CommentEol), [])
      else Fail(ParseComment)
    case Comment => Used(if c == 42 then To(p, CommentEnd) else p, [])
    case CommentEol => Used(if c == 10 then To(p, EatWhitespace) else p, [])
    case _ => if c == 47 then Used(To(p, EatWhitespace), []) else Again(To(p, Comment), [])
  }

  function OnArray(p: Parser, c: byte): Turn {
    if c == 93 then Complete(p, EndArray)
    else if |p.below| >= MAX_DEPTH - 1 then Fail(ParseMaxDepth)
    else Again(Push(To(p, ArraySep)), [])
  }

  /** One pass of the switch. */
  function Once(dec: DecimalText, p: Parser, c: byte): Turn
    requires Live(p)
  {
    match p.top.state
    case EatWhitespace =>
      if IsSpace(c) then Used(p, [])
      else if c == 47 then Used(To(p, CommentStart), [])
      else Again(To(p, p.top.saved), [])
    case Start => OnStart(p, c)
    case Finish =>
      if p.below == [] then Halt
      else Again(p.(below := p.below[..|p.below| - 1], top := p.below[|p.below| - 1]), [])
    case NullState => OnNull(p, c)
    case StringState => OnText(p, c, false)
    case StringEscape => OnEscape(p, c)
    case EscapeUnicode => OnUnicode(p, c)
    case BoolState => OnBool(p, c)
    case Number => OnNumber(dec, p, c)
    case ArrayState => OnArray(p, c)
    case ArraySep =>
      if c == 93 then Complete(p, EndArray) else if c == 44 then Used(Skip(p, ArrayState), []) else Fail(ParseArray)
    case ObjFieldStart =>
      if c == 125 then Complete(p, EndObject)
      else if c == 34 then Used(To(p, ObjField).(str := []), [])
      else Fail(ParsePropName)
    case ObjField => OnText(p, c, true)
    case ObjFieldEnd => if c == 58 then Used(Skip(p, ObjValue), []) else Fail(ParsePropName)
    case ObjValue =>
      if |p.below| >= MAX_DEPTH - 1 then Fail(ParseMaxDepth) else Again(Push(Skip(p, ObjSep)), [])
    case ObjSep =>
      if c == 125 then Complete(p, EndObject) else if c == 44 then Used(Skip(p, ObjFieldStart), [])
          else Fail(ParseValueSep)
    case _ => OnComment(p, c)
  }

  // ----- what every state of the parser satisfies -----

  /** Where white space and comments may lead back to. */
  predicate Resumable(s: State) {
    s == Start || s == Finish || s == ArrayState || s == ObjFieldStart || s == ObjFieldEnd || s == ObjValue ||
        s == ObjSep
  }

  /** A record waiting for a value inside it. */
  predicate Parked(r: StackRec) {
    r.state == ArraySep || r == StackRec(EatWhitespace, ObjSep)
  }

  predicate LiveTop(p: Parser) {
    match p.top.state
    case EatWhitespace => Resumable(p.top.saved)
    case CommentStart => Resumable(p.top.saved)
    case Comment => Resumable(p.top.saved)
    case CommentEol => Resumable(p.top.saved)
    case CommentEnd => Resumable(p.top.saved)
    case StringEscape => p.top.saved == StringState || p.top.saved == ObjField
    case EscapeUnicode =>
      (p.top.saved == StringState || p.top.saved == ObjField) &&
      p.strPos <= 3 && p.ucsChar + 16 * Place(p.strPos) <= 0x1_0000
    case NullState => p.strPos < |NULL_TEXT|
    case BoolState => p.strPos < |MatchText(p)|
    case _ => true
  }

  predicate Live(p: Parser) {
    |p.below| < MAX_DEPTH && LiveTop(p) && forall i :: 0 <= i < |p.below| ==> Parked(p.below[i])
  }

  lemma UnicodeKeeps(p: Parser, c: byte)
    requires Live(p) && p.top.state == EscapeUnicode
    ensures TurnLive(OnUnicode(p, c))
  {
    if DigitOf(c) < 16 {
      var d := DigitOf(c);
      if p.strPos == 0 {
      } else if p.strPos == 1 {
      } else if p.strPos == 2 {
      }
    }
  }

  predicate TurnLive(t: Turn) {
    (t.Used? || t.Again? ==> Live(t.p)) && (t.Used? ==> t.p.top.state != Finish) && (t.Bad? ==> t.error != ParseEof)
  }

  lemma StartKeeps(p: Parser, c: byte)
    requires Live(p) && p.top.state == Start
    ensures TurnLive(OnStart(p, c))
  {
  }

  lemma WordKeeps(dec: DecimalText, p: Parser, c: byte)
    requires Live(p)
    ensures p.top.state == NullState ==> TurnLive(OnNull(p, c))
    ensures p.top.state == BoolState ==> TurnLive(OnBool(p, c))
    ensures p.top.state == Number ==> TurnLive(OnNumber(dec, p, c))
  {
  }

  lemma TextKeeps(p: Parser, c: byte)
    requires Live(p)
    ensures p.top.state == StringState ==> TurnLive(OnText(p, c, false))
    ensures p.top.state == ObjField ==> TurnLive(OnText(p, c, true))
  {
  }

  lemma EscapeKeeps(p: Parser, c: byte)
    requires Live(p) && p.top.state == StringEscape
    ensures TurnLive(OnEscape(p, c))
  {
  }

  lemma CommentKeeps(p: Parser, c: byte)
    requires Live(p)
    ensures p.top.state in {CommentStart, Comment, CommentEol, CommentEnd} ==> TurnLive(OnComment(p, c))
  {
  }

  lemma PushKeeps(p: Parser)
    requires Live(p) && |p.below| < MAX_DEPTH - 1 && Parked(p.top)
    ensures Live(Push(p))
  {
  }

  /** The states that may open a deeper level. */
  lemma NestKeeps(dec: DecimalText, p: Parser, c: byte)
    requires Live(p) && (p.top.state == ArrayState || p.top.state == ObjValue)
    ensures TurnLive(Once(dec, p, c))
  {
    if |p.below| < MAX_DEPTH - 1 {
      PushKeeps(To(p, ArraySep));
      PushKeeps(Skip(p, ObjSep));
    }
  }

  lemma PunctuationKeeps(dec: DecimalText, p: Parser, c: byte)
    requires Live(p) && p.top.state in {ArraySep, ObjFieldStart, ObjFieldEnd, ObjSep}
    ensures TurnLive(Once(dec, p, c))
  {
  }

  /** One pass keeps the parser live, and a character used up never leaves it at a finished value. */
  lemma OnceKeeps(dec: DecimalText, p: Parser, c: byte)
    requires Live(p)
    ensures TurnLive(Once(dec, p, c))
  {
    match p.top.state {
      case Start => StartKeeps(p, c);
      case NullState => WordKeeps(dec, p, c);
      case BoolState => WordKeeps(dec, p, c);
      case Number => WordKeeps(dec, p, c);
      case StringState => TextKeeps(p, c);
      case ObjField => TextKeeps(p, c);
      case StringEscape => EscapeKeeps(p, c);
      case EscapeUnicode => UnicodeKeeps(p, c);
      case CommentStart => CommentKeeps(p, c);
      case Comment => CommentKeeps(p, c);
      case CommentEol => CommentKeeps(p, c);
      case CommentEnd => CommentKeeps(p, c);
      case EatWhitespace =>
      case Finish =>
      case ArrayState => NestKeeps(dec, p, c);
      case ObjValue => NestKeeps(dec, p, c);
      case _ => PunctuationKeeps(dec, p, c);
    }
  }

  /** How many more passes the switch can take on one character, by the state it is in. */
  function Passes(s: State, c: byte): nat {
    match s
    case Finish => 3
    case Start => 1
    case ArrayState => 4
    case ObjValue => 4
    case CommentEnd => 1
    case Number => if IsNumeric(c) then 0 else 5
    case _ => 0
  }

  function Rank(p: Parser, c: byte): nat {
    if p.top.state == EatWhitespace then 1 + Passes(p.top.saved, c) else Passes(p.top.state, c)
  }

  /** Every `goto Redo` brings the switch closer to the next character. */
  lemma RedoEnds(dec: DecimalText, p: Parser, c: byte)
    requires Live(p) && Once(dec, p, c).Again?
    ensures Rank(Once(dec, p, c).p, c) < Rank(p, c)
  {
  }

  // ----- whole characters and whole chunks -----

  datatype Fate = Took(p: Parser, heard: seq<Event>) | Stop(p: Parser, heard: seq<Event>) | Fails(heard: seq<Event>,
                                                                                                  error: Error)

  function Late(h: seq<Event>, f: Fate): Fate {
    match f
    case Took(p, heard) => Took(p, h + heard)
    case Stop(p, heard) => Stop(p, h + heard)
    case Fails(heard, error) => Fails(h + heard, error)
  }

  /** The switch on one character, entered again as often as it asks. */
  function Switch(dec: DecimalText, p: Parser, c: byte): (r: Fate)
    requires Live(p)
    ensures !r.Fails? ==> Live(r.p)
    ensures match r
            case Took(q, _) => q.top.state != Finish
            case Stop(q, _) => Finished(q)
            case Fails(_, error) => error != ParseEof
    decreases Rank(p, c)
  {
    OnceKeeps(dec, p, c);
    match Once(dec, p, c)
    case Used(q, heard) => Took(q.(col := q.col + 1), heard)
    case Again(q, heard) =>
      RedoEnds(dec, p, c);
      Late(heard, Switch(dec, q, c))
    case Halt => Stop(p, [])
    case Bad(heard, error) => Fails(heard, error)
  }

  /** Line counting comes before the switch. */
  function Counted(p: Parser, c: byte): Parser {
    if c == 10 then p.(line := p.line + 1, col := 1) else p
  }

  /** A chunk is used up, or left at `rest` because a value is complete, or in error. */
  datatype Fed =
    | More(p: Parser, heard: seq<Event>)
    | Stopped(p: Parser, heard: seq<Event>, rest: seq<byte>)
    | Failed(heard: seq<Event>, error: Error)

  function Hear(h: seq<Event>, f: Fed): Fed {
    match f
    case More(p, heard) => More(p, h + heard)
    case Stopped(p, heard, rest) => Stopped(p, h + heard, rest)
    case Failed(heard, error) => Failed(h + heard, error)
  }

  /** `parseChunk`. */
  function Feed(dec: DecimalText, p: Parser, s: seq<byte>): (r: Fed)
    requires Live(p)
    ensures !r.Failed? ==> Live(r.p)
    ensures r.Stopped? ==> Finished(r.p)
    decreases |s|
  {
    if s == [] then More(p, [])
    else match Switch(dec, Counted(p, s[0]), s[0])
      case Took(q, heard) =>
        var r := Feed(dec, q, s[1..]);
        Hear(heard, r)
      case Stop(q, heard) => Stopped(q, heard, s)
      case Fails(heard, error) => Failed(heard, error)
  }

  /** Where it stops, something is left: the character that ended the value. */
  lemma {:induction false} RestIsTail(dec: DecimalText, p: Parser, s: seq<byte>)
    requires Live(p) && Feed(dec, p, s).Stopped?
    ensures var rest := Feed(dec, p, s).rest; rest != [] && |rest| <= |s| && rest == s[|s| - |rest|..]
    decreases |s|
  {
    var f := Switch(dec, Counted(p, s[0]), s[0]);
    if f.Took? {
      RestIsTail(dec, f.p, s[1..]);
    }
  }

  lemma HearTwice(a: seq<Event>, b: seq<Event>, f: Fed)
    ensures Hear(a, Hear(b, f)) == Hear(a + b, f)
  {
    assert a + (b + f.heard) == a + b + f.heard;
  }

  lemma HearNothing(f: Fed)
    ensures Hear([], f) == f
  {
    assert [] + f.heard == f.heard;
  }

  /** Going on with more text after a chunk. */
  function Resume(dec: DecimalText, f: Fed, s: seq<byte>): Fed
    requires !f.Failed? ==> Live(f.p)
  {
    match f
    case More(p, heard) => Hear(heard, Feed(dec, p, s))
    case Stopped(p, heard, rest) => Stopped(p, heard, rest + s)
    case Failed(_, _) => f
  }

  lemma ResumeHeard(dec: DecimalText, h: seq<Event>, f: Fed, s: seq<byte>)
    requires !f.Failed? ==> Live(f.p)
    ensures Resume(dec, Hear(h, f), s) == Hear(h, Resume(dec, f, s))
  {
    if f.More? {
      HearTwice(h, f.heard, Feed(dec, f.p, s));
    }
  }

  /** Cutting the text in two makes no difference to anything. */
  lemma {:induction false} FeedConcat(dec: DecimalText, p: Parser, a: seq<byte>, b: seq<byte>)
    requires Live(p)
    ensures Feed(dec, p, a + b) == Resume(dec, Feed(dec, p, a), b)
    decreases |a|
  {
    if a == [] {
      assert a + b == b;
      HearNothing(Feed(dec, p, b));
    } else {
      assert (a + b)[1..] == a[1..] + b;
      match Switch(dec, Counted(p, a[0]), a[0]) {
        case Took(q, heard) =>
          FeedConcat(dec, q, a[1..], b);
          ResumeHeard(dec, heard, Feed(dec, q, a[1..]), b);
        case Stop(_, _) =>
        case Fails(_, _) =>
      }
    }
  }

  function Flatten(chunks: seq<seq<byte>>): seq<byte> {
    if chunks == [] then [] else chunks[0] + Flatten(chunks[1..])
  }

  /** Chunk by chunk, until one of them completes a value or fails. */
  function FeedChunks(dec: DecimalText, p: Parser, chunks: seq<seq<byte>>): Fed
    requires Live(p)
    decreases |chunks|
  {
    if chunks == [] then More(p, [])
    else match Feed(dec, p, chunks[0])
      case More(q, heard) => Hear(heard, FeedChunks(dec, q, chunks[1..]))
      case Stopped(q, heard, rest) => Stopped(q, heard, rest + Flatten(chunks[1..]))
      case Failed(heard, error) => Failed(heard, error)
  }

  /** Wherever the text is cut, and however often: same events, same state, same rest, same error. */
  lemma {:induction false} ChunkIndependence(dec: DecimalText, p: Parser, chunks: seq<seq<byte>>)
    requires Live(p)
    ensures FeedChunks(dec, p, chunks) == Feed(dec, p, Flatten(chunks))
    decreases |chunks|
  {
    if chunks != [] {
      FeedConcat(dec, p, chunks[0], Flatten(chunks[1..]));
      var f := Feed(dec, p, chunks[0]);
      if f.More? {
        ChunkIndependence(dec, f.p, chunks[1..]);
      }
    }
  }

  // ----- a whole document -----

  datatype Parsed = Ok(heard: seq<Event>) | Err(error: Error)

  /** `end`: one NUL; then the value must be complete. */
  function AtEnd(dec: DecimalText, f: Fed): Parsed
    requires !f.Failed? ==> Live(f.p)
  {
    match f
    case Failed(_, error) => Err(error)
    case _ =>
      match Feed(dec, f.p, [0])
      case Failed(_, error) => Err(error)
      case g => if Finished(g.p) then Ok(f.heard + g.heard) else Err(ParseEof)
  }

  /** `parse`. */
  function Parse(dec: DecimalText, s: seq<byte>): Parsed {
    AtEnd(dec, Feed(dec, FRESH, s))
  }

  lemma LateTwice(a: seq<Event>, b: seq<Event>, f: Fate)
    ensures Late(a, Late(b, f)) == Late(a + b, f)
  {
    assert a + (b + f.heard) == a + b + f.heard;
  }

  lemma LateNothing(f: Fate)
    ensures Late([], f) == f
  {
    assert [] + f.heard == f.heard;
  }

  lemma FeedAt(dec: DecimalText, p: Parser, s: seq<byte>, i: nat)
    requires Live(p) && i < |s|
    ensures Feed(dec, p, s[i..]) ==
            match Switch(dec, Counted(p, s[i]), s[i])
            case Took(q, heard) => Hear(heard, Feed(dec, q, s[i + 1..]))
            case Stop(q, heard) => Stopped(q, heard, s[i..])
            case Fails(heard, error) => Failed(heard, error)
  {
    assert s[i..][1..] == s[i + 1..] && s[i..][0] == s[i];
  }

  /** How `parseChunk` leaves the parser: in error, with all used up, or stopped before the rest. */
  function Result(p: Parser, rest: seq<byte>, error: Option<Error>): Fed {
    if error.Some? then Failed([], error.value) else if rest == [] then More(p, []) else Stopped(p, [], rest)
  }

  /** The parser as an object: its fields, and the calls made on the visitor. */
  class JsonParser {
    var at: Parser
    var heard: seq<Event>

    constructor ()
      ensures at == FRESH && heard == []
    {
      at, heard := FRESH, [];
    }

    /** `begin`. */
    method Restart()
      modifies this
      ensures at == Begin(old(at)) && heard == old(heard)
    {
      at := Begin(at);
    }

    /** The switch, entered again until the character is dealt with. */
    method OneChar(dec: DecimalText, c: byte) returns (stop: bool, error: Option<Error>)
      requires Live(at)
      modifies this
      ensures match Switch(dec, old(at), c)
              case Took(p, h) => !stop && error == None && at == p && heard == old(heard) + h
              case Stop(p, h) => stop && error == None && at == p && heard == old(heard) + h
              case Fails(h, e) => error == Some(e) && heard == old(heard) + h
    {
      ghost var acc := [];
      stop, error := false, None;
      LateNothing(Switch(dec, at, c));
      while true
        invariant Live(at) && heard == old(heard) + acc && !stop && error == None
        invariant Switch(dec, old(at), c) == Late(acc, Switch(dec, at, c))
        decreases Rank(at, c)
      {
        OnceKeeps(dec, at, c);
        var turn := Once(dec, at, c);
        if !turn.Halt? {
          Assoc(old(heard), acc, turn.heard);
        }
        match turn {
          case Used(p, h) =>
            at, heard := p.(col := p.col + 1), heard + h;
            return;
          case Again(p, h) =>
            RedoEnds(dec, at, c);
            LateTwice(acc, h, Switch(dec, p, c));
            at, heard, acc := p, heard + h, acc + h;
          case Halt =>
            stop := true;
            return;
          case Bad(h, e) =>
            heard, error := heard + h, Some(e);
            return;
        }
      }
    }

    /** `parseChunk`; `used` is where it stopped. */
    method ParseChunk(dec: DecimalText, chars: seq<byte>)
      returns (used: nat, error: Option<Error>, ghost calls: seq<Event>)
      requires Live(at)
      modifies this
      ensures used <= |chars|
      ensures Feed(dec, old(at), chars) == Hear(calls, Result(at, chars[used..], error))
      ensures error.Some? || used == |chars| || Finished(at)
      ensures heard == old(heard) + calls
    {
      calls, used, error := [], 0, None;
      HearNothing(Feed(dec, at, chars));
      while used < |chars|
        invariant used <= |chars| && Live(at) && heard == old(heard) + calls && error == None
        invariant Feed(dec, old(at), chars) == Hear(calls, Feed(dec, at, chars[used..]))
      {
        var stop;
        ghost var more;
        stop, error, more := TakeOne(dec, chars, used, Feed(dec, old(at), chars), calls);
        Assoc(old(heard), calls, more);
        calls := calls + more;
        if stop || error != None {
          return;
        }
        used := used + 1;
      }
    }

    /** One character of the chunk. */
    method TakeOne(dec: DecimalText, chars: seq<byte>, i: nat, ghost goal: Fed, ghost calls: seq<Event>)
      returns (stop: bool, error: Option<Error>, ghost more: seq<Event>)
      requires Live(at) && i < |chars| && goal == Hear(calls, Feed(dec, at, chars[i..]))
      modifies this
      ensures heard == old(heard) + more
      ensures stop || error.Some? ==> goal == Hear(calls + more, Result(at, chars[i..], error))
      ensures stop && error == None ==> Finished(at)
      ensures !stop && error == None ==> Live(at) && goal == Hear(calls + more, Feed(dec, at, chars[i + 1..]))
    {
      var c := chars[i];
      ghost var fate := Switch(dec, Counted(at, c), c);
      FeedAt(dec, at, chars, i);
      more := fate.heard;
      at := Counted(at, c);
      stop, error := OneChar(dec, c);
      if !stop && error == None {
        HearTwice(calls, more, Feed(dec, at, chars[i + 1..]));
      }
    }
  }
}
