/** How the JSON parser gets over gaps, strings, words and numbers, whatever comes behind them (MojJsonParser). */
module JsonReadings {
  import opened Bytes
  import opened Numbers
  import opened Values
  import opened JsonGrammars
  import JP = JsonParsers

  // ----- going on -----

  /** The parser gets from here to there, with these events. */
  predicate Moves(dec: JP.DecimalText, p: JP.Parser, s: seq<byte>, heard: seq<Event>, q: JP.Parser, rest: seq<byte>) {
    JP.Live(p) && JP.Live(q) && JP.Feed(dec, p, s) == JP.Hear(heard, JP.Feed(dec, q, rest))
  }

  lemma MovesOn(dec: JP.DecimalText, p: JP.Parser, s: seq<byte>, a: seq<Event>, q: JP.Parser, t: seq<byte>,
                b: seq<Event>, r: JP.Parser, rest: seq<byte>)
    requires Moves(dec, p, s, a, q, t) && Moves(dec, q, t, b, r, rest)
    ensures Moves(dec, p, s, a + b, r, rest)
  {
    JP.HearTwice(a, b, JP.Feed(dec, r, rest));
  }

  lemma Stays(dec: JP.DecimalText, p: JP.Parser, s: seq<byte>)
    requires JP.Live(p)
    ensures Moves(dec, p, s, [], p, s)
  {
    JP.HearNothing(JP.Feed(dec, p, s));
  }

  function CountedTurn(t: JP.Turn, c: byte): JP.Turn {
    match t
    case Used(q, h) => JP.Used(JP.Counted(q, c), h)
    case Again(q, h) => JP.Again(JP.Counted(q, c), h)
    case _ => t
  }

  lemma TextCounted(dec: JP.DecimalText, p: JP.Parser)
    requires JP.Live(p) && p.top.state in {JP.StringState, JP.ObjField, JP.StringEscape, JP.EscapeUnicode}
    ensures JP.Once(dec, JP.Counted(p, 10), 10) == CountedTurn(JP.Once(dec, p, 10), 10)
  {
  }

  lemma ValueCounted(dec: JP.DecimalText, p: JP.Parser)
    requires JP.Live(p) && p.top.state in {JP.Start, JP.NullState, JP.BoolState, JP.Number, JP.Finish}
    ensures JP.Once(dec, JP.Counted(p, 10), 10) == CountedTurn(JP.Once(dec, p, 10), 10)
  {
  }

  lemma RestCounted(dec: JP.DecimalText, p: JP.Parser)
    requires JP.Live(p) && p.top.state !in {JP.StringState, JP.ObjField, JP.StringEscape, JP.EscapeUnicode}
    requires p.top.state !in {JP.Start, JP.NullState, JP.BoolState, JP.Number, JP.Finish}
    ensures JP.Once(dec, JP.Counted(p, 10), 10) == CountedTurn(JP.Once(dec, p, 10), 10)
  {
  }

  /** Counting lines has no part in the switch. */
  lemma OnceCounted(dec: JP.DecimalText, p: JP.Parser, c: byte)
    requires JP.Live(p)
    ensures JP.Live(JP.Counted(p, c))
    ensures JP.Once(dec, JP.Counted(p, c), c) == CountedTurn(JP.Once(dec, p, c), c)
  {
    hide JP.Once;
    if c == 10 {
      if p.top.state in {JP.StringState, JP.ObjField, JP.StringEscape, JP.EscapeUnicode} {
        TextCounted(dec, p);
      } else if p.top.state in {JP.Start, JP.NullState, JP.BoolState, JP.Number, JP.Finish} {
        ValueCounted(dec, p);
      } else {
        RestCounted(dec, p);
      }
    }
  }

  /** The same record at another line and column. */
  predicate Same(q: JP.Parser, r: JP.Parser) {
    q.(line := 0, col := 0) == r.(line := 0, col := 0)
  }

  /** One pass of the switch, character used up or not. */
  lemma Turn(dec: JP.DecimalText, p: JP.Parser, s: seq<byte>) returns (q: JP.Parser)
    requires JP.Live(p) && s != [] && (JP.Once(dec, p, s[0]).Used? || JP.Once(dec, p, s[0]).Again?)
    ensures var t := JP.Once(dec, p, s[0]);
            Same(q, t.p) && Moves(dec, p, s, t.heard, q, if t.Used? then s[1..] else s)
  {
    hide JP.Once;
    var c := s[0];
    var t := JP.Once(dec, p, c);
    OnceCounted(dec, p, c);
    JP.OnceKeeps(dec, p, c);
    JP.OnceKeeps(dec, JP.Counted(p, c), c);
    if t.Used? {
      q := JP.Counted(t.p, c).(col := JP.Counted(t.p, c).col + 1);
    } else {
      q := t.p;
      AgainFeeds(dec, p, s);
    }
  }

  lemma AgainFeeds(dec: JP.DecimalText, p: JP.Parser, s: seq<byte>)
    requires JP.Live(p) && s != [] && JP.Once(dec, p, s[0]).Again?
    ensures var t := JP.Once(dec, p, s[0]); JP.Live(t.p) && JP.Feed(dec, p, s) == JP.Hear(t.heard, JP.Feed(dec, t.p, s))
  {
    hide JP.Once;
    var t := JP.Once(dec, p, s[0]);
    JP.OnceKeeps(dec, p, s[0]);
    OnceCounted(dec, p, s[0]);
    var f := JP.Switch(dec, JP.Counted(t.p, s[0]), s[0]);
    if f.Took? {
      JP.HearTwice(t.heard, f.heard, JP.Feed(dec, f.p, s[1..]));
    }
  }

  /** Getting on by one character that nothing is heard of, or by none. */
  lemma Quietly(dec: JP.DecimalText, p: JP.Parser, s: seq<byte>, q: JP.Parser, t: seq<byte>, b: seq<Event>,
                r: JP.Parser, rest: seq<byte>)
    requires Moves(dec, p, s, [], q, t) && Moves(dec, q, t, b, r, rest)
    ensures Moves(dec, p, s, b, r, rest)
  {
    MovesOn(dec, p, s, [], q, t, b, r, rest);
    assert [] + b == b;
  }

  lemma ThenQuietly(dec: JP.DecimalText, p: JP.Parser, s: seq<byte>, a: seq<Event>, q: JP.Parser, t: seq<byte>,
                    r: JP.Parser, rest: seq<byte>)
    requires Moves(dec, p, s, a, q, t) && Moves(dec, q, t, [], r, rest)
    ensures Moves(dec, p, s, a, r, rest)
  {
    MovesOn(dec, p, s, a, q, t, [], r, rest);
    assert a + [] == a;
  }

  /** One character is used up. */
  lemma Takes(dec: JP.DecimalText, p: JP.Parser, c: byte, rest: seq<byte>) returns (q: JP.Parser)
    requires JP.Live(p) && JP.Once(dec, p, c).Used?
    ensures var t := JP.Once(dec, p, c); Same(q, t.p) && Moves(dec, p, [c] + rest, t.heard, q, rest)
  {
    assert ([c] + rest)[1..] == rest;
    q := Turn(dec, p, [c] + rest);
  }

  // ----- white space and comments -----

  predicate Eating(p: JP.Parser) {
    JP.Live(p) && p.top.state == JP.EatWhitespace
  }

  /** In another state, with all else that outlasts a gap the same. */
  predicate InState(q: JP.Parser, p: JP.Parser, state: JP.State) {
    q.top == JP.StackRec(state, p.top.saved) && q.below == p.below && q.str == p.str
  }

  predicate Plain(c: byte) {
    c !in BLANKS && c != 47
  }

  lemma BlanksAreSpaces(c: byte)
    ensures c in BLANKS <==> IsSpace(c)
  {
  }

  /** The inside of a block comment and its end. */
  lemma {:induction false} BlockFeeds(dec: JP.DecimalText, p: JP.Parser, t: seq<byte>, rest: seq<byte>)
    returns (q: JP.Parser)
    requires JP.Live(p) && p.top.state == JP.Comment && GoodFiller(Block(t))
    ensures InState(q, p, JP.EatWhitespace) && Moves(dec, p, t + ([42] + ([47] + rest)), [], q, rest)
    decreases |t|
  {
    hide JP.Feed;
    var end := [42] + ([47] + rest);
    if t == [] {
      var r := Takes(dec, p, 42, [47] + rest);
      q := Takes(dec, r, 47, rest);
      Quietly(dec, p, end, r, [47] + rest, [], q, rest);
      assert t + end == end;
    } else {
      var more := t[1..] + end;
      assert t + end == [t[0]] + more;
      var r := Takes(dec, p, t[0], more);
      if t[0] == 42 {
        assert more[0] == if |t| > 1 then t[1] else 42;
        var back := Turn(dec, r, more);
        Quietly(dec, p, t + end, r, more, [], back, more);
        q := BlockFeeds(dec, back, t[1..], rest);
        Quietly(dec, p, t + end, back, more, [], q, rest);
      } else {
        q := BlockFeeds(dec, r, t[1..], rest);
        Quietly(dec, p, t + end, r, more, [], q, rest);
      }
    }
  }

  /** The inside of a line comment and the newline. */
  lemma {:induction false} LineFeeds(dec: JP.DecimalText, p: JP.Parser, t: seq<byte>, rest: seq<byte>)
    returns (q: JP.Parser)
    requires JP.Live(p) && p.top.state == JP.CommentEol && 10 !in t
    ensures InState(q, p, JP.EatWhitespace) && Moves(dec, p, t + ([10] + rest), [], q, rest)
    decreases |t|
  {
    hide JP.Feed;
    if t == [] {
      q := Takes(dec, p, 10, rest);
      assert t + ([10] + rest) == [10] + rest;
    } else {
      var more := t[1..] + ([10] + rest);
      assert t + ([10] + rest) == [t[0]] + more;
      var r := Takes(dec, p, t[0], more);
      q := LineFeeds(dec, r, t[1..], rest);
      Quietly(dec, p, t + ([10] + rest), r, more, [], q, rest);
    }
  }

  /** The two characters that open a comment. */
  lemma CommentOpens(dec: JP.DecimalText, p: JP.Parser, c: byte, rest: seq<byte>) returns (q: JP.Parser)
    requires Eating(p) && (c == 42 || c == 47)
    ensures InState(q, p, if c == 42 then JP.Comment else JP.CommentEol) && JP.Live(q)
    ensures Moves(dec, p, [47] + ([c] + rest), [], q, rest)
  {
    hide JP.Feed;
    var r := Takes(dec, p, 47, [c] + rest);
    q := Takes(dec, r, c, rest);
    Quietly(dec, p, [47] + ([c] + rest), r, [c] + rest, [], q, rest);
  }

  lemma FillerFeeds(dec: JP.DecimalText, p: JP.Parser, f: Filler, rest: seq<byte>) returns (q: JP.Parser)
    requires Eating(p) && GoodFiller(f)
    ensures InState(q, p, JP.EatWhitespace) && Moves(dec, p, FillerText(f) + rest, [], q, rest)
  {
    hide JP.Feed;
    match f {
      case Blank(c) =>
        BlanksAreSpaces(c);
        q := Takes(dec, p, c, rest);
      case Block(t) =>
        var inside := t + ([42] + ([47] + rest));
        assert FillerText(f) + rest == [47] + ([42] + inside);
        var u := CommentOpens(dec, p, 42, inside);
        q := BlockFeeds(dec, u, t, rest);
        Quietly(dec, p, FillerText(f) + rest, u, inside, [], q, rest);
      case Line(t) =>
        var inside := t + ([10] + rest);
        assert FillerText(f) + rest == [47] + ([47] + inside);
        var u := CommentOpens(dec, p, 47, inside);
        q := LineFeeds(dec, u, t, rest);
        Quietly(dec, p, FillerText(f) + rest, u, inside, [], q, rest);
    }
  }

  lemma {:induction false} GapFeeds(dec: JP.DecimalText, p: JP.Parser, g: Gap, rest: seq<byte>) returns (q: JP.Parser)
    requires Eating(p) && GoodGap(g)
    ensures InState(q, p, JP.EatWhitespace) && Moves(dec, p, GapText(g) + rest, [], q, rest)
    decreases |g|
  {
    hide JP.Feed, JP.Once, FillerText;
    if g == [] {
      q := p;
      Stays(dec, p, rest);
      assert GapText(g) + rest == rest;
    } else {
      var more := GapText(g[1..]) + rest;
      assert GapText(g) + rest == FillerText(g[0]) + more;
      var r := FillerFeeds(dec, p, g[0], more);
      q := GapFeeds(dec, r, g[1..], rest);
      Quietly(dec, p, GapText(g) + rest, r, more, [], q, rest);
    }
  }

  /** A plain character meets the state saved. */
  lemma Enters(dec: JP.DecimalText, p: JP.Parser, s: seq<byte>) returns (q: JP.Parser)
    requires Eating(p) && s != [] && Plain(s[0])
    ensures InState(q, p, p.top.saved) && Moves(dec, p, s, [], q, s)
  {
    BlanksAreSpaces(s[0]);
    q := Turn(dec, p, s);
  }

  /** The text is read to the end of a document, and stopped there. */
  predicate Ends(dec: JP.DecimalText, p: JP.Parser, s: seq<byte>) {
    JP.Live(p) && JP.Feed(dec, p, s).Stopped?
  }

  lemma EndsOn(dec: JP.DecimalText, p: JP.Parser, s: seq<byte>, heard: seq<Event>, q: JP.Parser, rest: seq<byte>)
    requires Ends(dec, p, s) && Moves(dec, p, s, heard, q, rest)
    ensures Ends(dec, q, rest) && rest != []
  {
  }

  /** What ends is neither refused nor stopped here. */
  lemma Turns(dec: JP.DecimalText, p: JP.Parser, s: seq<byte>) returns (q: JP.Parser)
    requires Ends(dec, p, s)
    ensures s != []
    ensures var t := JP.Once(dec, p, s[0]);
            && !t.Bad?
            && (t.Used? || t.Again? ==>
                  var rest := if t.Used? then s[1..] else s;
                  Same(q, t.p) && Moves(dec, p, s, t.heard, q, rest) && Ends(dec, q, rest))
  {
    hide JP.Once;
    var t := JP.Once(dec, p, s[0]);
    q := p;
    OnceCounted(dec, p, s[0]);
    if t.Used? || t.Again? {
      q := Turn(dec, p, s);
    }
  }

  lemma {:induction false} BlockRead(dec: JP.DecimalText, p: JP.Parser, s: seq<byte>)
    returns (t: seq<byte>, q: JP.Parser, rest: seq<byte>)
    requires Ends(dec, p, s) && p.top.state == JP.Comment
    ensures s == t + ([42] + ([47] + rest)) && GoodFiller(Block(t))
    ensures InState(q, p, JP.EatWhitespace) && Moves(dec, p, s, [], q, rest)
    decreases |s|
  {
    hide JP.Feed;
    var r := Turns(dec, p, s);
    var s1 := s[1..];
    if s[0] == 42 {
      var r1 := Turns(dec, r, s1);
      if s1[0] == 47 {
        t, q, rest := [], r1, s1[1..];
        Quietly(dec, p, s, r, s1, [], q, rest);
      } else {
        Quietly(dec, p, s, r, s1, [], r1, s1);
        var t1;
        t1, q, rest := BlockRead(dec, r1, s1);
        t := [42] + t1;
        Quietly(dec, p, s, r1, s1, [], q, rest);
        StarInside(t1, rest);
      }
    } else {
      var t1;
      t1, q, rest := BlockRead(dec, r, s1);
      t := [s[0]] + t1;
      Quietly(dec, p, s, r, s1, [], q, rest);
      NoStarBefore(s[0], t1);
    }
  }

  lemma StarInside(t: seq<byte>, rest: seq<byte>)
    requires GoodFiller(Block(t)) && (t + ([42] + ([47] + rest)))[0] != 47
    ensures GoodFiller(Block([42] + t))
  {
    assert t != [] ==> t[0] == (t + ([42] + ([47] + rest)))[0];
    forall i | 0 <= i < |[42] + t| - 1 ensures !(([42] + t)[i] == 42 && ([42] + t)[i + 1] == 47) {
      assert i > 0 ==> ([42] + t)[i] == t[i - 1] && ([42] + t)[i + 1] == t[i];
    }
  }

  lemma NoStarBefore(c: byte, t: seq<byte>)
    requires c != 42 && GoodFiller(Block(t))
    ensures GoodFiller(Block([c] + t))
  {
    forall i | 0 <= i < |[c] + t| - 1 ensures !(([c] + t)[i] == 42 && ([c] + t)[i + 1] == 47) {
      assert i > 0 ==> ([c] + t)[i] == t[i - 1] && ([c] + t)[i + 1] == t[i];
    }
  }

  lemma {:induction false} LineRead(dec: JP.DecimalText, p: JP.Parser, s: seq<byte>)
    returns (t: seq<byte>, q: JP.Parser, rest: seq<byte>)
    requires Ends(dec, p, s) && p.top.state == JP.CommentEol
    ensures s == t + ([10] + rest) && 10 !in t
    ensures InState(q, p, JP.EatWhitespace) && Moves(dec, p, s, [], q, rest)
    decreases |s|
  {
    hide JP.Feed;
    var r := Turns(dec, p, s);
    if s[0] == 10 {
      t, q, rest := [], r, s[1..];
    } else {
      var t1;
      t1, q, rest := LineRead(dec, r, s[1..]);
      t := [s[0]] + t1;
      Quietly(dec, p, s, r, s[1..], [], q, rest);
    }
  }

  /** A comment from behind its first slash. */
  lemma CommentRead(dec: JP.DecimalText, p: JP.Parser, s: seq<byte>)
    returns (f: Filler, q: JP.Parser, rest: seq<byte>)
    requires Ends(dec, p, s) && p.top.state == JP.CommentStart
    ensures [47] + s == FillerText(f) + rest && GoodFiller(f) && |rest| < |s|
    ensures InState(q, p, JP.EatWhitespace) && Moves(dec, p, s, [], q, rest)
  {
    hide JP.Feed;
    var u := Turns(dec, p, s);
    var t;
    if s[0] == 42 {
      t, q, rest := BlockRead(dec, u, s[1..]);
      f := Block(t);
    } else {
      t, q, rest := LineRead(dec, u, s[1..]);
      f := Line(t);
    }
    Quietly(dec, p, s, u, s[1..], [], q, rest);
    CommentText(s, f, t, rest);
  }

  lemma CommentText(s: seq<byte>, f: Filler, t: seq<byte>, rest: seq<byte>)
    requires s != []
    requires (s[0] == 42 && f == Block(t) && s[1..] == t + ([42] + ([47] + rest))) ||
             (s[0] == 47 && f == Line(t) && s[1..] == t + ([10] + rest))
    ensures [47] + s == FillerText(f) + rest && |rest| < |s|
  {
    assert s == [s[0]] + s[1..];
  }

  /** One blank or comment. */
  lemma FillerRead(dec: JP.DecimalText, p: JP.Parser, s: seq<byte>)
    returns (f: Filler, q: JP.Parser, rest: seq<byte>)
    requires Ends(dec, p, s) && p.top.state == JP.EatWhitespace && s != [] && !Plain(s[0])
    ensures s == FillerText(f) + rest && GoodFiller(f) && |rest| < |s|
    ensures InState(q, p, JP.EatWhitespace) && Moves(dec, p, s, [], q, rest)
  {
    hide JP.Feed;
    BlanksAreSpaces(s[0]);
    var r := Turns(dec, p, s);
    assert s == [s[0]] + s[1..];
    if s[0] in BLANKS {
      f, q, rest := Blank(s[0]), r, s[1..];
    } else {
      f, q, rest := CommentRead(dec, r, s[1..]);
      Quietly(dec, p, s, r, s[1..], [], q, rest);
    }
  }

  /** All that is skipped, up to a plain character. */
  lemma {:induction false} GapRead(dec: JP.DecimalText, p: JP.Parser, s: seq<byte>)
    returns (g: Gap, q: JP.Parser, rest: seq<byte>)
    requires Ends(dec, p, s) && p.top.state == JP.EatWhitespace
    ensures s == GapText(g) + rest && GoodGap(g) && rest != [] && Plain(rest[0])
    ensures InState(q, p, JP.EatWhitespace) && Moves(dec, p, s, [], q, rest) && Ends(dec, q, rest)
    decreases |s|
  {
    hide JP.Feed;
    EndsNonEmpty(dec, p, s);
    if Plain(s[0]) {
      g, q, rest := [], p, s;
      Stays(dec, p, s);
    } else {
      var f, r, t := FillerRead(dec, p, s);
      EndsOn(dec, p, s, [], r, t);
      var more;
      more, q, rest := GapRead(dec, r, t);
      g := [f] + more;
      assert g[1..] == more;
      Quietly(dec, p, s, r, t, [], q, rest);
      EndsOn(dec, p, s, [], q, rest);
    }
  }

  lemma EndsNonEmpty(dec: JP.DecimalText, p: JP.Parser, s: seq<byte>)
    requires Ends(dec, p, s)
    ensures s != []
  {
  }

  // ----- strings -----

  predicate InText(p: JP.Parser) {
    JP.Live(p) && (p.top.state == JP.StringState || p.top.state == JP.ObjField)
  }

  /** Still in the same text, with more of it. */
  predicate Longer(p: JP.Parser, q: JP.Parser, s: seq<byte>) {
    InText(q) && q.top.state == p.top.state && q.below == p.below && q.str == p.str + s
  }

  /** Inside an escape, to return to the text with what it had. */
  predicate Escaping(q: JP.Parser, p: JP.Parser, state: JP.State) {
    JP.Live(q) && q.top == JP.StackRec(state, p.top.state) && q.below == p.below && q.str == p.str
  }

  lemma ShortMeans(c: byte)
    ensures c in LETTERS <==> JP.Unescaped(c) != 0
    ensures c in LETTERS ==> JP.Unescaped(c) == MEANT[Place(LETTERS, c)] && c != 117
  {
    assert |LETTERS| == 8 && |MEANT| == 8;
    if c in LETTERS {
      var i := Place(LETTERS, c);
      assert LETTERS[i] == c;
    }
  }

  /** How much of the four digits is in the parser. */
  predicate HexAt(q: JP.Parser, p: JP.Parser, n: nat, u: nat) {
    Escaping(q, p, JP.EscapeUnicode) && q.strPos == n && q.ucsChar == u
  }

  lemma HexFeeds(dec: JP.DecimalText, p: JP.Parser, q: JP.Parser, n: nat, u: nat, d: byte, rest: seq<byte>)
    returns (r: JP.Parser)
    requires InText(p) && HexAt(q, p, n, u) && n < 3 && DigitOf(d) < 16
    ensures HexAt(r, p, n + 1, u + DigitOf(d) * JP.Place(n)) && Moves(dec, q, [d] + rest, [], r, rest)
  {
    r := Takes(dec, q, d, rest);
  }

  lemma LastHexFeeds(dec: JP.DecimalText, p: JP.Parser, q: JP.Parser, u: nat, d: byte, rest: seq<byte>)
    returns (r: JP.Parser)
    requires InText(p) && HexAt(q, p, 3, u) && DigitOf(d) < 16 && u + DigitOf(d) != 0
    ensures u + DigitOf(d) < 0x1_0000
    ensures Longer(p, r, JP.Utf8(u + DigitOf(d))) && Moves(dec, q, [d] + rest, [], r, rest)
  {
    hide JP.Feed, JP.Utf8;
    r := Takes(dec, q, d, rest);
  }

  /** Behind the backslash and the u. */
  lemma UnitFeeds(dec: JP.DecimalText, p: JP.Parser, q: JP.Parser, g: Glyph, rest: seq<byte>) returns (r: JP.Parser)
    requires InText(p) && g.Unit? && GoodGlyph(g) && HexAt(q, p, 0, 0)
    ensures Longer(p, r, GlyphBytes(g)) && Moves(dec, q, [g.h0] + ([g.h1] + ([g.h2] + ([g.h3] + rest))), [], r, rest)
  {
    hide JP.Feed;
    var s3 := [g.h3] + rest;
    var s2 := [g.h2] + s3;
    var s1 := [g.h1] + s2;
    var q1 := HexFeeds(dec, p, q, 0, 0, g.h0, s1);
    var q2 := HexFeeds(dec, p, q1, 1, DigitOf(g.h0) * 0x1000, g.h1, s2);
    var q3 := HexFeeds(dec, p, q2, 2, DigitOf(g.h0) * 0x1000 + DigitOf(g.h1) * 0x100, g.h2, s3);
    r := LastHexFeeds(dec, p, q3, DigitOf(g.h0) * 0x1000 + DigitOf(g.h1) * 0x100 + DigitOf(g.h2) * 0x10, g.h3, rest);
    Quietly(dec, q2, s2, q3, s3, [], r, rest);
    Quietly(dec, q1, s1, q2, s2, [], r, rest);
    Quietly(dec, q, [g.h0] + s1, q1, s1, [], r, rest);
  }

  lemma UnitText(g: Glyph, rest: seq<byte>)
    requires g.Unit?
    ensures GlyphText(g) + rest == [92] + ([117] + ([g.h0] + ([g.h1] + ([g.h2] + ([g.h3] + rest)))))
  {
  }

  lemma BackslashFeeds(dec: JP.DecimalText, p: JP.Parser, rest: seq<byte>) returns (q: JP.Parser)
    requires InText(p)
    ensures Escaping(q, p, JP.StringEscape) && Moves(dec, p, [92] + rest, [], q, rest)
  {
    q := Takes(dec, p, 92, rest);
  }

  lemma ShortFeeds(dec: JP.DecimalText, p: JP.Parser, q: JP.Parser, c: byte, rest: seq<byte>) returns (r: JP.Parser)
    requires InText(p) && Escaping(q, p, JP.StringEscape) && c in LETTERS
    ensures Longer(p, r, GlyphBytes(Short(c))) && Moves(dec, q, [c] + rest, [], r, rest)
  {
    ShortMeans(c);
    r := Takes(dec, q, c, rest);
  }

  lemma HexOpens(dec: JP.DecimalText, p: JP.Parser, q: JP.Parser, rest: seq<byte>) returns (r: JP.Parser)
    requires InText(p) && Escaping(q, p, JP.StringEscape)
    ensures HexAt(r, p, 0, 0) && Moves(dec, q, [117] + rest, [], r, rest)
  {
    r := Takes(dec, q, 117, rest);
  }

  lemma RawFeeds(dec: JP.DecimalText, p: JP.Parser, c: byte, rest: seq<byte>) returns (q: JP.Parser)
    requires InText(p) && c != 34 && c != 92
    ensures Longer(p, q, [c]) && Moves(dec, p, [c] + rest, [], q, rest)
  {
    q := Takes(dec, p, c, rest);
  }

  lemma GlyphFeeds(dec: JP.DecimalText, p: JP.Parser, g: Glyph, rest: seq<byte>) returns (q: JP.Parser)
    requires InText(p) && GoodGlyph(g)
    ensures Longer(p, q, GlyphBytes(g)) && Moves(dec, p, GlyphText(g) + rest, [], q, rest)
  {
    hide JP.Feed;
    match g {
      case Raw(c) => q := RawFeeds(dec, p, c, rest);
      case Short(c) =>
        assert GlyphText(g) + rest == [92] + ([c] + rest);
        var r := BackslashFeeds(dec, p, [c] + rest);
        q := ShortFeeds(dec, p, r, c, rest);
        Quietly(dec, p, GlyphText(g) + rest, r, [c] + rest, [], q, rest);
      case Unit(h0, h1, h2, h3) =>
        UnitText(g, rest);
        var digits := [h0] + ([h1] + ([h2] + ([h3] + rest)));
        var r := BackslashFeeds(dec, p, [117] + digits);
        var u := HexOpens(dec, p, r, digits);
        q := UnitFeeds(dec, p, u, g, rest);
        Quietly(dec, r, [117] + digits, u, digits, [], q, rest);
        Quietly(dec, p, GlyphText(g) + rest, r, [117] + digits, [], q, rest);
    }
  }

  lemma {:induction false} GlyphsFeed(dec: JP.DecimalText, p: JP.Parser, gs: seq<Glyph>, rest: seq<byte>)
    returns (q: JP.Parser)
    requires InText(p) && GoodGlyphs(gs)
    ensures Longer(p, q, GlyphsBytes(gs)) && Moves(dec, p, GlyphsText(gs) + rest, [], q, rest)
    decreases |gs|
  {
    hide JP.Feed;
    if gs == [] {
      q := p;
      Stays(dec, p, rest);
      assert GlyphsText(gs) + rest == rest && p.str + [] == p.str;
    } else {
      var more := GlyphsText(gs[1..]) + rest;
      assert GlyphsText(gs) + rest == GlyphText(gs[0]) + more;
      var r := GlyphFeeds(dec, p, gs[0], more);
      q := GlyphsFeed(dec, r, gs[1..], rest);
      Quietly(dec, p, GlyphsText(gs) + rest, r, more, [], q, rest);
      Assoc(p.str, GlyphBytes(gs[0]), GlyphsBytes(gs[1..]));
    }
  }

  lemma HexRead(dec: JP.DecimalText, p: JP.Parser, q: JP.Parser, n: nat, u: nat, s: seq<byte>) returns (r: JP.Parser)
    requires InText(p) && HexAt(q, p, n, u) && n < 3 && Ends(dec, q, s)
    ensures s != [] && DigitOf(s[0]) < 16
    ensures HexAt(r, p, n + 1, u + DigitOf(s[0]) * JP.Place(n))
    ensures Moves(dec, q, s, [], r, s[1..]) && Ends(dec, r, s[1..])
  {
    r := Turns(dec, q, s);
  }

  lemma LastHexRead(dec: JP.DecimalText, p: JP.Parser, q: JP.Parser, u: nat, s: seq<byte>) returns (r: JP.Parser)
    requires InText(p) && HexAt(q, p, 3, u) && Ends(dec, q, s)
    ensures s != [] && DigitOf(s[0]) < 16 && 0 < u + DigitOf(s[0]) < 0x1_0000
    ensures Longer(p, r, JP.Utf8(u + DigitOf(s[0]))) && Moves(dec, q, s, [], r, s[1..])
  {
    hide JP.Feed, JP.Utf8;
    r := Turns(dec, q, s);
  }

  lemma UnitRead(dec: JP.DecimalText, p: JP.Parser, q: JP.Parser, s: seq<byte>)
    returns (g: Glyph, r: JP.Parser, rest: seq<byte>)
    requires InText(p) && HexAt(q, p, 0, 0) && Ends(dec, q, s)
    ensures g.Unit? && GoodGlyph(g) && s == [g.h0] + ([g.h1] + ([g.h2] + ([g.h3] + rest)))
    ensures Longer(p, r, GlyphBytes(g)) && Moves(dec, q, s, [], r, rest)
  {
    hide JP.Feed;
    var q1 := HexRead(dec, p, q, 0, 0, s);
    var s1 := s[1..];
    var u1 := DigitOf(s[0]) * 0x1000;
    var q2 := HexRead(dec, p, q1, 1, u1, s1);
    var s2 := s1[1..];
    var u2 := u1 + DigitOf(s1[0]) * 0x100;
    var q3 := HexRead(dec, p, q2, 2, u2, s2);
    var s3 := s2[1..];
    var u3 := u2 + DigitOf(s2[0]) * 0x10;
    r := LastHexRead(dec, p, q3, u3, s3);
    rest := s3[1..];
    g := Unit(s[0], s1[0], s2[0], s3[0]);
    Quietly(dec, q2, s2, q3, s3, [], r, rest);
    Quietly(dec, q1, s1, q2, s2, [], r, rest);
    Quietly(dec, q, s, q1, s1, [], r, rest);
    FourHeads(s);
  }

  lemma FourHeads(s: seq<byte>)
    requires |s| >= 4
    ensures s == [s[0]] + ([s[1..][0]] + ([s[1..][1..][0]] + ([s[1..][1..][1..][0]] + s[1..][1..][1..][1..])))
  {
  }

  /** The letter or the u behind a backslash. */
  lemma EscapeTurns(dec: JP.DecimalText, p: JP.Parser, q: JP.Parser, s: seq<byte>) returns (r: JP.Parser)
    requires InText(p) && Escaping(q, p, JP.StringEscape) && Ends(dec, q, s)
    ensures s != [] && Moves(dec, q, s, [], r, s[1..]) && Ends(dec, r, s[1..])
    ensures s[0] == 117 ==> HexAt(r, p, 0, 0)
    ensures s[0] != 117 ==> GoodGlyph(Short(s[0])) && Longer(p, r, GlyphBytes(Short(s[0])))
  {
    r := Turns(dec, q, s);
    ShortMeans(s[0]);
  }

  /** An escape from behind its backslash. */
  lemma EscapeRead(dec: JP.DecimalText, p: JP.Parser, q: JP.Parser, s: seq<byte>)
    returns (g: Glyph, r: JP.Parser, rest: seq<byte>)
    requires InText(p) && Escaping(q, p, JP.StringEscape) && Ends(dec, q, s)
    ensures GoodGlyph(g) && [92] + s == GlyphText(g) + rest && |rest| < |s|
    ensures Longer(p, r, GlyphBytes(g)) && Moves(dec, q, s, [], r, rest)
  {
    hide JP.Feed, JP.Once, GlyphBytes;
    var u := EscapeTurns(dec, p, q, s);
    assert s == [s[0]] + s[1..];
    if s[0] == 117 {
      g, r, rest := UnitRead(dec, p, u, s[1..]);
      Quietly(dec, q, s, u, s[1..], [], r, rest);
      UnitText(g, rest);
    } else {
      g, r, rest := Short(s[0]), u, s[1..];
      assert [92] + s == [92, s[0]] + s[1..];
    }
  }

  lemma TextTurns(dec: JP.DecimalText, p: JP.Parser, s: seq<byte>) returns (q: JP.Parser)
    requires InText(p) && Ends(dec, p, s)
    ensures s != []
    ensures s[0] != 34 ==> Moves(dec, p, s, [], q, s[1..]) && Ends(dec, q, s[1..])
    ensures s[0] == 92 ==> Escaping(q, p, JP.StringEscape)
    ensures s[0] != 34 && s[0] != 92 ==> Longer(p, q, [s[0]])
  {
    q := Turns(dec, p, s);
  }

  /** One glyph. */
  lemma GlyphRead(dec: JP.DecimalText, p: JP.Parser, s: seq<byte>)
    returns (g: Glyph, q: JP.Parser, rest: seq<byte>)
    requires InText(p) && Ends(dec, p, s) && s != [] && s[0] != 34
    ensures GoodGlyph(g) && s == GlyphText(g) + rest && |rest| < |s|
    ensures Longer(p, q, GlyphBytes(g)) && Moves(dec, p, s, [], q, rest) && Ends(dec, q, rest)
  {
    hide JP.Feed;
    var u := TextTurns(dec, p, s);
    assert s == [s[0]] + s[1..];
    if s[0] == 92 {
      g, q, rest := EscapeRead(dec, p, u, s[1..]);
      Quietly(dec, p, s, u, s[1..], [], q, rest);
      EndsOn(dec, p, s, [], q, rest);
    } else {
      g, q, rest := Raw(s[0]), u, s[1..];
    }
  }

  lemma GlyphsCons(g: Glyph, gs: seq<Glyph>, rest: seq<byte>)
    requires GoodGlyph(g) && GoodGlyphs(gs)
    ensures GoodGlyphs([g] + gs) && GlyphsBytes([g] + gs) == GlyphBytes(g) + GlyphsBytes(gs)
    ensures GlyphsText([g] + gs) + rest == GlyphText(g) + (GlyphsText(gs) + rest)
  {
    assert ([g] + gs)[1..] == gs;
  }

  lemma LongerOn(p: JP.Parser, q: JP.Parser, r: JP.Parser, a: seq<byte>, b: seq<byte>)
    requires Longer(p, q, a) && Longer(q, r, b)
    ensures Longer(p, r, a + b)
  {
    assert p.str + a + b == p.str + (a + b);
  }

  /** The glyphs of a text up to its closing quote. */
  lemma {:induction false} GlyphsRead(dec: JP.DecimalText, p: JP.Parser, s: seq<byte>)
    returns (gs: seq<Glyph>, q: JP.Parser, rest: seq<byte>)
    requires InText(p) && Ends(dec, p, s)
    ensures GoodGlyphs(gs) && s == GlyphsText(gs) + ([34] + rest)
    ensures Longer(p, q, GlyphsBytes(gs)) && Moves(dec, p, s, [], q, [34] + rest) && Ends(dec, q, [34] + rest)
    decreases |s|
  {
    hide JP.Feed;
    EndsNonEmpty(dec, p, s);
    assert s == [s[0]] + s[1..];
    if s[0] == 34 {
      gs, q, rest := [], p, s[1..];
      Stays(dec, p, s);
      assert p.str + [] == p.str;
    } else {
      var g, r, t := GlyphRead(dec, p, s);
      var more;
      more, q, rest := GlyphsRead(dec, r, t);
      gs := [g] + more;
      GlyphsCons(g, more, [34] + rest);
      Quietly(dec, p, s, r, t, [], q, [34] + rest);
      LongerOn(p, r, q, GlyphBytes(g), GlyphsBytes(more));
    }
  }

  // ----- words and numbers -----

  /** Past the end of a value. */
  predicate Ended(q: JP.Parser, below: seq<JP.StackRec>) {
    JP.Live(q) && q.top == JP.StackRec(JP.EatWhitespace, JP.Finish) && q.below == below
  }

  /** In the middle of null, true or false. */
  predicate InWord(p: JP.Parser) {
    JP.Live(p) && (p.top.state == JP.NullState || p.top.state == JP.BoolState)
  }

  function WordLeft(p: JP.Parser): (t: seq<byte>)
    requires InWord(p)
    ensures t != []
  {
    (if p.top.state == JP.NullState then JP.NULL_TEXT else JP.MatchText(p))[p.strPos..]
  }

  function WordValue(p: JP.Parser): Value {
    if p.top.state == JP.NullState then Null else Bool(p.matchTrue)
  }

  /** The next letter of a word. */
  lemma WordTurn(dec: JP.DecimalText, p: JP.Parser)
    requires InWord(p)
    ensures var t, left := JP.Once(dec, p, WordLeft(p)[0]), WordLeft(p);
            && t.Used?
            && if |left| == 1 then t.heard == Visit(WordValue(p)) && Ended(t.p, p.below)
               else
                 && t.heard == [] && InWord(t.p) && WordLeft(t.p) == left[1..] && WordValue(t.p) == WordValue(p)
                 && t.p.below == p.below
    ensures forall c: byte :: c != WordLeft(p)[0] ==> JP.Once(dec, p, c).Bad?
  {
    JP.OnceKeeps(dec, p, WordLeft(p)[0]);
  }

  lemma WordSame(q: JP.Parser, r: JP.Parser)
    requires InWord(q) && Same(r, q) && JP.Live(r)
    ensures InWord(r) && WordLeft(r) == WordLeft(q) && WordValue(r) == WordValue(q) && r.below == q.below
  {
  }

  lemma {:induction false} WordFeeds(dec: JP.DecimalText, p: JP.Parser, rest: seq<byte>) returns (q: JP.Parser)
    requires InWord(p)
    ensures Ended(q, p.below) && Moves(dec, p, WordLeft(p) + rest, Visit(WordValue(p)), q, rest)
    decreases |WordLeft(p)|
  {
    hide JP.Feed, JP.Once, WordLeft, WordValue;
    var left := WordLeft(p);
    WordTurn(dec, p);
    var r := Takes(dec, p, left[0], left[1..] + rest);
    assert left + rest == [left[0]] + (left[1..] + rest);
    if |left| == 1 {
      q := r;
      assert left[1..] + rest == rest;
    } else {
      WordSame(JP.Once(dec, p, left[0]).p, r);
      q := WordFeeds(dec, r, rest);
      Quietly(dec, p, left + rest, r, left[1..] + rest, Visit(WordValue(p)), q, rest);
    }
  }

  lemma {:induction false} WordRead(dec: JP.DecimalText, p: JP.Parser, s: seq<byte>)
    returns (q: JP.Parser, rest: seq<byte>)
    requires InWord(p) && Ends(dec, p, s)
    ensures s == WordLeft(p) + rest && Ended(q, p.below) && Moves(dec, p, s, Visit(WordValue(p)), q, rest)
    decreases |WordLeft(p)|
  {
    hide JP.Feed, JP.Once, WordLeft, WordValue;
    var left := WordLeft(p);
    WordTurn(dec, p);
    var r := Turns(dec, p, s);
    assert s == [s[0]] + s[1..];
    if |left| == 1 {
      q, rest := r, s[1..];
      assert left == [s[0]];
    } else {
      WordSame(JP.Once(dec, p, s[0]).p, r);
      q, rest := WordRead(dec, r, s[1..]);
      Quietly(dec, p, s, r, s[1..], Visit(WordValue(p)), q, rest);
      assert left == [left[0]] + left[1..];
    }
  }

  predicate Numeric(t: seq<byte>) {
    forall i :: 0 <= i < |t| ==> JP.IsNumeric(t[i])
  }

  lemma {:induction false} NumberFeeds(dec: JP.DecimalText, p: JP.Parser, t: seq<byte>, rest: seq<byte>)
    returns (q: JP.Parser)
    requires JP.Live(p) && p.top.state == JP.Number && Numeric(t)
    ensures JP.Live(q) && q.top.state == JP.Number && q.below == p.below && q.str == p.str + t
    ensures q.isDecimal <==> p.isDecimal || Fractional(t)
    ensures Moves(dec, p, t + rest, [], q, rest)
    decreases |t|
  {
    hide JP.Feed;
    if t == [] {
      q := p;
      Stays(dec, p, rest);
      assert t + rest == rest && p.str + t == p.str;
    } else {
      var r := Takes(dec, p, t[0], t[1..] + rest);
      assert t + rest == [t[0]] + (t[1..] + rest) && t == [t[0]] + t[1..];
      q := NumberFeeds(dec, r, t[1..], rest);
      Quietly(dec, p, t + rest, r, t[1..] + rest, [], q, rest);
      assert p.str + [t[0]] + t[1..] == p.str + t;
    }
  }

  lemma {:induction false} NumberRead(dec: JP.DecimalText, p: JP.Parser, s: seq<byte>)
    returns (t: seq<byte>, q: JP.Parser, rest: seq<byte>)
    requires p.top.state == JP.Number && Ends(dec, p, s)
    ensures s == t + rest && Numeric(t) && rest != [] && !JP.IsNumeric(rest[0])
    ensures JP.Live(q) && q.top.state == JP.Number && q.below == p.below && q.str == p.str + t
    ensures q.isDecimal <==> p.isDecimal || Fractional(t)
    ensures Moves(dec, p, s, [], q, rest) && Ends(dec, q, rest)
    ensures JP.IsNumeric(s[0]) ==> t != [] && t[0] == s[0]
    decreases |s|
  {
    hide JP.Feed;
    EndsNonEmpty(dec, p, s);
    if JP.IsNumeric(s[0]) {
      var r := Turns(dec, p, s);
      var u;
      u, q, rest := NumberRead(dec, r, s[1..]);
      t := [s[0]] + u;
      Quietly(dec, p, s, r, s[1..], [], q, rest);
      assert p.str + [s[0]] + u == p.str + t;
    } else {
      t, q, rest := [], p, s;
      Stays(dec, p, s);
      assert p.str + t == p.str;
    }
  }

  /** What a collected text amounts to at the first character that is none of it. */
  lemma NumberTurn(dec: JP.DecimalText, p: JP.Parser, c: byte)
    requires JP.Live(p) && p.top.state == JP.Number && !JP.IsNumeric(c) && (p.isDecimal <==> Fractional(p.str))
    requires p.str != [] && (IsDigit(p.str[0]) || p.str[0] == 45) && Numeric(p.str)
    ensures var t := JP.Once(dec, p, c);
            if GoodNumber(dec, p.str) then
              t.Again? && Ended(t.p, p.below) && t.heard == Visit(Meaning(dec, NumberForm(p.str)))
            else t.Bad?
  {
    JP.OnceKeeps(dec, p, c);
    forall i | 0 <= i < |p.str| ensures IsDigit(p.str[i]) || p.str[i] in [43, 45, 46, 69, 101] {
      assert JP.IsNumeric(p.str[i]);
    }
  }
}
