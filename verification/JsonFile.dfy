/** Loading a file of JSON records, whatever pieces it is read in (the record loop of MojDbAdmin::loadFile). */
module JsonFiles {
  import opened Bytes
  import opened Values
  import opened ObjectBuilders
  import opened JsonGrammars
  import opened JsonReadings
  import opened JsonAccepts
  import opened JsonRefusals
  import opened JsonWriters
  import opened JsonRoundTrips
  import JP = JsonParsers

  /** The parser, what the visitor heard since its reset, the records stored, and the error that ended it all. */
  datatype Load = Load(p: JP.Parser, heard: seq<Event>, records: seq<seq<Event>>, error: Option<JP.Error>)

  const BEGUN := Load(JP.FRESH, [], [], None)

  /** A finished value is stored, and parser and visitor start over. */
  function Store(st: Load, p: JP.Parser, heard: seq<Event>): Load {
    st.(p := JP.Begin(p), heard := [], records := st.records + [st.heard + heard])
  }

  /** An error ends the load; the parser is not used again. */
  function Refuse(st: Load, heard: seq<Event>, error: JP.Error): Load {
    st.(p := JP.FRESH, heard := st.heard + heard, error := Some(error))
  }

  /** Past white space, a plain character meets the saved state. */
  lemma Skips(dec: JP.DecimalText, p: JP.Parser, c: byte)
    requires Eating(p) && Plain(c)
    ensures JP.Live(JP.To(p, p.top.saved)) && JP.Switch(dec, p, c) == JP.Switch(dec, JP.To(p, p.top.saved), c)
  {
    BlanksAreSpaces(c);
    JP.OnceKeeps(dec, p, c);
    JP.LateNothing(JP.Switch(dec, JP.To(p, p.top.saved), c));
  }

  lemma StartIsUsed(dec: JP.DecimalText, p: JP.Parser, c: byte)
    requires JP.Live(p) && p.top.state == JP.Start
    ensures !JP.Switch(dec, p, c).Stop?
  {
    var t := JP.OnStart(p, c);
    JP.OnceKeeps(dec, p, c);
    if t.Again? {
      assert !JP.Once(dec, t.p, c).Again? && !JP.Once(dec, t.p, c).Halt?;
    }
  }

  /** A new record takes at least its first character. */
  lemma FirstIsUsed(dec: JP.DecimalText, p: JP.Parser, c: byte)
    requires JP.Live(p) && p.top == JP.RESET
    ensures !JP.Switch(dec, p, c).Stop?
  {
    BlanksAreSpaces(c);
    if Plain(c) {
      Skips(dec, p, c);
      StartIsUsed(dec, JP.To(p, JP.Start), c);
    }
  }

  /** A buffer used up never leaves the parser at a finished value. */
  lemma {:induction false} MoreIsUnfinished(dec: JP.DecimalText, p: JP.Parser, s: seq<byte>)
    requires JP.Live(p) && s != [] && JP.Feed(dec, p, s).More?
    ensures JP.Feed(dec, p, s).p.top.state != JP.Finish
    decreases |s|
  {
    var f := JP.Switch(dec, JP.Counted(p, s[0]), s[0]);
    if |s| > 1 {
      MoreIsUnfinished(dec, f.p, s[1..]);
    }
  }

  /** Progress of the record loop: either characters go, or the record that was complete. */
  function Pending(p: JP.Parser): nat {
    if p.top == JP.RESET then 0 else 1
  }

  lemma StoppedShrinks(dec: JP.DecimalText, p: JP.Parser, s: seq<byte>)
    requires JP.Live(p) && JP.Feed(dec, p, s).Stopped?
    ensures |JP.Feed(dec, p, s).rest| <= |s|
    ensures |JP.Feed(dec, p, s).rest| == |s| ==> Pending(p) == 1
  {
    JP.RestIsTail(dec, p, s);
    if p.top == JP.RESET {
      FirstIsUsed(dec, JP.Counted(p, s[0]), s[0]);
      JP.RestIsTail(dec, JP.Switch(dec, JP.Counted(p, s[0]), s[0]).p, s[1..]);
    }
  }

  /** The inner loop: one buffer. */
  function LoadBuffer(dec: JP.DecimalText, st: Load, buf: seq<byte>): (r: Load)
    requires JP.Live(st.p)
    ensures JP.Live(r.p)
    decreases |buf|, Pending(st.p)
  {
    if buf == [] || st.error.Some? then st
    else match JP.Feed(dec, st.p, buf)
      case Failed(h, e) => Refuse(st, h, e)
      case More(q, h) =>
        if JP.Finished(q) then Store(st, q, h) else st.(p := q, heard := st.heard + h)
      case Stopped(q, h, rest) =>
        StoppedShrinks(dec, st.p, buf);
        LoadBuffer(dec, Store(st, q, h), rest)
  }

  /** The end of the file: one NUL, and the last record if that completes it. */
  function LoadEnd(dec: JP.DecimalText, st: Load): Load
    requires JP.Live(st.p)
  {
    if st.error.Some? then st
    else match JP.Feed(dec, st.p, [0])
      case Failed(h, e) => Refuse(st, h, e)
      case f => if JP.Finished(f.p) then Store(st, f.p, f.heard) else st.(p := f.p, heard := st.heard + f.heard)
  }

  function LoadBuffers(dec: JP.DecimalText, st: Load, bufs: seq<seq<byte>>): (r: Load)
    requires JP.Live(st.p)
    ensures JP.Live(r.p)
    decreases |bufs|
  {
    if bufs == [] then st else LoadBuffers(dec, LoadBuffer(dec, st, bufs[0]), bufs[1..])
  }

  /** With part of the buffer behind, the rest is loaded as if it were a buffer of its own. */
  lemma LoadOn(dec: JP.DecimalText, st: Load, s: seq<byte>, q: JP.Parser, h: seq<Event>, b: seq<byte>)
    requires JP.Live(st.p) && JP.Live(q) && s != [] && b != [] && st.error == None
    requires JP.Feed(dec, st.p, s) == JP.Hear(h, JP.Feed(dec, q, b))
    ensures LoadBuffer(dec, st, s) == LoadBuffer(dec, st.(p := q, heard := st.heard + h), b)
  {
    var f := JP.Feed(dec, q, b);
    Assoc(st.heard, h, f.heard);
    if f.Stopped? {
      StoppedShrinks(dec, q, b);
      assert Store(st, f.p, h + f.heard) == Store(st.(p := q, heard := st.heard + h), f.p, f.heard);
    }
  }

  /** Reading on after a buffer is the same as having had it all in one. */
  lemma {:induction false} LoadConcat(dec: JP.DecimalText, st: Load, a: seq<byte>, b: seq<byte>)
    requires JP.Live(st.p)
    ensures LoadBuffer(dec, st, a + b) == LoadBuffer(dec, LoadBuffer(dec, st, a), b)
    decreases |a|, Pending(st.p)
  {
    if a == [] {
      assert a + b == b;
    } else if b == [] {
      assert a + b == a;
    } else if st.error == None {
      JP.FeedConcat(dec, st.p, a, b);
      match JP.Feed(dec, st.p, a) {
        case Failed(_, _) =>
        case More(q, h) =>
          MoreIsUnfinished(dec, st.p, a);
          LoadOn(dec, st, a + b, q, h, b);
        case Stopped(q, h, rest) =>
          StoppedShrinks(dec, st.p, a);
          LoadConcat(dec, Store(st, q, h), rest, b);
      }
    }
  }

  /** Records do not depend on where the reads were cut. */
  lemma {:induction false} ReadBoundariesDoNotMatter(dec: JP.DecimalText, st: Load, bufs: seq<seq<byte>>)
    requires JP.Live(st.p)
    ensures LoadBuffers(dec, st, bufs) == LoadBuffer(dec, st, JP.Flatten(bufs))
    decreases |bufs|
  {
    if bufs != [] {
      LoadConcat(dec, st, bufs[0], JP.Flatten(bufs[1..]));
      ReadBoundariesDoNotMatter(dec, LoadBuffer(dec, st, bufs[0]), bufs[1..]);
    }
  }

  // ----- files of records -----

  /** Between records. */
  predicate Rested(st: Load) {
    JP.Live(st.p) && st.p.top == JP.RESET && st.p.below == [] && st.heard == [] && st.error == None
  }

  /** Records one after the other. */
  function Texts(slots: seq<Slot>): seq<byte> {
    if slots == [] then [] else SlotText(slots[0]) + Texts(slots[1..])
  }

  /** Documents within the depth, white space and comments and all, up to the rest of the file. */
  predicate InFile(dec: JP.DecimalText, slots: seq<Slot>, tail: seq<byte>)
    decreases |slots|
  {
    slots == [] ||
    (&& GoodSlot(dec, slots[0]) && Depth(SlotMeaning(dec, slots[0])) < JP.MAX_DEPTH
     && Follows(slots[0], Texts(slots[1..]) + tail) && InFile(dec, slots[1..], tail))
  }

  function Meanings(dec: JP.DecimalText, slots: seq<Slot>): seq<Value>
    requires forall i :: 0 <= i < |slots| ==> GoodSlot(dec, slots[i])
  {
    if slots == [] then [] else [SlotMeaning(dec, slots[0])] + Meanings(dec, slots[1..])
  }

  lemma {:induction false} AllGood(dec: JP.DecimalText, slots: seq<Slot>, tail: seq<byte>)
    requires InFile(dec, slots, tail)
    ensures forall i :: 0 <= i < |slots| ==> GoodSlot(dec, slots[i])
    decreases |slots|
  {
    if slots != [] {
      AllGood(dec, slots[1..], tail);
      assert forall i :: 0 < i < |slots| ==> slots[i] == slots[1..][i - 1];
    }
  }

  function Walks(objs: seq<Value>): seq<seq<Event>> {
    if objs == [] then [] else [Visit(objs[0])] + Walks(objs[1..])
  }

  /** The closing NUL between records stores nothing. */
  lemma EmptyEnd(dec: JP.DecimalText, st: Load)
    requires JP.Live(st.p) && st.p.top == JP.RESET && st.error == None
    ensures LoadEnd(dec, st).error == None && LoadEnd(dec, st).records == st.records
  {
    Skips(dec, st.p, 0);
    assert JP.Switch(dec, JP.To(st.p, JP.Start), 0).Took?;
    assert [0][1..] == [];
  }

  /** A record with something after it is stored once that begins. */
  lemma RecordStored(dec: JP.DecimalText, st: Load, s: Slot, rest: seq<byte>) returns (next: Load)
    requires Rested(st) && GoodSlot(dec, s) && Depth(SlotMeaning(dec, s)) < JP.MAX_DEPTH
    requires rest != [] && Follows(s, rest)
    ensures Rested(next) && next.records == st.records + [Visit(SlotMeaning(dec, s))]
    ensures LoadBuffer(dec, st, SlotText(s) + rest) == LoadBuffer(dec, next, rest)
  {
    hide JP.Feed, JP.Once;
    var e := Visit(SlotMeaning(dec, s));
    var q := SlotFeeds(dec, st.p, s, rest);
    Stops(dec, q, rest);
    assert e + [] == e && [] + e == e;
    JP.RestIsTail(dec, q, rest);
    next := Store(st, JP.Feed(dec, q, rest).p, e);
  }

  /** The last record is stored at the end of the file. */
  lemma LastRecord(dec: JP.DecimalText, st: Load, s: Slot)
    requires Rested(st) && GoodSlot(dec, s) && Depth(SlotMeaning(dec, s)) < JP.MAX_DEPTH
    ensures var r := LoadEnd(dec, LoadBuffer(dec, st, SlotText(s)));
            r.error == None && r.records == st.records + [Visit(SlotMeaning(dec, s))]
  {
    hide JP.Feed, JP.Once;
    var e := Visit(SlotMeaning(dec, s));
    var q := SlotFeeds(dec, st.p, s, [0]);
    Stops(dec, q, [0]);
    assert e + [] == e;
    EndStored(dec, st, SlotText(s), e);
  }

  lemma EndStored(dec: JP.DecimalText, st: Load, s: seq<byte>, e: seq<Event>)
    requires Rested(st) && s != [] && JP.Feed(dec, st.p, s + [0]).Stopped?
    requires JP.Feed(dec, st.p, s + [0]).heard == e && JP.Feed(dec, st.p, s + [0]).rest == [0]
    requires JP.Finished(JP.Feed(dec, st.p, s + [0]).p)
    ensures var r := LoadEnd(dec, LoadBuffer(dec, st, s)); r.error == None && r.records == st.records + [e]
  {
    hide JP.Switch, JP.Once;
    JP.FeedConcat(dec, st.p, s, [0]);
    if JP.Feed(dec, st.p, s).Stopped? {
      JP.RestIsTail(dec, st.p, s);
    } else {
      var f := JP.Feed(dec, st.p, s);
      MoreIsUnfinished(dec, st.p, s);
      assert st.heard + f.heard == f.heard;
      assert f.heard + JP.Feed(dec, f.p, [0]).heard == e;
    }
  }

  /** Records are stored, in order, before what comes behind them is looked at. */
  lemma {:induction false} RecordsStored(dec: JP.DecimalText, st: Load, slots: seq<Slot>, tail: seq<byte>)
    returns (next: Load)
    requires Rested(st) && InFile(dec, slots, tail) && tail != []
    ensures forall i :: 0 <= i < |slots| ==> GoodSlot(dec, slots[i])
    ensures Rested(next) && next.records == st.records + Walks(Meanings(dec, slots))
    ensures LoadBuffer(dec, st, Texts(slots) + tail) == LoadBuffer(dec, next, tail)
    decreases |slots|
  {
    AllGood(dec, slots, tail);
    if slots == [] {
      next := st;
      assert Texts(slots) + tail == tail;
    } else {
      var rest := Texts(slots[1..]) + tail;
      Assoc(SlotText(slots[0]), Texts(slots[1..]), tail);
      var r := RecordStored(dec, st, slots[0], rest);
      next := RecordsStored(dec, r, slots[1..], tail);
      Assoc(st.records, [Visit(SlotMeaning(dec, slots[0]))], Walks(Meanings(dec, slots[1..])));
    }
  }

  /** A file of records is split into exactly those records. */
  lemma {:induction false} FileSplits(dec: JP.DecimalText, st: Load, slots: seq<Slot>)
    requires Rested(st) && InFile(dec, slots, [])
    ensures forall i :: 0 <= i < |slots| ==> GoodSlot(dec, slots[i])
    ensures var r := LoadEnd(dec, LoadBuffer(dec, st, Texts(slots)));
            r.error == None && r.records == st.records + Walks(Meanings(dec, slots))
    decreases |slots|
  {
    AllGood(dec, slots, []);
    if slots == [] {
      EmptyEnd(dec, st);
    } else {
      var v, rest := SlotMeaning(dec, slots[0]), Texts(slots[1..]);
      if |slots| == 1 {
        LastRecord(dec, st, slots[0]);
        assert SlotText(slots[0]) + rest == SlotText(slots[0]) && Walks([v] + []) == [Visit(v)] + [];
      } else {
        assert rest + [] == rest;
        SlotFirst(dec, slots[1], Texts(slots[2..]));
        assert slots[1..][0] == slots[1] && slots[1..][1..] == slots[2..];
        var r := RecordStored(dec, st, slots[0], rest);
        FileSplits(dec, r, slots[1..]);
        Assoc(st.records, [Visit(v)], Walks(Meanings(dec, slots[1..])));
      }
    }
  }

  /** What goes wrong in a record ends the load with its error, and just the records before it are stored. */
  lemma BadRecord(dec: JP.DecimalText, st: Load, slots: seq<Slot>, os: seq<Opening>, f: Fault, tail: seq<byte>)
    requires Rested(st) && GoodOpenings(dec, os) && Wrong(dec, os, f)
    requires InFile(dec, slots, OpeningsText(os, FaultText(f, tail)))
    ensures forall i :: 0 <= i < |slots| ==> GoodSlot(dec, slots[i])
    ensures var r := LoadEnd(dec, LoadBuffer(dec, st, Texts(slots) + OpeningsText(os, FaultText(f, tail))));
            r.error == Some(ErrorOf(os, f)) && r.records == st.records + Walks(Meanings(dec, slots))
  {
    hide JP.Feed, JP.Once, Wrong;
    var bad := OpeningsText(os, FaultText(f, tail));
    FailsNonEmpty(dec, JP.FRESH, os, f, tail);
    var next := RecordsStored(dec, st, slots, bad);
    RefusedFrom(dec, next.p, os, f, tail);
  }

  lemma FailsNonEmpty(dec: JP.DecimalText, p: JP.Parser, os: seq<Opening>, f: Fault, tail: seq<byte>)
    requires JP.Live(p) && p.top == JP.RESET && p.below == [] && GoodOpenings(dec, os) && Wrong(dec, os, f)
    ensures OpeningsText(os, FaultText(f, tail)) != []
  {
    RefusedFrom(dec, p, os, f, tail);
  }

  // ----- files of newline-ended objects -----

  /** What a dump writes: each object on a line of its own. */
  function Lines(show: DecimalShow, objs: seq<Value>): seq<byte> {
    if objs == [] then [] else Json(show, objs[0]) + [10] + Lines(show, objs[1..])
  }

  /** Objects the parser can read: not too deep, and fit to be written. */
  predicate Loadable(show: DecimalShow, dec: JP.DecimalText, objs: seq<Value>) {
    objs == [] ||
    (objs[0].Object? && Writable(show, dec, objs[0]) && Depth(objs[0]) < JP.MAX_DEPTH && Loadable(show, dec, objs[1..]))
  }

  function LineOf(show: DecimalShow, v: Value): Slot {
    Slot([], 0, Spelled(show, v), [Blank(10)])
  }

  function LinesOf(show: DecimalShow, objs: seq<Value>): seq<Slot> {
    if objs == [] then [] else [LineOf(show, objs[0])] + LinesOf(show, objs[1..])
  }

  lemma LineIs(show: DecimalShow, dec: JP.DecimalText, v: Value)
    requires Loadable(show, dec, [v])
    ensures GoodSlot(dec, LineOf(show, v)) && SlotMeaning(dec, LineOf(show, v)) == v
    ensures SlotText(LineOf(show, v)) == Json(show, v) + [10] && Json(show, v)[0] == 123
  {
    SpelledIs(show, dec, v);
    assert GapText([Blank(10)]) == [10] by {
      assert [Blank(10)][1..] == [];
    }
  }

  /** Such lines are records of a file. */
  lemma {:induction false} LinesAre(show: DecimalShow, dec: JP.DecimalText, objs: seq<Value>)
    requires Loadable(show, dec, objs)
    ensures Texts(LinesOf(show, objs)) == Lines(show, objs) && InFile(dec, LinesOf(show, objs), [])
    ensures forall i :: 0 <= i < |LinesOf(show, objs)| ==> GoodSlot(dec, LinesOf(show, objs)[i])
    ensures Meanings(dec, LinesOf(show, objs)) == objs
    ensures objs != [] ==> Lines(show, objs)[0] == 123
    decreases |objs|
  {
    if objs != [] {
      LineIs(show, dec, objs[0]);
      LinesAre(show, dec, objs[1..]);
      var more := LinesOf(show, objs[1..]);
      assert ([LineOf(show, objs[0])] + more)[1..] == more;
      assert Texts(more) + [] == Texts(more);
      AllGood(dec, LinesOf(show, objs), []);
      assert [objs[0]] + objs[1..] == objs;
    }
  }

  /** The whole load: any way of reading such a file gives back its objects' walks, in order, and no error. */
  lemma LoadedAsDumped(show: DecimalShow, dec: JP.DecimalText, objs: seq<Value>, bufs: seq<seq<byte>>)
    requires Loadable(show, dec, objs) && JP.Flatten(bufs) == Lines(show, objs)
    ensures var r := LoadEnd(dec, LoadBuffers(dec, BEGUN, bufs)); r.error == None && r.records == Walks(objs)
  {
    ReadBoundariesDoNotMatter(dec, BEGUN, bufs);
    LinesAre(show, dec, objs);
    FileSplits(dec, BEGUN, LinesOf(show, objs));
    assert [] + Walks(objs) == Walks(objs);
  }

  // ----- the end of a cut-off file -----

  /** The state the parser is really in, white space aside. */
  function Effective(p: JP.Parser): JP.State {
    if p.top.state == JP.EatWhitespace then p.top.saved else p.top.state
  }

  /** States in which the closing NUL is one more character. */
  predicate TakesNul(p: JP.Parser) {
    var s := Effective(p);
    || s == JP.Start || s == JP.StringState || s == JP.ObjField
    || s == JP.Comment || s == JP.CommentEol || s == JP.CommentEnd
    || ((s == JP.ArrayState || s == JP.ObjValue) && |p.below| < JP.MAX_DEPTH - 1)
  }

  lemma NulAtStart(dec: JP.DecimalText, p: JP.Parser)
    requires JP.Live(p) && p.top.state == JP.Start
    ensures JP.Switch(dec, p, 0).Took?
  {
  }

  lemma NulAtReset(dec: JP.DecimalText, p: JP.Parser)
    requires JP.Live(p) && p.top == JP.RESET
    ensures JP.Switch(dec, p, 0).Took?
  {
    Skips(dec, p, 0);
    NulAtStart(dec, JP.To(p, JP.Start));
  }

  /** A finished value inside a container cannot be followed by NUL. */
  lemma NulAtFinish(dec: JP.DecimalText, p: JP.Parser)
    requires JP.Live(p) && p.top.state == JP.Finish
    ensures !JP.Switch(dec, p, 0).Took?
  {
    JP.OnceKeeps(dec, p, 0);
    if p.below != [] {
      var q := JP.Once(dec, p, 0).p;
      assert JP.Parked(q.top);
      if q.top.state == JP.EatWhitespace {
        Skips(dec, q, 0);
      }
    }
  }

  /** The states that deal with a NUL in one pass. */
  lemma NulAtOnce(dec: JP.DecimalText, p: JP.Parser)
    requires JP.Live(p) && !JP.Once(dec, p, 0).Again?
    ensures JP.Switch(dec, p, 0).Took? <==> JP.Once(dec, p, 0).Used?
  {
  }

  lemma NulUsed(dec: JP.DecimalText, p: JP.Parser)
    requires JP.Live(p) && p.top.state != JP.EatWhitespace
    ensures match JP.Once(dec, p, 0)
            case Used(_, _) => TakesNul(p)
            case Again(_, _) => true
            case _ => !TakesNul(p)
  {
  }

  lemma NulElsewhere(dec: JP.DecimalText, p: JP.Parser)
    requires JP.Live(p) && p.top.state != JP.EatWhitespace
    ensures JP.Switch(dec, p, 0).Took? <==> TakesNul(p)
  {
    var t := JP.Once(dec, p, 0);
    JP.OnceKeeps(dec, p, 0);
    if !t.Again? {
      NulUsed(dec, p);
      NulAtOnce(dec, p);
    } else if p.top.state == JP.Finish {
      NulAtFinish(dec, p);
    } else {
      NulAgain(dec, p);
    }
  }

  /** The states that enter the switch again. */
  lemma NulAgain(dec: JP.DecimalText, p: JP.Parser)
    requires JP.Live(p) && p.top.state != JP.EatWhitespace && p.top.state != JP.Finish && JP.Once(dec, p, 0).Again?
    ensures JP.Switch(dec, p, 0).Took? <==> TakesNul(p)
  {
    var t := JP.Once(dec, p, 0);
    JP.OnceKeeps(dec, p, 0);
    if p.top.state == JP.Number {
      Skips(dec, t.p, 0);
      NulAtFinish(dec, JP.To(t.p, JP.Finish));
    } else if p.top.state == JP.CommentEnd {
      NulAtOnce(dec, t.p);
    } else {
      NulAtReset(dec, t.p);
    }
  }

  /**
   * The end of a file: the end of file error is never raised, and nothing more is stored and nothing reported exactly
   * if the NUL that marks the end is taken for one more character. Between records that is as it should be; inside a
   * record it drops the record in silence.
   */
  lemma CutOffRecord(dec: JP.DecimalText, st: Load)
    requires JP.Live(st.p) && st.error == None
    ensures LoadEnd(dec, st).error != Some(JP.ParseEof)
    ensures LoadEnd(dec, st).error == None && LoadEnd(dec, st).records == st.records <==> TakesNul(st.p)
  {
    if st.p.top.state == JP.EatWhitespace {
      Skips(dec, st.p, 0);
      NulElsewhere(dec, JP.To(st.p, st.p.top.saved));
    } else {
      NulElsewhere(dec, st.p);
    }
    assert [0][1..] == [];
  }

  /** A file that ends inside a string loads nothing and reports nothing. */
  lemma SilentLoss(dec: JP.DecimalText)
    ensures var r := LoadEnd(dec, LoadBuffer(dec, BEGUN, [123, 34, 97])); r.error == None && r.records == []
  {
    var q := StringInside(dec, JP.FRESH);
    CutOffRecord(dec, LoadBuffer(dec, BEGUN, [123, 34, 97]));
  }

  /** An object that goes as far as the first letter of a name. */
  lemma StringInside(dec: JP.DecimalText, p: JP.Parser) returns (q: JP.Parser)
    requires JP.Live(p) && p.top == JP.RESET
    ensures Reads(dec, p, [123, 34, 97], [BeginObject], q) && q.top.state == JP.ObjField
  {
    hide JP.Feed;
    var text: seq<byte> := [123] + ([34] + ([97] + []));
    var r := Enters(dec, p, text);
    var u := ContainerOpens(dec, r, 123, [34] + ([97] + []));
    Quietly(dec, p, text, r, text, [BeginObject], u, [34] + ([97] + []));
    var w := Enters(dec, u, [34] + ([97] + []));
    var t := Takes(dec, w, 34, [97] + []);
    q := RawFeeds(dec, t, 97, []);
    Quietly(dec, w, [34] + ([97] + []), t, [97] + [], [], q, []);
    Quietly(dec, u, [34] + ([97] + []), w, [34] + ([97] + []), [], q, []);
    ThenQuietly(dec, p, text, [BeginObject], u, [34] + ([97] + []), q, []);
    assert text == [123, 34, 97] + [];
    MovesReads(dec, p, [123, 34, 97], [BeginObject], q);
  }

  /** Where the load stands after a call that left the parser here. */
  function Parsed(st: Load, at: JP.Parser, calls: seq<Event>): Load {
    if JP.Finished(at) then Store(st, at, calls) else st.(p := at, heard := st.heard + calls)
  }

  /** One call of `parseChunk` in the inner loop. */
  lemma BufferStep(dec: JP.DecimalText, st: Load, s: seq<byte>, at: JP.Parser, calls: seq<Event>, rest: seq<byte>)
    requires JP.Live(st.p) && s != [] && st.error == None && (rest == [] || JP.Finished(at))
    requires JP.Feed(dec, st.p, s) == JP.Hear(calls, JP.Result(at, rest, None))
    ensures |rest| <= |s| && (|rest| == |s| ==> Pending(st.p) == 1 && Pending(Parsed(st, at, calls).p) == 0)
    ensures JP.Live(Parsed(st, at, calls).p) && LoadBuffer(dec, st, s) == LoadBuffer(dec, Parsed(st, at, calls), rest)
  {
    assert calls + [] == calls;
    if rest == [] {
      MoreIsUnfinished(dec, st.p, s);
    } else {
      StoppedShrinks(dec, st.p, s);
    }
  }

  lemma EndStep(dec: JP.DecimalText, st: Load, at: JP.Parser, calls: seq<Event>, rest: seq<byte>,
                error: Option<JP.Error>)
    requires JP.Live(st.p) && st.error == None
    requires JP.Feed(dec, st.p, [0]) == JP.Hear(calls, JP.Result(at, rest, error))
    ensures var r := LoadEnd(dec, st);
            && r.error == error
            && r.records == if error == None && JP.Finished(at) then st.records + [st.heard + calls] else st.records
  {
    assert calls + [] == calls;
  }

  /** The loop's variables are at this point of the load. */
  predicate Matches(at: JP.Parser, heard: seq<Event>, records: seq<seq<Event>>, error: Option<JP.Error>, r: Load) {
    error == r.error && records == r.records && (error == None ==> at == r.p && heard == r.heard)
  }

  /** The inner loop: parse on until the buffer is used up, storing each record that is finished. */
  method ParseBuffer(dec: JP.DecimalText, parser: JP.JsonParser, buf: seq<byte>, stored: seq<seq<Event>>)
    returns (records: seq<seq<Event>>, error: Option<JP.Error>)
    requires JP.Live(parser.at)
    modifies parser
    ensures Matches(parser.at, parser.heard, records, error,
                    LoadBuffer(dec, Load(old(parser.at), old(parser.heard), stored, None), buf))
  {
    records, error := stored, None;
    var parseEnd := 0;
    ghost var st := Load(parser.at, parser.heard, stored, None);
    ghost var goal := LoadBuffer(dec, st, buf);
    ghost var rest := buf;
    while parseEnd < |buf|
      invariant parseEnd <= |buf| && JP.Live(st.p) && error == None
      invariant st == Load(parser.at, parser.heard, records, None)
      invariant rest == buf[parseEnd..] && goal == LoadBuffer(dec, st, rest)
      decreases |buf| - parseEnd, Pending(st.p)
    {
      var used;
      ghost var calls;
      used, error, calls := parser.ParseChunk(dec, buf[parseEnd..]);
      if error != None {
        return;
      }
      BufferStep(dec, st, rest, parser.at, calls, rest[used..]);
      st, rest := Parsed(st, parser.at, calls), rest[used..];
      parseEnd := parseEnd + used;
      if JP.Finished(parser.at) {
        records := records + [parser.heard];
        parser.Restart();
        parser.heard := [];
      }
    }
  }

  /** After the last read: the closing NUL, and the last record. */
  method ParseEnd(dec: JP.DecimalText, parser: JP.JsonParser, bytesRead: nat, stored: seq<seq<Event>>)
    returns (records: seq<seq<Event>>, error: Option<JP.Error>)
    requires JP.Live(parser.at) && bytesRead == 0
    modifies parser
    ensures var r := LoadEnd(dec, Load(old(parser.at), old(parser.heard), stored, None));
            records == r.records && error == r.error
  {
    ghost var st := Load(parser.at, parser.heard, stored, None);
    records := stored;
    var used;
    ghost var calls;
    used, error, calls := parser.ParseChunk(dec, [0]);
    EndStep(dec, st, parser.at, calls, [0][used..], error);
    if error == None {
      if JP.Finished(parser.at) {
        records := records + [parser.heard];
      } else if bytesRead > 0 {
        error := Some(JP.ParseEof);
      }
    }
  }

  /** `loadFile`'s record loop; `file` is what the reads give before the empty one. */
  method LoadFile(dec: JP.DecimalText, file: seq<seq<byte>>) returns (records: seq<seq<Event>>, error: Option<JP.Error>)
    requires forall i :: 0 <= i < |file| ==> file[i] != []
    ensures var r := LoadEnd(dec, LoadBuffers(dec, BEGUN, file)); records == r.records && error == r.error
  {
    var parser := new JP.JsonParser();
    records, error := [], None;
    var k, bytesRead: nat := 0, 1;
    ghost var st := BEGUN;
    while bytesRead > 0
      invariant k <= |file| && JP.Live(st.p) && fresh(parser) && error == None
      invariant st == Load(parser.at, parser.heard, records, None)
      invariant LoadBuffers(dec, BEGUN, file) == LoadBuffers(dec, st, file[k..])
      invariant bytesRead == 0 ==> k == |file|
      decreases |file| - k, bytesRead
    {
      var buf := if k < |file| then file[k] else [];
      bytesRead := |buf|;
      if bytesRead > 0 {
        BuffersStep(dec, st, file, k);
        st := LoadBuffer(dec, st, buf);
        k := k + 1;
        records, error := ParseBuffer(dec, parser, buf, records);
        if error != None {
          ErrorStays(dec, st, file[k..]);
          return;
        }
      }
    }
    records, error := ParseEnd(dec, parser, bytesRead, records);
  }

  lemma BuffersStep(dec: JP.DecimalText, st: Load, file: seq<seq<byte>>, k: nat)
    requires JP.Live(st.p) && k < |file|
    ensures LoadBuffers(dec, st, file[k..]) == LoadBuffers(dec, LoadBuffer(dec, st, file[k]), file[k + 1..])
  {
    assert file[k..][1..] == file[k + 1..];
  }

  lemma {:induction false} ErrorStays(dec: JP.DecimalText, st: Load, bufs: seq<seq<byte>>)
    requires JP.Live(st.p) && st.error.Some?
    ensures LoadBuffers(dec, st, bufs) == st
    decreases |bufs|
  {
    if bufs != [] {
      ErrorStays(dec, st, bufs[1..]);
    }
  }
}
