/** The reader as the object it is: a cursor over a buffer that drives a builder. */
module BinaryReader {
  import opened Bytes
  import opened Values
  import opened Encoding
  import opened ObjectBuilders
  import opened ObjectWriters
  import opened ObjectReaders

  lemma FromBigEndianPositions(s: seq<byte>)
    ensures |s| == 2 ==> FromBigEndian(s) == s[1] as int + (s[0] as int) * 0x100
    ensures |s| == 4 ==>
              FromBigEndian(s) == s[3] as int + (s[2] as int) * 0x100 + (s[1] as int) * 0x1_0000 +
                  (s[0] as int) * 0x100_0000
  {
    if |s| == 2 {
      assert FromBigEndian(s[..1]) == s[0] by { assert s[..1][..0] == []; }
    }
    if |s| == 4 {
      assert s[..3][..2] == s[..2] && s[..2][..1] == s[..1] && s[..1][..0] == [];
      assert FromBigEndian(s[..1]) == s[0];
      assert FromBigEndian(s[..2]) == 256 * (s[0] as int) + s[1] as int;
      assert FromBigEndian(s[..3]) == 256 * (256 * (s[0] as int) + s[1] as int) + s[2] as int;
    }
  }

  lemma {:induction false} FromBigEndianSplit(s: seq<byte>, t: seq<byte>)
    ensures FromBigEndian(s + t) == FromBigEndian(s) * Pow256(|t|) + FromBigEndian(t)
  {
    if t == [] {
      assert s + t == s;
    } else {
      var n := |t| - 1;
      assert (s + t)[..|s| + n] == s + t[..n];
      FromBigEndianSplit(s, t[..n]);
      assert Pow256(|t|) == 256 * Pow256(n);
      assert 256 * (FromBigEndian(s) * Pow256(n)) == FromBigEndian(s) * Pow256(|t|);
    }
  }

  /** A string with no NUL before a position ends there, with the NUL or without one. */
  lemma {:induction false} FirstNul(s: seq<byte>, n: nat)
    requires n <= |s| && (forall k :: 0 <= k < n ==> s[k] != 0) && (n < |s| ==> s[n] == 0)
    ensures FindNul(s) == if n < |s| then Ok(n) else Err(UnexpectedEof)
    decreases n
  {
    if n > 0 {
      FirstNul(s[1..], n - 1);
    }
  }

  class ObjectReader {
    const data: seq<byte>
    var pos: nat
    var stack: seq<Expect>
    var skipBeginObj: bool

    ghost predicate InBounds()
      reads this
    {
      pos <= |data|
    }

    ghost function State(): ReaderState
      requires InBounds()
      reads this
    {
      ReaderState(data[pos..], stack, skipBeginObj)
    }

    constructor (bytes: seq<byte>)
      ensures data == bytes && InBounds() && State() == ReaderState(bytes, [], false)
    {
      data, pos, stack, skipBeginObj := bytes, 0, [], false;
    }

    method ReadUInt8() returns (r: Result<byte>)
      requires InBounds()
      modifies this`pos
      ensures InBounds() && (r.Ok? <==> old(State()).rest != [])
      ensures r.Ok? ==> r.value == old(State()).rest[0] && data[pos..] == old(State()).rest[1..]
      ensures r.Err? ==> r.error == UnexpectedEof
    {
      if pos == |data| {
        return Err(UnexpectedEof);
      }
      r := Ok(data[pos]);
      pos := pos + 1;
    }

    method ReadUInt16() returns (r: Result<nat>)
      requires InBounds()
      modifies this`pos
      ensures InBounds() && r == ReadUnsigned(old(State()).rest, 2)
      ensures r.Ok? ==> data[pos..] == old(State()).rest[2..]
    {
      if |data| - pos < 2 {
        return Err(UnexpectedEof);
      }
      FromBigEndianPositions(data[pos..][..2]);
      r := Ok(data[pos + 1] as int + (data[pos] as int) * 0x100);
      pos := pos + 2;
    }

    method ReadUInt32() returns (r: Result<nat>)
      requires InBounds()
      modifies this`pos
      ensures InBounds() && r == ReadUnsigned(old(State()).rest, 4)
      ensures r.Ok? ==> data[pos..] == old(State()).rest[4..]
    {
      if |data| - pos < 4 {
        return Err(UnexpectedEof);
      }
      FromBigEndianPositions(data[pos..][..4]);
      r := Ok(data[pos + 3] as int + (data[pos + 2] as int) * 0x100 + (data[pos + 1] as int) * 0x1_0000 +
              (data[pos] as int) * 0x100_0000);
      pos := pos + 4;
    }

    /** Two's complement: the high bytes wrap into the sign. */
    method ReadInt64() returns (r: Result<int64>)
      requires InBounds()
      modifies this`pos
      ensures InBounds() && r == ReadSigned(old(State()).rest, 8)
      ensures r.Ok? ==> data[pos..] == old(State()).rest[8..]
    {
      if |data| - pos < 8 {
        return Err(UnexpectedEof);
      }
      ghost var all := data[pos..][..8];
      assert all == data[pos..pos + 4] + data[pos + 4..pos + 8];
      FromBigEndianSplit(data[pos..pos + 4], data[pos + 4..pos + 8]);
      Pow256Values();
      var high := ReadUInt32();
      assert data[pos - 4..][..4] == data[pos - 4..pos];
      var low := ReadUInt32();
      assert data[pos - 4..][..4] == data[pos - 4..pos];
      r := Ok(ToSigned64(high.value * 0x1_0000_0000 + low.value));
    }

    /** The string up to the next NUL, which is skipped. */
    method ReadString() returns (r: Result<seq<byte>>)
      requires InBounds()
      modifies this`pos
      ensures InBounds()
      ensures match FindNul(old(State()).rest)
              case Err(e) => r == Err(e)
              case Ok(n) => r == Ok(old(State()).rest[..n]) && data[pos..] == old(State()).rest[n + 1..]
    {
      var i := pos;
      while i < |data| && data[i] != 0
        invariant pos <= i <= |data| && forall k :: pos <= k < i ==> data[k] != 0
      {
        i := i + 1;
      }
      FirstNul(data[pos..], i - pos);
      if i == |data| {
        return Err(UnexpectedEof);
      }
      assert data[pos..][..i - pos] == data[pos..i];
      r := Ok(data[pos..i]);
      pos := i + 1;
    }

    method ReadInt(marker: byte) returns (r: Result<int64>)
      requires InBounds() && IsIntMarker(marker)
      modifies this`pos
      ensures InBounds() && r == ReadSigned(old(State()).rest, WidthOf(marker))
      ensures r.Ok? ==> data[pos..] == old(State()).rest[WidthOf(marker)..]
    {
      Pow256Values();
      if marker == ZERO_INT {
        assert FromBigEndian(data[pos..][..0]) == 0;
        r := Ok(0);
      } else if marker == UINT8 {
        var b := ReadUInt8();
        if b.Err? {
          return Err(b.error);
        }
        assert old(State()).rest[..1][..0] == [];
        r := Ok(b.value);
      } else if marker == UINT16 {
        var n := ReadUInt16();
        r := if n.Err? then Err(n.error) else Ok(n.value);
      } else if marker == UINT32 {
        var n := ReadUInt32();
        r := if n.Err? then Err(n.error) else Ok(n.value);
      } else {
        r := ReadInt64();
      }
    }

    /** A value whose marker has been read and whose expectation has been popped. */
    method ReadValueBody(marker: byte) returns (r: Result<seq<Event>>)
      requires InBounds()
      modifies this
      ensures InBounds()
      ensures var spec := ReadValue(marker, old(State()).rest, old(stack), old(skipBeginObj));
              if r.Ok? then spec == Ok(Read(State(), r.value)) else spec == Err(r.error)
    {
      if marker == OBJECT_BEGIN {
        stack := stack + [InObject];
        r := Ok(if skipBeginObj then [] else [BeginObject]);
        skipBeginObj := false;
      } else if marker == ARRAY_BEGIN {
        stack := stack + [InArray];
        r := Ok([BeginArray]);
      } else if marker == STRING_MARKER {
        var s := ReadString();
        r := if s.Err? then Err(s.error) else Ok([StringValue(s.value)]);
      } else if marker == NULL_MARKER {
        r := Ok([NullValue]);
      } else if marker == TRUE_MARKER {
        r := Ok([BoolValue(true)]);
      } else if marker == FALSE_MARKER {
        r := Ok([BoolValue(false)]);
      } else if marker == NEGATIVE_DECIMAL || marker == POSITIVE_DECIMAL {
        var rep := ReadInt64();
        r := if rep.Err? then Err(rep.error) else Ok([DecimalValue(rep.value)]);
      } else if IsIntMarker(marker) {
        var i := ReadInt(marker);
        r := if i.Err? then Err(i.error) else Ok([IntValue(i.value)]);
      } else if marker == EXTENSION {
        var size := ReadUInt32();
        if size.Err? {
          return Err(size.error);
        }
        if |data| - pos < size.value {
          return Err(UnexpectedEof);
        }
        pos := pos + size.value;
        r := Ok([]);
      } else {
        r := Err(UnexpectedMarker);
      }
    }

    /** One step: the events are those the visitor is sent. After an error the reader is not used again. */
    method Next() returns (r: Result<seq<Event>>)
      requires InBounds()
      modifies this
      ensures InBounds()
      ensures var spec := Step(old(State()));
              if r.Ok? then spec == Ok(Read(State(), r.value)) else spec == Err(r.error)
    {
      if stack == [] {
        stack := [ExpectValue];
      }
      var m := ReadUInt8();
      if m.Err? {
        return Err(m.error);
      }
      var n := |stack| - 1;
      match stack[n] {
        case ExpectValue =>
          stack := stack[..n];
          r := ReadValueBody(m.value);
        case InObject =>
          if m.value == OBJECT_END {
            stack := stack[..n];
            r := Ok([EndObject]);
          } else if m.value == STRING_MARKER {
            var s := ReadString();
            if s.Err? {
              return Err(s.error);
            }
            stack := stack + [ExpectValue];
            r := Ok([PropName(s.value)]);
          } else {
            r := Err(UnexpectedMarker);
          }
        case InArray =>
          if m.value == OBJECT_END {
            stack := stack[..n];
            r := Ok([EndArray]);
          } else {
            stack := stack + [ExpectValue];
            stack := stack[..n + 1];
            r := ReadValueBody(m.value);
          }
      }
    }
  }

  /** How many containers the reader has open. */
  function Open(stack: seq<Expect>): (n: nat)
  {
    if stack == [] then 0
    else Open(stack[..|stack| - 1]) + if stack[|stack| - 1] == ExpectValue then 0 else 1
  }

  lemma OpenAppend(s: seq<Expect>, e: Expect)
    ensures Open(s + [e]) == Open(s) + if e == ExpectValue then 0 else 1
  {
    assert (s + [e])[..|s|] == s;
  }

  lemma BodyKeepsDepth(marker: byte, rest: seq<byte>, stack: seq<Expect>)
    requires ReadValue(marker, rest, stack, false).Ok?
    ensures var v := ReadValue(marker, rest, stack, false).value;
            && !v.st.skipBegin && |v.events| <= 1
            && Open(v.st.stack) ==
               Open(stack) + (if v.events != [] && (v.events[0].BeginObject? || v.events[0].BeginArray?) then 1 else 0)
            && (v.events != [] ==> !v.events[0].EndObject? && !v.events[0].EndArray?)
  {
    OpenAppend(stack, InObject);
    OpenAppend(stack, InArray);
  }

  lemma StepKeepsDepth(st: ReaderState)
    requires Step(st).Ok? && !st.skipBegin
    ensures var v := Step(st).value;
            && !v.st.skipBegin && |v.events| <= 1
            && Open(v.st.stack) == Open(st.stack) + (if v.events == [] then 0 else Opens(v.events[0]))
  {
    var stack := if st.stack == [] then [ExpectValue] else st.stack;
    var n := |stack| - 1;
    assert stack == stack[..n] + [stack[n]];
    OpenAppend(stack[..n], stack[n]);
    OpenAppend(stack, ExpectValue);
    assert st.stack == [] ==> stack[..n] == [];
    var marker, rest := st.rest[0], st.rest[1..];
    if stack[n] == ExpectValue {
      BodyKeepsDepth(marker, rest, stack[..n]);
    } else if stack[n] == InArray && marker != OBJECT_END {
      BodyKeepsDepth(marker, rest, stack);
    }
  }

  /** By how much an event changes the number of open containers. */
  function Opens(e: Event): int {
    if e.BeginObject? || e.BeginArray? then 1 else if e.EndObject? || e.EndArray? then -1 else 0
  }

  /** A step opens or closes on the reader's stack what its event opens or closes in the builder. */
  lemma StepsKeepDepth(st: ReaderState, bs: BuilderState)
    requires Containers(bs.stack) && |bs.stack| == Open(st.stack) && !st.skipBegin
    requires Step(st).Ok?
    ensures var v := Step(st).value;
            && !v.st.skipBegin && |v.events| <= 1
            && BuildAll(bs, v.events).Some? && |BuildAll(bs, v.events).value.stack| == Open(v.st.stack)
  {
    StepKeepsDepth(st);
    var events := Step(st).value.events;
    if events != [] {
      assert events == [events[0]] && events[1..] == [];
    }
  }

  /** The reader and the builder have the same containers open. */
  ghost predicate InStep(reader: ObjectReader, builder: ObjectBuilder)
    reads reader, builder
  {
    reader.InBounds() && !reader.skipBeginObj && builder.Ready() && |builder.stack| == Open(reader.stack)
  }

  /** One step of the reader, its event handled by the builder. */
  method BuildNext(reader: ObjectReader, builder: ObjectBuilder) returns (events: Result<seq<Event>>)
    requires InStep(reader, builder)
    modifies reader, builder
    ensures events.Err? ==> Step(old(reader.State())) == Err(events.error)
    ensures events.Ok? ==>
      && InStep(reader, builder) && Step(old(reader.State())) == Ok(Read(reader.State(), events.value))
      && BuildAll(old(builder.State()), events.value) == Some(builder.State())
  {
    ghost var st, bs := reader.State(), builder.State();
    events := reader.Next();
    if events.Ok? {
      StepsKeepDepth(st, bs);
      if events.value != [] {
        assert events.value[1..] == [];
        builder.Handle(events.value[0]);
      }
    }
  }

  /** MojObject::fromBytes: the value the bytes build, if any. */
  method FromBytes(bytes: seq<byte>) returns (r: Result<Option<Value>>)
    ensures match Continue(ToEnd, ReaderState(bytes, [], false))
            case Err(e) => r == Err(e)
            case Ok(read) =>
              BuildAll(EMPTY_BUILDER, read.events).Some? &&
              r == Ok(BuildAll(EMPTY_BUILDER, read.events).value.obj)
  {
    var reader := new ObjectReader(bytes);
    var builder := new ObjectBuilder();
    ghost var whole, sent := Continue(ToEnd, reader.State()), [];
    PrependNothing(whole);
    while reader.pos < |reader.data|
      invariant InStep(reader, builder)
      invariant BuildAll(EMPTY_BUILDER, sent) == Some(builder.State())
      invariant SentSoFar(whole, sent, reader.State())
      decreases |reader.data| - reader.pos
    {
      ghost var st := reader.State();
      var events := BuildNext(reader, builder);
      SendMore(whole, sent, st);
      if events.Err? {
        return Err(events.error);
      }
      BuildAllConcat(EMPTY_BUILDER, sent, events.value);
      sent := sent + events.value;
    }
    AllSent(whole, sent, reader.State());
    r := Ok(builder.obj);
  }

  /** These are the first events of the whole read, which goes on from here. */
  ghost predicate SentSoFar(whole: Result<Read>, sent: seq<Event>, st: ReaderState) {
    whole == Prepend(sent, Continue(ToEnd, st))
  }

  lemma SendMore(whole: Result<Read>, sent: seq<Event>, st: ReaderState)
    requires SentSoFar(whole, sent, st) && st.rest != []
    ensures match Step(st)
            case Err(e) => whole == Err(e)
            case Ok(v) => SentSoFar(whole, sent + v.events, v.st)
  {
    assert Continue(ToEnd, st) == ObjectReaders.Run(ToEnd, st);
    match Step(st)
    case Err(_) =>
    case Ok(v) => PrependPrepend(sent, v.events, Continue(ToEnd, v.st));
  }

  lemma AllSent(whole: Result<Read>, sent: seq<Event>, st: ReaderState)
    requires SentSoFar(whole, sent, st) && st.rest == []
    ensures whole.Ok? && whole.value.events == sent
  {
    assert sent + [] == sent;
  }

  /** Writing a value and reading the bytes back yields the value. */
  method WriteThenRead(v: Value) returns (back: Result<Option<Value>>)
    requires Valid(v)
    ensures back == Ok(Some(v))
  {
    var bytes := ToBytes(v);
    back := FromBytes(bytes);
    BinaryRoundTrip(v);
  }
}
