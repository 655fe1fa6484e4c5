/** The writer that produces the binary encoding, event by event. */
module ObjectWriters {
  import opened Bytes
  import opened Values
  import opened Encoding

  class ObjectWriter {
    var buf: seq<byte>

    constructor ()
      ensures buf == []
    {
      buf := [];
    }

    method WriteUInt8(b: byte)
      modifies this
      ensures buf == old(buf) + [b]
    {
      buf := buf + [b];
    }

    /** The low k bytes of a number, most significant first. */
    method WriteBigEndian(n: nat, k: nat)
      modifies this
      ensures buf == old(buf) + BigEndian(n, k)
    {
      var rest, i := n, 0;
      var bytes: seq<byte> := [];
      while i < k
        invariant i <= k && |bytes| == i
        invariant BigEndian(rest, k - i) + bytes == BigEndian(n, k)
      {
        assert BigEndian(rest, k - i) == BigEndian(rest / 256, k - i - 1) + [rest % 256];
        bytes := [rest % 256] + bytes;
        rest, i := rest / 256, i + 1;
      }
      assert BigEndian(rest, 0) + bytes == bytes;
      buf := buf + bytes;
    }

    method BeginObject()
      modifies this
      ensures buf == old(buf) + [OBJECT_BEGIN]
    {
      WriteUInt8(OBJECT_BEGIN);
    }

    method EndObject()
      modifies this
      ensures buf == old(buf) + [OBJECT_END]
    {
      WriteUInt8(OBJECT_END);
    }

    method BeginArray()
      modifies this
      ensures buf == old(buf) + [ARRAY_BEGIN]
    {
      WriteUInt8(ARRAY_BEGIN);
    }

    /** Arrays share the end marker of objects. */
    method EndArray()
      modifies this
      ensures buf == old(buf) + [OBJECT_END]
    {
      WriteUInt8(OBJECT_END);
    }

    method PropName(name: seq<byte>)
      modifies this
      ensures buf == old(buf) + EncodeString(name)
    {
      StringValue(name);
    }

    method NullValue()
      modifies this
      ensures buf == old(buf) + Encode(Null)
    {
      WriteUInt8(NULL_MARKER);
    }

    method BoolValue(b: bool)
      modifies this
      ensures buf == old(buf) + Encode(Bool(b))
    {
      WriteUInt8(if b then TRUE_MARKER else FALSE_MARKER);
    }

    method IntValue(v: int64)
      modifies this
      ensures buf == old(buf) + Encode(Int(v))
    {
      if v < 0 {
        WriteUInt8(NEGATIVE_INT);
        WriteBigEndian(ToUnsigned64(v), 8);
      } else if v == 0 {
        WriteUInt8(ZERO_INT);
      } else if v <= 0xFF {
        WriteUInt8(UINT8);
        WriteBigEndian(v, 1);
      } else if v <= 0xFFFF {
        WriteUInt8(UINT16);
        WriteBigEndian(v, 2);
      } else if v <= 0xFFFF_FFFF {
        WriteUInt8(UINT32);
        WriteBigEndian(v, 4);
      } else {
        WriteUInt8(INT64);
        WriteBigEndian(ToUnsigned64(v), 8);
      }
    }

    method DecimalValue(rep: int64)
      modifies this
      ensures buf == old(buf) + Encode(Decimal(rep))
    {
      WriteUInt8(if rep < 0 then NEGATIVE_DECIMAL else POSITIVE_DECIMAL);
      WriteBigEndian(ToUnsigned64(rep), 8);
    }

    method StringValue(s: seq<byte>)
      modifies this
      ensures buf == old(buf) + EncodeString(s)
    {
      WriteUInt8(STRING_MARKER);
      buf := buf + s;
      WriteUInt8(0);
    }

    /** MojObject::visit on this writer. */
    method VisitValue(v: Value)
      modifies this
      ensures buf == old(buf) + Encode(v)
      decreases v, 1
    {
      match v {
        case Null => NullValue();
        case Str(s) => StringValue(s);
        case Bool(b) => BoolValue(b);
        case Decimal(rep) => DecimalValue(rep);
        case Int(i) => IntValue(i);
        case Object(props) =>
          BeginObject();
          VisitProps(props);
          EndObject();
        case Array(elems) =>
          BeginArray();
          VisitElems(elems);
          EndArray();
      }
    }

    method VisitProps(props: seq<Prop>)
      modifies this
      ensures buf == old(buf) + EncodeProps(props)
      decreases props, 0
    {
      ghost var goal := buf + EncodeProps(props);
      var i := 0;
      while i < |props|
        invariant i <= |props| && buf + EncodeProps(props[i..]) == goal
      {
        NextProp(buf, props, i);
        PropName(props[i].name);
        VisitValue(props[i].val);
        i := i + 1;
      }
      assert buf + EncodeProps(props[i..]) == buf;
    }

    method VisitElems(elems: seq<Value>)
      modifies this
      ensures buf == old(buf) + EncodeElems(elems)
      decreases elems, 0
    {
      ghost var goal := buf + EncodeElems(elems);
      var i := 0;
      while i < |elems|
        invariant i <= |elems| && buf + EncodeElems(elems[i..]) == goal
      {
        NextElem(buf, elems, i);
        VisitValue(elems[i]);
        i := i + 1;
      }
      assert buf + EncodeElems(elems[i..]) == buf;
    }
  }

  lemma NextProp(buf: seq<byte>, props: seq<Prop>, i: nat)
    requires i < |props|
    ensures buf + EncodeProps(props[i..]) == buf + EncodeString(props[i].name) + Encode(props[i].val) +
            EncodeProps(props[i + 1..])
  {
    assert props[i..][1..] == props[i + 1..];
  }

  lemma NextElem(buf: seq<byte>, elems: seq<Value>, i: nat)
    requires i < |elems|
    ensures buf + EncodeElems(elems[i..]) == buf + Encode(elems[i]) + EncodeElems(elems[i + 1..])
  {
    assert elems[i..][1..] == elems[i + 1..];
  }

  /** MojObject::toBytes. */
  method ToBytes(v: Value) returns (bytes: seq<byte>)
    ensures bytes == Encode(v)
  {
    var writer := new ObjectWriter();
    writer.VisitValue(v);
    bytes := writer.buf;
  }
}
