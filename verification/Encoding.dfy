/** The order-preserving binary encoding of object values (MojObjectWriter). */
module Encoding {
  import opened Bytes
  import opened Values

  const OBJECT_END: byte := 0
  const NULL_MARKER: byte := 1
  const OBJECT_BEGIN: byte := 2
  const ARRAY_BEGIN: byte := 3
  const STRING_MARKER: byte := 4
  const FALSE_MARKER: byte := 5
  const TRUE_MARKER: byte := 6
  const NEGATIVE_DECIMAL: byte := 7
  const POSITIVE_DECIMAL: byte := 8
  const NEGATIVE_INT: byte := 9
  const ZERO_INT: byte := 10
  const UINT8: byte := 11
  const UINT16: byte := 12
  const UINT32: byte := 13
  const INT64: byte := 14
  const EXTENSION: byte := 15

  function EncodeInt64(v: int64): (s: seq<byte>)
    ensures |s| == 8
  {
    BigEndian(ToUnsigned64(v), 8)
  }

  function EncodeInt(v: int64): (s: seq<byte>)
    ensures |s| > 0
  {
    if v < 0 then [NEGATIVE_INT] + EncodeInt64(v)
    else if v == 0 then [ZERO_INT]
    else if v <= 0xFF then [UINT8] + BigEndian(v, 1)
    else if v <= 0xFFFF then [UINT16] + BigEndian(v, 2)
    else if v <= 0xFFFF_FFFF then [UINT32] + BigEndian(v, 4)
    else [INT64] + EncodeInt64(v)
  }

  function EncodeDecimal(rep: int64): seq<byte> {
    [if rep < 0 then NEGATIVE_DECIMAL else POSITIVE_DECIMAL] + EncodeInt64(rep)
  }

  function EncodeString(s: seq<byte>): seq<byte> {
    [STRING_MARKER] + s + [0]
  }

  function Encode(v: Value): (s: seq<byte>)
    ensures |s| > 0 && s[0] != OBJECT_END
    decreases v, 1
  {
    match v
    case Null => [NULL_MARKER]
    case Object(props) => [OBJECT_BEGIN] + EncodeProps(props) + [OBJECT_END]
    case Array(elems) => [ARRAY_BEGIN] + EncodeElems(elems) + [OBJECT_END]
    case Str(s) => EncodeString(s)
    case Bool(b) => [if b then TRUE_MARKER else FALSE_MARKER]
    case Decimal(rep) => EncodeDecimal(rep)
    case Int(i) => EncodeInt(i)
  }

  function EncodeProps(props: seq<Prop>): seq<byte>
    decreases props, 0
  {
    if props == [] then []
    else EncodeString(props[0].name) + Encode(props[0].val) + EncodeProps(props[1..])
  }

  function EncodeElems(elems: seq<Value>): seq<byte>
    decreases elems, 0
  {
    if elems == [] then [] else Encode(elems[0]) + EncodeElems(elems[1..])
  }

  // ----- order -----

  /** Different leading markers decide. */
  lemma LexHeads(a: seq<byte>, b: seq<byte>)
    requires a != [] && b != []
    ensures a[0] != b[0] ==> Lex(a, b) == Cmp(a[0], b[0])
    ensures a[0] == b[0] ==> Lex(a, b) == Lex(a[1..], b[1..])
  {
  }

  lemma FixedWidthOrder(v: nat, w: nat, k: nat, x: seq<byte>, y: seq<byte>)
    requires v < Pow256(k) && w < Pow256(k)
    ensures v != w ==> Lex(BigEndian(v, k) + x, BigEndian(w, k) + y) == Cmp(v, w)
    ensures v == w ==> Lex(BigEndian(v, k) + x, BigEndian(w, k) + y) == Lex(x, y)
  {
    BigEndianOrder(v, w, k);
    LexBlocks(BigEndian(v, k), BigEndian(w, k), x, y);
    LexZeroIsEqual(BigEndian(v, k), BigEndian(w, k));
  }

  function IntMarker(v: int64): byte {
    if v < 0 then NEGATIVE_INT
    else if v == 0 then ZERO_INT
    else if v <= 0xFF then UINT8
    else if v <= 0xFFFF then UINT16
    else if v <= 0xFFFF_FFFF then UINT32
    else INT64
  }

  function IntWidth(v: int64): nat {
    if v < 0 then 8
    else if v == 0 then 0
    else if v <= 0xFF then 1
    else if v <= 0xFFFF then 2
    else if v <= 0xFFFF_FFFF then 4
    else 8
  }

  /** Every integer is a marker and a big-endian number whose width the marker determines. */
  lemma IntShape(v: int64)
    ensures EncodeInt(v) == [IntMarker(v)] + BigEndian(ToUnsigned64(v), IntWidth(v))
    ensures ToUnsigned64(v) < Pow256(IntWidth(v))
  {
    Pow256Values();
    assert Pow256(0) == 1;
    if v == 0 {
      assert [ZERO_INT] + BigEndian(0, 0) == [ZERO_INT];
    }
  }

  /** A marker that fixes the width of the number after it: the marker decides, then the number. */
  lemma MarkedOrder(m: byte, u: nat, j: nat, x: seq<byte>, n: byte, v: nat, k: nat, y: seq<byte>)
    requires m == n ==> j == k
    requires u < Pow256(j) && v < Pow256(k)
    ensures Lex([m] + BigEndian(u, j) + x, [n] + BigEndian(v, k) + y)
         == if m != n then Cmp(m, n) else if u != v then Cmp(u, v) else Lex(x, y)
  {
    var a, b := [m] + BigEndian(u, j) + x, [n] + BigEndian(v, k) + y;
    LexHeads(a, b);
    if m == n {
      assert a[1..] == BigEndian(u, j) + x && b[1..] == BigEndian(v, k) + y;
      FixedWidthOrder(u, v, j, x, y);
    }
  }

  lemma IntOrder(v: int64, w: int64, x: seq<byte>, y: seq<byte>)
    ensures Lex(EncodeInt(v) + x, EncodeInt(w) + y) == if v == w then Lex(x, y) else Cmp(v, w)
  {
    IntShape(v);
    IntShape(w);
    MarkedOrder(IntMarker(v), ToUnsigned64(v), IntWidth(v), x, IntMarker(w), ToUnsigned64(w), IntWidth(w), y);
  }

  lemma DecimalOrder(v: int64, w: int64, x: seq<byte>, y: seq<byte>)
    ensures Lex(EncodeDecimal(v) + x, EncodeDecimal(w) + y) == if v == w then Lex(x, y) else Cmp(v, w)
  {
    Pow256Values();
    MarkedOrder(EncodeDecimal(v)[0], ToUnsigned64(v), 8, x, EncodeDecimal(w)[0], ToUnsigned64(w), 8, y);
  }

  lemma StringOrder(s: seq<byte>, t: seq<byte>, x: seq<byte>, y: seq<byte>)
    requires NulFree(s) && NulFree(t)
    ensures Lex(EncodeString(s) + x, EncodeString(t) + y) == if s == t then Lex(x, y) else Lex(s, t)
    ensures s != t ==> Lex(s, t) != 0
  {
    var a, b := EncodeString(s) + x, EncodeString(t) + y;
    assert a[1..] == s + [0] + x && b[1..] == t + [0] + y;
    LexStrings(s, t, x, y);
  }

  /** Different types encode under markers in the order of the types. */
  lemma TypeOrder(v: Value, w: Value)
    requires TypeRank(v) != TypeRank(w)
    ensures Encode(v)[0] != Encode(w)[0]
    ensures Cmp(Encode(v)[0], Encode(w)[0]) == Cmp(TypeRank(v), TypeRank(w))
  {
  }

  predicate IsContainer(v: Value) { v.Object? || v.Array? }

  lemma ScalarOrder(v: Value, w: Value, x: seq<byte>, y: seq<byte>)
    requires Valid(v) && Valid(w) && TypeRank(v) == TypeRank(w) && !IsContainer(v)
    ensures v != w <==> Compare(v, w) != 0
    ensures Lex(Encode(v) + x, Encode(w) + y) == if v == w then Lex(x, y) else Compare(v, w)
  {
    match v {
      case Null => LexBlocks(Encode(v), Encode(w), x, y);
      case Bool(_) =>
        LexBlocks(Encode(v), Encode(w), x, y);
        LexHeads(Encode(v), Encode(w));
      case Decimal(_) => DecimalOrder(v.rep, w.rep, x, y);
      case Int(_) => IntOrder(v.i, w.i, x, y);
      case Str(_) =>
        StringOrder(v.s, w.s, x, y);
        LexZeroIsEqual(v.s, w.s);
    }
  }

  /**
   * The order embedding, in front of any continuation: byte order is object order, and where
   * the objects agree they are the same object and the continuation decides.
   */
  lemma {:induction false} OrderEmbedding(v: Value, w: Value, x: seq<byte>, y: seq<byte>)
    requires Valid(v) && Valid(w)
    ensures v != w <==> Compare(v, w) != 0
    ensures Lex(Encode(v) + x, Encode(w) + y) == if v == w then Lex(x, y) else Compare(v, w)
    decreases v, 1
  {
    if TypeRank(v) != TypeRank(w) {
      TypeOrder(v, w);
      LexHeads(Encode(v) + x, Encode(w) + y);
    } else if v.Object? {
      PropsThenEncodes(v.props, x);
      PropsThenEncodes(w.props, y);
      assert Encode(v) + x == [OBJECT_BEGIN] + PropsThen(v.props, x);
      assert Encode(w) + y == [OBJECT_BEGIN] + PropsThen(w.props, y);
      LexCommonPrefix([OBJECT_BEGIN], PropsThen(v.props, x), PropsThen(w.props, y));
      PropsOrder(v.props, w.props, x, y);
    } else if v.Array? {
      ElemsThenEncodes(v.elems, x);
      ElemsThenEncodes(w.elems, y);
      assert Encode(v) + x == [ARRAY_BEGIN] + ElemsThen(v.elems, x);
      assert Encode(w) + y == [ARRAY_BEGIN] + ElemsThen(w.elems, y);
      LexCommonPrefix([ARRAY_BEGIN], ElemsThen(v.elems, x), ElemsThen(w.elems, y));
      ElemsOrder(v.elems, w.elems, x, y);
    } else {
      ScalarOrder(v, w, x, y);
    }
  }

  /** What is left to read inside an object whose remaining properties are `props`. */
  function PropsThen(props: seq<Prop>, x: seq<byte>): seq<byte> {
    if props == [] then [OBJECT_END] + x
    else EncodeString(props[0].name) + (Encode(props[0].val) + PropsThen(props[1..], x))
  }

  function ElemsThen(elems: seq<Value>, x: seq<byte>): seq<byte> {
    if elems == [] then [OBJECT_END] + x else Encode(elems[0]) + ElemsThen(elems[1..], x)
  }

  lemma {:induction false} PropsThenEncodes(props: seq<Prop>, x: seq<byte>)
    ensures EncodeProps(props) + [OBJECT_END] + x == PropsThen(props, x)
  {
    if props != [] {
      PropsThenEncodes(props[1..], x);
    }
  }

  lemma {:induction false} ElemsThenEncodes(elems: seq<Value>, x: seq<byte>)
    ensures EncodeElems(elems) + [OBJECT_END] + x == ElemsThen(elems, x)
  {
    if elems != [] {
      ElemsThenEncodes(elems[1..], x);
    }
  }

  lemma {:induction false} PropsOrder(p: seq<Prop>, q: seq<Prop>, x: seq<byte>, y: seq<byte>)
    requires ValidProps(p) && ValidProps(q)
    ensures p != q <==> CompareProps(p, q) != 0
    ensures Lex(PropsThen(p, x), PropsThen(q, y)) == if p == q then Lex(x, y) else CompareProps(p, q)
    decreases p, 0
  {
    LexHeads(PropsThen(p, x), PropsThen(q, y));
    if p == [] || q == [] {
      assert p == [] ==> PropsThen(p, x)[1..] == x;
      assert q == [] ==> PropsThen(q, y)[1..] == y;
    } else {
      var restP, restQ := PropsThen(p[1..], x), PropsThen(q[1..], y);
      StringOrder(p[0].name, q[0].name, Encode(p[0].val) + restP, Encode(q[0].val) + restQ);
      LexZeroIsEqual(p[0].name, q[0].name);
      OrderEmbedding(p[0].val, q[0].val, restP, restQ);
      PropsOrder(p[1..], q[1..], x, y);
      assert p == [p[0]] + p[1..] && q == [q[0]] + q[1..];
    }
  }

  lemma {:induction false} ElemsOrder(p: seq<Value>, q: seq<Value>, x: seq<byte>, y: seq<byte>)
    requires ValidElems(p) && ValidElems(q)
    ensures p != q <==> CompareElems(p, q) != 0
    ensures Lex(ElemsThen(p, x), ElemsThen(q, y)) == if p == q then Lex(x, y) else CompareElems(p, q)
    decreases p, 0
  {
    LexHeads(ElemsThen(p, x), ElemsThen(q, y));
    if p == [] || q == [] {
      assert p == [] ==> ElemsThen(p, x)[1..] == x;
      assert q == [] ==> ElemsThen(q, y)[1..] == y;
    } else {
      OrderEmbedding(p[0], q[0], ElemsThen(p[1..], x), ElemsThen(q[1..], y));
      ElemsOrder(p[1..], q[1..], x, y);
      assert p == [p[0]] + p[1..] && q == [q[0]] + q[1..];
    }
  }

  /** Byte order of two encodings is object order. */
  lemma EncodingOrder(v: Value, w: Value)
    requires Valid(v) && Valid(w)
    ensures Lex(Encode(v), Encode(w)) == Compare(v, w)
  {
    OrderEmbedding(v, w, [], []);
    assert Encode(v) + [] == Encode(v) && Encode(w) + [] == Encode(w);
  }

  /** No encoding is a proper prefix of another. */
  lemma EncodingPrefixFree(v: Value, w: Value, x: seq<byte>)
    requires Valid(v) && Valid(w)
    requires Encode(v) + x == Encode(w)
    ensures v == w && x == []
  {
    OrderEmbedding(v, w, x, []);
    assert Encode(w) + [] == Encode(w);
    LexZeroIsEqual(Encode(v) + x, Encode(w));
  }

  /** An index key is the concatenation of the encodings of its property values. */
  function EncodeKey(vs: seq<Value>): seq<byte> { EncodeElems(vs) }

  /** Concatenated index keys of equally many values order as the tuples of values do. */
  lemma {:induction false} KeyTupleOrder(vs: seq<Value>, ws: seq<Value>)
    requires ValidElems(vs) && ValidElems(ws) && |vs| == |ws|
    ensures Lex(EncodeKey(vs), EncodeKey(ws)) == CompareElems(vs, ws)
  {
    if vs != [] {
      OrderEmbedding(vs[0], ws[0], EncodeKey(vs[1..]), EncodeKey(ws[1..]));
      KeyTupleOrder(vs[1..], ws[1..]);
    }
  }
}
