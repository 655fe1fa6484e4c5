/** Which bytes the binary reader accepts as one value, and what it hears of them (MojObjectReader::nextObject). */
module BinaryAccepts {
  import opened Bytes
  import opened Values
  import opened Encoding
  import opened ObjectReaders

  // ----- the format -----

  /** One value in bytes: a marker with what is of fixed size behind it, a text, an extension, a container. */
  datatype Item =
    | Fixed(marker: byte, payload: seq<byte>)
    | Text(s: seq<byte>)
    | Extension(payload: seq<byte>)
    | List(items: seq<Item>)
    | Dict(fields: seq<Field>)

  datatype Field = Field(name: seq<byte>, item: Item)

  /** The markers of null, false, true, the decimals and the integers, and how many bytes stand behind each. */
  const SIZES: map<byte, nat> := map[1 := 0, 5 := 0, 6 := 0, 7 := 8, 8 := 8, 9 := 8, 10 := 0, 11 := 1, 12 := 2, 13 := 4,
                                     14 := 8]

  function ItemBytes(t: Item): seq<byte>
    decreases t, 0
  {
    match t
    case Fixed(marker, payload) => [marker] + payload
    case Text(s) => [4] + (s + [0])
    case Extension(payload) => [15] + (BigEndian(|payload|, 4) + payload)
    case List(items) => [3] + ItemsBytes(items)
    case Dict(fields) => [2] + FieldsBytes(fields)
  }

  /** The inside of an array and its end. */
  function ItemsBytes(items: seq<Item>): seq<byte>
    decreases items, 0
  {
    if items == [] then [0] else ItemBytes(items[0]) + ItemsBytes(items[1..])
  }

  function FieldsBytes(fields: seq<Field>): seq<byte>
    decreases fields, 0
  {
    if fields == [] then [0]
    else [4] + (fields[0].name + ([0] + (ItemBytes(fields[0].item) + FieldsBytes(fields[1..]))))
  }

  predicate Good(t: Item)
    decreases t, 0
  {
    match t
    case Fixed(marker, payload) => marker in SIZES && |payload| == SIZES[marker]
    case Text(s) => NulFree(s)
    case Extension(payload) => |payload| < 0x1_0000_0000
    case List(items) => GoodItems(items)
    case Dict(fields) => GoodFields(fields)
  }

  predicate GoodItems(items: seq<Item>)
    decreases items, 0
  {
    items == [] || (Good(items[0]) && GoodItems(items[1..]))
  }

  predicate GoodFields(fields: seq<Field>)
    decreases fields, 0
  {
    fields == [] || (NulFree(fields[0].name) && Good(fields[0].item) && GoodFields(fields[1..]))
  }

  /** A big-endian number of up to eight bytes, eight of them signed. */
  function Number(payload: seq<byte>): int64
    requires |payload| <= 8
  {
    FromBigEndianBound(payload);
    Pow256Values();
    Pow256Monotone(|payload|, 8);
    ToSigned64(FromBigEndian(payload))
  }

  /** What is heard of it; of an extension nothing. */
  function Heard(t: Item): seq<Event>
    requires Good(t)
    decreases t, 0
  {
    match t
    case Fixed(marker, payload) =>
      [if marker == 1 then NullValue
       else if marker == 5 then BoolValue(false)
       else if marker == 6 then BoolValue(true)
       else if marker == 7 || marker == 8 then DecimalValue(Number(payload))
       else IntValue(Number(payload))]
    case Text(s) => [StringValue(s)]
    case Extension(_) => []
    case List(items) => [BeginArray] + ItemsHeard(items)
    case Dict(fields) => [BeginObject] + FieldsHeard(fields)
  }

  function ItemsHeard(items: seq<Item>): seq<Event>
    requires GoodItems(items)
    decreases items, 0
  {
    if items == [] then [EndArray] else Heard(items[0]) + ItemsHeard(items[1..])
  }

  function FieldsHeard(fields: seq<Field>): seq<Event>
    requires GoodFields(fields)
    decreases fields, 0
  {
    if fields == [] then [EndObject]
    else [PropName(fields[0].name)] + (Heard(fields[0].item) + FieldsHeard(fields[1..]))
  }

  // ----- going on -----

  function At(rest: seq<byte>, stack: seq<Expect>): ReaderState {
    ReaderState(rest, stack, false)
  }

  /** The reader gets from here to there within one value, with these events. */
  predicate Gets(s: seq<byte>, stack: seq<Expect>, heard: seq<Event>, rest: seq<byte>, after: seq<Expect>) {
    Run(OneValue, At(s, stack)) == Prepend(heard, Continue(OneValue, At(rest, after)))
  }

  lemma GetsOn(s: seq<byte>, stack: seq<Expect>, a: seq<Event>, t: seq<byte>, mid: seq<Expect>, b: seq<Event>,
               rest: seq<byte>, after: seq<Expect>)
    requires Gets(s, stack, a, t, mid) && mid != [] && Gets(t, mid, b, rest, after)
    ensures Gets(s, stack, a + b, rest, after)
  {
    PrependPrepend(a, b, Continue(OneValue, At(rest, after)));
  }

  lemma OneStep(s: seq<byte>, stack: seq<Expect>, heard: seq<Event>, rest: seq<byte>, after: seq<Expect>)
    requires Step(At(s, stack)) == Ok(Read(At(rest, after), heard))
    ensures Gets(s, stack, heard, rest, after)
  {
  }

  lemma MarkerIs(marker: byte)
    ensures marker in SIZES <==> marker in {1, 5, 6} || marker in {7, 8} || IsIntMarker(marker)
    ensures marker in SIZES ==>
              SIZES[marker] == if marker in {1, 5, 6} then 0 else if marker in {7, 8} then 8 else WidthOf(marker)
  {
  }

  // ----- bytes of the format are read as what they are -----

  lemma ItemFirst(t: Item)
    requires Good(t)
    ensures ItemBytes(t) != [] && ItemBytes(t)[0] != OBJECT_END
  {
  }

  lemma FixedReads(marker: byte, payload: seq<byte>, x: seq<byte>, stack: seq<Expect>)
    requires Good(Fixed(marker, payload))
    ensures ReadValue(marker, payload + x, stack, false) == Ok(Read(At(x, stack), Heard(Fixed(marker, payload))))
  {
    MarkerIs(marker);
    assert (payload + x)[..|payload|] == payload && (payload + x)[|payload|..] == x;
    assert payload == [] ==> payload + x == x;
  }

  lemma ReadsUnsigned(rest: seq<byte>, k: nat)
    requires |rest| >= k
    ensures ReadUnsigned(rest, k) == Ok(FromBigEndian(rest[..k]))
  {
  }

  lemma ReadsExtension(s: seq<byte>, n: nat, stack: seq<Expect>)
    requires ReadUnsigned(s, 4) == Ok(n) && |s| >= 4 + n
    ensures ReadValue(EXTENSION, s, stack, false) == Ok(Read(At(s[4 + n..], stack), []))
  {
    hide ReadUnsigned, FindNul, ReadSigned;
  }

  lemma ThreeParts(size: seq<byte>, payload: seq<byte>, x: seq<byte>)
    ensures var s := size + payload + x;
            s[..|size|] == size && |s| >= |size| + |payload| && s[|size| + |payload|..] == x
  {
  }

  lemma ExtensionReads(payload: seq<byte>, x: seq<byte>, stack: seq<Expect>)
    requires Good(Extension(payload))
    ensures ReadValue(EXTENSION, BigEndian(|payload|, 4) + payload + x, stack, false) == Ok(Read(At(x, stack), []))
  {
    hide BigEndian, FromBigEndian, Pow256, ReadUnsigned, ReadValue;
    var size := BigEndian(|payload|, 4);
    Pow256Values();
    BigEndianRoundTrip(|payload|, 4);
    ThreeParts(size, payload, x);
    ReadsUnsigned(size + payload + x, 4);
    ReadsExtension(size + payload + x, |payload|, stack);
  }

  lemma TextReads(s: seq<byte>, x: seq<byte>, stack: seq<Expect>)
    requires NulFree(s)
    ensures ReadValue(STRING_MARKER, s + [0] + x, stack, false) == Ok(Read(At(x, stack), [StringValue(s)]))
  {
    FindNulTerminated(s, x);
    assert (s + [0] + x)[..|s|] == s && (s + [0] + x)[|s| + 1..] == x;
  }

  /** Anything but a container. */
  lemma SimpleGets(t: Item, x: seq<byte>, stack: seq<Expect>)
    requires Good(t) && AtValue(stack) && !t.List? && !t.Dict?
    ensures Gets(ItemBytes(t) + x, stack, Heard(t), x, AfterValue(stack))
  {
    hide ReadValue, Run, BigEndian, FromBigEndian;
    var s, base := ItemBytes(t) + x, AfterValue(stack);
    ItemFirst(t);
    NextAtValue(At(s, stack));
    match t {
      case Fixed(marker, payload) =>
        assert s[1..] == payload + x;
        FixedReads(marker, payload, x, base);
      case Text(text) =>
        assert s[1..] == text + [0] + x;
        TextReads(text, x, base);
      case Extension(payload) =>
        assert s[1..] == BigEndian(|payload|, 4) + payload + x;
        ExtensionReads(payload, x, base);
    }
    OneStep(s, stack, Heard(t), x, base);
  }

  lemma ContainerOpens(marker: byte, x: seq<byte>, stack: seq<Expect>)
    requires AtValue(stack) && (marker == 2 || marker == 3)
    ensures Gets([marker] + x, stack, [if marker == 3 then BeginArray else BeginObject], x,
                 AfterValue(stack) + [if marker == 3 then InArray else InObject])
  {
    NextAtValue(At([marker] + x, stack));
    assert ([marker] + x)[1..] == x;
  }

  lemma {:induction false} ItemGets(t: Item, x: seq<byte>, stack: seq<Expect>)
    requires Good(t) && AtValue(stack)
    ensures Gets(ItemBytes(t) + x, stack, Heard(t), x, AfterValue(stack))
    decreases t, 0
  {
    hide ReadValue, Run;
    var s, base := ItemBytes(t) + x, AfterValue(stack);
    match t {
      case List(items) =>
        var inside := ItemsBytes(items) + x;
        assert s == [3] + inside;
        ContainerOpens(3, inside, stack);
        ItemsGet(items, x, base);
        GetsOn(s, stack, [BeginArray], inside, base + [InArray], ItemsHeard(items), x, base);
      case Dict(fields) =>
        var inside := FieldsBytes(fields) + x;
        assert s == [2] + inside;
        ContainerOpens(2, inside, stack);
        FieldsGet(fields, x, base);
        GetsOn(s, stack, [BeginObject], inside, base + [InObject], FieldsHeard(fields), x, base);
      case _ => SimpleGets(t, x, stack);
    }
  }

  lemma {:induction false} ItemsGet(items: seq<Item>, x: seq<byte>, stack: seq<Expect>)
    requires GoodItems(items)
    ensures Gets(ItemsBytes(items) + x, stack + [InArray], ItemsHeard(items), x, stack)
    decreases items, 0
  {
    if items == [] {
      NextEnd(x, stack, InArray);
    } else {
      var more := ItemsBytes(items[1..]) + x;
      assert ItemsBytes(items) + x == ItemBytes(items[0]) + more;
      ItemGets(items[0], more, stack + [InArray]);
      ItemsGet(items[1..], x, stack);
      GetsOn(ItemsBytes(items) + x, stack + [InArray], Heard(items[0]), more, stack + [InArray], ItemsHeard(items[1..]),
             x, stack);
    }
  }

  /** A name and its value. */
  lemma NameGets(name: seq<byte>, x: seq<byte>, stack: seq<Expect>)
    requires NulFree(name)
    ensures Gets([4] + (name + ([0] + x)), stack + [InObject], [PropName(name)], x, stack + [InObject] + [ExpectValue])
  {
    NextPropName(name, x, stack);
    assert [4] + (name + ([0] + x)) == EncodeString(name) + x;
  }

  lemma FieldsBytesAre(fields: seq<Field>, x: seq<byte>)
    requires fields != []
    ensures FieldsBytes(fields) + x ==
            [4] + (fields[0].name + ([0] + (ItemBytes(fields[0].item) + (FieldsBytes(fields[1..]) + x))))
  {
    var i, m := ItemBytes(fields[0].item), FieldsBytes(fields[1..]);
    var n := fields[0].name;
    assert i + m + x == i + (m + x);
    assert n + ([0] + (i + m)) + x == n + ([0] + (i + m + x));
  }

  lemma {:induction false} FieldsGet(fields: seq<Field>, x: seq<byte>, stack: seq<Expect>)
    requires GoodFields(fields)
    ensures Gets(FieldsBytes(fields) + x, stack + [InObject], FieldsHeard(fields), x, stack)
    decreases fields, 0
  {
    if fields == [] {
      NextEnd(x, stack, InObject);
    } else {
      var f, inside := fields[0], stack + [InObject];
      var s, more := FieldsBytes(fields) + x, FieldsBytes(fields[1..]) + x;
      var t := ItemBytes(f.item) + more;
      FieldsBytesAre(fields, x);
      NameGets(f.name, t, stack);
      assert AfterValue(inside + [ExpectValue]) == inside;
      ItemGets(f.item, more, inside + [ExpectValue]);
      FieldsGet(fields[1..], x, stack);
      GetsOn(t, inside + [ExpectValue], Heard(f.item), more, inside, FieldsHeard(fields[1..]), x, stack);
      GetsOn(s, inside, [PropName(f.name)], t, inside + [ExpectValue], Heard(f.item) + FieldsHeard(fields[1..]), x,
             stack);
    }
  }

  // ----- bytes that are accepted are of the format -----

  predicate Accepted(s: seq<byte>, stack: seq<Expect>) {
    Run(OneValue, At(s, stack)).Ok?
  }

  lemma AcceptedOn(s: seq<byte>, stack: seq<Expect>, heard: seq<Event>, rest: seq<byte>, after: seq<Expect>)
    requires Accepted(s, stack) && Gets(s, stack, heard, rest, after) && after != []
    ensures Accepted(rest, after)
  {
  }

  lemma PayloadOf(rest: seq<byte>, k: nat)
    requires k <= |rest|
    ensures rest == rest[..k] + rest[k..]
  {
  }

  lemma {:induction false} FromBigEndianBack(s: seq<byte>)
    ensures BigEndian(FromBigEndian(s), |s|) == s
  {
    if s != [] {
      var n := FromBigEndian(s[..|s| - 1]);
      FromBigEndianBack(s[..|s| - 1]);
      assert (256 * n + s[|s| - 1]) / 256 == n && (256 * n + s[|s| - 1]) % 256 == s[|s| - 1];
      assert s == s[..|s| - 1] + [s[|s| - 1]];
    }
  }

  lemma ExtensionRead(rest: seq<byte>, base: seq<Expect>) returns (t: Item, x: seq<byte>)
    requires ReadValue(EXTENSION, rest, base, false).Ok?
    ensures t.Extension?
    ensures Good(t) && [15] + rest == ItemBytes(t) + x && |x| <= |rest|
    ensures ReadValue(EXTENSION, rest, base, false) == Ok(Read(At(x, base), Heard(t)))
  {
    hide BigEndian, FromBigEndian, Pow256;
    var size, n := rest[..4], FromBigEndian(rest[..4]);
    FromBigEndianBound(size);
    FromBigEndianBack(size);
    Pow256Values();
    t, x := Extension(rest[4..4 + n]), rest[4 + n..];
    ExtensionReads(rest[4..4 + n], x, base);
    assert rest == size + rest[4..4 + n] + x;
    assert [15] + rest == [15] + (size + rest[4..4 + n]) + x;
  }

  lemma TextRead(rest: seq<byte>, base: seq<Expect>) returns (t: Item, x: seq<byte>)
    requires ReadValue(STRING_MARKER, rest, base, false).Ok?
    ensures t.Text?
    ensures Good(t) && [4] + rest == ItemBytes(t) + x && |x| <= |rest|
    ensures ReadValue(STRING_MARKER, rest, base, false) == Ok(Read(At(x, base), Heard(t)))
  {
    var n := FindNul(rest).value;
    t, x := Text(rest[..n]), rest[n + 1..];
    assert rest == rest[..n] + [0] + x;
    TextReads(rest[..n], x, base);
  }

  lemma FixedRead(marker: byte, rest: seq<byte>, base: seq<Expect>) returns (t: Item, x: seq<byte>)
    requires marker in SIZES && ReadValue(marker, rest, base, false).Ok?
    ensures t.Fixed?
    ensures Good(t) && [marker] + rest == ItemBytes(t) + x && |x| <= |rest|
    ensures ReadValue(marker, rest, base, false) == Ok(Read(At(x, base), Heard(t)))
  {
    MarkerIs(marker);
    var k := SIZES[marker];
    assert k <= |rest|;
    t, x := Fixed(marker, rest[..k]), rest[k..];
    PayloadOf(rest, k);
    FixedReads(marker, rest[..k], x, base);
  }

  lemma SimpleMarkers(marker: byte, rest: seq<byte>, base: seq<Expect>)
    requires marker != 2 && marker != 3 && ReadValue(marker, rest, base, false).Ok?
    ensures marker == 4 || marker == 15 || marker in SIZES
  {
    MarkerIs(marker);
  }

  /** Anything but a container. */
  lemma SimpleRead(marker: byte, rest: seq<byte>, base: seq<Expect>) returns (t: Item, x: seq<byte>)
    requires marker != 2 && marker != 3 && ReadValue(marker, rest, base, false).Ok?
    ensures !t.List? && !t.Dict?
    ensures Good(t) && [marker] + rest == ItemBytes(t) + x && |x| <= |rest|
    ensures ReadValue(marker, rest, base, false) == Ok(Read(At(x, base), Heard(t)))
  {
    hide ReadValue;
    SimpleMarkers(marker, rest, base);
    if marker == 4 {
      t, x := TextRead(rest, base);
    } else if marker == 15 {
      t, x := ExtensionRead(rest, base);
    } else {
      t, x := FixedRead(marker, rest, base);
    }
  }

  lemma ValueAccepted(s: seq<byte>, stack: seq<Expect>)
    requires Accepted(s, stack) && AtValue(stack) && (s != [] ==> s[0] != 0)
    ensures s != [] && ReadValue(s[0], s[1..], AfterValue(stack), false).Ok?
    ensures Step(At(s, stack)) == ReadValue(s[0], s[1..], AfterValue(stack), false)
  {
    hide ReadValue;
    assert Step(At(s, stack)).Ok?;
    NextAtValue(At(s, stack));
  }

  lemma {:induction false} ItemRead(s: seq<byte>, stack: seq<Expect>) returns (t: Item, x: seq<byte>)
    requires Accepted(s, stack) && AtValue(stack) && (s != [] ==> s[0] != 0)
    ensures Good(t) && s == ItemBytes(t) + x && |x| < |s|
    ensures Gets(s, stack, Heard(t), x, AfterValue(stack))
    decreases |s|, 0
  {
    hide Step, ReadValue, Run;
    var base := AfterValue(stack);
    ValueAccepted(s, stack);
    assert s == [s[0]] + s[1..];
    if s[0] == 3 {
      ContainerOpens(3, s[1..], stack);
      AcceptedOn(s, stack, [BeginArray], s[1..], base + [InArray]);
      var items;
      items, x := ItemsRead(s[1..], base);
      t := List(items);
      GetsOn(s, stack, [BeginArray], s[1..], base + [InArray], ItemsHeard(items), x, base);
    } else if s[0] == 2 {
      ContainerOpens(2, s[1..], stack);
      AcceptedOn(s, stack, [BeginObject], s[1..], base + [InObject]);
      var fields;
      fields, x := FieldsRead(s[1..], base);
      t := Dict(fields);
      GetsOn(s, stack, [BeginObject], s[1..], base + [InObject], FieldsHeard(fields), x, base);
    } else {
      t, x := SimpleRead(s[0], s[1..], base);
      OneStep(s, stack, Heard(t), x, base);
    }
  }

  lemma {:induction false} ItemsRead(s: seq<byte>, stack: seq<Expect>) returns (items: seq<Item>, x: seq<byte>)
    requires Accepted(s, stack + [InArray])
    ensures GoodItems(items) && s == ItemsBytes(items) + x && |x| <= |s|
    ensures Gets(s, stack + [InArray], ItemsHeard(items), x, stack)
    decreases |s|, 1
  {
    if s != [] && s[0] == 0 {
      items, x := [], s[1..];
      assert s == [0] + x;
      NextEnd(x, stack, InArray);
    } else {
      var inside := stack + [InArray];
      var t, r := ItemRead(s, inside);
      AcceptedOn(s, inside, Heard(t), r, inside);
      var more;
      more, x := ItemsRead(r, stack);
      items := [t] + more;
      assert items[1..] == more;
      GetsOn(s, inside, Heard(t), r, inside, ItemsHeard(more), x, stack);
    }
  }

  lemma NameAccepted(s: seq<byte>, stack: seq<Expect>)
    requires Accepted(s, stack + [InObject]) && (s != [] ==> s[0] != 0)
    ensures s != [] && s[0] == 4 && FindNul(s[1..]).Ok?
  {
    hide ReadValue, FindNul;
    assert Step(At(s, stack + [InObject])).Ok?;
  }

  /** A name and what is behind it. */
  lemma NameRead(s: seq<byte>, stack: seq<Expect>) returns (name: seq<byte>, x: seq<byte>)
    requires Accepted(s, stack + [InObject]) && (s != [] ==> s[0] != 0)
    ensures NulFree(name) && s == [4] + (name + ([0] + x)) && |x| < |s|
    ensures Gets(s, stack + [InObject], [PropName(name)], x, stack + [InObject] + [ExpectValue])
    ensures Accepted(x, stack + [InObject] + [ExpectValue]) && (x != [] ==> x[0] != 0)
  {
    hide Step, Run, FindNul;
    NameAccepted(s, stack);
    var rest := s[1..];
    var n := FindNul(rest).value;
    name, x := rest[..n], rest[n + 1..];
    assert rest == name + ([0] + x) && s == [s[0]] + rest;
    NameGets(name, x, stack);
    AcceptedOn(s, stack + [InObject], [PropName(name)], x, stack + [InObject] + [ExpectValue]);
    ValueBegins(x, stack + [InObject]);
  }

  /** No value begins with the end of a container. */
  lemma ValueBegins(s: seq<byte>, stack: seq<Expect>)
    requires Accepted(s, stack + [ExpectValue])
    ensures s != [] ==> s[0] != 0
  {
    assert (stack + [ExpectValue])[|stack|] == ExpectValue;
  }

  lemma {:induction false} FieldsRead(s: seq<byte>, stack: seq<Expect>) returns (fields: seq<Field>, x: seq<byte>)
    requires Accepted(s, stack + [InObject])
    ensures GoodFields(fields) && s == FieldsBytes(fields) + x && |x| <= |s|
    ensures Gets(s, stack + [InObject], FieldsHeard(fields), x, stack)
    decreases |s|, 1
  {
    if s != [] && s[0] == 0 {
      fields, x := [], s[1..];
      assert s == [0] + x;
      NextEnd(x, stack, InObject);
    } else {
      var inside := stack + [InObject];
      var name, u := NameRead(s, stack);
      assert AfterValue(inside + [ExpectValue]) == inside;
      var t, r := ItemRead(u, inside + [ExpectValue]);
      AcceptedOn(u, inside + [ExpectValue], Heard(t), r, inside);
      var more;
      more, x := FieldsRead(r, stack);
      fields := [Field(name, t)] + more;
      assert fields[1..] == more;
      FieldsBytesAre(fields, x);
      GetsOn(u, inside + [ExpectValue], Heard(t), r, inside, FieldsHeard(more), x, stack);
      GetsOn(s, inside, [PropName(name)], u, inside + [ExpectValue], Heard(t) + FieldsHeard(more), x, stack);
    }
  }

  /** One value of the format, and what follows it. */
  predicate Begins(s: seq<byte>, t: Item, rest: seq<byte>, es: seq<Event>) {
    s == ItemBytes(t) + rest && Good(t) && es == Heard(t)
  }

  /** `nextObject` accepts exactly the bytes that begin with a value of the format, and hears exactly that value. */
  lemma AcceptsIff(s: seq<byte>, rest: seq<byte>, es: seq<Event>)
    ensures Run(OneValue, At(s, [])) == Ok(Read(At(rest, []), es)) <==> exists t :: Begins(s, t, rest, es)
  {
    if Run(OneValue, At(s, [])) == Ok(Read(At(rest, []), es)) {
      var t, x := ItemRead(s, []);
      assert Heard(t) + [] == Heard(t);
      assert Begins(s, t, rest, es);
    }
    forall t | Begins(s, t, rest, es) ensures Run(OneValue, At(s, [])) == Ok(Read(At(rest, []), es)) {
      ItemGets(t, rest, []);
      assert Heard(t) + [] == Heard(t);
    }
  }

  // ----- which bytes are cut short and which are wrong -----

  lemma {:induction false} FindNulMore(s: seq<byte>, x: seq<byte>)
    requires FindNul(s).Ok?
    ensures FindNul(s + x) == FindNul(s) && (s + x)[..FindNul(s).value] == s[..FindNul(s).value]
  {
    var n := FindNul(s).value;
    assert s + x == s[..n] + [0] + (s[n + 1..] + x);
    FindNulTerminated(s[..n], s[n + 1..] + x);
  }

  lemma RefusedMore(marker: byte, rest: seq<byte>, stack: seq<Expect>, x: seq<byte>)
    requires ReadValue(marker, rest, stack, false) == Err(UnexpectedMarker)
    ensures ReadValue(marker, rest + x, stack, false) == Err(UnexpectedMarker)
  {
  }

  /** More bytes do not change a value that is read. */
  lemma ReadValueMore(marker: byte, rest: seq<byte>, stack: seq<Expect>, x: seq<byte>)
    requires ReadValue(marker, rest, stack, false).Ok?
    ensures var r := ReadValue(marker, rest, stack, false).value;
            && r.st == At(r.st.rest, r.st.stack)
            && ReadValue(marker, rest + x, stack, false) == Ok(Read(At(r.st.rest + x, r.st.stack), r.events))
  {
    if marker != 2 && marker != 3 {
      SimpleMore(marker, rest, stack, x);
    }
  }

  lemma SimpleMore(marker: byte, rest: seq<byte>, stack: seq<Expect>, x: seq<byte>)
    requires ReadValue(marker, rest, stack, false).Ok? && marker != 2 && marker != 3
    ensures var r := ReadValue(marker, rest, stack, false).value;
            && r.st == At(r.st.rest, r.st.stack)
            && ReadValue(marker, rest + x, stack, false) == Ok(Read(At(r.st.rest + x, r.st.stack), r.events))
  {
    hide ReadValue, Heard;
    var t, y := SimpleRead(marker, rest, stack);
    var z := ItemBytes(t)[1..];
    Behind(marker, rest, ItemBytes(t), y);
    Assoc(z, y, x);
    SimpleIsRead(t, z, y + x, stack);
  }

  lemma Behind(marker: byte, rest: seq<byte>, a: seq<byte>, b: seq<byte>)
    requires [marker] + rest == a + b && a != []
    ensures a[0] == marker && rest == a[1..] + b
  {
    assert ([marker] + rest)[0] == (a + b)[0] && ([marker] + rest)[1..] == (a + b)[1..];
  }

  lemma SimpleIsRead(t: Item, z: seq<byte>, x: seq<byte>, stack: seq<Expect>)
    requires Good(t) && !t.List? && !t.Dict? && ItemBytes(t)[1..] == z
    ensures ReadValue(ItemBytes(t)[0], z + x, stack, false) == Ok(Read(At(x, stack), Heard(t)))
  {
    hide ReadValue, BigEndian, FromBigEndian;
    match t {
      case Fixed(marker, payload) => FixedReads(marker, payload, x, stack);
      case Text(text) =>
        assert z + x == text + [0] + x;
        TextReads(text, x, stack);
      case Extension(payload) =>
        assert z + x == BigEndian(|payload|, 4) + payload + x;
        ExtensionReads(payload, x, stack);
    }
  }

  /** More bytes change neither a step that is taken nor a marker that is refused. */
  predicate SameStep(s: seq<byte>, stack: seq<Expect>, x: seq<byte>) {
    var r, more := Step(At(s, stack)), Step(At(s + x, stack));
    && (r.Ok? ==> r.value.st == At(r.value.st.rest, r.value.st.stack))
    && (r.Ok? ==> more == Ok(Read(At(r.value.st.rest + x, r.value.st.stack), r.value.events)))
    && (r == Err(UnexpectedMarker) ==> more == r)
  }

  lemma NameMore(s: seq<byte>, stack: seq<Expect>, x: seq<byte>)
    requires s != [] && stack != [] && stack[|stack| - 1] == InObject
    ensures SameStep(s, stack, x)
  {
    hide ReadValue;
    var rest := s[1..];
    assert (s + x)[1..] == rest + x && (s + x)[0] == s[0];
    if FindNul(rest).Ok? {
      var n := FindNul(rest).value;
      FindNulMore(rest, x);
      assert (rest + x)[n + 1..] == rest[n + 1..] + x;
    }
  }

  lemma ValueMore(s: seq<byte>, stack: seq<Expect>, x: seq<byte>)
    requires s != [] && (stack == [] || stack[|stack| - 1] != InObject)
    requires stack != [] && stack[|stack| - 1] == InArray ==> s[0] != 0
    ensures SameStep(s, stack, x)
  {
    hide ReadValue;
    var base := AfterValue(stack);
    assert (s + x)[1..] == s[1..] + x && (s + x)[0] == s[0];
    assert [ExpectValue][..0] == [];
    var r := ReadValue(s[0], s[1..], base, false);
    if r.Ok? {
      ReadValueMore(s[0], s[1..], base, x);
    } else if r == Err(UnexpectedMarker) {
      RefusedMore(s[0], s[1..], base, x);
    }
  }

  lemma StepMore(s: seq<byte>, stack: seq<Expect>, x: seq<byte>)
    ensures SameStep(s, stack, x)
  {
    hide ReadValue;
    if s != [] {
      if stack != [] && stack[|stack| - 1] == InObject {
        NameMore(s, stack, x);
      } else if stack != [] && stack[|stack| - 1] == InArray && s[0] == 0 {
        assert (s + x)[1..] == s[1..] + x && (s + x)[0] == s[0];
      } else {
        ValueMore(s, stack, x);
      }
    }
  }

  /** The end of a value that is read, or a marker that is refused, does not depend on what follows. */
  lemma {:induction false} RunMore(s: seq<byte>, stack: seq<Expect>, x: seq<byte>)
    ensures var r, more := Run(OneValue, At(s, stack)), Run(OneValue, At(s + x, stack));
            && (r.Ok? ==> more.Ok?) && (r == Err(UnexpectedMarker) ==> more == r)
    decreases |s|
  {
    hide Step;
    StepMore(s, stack, x);
    var r := Step(At(s, stack));
    if r.Ok? && r.value.st.stack != [] {
      RunMore(r.value.st.rest, r.value.st.stack, x);
    }
  }

  function Zeros(n: nat): (s: seq<byte>)
    ensures |s| == n
  {
    if n == 0 then [] else [0] + Zeros(n - 1)
  }

  /** Bytes that end whatever the stack waits for. */
  function Closing(stack: seq<Expect>): seq<byte> {
    if stack == [] then []
    else [if stack[|stack| - 1] == ExpectValue then 1 else 0] + Closing(stack[..|stack| - 1])
  }

  lemma {:induction false} Closes(stack: seq<Expect>)
    requires stack != []
    ensures Accepted(Closing(stack), stack)
    decreases |stack|
  {
    var s, base := Closing(stack), stack[..|stack| - 1];
    assert s[1..] == Closing(base);
    if base != [] {
      Closes(base);
    }
  }

  /** A value cut short can be completed. */
  lemma ValueCompletes(marker: byte, rest: seq<byte>, stack: seq<Expect>) returns (x: seq<byte>)
    requires ReadValue(marker, rest, stack, false) == Err(UnexpectedEof)
    ensures ReadValue(marker, rest + x, stack, false).Ok?
    ensures ReadValue(marker, rest + x, stack, false).value.st == At([], stack)
  {
    MarkerIs(marker);
    if marker == 4 {
      x := [0];
      assert rest + x == rest + [0] + [];
      TextReads(rest, [], stack);
    } else if marker == 15 {
      x := ExtensionCompletes(rest, stack);
    } else {
      x := Zeros(SIZES[marker] - |rest|);
      assert rest + x == (rest + x) + [];
      FixedReads(marker, rest + x, [], stack);
    }
  }

  lemma ExtensionCompletes(rest: seq<byte>, stack: seq<Expect>) returns (x: seq<byte>)
    requires ReadValue(EXTENSION, rest, stack, false) == Err(UnexpectedEof)
    ensures ReadValue(EXTENSION, rest + x, stack, false) == Ok(Read(At([], stack), []))
  {
    hide BigEndian, FromBigEndian, Pow256;
    var y := if |rest| < 4 then Zeros(4 - |rest|) else [];
    var r := rest + y;
    var n := FromBigEndian(r[..4]);
    FromBigEndianBound(r[..4]);
    FromBigEndianBack(r[..4]);
    Pow256Values();
    assert |rest| >= 4 ==> r == rest;
    x := y + Zeros(n - (|r| - 4));
    var payload := (rest + x)[4..];
    assert rest + x == r + Zeros(n - (|r| - 4));
    assert rest + x == r[..4] + payload + [];
    ExtensionReads(payload, [], stack);
  }

  lemma StepCompletes(s: seq<byte>, stack: seq<Expect>) returns (x: seq<byte>)
    requires Step(At(s, stack)) == Err(UnexpectedEof)
    ensures Step(At(s + x, stack)).Ok? && Step(At(s + x, stack)).value.st.rest == []
  {
    var top := if stack == [] then ExpectValue else stack[|stack| - 1];
    if s == [] {
      x := [if top == ExpectValue then 1 else 0];
      assert s + x == x && x[1..] == [];
    } else if top == InObject {
      x := [0];
      assert (s + x)[1..] == s[1..] + [0] + [];
      FindNulTerminated(s[1..], []);
    } else {
      var base := if stack == [] then [] else if top == InArray then stack else stack[..|stack| - 1];
      x := ValueCompletes(s[0], s[1..], base);
      assert (s + x)[1..] == s[1..] + x;
      assert [ExpectValue][..0] == [];
    }
  }

  /** A step that is taken, and a rest that is accepted. */
  lemma StepAccepted(s: seq<byte>, stack: seq<Expect>)
    requires Step(At(s, stack)).Ok?
    requires var st := Step(At(s, stack)).value.st;
             st == At(st.rest, st.stack) && (st.stack != [] ==> Accepted(st.rest, st.stack))
    ensures Accepted(s, stack)
  {
  }

  lemma {:induction false} Completes(s: seq<byte>, stack: seq<Expect>) returns (x: seq<byte>)
    requires Run(OneValue, At(s, stack)) == Err(UnexpectedEof)
    ensures Accepted(s + x, stack)
    decreases |s|
  {
    hide Step;
    var r := Step(At(s, stack));
    if r.Ok? {
      StepMore(s, stack, []);
      x := Completes(r.value.st.rest, r.value.st.stack);
      StepMore(s, stack, x);
    } else {
      var y := StepCompletes(s, stack);
      StepMore(s + y, stack, []);
      var after := Step(At(s + y, stack)).value.st.stack;
      var z := Closing(after);
      StepMore(s + y, stack, z);
      x := y + z;
      assert s + x == s + y + z && [] + z == z;
      if after != [] {
        Closes(after);
      }
    }
    StepMore(s + x, stack, []);
    StepAccepted(s + x, stack);
  }

  lemma NotBoth(s: seq<byte>, x: seq<byte>)
    requires Accepted(s + x, [])
    ensures Accepted(s, []) || Run(OneValue, At(s, [])) == Err(UnexpectedEof)
  {
    hide Step, Run;
    RunMore(s, [], x);
    var r := Run(OneValue, At(s, []));
    if r.Err? {
      match r.error {
        case UnexpectedEof =>
        case UnexpectedMarker =>
      }
    }
  }

  /** Bytes are refused as cut short exactly if more bytes could complete them, and for a marker otherwise. */
  lemma CutShortIff(s: seq<byte>)
    ensures Run(OneValue, At(s, [])) == Err(UnexpectedEof) <==>
            !Accepted(s, []) && exists x :: Accepted(s + x, [])
  {
    hide Step, Run;
    if Run(OneValue, At(s, [])) == Err(UnexpectedEof) {
      var x := Completes(s, []);
      assert Accepted(s + x, []);
    }
    forall x | Accepted(s + x, []) ensures Accepted(s, []) || Run(OneValue, At(s, [])) == Err(UnexpectedEof) {
      NotBoth(s, x);
    }
  }

  // ----- bytes read to their end -----

  /** One value after the other. */
  function Joined(items: seq<Item>): seq<byte> {
    if items == [] then [] else ItemBytes(items[0]) + Joined(items[1..])
  }

  function JoinedHeard(items: seq<Item>): seq<Event>
    requires GoodItems(items)
  {
    if items == [] then [] else Heard(items[0]) + JoinedHeard(items[1..])
  }

  lemma StepAt(s: seq<byte>, stack: seq<Expect>)
    requires Step(At(s, stack)).Ok?
    ensures var st := Step(At(s, stack)).value.st; st == At(st.rest, st.stack)
  {
    hide FindNul, ReadUnsigned, ReadSigned;
  }

  lemma NothingLeft(stack: seq<Expect>)
    ensures Run(OneValue, At([], stack)) == Err(UnexpectedEof)
  {
  }

  /** Reading to the end takes the same steps, but ends where the bytes do. */
  lemma {:induction false} SameSteps(s: seq<byte>, stack: seq<Expect>)
    ensures var one, all := Run(OneValue, At(s, stack)), Run(ToEnd, At(s, stack));
            match one
            case Ok(v) =>
              v.st == At(v.st.rest, []) && |v.st.rest| < |s| && all == Prepend(v.events, Continue(ToEnd, v.st))
            case Err(e) => all == one || (e == UnexpectedEof && all.Ok? && all.value.st.stack != [])
    decreases |s|
  {
    hide Step;
    var r := Step(At(s, stack));
    if r.Ok? {
      StepAt(s, stack);
      var v := r.value;
      if v.st.stack == [] {
        assert v.events + [] == v.events;
      } else if v.st.rest == [] {
        NothingLeft(v.st.stack);
      } else {
        SameSteps(v.st.rest, v.st.stack);
        var one := Run(OneValue, v.st);
        if one.Ok? {
          PrependPrepend(v.events, one.value.events, Continue(ToEnd, one.value.st));
        }
      }
    }
  }

  /** The bytes are these values one after the other, and this is heard of them. */
  predicate Whole(s: seq<byte>, items: seq<Item>, es: seq<Event>) {
    s == Joined(items) && GoodItems(items) && es == JoinedHeard(items)
  }

  lemma {:induction false} WholeRead(items: seq<Item>)
    requires GoodItems(items)
    ensures Continue(ToEnd, At(Joined(items), [])) == Ok(Read(At([], []), JoinedHeard(items)))
    decreases |items|
  {
    hide Run;
    if items != [] {
      var x := Joined(items[1..]);
      WholeRead(items[1..]);
      ItemFirst(items[0]);
      assert Begins(Joined(items), items[0], x, Heard(items[0]));
      AcceptsIff(Joined(items), x, Heard(items[0]));
      SameSteps(Joined(items), []);
    }
  }

  lemma {:induction false} ReadWhole(s: seq<byte>) returns (items: seq<Item>)
    requires Continue(ToEnd, At(s, [])).Ok? && Continue(ToEnd, At(s, [])).value.st.stack == []
    ensures Whole(s, items, Continue(ToEnd, At(s, [])).value.events)
    decreases |s|
  {
    hide Run;
    if s == [] {
      items := [];
    } else {
      SameSteps(s, []);
      var v := Run(OneValue, At(s, [])).value;
      AcceptsIff(s, v.st.rest, v.events);
      var t :| Begins(s, t, v.st.rest, v.events);
      var more := ReadWhole(v.st.rest);
      items := [t] + more;
      assert items[1..] == more;
    }
  }

  /** Read to their end, bytes give these events and leave no container open exactly if they are whole values. */
  lemma ReadsWholeIff(s: seq<byte>, es: seq<Event>)
    ensures Continue(ToEnd, At(s, [])) == Ok(Read(At([], []), es)) <==> exists items :: Whole(s, items, es)
  {
    hide Run, Continue;
    if Continue(ToEnd, At(s, [])) == Ok(Read(At([], []), es)) {
      var items := ReadWhole(s);
    }
    forall items | Whole(s, items, es) ensures Continue(ToEnd, At(s, [])) == Ok(Read(At([], []), es)) {
      WholeRead(items);
    }
  }

  lemma {:induction false} ClosingRead(stack: seq<Expect>) returns (es: seq<Event>)
    ensures Continue(ToEnd, At(Closing(stack), stack)) == Ok(Read(At([], []), es))
    decreases |stack|
  {
    if stack == [] {
      es := [];
    } else {
      var s, base := Closing(stack), stack[..|stack| - 1];
      assert s[1..] == Closing(base);
      var more := ClosingRead(base);
      es := Step(At(s, stack)).value.events + more;
    }
  }

  /** Bytes that leave containers open go on as their ends do. */
  lemma {:induction false} ClosedRead(s: seq<byte>, stack: seq<Expect>) returns (es: seq<Event>)
    requires Continue(ToEnd, At(s, stack)).Ok?
    ensures var v := Continue(ToEnd, At(s, stack)).value;
            Continue(ToEnd, At(s + Closing(v.st.stack), stack)) == Ok(Read(At([], []), v.events + es))
    decreases |s|
  {
    hide Step, Closing;
    var r := Continue(ToEnd, At(s, stack));
    var x := Closing(r.value.st.stack);
    if s == [] {
      es := ClosingRead(stack);
      assert [] + x == x && [] + es == es;
    } else {
      var v := Step(At(s, stack)).value;
      StepAt(s, stack);
      StepMore(s, stack, x);
      es := ClosedRead(v.st.rest, v.st.stack);
      Assoc(v.events, Continue(ToEnd, v.st).value.events, es);
    }
  }

  /**
   * Read to their end without an error, bytes are whole values once the containers they leave open are closed. That
   * they are open is no error.
   */
  lemma UnclosedRead(s: seq<byte>) returns (items: seq<Item>, es: seq<Event>)
    requires Continue(ToEnd, At(s, [])).Ok?
    ensures var v := Continue(ToEnd, At(s, [])).value; Whole(s + Closing(v.st.stack), items, v.events + es)
  {
    hide Continue, Closing;
    es := ClosedRead(s, []);
    items := ReadWhole(s + Closing(Continue(ToEnd, At(s, [])).value.st.stack));
  }

  lemma OpenArrayRead()
    ensures Continue(ToEnd, At([3], [])) == Ok(Read(At([], [InArray]), [BeginArray]))
  {
    var t: seq<byte> := [3];
    assert t[1..] == [] && [ExpectValue][..0] == [] && [] + [InArray] == [InArray];
    assert Step(At(t, [])) == Ok(Read(At([], [InArray]), [BeginArray]));
    assert [BeginArray] + [] == [BeginArray];
  }

  // ----- the shortest bytes -----

  /** The writer uses the fewest bytes that are read as a value without parts. */
  lemma ShortestForm(v: Value, marker: byte, payload: seq<byte>)
    requires Good(Fixed(marker, payload)) && Heard(Fixed(marker, payload)) == Visit(v)
    ensures |Encode(v)| <= |ItemBytes(Fixed(marker, payload))|
  {
    hide BigEndian, FromBigEndian;
    MarkerIs(marker);
    FromBigEndianBound(payload);
    Pow256Values();
    assert |Encode(v)| <= 9;
  }
}
