/** Objects by id, their revisions, and the rules of putting one (MojDb::putImpl, putObj, mergeInto). */
module ObjectStores {
  import opened Bytes
  import opened Numbers
  import opened Values
  import opened ObjectBuilders

  /** ASCII text as bytes. */
  function Text(s: string): (b: seq<byte>)
    ensures |b| == |s|
  {
    seq(|s|, i requires 0 <= i < |s| => s[i] as int % 256)
  }

  const ID := Text("_id")
  const REV := Text("_rev")
  const DEL := Text("_del")
  const KIND := Text("_kind")

  /** The reserved names are all different. */
  lemma Names()
    ensures ID != REV && ID != DEL && ID != KIND && REV != DEL && REV != KIND && DEL != KIND
  {
    assert ID[1] == 105 && REV[1] == 114 && DEL[1] == 100 && KIND[1] == 107;
  }

  /** `del` of a property. */
  function Drop(o: Props, name: seq<byte>): Props {
    if o == [] then [] else if o[0].name == name then o[1..] else [o[0]] + Drop(o[1..], name)
  }

  // ----- values read as another type -----

  /** `boolValue`. */
  predicate Truth(v: Value) {
    match v
    case Null => false
    case Object(props) => props != []
    case Array(elems) => elems != []
    case Str(s) => s != []
    case Bool(b) => b
    case Decimal(rep) => rep != 0
    case Int(i) => i != 0
  }

  /** `intValue`; a decimal is cut off towards zero. */
  function IntOf(v: Value): int64 {
    match v
    case Str(s) => StrToInt64(s).0
    case Bool(b) => if b then 1 else 0
    case Decimal(rep) => if rep < 0 then 0 - (0 - rep) / 1_000_000 else rep / 1_000_000
    case Int(i) => i
    case _ => 0
  }

  /** The values that read as false. */
  const FALSE_VALUES: seq<Value> := [Null, Object([]), Array([]), Str([]), Bool(false), Decimal(0), Int(0)]

  lemma TruthIff(v: Value)
    ensures Truth(v) <==> v !in FALSE_VALUES
  {
  }

  /** A decimal counts millionths; of its integer no more than its fraction is cut off, and never its sign. */
  lemma WholePart(rep: int64)
    ensures var i, rest := IntOf(Decimal(rep)), rep - IntOf(Decimal(rep)) * 1_000_000;
            -1_000_000 < rest < 1_000_000 && (rep >= 0 ==> i >= 0 && rest >= 0) && (rep <= 0 ==> i <= 0 && rest <= 0)
  {
  }

  predicate Deleted(o: Props) {
    Get(o, DEL).Some? && Truth(Get(o, DEL).value)
  }

  // ----- removing a property -----

  lemma {:induction false} GetDrop(o: Props, name: seq<byte>, other: seq<byte>)
    requires Ascending(o)
    ensures Get(Drop(o, name), other) == if other == name then None else Get(o, other)
    ensures Ascending(Drop(o, name)) && forall low :: Above(o, low) ==> Above(Drop(o, name), low)
  {
    if o != [] {
      if o[0].name == name {
        AboveHasNot(o[1..], name);
      } else {
        GetDrop(o[1..], name, other);
        var rest := Drop(o[1..], name);
        assert ([o[0]] + rest)[1..] == rest;
        forall low | Above(o, low) ensures Above([o[0]] + rest, low) {
          assert Above(o[1..], low);
        }
      }
    }
  }

  lemma PutTwice(o: Props, a: seq<byte>, v: Value, b: seq<byte>, w: Value, name: seq<byte>)
    requires Ascending(o)
    ensures Ascending(PutProp(PutProp(o, a, v), b, w))
    ensures Get(PutProp(PutProp(o, a, v), b, w), name) == if name == b then Some(w) else if name == a then Some(v)
            else Get(o, name)
  {
    PutAscending(o, a, v);
    PutAscending(PutProp(o, a, v), b, w);
    GetPut(o, a, v, name);
    GetPut(PutProp(o, a, v), b, w, name);
  }

  // ----- merging -----

  /** Two iterators over the properties; objects on both sides merge, otherwise the new value wins. */
  function Merged(obj: Props, prev: Props): Props
    decreases obj, prev
  {
    if obj == [] then prev
    else if prev == [] then obj
    else
      var comp := Lex(obj[0].name, prev[0].name);
      if comp > 0 then [prev[0]] + Merged(obj, prev[1..])
      else if comp < 0 then [obj[0]] + Merged(obj[1..], prev)
      else [Prop(obj[0].name, MergedValue(obj[0].val, prev[0].val))] + Merged(obj[1..], prev[1..])
  }

  function MergedValue(a: Value, b: Value): Value
    decreases a, b
  {
    if a.Object? && b.Object? then Object(Merged(a.props, b.props)) else a
  }

  /** What a merge holds under one name. */
  function Either(a: Option<Value>, b: Option<Value>): Option<Value> {
    if a == None then b else if b == None then a else Some(MergedValue(a.value, b.value))
  }

  lemma {:induction false} MergedAbove(obj: Props, prev: Props, low: seq<byte>)
    requires Above(obj, low) && Above(prev, low)
    ensures Above(Merged(obj, prev), low)
    decreases obj, prev
  {
    if obj != [] && prev != [] {
      var comp := Lex(obj[0].name, prev[0].name);
      if comp > 0 {
        MergedAbove(obj, prev[1..], low);
      } else if comp < 0 {
        MergedAbove(obj[1..], prev, low);
      } else {
        MergedAbove(obj[1..], prev[1..], low);
      }
    }
  }

  /** A merge keeps the order and holds, name by name, what both sides say. */
  lemma {:induction false} MergeLooksUp(obj: Props, prev: Props, name: seq<byte>)
    requires Ascending(obj) && Ascending(prev)
    ensures Ascending(Merged(obj, prev)) && Get(Merged(obj, prev), name) == Either(Get(obj, name), Get(prev, name))
    decreases obj, prev
  {
    if obj != [] && prev != [] {
      var a, b := obj[0].name, prev[0].name;
      var comp := Lex(a, b);
      LexZeroIsEqual(a, b);
      LexAntisymmetric(a, b);
      if comp > 0 {
        MergeLooksUp(obj, prev[1..], name);
        AboveAbove(obj[1..], b, a);
        MergedAbove(obj, prev[1..], b);
        assert Merged(obj, prev)[1..] == Merged(obj, prev[1..]);
        AboveHasNot(obj, b);
      } else if comp < 0 {
        MergeLooksUp(obj[1..], prev, name);
        AboveAbove(prev[1..], a, b);
        MergedAbove(obj[1..], prev, a);
        assert Merged(obj, prev)[1..] == Merged(obj[1..], prev);
        AboveHasNot(prev, a);
      } else {
        MergeLooksUp(obj[1..], prev[1..], name);
        MergedAbove(obj[1..], prev[1..], a);
        assert Merged(obj, prev)[1..] == Merged(obj[1..], prev[1..]);
      }
    }
  }

  lemma {:induction false} MergeSelf(o: Props)
    ensures Merged(o, o) == o
  {
    if o != [] {
      LexZeroIsEqual(o[0].name, o[0].name);
      MergeSelf(o[1..]);
      if o[0].val.Object? {
        MergeSelf(o[0].val.props);
      }
    }
  }

  /** Merging the same change once more changes nothing. */
  lemma {:induction false} MergeAgain(obj: Props, prev: Props)
    ensures Merged(obj, Merged(obj, prev)) == Merged(obj, prev)
    decreases obj, prev
  {
    if obj != [] && prev != [] {
      var comp := Lex(obj[0].name, prev[0].name);
      if comp > 0 {
        MergeAgain(obj, prev[1..]);
        assert Merged(obj, prev)[1..] == Merged(obj, prev[1..]);
      } else if comp < 0 {
        LexZeroIsEqual(obj[0].name, obj[0].name);
        MergeAgain(obj[1..], prev);
        assert Merged(obj, prev)[1..] == Merged(obj[1..], prev);
        if obj[0].val.Object? {
          MergeSelf(obj[0].val.props);
        }
      } else {
        LexZeroIsEqual(obj[0].name, obj[0].name);
        MergeAgain(obj[1..], prev[1..]);
        assert Merged(obj, prev)[1..] == Merged(obj[1..], prev[1..]);
        if obj[0].val.Object? && prev[0].val.Object? {
          MergeAgain(obj[0].val.props, prev[0].val.props);
        } else if obj[0].val.Object? {
          MergeSelf(obj[0].val.props);
        }
      }
    } else if obj != [] {
      MergeSelf(obj);
    }
  }

  /** Names in order at every level. */
  predicate Deep(o: Props) {
    Ascending(o) && forall i :: 0 <= i < |o| ==> o[i].val.Object? ==> Deep(o[i].val.props)
  }

  lemma {:induction false} DropDeep(o: Props, name: seq<byte>)
    requires Deep(o)
    ensures Deep(Drop(o, name))
  {
    GetDrop(o, name, name);
    if o != [] {
      assert Deep(o[1..]) by {
        forall i | 0 <= i < |o[1..]| && o[1..][i].val.Object? ensures Deep(o[1..][i].val.props) {
          assert o[1..][i] == o[i + 1];
        }
      }
      if o[0].name != name {
        DropDeep(o[1..], name);
        var d := Drop(o[1..], name);
        forall i | 0 <= i < |Drop(o, name)| && Drop(o, name)[i].val.Object? ensures Deep(Drop(o, name)[i].val.props) {
          assert Drop(o, name)[i] == if i == 0 then o[0] else d[i - 1];
        }
      }
    }
  }

  lemma DeepRest(o: Props)
    requires Deep(o) && o != []
    ensures Deep(o[1..])
  {
    forall i | 0 <= i < |o[1..]| && o[1..][i].val.Object? ensures Deep(o[1..][i].val.props) {
      assert o[1..][i] == o[i + 1];
    }
  }

  /** A deep object with a deep property before it. */
  lemma DeepCons(p: Prop, o: Props)
    requires Deep(o) && Above(o, p.name) && (p.val.Object? ==> Deep(p.val.props))
    ensures Deep([p] + o)
  {
    assert ([p] + o)[1..] == o;
    forall i | 0 <= i < |[p] + o| && ([p] + o)[i].val.Object? ensures Deep(([p] + o)[i].val.props) {
      assert ([p] + o)[i] == if i == 0 then p else o[i - 1];
    }
  }

  lemma {:induction false} GetDeep(o: Props, name: seq<byte>)
    requires Deep(o) && Get(o, name).Some? && Get(o, name).value.Object?
    ensures Deep(Get(o, name).value.props)
  {
    if o[0].name != name {
      DeepRest(o);
      GetDeep(o[1..], name);
    }
  }

  lemma {:induction false} PutDeep(o: Props, name: seq<byte>, val: Value)
    requires Deep(o) && (val.Object? ==> Deep(val.props))
    ensures Deep(PutProp(o, name, val))
  {
    PutAscending(o, name, val);
    var p := Prop(name, val);
    if o == [] {
      DeepCons(p, []);
    } else {
      DeepRest(o);
      LexZeroIsEqual(o[0].name, name);
      LexAntisymmetric(o[0].name, name);
      if Lex(o[0].name, name) < 0 {
        PutDeep(o[1..], name, val);
        PutAscending(o[1..], name, val);
        DeepCons(o[0], PutProp(o[1..], name, val));
      } else if o[0].name == name {
        DeepCons(p, o[1..]);
      } else {
        AboveAbove(o[1..], name, o[0].name);
        DeepCons(p, o);
      }
    }
  }

  lemma {:induction false} MergedDeep(obj: Props, prev: Props)
    requires Deep(obj) && Deep(prev)
    ensures Deep(Merged(obj, prev))
    decreases obj, prev
  {
    if obj != [] && prev != [] {
      var a, b := obj[0].name, prev[0].name;
      var comp := Lex(a, b);
      LexZeroIsEqual(a, b);
      LexAntisymmetric(a, b);
      DeepRest(obj);
      DeepRest(prev);
      if comp > 0 {
        MergedDeep(obj, prev[1..]);
        AboveAbove(obj[1..], b, a);
        MergedAbove(obj, prev[1..], b);
        DeepCons(prev[0], Merged(obj, prev[1..]));
      } else if comp < 0 {
        MergedDeep(obj[1..], prev);
        AboveAbove(prev[1..], a, b);
        MergedAbove(obj[1..], prev, a);
        DeepCons(obj[0], Merged(obj[1..], prev));
      } else {
        MergedDeep(obj[1..], prev[1..]);
        MergedAbove(obj[1..], prev[1..], a);
        if obj[0].val.Object? && prev[0].val.Object? {
          MergedDeep(obj[0].val.props, prev[0].val.props);
        }
        DeepCons(Prop(a, MergedValue(obj[0].val, prev[0].val)), Merged(obj[1..], prev[1..]));
      }
    }
  }

  /** Name by name: the old value where the update is silent, objects fused where both are objects, else the new one. */
  ghost predicate Fused(m: Props, obj: Props, prev: Props)
    decreases obj
  {
    && (forall name :: Get(obj, name) == None ==> Get(m, name) == Get(prev, name))
    && forall i :: 0 <= i < |obj| ==>
         var given, was, now := obj[i].val, Get(prev, obj[i].name), Get(m, obj[i].name);
         if given.Object? && was.Some? && was.value.Object? then
           now.Some? && now.value.Object? && Fused(now.value.props, given.props, was.value.props)
         else now == Some(given)
  }

  lemma {:induction false} GetAt(o: Props, i: nat)
    requires Ascending(o) && i < |o|
    ensures Get(o, o[i].name) == Some(o[i].val)
  {
    if i > 0 {
      assert o[1..][i - 1] == o[i];
      LexZeroIsEqual(o[0].name, o[0].name);
      GetAt(o[1..], i - 1);
    }
  }

  /** A merge fuses the update into the old object. */
  lemma {:induction false} MergeFuses(obj: Props, prev: Props)
    requires Deep(obj) && Deep(prev)
    ensures Fused(Merged(obj, prev), obj, prev)
    decreases obj
  {
    forall name | Get(obj, name) == None ensures Get(Merged(obj, prev), name) == Get(prev, name) {
      MergeLooksUp(obj, prev, name);
    }
    forall i | 0 <= i < |obj|
      ensures var given, was, now := obj[i].val, Get(prev, obj[i].name), Get(Merged(obj, prev), obj[i].name);
              if given.Object? && was.Some? && was.value.Object? then
                now.Some? && now.value.Object? && Fused(now.value.props, given.props, was.value.props)
              else now == Some(given)
    {
      var given, was := obj[i].val, Get(prev, obj[i].name);
      MergeLooksUp(obj, prev, obj[i].name);
      GetAt(obj, i);
      if given.Object? && was.Some? && was.value.Object? {
        GetDeep(prev, obj[i].name);
        MergeFuses(given.props, was.value.props);
      }
    }
  }

  /** Everything in dest comes before position i of o. */
  predicate Behind(dest: Props, o: Props, i: nat)
    requires i <= |o|
  {
    i < |o| ==> forall k :: 0 <= k < |dest| ==> Lex(dest[k].name, o[i].name) < 0
  }

  lemma {:induction false} AscendingAt(o: Props, i: nat)
    requires Ascending(o) && i < |o|
    ensures Ascending(o[i..]) && Above(o[i + 1..], o[i].name)
  {
    if i > 0 {
      AscendingAt(o[1..], i - 1);
      assert o[1..][i - 1..] == o[i..] && o[1..][i..] == o[i + 1..];
    } else {
      assert o[0..] == o;
    }
  }

  lemma MovesOn(dest: Props, o: Props, i: nat, last: Prop)
    requires Ascending(o) && i < |o| && Behind(dest, o, i)
    requires Lex(last.name, o[i].name) <= 0
    ensures Lex(last.name, o[i].name) < 0 ==> Behind(dest + [last], o, i)
    ensures Behind(dest + [last], o, i + 1)
  {
    AscendingAt(o, i);
    if i + 1 < |o| {
      assert o[i + 1..][0] == o[i + 1];
      forall k | 0 <= k < |dest + [last]| ensures Lex((dest + [last])[k].name, o[i + 1].name) < 0 {
        LexTransitive((dest + [last])[k].name, o[i].name, o[i + 1].name);
      }
    }
  }

  /** `mergeInto`. */
  method MergeInto(obj: Props, prev: Props) returns (dest: Props)
    requires Deep(obj) && Deep(prev)
    ensures dest == Merged(obj, prev)
    decreases obj, prev
  {
    dest := [];
    var i, j := 0, 0;
    while i < |obj| || j < |prev|
      invariant i <= |obj| && j <= |prev| && Behind(dest, obj, i) && Behind(dest, prev, j)
      invariant Merged(obj, prev) == dest + Merged(obj[i..], prev[j..])
      decreases |obj| - i + |prev| - j
    {
      var comp := if i == |obj| then 1 else if j == |prev| then -1 else Lex(obj[i].name, prev[j].name);
      MergeStep(obj, i, prev, j);
      if comp > 0 {
        TakesPrev(dest, obj, i, prev, j);
        Assoc(dest, [prev[j]], Merged(obj[i..], prev[j + 1..]));
        dest := PutProp(dest, prev[j].name, prev[j].val);
        j := j + 1;
      } else if comp < 0 {
        TakesObj(dest, obj, i, prev, j);
        Assoc(dest, [obj[i]], Merged(obj[i + 1..], prev[j..]));
        dest := PutProp(dest, obj[i].name, obj[i].val);
        i := i + 1;
      } else {
        var val := obj[i].val;
        if obj[i].val.Object? && prev[j].val.Object? {
          var merged := MergeInto(obj[i].val.props, prev[j].val.props);
          val := Object(merged);
        }
        TakesBoth(dest, obj, i, prev, j, val);
        Assoc(dest, [Prop(obj[i].name, val)], Merged(obj[i + 1..], prev[j + 1..]));
        dest := PutProp(dest, obj[i].name, val);
        i, j := i + 1, j + 1;
      }
    }
  }

  lemma TakesPrev(dest: Props, obj: Props, i: nat, prev: Props, j: nat)
    requires Ascending(obj) && Ascending(prev) && i <= |obj| && j < |prev| && Behind(dest, obj, i) &&
             Behind(dest, prev, j)
    requires i < |obj| ==> Lex(obj[i].name, prev[j].name) > 0
    ensures PutProp(dest, prev[j].name, prev[j].val) == dest + [prev[j]]
    ensures Behind(dest + [prev[j]], obj, i) && Behind(dest + [prev[j]], prev, j + 1)
  {
    PutPropAppends(dest, prev[j].name, prev[j].val);
    if i < |obj| {
      LexAntisymmetric(obj[i].name, prev[j].name);
      MovesOn(dest, obj, i, prev[j]);
    }
    LexZeroIsEqual(prev[j].name, prev[j].name);
    MovesOn(dest, prev, j, prev[j]);
  }

  lemma TakesObj(dest: Props, obj: Props, i: nat, prev: Props, j: nat)
    requires Ascending(obj) && Ascending(prev) && i < |obj| && j <= |prev| && Behind(dest, obj, i) &&
             Behind(dest, prev, j)
    requires j < |prev| ==> Lex(obj[i].name, prev[j].name) < 0
    ensures PutProp(dest, obj[i].name, obj[i].val) == dest + [obj[i]]
    ensures Behind(dest + [obj[i]], obj, i + 1) && Behind(dest + [obj[i]], prev, j)
  {
    PutPropAppends(dest, obj[i].name, obj[i].val);
    if j < |prev| {
      MovesOn(dest, prev, j, obj[i]);
    }
    LexZeroIsEqual(obj[i].name, obj[i].name);
    MovesOn(dest, obj, i, obj[i]);
  }

  lemma TakesBoth(dest: Props, obj: Props, i: nat, prev: Props, j: nat, val: Value)
    requires Ascending(obj) && Ascending(prev) && i < |obj| && j < |prev| && Behind(dest, obj, i) &&
             Behind(dest, prev, j)
    requires Lex(obj[i].name, prev[j].name) == 0
    ensures var p := Prop(obj[i].name, val);
            && PutProp(dest, p.name, p.val) == dest + [p]
            && Behind(dest + [p], obj, i + 1) && Behind(dest + [p], prev, j + 1)
  {
    PutPropAppends(dest, obj[i].name, val);
    LexZeroIsEqual(obj[i].name, prev[j].name);
    LexZeroIsEqual(obj[i].name, obj[i].name);
    MovesOn(dest, obj, i, Prop(obj[i].name, val));
    MovesOn(dest, prev, j, Prop(obj[i].name, val));
  }

  /** One round of the merge loop. */
  lemma MergeStep(obj: Props, i: nat, prev: Props, j: nat)
    requires i <= |obj| && j <= |prev| && (i < |obj| || j < |prev|)
    ensures var comp := if i == |obj| then 1 else if j == |prev| then -1 else Lex(obj[i].name, prev[j].name);
            && (comp > 0 ==> j < |prev| && Merged(obj[i..], prev[j..]) == [prev[j]] + Merged(obj[i..], prev[j + 1..]))
            && (comp < 0 ==> Merged(obj[i..], prev[j..]) == [obj[i]] + Merged(obj[i + 1..], prev[j..]))
            && (comp == 0 ==> (
                var p := Prop(obj[i].name, MergedValue(obj[i].val, prev[j].val));
                Merged(obj[i..], prev[j..]) == [p] + Merged(obj[i + 1..], prev[j + 1..])))
  {
    assert j < |prev| ==> prev[j..][1..] == prev[j + 1..];
    assert i < |obj| ==> obj[i..][1..] == obj[i + 1..];
    if i == |obj| {
      assert prev[j..] == [prev[j]] + prev[j + 1..];
    } else if j == |prev| {
      assert obj[i..] == [obj[i]] + obj[i + 1..];
    }
  }
}
