/** Index keys: prefix ranges, raw comparison, and the keys of multi-valued properties (MojDbKey, MojDbKeyBuilder). */
module DbKeys {
  import opened Bytes
  import opened Values
  import Encoding

  type Key = seq<byte>

  // ----- prefix ranges -----

  /** `increment`: 0xFF bytes at the end go, and the last byte left grows by one. */
  function Increment(k: Key): Key {
    if k == [] then []
    else
      var last := |k| - 1;
      if k[last] < 255 then k[..last] + [k[last] + 1] else Increment(k[..last])
  }

  method IncrementLoop(k: Key) returns (r: Key)
    ensures r == Increment(k)
  {
    r := k;
    var iter := |r|;
    while iter > 0
      invariant 0 <= iter == |r| && Increment(k) == Increment(r)
    {
      iter := iter - 1;
      if r[iter] < 255 {
        r := r[iter := r[iter] + 1];
        break;
      }
      r := r[..|r| - 1];
    }
  }

  /** `MojDbKeyRange::contains`: an empty bound is no bound. */
  predicate InRange(lower: Key, upper: Key, key: Key) {
    (lower == [] || Lex(key, lower) >= 0) && (upper == [] || Lex(key, upper) < 0)
  }

  /** Between p followed by c and p followed by c + 1 lies exactly what begins with p and c. */
  lemma {:induction false} BetweenNeighbours(p: Key, c: byte, x: Key)
    requires c < 255
    ensures Lex(x, p + [c]) >= 0 && Lex(x, p + [c + 1]) < 0 <==> p + [c] <= x
  {
    var lo, hi := p + [c], p + [c + 1];
    if x == [] {
    } else if p == [] {
      assert lo == [c] && hi == [c + 1];
      assert [c][1..] == [];
    } else {
      assert lo[1..] == p[1..] + [c] && hi[1..] == p[1..] + [c + 1];
      BetweenNeighbours(p[1..], c, x[1..]);
      if x[0] == p[0] {
        assert x == [x[0]] + x[1..] && lo == [p[0]] + lo[1..];
      }
    }
  }

  lemma {:induction false} AtLeastPrefix(k: Key, x: Key)
    ensures k <= x ==> Lex(x, k) >= 0
  {
    if k != [] && k <= x {
      AtLeastPrefix(k[1..], x[1..]);
    }
  }

  /** From a key up to its increment lies exactly what it is a prefix of. */
  lemma {:induction false} PrefixRange(k: Key, x: Key)
    ensures InRange(k, Increment(k), x) <==> k <= x
  {
    if k != [] {
      var last := |k| - 1;
      var p := k[..last];
      assert k == p + [k[last]];
      if k[last] < 255 {
        BetweenNeighbours(p, k[last], x);
      } else {
        PrefixRange(p, x);
        AtLeastPrefix(k, x);
        assert p <= k;
        AtLeastPrefix(p, k);
        if Lex(x, k) >= 0 {
          LexAntisymmetric(x, k);
          LexAntisymmetric(k, p);
          LexTransitive(p, k, x);
          LexAntisymmetric(p, x);
          if p <= x {
            assert x == p + x[last..];
            LexCommonPrefix(p, x[last..], [k[last]]);
          }
        }
      }
    }
  }

  /** The key of a tuple of values is a byte prefix of another exactly if the values come first in the other tuple. */
  lemma {:induction false} TuplePrefix(vs: seq<Value>, ws: seq<Value>)
    requires ValidElems(vs) && ValidElems(ws)
    ensures Encoding.EncodeKey(vs) <= Encoding.EncodeKey(ws) <==> vs <= ws
  {
    if vs != [] && ws != [] {
      var a, b := Encoding.Encode(vs[0]), Encoding.Encode(ws[0]);
      var s, t := Encoding.EncodeKey(vs[1..]), Encoding.EncodeKey(ws[1..]);
      TuplePrefix(vs[1..], ws[1..]);
      assert Encoding.EncodeKey(vs) == a + s && Encoding.EncodeKey(ws) == b + t;
      if vs[0] == ws[0] {
        SameHead(a, s, t);
        SameFirst(vs, ws);
      } else if a + s <= b + t {
        var rest := (b + t)[|a + s|..];
        Encoding.OrderEmbedding(vs[0], ws[0], s + rest, t);
        assert a + (s + rest) == b + t;
        LexZeroIsEqual(a + (s + rest), b + t);
        assert false;
      }
    }
  }

  lemma SameHead(a: Key, s: Key, t: Key)
    ensures a + s <= a + t <==> s <= t
  {
    if a + s <= a + t {
      assert (a + s)[|a|..] == s && (a + t)[|a|..] == t;
    }
  }

  lemma SameFirst(vs: seq<Value>, ws: seq<Value>)
    requires vs != [] && ws != [] && vs[0] == ws[0]
    ensures vs <= ws <==> vs[1..] <= ws[1..]
  {
    assert vs == [vs[0]] + vs[1..] && ws == [ws[0]] + ws[1..];
  }

  /** An index scan over the range of a key prefix meets exactly the tuples that begin with those values. */
  lemma TupleScan(vs: seq<Value>, ws: seq<Value>)
    requires ValidElems(vs) && ValidElems(ws)
    ensures var k := Encoding.EncodeKey(vs);
            InRange(k, Increment(k), Encoding.EncodeKey(ws)) <==> vs <= ws
  {
    PrefixRange(Encoding.EncodeKey(vs), Encoding.EncodeKey(ws));
    TuplePrefix(vs, ws);
  }

  // ----- MojLexicalCompare -----

  /** The conversion of a 64-bit size difference to a 32-bit int. */
  function IntCast(d: int): int {
    var u := d % 0x1_0000_0000;
    if u >= 0x8000_0000 then u - 0x1_0000_0000 else u
  }

  /** The keys differ at some byte both have. */
  predicate Differ(a: Key, b: Key) {
    exists i :: 0 <= i < |a| && i < |b| && a[i] != b[i]
  }

  method LexicalCompare(a: Key, b: Key) returns (r: int)
    ensures Differ(a, b) ==> Cmp(r, 0) == Lex(a, b)
    ensures !Differ(a, b) ==> r == IntCast(|a| - |b|)
  {
    var n := if |a| < |b| then |a| else |b|;
    var i := 0;
    while i < n
      invariant 0 <= i <= n && forall j :: 0 <= j < i ==> a[j] == b[j]
    {
      if a[i] != b[i] {
        FirstDifference(a, b, i);
        return a[i] as int - b[i] as int;
      }
      i := i + 1;
    }
    r := IntCast(|a| - |b|);
  }

  lemma {:induction false} NoDifference(a: Key, b: Key)
    requires !Differ(a, b)
    ensures Lex(a, b) == Cmp(|a|, |b|)
  {
    if a != [] && b != [] {
      forall i | 0 <= i < |a[1..]| && i < |b[1..]| ensures a[1..][i] == b[1..][i] {
        assert !(a[i + 1] != b[i + 1]);
      }
      NoDifference(a[1..], b[1..]);
    }
  }

  /**
   * The result has the sign of the lexicographic order unless one key is a prefix of the other and the difference of
   * their sizes, cut down to 32 bits, has another sign: then, and only then, it is wrong.
   */
  lemma CompareIsRight(a: Key, b: Key, r: int)
    requires if Differ(a, b) then Cmp(r, 0) == Lex(a, b) else r == IntCast(|a| - |b|)
    ensures var d := |a| - |b|;
            Cmp(r, 0) == Lex(a, b) <==>
            Differ(a, b) || d == 0 ||
                (if d > 0 then 0 < d % 0x1_0000_0000 < 0x8000_0000 else d % 0x1_0000_0000 >= 0x8000_0000)
  {
    if !Differ(a, b) {
      NoDifference(a, b);
    }
  }

  /** Two to the 31 bytes against none: the sizes' difference comes out negative. */
  lemma CompareGoesWrong()
    ensures var a, b := seq(0x8000_0000, _ => 0), []; !Differ(a, b) && IntCast(|a| - |b|) < 0 < Lex(a, b)
  {
    var a: Key := seq(0x8000_0000, _ => 0);
    NoDifference(a, []);
  }

  // ----- all combinations of keys -----

  /** Every concatenation of one key from each of the lists. */
  function Product(vals: seq<seq<Key>>): set<Key> {
    if vals == [] then {[]} else set a, b | a in vals[0] && b in Product(vals[1..]) :: a + b
  }

  function Joined(choice: seq<Key>): Key {
    if choice == [] then [] else choice[0] + Joined(choice[1..])
  }

  /** One key from each list, in order. */
  predicate ChosenFrom(choice: seq<Key>, vals: seq<seq<Key>>) {
    |choice| == |vals| && forall i :: 0 <= i < |vals| ==> choice[i] in vals[i]
  }

  lemma {:induction false} ProductHas(choice: seq<Key>, vals: seq<seq<Key>>)
    requires ChosenFrom(choice, vals)
    ensures Joined(choice) in Product(vals)
  {
    if vals != [] {
      ProductHas(choice[1..], vals[1..]);
    }
  }

  lemma {:induction false} ProductIsChosen(key: Key, vals: seq<seq<Key>>) returns (choice: seq<Key>)
    requires key in Product(vals)
    ensures ChosenFrom(choice, vals) && Joined(choice) == key
    decreases |vals|
  {
    if vals == [] {
      choice := [];
    } else {
      var a, b :| a in vals[0] && b in Product(vals[1..]) && a + b == key;
      var rest := ProductIsChosen(b, vals[1..]);
      choice := [a] + rest;
      assert choice[1..] == rest;
    }
  }

  // ----- the backtracking loop -----

  /** Where the loop stands: one iterator for each list, those up to `pos` in use, those after it at their start. */
  predicate Standing(vals: seq<seq<Key>>, iters: seq<nat>, pos: nat)
    decreases |vals|
  {
    && |iters| == |vals| && pos < |vals| && iters[0] <= |vals[0]|
    && if pos == 0 then forall i :: 1 <= i < |iters| ==> iters[i] == 0
       else iters[0] < |vals[0]| && Standing(vals[1..], iters[1..], pos - 1)
  }

  /** The keys of one value of the first list. */
  function Under(a: Key, rest: set<Key>): set<Key> {
    set b | b in rest :: a + b
  }

  function UpTo(vals: seq<Key>, n: nat, rest: set<Key>): set<Key>
    requires n <= |vals|
  {
    if n == 0 then {} else UpTo(vals, n - 1, rest) + Under(vals[n - 1], rest)
  }

  /** The keys made by the time the loop stands there. */
  function Made(vals: seq<seq<Key>>, iters: seq<nat>, pos: nat): set<Key>
    requires Standing(vals, iters, pos)
    decreases |vals|
  {
    UpTo(vals[0], iters[0], Product(vals[1..])) +
    if pos == 0 then {} else Under(vals[0][iters[0]], Made(vals[1..], iters[1..], pos - 1))
  }

  function Mul(n: nat, k: nat): nat {
    if n == 0 then 0 else k + Mul(n - 1, k)
  }

  /** Rounds of the loop for one value of the first list, and for the whole of it. */
  function PerValue(vals: seq<seq<Key>>): nat
    requires vals != []
    decreases |vals|, 0
  {
    if |vals| == 1 then 1 else 1 + Rounds(vals[1..])
  }

  function Rounds(vals: seq<seq<Key>>): nat
    requires vals != []
    decreases |vals|, 1
  {
    Mul(|vals[0]|, PerValue(vals)) + 1
  }

  function RoundsLeft(vals: seq<seq<Key>>, iters: seq<nat>, pos: nat): nat
    requires Standing(vals, iters, pos)
    decreases |vals|
  {
    if pos == 0 then Mul(|vals[0]| - iters[0], PerValue(vals)) + 1
    else Mul(|vals[0]| - iters[0] - 1, PerValue(vals)) + 1 + RoundsLeft(vals[1..], iters[1..], pos - 1)
  }

  lemma {:induction false} UpToAll(vals: seq<Key>, n: nat, rest: set<Key>)
    requires n <= |vals|
    ensures UpTo(vals, n, rest) == set a, b | a in vals[..n] && b in rest :: a + b
  {
    if n > 0 {
      UpToAll(vals, n - 1, rest);
      assert vals[..n] == vals[..n - 1] + [vals[n - 1]];
    }
  }

  /** Iterators at the end of the first list: everything was made. */
  lemma MadeAll(vals: seq<seq<Key>>, iters: seq<nat>)
    requires Standing(vals, iters, 0) && iters[0] == |vals[0]|
    ensures Made(vals, iters, 0) == Product(vals)
  {
    UpToAll(vals[0], |vals[0]|, Product(vals[1..]));
    assert vals[0][..|vals[0]|] == vals[0];
  }

  /** Back up: the current list is through, and the one before moves on. */
  lemma {:induction false} PopStep(vals: seq<seq<Key>>, iters: seq<nat>, pos: nat)
    requires Standing(vals, iters, pos) && pos > 0 && iters[pos] == |vals[pos]|
    ensures var next := iters[pos := 0][pos - 1 := iters[pos - 1] + 1];
            && Standing(vals, next, pos - 1) && Made(vals, next, pos - 1) == Made(vals, iters, pos)
            && RoundsLeft(vals, next, pos - 1) == RoundsLeft(vals, iters, pos) - 1
    decreases |vals|
  {
    var next := iters[pos := 0][pos - 1 := iters[pos - 1] + 1];
    StandingBounds(vals, iters, pos);
    if pos == 1 {
      var rest := iters[1..];
      MadeAll(vals[1..], rest);
      forall i | 1 <= i < |next| ensures next[i] == 0 {
        if i > 1 {
          assert rest[i - 1] == 0;
        }
      }
    } else {
      PopStep(vals[1..], iters[1..], pos - 1);
      assert next[1..] == iters[1..][pos - 1 := 0][pos - 2 := iters[pos - 1] + 1];
    }
  }

  lemma {:induction false} StandingBounds(vals: seq<seq<Key>>, iters: seq<nat>, pos: nat)
    requires Standing(vals, iters, pos)
    ensures iters[pos] <= |vals[pos]| && forall i :: 0 <= i < pos ==> iters[i] < |vals[i]|
    ensures forall i :: pos < i < |iters| ==> iters[i] == 0
    decreases |vals|
  {
    if pos > 0 {
      StandingBounds(vals[1..], iters[1..], pos - 1);
      forall i | pos < i < |iters| ensures iters[i] == 0 {
        assert iters[i] == iters[1..][i - 1];
      }
      forall i | 0 <= i < pos ensures iters[i] < |vals[i]| {
        if i > 0 {
          assert iters[i] == iters[1..][i - 1] && vals[i] == vals[1..][i - 1];
        }
      }
    }
  }

  /** Into the next list, which stands at its start. */
  lemma {:induction false} PushStep(vals: seq<seq<Key>>, iters: seq<nat>, pos: nat)
    requires Standing(vals, iters, pos) && pos + 1 < |vals| && iters[pos] < |vals[pos]|
    ensures Standing(vals, iters, pos + 1) && Made(vals, iters, pos + 1) == Made(vals, iters, pos)
    ensures RoundsLeft(vals, iters, pos + 1) == RoundsLeft(vals, iters, pos) - 1
    decreases |vals|
  {
    if pos == 0 {
      var n, per := |vals[0]| - iters[0], PerValue(vals);
      assert iters[1..][0] == 0 && RoundsLeft(vals[1..], iters[1..], 0) == Rounds(vals[1..]) == per - 1;
      assert Mul(n, per) == per + Mul(n - 1, per);
      assert Made(vals[1..], iters[1..], 0) == {};
    } else {
      PushStep(vals[1..], iters[1..], pos - 1);
    }
  }

  /** The key the iterators stand at. */
  function Current(vals: seq<seq<Key>>, iters: seq<nat>): Key
    requires |iters| == |vals| && forall i :: 0 <= i < |vals| ==> iters[i] < |vals[i]|
  {
    if vals == [] then [] else vals[0][iters[0]] + Current(vals[1..], iters[1..])
  }

  lemma UnderPlus(a: Key, made: set<Key>, k: Key)
    ensures Under(a, made + {k}) == Under(a, made) + {a + k}
  {
  }

  /** In the last list: one key is made, and the iterator moves on. */
  lemma {:induction false} MakeStep(vals: seq<seq<Key>>, iters: seq<nat>)
    requires vals != [] && Standing(vals, iters, |vals| - 1) && iters[|vals| - 1] < |vals[|vals| - 1]|
    requires forall i :: 0 <= i < |vals| ==> iters[i] < |vals[i]|
    ensures var pos := |vals| - 1;
            var next := iters[pos := iters[pos] + 1];
            && Standing(vals, next, pos) && Made(vals, next, pos) == Made(vals, iters, pos) + {Current(vals, iters)}
            && RoundsLeft(vals, next, pos) == RoundsLeft(vals, iters, pos) - 1
    decreases |vals|
  {
    var pos := |vals| - 1;
    var next := iters[pos := iters[pos] + 1];
    if pos == 0 {
      var n := |vals[0]| - iters[0];
      assert Mul(n, 1) == 1 + Mul(n - 1, 1);
      assert Current(vals[1..], iters[1..]) == [];
      assert Under(vals[0][iters[0]], {[]}) == {vals[0][iters[0]] + []};
    } else {
      MakeStep(vals[1..], iters[1..]);
      assert next[1..] == iters[1..][pos - 1 := iters[pos] + 1];
      var a, made := vals[0][iters[0]], Made(vals[1..], iters[1..], pos - 1);
      UnderPlus(a, made, Current(vals[1..], iters[1..]));
    }
  }

  /** The property values pushed so far, each with its iterator. */
  class KeyBuilder {
    var stack: seq<seq<Key>>

    constructor ()
      ensures stack == []
    {
      stack := [];
    }

    method Push(vals: seq<Key>)
      modifies this
      ensures stack == old(stack) + [vals]
    {
      stack := stack + [vals];
    }

    /** The key under the iterators. */
    method MakeKey(iters: seq<nat>) returns (key: Key)
      requires |iters| == |stack| && forall i :: 0 <= i < |stack| ==> iters[i] < |stack[i]|
      ensures key == Current(stack, iters)
    {
      key := [];
      var i := 0;
      assert stack[0..] == stack && iters[0..] == iters;
      while i < |stack|
        invariant 0 <= i <= |stack| && Current(stack, iters) == key + Current(stack[i..], iters[i..])
      {
        assert stack[i..][1..] == stack[i + 1..] && iters[i..][1..] == iters[i + 1..];
        key := key + stack[i][iters[i]];
        i := i + 1;
      }
      assert key + [] == key;
    }

    /** `keys`: every combination, and none when nothing was pushed. */
    method Keys() returns (keysOut: set<Key>)
      ensures keysOut == if stack == [] then {} else Product(stack)
    {
      keysOut := {};
      if stack == [] {
        return;
      }
      var pos, last := 0, |stack| - 1;
      var iters: seq<nat> := seq(|stack|, _ => 0);
      while true
        invariant Standing(stack, iters, pos) && keysOut == Made(stack, iters, pos)
        decreases RoundsLeft(stack, iters, pos)
      {
        StandingBounds(stack, iters, pos);
        if iters[pos] == |stack[pos]| {
          if pos == 0 {
            MadeAll(stack, iters);
            break;
          }
          PopStep(stack, iters, pos);
          iters := iters[pos := 0];
          pos := pos - 1;
          iters := iters[pos := iters[pos] + 1];
        } else if pos == last {
          MakeStep(stack, iters);
          var key := MakeKey(iters);
          keysOut := keysOut + {key};
          iters := iters[pos := iters[pos] + 1];
        } else {
          PushStep(stack, iters, pos);
          pos := pos + 1;
        }
      }
    }
  }

  /** The keys are exactly the concatenations of one value from each pushed set; an empty set leaves none. */
  lemma KeysAreChoices(vals: seq<seq<Key>>, key: Key)
    ensures key in Product(vals) <==> exists choice :: ChosenFrom(choice, vals) && Joined(choice) == key
    ensures [] in vals ==> Product(vals) == {}
  {
    if key in Product(vals) {
      var choice := ProductIsChosen(key, vals);
    }
    forall choice | ChosenFrom(choice, vals) ensures Joined(choice) in Product(vals) {
      ProductHas(choice, vals);
    }
    if [] in vals {
      EmptyLeavesNone(vals);
    }
  }

  lemma {:induction false} EmptyLeavesNone(vals: seq<seq<Key>>)
    requires [] in vals
    ensures Product(vals) == {}
  {
    if vals[0] != [] {
      EmptyLeavesNone(vals[1..]);
    }
  }
}
