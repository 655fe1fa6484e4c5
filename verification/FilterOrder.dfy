/** When the trie of a select set has its children in order, said of the strings of the set (MojObjectFilter::init). */
module FilterOrders {
  import opened Bytes
  import opened Values
  import opened FilterTries

  // ----- the condition on paths -----

  /** The first path that begins with these names, or the number of paths. */
  function FirstWith(sel: seq<Path>, names: Path): (i: nat)
    ensures i <= |sel| && (i < |sel| ==> names <= sel[i])
    ensures forall j :: 0 <= j < i ==> !(names <= sel[j])
  {
    if sel == [] || names <= sel[0] then 0 else 1 + FirstWith(sel[1..], names)
  }

  /** No path ends at this place or on the way to it. */
  predicate Open(sel: seq<Path>, at: Path) {
    forall k :: 0 <= k < |sel| ==> sel[k] == [] || !(sel[k] <= at)
  }

  /** At an open place the greater name x is given before the smaller name y. */
  predicate MisorderedAt(sel: seq<Path>, at: Path, x: seq<byte>, y: seq<byte>) {
    Lex(x, y) > 0 && FirstWith(sel, at + [x]) < FirstWith(sel, at + [y]) < |sel| && Open(sel, at)
  }

  ghost predicate Misordered(sel: seq<Path>) {
    exists at, x, y :: MisorderedAt(sel, at, x, y)
  }

  lemma Dropped<T>(n: seq<T>, s: seq<T>, u: seq<T>)
    ensures n + u <= n + s <==> u <= s
  {
    assert (n + s)[|n|..] == s && (n + u)[|n|..] == u;
    if n + u <= n + s {
      assert n + u == (n + s)[..|n| + |u|];
      assert s[..|u|] == (n + s)[..|n| + |u|][|n|..] == u;
    }
  }

  lemma AfterPrefix<T>(n: seq<T>, s: seq<T>, u: seq<T>)
    ensures n + u <= n + s <==> u <= s
    ensures n + s <= n + u <==> s <= u
    ensures n + u == n + s <==> u == s
  {
    Dropped(n, s, u);
    Dropped(n, u, s);
    assert (n + s)[|n|..] == s && (n + u)[|n|..] == u;
  }

  lemma {:induction false} FirstWithName(sel: seq<Path>, name: seq<byte>)
    ensures FirstWith(sel, [name]) == First(sel, name)
  {
    if sel != [] {
      FirstWithName(sel[1..], name);
    }
  }

  lemma FirstStep(sel: seq<Path>, name: seq<byte>, p: Path)
    requires sel != []
    ensures var rest, inside := FirstWith(sel[1..], [name] + p), FirstWith(Under(sel[1..], name), p);
            if sel[0] == [] || sel[0][0] != name then
              FirstWith(sel, [name] + p) == 1 + rest && FirstWith(Under(sel, name), p) == inside
            else
              && FirstWith(sel, [name] + p) == (if p <= sel[0][1..] then 0 else 1 + rest)
              && FirstWith(Under(sel, name), p) == (if p <= sel[0][1..] then 0 else 1 + inside)
  {
    if sel[0] == [] || sel[0][0] != name {
      assert ([name] + p)[0] == name;
      assert Under(sel, name) == Under(sel[1..], name);
    } else {
      var r, rest := sel[0][1..], Under(sel[1..], name);
      assert sel[0] == [name] + r && Under(sel, name) == [r] + rest && ([r] + rest)[1..] == rest;
      AfterPrefix([name], r, p);
    }
  }

  /** Below a name paths come in the same order. */
  lemma {:induction false} FirstUnder(sel: seq<Path>, name: seq<byte>, p: Path, q: Path)
    ensures FirstWith(sel, [name] + p) < FirstWith(sel, [name] + q) <==>
            FirstWith(Under(sel, name), p) < FirstWith(Under(sel, name), q)
    ensures FirstWith(sel, [name] + q) < |sel| <==> FirstWith(Under(sel, name), q) < |Under(sel, name)|
  {
    if sel != [] {
      FirstUnder(sel[1..], name, p, q);
      FirstStep(sel, name, p);
      FirstStep(sel, name, q);
    }
  }

  lemma OpenInside(sel: seq<Path>, name: seq<byte>, at: Path)
    requires Open(sel, [name] + at)
    ensures [] !in Under(sel, name) && Open(Under(sel, name), at)
  {
    var inside := Under(sel, name);
    forall k | 0 <= k < |inside| ensures inside[k] != [] && !(inside[k] <= at) {
      var j := UnderComesFrom(sel, name, k);
      AfterPrefix([name], at, inside[k]);
    }
  }

  lemma OpenUnder(sel: seq<Path>, name: seq<byte>, at: Path)
    ensures Open(sel, [name] + at) <==> [] !in Under(sel, name) && Open(Under(sel, name), at)
  {
    var inside := Under(sel, name);
    if Open(sel, [name] + at) {
      OpenInside(sel, name, at);
    } else {
      var k :| 0 <= k < |sel| && sel[k] != [] && sel[k] <= [name] + at;
      assert sel[k][0] == ([name] + at)[0] && sel[k] == [name] + sel[k][1..];
      UnderHas(sel, k);
      AfterPrefix([name], at, sel[k][1..]);
    }
  }

  lemma MisorderedUnder(sel: seq<Path>, name: seq<byte>, at: Path, x: seq<byte>, y: seq<byte>)
    ensures MisorderedAt(sel, [name] + at, x, y) <==>
            [] !in Under(sel, name) && MisorderedAt(Under(sel, name), at, x, y)
  {
    assert [name] + at + [x] == [name] + (at + [x]) && [name] + at + [y] == [name] + (at + [y]);
    FirstUnder(sel, name, at + [x], at + [y]);
    OpenUnder(sel, name, at);
  }

  lemma ChildOf(children: seq<Trie>, sel: seq<Path>, x: seq<byte>) returns (a: nat)
    requires Covers(children, sel) && First(sel, x) < |sel|
    ensures a == FindChild(children, x) < |children| && children[a].name == x
  {
    a := FindChild(children, x);
    assert sel[First(sel, x)][0] == x;
  }

  /** Of two different names the one named first has the first child. */
  lemma ChildrenOfNames(children: seq<Trie>, sel: seq<Path>, x: seq<byte>, y: seq<byte>)
    requires Covers(children, sel) && Arranged(children, sel) && First(sel, x) < First(sel, y) < |sel|
    ensures var a, b := FindChild(children, x), FindChild(children, y);
            a < b < |children| && children[a].name == x && children[b].name == y
  {
    var a := ChildOf(children, sel, x);
    var b := ChildOf(children, sel, y);
  }

  /** Names misordered among the paths are children out of order. */
  lemma {:induction false} MisorderedBreaks(t: Trie, sel: seq<Path>, at: Path, x: seq<byte>, y: seq<byte>)
    requires Reflects(t, sel) && MisorderedAt(sel, at, x, y)
    ensures !Monotone(t)
    decreases |at|
  {
    if at == [] {
      assert at + [x] == [x] && at + [y] == [y];
      FirstWithName(sel, x);
      FirstWithName(sel, y);
      ChildrenOfNames(t.children, sel, x, y);
    } else {
      var name := at[0];
      assert at == [name] + at[1..];
      MisorderedUnder(sel, name, at[1..], x, y);
      var j := FirstWith(sel, at + [y]);
      assert at + [y] <= sel[j] && sel[j][0] == name;
      var b := FindChild(t.children, name);
      assert Says(t.children[b], Under(sel, name));
      MisorderedBreaks(t.children[b], Under(sel, name), at[1..], x, y);
    }
  }

  /** Children out of order come from names misordered among the paths. */
  lemma {:induction false} BrokenIsMisordered(t: Trie, sel: seq<Path>) returns (at: Path, x: seq<byte>, y: seq<byte>)
    requires Reflects(t, sel) && !Monotone(t)
    ensures MisorderedAt(sel, at, x, y)
    decreases t
  {
    if a, b :| 0 <= a < b < |t.children| && Lex(t.children[a].name, t.children[b].name) >= 0 {
      at, x, y := [], t.children[a].name, t.children[b].name;
      assert First(sel, x) < First(sel, y);
      assert Says(t.children[b], Under(sel, y));
      UnderHasFirst(sel, y);
      LexZeroIsEqual(x, y);
      assert at + [x] == [x] && at + [y] == [y];
      FirstWithName(sel, x);
      FirstWithName(sel, y);
    } else {
      assert SortedChildren(t.children);
      var b :| 0 <= b < |t.children| && !Monotone(t.children[b]);
      var name := t.children[b].name;
      assert Says(t.children[b], Under(sel, name));
      at, x, y := BrokenIsMisordered(t.children[b], Under(sel, name));
      MisorderedUnder(sel, name, at, x, y);
      at := [name] + at;
    }
  }

  /** If all paths land, the trie is in order exactly if no names are misordered. */
  lemma InOrderIff(strings: seq<seq<byte>>)
    requires AllLand(Paths(strings))
    ensures Monotone(Init(strings)) <==> !Misordered(Paths(strings))
  {
    var t, sel := Init(strings), Paths(strings);
    BuildReflects(sel);
    if at, x, y :| MisorderedAt(sel, at, x, y) {
      MisorderedBreaks(t, sel, at, x, y);
    }
    if !Monotone(t) {
      var at, x, y := BrokenIsMisordered(t, sel);
    }
  }

  // ----- the condition on strings in order and without empty parts -----

  /** One of the strings is this one, or ends at a part boundary inside it. */
  predicate Ended(strings: seq<seq<byte>>, u: seq<byte>) {
    exists k :: 0 <= k < |strings| && EndsIn(strings[k], u)
  }

  predicate EndsIn(s: seq<byte>, u: seq<byte>) {
    s == u || s + [DOT] <= u
  }

  /** After u one string goes on with a character below the dot, another with the dot, and none ends there or before. */
  predicate ClashAt(strings: seq<seq<byte>>, i: nat, j: nat, u: seq<byte>, c: byte) {
    && i < |strings| && j < |strings| && c < DOT
    && u + [c] <= strings[i] && u + [DOT] <= strings[j] && !Ended(strings, u)
  }

  /** A name of one path and a longer name of another sort one way as names and the other way in the strings. */
  ghost predicate Clash(strings: seq<seq<byte>>) {
    exists i: nat, j: nat, u, c :: ClashAt(strings, i, j, u, c)
  }

  // ----- dots in strings -----

  function Joined(sel: seq<Path>): (strings: seq<seq<byte>>)
    ensures |strings| == |sel| && forall i :: 0 <= i < |sel| ==> strings[i] == Join(sel[i])
  {
    seq(|sel|, i requires 0 <= i < |sel| => Join(sel[i]))
  }

  predicate Dotless(x: seq<byte>) {
    forall k :: 0 <= k < |x| ==> x[k] != DOT
  }

  /** A dotless beginning of a string is one of its first part. */
  lemma {:induction false} InFirstPart(v: seq<byte>, x: seq<byte>, t: seq<byte>)
    requires Dotless(v) && TailLike(t) && v <= x + t
    ensures v <= x
    decreases |x|
  {
    if v != [] {
      assert (x + t)[0] == v[0];
      if x != [] {
        assert (x + t)[1..] == x[1..] + t;
        InFirstPart(v[1..], x[1..], t);
      }
    }
  }

  /** The first dot of a string ends its first part. */
  lemma {:induction false} FirstDot(v: seq<byte>, x: seq<byte>, t: seq<byte>)
    requires Dotless(v) && Dotless(x) && TailLike(t) && v + [DOT] <= x + t
    ensures v == x && t != []
    decreases |x|
  {
    assert (x + t)[0] == (v + [DOT])[0];
    if v != [] && x != [] {
      assert (v + [DOT])[1..] == v[1..] + [DOT] && (x + t)[1..] == x[1..] + t;
      FirstDot(v[1..], x[1..], t);
      assert v == [v[0]] + v[1..] && x == [x[0]] + x[1..];
    }
  }

  lemma {:induction false} NoDotIn(s: seq<byte>, y: seq<byte>)
    requires Dotless(y)
    ensures !(s + [DOT] <= y)
    decreases |s|
  {
    if y != [] && s != [] {
      assert (s + [DOT])[1..] == s[1..] + [DOT];
      NoDotIn(s[1..], y[1..]);
    } else {
      assert (s + [DOT])[0] == if s == [] then DOT else s[0];
    }
  }

  /** Below the same name ends what ends there with the name before it. */
  lemma SameHead(x: seq<byte>, r: seq<byte>, n: seq<byte>, u: seq<byte>)
    requires Dotless(x) && Dotless(n) && EndsIn(x + [DOT] + r, n + [DOT] + u)
    ensures x == n && EndsIn(r, u)
  {
    var head := n + [DOT];
    assert x + [DOT] <= x + [DOT] + r <= x + [DOT] + r + [DOT];
    assert head + u == n + ([DOT] + u);
    FirstDot(x, n, [DOT] + u);
    AfterPrefix(head, u, r);
    AfterPrefix(head, u, r + [DOT]);
    assert head + r + [DOT] == head + (r + [DOT]);
  }

  lemma NameEnds(n: seq<byte>, rest: Path, u: seq<byte>)
    ensures rest == [] || EndsIn(Join(rest), u) ==> EndsIn(Join([n] + rest), n + [DOT] + u)
  {
    JoinIs([n] + rest);
    var head, r := n + [DOT], Join(rest);
    assert ([n] + rest)[1..] == rest;
    AfterPrefix(head, u, r);
    AfterPrefix(head, u, r + [DOT]);
    assert head + r + [DOT] == head + (r + [DOT]);
  }

  lemma JoinIs(path: Path)
    requires path != []
    ensures Join(path) == path[0] + Tail(path) && TailLike(Tail(path))
    ensures |path| > 1 ==> Join(path) == path[0] + [DOT] + Join(path[1..])
  {
  }

  lemma NonEmpty(path: Path)
    requires Parted(path)
    ensures Join(path) == [] <==> path == []
    ensures path != [] ==> Join(path)[0] != DOT
  {
    if path != [] {
      assert Part(path[0]);
      assert Join(path)[0] == path[0][0];
    }
  }

  /** Below the same name, what the dot hides decides. */
  lemma BelowName(n: seq<byte>, a: Path, b: Path)
    requires Part(n) && Parted(a) && Parted(b) && Lex(Join([n] + a), Join([n] + b)) < 0
    ensures Lex(Join(a), Join(b)) < 0
  {
    NonEmpty(a);
    NonEmpty(b);
    JoinIs([n] + a);
    JoinIs([n] + b);
    assert ([n] + a)[1..] == a && ([n] + b)[1..] == b;
    LexCommonPrefix(n, Tail([n] + a), Tail([n] + b));
    if a != [] && b != [] {
      LexCommonPrefix([DOT], Join(a), Join(b));
    }
  }

  // ----- the paths under a name -----

  lemma {:induction false} UnderInOrder(sel: seq<Path>, name: seq<byte>, i: nat, j: nat) returns (p: nat, q: nat)
    requires i < j < |Under(sel, name)|
    ensures p < q < |sel| && sel[p] == [name] + Under(sel, name)[i] && sel[q] == [name] + Under(sel, name)[j]
  {
    if sel[0] != [] && sel[0][0] == name {
      if i == 0 {
        p := 0;
        q := UnderComesFrom(sel[1..], name, j - 1);
        q := q + 1;
      } else {
        p, q := UnderInOrder(sel[1..], name, i - 1, j - 1);
        p, q := p + 1, q + 1;
      }
    } else {
      p, q := UnderInOrder(sel[1..], name, i, j);
      p, q := p + 1, q + 1;
    }
  }

  lemma UnderSelects(sel: seq<Path>, name: seq<byte>)
    requires Selects(sel)
    ensures Selects(Under(sel, name))
  {
    var inside := Under(sel, name);
    UnderAllParted(sel, name);
    forall i, j | 0 <= i < j < |inside| ensures Lex(Join(inside[i]), Join(inside[j])) < 0 {
      var p, q := UnderInOrder(sel, name, i, j);
      UnderParted(sel[p], name, inside[i]);
      BelowName(name, inside[i], inside[j]);
    }
  }

  lemma UnderParted(path: Path, name: seq<byte>, rest: Path)
    requires Parted(path) && path == [name] + rest
    ensures Part(name) && Parted(rest)
  {
    assert Part(path[0]);
    forall i | 0 <= i < |rest| ensures Part(rest[i]) {
      assert rest[i] == path[i + 1];
    }
  }

  lemma UnderAllParted(sel: seq<Path>, name: seq<byte>)
    requires AllParted(sel)
    ensures AllParted(Under(sel, name)) && (Under(sel, name) != [] ==> Part(name))
  {
    var inside := Under(sel, name);
    forall i | 0 <= i < |inside| ensures Parted(inside[i]) && Part(name) {
      var p := UnderComesFrom(sel, name, i);
      UnderParted(sel[p], name, inside[i]);
    }
    assert inside != [] ==> Parted(inside[0]);
  }

  /** A child that does not end a path, and what it says. */
  lemma InnerChild(t: Trie, sel: seq<Path>, b: nat)
    requires Selects(sel) && Reflects(t, sel) && b < |t.children|
    ensures var c := t.children[b];
            var inside := Under(sel, c.name);
            && inside != [] && Selects(inside) && Part(c.name) && (c.children == [] <==> [] in inside)
            && ([] !in inside ==> Reflects(c, inside))
  {
    var c := t.children[b];
    assert Says(c, Under(sel, c.name));
    UnderSelects(sel, c.name);
    var p := UnderComesFrom(sel, c.name, 0);
    UnderParted(sel[p], c.name, Under(sel, c.name)[0]);
  }

  // ----- a clash puts children out of order -----

  lemma PrefixIsLess(y: seq<byte>, x: seq<byte>)
    requires y < x
    ensures Lex(y, x) < 0 && Lex(x, y) > 0
  {
    LexCommonPrefix(y, [], x[|y|..]);
    assert y + [] == y && y + x[|y|..] == x;
    LexAntisymmetric(x, y);
  }

  lemma CharDecides(u: seq<byte>, c: byte, s: seq<byte>, d: byte, t: seq<byte>)
    requires u + [c] <= s && u + [d] <= t && c < d
    ensures Lex(s, t) < 0
  {
    var a, b := s[|u|..], t[|u|..];
    assert s == u + a && t == u + b;
    assert a[0] == (u + [c])[|u|] && b[0] == (u + [d])[|u|];
    LexCommonPrefix(u, a, b);
  }

  lemma StringsInOrder(sel: seq<Path>, i: nat, q: nat)
    requires Selects(sel) && i < |sel| && q < |sel| && Lex(Join(sel[i]), Join(sel[q])) < 0
    ensures i < q
  {
    LexAntisymmetric(Join(sel[i]), Join(sel[q]));
  }

  lemma NextChar(y: seq<byte>, x: seq<byte>)
    requires y < x
    ensures y + [x[|y|]] <= x
  {
  }

  lemma GoesOn(path: Path, u: seq<byte>)
    requires path != [] && path[0] == u && Join(path) != u
    ensures u + [DOT] <= Join(path)
  {
    JoinIs(path);
  }

  /** The clash in the first part. */
  lemma ClashHere(t: Trie, sel: seq<Path>, i: nat, j: nat, u: seq<byte>, c: byte)
    requires Selects(sel) && Reflects(t, sel) && ClashAt(Joined(sel), i, j, u, c) && Dotless(u)
    ensures !Monotone(t)
  {
    NonEmpty(sel[i]);
    NonEmpty(sel[j]);
    var x, y := sel[i][0], sel[j][0];
    assert Part(x) && Part(y);
    JoinIs(sel[i]);
    JoinIs(sel[j]);
    InFirstPart(u + [c], x, Tail(sel[i]));
    FirstDot(u, y, Tail(sel[j]));
    PrefixIsLess(y, x);
    var q := First(sel, y);
    assert q <= j && First(sel, x) <= i;
    JoinIs(sel[q]);
    assert !EndsIn(Joined(sel)[q], u);
    GoesOn(sel[q], u);
    CharDecides(u, c, Join(sel[i]), DOT, Join(sel[q]));
    StringsInOrder(sel, i, q);
    ChildrenOfNames(t.children, sel, x, y);
  }

  /** The strings below a name clash where the strings with the name do. */
  lemma ClashBelow(sel: seq<Path>, n: seq<byte>, i: nat, j: nat, u: seq<byte>, c: byte) returns (i2: nat, j2: nat)
    requires Selects(sel) && Part(n) && ClashAt(Joined(sel), i, j, n + [DOT] + u, c)
    ensures var inside := Under(sel, n); [] !in inside && ClashAt(Joined(inside), i2, j2, u, c)
  {
    var inside, head := Under(sel, n), n + [DOT];
    GoesThrough(sel[i], n, u + [c]);
    GoesThrough(sel[j], n, u + [DOT]);
    assert head + u + [c] == head + (u + [c]) && head + u + [DOT] == head + (u + [DOT]);
    UnderHas(sel, i);
    UnderHas(sel, j);
    i2 :| 0 <= i2 < |inside| && inside[i2] == sel[i][1..];
    j2 :| 0 <= j2 < |inside| && inside[j2] == sel[j][1..];
    forall k | 0 <= k < |inside| ensures inside[k] != [] && !EndsIn(Join(inside[k]), u) {
      var m := UnderComesFrom(sel, n, k);
      assert !EndsIn(Joined(sel)[m], head + u);
      NameEnds(n, inside[k], u);
    }
  }

  /** A string that begins with a name and a dot is a path through that name. */
  lemma GoesThrough(path: Path, n: seq<byte>, u: seq<byte>)
    requires Parted(path) && Part(n) && n + [DOT] + u <= Join(path)
    ensures |path| > 1 && path[0] == n && u <= Join(path[1..])
  {
    NonEmpty(path);
    JoinIs(path);
    assert Part(path[0]);
    assert n + [DOT] <= n + [DOT] + u <= Join(path);
    FirstDot(n, path[0], Tail(path));
    AfterPrefix(n + [DOT], Join(path[1..]), u);
  }

  lemma {:induction false} ClashMisorders(t: Trie, sel: seq<Path>, i: nat, j: nat, u: seq<byte>, c: byte)
    requires Selects(sel) && Reflects(t, sel) && ClashAt(Joined(sel), i, j, u, c)
    ensures !Monotone(t)
    decreases |u|
  {
    var d := FindDot(u, 0);
    if d == |u| {
      ClashHere(t, sel, i, j, u, c);
    } else {
      var n, v := u[..d], u[d + 1..];
      assert u == n + [DOT] + v;
      NameBefore(sel[i], n, v, c);
      var i2, j2 := ClashBelow(sel, n, i, j, v, c);
      var b := FindChild(t.children, n);
      NameBefore(sel[i], n, v, c);
      assert sel[i][0] == n;
      InnerChild(t, sel, b);
      ClashMisorders(t.children[b], Under(sel, n), i2, j2, v, c);
    }
  }

  /** The dotless beginning of a path's string that a dot follows is its first part. */
  lemma NameBefore(path: Path, n: seq<byte>, v: seq<byte>, c: byte)
    requires Parted(path) && Dotless(n) && n + [DOT] + v + [c] <= Join(path)
    ensures path != [] && path[0] == n && Part(n)
  {
    NonEmpty(path);
    JoinIs(path);
    assert Part(path[0]);
    assert n + [DOT] <= n + [DOT] + v + [c];
    FirstDot(n, path[0], Tail(path));
  }

  // ----- children out of order come from a clash -----

  lemma {:induction false} OutOfOrder(x: seq<byte>, s: seq<byte>, y: seq<byte>, t: seq<byte>)
    requires Dotless(x) && Dotless(y) && TailLike(s) && TailLike(t) && Lex(x, y) > 0 && Lex(x + s, y + t) < 0
    ensures y < x && x[|y|] < DOT && t != []
    decreases |y|
  {
    if y == [] {
      assert y + t == t && (x + s)[0] == x[0];
    } else {
      assert (x + s)[0] == x[0] && (y + t)[0] == y[0];
      if x[0] == y[0] {
        assert (x + s)[1..] == x[1..] + s && (y + t)[1..] == y[1..] + t;
        OutOfOrder(x[1..], s, y[1..], t);
        assert x == [x[0]] + x[1..] && y == [y[0]] + y[1..];
      }
    }
  }

  lemma MisorderedHere(t: Trie, sel: seq<Path>, a: nat, b: nat) returns (i: nat, j: nat, u: seq<byte>, c: byte)
    requires Selects(sel) && Reflects(t, sel) && a < b < |t.children| &&
             Lex(t.children[a].name, t.children[b].name) >= 0
    ensures ClashAt(Joined(sel), i, j, u, c)
  {
    var x, y := t.children[a].name, t.children[b].name;
    InnerChild(t, sel, a);
    InnerChild(t, sel, b);
    UnderHasFirst(sel, x);
    UnderHasFirst(sel, y);
    i, j := First(sel, x), First(sel, y);
    assert i < j;
    LexZeroIsEqual(x, y);
    JoinIs(sel[i]);
    JoinIs(sel[j]);
    OutOfOrder(x, Tail(sel[i]), y, Tail(sel[j]));
    u, c := y, x[|y|];
    NextChar(y, x);
    assert x <= Join(sel[i]);
    assert u + [DOT] <= Join(sel[j]);
    forall k | 0 <= k < |sel| ensures !EndsIn(Join(sel[k]), u) {
      NoneEnds(sel, k, i, j, u, c);
    }
  }

  /** A path that is just the shorter name would come first and stand in the right place. */
  lemma NoneEnds(sel: seq<Path>, k: nat, i: nat, j: nat, y: seq<byte>, c: byte)
    requires Selects(sel) && k < |sel| && i < j < |sel| && Part(y) && j == First(sel, y)
    requires y + [c] <= Join(sel[i])
    ensures !EndsIn(Join(sel[k]), y)
  {
    var s := Join(sel[k]);
    JustName(sel[k], y);
    PrefixIsLess(y, Join(sel[i]));
    LexAntisymmetric(y, Join(sel[i]));
    assert s == y ==> k < i;
    NoDotIn(s, y);
  }

  /** A string that is one part is a path of that part. */
  lemma JustName(path: Path, y: seq<byte>)
    requires Parted(path) && Part(y)
    ensures Join(path) == y ==> path != [] && path[0] == y
  {
    if Join(path) == y {
      NonEmpty(path);
      JoinIs(path);
      assert Part(path[0]);
      InFirstPart(y, path[0], Tail(path));
    }
  }

  lemma NameBegins(n: seq<byte>, rest: Path, u: seq<byte>, c: byte)
    requires rest != [] && u + [c] <= Join(rest)
    ensures n + [DOT] + u + [c] <= Join([n] + rest)
  {
    var head := n + [DOT];
    JoinIs([n] + rest);
    assert ([n] + rest)[1..] == rest;
    AfterPrefix(head, Join(rest), u + [c]);
    assert head + u + [c] == head + (u + [c]);
  }

  /** A clash below a name is one with the name before it. */
  lemma ClashAbove(sel: seq<Path>, n: seq<byte>, i2: nat, j2: nat, u: seq<byte>, c: byte) returns (i: nat, j: nat)
    requires Selects(sel) && Part(n) && [] !in Under(sel, n) && ClashAt(Joined(Under(sel, n)), i2, j2, u, c)
    ensures ClashAt(Joined(sel), i, j, n + [DOT] + u, c)
  {
    var inside, head := Under(sel, n), n + [DOT];
    i := UnderComesFrom(sel, n, i2);
    j := UnderComesFrom(sel, n, j2);
    assert inside[i2] in inside && inside[j2] in inside;
    NameBegins(n, inside[i2], u, c);
    NameBegins(n, inside[j2], u, DOT);
    forall k | 0 <= k < |sel| ensures !EndsIn(Join(sel[k]), head + u) {
      EndsBelow(sel, n, k, u);
    }
  }

  /** What ends at the name or below it ends there among the paths under the name. */
  lemma EndsBelow(sel: seq<Path>, n: seq<byte>, k: nat, u: seq<byte>)
    requires Selects(sel) && Part(n) && k < |sel|
    ensures EndsIn(Join(sel[k]), n + [DOT] + u) ==> [] in Under(sel, n) || Ended(Joined(Under(sel, n)), u)
  {
    var path, inside := sel[k], Under(sel, n);
    if EndsIn(Join(path), n + [DOT] + u) {
      EndsAfter(path, n, u);
      UnderHas(sel, k);
      var m :| 0 <= m < |inside| && inside[m] == path[1..];
      assert |path| > 1 ==> EndsIn(Joined(inside)[m], u);
    }
  }

  lemma EndsAfter(path: Path, n: seq<byte>, u: seq<byte>)
    requires Parted(path) && Part(n) && EndsIn(Join(path), n + [DOT] + u)
    ensures path != [] && path[0] == n && (|path| > 1 ==> EndsIn(Join(path[1..]), u))
  {
    NonEmpty(path);
    assert (n + [DOT] + u)[0] == n[0];
    JoinIs(path);
    assert Part(path[0]);
    if |path| == 1 {
      OnePart(path[0], n, u);
    } else {
      SameHead(path[0], Join(path[1..]), n, u);
    }
  }

  lemma OnePart(x: seq<byte>, n: seq<byte>, u: seq<byte>)
    requires Part(x) && Part(n) && EndsIn(x, n + [DOT] + u)
    ensures x == n
  {
    assert n + [DOT] + u == n + ([DOT] + u);
    assert n + [DOT] <= n + [DOT] + u;
    NoDotIn(n, x);
    FirstDot(x, n, [DOT] + u);
  }

  lemma {:induction false} MisorderedClashes(t: Trie, sel: seq<Path>) returns (i: nat, j: nat, u: seq<byte>, c: byte)
    requires Selects(sel) && Reflects(t, sel) && !Monotone(t)
    ensures ClashAt(Joined(sel), i, j, u, c)
    decreases t
  {
    if a, b :| 0 <= a < b < |t.children| && Lex(t.children[a].name, t.children[b].name) >= 0 {
      i, j, u, c := MisorderedHere(t, sel, a, b);
    } else {
      assert SortedChildren(t.children);
      var b :| 0 <= b < |t.children| && !Monotone(t.children[b]);
      var n := t.children[b].name;
      InnerChild(t, sel, b);
      i, j, u, c := MisorderedClashes(t.children[b], Under(sel, n));
      i, j := ClashAbove(sel, n, i, j, u, c);
      u := n + [DOT] + u;
    }
  }

  /** Among strings in order and without empty parts names are misordered exactly if two strings clash. */
  lemma ClashIff(sel: seq<Path>)
    requires Selects(sel)
    ensures Misordered(sel) <==> Clash(Strings(sel))
  {
    var t := Init(Strings(sel));
    StringsAre(sel);
    PathsOfStrings(sel);
    SelectsAllLand(sel);
    BuildReflects(sel);
    InOrderIff(Strings(sel));
    assert Strings(sel) == Joined(sel);
    if Clash(Strings(sel)) {
      var i: nat, j: nat, u, c :| ClashAt(Strings(sel), i, j, u, c);
      ClashMisorders(t, sel, i, j, u, c);
    }
    if !Monotone(t) {
      var i, j, u, c := MisorderedClashes(t, sel);
    }
  }
}
