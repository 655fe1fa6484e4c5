/** Select paths, the trie MojObjectFilter::init builds from them, and what they keep of a value. */
module FilterTries {
  import opened Bytes
  import opened Values
  import opened ObjectBuilders

  /** A property path such as a.b.c in its parts. */
  type Path = seq<seq<byte>>

  const DOT: byte := 46

  // ----- what a set of paths selects -----

  /** The rests of the paths that begin with this name. */
  function Under(sel: seq<Path>, name: seq<byte>): seq<Path> {
    if sel == [] then []
    else (if sel[0] != [] && sel[0][0] == name then [sel[0][1..]] else []) + Under(sel[1..], name)
  }

  /**
   * What the paths keep of a value: a property a path ends at is kept whole, one that paths lead through is kept if
   * something is kept inside it, elements are kept if something is kept inside them.
   */
  function Project(sel: seq<Path>, v: Value): Option<Value>
    decreases v, 1
  {
    match v
    case Object(props) =>
      var kept := ProjectProps(sel, props);
      if kept == [] then None else Some(Object(kept))
    case Array(elems) =>
      var kept := ProjectElems(sel, elems);
      if kept == [] then None else Some(Array(kept))
    case _ => None
  }

  function ProjectProps(sel: seq<Path>, props: seq<Prop>): seq<Prop>
    decreases props, 0
  {
    if props == [] then []
    else
      var name, inside := props[0].name, Under(sel, props[0].name);
      var first :=
        if inside == [] then []
        else if [] in inside then [props[0]]
        else match Project(inside, props[0].val)
          case Some(w) => [Prop(name, w)]
          case None => [];
      first + ProjectProps(sel, props[1..])
  }

  function ProjectElems(sel: seq<Path>, elems: seq<Value>): seq<Value>
    decreases elems, 0
  {
    if elems == [] then []
    else
      (match Project(sel, elems[0]) case Some(w) => [w] case None => []) + ProjectElems(sel, elems[1..])
  }

  // ----- the trie -----

  datatype Trie = Trie(name: seq<byte>, children: seq<Trie>)

  /** `Node::find`: the position of the child of that name, or the number of children. */
  function FindChild(children: seq<Trie>, name: seq<byte>): (i: nat)
    ensures i <= |children| && (i < |children| ==> children[i].name == name)
    ensures forall j :: 0 <= j < i ==> children[j].name != name
  {
    if children == [] then 0
    else if children[0].name == name then 0
    else 1 + FindChild(children[1..], name)
  }

  /** The nodes for the parts of a path, one below the other. */
  function Chain(path: Path): Trie
    requires path != []
  {
    Trie(path[0], if |path| == 1 then [] else [Chain(path[1..])])
  }

  /** One path added: it ends early at a childless node on its way. */
  function Insert(t: Trie, path: Path): Trie
    decreases |path|
  {
    if path == [] then t
    else
      var i := FindChild(t.children, path[0]);
      if i == |t.children| then t.(children := t.children + [Chain(path)])
      else if t.children[i].children == [] then t
      else t.(children := t.children[i := Insert(t.children[i], path[1..])])
  }

  /** `init`, one path after the other. */
  function Build(t: Trie, sel: seq<Path>): Trie {
    if sel == [] then t else Insert(Build(t, sel[..|sel| - 1]), sel[|sel| - 1])
  }

  // ----- what the filter's scan over a trie keeps -----

  /** From child k on, the first child whose name is not before the given one. */
  function Advance(children: seq<Trie>, k: nat, name: seq<byte>): (j: nat)
    ensures k <= j && (k <= |children| ==> j <= |children|)
    decreases |children| - k
  {
    if k < |children| && Lex(children[k].name, name) < 0 then Advance(children, k + 1, name) else k
  }

  function Scan(t: Trie, v: Value): Option<Value>
    decreases v, 1
  {
    match v
    case Object(props) =>
      var kept := ScanProps(t, 0, props);
      if kept == [] then None else Some(Object(kept))
    case Array(elems) =>
      var kept := ScanElems(t, elems);
      if kept == [] then None else Some(Array(kept))
    case _ => None
  }

  /** The child iterator only moves forward over the properties of one object. */
  function ScanProps(t: Trie, k: nat, props: seq<Prop>): seq<Prop>
    decreases props, 0
  {
    if props == [] then []
    else
      var j := Advance(t.children, k, props[0].name);
      ScanProp(t, j, props[0]) + ScanProps(t, j, props[1..])
  }

  function ScanProp(t: Trie, j: nat, p: Prop): seq<Prop>
    decreases p, 0
  {
    if j >= |t.children| || t.children[j].name != p.name then []
    else if t.children[j].children == [] then [p]
    else match Scan(t.children[j], p.val)
      case Some(w) => [Prop(p.name, w)]
      case None => []
  }

  function ScanElems(t: Trie, elems: seq<Value>): seq<Value>
    decreases elems, 0
  {
    if elems == [] then []
    else (match Scan(t, elems[0]) case Some(w) => [w] case None => []) + ScanElems(t, elems[1..])
  }

  // ----- the projection of a trie -----

  /** What the trie keeps of a value, each property looked up by its name. */
  function Keep(t: Trie, v: Value): Option<Value>
    decreases v, 1
  {
    match v
    case Object(props) =>
      var kept := KeepProps(t, props);
      if kept == [] then None else Some(Object(kept))
    case Array(elems) =>
      var kept := KeepElems(t, elems);
      if kept == [] then None else Some(Array(kept))
    case _ => None
  }

  function KeepProps(t: Trie, props: seq<Prop>): seq<Prop>
    decreases props, 0
  {
    if props == [] then []
    else
      var j := FindChild(t.children, props[0].name);
      var first :=
        if j == |t.children| then []
        else if t.children[j].children == [] then [props[0]]
        else match Keep(t.children[j], props[0].val)
          case Some(w) => [Prop(props[0].name, w)]
          case None => [];
      first + KeepProps(t, props[1..])
  }

  function KeepElems(t: Trie, elems: seq<Value>): seq<Value>
    decreases elems, 0
  {
    if elems == [] then []
    else (match Keep(t, elems[0]) case Some(w) => [w] case None => []) + KeepElems(t, elems[1..])
  }

  // ----- sorted tries -----

  predicate SortedChildren(children: seq<Trie>) {
    forall i, j :: 0 <= i < j < |children| ==> Lex(children[i].name, children[j].name) < 0
  }

  /** There is a child for every path. */
  predicate Covers(children: seq<Trie>, sel: seq<Path>) {
    forall i :: 0 <= i < |sel| && sel[i] != [] ==> FindChild(children, sel[i][0]) < |children|
  }

  /** The first path that begins with this name, or the number of paths. */
  function First(sel: seq<Path>, name: seq<byte>): (i: nat)
    ensures i <= |sel| && (i < |sel| ==> sel[i] != [] && sel[i][0] == name)
    ensures forall j :: 0 <= j < i ==> sel[j] == [] || sel[j][0] != name
  {
    if sel == [] then 0
    else if sel[0] != [] && sel[0][0] == name then 0
    else 1 + First(sel[1..], name)
  }

  /** Children stand in the order in which the paths first name them. */
  predicate Arranged(children: seq<Trie>, sel: seq<Path>) {
    forall i, j :: 0 <= i < j < |children| ==> First(sel, children[i].name) < First(sel, children[j].name)
  }

  /** The trie says exactly what the paths say. */
  predicate Reflects(t: Trie, sel: seq<Path>)
    decreases t, 0
  {
    && Arranged(t.children, sel) && Covers(t.children, sel)
    && forall j :: 0 <= j < |t.children| ==> Says(t.children[j], Under(sel, t.children[j].name))
  }

  /** A childless node ends a path; at any other node none ends and some go on. */
  predicate Says(c: Trie, inside: seq<Path>)
    decreases c, 1
  {
    inside != [] && if c.children == [] then [] in inside else [] !in inside && Reflects(c, inside)
  }

  /** Of the paths given before it that begin it or go on from it, the first one begins it. */
  predicate Lands(sel: seq<Path>, path: Path) {
    || path == [] || sel == []
    || (sel[0] != [] && sel[0] <= path)
    || (!(path < sel[0]) && Lands(sel[1..], path))
  }

  /** No path is given after one that goes on from it, unless some path before both begins it. */
  predicate AllLand(sel: seq<Path>) {
    sel == [] || (AllLand(sel[..|sel| - 1]) && Lands(sel[..|sel| - 1], sel[|sel| - 1]))
  }

  lemma {:induction false} FirstAppend(sel: seq<Path>, path: Path, name: seq<byte>)
    ensures First(sel + [path], name) ==
            if First(sel, name) < |sel| then First(sel, name)
            else if path != [] && path[0] == name then |sel| else |sel| + 1
  {
    if sel == [] {
      assert sel + [path] == [path] && [path][1..] == [];
    } else {
      assert (sel + [path])[1..] == sel[1..] + [path];
      FirstAppend(sel[1..], path, name);
    }
  }

  /** A name with paths under it has a first one. */
  lemma {:induction false} UnderHasFirst(sel: seq<Path>, name: seq<byte>)
    ensures Under(sel, name) != [] <==> First(sel, name) < |sel|
  {
    if sel != [] {
      UnderHasFirst(sel[1..], name);
    }
  }

  /** One path more does not move the children. */
  lemma StillArranged(children: seq<Trie>, sel: seq<Path>, path: Path)
    requires Arranged(children, sel) && forall j :: 0 <= j < |children| ==> Under(sel, children[j].name) != []
    ensures Arranged(children, sel + [path])
    ensures forall j :: 0 <= j < |children| ==> First(sel + [path], children[j].name) < |sel|
  {
    forall j | 0 <= j < |children|
      ensures First(sel + [path], children[j].name) == First(sel, children[j].name) < |sel|
    {
      UnderHasFirst(sel, children[j].name);
      FirstAppend(sel, path, children[j].name);
    }
  }

  lemma {:induction false} UnderAppend(sel: seq<Path>, path: Path, name: seq<byte>)
    ensures Under(sel + [path], name) == Under(sel, name) + if path != [] && path[0] == name then [path[1..]] else []
  {
    if sel == [] {
      assert [path][1..] == [] && sel + [path] == [path];
    } else {
      assert (sel + [path])[1..] == sel[1..] + [path];
      UnderAppend(sel[1..], path, name);
    }
  }

  lemma UnderOther(sel: seq<Path>, path: Path, name: seq<byte>)
    requires path == [] || path[0] != name
    ensures Under(sel + [path], name) == Under(sel, name)
  {
    UnderAppend(sel, path, name);
  }

  lemma {:induction false} UnderComesFrom(sel: seq<Path>, name: seq<byte>, i: nat) returns (j: nat)
    requires i < |Under(sel, name)|
    ensures j < |sel| && sel[j] == [name] + Under(sel, name)[i]
  {
    if sel[0] != [] && sel[0][0] == name {
      if i == 0 {
        j := 0;
      } else {
        j := UnderComesFrom(sel[1..], name, i - 1);
        j := j + 1;
      }
    } else {
      j := UnderComesFrom(sel[1..], name, i);
      j := j + 1;
    }
  }

  lemma {:induction false} UnderHas(sel: seq<Path>, i: nat)
    requires i < |sel| && sel[i] != []
    ensures sel[i][1..] in Under(sel, sel[i][0])
  {
    if i > 0 {
      UnderHas(sel[1..], i - 1);
    }
  }

  /** A chain says exactly what its one path says. */
  lemma {:induction false} ChainReflects(path: Path, name: seq<byte>)
    requires path != []
    ensures Reflects(Trie(name, [Chain(path)]), [path])
    decreases |path|
  {
    var c := Chain(path);
    assert [path][1..] == [];
    assert Under([path], c.name) == [path[1..]];
    if |path| > 1 {
      ChainReflects(path[1..], c.name);
    }
  }

  /** A path that lands, and goes through a name no path ends at, lands among those under the name. */
  lemma {:induction false} UnderLands(sel: seq<Path>, path: Path)
    requires path != [] && Lands(sel, path) && Under(sel, path[0]) != [] && [] !in Under(sel, path[0])
    ensures |path| > 1 && Lands(Under(sel, path[0]), path[1..])
  {
    var name, q := path[0], sel[0];
    if q != [] && q[0] == name {
      assert Under(sel, name) == [q[1..]] + Under(sel[1..], name);
      assert q[1..] in Under(sel, name);
      assert q == [name] + q[1..] && path == [name] + path[1..];
      if !(q <= path) && Under(sel[1..], name) != [] {
        UnderLands(sel[1..], path);
      }
    } else {
      UnderLands(sel[1..], path);
      assert Under(sel, name) == Under(sel[1..], name);
    }
  }

  /** A path that lands is added where it belongs. */
  lemma {:induction false} InsertReflects(t: Trie, sel: seq<Path>, path: Path)
    requires Reflects(t, sel) && Lands(sel, path)
    ensures Reflects(Insert(t, path), sel + [path])
    decreases |path|, 1
  {
    forall j | 0 <= j < |t.children| ensures Under(sel, t.children[j].name) != [] {
      assert Says(t.children[j], Under(sel, t.children[j].name));
    }
    StillArranged(t.children, sel, path);
    if path == [] {
      forall j | 0 <= j < |t.children| ensures Says(t.children[j], Under(sel + [path], t.children[j].name)) {
        UnderOther(sel, path, t.children[j].name);
        assert Says(t.children[j], Under(sel, t.children[j].name));
      }
    } else {
      var i := FindChild(t.children, path[0]);
      if i == |t.children| {
        NewChild(t, sel, path);
      } else {
        OldChild(t, sel, path, i);
      }
    }
  }

  lemma {:induction false} NoneUnder(children: seq<Trie>, sel: seq<Path>, name: seq<byte>)
    requires Covers(children, sel) && FindChild(children, name) == |children|
    ensures Under(sel, name) == []
  {
    if sel != [] {
      assert Covers(children, sel[1..]) by {
        forall i | 0 <= i < |sel[1..]| && sel[1..][i] != [] ensures FindChild(children, sel[1..][i][0]) < |children| {
          assert sel[1..][i] == sel[i + 1];
        }
      }
      NoneUnder(children, sel[1..], name);
    }
  }

  lemma {:induction false} FindAppended(children: seq<Trie>, c: Trie, name: seq<byte>)
    requires FindChild(children, name) < |children| || c.name == name
    ensures FindChild(children + [c], name) < |children| + 1
  {
    if children != [] && children[0].name != name {
      assert (children + [c])[1..] == children[1..] + [c];
      FindAppended(children[1..], c, name);
    }
  }

  lemma NewCovers(children: seq<Trie>, sel: seq<Path>, path: Path)
    requires path != [] && Covers(children, sel)
    ensures Covers(children + [Chain(path)], sel + [path])
  {
    forall i | 0 <= i < |sel + [path]| && (sel + [path])[i] != []
      ensures FindChild(children + [Chain(path)], (sel + [path])[i][0]) < |children| + 1
    {
      FindAppended(children, Chain(path), (sel + [path])[i][0]);
    }
  }

  lemma NewChild(t: Trie, sel: seq<Path>, path: Path)
    requires Reflects(t, sel) && path != [] && FindChild(t.children, path[0]) == |t.children|
    requires Arranged(t.children, sel + [path]) && forall j :: 0 <= j < |t.children| ==>
               First(sel + [path], t.children[j].name) < |sel|
    ensures Reflects(t.(children := t.children + [Chain(path)]), sel + [path])
  {
    NoneUnder(t.children, sel, path[0]);
    NewCovers(t.children, sel, path);
    NewSays(sel, path);
    OldSay(t, sel, path);
    UnderHasFirst(sel, path[0]);
    FirstAppend(sel, path, path[0]);
    Assembled(t.name, t.children, Chain(path), sel + [path]);
  }

  lemma Assembled(name: seq<byte>, children: seq<Trie>, c: Trie, sel: seq<Path>)
    requires Arranged(children, sel) && Covers(children + [c], sel) && Says(c, Under(sel, c.name))
    requires forall j :: 0 <= j < |children| ==>
               First(sel, children[j].name) < First(sel, c.name) && Says(children[j], Under(sel, children[j].name))
    ensures Reflects(Trie(name, children + [c]), sel)
  {
    var all := children + [c];
    forall j | 0 <= j < |all| ensures Says(all[j], Under(sel, all[j].name)) {
      if j < |children| {
        assert all[j] == children[j];
      }
    }
  }

  lemma OldSay(t: Trie, sel: seq<Path>, path: Path)
    requires Reflects(t, sel) && path != [] && FindChild(t.children, path[0]) == |t.children|
    ensures forall j :: 0 <= j < |t.children| ==> Says(t.children[j], Under(sel + [path], t.children[j].name))
  {
    forall j | 0 <= j < |t.children| ensures Says(t.children[j], Under(sel + [path], t.children[j].name)) {
      UnderOther(sel, path, t.children[j].name);
      assert Says(t.children[j], Under(sel, t.children[j].name));
    }
  }

  lemma NewSays(sel: seq<Path>, path: Path)
    requires path != [] && Under(sel, path[0]) == []
    ensures Says(Chain(path), Under(sel + [path], path[0]))
  {
    UnderAppend(sel, path, path[0]);
    ChainReflects(path, []);
    assert [Chain(path)][0] == Chain(path) && [path][1..] == [];
    assert Under([path], path[0]) == [path[1..]] == Under(sel + [path], path[0]);
  }

  lemma {:induction false} FindUpdated(children: seq<Trie>, i: nat, c: Trie, name: seq<byte>)
    requires i < |children| && c.name == children[i].name
    ensures FindChild(children[i := c], name) == FindChild(children, name)
  {
    if children[0].name != name {
      if i > 0 {
        assert children[i := c][1..] == children[1..][i - 1 := c];
        FindUpdated(children[1..], i - 1, c, name);
      } else {
        assert children[i := c][1..] == children[1..];
      }
    }
  }

  /** The child on the way says one path more. */
  lemma {:induction false} ChildSaysMore(c: Trie, sel: seq<Path>, path: Path) returns (d: Trie)
    requires path != [] && c.name == path[0] && Says(c, Under(sel, c.name)) && Lands(sel, path)
    ensures d == (if c.children == [] then c else Insert(c, path[1..]))
    ensures d.name == c.name && Says(d, Under(sel + [path], c.name))
    decreases |path|, -1
  {
    var inside := Under(sel, c.name);
    UnderAppend(sel, path, c.name);
    if c.children == [] {
      d := c;
    } else {
      d := Insert(c, path[1..]);
      UnderLands(sel, path);
      InsertReflects(c, inside, path[1..]);
    }
  }

  lemma {:induction false} OldChild(t: Trie, sel: seq<Path>, path: Path, i: nat)
    requires Reflects(t, sel) && path != [] && FindChild(t.children, path[0]) == i < |t.children|
    requires Lands(sel, path) && Arranged(t.children, sel + [path])
    ensures Reflects(Insert(t, path), sel + [path])
    decreases |path|, 0
  {
    var c := t.children[i];
    assert Says(c, Under(sel, c.name));
    var d := ChildSaysMore(c, sel, path);
    var children := t.children[i := d];
    assert Insert(t, path).children == children;
    forall a, b | 0 <= a < b < |children|
      ensures First(sel + [path], children[a].name) < First(sel + [path], children[b].name)
    {
      assert children[a].name == t.children[a].name && children[b].name == t.children[b].name;
    }
    assert Covers(children, sel + [path]) by {
      forall k | 0 <= k < |sel + [path]| && (sel + [path])[k] != []
        ensures FindChild(children, (sel + [path])[k][0]) < |children|
      {
        FindUpdated(t.children, i, d, (sel + [path])[k][0]);
      }
    }
    forall j | 0 <= j < |children| ensures Says(children[j], Under(sel + [path], children[j].name)) {
      if j != i {
        assert First(sel + [path], t.children[j].name) != First(sel + [path], t.children[i].name);
        UnderOther(sel, path, children[j].name);
        assert Says(t.children[j], Under(sel, t.children[j].name));
      }
    }
  }

  /** Paths that all land build a trie that says what they say. */
  lemma {:induction false} BuildReflects(sel: seq<Path>)
    requires AllLand(sel)
    ensures Reflects(Build(Trie([], []), sel), sel)
    decreases |sel|
  {
    if sel != [] {
      var init, last := sel[..|sel| - 1], sel[|sel| - 1];
      BuildReflects(init);
      InsertReflects(Build(Trie([], []), init), init, last);
      assert init + [last] == sel;
    }
  }

  // ----- paths as strings -----

  /** The string of a path. */
  function Join(path: Path): seq<byte> {
    if path == [] then [] else path[0] + if |path| == 1 then [] else [DOT] + Join(path[1..])
  }

  /** A part is not empty and has no dot and no NUL. */
  predicate Part(x: seq<byte>) {
    x != [] && forall k :: 0 <= k < |x| ==> x[k] != DOT && x[k] != 0
  }

  predicate Parted(path: Path) {
    forall i :: 0 <= i < |path| ==> Part(path[i])
  }

  predicate AllParted(sel: seq<Path>) {
    forall i :: 0 <= i < |sel| ==> Parted(sel[i])
  }

  /** Up to the first dot from i on. */
  function FindDot(s: seq<byte>, i: nat): (j: nat)
    requires i <= |s|
    ensures i <= j <= |s| && forall k :: i <= k < j ==> s[k] != DOT
    ensures j < |s| ==> s[j] == DOT
    decreases |s| - i
  {
    if i == |s| || s[i] == DOT then i else FindDot(s, i + 1)
  }

  /** `MojString::split` on dots: empty parts are left out. */
  function Split(s: seq<byte>): Path
    decreases |s|
  {
    var j := FindDot(s, 0);
    (if j > 0 then [s[..j]] else []) + if j + 1 < |s| then Split(s[j + 1..]) else []
  }

  /** What follows a part in a string: nothing, or a dot and more. */
  predicate TailLike(s: seq<byte>) {
    s == [] || s[0] == DOT
  }

  function Tail(path: Path): (s: seq<byte>)
    requires path != []
    ensures TailLike(s)
  {
    if |path| == 1 then [] else [DOT] + Join(path[1..])
  }

  lemma PartEndsAtDot(x: seq<byte>, t: seq<byte>)
    requires TailLike(t) && forall k :: 0 <= k < |x| ==> x[k] != DOT
    ensures FindDot(x + t, 0) == |x| && (x + t)[..|x|] == x
  {
    FindsDot(x, t, 0);
  }

  lemma {:induction false} FindsDot(x: seq<byte>, t: seq<byte>, i: nat)
    requires TailLike(t) && i <= |x| && forall k :: 0 <= k < |x| ==> x[k] != DOT
    ensures FindDot(x + t, i) == |x|
    decreases |x| - i
  {
    if i < |x| {
      assert (x + t)[i] == x[i];
      FindsDot(x, t, i + 1);
    } else if t != [] {
      assert (x + t)[i] == t[0];
    }
  }

  /** A part and what follows it are split apart. */
  lemma SplitsPart(x: seq<byte>, t: seq<byte>)
    requires Part(x) && TailLike(t)
    ensures Split(x + t) == [x] + if |t| > 1 then Split(t[1..]) else []
  {
    PartEndsAtDot(x, t);
    if |t| > 1 {
      assert (x + t)[|x| + 1..] == t[1..];
    }
  }

  lemma {:induction false} SplitJoin(path: Path)
    requires Parted(path)
    ensures Split(Join(path)) == path
    decreases |path|
  {
    if path != [] {
      var rest := path[1..];
      SplitsPart(path[0], Tail(path));
      SplitJoin(rest);
      assert [path[0]] + rest == path;
      if rest != [] {
        assert Part(rest[0]) && Join(rest) != [] && ([DOT] + Join(rest))[1..] == Join(rest);
      }
    }
  }

  /** The trie `init` builds from a set of strings, taken in their order. */
  function Init(strings: seq<seq<byte>>): Trie {
    Build(Trie([], []), Paths(strings))
  }

  function Paths(strings: seq<seq<byte>>): seq<Path> {
    if strings == [] then [] else Paths(strings[..|strings| - 1]) + [Split(strings[|strings| - 1])]
  }

  function Strings(sel: seq<Path>): seq<seq<byte>> {
    if sel == [] then [] else Strings(sel[..|sel| - 1]) + [Join(sel[|sel| - 1])]
  }

  lemma LastOff(s: seq<seq<byte>>, x: seq<byte>)
    ensures (s + [x])[..|s + [x]| - 1] == s && (s + [x])[|s + [x]| - 1] == x
  {
  }

  lemma {:induction false} StringsAre(sel: seq<Path>)
    ensures |Strings(sel)| == |sel| && forall i :: 0 <= i < |sel| ==> Strings(sel)[i] == Join(sel[i])
  {
    if sel != [] {
      StringsAre(sel[..|sel| - 1]);
    }
  }

  lemma {:induction false} PathsOfStrings(sel: seq<Path>)
    requires AllParted(sel)
    ensures Paths(Strings(sel)) == sel
  {
    if sel != [] {
      var init, last := sel[..|sel| - 1], sel[|sel| - 1];
      PathsOfStrings(init);
      SplitJoin(last);
      LastOff(Strings(init), Join(last));
      assert sel == init + [last];
    }
  }

  /** A select set as it is meant to be given: no string has an empty part, and the strings are in order. */
  predicate Selects(sel: seq<Path>) {
    AllParted(sel) && forall i, j :: 0 <= i < j < |sel| ==> Lex(Join(sel[i]), Join(sel[j])) < 0
  }

  /** A path comes before those it begins. */
  lemma {:induction false} PrefixFirst(a: Path, b: Path)
    requires Parted(b) && a < b
    ensures Lex(Join(a), Join(b)) < 0
    decreases |a|
  {
    assert b[0] != [];
    if a == [] {
      assert Join(b) != [];
    } else {
      assert Join(b) == b[0] + ([DOT] + Join(b[1..]));
      if |a| == 1 {
        assert Join(a) == a[0] + [];
        LexCommonPrefix(a[0], [], [DOT] + Join(b[1..]));
      } else {
        assert Join(a) == a[0] + ([DOT] + Join(a[1..]));
        LexCommonPrefix(a[0], [DOT] + Join(a[1..]), [DOT] + Join(b[1..]));
        LexCommonPrefix([DOT], Join(a[1..]), Join(b[1..]));
        assert a[1..] < b[1..];
        PrefixFirst(a[1..], b[1..]);
      }
    }
  }

  lemma {:induction false} NoneGoesOn(sel: seq<Path>, path: Path)
    requires forall i :: 0 <= i < |sel| ==> !(path < sel[i])
    ensures Lands(sel, path)
  {
    if sel != [] {
      NoneGoesOn(sel[1..], path);
    }
  }

  /** In a select set all paths land. */
  lemma {:induction false} SelectsAllLand(sel: seq<Path>)
    requires Selects(sel)
    ensures AllLand(sel)
    decreases |sel|
  {
    if sel != [] {
      var init, last := sel[..|sel| - 1], sel[|sel| - 1];
      SelectsAllLand(init);
      forall i | 0 <= i < |init| ensures !(last < init[i]) {
        if last < init[i] {
          PrefixFirst(last, init[i]);
          LexAntisymmetric(Join(init[i]), Join(last));
        }
      }
      NoneGoesOn(init, last);
    }
  }

  /** The parts of a NUL-free string. */
  lemma {:induction false} SplitParted(s: seq<byte>)
    requires NulFree(s)
    ensures Parted(Split(s))
    decreases |s|
  {
    var j := FindDot(s, 0);
    if j + 1 < |s| {
      SplitParted(s[j + 1..]);
    }
  }

  lemma {:induction false} DotAt(a: seq<byte>, b: seq<byte>, i: nat)
    requires i <= |a|
    ensures FindDot(a + [DOT] + b, i) == FindDot(a, i) && (a + [DOT] + b)[..FindDot(a, i)] == a[..FindDot(a, i)]
    decreases |a| - i
  {
    if i < |a| && a[i] != DOT {
      DotAt(a, b, i + 1);
    }
  }

  lemma SplitStep(s: seq<byte>)
    ensures Split([]) == []
    ensures var j := FindDot(s, 0);
            Split(s) == (if j > 0 then [s[..j]] else []) + Split(if j < |s| then s[j + 1..] else [])
  {
    var j := FindDot(s, 0);
    if j + 1 == |s| {
      assert s[j + 1..] == [];
    }
  }

  /** A dot parts what is before it from what is behind it. */
  lemma {:induction false} SplitAtDot(a: seq<byte>, b: seq<byte>)
    ensures Split(a + [DOT] + b) == Split(a) + Split(b)
    decreases |a|
  {
    var s, j := a + [DOT] + b, FindDot(a, 0);
    DotAt(a, b, 0);
    SplitStep(s);
    SplitStep(a);
    if j < |a| {
      assert s[j + 1..] == a[j + 1..] + [DOT] + b;
      SplitAtDot(a[j + 1..], b);
      Assoc(if j > 0 then [a[..j]] else [], Split(a[j + 1..]), Split(b));
    } else {
      assert s[j + 1..] == b;
      assert (if j > 0 then [a[..j]] else []) + Split([]) == if j > 0 then [a[..j]] else [];
    }
  }

  /** Dotless text is one part, or none if it is empty. */
  lemma DotlessIsPart(a: seq<byte>)
    requires forall k :: 0 <= k < |a| ==> a[k] != DOT
    ensures Split(a) == if a == [] then [] else [a]
  {
    SplitStep(a);
    assert FindDot(a, 0) == |a| && a[..|a|] == a;
  }

  /** The strings of a query are NUL-free. */
  predicate Strung(strings: seq<seq<byte>>) {
    forall i :: 0 <= i < |strings| ==> NulFree(strings[i])
  }

  lemma {:induction false} PathsAllParted(strings: seq<seq<byte>>)
    requires Strung(strings)
    ensures AllParted(Paths(strings))
  {
    if strings != [] {
      PathsAllParted(strings[..|strings| - 1]);
      SplitParted(strings[|strings| - 1]);
    }
  }

  // ----- the scan is the projection -----

  /** Property names are in order at every level. */
  predicate Ordered(v: Value)
    decreases v, 1
  {
    match v
    case Object(props) => OrderedProps(props)
    case Array(elems) => OrderedElems(elems)
    case _ => true
  }

  predicate OrderedProps(props: seq<Prop>)
    decreases props, 0
  {
    props == [] ||
    (Ordered(props[0].val) && OrderedProps(props[1..]) && (|props| > 1 ==> Lex(props[0].name, props[1].name) < 0))
  }

  predicate OrderedElems(elems: seq<Value>)
    decreases elems, 0
  {
    elems == [] || (Ordered(elems[0]) && OrderedElems(elems[1..]))
  }

  lemma {:induction false} ValidIsOrdered(v: Value)
    requires Valid(v)
    ensures Ordered(v)
    decreases v, 1
  {
    match v {
      case Object(props) => ValidPropsAreOrdered(props);
      case Array(elems) => ValidElemsAreOrdered(elems);
      case _ =>
    }
  }

  lemma {:induction false} ValidPropsAreOrdered(props: seq<Prop>)
    requires ValidProps(props)
    ensures OrderedProps(props)
    decreases props, 0
  {
    if props != [] {
      ValidIsOrdered(props[0].val);
      ValidPropsAreOrdered(props[1..]);
    }
  }

  lemma {:induction false} ValidElemsAreOrdered(elems: seq<Value>)
    requires ValidElems(elems)
    ensures OrderedElems(elems)
    decreases elems, 0
  {
    if elems != [] {
      ValidIsOrdered(elems[0]);
      ValidElemsAreOrdered(elems[1..]);
    }
  }

  lemma {:induction false} FindChildIs(children: seq<Trie>, i: nat)
    requires SortedChildren(children) && i < |children|
    ensures FindChild(children, children[i].name) == i
  {
    LexZeroIsEqual(children[0].name, children[0].name);
    if i > 0 {
      LexZeroIsEqual(children[0].name, children[i].name);
      assert children[1..][i - 1] == children[i];
      FindChildIs(children[1..], i - 1);
    }
  }

  predicate Passed(children: seq<Trie>, k: nat, name: seq<byte>)
    requires k <= |children|
  {
    forall i :: 0 <= i < k ==> Lex(children[i].name, name) < 0
  }

  lemma {:induction false} AdvanceFinds(children: seq<Trie>, k: nat, name: seq<byte>)
    requires k <= |children| && SortedChildren(children) && Passed(children, k, name)
    ensures var j := Advance(children, k, name);
            && Passed(children, j, name)
            && (j < |children| && children[j].name == name ==> FindChild(children, name) == j)
            && (j == |children| || children[j].name != name ==> FindChild(children, name) == |children|)
    decreases |children| - k
  {
    if k < |children| && Lex(children[k].name, name) < 0 {
      AdvanceFinds(children, k + 1, name);
    } else {
      LexZeroIsEqual(name, name);
      if k < |children| && children[k].name == name {
        FindChildIs(children, k);
      } else {
        if k < |children| {
          LexZeroIsEqual(children[k].name, name);
        }
        NotAmong(children, k, name);
      }
    }
  }

  /** Between neighbours in the order there is no child of the name. */
  lemma NotAmong(children: seq<Trie>, k: nat, name: seq<byte>)
    requires k <= |children| && SortedChildren(children) && Passed(children, k, name)
    requires k < |children| ==> Lex(children[k].name, name) > 0
    ensures FindChild(children, name) == |children|
  {
    LexZeroIsEqual(name, name);
    forall i | 0 <= i < |children| ensures children[i].name != name {
      if i > k {
        LexAntisymmetric(children[i].name, children[k].name);
        LexAntisymmetric(name, children[k].name);
        LexTransitive(name, children[k].name, children[i].name);
      }
    }
  }

  /** A name no child has is a name no path has. */
  lemma NoChildNoPath(t: Trie, sel: seq<Path>, name: seq<byte>)
    requires Reflects(t, sel) && FindChild(t.children, name) == |t.children|
    ensures Under(sel, name) == []
  {
    NoneUnder(t.children, sel, name);
  }

  /** At every node the children are in order. */
  predicate Monotone(t: Trie) {
    SortedChildren(t.children) && forall j :: 0 <= j < |t.children| ==> Monotone(t.children[j])
  }

  /** At every node the children have different names. */
  predicate Distinct(t: Trie) {
    && (forall i, j :: 0 <= i < j < |t.children| ==> t.children[i].name != t.children[j].name)
    && forall j :: 0 <= j < |t.children| ==> Distinct(t.children[j])
  }

  lemma {:induction false} ScanIsKeep(t: Trie, v: Value)
    requires Monotone(t) && Ordered(v)
    ensures Scan(t, v) == Keep(t, v)
    decreases v, 1
  {
    match v {
      case Object(props) => ScanPropsAreKept(t, 0, props);
      case Array(elems) => ScanElemsAreKept(t, elems);
      case _ =>
    }
  }

  lemma {:induction false} ScanPropsAreKept(t: Trie, k: nat, props: seq<Prop>)
    requires Monotone(t) && OrderedProps(props) && k <= |t.children|
    requires props != [] ==> Passed(t.children, k, props[0].name)
    ensures ScanProps(t, k, props) == KeepProps(t, props)
    decreases props, 0
  {
    if props != [] {
      var name := props[0].name;
      var j := Advance(t.children, k, name);
      AdvanceFinds(t.children, k, name);
      if |props| > 1 {
        forall i | 0 <= i < j ensures Lex(t.children[i].name, props[1].name) < 0 {
          LexTransitive(t.children[i].name, name, props[1].name);
        }
      }
      ScanPropsAreKept(t, j, props[1..]);
      if j < |t.children| && t.children[j].name == name && t.children[j].children != [] {
        ScanIsKeep(t.children[j], props[0].val);
      }
    }
  }

  lemma {:induction false} ScanElemsAreKept(t: Trie, elems: seq<Value>)
    requires Monotone(t) && OrderedElems(elems)
    ensures ScanElems(t, elems) == KeepElems(t, elems)
    decreases elems, 0
  {
    if elems != [] {
      ScanIsKeep(t, elems[0]);
      ScanElemsAreKept(t, elems[1..]);
    }
  }

  /** A value of one property at each level, leading to the first leaf. */
  function Spine(t: Trie): Value
    decreases t
  {
    if t.children == [] then Null else Object([Prop(t.children[0].name, Spine(t.children[0]))])
  }

  /** A value of at most one property at each level, each of the name of a child. */
  predicate Thread(t: Trie, v: Value)
    decreases t
  {
    v == Null ||
    (v.Object? && |v.props| == 1 &&
     exists j :: 0 <= j < |t.children| && v.props[0].name == t.children[j].name &&
         Thread(t.children[j], v.props[0].val))
  }

  lemma {:induction false} SpineIsThread(t: Trie)
    ensures Thread(t, Spine(t))
  {
    if t.children != [] {
      SpineIsThread(t.children[0]);
    }
  }

  lemma {:induction false} SpineKept(t: Trie)
    requires t.children != []
    ensures Keep(t, Spine(t)).Some? && Ordered(Spine(t))
  {
    var c := t.children[0];
    assert FindChild(t.children, c.name) == 0;
    if c.children != [] {
      SpineKept(c);
    }
  }

  lemma {:induction false} FindChildDistinct(children: seq<Trie>, j: nat)
    requires j < |children| && forall i :: 0 <= i < j ==> children[i].name != children[j].name
    ensures FindChild(children, children[j].name) == j
  {
    if j > 0 {
      FindChildDistinct(children[1..], j - 1);
    }
  }

  lemma {:induction false} AdvanceStops(children: seq<Trie>, k: nat, i: nat, name: seq<byte>)
    requires k <= i < |children| && Lex(children[i].name, name) >= 0
    ensures Advance(children, k, name) <= i
    decreases i - k
  {
    if Lex(children[k].name, name) < 0 {
      AdvanceStops(children, k + 1, i, name);
    }
  }

  /** Below a child that the scan misses, or inside which it finds nothing, the scan finds nothing. */
  lemma OneProp(t: Trie, j: nat, w: Value)
    requires j < |t.children| && FindChild(t.children, t.children[j].name) == j
    requires t.children[j].children == [] || (Keep(t.children[j], w).Some? && Ordered(w))
    requires t.children[j].children == [] ==> w == Null
    requires Advance(t.children, 0, t.children[j].name) < j ||
             (t.children[j].children != [] && Scan(t.children[j], w) == None)
    requires forall i :: 0 <= i < j ==> t.children[i].name != t.children[j].name
    ensures var v := Object([Prop(t.children[j].name, w)]); Ordered(v) && Keep(t, v).Some? && Scan(t, v) == None
  {
    var p := Prop(t.children[j].name, w);
    assert [p][1..] == [];
    var a := Advance(t.children, 0, p.name);
    AdvanceStops(t.children, 0, j, p.name) by {
      LexZeroIsEqual(p.name, p.name);
    }
    assert ScanProps(t, 0, [p]) == ScanProp(t, a, p) + ScanProps(t, a, [p][1..]);
    assert ScanProp(t, a, p) == [];
  }

  /** A trie with children out of order misses something its paths select. */
  lemma {:induction false} ScanMisses(t: Trie) returns (v: Value)
    requires Distinct(t) && !Monotone(t)
    ensures Ordered(v) && Thread(t, v) && Keep(t, v).Some? && Scan(t, v) == None
  {
    if i, j :| 0 <= i < j < |t.children| && Lex(t.children[i].name, t.children[j].name) >= 0 {
      var c := t.children[j];
      FindChildDistinct(t.children, j);
      AdvanceStops(t.children, 0, i, c.name);
      if c.children != [] {
        SpineKept(c);
      }
      SpineIsThread(c);
      v := Object([Prop(c.name, Spine(c))]);
      OneProp(t, j, Spine(c));
    } else {
      assert SortedChildren(t.children);
      var j :| 0 <= j < |t.children| && !Monotone(t.children[j]);
      FindChildDistinct(t.children, j);
      var w := ScanMisses(t.children[j]);
      v := Object([Prop(t.children[j].name, w)]);
      OneProp(t, j, w);
    }
  }

  /** The scan is the projection on every value exactly if the children are in order at every node. */
  lemma ScanIsKeepIff(t: Trie)
    requires Distinct(t)
    ensures (forall v :: Ordered(v) ==> Scan(t, v) == Keep(t, v)) <==> Monotone(t)
  {
    if Monotone(t) {
      forall v | Ordered(v) ensures Scan(t, v) == Keep(t, v) {
        ScanIsKeep(t, v);
      }
    } else {
      var v := ScanMisses(t);
    }
  }

  lemma {:induction false} ReflectsIsDistinct(t: Trie, sel: seq<Path>)
    requires Reflects(t, sel)
    ensures Distinct(t)
  {
    forall i, j | 0 <= i < j < |t.children| ensures t.children[i].name != t.children[j].name {
      assert First(sel, t.children[i].name) < First(sel, t.children[j].name);
    }
    forall j | 0 <= j < |t.children| ensures Distinct(t.children[j]) {
      assert Says(t.children[j], Under(sel, t.children[j].name));
      if t.children[j].children != [] {
        ReflectsIsDistinct(t.children[j], Under(sel, t.children[j].name));
      }
    }
  }

  lemma {:induction false} KeepIsProject(t: Trie, sel: seq<Path>, v: Value)
    requires Reflects(t, sel)
    ensures Keep(t, v) == Project(sel, v)
    decreases v, 1
  {
    match v {
      case Object(props) => KeepPropsAreProjected(t, sel, props);
      case Array(elems) => KeepElemsAreProjected(t, sel, elems);
      case _ =>
    }
  }

  lemma {:induction false} KeepPropsAreProjected(t: Trie, sel: seq<Path>, props: seq<Prop>)
    requires Reflects(t, sel)
    ensures KeepProps(t, props) == ProjectProps(sel, props)
    decreases props, 0
  {
    if props != [] {
      var name := props[0].name;
      var j := FindChild(t.children, name);
      KeepPropsAreProjected(t, sel, props[1..]);
      if j == |t.children| {
        NoChildNoPath(t, sel, name);
      } else {
        assert Says(t.children[j], Under(sel, name));
        if t.children[j].children != [] {
          KeepIsProject(t.children[j], Under(sel, name), props[0].val);
        }
      }
    }
  }

  lemma {:induction false} KeepElemsAreProjected(t: Trie, sel: seq<Path>, elems: seq<Value>)
    requires Reflects(t, sel)
    ensures KeepElems(t, elems) == ProjectElems(sel, elems)
    decreases elems, 0
  {
    if elems != [] {
      KeepIsProject(t, sel, elems[0]);
      KeepElemsAreProjected(t, sel, elems[1..]);
    }
  }
}
