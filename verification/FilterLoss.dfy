/** Which paths the building of the trie loses: those after a path that goes on from them (MojObjectFilter::init). */
module FilterLosses {
  import opened Bytes
  import opened Values
  import opened FilterTries

  /** No node on the way of the path is childless. */
  predicate NoLeafOn(t: Trie, path: Path)
    decreases |path|
  {
    path == [] ||
    var i := FindChild(t.children, path[0]);
    i < |t.children| ==> t.children[i].children != [] && NoLeafOn(t.children[i], path[1..])
  }

  /** All nodes of the path are there, and none is childless. */
  predicate Inner(t: Trie, path: Path)
    decreases |path|
  {
    path == [] ||
    var i := FindChild(t.children, path[0]);
    i < |t.children| && t.children[i].children != [] && Inner(t.children[i], path[1..])
  }

  /** A path that ends nowhere on the way of another leaves that way open, and makes it whole if it goes on from it. */
  predicate LeavesOpen(t: Trie, d: Trie, q: Path, path: Path) {
    && (NoLeafOn(t, path) && (q == [] || !(q <= path)) ==> NoLeafOn(d, path))
    && (NoLeafOn(t, path) && path < q ==> Inner(d, path))
    && (Inner(t, path) ==> Inner(d, path))
  }

  lemma {:induction false} FindOld(children: seq<Trie>, c: Trie, name: seq<byte>)
    ensures FindChild(children + [c], name) ==
            if FindChild(children, name) < |children| then FindChild(children, name)
            else if c.name == name then |children| else |children| + 1
  {
    if children == [] {
      assert [c][1..] == [];
    } else {
      assert (children + [c])[1..] == children[1..] + [c];
      FindOld(children[1..], c, name);
    }
  }

  lemma ChainIsInsert(q: Path)
    requires q != []
    ensures Chain(q) == Insert(Trie(q[0], []), q[1..])
  {
  }

  lemma RestBegins(q: Path, path: Path)
    requires q != [] && path != [] && q[0] == path[0]
    ensures q <= path <==> q[1..] <= path[1..]
    ensures path < q <==> path[1..] < q[1..]
  {
    assert q == [q[0]] + q[1..] && path == [path[0]] + path[1..];
  }

  lemma {:induction false} InsertLeavesOpen(t: Trie, q: Path, path: Path)
    ensures LeavesOpen(t, Insert(t, q), q, path)
    ensures t.children != [] || q != [] ==> Insert(t, q).children != []
    decreases |path|
  {
    if q != [] && path != [] {
      var i := FindChild(t.children, q[0]);
      var c := if i < |t.children| then t.children[i] else Trie(q[0], []);
      var d := Insert(c, q[1..]);
      if i == |t.children| {
        ChainIsInsert(q);
        FindOld(t.children, d, path[0]);
      } else if c.children != [] {
        FindUpdated(t.children, i, d, path[0]);
      }
      if q[0] == path[0] {
        InsertLeavesOpen(c, q[1..], path[1..]);
        RestBegins(q, path);
      }
    }
  }

  // ----- a path that does not land is inside the trie -----

  lemma {:induction false} BuildFirst(t: Trie, sel: seq<Path>)
    requires sel != []
    ensures Build(t, sel) == Build(Insert(t, sel[0]), sel[1..])
    decreases |sel|
  {
    var init, last := sel[..|sel| - 1], sel[|sel| - 1];
    if init != [] {
      BuildFirst(t, init);
      assert sel[1..][..|sel[1..]| - 1] == init[1..];
    }
  }

  lemma {:induction false} BuildStaysInner(t: Trie, sel: seq<Path>, path: Path)
    requires Inner(t, path)
    ensures Inner(Build(t, sel), path)
    decreases |sel|
  {
    if sel != [] {
      var init := sel[..|sel| - 1];
      BuildStaysInner(t, init, path);
      InsertLeavesOpen(Build(t, init), sel[|sel| - 1], path);
    }
  }

  lemma {:induction false} NotLandedIsInner(t: Trie, sel: seq<Path>, path: Path)
    requires NoLeafOn(t, path) && !Lands(sel, path)
    ensures Inner(Build(t, sel), path)
    decreases |sel|
  {
    BuildFirst(t, sel);
    InsertLeavesOpen(t, sel[0], path);
    if path < sel[0] {
      BuildStaysInner(Insert(t, sel[0]), sel[1..], path);
    } else {
      NotLandedIsInner(Insert(t, sel[0]), sel[1..], path);
    }
  }

  /** A path that does not land ends at a node that other paths lead through. */
  lemma {:induction false} SomePathInner(sel: seq<Path>) returns (path: Path)
    requires !AllLand(sel)
    ensures path in sel && path != [] && Inner(Build(Trie([], []), sel), path)
    decreases |sel|
  {
    var init, last := sel[..|sel| - 1], sel[|sel| - 1];
    if AllLand(init) {
      path := last;
      NotLandedIsInner(Trie([], []), init, path);
    } else {
      path := SomePathInner(init);
    }
    InsertLeavesOpen(Build(Trie([], []), init), last, path);
  }

  /** No path of the set ends inside a trie that says what its paths say. */
  lemma {:induction false} NoneInside(t: Trie, sel: seq<Path>, path: Path)
    requires Reflects(t, sel) && path in sel && path != []
    ensures !Inner(t, path)
    decreases |path|
  {
    var name := path[0];
    var i := FindChild(t.children, name);
    if i < |t.children| && t.children[i].children != [] {
      var k :| 0 <= k < |sel| && sel[k] == path;
      UnderHas(sel, k);
      assert Says(t.children[i], Under(sel, name));
      NoneInside(t.children[i], Under(sel, name), path[1..]);
    }
  }

  /** The trie of the strings says exactly what their paths say, exactly if all paths land. */
  lemma InitReflects(strings: seq<seq<byte>>)
    ensures Reflects(Init(strings), Paths(strings)) <==> AllLand(Paths(strings))
  {
    var sel := Paths(strings);
    if AllLand(sel) {
      BuildReflects(sel);
    } else {
      var path := SomePathInner(sel);
      if Reflects(Init(strings), sel) {
        NoneInside(Init(strings), sel, path);
      }
    }
  }

  // ----- what a path inside the trie loses -----

  /** Nothing but a property of that path. */
  function Nest(path: Path): Value
    decreases |path|
  {
    if path == [] then Null else Object([Prop(path[0], Nest(path[1..]))])
  }

  lemma {:induction false} NestIsValid(path: Path)
    requires Parted(path)
    ensures Valid(Nest(path))
    decreases |path|
  {
    if path != [] {
      NestIsValid(path[1..]);
      assert NulFree(path[0]) by {
        assert Part(path[0]);
      }
    }
  }

  /** The scan of the trie finds nothing of a path that ends inside it. */
  lemma {:induction false} InnerMisses(t: Trie, path: Path)
    requires Inner(t, path)
    ensures Scan(t, Nest(path)).None?
    decreases |path|
  {
    if path != [] {
      var p := Prop(path[0], Nest(path[1..]));
      var i, j := FindChild(t.children, p.name), Advance(t.children, 0, p.name);
      assert [p][1..] == [];
      InnerMisses(t.children[i], path[1..]);
      if j < |t.children| && t.children[j].name == p.name {
        AdvancePassed(t.children, 0, p.name);
        assert i == j;
      }
      assert ScanProp(t, j, p) == [];
      assert ScanProps(t, 0, [p]) == ScanProp(t, j, p) + ScanProps(t, j, [p][1..]);
    }
  }

  lemma {:induction false} AdvancePassed(children: seq<Trie>, k: nat, name: seq<byte>)
    requires k <= |children| && forall i :: 0 <= i < k ==> children[i].name != name
    ensures forall i :: 0 <= i < Advance(children, k, name) ==> children[i].name != name
    decreases |children| - k
  {
    if k < |children| && Lex(children[k].name, name) < 0 {
      LexZeroIsEqual(children[k].name, name);
      AdvancePassed(children, k + 1, name);
    }
  }

  /** The paths keep the property of each of them. */
  lemma {:induction false} ProjectHas(sel: seq<Path>, path: Path)
    requires path in sel && path != []
    ensures Project(sel, Nest(path)).Some?
    decreases |path|
  {
    var p := Prop(path[0], Nest(path[1..]));
    var k :| 0 <= k < |sel| && sel[k] == path;
    UnderHas(sel, k);
    if [] !in Under(sel, p.name) {
      ProjectHas(Under(sel, p.name), path[1..]);
    }
  }

  /** A path that does not land is selected, and nothing of it is found. */
  lemma LostPath(strings: seq<seq<byte>>) returns (path: Path)
    requires Strung(strings) && !AllLand(Paths(strings))
    ensures path in Paths(strings) && Parted(path) && path != [] && Valid(Nest(path))
    ensures Project(Paths(strings), Nest(path)).Some? && Scan(Init(strings), Nest(path)).None?
  {
    path := SomePathInner(Paths(strings));
    PathsAllParted(strings);
    NestIsValid(path);
    InnerMisses(Init(strings), path);
    ProjectHas(Paths(strings), path);
  }
}
