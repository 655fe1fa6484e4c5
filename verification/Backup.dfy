/** Paged backups: what a page dumps, the key it leaves for the next, and what all pages cover (MojDb::dump). */
module Backups {
  import opened ObjectBuilders

  /** A stored object as the backup sees it; `len` is the length of its line in the file. */
  datatype Record = Record(id: int, rev: int, deleted: bool, isKind: bool, sync: bool, len: nat)

  /** The revs of an incremental key; a missing one reads as -1. */
  datatype Key = Key(rev: Option<int>, delRev: Option<int>)

  const NO_KEY := Key(None, None)

  function Read(rev: Option<int>): int {
    if rev.Some? then rev.value else -1
  }

  /** `hasMore` and `incrementalKey` of a backup response. */
  datatype Response = Response(hasMore: bool, key: Key)

  /** The database between pages: revs are positive, and the query returns records in increasing rev. */
  predicate Stored(db: seq<Record>) {
    db == [] || (db[0].rev >= 1 && (|db| > 1 ==> db[0].rev < db[1].rev) && Stored(db[1..]))
  }

  lemma {:induction false} StoredMeans(db: seq<Record>)
    requires Stored(db)
    ensures forall i :: 0 <= i < |db| ==> db[i].rev >= 1
    ensures forall i, j :: 0 <= i < j < |db| ==> db[i].rev < db[j].rev
  {
    if db != [] {
      StoredMeans(db[1..]);
      forall i, j | 0 <= i < j < |db| ensures db[i].rev < db[j].rev {
        assert db[j] == db[1..][j - 1] && (i > 0 ==> db[i] == db[1..][i - 1]);
      }
    }
  }

  /** What a pass dumps of a record: the live pass no kinds. */
  predicate Wanted(r: Record, deleted: bool, after: int) {
    r.sync && r.deleted == deleted && r.rev > after && (deleted || !r.isKind)
  }

  /** The records of a pass that come after a rev. */
  function After(db: seq<Record>, deleted: bool, rev: int): seq<Record> {
    if db == [] then []
    else (if Wanted(db[0], deleted, rev) then [db[0]] else []) + After(db[1..], deleted, rev)
  }

  /** Whether a line still fits; no limit if max is 0. */
  predicate Fits(bytes: nat, len: nat, max: nat) {
    max == 0 || bytes + len <= max
  }

  /** How many of the records fit one after the other. */
  function Fitting(recs: seq<Record>, bytes: nat, max: nat): (n: nat)
    ensures n <= |recs|
  {
    if recs == [] || !Fits(bytes, recs[0].len, max) then 0
    else 1 + Fitting(recs[1..], bytes + recs[0].len, max)
  }

  function Length(recs: seq<Record>): nat {
    if recs == [] then 0 else recs[0].len + Length(recs[1..])
  }

  /** The kinds at the head of a page: those changed since the key's revs. */
  function HeadKinds(kinds: seq<Record>, rev: int, delRev: int): seq<Record> {
    if kinds == [] then []
    else
      var k := kinds[0];
      (if k.sync && (if k.deleted then k.rev > delRev else k.rev > rev) then [k] else []) +
      HeadKinds(kinds[1..], rev, delRev)
  }

  /** `insertIncrementalKey`: a rev below 1 is left out. */
  function Insert(key: Key, deleted: bool, rev: int): Key {
    if rev < 1 then key else if deleted then key.(delRev := Some(rev)) else key.(rev := Some(rev))
  }

  /** The rev of the last dumped record, or where the pass began. */
  function LastRev(dumped: seq<Record>, from: int): int {
    if dumped == [] then from else dumped[|dumped| - 1].rev
  }

  /** What a pass dumped, and the response afterwards. */
  datatype Passed = Passed(recs: seq<Record>, response: Response)

  /** One pass over the records after its rev, as far as they fit; `other` is the rev of the other pass. */
  function Pass(recs: seq<Record>, deleted: bool, from: int, other: int, bytes: nat, max: nat, r: Response): Passed {
    var dumped := recs[..Fitting(recs, bytes, max)];
    if |dumped| < |recs| then
      var key := Insert(r.key, deleted, LastRev(dumped, from));
      Passed(dumped, Response(true, if Own(key, !deleted).Some? then key else Insert(key, !deleted, other)))
    else Passed(dumped, if dumped == [] then r else r.(key := Insert(r.key, deleted, LastRev(dumped, from))))
  }

  function Own(key: Key, deleted: bool): Option<int> {
    if deleted then key.delRev else key.rev
  }

  datatype Page = Page(kinds: seq<Record>, live: seq<Record>, dels: seq<Record>, response: Response)

  /** One call of `dump` with a response: kinds, the live pass, and the deleted pass unless the page is full. */
  function Dump(db: seq<Record>, kinds: seq<Record>, max: nat, incDel: bool, key: Key): Page {
    var rev, delRev := Read(key.rev), Read(key.delRev);
    DumpOver(HeadKinds(kinds, rev, delRev), Live(db, key), Dels(db, key), rev, delRev, max, incDel)
  }

  function DumpOver(head: seq<Record>, live: seq<Record>, dels: seq<Record>, rev: int, delRev: int, max: nat,
                    incDel: bool): Page {
    var first := LivePass(head, live, rev, delRev, max);
    Joined(head, first, DelPass(head, first, dels, rev, delRev, max), incDel)
  }

  function LivePass(head: seq<Record>, live: seq<Record>, rev: int, delRev: int, max: nat): Passed {
    Pass(live, false, rev, delRev, Length(head), max, Response(false, NO_KEY))
  }

  function DelPass(head: seq<Record>, first: Passed, dels: seq<Record>, rev: int, delRev: int, max: nat): Passed {
    Pass(dels, true, delRev, rev, Length(head) + Length(first.recs), max, first.response)
  }

  /** The deleted pass counts only if it is asked for and the live pass came to its end. */
  function Joined(head: seq<Record>, first: Passed, second: Passed, incDel: bool): Page {
    if incDel && !first.response.hasMore then Page(head, first.recs, second.recs, second.response)
    else Page(head, first.recs, [], first.response)
  }

  /** What a key leaves of each pass. */
  function Live(db: seq<Record>, key: Key): seq<Record> {
    After(db, false, Read(key.rev))
  }

  function Dels(db: seq<Record>, key: Key): seq<Record> {
    After(db, true, Read(key.delRev))
  }

  /** Room on a page for the kinds and any one record. */
  predicate Room(db: seq<Record>, kinds: seq<Record>, max: nat) {
    db == [] || (Fits(Length(kinds), db[0].len, max) && Room(db[1..], kinds, max))
  }

  // ----- what is on a page -----

  /** The kinds at the head of a page are those that take part in backup and are newer than the key's revs. */
  lemma {:induction false} HeadKindsAre(kinds: seq<Record>, rev: int, delRev: int, r: Record)
    ensures r in HeadKinds(kinds, rev, delRev) <==>
            r in kinds && r.sync && (r.deleted ==> r.rev > delRev) && (!r.deleted ==> r.rev > rev)
  {
    if kinds != [] {
      HeadKindsAre(kinds[1..], rev, delRev, r);
      assert r in kinds <==> r == kinds[0] || r in kinds[1..];
    }
  }

  /** They come in the order in which they are given. */
  lemma {:induction false} HeadKindsConcat(a: seq<Record>, b: seq<Record>, rev: int, delRev: int)
    ensures HeadKinds(a + b, rev, delRev) == HeadKinds(a, rev, delRev) + HeadKinds(b, rev, delRev)
  {
    if a == [] {
      assert a + b == b;
    } else {
      assert (a + b)[1..] == a[1..] + b;
      HeadKindsConcat(a[1..], b, rev, delRev);
    }
  }

  lemma {:induction false} LengthTwo(a: seq<Record>, b: seq<Record>)
    ensures Length(a + b) == Length(a) + Length(b)
  {
    if a == [] {
      assert a + b == b;
    } else {
      assert (a + b)[1..] == a[1..] + b;
      LengthTwo(a[1..], b);
    }
  }

  /** What fits is no longer than the limit, and one more would be. */
  lemma {:induction false} FittingStops(recs: seq<Record>, bytes: nat, max: nat)
    requires max == 0 || bytes <= max
    ensures var n := Fitting(recs, bytes, max);
            && (max != 0 ==> bytes + Length(recs[..n]) <= max)
            && (n < |recs| ==> max != 0 && bytes + Length(recs[..n]) + recs[n].len > max)
  {
    if Fitting(recs, bytes, max) > 0 {
      FittingStops(recs[1..], bytes + recs[0].len, max);
      var n := Fitting(recs, bytes, max);
      assert recs[..n][1..] == recs[1..][..n - 1];
    } else {
      assert recs[..0] == [];
    }
  }

  /** All fit exactly if together they are no longer than the limit. */
  lemma {:induction false} AllFit(recs: seq<Record>, bytes: nat, max: nat)
    ensures Fitting(recs, bytes, max) == |recs| <==> max == 0 || recs == [] || bytes + Length(recs) <= max
  {
    if recs != [] {
      AllFit(recs[1..], bytes + recs[0].len, max);
    }
  }

  lemma PassStops(recs: seq<Record>, deleted: bool, from: int, other: int, bytes: nat, max: nat, r: Response)
    requires (max == 0 || bytes <= max) && !r.hasMore
    ensures var p := Pass(recs, deleted, from, other, bytes, max, r);
            && p.recs <= recs && (p.response.hasMore <==> p.recs < recs)
            && (max != 0 ==> bytes + Length(p.recs) <= max)
            && (p.recs < recs ==> max != 0 && bytes + Length(p.recs) + recs[|p.recs|].len > max)
  {
    FittingStops(recs, bytes, max);
  }

  /**
   * The lines of a page are together no longer than the limit. A page that announces more stopped at a record whose
   * line would have gone over; without a limit none does, and any other page has all that was asked for.
   */
  lemma PageWithinLimit(db: seq<Record>, kinds: seq<Record>, max: nat, incDel: bool, key: Key)
    requires max == 0 || Length(HeadKinds(kinds, Read(key.rev), Read(key.delRev))) <= max
    ensures var p := Dump(db, kinds, max, incDel, key);
            var total := Length(p.kinds + p.live + p.dels);
            var live, dels := Live(db, key), Dels(db, key);
            && (max != 0 ==> total <= max)
            && p.live <= live && p.dels <= dels && (!incDel ==> p.dels == [])
            && (p.response.hasMore <==> p.live < live || (incDel && p.dels < dels))
            && (p.live < live ==> p.dels == [] && max != 0 && total + live[|p.live|].len > max)
            && (p.response.hasMore && p.live == live ==> max != 0 && total + dels[|p.dels|].len > max)
  {
    hide Fitting, After, HeadKinds, Length, Pass;
    var rev, delRev := Read(key.rev), Read(key.delRev);
    var head, live, dels := HeadKinds(kinds, rev, delRev), Live(db, key), Dels(db, key);
    var first := LivePass(head, live, rev, delRev, max);
    PassStops(live, false, rev, delRev, Length(head), max, Response(false, NO_KEY));
    LengthTwo(head, first.recs);
    if incDel && !first.response.hasMore {
      PassStops(dels, true, delRev, rev, Length(head) + Length(first.recs), max, first.response);
      LengthTwo(head + first.recs, DelPass(head, first, dels, rev, delRev, max).recs);
    } else {
      assert head + first.recs + [] == head + first.recs;
    }
  }

  // ----- what is left after a page -----

  lemma {:induction false} AfterFrom(db: seq<Record>, deleted: bool, rev: int)
    ensures forall i :: 0 <= i < |After(db, deleted, rev)| ==>
              After(db, deleted, rev)[i] in db && Wanted(After(db, deleted, rev)[i], deleted, rev)
  {
    if db != [] {
      AfterFrom(db[1..], deleted, rev);
    }
  }

  lemma {:induction false} AfterSorted(db: seq<Record>, deleted: bool, rev: int)
    requires Stored(db)
    ensures forall i, j :: 0 <= i < j < |After(db, deleted, rev)| ==>
              After(db, deleted, rev)[i].rev < After(db, deleted, rev)[j].rev
  {
    if db != [] {
      AfterSorted(db[1..], deleted, rev);
      AfterFrom(db[1..], deleted, rev);
      StoredMeans(db);
      var rest := After(db[1..], deleted, rev);
      forall j | 0 <= j < |rest| ensures db[0].rev < rest[j].rev {
        var k :| 0 <= k < |db[1..]| && db[1..][k] == rest[j];
        assert db[k + 1] == rest[j];
      }
    }
  }

  /** A database whose records all come after a rev and are wanted is its own rest. */
  lemma {:induction false} AfterAll(db: seq<Record>, deleted: bool, rev: int)
    requires forall i :: 0 <= i < |db| ==> Wanted(db[i], deleted, rev)
    ensures After(db, deleted, rev) == db
  {
    if db != [] {
      AfterAll(db[1..], deleted, rev);
    }
  }

  lemma {:induction false} AfterNone(db: seq<Record>, deleted: bool, rev: int)
    requires forall i :: 0 <= i < |db| ==> !Wanted(db[i], deleted, rev)
    ensures After(db, deleted, rev) == []
  {
    if db != [] {
      AfterNone(db[1..], deleted, rev);
    }
  }

  /** Asking again from a later rev is asking it of what was left. */
  lemma {:induction false} AfterAfter(db: seq<Record>, deleted: bool, rev: int, later: int)
    requires rev <= later
    ensures After(db, deleted, later) == After(After(db, deleted, rev), deleted, later)
  {
    if db != [] {
      AfterAfter(db[1..], deleted, rev, later);
      var rest := After(db[1..], deleted, rev);
      if Wanted(db[0], deleted, rev) {
        assert ([db[0]] + rest)[1..] == rest;
      } else {
        assert [] + rest == rest;
      }
    }
  }

  lemma {:induction false} AfterConcat(a: seq<Record>, b: seq<Record>, deleted: bool, rev: int)
    ensures After(a + b, deleted, rev) == After(a, deleted, rev) + After(b, deleted, rev)
  {
    if a == [] {
      assert a + b == b;
    } else {
      assert (a + b)[1..] == a[1..] + b && (a + b)[0] == a[0];
      AfterConcat(a[1..], b, deleted, rev);
      var rest, more := After(a[1..], deleted, rev), After(b, deleted, rev);
      assert [a[0]] + rest + more == [a[0]] + (rest + more) && [] + rest + more == [] + (rest + more);
    }
  }

  /** Going on from the last dumped rev leaves exactly what was not dumped. */
  lemma ResumeAfter(db: seq<Record>, deleted: bool, rev: int, n: nat)
    requires Stored(db) && n <= |After(db, deleted, rev)|
    ensures var recs := After(db, deleted, rev);
            After(db, deleted, LastRev(recs[..n], rev)) == recs[n..]
  {
    var recs := After(db, deleted, rev);
    AfterFrom(db, deleted, rev);
    AfterSorted(db, deleted, rev);
    if n == 0 {
      assert recs[..0] == [] && recs[0..] == recs;
    } else {
      var later := recs[n - 1].rev;
      AfterAfter(db, deleted, rev, later);
      assert recs == recs[..n] + recs[n..];
      AfterConcat(recs[..n], recs[n..], deleted, later);
      forall i | 0 <= i < n ensures !Wanted(recs[..n][i], deleted, later) {
        assert recs[..n][i] == recs[i];
      }
      AfterNone(recs[..n], deleted, later);
      forall i | 0 <= i < |recs[n..]| ensures Wanted(recs[n..][i], deleted, later) {
        assert recs[n..][i] == recs[n + i];
      }
      AfterAll(recs[n..], deleted, later);
    }
  }

  /** A key a page can be resumed from: revs as insertIncrementalKey leaves them. */
  predicate Sane(key: Key) {
    (key.rev.Some? ==> key.rev.value >= 1) && (key.delRev.Some? ==> key.delRev.value >= 1)
  }

  lemma {:induction false} HeadShorter(kinds: seq<Record>, rev: int, delRev: int)
    ensures Length(HeadKinds(kinds, rev, delRev)) <= Length(kinds)
  {
    if kinds != [] {
      HeadShorter(kinds[1..], rev, delRev);
      var k, rest := kinds[0], HeadKinds(kinds[1..], rev, delRev);
      assert ([k] + rest)[1..] == rest && [] + rest == rest;
    }
  }

  /** The records of a pass: positive revs, and room for each after the kinds. */
  predicate Passable(recs: seq<Record>, head: nat, max: nat) {
    recs == [] || (recs[0].rev >= 1 && Fits(head, recs[0].len, max) && Passable(recs[1..], head, max))
  }

  lemma {:induction false} PassableAt(recs: seq<Record>, head: nat, max: nat, i: nat)
    requires Passable(recs, head, max) && i < |recs|
    ensures recs[i].rev >= 1 && Fits(head, recs[i].len, max)
  {
    if i > 0 {
      PassableAt(recs[1..], head, max, i - 1);
    }
  }

  predicate Start(from: int) {
    from == -1 || from >= 1
  }

  /** What a pass has dumped, and how it leaves the key. */
  predicate Leaves(recs: seq<Record>, deleted: bool, from: int, other: int, before: nat, r: Response, p: Passed) {
    var q, n := p.response, |p.recs|;
    && p.recs <= recs && Sane(q.key)
    && (q.hasMore && before == 0 ==> n > 0)
    && (q.hasMore ==> Read(Own(q.key, deleted)) == LastRev(p.recs, from))
    && (q.hasMore ==>
        Read(Own(q.key, !deleted)) == if Own(r.key, !deleted).Some? then Own(r.key, !deleted).value else other)
    && (!q.hasMore ==> p.recs == recs && Own(q.key, !deleted) == Own(r.key, !deleted))
    && (!q.hasMore ==> Own(q.key, deleted) == if n == 0 then None else Some(LastRev(recs, from)))
  }

  lemma PassLeaves(recs: seq<Record>, deleted: bool, from: int, other: int, head: nat, before: nat, max: nat,
                   r: Response)
    requires Passable(recs, head, max) && Start(from) && Start(other) && Sane(r.key) && !r.hasMore &&
             Own(r.key, deleted) == None
    ensures Leaves(recs, deleted, from, other, before, r, Pass(recs, deleted, from, other, head + before, max, r))
  {
    var n := Fitting(recs, head + before, max);
    if n > 0 {
      PassableAt(recs, head, max, n - 1);
    } else if recs != [] {
      PassableAt(recs, head, max, 0);
    }
  }

  /** What one page has dumped, what it leaves for the next, and that it gets on. */
  predicate Advances(live: seq<Record>, dels: seq<Record>, incDel: bool, rev: int, delRev: int, p: Page) {
    && p.live <= live && p.dels <= dels && (!incDel ==> p.dels == [])
    && if p.response.hasMore then
         && Sane(p.response.key) && |p.live| + |p.dels| > 0
         && Read(p.response.key.rev) == LastRev(p.live, rev)
         && Read(p.response.key.delRev) == LastRev(p.dels, delRev)
       else
         && p.live == live && p.response.key.rev == (if live == [] then None else Some(LastRev(live, rev)))
         && (incDel ==> p.dels == dels)
         && p.response.key.delRev == if p.dels == [] then None else Some(LastRev(p.dels, delRev))
  }

  lemma DumpAdvances(head: seq<Record>, live: seq<Record>, dels: seq<Record>, rev: int, delRev: int, max: nat,
                     incDel: bool)
    requires Passable(live, Length(head), max) && Passable(dels, Length(head), max) && Start(rev) && Start(delRev)
    ensures Advances(live, dels, incDel, rev, delRev, DumpOver(head, live, dels, rev, delRev, max, incDel))
  {
    var first := LivePass(head, live, rev, delRev, max);
    var second := DelPass(head, first, dels, rev, delRev, max);
    LiveLeaves(head, live, rev, delRev, max);
    if incDel && !first.response.hasMore {
      DelLeaves(head, first, dels, rev, delRev, max);
      TwoPasses(live, dels, rev, delRev, Length(first.recs), Joined(head, first, second, incDel), first, second);
    } else {
      OnePass(live, dels, incDel, rev, delRev, Joined(head, first, second, incDel), first);
    }
  }

  lemma LiveLeaves(head: seq<Record>, live: seq<Record>, rev: int, delRev: int, max: nat)
    requires Passable(live, Length(head), max) && Start(rev) && Start(delRev)
    ensures Leaves(live, false, rev, delRev, 0, Response(false, NO_KEY), LivePass(head, live, rev, delRev, max))
  {
    PassLeaves(live, false, rev, delRev, Length(head), 0, max, Response(false, NO_KEY));
  }

  lemma DelLeaves(head: seq<Record>, first: Passed, dels: seq<Record>, rev: int, delRev: int, max: nat)
    requires Passable(dels, Length(head), max) && Start(rev) && Start(delRev)
    requires Sane(first.response.key) && !first.response.hasMore && first.response.key.delRev == None
    ensures Leaves(dels, true, delRev, rev, Length(first.recs), first.response,
                   DelPass(head, first, dels, rev, delRev, max))
  {
    PassLeaves(dels, true, delRev, rev, Length(head), Length(first.recs), max, first.response);
  }

  lemma OnePass(live: seq<Record>, dels: seq<Record>, incDel: bool, rev: int, delRev: int, p: Page, first: Passed)
    requires Leaves(live, false, rev, delRev, 0, Response(false, NO_KEY), first) && (first.response.hasMore || !incDel)
    requires p == Page(p.kinds, first.recs, [], first.response)
    ensures Advances(live, dels, incDel, rev, delRev, p)
  {
  }

  lemma TwoPasses(live: seq<Record>, dels: seq<Record>, rev: int, delRev: int, before: nat, p: Page, first: Passed,
                  second: Passed)
    requires Leaves(live, false, rev, delRev, 0, Response(false, NO_KEY), first) && !first.response.hasMore
    requires before == Length(first.recs) && Leaves(dels, true, delRev, rev, before, first.response, second)
    requires p == Page(p.kinds, first.recs, second.recs, second.response)
    ensures Advances(live, dels, true, rev, delRev, p)
  {
  }

  lemma {:induction false} AfterPassable(db: seq<Record>, kinds: seq<Record>, max: nat, deleted: bool, from: int,
                                         head: nat)
    requires Stored(db) && Room(db, kinds, max) && head <= Length(kinds)
    ensures Passable(After(db, deleted, from), head, max)
  {
    if db != [] {
      AfterPassable(db[1..], kinds, max, deleted, from, head);
      var rest := After(db[1..], deleted, from);
      assert ([db[0]] + rest)[1..] == rest && [] + rest == rest;
    }
  }

  /** One page dumps the next stretch of each pass, and its key points at what is left of both. */
  lemma PageAdvances(db: seq<Record>, kinds: seq<Record>, max: nat, incDel: bool, key: Key)
    requires Stored(db) && Room(db, kinds, max) && Sane(key)
    ensures var p := Dump(db, kinds, max, incDel, key);
            Advances(Live(db, key), Dels(db, key), incDel, Read(key.rev), Read(key.delRev), p)
    ensures var p := Dump(db, kinds, max, incDel, key);
            p.response.hasMore ==>
                  Live(db, key) == p.live + Live(db, p.response.key) &&
                      Dels(db, key) == p.dels + Dels(db, p.response.key)
  {
    var rev, delRev := Read(key.rev), Read(key.delRev);
    var head := HeadKinds(kinds, rev, delRev);
    HeadShorter(kinds, rev, delRev);
    AfterPassable(db, kinds, max, false, rev, Length(head));
    AfterPassable(db, kinds, max, true, delRev, Length(head));
    var p := Dump(db, kinds, max, incDel, key);
    DumpAdvances(head, Live(db, key), Dels(db, key), rev, delRev, max, incDel);
    if p.response.hasMore {
      Resumed(db, false, rev, p.live, Read(p.response.key.rev));
      Resumed(db, true, delRev, p.dels, Read(p.response.key.delRev));
    }
  }

  lemma Resumed(db: seq<Record>, deleted: bool, rev: int, dumped: seq<Record>, next: int)
    requires Stored(db) && dumped <= After(db, deleted, rev) && next == LastRev(dumped, rev)
    ensures After(db, deleted, rev) == dumped + After(db, deleted, next)
  {
    ResumeAfter(db, deleted, rev, |dumped|);
    assert dumped == After(db, deleted, rev)[..|dumped|];
  }

  // ----- all pages -----

  function Left(db: seq<Record>, key: Key): nat {
    |Live(db, key)| + |Dels(db, key)|
  }

  /** Page after page, each resumed from the key of the one before, until none is promised. */
  function Pages(db: seq<Record>, kinds: seq<Record>, max: nat, incDel: bool, key: Key): seq<Page>
    requires Stored(db) && Room(db, kinds, max) && Sane(key)
    decreases Left(db, key)
  {
    PageAdvances(db, kinds, max, incDel, key);
    var p := Dump(db, kinds, max, incDel, key);
    [p] + if p.response.hasMore then Pages(db, kinds, max, incDel, p.response.key) else []
  }

  function AllLive(pages: seq<Page>): seq<Record> {
    if pages == [] then [] else pages[0].live + AllLive(pages[1..])
  }

  function AllDels(pages: seq<Page>): seq<Record> {
    if pages == [] then [] else pages[0].dels + AllDels(pages[1..])
  }

  /**
   * The backup ends, and its pages together dump every live record and every tombstone after the first key's revs
   * once, in increasing rev.
   */
  lemma {:induction false} PagesCoverOnce(db: seq<Record>, kinds: seq<Record>, max: nat, incDel: bool, key: Key)
    requires Stored(db) && Room(db, kinds, max) && Sane(key)
    ensures AllLive(Pages(db, kinds, max, incDel, key)) == Live(db, key)
    ensures AllDels(Pages(db, kinds, max, incDel, key)) == if incDel then Dels(db, key) else []
    decreases Left(db, key)
  {
    PageAdvances(db, kinds, max, incDel, key);
    var p := Dump(db, kinds, max, incDel, key);
    assert p.live + [] == p.live && p.dels + [] == p.dels;
    var pages := Pages(db, kinds, max, incDel, key);
    if p.response.hasMore {
      PagesCoverOnce(db, kinds, max, incDel, p.response.key);
      assert pages[1..] == Pages(db, kinds, max, incDel, p.response.key);
    } else {
      assert pages[1..] == [];
    }
  }

  lemma {:induction false} AfterHas(db: seq<Record>, deleted: bool, rev: int, r: Record)
    requires r in db && Wanted(r, deleted, rev)
    ensures r in After(db, deleted, rev)
  {
    if r != db[0] {
      AfterHas(db[1..], deleted, rev, r);
    }
  }

  /** A full backup has every live record but the kinds, and every tombstone, and the order shows none twice. */
  lemma FullBackup(db: seq<Record>, kinds: seq<Record>, max: nat)
    requires Stored(db) && Room(db, kinds, max)
    ensures var live := AllLive(Pages(db, kinds, max, true, NO_KEY));
            && (forall r :: r in live <==> r in db && r.sync && !r.deleted && !r.isKind)
            && (forall i, j :: 0 <= i < j < |live| ==> live[i].rev < live[j].rev)
    ensures var dels := AllDels(Pages(db, kinds, max, true, NO_KEY));
            && (forall r :: r in dels <==> r in db && r.sync && r.deleted)
            && (forall i, j :: 0 <= i < j < |dels| ==> dels[i].rev < dels[j].rev)
  {
    PagesCoverOnce(db, kinds, max, true, NO_KEY);
    FullPass(db, false);
    FullPass(db, true);
  }

  lemma FullPass(db: seq<Record>, deleted: bool)
    requires Stored(db)
    ensures var recs := After(db, deleted, -1);
            && (forall r :: r in recs <==> r in db && r.sync && r.deleted == deleted && (deleted || !r.isKind))
            && (forall i, j :: 0 <= i < j < |recs| ==> recs[i].rev < recs[j].rev)
  {
    StoredMeans(db);
    AfterFrom(db, deleted, -1);
    AfterSorted(db, deleted, -1);
    forall r | r in db && r.sync && r.deleted == deleted && (deleted || !r.isKind) ensures r in After(db, deleted, -1) {
      AfterHas(db, deleted, -1, r);
    }
  }

  lemma {:induction false} LastPage(db: seq<Record>, kinds: seq<Record>, max: nat, incDel: bool, key: Key)
    returns (last: Key)
    requires Stored(db) && Room(db, kinds, max) && Sane(key)
    ensures var pages := Pages(db, kinds, max, incDel, key);
            && pages != [] && Sane(last) && pages[|pages| - 1] == Dump(db, kinds, max, incDel, last)
            && !pages[|pages| - 1].response.hasMore
    decreases Left(db, key)
  {
    PageAdvances(db, kinds, max, incDel, key);
    var p := Dump(db, kinds, max, incDel, key);
    last := key;
    if p.response.hasMore {
      last := LastPage(db, kinds, max, incDel, p.response.key);
      assert Pages(db, kinds, max, incDel, key)[1..] == Pages(db, kinds, max, incDel, p.response.key);
    }
  }

  /**
   * The key of the last page is where the next incremental backup starts. It leaves out what this backup dumped
   * exactly if the last page itself dumped something of the pass: a pass that came to its end on an earlier page leaves
   * no rev in the last key, and the next incremental backup dumps all of it again.
   */
  lemma NextIncremental(db: seq<Record>, kinds: seq<Record>, max: nat, key: Key)
    requires Stored(db) && Room(db, kinds, max) && Sane(key)
    ensures var pages := Pages(db, kinds, max, true, key);
            pages != [] &&
            var last := pages[|pages| - 1];
            && Live(db, last.response.key) == (if last.live == [] then Live(db, NO_KEY) else [])
            && Dels(db, last.response.key) == (if last.dels == [] then Dels(db, NO_KEY) else [])
  {
    var from := LastPage(db, kinds, max, true, key);
    PageAdvances(db, kinds, max, true, from);
    var last := Dump(db, kinds, max, true, from);
    Resumed(db, false, Read(from.rev), last.live, LastRev(last.live, Read(from.rev)));
    Resumed(db, true, Read(from.delRev), last.dels, LastRev(last.dels, Read(from.delRev)));
  }

  lemma {:induction false} LastIsAmongAll(pages: seq<Page>)
    requires pages != []
    ensures AllLive(pages) == [] ==> pages[|pages| - 1].live == []
    ensures AllDels(pages) == [] ==> pages[|pages| - 1].dels == []
  {
    if |pages| > 1 {
      LastIsAmongAll(pages[1..]);
    }
  }

  /** An incremental backup that finds nothing new in a pass leaves a key from which that pass dumps all of it again. */
  lemma NothingNew(db: seq<Record>, kinds: seq<Record>, max: nat, key: Key)
    requires Stored(db) && Room(db, kinds, max) && Sane(key)
    ensures var pages := Pages(db, kinds, max, true, key);
            pages != [] &&
            var next := pages[|pages| - 1].response.key;
            && (Live(db, key) == [] ==> Live(db, next) == Live(db, NO_KEY))
            && (Dels(db, key) == [] ==> Dels(db, next) == Dels(db, NO_KEY))
  {
    NextIncremental(db, kinds, max, key);
    PagesCoverOnce(db, kinds, max, true, key);
    LastIsAmongAll(Pages(db, kinds, max, true, key));
  }

  /** A live record fills the first page and a tombstone the last: the next key has lost the rev of the first. */
  lemma KeyForgetsRev()
    ensures var live, tomb := Record(1, 1, false, false, true, 6), Record(2, 2, true, false, true, 6);
            var pages := Pages([live, tomb], [], 10, true, NO_KEY);
            |pages| == 2 && pages[0].live == [live] && pages[1].dels == [tomb] &&
                Live([live, tomb], pages[1].response.key) == [live]
  {
    var live, tomb := Record(1, 1, false, false, true, 6), Record(2, 2, true, false, true, 6);
    var db := [live, tomb];
    assert db[1..] == [tomb] && [tomb][1..] == [];
    var all := After(db, false, -1);
    assert After([tomb], false, -1) == [] && all == [live];
    assert After([tomb], true, -1) == [tomb] && After(db, true, -1) == [tomb];
    assert Fitting([live], 0, 10) == 1 by {
      assert [live][1..] == [];
    }
    assert Length([live]) == 6 by {
      assert [live][1..] == [];
    }
    assert Fitting([tomb], 6, 10) == 0;
    var p := Dump(db, [], 10, true, NO_KEY);
    assert p.live == [live] && p.dels == [] && p.response == Response(true, Key(Some(1), None));
    assert After([tomb], false, 1) == [];
    assert After(db, false, 1) == [] + After([tomb], false, 1);
    assert Fitting([tomb], 0, 10) == 1;
    var q := Dump(db, [], 10, true, p.response.key);
    assert q.live == [] && q.dels == [tomb] && q.response == Response(false, Key(None, Some(2)));
    assert Room(db, [], 10) && Stored(db);
    assert Sane(NO_KEY) && Sane(p.response.key);
    PageAdvances(db, [], 10, true, NO_KEY);
    assert Pages(db, [], 10, true, p.response.key) == [q] + [];
    assert Pages(db, [], 10, true, NO_KEY) == [p] + [q];
  }

  // ----- the loops that write a page -----

  /** The file a page is written to. */
  class BackupFile {
    var lines: seq<Record>
    var bytesWritten: nat

    constructor ()
      ensures lines == [] && bytesWritten == 0
    {
      lines, bytesWritten := [], 0;
    }

    /** `dumpObj`: refused if the line would go over the limit. */
    method DumpObj(r: Record, maxBytes: nat) returns (full: bool)
      modifies this
      ensures full <==> !Fits(old(bytesWritten), r.len, maxBytes)
      ensures full ==> lines == old(lines) && bytesWritten == old(bytesWritten)
      ensures !full ==> lines == old(lines) + [r] && bytesWritten == old(bytesWritten) + r.len
    {
      if maxBytes != 0 && bytesWritten + r.len > maxBytes {
        return true;
      }
      lines, bytesWritten, full := lines + [r], bytesWritten + r.len, false;
    }
  }

  /** The response object a page fills in. */
  class BackupResponse {
    var hasMore: bool
    var incremental: Key

    ghost function View(): Response
      reads this
    {
      Response(hasMore, incremental)
    }

    constructor ()
      ensures View() == Response(false, NO_KEY)
    {
      hasMore, incremental := false, NO_KEY;
    }

    method InsertIncrementalKey(deleted: bool, rev: int)
      modifies this`incremental
      ensures incremental == Insert(old(incremental), deleted, rev)
    {
      if rev < 1 {
        return;
      }
      if deleted {
        incremental := incremental.(delRev := Some(rev));
      } else {
        incremental := incremental.(rev := Some(rev));
      }
    }

    /** `handleBackupFull`: more to come, and the other pass's rev carried over unless it is there already. */
    method HandleBackupFull(deleted: bool, other: int)
      modifies this
      ensures hasMore
      ensures incremental == if Own(old(incremental), !deleted).Some? then old(incremental)
              else Insert(old(incremental), !deleted, other)
    {
      hasMore := true;
      var present := if deleted then incremental.rev.Some? else incremental.delRev.Some?;
      if !present {
        InsertIncrementalKey(!deleted, other);
      }
    }
  }

  /** The query of a pass: kinds are still in it. */
  function Query(db: seq<Record>, deleted: bool, rev: int): seq<Record> {
    if db == [] then []
    else
      (if db[0].sync && db[0].deleted == deleted && db[0].rev > rev then [db[0]] else []) +
      Query(db[1..], deleted, rev)
  }

  function SkipKinds(recs: seq<Record>, skip: bool): seq<Record> {
    if recs == [] then []
    else (if skip && recs[0].isKind then [] else [recs[0]]) + SkipKinds(recs[1..], skip)
  }

  lemma {:induction false} QueryThenSkip(db: seq<Record>, deleted: bool, rev: int)
    ensures SkipKinds(Query(db, deleted, rev), !deleted) == After(db, deleted, rev)
  {
    if db != [] {
      QueryThenSkip(db[1..], deleted, rev);
      var rest := Query(db[1..], deleted, rev);
      assert ([db[0]] + rest)[1..] == rest && [] + rest == rest;
      assert [] + SkipKinds(rest, !deleted) == SkipKinds(rest, !deleted);
    }
  }

  /** `dumpImpl` over the root kind; `found` is what the cursor gives. */
  method DumpPass(file: BackupFile, response: BackupResponse, db: seq<Record>, deleted: bool, from: int, other: int,
                  maxBytes: nat)
    returns (count: nat)
    modifies file, response
    ensures var pass := Pass(After(db, deleted, from), deleted, from, other, old(file.bytesWritten), maxBytes,
                             old(response.View()));
            && file.lines == old(file.lines) + pass.recs &&
               file.bytesWritten == old(file.bytesWritten) + Length(pass.recs)
            && response.View() == pass.response && count == |pass.recs|
  {
    QueryThenSkip(db, deleted, from);
    ghost var recs := After(db, deleted, from);
    var full, curRev;
    full, count, curRev := DumpFound(file, Query(db, deleted, from), deleted, maxBytes, recs);
    if full {
      response.InsertIncrementalKey(deleted, if curRev.Some? then curRev.value else from);
      response.HandleBackupFull(deleted, other);
    } else if curRev.Some? {
      response.InsertIncrementalKey(deleted, curRev.value);
    }
  }

  /** The cursor loop: dumps what fits, and stops at the first record that does not. */
  method DumpFound(file: BackupFile, found: seq<Record>, deleted: bool, maxBytes: nat, ghost recs: seq<Record>)
    returns (full: bool, count: nat, curRev: Option<int>)
    requires recs == SkipKinds(found, !deleted)
    modifies file
    ensures count == Fitting(recs, old(file.bytesWritten), maxBytes) && (full <==> count < |recs|)
    ensures file.lines == old(file.lines) + recs[..count]
    ensures file.bytesWritten == old(file.bytesWritten) + Length(recs[..count])
    ensures curRev == if count == 0 then None else Some(recs[count - 1].rev)
  {
    hide SkipKinds, Length, Fitting;
    ghost var before, bytes, n := file.lines, file.bytesWritten, Fitting(recs, file.bytesWritten, maxBytes);
    full, count, curRev := false, 0, None;
    Nothing(before, recs);
    var i := 0;
    while i < |found|
      invariant i <= |found| && count <= |recs| && recs[count..] == SkipKinds(found[i..], !deleted)
      invariant n == count + Fitting(recs[count..], file.bytesWritten, maxBytes) && !full
      invariant file.lines == before + recs[..count] && file.bytesWritten == bytes + Length(recs[..count])
      invariant curRev == if count == 0 then None else Some(recs[count - 1].rev)
    {
      var obj := found[i];
      NextFound(recs, count, found, i, !deleted);
      i := i + 1;
      if deleted || !obj.isKind {
        full := DumpNext(file, obj, maxBytes, recs, count, before, n);
        if full {
          return;
        }
        curRev := Some(obj.rev);
        count := count + 1;
      }
    }
    AllFound(recs, count, found, file.bytesWritten, maxBytes, !deleted);
  }

  /** One record of the pass, the first of what is left of it. */
  method DumpNext(file: BackupFile, obj: Record, maxBytes: nat, ghost recs: seq<Record>, ghost count: nat,
                  ghost before: seq<Record>,
                  ghost n: nat)
    returns (full: bool)
    requires count < |recs| && recs[count] == obj && n == count + Fitting(recs[count..], file.bytesWritten, maxBytes)
    requires file.lines == before + recs[..count]
    modifies file
    ensures full ==> n == count && file.lines == old(file.lines) && file.bytesWritten == old(file.bytesWritten)
    ensures !full ==> file.lines == before + recs[..count + 1] && file.bytesWritten == old(file.bytesWritten) + obj.len
    ensures !full ==> n == count + 1 + Fitting(recs[count + 1..], file.bytesWritten, maxBytes)
    ensures Length(recs[..count + 1]) == Length(recs[..count]) + obj.len
  {
    OneMore(recs, count);
    full := file.DumpObj(obj, maxBytes);
  }

  lemma Nothing(before: seq<Record>, recs: seq<Record>)
    ensures before + recs[..0] == before && recs[0..] == recs && Length(recs[..0]) == 0
  {
  }

  lemma AllFound(recs: seq<Record>, count: nat, found: seq<Record>, bytes: nat, max: nat, skip: bool)
    requires count <= |recs| && recs[count..] == SkipKinds(found[|found|..], skip)
    ensures count == |recs| && Fitting(recs[count..], bytes, max) == 0
  {
  }

  lemma NextFound(recs: seq<Record>, count: nat, found: seq<Record>, i: nat, skip: bool)
    requires i < |found| && count <= |recs| && recs[count..] == SkipKinds(found[i..], skip)
    ensures if skip && found[i].isKind then recs[count..] == SkipKinds(found[i + 1..], skip)
            else count < |recs| && recs[count] == found[i] && recs[count + 1..] == SkipKinds(found[i + 1..], skip)
  {
    var rest := SkipKinds(found[i + 1..], skip);
    assert found[i..][1..] == found[i + 1..] && [] + rest == rest;
    if !(skip && found[i].isKind) {
      assert recs[count..] == [found[i]] + rest;
      assert recs[count] == recs[count..][0] && recs[count + 1..] == recs[count..][1..];
    }
  }

  lemma OneMore(recs: seq<Record>, count: nat)
    requires count < |recs|
    ensures recs[count..][0] == recs[count] && recs[count..][1..] == recs[count + 1..]
    ensures recs[..count + 1] == recs[..count] + [recs[count]]
    ensures Length(recs[..count + 1]) == Length(recs[..count]) + recs[count].len
  {
    assert recs[..count + 1] == recs[..count] + [recs[count]];
    LengthAppend(recs[..count], recs[count]);
  }

  lemma {:induction false} LengthAppend(recs: seq<Record>, obj: Record)
    ensures Length(recs + [obj]) == Length(recs) + obj.len
  {
    if recs == [] {
      assert [obj][1..] == [] && [] + [obj] == [obj];
    } else {
      assert (recs + [obj])[1..] == recs[1..] + [obj];
      LengthAppend(recs[1..], obj);
    }
  }

  lemma NextKind(head: seq<Record>, count: nat, kinds: seq<Record>, i: nat, rev: int, delRev: int)
    requires i < |kinds| && count <= |head| && head[count..] == HeadKinds(kinds[i..], rev, delRev)
    ensures var k := kinds[i];
            if k.sync && (if k.deleted then k.rev > delRev else k.rev > rev)
            then count < |head| && head[count] == k && head[count + 1..] == HeadKinds(kinds[i + 1..], rev, delRev)
            else head[count..] == HeadKinds(kinds[i + 1..], rev, delRev)
  {
    var k, rest := kinds[i], HeadKinds(kinds[i + 1..], rev, delRev);
    assert kinds[i..][1..] == kinds[i + 1..] && [] + rest == rest;
    if k.sync && (if k.deleted then k.rev > delRev else k.rev > rev) {
      assert head[count..] == [k] + rest;
      assert head[count] == head[count..][0] && head[count + 1..] == head[count..][1..];
    }
  }

  /** The kinds at the head of a page; one that does not fit fails the backup. */
  method DumpKinds(file: BackupFile, kinds: seq<Record>, rev: int, delRev: int, maxBytes: nat)
    returns (ok: bool, count: nat)
    modifies file
    ensures ok <==>
            Fitting(HeadKinds(kinds, rev, delRev), old(file.bytesWritten), maxBytes) == |HeadKinds(kinds, rev, delRev)|
    ensures ok ==>
      var head := HeadKinds(kinds, rev, delRev);
      file.lines == old(file.lines) + head && file.bytesWritten == old(file.bytesWritten) + Length(head) &&
          count == |head|
  {
    ghost var head := HeadKinds(kinds, rev, delRev);
    ghost var before, bytes, n := file.lines, file.bytesWritten, Fitting(head, file.bytesWritten, maxBytes);
    ok, count := true, 0;
    Nothing(before, head);
    var i := 0;
    while i < |kinds|
      invariant i <= |kinds| && count <= |head| && head[count..] == HeadKinds(kinds[i..], rev, delRev)
      invariant n == count + Fitting(head[count..], file.bytesWritten, maxBytes)
      invariant file.lines == before + head[..count] && file.bytesWritten == bytes + Length(head[..count])
    {
      var k := kinds[i];
      NextKind(head, count, kinds, i, rev, delRev);
      i := i + 1;
      if k.sync {
        if (k.deleted && k.rev > delRev) || (!k.deleted && k.rev > rev) {
          var full := DumpNext(file, k, maxBytes, head, count, before, n);
          if full {
            return false, count;
          }
          count := count + 1;
        }
      }
    }
    assert head[..count] == head;
  }

  /** `dump` of one page of a backup. */
  method DumpPage(file: BackupFile, response: BackupResponse, db: seq<Record>, kinds: seq<Record>, maxBytes: nat,
                  incDel: bool, key: Key)
    returns (ok: bool, count: nat)
    requires file.lines == [] && file.bytesWritten == 0 && response.View() == Response(false, NO_KEY)
    modifies file, response
    ensures var page := Dump(db, kinds, maxBytes, incDel, key);
            ok ==>
              && file.lines == page.kinds + page.live + page.dels && response.View() == page.response
              && count == |file.lines|
    ensures ok <==> maxBytes == 0 || Length(HeadKinds(kinds, Read(key.rev), Read(key.delRev))) <= maxBytes
  {
    AllFit(HeadKinds(kinds, Read(key.rev), Read(key.delRev)), 0, maxBytes);
    var revParam := if key.rev.Some? then key.rev.value else -1;
    var delRevParam := if key.delRev.Some? then key.delRev.value else -1;
    ok, count := DumpKinds(file, kinds, revParam, delRevParam, maxBytes);
    if !ok {
      return;
    }
    ghost var head := HeadKinds(kinds, revParam, delRevParam);
    assert file.lines == head by {
      assert [] + head == head;
    }
    ghost var first := LivePass(head, Live(db, key), revParam, delRevParam, maxBytes);
    ghost var second := DelPass(head, first, Dels(db, key), revParam, delRevParam, maxBytes);
    var n := DumpPasses(file, response, db, revParam, delRevParam, maxBytes, incDel, first, second);
    count := count + n;
  }

  /** The live pass, and the deleted pass unless the page is full. */
  method DumpPasses(file: BackupFile, response: BackupResponse, db: seq<Record>, rev: int, delRev: int, maxBytes: nat,
                    incDel: bool,
                    ghost first: Passed, ghost second: Passed)
    returns (count: nat)
    requires file.bytesWritten == Length(file.lines) && response.View() == Response(false, NO_KEY)
    requires first == LivePass(file.lines, After(db, false, rev), rev, delRev, maxBytes)
    requires second == DelPass(file.lines, first, After(db, true, delRev), rev, delRev, maxBytes)
    modifies file, response
    ensures var page := Joined(old(file.lines), first, second, incDel);
            && file.lines == page.kinds + page.live + page.dels && response.View() == page.response
            && count == |page.live| + |page.dels|
  {
    count := DumpPass(file, response, db, false, rev, delRev, maxBytes);
    if incDel && !response.hasMore {
      var n := DumpPass(file, response, db, true, delRev, rev, maxBytes);
      count := count + n;
    }
  }
}
