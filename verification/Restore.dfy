/** Putting objects into the store, and restoring a backup into it (MojDb::putImpl, MojDb::loadRestoreImpl). */
module Restores {
  import opened Bytes
  import opened Values
  import opened ObjectBuilders
  import opened ObjectStores

  datatype Kind = Kind(builtin: bool, backup: bool)

  /** Objects by id, the last revision given out, and the registered kinds. */
  datatype Db = Db(objs: map<Value, Props>, lastRev: int64, kinds: map<seq<byte>, Kind>)

  datatype Flags = Flags(merge: bool, force: bool, ignoreMissing: bool)

  datatype PutError = RevNotSpecified | RevisionMismatch | RevMissing | KindNotSpecified | KindNotRegistered | OutOfRevs

  datatype PutResult = PutOk(db: Db, obj: Props) | PutErr(error: PutError)

  const MAX_REV: int64 := 0x7FFF_FFFF_FFFF_FFFF

  /** The revision an object carries. */
  function RevOf(o: Props): Option<int64> {
    match Get(o, REV)
    case Some(v) => Some(IntOf(v))
    case None => None
  }

  function Previous(db: Db, obj: Props): Option<Props> {
    match Get(obj, ID)
    case Some(id) => if id in db.objs then Some(db.objs[id]) else None
    case None => None
  }

  function IdOf(obj: Props, newId: Value): Value {
    if Get(obj, ID).Some? then Get(obj, ID).value else newId
  }

  /** An object as it is stored: with the next revision, and an id. */
  function Stamped(db: Db, obj: Props, newId: Value): Props
    requires db.lastRev != MAX_REV
  {
    PutProp(PutProp(obj, REV, Int(db.lastRev + 1)), ID, IdOf(obj, newId))
  }

  lemma StampedGets(db: Db, obj: Props, newId: Value, name: seq<byte>)
    requires Ascending(obj) && db.lastRev != MAX_REV
    ensures Ascending(Stamped(db, obj, newId))
    ensures Get(Stamped(db, obj, newId), name) ==
            if name == ID then Some(IdOf(obj, newId)) else if name == REV then Some(Int(db.lastRev + 1))
                else Get(obj, name)
  {
    PutTwice(obj, REV, Int(db.lastRev + 1), ID, IdOf(obj, newId), name);
  }

  /** `putObj`: a changed object gets the next revision, an id if it has none, and is stored under its id. */
  function PutObj(db: Db, obj: Props, prev: Option<Props>, newId: Value): PutResult {
    if prev == Some(obj) then PutOk(db, obj)
    else if db.lastRev == MAX_REV then PutErr(OutOfRevs)
    else
      var o := Stamped(db, obj, newId);
      match Get(o, KIND)
      case Some(Str(kind)) =>
        if kind in db.kinds then PutOk(db.(objs := db.objs[IdOf(obj, newId) := o], lastRev := db.lastRev + 1), o)
        else PutErr(KindNotRegistered)
      case Some(_) => PutErr(KindNotRegistered)
      case None => PutErr(KindNotSpecified)
  }

  /** What is handed to putObj. */
  function Candidate(db: Db, obj: Props, flags: Flags): Props {
    if Previous(db, obj).Some? && flags.merge then Merged(obj, Previous(db, obj).value) else obj
  }

  /** `putImpl`: merging, and the revision an update has to name. */
  function PutImpl(db: Db, obj: Props, flags: Flags, newId: Value): PutResult {
    var prev := Previous(db, obj);
    if flags.ignoreMissing && flags.merge && prev == None then PutOk(db, obj)
    else if prev == None then PutObj(db, obj, prev, newId)
    else
      var o := Candidate(db, obj, flags);
      if !flags.merge && !flags.force && RevOf(o) == None && !Deleted(prev.value) then PutErr(RevNotSpecified)
      else if RevOf(o).Some? && RevOf(prev.value) == None then PutErr(RevMissing)
      else if RevOf(o).Some? && !flags.force && RevOf(o) != RevOf(prev.value) then PutErr(RevisionMismatch)
      else PutObj(db, o, prev, newId)
  }

  /** What every put keeps: objects are stored under their ids, with revisions given out before, names in order. */
  predicate Sound(db: Db) {
    forall id :: id in db.objs ==>
      var o := db.objs[id];
      Ascending(o) && Get(o, ID) == Some(id) && RevOf(o).Some? && RevOf(o).value <= db.lastRev
  }

  lemma PutObjStores(db: Db, obj: Props, prev: Option<Props>, newId: Value)
    requires Ascending(obj) && prev != Some(obj) && PutObj(db, obj, prev, newId).PutOk?
    ensures db.lastRev != MAX_REV
    ensures var o := Stamped(db, obj, newId);
            && PutObj(db, obj, prev,
                      newId) == PutOk(db.(objs := db.objs[IdOf(obj, newId) := o], lastRev := db.lastRev + 1), o)
            && Ascending(o) && RevOf(o) == Some(db.lastRev + 1) && Get(o, ID) == Some(IdOf(obj, newId))
  {
    Names();
    StampedGets(db, obj, newId, ID);
    StampedGets(db, obj, newId, REV);
  }

  /** Nothing is gone, and what changed has a revision above all given out before. */
  predicate OnlyNewer(db: Db, t: Db) {
    && t.kinds == db.kinds && db.lastRev <= t.lastRev <= db.lastRev + 1
    && (forall id :: id in db.objs ==> id in t.objs)
    && (forall id :: id in t.objs && (id !in db.objs || t.objs[id] != db.objs[id]) ==>
        RevOf(t.objs[id]) == Some(t.lastRev) && t.lastRev > db.lastRev)
  }

  lemma PutObjKeeps(db: Db, obj: Props, prev: Option<Props>, newId: Value)
    requires Sound(db) && Ascending(obj) && PutObj(db, obj, prev, newId).PutOk?
    ensures var t := PutObj(db, obj, prev, newId).db; Sound(t) && OnlyNewer(db, t)
  {
    if prev != Some(obj) {
      PutObjStores(db, obj, prev, newId);
    }
  }

  /** Every put keeps the database sound and only adds newer revisions. */
  lemma PutKeeps(db: Db, obj: Props, flags: Flags, newId: Value)
    requires Sound(db) && Ascending(obj) && PutImpl(db, obj, flags, newId).PutOk?
    ensures var t := PutImpl(db, obj, flags, newId).db; Sound(t) && OnlyNewer(db, t)
  {
    var prev := Previous(db, obj);
    if prev.Some? && flags.merge {
      MergeLooksUp(obj, prev.value, ID);
    }
    var o := if prev.Some? && flags.merge then Merged(obj, prev.value) else obj;
    if !(flags.ignoreMissing && flags.merge && prev == None) {
      PutObjKeeps(db, o, prev, newId);
    }
  }

  /** What a put stores under a name: all of the given object without a merge, with one the update over the old. */
  ghost predicate StoredUnder(o: Props, obj: Props, prev: Option<Props>, merge: bool, name: seq<byte>) {
    var given, now := Get(obj, name), Get(o, name);
    if !merge || prev == None then now == given
    else
      var was := Get(prev.value, name);
      if given == None then now == was
      else if given.value.Object? && was.Some? && was.value.Object? then
        now.Some? && now.value.Object? && Fused(now.value.props, given.value.props, was.value.props)
      else now == given
  }

  predicate AllDeep(db: Db) {
    forall id :: id in db.objs ==> Deep(db.objs[id])
  }

  /** The merge of a missing object that is to be ignored. */
  predicate Ignored(db: Db, obj: Props, flags: Flags) {
    flags.ignoreMissing && flags.merge && Previous(db, obj) == None
  }

  lemma CandidateKeeps(db: Db, obj: Props, flags: Flags, name: seq<byte>)
    requires AllDeep(db) && Deep(obj)
    ensures Ascending(Candidate(db, obj, flags))
    ensures StoredUnder(Candidate(db, obj, flags), obj, Previous(db, obj), flags.merge, name)
  {
    var prev := Previous(db, obj);
    if prev.Some? && flags.merge {
      MergeLooksUp(obj, prev.value, name);
      if Get(obj, name).Some? && Get(obj, name).value.Object? && Get(prev.value, name).Some? &&
         Get(prev.value, name).value.Object? {
        GetDeep(obj, name);
        GetDeep(prev.value, name);
        MergeFuses(Get(obj, name).value.props, Get(prev.value, name).value.props);
      }
    }
  }

  lemma CandidateId(db: Db, obj: Props, flags: Flags, newId: Value)
    requires Sound(db) && Ascending(obj)
    ensures IdOf(Candidate(db, obj, flags), newId) == IdOf(obj, newId)
  {
    var prev := Previous(db, obj);
    if prev.Some? && flags.merge {
      MergeLooksUp(obj, prev.value, ID);
      if Get(obj, ID).value.Object? {
        MergeSelf(Get(obj, ID).value.props);
      }
    }
  }

  /** What a put leaves: one object stored, under its id, with the contents it should have; all others as they were. */
  lemma PutStores(db: Db, obj: Props, flags: Flags, newId: Value, name: seq<byte>)
    requires Sound(db) && AllDeep(db) && Deep(obj) && PutImpl(db, obj, flags, newId).PutOk?
    ensures Ignored(db, obj, flags) ==> PutImpl(db, obj, flags, newId) == PutOk(db, obj)
    ensures !Ignored(db, obj, flags) ==>
              var r, id := PutImpl(db, obj, flags, newId), IdOf(obj, newId);
              && r.db.objs == db.objs[id := r.obj] && r.db.kinds == db.kinds && Get(r.obj, ID) == Some(id)
              && (r.db == db <==> Previous(db, obj) == Some(Candidate(db, obj, flags)))
              && (r.db != db ==> r.db.lastRev == db.lastRev + 1 && Get(r.obj, REV) == Some(Int(r.db.lastRev)))
              && (name != ID && name != REV ==> StoredUnder(r.obj, obj, Previous(db, obj), flags.merge, name))
  {
    Names();
    var prev, o := Previous(db, obj), Candidate(db, obj, flags);
    CandidateKeeps(db, obj, flags, name);
    CandidateId(db, obj, flags, newId);
    if !Ignored(db, obj, flags) && prev != Some(o) {
      assert PutImpl(db, obj, flags, newId) == PutObj(db, o, prev, newId);
      PutObjStores(db, o, prev, newId);
      StampedGets(db, o, newId, name);
      StampedGets(db, o, newId, REV);
    }
  }

  // ----- which puts are refused -----

  /** The update of a live object that names no revision. */
  predicate Unnamed(db: Db, obj: Props, flags: Flags) {
    var prev := Previous(db, obj);
    prev.Some? && !flags.merge && !flags.force && Get(obj, REV) == None && !Deleted(prev.value)
  }

  /** The update that names a revision the object does not have. */
  predicate Stale(db: Db, obj: Props, flags: Flags)
    requires Sound(db)
  {
    var prev := Previous(db, obj);
    && prev.Some? && !flags.force && Get(obj, REV).Some?
    && IntOf(Get(obj, REV).value) != IntOf(Get(prev.value, REV).value)
  }

  /** The put that is let through and changes something. */
  predicate Changes(db: Db, obj: Props, flags: Flags)
    requires Sound(db)
  {
    && !Ignored(db, obj, flags) && !Unnamed(db, obj, flags) && !Stale(db, obj, flags)
    && Previous(db, obj) != Some(Candidate(db, obj, flags))
  }

  predicate Registered(db: Db, kind: Option<Value>) {
    kind.Some? && kind.value.Str? && kind.value.s in db.kinds
  }

  lemma MergedRev(obj: Props, prev: Props)
    requires Ascending(obj) && Ascending(prev) && RevOf(prev).Some?
    ensures RevOf(Merged(obj, prev)).Some?
    ensures RevOf(Merged(obj, prev)) == if RevOf(obj).Some? then RevOf(obj) else RevOf(prev)
  {
    MergeLooksUp(obj, prev, REV);
  }

  /** The rules on revisions, in terms of the update and the stored object. */
  lemma PutRules(db: Db, obj: Props, flags: Flags, newId: Value)
    requires Sound(db) && Ascending(obj)
    ensures PutImpl(db, obj, flags, newId) ==
            if Ignored(db, obj, flags) then PutOk(db, obj)
            else if Unnamed(db, obj, flags) then PutErr(RevNotSpecified)
            else if Stale(db, obj, flags) then PutErr(RevisionMismatch)
            else PutObj(db, Candidate(db, obj, flags), Previous(db, obj), newId)
  {
    var prev := Previous(db, obj);
    if prev.Some? && flags.merge {
      MergedRev(obj, prev.value);
    }
  }

  lemma PutObjFails(db: Db, o: Props, prev: Option<Props>, newId: Value)
    requires Ascending(o)
    ensures var r, kind := PutObj(db, o, prev, newId), Get(o, KIND);
            r.PutErr? ==> prev != Some(o) && r.error == if db.lastRev == MAX_REV then OutOfRevs
                else if kind == None then KindNotSpecified else KindNotRegistered
    ensures PutObj(db, o, prev, newId).PutErr? <==>
            prev != Some(o) && (db.lastRev == MAX_REV || !Registered(db, Get(o, KIND)))
  {
    Names();
    if db.lastRev != MAX_REV {
      StampedGets(db, o, newId, KIND);
    }
  }

  /** Exactly when each error comes. */
  lemma PutFails(db: Db, obj: Props, flags: Flags, newId: Value)
    requires Sound(db) && Ascending(obj)
    ensures var r, changes, kind := PutImpl(db, obj, flags, newId), Changes(db, obj, flags),
                                    Get(Candidate(db, obj, flags), KIND);
            && (r == PutErr(RevNotSpecified) <==> Unnamed(db, obj, flags))
            && (r == PutErr(RevisionMismatch) <==> Stale(db, obj, flags))
            && r != PutErr(RevMissing)
            && (r == PutErr(OutOfRevs) <==> changes && db.lastRev == MAX_REV)
            && (r == PutErr(KindNotSpecified) <==> changes && db.lastRev != MAX_REV && kind == None)
            && (r == PutErr(KindNotRegistered) <==>
                changes && db.lastRev != MAX_REV && kind.Some? && !Registered(db, kind))
  {
    PutRules(db, obj, flags, newId);
    CandidateAscending(db, obj, flags);
    PutObjFails(db, Candidate(db, obj, flags), Previous(db, obj), newId);
  }

  lemma CandidateAscending(db: Db, obj: Props, flags: Flags)
    requires Sound(db) && Ascending(obj)
    ensures Ascending(Candidate(db, obj, flags))
  {
    if Previous(db, obj).Some? && flags.merge {
      MergeLooksUp(obj, Previous(db, obj).value, KIND);
    }
  }

  /** Without force or merge, updating a live object takes its current revision. */
  lemma UpdateNamesRev(db: Db, obj: Props, newId: Value)
    requires Sound(db) && Previous(db, obj).Some? && !Deleted(Previous(db, obj).value)
    ensures PutImpl(db, obj, Flags(false, false, false), newId).PutOk? ==> RevOf(obj) == RevOf(Previous(db, obj).value)
  {
  }

  /** Of two updates made from the same revision the second is refused, unless the first changed nothing. */
  lemma NoLostUpdate(db: Db, a: Props, b: Props, newId: Value)
    requires Sound(db) && Ascending(a) && Ascending(b) && Get(a, ID).Some? && Get(a, ID) == Get(b, ID) &&
             Get(a, ID).value in db.objs
    requires RevOf(a).Some? && RevOf(a) == RevOf(b)
    requires PutImpl(db, a, Flags(false, false, false), newId).PutOk?
    ensures var t := PutImpl(db, a, Flags(false, false, false), newId).db;
            t != db ==> PutImpl(t, b, Flags(false, false, false), newId) == PutErr(RevisionMismatch)
  {
    var prev := Previous(db, a);
    if prev != Some(a) {
      PutObjStores(db, a, prev, newId);
    }
  }

  // ----- restoring -----

  datatype Stats = Stats(records: nat, restored: nat, kinds: nat, permissions: nat, tombstones: nat, unknownKind: nat,
                         noBackupKind: nat, existing: nat, invalid: nat)

  const NO_STATS := Stats(0, 0, 0, 0, 0, 0, 0, 0, 0)

  const KIND_PREFIX := Text("Kind:")
  const PERMISSION_PREFIX := Text("Permission:")

  /** Ids the database keeps for itself. */
  predicate ReservedId(id: seq<byte>) {
    || Text("_kinds/") <= id || Text("_permissions/") <= id || Text("_quotas/") <= id || Text("_internal/dbstate") <= id
  }

  /** An id to restore under: none yet, or a string that is not empty and not reserved. */
  predicate UsableId(id: Option<Value>) {
    id == None || (id.value.Str? && id.value.s != [] && !ReservedId(id.value.s))
  }

  /** What becomes of a record. */
  datatype Outcome =
    Invalid | KindRecord | PermissionRecord | Tombstone | UnknownKind | NoBackupKind | Existing | Restored

  /** The checks on the record alone. */
  function JudgeRecord(kinds: map<seq<byte>, Kind>, obj: Props): Outcome {
    match Get(obj, KIND)
    case None => Invalid
    case Some(Str(kind)) =>
      if KIND_PREFIX <= kind then KindRecord
      else if PERMISSION_PREFIX <= kind then PermissionRecord
      else if Deleted(obj) then Tombstone
      else if kind !in kinds then UnknownKind
      else if kinds[kind].builtin || !kinds[kind].backup then NoBackupKind
      else if UsableId(Get(obj, ID)) then Restored
      else Invalid
    case Some(_) => if Deleted(obj) then Tombstone else UnknownKind
  }

  /** The checks of loadRestoreImpl: a live object, or a tombstone of another kind, is left as it is. */
  function Judge(db: Db, obj: Props): Outcome {
    var o := JudgeRecord(db.kinds, obj);
    if o != Restored then o
    else match Previous(db, obj)
      case Some(prev) => if !Deleted(prev) || Get(prev, KIND) != Get(obj, KIND) then Existing else Restored
      case None => Restored
  }

  function Count(stats: Stats, o: Outcome): Stats {
    var s := stats.(records := stats.records + 1);
    match o
    case Invalid => s.(invalid := s.invalid + 1)
    case KindRecord => s.(kinds := s.kinds + 1)
    case PermissionRecord => s.(permissions := s.permissions + 1)
    case Tombstone => s.(tombstones := s.tombstones + 1)
    case UnknownKind => s.(unknownKind := s.unknownKind + 1)
    case NoBackupKind => s.(noBackupKind := s.noBackupKind + 1)
    case Existing => s.(existing := s.existing + 1)
    case Restored => s.(restored := s.restored + 1)
  }

  datatype Run = Run(db: Db, stats: Stats, error: Option<PutError>)

  /** `loadRestoreImpl` on one record; `newId` is what the id generator would give. */
  function RestoreOne(db: Db, stats: Stats, obj: Props, newId: Value): Run {
    var o := Judge(db, obj);
    if o != Restored then Run(db, Count(stats, o), None)
    else match PutImpl(db, Drop(obj, REV), Flags(false, false, false), newId)
      case PutOk(t, _) => Run(t, Count(stats, o), None)
      case PutErr(e) => Run(db, stats.(records := stats.records + 1), Some(e))
  }

  /** A record, and the id it gets if it has none. */
  datatype Input = Input(obj: Props, newId: Value)

  function RestoreAll(db: Db, stats: Stats, inputs: seq<Input>): Run
    decreases |inputs|
  {
    if inputs == [] then Run(db, stats, None)
    else
      var r := RestoreOne(db, stats, inputs[0].obj, inputs[0].newId);
      if r.error.Some? then r else RestoreAll(r.db, r.stats, inputs[1..])
  }

  /** Two lists of records one after the other are one list, the second restored into what the first left. */
  lemma {:induction false} RestoreConcat(db: Db, stats: Stats, a: seq<Input>, b: seq<Input>)
    ensures var r := RestoreAll(db, stats, a);
            RestoreAll(db, stats, a + b) == if r.error.Some? then r else RestoreAll(r.db, r.stats, b)
    decreases |a|
  {
    if a == [] {
      assert a + b == b;
    } else {
      var r := RestoreOne(db, stats, a[0].obj, a[0].newId);
      assert (a + b)[0] == a[0] && (a + b)[1..] == a[1..] + b;
      RestoreConcat(r.db, r.stats, a[1..], b);
    }
  }

  /** The generator gives ids that are not in use when they are given. */
  predicate FreshIds(db: Db, stats: Stats, inputs: seq<Input>)
    decreases |inputs|
  {
    inputs == [] ||
    (inputs[0].newId !in db.objs && Ascending(inputs[0].obj) &&
     var r := RestoreOne(db, stats, inputs[0].obj, inputs[0].newId);
     r.error.Some? || FreshIds(r.db, r.stats, inputs[1..]))
  }

  /** Every record is in exactly one of the eight counters. */
  predicate Balanced(s: Stats) {
    s.records == s.restored + s.kinds + s.permissions + s.tombstones + s.unknownKind + s.noBackupKind + s.existing +
        s.invalid
  }

  lemma {:induction false} RestoreBalances(db: Db, stats: Stats, inputs: seq<Input>)
    requires Balanced(stats) && RestoreAll(db, stats, inputs).error == None
    ensures Balanced(RestoreAll(db, stats, inputs).stats)
    ensures RestoreAll(db, stats, inputs).stats.records == stats.records + |inputs|
    decreases |inputs|
  {
    if inputs != [] {
      var r := RestoreOne(db, stats, inputs[0].obj, inputs[0].newId);
      RestoreBalances(r.db, r.stats, inputs[1..]);
    }
  }

  /** A live object of a registered kind that is marked for backup and not the database's own. */
  predicate UserObject(kinds: map<seq<byte>, Kind>, o: Props) {
    !Deleted(o) &&
    match Get(o, KIND)
    case Some(Str(kind)) =>
      kind in kinds && !kinds[kind].builtin && kinds[kind].backup && !(KIND_PREFIX <= kind) &&
          !(PERMISSION_PREFIX <= kind)
    case _ => false
  }

  /** Nothing goes, nothing live changes, and what comes is user objects, at most over tombstones of their kind. */
  predicate OnlyAdds(db: Db, t: Db) {
    && t.kinds == db.kinds
    && (forall id :: id in db.objs ==> id in t.objs)
    && (forall id :: id in db.objs && t.objs[id] != db.objs[id] ==>
          Deleted(db.objs[id]) && Get(t.objs[id], KIND) == Get(db.objs[id], KIND) && UserObject(db.kinds, t.objs[id]))
    && (forall id :: id in t.objs && id !in db.objs ==> UserObject(db.kinds, t.objs[id]))
  }

  /** Without its revision a record to be restored passes the rules of put. */
  lemma RestorePasses(db: Db, obj: Props, newId: Value)
    requires Sound(db) && Ascending(obj) && newId !in db.objs && Judge(db, obj) == Restored
    ensures var o := Drop(obj, REV);
            && Ascending(o) && Previous(db, o) == Previous(db, obj) != Some(o)
            && IdOf(o, newId) == IdOf(obj, newId) && Get(o, KIND) == Get(obj, KIND) && Get(o, DEL) == Get(obj, DEL)
            && PutImpl(db, o, Flags(false, false, false), newId) == PutObj(db, o, Previous(db, o), newId)
  {
    Names();
    GetDrop(obj, REV, ID);
    GetDrop(obj, REV, REV);
    GetDrop(obj, REV, KIND);
    GetDrop(obj, REV, DEL);
  }

  /** The put of a restore cannot be refused for its revision, and writes one user object. */
  lemma RestoreWrites(db: Db, stats: Stats, obj: Props, newId: Value)
    requires Sound(db) && Ascending(obj) && newId !in db.objs && Judge(db, obj) == Restored
    ensures db.lastRev == MAX_REV ==> RestoreOne(db, stats, obj, newId).error == Some(OutOfRevs)
    ensures db.lastRev != MAX_REV ==>
              var r := RestoreOne(db, stats, obj, newId);
              && r.error == None && Written(db, obj, IdOf(obj, newId), r.db)
  {
    Names();
    var o, prev := Drop(obj, REV), Previous(db, obj);
    RestorePasses(db, obj, newId);
    if db.lastRev != MAX_REV {
      StampedGets(db, o, newId, KIND);
      StampedGets(db, o, newId, DEL);
      PutObjStores(db, o, prev, newId);
    }
  }

  /** A restored record is stored with all its properties but the revision, which is new, and no others. */
  lemma RestoredContents(db: Db, stats: Stats, obj: Props, newId: Value, name: seq<byte>)
    requires Sound(db) && AllDeep(db) && Deep(obj) && newId !in db.objs && Judge(db, obj) == Restored
    requires RestoreOne(db, stats, obj, newId).error == None
    ensures var t, id := RestoreOne(db, stats, obj, newId).db, IdOf(obj, newId);
            && id in t.objs && t.objs == db.objs[id := t.objs[id]]
            && (name != ID && name != REV ==> Get(t.objs[id], name) == Get(obj, name))
  {
    RestorePasses(db, obj, newId);
    DropDeep(obj, REV);
    GetDrop(obj, REV, name);
    PutStores(db, Drop(obj, REV), Flags(false, false, false), newId, name);
  }

  // ----- which records are restored -----

  predicate KindBegins(obj: Props, prefix: seq<byte>) {
    var kind := Get(obj, KIND);
    kind.Some? && kind.value.Str? && prefix <= kind.value.s
  }

  /** A record of a kind other than kinds and permissions. */
  predicate UserRecord(obj: Props) {
    Get(obj, KIND).Some? && !KindBegins(obj, Text("Kind:")) && !KindBegins(obj, Text("Permission:"))
  }

  predicate MarkedDeleted(o: Props) {
    Get(o, DEL).Some? && Get(o, DEL).value !in FALSE_VALUES
  }

  /** A live record of a registered kind that takes part in backup. */
  predicate Backed(db: Db, obj: Props) {
    UserRecord(obj) && !MarkedDeleted(obj) && Registered(db, Get(obj, KIND)) &&
    !db.kinds[Get(obj, KIND).value.s].builtin && db.kinds[Get(obj, KIND).value.s].backup
  }

  /** An id that is not a string, is empty, or is one of the database's own. */
  predicate BadId(obj: Props) {
    match Get(obj, ID)
    case None => false
    case Some(Str(id)) =>
      id == [] || Text("_kinds/") <= id || Text("_permissions/") <= id || Text("_quotas/") <= id ||
      Text("_internal/dbstate") <= id
    case Some(_) => true
  }

  /** Under its id there is a live object, or one of another kind. */
  predicate Taken(db: Db, obj: Props) {
    Get(obj, ID).Some? && Get(obj, ID).value in db.objs &&
    var prev := db.objs[Get(obj, ID).value];
    !MarkedDeleted(prev) || Get(prev, KIND) != Get(obj, KIND)
  }

  lemma JudgeIs(db: Db, obj: Props)
    ensures Judge(db, obj) ==
            if Get(obj, KIND) == None then Invalid
            else if KindBegins(obj, Text("Kind:")) then KindRecord
            else if KindBegins(obj, Text("Permission:")) then PermissionRecord
            else if MarkedDeleted(obj) then Tombstone
            else if !Registered(db, Get(obj, KIND)) then UnknownKind
            else if !Backed(db, obj) then NoBackupKind
            else if BadId(obj) then Invalid
            else if Taken(db, obj) then Existing
            else Restored
  {
    forall o: Props ensures Deleted(o) <==> MarkedDeleted(o) {
      if Get(o, DEL).Some? {
        TruthIff(Get(o, DEL).value);
      }
    }
  }

  /** Exactly which counter a record goes into, and when it ends in an error instead. */
  lemma RestoreCounts(db: Db, stats: Stats, obj: Props, newId: Value)
    requires Sound(db) && Ascending(obj) && newId !in db.objs
    ensures var r, s := RestoreOne(db, stats, obj, newId), stats.(records := stats.records + 1);
            var user, goes := UserRecord(obj), Backed(db, obj) && !BadId(obj) && !Taken(db, obj);
            && (r.stats == s.(invalid := s.invalid + 1) <==> Get(obj, KIND) == None || (Backed(db, obj) && BadId(obj)))
            && (r.stats == s.(kinds := s.kinds + 1) <==> KindBegins(obj, Text("Kind:")))
            && (r.stats == s.(permissions := s.permissions + 1) <==> KindBegins(obj, Text("Permission:")))
            && (r.stats == s.(tombstones := s.tombstones + 1) <==> user && MarkedDeleted(obj))
            && (r.stats == s.(unknownKind := s.unknownKind + 1) <==>
                user && !MarkedDeleted(obj) && !Registered(db, Get(obj, KIND)))
            && (r.stats == s.(noBackupKind := s.noBackupKind + 1) <==>
                user && !MarkedDeleted(obj) && Registered(db, Get(obj, KIND)) && !Backed(db, obj))
            && (r.stats == s.(existing := s.existing + 1) <==> Backed(db, obj) && !BadId(obj) && Taken(db, obj))
            && (r.stats == s.(restored := s.restored + 1) <==> goes && db.lastRev != MAX_REV)
            && (r.error.Some? <==> goes && db.lastRev == MAX_REV)
  {
    JudgeIs(db, obj);
    assert Text("Kind:")[0] != Text("Permission:")[0];
    if Judge(db, obj) == Restored {
      RestoreWrites(db, stats, obj, newId);
    }
  }

  /** One user object of the record's kind is written, at most over a tombstone of that kind. */
  predicate Written(db: Db, obj: Props, id: Value, t: Db) {
    && id in t.objs && t == db.(objs := db.objs[id := t.objs[id]], lastRev := t.lastRev)
    && t.lastRev == db.lastRev + 1 && Ascending(t.objs[id]) && Get(t.objs[id], ID) == Some(id) &&
       RevOf(t.objs[id]) == Some(t.lastRev)
    && UserObject(db.kinds, t.objs[id]) && Get(t.objs[id], KIND) == Get(obj, KIND)
    && (id in db.objs ==> Deleted(db.objs[id]) && Get(db.objs[id], KIND) == Get(obj, KIND))
  }

  lemma WrittenOnlyAdds(db: Db, obj: Props, id: Value, t: Db)
    requires Sound(db) && Written(db, obj, id, t)
    ensures OnlyAdds(db, t) && Sound(t)
  {
  }

  lemma OneOnlyAdds(db: Db, stats: Stats, obj: Props, newId: Value)
    requires Sound(db) && Ascending(obj) && newId !in db.objs && RestoreOne(db, stats, obj, newId).error == None
    ensures OnlyAdds(db, RestoreOne(db, stats, obj, newId).db) && Sound(RestoreOne(db, stats, obj, newId).db)
  {
    if Judge(db, obj) == Restored {
      RestoreWrites(db, stats, obj, newId);
      WrittenOnlyAdds(db, obj, IdOf(obj, newId), RestoreOne(db, stats, obj, newId).db);
    }
  }

  lemma AddsTransitive(a: Db, b: Db, c: Db)
    requires OnlyAdds(a, b) && OnlyAdds(b, c)
    ensures OnlyAdds(a, c)
  {
    forall id | id in a.objs && c.objs[id] != a.objs[id]
      ensures Deleted(a.objs[id]) && Get(c.objs[id], KIND) == Get(a.objs[id], KIND) && UserObject(a.kinds, c.objs[id])
    {
      assert id in b.objs;
    }
  }

  /** Over any records: no live object changes, nothing goes, and no kind or permission record comes or changes. */
  lemma {:induction false} RestoreOnlyAdds(db: Db, stats: Stats, inputs: seq<Input>)
    requires Sound(db) && FreshIds(db, stats, inputs) && RestoreAll(db, stats, inputs).error == None
    ensures OnlyAdds(db, RestoreAll(db, stats, inputs).db) && Sound(RestoreAll(db, stats, inputs).db)
    decreases |inputs|
  {
    if inputs != [] {
      var r := RestoreOne(db, stats, inputs[0].obj, inputs[0].newId);
      OneOnlyAdds(db, stats, inputs[0].obj, inputs[0].newId);
      RestoreOnlyAdds(r.db, r.stats, inputs[1..]);
      AddsTransitive(db, r.db, RestoreAll(db, stats, inputs).db);
    }
  }

  /** Kind and permission records are left exactly as they are, tombstones included. */
  lemma SchemaUntouched(db: Db, t: Db, id: Value, kind: seq<byte>)
    requires OnlyAdds(db, t) && id in db.objs && Get(db.objs[id], KIND) == Some(Str(kind))
    requires KIND_PREFIX <= kind || PERMISSION_PREFIX <= kind
    ensures id in t.objs && t.objs[id] == db.objs[id]
  {
  }

  // ----- a second pass -----

  predicate HasId(obj: Props) {
    Get(obj, ID).Some?
  }

  /** Once a record with an id is not to be restored, no restore changes that. */
  lemma SettledStays(db: Db, t: Db, obj: Props)
    requires HasId(obj) && Judge(db, obj) != Restored && OnlyAdds(db, t)
    ensures Judge(t, obj) != Restored
  {
    if JudgeRecord(db.kinds, obj) == Restored {
      var id := Get(obj, ID).value;
      assert id in db.objs && id in t.objs;
    }
  }

  lemma {:induction false} FirstPassSettles(db: Db, stats: Stats, inputs: seq<Input>)
    requires Sound(db) && FreshIds(db, stats, inputs) && RestoreAll(db, stats, inputs).error == None
    ensures var t := RestoreAll(db, stats, inputs).db;
            forall i :: 0 <= i < |inputs| && HasId(inputs[i].obj) ==> Judge(t, inputs[i].obj) != Restored
    decreases |inputs|
  {
    if inputs != [] {
      var obj := inputs[0].obj;
      var r := RestoreOne(db, stats, obj, inputs[0].newId);
      var t := RestoreAll(db, stats, inputs).db;
      OneOnlyAdds(db, stats, obj, inputs[0].newId);
      FirstPassSettles(r.db, r.stats, inputs[1..]);
      RestoreOnlyAdds(r.db, r.stats, inputs[1..]);
      if HasId(obj) {
        if Judge(db, obj) == Restored {
          RestoreWrites(db, stats, obj, inputs[0].newId);
        }
        SettledStays(r.db, t, obj);
      }
      forall i | 0 <= i < |inputs| && HasId(inputs[i].obj) ensures Judge(t, inputs[i].obj) != Restored {
        if i > 0 {
          assert inputs[i] == inputs[1..][i - 1];
        }
      }
    }
  }

  /** Records that come back under a new id on every pass. */
  function Anonymous(kinds: map<seq<byte>, Kind>, inputs: seq<Input>): nat {
    if inputs == [] then 0
    else
      (if !HasId(inputs[0].obj) &&
       JudgeRecord(kinds, inputs[0].obj) == Restored then 1 else 0) + Anonymous(kinds, inputs[1..])
  }

  lemma {:induction false} SettledPass(db: Db, stats: Stats, inputs: seq<Input>)
    requires Sound(db) && FreshIds(db, stats, inputs) && RestoreAll(db, stats, inputs).error == None
    requires forall i :: 0 <= i < |inputs| && HasId(inputs[i].obj) ==> Judge(db, inputs[i].obj) != Restored
    ensures RestoreAll(db, stats, inputs).stats.restored == stats.restored + Anonymous(db.kinds, inputs)
    decreases |inputs|
  {
    if inputs != [] {
      var r := RestoreOne(db, stats, inputs[0].obj, inputs[0].newId);
      OneOnlyAdds(db, stats, inputs[0].obj, inputs[0].newId);
      forall i | 0 <= i < |inputs[1..]| &&
          HasId(inputs[1..][i].obj) ensures Judge(r.db, inputs[1..][i].obj) != Restored {
        SettledStays(db, r.db, inputs[i + 1].obj);
      }
      SettledPass(r.db, r.stats, inputs[1..]);
    }
  }

  /** Records that are all settled or not to be restored leave the store as it is, whatever ids are at hand. */
  lemma {:induction false} NothingToRestore(db: Db, stats: Stats, inputs: seq<Input>)
    requires Anonymous(db.kinds, inputs) == 0
    requires forall i :: 0 <= i < |inputs| && HasId(inputs[i].obj) ==> Judge(db, inputs[i].obj) != Restored
    ensures var r := RestoreAll(db, stats, inputs);
            r.error == None && r.db == db && r.stats.restored == stats.restored
    decreases |inputs|
  {
    if inputs != [] {
      var r := RestoreOne(db, stats, inputs[0].obj, inputs[0].newId);
      forall i | 0 <= i < |inputs[1..]| &&
          HasId(inputs[1..][i].obj) ensures Judge(db, inputs[1..][i].obj) != Restored {
        assert inputs[1..][i] == inputs[i + 1];
      }
      NothingToRestore(db, r.stats, inputs[1..]);
    }
  }

  /**
   * The same records once more: those with an id restore nothing, and if all have one the store stays and there is no
   * error; those without are all restored again, unless the pass ends in an error.
   */
  lemma SecondPass(db: Db, first: seq<Input>, second: seq<Input>)
    requires Sound(db) && FreshIds(db, NO_STATS, first) && RestoreAll(db, NO_STATS, first).error == None
    requires |first| == |second| && forall i :: 0 <= i < |first| ==> second[i].obj == first[i].obj
    ensures var t := RestoreAll(db, NO_STATS, first).db;
            var r := RestoreAll(t, NO_STATS, second);
            && (Anonymous(db.kinds, second) == 0 ==> r.error == None && r.db == t && r.stats.restored == 0)
            && (FreshIds(t, NO_STATS, second) && r.error == None ==>
                  r.stats.restored == Anonymous(db.kinds, second))
  {
    var t := RestoreAll(db, NO_STATS, first).db;
    FirstPassSettles(db, NO_STATS, first);
    RestoreOnlyAdds(db, NO_STATS, first);
    if Anonymous(db.kinds, second) == 0 {
      NothingToRestore(t, NO_STATS, second);
    }
    if FreshIds(t, NO_STATS, second) && RestoreAll(t, NO_STATS, second).error == None {
      SettledPass(t, NO_STATS, second);
    }
  }

  lemma IdDeep(obj: Props, o: Props, newId: Value)
    requires Deep(obj) && Deep(o) && newId.Str?
    ensures Deep(PutProp(o, ID, IdOf(obj, newId)))
  {
    if Get(obj, ID).Some? && Get(obj, ID).value.Object? {
      GetDeep(obj, ID);
    }
    PutDeep(o, ID, IdOf(obj, newId));
  }

  // ----- the store as an object -----

  /** The store and the counters of the restore under way, changed in place. */
  class ObjectDb {
    var objs: map<Value, Props>
    var lastRev: int64
    const kinds: map<seq<byte>, Kind>
    var stats: Stats

    ghost function View(): Db
      reads this
    {
      Db(objs, lastRev, kinds)
    }

    /** Every stored object has its names in order at every level. */
    ghost predicate Ordered()
      reads this
    {
      forall id :: id in objs ==> Deep(objs[id])
    }

    constructor (kinds: map<seq<byte>, Kind>)
      ensures View() == Db(map[], 0, kinds) && Sound(View()) && stats == NO_STATS && Ordered()
    {
      this.kinds := kinds;
      objs, lastRev, stats := map[], 0, NO_STATS;
    }

    /** `putObj`. */
    method Store(obj: Props, prev: Option<Props>, newId: Value) returns (error: Option<PutError>, stored: Props)
      requires Ordered() && Deep(obj) && newId.Str?
      ensures Ordered()
      modifies this`objs, this`lastRev
      ensures match PutObj(old(View()), obj, prev, newId)
              case PutOk(t, o) => error == None && View() == t && stored == o
              case PutErr(e) => error == Some(e) && objs == old(objs)
    {
      error, stored := None, obj;
      if prev == Some(obj) {
        return;
      }
      if lastRev == MAX_REV {
        return Some(OutOfRevs), stored;
      }
      PutDeep(stored, REV, Int(lastRev + 1));
      stored := PutProp(stored, REV, Int(lastRev + 1));
      lastRev := lastRev + 1;
      var id := Get(obj, ID);
      IdDeep(obj, stored, newId);
      stored := PutProp(stored, ID, if id.Some? then id.value else newId);
      var kind := Get(stored, KIND);
      if kind == None {
        return Some(KindNotSpecified), stored;
      }
      if !kind.value.Str? || kind.value.s !in kinds {
        return Some(KindNotRegistered), stored;
      }
      objs := objs[if id.Some? then id.value else newId := stored];
    }

    /** `putImpl`. */
    method Put(obj: Props, flags: Flags, newId: Value) returns (error: Option<PutError>, stored: Props)
      requires Ordered() && Deep(obj) && newId.Str?
      modifies this`objs, this`lastRev
      ensures Ordered()
      ensures match PutImpl(old(View()), obj, flags, newId)
              case PutOk(t, o) => error == None && View() == t && stored == o
              case PutErr(e) => error == Some(e) && objs == old(objs)
    {
      error, stored := None, obj;
      var id := Get(obj, ID);
      var prev: Option<Props> := if id.Some? && id.value in objs then Some(objs[id.value]) else None;
      if flags.ignoreMissing && flags.merge && prev == None {
        return;
      }
      if prev.Some? {
        if flags.merge {
          MergedDeep(obj, prev.value);
          stored := MergeInto(obj, prev.value);
        } else if !flags.force && RevOf(stored) == None && !Deleted(prev.value) {
          return Some(RevNotSpecified), stored;
        }
        if RevOf(stored).Some? {
          if RevOf(prev.value) == None {
            return Some(RevMissing), stored;
          }
          if !flags.force && RevOf(stored) != RevOf(prev.value) {
            return Some(RevisionMismatch), stored;
          }
        }
      }
      error, stored := Store(stored, prev, newId);
    }

    /** `loadRestoreImpl`. */
    method LoadRestore(obj: Props, newId: Value) returns (error: Option<PutError>)
      requires Ordered() && Deep(obj) && newId.Str?
      modifies this
      ensures Ordered()
      ensures var r := RestoreOne(old(View()), old(stats), obj, newId);
              error == r.error && stats == r.stats && (error == None ==> View() == r.db)
    {
      error := None;
      stats := stats.(records := stats.records + 1);
      var kindName := Get(obj, KIND);
      if kindName == None {
        stats := stats.(invalid := stats.invalid + 1);
        return;
      }
      if kindName.value.Str? && KIND_PREFIX <= kindName.value.s {
        stats := stats.(kinds := stats.kinds + 1);
        return;
      }
      if kindName.value.Str? && PERMISSION_PREFIX <= kindName.value.s {
        stats := stats.(permissions := stats.permissions + 1);
        return;
      }
      if Deleted(obj) {
        stats := stats.(tombstones := stats.tombstones + 1);
        return;
      }
      if !kindName.value.Str? || kindName.value.s !in kinds {
        stats := stats.(unknownKind := stats.unknownKind + 1);
        return;
      }
      var kind := kinds[kindName.value.s];
      if kind.builtin || !kind.backup {
        stats := stats.(noBackupKind := stats.noBackupKind + 1);
        return;
      }
      var id := Get(obj, ID);
      if id.Some? {
        if !UsableId(id) {
          stats := stats.(invalid := stats.invalid + 1);
          return;
        }
        if id.value in objs {
          var prev := objs[id.value];
          if !Deleted(prev) || Get(prev, KIND) != kindName {
            stats := stats.(existing := stats.existing + 1);
            return;
          }
        }
      }
      DropDeep(obj, REV);
      var stored;
      error, stored := Put(Drop(obj, REV), Flags(false, false, false), newId);
      if error == None {
        stats := stats.(restored := stats.restored + 1);
      }
    }

    /** The records of a backup, one after the other, up to the first error. */
    method LoadRecords(inputs: seq<Input>) returns (error: Option<PutError>)
      requires Ordered() && forall i :: 0 <= i < |inputs| ==> Deep(inputs[i].obj) && inputs[i].newId.Str?
      modifies this
      ensures Ordered()
      ensures var r := RestoreAll(old(View()), old(stats), inputs);
              error == r.error && stats == r.stats && (error == None ==> View() == r.db)
    {
      error := None;
      ghost var goal := RestoreAll(View(), stats, inputs);
      var i := 0;
      while i < |inputs|
        invariant i <= |inputs| && Ordered() && error == None
        invariant goal == RestoreAll(View(), stats, inputs[i..])
      {
        NextRecord(View(), stats, inputs, i);
        error := LoadRestore(inputs[i].obj, inputs[i].newId);
        if error.Some? {
          return;
        }
        i := i + 1;
      }
    }
  }

  lemma NextRecord(db: Db, stats: Stats, inputs: seq<Input>, i: nat)
    requires i < |inputs|
    ensures var r := RestoreOne(db, stats, inputs[i].obj, inputs[i].newId);
            RestoreAll(db, stats, inputs[i..]) == if r.error.Some? then r
                else RestoreAll(r.db, r.stats, inputs[i + 1..])
  {
    assert inputs[i..][0] == inputs[i] && inputs[i..][1..] == inputs[i + 1..];
  }
}
