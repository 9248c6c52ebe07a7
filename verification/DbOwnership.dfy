/** Who keeps a database open: the reference counts of `ext/rpm/db.c`, over every order of use and finalisation. */
module DbOwnership {
  import opened Outcomes

  /** `rpm_db_t`: an open database and the number of handles that share it. */
  class DbRecord {
    var refCount: int

    constructor ()
      ensures refCount == 0
    {
      refCount := 0;
    }
  }

  datatype Kind = DB | Transaction | MatchIterator

  /**
   * A Ruby data object. A DB object points at its record until it is closed; the others hold it until they are
   * freed.
   */
  class Handle {
    const kind: Kind
    var data: DbRecord?

    constructor (kind: Kind, data: DbRecord)
      ensures this.kind == kind && this.data == data
    {
      this.kind := kind;
      this.data := data;
    }
  }

  // ---------- states and steps ----------

  /** `Created` is `rpmtsCreate` or `rpmdbInitIterator`, `Released` is `rpmtsFree` or `rpmdbFreeIterator`. */
  datatype Event =
    | Opened(record: DbRecord)
    | Created(h: Handle, record: DbRecord)
    | Released(h: Handle, record: DbRecord)
    | Closed(record: DbRecord)

  /** What a live handle points at; only a closed DB object points nowhere. */
  datatype Cell = Cell(kind: Kind, target: Option<DbRecord>)

  /** Records that are allocated with their counts, live handles, and what librpm was asked to do. */
  datatype State = State(refs: map<DbRecord, int>, live: map<Handle, Cell>, log: seq<Event>)

  ghost const START := State(map[], map[], [])

  datatype Op =
    | Opening(h: Handle, record: DbRecord)
    | Closing(h: Handle)
    | Attach(db: Handle, h: Handle, kind: Kind)
    | Finalising(h: Handle)

  ghost function Ref(st: State, r: DbRecord): State
    requires r in st.refs
  {
    st.(refs := st.refs[r := st.refs[r] + 1])
  }

  ghost function Unref(st: State, r: DbRecord): State
    requires r in st.refs
  {
    if st.refs[r] - 1 == 0 then st.(refs := st.refs - {r}, log := st.log + [Closed(r)])
    else st.(refs := st.refs[r := st.refs[r] - 1])
  }

  /** A DB object that has not been closed. */
  ghost predicate IsOpen(st: State, h: Handle) {
    h in st.live && st.live[h].kind == DB && st.live[h].target.Some?
  }

  /** An object that has just been made: nothing has happened with it yet. */
  ghost predicate Fresh(st: State, h: Handle) {
    h !in st.live && forall e :: e in st.log && (e.Created? || e.Released?) ==> e.h != h
  }

  /**
   * New objects are new; a database is closed once, and used while it is open. Anything may be finalised at any
   * time.
   */
  ghost predicate Enabled(st: State, op: Op) {
    match op
    case Opening(h, r) => Fresh(st, h) && r !in st.refs && forall e :: e in st.log ==> e.record != r
    case Closing(h) => IsOpen(st, h)
    case Attach(db, h, kind) => IsOpen(st, db) && Fresh(st, h) && kind != DB
    case Finalising(h) => h in st.live
  }

  /** No handle points at a record that has been freed. */
  ghost predicate NoDangling(st: State) {
    forall h :: h in st.live && st.live[h].target.Some? ==> st.live[h].target.value in st.refs
  }

  ghost function Step(st: State, op: Op): State
    requires Enabled(st, op) && NoDangling(st)
  {
    match op
    case Opening(h, r) =>
      Ref(State(st.refs[r := 0], st.live[h := Cell(DB, Some(r))], st.log + [Opened(r)]), r)
    case Closing(h) =>
      var r := st.live[h].target.value;
      Unref(st.(live := st.live[h := Cell(DB, None)]), r)
    case Attach(db, h, kind) =>
      var r := st.live[db].target.value;
      Ref(st.(live := st.live[h := Cell(kind, Some(r))], log := st.log + [Created(h, r)]), r)
    case Finalising(h) =>
      var cell, gone := st.live[h], st.(live := st.live - {h});
      if cell.target.None? then gone
      else if cell.kind == DB then Unref(gone, cell.target.value)
      else Unref(gone.(log := gone.log + [Released(h, cell.target.value)]), cell.target.value)
  }

  // ---------- what librpm may be asked to do ----------

  /** The databases that are open after these calls. */
  ghost function OpenAfter(log: seq<Event>): set<DbRecord> {
    if log == [] then {} else OpenThen(OpenAfter(log[..|log| - 1]), log[|log| - 1])
  }

  ghost function OpenThen(open: set<DbRecord>, e: Event): set<DbRecord> {
    if e.Opened? then open + {e.record} else if e.Closed? then open - {e.record} else open
  }

  /** The transaction sets and iterators that are allocated after these calls, with their databases. */
  ghost function UsersAfter(log: seq<Event>): map<Handle, DbRecord> {
    if log == [] then map[] else UsersThen(UsersAfter(log[..|log| - 1]), log[|log| - 1])
  }

  ghost function UsersThen(users: map<Handle, DbRecord>, e: Event): map<Handle, DbRecord> {
    if e.Created? then users[e.h := e.record] else if e.Released? then users - {e.h} else users
  }

  /** Whether librpm may be called in this way after those calls. */
  ghost predicate Admissible(before: seq<Event>, e: Event) {
    match e
    case Opened(r) => forall d :: d in before ==> d.record != r
    case Created(h, r) => r in OpenAfter(before) && forall d :: d in before && d.Created? ==> d.h != h
    case Released(h, r) => h in UsersAfter(before) && UsersAfter(before)[h] == r
    case Closed(r) => r in OpenAfter(before) && r !in UsersAfter(before).Values
  }

  /** Every call was admissible after the ones before it. */
  ghost predicate Legal(log: seq<Event>) {
    log == [] || (Legal(log[..|log| - 1]) && Admissible(log[..|log| - 1], log[|log| - 1]))
  }

  lemma LogExtends(log: seq<Event>, e: Event)
    ensures Legal(log) && Admissible(log, e) ==> Legal(log + [e])
    ensures OpenAfter(log + [e]) == OpenThen(OpenAfter(log), e)
    ensures UsersAfter(log + [e]) == UsersThen(UsersAfter(log), e)
  {
    assert (log + [e])[..|log|] == log;
  }

  // ---------- invariant ----------

  ghost function Holders(st: State, r: DbRecord): set<Handle> {
    set h | h in st.live && st.live[h].target == Some(r)
  }

  /** Each allocated record is held, by as many handles as it counts. */
  ghost predicate Counted(st: State) {
    forall r :: r in st.refs ==> st.refs[r] == |Holders(st, r)| > 0
  }

  /** Live transactions and iterators with their records. */
  ghost function Attached(st: State): map<Handle, DbRecord> {
    map h | h in st.live && st.live[h].kind != DB && st.live[h].target.Some? :: st.live[h].target.value
  }

  /** Only a DB object can point nowhere. */
  ghost predicate UsersPoint(st: State) {
    forall h :: h in st.live && st.live[h].kind != DB ==> st.live[h].target.Some?
  }

  /** The calls were legal, and what they left behind is what the binding keeps. */
  ghost predicate LogFits(st: State) {
    Legal(st.log) && OpenAfter(st.log) == st.refs.Keys && UsersAfter(st.log) == Attached(st)
  }

  ghost predicate Inv(st: State) {
    NoDangling(st) && Counted(st) && UsersPoint(st) && LogFits(st)
  }

  // ---------- every step keeps the invariant ----------

  /** A holder has just let go of `r`: all is in order but that the count of `r` is one too high. */
  ghost predicate OneTooMany(st: State, r: DbRecord) {
    && NoDangling(st) && UsersPoint(st) && LogFits(st)
    && r in st.refs && st.refs[r] == |Holders(st, r)| + 1
    && forall q :: q in st.refs && q != r ==> st.refs[q] == |Holders(st, q)| > 0
  }

  /** One more admissible call, and the state changed accordingly. */
  lemma LogFitsAgain(st: State, st': State, e: Event)
    requires LogFits(st) && Admissible(st.log, e) && st'.log == st.log + [e]
    requires st'.refs.Keys == OpenThen(st.refs.Keys, e) && Attached(st') == UsersThen(Attached(st), e)
    ensures LogFits(st')
  {
    LogExtends(st.log, e);
  }

  lemma LastReference(st: State, r: DbRecord)
    requires OneTooMany(st, r) && st.refs[r] == 1
    ensures Inv(Unref(st, r))
  {
    var st' := Unref(st, r);
    forall h | h in st.live ensures st.live[h].target != Some(r) {
      assert st.live[h].target == Some(r) ==> h in Holders(st, r);
    }
    SameHolders(st, st');
    LogFitsAgain(st, st', Closed(r));
  }

  lemma OneReferenceLess(st: State, r: DbRecord)
    requires OneTooMany(st, r) && st.refs[r] != 1
    ensures Inv(Unref(st, r))
  {
    SameHolders(st, Unref(st, r));
  }

  lemma SameHolders(st: State, st': State)
    requires st'.live == st.live
    ensures forall q :: Holders(st', q) == Holders(st, q)
    ensures Attached(st') == Attached(st)
  {
  }

  lemma UnrefRestores(st: State, r: DbRecord)
    requires OneTooMany(st, r)
    ensures Inv(Unref(st, r))
  {
    if st.refs[r] == 1 {
      LastReference(st, r);
    } else {
      OneReferenceLess(st, r);
    }
  }

  lemma NewHolder(st: State, st': State, h: Handle, kind: Kind, r: DbRecord)
    requires h !in st.live && st'.live == st.live[h := Cell(kind, Some(r))]
    ensures |Holders(st', r)| == |Holders(st, r)| + 1
    ensures forall q :: q != r ==> Holders(st', q) == Holders(st, q)
  {
    assert Holders(st', r) == Holders(st, r) + {h};
  }

  lemma LostHolder(st: State, st': State, h: Handle, r: DbRecord)
    requires h in st.live && st.live[h].target == Some(r)
    requires st'.live == st.live - {h} || st'.live == st.live[h := Cell(DB, None)]
    ensures |Holders(st', r)| == |Holders(st, r)| - 1
    ensures forall q :: q != r ==> Holders(st', q) == Holders(st, q)
  {
    assert Holders(st, r) == Holders(st', r) + {h};
  }

  lemma CountsWithNewHolder(st: State, st': State, h: Handle, kind: Kind, r: DbRecord)
    requires Counted(st) && h !in st.live && st'.live == st.live[h := Cell(kind, Some(r))]
    requires st'.refs == st.refs[r := |Holders(st, r)| + 1]
    ensures Counted(st')
  {
    NewHolder(st, st', h, kind, r);
  }

  lemma FreedIsUnheld(st: State, r: DbRecord)
    requires NoDangling(st) && r !in st.refs
    ensures Holders(st, r) == {}
  {
  }

  lemma DbIsNoUser(st: State, st': State, h: Handle)
    requires h in st'.live && st'.live[h].kind == DB && st'.live == st.live[h := st'.live[h]]
    requires h in st.live ==> st.live[h].kind == DB
    ensures Attached(st') == Attached(st)
  {
    assert Attached(st').Keys == Attached(st).Keys;
  }

  lemma UserComes(st: State, st': State, h: Handle, kind: Kind, r: DbRecord)
    requires h !in st.live && kind != DB && st'.live == st.live[h := Cell(kind, Some(r))]
    ensures Attached(st') == Attached(st)[h := r]
  {
    assert Attached(st').Keys == Attached(st).Keys + {h};
  }

  lemma UserGoes(st: State, st': State, h: Handle)
    requires h in st.live && st.live[h].kind != DB && st.live[h].target.Some? && st'.live == st.live - {h}
    ensures h in Attached(st) && Attached(st)[h] == st.live[h].target.value
    ensures Attached(st') == Attached(st) - {h}
  {
    assert Attached(st').Keys == Attached(st).Keys - {h};
  }

  lemma OpenKeeps(st: State, h: Handle, r: DbRecord)
    requires Inv(st) && Enabled(st, Opening(h, r))
    ensures Inv(Step(st, Opening(h, r)))
  {
    var st' := Step(st, Opening(h, r));
    FreedIsUnheld(st, r);
    assert st'.refs == st.refs[r := 1];
    CountsWithNewHolder(st, st', h, DB, r);
    DbIsNoUser(st, st', h);
    LogFitsAgain(st, st', Opened(r));
  }

  lemma AttachKeeps(st: State, db: Handle, h: Handle, kind: Kind)
    requires Inv(st) && Enabled(st, Attach(db, h, kind))
    ensures Inv(Step(st, Attach(db, h, kind)))
  {
    var r := st.live[db].target.value;
    var st' := Step(st, Attach(db, h, kind));
    CountsWithNewHolder(st, st', h, kind, r);
    UserComes(st, st', h, kind, r);
    LogFitsAgain(st, st', Created(h, r));
  }

  lemma CloseKeeps(st: State, h: Handle)
    requires Inv(st) && Enabled(st, Closing(h))
    ensures Inv(Step(st, Closing(h)))
  {
    var r := st.live[h].target.value;
    var mid := st.(live := st.live[h := Cell(DB, None)]);
    LostHolder(st, mid, h, r);
    assert Attached(mid) == Attached(st);
    UnrefRestores(mid, r);
  }

  lemma FinaliseDbKeeps(st: State, h: Handle)
    requires Inv(st) && h in st.live && st.live[h].kind == DB
    ensures Inv(Step(st, Finalising(h)))
  {
    var gone := st.(live := st.live - {h});
    assert Attached(gone) == Attached(st);
    if st.live[h].target.Some? {
      var r := st.live[h].target.value;
      LostHolder(st, gone, h, r);
      UnrefRestores(gone, r);
    } else {
      assert forall q :: Holders(gone, q) == Holders(st, q);
    }
  }

  lemma FinaliseUserKeeps(st: State, h: Handle)
    requires Inv(st) && h in st.live && st.live[h].kind != DB
    ensures Inv(Step(st, Finalising(h)))
  {
    var r := st.live[h].target.value;
    var mid := State(st.refs, st.live - {h}, st.log + [Released(h, r)]);
    LostHolder(st, mid, h, r);
    UserGoes(st, mid, h);
    LogFitsAgain(st, mid, Released(h, r));
    UnrefRestores(mid, r);
  }

  lemma StepKeepsInv(st: State, op: Op)
    requires Inv(st) && Enabled(st, op)
    ensures Inv(Step(st, op))
  {
    match op
    case Opening(h, r) => OpenKeeps(st, h, r);
    case Closing(h) => CloseKeeps(st, h);
    case Attach(db, h, kind) => AttachKeeps(st, db, h, kind);
    case Finalising(h) => if st.live[h].kind == DB { FinaliseDbKeeps(st, h); } else { FinaliseUserKeeps(st, h); }
  }

  // ---------- whole runs ----------

  /** The state after a run from the start; `None` if some step was not possible. */
  ghost function After(ops: seq<Op>): Option<State> {
    if ops == [] then Some(START)
    else
      var before, op := After(ops[..|ops| - 1]), ops[|ops| - 1];
      if before.Some? && Enabled(before.value, op) && NoDangling(before.value) then Some(Step(before.value, op))
      else None
  }

  /**
   * Whatever is opened, attached, closed and finalised, in whatever order: counts are right and librpm is called
   * legally.
   */
  lemma {:induction false} RunKeepsInv(ops: seq<Op>)
    requires After(ops).Some?
    ensures Inv(After(ops).value)
  {
    if ops != [] {
      RunKeepsInv(ops[..|ops| - 1]);
      StepKeepsInv(After(ops[..|ops| - 1]).value, ops[|ops| - 1]);
    } else {
      assert Attached(START) == map[];
    }
  }

  /** What is open is what was opened and not closed. */
  lemma {:induction false} OpenMeans(log: seq<Event>)
    requires Legal(log)
    ensures forall r :: r in OpenAfter(log) ==> Opened(r) in log && Closed(r) !in log
    ensures forall d :: d in log ==> d.record in OpenAfter(log) || Closed(d.record) in log
  {
    if log != [] {
      var before, e := log[..|log| - 1], log[|log| - 1];
      OpenMeans(before);
      UsersAreOpen(before);
      assert log == before + [e];
    }
  }

  lemma {:induction false} UsersAreOpen(log: seq<Event>)
    requires Legal(log)
    ensures forall h :: h in UsersAfter(log) ==> UsersAfter(log)[h] in OpenAfter(log)
  {
    if log != [] {
      UsersAreOpen(log[..|log| - 1]);
    }
  }

  /** What was created is still there or was released later. */
  lemma {:induction false} UserMeans(log: seq<Event>, i: nat)
    requires Legal(log) && i < |log| && log[i].Created?
    ensures (log[i].h in UsersAfter(log) && UsersAfter(log)[log[i].h] == log[i].record)
      || exists k :: i < k < |log| && log[k] == Released(log[i].h, log[i].record)
  {
    var before, e := log[..|log| - 1], log[|log| - 1];
    if i < |log| - 1 {
      UserMeans(before, i);
      if exists k :: i < k < |before| && before[k] == Released(log[i].h, log[i].record) {
        var k :| i < k < |before| && before[k] == Released(log[i].h, log[i].record);
        assert log[k] == before[k];
      } else if e.Released? && e.h == log[i].h {
        assert log[|log| - 1] == Released(log[i].h, log[i].record);
      } else {
        assert log[i] in before;
      }
    }
  }

  /** A database is closed at most once, and nothing happens to it afterwards. */
  lemma {:induction false} ClosedIsLast(log: seq<Event>, i: nat, j: nat)
    requires Legal(log) && i < j < |log| && log[i].Closed?
    ensures log[j].record != log[i].record
  {
    if j == |log| - 1 {
      var before := log[..j];
      OpenMeans(before);
      UsersAreOpen(before);
      assert before[i] == log[i];
    } else {
      ClosedIsLast(log[..|log| - 1], i, j);
    }
  }

  /** Every transaction set and iterator of a database is freed before the database is closed. */
  lemma {:induction false} FreedBeforeClose(log: seq<Event>, i: nat, j: nat)
    requires Legal(log) && i < |log| && j < |log|
    requires log[i].Created? && log[j] == Closed(log[i].record)
    ensures exists k :: i < k < j && log[k] == Released(log[i].h, log[i].record)
  {
    if j == |log| - 1 {
      var before := log[..j];
      assert i < j && before[i] == log[i];
      UserMeans(before, i);
      var k :| i < k < |before| && before[k] == Released(log[i].h, log[i].record);
      assert log[k] == before[k];
    } else if i == |log| - 1 {
      ClosedIsLast(log, j, i);
    } else {
      var before := log[..|log| - 1];
      FreedBeforeClose(before, i, j);
      var k :| i < k < j && before[k] == Released(log[i].h, log[i].record);
      assert log[k] == before[k];
    }
  }

  /**
   * After any run: a record counts its holders, a database that was opened has been closed exactly when no live
   * handle points at it, and no handle points at a closed one.
   */
  lemma ClosedExactlyWhenUnheld(ops: seq<Op>, r: DbRecord)
    requires After(ops).Some?
    requires Opened(r) in After(ops).value.log
    ensures var st := After(ops).value;
      && (Closed(r) in st.log <==> Holders(st, r) == {})
      && (Closed(r) in st.log <==> r !in st.refs)
      && (r in st.refs ==> st.refs[r] == |Holders(st, r)|)
  {
    var st := After(ops).value;
    RunKeepsInv(ops);
    OpenMeans(st.log);
    assert Opened(r).record == r;
    if r !in st.refs {
      FreedIsUnheld(st, r);
    }
  }

  // ---------- what a run means ----------

  ghost predicate Makes(op: Op, h: Handle) {
    (op.Opening? || op.Attach?) && op.h == h
  }

  /** The handle was made in this run, and not finalised afterwards. */
  ghost predicate LivesAfter(ops: seq<Op>, h: Handle) {
    exists i :: 0 <= i < |ops| && Makes(ops[i], h) && forall j :: i < j < |ops| ==> ops[j] != Finalising(h)
  }

  /**
   * The record at which the operations leave a handle: an opened database points at its new record, and a transaction
   * or iterator at what its database pointed at when it was made, until it is closed or finalised.
   */
  ghost function PointsAt(ops: seq<Op>, h: Handle): Option<DbRecord> {
    if ops == [] then None
    else
      var before, op := ops[..|ops| - 1], ops[|ops| - 1];
      if op.h != h then PointsAt(before, h)
      else match op
        case Opening(_, r) => Some(r)
        case Attach(db, _, _) => PointsAt(before, db)
        case Closing(_) => None
        case Finalising(_) => None
  }

  ghost function KindAfter(ops: seq<Op>, h: Handle): Kind {
    if ops == [] then DB
    else
      var op := ops[|ops| - 1];
      if op.h == h && op.Opening? then DB
      else if op.h == h && op.Attach? then op.kind
      else KindAfter(ops[..|ops| - 1], h)
  }

  /** Some handle of the run still points at the record. */
  ghost predicate InUse(ops: seq<Op>, r: DbRecord) {
    exists i :: 0 <= i < |ops| && PointsAt(ops, ops[i].h) == Some(r)
  }

  /**
   * What librpm should be asked to do, with no counting: a database is closed by the operation that takes away the last
   * pointer at its record, after the object that held it has been freed.
   */
  ghost function Expected(ops: seq<Op>): seq<Event> {
    if ops == [] then []
    else
      var before, op := ops[..|ops| - 1], ops[|ops| - 1];
      var was := PointsAt(before, op.h);
      Expected(before) + match op
        case Opening(_, r) => [Opened(r)]
        case Attach(_, h, _) => if PointsAt(ops, h).Some? then [Created(h, PointsAt(ops, h).value)] else []
        case Closing(_) => ClosedIfUnused(ops, was)
        case Finalising(h) =>
          (if KindAfter(before, h) != DB && was.Some? then [Released(h, was.value)] else []) + ClosedIfUnused(ops, was)
  }

  ghost function ClosedIfUnused(ops: seq<Op>, r: Option<DbRecord>): seq<Event> {
    if r.Some? && !InUse(ops, r.value) then [Closed(r.value)] else []
  }

  lemma LivesOn(before: seq<Op>, op: Op, h: Handle)
    ensures LivesAfter(before + [op], h) <==> Makes(op, h) || (LivesAfter(before, h) && op != Finalising(h))
  {
    var ops := before + [op];
    if Makes(op, h) {
      assert Makes(ops[|before|], h);
    }
    if LivesAfter(before, h) && op != Finalising(h) {
      var i :| 0 <= i < |before| && Makes(before[i], h) && forall j :: i < j < |before| ==> before[j] != Finalising(h);
      assert Makes(ops[i], h);
    }
    if LivesAfter(ops, h) && !Makes(op, h) {
      var i :| 0 <= i < |ops| && Makes(ops[i], h) && forall j :: i < j < |ops| ==> ops[j] != Finalising(h);
      assert i < |before| && Makes(before[i], h);
      assert ops[|before|] != Finalising(h);
      assert forall j :: i < j < |before| ==> before[j] == ops[j];
    }
  }

  /** The operations say which handles are live, of what kind, and where they point. */
  ghost predicate AsTold(ops: seq<Op>, st: State, h: Handle) {
    && (h in st.live <==> LivesAfter(ops, h))
    && (if h in st.live then st.live[h] == Cell(KindAfter(ops, h), PointsAt(ops, h)) else PointsAt(ops, h) == None)
  }

  /** After any run, for every handle. */
  lemma {:induction false} RunMeans(ops: seq<Op>, h: Handle)
    requires After(ops).Some?
    ensures AsTold(ops, After(ops).value, h)
  {
    if ops != [] {
      var before, op := ops[..|ops| - 1], ops[|ops| - 1];
      RunMeans(before, h);
      LivesOn(before, op, h);
      assert ops == before + [op];
      if op.Attach? {
        RunMeans(before, op.db);
      }
    }
  }

  lemma InUseIsHeld(ops: seq<Op>, r: DbRecord)
    requires After(ops).Some?
    ensures InUse(ops, r) <==> r in After(ops).value.refs
  {
    var st := After(ops).value;
    RunKeepsInv(ops);
    if r in st.refs {
      var h :| h in Holders(st, r);
      RunMeans(ops, h);
      var i :| 0 <= i < |ops| && Makes(ops[i], h);
      assert PointsAt(ops, ops[i].h) == Some(r);
    }
    if i :| 0 <= i < |ops| && PointsAt(ops, ops[i].h) == Some(r) {
      RunMeans(ops, ops[i].h);
    }
  }

  /**
   * Counting references does what looking at all the handles would do: after any run librpm has been asked exactly what
   * it should be, in that order.
   */
  lemma {:induction false} CountingIsExact(ops: seq<Op>)
    requires After(ops).Some?
    ensures After(ops).value.log == Expected(ops)
  {
    if ops != [] {
      var before, op := ops[..|ops| - 1], ops[|ops| - 1];
      CountingIsExact(before);
      LastCallsExact(ops);
    }
  }

  lemma LastCallsExact(ops: seq<Op>)
    requires ops != [] && After(ops).Some? && After(ops[..|ops| - 1]).value.log == Expected(ops[..|ops| - 1])
    ensures After(ops).value.log == Expected(ops)
  {
    var before, op := ops[..|ops| - 1], ops[|ops| - 1];
    var st, was := After(before).value, PointsAt(before, op.h);
    RunMeans(before, op.h);
    match op
    case Opening(_, _) =>
    case Attach(db, _, _) => RunMeans(before, db);
    case _ =>
      if was.Some? {
        LettingGoCalls(st, op);
        InUseIsHeld(ops, was.value);
      }
  }

  /** Closing and finalising a handle that points at a record. */
  lemma LettingGoCalls(st: State, op: Op)
    requires Enabled(st, op) && NoDangling(st) && (op.Closing? || op.Finalising?) && st.live[op.h].target.Some?
    ensures var r, st' := st.live[op.h].target.value, Step(st, op);
      var released := if op.Finalising? && st.live[op.h].kind != DB then [Released(op.h, r)] else [];
      st'.log == st.log + (released + if r in st'.refs then [] else [Closed(r)])
  {
  }

  /** As long as a handle points at a database, however it came to do so, the database is open. */
  lemma OpenWhilePointedAt(ops: seq<Op>, h: Handle, r: DbRecord)
    requires After(ops).Some? && PointsAt(ops, h) == Some(r)
    ensures LivesAfter(ops, h)
    ensures Opened(r) in Expected(ops) && Closed(r) !in Expected(ops)
  {
    RunKeepsInv(ops);
    RunMeans(ops, h);
    CountingIsExact(ops);
    OpenMeans(Expected(ops));
  }

  lemma UserStays(st: State, op: Op, h: Handle)
    requires Enabled(st, op) && NoDangling(st) && h in st.live && st.live[h].kind != DB && op != Finalising(h)
    ensures h in Step(st, op).live && Step(st, op).live[h] == st.live[h]
  {
  }

  /** A transaction or iterator keeps the database that it was made from open until it is finalised itself. */
  lemma {:induction false} KeptOpenUntilFinalised(ops: seq<Op>, i: nat, db: Handle, h: Handle, kind: Kind)
    requires After(ops).Some? && i < |ops| && ops[i] == Attach(db, h, kind)
    requires forall j :: i < j < |ops| ==> ops[j] != Finalising(h)
    ensures var st, r := After(ops).value, PointsAt(ops[..i], db);
      && kind != DB && r.Some?
      && h in st.live && st.live[h] == Cell(kind, r) && Closed(r.value) !in st.log
  {
    var before := ops[..|ops| - 1];
    RunMeans(ops, h);
    if i < |before| {
      assert before[..i] == ops[..i];
      KeptOpenUntilFinalised(before, i, db, h, kind);
      UserStays(After(before).value, ops[|before|], h);
    } else {
      RunMeans(before, db);
    }
    OpenWhilePointedAt(ops, h, PointsAt(ops[..i], db).value);
    CountingIsExact(ops);
  }

  /** Giving up the reference before the object forgets the record comes to the same. */
  lemma CloseInOrder(st: State, h: Handle, r: DbRecord)
    requires Inv(st) && IsOpen(st, h) && st.live[h].target == Some(r)
    ensures r in st.refs
    ensures Unref(st, r).(live := st.live[h := Cell(DB, None)]) == Step(st, Closing(h))
    ensures Inv(Step(st, Closing(h)))
  {
    StepKeepsInv(st, Closing(h));
  }

  // ---------- the binding ----------

  /** The C functions. The ghost state follows them, and says what is allocated, live and done. */
  class Binding {
    ghost var state: State

    /** The reference counts and pointers in memory are those of the state. */
    ghost predicate Tied()
      reads this, state.refs.Keys, state.live.Keys
    {
      && (forall r :: r in state.refs ==> r.refCount == state.refs[r])
      && (forall h :: h in state.live ==>
            state.live[h] == Cell(h.kind, if h.data == null then None else Some(h.data)))
    }

    ghost predicate Valid()
      reads this, state.refs.Keys, state.live.Keys
    {
      Tied() && Inv(state)
    }

    constructor ()
      ensures Valid() && state == START
    {
      state := START;
      new;
      RunKeepsInv([]);
    }

    /** `db_ref` */
    method DbRef(db: DbRecord)
      requires Tied() && db in state.refs
      modifies this, db
      ensures Tied() && state == Ref(old(state), db)
      ensures db.refCount == old(db.refCount) + 1
    {
      db.refCount := db.refCount + 1;
      state := Ref(state, db);
    }

    /** `db_unref`: with the last reference the database is closed and the record freed. */
    method DbUnref(db: DbRecord)
      requires Tied() && db in state.refs
      modifies this, db
      ensures Tied() && state == Unref(old(state), db) && state.live == old(state.live)
      ensures db.refCount == old(db.refCount) - 1
      ensures if old(db.refCount) == 1 then db !in state.refs && state.log == old(state.log) + [Closed(db)]
              else db in state.refs && state.log == old(state.log)
    {
      db.refCount := db.refCount - 1;
      if db.refCount == 0 {
        state := state.(refs := state.refs - {db}, log := state.log + [Closed(db)]);
      } else {
        state := state.(refs := state.refs[db := db.refCount]);
      }
    }

    /** `db_s_open`; `opens` says whether librpm can open the database. */
    method Open(opens: bool) returns (db: Result<Handle>)
      requires Valid()
      modifies this
      ensures Valid()
      ensures !opens ==> db == Err(RuntimeError) && state == old(state)
      ensures opens ==> db.Ok? && db.value.data != null && fresh({db.value, db.value.data})
      ensures opens ==> Enabled(old(state), Opening(db.value, db.value.data))
      ensures opens ==> state == Step(old(state), Opening(db.value, db.value.data))
      ensures opens ==> db.value in state.live && db.value.kind == DB && db.value.data.refCount == 1
    {
      if !opens {
        return Err(RuntimeError);
      }
      ghost var before := state;
      var rdb := new DbRecord();
      state := state.(refs := state.refs[rdb := 0], log := state.log + [Opened(rdb)]);
      DbRef(rdb);
      var h := new Handle(DB, rdb);
      state := state.(live := state.live[h := Cell(DB, Some(rdb))]);
      StepKeepsInv(before, Opening(h, rdb));
      db := Ok(h);
    }

    /** `rpm_db_close`, for a database that is not closed yet. */
    method Close(db: Handle)
      requires Valid() && IsOpen(state, db)
      modifies this, db, db.data
      ensures Valid() && state == Step(old(state), Closing(db))
      ensures db.data == null && old(db.data).refCount == old(db.data.refCount) - 1
    {
      ghost var before := state;
      CloseInOrder(before, db, db.data);
      DbUnref(db.data);
      Forget(db);
      assert state == Step(before, Closing(db));
    }

    /** `DATA_PTR(db) = NULL` */
    method Forget(db: Handle)
      requires Tied() && db in state.live && db.kind == DB
      modifies this, db
      ensures Tied() && state == old(state).(live := old(state).live[db := Cell(DB, None)])
    {
      db.data := null;
      state := state.(live := state.live[db := Cell(DB, None)]);
    }

    /** The part of `rpm_db_transaction` that makes the transaction object, for a database that is not closed. */
    method NewTransaction(db: Handle) returns (trans: Handle)
      requires Valid() && IsOpen(state, db)
      modifies this, db.data
      ensures Valid() && fresh(trans)
      ensures Enabled(old(state), Attach(db, trans, Transaction))
      ensures state == Step(old(state), Attach(db, trans, Transaction))
      ensures trans in state.live && trans.kind == Transaction
      ensures trans.data == db.data == old(db.data) && db.data.refCount == old(db.data.refCount) + 1
    {
      trans := MakeUser(db, Transaction);
    }

    /** `rpm_db_init_iterator`; `matches` says whether librpm returns an iterator. */
    method InitIterator(db: Handle, matches: bool) returns (mi: Result<Option<Handle>>)
      requires Valid() && db in state.live && db.kind == DB
      modifies this, db.data
      ensures Valid()
      ensures old(db.data) == null ==> mi == Err(RuntimeError) && state == old(state)
      ensures old(db.data) != null && !matches ==> mi == Ok(None) && state == old(state)
      ensures old(db.data) != null && matches ==> mi.Ok? && mi.value.Some? && fresh(mi.value.value)
      ensures old(db.data) != null && matches ==> Enabled(old(state), Attach(db, mi.value.value, MatchIterator))
      ensures old(db.data) != null && matches ==> state == Step(old(state), Attach(db, mi.value.value, MatchIterator))
      ensures old(db.data) != null && matches ==>
        && mi.value.value in state.live && mi.value.value.kind == MatchIterator
        && mi.value.value.data == db.data == old(db.data) && db.data.refCount == old(db.data.refCount) + 1
    {
      if db.data == null {
        return Err(RuntimeError);
      }
      if !matches {
        return Ok(None);
      }
      var h := MakeUser(db, MatchIterator);
      mi := Ok(Some(h));
    }

    /** A librpm object is allocated, and its handle takes a reference to the record. */
    method MakeUser(db: Handle, kind: Kind) returns (h: Handle)
      requires Valid() && IsOpen(state, db) && kind != DB
      modifies this, db.data
      ensures Valid() && fresh(h)
      ensures Enabled(old(state), Attach(db, h, kind))
      ensures state == Step(old(state), Attach(db, h, kind))
      ensures h in state.live && h.kind == kind
      ensures h.data == db.data == old(db.data) && db.data.refCount == old(db.data.refCount) + 1
    {
      ghost var before := state;
      assert state.live[db].target == Some(db.data);
      h := new Handle(kind, db.data);
      state := state.(live := state.live[h := Cell(kind, Some(db.data))], log := state.log + [Created(h, db.data)]);
      DbRef(db.data);
      StepKeepsInv(before, Attach(db, h, kind));
    }

    /** `db_free`, `transaction_free` and `mi_free`, as the garbage collector calls them. */
    method Finalise(h: Handle)
      requires Valid() && h in state.live
      modifies this, h.data
      ensures Valid() && state == Step(old(state), Finalising(h))
      ensures h !in state.live
      ensures old(h.data) != null ==> old(h.data).refCount == old(h.data.refCount) - 1
    {
      StepKeepsInv(state, Finalising(h));
      assert state.live[h] == Cell(h.kind, if h.data == null then None else Some(h.data));
      state := state.(live := state.live - {h});
      if h.kind == DB {
        if h.data != null {
          DbUnref(h.data);
        }
      } else {
        state := state.(log := state.log + [Released(h, h.data)]);
        DbUnref(h.data);
      }
    }
  }
}
