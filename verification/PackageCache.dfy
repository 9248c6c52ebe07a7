/** The weak table from header signatures to package objects, and the links that keep headers in memory. */
module PackageCache {
  import opened Outcomes
  import opened VersionText
  import opened Headers

  const NO_SIGNATURE := "(none)"

  /** A Ruby package object, wrapped around one header. */
  class Package {
    const hdr: Header

    constructor (hdr: Header)
      ensures this.hdr == hdr
    {
      this.hdr := hdr;
    }
  }

  /** Interned signatures are numbers; an unsigned package is entered under nil, which no number equals. */
  datatype Key = Nil | Signature(sigmd5: string)

  function KeyOf(h: Header): Key {
    if h.sigmd5 != NO_SIGNATURE then Signature(h.sigmd5) else Nil
  }

  // ---------- states and steps ----------

  type Table = map<Key, Package>

  /**
   * `table` is None while the cache is off. `links` has the headers in memory with their link counts; `held`
   * says how many of them belong to somebody else than a package object: a reader, an iterator, a transaction
   * element, or nobody any more after `Package.create`.
   */
  datatype State = State(table: Option<Table>, live: set<Package>, links: map<Header, int>, held: multiset<Header>)

  /** As the extension is loaded, the cache is switched on. */
  ghost const START := State(Some(map[]), {}, map[], multiset{})

  datatype Op =
    | Acquire(h: Header)
    | Hold(h: Header)
    | Wrap(h: Header, p: Package)
    | Drop(h: Header)
    | Finalise(p: Package)
    | Clear
    | Enable

  /** The object that the table has for the signature of a header. */
  ghost function Lookup(st: State, h: Header): Option<Package> {
    if st.table.Some? && KeyOf(h) != Nil && KeyOf(h) in st.table.value then Some(st.table.value[KeyOf(h)]) else None
  }

  ghost function HeaderFree(st: State, h: Header): State
    requires h in st.links
  {
    if st.links[h] - 1 == 0 then st.(links := st.links - {h}) else st.(links := st.links[h := st.links[h] - 1])
  }

  /**
   * New headers are new, any header in memory can be held once more, packages are made from headers that somebody
   * holds, objects are new when made and finalised once, and the cache is cleared when on.
   */
  ghost predicate Enabled(st: State, op: Op) {
    match op
    case Acquire(h) => h !in st.links && h !in st.held && forall p :: p in st.live ==> p.hdr != h
    case Hold(h) => h in st.links
    case Wrap(h, p) => h in st.held && h in st.links && p !in st.live && p.hdr == h
    case Drop(h) => h in st.held && h in st.links
    case Finalise(p) => p in st.live && p.hdr in st.links
    case Clear => st.table.Some?
    case Enable => true
  }

  ghost function Step(st: State, op: Op): State
    requires Enabled(st, op)
  {
    match op
    case Acquire(h) => st.(links := st.links[h := 1], held := st.held + multiset{h})
    case Hold(h) => st.(links := st.links[h := st.links[h] + 1], held := st.held + multiset{h})
    case Wrap(h, p) =>
      if Lookup(st, h).Some? then st
      else State(if st.table.Some? then Some(st.table.value[KeyOf(h) := p]) else None,
        st.live + {p}, st.links[h := st.links[h] + 1], st.held)
    case Drop(h) => HeaderFree(st.(held := st.held - multiset{h}), h)
    case Finalise(p) =>
      var table := if st.table.Some? && KeyOf(p.hdr) != Nil then Some(st.table.value - {KeyOf(p.hdr)}) else st.table;
      HeaderFree(st.(table := table, live := st.live - {p}), p.hdr)
    case Clear => st.(table := None)
    case Enable => if st.table.None? then st.(table := Some(map[])) else st
  }

  // ---------- invariant ----------

  ghost function Wrappers(st: State, h: Header): set<Package> {
    set p | p in st.live && p.hdr == h
  }

  /** An entry under a signature points at a live package with that signature. */
  ghost predicate EntriesLive(st: State) {
    st.table.Some? ==> forall k :: k in st.table.value && k != Nil ==>
      st.table.value[k] in st.live && KeyOf(st.table.value[k].hdr) == k
  }

  /** The links a header should have: one from each package around it, and one for each time it is held. */
  ghost function Due(st: State, h: Header): int {
    |Wrappers(st, h)| + st.held[h]
  }

  ghost predicate Present(st: State) {
    (forall h :: h in st.held ==> h in st.links) && (forall p :: p in st.live ==> p.hdr in st.links)
  }

  ghost predicate LinksCounted(st: State) {
    Present(st) && forall h :: h in st.links ==> st.links[h] == Due(st, h) > 0
  }

  ghost predicate Inv(st: State) {
    EntriesLive(st) && LinksCounted(st)
  }

  lemma StepKeepsEntries(st: State, op: Op)
    requires Inv(st) && Enabled(st, op)
    ensures EntriesLive(Step(st, op))
  {
  }

  /** A link to `h` is about to be given up: its count is one too high. */
  ghost predicate OneTooMany(st: State, h: Header) {
    && Present(st) && h in st.links && st.links[h] == Due(st, h) + 1
    && forall g :: g in st.links && g != h ==> st.links[g] == Due(st, g) > 0
  }

  lemma FreeRestores(st: State, h: Header)
    requires OneTooMany(st, h)
    ensures LinksCounted(HeaderFree(st, h))
  {
    var st' := HeaderFree(st, h);
    assert forall g :: Wrappers(st', g) == Wrappers(st, g);
    if st.links[h] == 1 {
      forall p | p in st.live ensures p.hdr != h {
        assert p.hdr == h ==> p in Wrappers(st, h);
      }
    }
  }

  /** Packages that come or go change the count of their own header only. */
  lemma OneWrapper(without: State, with: State, p: Package)
    requires p !in without.live && with.live == without.live + {p}
    ensures |Wrappers(with, p.hdr)| == |Wrappers(without, p.hdr)| + 1
    ensures forall g :: g != p.hdr ==> Wrappers(with, g) == Wrappers(without, g)
  {
    assert Wrappers(with, p.hdr) == Wrappers(without, p.hdr) + {p};
  }

  lemma AcquireKeeps(st: State, h: Header)
    requires LinksCounted(st) && Enabled(st, Acquire(h))
    ensures LinksCounted(Step(st, Acquire(h)))
  {
    var st' := Step(st, Acquire(h));
    assert Wrappers(st, h) == {};
    assert forall g :: Wrappers(st', g) == Wrappers(st, g);
  }

  lemma HoldKeeps(st: State, h: Header)
    requires LinksCounted(st) && Enabled(st, Hold(h))
    ensures LinksCounted(Step(st, Hold(h)))
  {
    assert forall g :: Wrappers(Step(st, Hold(h)), g) == Wrappers(st, g);
  }

  lemma WrapKeeps(st: State, h: Header, p: Package)
    requires LinksCounted(st) && Enabled(st, Wrap(h, p))
    ensures LinksCounted(Step(st, Wrap(h, p)))
  {
    if Lookup(st, h).None? {
      OneWrapper(st, Step(st, Wrap(h, p)), p);
    }
  }

  lemma DropKeeps(st: State, h: Header)
    requires LinksCounted(st) && Enabled(st, Drop(h))
    ensures LinksCounted(Step(st, Drop(h)))
  {
    var mid := st.(held := st.held - multiset{h});
    assert forall g :: Wrappers(mid, g) == Wrappers(st, g);
    FreeRestores(mid, h);
  }

  lemma FinaliseKeeps(st: State, p: Package)
    requires LinksCounted(st) && Enabled(st, Finalise(p))
    ensures LinksCounted(Step(st, Finalise(p)))
  {
    var mid := st.(table := Step(st, Finalise(p)).table, live := st.live - {p});
    OneWrapper(mid, st, p);
    FreeRestores(mid, p.hdr);
  }

  lemma StepKeepsInv(st: State, op: Op)
    requires Inv(st) && Enabled(st, op)
    ensures Inv(Step(st, op))
  {
    StepKeepsEntries(st, op);
    match op
    case Acquire(h) => AcquireKeeps(st, h);
    case Hold(h) => HoldKeeps(st, h);
    case Wrap(h, p) => WrapKeeps(st, h, p);
    case Drop(h) => DropKeeps(st, h);
    case Finalise(p) => FinaliseKeeps(st, p);
    case _ =>
      assert forall g :: Wrappers(Step(st, op), g) == Wrappers(st, g);
  }

  // ---------- whole runs ----------

  /** The state after a run from the start; `None` if some step was not possible. */
  ghost function After(ops: seq<Op>): Option<State> {
    if ops == [] then Some(START)
    else
      var before, op := After(ops[..|ops| - 1]), ops[|ops| - 1];
      if before.Some? && Enabled(before.value, op) then Some(Step(before.value, op)) else None
  }

  lemma {:induction false} RunKeepsInv(ops: seq<Op>)
    requires After(ops).Some?
    ensures Inv(After(ops).value)
  {
    if ops != [] {
      RunKeepsInv(ops[..|ops| - 1]);
      StepKeepsInv(After(ops[..|ops| - 1]).value, ops[|ops| - 1]);
    }
  }

  // ---------- what a run means ----------

  /** The cache is on unless it was cleared and not enabled since. */
  ghost predicate CacheOn(ops: seq<Op>) {
    ops == [] || ops[|ops| - 1] == Enable || (ops[|ops| - 1] != Clear && CacheOn(ops[..|ops| - 1]))
  }

  /**
   * The object known under a signature: the first one made for it while the cache was on, until the cache is cleared or
   * some object with that signature is freed.
   */
  ghost function Known(ops: seq<Op>, k: Key): Option<Package> {
    if ops == [] || k == Nil then None
    else
      var before, op := ops[..|ops| - 1], ops[|ops| - 1];
      if op == Clear || (op.Finalise? && KeyOf(op.p.hdr) == k) then None
      else if op.Wrap? && KeyOf(op.h) == k && Known(before, k).None? && CacheOn(before) then Some(op.p)
      else Known(before, k)
  }

  /** An object is made by a wrapping for which none is known. */
  ghost predicate Makes(ops: seq<Op>, i: nat, p: Package)
    requires i < |ops|
  {
    ops[i].Wrap? && ops[i].p == p && Known(ops[..i], KeyOf(ops[i].h)).None?
  }

  /** Made in this run, and not freed afterwards. */
  ghost predicate LivesAfter(ops: seq<Op>, p: Package) {
    exists i :: 0 <= i < |ops| && Makes(ops, i, p) && forall j :: i < j < |ops| ==> ops[j] != Finalise(p)
  }

  /** How often the header was acquired or held, less how often it was dropped. */
  ghost function HeldBy(ops: seq<Op>, h: Header): int {
    if ops == [] then 0
    else
      var op := ops[|ops| - 1];
      HeldBy(ops[..|ops| - 1], h) + if op == Acquire(h) || op == Hold(h) then 1 else if op == Drop(h) then -1 else 0
  }

  lemma LivesOn(before: seq<Op>, op: Op, p: Package)
    ensures LivesAfter(before + [op], p) <==>
      Makes(before + [op], |before|, p) || (LivesAfter(before, p) && op != Finalise(p))
  {
    var ops := before + [op];
    assert forall i :: 0 <= i < |before| ==> ops[..i] == before[..i];
    if LivesAfter(before, p) && op != Finalise(p) {
      var i :| 0 <= i < |before| && Makes(before, i, p) && forall j :: i < j < |before| ==> before[j] != Finalise(p);
      assert Makes(ops, i, p);
    }
    if LivesAfter(ops, p) && !Makes(ops, |before|, p) {
      var i :| 0 <= i < |ops| && Makes(ops, i, p) && forall j :: i < j < |ops| ==> ops[j] != Finalise(p);
      assert i < |before| && Makes(before, i, p);
      assert ops[|before|] != Finalise(p);
      assert forall j :: i < j < |before| ==> before[j] == ops[j];
    }
  }

  ghost function EntryOf(st: State, k: Key): Option<Package> {
    if st.table.Some? && k in st.table.value then Some(st.table.value[k]) else None
  }

  /** What one step does to the entry under a signature. */
  lemma StepEntry(st: State, op: Op, k: Key)
    requires Enabled(st, op) && k != Nil
    ensures EntryOf(Step(st, op), k) ==
      if op == Clear || (op.Finalise? && KeyOf(op.p.hdr) == k) then None
      else if op.Wrap? && KeyOf(op.h) == k && EntryOf(st, k).None? && st.table.Some? then Some(op.p)
      else EntryOf(st, k)
  {
  }

  /** After any run: the table, for every signature. */
  lemma {:induction false} TableMeans(ops: seq<Op>, k: Key)
    requires After(ops).Some? && k != Nil
    ensures var st := After(ops).value;
      && (st.table.Some? <==> CacheOn(ops))
      && Known(ops, k) == EntryOf(st, k)
  {
    if ops != [] {
      var before := ops[..|ops| - 1];
      TableMeans(before, k);
      StepEntry(After(before).value, ops[|before|], k);
    }
  }

  /** After any run: which objects are alive. */
  lemma {:induction false} LiveMeans(ops: seq<Op>, p: Package)
    requires After(ops).Some?
    ensures p in After(ops).value.live <==> LivesAfter(ops, p)
  {
    if ops != [] {
      var before, op := ops[..|ops| - 1], ops[|ops| - 1];
      LiveMeans(before, p);
      LivesOn(before, op, p);
      assert ops == before + [op] && ops[..|before|] == before;
      if op.Wrap? {
        LookupMeans(before, op.h);
      }
      StepLive(After(before).value, op, p);
    }
  }

  lemma StepLive(st: State, op: Op, p: Package)
    requires Enabled(st, op)
    ensures p in Step(st, op).live <==>
      (op.Wrap? && op.p == p && Lookup(st, op.h).None?) || (p in st.live && op != Finalise(p))
  {
  }

  lemma LookupMeans(ops: seq<Op>, h: Header)
    requires After(ops).Some?
    ensures Lookup(After(ops).value, h) == Known(ops, KeyOf(h))
  {
    if KeyOf(h) != Nil {
      TableMeans(ops, KeyOf(h));
    }
  }

  /** After any run: who else holds a header. */
  lemma {:induction false} HeldMeans(ops: seq<Op>, h: Header)
    requires After(ops).Some?
    ensures After(ops).value.held[h] == HeldBy(ops, h)
  {
    if ops != [] {
      HeldMeans(ops[..|ops| - 1], h);
    }
  }

  /** Asking for a header after any run delivers the object known under its signature, else a new one. */
  lemma DeliversKnown(ops: seq<Op>, h: Header, p: Package)
    requires After(ops).Some?
    ensures var known := Known(ops, KeyOf(h));
      Delivered(After(ops).value, h, p) == if known.Some? then known.value else p
  {
    LookupMeans(ops, h);
  }

  /** The package that asking for a header delivers: the one in the table, or the new one. */
  ghost function Delivered(st: State, h: Header, p: Package): Package {
    if Lookup(st, h).Some? then Lookup(st, h).value else p
  }

  /**
   * After any run, with the cache cleared and switched on again as one likes, the package delivered for a header
   * is alive, and has that very header or at least its signature.
   */
  lemma NeverDeliversFreed(ops: seq<Op>, h: Header, p: Package)
    requires After(ops).Some? && Enabled(After(ops).value, Wrap(h, p))
    ensures var st := After(ops).value;
      && Delivered(st, h, p) in Step(st, Wrap(h, p)).live
      && Delivered(st, h, p).hdr.sigmd5 == h.sigmd5
      && (h.sigmd5 == NO_SIGNATURE ==> Delivered(st, h, p) == p)
  {
    RunKeepsInv(ops);
  }

  /**
   * After any run, a header in memory has one link from each package around it and one for each time it is held; and
   * one that nobody holds is in memory exactly while there is a package around it.
   */
  lemma ReclaimedWhenUnwrapped(ops: seq<Op>, h: Header)
    requires After(ops).Some?
    ensures var st := After(ops).value;
      && (h in st.held ==> h in st.links)
      && (h in st.links ==> st.links[h] == |Wrappers(st, h)| + st.held[h])
      && (h !in st.held ==> (h in st.links <==> Wrappers(st, h) != {}))
  {
    var st := After(ops).value;
    RunKeepsInv(ops);
    if Wrappers(st, h) != {} {
      var p :| p in Wrappers(st, h);
      assert p.hdr in st.links;
    }
  }

  // ---------- open and load ----------

  /** `open` and `load` acquire a header, wrap it and drop it. */
  ghost function AfterReading(st: State, h: Header, p: Package): State
    requires Inv(st) && Enabled(st, Acquire(h)) && p !in st.live && p.hdr == h
  {
    var s1 := Step(st, Acquire(h));
    var s2 := Step(s1, Wrap(h, p));
    Step(s2, Drop(h))
  }

  /** On a hit nothing remains of the header that was read; on a miss exactly the new package keeps it. */
  lemma ReadingKeepsOneLink(st: State, h: Header, p: Package)
    requires Inv(st) && Enabled(st, Acquire(h)) && p !in st.live && p.hdr == h
    ensures var st' := AfterReading(st, h, p);
      && Inv(st')
      && (Lookup(st, h).Some? ==> st' == st)
      && (Lookup(st, h).None? ==> h in st'.links && st'.links[h] == 1 && Wrappers(st', h) == {p} && st'.held == st.held)
  {
    AfterReadingKeepsInv(st, h, p);
    if Lookup(st, h).Some? {
      HitLeavesNothing(st, h);
    } else {
      MissLeavesOneLink(st, h, p);
    }
  }

  /** A header that was read, not wrapped, and dropped. */
  lemma HitLeavesNothing(st: State, h: Header)
    requires Enabled(st, Acquire(h))
    ensures Step(Step(st, Acquire(h)), Drop(h)) == st
  {
    var s1 := Step(st, Acquire(h));
    assert s1.links - {h} == st.links && s1.held - multiset{h} == st.held;
  }

  lemma MissLeavesOneLink(st: State, h: Header, p: Package)
    requires Inv(st) && Enabled(st, Acquire(h)) && p !in st.live && p.hdr == h && Lookup(st, h).None?
    ensures var st' := AfterReading(st, h, p);
      h in st'.links && st'.links[h] == 1 && Wrappers(st', h) == {p} && st'.held == st.held
  {
    assert st.held + multiset{h} - multiset{h} == st.held;
    OnlyWrapper(st, AfterReading(st, h, p), p);
  }

  lemma OnlyWrapper(st: State, st': State, p: Package)
    requires st'.live == st.live + {p} && forall q :: q in st.live ==> q.hdr != p.hdr
    ensures Wrappers(st', p.hdr) == {p}
  {
  }

  lemma AfterReadingKeepsInv(st: State, h: Header, p: Package)
    requires Inv(st) && Enabled(st, Acquire(h)) && p !in st.live && p.hdr == h
    ensures Inv(AfterReading(st, h, p))
  {
    var s1 := Step(st, Acquire(h));
    StepKeepsInv(st, Acquire(h));
    StepKeepsInv(s1, Wrap(h, p));
    StepKeepsInv(Step(s1, Wrap(h, p)), Drop(h));
  }

  /** Reading delivered the object in the table and left all as it was, or delivered a new object and nothing else. */
  ghost predicate WasRead(before: State, after: State, sigmd5: string, p: Package) {
    && Inv(before) && p in after.live && p.hdr.sigmd5 == sigmd5
    && if Lookup(before, p.hdr).Some? then p == Lookup(before, p.hdr).value && after == before
       else Enabled(before, Acquire(p.hdr)) && p !in before.live && after == AfterReading(before, p.hdr, p)
  }

  // ---------- one object for one signature ----------

  ghost predicate Signed(p: Package) {
    p.hdr.sigmd5 != NO_SIGNATURE
  }

  /** With the entries being live, this makes the table the map from signatures to live packages. */
  ghost predicate Exact(st: State) {
    st.table.Some? && forall p :: p in st.live && Signed(p) ==>
      KeyOf(p.hdr) in st.table.value && st.table.value[KeyOf(p.hdr)] == p
  }

  /** Without clearing, the table is exact after any run. */
  lemma {:induction false} ExactUntilCleared(ops: seq<Op>)
    requires After(ops).Some? && Clear !in ops
    ensures Exact(After(ops).value)
  {
    if ops != [] {
      var before := ops[..|ops| - 1];
      ExactUntilCleared(before);
      RunKeepsInv(before);
      assert ops[|ops| - 1] in ops;
      StepKeepsExact(After(before).value, ops[|ops| - 1]);
    }
  }

  lemma StepKeepsExact(st: State, op: Op)
    requires Inv(st) && Exact(st) && Enabled(st, op) && op != Clear
    ensures Exact(Step(st, op))
  {
  }

  /** In an exact table a signature has one live object, and asking for it again delivers that object. */
  lemma OneObjectForOneSignature(st: State, p: Package, q: Package)
    requires Inv(st) && Exact(st) && p in st.live && Signed(p)
    ensures q in st.live && q.hdr.sigmd5 == p.hdr.sigmd5 ==> q == p
    ensures forall h :: h in st.held && h.sigmd5 == p.hdr.sigmd5 ==> Delivered(st, h, q) == p
  {
  }

  /** Clearing the cache and switching it on again does no harm exactly when no signed package is alive. */
  lemma ClearingIsSafeExactly(st: State)
    requires Inv(st) && Exact(st)
    ensures Exact(Step(Step(st, Clear), Enable)) <==> forall p :: p in st.live ==> !Signed(p)
  {
  }

  ghost predicate SomeSignedLives(st: State) {
    exists p :: p in st.live && Signed(p)
  }

  /** At every moment of the run at which the cache is on, the table is exact. */
  ghost predicate ExactThroughout(ops: seq<Op>) {
    && (ops == [] || ExactThroughout(ops[..|ops| - 1]))
    && (After(ops).Some? && After(ops).value.table.Some? ==> Exact(After(ops).value))
  }

  /** Whenever the run switches the cache on that was off, no signed package is alive. */
  ghost predicate SwitchedOnAlone(ops: seq<Op>) {
    ops == [] ||
      var before, op := ops[..|ops| - 1], ops[|ops| - 1];
      && SwitchedOnAlone(before)
      && (op == Enable && After(before).Some? && After(before).value.table.None? ==>
            !SomeSignedLives(After(before).value))
  }

  /**
   * For every run, clearing where it likes: the table is exact all the time if and only if it is never switched on
   * too early.
   */
  lemma {:induction false} ExactThroughoutExactly(ops: seq<Op>)
    requires After(ops).Some?
    ensures ExactThroughout(ops) <==> SwitchedOnAlone(ops)
  {
    if ops != [] {
      var before, op := ops[..|ops| - 1], ops[|ops| - 1];
      var st := After(before).value;
      ExactThroughoutExactly(before);
      RunKeepsInv(before);
      if st.table.Some? && Exact(st) && op != Clear {
        StepKeepsExact(st, op);
      }
    }
  }

  /** The cache is cleared and switched on again, and a package made for a header. */
  ghost function Reset(st: State): State
    requires Enabled(st, Clear)
  {
    Step(Step(st, Clear), Enable)
  }

  ghost function ResetAndWrap(st: State, q: Package): State
    requires Enabled(st, Clear) && Enabled(st, Wrap(q.hdr, q))
  {
    Step(Reset(st), Wrap(q.hdr, q))
  }

  /**
   * What happens otherwise: p lives, the cache is cleared, a second object q is made for its signature. Freeing p
   * removes the entry of q, and a third object r is made although q lives.
   */
  lemma ClearingForgets(st: State, p: Package, q: Package, r: Package)
    requires Inv(st) && Exact(st) && p in st.live && Signed(p)
    requires Enabled(st, Wrap(q.hdr, q)) && Enabled(st, Wrap(r.hdr, r)) && q != r
    requires q.hdr.sigmd5 == r.hdr.sigmd5 == p.hdr.sigmd5
    ensures Delivered(Reset(st), q.hdr, q) == q
    ensures {p, q} <= ResetAndWrap(st, q).live && Delivered(ResetAndWrap(st, q), r.hdr, r) == q
    ensures Forgotten(ResetAndWrap(st, q), p, q, r)
  {
    ResetKeepsInv(st, q);
    ResetTable(st, q);
    FreeingForgets(ResetAndWrap(st, q), p, q, r);
  }

  /** p can be freed; q stays alive, but r is delivered for its signature, and then both live. */
  ghost predicate Forgotten(st: State, p: Package, q: Package, r: Package) {
    Enabled(st, Finalise(p)) &&
      var freed := Step(st, Finalise(p));
      && Inv(freed) && q in freed.live && Delivered(freed, r.hdr, r) == r
      && Enabled(freed, Wrap(r.hdr, r)) && {q, r} <= Step(freed, Wrap(r.hdr, r)).live
  }

  /** After the reset q is the only entry. */
  lemma ResetTable(st: State, q: Package)
    requires Enabled(st, Clear) && Enabled(st, Wrap(q.hdr, q))
    ensures Lookup(Reset(st), q.hdr) == None
    ensures ResetAndWrap(st, q) ==
      State(Some(map[KeyOf(q.hdr) := q]), st.live + {q}, st.links[q.hdr := st.links[q.hdr] + 1], st.held)
  {
  }

  /** Freeing a package removes the entry under its signature, also when that belongs to another one. */
  lemma FreeingForgets(st: State, p: Package, q: Package, r: Package)
    requires Inv(st) && st.table.Some? && {p, q} <= st.live && p != q && Signed(p)
    requires Enabled(st, Wrap(r.hdr, r)) && r.hdr.sigmd5 == p.hdr.sigmd5
    ensures Forgotten(st, p, q, r)
  {
    StepKeepsInv(st, Finalise(p));
  }

  lemma ResetKeepsInv(st: State, q: Package)
    requires Inv(st) && Enabled(st, Clear) && Enabled(st, Wrap(q.hdr, q))
    ensures Inv(ResetAndWrap(st, q))
  {
    StepKeepsInv(st, Clear);
    StepKeepsInv(Step(st, Clear), Enable);
    StepKeepsInv(Reset(st), Wrap(q.hdr, q));
  }

  // ---------- the binding ----------

  datatype RubyValue = True | False | Other

  /** What librpm says of a package file. */
  datatype ReadStatus = OK | NOTTRUSTED | NOKEY | NOTFOUND | FAIL

  /** The C functions around the global `tbl`; the ghost state follows them. */
  class Binding {
    var tbl: Option<Table>
    ghost var state: State

    /** The table and the link counts in memory are those of the state. */
    ghost predicate Tied()
      reads this, state.links.Keys
    {
      tbl == state.table && forall h :: h in state.links ==> h.links == state.links[h]
    }

    ghost predicate Valid()
      reads this, state.links.Keys
    {
      Tied() && Inv(state)
    }

    /** `Init_rpm_package` switches the cache on. */
    constructor ()
      ensures Valid() && state == START
    {
      tbl := Some(map[]);
      state := START;
      new;
      RunKeepsInv([]);
    }

    /** `package_clear_cache`, for a cache that is on. */
    method ClearCache()
      requires Valid() && tbl.Some?
      modifies this
      ensures Valid() && state == Step(old(state), Clear) && tbl == None
    {
      StepKeepsInv(state, Clear);
      tbl := None;
      state := state.(table := None);
    }

    /** `package_use_cache` */
    method UseCache(b: RubyValue)
      requires Valid() && (b == False ==> tbl.Some?)
      modifies this
      ensures Valid()
      ensures state == match b
        case True => Step(old(state), Enable)
        case False => Step(old(state), Clear)
        case Other => old(state)
    {
      if b == True && tbl == None {
        StepKeepsInv(state, Enable);
        tbl := Some(map[]);
        state := state.(table := tbl);
      } else if b == False {
        ClearCache();
      }
    }

    /** `headerFree` */
    method FreeHeader(h: Header)
      requires Tied() && h in state.links && h.links > 0
      modifies this`state, h`links
      ensures Tied() && state == HeaderFree(old(state), h) && h.links == old(h.links) - 1
    {
      h.links := h.links - 1;
      state := HeaderFree(state, h);
    }

    /** `headerFree` by somebody who held the header. */
    method DropHeader(h: Header)
      requires Valid() && Enabled(state, Drop(h))
      modifies this`state, h`links
      ensures Valid() && state == Step(old(state), Drop(h)) && h.links == old(h.links) - 1
    {
      StepKeepsInv(state, Drop(h));
      state := state.(held := state.held - multiset{h});
      FreeHeader(h);
    }

    /** `headerLink` by somebody else than a package object, such as librpm for an element of a transaction. */
    method HoldHeader(h: Header)
      requires Valid() && Enabled(state, Hold(h))
      modifies this`state, h`links
      ensures Valid() && state == Step(old(state), Hold(h)) && h.links == old(h.links) + 1
    {
      StepKeepsInv(state, Hold(h));
      h.links := h.links + 1;
      state := Step(state, Hold(h));
    }

    /** `package_new_from_header`, for a header that the caller holds, or NULL. */
    method NewFromHeader(hdr: Header?) returns (p: Option<Package>)
      requires Valid() && (hdr != null ==> hdr in state.held)
      modifies this, if hdr == null then {} else {hdr}
      ensures Valid()
      ensures hdr == null ==> p == None && state == old(state)
      ensures hdr != null ==> hdr.entries == old(hdr.entries)
      ensures hdr != null && Lookup(old(state), hdr).Some? ==> p == Lookup(old(state), hdr) && state == old(state)
      ensures hdr != null && Lookup(old(state), hdr).None? ==> p.Some? && fresh(p.value)
      ensures hdr != null && Lookup(old(state), hdr).None? ==>
        Enabled(old(state), Wrap(hdr, p.value)) && state == Step(old(state), Wrap(hdr, p.value))
      ensures hdr != null && Lookup(old(state), hdr).None? ==>
        p.value in state.live && p.value.hdr == hdr && hdr.links == old(hdr.links) + 1
    {
      p := None;
      if hdr == null {
        return;
      }
      var signature := Nil;
      if tbl.Some? {
        if hdr.sigmd5 != NO_SIGNATURE {
          signature := Signature(hdr.sigmd5);
          if signature in tbl.value {
            p := Some(tbl.value[signature]);
          }
        }
      }
      if p.None? {
        var made := MakePackage(hdr, signature);
        p := Some(made);
      }
    }

    /** Its second half: a new object takes a link and is entered, under nil if it is unsigned. */
    method MakePackage(hdr: Header, signature: Key) returns (p: Package)
      requires Valid() && hdr in state.held && Lookup(state, hdr).None?
      requires tbl.Some? ==> signature == KeyOf(hdr)
      modifies this, hdr`links
      ensures Valid() && fresh(p) && Enabled(old(state), Wrap(hdr, p)) && state == Step(old(state), Wrap(hdr, p))
    {
      ghost var before := state;
      hdr.links := hdr.links + 1;
      p := new Package(hdr);
      if tbl.Some? {
        tbl := Some(tbl.value[signature := p]);
      }
      state := Step(before, Wrap(hdr, p));
      StepKeepsInv(before, Wrap(hdr, p));
    }

    /** `package_free`, as the garbage collector calls it. */
    method PackageFree(p: Package)
      requires Valid() && p in state.live
      modifies this, p.hdr`links
      ensures Valid() && state == Step(old(state), Finalise(p))
      ensures p !in state.live && p.hdr.links == old(p.hdr.links) - 1
      ensures tbl == if old(tbl).Some? && p.hdr.sigmd5 != NO_SIGNATURE
                     then Some(old(tbl).value - {Signature(p.hdr.sigmd5)}) else old(tbl)
    {
      StepKeepsInv(state, Finalise(p));
      if tbl.Some? {
        if p.hdr.sigmd5 != NO_SIGNATURE {
          tbl := Some(tbl.value - {Signature(p.hdr.sigmd5)});
        }
      }
      state := state.(table := tbl, live := state.live - {p});
      FreeHeader(p.hdr);
    }

    /** A header that has just been read is wrapped, and the reader's link given up. */
    method WrapRead(sigmd5: string) returns (p: Package)
      requires Valid()
      modifies this
      ensures Valid() && WasRead(old(state), state, sigmd5, p)
    {
      ghost var before := state;
      var hdr := AcquireHeader(sigmd5);
      var wrapped := NewFromHeader(hdr);
      p := wrapped.value;
      HitLeavesNothing(before, hdr);
      DropHeader(hdr);
    }

    /** A header comes into memory, and whoever made it holds it. */
    method AcquireHeader(sigmd5: string) returns (hdr: Header)
      requires Valid()
      modifies this
      ensures Valid() && fresh(hdr) && hdr.sigmd5 == sigmd5 && hdr.entries == EMPTY
      ensures Enabled(old(state), Acquire(hdr)) && state == Step(old(state), Acquire(hdr))
    {
      hdr := new Header(sigmd5);
      StepKeepsInv(state, Acquire(hdr));
      state := Step(state, Acquire(hdr));
    }

    /** `package_s_open`, from the point where librpm has tried to read the file. */
    method Open(status: ReadStatus, sigmd5: string) returns (p: Result<Package>)
      requires Valid()
      modifies this
      ensures Valid()
      ensures status in {NOTFOUND, FAIL} ==> p == Err(RuntimeError) && state == old(state)
      ensures status !in {NOTFOUND, FAIL} ==> p.Ok? && WasRead(old(state), state, sigmd5, p.value)
    {
      if status == NOTFOUND || status == FAIL {
        return Err(RuntimeError);
      }
      var package := WrapRead(sigmd5);
      p := Ok(package);
    }

    /** `package_s_load`, from the point where librpm has tried to read the dump. */
    method Load(readable: bool, sigmd5: string) returns (p: Result<Package>)
      requires Valid()
      modifies this
      ensures Valid()
      ensures !readable ==> p == Err(ArgumentError) && state == old(state)
      ensures readable ==> p.Ok? && WasRead(old(state), state, sigmd5, p.value)
    {
      if !readable {
        return Err(ArgumentError);
      }
      var package := WrapRead(sigmd5);
      p := Ok(package);
    }

    /** `package_s_create`: the link of the new header is never given up. */
    method CreatePackage(name: string, version: Version) returns (p: Result<Package>)
      requires Valid()
      modifies this
      ensures Valid()
      ensures p.Err? <==> version.r.None?
      ensures p.Err? ==> p.error == NilDereference && state == old(state)
      ensures p.Ok? ==> fresh(p.value) && fresh(p.value.hdr) && Ok(p.value.hdr.entries) == Create(name, version)
      ensures p.Ok? ==> p.value in state.live && p.value.hdr in state.held && state.links[p.value.hdr] == 2
    {
      if version.r.None? {
        return Err(NilDereference);
      }
      var hdr := AcquireHeader(NO_SIGNATURE);
      hdr.AppendString(NAME, name);
      hdr.AppendString(VERSION, version.v);
      hdr.AppendString(RELEASE, version.r.value);
      if version.e.Some? {
        hdr.AppendInt(EPOCH, version.e.value);
      }
      var package := NewFromHeader(hdr);
      p := Ok(package.value);
    }
  }
}
