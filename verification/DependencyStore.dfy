/** Dependencies in a package header: three parallel arrays for each kind, written and read in step. */
module DependencyStore {
  import opened Outcomes
  import opened CText
  import opened VersionText
  import opened Headers

  datatype Kind = Provide | Require | Conflict | Obsolete

  /** The three tags that the initialiser of each class sets. */
  function NameTag(kind: Kind): Tag {
    match kind
    case Provide => PROVIDENAME
    case Require => REQUIRENAME
    case Conflict => CONFLICTNAME
    case Obsolete => OBSOLETENAME
  }

  function VersionTag(kind: Kind): Tag {
    match kind
    case Provide => PROVIDEVERSION
    case Require => REQUIREVERSION
    case Conflict => CONFLICTVERSION
    case Obsolete => OBSOLETEVERSION
  }

  function FlagsTag(kind: Kind): Tag {
    match kind
    case Provide => PROVIDEFLAGS
    case Require => REQUIREFLAGS
    case Conflict => CONFLICTFLAGS
    case Obsolete => OBSOLETEFLAGS
  }

  /** A plain `RPM::Dependency` has no kind and no tags. Flags are any Ruby integer. */
  datatype Dependency = Dependency(kind: Option<Kind>, name: string, version: Version, flags: int)

  // ---------- writing ----------

  /** `add_dependency` takes a dependency that has tags and flags within int. */
  predicate Storable(dep: Dependency) {
    dep.kind.Some? && IsInt(dep.flags)
  }

  function Add(h: Entries, dep: Dependency): Entries
    requires Storable(dep)
  {
    var kind := dep.kind.value;
    AddInt(AddString(AddString(h, NameTag(kind), dep.name), VersionTag(kind), ToVre(dep.version)),
      FlagsTag(kind), dep.flags)
  }

  /** One element more under each of the three tags, and nothing else changed. */
  ghost predicate OneMore(h: Entries, h': Entries, dep: Dependency, nametag: Tag, versiontag: Tag, flagstag: Tag) {
    && Strings(h', nametag) == Strings(h, nametag) + [dep.name]
    && Strings(h', versiontag) == Strings(h, versiontag) + [ToVre(dep.version)]
    && Ints(h', flagstag) == Ints(h, flagstag) + [ToUint(dep.flags)]
    && h'.strings.Keys == h.strings.Keys + {nametag, versiontag} && h'.ints.Keys == h.ints.Keys + {flagstag}
    && (forall tag :: tag != nametag && tag != versiontag ==> Strings(h', tag) == Strings(h, tag))
    && (forall tag :: tag != flagstag ==> Ints(h', tag) == Ints(h, tag))
  }

  /** The dependency has come to the arrays of its class. */
  ghost predicate Written(h: Entries, h': Entries, dep: Dependency)
    requires dep.kind.Some?
  {
    match dep.kind.value
    case Provide => OneMore(h, h', dep, PROVIDENAME, PROVIDEVERSION, PROVIDEFLAGS)
    case Require => OneMore(h, h', dep, REQUIRENAME, REQUIREVERSION, REQUIREFLAGS)
    case Conflict => OneMore(h, h', dep, CONFLICTNAME, CONFLICTVERSION, CONFLICTFLAGS)
    case Obsolete => OneMore(h, h', dep, OBSOLETENAME, OBSOLETEVERSION, OBSOLETEFLAGS)
  }

  lemma AddWrites(h: Entries, dep: Dependency)
    requires Storable(dep)
    ensures Written(h, Add(h, dep), dep)
  {
    AddOneMore(h, dep);
  }

  lemma AddOneMore(h: Entries, dep: Dependency)
    requires Storable(dep)
    ensures var kind := dep.kind.value;
      OneMore(h, Add(h, dep), dep, NameTag(kind), VersionTag(kind), FlagsTag(kind))
  {
    var kind := dep.kind.value;
    var named := AddString(h, NameTag(kind), dep.name);
    var versioned := AddString(named, VersionTag(kind), ToVre(dep.version));
    assert Strings(named, VersionTag(kind)) == Strings(h, VersionTag(kind));
    assert Add(h, dep) == AddInt(versioned, FlagsTag(kind), dep.flags);
  }

  /** `rpm_package_add_dependency`; a refused dependency leaves the header as it is. */
  method AddDependency(hdr: Header, dep: Dependency) returns (outcome: Result<()>)
    modifies hdr`entries
    ensures outcome ==
      if dep.kind.None? then Err(TypeError) else if !IsInt(dep.flags) then Err(RangeError) else Ok(())
    ensures outcome.Ok? ==> hdr.entries == Add(old(hdr.entries), dep) && Written(old(hdr.entries), hdr.entries, dep)
    ensures outcome.Err? ==> hdr.entries == old(hdr.entries)
  {
    if dep.kind.None? {
      return Err(TypeError);
    }
    var kind := dep.kind.value;
    var evr := ToVre(dep.version);
    if !IsInt(dep.flags) {
      return Err(RangeError);
    }
    AddWrites(hdr.entries, dep);
    hdr.AppendString(NameTag(kind), dep.name);
    hdr.AppendString(VersionTag(kind), evr);
    hdr.AppendInt(FlagsTag(kind), dep.flags);
    outcome := Ok(());
  }

  /** A sequence of calls, in which the refused ones change nothing. */
  function AddAll(h: Entries, deps: seq<Dependency>): Entries {
    if deps == [] then h
    else
      var before, last := AddAll(h, deps[..|deps| - 1]), deps[|deps| - 1];
      if Storable(last) then Add(before, last) else before
  }

  /** The dependencies of one kind that were taken, in order. */
  function Taken(deps: seq<Dependency>, kind: Kind): seq<Dependency> {
    if deps == [] then []
    else
      var last := deps[|deps| - 1];
      Taken(deps[..|deps| - 1], kind) + if last.kind == Some(kind) && IsInt(last.flags) then [last] else []
  }

  lemma {:induction false} TakenMembers(deps: seq<Dependency>, kind: Kind)
    ensures forall d :: d in Taken(deps, kind) <==> d in deps && d.kind == Some(kind) && IsInt(d.flags)
  {
    if deps != [] {
      TakenMembers(deps[..|deps| - 1], kind);
      assert deps == deps[..|deps| - 1] + [deps[|deps| - 1]];
    }
  }

  /** A dependency is taken or not by its own kind and flags. */
  lemma TakenOne(dep: Dependency, kind: Kind)
    ensures Taken([dep], kind) ==
      if dep.kind == Some(kind) && -0x8000_0000 <= dep.flags <= 0x7fff_ffff then [dep] else []
  {
    assert [dep][..0] == [];
  }

  /** It does not matter what else is added, and the order stays. */
  lemma {:induction false} TakenJoin(deps: seq<Dependency>, more: seq<Dependency>, kind: Kind)
    ensures Taken(deps + more, kind) == Taken(deps, kind) + Taken(more, kind)
  {
    if more == [] {
      assert deps + more == deps;
    } else {
      TakenJoin(deps, more[..|more| - 1], kind);
      assert (deps + more)[..|deps + more| - 1] == deps + more[..|more| - 1];
    }
  }

  // ---------- reading ----------

  /** The three arrays of one kind. */
  datatype Columns = Columns(names: seq<string>, versions: seq<string>, flags: seq<int>)

  function ColumnsOf(h: Entries, kind: Kind): Columns {
    Columns(Strings(h, NameTag(kind)), Strings(h, VersionTag(kind)), Ints(h, FlagsTag(kind)))
  }

  /** Row `i` of the arrays; a missing version text raises, a missing flag word is a NULL pointer. */
  function Row(c: Columns, kind: Kind, i: nat): Result<Dependency>
    requires i < |c.names|
  {
    if i >= |c.versions| then Err(ArgumentError)
    else
      var version :- New(c.versions[i]);
      if i >= |c.flags| then Err(NilDereference)
      else Ok(Dependency(Some(kind), c.names[i], version, ToInt(c.flags[i])))
  }

  function Rows(c: Columns, kind: Kind): (rows: seq<Result<Dependency>>)
    ensures |rows| == |c.names| && forall i :: 0 <= i < |rows| ==> rows[i] == Row(c, kind, i)
  {
    seq(|c.names|, i requires 0 <= i < |c.names| => Row(c, kind, i))
  }

  predicate HasArrays(h: Entries, kind: Kind) {
    NameTag(kind) in h.strings && VersionTag(kind) in h.strings && FlagsTag(kind) in h.ints
  }

  /** What `provides`, `requires`, `conflicts` and `obsoletes` return. */
  function Get(h: Entries, kind: Kind): Result<seq<Dependency>> {
    if !HasArrays(h, kind) then Ok([])
    else Collect(Rows(ColumnsOf(h, kind), kind))
  }

  /**
   * Row for row what the three arrays hold, if there are versions and flags for every name and all the versions can be
   * read.
   */
  ghost predicate RowByRow(
      h: Entries, kind: Kind, nametag: Tag, versiontag: Tag, flagstag: Tag, deps: Result<seq<Dependency>>) {
    var names, versions, flags := Strings(h, nametag), Strings(h, versiontag), Ints(h, flagstag);
    if nametag !in h.strings || versiontag !in h.strings || flagstag !in h.ints then deps == Ok([])
    else
      && (deps.Ok? <==>
            |names| <= |versions| && |names| <= |flags| && forall i :: 0 <= i < |names| ==> New(versions[i]).Ok?)
      && (deps.Ok? ==> |deps.value| == |names| && forall i :: 0 <= i < |names| ==>
            deps.value[i] == Dependency(Some(kind), names[i], New(versions[i]).value, ToInt(flags[i])))
  }

  /** These dependencies come from the arrays of their class. */
  ghost predicate ReadFrom(h: Entries, kind: Kind, deps: Result<seq<Dependency>>) {
    match kind
    case Provide => RowByRow(h, kind, PROVIDENAME, PROVIDEVERSION, PROVIDEFLAGS, deps)
    case Require => RowByRow(h, kind, REQUIRENAME, REQUIREVERSION, REQUIREFLAGS, deps)
    case Conflict => RowByRow(h, kind, CONFLICTNAME, CONFLICTVERSION, CONFLICTFLAGS, deps)
    case Obsolete => RowByRow(h, kind, OBSOLETENAME, OBSOLETEVERSION, OBSOLETEFLAGS, deps)
  }

  lemma GetReads(h: Entries, kind: Kind)
    ensures ReadFrom(h, kind, Get(h, kind))
  {
    if HasArrays(h, kind) {
      RowsCollected(h, kind);
    }
  }

  /** The error is that of the first row which is not complete and readable. */
  lemma GetRaisesFirst(h: Entries, kind: Kind, at: nat)
    requires HasArrays(h, kind) && at < |Strings(h, NameTag(kind))|
    requires at <= |Strings(h, VersionTag(kind))| && at <= |Ints(h, FlagsTag(kind))|
    requires forall i :: 0 <= i < at ==> New(Strings(h, VersionTag(kind))[i]).Ok?
    ensures at == |Strings(h, VersionTag(kind))| ==> Get(h, kind) == Err(ArgumentError)
    ensures at < |Strings(h, VersionTag(kind))| ==>
      var version := New(Strings(h, VersionTag(kind))[at]);
      && (version.Err? ==> Get(h, kind) == Err(version.error))
      && (version.Ok? && at == |Ints(h, FlagsTag(kind))| ==> Get(h, kind) == Err(NilDereference))
  {
    var c := ColumnsOf(h, kind);
    if Row(c, kind, at).Err? {
      CollectFails(Rows(c, kind), at);
    }
  }

  lemma RowsCollected(h: Entries, kind: Kind)
    requires HasArrays(h, kind)
    ensures RowByRow(h, kind, NameTag(kind), VersionTag(kind), FlagsTag(kind), Get(h, kind))
  {
    var c := ColumnsOf(h, kind);
    forall i | 0 <= i < |c.names| ensures RowReads(c, kind, i) {
      ReadRow(c, kind, i);
    }
    var rows := Rows(c, kind);
    CollectValues(rows);
    if Collect(rows).Err? {
      var i :| 0 <= i < |rows| && rows[i].Err?;
      assert RowReads(c, kind, i);
    } else {
      forall i | 0 <= i < |c.names| ensures i < |c.versions| && i < |c.flags| && New(c.versions[i]).Ok? {
        assert RowReads(c, kind, i) && rows[i].Ok?;
      }
      assert c.names != [] ==> |c.names| - 1 < |c.versions| && |c.names| - 1 < |c.flags|;
    }
  }

  ghost predicate RowReads(c: Columns, kind: Kind, i: nat)
    requires i < |c.names|
  {
    var row := Row(c, kind, i);
    && (row.Ok? <==> i < |c.versions| && i < |c.flags| && New(c.versions[i]).Ok?)
    && (row.Ok? ==> row.value == Dependency(Some(kind), c.names[i], New(c.versions[i]).value, ToInt(c.flags[i])))
  }

  lemma ReadRow(c: Columns, kind: Kind, i: nat)
    requires i < |c.names|
    ensures RowReads(c, kind, i)
  {
  }

  /** An `rpmtd`: tag data with a position that starts before the first element. */
  class TagData<T> {
    const data: seq<T>
    var ix: int

    constructor (data: seq<T>)
      ensures this.data == data && ix == -1
    {
      this.data := data;
      ix := -1;
    }

    /** `rpmtdNext`: the new position, or -1 at the end. */
    method Next() returns (i: int)
      requires -1 <= ix < |data|
      modifies this
      ensures i == ix == if old(ix) + 1 < |data| then old(ix) + 1 else -1
    {
      ix := if ix + 1 < |data| then ix + 1 else -1;
      i := ix;
    }
  }

  /** `rpm_package_get_dependency`: three positions that move in step. */
  method GetDependency(hdr: Header, kind: Kind) returns (deps: Result<seq<Dependency>>)
    ensures deps == Get(hdr.entries, kind) && ReadFrom(hdr.entries, kind, deps)
  {
    GetReads(hdr.entries, kind);
    if !HasArrays(hdr.entries, kind) {
      return Ok([]);
    }
    deps := ReadColumns(ColumnsOf(hdr.entries, kind), kind);
  }

  /** `rpm_package_get_provides` */
  method GetProvides(hdr: Header) returns (provs: Result<seq<Dependency>>)
    ensures provs == Get(hdr.entries, Provide)
  {
    provs := GetDependency(hdr, Provide);
  }

  method ReadColumns(c: Columns, kind: Kind) returns (deps: Result<seq<Dependency>>)
    ensures deps == Collect(Rows(c, kind))
  {
    var nametd := new TagData(c.names);
    var versiontd := new TagData(c.versions);
    var flagtd := new TagData(c.flags);
    ghost var rows := Rows(c, kind);
    var found: seq<Dependency> := [];
    var i := nametd.Next();
    while i != -1
      invariant i == nametd.ix == if |found| < |c.names| then |found| else -1
      invariant versiontd.ix == |found| - 1 < |c.versions| && flagtd.ix == |found| - 1 < |c.flags|
      invariant |found| <= |rows| && Collect(rows[..|found|]) == Ok(found)
      decreases |c.names| - |found|
    {
      var row := NextRow(c, nametd.data[i], versiontd, flagtd, kind, i);
      assert rows[i] == row;
      CollectNext(rows, i, found);
      if row.Err? {
        assert Collect(rows) == Err(row.error);
        return Err(row.error);
      }
      found := found + [row.value];
      i := nametd.Next();
    }
    assert rows[..|found|] == rows;
    deps := Ok(found);
  }

  /** The version and the flags that belong to name `i`. */
  method NextRow(ghost c: Columns, name: string, versiontd: TagData<string>, flagtd: TagData<int>, kind: Kind, i: nat)
    returns (row: Result<Dependency>)
    requires i < |c.names| && name == c.names[i] && versiontd as object != flagtd
    requires versiontd.data == c.versions && flagtd.data == c.flags
    requires versiontd.ix == i - 1 < |c.versions| && flagtd.ix == i - 1 < |c.flags|
    modifies versiontd, flagtd
    ensures row == Row(c, kind, i)
    ensures row.Ok? ==> versiontd.ix == i < |c.versions| && flagtd.ix == i < |c.flags|
  {
    var v := versiontd.Next();
    if v == -1 {
      return Err(ArgumentError);
    }
    var version := New(versiontd.data[v]);
    if version.Err? {
      return Err(version.error);
    }
    var f := flagtd.Next();
    if f == -1 {
      return Err(NilDereference);
    }
    row := Ok(Dependency(Some(kind), name, version.value, ToInt(flagtd.data[f])));
  }

  // ---------- round trip ----------

  /** No dependency of this kind has been written yet. */
  predicate Untouched(h: Entries, kind: Kind) {
    NameTag(kind) !in h.strings && VersionTag(kind) !in h.strings && FlagsTag(kind) !in h.ints
  }

  /** The arrays hold these dependencies, column by column. */
  ghost predicate Holds(c: Columns, deps: seq<Dependency>) {
    && |c.names| == |c.versions| == |c.flags| == |deps|
    && forall i :: 0 <= i < |deps| ==> HoldsRow(c, i, deps[i])
  }

  ghost predicate HoldsRow(c: Columns, i: nat, dep: Dependency) {
    && i < |c.names| && i < |c.versions| && i < |c.flags|
    && c.names[i] == dep.name && c.versions[i] == ToVre(dep.version) && c.flags[i] == ToUint(dep.flags)
  }

  function Appended(c: Columns, dep: Dependency): Columns {
    Columns(c.names + [dep.name], c.versions + [ToVre(dep.version)], c.flags + [ToUint(dep.flags)])
  }

  lemma HoldsOneMore(c: Columns, deps: seq<Dependency>, dep: Dependency)
    requires Holds(c, deps)
    ensures Holds(Appended(c, dep), deps + [dep])
  {
    forall i | 0 <= i < |deps| ensures HoldsRow(Appended(c, dep), i, deps[i]) {
      assert HoldsRow(c, i, deps[i]);
    }
  }

  /** The three arrays of every kind stay equally long and say what was added, whatever the mixture of kinds. */
  lemma {:induction false} ColumnsOfAll(h: Entries, deps: seq<Dependency>, kind: Kind)
    requires Untouched(h, kind)
    ensures Holds(ColumnsOf(AddAll(h, deps), kind), Taken(deps, kind))
    ensures if Taken(deps, kind) == [] then Untouched(AddAll(h, deps), kind) else HasArrays(AddAll(h, deps), kind)
  {
    if deps != [] {
      var init, last := deps[..|deps| - 1], deps[|deps| - 1];
      ColumnsOfAll(h, init, kind);
      if Storable(last) {
        ColumnsOfOne(AddAll(h, init), last, kind);
        HoldsOneMore(ColumnsOf(AddAll(h, init), kind), Taken(init, kind), last);
      }
    }
  }

  lemma ColumnsOfOne(h: Entries, dep: Dependency, kind: Kind)
    requires Storable(dep)
    ensures ColumnsOf(Add(h, dep), kind) ==
      if dep.kind == Some(kind) then Appended(ColumnsOf(h, kind), dep) else ColumnsOf(h, kind)
    ensures HasArrays(Add(h, dep), kind) <==> dep.kind == Some(kind) || HasArrays(h, kind)
    ensures Untouched(Add(h, dep), kind) <==> dep.kind != Some(kind) && Untouched(h, kind)
  {
  }

  lemma RowOf(c: Columns, kind: Kind, i: nat, dep: Dependency)
    requires HoldsRow(c, i, dep) && dep.kind == Some(kind) && IsInt(dep.flags)
    ensures Row(c, kind, i) == Ok(dep) <==> Printable(dep.version)
  {
    ParseUndoesPrint(dep.version);
    IntRoundTrip(dep.flags);
  }

  /**
   * Each kind reads back as exactly the dependencies of that kind, in order, if and only if their versions are
   * printable.
   */
  lemma GetAfterAdds(h: Entries, deps: seq<Dependency>, kind: Kind)
    requires Untouched(h, kind)
    ensures Get(AddAll(h, deps), kind) == Ok(Taken(deps, kind))
      <==> forall dep :: dep in Taken(deps, kind) ==> Printable(dep.version)
  {
    var taken := Taken(deps, kind);
    TakenMembers(deps, kind);
    ColumnsOfAll(h, deps, kind);
    var c := ColumnsOf(AddAll(h, deps), kind);
    forall i | 0 <= i < |taken| ensures Row(c, kind, i) == Ok(taken[i]) <==> Printable(taken[i].version) {
      RowOf(c, kind, i, taken[i]);
    }
    CollectSucceeds(Rows(c, kind), taken);
  }
}
