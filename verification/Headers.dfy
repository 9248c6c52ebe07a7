/** Package headers: tagged arrays of strings and of 32-bit integers, as librpm keeps them. */
module Headers {
  import opened Outcomes
  import opened CText
  import opened VersionText

  datatype Tag =
    | NAME | VERSION | RELEASE | EPOCH | ARCH
    | PROVIDENAME | PROVIDEVERSION | PROVIDEFLAGS
    | REQUIRENAME | REQUIREVERSION | REQUIREFLAGS
    | CONFLICTNAME | CONFLICTVERSION | CONFLICTFLAGS
    | OBSOLETENAME | OBSOLETEVERSION | OBSOLETEFLAGS

  const SENSE_LESS: nat := 2
  const SENSE_GREATER: nat := 4
  const SENSE_EQUAL: nat := 8

  /** Integers are kept as `uint32_t`. */
  datatype Entries = Entries(strings: map<Tag, seq<string>>, ints: map<Tag, seq<int>>)

  const EMPTY := Entries(map[], map[])

  function Strings(h: Entries, tag: Tag): seq<string> {
    if tag in h.strings then h.strings[tag] else []
  }

  function Ints(h: Entries, tag: Tag): seq<int> {
    if tag in h.ints then h.ints[tag] else []
  }

  /** `headerAddEntry` on a header without the tag, and `headerAddOrAppendEntry` on any header. */
  function AddString(h: Entries, tag: Tag, s: string): Entries {
    h.(strings := h.strings[tag := Strings(h, tag) + [s]])
  }

  function AddInt(h: Entries, tag: Tag, n: int): Entries {
    h.(ints := h.ints[tag := Ints(h, tag) + [ToUint(n)]])
  }

  /** A header in memory. Its signature is fixed, its entries grow, and it is reclaimed when no link is left. */
  class Header {
    const sigmd5: string
    var links: nat
    var entries: Entries

    /** `headerNew`, or reading a header: the maker holds the first link. */
    constructor (sigmd5: string)
      ensures this.sigmd5 == sigmd5 && links == 1 && entries == EMPTY
    {
      this.sigmd5 := sigmd5;
      links := 1;
      entries := EMPTY;
    }

    method AppendString(tag: Tag, s: string)
      modifies `entries
      ensures entries == AddString(old(entries), tag, s)
    {
      entries := AddString(entries, tag, s);
    }

    method AppendInt(tag: Tag, n: int)
      modifies `entries
      ensures entries == AddInt(old(entries), tag, n)
    {
      entries := AddInt(entries, tag, n);
    }
  }

  // ---------- names and versions ----------

  /** What `package_s_create` writes; it takes the string of a release that may be nil. */
  function Create(name: string, version: Version): Result<Entries> {
    if version.r.None? then Err(NilDereference)
    else
      var h := AddString(AddString(AddString(EMPTY, NAME, name), VERSION, version.v), RELEASE, version.r.value);
      Ok(if version.e.Some? then AddInt(h, EPOCH, version.e.value) else h)
  }

  /** A single string, as `headerNVR` and `headerNEVRA` point at it; `None` for NULL. */
  function First(strings: seq<string>): Option<string> {
    if strings == [] then None else Some(strings[0])
  }

  /** `rpm_package_get_name` */
  function PackageName(h: Entries): Option<string> {
    First(Strings(h, NAME))
  }

  /** `rpm_package_get_arch` */
  function PackageArch(h: Entries): Option<string> {
    First(Strings(h, ARCH))
  }

  /**
   * `rpm_package_get_version`: without an epoch the version goes through its text once more. An epoch
   * entry that is not a single number reads as an array, which `NUM2INT` refuses.
   */
  function PackageVersion(h: Entries): Result<Option<Version>> {
    var v, r, e := First(Strings(h, VERSION)), First(Strings(h, RELEASE)), Ints(h, EPOCH);
    if v.None? then Ok(None)
    else
      var ver :-
        if r.None? then New(v.value)
        else if e == [] then New(v.value + "-" + r.value)
        else if |e| == 1 then New3(v.value, r.value, ToInt(e[0]))
        else Err(TypeError);
      Ok(Some(ver))
  }

  /** `rpm_package_to_s`, for texts that fit its fixed buffer. */
  function PackageToS(h: Entries): Result<string> {
    var name, arch := PackageName(h), PackageArch(h);
    var ver :- PackageVersion(h);
    Ok(if name.None? then ""
       else if ver.None? then name.value
       else if arch.None? then name.value + "-" + ToS(ver.value)
       else name.value + "-" + ToS(ver.value) + "-" + arch.value)
  }

  lemma IntRoundTrip(n: int)
    requires IsInt(n)
    ensures ToInt(ToUint(n)) == n
  {
  }

  /**
   * A created package answers with the version it was given, unless that has no epoch and its text does not say it
   * all.
   */
  lemma CreateKeepsVersion(name: string, ver: Version)
    requires ver.r.Some?
    ensures Create(name, ver).Ok?
    ensures PackageName(Create(name, ver).value) == Some(name)
    ensures PackageVersion(Create(name, ver).value) == Ok(Some(ver)) <==> ver.e.Some? || Printable(ver)
  {
    if ver.e.Some? {
      IntRoundTrip(ver.e.value);
    } else {
      ParseUndoesPrint(ver);
    }
  }

  /** What a created package holds: these entries and no others. */
  lemma CreateWrites(name: string, v: string, r: string, e: Option<Epoch>)
    ensures var h := Create(name, Version(v, Some(r), e));
      && h.Ok?
      && h.value.strings == map[NAME := [name], VERSION := [v], RELEASE := [r]]
      && h.value.ints == if e.Some? then map[EPOCH := [e.value]] else map[]
    ensures Create(name, Version(v, None, e)) == Err(NilDereference)
  {
    assert [] + [name] == [name] && [] + [v] == [v] && [] + [r] == [r];
    if e.Some? {
      assert [] + [e.value] == [e.value] && ToUint(e.value) == e.value;
    }
  }

  /** The version of a package that was read: from `v` alone, from `v-r`, or of `v`, `r` and the epoch as they are. */
  lemma VersionOfEntries(h: Entries, v: string, r: string, e: Epoch)
    requires Strings(h, VERSION) == [v]
    ensures Strings(h, RELEASE) == [] ==> PackageVersion(h) == Given(New(v))
    ensures Strings(h, RELEASE) == [r] && Ints(h, EPOCH) == [] ==> PackageVersion(h) == Given(New(v + "-" + r))
    ensures Strings(h, RELEASE) == [r] && Ints(h, EPOCH) == [e] ==>
      PackageVersion(h) == Ok(Some(Version(v, Some(r), Some(e))))
  {
  }

  function Given(ver: Result<Version>): Result<Option<Version>> {
    if ver.Ok? then Ok(Some(ver.value)) else Err(ver.error)
  }

  /**
   * A created package prints as `name-v-r`, once it has an architecture as `name-v-r-arch`, and without a version as
   * its name alone.
   */
  lemma CreatedPrints(name: string, v: string, r: string, e: Option<Epoch>, arch: string)
    requires e.Some? || Printable(Version(v, Some(r), e))
    ensures var h := Create(name, Version(v, Some(r), e)).value;
      && PackageToS(h) == Ok(name + "-" + (v + "-" + r))
      && PackageToS(AddString(h, ARCH, arch)) == Ok(name + "-" + (v + "-" + r) + "-" + arch)
    ensures PackageToS(AddString(EMPTY, NAME, name)) == Ok(name) && PackageToS(EMPTY) == Ok("")
  {
    var ver := Version(v, Some(r), e);
    var h := Create(name, ver).value;
    CreateKeepsVersion(name, ver);
    CreateHasNoArch(name, ver);
    PackageText(h, name, ver);
    ArchKeepsVersion(h, arch);
    PackageArchText(AddString(h, ARCH, arch), name, ver, arch);
  }

  lemma ArchKeepsVersion(h: Entries, arch: string)
    ensures PackageVersion(AddString(h, ARCH, arch)) == PackageVersion(h)
  {
  }

  lemma PackageArchText(h: Entries, name: string, ver: Version, arch: string)
    requires PackageName(h) == Some(name) && PackageVersion(h) == Ok(Some(ver)) && PackageArch(h) == Some(arch)
    ensures PackageToS(h) == Ok(name + "-" + ToS(ver) + "-" + arch)
  {
  }

  lemma CreateHasNoArch(name: string, ver: Version)
    requires ver.r.Some?
    ensures PackageArch(Create(name, ver).value) == None
  {
  }

  lemma PackageText(h: Entries, name: string, ver: Version)
    requires PackageName(h) == Some(name) && PackageVersion(h) == Ok(Some(ver)) && PackageArch(h) == None
    ensures PackageToS(h) == Ok(name + "-" + ToS(ver))
  {
  }
}
