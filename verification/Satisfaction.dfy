/** `satisfy?`: dependencies against versions, dependencies and packages, over librpm's `rpmdsCompare`. */
module Satisfaction {
  import opened Outcomes
  import opened CText
  import opened VersionText
  import opened Headers
  import opened DependencyStore

  /** A name with a range of versions, as `rpmdsSingle` takes it. */
  datatype Range = Range(name: string, evr: string, flags: int)

  type Overlap = (Range, Range) -> bool

  function RangeOf(dep: Dependency): Range {
    Range(dep.name, ToVre(dep.version), dep.flags)
  }

  /** `dep.satisfy?(other)` for another dependency; `NUM2INT` refuses flags beyond int. */
  function ByDependency(overlap: Overlap, dep: Dependency, other: Dependency): Result<bool> {
    if !IsInt(dep.flags) || !IsInt(other.flags) then Err(RangeError)
    else Ok(overlap(RangeOf(other), RangeOf(dep)))
  }

  /** `dep.satisfy?(version)`: the version stands for a range under dep's own name. */
  function ByVersion(overlap: Overlap, dep: Dependency, version: Version): Result<bool> {
    var ovre := ToVre(version);
    if !IsInt(dep.flags) then Err(RangeError)
    else Ok(overlap(Range(dep.name, ovre, if ovre == "" then 0 else SENSE_EQUAL), RangeOf(dep)))
  }

  /** librpm compares the two names, version texts and flags as they are, what is offered first. */
  lemma ComparesWholeRanges(
      overlap: Overlap, kind: Option<Kind>, name: string, ver: Version, flags: int, dep: Dependency)
    ensures ByDependency(overlap, dep, Dependency(kind, name, ver, flags)) ==
      if IsInt(dep.flags) && IsInt(flags)
      then Ok(overlap(Range(name, ToVre(ver), flags), Range(dep.name, ToVre(dep.version), dep.flags)))
      else Err(RangeError)
  {
  }

  /**
   * Asking for a version is asking for a provide of dep's own name with sense EQUAL, or with none if the version
   * is empty.
   */
  lemma VersionStandsForProvide(overlap: Overlap, dep: Dependency, version: Version)
    requires IsInt(dep.flags)
    ensures ByVersion(overlap, dep, version) == ByDependency(overlap, dep,
      Dependency(Some(Provide), dep.name, version, if version == Version("", None, None) then 0 else SENSE_EQUAL))
  {
  }

  /** `dep.satisfy?(package)`: pops provides from a list read for this purpose until one fits. */
  method ByPackage(overlap: Overlap, dep: Dependency, package: Header) returns (answer: Result<bool>)
    ensures Get(package.entries, Provide).Err? ==> answer == Err(Get(package.entries, Provide).error)
    ensures Get(package.entries, Provide).Ok? ==> answer == AnyOf(overlap, dep, Get(package.entries, Provide).value)
  {
    var read := GetProvides(package);
    if read.Err? {
      return Err(read.error);
    }
    GetDelivers(package.entries, Provide);
    answer := PopUntilFits(overlap, dep, read.value);
  }

  method PopUntilFits(overlap: Overlap, dep: Dependency, provs: seq<Dependency>) returns (answer: Result<bool>)
    requires forall p :: p in provs ==> IsInt(p.flags)
    ensures answer == AnyOf(overlap, dep, provs)
  {
    var offered := provs;
    while offered != []
      invariant offered <= provs
      invariant forall i :: |offered| <= i < |provs| ==> ByDependency(overlap, dep, provs[i]) == Ok(false)
    {
      var provide := offered[|offered| - 1];
      offered := offered[..|offered| - 1];
      var fits := ByDependency(overlap, dep, provide);
      if fits.Err? {
        return fits;
      }
      if fits.value {
        return Ok(true);
      }
    }
    assert provs != [] ==> ByDependency(overlap, dep, provs[0]) == Ok(false);
    answer := Ok(false);
  }

  /** Some provide satisfies dep. Flags beyond int are noticed only when there is a provide to compare with. */
  ghost function AnyOf(overlap: Overlap, dep: Dependency, offered: seq<Dependency>): Result<bool> {
    if offered != [] && !IsInt(dep.flags) then Err(RangeError)
    else Ok(exists p :: p in offered && overlap(RangeOf(p), RangeOf(dep)))
  }

  /** What is read from a header has flags within int. */
  lemma GetDelivers(h: Entries, kind: Kind)
    requires Get(h, kind).Ok?
    ensures forall dep :: dep in Get(h, kind).value ==> dep.kind == Some(kind) && IsInt(dep.flags)
  {
    if HasArrays(h, kind) {
      CollectSucceeds(Rows(ColumnsOf(h, kind), kind), Get(h, kind).value);
    }
  }

  /** A package built by adding printable dependencies satisfies exactly what one of its added provides satisfies. */
  lemma AddedProvidesDecide(overlap: Overlap, dep: Dependency, h: Entries, deps: seq<Dependency>)
    requires Untouched(h, Provide) && IsInt(dep.flags)
    requires forall d :: d in Taken(deps, Provide) ==> Printable(d.version)
    ensures Get(AddAll(h, deps), Provide).Ok?
    ensures AnyOf(overlap, dep, Get(AddAll(h, deps), Provide).value)
      == Ok(exists d :: d in deps && d.kind == Some(Provide) && IsInt(d.flags) && overlap(RangeOf(d), RangeOf(dep)))
  {
    GetAfterAdds(h, deps, Provide);
    TakenMembers(deps, Provide);
  }
}
