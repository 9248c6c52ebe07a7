/** The name-epoch-version-release parsers of `ext/rpm/db.c`. */
module Nevr {
  import opened Outcomes
  import opened CText
  import opened VersionText
  import opened Headers
  import opened VersionBuffers

  // ---------- epoch, version and release ----------

  /** The second reader of `[e:]v-r`: everything before the first ':' is the epoch, whatever it looks like. */
  function FromEVR(evr: string): Result<Version> {
    var colon := FirstIndex(evr, ':');
    if colon < |evr| then New2(evr[colon + 1..], Atoi(evr[..colon])) else New(evr)
  }

  /** `version_new_from_EVR`: cuts a copy at the colon and reads the two halves. */
  method VersionNewFromEVR(evr: string) returns (version: Result<Version>)
    requires NUL !in evr
    ensures version == FromEVR(evr)
  {
    var tmp := Duplicate(evr);
    StringAtIs(tmp[..], 0, evr);
    var end := FirstIndex(StringAt(tmp[..], 0), ':');
    if tmp[end] == ':' {
      tmp[end] := NUL;
      var e, vr := CutPieces(tmp, evr, end);
      version := New2(vr, Atoi(e));
    } else {
      version := New(StringAt(tmp[..], 0));
    }
  }

  /** The two readers give the same version for exactly these texts. */
  predicate ReadAlike(s: string) {
    var colon := FirstIndex(s, ':');
    colon < |s| ==>
      && AllDigits(s[..colon])
      && DecimalValue(s[..colon]) <= INT_MAX
      && !EpochLike(s[colon + 1..])
  }

  lemma ParsersAgree(s: string)
    ensures New(s).Ok? && FromEVR(s) == New(s) <==> ReadAlike(s)
  {
    var colon := FirstIndex(s, ':');
    if colon == |s| {
      NewSucceeds(s);
    } else if AllDigits(s[..colon]) {
      AgreeBehindDigits(s, s[..colon], s[colon + 1..]);
    } else {
      OnlyFirstReaderTakesColon(s);
    }
  }

  lemma AgreeBehindDigits(s: string, digits: string, rest: string)
    requires AllDigits(digits) && s == digits + ":" + rest
    ensures New(s).Ok? && New2(rest, Atoi(digits)) == New(s) <==> DecimalValue(digits) <= INT_MAX && !EpochLike(rest)
  {
    FirstReader(digits, rest);
    SecondReader(rest, Atoi(digits));
    if New(s).Ok? {
      AtoiOfDigits(digits);
    }
  }

  lemma FirstReader(digits: string, rest: string)
    requires AllDigits(digits)
    ensures New(digits + ":" + rest).Ok? <==> DecimalValue(digits) <= INT_MAX
    ensures New(digits + ":" + rest).Ok? ==>
      var (v, r) := SplitRelease(rest);
      New(digits + ":" + rest).value == Version(v, r, Some(DecimalValue(digits)))
  {
    EpochPrefix(digits, rest);
    NewSucceeds(digits + ":" + rest);
  }

  lemma SecondReader(vr: string, e: int)
    ensures New2(vr, e) ==
      if EpochLike(vr) then Err(TypeError)
      else Initialize(SplitRelease(vr).0, SplitRelease(vr).1, Some(e))
  {
    ParseUnfolds(vr);
    assert !EpochLike(vr) ==> AfterEpoch(vr) == vr;
  }

  /** A colon behind anything but digits is an epoch for one reader and part of the version for the other. */
  lemma OnlyFirstReaderTakesColon(s: string)
    requires ':' in s && !AllDigits(s[..FirstIndex(s, ':')])
    ensures New(s).Ok? && New(s).value.e == None
    ensures FromEVR(s).Ok? ==> FromEVR(s).value.e.Some?
  {
    if EpochLike(s) {
      FirstIndexIs(s, ':', DigitRun(s));
    }
    NewSucceeds(s);
  }

  /**
   * Behind digits beyond int, the second reader keeps the low 32 bits of what `atoi` makes of them, which is at most
   * the largest `long`; the first refuses them.
   */
  lemma LargeEpochs(digits: string, rest: string)
    requires AllDigits(digits) && DecimalValue(digits) > INT_MAX && !EpochLike(rest)
    ensures New(digits + ":" + rest) == Err(RangeError)
    ensures var (v, r) := SplitRelease(rest);
      var n := DecimalValue(digits);
      var e := ToInt(if n > LONG_MAX then LONG_MAX else n);
      FromEVR(digits + ":" + rest) == if e < 0 then Err(ArgumentError) else Ok(Version(v, r, Some(e)))
  {
    var s := digits + ":" + rest;
    EpochPrefix(digits, rest);
    ParseUnfolds(s);
    AtolOfDigits(digits);
    FirstInJoint(digits, ':', rest);
    Joint(digits, ':', rest);
    SecondReader(rest, Atoi(digits));
    ToIntIsInt(Atol(digits));
  }

  /**
   * With a colon, the second reader takes `atoi` of what stands before the first one for the epoch, and refuses what is
   * negative or has another epoch behind it; without, it reads what the first reader does.
   */
  lemma ColonEndsEpoch(before: string, rest: string)
    requires ':' !in before
    ensures FromEVR(before) == New(before)
    ensures FromEVR(before + ":" + rest) ==
      if EpochLike(rest) then Err(TypeError)
      else if Atoi(before) < 0 then Err(ArgumentError)
      else Ok(Version(SplitRelease(rest).0, SplitRelease(rest).1, Some(Atoi(before))))
  {
    FirstInJoint(before, ':', rest);
    Joint(before, ':', rest);
    ToIntIsInt(Atol(before));
    SecondReader(rest, Atoi(before));
  }

  // ---------- names ----------

  /** Offset of the second dash from the end, or -1. */
  function NameEnd(nevr: string): (i: int)
    ensures -1 <= i < |nevr|
  {
    var last := LastIndex(nevr, '-');
    if last >= 0 then LastBelow(nevr, '-', last) else -1
  }

  function NamePart(nevr: string): string {
    if NameEnd(nevr) >= 0 then nevr[..NameEnd(nevr)] else nevr
  }

  function EvrPart(nevr: string): string {
    if NameEnd(nevr) >= 0 then nevr[NameEnd(nevr) + 1..] else ""
  }

  /** The header of the package that `package_new_from_NEVR` makes. */
  function FromNEVR(nevr: string): Result<Entries> {
    var version :- FromEVR(EvrPart(nevr));
    Create(NamePart(nevr), version)
  }

  /** How often `c` occurs from `from` on. */
  function CountFrom(s: string, c: char, from: nat): nat
    requires from <= |s|
    decreases |s| - from
  {
    if from == |s| then 0 else CountFrom(s, c, from + 1) + if s[from] == c then 1 else 0
  }

  lemma {:induction false} CountGap(s: string, c: char, from: nat, end: nat)
    requires from <= end <= |s|
    ensures CountFrom(s, c, from) >= CountFrom(s, c, end)
    ensures CountFrom(s, c, from) == CountFrom(s, c, end) <==> (forall j :: from <= j < end ==> s[j] != c)
    decreases end - from
  {
    if from < end {
      CountGap(s, c, from + 1, end);
    }
  }

  /** A dash with one more dash behind it is the second from the end; with fewer than two there is none. */
  lemma SecondDash(s: string, at: nat)
    requires at <= |s|
    ensures at < |s| && s[at] == '-' && CountFrom(s, '-', at) == 2 ==> NameEnd(s) == at
    ensures at == 0 && CountFrom(s, '-', at) < 2 ==> NameEnd(s) == -1
  {
    var last := LastIndex(s, '-');
    if last < at {
      CountGap(s, '-', at, |s|);
    } else {
      CountGap(s, '-', last + 1, |s|);
      assert CountFrom(s, '-', last) == 1;
      if s[at] == '-' && at < last {
        CountGap(s, '-', at + 1, last);
      } else {
        CountGap(s, '-', at, last);
      }
    }
  }

  /**
   * `package_new_from_NEVR`: runs to the end of a copy, scans back to the second dash, cuts there. The
   * result is the header that `package_s_create` fills.
   */
  method PackageNewFromNEVR(nevr: string) returns (package: Result<Entries>)
    requires NUL !in nevr
    ensures package == FromNEVR(nevr)
  {
    var tmp := Duplicate(nevr);
    var name, evr := nevr, "";
    var end := FindNameEnd(tmp, nevr);
    if end >= 0 {
      tmp[end] := NUL;
      name, evr := CutPieces(tmp, nevr, end);
    }
    var version := VersionNewFromEVR(evr);
    package := if version.Err? then Err(version.error) else Create(name, version.value);
  }

  /** Its two loops: forward to the end, then back over two dashes; -1 when the text starts first. */
  method FindNameEnd(buf: array<char>, ghost nevr: string) returns (at: int)
    requires buf[..] == nevr + [NUL] && NUL !in nevr
    ensures at == NameEnd(nevr)
  {
    var end := 0;
    while buf[end] != NUL
      invariant end <= |nevr|
      decreases |nevr| - end
    {
      end := end + 1;
    }
    var i := 0;
    while i < 2
      invariant end <= |nevr|
      invariant i == CountFrom(nevr, '-', end) <= 2
      invariant i == 2 ==> end < |nevr| && nevr[end] == '-'
      decreases end, 2 - i
    {
      if end <= 0 {
        break;
      }
      end := end - 1;
      if buf[end] == '-' {
        i := i + 1;
      }
    }
    SecondDash(nevr, end);
    at := if i == 2 then end else -1;
  }

  /** The two strings in a buffer that was cut at one place. */
  method CutPieces(buf: array<char>, ghost s: string, at: nat) returns (before: string, after: string)
    requires NUL !in s && at < |s| && buf[..] == (s + [NUL])[at := NUL]
    ensures before == s[..at] && after == s[at + 1..]
  {
    StringBetween(buf[..], s, 0, at);
    StringBetween(buf[..], s, at + 1, |s|);
    before, after := StringAt(buf[..], 0), StringAt(buf[..], at + 1);
  }

  // ---------- round trip ----------

  function NevrText(name: string, ver: Version): string {
    name + "-" + ToVre(ver)
  }

  /** The versions whose text the second reader takes back. */
  predicate ReadableEVR(ver: Version) {
    Splittable(ver.v, ver.r) && if ver.e.Some? then !EpochLike(ver.v) else ':' !in ToS(ver)
  }

  lemma EvrRoundTrip(ver: Version)
    ensures FromEVR(ToVre(ver)) == Ok(ver) <==> ReadableEVR(ver)
  {
    if ver.e.Some? {
      EvrWithEpoch(ver);
    } else if ':' !in ToS(ver) {
      assert FirstIndex(ToS(ver), ':') == |ToS(ver)|;
      ParseUndoesPrint(ver);
      EpochLikeOfText(ver.v, ver.r);
      assert ToS(ver) == ToS(Version(ver.v, ver.r, None));
    }
  }

  lemma EvrWithEpoch(ver: Version)
    requires ver.e.Some?
    ensures FromEVR(ToVre(ver)) == Ok(ver) <==> Splittable(ver.v, ver.r) && !EpochLike(ver.v)
  {
    var vr, parts := ToS(ver), SplitRelease(ToS(ver));
    assert vr == ToS(Version(ver.v, ver.r, None));
    assert parts == (ver.v, ver.r) <==> Splittable(ver.v, ver.r) by {
      ReleaseRoundTrip(ver.v, ver.r);
    }
    assert EpochLike(vr) <==> EpochLike(ver.v) by {
      EpochLikeOfText(ver.v, ver.r);
    }
    SecondReaderOfPrinted(vr, ver.e.value);
    SecondReader(vr, ver.e.value);
  }

  lemma SecondReaderOfPrinted(vr: string, e: Epoch)
    ensures FromEVR(Decimal(e) + ":" + vr) == New2(vr, e)
  {
    var digits := Decimal(e);
    DecimalRoundTrip(e);
    AtoiOfDigits(digits);
    FirstInJoint(digits, ':', vr);
    Joint(digits, ':', vr);
  }

  /** Exactly one dash. */
  predicate OneDash(s: string) {
    LastIndex(s, '-') >= 0 && '-' !in s[..LastIndex(s, '-')]
  }

  /** The cut falls behind the name exactly when what follows holds one dash. */
  lemma CutBehindName(name: string, evr: string)
    ensures var s := name + "-" + evr;
      if OneDash(evr) then NamePart(s) == name && EvrPart(s) == evr else NamePart(s) != name
  {
    var s := name + "-" + evr;
    LastInJoint(name, '-', evr);
    Joint(name, '-', evr);
    var last := LastIndex(s, '-');
    if last > |name| {
      assert s[..last] == name + "-" + evr[..last - |name| - 1];
      Joint(name, '-', evr[..last - |name| - 1]);
      LastInJoint(name, '-', evr[..last - |name| - 1]);
      LastBelowIsLastIndex(s, '-', last);
    }
  }

  lemma {:induction false} LastBelowIsLastIndex(s: string, c: char, n: nat)
    requires n <= |s|
    ensures LastBelow(s, c, n) == LastIndex(s[..n], c)
  {
    var i := LastBelow(s, c, n);
    assert forall j :: 0 <= j < n ==> s[..n][j] == s[j];
    if i >= 0 {
      LastIndexIs(s[..n], c, i);
    }
  }

  lemma OneDashOfText(ver: Version)
    requires Splittable(ver.v, ver.r)
    ensures OneDash(ToVre(ver)) <==> ver.r.Some? && '-' !in ver.v
  {
    var prefix := if ver.e.Some? then Decimal(ver.e.value) + ":" else "";
    assert ToVre(ver) == prefix + ToS(ver);
    assert '-' !in prefix;
    if ver.r.Some? {
      assert ToVre(ver) == prefix + ver.v + "-" + ver.r.value;
      OneDashJoint(prefix + ver.v, ver.r.value);
    }
  }

  lemma OneDashJoint(a: string, b: string)
    requires '-' !in b
    ensures OneDash(a + "-" + b) <==> '-' !in a
  {
    LastInJoint(a, '-', b);
    Joint(a, '-', b);
  }

  /** With fewer than two dashes all of the text is the name, and the empty version has no release to write. */
  lemma TooFewDashes(nevr: string)
    requires CountFrom(nevr, '-', 0) < 2
    ensures NamePart(nevr) == nevr && FromNEVR(nevr) == Err(NilDereference)
  {
    SecondDash(nevr, 0);
    NewSucceeds("");
  }

  /** Nothing that this parser delivers is changed by the way through the header. */
  lemma NevrThroughHeader(nevr: string)
    ensures FromNEVR(nevr).Ok? ==> PackageName(FromNEVR(nevr).value) == Some(NamePart(nevr))
    ensures FromNEVR(nevr).Ok? ==> PackageVersion(FromNEVR(nevr).value) == Ok(Some(FromEVR(EvrPart(nevr)).value))
  {
    if FromNEVR(nevr).Err? {
      return;
    }
    var evr := EvrPart(nevr);
    var ver := FromEVR(evr).value;
    CreateKeepsVersion(NamePart(nevr), ver);
    if ver.e.None? {
      WithoutEpoch(evr);
    }
  }

  /** The second reader finds no epoch only where there is no colon; there it is the first. */
  lemma WithoutEpoch(evr: string)
    requires FromEVR(evr).Ok? && FromEVR(evr).value.e.None?
    ensures FromEVR(evr).value.r.Some? ==> Printable(FromEVR(evr).value)
  {
    var colon := FirstIndex(evr, ':');
    if colon < |evr| {
      SecondReader(evr[colon + 1..], Atoi(evr[..colon]));
    } else if New(evr).value.r.Some? {
      ReleasedIsPrintable(evr);
    }
  }

  /** A text with a release has no dangling dash, so what is read from it is printable. */
  lemma ReleasedIsPrintable(evr: string)
    requires New(evr).Ok? && New(evr).value.r.Some?
    ensures Printable(New(evr).value)
  {
    NewSucceeds(evr);
    ParsedIsPrintable(evr);
  }

  /**
   * A package made from `name-[e:]v-r` has that name and version, dashes in the name or not, exactly when v
   * and r hold no dash, r is not empty, and no colon in them can be taken for the end of an epoch.
   */
  lemma NevrRoundTrip(name: string, ver: Version)
    ensures var package := FromNEVR(NevrText(name, ver));
      package.Ok? && PackageName(package.value) == Some(name) && PackageVersion(package.value) == Ok(Some(ver))
      <==> ver.r.Some? && '-' !in ver.v && ReadableEVR(ver)
  {
    var nevr := NevrText(name, ver);
    CutBehindName(name, ToVre(ver));
    EvrRoundTrip(ver);
    NevrThroughHeader(nevr);
    if Splittable(ver.v, ver.r) {
      OneDashOfText(ver);
    }
  }

  /** The package prints as the text it was made from, less the epoch. */
  lemma NevrPrintsBack(name: string, ver: Version)
    requires ver.r.Some? && '-' !in ver.v && ReadableEVR(ver)
    ensures FromNEVR(NevrText(name, ver)).Ok?
    ensures PackageToS(FromNEVR(NevrText(name, ver)).value) == Ok(NevrText(name, ver.(e := None)))
  {
    var nevr := NevrText(name, ver);
    NevrRoundTrip(name, ver);
    CreateHasNoArch(NamePart(nevr), FromEVR(EvrPart(nevr)).value);
    PackageText(FromNEVR(nevr).value, name, ver);
  }
}
