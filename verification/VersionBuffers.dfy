/** The text code of `ext/rpm/version.c` as it works: on character buffers that are cut and filled in place. */
module VersionBuffers {
  import opened Outcomes
  import opened CText
  import opened VersionText

  const BUFSIZ := 8192

  /** A `const char*`: NULL, a string literal, or an offset into the buffer at hand. */
  datatype CPointer = Null | Literal(text: string) | At(offset: nat)

  ghost predicate Readable(b: seq<char>, p: CPointer) {
    p.At? ==> Terminated(b, p.offset)
  }

  /** The string a pointer stands for; `None` for NULL. */
  function Deref(b: seq<char>, p: CPointer): Option<string>
    requires Readable(b, p)
  {
    match p
    case Null => None
    case Literal(text) => Some(text)
    case At(i) => Some(StringAt(b, i))
  }

  /** The strings behind the three pointers are these parts. */
  ghost predicate Delivers(b: seq<char>, epoch: CPointer, version: CPointer, release: CPointer, parts: Evr) {
    && Readable(b, epoch) && Deref(b, epoch) == parts.epoch
    && Readable(b, version) && Deref(b, version) == Some(parts.version)
    && Readable(b, release) && Deref(b, release) == parts.release
  }

  /** `strdup`, and `strcpy` into a buffer allocated to fit. */
  method Duplicate(s: string) returns (buf: array<char>)
    ensures fresh(buf) && buf[..] == s + [NUL]
  {
    buf := new char[|s| + 1](i requires 0 <= i <= |s| => if i < |s| then s[i] else NUL);
  }

  /**
   * `parseEVR`: walks over the leading digits, looks for the last '-' from there on, and puts a NUL
   * over the epoch colon and over that dash.
   */
  method ParseEVR(buf: array<char>, ghost s: string)
    returns (epoch: CPointer, version: CPointer, release: CPointer)
    requires buf[..] == s + [NUL] && NUL !in s
    modifies buf
    ensures Delivers(buf[..], epoch, version, release, SplitEVR(s))
  {
    var at := SkipDigits(buf, s);
    assert Terminated(buf[..], at) && StringAt(buf[..], at) == s[at..] by {
      StringBetween(buf[..], s, at, |s|);
    }
    var dash := LastIndex(StringAt(buf[..], at), '-');
    var terminator := at + dash;
    assert VersionEnd(s) == if dash >= 0 then terminator else |s| by {
      LastDashOfRest(s);
    }

    epoch, version := CutEpoch(buf, s, at);
    release := CutRelease(buf, s, dash, terminator);
    AllDelivered(s);
  }

  /** Behind the digits: the first terminator goes over a colon. */
  method CutEpoch(buf: array<char>, ghost s: string, at: nat) returns (epoch: CPointer, version: CPointer)
    requires buf[..] == s + [NUL] && NUL !in s && at == DigitRun(s)
    modifies buf
    ensures epoch == EpochPointer(s) && version == VersionPointer(s)
    ensures buf[..] == ColonCut(s)
  {
    if buf[at] == ':' {
      epoch := At(0);
      buf[at] := NUL;
      assert buf[..] == (s + [NUL])[at := NUL];
      version := At(at + 1);
      if buf[0] == NUL {
        epoch := Literal("0");
      }
    } else {
      epoch := Null;
      version := At(0);
    }
  }

  /** The second one goes over the last dash; without a dash there is no release. */
  method CutRelease(buf: array<char>, ghost s: string, dash: int, terminator: int) returns (release: CPointer)
    requires buf[..] == ColonCut(s) && VersionEnd(s) == (if dash >= 0 then terminator else |s|)
    requires dash >= 0 ==> terminator < |s|
    modifies buf
    ensures release == ReleasePointer(s) && buf[..] == Terminators(s)
  {
    ghost var before := buf[..];
    if dash >= 0 {
      buf[terminator] := NUL;
      assert buf[..] == before[terminator := NUL];
      release := At(terminator + 1);
    } else {
      release := Null;
      assert before[|s| := NUL] == before;
    }
  }

  method SkipDigits(buf: array<char>, ghost s: string) returns (at: nat)
    requires buf[..] == s + [NUL] && NUL !in s
    ensures at == DigitRun(s)
  {
    at := 0;
    while buf[at] != NUL && IsDigit(buf[at])
      invariant at <= |s| && forall j :: 0 <= j < at ==> IsDigit(s[j])
      decreases |s| - at
    {
      at := at + 1;
    }
    DigitRunIs(s, at);
  }

  /** Where the version ends: at the last dash behind the epoch, or with the text. */
  function VersionEnd(s: string): (to: nat)
    ensures EpochLength(s) <= to <= |s|
  {
    var dash := LastIndex(AfterEpoch(s), '-');
    if dash >= 0 then EpochLength(s) + dash else |s|
  }

  /** The buffer with a terminator over the colon of an epoch, and with its second one too. */
  function ColonCut(s: string): (b: seq<char>)
    ensures |b| == |s| + 1
  {
    if EpochLike(s) then (s + [NUL])[DigitRun(s) := NUL] else s + [NUL]
  }

  function Terminators(s: string): (b: seq<char>)
    ensures |b| == |s| + 1 && b[|s|] == NUL
  {
    ColonCut(s)[VersionEnd(s) := NUL]
  }

  lemma Untouched(s: string, from: nat, to: nat)
    requires from <= to <= |s|
    requires !(from <= EpochLength(s) - 1 < to) && !(from <= VersionEnd(s) < to)
    ensures Terminators(s)[from..to] == s[from..to]
  {
  }

  /** The three pointers that `parseEVR` returns. */
  function EpochPointer(s: string): CPointer {
    if !EpochLike(s) then Null else if DigitRun(s) == 0 then Literal("0") else At(0)
  }

  function VersionPointer(s: string): CPointer {
    At(EpochLength(s))
  }

  function ReleasePointer(s: string): CPointer {
    if VersionEnd(s) == |s| then Null else At(VersionEnd(s) + 1)
  }

  /** The strings they point at are the parts of the split. */
  lemma EpochDelivered(s: string)
    requires NUL !in s
    ensures Readable(Terminators(s), EpochPointer(s))
    ensures Deref(Terminators(s), EpochPointer(s)) == SplitEVR(s).epoch
  {
    if EpochLike(s) {
      Untouched(s, 0, DigitRun(s));
      PieceDelivered(Terminators(s), s, 0, DigitRun(s));
    }
  }

  lemma VersionDelivered(s: string)
    requires NUL !in s
    ensures Readable(Terminators(s), VersionPointer(s))
    ensures Deref(Terminators(s), VersionPointer(s)) == Some(SplitEVR(s).version)
  {
    Untouched(s, EpochLength(s), VersionEnd(s));
    PieceDelivered(Terminators(s), s, EpochLength(s), VersionEnd(s));
    SplitIsCut(s);
  }

  lemma PieceDelivered(b: seq<char>, s: string, from: nat, to: nat)
    requires from <= to <= |s| && |b| == |s| + 1 && NUL !in s
    requires b[from..to] == s[from..to] && b[to] == NUL
    ensures Readable(b, At(from)) && Deref(b, At(from)) == Some(s[from..to])
  {
    StringBetween(b, s, from, to);
  }

  lemma ReleaseDelivered(s: string)
    requires NUL !in s
    ensures Readable(Terminators(s), ReleasePointer(s))
    ensures Deref(Terminators(s), ReleasePointer(s)) == SplitEVR(s).release
  {
    SplitIsCut(s);
    if VersionEnd(s) < |s| {
      Untouched(s, VersionEnd(s) + 1, |s|);
    }
    TailDelivered(Terminators(s), s, VersionEnd(s), SplitEVR(s).release);
  }

  lemma TailDelivered(b: seq<char>, s: string, end: nat, tail: Option<string>)
    requires end <= |s| && |b| == |s| + 1 && b[|s|] == NUL && NUL !in s
    requires end < |s| ==> b[end + 1..|s|] == s[end + 1..|s|]
    requires tail == if end == |s| then None else Some(s[end + 1..|s|])
    ensures var p := if end == |s| then Null else At(end + 1);
      Readable(b, p) && Deref(b, p) == tail
  {
    if end < |s| {
      PieceDelivered(b, s, end + 1, |s|);
    }
  }

  lemma AllDelivered(s: string)
    requires NUL !in s
    ensures Delivers(Terminators(s), EpochPointer(s), VersionPointer(s), ReleasePointer(s), SplitEVR(s))
  {
    EpochDelivered(s);
    VersionDelivered(s);
    ReleaseDelivered(s);
  }

  lemma SplitIsCut(s: string)
    ensures SplitEVR(s).version == s[EpochLength(s)..VersionEnd(s)]
    ensures SplitEVR(s).release ==
      if VersionEnd(s) == |s| then None else Some(s[VersionEnd(s) + 1..|s|])
  {
    var from, rest := EpochLength(s), AfterEpoch(s);
    var dash := LastIndex(rest, '-');
    if dash >= 0 {
      SliceOfSuffix(s, from, 0, dash);
      SliceOfSuffix(s, from, dash + 1, |rest|);
      assert rest[dash + 1..] == rest[dash + 1..|rest|];
    } else {
      assert rest == s[from..|s|];
    }
  }

  /** No dash stands among the leading digits or on the colon, so where the search starts does not matter. */
  lemma LastDashOfRest(s: string)
    ensures var d := LastIndex(s[DigitRun(s)..], '-');
      VersionEnd(s) == if d >= 0 then DigitRun(s) + d else |s|
  {
    var k := DigitRun(s);
    if EpochLike(s) {
      assert s[k..][..1] == ":" && s[k..][1..] == AfterEpoch(s);
      LastIndexDrop(s[k..], '-', 1);
    } else {
      LastIndexDrop(s, '-', k);
    }
  }

  /** `version_parse` */
  method VersionParse(str: string) returns (v: string, r: Option<string>, e: Option<int>)
    requires NUL !in str
    ensures Parsed(v, r, e) == Parse(str)
  {
    r, e := None, None;
    var evr := Duplicate(str);
    var epoch, version, release := ParseEVR(evr, str);
    var ep, re := Deref(evr[..], epoch), Deref(evr[..], release);
    if ep.Some? && ep.value != "" && Atol(ep.value) >= 0 {
      e := Some(Atol(ep.value));
    }
    v := Deref(evr[..], version).value;
    if re.Some? && re.value != "" {
      r := re;
    }
  }

  /** The arguments of `RPM::Version.new`. */
  datatype Arguments = One(vr: string) | Two(vr: string, e: int) | Three(v: string, r: string, e: int)

  /** `version_initialize`, for one to three arguments of the right types. */
  method VersionInitialize(args: Arguments) returns (ver: Result<Version>)
    requires !args.Three? ==> NUL !in args.vr
    ensures ver == match args
      case One(vr) => New(vr)
      case Two(vr, e) => New2(vr, e)
      case Three(v, r, e) => New3(v, r, e)
  {
    var v: string;
    var r: Option<string>, e: Option<int> := None, None;
    match args
    case One(vr) =>
      v, r, e := VersionParse(vr);
      ver := Initialize(v, r, e);
    case Two(vr, epoch) =>
      v, r, e := VersionParse(vr);
      if e.Some? {
        return Err(TypeError);
      }
      ver := Initialize(v, r, Some(epoch));
    case Three(version, release, epoch) =>
      ver := Initialize(version, Some(release), Some(epoch));
  }

  // ---------- printing ----------

  /** `strcpy`, and `snprintf` of a text that fits. */
  method Strcpy(buf: array<char>, at: nat, s: string)
    requires at + |s| < buf.Length && NUL !in s
    modifies buf
    ensures buf[..at] == old(buf[..at])
    ensures Terminated(buf[..], at) && StringAt(buf[..], at) == s
  {
    forall i | 0 <= i < |s| {
      buf[at + i] := s[i];
    }
    buf[at + |s|] := NUL;
    StringAtIs(buf[..], at, s);
  }

  /** `strcat` */
  method Strcat(buf: array<char>, at: nat, s: string)
    requires Terminated(buf[..], at) && NUL !in s
    requires at + |StringAt(buf[..], at)| + |s| < buf.Length
    modifies buf
    ensures buf[..at] == old(buf[..at])
    ensures Terminated(buf[..], at) && StringAt(buf[..], at) == old(StringAt(buf[..], at)) + s
  {
    ghost var before := StringAt(buf[..], at);
    var end := at + |StringAt(buf[..], at)|;
    ghost var prefix := buf[..end];
    assert prefix == buf[..at] + before;
    Strcpy(buf, end, s);
    assert buf[..end] == prefix;
    assert buf[..at] == prefix[..at];
    assert buf[..][at..][..|before|] == before;
    StringAfter(buf[..][at..], |before|);
    assert buf[..][at..][|before|..] == buf[..][end..];
    assert buf[..][at..][0..] == buf[..][at..];
  }

  /** `v`, then `-r`: the part that the two printing functions share. */
  method PrintVersionRelease(buf: array<char>, p: nat, ver: Version)
    requires NUL !in ver.v && (ver.r.Some? ==> NUL !in ver.r.value)
    requires p + |ToS(ver)| < buf.Length
    modifies buf
    ensures buf[..p] == old(buf[..p])
    ensures Terminated(buf[..], p) && StringAt(buf[..], p) == ToS(ver)
  {
    Strcpy(buf, p, ver.v);
    if ver.r.Some? {
      Strcat(buf, p, "-");
      Strcat(buf, p, ver.r.value);
    }
  }

  /** `rpm_version_to_s`, for texts that fit its fixed buffer. */
  method VersionToS(ver: Version) returns (text: string)
    requires NUL !in ver.v && (ver.r.Some? ==> NUL !in ver.r.value)
    requires |ToS(ver)| < BUFSIZ
    ensures text == ToS(ver)
  {
    var buf := new char[BUFSIZ];
    PrintVersionRelease(buf, 0, ver);
    text := StringAt(buf[..], 0);
  }

  /** `rpm_version_to_vre`, for texts that fit its fixed buffer. */
  method VersionToVre(ver: Version) returns (text: string)
    requires NUL !in ver.v && (ver.r.Some? ==> NUL !in ver.r.value)
    requires |ToVre(ver)| < BUFSIZ
    ensures text == ToVre(ver)
  {
    var buf := new char[BUFSIZ];
    var p := 0;
    if ver.e.Some? {
      var printed := Decimal(ver.e.value) + ":";
      Strcpy(buf, 0, printed);
      p := p + |StringAt(buf[..], 0)|;
    }
    ghost var prefix := buf[..p];
    PrintVersionRelease(buf, p, ver);
    StringAfter(buf[..], p);
    text := StringAt(buf[..], 0);
  }

  /** A NUL-free prefix runs on into the string behind it. */
  lemma StringAfter(b: seq<char>, p: nat)
    requires Terminated(b, p) && NUL !in b[..p]
    ensures Terminated(b, 0) && StringAt(b, 0) == b[..p] + StringAt(b, p)
  {
    var n := FirstIndex(b[p..], NUL);
    var text := b[..p] + b[p..][..n];
    assert b[0..p + n] == text && b[p + n] == b[p..][n];
    StringAtIs(b, 0, text);
  }
}
