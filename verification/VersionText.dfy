/** Version objects and their text: the functional reading of `ext/rpm/version.c`. */
module VersionText {
  import opened Outcomes
  import opened CText

  /** Epochs that `NUM2INT` accepts and `version_initialize` does not refuse as negative. */
  type Epoch = e: int | 0 <= e <= INT_MAX

  datatype Version = Version(v: string, r: Option<string>, e: Option<Epoch>)

  // ---------- splitting ----------

  /** Zero or more digits followed by ':' at the start. */
  predicate EpochLike(s: string) {
    DigitRun(s) < |s| && s[DigitRun(s)] == ':'
  }

  /** Length of a leading epoch with its colon; 0 when there is none. */
  function EpochLength(s: string): (n: nat)
    ensures n <= |s|
  {
    if EpochLike(s) then DigitRun(s) + 1 else 0
  }

  /** What remains once a leading epoch and its colon are taken off. */
  function AfterEpoch(s: string): string {
    s[EpochLength(s)..]
  }

  /** The three strings that `parseEVR` delivers; `None` is a NULL pointer. */
  datatype Evr = Evr(epoch: Option<string>, version: string, release: Option<string>)

  function SplitEVR(s: string): Evr {
    var epoch :=
      if !EpochLike(s) then None
      else if DigitRun(s) == 0 then Some("0")
      else Some(s[..DigitRun(s)]);
    var rest := AfterEpoch(s);
    var dash := LastIndex(rest, '-');
    if dash >= 0 then Evr(epoch, rest[..dash], Some(rest[dash + 1..])) else Evr(epoch, rest, None)
  }

  // ---------- constructing versions ----------

  /** `version_parse`: a NULL or empty release is nil, an epoch is read by `atol`. */
  datatype Parsed = Parsed(v: string, r: Option<string>, e: Option<int>)

  function Parse(s: string): Parsed {
    var p := SplitEVR(s);
    var e := if p.epoch.Some? && p.epoch.value != "" && Atol(p.epoch.value) >= 0
             then Some(Atol(p.epoch.value)) else None;
    Parsed(p.version, if p.release == Some("") then None else p.release, e)
  }

  /** The closing check of `version_initialize`; `NUM2INT` raises first when the epoch is not an int. */
  function Initialize(v: string, r: Option<string>, e: Option<int>): Result<Version> {
    if e.None? then Ok(Version(v, r, None))
    else if !IsInt(e.value) then Err(RangeError)
    else if e.value < 0 then Err(ArgumentError)
    else Ok(Version(v, r, Some(e.value)))
  }

  /** `RPM::Version.new(vr)` */
  function New(vr: string): Result<Version> {
    var p := Parse(vr);
    Initialize(p.v, p.r, p.e)
  }

  /** `RPM::Version.new(vr, e)` */
  function New2(vr: string, e: int): Result<Version> {
    var p := Parse(vr);
    if p.e.Some? then Err(TypeError) else Initialize(p.v, p.r, Some(e))
  }

  /** `RPM::Version.new(v, r, e)` */
  function New3(v: string, r: string, e: int): Result<Version> {
    Initialize(v, Some(r), Some(e))
  }

  // ---------- printing ----------

  function ToS(ver: Version): string {
    if ver.r.Some? then ver.v + "-" + ver.r.value else ver.v
  }

  function ToVre(ver: Version): string {
    if ver.e.Some? then Decimal(ver.e.value) + ":" + ToS(ver) else ToS(ver)
  }

  // ---------- splitting what was joined ----------

  /** The parts of `v-r` can be told apart again. */
  predicate Splittable(v: string, r: Option<string>) {
    if r.Some? then r.value != "" && '-' !in r.value else '-' !in v
  }

  function SplitRelease(s: string): (string, Option<string>) {
    var dash := LastIndex(s, '-');
    if dash >= 0 then (s[..dash], if s[dash + 1..] == "" then None else Some(s[dash + 1..])) else (s, None)
  }

  lemma ReleaseRoundTrip(v: string, r: Option<string>)
    ensures SplitRelease(ToS(Version(v, r, None))) == (v, r) <==> Splittable(v, r)
  {
    var s := ToS(Version(v, r, None));
    if r.Some? {
      assert s[|v|] == '-' && s[|v| + 1..] == r.value && s[..|v|] == v;
      if '-' !in r.value {
        LastIndexIs(s, '-', |v|);
      } else {
        var j :| 0 <= j < |r.value| && r.value[j] == '-';
        assert s[|v| + 1 + j] == '-';
        assert LastIndex(s, '-') > |v|;
      }
    }
  }

  /** The number in front of the colon. */
  function EpochValue(s: string): nat
    requires EpochLike(s)
  {
    DecimalValue(s[..DigitRun(s)])
  }

  lemma EpochOfSplit(s: string)
    requires EpochLike(s)
    ensures var digits := SplitEVR(s).epoch;
      digits.Some? && digits.value != "" && AllDigits(digits.value) && DecimalValue(digits.value) == EpochValue(s)
  {
    if DigitRun(s) == 0 {
      assert s[..0] == [] && "0"[..0] == [];
    }
  }

  lemma ParseUnfolds(s: string)
    ensures (Parse(s).v, Parse(s).r) == SplitRelease(AfterEpoch(s))
    ensures Parse(s).e.Some? <==> EpochLike(s)
    ensures EpochLike(s) ==> Parse(s).e.value == (if EpochValue(s) > LONG_MAX then LONG_MAX else EpochValue(s))
  {
    if EpochLike(s) {
      EpochOfSplit(s);
      AtolOfDigits(SplitEVR(s).epoch.value);
    }
  }

  /** An epoch that is an int is the only thing `Version.new` asks of its argument. */
  lemma NewSucceeds(s: string)
    ensures New(s).Ok? <==> (EpochLike(s) ==> EpochValue(s) <= INT_MAX)
    ensures New(s).Ok? ==>
      var (v, r) := SplitRelease(AfterEpoch(s));
      New(s).value == Version(v, r, if EpochLike(s) then Some(EpochValue(s)) else None)
  {
    ParseUnfolds(s);
  }

  /** An epoch that is given as a number: from 0 to the largest int, and only where the text has none. */
  lemma EpochArgument(v: string, r: string, vr: string, e: int)
    ensures New3(v, r, e) ==
      if 0 <= e <= 0x7fff_ffff then Ok(Version(v, Some(r), Some(e)))
      else if -0x8000_0000 <= e < 0 then Err(ArgumentError) else Err(RangeError)
    ensures New2(vr, e) ==
      if EpochLike(vr) then Err(TypeError)
      else if 0 <= e <= 0x7fff_ffff then Ok(Version(SplitRelease(vr).0, SplitRelease(vr).1, Some(e)))
      else if -0x8000_0000 <= e < 0 then Err(ArgumentError) else Err(RangeError)
  {
    ParseUnfolds(vr);
    assert !EpochLike(vr) ==> AfterEpoch(vr) == vr;
  }

  lemma EpochPrefix(digits: string, rest: string)
    requires AllDigits(digits)
    ensures EpochLike(digits + ":" + rest)
    ensures DigitRun(digits + ":" + rest) == |digits|
    ensures (digits + ":" + rest)[..|digits|] == digits
    ensures AfterEpoch(digits + ":" + rest) == rest
  {
    var s := digits + ":" + rest;
    assert s[..|digits|] == digits;
    DigitRunIs(s, |digits|);
  }

  /** A release part never makes a version look like an epoch, since '-' ends the run of digits. */
  lemma EpochLikeOfText(v: string, r: Option<string>)
    ensures EpochLike(ToS(Version(v, r, None))) <==> EpochLike(v)
  {
    var s := ToS(Version(v, r, None));
    var k := DigitRun(v);
    assert s[..k] == v[..k];
    DigitRunIs(s, k);
  }

  // ---------- main results ----------

  /** The versions whose text says everything about them. */
  predicate Printable(ver: Version) {
    Splittable(ver.v, ver.r) && (ver.e.None? ==> !EpochLike(ver.v))
  }

  /** Reading back the text of a version gives that version, for exactly the printable ones. */
  lemma ParseUndoesPrint(ver: Version)
    ensures New(ToVre(ver)) == Ok(ver) <==> Printable(ver)
  {
    var text := ToVre(ver);
    var vr := ToS(Version(ver.v, ver.r, None));
    assert vr == ToS(ver);
    NewSucceeds(text);
    ReleaseRoundTrip(ver.v, ver.r);
    if ver.e.Some? {
      DecimalRoundTrip(ver.e.value);
      EpochPrefix(Decimal(ver.e.value), vr);
    } else {
      EpochLikeOfText(ver.v, ver.r);
    }
  }

  /** Version, release and epoch as they are written and read, whatever dashes and colons the version holds. */
  lemma WrittenForms(v: string, r: string, e: Epoch)
    requires r != "" && '-' !in r
    ensures New(Decimal(e) + ":" + (v + "-" + r)) == Ok(Version(v, Some(r), Some(e)))
    ensures New(v + "-" + r) == Ok(Version(v, Some(r), None)) <==> !EpochLike(v)
    ensures ToVre(Version(v, Some(r), Some(e))) == Decimal(e) + ":" + (v + "-" + r)
    ensures ToS(Version(v, Some(r), Some(e))) == ToVre(Version(v, Some(r), None)) == v + "-" + r
  {
    ParseUndoesPrint(Version(v, Some(r), Some(e)));
    ParseUndoesPrint(Version(v, Some(r), None));
  }

  /** An example: epoch 1, version 0.9.0, release 1m. */
  lemma VersionExample()
    ensures var ver := Version("0.9.0", Some("1m"), Some(1));
      && New("1:0.9.0-1m") == New2("0.9.0-1m", 1) == New3("0.9.0", "1m", 1) == Ok(ver)
      && ToVre(ver) == "1:0.9.0-1m" && ToS(ver) == "0.9.0-1m"
      && New("0.9.0-1m") == Ok(ver.(e := None))
  {
    assert Decimal(1) == "1";
    assert "1:0.9.0-1m" == "1" + ":" + ("0.9.0" + "-" + "1m") && "0.9.0-1m" == "0.9.0" + "-" + "1m";
    DigitRunIs("0.9.0", 1);
    WrittenForms("0.9.0", "1m", 1);
    NewSucceeds("0.9.0-1m");
    EpochLikeOfText("0.9.0", Some("1m"));
    EpochArgument("0.9.0", "1m", "0.9.0-1m", 1);
    assert AfterEpoch("0.9.0-1m") == "0.9.0-1m";
  }

  predicate EndsWithDash(s: string) {
    s != [] && s[|s| - 1] == '-'
  }

  /** `v-r` with an empty release and another dash before it: the one shape whose reading does not print back. */
  predicate DanglingDash(s: string) {
    var rest := AfterEpoch(s);
    EndsWithDash(rest) && '-' in rest[..|rest| - 1]
  }

  lemma ParsedIsPrintable(s: string)
    requires New(s).Ok?
    ensures Printable(New(s).value) <==> !DanglingDash(s)
  {
    NewSucceeds(s);
    var rest := AfterEpoch(s);
    var dash := LastIndex(rest, '-');
    var ver := New(s).value;
    if dash >= 0 && dash == |rest| - 1 {
      assert ver.r == None && ver.v == rest[..|rest| - 1];
    } else if dash >= 0 {
      assert rest[|rest| - 1] == rest[dash + 1..][|rest| - dash - 2];
    }
    if !EpochLike(s) {
      var k := DigitRun(ver.v);
      if EpochLike(ver.v) {
        assert s[..k] == ver.v[..k];
        DigitRunIs(s, k);
      }
    }
  }

  /** Printing is a normal form: parse, print and parse again changes nothing, unless a dash dangles. */
  lemma PrintIsNormalForm(s: string)
    requires New(s).Ok?
    ensures New(ToVre(New(s).value)) == New(s) <==> !DanglingDash(s)
  {
    ParsedIsPrintable(s);
    ParseUndoesPrint(New(s).value);
  }

  lemma NoTrailingDash(s: string)
    requires New(s).Ok? && !EndsWithDash(s)
    ensures Printable(New(s).value) && New(ToVre(New(s).value)) == New(s)
  {
    assert !DanglingDash(s) by {
      var rest := AfterEpoch(s);
      assert rest != [] ==> rest[|rest| - 1] == s[|s| - 1];
    }
    PrintIsNormalForm(s);
    ParsedIsPrintable(s);
  }

  /**
   * Why the exception is needed: "1-2-" reads as version "1-2" without release, which reads as version "1",
   * release "2".
   */
  lemma DanglingDashExample()
    ensures New("1-2-") == Ok(Version("1-2", None, None))
    ensures New(ToVre(Version("1-2", None, None))) == Ok(Version("1", Some("2"), None))
  {
    var s, t := "1-2-", "1-2";
    DigitRunIs(s, 1);
    NewSucceeds(s);
    LastIndexIs(s, '-', 3);
    assert s[..3] == t;
    DigitRunIs(t, 1);
    NewSucceeds(t);
    LastIndexIs(t, '-', 1);
    assert t[..1] == "1" && t[2..] == "2";
  }

  lemma ReleaseJoins(s: string)
    ensures var (v, r) := SplitRelease(s); ToS(Version(v, r, None)) == s <==> !EndsWithDash(s)
  {
    var dash := LastIndex(s, '-');
    if dash >= 0 {
      assert s == s[..dash] + "-" + s[dash + 1..];
    }
  }

  /** The texts that come back letter for letter: no final dash, and an epoch written as `%ld` writes it. */
  lemma PrintUndoesParse(s: string)
    requires New(s).Ok?
    ensures ToVre(New(s).value) == s <==>
      !EndsWithDash(AfterEpoch(s)) && (EpochLike(s) ==> Canonical(s[..DigitRun(s)]))
  {
    NewSucceeds(s);
    var rest := AfterEpoch(s);
    var ver := New(s).value;
    var (v, r) := SplitRelease(rest);
    assert ToS(ver) == ToS(Version(v, r, None));
    ReleaseJoins(rest);
    if EpochLike(s) {
      var digits := s[..DigitRun(s)];
      EpochJoins(s);
      PrintUndoesRead(digits);
      SameEpochText(Decimal(EpochValue(s)), ToS(ver), digits, rest);
    }
  }

  lemma EpochJoins(s: string)
    requires EpochLike(s)
    ensures s == s[..DigitRun(s)] + ":" + AfterEpoch(s)
  {
  }

  lemma SameEpochText(d1: string, t1: string, d2: string, t2: string)
    requires AllDigits(d1) && AllDigits(d2)
    ensures d1 + ":" + t1 == d2 + ":" + t2 <==> d1 == d2 && t1 == t2
  {
    EpochPrefix(d1, t1);
    EpochPrefix(d2, t2);
  }
}
