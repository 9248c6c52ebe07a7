/** `rpm_transaction_check`: reading the problems that librpm reports as text. */
module Problems {
  import opened Outcomes
  import opened CText
  import opened VersionText
  import opened VersionBuffers
  import opened Headers
  import opened Nevr

  /** `flags |= bit`, for a flag word and a single bit. */
  function SetBit(flags: nat, bit: nat): nat
    requires bit > 0
  {
    if flags / bit % 2 == 1 then flags else flags + bit
  }

  datatype ProblemType = PROB_REQUIRES | PROB_OTHER

  /** One entry of the problem set: what is needed, and the package that needs it. */
  datatype Entry = Entry(kind: ProblemType, altNEVR: string, pkgNEVR: string)

  /** `RPM::Require`; the owner stands for the package made from its name. */
  datatype Require = Require(name: string, version: Version, flags: nat, owner: Entries)

  /** librpm puts two characters in front of the text, and C strings hold no NUL. */
  type Problem = p: Entry | |p.altNEVR| >= 2 && NUL !in p.altNEVR && NUL !in p.pkgNEVR
    witness Entry(PROB_OTHER, "? ", "")

  // ---------- one problem ----------

  /** Bit 2 says that `<` occurs, 4 that `>` does, 8 that `=` does; no other bit is set. */
  ghost predicate Marks(relation: string, flags: nat) {
    && (flags / 2 % 2 == 1 <==> '<' in relation)
    && (flags / 4 % 2 == 1 <==> '>' in relation)
    && (flags / 8 % 2 == 1 <==> '=' in relation)
    && flags % 2 == 0 && flags < 16
  }

  /** The senses named by the characters of a relation, in whatever order and number. */
  function Senses(relation: string): nat {
    (if '<' in relation then SENSE_LESS else 0) +
    (if '>' in relation then SENSE_GREATER else 0) +
    (if '=' in relation then SENSE_EQUAL else 0)
  }

  lemma SensesMark(relation: string)
    ensures Marks(relation, Senses(relation))
  {
  }

  datatype Clause = Clause(name: string, flags: nat, evr: string)

  /** `name relation evr`, where the later parts may be missing. */
  function SplitClause(text: string): Clause {
    var blank := FirstIndex(text, ' ');
    if blank == |text| then Clause(text, 0, "")
    else
      var rest := text[blank + 1..];
      Clause(text[..blank], Senses(rest[..FirstIndex(rest, ' ')]), AfterBlank(rest))
  }

  /**
   * The text is the name alone, or name and relation with a blank between them, or name, relation and version text with
   * two; only the version text can hold a blank.
   */
  ghost predicate TakenApart(text: string, clause: Clause) {
    && ' ' !in clause.name
    && (text == clause.name ==> clause.flags == 0 && clause.evr == "")
    && (text != clause.name ==>
          exists relation: string :: ' ' !in relation && Marks(relation, clause.flags) &&
            ((text == clause.name + " " + relation && clause.evr == "") ||
             text == clause.name + " " + (relation + " " + clause.evr)))
  }

  lemma SplitTakesApart(text: string)
    ensures TakenApart(text, SplitClause(text))
  {
    var blank := FirstIndex(text, ' ');
    if blank < |text| {
      var name, rest := text[..blank], text[blank + 1..];
      assert text == name + " " + rest;
      var relation := BehindName(rest);
      assert SplitClause(text) == Clause(name, Senses(relation), AfterBlank(rest));
    }
  }

  lemma BehindName(rest: string) returns (relation: string)
    ensures relation == rest[..FirstIndex(rest, ' ')] && ' ' !in relation && Marks(relation, Senses(relation))
    ensures (rest == relation && AfterBlank(rest) == "") || rest == relation + " " + AfterBlank(rest)
  {
    relation := rest[..FirstIndex(rest, ' ')];
    SensesMark(relation);
  }

  function Read(p: Entry): Result<Require>
    requires |p.altNEVR| >= 2
  {
    Resolve(SplitClause(p.altNEVR[2..]), p.pkgNEVR)
  }

  function Resolve(clause: Clause, pkgNEVR: string): Result<Require> {
    var version :- New(clause.evr);
    var owner :- FromNEVR(pkgNEVR);
    Ok(Require(clause.name, version, clause.flags, owner))
  }

  /** The flag loop: each character may set one bit. */
  method ReadSenses(buf: array<char>, start: nat, ghost text: string) returns (flags: nat)
    requires NUL !in text && Holds(buf[..], start, text)
    ensures flags == Senses(text) && Marks(text, flags)
  {
    flags := 0;
    var relation := start;
    ghost var n := 0;
    while buf[relation] != NUL
      invariant n <= |text| && relation == start + n
      invariant flags == Senses(text[..n])
      decreases |text| - n
    {
      assert buf[relation] == text[n];
      assert text[..n + 1] == text[..n] + [text[n]];
      if buf[relation] == '=' {
        flags := SetBit(flags, SENSE_EQUAL);
      } else if buf[relation] == '>' {
        flags := SetBit(flags, SENSE_GREATER);
      } else if buf[relation] == '<' {
        flags := SetBit(flags, SENSE_LESS);
      }
      relation := relation + 1;
      n := n + 1;
    }
    assert text[..n] == text;
    SensesMark(text);
  }

  /** Takes `name relation evr` apart in a copy, by putting NULs over the first two blanks. */
  method ParseClause(text: string) returns (clause: Clause)
    requires NUL !in text
    ensures clause == SplitClause(text) && TakenApart(text, clause)
  {
    SplitTakesApart(text);
    var buf := Duplicate(text);
    assert Terminated(buf[..], 0) && StringAt(buf[..], 0) == text by {
      StringAtIs(buf[..], 0, text);
    }
    var end := FirstIndex(StringAt(buf[..], 0), ' ');
    if end == |text| {
      return Clause(text, 0, "");
    }
    buf[end] := NUL;
    var name, _ := CutPieces(buf, text, end);
    assert buf[end + 1..] == text[end + 1..] + [NUL] by {
      Suffix(text, buf[..], end);
    }
    var evr := CutRelation(buf, end + 1, text[end + 1..]);
    var flags := ReadSenses(buf, end + 1, text[end + 1..][..FirstIndex(text[end + 1..], ' ')]);
    clause := Clause(name, flags, evr);
  }

  lemma Suffix(text: string, b: seq<char>, end: nat)
    requires end < |text| && b == (text + [NUL])[end := NUL]
    ensures b[end + 1..] == text[end + 1..] + [NUL]
  {
  }

  /** The part behind the name: cuts at the next blank and delivers the text after it, "" when there is none. */
  method CutRelation(buf: array<char>, relation: nat, ghost rest: string) returns (evr: string)
    requires relation <= buf.Length && buf[relation..] == rest + [NUL] && NUL !in rest
    modifies buf
    ensures evr == AfterBlank(rest)
    ensures Holds(buf[..], relation, rest[..FirstIndex(rest, ' ')])
  {
    assert Terminated(buf[..], relation) && StringAt(buf[..], relation) == rest by {
      ReadEnd(buf[..], relation, rest);
    }
    var text := StringAt(buf[..], relation);
    var next := FirstIndex(text, ' ');
    ghost var before := buf[..];
    assert before[relation..] == rest + [NUL];
    if next == |text| {
      HoldsAll(before, relation, rest);
      return "";
    }
    buf[relation + next] := NUL;
    assert buf[..] == before[relation + next := NUL];
    CutAtBlank(before, relation, rest, next);
    assert Terminated(buf[..], relation + next + 1) && StringAt(buf[..], relation + next + 1) == rest[next + 1..] by {
      ReadEnd(buf[..], relation + next + 1, rest[next + 1..]);
    }
    evr := StringAt(buf[..], relation + next + 1);
  }

  lemma HoldsAll(b: seq<char>, from: nat, rest: string)
    requires from <= |b| && b[from..] == rest + [NUL]
    ensures Holds(b, from, rest[..|rest|])
  {
    assert b[from..from + |rest|] == b[from..][..|rest|] && b[from + |rest|] == b[from..][|rest|];
  }

  function AfterBlank(text: string): string {
    var blank := FirstIndex(text, ' ');
    if blank < |text| then text[blank + 1..] else ""
  }

  /** The buffer holds this text, and a NUL behind it. */
  ghost predicate Holds(b: seq<char>, at: nat, text: string) {
    at + |text| < |b| && b[at..at + |text|] == text && b[at + |text|] == NUL
  }

  lemma CutAtBlank(b: seq<char>, from: nat, rest: string, next: nat)
    requires from <= |b| && b[from..] == rest + [NUL] && NUL !in rest && next < |rest|
    ensures Holds(b[from + next := NUL], from, rest[..next])
    ensures b[from + next := NUL][from + next + 1..] == rest[next + 1..] + [NUL]
  {
    var cut := b[from + next := NUL];
    assert cut[from..from + next] == b[from..][..next];
    assert cut[from + next + 1..] == b[from..][next + 1..];
  }

  lemma ReadEnd(b: seq<char>, from: nat, text: string)
    requires from <= |b| && b[from..] == text + [NUL] && NUL !in text
    ensures Terminated(b, from) && StringAt(b, from) == text
  {
    assert b[from..from + |text|] == b[from..][..|text|] && b[from + |text|] == b[from..][|text|];
    StringAtIs(b, from, text);
  }

  /** One requirement as a dependency, with a package made for its owner. */
  method ReadRequirement(p: Problem) returns (dep: Result<Require>)
    ensures dep == Read(p)
  {
    var clause := ParseClause(p.altNEVR[2..]);
    var version := New(clause.evr);
    if version.Err? {
      return Err(version.error);
    }
    var owner := PackageNewFromNEVR(p.pkgNEVR);
    if owner.Err? {
      return Err(owner.error);
    }
    dep := Ok(Require(clause.name, version.value, clause.flags, owner.value));
  }

  // ---------- all problems ----------

  /** The problems of the one kind that is reported, in order. */
  function Requirements(ps: seq<Problem>): seq<Problem> {
    if ps == [] then []
    else
      var last := ps[|ps| - 1];
      Requirements(ps[..|ps| - 1]) + if last.kind.PROB_REQUIRES? then [last] else []
  }

  /** Each problem is kept or left out by its own kind, and the order stays. */
  lemma {:induction false} RequirementsJoin(p: Problem, ps: seq<Problem>, qs: seq<Problem>)
    ensures Requirements([p]) == if p.kind == PROB_REQUIRES then [p] else []
    ensures Requirements(ps + qs) == Requirements(ps) + Requirements(qs)
  {
    assert [p][..0] == [];
    if qs == [] {
      assert ps + qs == ps;
    } else {
      RequirementsJoin(p, ps, qs[..|qs| - 1]);
      assert (ps + qs)[..|ps + qs| - 1] == ps + qs[..|qs| - 1];
    }
  }

  /** Each requirement read. */
  function Readings(rs: seq<Problem>): (readings: seq<Result<Require>>)
    ensures |readings| == |rs| && forall i :: 0 <= i < |rs| ==> readings[i] == Read(rs[i])
  {
    seq(|rs|, i requires 0 <= i < |rs| => Read(rs[i]))
  }

  /** What `check` delivers: nil without problems, else all the requirements read, or the first error among them. */
  function Checked(ps: seq<Problem>): Result<Option<seq<Require>>> {
    if ps == [] then Ok(None)
    else
      var list :- Collect(Readings(Requirements(ps)));
      Ok(Some(list))
  }

  /** `rpm_transaction_check`, from the trimmed problem set on. */
  method TransactionCheck(ps: seq<Problem>) returns (list: Result<Option<seq<Require>>>)
    ensures list == Checked(ps)
  {
    if |ps| == 0 {
      return Ok(None);
    }
    var found: seq<Require> := [];
    for i := 0 to |ps|
      invariant ReadSoFar(ps, i, found)
    {
      NextReading(ps, i, found);
      if ps[i].kind.PROB_REQUIRES? {
        var dep := ReadRequirement(ps[i]);
        if dep.Err? {
          return Err(dep.error);
        }
        found := found + [dep.value];
      }
    }
    AllRead(ps, found);
    list := Ok(Some(found));
  }

  /** The requirements among the first `i` problems have been read. */
  ghost predicate ReadSoFar(ps: seq<Problem>, i: nat, found: seq<Require>) {
    && i <= |ps| && |found| == |Requirements(ps[..i])| <= |Requirements(ps)|
    && Collect(Readings(Requirements(ps))[..|found|]) == Ok(found)
  }

  lemma NextReading(ps: seq<Problem>, i: nat, found: seq<Require>)
    requires i < |ps| && ReadSoFar(ps, i, found)
    ensures var reading := Read(ps[i]);
      if !ps[i].kind.PROB_REQUIRES? then ReadSoFar(ps, i + 1, found)
      else if reading.Ok? then ReadSoFar(ps, i + 1, found + [reading.value])
      else Checked(ps) == Err(reading.error)
  {
    NextRequirement(ps, i);
    if ps[i].kind.PROB_REQUIRES? {
      CollectNext(Readings(Requirements(ps)), |found|, found);
    }
  }

  lemma AllRead(ps: seq<Problem>, found: seq<Require>)
    requires ps != [] && ReadSoFar(ps, |ps|, found)
    ensures Checked(ps) == Ok(Some(found))
  {
    var readings := Readings(Requirements(ps));
    assert ps[..|ps|] == ps && readings[..|readings|] == readings;
  }

  /** A problem that is a requirement comes next in their list, and one that is not changes nothing. */
  lemma NextRequirement(ps: seq<Problem>, i: nat)
    requires i < |ps|
    ensures |Requirements(ps[..i + 1])| <= |Requirements(ps)|
    ensures |Requirements(ps[..i + 1])| == |Requirements(ps[..i])| + if ps[i].kind.PROB_REQUIRES? then 1 else 0
    ensures ps[i].kind.PROB_REQUIRES? ==> Requirements(ps)[|Requirements(ps[..i])|] == ps[i]
  {
    assert ps[..i + 1][..i] == ps[..i];
    RequirementsPrefix(ps, i + 1);
  }

  lemma {:induction false} RequirementsPrefix(ps: seq<Problem>, i: nat)
    requires i <= |ps|
    ensures Requirements(ps[..i]) <= Requirements(ps)
  {
    if i < |ps| {
      RequirementsPrefix(ps[..|ps| - 1], i);
      assert ps[..|ps| - 1][..i] == ps[..i];
    } else {
      assert ps[..i] == ps;
    }
  }

  ghost predicate Unreadable(p: Problem) {
    Read(p).Err?
  }

  /** Nil means that there are no problems at all; a list reports exactly the requirements, one for one and in order. */
  lemma CheckReports(ps: seq<Problem>)
    ensures Checked(ps) == Ok(None) <==> ps == []
    ensures Checked(ps).Ok? && ps != [] ==>
      |Checked(ps).value.value| == |Requirements(ps)| &&
      forall i :: 0 <= i < |Requirements(ps)| ==> Read(Requirements(ps)[i]) == Ok(Checked(ps).value.value[i])
    ensures Checked(ps).Err? <==> exists p :: p in Requirements(ps) && Unreadable(p)
  {
    CollectValues(Readings(Requirements(ps)));
    SomeUnreadable(Requirements(ps));
  }

  lemma SomeUnreadable(rs: seq<Problem>)
    ensures Collect(Readings(rs)).Err? <==> exists p :: p in rs && Unreadable(p)
  {
    var readings := Readings(rs);
    CollectValues(readings);
    if Collect(readings).Err? {
      var i :| 0 <= i < |readings| && readings[i].Err?;
      assert Unreadable(rs[i]);
    } else {
      forall p | p in rs ensures !Unreadable(p) {
        var i :| 0 <= i < |rs| && rs[i] == p;
        assert readings[i].Ok?;
      }
    }
  }

  /** An error is that of the first requirement that cannot be read. */
  lemma CheckRaisesFirst(ps: seq<Problem>, at: nat)
    requires at < |Requirements(ps)| && Read(Requirements(ps)[at]).Err?
    requires forall i :: 0 <= i < at ==> Read(Requirements(ps)[i]).Ok?
    ensures Checked(ps) == Err(Read(Requirements(ps)[at]).error)
  {
    CollectFails(Readings(Requirements(ps)), at);
  }

  // ---------- round trip ----------

  function ProblemText(name: string, relation: string, ver: Version): string {
    "R " + (name + " " + (relation + " " + ToVre(ver)))
  }

  /**
   * The text `R name op evr` gives name and version back exactly when the name holds no blank and the version is
   * printable.
   */
  lemma ProblemRoundTrip(name: string, relation: string, ver: Version, nevr: string)
    requires ' ' !in relation && FromNEVR(nevr).Ok?
    ensures var r := Read(Entry(PROB_REQUIRES, ProblemText(name, relation, ver), nevr));
      if ' ' !in name && Printable(ver)
      then r == Ok(Require(name, ver, Senses(relation), FromNEVR(nevr).value))
      else r.Err? || r.value.name != name || r.value.version != ver
  {
    var behind := relation + " " + ToVre(ver);
    assert ProblemText(name, relation, ver)[2..] == name + " " + behind;
    ParseUndoesPrint(ver);
    if ' ' !in name {
      SplitJoinedClause(name, relation, ToVre(ver));
    } else {
      NameIsCut(name, behind);
    }
  }

  /**
   * What is made of the three forms of a requirement, for any name and relation without blanks: without version text
   * the version is empty, without relation there are no flags. The error is that of the version, or else of the owner.
   */
  lemma RequirementForms(name: string, relation: string, evr: string, nevr: string)
    requires ' ' !in name && ' ' !in relation
    ensures var owner, none := FromNEVR(nevr), Version("", None, None);
      && Marks(relation, Senses(relation))
      && Read(Entry(PROB_REQUIRES, "R " + name, nevr)) ==
           (if owner.Ok? then Ok(Require(name, none, 0, owner.value)) else Err(owner.error))
      && Read(Entry(PROB_REQUIRES, "R " + (name + " " + relation), nevr)) ==
           (if owner.Ok? then Ok(Require(name, none, Senses(relation), owner.value)) else Err(owner.error))
      && Read(Entry(PROB_REQUIRES, "R " + (name + " " + (relation + " " + evr)), nevr)) ==
           if New(evr).Err? then Err(New(evr).error)
           else if owner.Ok? then Ok(Require(name, New(evr).value, Senses(relation), owner.value))
           else Err(owner.error)
  {
    EmptyVersion();
    SensesMark(relation);
    assert ("R " + name)[2..] == name;
    assert FirstIndex(name, ' ') == |name|;
    assert ("R " + (name + " " + relation))[2..] == name + " " + relation;
    SplitRelation(name, relation);
    assert ("R " + (name + " " + (relation + " " + evr)))[2..] == name + " " + (relation + " " + evr);
    SplitJoinedClause(name, relation, evr);
  }

  lemma EmptyVersion()
    ensures New("") == Ok(Version("", None, None))
  {
  }

  lemma SplitRelation(name: string, relation: string)
    requires ' ' !in name && ' ' !in relation
    ensures SplitClause(name + " " + relation) == Clause(name, Senses(relation), "")
  {
    FirstInJoint(name, ' ', relation);
    Joint(name, ' ', relation);
    assert FirstIndex(relation, ' ') == |relation|;
    assert relation[..|relation|] == relation;
  }

  lemma NameIsCut(name: string, behind: string)
    requires ' ' in name
    ensures SplitClause(name + " " + behind).name != name
  {
    var text := name + " " + behind;
    var j :| 0 <= j < |name| && name[j] == ' ';
    assert text[j] == ' ';
  }

  lemma SplitJoinedClause(name: string, relation: string, evr: string)
    requires ' ' !in name && ' ' !in relation
    ensures SplitClause(name + " " + (relation + " " + evr)) == Clause(name, Senses(relation), evr)
  {
    FirstInJoint(name, ' ', relation + " " + evr);
    Joint(name, ' ', relation + " " + evr);
    FirstInJoint(relation, ' ', evr);
    Joint(relation, ' ', evr);
  }
}
