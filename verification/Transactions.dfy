/**
 * `RPM::DB#transaction`: the control flow between the user's block, commit, abort and the implicit commit at the
 * end.
 */
module Transactions {
  import opened Outcomes
  import opened CText

  // ---------- block programs ----------

  /** An argument of `commit`: a number, or something that `rb_Integer` refuses. */
  datatype Arg = Number(n: int) | NotANumber

  /**
   * What a block can do with its transaction. `Commit` says which block is given for progress callbacks and does
   * during the run, and the problem list made after it; making the list can itself raise (`None`).
   */
  datatype Prog =
    | Skip
    | Then(first: Prog, second: Prog)
    | Install(key: string)
    | Upgrade(key: string)
    | Commit(args: seq<Arg>, callback: Option<Prog>, report: Option<seq<string>>)
    | Abort
    | Raise
    | Rescue(body: Prog, handler: Prog)
    | Ensure(body: Prog, cleanup: Prog)
    | Catch(body: Prog)

  /** How a program ends: by itself, by throwing "abort", or by raising an exception. */
  datatype Outcome = Normal | Thrown | Raised

  /** A call of `rpmtsAddInstallElement`. */
  datatype Element = Element(key: string, upgrade: bool)

  /**
   * A call of `rpmtsRun`: the total announced for rpm's own progress display, the elements at that time, and the
   * list made of its problems.
   */
  datatype RunOf = RunOf(total: Option<nat>, elements: seq<Element>, report: Option<seq<string>>)

  /** The instance variables of the transaction object, and what librpm was asked to do. */
  datatype State = State(
    keys: Option<seq<string>>, commited: bool, aborted: bool, problist: Option<seq<string>>,
    elements: seq<Element>, runs: seq<RunOf>)

  const START := State(None, false, false, None, [], [])

  datatype Done = Done(st: State, outcome: Outcome)

  predicate ValidArgs(args: seq<Arg>) {
    |args| <= 2 && forall i | 0 <= i < |args| :: args[i].Number? && IsInt(args[i].n)
  }

  function KeyList(st: State): seq<string> {
    if st.keys.Some? then st.keys.value else []
  }

  function AddElement(st: State, key: string, upgrade: bool): Done {
    if key in KeyList(st) then Done(st, Raised)
    else Done(st.(keys := Some(KeyList(st) + [key]), elements := st.elements + [Element(key, upgrade)]), Normal)
  }

  /** The run has ended: its problem list is kept, the flag set, and "abort" thrown. */
  function Complete(st: State, run: nat, report: Option<seq<string>>): Done
    requires run < |st.runs|
  {
    if report.None? then Done(st, Raised)
    else
      var runs := st.runs[run := st.runs[run].(report := report)];
      Done(st.(problist := report, commited := true, runs := runs), Thrown)
  }

  function BeginRun(st: State, shown: bool): State {
    st.(runs := st.runs + [RunOf(if shown then Some(|KeyList(st)|) else None, st.elements, None)])
  }

  function Exec(writable: bool, st: State, p: Prog): (d: Done)
    ensures |d.st.runs| >= |st.runs|
    decreases p
  {
    match p
    case Skip => Done(st, Normal)
    case Then(first, second) =>
      var d := Exec(writable, st, first);
      if d.outcome.Normal? then Exec(writable, d.st, second) else d
    case Install(key) => AddElement(st, key, false)
    case Upgrade(key) => AddElement(st, key, true)
    case Commit(args, callback, report) =>
      if !writable || !ValidArgs(args) then Done(st, Raised)
      else
        var begun := BeginRun(st, callback.None?);
        var d := if callback.Some? then Exec(writable, begun, callback.value) else Done(begun, Normal);
        if d.outcome.Normal? then Complete(d.st, |st.runs|, report) else d
    case Abort => Done(st.(aborted := true), Thrown)
    case Raise => Done(st, Raised)
    case Rescue(body, handler) =>
      var d := Exec(writable, st, body);
      if d.outcome.Raised? then Exec(writable, d.st, handler) else d
    case Ensure(body, cleanup) =>
      var d := Exec(writable, st, body);
      var c := Exec(writable, d.st, cleanup);
      if c.outcome.Normal? then c.(outcome := d.outcome) else c
    case Catch(body) =>
      var d := Exec(writable, st, body);
      if d.outcome.Thrown? then d.(outcome := Normal) else d
  }

  /** What the caller of `transaction` gets. */
  datatype Answer = False | Nil | Problems(list: seq<string>) | Exception

  datatype Finished = Finished(st: State, answer: Answer)

  /**
   * `rpm_db_transaction`: the block, then a commit if there was neither abort nor commit and the database is
   * writable.
   */
  function Transaction(writable: bool, block: Prog, callback: Option<Prog>, report: Option<seq<string>>): Finished {
    var d := Exec(writable, START, block);
    if d.outcome.Raised? then Finished(d.st, Exception)
    else if d.st.aborted then Finished(d.st, False)
    else
      var e := if !d.st.commited && writable then Exec(writable, d.st, Commit([], callback, report)) else d;
      if e.outcome.Raised? then Finished(e.st, Exception)
      else Finished(e.st, if e.st.problist.Some? then Problems(e.st.problist.value) else Nil)
  }

  // ---------- keys ----------

  function KeysOf(elements: seq<Element>): (keys: seq<string>)
    ensures |keys| == |elements| && forall i :: 0 <= i < |keys| ==> keys[i] == elements[i].key
  {
    seq(|elements|, i requires 0 <= i < |elements| => elements[i].key)
  }

  ghost predicate NoDuplicates(keys: seq<string>) {
    forall i, j :: 0 <= i < j < |keys| ==> keys[i] != keys[j]
  }

  /** The keys are those of the elements, in order and each once; each total announced is the number of elements. */
  ghost predicate KeysFit(st: State) {
    && KeyList(st) == KeysOf(st.elements)
    && NoDuplicates(KeyList(st))
    && forall i :: 0 <= i < |st.runs| && st.runs[i].total.Some? ==> st.runs[i].total.value == |st.runs[i].elements|
  }

  /** Every program keeps the keys right, whatever is caught, rescued, ensured or refused in it. */
  lemma {:induction false} ExecKeepsKeys(writable: bool, st: State, p: Prog)
    requires KeysFit(st)
    ensures KeysFit(Exec(writable, st, p).st)
    decreases p
  {
    match p
    case Then(first, second) =>
      ExecKeepsKeys(writable, st, first);
      ExecKeepsKeys(writable, Exec(writable, st, first).st, second);
    case Install(key) => AddKeepsKeys(st, key, false);
    case Upgrade(key) => AddKeepsKeys(st, key, true);
    case Commit(args, callback, report) =>
      if callback.Some? {
        ExecKeepsKeys(writable, BeginRun(st, false), callback.value);
      }
    case Rescue(body, handler) =>
      ExecKeepsKeys(writable, st, body);
      ExecKeepsKeys(writable, Exec(writable, st, body).st, handler);
    case Ensure(body, cleanup) =>
      ExecKeepsKeys(writable, st, body);
      ExecKeepsKeys(writable, Exec(writable, st, body).st, cleanup);
    case Catch(body) => ExecKeepsKeys(writable, st, body);
    case _ =>
  }

  lemma AddKeepsKeys(st: State, key: string, upgrade: bool)
    requires KeysFit(st)
    ensures KeysFit(AddElement(st, key, upgrade).st)
  {
  }

  /** After any transaction the keys are those of the elements added, and so is every total announced for progress. */
  lemma TransactionKeepsKeys(writable: bool, block: Prog, callback: Option<Prog>, report: Option<seq<string>>)
    ensures KeysFit(Transaction(writable, block, callback, report).st)
  {
    ExecKeepsKeys(writable, START, block);
    ExecKeepsKeys(writable, Exec(writable, START, block).st, Commit([], callback, report));
  }

  // ---------- installing and upgrading ----------

  /** A key in use raises and changes nothing; another one is appended, with an element that says which call it was. */
  lemma CallAdds(writable: bool, st: State, key: string)
    ensures var install, upgrade := Exec(writable, st, Install(key)), Exec(writable, st, Upgrade(key));
      if key in KeyList(st) then install == upgrade == Done(st, Raised)
      else
        && install.outcome.Normal? && upgrade.outcome.Normal?
        && KeyList(install.st) == KeyList(upgrade.st) == KeyList(st) + [key]
        && install.st == st.(keys := install.st.keys, elements := st.elements + [Element(key, false)])
        && upgrade.st == st.(keys := install.st.keys, elements := st.elements + [Element(key, true)])
  {
  }

  /** Calls of `install` and `upgrade`, each under a `rescue` of its own. */
  function EachRescued(calls: seq<Element>): Prog {
    if calls == [] then Skip
    else
      var last := calls[|calls| - 1];
      var call := if last.upgrade then Upgrade(last.key) else Install(last.key);
      Then(EachRescued(calls[..|calls| - 1]), Rescue(call, Skip))
  }

  /** The first call for each key, in order. */
  function FirstCalls(calls: seq<Element>): seq<Element> {
    if calls == [] then []
    else
      var before, last := calls[..|calls| - 1], calls[|calls| - 1];
      FirstCalls(before) + if exists i | 0 <= i < |before| :: before[i].key == last.key then [] else [last]
  }

  lemma {:induction false} FirstCallsKeys(calls: seq<Element>)
    ensures forall c :: c in FirstCalls(calls) ==> c in calls
    ensures forall c :: c in calls ==> c.key in KeysOf(FirstCalls(calls))
  {
    if calls != [] {
      var before, last := calls[..|calls| - 1], calls[|calls| - 1];
      FirstCallsKeys(before);
      assert calls == before + [last];
      var first, kept := FirstCalls(calls), FirstCalls(before);
      assert kept <= first;
      assert forall k :: k in KeysOf(kept) ==> k in KeysOf(first) by {
        assert forall i :: 0 <= i < |kept| ==> KeysOf(first)[i] == KeysOf(kept)[i];
      }
      if last in first {
        var i :| 0 <= i < |first| && first[i] == last;
        assert KeysOf(first)[i] == last.key;
      }
    }
  }

  lemma {:induction false} AlreadyFirst(calls: seq<Element>)
    requires NoDuplicates(KeysOf(calls))
    ensures FirstCalls(calls) == calls
  {
    if calls != [] {
      var before, last := calls[..|calls| - 1], calls[|calls| - 1];
      assert calls == before + [last];
      assert KeysOf(calls) == KeysOf(before) + [last.key];
      AlreadyFirst(before);
      OneMoreCall(before, last);
      assert forall i :: 0 <= i < |before| ==> KeysOf(calls)[i] != KeysOf(calls)[|before|];
    }
  }

  lemma OneMoreCall(before: seq<Element>, last: Element)
    ensures FirstCalls(before + [last]) ==
      FirstCalls(before) + if last.key in KeysOf(FirstCalls(before)) then [] else [last]
  {
    assert (before + [last])[..|before|] == before;
    KeyIsNew(before, last.key);
  }

  /**
   * Whatever is installed and upgraded, with the refusals rescued: librpm is given the first call for each key, in
   * order, as the call it was, and nothing else happens.
   */
  lemma {:induction false} FirstCallsCount(writable: bool, st: State, calls: seq<Element>)
    requires KeysFit(st)
    ensures var d := Exec(writable, st, EachRescued(calls));
      && d.outcome.Normal? && KeysFit(d.st)
      && d.st == st.(keys := d.st.keys, elements := FirstCalls(st.elements + calls))
  {
    if calls == [] {
      AlreadyFirst(st.elements);
      assert st.elements + calls == st.elements;
    } else {
      var before, last := calls[..|calls| - 1], calls[|calls| - 1];
      FirstCallsCount(writable, st, before);
      RescuedCall(writable, Exec(writable, st, EachRescued(before)).st, last);
      OneMoreCall(st.elements + before, last);
      assert st.elements + calls == st.elements + before + [last];
    }
  }

  lemma RescuedCall(writable: bool, st: State, call: Element)
    requires KeysFit(st)
    ensures var d := Exec(writable, st, Rescue(if call.upgrade then Upgrade(call.key) else Install(call.key), Skip));
      && d.outcome.Normal? && KeysFit(d.st)
      && d.st == st.(keys := d.st.keys,
           elements := st.elements + if call.key in KeysOf(st.elements) then [] else [call])
  {
    CallAdds(writable, st, call.key);
    AddKeepsKeys(st, call.key, call.upgrade);
  }

  lemma KeyIsNew(calls: seq<Element>, key: string)
    ensures key in KeysOf(FirstCalls(calls)) <==> exists i :: 0 <= i < |calls| && calls[i].key == key
  {
    FirstCallsKeys(calls);
    if key in KeysOf(FirstCalls(calls)) {
      var i :| 0 <= i < |FirstCalls(calls)| && KeysOf(FirstCalls(calls))[i] == key;
      assert FirstCalls(calls)[i] in calls;
    }
    if i :| 0 <= i < |calls| && calls[i].key == key {
      assert calls[i] in calls;
    }
  }

  /** As a whole transaction: one run of exactly these, announced by their number, and its list for the caller. */
  lemma InstallingRunsFirstCalls(calls: seq<Element>, list: seq<string>)
    ensures var f, first := Transaction(true, EachRescued(calls), None, Some(list)), FirstCalls(calls);
      f.answer == Problems(list) && f.st.runs == [RunOf(Some(|first|), first, Some(list))]
  {
    FirstCallsCount(true, START, calls);
    assert START.elements + calls == calls;
    CommitMeans(true, Exec(true, START, EachRescued(calls)).st, [], None, Some(list));
  }

  // ---------- plain programs ----------

  /** No commit and no abort, as befits a progress callback. */
  predicate Harmless(p: Prog) {
    match p
    case Then(a, b) => Harmless(a) && Harmless(b)
    case Rescue(a, b) => Harmless(a) && Harmless(b)
    case Ensure(a, b) => Harmless(a) && Harmless(b)
    case Catch(a) => Harmless(a)
    case Commit(_, _, _) => false
    case Abort => false
    case _ => true
  }

  predicate HarmlessCallback(callback: Option<Prog>) {
    callback.Some? ==> Harmless(callback.value)
  }

  /** A harmless program that ends by itself, whatever the state: no exception leaves it. */
  predicate Quiet(p: Prog) {
    match p
    case Skip => true
    case Then(a, b) => Quiet(a) && Quiet(b)
    case Ensure(a, b) => Quiet(a) && Quiet(b)
    case Catch(a) => Quiet(a)
    case Rescue(a, b) => Harmless(a) && Quiet(b)
    case _ => false
  }

  /** Harmless callbacks, quiet clean-up, and no commit or abort inside a `catch` of its own. */
  predicate Plain(p: Prog) {
    match p
    case Then(a, b) => Plain(a) && Plain(b)
    case Rescue(a, b) => Plain(a) && Plain(b)
    case Ensure(a, b) => Plain(a) && Quiet(b)
    case Catch(a) => Harmless(a)
    case Commit(_, callback, _) => HarmlessCallback(callback)
    case _ => true
  }

  ghost predicate Unfinished(runs: seq<RunOf>) {
    forall i :: 0 <= i < |runs| ==> runs[i].report == None
  }

  /** Neither committed nor aborted, and no run came to its end. */
  ghost predicate Pending(st: State) {
    !st.commited && !st.aborted && st.problist == None && Unfinished(st.runs)
  }

  /** Committed, by the last run and no other. */
  ghost predicate CommittedByLast(st: State) {
    && st.commited && !st.aborted && st.problist.Some?
    && st.runs != [] && st.runs[|st.runs| - 1].report == st.problist
    && Unfinished(st.runs[..|st.runs| - 1])
  }

  ghost predicate AbortedOnly(st: State) {
    st.aborted && !st.commited && st.problist == None && Unfinished(st.runs)
  }

  /** A harmless program can only add elements. */
  lemma {:induction false} HarmlessOnlyAdds(writable: bool, st: State, p: Prog)
    requires Harmless(p)
    ensures var d := Exec(writable, st, p);
      !d.outcome.Thrown? && d.st == st.(keys := d.st.keys, elements := d.st.elements)
    decreases p
  {
    match p
    case Then(a, b) =>
      HarmlessOnlyAdds(writable, st, a);
      HarmlessOnlyAdds(writable, Exec(writable, st, a).st, b);
    case Rescue(a, b) =>
      HarmlessOnlyAdds(writable, st, a);
      HarmlessOnlyAdds(writable, Exec(writable, st, a).st, b);
    case Ensure(a, b) =>
      HarmlessOnlyAdds(writable, st, a);
      HarmlessOnlyAdds(writable, Exec(writable, st, a).st, b);
    case Catch(a) => HarmlessOnlyAdds(writable, st, a);
    case _ =>
  }

  /**
   * Whether a run that begins now is left by an exception: one from the callback, or one from making the problem
   * list.
   */
  predicate Interrupted(writable: bool, st: State, callback: Option<Prog>, report: Option<seq<string>>) {
    report.None? || (callback.Some? && Exec(writable, BeginRun(st, false), callback.value).outcome.Raised?)
  }

  /** An argument that `NUM2INT(rb_Integer(..))` refuses. */
  predicate Refused(arg: Arg) {
    arg.NotANumber? || arg.n < -0x8000_0000 || arg.n > 0x7fff_ffff
  }

  /**
   * What one commit does. On a read-only database, with too many arguments, or with one that is no int it raises and
   * changes nothing. Otherwise one run is added, of the elements there are, announced by their number if rpm shows the
   * progress. The run is either left by an exception, or ends in a throw with its list kept and the flag set.
   */
  lemma CommitMeans(
      writable: bool, st: State, args: seq<Arg>, callback: Option<Prog>, report: Option<seq<string>>)
    requires HarmlessCallback(callback) && KeysFit(st)
    ensures var d := Exec(writable, st, Commit(args, callback, report));
      var total := if callback.None? then Some(|st.elements|) else None;
      if !writable || |args| > 2 || exists i :: 0 <= i < |args| && Refused(args[i]) then d == Done(st, Raised)
      else if Interrupted(writable, st, callback, report) then
        && d.outcome.Raised?
        && d.st.runs == st.runs + [RunOf(total, st.elements, None)]
        && (d.st.commited, d.st.aborted, d.st.problist) == (st.commited, st.aborted, st.problist)
      else
        && d.outcome.Thrown?
        && d.st.runs == st.runs + [RunOf(total, st.elements, report)]
        && (d.st.commited, d.st.aborted, d.st.problist) == (true, st.aborted, report)
  {
    if callback.Some? {
      HarmlessOnlyAdds(writable, BeginRun(st, false), callback.value);
    }
  }

  lemma {:induction false} QuietHarmless(p: Prog)
    requires Quiet(p)
    ensures Harmless(p)
  {
    match p
    case Then(a, b) => QuietHarmless(a); QuietHarmless(b);
    case Ensure(a, b) => QuietHarmless(a); QuietHarmless(b);
    case Catch(a) => QuietHarmless(a);
    case Rescue(_, b) => QuietHarmless(b);
    case Skip =>
  }

  /** A quiet program ends by itself and can only add elements. */
  lemma {:induction false} QuietEnds(writable: bool, st: State, p: Prog)
    requires Quiet(p)
    ensures var d := Exec(writable, st, p);
      d.outcome.Normal? && d.st == st.(keys := d.st.keys, elements := d.st.elements)
    decreases p
  {
    QuietHarmless(p);
    HarmlessOnlyAdds(writable, st, p);
    match p
    case Then(a, b) =>
      QuietEnds(writable, st, a);
      QuietEnds(writable, Exec(writable, st, a).st, b);
    case Ensure(a, b) =>
      QuietEnds(writable, st, a);
      QuietEnds(writable, Exec(writable, st, a).st, b);
    case Catch(a) => QuietEnds(writable, st, a);
    case Rescue(a, b) =>
      HarmlessOnlyAdds(writable, st, a);
      QuietEnds(writable, Exec(writable, st, a).st, b);
    case Skip =>
  }

  ghost predicate EndsWell(writable: bool, before: State, d: Done) {
    && (if d.outcome.Thrown? then CommittedByLast(d.st) || AbortedOnly(d.st) else Pending(d.st))
    && (!writable ==> d.st.runs == before.runs && !d.st.commited)
  }

  lemma CommitEndsWell(
      writable: bool, st: State, args: seq<Arg>, callback: Option<Prog>, report: Option<seq<string>>)
    requires HarmlessCallback(callback) && Pending(st)
    ensures EndsWell(writable, st, Exec(writable, st, Commit(args, callback, report)))
    ensures !Exec(writable, st, Commit(args, callback, report)).st.aborted
  {
    if callback.Some? {
      HarmlessOnlyAdds(writable, BeginRun(st, false), callback.value);
    }
  }

  lemma {:induction false} PlainEndsWell(writable: bool, st: State, p: Prog)
    requires Plain(p) && Pending(st)
    ensures EndsWell(writable, st, Exec(writable, st, p))
    decreases p
  {
    match p
    case Then(a, b) =>
      PlainEndsWell(writable, st, a);
      if Exec(writable, st, a).outcome.Normal? {
        PlainEndsWell(writable, Exec(writable, st, a).st, b);
      }
    case Rescue(a, b) =>
      PlainEndsWell(writable, st, a);
      if Exec(writable, st, a).outcome.Raised? {
        PlainEndsWell(writable, Exec(writable, st, a).st, b);
      }
    case Ensure(a, b) =>
      PlainEndsWell(writable, st, a);
      QuietEnds(writable, Exec(writable, st, a).st, b);
    case Catch(a) => HarmlessOnlyAdds(writable, st, a);
    case Commit(args, callback, report) => CommitEndsWell(writable, st, args, callback, report);
    case _ =>
  }

  /** The four ways in which a plain transaction ends. */
  ghost predicate FinishedWell(writable: bool, f: Finished) {
    match f.answer
    case Exception => Pending(f.st)
    case False => AbortedOnly(f.st)
    case Nil => !writable && Pending(f.st)
    case Problems(list) => writable && CommittedByLast(f.st) && f.st.problist == Some(list)
  }

  lemma PlainFinishesWell(writable: bool, block: Prog, callback: Option<Prog>, report: Option<seq<string>>)
    requires Plain(block) && HarmlessCallback(callback)
    ensures FinishedWell(writable, Transaction(writable, block, callback, report))
    ensures !writable ==> Transaction(writable, block, callback, report).st.runs == []
  {
    var d := Exec(writable, START, block);
    PlainEndsWell(writable, START, block);
    if d.outcome.Normal? && writable {
      CommitEndsWell(writable, d.st, [], callback, report);
    }
  }

  /**
   * Plain transactions: the flags exclude each other, only the last run can have come to its end, nothing is run on
   * a read-only database, and the answer tells which of the cases it was.
   */
  lemma PlainTransaction(writable: bool, block: Prog, callback: Option<Prog>, report: Option<seq<string>>)
    requires Plain(block) && HarmlessCallback(callback)
    ensures var f := Transaction(writable, block, callback, report);
      && !(f.st.commited && f.st.aborted)
      && (f.st.runs != [] ==> Unfinished(f.st.runs[..|f.st.runs| - 1]))
      && (f.st.commited <==> f.st.runs != [] && f.st.runs[|f.st.runs| - 1].report.Some?)
      && (!writable ==> f.st.runs == [])
      && (f.answer == False <==> f.st.aborted)
      && (f.answer.Problems? <==> f.st.commited)
      && (f.answer.Problems? ==> f.st.runs[|f.st.runs| - 1].report == Some(f.answer.list))
      && (writable ==> f.answer != Nil)
  {
    PlainFinishesWell(writable, block, callback, report);
  }

  // ---------- at most one run ----------

  /**
   * The guard that fails: while `p` is executed, a `rescue` takes an exception that has left a run (the flag is not
   * set then), so that the block goes on as if nothing had been run.
   */
  predicate RescuesRun(writable: bool, st: State, p: Prog)
    decreases p
  {
    match p
    case Then(a, b) =>
      var d := Exec(writable, st, a);
      RescuesRun(writable, st, a) || (d.outcome.Normal? && RescuesRun(writable, d.st, b))
    case Rescue(a, b) =>
      var d := Exec(writable, st, a);
      || RescuesRun(writable, st, a)
      || (d.outcome.Raised? && (|d.st.runs| > |st.runs| || RescuesRun(writable, d.st, b)))
    case Ensure(a, _) => RescuesRun(writable, st, a)
    case _ => false
  }

  /** What the number of runs says about a plain program. */
  ghost predicate RunsCounted(before: State, d: Done, rescued: bool) {
    var n := |d.st.runs| - |before.runs|;
    && (rescued ==> n >= 1)
    && (!rescued ==> n <= 1)
    && (d.st.commited ==> if rescued then n >= 2 else n == 1)
    && (d.outcome.Normal? || d.st.aborted ==> (n > 0 <==> rescued))
  }

  lemma {:induction false} PlainCountsRuns(writable: bool, st: State, p: Prog)
    requires Plain(p) && Pending(st)
    ensures RunsCounted(st, Exec(writable, st, p), RescuesRun(writable, st, p))
    decreases p
  {
    match p
    case Then(a, b) =>
      var d := Exec(writable, st, a);
      PlainCountsRuns(writable, st, a);
      PlainEndsWell(writable, st, a);
      if d.outcome.Normal? {
        PlainCountsRuns(writable, d.st, b);
      }
    case Rescue(a, b) =>
      var d := Exec(writable, st, a);
      PlainCountsRuns(writable, st, a);
      PlainEndsWell(writable, st, a);
      if d.outcome.Raised? {
        PlainCountsRuns(writable, d.st, b);
      }
    case Ensure(a, b) =>
      PlainCountsRuns(writable, st, a);
      QuietEnds(writable, Exec(writable, st, a).st, b);
    case Catch(a) => HarmlessOnlyAdds(writable, st, a);
    case Commit(args, callback, report) =>
      if callback.Some? {
        HarmlessOnlyAdds(writable, BeginRun(st, false), callback.value);
      }
    case _ =>
  }

  /**
   * How often `rpmtsRun` happens, for every plain block: if the caller gets a problem list, exactly once if and only
   * if no run was rescued; if the caller gets false or nil, never if and only if no run was rescued; and without a
   * rescued run at most once, whatever the caller gets.
   */
  lemma TransactionRunsExactly(writable: bool, block: Prog, callback: Option<Prog>, report: Option<seq<string>>)
    requires Plain(block) && HarmlessCallback(callback)
    ensures var f, rescued := Transaction(writable, block, callback, report), RescuesRun(writable, START, block);
      && (f.answer.Problems? ==> writable && |f.st.runs| >= 1 && (|f.st.runs| == 1 <==> !rescued))
      && (f.answer == False || f.answer == Nil ==> (f.st.runs == [] <==> !rescued))
      && (!rescued ==> |f.st.runs| <= 1)
      && (rescued ==> |f.st.runs| >= 1)
  {
    PlainFinishesWell(writable, block, callback, report);
    FinalRunExactly(writable, block, callback, report);
    PlainEndsWell(writable, START, block);
    PlainCountsRuns(writable, START, block);
  }

  predicate HasCommit(p: Prog) {
    match p
    case Then(a, b) => HasCommit(a) || HasCommit(b)
    case Rescue(a, b) => HasCommit(a) || HasCommit(b)
    case Ensure(a, b) => HasCommit(a) || HasCommit(b)
    case Catch(a) => HasCommit(a)
    case Commit(_, _, _) => true
    case _ => false
  }

  /** No commit stands where its exceptions are rescued. */
  predicate LetsCommitRaise(p: Prog) {
    match p
    case Then(a, b) => LetsCommitRaise(a) && LetsCommitRaise(b)
    case Rescue(a, b) => !HasCommit(a) && LetsCommitRaise(b)
    case Ensure(a, _) => LetsCommitRaise(a)
    case _ => true
  }

  lemma {:induction false} NoCommitNoRun(writable: bool, st: State, p: Prog)
    requires !HasCommit(p)
    ensures Exec(writable, st, p).st.runs == st.runs && Exec(writable, st, p).st.commited == st.commited
    ensures !RescuesRun(writable, st, p)
    decreases p
  {
    match p
    case Then(a, b) =>
      NoCommitNoRun(writable, st, a);
      NoCommitNoRun(writable, Exec(writable, st, a).st, b);
    case Rescue(a, b) =>
      NoCommitNoRun(writable, st, a);
      NoCommitNoRun(writable, Exec(writable, st, a).st, b);
    case Ensure(a, b) =>
      NoCommitNoRun(writable, st, a);
      NoCommitNoRun(writable, Exec(writable, st, a).st, b);
    case Catch(a) => NoCommitNoRun(writable, st, a);
    case _ =>
  }

  /** Whether a commit is rescued can be seen in the text of the block; then no run can be. */
  lemma {:induction false} NothingToRescue(writable: bool, st: State, p: Prog)
    requires LetsCommitRaise(p)
    ensures !RescuesRun(writable, st, p)
    decreases p
  {
    match p
    case Then(a, b) =>
      NothingToRescue(writable, st, a);
      NothingToRescue(writable, Exec(writable, st, a).st, b);
    case Rescue(a, b) =>
      NoCommitNoRun(writable, st, a);
      NothingToRescue(writable, Exec(writable, st, a).st, b);
    case Ensure(a, _) => NothingToRescue(writable, st, a);
    case _ =>
  }

  /**
   * So for blocks that let their commits raise, `rpmtsRun` happens at most once; exactly once, on a writable database,
   * when the caller gets a problem list; never when the caller gets false or nil.
   */
  lemma TransactionRunsOnce(writable: bool, block: Prog, callback: Option<Prog>, report: Option<seq<string>>)
    requires Plain(block) && LetsCommitRaise(block) && HarmlessCallback(callback)
    ensures var f := Transaction(writable, block, callback, report);
      && |f.st.runs| <= 1
      && (f.answer.Problems? ==> |f.st.runs| == 1 && writable)
      && (f.answer == False || f.answer == Nil ==> f.st.runs == [])
  {
    NothingToRescue(writable, START, block);
    TransactionRunsExactly(writable, block, callback, report);
  }

  /** The run at the end takes place exactly when the database is writable and the block ends by itself. */
  lemma FinalRunExactly(writable: bool, block: Prog, callback: Option<Prog>, report: Option<seq<string>>)
    requires Plain(block) && HarmlessCallback(callback)
    ensures var d, f := Exec(writable, START, block), Transaction(writable, block, callback, report);
      |f.st.runs| == |d.st.runs| + (if writable && d.outcome.Normal? then 1 else 0)
  {
    var d := Exec(writable, START, block);
    PlainEndsWell(writable, START, block);
    if d.outcome.Normal? && writable && callback.Some? {
      HarmlessOnlyAdds(writable, BeginRun(d.st, false), callback.value);
    }
  }

  /**
   * What the caller gets, for every plain block. Nil: on a read-only database, after a block that ends by itself.
   * False: after an abort. An exception: that of the block, or that of the run at the end. A problem list: that of the
   * commit in the block, or that of the run at the end.
   */
  lemma TransactionAnswer(writable: bool, block: Prog, callback: Option<Prog>, report: Option<seq<string>>)
    requires Plain(block) && HarmlessCallback(callback)
    ensures var d, f := Exec(writable, START, block), Transaction(writable, block, callback, report);
      var atEnd := writable && d.outcome.Normal?;
      && (f.answer == Nil <==> !writable && d.outcome.Normal?)
      && (f.answer == False <==> d.outcome.Thrown? && d.st.aborted)
      && (f.answer == Exception <==> d.outcome.Raised? || (atEnd && Interrupted(writable, d.st, callback, report)))
      && (f.answer.Problems? ==> Some(f.answer.list) == if atEnd then report else d.st.problist)
      && (!atEnd ==> f.st == d.st)
  {
    var d := Exec(writable, START, block);
    PlainEndsWell(writable, START, block);
    ExecKeepsKeys(writable, START, block);
    CommitMeans(writable, d.st, [], callback, report);
  }

  /** The run at the end is of all the elements that the block added, and announced by their number. */
  lemma FinalRunIsOfAll(writable: bool, block: Prog, callback: Option<Prog>, report: Option<seq<string>>)
    requires Plain(block) && HarmlessCallback(callback)
    requires writable && Exec(writable, START, block).outcome.Normal?
    ensures var d, f := Exec(writable, START, block), Transaction(writable, block, callback, report);
      var total := if callback.None? then Some(|d.st.elements|) else None;
      f.st.runs == d.st.runs +
        [RunOf(total, d.st.elements, if Interrupted(writable, d.st, callback, report) then None else report)]
  {
    PlainEndsWell(writable, START, block);
    ExecKeepsKeys(writable, START, block);
    CommitMeans(writable, Exec(writable, START, block).st, [], callback, report);
  }

  // ---------- every program ----------

  /** A `catch` does not stop exceptions, nor a `rescue` what is thrown; an `ensure` part takes place in any case. */
  lemma ExceptionsPass(writable: bool, st: State, p: Prog, key: string)
    requires key !in KeyList(st)
    ensures Exec(writable, st, Catch(Raise)) == Done(st, Raised)
    ensures Exec(writable, st, Rescue(Abort, p)) == Done(st.(aborted := true), Thrown)
    ensures var d := Exec(writable, st, Ensure(Raise, Install(key)));
      d.outcome == Raised && d.st.elements == st.elements + [Element(key, false)]
    ensures var d := Exec(writable, st, Ensure(Abort, Install(key)));
      d.outcome == Thrown && d.st.elements == st.elements + [Element(key, false)]
    ensures var d := Exec(writable, st, Ensure(Skip, Install(key)));
      d.outcome == Normal && d.st.elements == st.elements + [Element(key, false)]
  {
    assert Exec(writable, st, Raise) == Done(st, Raised);
    assert Exec(writable, st, Abort) == Done(st.(aborted := true), Thrown);
    assert Exec(writable, st, Skip) == Done(st, Normal);
    CallAdds(writable, st, key);
    CallAdds(writable, st.(aborted := true), key);
  }

  /** More elements and runs may have come behind those there were, and flags may have been set. */
  ghost predicate Extends(writable: bool, st: State, st': State) {
    && st.elements <= st'.elements && st.runs <= st'.runs
    && (st.aborted ==> st'.aborted) && (st.commited ==> st'.commited)
    && (!writable ==> st'.runs == st.runs && st'.commited == st.commited && st'.problist == st.problist)
  }

  /**
   * Nothing is taken back, whatever is rescued, ensured or caught: elements and runs stay as they are, and no flag is
   * unset. On a read-only database nothing is run or committed.
   */
  lemma {:induction false} NothingIsUndone(writable: bool, st: State, p: Prog)
    ensures Extends(writable, st, Exec(writable, st, p).st)
    decreases p
  {
    match p
    case Then(a, b) =>
      NothingIsUndone(writable, st, a);
      NothingIsUndone(writable, Exec(writable, st, a).st, b);
    case Rescue(a, b) =>
      NothingIsUndone(writable, st, a);
      NothingIsUndone(writable, Exec(writable, st, a).st, b);
    case Ensure(a, b) =>
      NothingIsUndone(writable, st, a);
      NothingIsUndone(writable, Exec(writable, st, a).st, b);
    case Catch(a) => NothingIsUndone(writable, st, a);
    case Commit(args, callback, report) => CommitExtends(writable, st, args, callback, report);
    case _ =>
  }

  lemma {:induction false} CommitExtends(
      writable: bool, st: State, args: seq<Arg>, callback: Option<Prog>, report: Option<seq<string>>)
    ensures Extends(writable, st, Exec(writable, st, Commit(args, callback, report)).st)
    decreases callback
  {
    if callback.Some? {
      NothingIsUndone(writable, BeginRun(st, false), callback.value);
    }
  }

  // ---------- what the conditions exclude ----------

  /**
   * A progress callback raises and the block rescues it: the flag is not set, and everything is run again at the
   * end.
   */
  lemma RescuedRunIsRepeated(report: seq<string>)
    ensures var f := Transaction(true, Rescue(Commit([], Some(Raise), Some(report)), Skip), None, Some(report));
      f.answer == Problems(report) && |f.st.runs| == 2 && f.st.runs[0].report == None
  {
    var commit, begun := Commit([], Some(Raise), Some(report)), BeginRun(START, false);
    assert Exec(true, begun, Raise) == Done(begun, Raised);
    assert Exec(true, START, commit) == Done(begun, Raised);
    assert Exec(true, START, Rescue(commit, Skip)) == Done(begun, Normal);
  }

  /**
   * The condition spelled out for one commit directly under a `rescue` whose handler is plain and does not commit:
   * everything is run twice exactly when the commit is allowed, its run is interrupted, and the handler ends by itself.
   */
  lemma RescuedCommitRunsTwiceExactly(
      writable: bool, args: seq<Arg>, callback: Option<Prog>, report: Option<seq<string>>, handler: Prog,
      atEnd: Option<Prog>, reportAtEnd: Option<seq<string>>)
    requires HarmlessCallback(callback) && HarmlessCallback(atEnd) && Plain(handler) && !HasCommit(handler)
    ensures var commit := Commit(args, callback, report);
      var f := Transaction(writable, Rescue(commit, handler), atEnd, reportAtEnd);
      |f.st.runs| <= 2 &&
      (|f.st.runs| == 2 <==>
        && writable && ValidArgs(args)
        && Interrupted(writable, START, callback, report)
        && Exec(writable, Exec(writable, START, commit).st, handler).outcome.Normal?)
  {
    var commit := Commit(args, callback, report);
    var c := Exec(writable, START, commit);
    CommitEndsWell(writable, START, args, callback, report);
    FinalRunExactly(writable, Rescue(commit, handler), atEnd, reportAtEnd);
    NoCommitNoRun(writable, c.st, handler);
    if callback.Some? {
      HarmlessOnlyAdds(writable, BeginRun(START, false), callback.value);
    }
  }

  /** Two commits, each inside a `catch("abort")`: two runs that both come to their end. */
  lemma CaughtCommitsRunTwice(report: seq<string>)
    ensures var commit := Catch(Commit([], None, Some(report)));
      var f := Transaction(true, Then(commit, commit), None, Some(report));
      |f.st.runs| == 2 && f.st.runs[0].report == f.st.runs[1].report == Some(report)
  {
    var commit := Commit([], None, Some(report));
    var first := Complete(BeginRun(START, true), 0, Some(report)).st;
    var second := Complete(BeginRun(first, true), 1, Some(report)).st;
    assert Exec(true, START, Catch(commit)) == Done(first, Normal);
    assert Exec(true, first, Catch(commit)) == Done(second, Normal);
    assert Exec(true, START, Then(Catch(commit), Catch(commit))) == Done(second, Normal);
  }

  /**
   * An abort in an `ensure` around a commit: both flags are set, and false is returned for a transaction that was
   * run.
   */
  lemma EnsuredAbortHidesRun(report: seq<string>)
    ensures var f := Transaction(true, Ensure(Commit([], None, Some(report)), Abort), None, None);
      f.answer == False && f.st.commited && f.st.aborted && |f.st.runs| == 1 && f.st.runs[0].report == Some(report)
  {
    var commit := Commit([], None, Some(report));
    var done := Complete(BeginRun(START, true), 0, Some(report));
    assert Exec(true, START, commit) == done;
    assert Exec(true, done.st, Abort) == Done(done.st.(aborted := true), Thrown);
    assert Exec(true, START, Ensure(commit, Abort)) == Done(done.st.(aborted := true), Thrown);
  }

  /** So does an exception in the `ensure`: the caller gets an exception for a transaction that was run. */
  lemma EnsuredRaiseHidesRun(report: seq<string>)
    ensures var f := Transaction(true, Ensure(Commit([], None, Some(report)), Raise), None, None);
      f.answer == Exception && f.st.commited && |f.st.runs| == 1 && f.st.runs[0].report == Some(report)
  {
    var commit := Commit([], None, Some(report));
    var done := Complete(BeginRun(START, true), 0, Some(report));
    assert Exec(true, START, commit) == done;
    assert Exec(true, done.st, Raise) == Done(done.st, Raised);
    assert Exec(true, START, Ensure(commit, Raise)) == Done(done.st, Raised);
  }

  /** An abort from a progress callback: false after a run if the block committed, nil if the end of the block did. */
  lemma CallbackAborts(report: seq<string>)
    ensures var f := Transaction(true, Commit([], Some(Abort), Some(report)), None, None);
      f.answer == False && |f.st.runs| == 1
    ensures var f := Transaction(true, Skip, Some(Abort), Some(report));
      f.answer == Nil && f.st.aborted && |f.st.runs| == 1
  {
    var begun := BeginRun(START, false);
    assert Exec(true, begun, Abort) == Done(begun.(aborted := true), Thrown);
    assert Exec(true, START, Commit([], Some(Abort), Some(report))) == Done(begun.(aborted := true), Thrown);
    assert Exec(true, START, Skip) == Done(START, Normal);
  }

  // ---------- the binding ----------

  /** The transaction object; a read-only database object is frozen. */
  class Binding {
    const writable: bool
    var keys: Option<seq<string>>
    var commited: bool
    var aborted: bool
    var problist: Option<seq<string>>
    /** rpm's `rpmcliPackagesTotal` */
    var packagesTotal: int
    ghost var elements: seq<Element>
    ghost var runs: seq<RunOf>

    ghost function Snapshot(): State
      reads this
    {
      State(keys, commited, aborted, problist, elements, runs)
    }

    constructor (writable: bool)
      ensures this.writable == writable && Snapshot() == START
    {
      this.writable := writable;
      keys, commited, aborted, problist, packagesTotal := None, false, false, None, 0;
      elements, runs := [], [];
    }

    /** `rpm_transaction_install` and `rpm_transaction_upgrade`, which differ in one argument for librpm. */
    method AddInstallElement(key: string, upgrade: bool) returns (outcome: Outcome)
      modifies this
      ensures outcome == if key in KeyList(old(Snapshot())) then Raised else Normal
      ensures outcome == Raised ==> Snapshot() == old(Snapshot())
      ensures outcome == Normal ==> keys == Some(KeyList(old(Snapshot())) + [key])
      ensures outcome == Normal ==> elements == old(elements) + [Element(key, upgrade)]
      ensures outcome == Normal ==> Snapshot() == old(Snapshot()).(keys := keys, elements := elements)
    {
      var present := if keys.Some? then keys.value else [];
      if key in present {
        return Raised;
      }
      keys := Some(present + [key]);
      elements := elements + [Element(key, upgrade)];
      outcome := Normal;
    }

    /** `rpm_transaction_commit` */
    method CommitTransaction(args: seq<Arg>, callback: Option<Prog>, report: Option<seq<string>>)
      returns (outcome: Outcome)
      modifies this
      ensures Done(Snapshot(), outcome) == Exec(writable, old(Snapshot()), Commit(args, callback, report))
      decreases callback, 0
    {
      if !writable {
        return Raised;
      }
      if !ValidArgs(args) {
        return Raised;
      }
      ghost var run, total := |runs|, None;
      if callback.None? {
        packagesTotal := 0;
        if keys.Some? {
          packagesTotal := |keys.value|;
        }
        total := Some(packagesTotal);
      }
      runs := runs + [RunOf(total, elements, None)];
      if callback.Some? {
        outcome := Execute(callback.value);
        if outcome != Normal {
          return;
        }
      }
      if report.None? {
        return Raised;
      }
      runs := runs[run := runs[run].(report := report)];
      problist := report;
      commited := true;
      outcome := Thrown;
    }

    /** `rpm_transaction_abort` */
    method AbortTransaction() returns (outcome: Outcome)
      modifies this
      ensures Snapshot() == old(Snapshot()).(aborted := true) && outcome == Thrown
    {
      aborted := true;
      outcome := Thrown;
    }

    /** Runs a block. */
    method Execute(p: Prog) returns (outcome: Outcome)
      modifies this
      ensures Done(Snapshot(), outcome) == Exec(writable, old(Snapshot()), p)
      decreases p, 1
    {
      match p
      case Skip => outcome := Normal;
      case Then(first, second) =>
        outcome := Execute(first);
        if outcome == Normal {
          outcome := Execute(second);
        }
      case Install(key) => outcome := AddInstallElement(key, false);
      case Upgrade(key) => outcome := AddInstallElement(key, true);
      case Commit(args, callback, report) => outcome := CommitTransaction(args, callback, report);
      case Abort => outcome := AbortTransaction();
      case Raise => outcome := Raised;
      case Rescue(body, handler) =>
        outcome := Execute(body);
        if outcome == Raised {
          outcome := Execute(handler);
        }
      case Ensure(body, cleanup) =>
        outcome := Execute(body);
        var cleaned := Execute(cleanup);
        if cleaned != Normal {
          outcome := cleaned;
        }
      case Catch(body) =>
        outcome := Execute(body);
        if outcome == Thrown {
          outcome := Normal;
        }
    }

    /** `rpm_db_transaction`, on the new transaction object. */
    method Run(block: Prog, callback: Option<Prog>, report: Option<seq<string>>) returns (answer: Answer)
      requires Snapshot() == START
      modifies this
      ensures Finished(Snapshot(), answer) == Transaction(writable, block, callback, report)
    {
      var outcome := Execute(block);
      if outcome == Raised {
        return Exception;
      }
      if aborted {
        return False;
      } else if !commited && writable {
        outcome := CommitTransaction([], callback, report);
        if outcome == Raised {
          return Exception;
        }
      }
      answer := if problist.Some? then Problems(problist.value) else Nil;
    }
  }
}
