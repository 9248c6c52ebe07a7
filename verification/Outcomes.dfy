/** Results of calls into the binding: a value, or the Ruby exception that is raised instead. */
module Outcomes {

  datatype Option<+T> = None | Some(value: T)

  /** `NilDereference` stands for C code that takes the string pointer of nil, or follows a NULL pointer. */
  datatype Error = ArgumentError | TypeError | RangeError | RuntimeError | NilDereference

  datatype Result<+T> = Ok(value: T) | Err(error: Error) {
    predicate IsFailure() {
      Err?
    }

    function PropagateFailure<U>(): Result<U>
      requires Err?
    {
      Err(error)
    }

    function Extract(): T
      requires Ok?
    {
      value
    }
  }

  /** All the values, or the first error: what a loop delivers that stops when an exception is raised. */
  function Collect<T>(rs: seq<Result<T>>): (all: Result<seq<T>>)
    ensures all.Ok? ==> |all.value| == |rs|
  {
    if rs == [] then Ok([])
    else
      var before :- Collect(rs[..|rs| - 1]);
      var last :- rs[|rs| - 1];
      Ok(before + [last])
  }

  lemma {:induction false} CollectSucceeds<T>(rs: seq<Result<T>>, values: seq<T>)
    requires |values| == |rs|
    ensures Collect(rs) == Ok(values) <==> forall i :: 0 <= i < |rs| ==> rs[i] == Ok(values[i])
  {
    if rs != [] {
      var n := |rs| - 1;
      CollectSucceeds(rs[..n], values[..n]);
      assert values == values[..n] + [values[n]];
    }
  }

  lemma CollectValues<T>(rs: seq<Result<T>>)
    ensures Collect(rs).Ok? <==> forall i :: 0 <= i < |rs| ==> rs[i].Ok?
    ensures Collect(rs).Ok? ==> forall i :: 0 <= i < |rs| ==> Collect(rs).value[i] == rs[i].value
  {
    if forall i :: 0 <= i < |rs| ==> rs[i].Ok? {
      CollectSucceeds(rs, seq(|rs|, i requires 0 <= i < |rs| => rs[i].value));
    }
    if Collect(rs).Ok? {
      CollectSucceeds(rs, Collect(rs).value);
    }
  }

  lemma {:induction false} CollectFails<T>(rs: seq<Result<T>>, at: nat)
    requires at < |rs| && rs[at].Err? && forall i :: 0 <= i < at ==> rs[i].Ok?
    ensures Collect(rs) == Err(rs[at].error)
  {
    var n := |rs| - 1;
    if at < n {
      CollectFails(rs[..n], at);
    } else {
      var values := seq(n, i requires 0 <= i < n => rs[i].value);
      CollectSucceeds(rs[..n], values);
    }
  }

  /** One more result behind some that succeeded: its value is added, or its error ends it all. */
  lemma CollectNext<T>(rs: seq<Result<T>>, n: nat, found: seq<T>)
    requires n < |rs| && Collect(rs[..n]) == Ok(found)
    ensures rs[n].Ok? ==> Collect(rs[..n + 1]) == Ok(found + [rs[n].value])
    ensures rs[n].Err? ==> Collect(rs) == Err(rs[n].error)
  {
    assert rs[..n + 1][..n] == rs[..n];
    if rs[n].Err? {
      CollectSucceeds(rs[..n], found);
      assert forall i :: 0 <= i < n ==> rs[i] == rs[..n][i];
      CollectFails(rs, n);
    }
  }
}
