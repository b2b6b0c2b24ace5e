/** Failure-carrying values used in place of the Python exceptions and `sys.exit` calls. */
module Results {

  datatype Option<+T> = None | Some(value: T)

  /** An operation that either produces a value or stops with an error. */
  datatype Result<+T, +E> = Ok(value: T) | Err(error: E)

  /** An operation that produces nothing but may stop with an error. */
  datatype Outcome<+E> = Pass | Fail(error: E)

  /**
   * Running a sequence of fallible steps in order: all their values, or the
   * error of the first step that fails (later steps never run).
   */
  function Collect<T, E>(rs: seq<Result<T, E>>): Result<seq<T>, E>
    decreases |rs|
  {
    if rs == [] then Ok([])
    else
      var before := Collect(rs[..|rs| - 1]);
      if before.Err? then before
      else if rs[|rs| - 1].Err? then Err(rs[|rs| - 1].error)
      else Ok(before.value + [rs[|rs| - 1].value])
  }

  /** Step `i` is the first to fail. */
  ghost predicate FirstFailure<T, E>(rs: seq<Result<T, E>>, i: nat) {
    i < |rs| && rs[i].Err? && forall j | 0 <= j < i :: rs[j].Ok?
  }

  /** Collecting succeeds exactly when every step does, and keeps the values in order. */
  lemma {:induction false} CollectOk<T, E>(rs: seq<Result<T, E>>)
    ensures Collect(rs).Ok? <==> forall i | 0 <= i < |rs| :: rs[i].Ok?
    ensures Collect(rs).Ok? ==> |Collect(rs).value| == |rs| && forall i | 0 <= i < |rs| :: rs[i] == Ok(Collect(rs).value[i])
    decreases |rs|
  {
    if rs != [] {
      var n := |rs| - 1;
      CollectOk(rs[..n]);
      assert forall i | 0 <= i < n :: rs[..n][i] == rs[i];
    }
  }

  /** A failed collection reports the error of the first step that fails. */
  lemma {:induction false} CollectErr<T, E>(rs: seq<Result<T, E>>, i: nat)
    requires FirstFailure(rs, i)
    ensures Collect(rs) == Err(rs[i].error)
    decreases |rs|
  {
    var n := |rs| - 1;
    if i == n {
      CollectOk(rs[..n]);
      assert forall j | 0 <= j < n :: rs[..n][j] == rs[j];
    } else {
      assert FirstFailure(rs[..n], i) by {
        assert forall j | 0 <= j <= i :: rs[..n][j] == rs[j];
      }
      CollectErr(rs[..n], i);
    }
  }

  /** A failing step is either the first to fail or comes after the one that is. */
  lemma {:induction false} FirstFailureExists<T, E>(rs: seq<Result<T, E>>, k: nat)
    requires k < |rs| && rs[k].Err?
    ensures exists i: nat | i <= k :: FirstFailure(rs, i)
    decreases k
  {
    if j: nat :| j < k && rs[j].Err? {
      FirstFailureExists(rs, j);
    } else {
      assert FirstFailure(rs, k);
    }
  }

  /** Once a prefix of the steps has failed, the later steps change nothing. */
  lemma {:induction false} CollectStopped<T, E>(rs: seq<Result<T, E>>, k: nat)
    requires k <= |rs| && Collect(rs[..k]).Err?
    ensures Collect(rs) == Collect(rs[..k])
    decreases |rs|
  {
    if k < |rs| {
      var n := |rs| - 1;
      assert rs[..n][..k] == rs[..k];
      CollectStopped(rs[..n], k);
    } else {
      assert rs[..k] == rs;
    }
  }

  /** One more successful step adds its value to the collected ones. */
  lemma CollectStep<T, E>(rs: seq<Result<T, E>>, i: nat, values: seq<T>)
    requires i < |rs| && Collect(rs[..i]) == Ok(values) && rs[i].Ok?
    ensures Collect(rs[..i + 1]) == Ok(values + [rs[i].value])
  {
    assert rs[..i + 1][..i] == rs[..i];
  }

  /** One more failing step stops the collection with its error. */
  lemma CollectFailStep<T, E>(rs: seq<Result<T, E>>, i: nat, values: seq<T>)
    requires i < |rs| && Collect(rs[..i]) == Ok(values) && rs[i].Err?
    ensures Collect(rs) == Err(rs[i].error)
  {
    assert rs[..i + 1][..i] == rs[..i];
    CollectStopped(rs, i + 1);
  }
}
