/**
 * The validation engine: an ordered list of checks (field, outcome, message) is
 * reduced to the errors of the checks that failed, in input order, or to "no
 * errors" (Go's nil slice, None here) when every check passed.
 */
module Validation {

  datatype Option<T> = None | Some(value: T)

  /** A named assertion whose condition is already evaluated. */
  datatype Check = Check(field: string, cond: bool, msg: string)

  /** A reported violation of a check, keyed by the check's field. */
  datatype ValidationError = ValidationError(field: string, errMsg: string) {
    /** The error text of the error interface. */
    function Error(): string {
      errMsg
    }
  }

  /** The error a failing check reports. */
  function ErrorOf(c: Check): ValidationError {
    ValidationError(c.field, c.msg)
  }

  /** What one check contributes: nothing if it passes, its error if it fails. */
  function Emitted(c: Check): seq<ValidationError> {
    if c.cond then [] else [ErrorOf(c)]
  }

  /** The errors of every failing check, in the order the checks are given. */
  function Errors(checks: seq<Check>): (r: seq<ValidationError>)
    ensures |r| <= |checks|
  {
    if checks == [] then []
    else Errors(checks[..|checks| - 1]) + Emitted(checks[|checks| - 1])
  }

  /** How many of the checks fail: the rank of the next failing check's error. */
  function FailCount(checks: seq<Check>): nat {
    if checks == [] then 0
    else FailCount(checks[..|checks| - 1]) + (if checks[|checks| - 1].cond then 0 else 1)
  }

  /** What validate returns: None (nil) when no check fails, otherwise the non-empty error list. */
  function Verdict(checks: seq<Check>): (r: Option<seq<ValidationError>>)
    ensures r.None? <==> forall i | 0 <= i < |checks| :: checks[i].cond
    ensures r.Some? ==> r.value == Errors(checks) && |r.value| > 0
  {
    ErrorsEmptyIff(checks);
    if Errors(checks) == [] then None else Some(Errors(checks))
  }

  /** validate: walks every check, appending the error of each failing one, then maps an empty list to nil. */
  method Validate(checks: seq<Check>) returns (r: Option<seq<ValidationError>>)
    ensures r == Verdict(checks)
    ensures r.None? <==> forall i | 0 <= i < |checks| :: checks[i].cond
  {
    var errs: seq<ValidationError> := [];
    for i := 0 to |checks|
      invariant errs == Errors(checks[..i])
    {
      assert checks[..i + 1][..i] == checks[..i];
      if !checks[i].cond {
        errs := errs + [ValidationError(checks[i].field, checks[i].msg)];
      }
    }
    assert checks[..|checks|] == checks;
    if |errs| == 0 {
      return None;
    }
    return Some(errs);
  }

  /** No check fails exactly when no error is reported. */
  lemma {:induction false} ErrorsEmptyIff(checks: seq<Check>)
    ensures Errors(checks) == [] <==> forall i | 0 <= i < |checks| :: checks[i].cond
  {
    if checks != [] {
      var init := checks[..|checks| - 1];
      ErrorsEmptyIff(init);
      assert forall i | 0 <= i < |init| :: init[i] == checks[i];
    }
  }

  /** One error per failing check. */
  lemma {:induction false} ErrorsLength(checks: seq<Check>)
    ensures |Errors(checks)| == FailCount(checks)
  {
    if checks != [] {
      ErrorsLength(checks[..|checks| - 1]);
    }
  }

  /** Checks are never short-circuited: the errors of a concatenation are the errors of each part, in order. */
  lemma {:induction false} ErrorsAppend(a: seq<Check>, b: seq<Check>)
    ensures Errors(a + b) == Errors(a) + Errors(b)
  {
    if b == [] {
      assert a + b == a;
    } else {
      var b' := b[..|b| - 1];
      assert (a + b)[..|a + b| - 1] == a + b';
      ErrorsAppend(a, b');
    }
  }

  /** A passing check contributes nothing wherever it stands. */
  lemma PassingCheckIgnored(a: seq<Check>, c: Check, b: seq<Check>)
    requires c.cond
    ensures Errors(a + [c] + b) == Errors(a + b)
  {
    var ac := a + [c];
    assert ac[..|ac| - 1] == a;
    assert Errors(ac) == Errors(a);
    ErrorsAppend(ac, b);
    ErrorsAppend(a, b);
  }

  /** The failing check i reports its own field and message, at the position given by the failing checks before it. */
  lemma {:induction false} ErrorAt(checks: seq<Check>, i: nat)
    requires i < |checks| && !checks[i].cond
    ensures FailCount(checks[..i]) < |Errors(checks)|
    ensures Errors(checks)[FailCount(checks[..i])] == ErrorOf(checks[i])
    ensures Errors(checks)[FailCount(checks[..i])].field == checks[i].field
    ensures Errors(checks)[FailCount(checks[..i])].Error() == checks[i].msg
  {
    var init := checks[..|checks| - 1];
    if i == |checks| - 1 {
      assert checks[..i] == init;
      ErrorsLength(init);
    } else {
      assert init[..i] == checks[..i];
      ErrorAt(init, i);
    }
  }

  /** Every reported error comes from a failing check, the one with as many failing checks before it as the error's position. */
  lemma {:induction false} ErrorSource(checks: seq<Check>, k: nat) returns (i: nat)
    requires k < |Errors(checks)|
    ensures i < |checks| && !checks[i].cond
    ensures FailCount(checks[..i]) == k
    ensures Errors(checks)[k] == ErrorOf(checks[i])
  {
    var init := checks[..|checks| - 1];
    ErrorsLength(init);
    if k < |Errors(init)| {
      i := ErrorSource(init, k);
      assert init[..i] == checks[..i];
    } else {
      i := |checks| - 1;
      assert checks[..i] == init;
    }
  }

  /** Errors keep the order of their checks: an earlier failing check ranks strictly before any later position. */
  lemma RankIncreasing(checks: seq<Check>, i: nat, j: nat)
    requires i < j <= |checks| && !checks[i].cond
    ensures FailCount(checks[..i]) < FailCount(checks[..j])
  {
    var front := checks[..i + 1];
    var rest := checks[i + 1..j];
    assert checks[..j] == front + rest;
    assert front[..i] == checks[..i];
    ErrorsAppend(front, rest);
    ErrorsLength(checks[..j]);
    ErrorsLength(front);
  }
}
