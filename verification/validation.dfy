/** The generic validator: an object paired with an ordered list of checks,
    run in order until the first one reports an error. */
module Validation {
  import opened Wrappers

  /** A zero-argument check, Go's `func() error`. */
  type Check<!E> = () -> Outcome<E>

  /** The object being validated and the checks that validate it. */
  datatype Validator<T, !E> = Validator(obj: T, validateFns: seq<Check<E>>)

  /** Pairs an object with its checks, keeping both as given. */
  function GetNewValidator<T, E>(o: T, fns: seq<Check<E>>): (v: Validator<T, E>)
    ensures v.obj == o
    ensures |v.validateFns| == |fns|
    ensures forall i :: 0 <= i < |fns| ==> v.validateFns[i] == fns[i]
  {
    Validator(o, fns)
  }

  /** Index of the first failing check, if any: the reference against which
      the short-circuiting loop is stated. */
  ghost predicate FirstFailureAt<E>(fns: seq<Check<E>>, i: int)
  {
    0 <= i < |fns| && fns[i]().Fail? && forall j :: 0 <= j < i ==> fns[j]().Pass?
  }

  /** The loop over the checks: returns the first error, or `Pass` when every
      check passes (in particular when there are none). */
  function RunChecks<E>(fns: seq<Check<E>>): (r: Outcome<E>)
    ensures r.Pass? <==> forall j :: 0 <= j < |fns| ==> fns[j]().Pass?
    ensures r.Fail? ==> exists i :: FirstFailureAt(fns, i) && r == fns[i]()
  {
    if |fns| == 0 then Pass
    else match fns[0]()
      case Fail(e) =>
        assert FirstFailureAt(fns, 0);
        Fail(e)
      case Pass =>
        var rest := RunChecks(fns[1..]);
        if rest.Fail? then
          FirstFailureShift(fns, rest);
          rest
        else
          rest
  }

  /** A first failure in the tail is the first failure of the whole list when
      the head passes. */
  lemma FirstFailureShift<E>(fns: seq<Check<E>>, x: Outcome<E>)
    requires |fns| > 0 && fns[0]().Pass?
    requires exists i :: FirstFailureAt(fns[1..], i) && x == fns[1..][i]()
    ensures exists i :: FirstFailureAt(fns, i) && x == fns[i]()
  {
    var i :| FirstFailureAt(fns[1..], i) && x == fns[1..][i]();
    assert FirstFailureAt(fns, i + 1);
  }

  function RunValidateFns<T, E>(v: Validator<T, E>): (r: Outcome<E>)
    ensures r.Pass? <==> forall j :: 0 <= j < |v.validateFns| ==> v.validateFns[j]().Pass?
    ensures r.Fail? ==> exists i :: FirstFailureAt(v.validateFns, i) && r == v.validateFns[i]()
  {
    RunChecks(v.validateFns)
  }

  /** The first failing check decides the outcome. */
  lemma {:induction false} FirstFailureDecides<E>(fns: seq<Check<E>>, i: nat)
    requires FirstFailureAt(fns, i)
    ensures RunChecks(fns) == fns[i]()
    decreases i
  {
    if i > 0 {
      assert FirstFailureAt(fns[1..], i - 1);
      FirstFailureDecides(fns[1..], i - 1);
    }
  }

  /** Checks after the first failing one are never consulted: replacing them
      by anything leaves the outcome unchanged. */
  lemma {:induction false} LaterChecksIgnored<E>(fns: seq<Check<E>>, i: nat, rest: seq<Check<E>>)
    requires FirstFailureAt(fns, i)
    ensures RunChecks(fns[..i + 1] + rest) == RunChecks(fns)
    decreases i
  {
    var g := fns[..i + 1] + rest;
    if i == 0 {
      assert g[0] == fns[0];
    } else {
      assert g[0] == fns[0];
      assert g[1..] == fns[1..][..i] + rest;
      assert FirstFailureAt(fns[1..], i - 1);
      LaterChecksIgnored(fns[1..], i - 1, rest);
    }
  }

  /** Running two lists one after the other: a failure in the first list is
      final, otherwise the second list decides. */
  lemma {:induction false} RunChecksAppend<E>(a: seq<Check<E>>, b: seq<Check<E>>)
    ensures RunChecks(a).Fail? ==> RunChecks(a + b) == RunChecks(a)
    ensures RunChecks(a).Pass? ==> RunChecks(a + b) == RunChecks(b)
    decreases |a|
  {
    if |a| > 0 {
      assert (a + b)[0] == a[0];
      assert (a + b)[1..] == a[1..] + b;
      RunChecksAppend(a[1..], b);
    } else {
      assert a + b == b;
    }
  }
}
