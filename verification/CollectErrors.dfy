/** Joining the errors of a batch (internal/asyncx/parallel_collect_errors.go): every
    error in item order, but only the first cancellation and the first deadline. */
module CollectErrors {
  import opened Basics

  /** An error, and whether it is (errors.Is) a cancellation or an exceeded deadline. */
  datatype Error = Error(name: string, canceled: bool, deadline: bool)

  // ---- What is collected -------------------------------------------------------------

  predicate IsCancel(e: Option<Error>) {
    e.Some? && e.value.canceled
  }

  predicate IsDeadline(e: Option<Error>) {
    e.Some? && !e.value.canceled && e.value.deadline
  }

  predicate Any(errors: seq<Option<Error>>, p: Option<Error> -> bool) {
    exists i :: 0 <= i < |errors| && p(errors[i])
  }

  /** Whether an error joins those before it. */
  predicate Joins(before: seq<Option<Error>>, e: Option<Error>) {
    e.Some? && (if e.value.canceled then !Any(before, IsCancel)
                else if e.value.deadline then !Any(before, IsDeadline)
                else true)
  }

  function Joined(errors: seq<Option<Error>>): seq<Error> {
    if errors == [] then []
    else
      var before, last := errors[..|errors| - 1], errors[|errors| - 1];
      Joined(before) + if Joins(before, last) then [last.value] else []
  }

  /** The errors that are not nil. */
  function Present(errors: seq<Option<Error>>): seq<Option<Error>> {
    if errors == [] then []
    else Present(errors[..|errors| - 1]) + if errors[|errors| - 1].Some? then [errors[|errors| - 1]] else []
  }

  lemma JoinedStep(before: seq<Option<Error>>, e: Option<Error>)
    ensures Joined(before + [e]) == Joined(before) + if Joins(before, e) then [e.value] else []
  {
    assert (before + [e])[..|before|] == before;
  }

  lemma AnyStep(before: seq<Option<Error>>, e: Option<Error>, p: Option<Error> -> bool)
    ensures Any(before + [e], p) <==> Any(before, p) || p(e)
  {
    var all := before + [e];
    assert all[|before|] == e;
    if Any(before, p) {
      var i :| 0 <= i < |before| && p(before[i]);
      assert p(all[i]);
    }
  }

  lemma {:induction false} PresentKeepsAny(errors: seq<Option<Error>>, p: Option<Error> -> bool)
    requires !p(None)
    ensures Any(Present(errors), p) <==> Any(errors, p)
    decreases |errors|
  {
    if errors != [] {
      var before, last := errors[..|errors| - 1], errors[|errors| - 1];
      assert errors == before + [last];
      PresentKeepsAny(before, p);
      AnyStep(before, last, p);
      AnyStep(Present(before), last, p);
      assert Present(before) + [] == Present(before);
      assert last == None || last.Some?;
    }
  }

  /** Nil errors change nothing: the list by index and the serial list join alike. */
  lemma {:induction false} NilErrorsDoNotMatter(errors: seq<Option<Error>>)
    ensures Joined(Present(errors)) == Joined(errors)
    decreases |errors|
  {
    if errors != [] {
      var before, last := errors[..|errors| - 1], errors[|errors| - 1];
      assert errors == before + [last];
      NilErrorsDoNotMatter(before);
      PresentKeepsAny(before, IsCancel);
      PresentKeepsAny(before, IsDeadline);
      JoinedStep(before, last);
      JoinedStep(Present(before), last);
      assert Present(before) + [] == Present(before);
    }
  }

  function Count(errors: seq<Error>, p: Option<Error> -> bool): nat {
    if errors == [] then 0
    else Count(errors[..|errors| - 1], p) + if p(Some(errors[|errors| - 1])) then 1 else 0
  }

  lemma CountStep(errors: seq<Error>, e: Error, p: Option<Error> -> bool)
    ensures Count(errors + [e], p) == Count(errors, p) + if p(Some(e)) then 1 else 0
  {
    assert (errors + [e])[..|errors|] == errors;
  }

  /** At most one cancellation and one deadline are kept: one each exactly when any came. */
  lemma {:induction false} OneCauseEach(errors: seq<Option<Error>>)
    ensures Count(Joined(errors), IsCancel) == if Any(errors, IsCancel) then 1 else 0
    ensures Count(Joined(errors), IsDeadline) == if Any(errors, IsDeadline) then 1 else 0
    decreases |errors|
  {
    if errors != [] {
      var before, last := errors[..|errors| - 1], errors[|errors| - 1];
      assert errors == before + [last];
      OneCauseEach(before);
      AnyStep(before, last, IsCancel);
      AnyStep(before, last, IsDeadline);
      JoinedStep(before, last);
      if Joins(before, last) {
        CountStep(Joined(before), last.value, IsCancel);
        CountStep(Joined(before), last.value, IsDeadline);
      } else {
        assert Joined(before) + [] == Joined(before);
      }
    }
  }

  /** Every other error is kept. */
  lemma {:induction false} OtherErrorsAreKept(errors: seq<Option<Error>>, i: nat)
    requires i < |errors| && errors[i].Some? && !IsCancel(errors[i]) && !IsDeadline(errors[i])
    ensures errors[i].value in Joined(errors)
    decreases |errors|
  {
    if i < |errors| - 1 {
      OtherErrorsAreKept(errors[..|errors| - 1], i);
    }
  }

  // ---- The loops ----------------------------------------------------------------------------

  class CollectedContextCauses {
    var canceled: bool
    var deadline: bool

    ghost predicate After(errors: seq<Option<Error>>)
      reads this
    {
      (canceled <==> Any(errors, IsCancel)) && (deadline <==> Any(errors, IsDeadline))
    }

    constructor ()
      ensures After([])
    {
      canceled, deadline := false, false;
    }

    method ShouldCollect(e: Option<Error>, ghost before: seq<Option<Error>>) returns (collect: bool)
      requires After(before)
      modifies this
      ensures After(before + [e])
      ensures collect <==> Joins(before, e)
    {
      AnyStep(before, e, IsCancel);
      AnyStep(before, e, IsDeadline);
      if e == None {
        return false;
      }
      if e.value.canceled {
        collect := !canceled;
        canceled := true;
        return;
      }
      if e.value.deadline {
        collect := !deadline;
        deadline := true;
        return;
      }
      collect := true;
    }
  }

  method AppendCollectedError(collected: seq<Error>, causes: CollectedContextCauses, e: Option<Error>, ghost before: seq<Option<Error>>)
    returns (next: seq<Error>)
    requires causes.After(before) && collected == Joined(before)
    modifies causes
    ensures causes.After(before + [e]) && next == Joined(before + [e])
  {
    JoinedStep(before, e);
    var collect := causes.ShouldCollect(e, before);
    next := if collect then collected + [e.value] else collected;
  }

  method JoinCollectedErrors(runErrors: seq<Option<Error>>, contextErr: Option<Error>) returns (collected: seq<Error>)
    ensures collected == Joined(runErrors + [contextErr])
  {
    var causes := new CollectedContextCauses();
    collected := [];
    for i := 0 to |runErrors|
      invariant causes.After(runErrors[..i]) && collected == Joined(runErrors[..i])
    {
      assert runErrors[..i + 1] == runErrors[..i] + [runErrors[i]];
      collected := AppendCollectedError(collected, causes, runErrors[i], runErrors[..i]);
    }
    assert runErrors[..|runErrors|] == runErrors;
    collected := AppendCollectedError(collected, causes, contextErr, runErrors);
  }

  /** How many items the serial loop runs: up to the first moment the context is done. */
  function SerialCount(observed: seq<Option<Error>>, n: nat): nat
    requires n < |observed|
  {
    if n == 0 then 0
    else
      var before := SerialCount(observed, n - 1);
      if before == n - 1 && observed[n - 1] == None then n else before
  }

  /** runListSerialCollectErrors. outcomes[i] is what run returns for item i; observed[i]
      is the context's error before item i, and the last one after the loop. */
  method RunListSerial(outcomes: seq<Option<Error>>, observed: seq<Option<Error>>) returns (joined: seq<Error>)
    requires |observed| == |outcomes| + 1
    ensures joined == Joined(outcomes[..SerialBound(observed, |outcomes|)] + [observed[|outcomes|]])
  {
    var collected: seq<Option<Error>> := [];
    var i := 0;
    while i < |outcomes| && observed[i] == None
      invariant i <= |outcomes| && SerialCount(observed, i) == i
      invariant collected == Present(outcomes[..i])
    {
      assert outcomes[..i + 1][..i] == outcomes[..i];
      if outcomes[i].Some? {
        collected := collected + [outcomes[i]];
      }
      i := i + 1;
    }
    SerialCountStops(observed, i, |outcomes|);
    PresentThenContext(outcomes[..i], observed[|outcomes|]);
    joined := JoinCollectedErrors(collected, observed[|outcomes|]);
  }

  function SerialBound(observed: seq<Option<Error>>, n: nat): (k: nat)
    requires n < |observed|
    ensures k <= n
  {
    SerialCountBound(observed, n);
    SerialCount(observed, n)
  }

  lemma {:induction false} SerialCountBound(observed: seq<Option<Error>>, n: nat)
    requires n < |observed|
    ensures SerialCount(observed, n) <= n
  {
    if n > 0 {
      SerialCountBound(observed, n - 1);
    }
  }

  lemma {:induction false} SerialCountStops(observed: seq<Option<Error>>, i: nat, n: nat)
    requires i <= n < |observed| && SerialCount(observed, i) == i
    requires i == n || observed[i].Some?
    ensures SerialCount(observed, n) == i
  {
    if i < n {
      SerialCountStops(observed, i, n - 1);
    }
  }

  lemma PresentThenContext(errors: seq<Option<Error>>, contextErr: Option<Error>)
    ensures Joined(Present(errors) + [contextErr]) == Joined(errors + [contextErr])
  {
    NilErrorsDoNotMatter(errors);
    JoinedStep(errors, contextErr);
    JoinedStep(Present(errors), contextErr);
    PresentKeepsAny(errors, IsCancel);
    PresentKeepsAny(errors, IsDeadline);
  }
}
