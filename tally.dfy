/**
 * The failure counter of the batch runners: every request's outcome is
 * logged, and the run reports how many of them were errors.
 */
module Tally {
  import opened Xpo2b

  /** How a run ends: stopped before any request, or with its error count and the outcome of every request. */
  datatype RunResult = Aborted(reason: string) | Completed(errcnt: nat, log: seq<Outcome>)

  /** How many of the outcomes are errors. */
  function FailCount(outs: seq<Outcome>): nat {
    if outs == [] then 0
    else FailCount(outs[..|outs| - 1]) + (if outs[|outs| - 1].Fail? then 1 else 0)
  }

  /** Counting one more outcome adds one exactly when it is an error. */
  lemma FailCountSnoc(outs: seq<Outcome>, o: Outcome)
    ensures FailCount(outs + [o]) == FailCount(outs) + (if o.Fail? then 1 else 0)
  {
    assert (outs + [o])[..|outs|] == outs;
  }

  /** There are never more errors than requests. */
  lemma {:induction false} FailCountBound(outs: seq<Outcome>)
    ensures FailCount(outs) <= |outs|
  {
    if outs != [] {
      FailCountBound(outs[..|outs| - 1]);
    }
  }

  /** No error is counted exactly when every request succeeded. */
  lemma {:induction false} FailCountZero(outs: seq<Outcome>)
    ensures FailCount(outs) == 0 <==> forall k :: 0 <= k < |outs| ==> outs[k].Pass?
  {
    if outs != [] {
      var init := outs[..|outs| - 1];
      FailCountZero(init);
      assert forall k :: 0 <= k < |init| ==> init[k] == outs[k];
    }
  }

  /** The count over a concatenation is the sum of the counts. */
  lemma {:induction false} FailCountAppend(a: seq<Outcome>, b: seq<Outcome>)
    ensures FailCount(a + b) == FailCount(a) + FailCount(b)
  {
    if b == [] {
      assert a + b == a;
    } else {
      var init := b[..|b| - 1];
      assert a + b == (a + init) + [b[|b| - 1]];
      FailCountSnoc(a + init, b[|b| - 1]);
      FailCountAppend(a, init);
    }
  }
}
