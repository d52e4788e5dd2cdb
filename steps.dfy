/** The shape shared by the scripts' main loops: each element in turn writes
    some output (CSV lines, SQL statements) and may then stop the process
    with an exit status. */
module Steps {
  import opened Common
  import opened Chunks

  /** What the loop leaves behind: the output of every element up to and
      including the one that stopped it, and that element's status (None
      when the loop ran to the end). */
  function StepTrace<T, U>(xs: seq<T>, f: T -> (seq<U>, Option<int>)): (seq<U>, Option<int>)
  {
    if xs == [] then ([], None)
    else
      var before := StepTrace(xs[..|xs| - 1], f);
      if before.1.Some? then before
      else (before.0 + f(xs[|xs| - 1]).0, f(xs[|xs| - 1]).1)
  }

  /** The outputs of the elements, one list each. */
  function Outs<T, U>(xs: seq<T>, f: T -> (seq<U>, Option<int>)): (r: seq<seq<U>>)
    ensures |r| == |xs| && forall i :: 0 <= i < |xs| ==> r[i] == f(xs[i]).0
  {
    seq(|xs|, i requires 0 <= i < |xs| => f(xs[i]).0)
  }

  /** One more element after a prefix that did not stop. */
  lemma StepTraceSnoc<T, U>(xs: seq<T>, x: T, f: T -> (seq<U>, Option<int>))
    requires StepTrace(xs, f).1.None?
    ensures StepTrace(xs + [x], f) == (StepTrace(xs, f).0 + f(x).0, f(x).1)
  {
    assert (xs + [x])[..|xs|] == xs;
  }

  /** Once the loop has stopped, the elements after it do not matter. */
  lemma {:induction false} StepTraceStops<T, U>(xs: seq<T>, ys: seq<T>, f: T -> (seq<U>, Option<int>))
    requires StepTrace(xs, f).1.Some?
    ensures StepTrace(xs + ys, f) == StepTrace(xs, f)
    decreases |ys|
  {
    if ys == [] {
      assert xs + ys == xs;
    } else {
      var init := ys[..|ys| - 1];
      assert (xs + ys)[..|xs + ys| - 1] == xs + init;
      StepTraceStops(xs, init, f);
    }
  }

  /** The loop body's view of StepTraceSnoc: element i after the first i. */
  lemma StepTraceStep<T, U>(xs: seq<T>, i: nat, f: T -> (seq<U>, Option<int>))
    requires i < |xs| && StepTrace(xs[..i], f).1.None?
    ensures StepTrace(xs[..i + 1], f) == (StepTrace(xs[..i], f).0 + f(xs[i]).0, f(xs[i]).1)
  {
    assert xs[..i + 1] == xs[..i] + [xs[i]];
    StepTraceSnoc(xs[..i], xs[i], f);
  }

  /** The loop body's view of StepTraceStops: leaving the loop at element i. */
  lemma StepTraceStopsAt<T, U>(xs: seq<T>, i: nat, f: T -> (seq<U>, Option<int>))
    requires i < |xs| && StepTrace(xs[..i + 1], f).1.Some?
    ensures StepTrace(xs, f) == StepTrace(xs[..i + 1], f)
  {
    StepTraceStops(xs[..i + 1], xs[i + 1..], f);
    assert xs[..i + 1] + xs[i + 1..] == xs;
  }

  /** A loop that ran to the end: no element stopped it, and the output is
      every element's output in order. */
  lemma {:induction false} StepTraceAll<T, U>(xs: seq<T>, f: T -> (seq<U>, Option<int>))
    requires StepTrace(xs, f).1.None?
    ensures forall i :: 0 <= i < |xs| ==> f(xs[i]).1.None?
    ensures StepTrace(xs, f).0 == Flatten(Outs(xs, f))
  {
    if xs != [] {
      var init, last := xs[..|xs| - 1], xs[|xs| - 1];
      StepTraceAll(init, f);
      assert forall i :: 0 <= i < |init| ==> init[i] == xs[i];
      assert Outs(xs, f) == Outs(init, f) + [f(last).0];
      FlattenAppend(Outs(init, f), [f(last).0]);
      FlattenCons(f(last).0, []);
    }
  }

  /** A loop that stopped did so at the first element with a status,
      after writing the output of every element up to that one. */
  lemma {:induction false} StepTraceFirstStop<T, U>(xs: seq<T>, f: T -> (seq<U>, Option<int>))
    requires StepTrace(xs, f).1.Some?
    ensures exists i :: (0 <= i < |xs| && f(xs[i]).1.Some? && (forall j :: 0 <= j < i ==> f(xs[j]).1.None?) &&
      StepTrace(xs, f) == (Flatten(Outs(xs[..i + 1], f)), f(xs[i]).1))
  {
    var init, last := xs[..|xs| - 1], xs[|xs| - 1];
    assert forall i :: 0 <= i < |init| ==> init[i] == xs[i];
    if StepTrace(init, f).1.Some? {
      StepTraceFirstStop(init, f);
      var i :| 0 <= i < |init| && f(init[i]).1.Some? && (forall j :: 0 <= j < i ==> f(init[j]).1.None?) &&
        StepTrace(init, f) == (Flatten(Outs(init[..i + 1], f)), f(init[i]).1);
      assert init[..i + 1] == xs[..i + 1];
    } else {
      StepTraceAll(init, f);
      var i := |xs| - 1;
      assert xs[..i + 1] == xs;
      assert Outs(xs, f) == Outs(init, f) + [f(last).0];
      FlattenAppend(Outs(init, f), [f(last).0]);
      FlattenCons(f(last).0, []);
      assert [f(last).0] + [] == [f(last).0];
      assert StepTrace(xs, f) == (StepTrace(init, f).0 + f(last).0, f(last).1);
      assert Flatten(Outs(xs, f)) == Flatten(Outs(init, f)) + f(last).0;
    }
  }

  /** The loop runs to the end iff no element stops it, and then the output
      is every element's output in order; otherwise it stops at the first
      element with a status, after writing that element's output. */
  lemma StepTraceSpec<T, U>(xs: seq<T>, f: T -> (seq<U>, Option<int>))
    ensures StepTrace(xs, f).1.None? <==> forall i :: 0 <= i < |xs| ==> f(xs[i]).1.None?
    ensures StepTrace(xs, f).1.None? ==> StepTrace(xs, f).0 == Flatten(Outs(xs, f))
    ensures StepTrace(xs, f).1.Some? ==>
      exists i :: 0 <= i < |xs| && f(xs[i]).1.Some? && (forall j :: 0 <= j < i ==> f(xs[j]).1.None?) &&
        StepTrace(xs, f) == (Flatten(Outs(xs[..i + 1], f)), f(xs[i]).1)
  {
    if StepTrace(xs, f).1.None? {
      StepTraceAll(xs, f);
    } else {
      StepTraceFirstStop(xs, f);
    }
  }

  /** The elements that write something. */
  function Writes<T, U>(f: T -> (seq<U>, Option<int>)): T -> bool
  {
    x => f(x).0 != []
  }

  /** out holds, in order, the single item each element of kept writes. */
  ghost predicate HeadsOf<T, U>(out: seq<U>, kept: seq<T>, f: T -> (seq<U>, Option<int>))
  {
    |out| == |kept| && forall i :: 0 <= i < |kept| ==> f(kept[i]).0 == [out[i]]
  }

  lemma HeadsSnoc<T, U>(out: seq<U>, kept: seq<T>, x: T, f: T -> (seq<U>, Option<int>))
    requires HeadsOf(out, kept, f) && |f(x).0| == 1
    ensures HeadsOf(out + f(x).0, kept + [x], f)
  {
    var o, k := out + f(x).0, kept + [x];
    forall i | 0 <= i < |k| ensures f(k[i]).0 == [o[i]] {
      if i < |kept| {
        assert k[i] == kept[i] && o[i] == out[i];
      }
    }
  }

  /** When every element writes at most one item, the output of a loop
      that ran to the end is the item of each element that writes one, in
      order. */
  lemma {:induction false} FlattenSingles<T, U>(xs: seq<T>, f: T -> (seq<U>, Option<int>))
    requires forall i :: 0 <= i < |xs| ==> |f(xs[i]).0| <= 1
    ensures HeadsOf(Flatten(Outs(xs, f)), Filter(xs, Writes(f)), f)
  {
    if xs != [] {
      var init := xs[..|xs| - 1];
      var last := xs[|xs| - 1];
      FlattenSingles(init, f);
      assert Outs(xs, f) == Outs(init, f) + [f(last).0];
      FlattenAppend(Outs(init, f), [f(last).0]);
      FlattenCons(f(last).0, []);
      if Writes(f)(last) {
        HeadsSnoc(Flatten(Outs(init, f)), Filter(init, Writes(f)), last, f);
      } else {
        assert f(last).0 == [];
        assert Flatten(Outs(xs, f)) == Flatten(Outs(init, f));
      }
    }
  }
}
