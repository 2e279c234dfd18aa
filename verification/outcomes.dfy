/** Go-style error values, optional results, and the loop that stops at the first fatal error,
    shared by every module of the model. */
module Outcomes {

  /** A Go `error`: `Pass` is nil, `Fail` carries the error's message. */
  datatype Outcome = Pass | Fail(message: string)

  /** A value-or-error reply, used for the answers of external APIs. */
  datatype Result<T> = Success(value: T) | Failure(message: string)

  datatype Option<T> = None | Some(value: T)

  /** The items a loop ran a step for, in order, and whether a failure ended the process. */
  datatype Loop<T> = Loop(issued: seq<T>, exited: bool)

  /** Run a step for each item in order, where a failing step ends the process (`log.Fatal`):
      `succeeds` answers whether the step for an item succeeds, and nothing after the first
      failure runs. */
  function RunUntilFailure<T>(items: seq<T>, succeeds: T -> bool): (r: Loop<T>)
    ensures r.issued <= items
    ensures forall i | 0 <= i < |r.issued| - 1 :: succeeds(r.issued[i])
    ensures !r.exited <==> forall i | 0 <= i < |items| :: succeeds(items[i])
    ensures !r.exited ==> r.issued == items
    ensures r.exited ==> |r.issued| > 0 && !succeeds(r.issued[|r.issued| - 1])
    decreases |items|
  {
    if items == [] then Loop([], false)
    else if !succeeds(items[0]) then Loop([items[0]], true)
    else
      var rest := RunUntilFailure(items[1..], succeeds);
      assert forall i | 1 <= i < |items| :: items[i] == items[1..][i - 1];
      assert items == [items[0]] + items[1..];
      Loop([items[0]] + rest.issued, rest.exited)
  }

  /** The steps run form a prefix ending at the first failure: running the loop on that
      prefix alone gives the same result. */
  lemma {:induction false} RunIsPrefix<T>(items: seq<T>, succeeds: T -> bool)
    ensures var r := RunUntilFailure(items, succeeds);
            RunUntilFailure(items[..|r.issued|], succeeds) == r
    decreases |items|
  {
    var r := RunUntilFailure(items, succeeds);
    if items != [] && succeeds(items[0]) {
      RunIsPrefix(items[1..], succeeds);
      var rest := RunUntilFailure(items[1..], succeeds);
      assert items[..|r.issued|][1..] == items[1..][..|rest.issued|];
    } else if items != [] {
      assert items[..|r.issued|] == [items[0]];
      assert [items[0]][1..] == [];
    }
  }

  /** Running two lists one after the other, where a failure in the first ends the process
      before the second starts, is running their concatenation. */
  lemma {:induction false} RunConcat<T>(xs: seq<T>, ys: seq<T>, succeeds: T -> bool)
    ensures var x := RunUntilFailure(xs, succeeds);
            var y := RunUntilFailure(ys, succeeds);
            RunUntilFailure(xs + ys, succeeds) == if x.exited then x else Loop(xs + y.issued, y.exited)
    decreases |xs|
  {
    if xs == [] {
      assert xs + ys == ys;
    } else {
      assert (xs + ys)[0] == xs[0];
      if succeeds(xs[0]) {
        assert (xs + ys)[1..] == xs[1..] + ys;
        RunConcat(xs[1..], ys, succeeds);
        RunConcatStep(xs, ys, succeeds);
      }
    }
  }

  /** The inductive step of `RunConcat`: a first item that succeeds is prepended to both sides. */
  lemma RunConcatStep<T>(xs: seq<T>, ys: seq<T>, succeeds: T -> bool)
    requires xs != [] && succeeds(xs[0]) && (xs + ys)[1..] == xs[1..] + ys
    requires var x := RunUntilFailure(xs[1..], succeeds);
             var y := RunUntilFailure(ys, succeeds);
             RunUntilFailure(xs[1..] + ys, succeeds) == if x.exited then x else Loop(xs[1..] + y.issued, y.exited)
    ensures var x := RunUntilFailure(xs, succeeds);
            var y := RunUntilFailure(ys, succeeds);
            RunUntilFailure(xs + ys, succeeds) == if x.exited then x else Loop(xs + y.issued, y.exited)
  {
    var y := RunUntilFailure(ys, succeeds);
    var r := RunUntilFailure(xs[1..], succeeds);
    var rest := RunUntilFailure(xs[1..] + ys, succeeds);
    assert (xs + ys)[0] == xs[0];
    RunCons(xs, succeeds);
    RunCons(xs + ys, succeeds);
    PrependStep(xs, y.issued, r, rest);
  }

  /** The sequence reasoning of the step, away from the loop's own contract. */
  lemma PrependStep<T>(xs: seq<T>, yIssued: seq<T>, r: Loop<T>, rest: Loop<T>)
    requires xs != []
    requires r.exited ==> rest == r
    requires !r.exited ==> rest.issued == xs[1..] + yIssued
    ensures r.exited ==> Loop([xs[0]] + rest.issued, rest.exited) == Loop([xs[0]] + r.issued, r.exited)
    ensures !r.exited ==> [xs[0]] + rest.issued == xs + yIssued
  {
    if !r.exited {
      assert [xs[0]] + (xs[1..] + yIssued) == xs + yIssued;
    }
  }

  /** A first item that succeeds is issued, and the loop goes on with the rest. */
  lemma RunCons<T>(items: seq<T>, succeeds: T -> bool)
    requires items != [] && succeeds(items[0])
    ensures RunUntilFailure(items, succeeds)
            == Loop([items[0]] + RunUntilFailure(items[1..], succeeds).issued, RunUntilFailure(items[1..], succeeds).exited)
  {
  }

  /** Two lists whose items succeed at the same positions stop at the same place. */
  lemma {:induction false} RunsAgree<S, T>(xs: seq<S>, f: S -> bool, ys: seq<T>, g: T -> bool)
    requires |xs| == |ys| && forall i | 0 <= i < |xs| :: f(xs[i]) == g(ys[i])
    ensures |RunUntilFailure(xs, f).issued| == |RunUntilFailure(ys, g).issued|
    ensures RunUntilFailure(xs, f).exited == RunUntilFailure(ys, g).exited
    decreases |xs|
  {
    if xs != [] && f(xs[0]) {
      assert g(ys[0]);
      assert forall i | 0 <= i < |xs[1..]| :: xs[1..][i] == xs[i + 1] && ys[1..][i] == ys[i + 1];
      RunsAgree(xs[1..], f, ys[1..], g);
    }
  }
}
