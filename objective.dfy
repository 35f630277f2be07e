/**
 * `Main.eval`, the demo objective: a candidate `conf` becomes the objective vector
 * `[sum(conf), -max(conf)]`, both computed in Java `int`.
 */
module Objective {
  import opened JavaLang
  import Knobs
  import Problem

  /** The exact sum of the values. */
  function Sum(s: seq<int>): (r: int) {
    if s == [] then 0 else Sum(s[..|s| - 1]) + s[|s| - 1]
  }

  /**
   * `IntStream.sum`: a left fold of `int` additions, each one wrapping. Wrapping at every
   * step gives the exact sum, wrapped once.
   */
  function StreamSum(s: seq<Int32>): (r: Int32)
    ensures r == Wrap32(Sum(s))
  {
    if s == [] then 0
    else
      var init, last := s[..|s| - 1], s[|s| - 1];
      WrapAdd(last, Sum(init));
      Wrap32(StreamSum(init) + last)
  }

  /** `IntStream.max` on a non-empty stream: a left fold of `Math.max`. */
  function StreamMax(s: seq<Int32>): (m: Int32)
    requires s != []
    ensures m in s
    ensures forall i :: 0 <= i < |s| ==> s[i] <= m
  {
    if |s| == 1 then s[0]
    else
      var m := StreamMax(s[..|s| - 1]);
      assert forall i :: 0 <= i < |s| - 1 ==> s[..|s| - 1][i] == s[i];
      if m >= s[|s| - 1] then m else s[|s| - 1]
  }

  /** Negating in `int` twice gives the value back, `Integer.MIN_VALUE` included. */
  lemma NegateTwice(m: Int32)
    ensures Wrap32(-(Wrap32(-(m as int)) as int)) == m
  {
    if m == INT_MIN {
      assert Wrap32(-(m as int)) == INT_MIN;
    }
  }

  /**
   * `Main.eval`. The first objective is the wrapped sum; the second is the `int` negation of
   * a largest value. An empty candidate has no maximum and the call throws.
   */
  function Eval(conf: seq<Int32>): (r: Result<seq<Int32>>)
    ensures r.Throws? <==> conf == []
    ensures r.Throws? ==> r.exception == NoSuchElement
    ensures r.Ok? ==> |r.value| == 2 && r.value[0] == Wrap32(Sum(conf))
    ensures r.Ok? ==> Wrap32(-(r.value[1] as int)) in conf
    ensures r.Ok? ==> forall i :: 0 <= i < |conf| ==> conf[i] <= Wrap32(-(r.value[1] as int))
  {
    if conf == [] then Throws(NoSuchElement)
    else
      var m := StreamMax(conf);
      NegateTwice(m);
      Ok([StreamSum(conf), Wrap32(-(m as int))])
  }

  /** A sum of values in `[0, bound)` stays within `[0, |s| * (bound - 1)]`. */
  lemma {:induction false} SumBounds(s: seq<Int32>, bound: int)
    requires bound >= 1
    requires forall i :: 0 <= i < |s| ==> 0 <= s[i] < bound
    ensures 0 <= Sum(s) <= |s| * (bound - 1)
  {
    if s != [] {
      var init := s[..|s| - 1];
      assert forall i :: 0 <= i < |init| ==> init[i] == s[i];
      SumBounds(init, bound);
      assert |s| * (bound - 1) == |init| * (bound - 1) + (bound - 1);
    }
  }

  /**
   * No wrap-around happens when every value lies in `[0, bound)` and the largest possible sum
   * fits in an `int`: the objective vector is then exactly `[sum, -max]`.
   */
  lemma EvalExact(conf: seq<Int32>, bound: int)
    requires conf != [] && bound >= 1
    requires forall i :: 0 <= i < |conf| ==> 0 <= conf[i] < bound
    requires |conf| * (bound - 1) <= INT_MAX
    ensures Eval(conf) == Ok([Sum(conf), -StreamMax(conf)])
  {
    SumBounds(conf, bound);
    assert StreamSum(conf) == Sum(conf);
    var m := StreamMax(conf);
    assert 0 <= conf[0] <= m;
    assert Wrap32(-(m as int)) == -m;
  }

  /** The four knobs of 100 configurations each that the demo optimizes over. */
  const DEMO_KNOBS: seq<Knobs.RawKnob> :=
    [Knobs.RawKnob(100), Knobs.RawKnob(100), Knobs.RawKnob(100), Knobs.RawKnob(100)]

  /**
   * Every feasible demo candidate is scored without wrap-around: the sum lies in
   * `[0, 396]` and the negated maximum in `[-99, 0]`.
   */
  lemma DemoObjectives(conf: seq<Int32>)
    requires |conf| == 4 && Problem.Feasible(DEMO_KNOBS, conf)
    ensures Eval(conf) == Ok([Sum(conf), -StreamMax(conf)])
    ensures 0 <= Sum(conf) <= 396 && -99 <= -StreamMax(conf) <= 0
  {
    var k := DEMO_KNOBS;
    forall i | 0 <= i < |conf| ensures 0 <= conf[i] < 100 {
      assert k[i].InRange(conf[i]);
    }
    SumBounds(conf, 100);
    EvalExact(conf, 100);
  }
}
