/**
 * `CompatNumberProblem`: maps a fixed-length vector of knobs onto what the optimizer asks of
 * a problem -- per-slot bounds, a feasibility check, slot-wise repair and random candidates.
 * A candidate's variables are the integers the optimizer stores for it, one per slot.
 */
module Problem {
  import opened JavaLang
  import opened Knobs

  /** Every knob has at least one configuration. */
  predicate AllNonEmpty(knobs: seq<RawKnob>) {
    forall i :: 0 <= i < |knobs| ==> knobs[i].NonEmpty()
  }

  /** The first `n` slots of `s` hold configurations of their knobs. */
  predicate SlotsInRange(knobs: seq<RawKnob>, s: seq<Int32>, n: nat)
    requires n <= |knobs| && n <= |s|
  {
    forall i :: 0 <= i < n ==> knobs[i].InRange(s[i])
  }

  /** Every slot that a knob governs holds one of that knob's configurations. */
  predicate Feasible(knobs: seq<RawKnob>, s: seq<Int32>) {
    |knobs| <= |s| && SlotsInRange(knobs, s, |knobs|)
  }

  /** The variables after slot-wise repair: each slot with a knob repaired by it, the rest kept. */
  function RepairAll(knobs: seq<RawKnob>, s: seq<Int32>): (r: seq<Int32>)
    ensures |r| == |s|
  {
    seq(|s|, i requires 0 <= i < |s| => if i < |knobs| then knobs[i].Repair(s[i]) else s[i])
  }

  /** Repair always yields a feasible candidate when no knob's domain is empty. */
  lemma RepairAllFeasible(knobs: seq<RawKnob>, s: seq<Int32>)
    requires AllNonEmpty(knobs) && |knobs| <= |s|
    ensures Feasible(knobs, RepairAll(knobs, s))
  {
    var r := RepairAll(knobs, s);
    forall i | 0 <= i < |knobs| ensures knobs[i].InRange(r[i]) {
      assert knobs[i].NonEmpty();
    }
  }

  /** Repair leaves a feasible candidate as it is. */
  lemma RepairAllKeepsFeasible(knobs: seq<RawKnob>, s: seq<Int32>)
    requires Feasible(knobs, s)
    ensures RepairAll(knobs, s) == s
  {
    var r := RepairAll(knobs, s);
    forall i | 0 <= i < |s| ensures r[i] == s[i] {
      if i < |knobs| {
        assert knobs[i].InRange(s[i]);
      }
    }
  }

  /** Repairing twice is repairing once. */
  lemma RepairAllIdempotent(knobs: seq<RawKnob>, s: seq<Int32>)
    ensures RepairAll(knobs, RepairAll(knobs, s)) == RepairAll(knobs, s)
  {
    var r := RepairAll(knobs, s);
    forall i | 0 <= i < |s| ensures RepairAll(knobs, r)[i] == r[i] {
      if i < |knobs| {
        knobs[i].RepairIdempotent(s[i]);
      }
    }
  }

  class CompatNumberProblem {
    const knobs: seq<RawKnob>
    const numberOfObjectives: Int32
    var lowerLimit: seq<int>
    var upperLimit: seq<int>

    /** Slot `i` is bounded by `[0, configCount of knob i)`, one bound pair per knob. */
    ghost predicate LimitsMatchKnobs()
      reads this
    {
      |lowerLimit| == |knobs| && |upperLimit| == |knobs| &&
      forall i :: 0 <= i < |knobs| ==> lowerLimit[i] == 0 && upperLimit[i] == knobs[i].configCount
    }

    /** Builds the bounds one knob at a time. */
    constructor (knobs: seq<RawKnob>, numberOfObjectives: Int32)
      ensures this.knobs == knobs && this.numberOfObjectives == numberOfObjectives
      ensures LimitsMatchKnobs()
    {
      this.knobs := knobs;
      this.numberOfObjectives := numberOfObjectives;
      lowerLimit := [];
      upperLimit := [];
      new;
      var i := 0;
      while i < |knobs|
        invariant 0 <= i <= |knobs|
        invariant |lowerLimit| == i && |upperLimit| == i
        invariant forall j :: 0 <= j < i ==> lowerLimit[j] == 0 && upperLimit[j] == knobs[j].configCount
      {
        lowerLimit := lowerLimit + [0];
        upperLimit := upperLimit + [knobs[i].configCount];
        i := i + 1;
      }
    }

    /** Feasibility is exactly "every governed slot lies within its bounds". */
    lemma FeasibleIffWithinLimits(s: seq<Int32>)
      requires LimitsMatchKnobs() && |knobs| <= |s|
      ensures Feasible(knobs, s) <==>
                forall i :: 0 <= i < |knobs| ==> lowerLimit[i] <= s[i] < upperLimit[i]
    {
      if forall i :: 0 <= i < |knobs| ==> lowerLimit[i] <= s[i] < upperLimit[i] {
        forall i | 0 <= i < |knobs| ensures knobs[i].InRange(s[i]) {
          assert lowerLimit[i] <= s[i] < upperLimit[i];
        }
      }
    }

    /**
     * `makeFeasible`: repairs slot `i` with knob `i`, in place. A solution shorter than the
     * knob vector has its slots repaired and then fails reading the first missing one.
     */
    method MakeFeasible(solution: array<Int32>) returns (r: Outcome)
      modifies solution
      ensures solution[..] == RepairAll(knobs, old(solution[..]))
      ensures r == if solution.Length < |knobs| then Thrown(IndexOutOfBounds) else Normal
    {
      var i := 0;
      while i < |knobs|
        invariant 0 <= i <= |knobs| && i <= solution.Length
        invariant forall j :: 0 <= j < i ==> solution[j] == knobs[j].Repair(old(solution[j]))
        invariant forall j :: i <= j < solution.Length ==> solution[j] == old(solution[j])
      {
        if i == solution.Length {
          return Thrown(IndexOutOfBounds);
        }
        solution[i] := knobs[i].Repair(solution[i]);
        i := i + 1;
      }
      return Normal;
    }

    /**
     * `isFeasible`: scans the slots in order and answers false at the first one outside its
     * knob's range. A solution shorter than the knob vector whose slots are all in range
     * fails reading the first missing one.
     */
    method IsFeasible(solution: array<Int32>) returns (r: Result<bool>)
      ensures r == Ok(true) <==> Feasible(knobs, solution[..])
      ensures r == Ok(false) <==>
                exists i :: 0 <= i < |knobs| && i < solution.Length && !knobs[i].InRange(solution[i])
      ensures r.Throws? <==>
                solution.Length < |knobs| && SlotsInRange(knobs, solution[..], solution.Length)
      ensures r.Throws? ==> r.exception == IndexOutOfBounds
    {
      var i := 0;
      while i < |knobs|
        invariant 0 <= i <= |knobs| && i <= solution.Length
        invariant SlotsInRange(knobs, solution[..], i)
      {
        if i == solution.Length {
          return Throws(IndexOutOfBounds);
        }
        var x := solution[i];
        if !(0 <= x && x < knobs[i].configCount) {
          return Ok(false);
        }
        i := i + 1;
      }
      return Ok(true);
    }

    /** `getRandomSolution`: one `randomize` per knob, in order; the first failure escapes. */
    method GetRandomSolution() returns (r: Result<seq<Int32>>)
      ensures r.Ok? <==> AllNonEmpty(knobs)
      ensures r.Ok? ==> |r.value| == |knobs| && Feasible(knobs, r.value)
      ensures r.Throws? ==> r.exception == IllegalArgument
    {
      var solution: seq<Int32> := [];
      var i := 0;
      while i < |knobs|
        invariant 0 <= i <= |knobs| && |solution| == i
        invariant SlotsInRange(knobs, solution, i)
        invariant forall j :: 0 <= j < i ==> knobs[j].NonEmpty()
      {
        var v := knobs[i].Randomize();
        if v.Throws? {
          return Throws(v.exception);
        }
        solution := solution + [v.value];
        i := i + 1;
      }
      return Ok(solution);
    }
  }
}
