/** One discrete, bounded search dimension: the values `0 .. configCount - 1`. */
module Knobs {
  import opened JavaLang

  /** `RawKnob`, the one implementation of the `Knob` interface; its only state is a final field. */
  datatype RawKnob = RawKnob(configCount: Int32) {

    /** The knob's domain is not empty, so repairing and sampling can land inside it. */
    predicate NonEmpty() { configCount >= 1 }

    /** `x` is one of the knob's configurations. */
    predicate InRange(x: int) { 0 <= x < configCount }

    /** `repair`: clamp an index into the domain. `configCount - 1` is Java `int` arithmetic. */
    function Repair(index: Int32): (r: Int32)
      ensures NonEmpty() ==> InRange(r)
      ensures InRange(index) ==> r == index
      ensures index < 0 ==> r == 0
      ensures NonEmpty() && index >= configCount ==> r == configCount - 1
    {
      Max(0, Min(index, Wrap32(configCount - 1)))
    }

    /**
     * `randomize`: `ThreadLocalRandom.nextInt(0, configCount)`, which throws when the
     * range is empty. Which value in range is drawn is left open.
     */
    method Randomize() returns (r: Result<Int32>)
      ensures r.Ok? <==> NonEmpty()
      ensures r.Ok? ==> InRange(r.value)
      ensures r.Throws? ==> r.exception == IllegalArgument
    {
      if configCount <= 0 {
        return Throws(IllegalArgument);
      }
      assert InRange(0);
      var v: Int32 :| InRange(v);
      return Ok(v);
    }

    /** Repairing twice is repairing once. */
    lemma RepairIdempotent(index: Int32)
      ensures Repair(Repair(index)) == Repair(index)
    {
    }

    /**
     * Repair is the projection onto the domain: no configuration is closer to `index`
     * than the repaired value, and any other configuration is strictly farther.
     */
    lemma RepairIsNearest(index: Int32, v: int)
      requires NonEmpty() && InRange(v)
      ensures Dist(Repair(index), index) <= Dist(v, index)
      ensures v != Repair(index) ==> Dist(Repair(index), index) < Dist(v, index)
    {
    }

    /** A knob with a single configuration repairs every index to 0. */
    lemma SingletonRepair(index: Int32)
      requires configCount == 1
      ensures Repair(index) == 0
    {
    }
  }

  function Dist(a: int, b: int): (d: nat) { if a <= b then b - a else a - b }
}
