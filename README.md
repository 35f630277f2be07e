# AdapterIdea configuration domain, in Dafny

AdapterIdea lets a synchronous multi-objective optimizer be driven one evaluation at a time
from outside. Its sequential core is the configuration-domain adapter. A search space is a
fixed vector of *knobs*. Each knob is a discrete dimension with `configCount` configurations
`0 .. configCount - 1`. The adapter (`CompatNumberProblem`) turns that vector into what the
optimizer needs: per-slot bounds, a feasibility check, slot-wise repair and random candidates.
The demo objective `Main.eval` turns a candidate into `[sum, -max]`.

The model has four modules:

- `JavaLang` (`java_lang.dfy`): Java's 32-bit `int` as the subset type `Int32`, with
  two's-complement wrap-around (`Wrap32`). It also holds the exceptions that can escape the
  modelled code, as `Result`/`Outcome` values.
- `Knobs` (`knob.dfy`): `RawKnob` as a value with `Repair` (clamp) and `Randomize` (a
  nondeterministic choice in range, or `IllegalArgumentException` when the range is empty).
- `Problem` (`problem.dfy`): `CompatNumberProblem` as a class. Its constructor builds the
  bounds in a loop. `MakeFeasible` repairs an `array` of variables in place. `IsFeasible`
  scans the slots and stops at the first bad one. `GetRandomSolution` draws one value per
  knob. The class is specified by the functions `Feasible` and `RepairAll`, and the lemmas
  about them prove that repair yields feasibility, keeps feasible candidates and is idempotent.
- `Objective` (`objective.dfy`): `Main.eval` with `IntStream.sum` (wrapping at each step)
  and `IntStream.max`. It also proves that no wrap-around happens on the demo's space of four
  knobs with 100 configurations each.

Candidate variables are stored as `double`. The adapter's own code only ever stores `(double)`
of an `int` into them (`makeFeasible` and `getRandomSolution`), and `evaluate` reads them back
with `intValue()`. The optimizer itself may store other values, which `isFeasible` compares as
`double`. The model keeps variables as `Int32`; see the floating-point line under "## Left out".

## Model

| member | source | states |
|---|---|---|
| `Knobs.RawKnob.Repair` | src/main/java/org/example/Main.java:37-40 | For a non-empty domain the result lies in `[0, configCount)`. An index already in range is returned unchanged, a negative index gives 0, and an index at or above `configCount` gives `configCount - 1`. |
| `Knobs.RawKnob.RepairIdempotent` | src/main/java/org/example/Main.java:39 | Repairing a repaired index changes nothing. |
| `Knobs.RawKnob.RepairIsNearest` | src/main/java/org/example/Main.java:39 | Repair is the projection onto the domain. No configuration is closer to the index than the repaired value, and every other configuration is strictly farther. |
| `Knobs.RawKnob.SingletonRepair` | src/main/java/org/example/Main.java:39 | A knob with one configuration repairs every index to 0. |
| `Knobs.RawKnob.Randomize` | src/main/java/org/example/Main.java:42-45 | Succeeds exactly when `configCount >= 1`, and then returns a value in `[0, configCount)`. Otherwise it throws `IllegalArgumentException`. |
| `Problem.RepairAllFeasible` | src/main/java/org/example/Main.java:81-86 | When every knob's domain is non-empty and the solution covers every knob, slot-wise repair yields a feasible solution. |
| `Problem.RepairAllKeepsFeasible` | src/main/java/org/example/Main.java:81-86 | Slot-wise repair leaves a feasible solution unchanged. |
| `Problem.RepairAllIdempotent` | src/main/java/org/example/Main.java:81-86 | Applying slot-wise repair twice equals applying it once. |
| `Problem.CompatNumberProblem.constructor` | src/main/java/org/example/Main.java:64-74 | `lowerLimit` and `upperLimit` have one entry per knob, with `lowerLimit[i] == 0` and `upperLimit[i] == knobs[i].configCount`. |
| `Problem.CompatNumberProblem.FeasibleIffWithinLimits` | src/main/java/org/example/Main.java:88-97 | With the bounds the constructor builds, a solution is feasible exactly when every governed slot lies within `[lowerLimit[i], upperLimit[i])`. |
| `Problem.CompatNumberProblem.MakeFeasible` | src/main/java/org/example/Main.java:81-86 | Slot `i` becomes knob `i`'s repair of its old value, and every other slot and the length stay the same. A solution shorter than the knob vector ends with `IndexOutOfBoundsException` after its slots are repaired. |
| `Problem.CompatNumberProblem.IsFeasible` | src/main/java/org/example/Main.java:88-97 | Returns true exactly when the solution is feasible. Returns false exactly when some slot within both lengths is out of its knob's range. Throws `IndexOutOfBoundsException` exactly when a shorter solution has all its slots in range. |
| `Problem.CompatNumberProblem.GetRandomSolution` | src/main/java/org/example/Main.java:99-106 | Succeeds exactly when every knob's domain is non-empty. It then returns one value per knob, and the candidate is feasible. Otherwise it throws `IllegalArgumentException`. |
| `Objective.StreamMax` | src/main/java/org/example/Main.java:189 | The maximum of a non-empty candidate is one of its values and is at least every value. |
| `Objective.StreamSum` | src/main/java/org/example/Main.java:188 | `Arrays.stream(conf).sum()` as a left fold of `int` additions, each wrapping: the result equals the exact sum wrapped once into `int`. |
| `Objective.Eval` | src/main/java/org/example/Main.java:186-191 | Throws `NoSuchElementException` exactly for the empty candidate. Otherwise it returns two objectives. The first is the sum in `int` arithmetic. The second is the `int` negation of a value of the candidate that no other value exceeds. |
| `Objective.SumBounds` | src/main/java/org/example/Main.java:188 | A sum of values in `[0, bound)` lies in `[0, n * (bound - 1)]`. |
| `Objective.EvalExact` | src/main/java/org/example/Main.java:186-191 | When the values are non-negative and their largest possible sum fits in an `int`, the objectives are exactly `[sum, -max]`. |
| `Objective.DemoObjectives` | src/main/java/org/example/Main.java:195-200 | Every feasible candidate of the demo's four knobs of 100 configurations scores exactly `[sum, -max]`, with the sum in `[0, 396]` and the negated maximum in `[-99, 0]`. |

## Left out

- `Adapter` and its inner `Hook` (Main.java:109-160) are left out. They are a thread-to-thread rendezvous built from a spawned `Thread`, two blocking queues of capacity 1 and interrupts, which a sequential model cannot express. The `Completed` and `ForceStop` signals (Main.java:48-58) exist only for them.
- `Wrapper.get` (Main.java:162-182) is left out: it only sequences calls on `Adapter`.
- `Main.main` (Main.java:193-220) is left out. It wires the demo to the external `D_NSGAII` optimizer, `Task` and `StopCriterion`. Only its knob vector appears, in `Objective.DemoObjectives`.
- `CompatNumberProblem.evaluate` (Main.java:76-79) is left out. It only hands the solution's variables, truncated by `intValue()`, to the injected evaluator, and it stores the result through the optimizer library's `NumberSolution`. That library is not part of this model. The one evaluator in the source, `Main.eval`, is modelled on its own.
- The optimizer library's `NumberProblem` base class is not part of this model. That covers the name, variable count and constraint count passed to its constructor. It also covers `numberOfObjectives`, which is kept as a field but not used. `GetRandomSolution` returns the variables rather than a `NumberSolution`.
- Floating point is left out. Variables and limits are integers, so values the optimizer itself might store between integers or beyond the `int` range, and the truncation `intValue()` applies to them, are not modelled.
- `Knobs.RawKnob.Randomize` does not model the uniform distribution or `ThreadLocalRandom`. Any value in range may be chosen, so reproducibility under a fixed seed is not expressed.
- The `Knob` interface is modelled only through `RawKnob`, its one implementation in the source.
- The `knobs` array is held as an immutable sequence. A caller that mutates the array after construction (aliasing) is not modelled.
- Console output in `Main.eval` (Main.java:187) is I/O and is left out.
