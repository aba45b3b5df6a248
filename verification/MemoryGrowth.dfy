/** One-step growth of a memory limit, the clamp of the backend, and where repeated growth ends. */
module MemoryGrowth {
  import opened Wrappers

  const MAX_INT64: int := 0x7FFF_FFFF_FFFF_FFFF
  /** Up to here a float64 holds every integer, and so does its double. */
  const EXACT: int := 0x20_0000_0000_0000

  predicate IsInt64(x: int) { -MAX_INT64 - 1 <= x <= MAX_INT64 }

  /** Addition of int64 values. */
  function Wrap(x: int): (r: int)
    ensures IsInt64(r) && (IsInt64(x) ==> r == x)
  {
    (x + MAX_INT64 + 1) % (2 * (MAX_INT64 + 1)) - MAX_INT64 - 1
  }

  datatype Policy = Policy(minMB: int, maxMB: int, stepMB: int) {
    predicate Valid() { IsInt64(minMB) && IsInt64(maxMB) && IsInt64(stepMB) }
  }

  /** `twice` is the double taken in float64, exact for the limits of interest. */
  predicate Doubled(current: int, twice: int) {
    IsInt64(twice) && (0 < current <= EXACT ==> twice == 2 * current)
  }

  /** autoExpandTargetOneStep: none for a no-op. */
  function TargetOneStep(current: int, twice: int, policy: Policy): Option<int> {
    var grown := if twice > current then twice else if current <= MAX_INT64 - 256 then current + 256 else current;
    if grown <= current then None
    else
      var stepCap := Wrap(current + policy.stepMB);
      var capped := if policy.stepMB > 0 && grown > stepCap then stepCap else grown;
      var floored := if policy.minMB > 0 && capped < policy.minMB then policy.minMB else capped;
      var target := if policy.maxMB > 0 && floored > policy.maxMB then policy.maxMB else floored;
      if target <= current then None else Some(target)
  }

  function Max(a: int, b: int): int { if a < b then b else a }

  function Min(a: int, b: int): int { if a < b then a else b }

  /** A step never shrinks the limit, and stays within every bound that is set, whatever wraps around. */
  lemma StepStaysInBounds(current: int, twice: int, policy: Policy)
    requires IsInt64(current) && policy.Valid() && Doubled(current, twice)
    ensures var target := TargetOneStep(current, twice, policy);
            target.Some? ==>
              && current < target.value && IsInt64(target.value)
              && (policy.maxMB > 0 ==> target.value <= policy.maxMB)
              && (policy.stepMB > 0 ==> target.value <= Max(current + policy.stepMB, policy.minMB))
              && (0 < current <= EXACT ==> target.value <= Max(2 * current, policy.minMB))
  {
  }

  /** For a positive limit in the exact range, a step is a no-op just when the ceiling is reached, or the cap wraps below the limit. */
  lemma NoOpExactly(current: int, twice: int, policy: Policy)
    requires 0 < current <= EXACT && policy.Valid() && Doubled(current, twice)
    ensures TargetOneStep(current, twice, policy) == None
            <==> || 0 < policy.maxMB <= current
                 || (policy.stepMB > 0 && current + policy.stepMB > MAX_INT64 && policy.minMB <= current)
  {
  }

  /** Whatever the double and the bounds: the grown limit, cut to the step cap, raised to the floor, cut to the ceiling. */
  lemma StepIsClamp(current: int, twice: int, policy: Policy)
    ensures var grown := if twice > current then twice else current + 256;
            var capped := if policy.stepMB > 0 then Min(grown, Wrap(current + policy.stepMB)) else grown;
            var floored := if policy.minMB > 0 then Max(capped, policy.minMB) else capped;
            var target := if policy.maxMB > 0 then Min(floored, policy.maxMB) else floored;
            TargetOneStep(current, twice, policy)
            == if (twice > current || current + 256 <= MAX_INT64) && target > current then Some(target) else None
  {
  }

  // The container

  datatype Expansion = Expansion(triggered: bool, fromMB: int, toMB: int)

  datatype ExpandError = BadRequest | UpdateFails

  class Container {
    var limitMB: int
    const capMB: int

    constructor (limitMB: int, capMB: int)
      ensures this.limitMB == limitMB && this.capMB == capMB
    {
      this.limitMB, this.capMB := limitMB, capMB;
    }

    /** ExpandMemory of the backend; `updates` is the outcome of the update call. */
    method ExpandMemory(targetMB: int, updates: bool) returns (r: Result<Expansion, ExpandError>)
      modifies this
      ensures targetMB <= 0 ==> r == Err(BadRequest) && limitMB == old(limitMB)
      ensures targetMB > 0 ==>
                var target := if capMB > 0 then Min(targetMB, capMB) else targetMB;
                if target <= old(limitMB) then r == Ok(Expansion(false, old(limitMB), old(limitMB))) && limitMB == old(limitMB)
                else if updates then r == Ok(Expansion(true, old(limitMB), target)) && limitMB == target
                else r == Err(UpdateFails) && limitMB == old(limitMB)
    {
      if targetMB <= 0 {
        return Err(BadRequest);
      }
      var target := targetMB;
      if capMB > 0 && target > capMB {
        target := capMB;
      }
      if target <= limitMB {
        return Ok(Expansion(false, limitMB, limitMB));
      }
      if !updates {
        return Err(UpdateFails);
      }
      var from := limitMB;
      limitMB := target;
      return Ok(Expansion(true, from, target));
    }

    /** AutoExpandMemory, with no other change of the limit in between. */
    method AutoExpandMemory(policy: Policy, twice: int, updates: bool) returns (r: Result<Expansion, ExpandError>)
      requires IsInt64(limitMB) && policy.Valid() && Doubled(limitMB, twice)
      modifies this
      ensures limitMB == if updates then NextLimit(old(limitMB), twice, policy, capMB) else old(limitMB)
      ensures r.Err? <==> !updates && NextLimit(old(limitMB), twice, policy, capMB) != old(limitMB)
      ensures r.Ok? ==> r.value == Expansion(limitMB != old(limitMB), old(limitMB), limitMB)
      ensures old(limitMB) <= 0 ==> limitMB == old(limitMB) && r == Ok(Expansion(false, limitMB, limitMB))
    {
      if limitMB <= 0 {
        return Ok(Expansion(false, limitMB, limitMB));
      }
      var target := TargetOneStep(limitMB, twice, policy);
      if target.None? {
        return Ok(Expansion(false, limitMB, limitMB));
      }
      r := ExpandMemory(target.value, updates);
    }
  }

  /** The limit after one automatic expansion that meets no failure. */
  function NextLimit(current: int, twice: int, policy: Policy, capMB: int): int {
    if current <= 0 then current
    else
      match TargetOneStep(current, twice, policy)
      case None => current
      case Some(target) => Max(current, if capMB > 0 then Min(target, capMB) else target)
  }

  // Repeated growth

  /** The lower of the two ceilings that are set. */
  function Ceiling(policy: Policy, capMB: int): (r: int)
    requires policy.maxMB > 0 || capMB > 0
    ensures (policy.maxMB > 0 ==> r <= policy.maxMB) && (capMB > 0 ==> r <= capMB)
    ensures (policy.maxMB > 0 && r == policy.maxMB) || (capMB > 0 && r == capMB)
  {
    if policy.maxMB <= 0 then capMB else if capMB <= 0 then policy.maxMB else Min(policy.maxMB, capMB)
  }

  /** The limit after `n` expansions. */
  function After(n: nat, current: int, policy: Policy, capMB: int): int {
    if n == 0 then current
    else var c := After(n - 1, current, policy, capMB); NextLimit(c, 2 * c, policy, capMB)
  }

  function Pow2(k: nat): nat {
    if k == 0 then 1 else 2 * Pow2(k - 1)
  }

  function CeilDiv(a: nat, b: nat): nat
    requires b > 0
  {
    (a + b - 1) / b
  }

  /** A configuration in which growth can reach its ceiling: the step cap does not wrap around below it. */
  predicate CanReach(current: int, policy: Policy, capMB: int) {
    && (policy.maxMB > 0 || capMB > 0) && policy.Valid()
    && 0 < current <= Ceiling(policy, capMB) <= EXACT
    && (policy.stepMB > 0 ==> Ceiling(policy, capMB) + policy.stepMB <= MAX_INT64)
  }

  lemma OneExpansion(current: int, policy: Policy, capMB: int)
    requires CanReach(current, policy, capMB)
    ensures var m, next := Ceiling(policy, capMB), NextLimit(current, 2 * current, policy, capMB);
            && current <= next <= m && (next == current <==> current == m)
            && next >= Min(m, if policy.stepMB > 0 then Min(2 * current, current + policy.stepMB) else 2 * current)
  {
  }

  /** At first the limit at least doubles, until it has passed the step. */
  lemma {:induction false} Doubling(n: nat, current: int, policy: Policy, capMB: int)
    requires CanReach(current, policy, capMB)
    ensures var m, c := Ceiling(policy, capMB), After(n, current, policy, capMB);
            && CanReach(c, policy, capMB) && current <= c
            && c >= Min(m, if policy.stepMB > 0 then Min(Pow2(n), policy.stepMB) else Pow2(n))
  {
    if n > 0 {
      Doubling(n - 1, current, policy, capMB);
      OneExpansion(After(n - 1, current, policy, capMB), policy, capMB);
    }
  }

  lemma OneStepMore(c: int, reached: int, policy: Policy, capMB: int)
    requires CanReach(c, policy, capMB) && 0 < policy.stepMB <= reached && c >= Min(Ceiling(policy, capMB), reached)
    ensures CanReach(NextLimit(c, 2 * c, policy, capMB), policy, capMB)
    ensures NextLimit(c, 2 * c, policy, capMB) >= Min(Ceiling(policy, capMB), reached + policy.stepMB)
  {
  }

  /** `j` steps and one more. */
  function Steps(j: nat, step: int): int {
    if j == 0 then step else Steps(j - 1, step) + step
  }

  lemma {:induction false} StepsAreMultiples(j: nat, step: int)
    ensures Steps(j, step) == (j + 1) * step
  {
    if j > 0 {
      StepsAreMultiples(j - 1, step);
    }
  }

  lemma {:induction false} StepsCoverStep(j: nat, step: nat)
    ensures Steps(j, step) >= step
  {
    if j > 0 {
      StepsCoverStep(j - 1, step);
    }
  }

  /** From the step on it grows by a whole step each time. */
  lemma {:induction false} Stepping(k: nat, j: nat, current: int, policy: Policy, capMB: int)
    requires CanReach(current, policy, capMB) && policy.stepMB > 0 && Pow2(k) >= policy.stepMB
    ensures var c := After(k + j, current, policy, capMB);
            && CanReach(c, policy, capMB) && Ceiling(policy, capMB) >= c >= Min(Ceiling(policy, capMB), Steps(j, policy.stepMB))
  {
    if j == 0 {
      Doubling(k, current, policy, capMB);
    } else {
      Stepping(k, j - 1, current, policy, capMB);
      StepsCoverStep(j - 1, policy.stepMB);
      var c := After(k + (j - 1), current, policy, capMB);
      OneStepMore(c, Steps(j - 1, policy.stepMB), policy, capMB);
      AfterOneMore(k + (j - 1), current, policy, capMB);
    }
  }

  lemma AfterOneMore(n: nat, current: int, policy: Policy, capMB: int)
    ensures var c := After(n, current, policy, capMB); After(n + 1, current, policy, capMB) == NextLimit(c, 2 * c, policy, capMB)
  {
  }

  /** Growth lands exactly on the ceiling within log2(step) + ceiling / step expansions, rounded up, and stays there. */
  lemma CeilingIsReached(k: nat, n: nat, current: int, policy: Policy, capMB: int)
    requires CanReach(current, policy, capMB)
    requires policy.stepMB > 0 ==> Pow2(k) >= policy.stepMB && n >= k + CeilDiv(Ceiling(policy, capMB), policy.stepMB)
    requires policy.stepMB <= 0 ==> Pow2(k) >= Ceiling(policy, capMB) && n >= k
    ensures After(n, current, policy, capMB) == Ceiling(policy, capMB)
  {
    var m := Ceiling(policy, capMB);
    if policy.stepMB > 0 {
      var j := n - k;
      Stepping(k, j, current, policy, capMB);
      StepsAreMultiples(j, policy.stepMB);
      CeilDivCovers(m, policy.stepMB, j);
    } else {
      PowGrows(k, n);
      Doubling(n, current, policy, capMB);
    }
  }

  lemma CeilDivCovers(m: nat, step: nat, j: nat)
    requires step > 0 && j >= CeilDiv(m, step)
    ensures (j + 1) * step >= m
  {
  }

  lemma {:induction false} PowGrows(k: nat, n: nat)
    requires k <= n
    ensures Pow2(k) <= Pow2(n)
    decreases n
  {
    if k < n {
      PowGrows(k, n - 1);
    }
  }

  /** Where the step cap does wrap around, a limit above the floor is stuck below its ceiling. */
  lemma {:induction false} WrappedStepIsStuck(n: nat, current: int, policy: Policy, capMB: int)
    requires 0 < current <= EXACT && policy.Valid()
    requires current + policy.stepMB > MAX_INT64 && policy.minMB <= current
    ensures After(n, current, policy, capMB) == current
  {
    if n > 0 {
      WrappedStepIsStuck(n - 1, current, policy, capMB);
      NoOpExactly(current, 2 * current, policy);
    }
  }

  // Exactly when the ceiling is reached

  /** The highest limit from which the step cap does not wrap around. */
  function LastSafe(policy: Policy): int { MAX_INT64 - policy.stepMB }

  /** Where growth that is not held back by a ceiling or a step cap goes from here. */
  function Launch(current: int, policy: Policy): int {
    Max(if current <= LastSafe(policy) then 2 * current else current, policy.minMB)
  }

  /** Doubled `k` times. */
  function Double(k: nat, x: int): int {
    if k == 0 then x else 2 * Double(k - 1, x)
  }

  ghost predicate Reaches(current: int, policy: Policy, capMB: int)
    requires policy.maxMB > 0 || capMB > 0
  {
    exists n: nat :: After(n, current, policy, capMB) == Ceiling(policy, capMB)
  }

  /** No double of the launch falls between the last safe limit and the ceiling, where growth would get stuck. */
  ghost predicate ClearsGap(current: int, policy: Policy, capMB: int)
    requires policy.maxMB > 0 || capMB > 0
  {
    forall k: nat :: !(LastSafe(policy) < Double(k, Launch(current, policy)) < Ceiling(policy, capMB))
  }

  predicate InRange(current: int, policy: Policy, capMB: int) {
    && (policy.maxMB > 0 || capMB > 0) && policy.Valid()
    && 0 < current <= Ceiling(policy, capMB) <= EXACT
  }

  lemma {:induction false} DoubleShift(k: nat, x: int)
    ensures Double(k, 2 * x) == Double(k + 1, x)
  {
    if k > 0 {
      DoubleShift(k - 1, x);
    }
  }

  lemma {:induction false} DoubleGrows(k: nat, x: int)
    requires x > 0
    ensures Double(k, x) >= x
  {
    if k > 0 {
      DoubleGrows(k - 1, x);
    }
  }

  lemma {:induction false} AfterShift(n: nat, current: int, policy: Policy, capMB: int)
    ensures After(n + 1, current, policy, capMB) == After(n, NextLimit(current, 2 * current, policy, capMB), policy, capMB)
  {
    if n > 0 {
      AfterShift(n - 1, current, policy, capMB);
    }
  }

  /** With a ceiling beyond the last safe limit the step is so large that it never holds growth back before that. */
  lemma GapStep(c: int, policy: Policy, capMB: int)
    requires InRange(c, policy, capMB) && c < Ceiling(policy, capMB) && policy.stepMB > 0
    requires LastSafe(policy) < Ceiling(policy, capMB)
    ensures NextLimit(c, 2 * c, policy, capMB)
            == if c > LastSafe(policy) && policy.minMB <= c then c else Min(Ceiling(policy, capMB), Launch(c, policy))
  {
    var stepCap := Wrap(c + policy.stepMB);
    if c > LastSafe(policy) {
      WrapsBelow(c + policy.stepMB);
      assert stepCap <= 0;
    } else {
      assert stepCap == c + policy.stepMB >= 2 * c;
    }
  }

  lemma WrapsBelow(x: int)
    requires MAX_INT64 < x <= 2 * MAX_INT64 + 1
    ensures Wrap(x) == x - 2 * (MAX_INT64 + 1)
  {
  }

  lemma ReachShift(c: int, policy: Policy, capMB: int)
    requires policy.maxMB > 0 || capMB > 0
    requires c != Ceiling(policy, capMB)
    ensures Reaches(c, policy, capMB) <==> Reaches(NextLimit(c, 2 * c, policy, capMB), policy, capMB)
  {
    var next, m := NextLimit(c, 2 * c, policy, capMB), Ceiling(policy, capMB);
    if n: nat :| After(n, c, policy, capMB) == m {
      assert n > 0;
      AfterShift(n - 1, c, policy, capMB);
      assert After(n - 1, next, policy, capMB) == m;
    }
    if n: nat :| After(n, next, policy, capMB) == m {
      AfterShift(n, c, policy, capMB);
      assert After(n + 1, c, policy, capMB) == m;
    }
  }

  lemma GapShift(c: int, policy: Policy, capMB: int)
    requires InRange(c, policy, capMB) && policy.stepMB > 0
    requires c < Launch(c, policy) < Ceiling(policy, capMB)
    ensures ClearsGap(c, policy, capMB) <==> ClearsGap(Launch(c, policy), policy, capMB)
  {
    var b, m := Launch(c, policy), Ceiling(policy, capMB);
    if b <= LastSafe(policy) {
      assert Launch(b, policy) == 2 * b;
      forall k: nat ensures Double(k, 2 * b) == Double(k + 1, b) {
        DoubleShift(k, b);
      }
      if !ClearsGap(c, policy, capMB) {
        var k: nat :| LastSafe(policy) < Double(k, b) < m;
        assert k > 0 && Double(k - 1, Launch(b, policy)) == Double(k, b);
      }
      if !ClearsGap(b, policy, capMB) {
        var k: nat :| LastSafe(policy) < Double(k, Launch(b, policy)) < m;
        assert LastSafe(policy) < Double(k + 1, b) < m;
      }
    } else {
      assert Launch(b, policy) == b;
    }
  }

  lemma {:induction false} GapDecides(c: int, policy: Policy, capMB: int)
    requires InRange(c, policy, capMB) && policy.stepMB > 0 && LastSafe(policy) < Ceiling(policy, capMB)
    ensures Reaches(c, policy, capMB) <==> c == Ceiling(policy, capMB) || ClearsGap(c, policy, capMB)
    decreases Ceiling(policy, capMB) - c
  {
    var m, b := Ceiling(policy, capMB), Launch(c, policy);
    if c == m {
      assert After(0, c, policy, capMB) == m;
    } else if c > LastSafe(policy) && policy.minMB <= c {
      forall n: nat ensures After(n, c, policy, capMB) != m {
        WrappedStepIsStuck(n, c, policy, capMB);
      }
      assert LastSafe(policy) < Double(0, b) < m;
    } else {
      GapStep(c, policy, capMB);
      ReachShift(c, policy, capMB);
      if b < m {
        GapShift(c, policy, capMB);
        GapDecides(b, policy, capMB);
      } else {
        assert After(0, m, policy, capMB) == m;
        forall k: nat ensures Double(k, b) >= m {
          DoubleGrows(k, b);
        }
      }
    }
  }

  lemma {:induction false} PowCovers(x: nat) returns (k: nat)
    ensures Pow2(k) >= x
  {
    if x <= 1 {
      k := 0;
    } else {
      k := PowCovers(x - 1);
      k := k + 1;
    }
  }

  /**
  Repeated growth reaches its ceiling if and only if it is there, or there is no step cap, or no double of the
  launch falls strictly between the last limit from which the cap does not wrap around and the ceiling.
  */
  lemma ReachesExactly(current: int, policy: Policy, capMB: int)
    requires InRange(current, policy, capMB)
    ensures Reaches(current, policy, capMB)
            <==> current == Ceiling(policy, capMB) || policy.stepMB <= 0 || ClearsGap(current, policy, capMB)
  {
    var m := Ceiling(policy, capMB);
    if policy.stepMB > 0 && LastSafe(policy) < m {
      GapDecides(current, policy, capMB);
    } else {
      var k := PowCovers(Max(m, policy.stepMB));
      var n := k + if policy.stepMB > 0 then CeilDiv(m, policy.stepMB) else 0;
      CeilingIsReached(k, n, current, policy, capMB);
      assert After(n, current, policy, capMB) == m;
    }
  }
}
