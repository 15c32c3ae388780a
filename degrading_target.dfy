/** Degrading target: a die is rolled again and again against a target that
    drops after every failed try, and the result is the number of the try
    that succeeded.  The standalone file counts the tries made before the
    current one (`prior_tries`, from 0); the notebook counts the current try
    (`tries`, from 1).  The engine's unbounded recursion over every outcome is
    modelled on one concrete sequence of rolls, one roll per try. */
module DegradingTarget {
  import opened Common

  /** The two adjustment rules callers can pick. */
  datatype Adjustment = ReduceOnce | ReduceTwice

  /** `reduce_once_per_try` / `reduce_twice_per_try` in the file's form: the
      target after `priorTries` failures. */
  function AdjustedTarget(adj: Adjustment, initialTarget: int, priorTries: nat): (t: int)
    ensures adj == ReduceOnce ==> t == initialTarget - priorTries
    ensures adj == ReduceTwice ==> t == initialTarget - 2 * priorTries
    ensures t <= initialTarget
  {
    match adj
    case ReduceOnce => initialTarget - priorTries
    case ReduceTwice => initialTarget - 2 * priorTries
  }

  /** The same rules in the notebook's form, where the first try is try 1. */
  function AdjustedTargetFromOne(adj: Adjustment, initialTarget: int, tries: int): (t: int)
    ensures adj == ReduceOnce ==> t == initialTarget - (tries - 1)
    ensures adj == ReduceTwice ==> t == initialTarget - 2 * (tries - 1)
  {
    var adjustment := match adj
      case ReduceOnce => tries - 1
      case ReduceTwice => 2 * (tries - 1);
    initialTarget - adjustment
  }

  /** The notebook's adjustment at try k + 1 is the file's after k failures,
      and the built-in notebook versions' `initial_target - tries + 1` is
      the reduce-once rule. */
  lemma AdjustmentFormsAgree(adj: Adjustment, initialTarget: int, k: nat)
    ensures AdjustedTargetFromOne(adj, initialTarget, k + 1) == AdjustedTarget(adj, initialTarget, k)
    ensures AdjustedTargetFromOne(ReduceOnce, initialTarget, k + 1) == initialTarget - (k + 1) + 1
  {
  }

  /** `degrading_target_nonperformant` (file form): a try succeeds when the
      outcome meets `initial_target - prior_tries`; the result is the number
      of that try, or None when the given rolls run out first. */
  function NonPerformant(rolls: seq<int>, initialTarget: int, priorTries: nat): (r: Option<nat>)
    ensures r.Some? ==> priorTries < r.value <= priorTries + |rolls|
    decreases |rolls|
  {
    if rolls == [] then None
    else if rolls[0] >= initialTarget - priorTries then Some(priorTries + 1)
    else NonPerformant(rolls[1..], initialTarget, priorTries + 1)
  }

  /** `die.ge(target)` on one outcome: 1 when it meets the target, else 0. */
  function GeIndicator(outcome: int, target: int): (b: int)
    ensures b == 1 <==> outcome >= target
    ensures b == 0 <==> outcome < target
  {
    if outcome >= target then 1 else 0
  }

  /** Try `i` (from 0) is the first of `rolls` to meet its adjusted target. */
  predicate FirstSuccessAt(rolls: seq<int>, initialTarget: int, adj: Adjustment, priorTries: nat, i: int)
  {
    && 0 <= i < |rolls|
    && rolls[i] >= AdjustedTarget(adj, initialTarget, priorTries + i)
    && forall j :: 0 <= j < i ==> rolls[j] < AdjustedTarget(adj, initialTarget, priorTries + j)
  }

  /** No roll meets its adjusted target. */
  predicate AllFail(rolls: seq<int>, initialTarget: int, adj: Adjustment, priorTries: nat)
  {
    forall j :: 0 <= j < |rolls| ==> rolls[j] < AdjustedTarget(adj, initialTarget, priorTries + j)
  }

  /** `degrading_target_customizable_adjustment` (file form): branch on the
      0/1 indicator of meeting the adjusted target. */
  function Customizable(rolls: seq<int>, initialTarget: int, adj: Adjustment, priorTries: nat): (r: Option<nat>)
    ensures r.Some? ==> priorTries < r.value <= priorTries + |rolls|
    ensures r.Some? ==> FirstSuccessAt(rolls, initialTarget, adj, priorTries, r.value - priorTries - 1)
    ensures r.None? ==> AllFail(rolls, initialTarget, adj, priorTries)
    decreases |rolls|
  {
    if rolls == [] then None
    else
      var ge := GeIndicator(rolls[0], AdjustedTarget(adj, initialTarget, priorTries));
      if ge == 1 then Some(priorTries + 1)
      else
        var rest := Customizable(rolls[1..], initialTarget, adj, priorTries + 1);
        FailedTryShifts(rolls, initialTarget, adj, priorTries, if rest.Some? then rest.value - priorTries - 2 else -1);
        rest
  }

  /** A failed first try shifts the tries of the rest by one. */
  lemma FailedTryShifts(rolls: seq<int>, initialTarget: int, adj: Adjustment, priorTries: nat, k: int)
    requires rolls != [] && rolls[0] < AdjustedTarget(adj, initialTarget, priorTries)
    ensures FirstSuccessAt(rolls[1..], initialTarget, adj, priorTries + 1, k) ==>
              FirstSuccessAt(rolls, initialTarget, adj, priorTries, k + 1)
    ensures AllFail(rolls[1..], initialTarget, adj, priorTries + 1) ==> AllFail(rolls, initialTarget, adj, priorTries)
  {
    if FirstSuccessAt(rolls[1..], initialTarget, adj, priorTries + 1, k) {
      assert rolls[k + 1] == rolls[1..][k];
      forall j | 0 <= j < k + 1 ensures rolls[j] < AdjustedTarget(adj, initialTarget, priorTries + j) {
        if j > 0 { assert rolls[j] == rolls[1..][j - 1]; }
      }
    }
    if AllFail(rolls[1..], initialTarget, adj, priorTries + 1) {
      forall j | 0 <= j < |rolls| ensures rolls[j] < AdjustedTarget(adj, initialTarget, priorTries + j) {
        if j > 0 { assert rolls[j] == rolls[1..][j - 1]; }
      }
    }
  }

  /** The notebook's customizable version: success returns the current try,
      failure moves on to the next. */
  function CustomizableFromOne(rolls: seq<int>, initialTarget: int, adj: Adjustment, tries: int): (r: Option<int>)
    ensures r.Some? ==> tries <= r.value < tries + |rolls|
    decreases |rolls|
  {
    if rolls == [] then None
    else if GeIndicator(rolls[0], AdjustedTargetFromOne(adj, initialTarget, tries)) == 1 then Some(tries)
    else CustomizableFromOne(rolls[1..], initialTarget, adj, tries + 1)
  }

  /** Branching on the indicator with reduce-once is branching on the outcome
      itself: the performant and non-performant versions agree roll by roll. */
  lemma {:induction false} PerformantAgrees(rolls: seq<int>, initialTarget: int, priorTries: nat)
    ensures Customizable(rolls, initialTarget, ReduceOnce, priorTries) == NonPerformant(rolls, initialTarget, priorTries)
    decreases |rolls|
  {
    if rolls != [] && rolls[0] < initialTarget - priorTries {
      PerformantAgrees(rolls[1..], initialTarget, priorTries + 1);
    }
  }

  /** Both counting conventions give the same try number when the notebook
      starts one above the file. */
  lemma {:induction false} CountingFormsAgree(rolls: seq<int>, initialTarget: int, adj: Adjustment, k: nat)
    ensures CustomizableFromOne(rolls, initialTarget, adj, k + 1) == Option.None <==>
            Customizable(rolls, initialTarget, adj, k) == Option.None
    ensures Customizable(rolls, initialTarget, adj, k).Some? ==>
            CustomizableFromOne(rolls, initialTarget, adj, k + 1) == Some(Customizable(rolls, initialTarget, adj, k).value as int)
    decreases |rolls|
  {
    AdjustmentFormsAgree(adj, initialTarget, k);
    if rolls != [] && rolls[0] < AdjustedTarget(adj, initialTarget, k) {
      CountingFormsAgree(rolls[1..], initialTarget, adj, k + 1);
    }
  }

  /** With reduce-once, once the target has dropped to the die's lowest face
      every roll succeeds: rolls that never fall below `lowest` succeed by
      try `initial_target - lowest + 1` at the latest. */
  lemma {:induction false} ReduceOnceIsBounded(rolls: seq<int>, initialTarget: int, lowest: int, priorTries: nat)
    requires forall i :: 0 <= i < |rolls| ==> rolls[i] >= lowest
    requires |rolls| > initialTarget - lowest - priorTries
    requires rolls != []
    ensures Customizable(rolls, initialTarget, ReduceOnce, priorTries).Some?
    ensures Customizable(rolls, initialTarget, ReduceOnce, priorTries).value <= Max(priorTries + 1, initialTarget - lowest + 1)
    decreases |rolls|
  {
    if rolls[0] < initialTarget - priorTries {
      assert forall i :: 0 <= i < |rolls[1..]| ==> rolls[1..][i] == rolls[i + 1];
      ReduceOnceIsBounded(rolls[1..], initialTarget, lowest, priorTries + 1);
    }
  }

  function Max(a: int, b: int): int { if a >= b then a else b }
}
