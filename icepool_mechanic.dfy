/** The bumpity-pool rule as an incremental evaluator (`IcepoolMechanic` in
    icepool_impl.py): the engine hands the evaluator every outcome of the die
    in the order the evaluator asks for, with how many standard and bump dice
    show it; `next_state` adds those dice to a tuple of tagged entries, and
    `final_outcome` slices the finished tuple and applies the same set-die rule
    as the sorting form.  The evaluator's fields are set once, at
    construction. */
module Icepool {
  import opened Common
  import opened Params
  import opened Ranked
  import opened DyceMechanic

  /** The order in which the engine presents the outcomes. */
  datatype Order = Ascending | Descending

  /** The slices `state[:n]`, `state[-n:]` and `state[:]`. */
  datatype Window = Lowest(n: nat) | Highest(n: nat) | Whole

  /** Python slicing with its clamping: `s[:n]` keeps at most the first n
      entries, `s[-n:]` at most the last n (and `s[-0:]` is all of `s`). */
  function ApplyWindow<T>(s: seq<T>, w: Window): (r: seq<T>)
    ensures w.Lowest? && w.n <= |s| ==> r == s[..w.n]
    ensures w.Highest? && 1 <= w.n <= |s| ==> r == s[|s| - w.n..]
    ensures w.Whole? ==> r == s
    ensures |r| <= |s|
  {
    match w
    case Lowest(n) => s[..Min(n, |s|)]
    case Highest(n) => if n == 0 then s else s[Max(|s| - n, 0)..]
    case Whole => s
  }

  /** `((outcome, pool),) * count`. */
  function Repeat(e: Entry, n: nat): (r: seq<Entry>)
    ensures |r| == n
    ensures forall i :: 0 <= i < n ==> r[i] == e
  {
    seq(n, _ => e)
  }

  /** The state `next_state` receives: `None` before the first outcome. */
  function Prior(state: Option<seq<Entry>>): seq<Entry>
  {
    if state.Some? then state.value else []
  }

  class IcepoolMechanic {
    const params: Params
    const die: Die
    const explodeLimit: real
    /** The explosion histogram the engine computes for each face. */
    const explosion: int -> Die
    const poolSize: int
    const extraStd: int
    const extraBmp: int
    const order: Order
    const rollSlice: Window
    const extraBonus: int

    /** The relation `__init__` establishes between the fields. */
    ghost predicate Configured()
    {
      && Valid(params)
      && poolSize == params.PoolSize()
      && extraStd == Min(params.extraStd, poolSize)
      && extraBmp == Min(params.extraBmp, poolSize)
      && (params.extraStd != 0 ==>
            order == Ascending && rollSlice == Lowest(poolSize)
            && extraBonus == -2 * Max(params.extraStd - poolSize, 0))
      && (params.extraStd == 0 && params.extraBmp != 0 ==>
            order == Descending && rollSlice == Highest(poolSize)
            && extraBonus == 2 * Max(params.extraBmp - poolSize, 0))
      && (params.extraStd == 0 && params.extraBmp == 0 ==>
            order == Descending && rollSlice == Whole && extraBonus == 0)
    }

    /** `__init__`: the extras are clamped as in the sorting form and the
        extra bonus is the same; extra standard dice ask for ascending order
        and keep the lowest pool-size entries, otherwise the order is
        descending and extra bump dice keep the highest. */
    constructor(params: Params, die: Die, explodeLimit: real, explosion: int -> Die)
      requires Valid(params)
      ensures Configured()
      ensures this.params == params && this.die == die
      ensures this.explodeLimit == explodeLimit && this.explosion == explosion
      ensures extraStd == MakeSetup(params).extraStd && extraBmp == MakeSetup(params).extraBmp
      ensures extraBonus == MakeSetup(params).extraBonus
    {
      this.params := params;
      this.die := die;
      this.explodeLimit := explodeLimit;
      this.explosion := explosion;
      var poolSize := params.numStd + params.numBmp;
      this.poolSize := poolSize;
      this.extraStd := Min(params.extraStd, poolSize);
      this.extraBmp := Min(params.extraBmp, poolSize);
      if params.extraStd != 0 {
        this.order := Ascending;
        this.rollSlice := Lowest(poolSize);
        this.extraBonus := -2 * Max(params.extraStd - poolSize, 0);
      } else if params.extraBmp != 0 {
        this.order := Descending;
        this.rollSlice := Highest(poolSize);
        this.extraBonus := 2 * Max(params.extraBmp - poolSize, 0);
      } else {
        this.order := Descending;
        this.rollSlice := Whole;
        this.extraBonus := 0;
      }
    }

    /** `order`: ascending exactly when extra standard dice were asked for. */
    function EvaluationOrder(): (o: Order)
      requires Configured()
      ensures o == Ascending <==> params.extraStd != 0
    {
      order
    }

    /** `next_state`: the dice showing `outcome`, standard before bump,
        appended to the state in ascending order and prepended in
        descending order. */
    function NextState(state: Option<seq<Entry>>, outcome: int, stdCount: nat, bmpCount: nat): (r: seq<Entry>)
      ensures |r| == |Prior(state)| + stdCount + bmpCount
      ensures order == Ascending ==>
        r == Prior(state) + Repeat(Entry(outcome, Standard), stdCount) + Repeat(Entry(outcome, Bump), bmpCount)
      ensures order == Descending ==>
        r == Repeat(Entry(outcome, Standard), stdCount) + Repeat(Entry(outcome, Bump), bmpCount) + Prior(state)
    {
      var newStd := Repeat(Entry(outcome, Standard), stdCount);
      var newBmp := Repeat(Entry(outcome, Bump), bmpCount);
      match order
      case Ascending => Prior(state) + newStd + newBmp
      case Descending => newStd + newBmp + Prior(state)
    }

    /** `final_outcome`: the sliced state has pool-size entries, and the total
        is the set-die rule of the sorting form on it plus the extra bonus;
        the explosion term is the one for the check outcome. */
    method FinalOutcome(finalState: seq<Entry>) returns (total: int, delta: Die)
      requires Configured()
      requires |finalState| == params.numStd + extraStd + params.numBmp + extraBmp
      ensures |ApplyWindow(finalState, rollSlice)| == params.PoolSize()
      ensures total == RankedTotal(params, ApplyWindow(finalState, rollSlice)) + extraBonus
      ensures delta == ExplodedDelta(die, explodeLimit, explosion,
                                     CheckOutcome(params, ApplyWindow(finalState, rollSlice)))
    {
      var roll := ApplyWindow(finalState, rollSlice);
      assert |roll| == poolSize;
      var checkDie := params.setDie;
      if roll[checkDie].pool == Bump {
        checkDie := (checkDie + 1) % |roll|;
      }
      var checkOutcome := roll[checkDie].outcome;
      total := checkOutcome;
      if checkDie < params.setDie {
        total := total + roll[params.setDie].outcome;
      }
      assert checkDie == CheckIndex(roll, params.setDie);
      var bonus := 0;
      var i := 0;
      while i < |params.bonusDice|
        invariant 0 <= i <= |params.bonusDice|
        invariant bonus == BonusSum(Outcomes(roll), params.bonusDice[..i])
      {
        assert params.bonusDice[..i + 1][..i] == params.bonusDice[..i];
        bonus := bonus + roll[params.bonusDice[i]].outcome;
        i := i + 1;
      }
      assert params.bonusDice[..i] == params.bonusDice;
      total := total + bonus + extraBonus;
      delta := ExplodedDelta(die, explodeLimit, explosion, checkOutcome);
    }

    lemma NextStateIsBlock(state: Option<seq<Entry>>, o: int, std: seq<int>, bmp: seq<int>)
      ensures order == Ascending ==> NextState(state, o, Count(std, o), Count(bmp, o)) == Prior(state) + Block(o, std, bmp)
      ensures order == Descending ==> NextState(state, o, Count(std, o), Count(bmp, o)) == Block(o, std, bmp) + Prior(state)
    {
    }

    /** The state after the engine has called `next_state` once per outcome,
        in the evaluator's order, with the number of standard and bump dice
        showing it: whichever the order, it is the sorted combined roll that
        the sorting form builds. */
    method Accumulate(outcomes: seq<int>, std: seq<int>, bmp: seq<int>) returns (finalState: seq<Entry>)
      requires order == Ascending ==> forall i, j :: 0 <= i < j < |outcomes| ==> outcomes[i] < outcomes[j]
      requires order == Descending ==> forall i, j :: 0 <= i < j < |outcomes| ==> outcomes[i] > outcomes[j]
      requires forall x :: x in std || x in bmp ==> x in outcomes
      ensures finalState == Sort(Combined(std, bmp))
    {
      var state: Option<seq<Entry>> := None;
      var k := 0;
      while k < |outcomes|
        invariant 0 <= k <= |outcomes|
        invariant Accumulated(Prior(state), outcomes[..k], std, bmp)
      {
        var o := outcomes[k];
        var next := NextState(state, o, Count(std, o), Count(bmp, o));
        NextStateIsBlock(state, o, std, bmp);
        if order == Ascending {
          EarlierBelow(outcomes, k);
          AppendBlock(Prior(state), outcomes[..k], std, bmp, o);
        } else {
          EarlierAbove(outcomes, k);
          PrependBlock(Prior(state), outcomes[..k], std, bmp, o);
        }
        PrefixSnoc(outcomes, k);
        state := Some(next);
        k := k + 1;
      }
      assert outcomes[..k] == outcomes;
      AccumulatedIsSorted(Prior(state), outcomes, std, bmp);
      finalState := Prior(state);
    }

    /** One evaluation as the engine drives it: the outcomes fed through
        `next_state`, then `final_outcome`.  The total is the one the sorting
        form computes for the same roll, and with a non-positive explosion
        limit the explosion term is 0, so the fudged results of the two forms
        agree. */
    method Evaluate(outcomes: seq<int>, std: seq<int>, bmp: seq<int>) returns (total: int, delta: Die)
      requires Configured() && RollSizes(params, std, bmp)
      requires order == Ascending ==> forall i, j :: 0 <= i < j < |outcomes| ==> outcomes[i] < outcomes[j]
      requires order == Descending ==> forall i, j :: 0 <= i < j < |outcomes| ==> outcomes[i] > outcomes[j]
      requires forall x :: x in std || x in bmp ==> x in outcomes
      ensures total == DyceTotal(params, std, bmp)
      ensures delta == ExplodedDelta(die, explodeLimit, explosion, CheckOutcome(params, RankedRoll(params, std, bmp)))
      ensures explodeLimit <= 0.0 ==> delta == [0]
    {
      var finalState := Accumulate(outcomes, std, bmp);
      WindowIsTrim(params, std, bmp, rollSlice);
      total, delta := FinalOutcome(finalState);
      if explodeLimit <= 0.0 {
        NoExplosionsWithoutLimit(die, explodeLimit, explosion, CheckOutcome(params, RankedRoll(params, std, bmp)));
      }
    }
  }

  // ---------------------------------------------------------------------------
  // The accumulated state is the sorted roll

  lemma EarlierBelow(outcomes: seq<int>, k: int)
    requires 0 <= k < |outcomes|
    requires forall i, j :: 0 <= i < j < |outcomes| ==> outcomes[i] < outcomes[j]
    ensures forall x :: x in outcomes[..k] ==> x < outcomes[k]
  {
    forall x | x in outcomes[..k] ensures x < outcomes[k] {
      var i :| 0 <= i < k && outcomes[i] == x;
    }
  }

  lemma EarlierAbove(outcomes: seq<int>, k: int)
    requires 0 <= k < |outcomes|
    requires forall i, j :: 0 <= i < j < |outcomes| ==> outcomes[i] > outcomes[j]
    ensures forall x :: x in outcomes[..k] ==> x > outcomes[k]
  {
    forall x | x in outcomes[..k] ensures x > outcomes[k] {
      var i :| 0 <= i < k && outcomes[i] == x;
    }
  }

  lemma PrefixSnoc(s: seq<int>, k: int)
    requires 0 <= k < |s|
    ensures s[..k + 1] == s[..k] + [s[k]]
  {
  }

  /** The dice of one outcome, standard before bump, as the engine counts
      them in the two rolls. */
  function Block(o: int, std: seq<int>, bmp: seq<int>): seq<Entry>
  {
    Repeat(Entry(o, Standard), Count(std, o)) + Repeat(Entry(o, Bump), Count(bmp, o))
  }

  /** After the outcomes `seen`, the state is ascending, holds only those
      outcomes, and holds each of their tagged dice as often as the roll
      does. */
  ghost predicate Accumulated(state: seq<Entry>, seen: seq<int>, std: seq<int>, bmp: seq<int>)
  {
    && Sorted(state)
    && (forall i :: 0 <= i < |state| ==> state[i].outcome in seen)
    && (forall e: Entry :: multiset(state)[e] ==
          (if e.outcome in seen then multiset(Combined(std, bmp))[e] else 0))
  }

  lemma {:induction false} RepeatCount(x: Entry, n: nat, e: Entry)
    ensures multiset(Repeat(x, n))[e] == (if e == x then n else 0)
  {
    if n > 0 {
      assert Repeat(x, n) == Repeat(x, n - 1) + [x];
      RepeatCount(x, n - 1, e);
    }
  }

  /** A block holds exactly the roll's dice of its outcome. */
  lemma BlockCount(o: int, std: seq<int>, bmp: seq<int>, e: Entry)
    ensures multiset(Block(o, std, bmp))[e] ==
      (if e.outcome == o then multiset(Combined(std, bmp))[e] else 0)
  {
    RepeatCount(Entry(o, Standard), Count(std, o), e);
    RepeatCount(Entry(o, Bump), Count(bmp, o), e);
    CombinedCount(std, bmp, e);
  }

  lemma BlockSorted(o: int, std: seq<int>, bmp: seq<int>)
    ensures Sorted(Block(o, std, bmp))
    ensures forall i :: 0 <= i < |Block(o, std, bmp)| ==> Block(o, std, bmp)[i].outcome == o
  {
  }

  /** Ascending order: the block of an outcome above every seen outcome goes
      after the state. */
  lemma AppendBlock(state: seq<Entry>, seen: seq<int>, std: seq<int>, bmp: seq<int>, o: int)
    requires Accumulated(state, seen, std, bmp)
    requires forall x :: x in seen ==> x < o
    ensures Accumulated(state + Block(o, std, bmp), seen + [o], std, bmp)
  {
    var block := Block(o, std, bmp);
    var r := state + block;
    BlockSorted(o, std, bmp);
    assert Sorted(r) by {
      forall i, j | 0 <= i < j < |r| ensures Le(r[i], r[j]) {
        if j < |state| {
          assert Le(state[i], state[j]);
        } else if i >= |state| {
          assert Le(block[i - |state|], block[j - |state|]);
        } else {
          assert state[i].outcome in seen;
        }
      }
    }
    forall e: Entry ensures multiset(r)[e] ==
      (if e.outcome in seen + [o] then multiset(Combined(std, bmp))[e] else 0)
    {
      BlockCount(o, std, bmp, e);
    }
  }

  /** Descending order: the block of an outcome below every seen outcome goes
      before the state. */
  lemma PrependBlock(state: seq<Entry>, seen: seq<int>, std: seq<int>, bmp: seq<int>, o: int)
    requires Accumulated(state, seen, std, bmp)
    requires forall x :: x in seen ==> x > o
    ensures Accumulated(Block(o, std, bmp) + state, seen + [o], std, bmp)
  {
    var block := Block(o, std, bmp);
    var r := block + state;
    BlockSorted(o, std, bmp);
    assert Sorted(r) by {
      forall i, j | 0 <= i < j < |r| ensures Le(r[i], r[j]) {
        if j < |block| {
          assert Le(block[i], block[j]);
        } else if i >= |block| {
          assert Le(state[i - |block|], state[j - |block|]);
        } else {
          assert state[j - |block|].outcome in seen;
        }
      }
    }
    forall e: Entry ensures multiset(r)[e] ==
      (if e.outcome in seen + [o] then multiset(Combined(std, bmp))[e] else 0)
    {
      BlockCount(o, std, bmp, e);
    }
  }

  /** Once every rolled value has been seen, the state is the sorted
      combined roll: the very sequence the sorting form builds. */
  lemma AccumulatedIsSorted(state: seq<Entry>, seen: seq<int>, std: seq<int>, bmp: seq<int>)
    requires Accumulated(state, seen, std, bmp)
    requires forall x :: x in std || x in bmp ==> x in seen
    ensures state == Sort(Combined(std, bmp))
  {
    forall e: Entry ensures multiset(state)[e] == multiset(Combined(std, bmp))[e] {
      CombinedCount(std, bmp, e);
      if e.outcome !in seen {
        assert e.outcome !in std && e.outcome !in bmp;
      }
    }
    assert multiset(state) == multiset(Combined(std, bmp));
    SortCharacterised(Combined(std, bmp), state);
  }

  /** The evaluator's slice of the sorted roll is the sorting form's trim:
      `[:pool_size]` is `[:-extra_std]` and `[-pool_size:]` is
      `[extra_bmp:]` on a roll of pool size plus the extras. */
  lemma WindowIsTrim(p: Params, std: seq<int>, bmp: seq<int>, slice: Window)
    requires Valid(p) && RollSizes(p, std, bmp)
    requires p.extraStd != 0 ==> slice == Lowest(p.PoolSize())
    requires p.extraStd == 0 && p.extraBmp != 0 ==> slice == Highest(p.PoolSize())
    requires p.extraStd == 0 && p.extraBmp == 0 ==> slice == Whole
    ensures ApplyWindow(Sort(Combined(std, bmp)), slice) == RankedRoll(p, std, bmp)
  {
    TrimKeepsOneEnd(p, std, bmp);
  }
}
