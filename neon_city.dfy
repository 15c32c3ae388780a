/** Neon City Overdrive: action dice against danger dice (d6s).  A danger die
    cancels an action die; the best surviving action is the result, and
    surviving 6s beyond the first are boons (7 is one boon, 8 two, ...).
    Three forms: a recursion over the faces 6, 5, ..., 1 on the counts at each
    face (`nco_karonen`), a scan over the same faces (`nco_carcer`), and a
    greedy walk down two sorted rolls that also charges unspent danger 6s
    (`nco_so_dangerous`).  A pool of no dice is rolled as a single die that
    always shows 0. */
module NeonCity {
  import opened Common
  import opened Ranked

  /** The roll a callback receives for a pool: a non-positive pool size is
      replaced by one die that always shows 0. */
  function PoolRoll(size: int, roll: seq<int>): (r: seq<int>)
    ensures size <= 0 ==> r == [0]
    ensures size > 0 ==> r == roll
  {
    if size <= 0 then [0] else roll
  }

  /** A roll of the pool dice: every face between 0 (the placeholder die) and
      6. */
  predicate FacesInRange(roll: seq<int>, n: int)
  {
    forall i :: 0 <= i < |roll| ==> 0 <= roll[i] <= n
  }

  // ---------------------------------------------------------------------------
  // Recursion on the faces (nco_karonen)

  /** What the dependent term of `nco_karonen` returns: a final value, or a
      new evaluation on smaller pools at the next lower face. */
  datatype Step = Done(value: int) | Recurse(aPoolSize: int, dPoolSize: int, n: int)

  /** The dependent term at face `n`, given how many action and danger dice
      show `n`. */
  function KaronenStep(aPoolSize: int, dPoolSize: int, n: int, actionsAtN: int, dangersAtN: int): (r: Step)
    ensures r.Recurse? <==> actionsAtN <= dangersAtN && n > 1
    ensures r.Recurse? ==> r == Recurse(aPoolSize - actionsAtN, dPoolSize - dangersAtN, n - 1)
    ensures actionsAtN > dangersAtN ==> r == Done(if n == 6 then 6 + (actionsAtN - dangersAtN) - 1 else n)
    ensures actionsAtN <= dangersAtN && n <= 1 ==> r == Done(0)
  {
    var remaining := actionsAtN - dangersAtN;
    if remaining > 0 then
      if n == 6 then Done(n + remaining - 1) else Done(n)
    else if n > 1 then
      Recurse(aPoolSize - actionsAtN, dPoolSize - dangersAtN, n - 1)
    else
      Done(0)
  }

  /** The dice of a roll that show less than `n`: the dice left once those
      showing `n` (the highest face left) are pulled out. */
  function Below(roll: seq<int>, n: int): (r: seq<int>)
    ensures FacesInRange(roll, n) ==> |r| == |roll| - Count(roll, n)
    ensures forall i :: 0 <= i < |r| ==> r[i] < n && r[i] in roll
  {
    if roll == [] then []
    else
      assert roll == [roll[0]] + roll[1..];
      var rest := Below(roll[1..], n);
      if roll[0] < n then [roll[0]] + rest else rest
  }

  lemma {:induction false} CountBelow(roll: seq<int>, n: int, m: int)
    requires m < n
    ensures Count(Below(roll, n), m) == Count(roll, m)
  {
    if roll != [] {
      assert roll == [roll[0]] + roll[1..];
      CountBelow(roll[1..], n, m);
      if roll[0] < n {
        CountAppend([roll[0]], Below(roll[1..], n), m);
      }
      CountAppend([roll[0]], roll[1..], m);
    }
  }

  /** `nco_karonen` for one concrete roll of both pools whose dice all show
      at most `n`: the dependent term at `n`, and on `Recurse` the same rule
      on the dice below `n`. */
  function Karonen(a: seq<int>, d: seq<int>, n: int): (r: int)
    requires n >= 1
    ensures r >= 0
    ensures r > n ==> n >= 6
    decreases n
  {
    match KaronenStep(|a|, |d|, n, Count(a, n), Count(d, n))
    case Done(v) => v
    case Recurse(_, _, m) => Karonen(Below(a, n), Below(d, n), m)
  }

  /** The result is the highest face at which the actions outnumber the
      dangers: at every face above it (up to `n`) they do not, and on the
      faces of a d6 they do at the result itself. */
  lemma {:induction false} KaronenHighestExcess(a: seq<int>, d: seq<int>, n: int)
    requires n >= 1
    ensures forall m :: Karonen(a, d, n) < m <= n ==> Count(a, m) <= Count(d, m)
    ensures n <= 6 && 1 <= Karonen(a, d, n) <= n ==> Count(a, Karonen(a, d, n)) > Count(d, Karonen(a, d, n))
    decreases n
  {
    var an, dn := Count(a, n), Count(d, n);
    var step := KaronenStep(|a|, |d|, n, an, dn);
    if step.Recurse? {
      var r := Karonen(Below(a, n), Below(d, n), n - 1);
      assert Karonen(a, d, n) == r;
      KaronenHighestExcess(Below(a, n), Below(d, n), n - 1);
      ExcessCarriesUp(a, d, n, r);
    }
  }

  /** One level of the recursion: what holds on the dice below `n` holds on
      the whole roll, given that the actions do not outnumber the dangers at
      `n`. */
  lemma ExcessCarriesUp(a: seq<int>, d: seq<int>, n: int, r: int)
    requires n > 1 && r >= 0 && Count(a, n) <= Count(d, n)
    requires forall m :: r < m <= n - 1 ==> Count(Below(a, n), m) <= Count(Below(d, n), m)
    requires n <= 6 && 1 <= r <= n - 1 ==> Count(Below(a, n), r) > Count(Below(d, n), r)
    requires r > n - 1 ==> n - 1 >= 6
    ensures forall m :: r < m <= n ==> Count(a, m) <= Count(d, m)
    ensures n <= 6 && 1 <= r <= n ==> Count(a, r) > Count(d, r)
  {
    forall m | r < m <= n ensures Count(a, m) <= Count(d, m) {
      if m < n {
        CountBelow(a, n, m);
        CountBelow(d, n, m);
      }
    }
    if 1 <= r < n {
      CountBelow(a, n, r);
      CountBelow(d, n, r);
    }
  }

  /** The pool sizes the recursion is handed are the numbers of dice left
      below `n`. */
  lemma RecursionPoolSizes(a: seq<int>, d: seq<int>, n: int)
    requires FacesInRange(a, n) && FacesInRange(d, n)
    ensures |Below(a, n)| == |a| - Count(a, n)
    ensures |Below(d, n)| == |d| - Count(d, n)
  {
  }

  /** Some face from 1 to n has more action dice than danger dice. */
  predicate ActionsExceedSomewhere(a: seq<int>, d: seq<int>, n: int)
  {
    exists m :: 1 <= m <= n && Count(a, m) > Count(d, m)
  }

  /** The result is 0 exactly when at no face do the actions outnumber the
      dangers, and otherwise it is at least 1. */
  lemma {:induction false} KaronenZeroIff(a: seq<int>, d: seq<int>, n: int)
    requires n >= 1
    ensures Karonen(a, d, n) == 0 <==> !ActionsExceedSomewhere(a, d, n)
    ensures Karonen(a, d, n) != 0 ==> Karonen(a, d, n) >= 1
    decreases n
  {
    if Count(a, n) <= Count(d, n) && n > 1 {
      KaronenZeroIff(Below(a, n), Below(d, n), n - 1);
      forall m | 1 <= m <= n - 1 ensures Count(Below(a, n), m) == Count(a, m) {
        CountBelow(a, n, m);
      }
      forall m | 1 <= m <= n - 1 ensures Count(Below(d, n), m) == Count(d, m) {
        CountBelow(d, n, m);
      }
      if ActionsExceedSomewhere(a, d, n) {
        var m :| 1 <= m <= n && Count(a, m) > Count(d, m);
        assert m < n;
        assert ActionsExceedSomewhere(Below(a, n), Below(d, n), n - 1);
      }
    } else if Count(a, n) > Count(d, n) {
      assert ActionsExceedSomewhere(a, d, n);
    }
  }

  /** The placeholder die of an empty pool shows 0, which no face counts:
      an empty pool and the placeholder give the same result, on either
      side. */
  lemma {:induction false} PlaceholderIsNoDie(s: seq<int>, n: int)
    requires n >= 1
    ensures Karonen(s, [0], n) == Karonen(s, [], n)
    ensures Karonen([0], s, n) == Karonen([], s, n)
    decreases n
  {
    assert Count([0], n) == 0;
    assert Below([0], n) == [0];
    if n > 1 {
      PlaceholderIsNoDie(Below(s, n), n - 1);
    }
  }

  // ---------------------------------------------------------------------------
  // Scan over the faces (nco_carcer)

  /** The dependent term of `nco_carcer`: faces 6 down to 1, stopping at the
      first where the actions outnumber the dangers; it is the recursion of
      `nco_karonen` on the same roll. */
  method Carcer(a: seq<int>, d: seq<int>) returns (res: int)
    ensures res == Karonen(a, d, 6)
  {
    res := 0;
    var n := 6;
    while n >= 1
      invariant 0 <= n <= 6
      invariant res == 0
      invariant n >= 1 ==> Karonen(a, d, 6) == Karonen(Lower(a, n), Lower(d, n), n)
      invariant n == 0 ==> Karonen(a, d, 6) == 0
      decreases n
    {
      CountLower(a, n);
      CountLower(d, n);
      var aVsDAtN := Count(a, n) - Count(d, n);
      if aVsDAtN > 0 {
        if n == 6 {
          res := n + aVsDAtN - 1;
        } else {
          res := n;
        }
        return;
      }
      if n > 1 {
        LowerStep(a, n);
        LowerStep(d, n);
      }
      n := n - 1;
    }
  }

  /** The dice still in play when the scan reaches face `n`: those showing
      at most `n`. */
  function Lower(roll: seq<int>, n: int): seq<int>
    requires 1 <= n <= 6
    decreases 6 - n
  {
    if n == 6 then roll else Below(Lower(roll, n + 1), n + 1)
  }

  lemma CountLower(roll: seq<int>, n: int)
    requires 1 <= n <= 6
    ensures Count(Lower(roll, n), n) == Count(roll, n)
    decreases 6 - n
  {
    if n < 6 {
      CountLowerAt(roll, n + 1, n);
    }
  }

  lemma CountLowerAt(roll: seq<int>, k: int, m: int)
    requires 1 <= m < k <= 6
    ensures Count(Below(Lower(roll, k), k), m) == Count(roll, m)
    decreases 6 - k
  {
    CountBelow(Lower(roll, k), k, m);
    if k < 6 {
      CountLowerAt(roll, k + 1, m);
    }
  }

  lemma LowerStep(roll: seq<int>, n: int)
    requires 2 <= n <= 6
    ensures Lower(roll, n - 1) == Below(Lower(roll, n), n)
  {
  }

  // ---------------------------------------------------------------------------
  // Greedy cancellation on sorted rolls (nco_so_dangerous)

  /** The actions that survive, highest first, and the index of the highest
      danger die not spent (-1 when all are spent). */
  datatype Walked = Walked(kept: seq<int>, dangerIndex: int)

  /** The walk of `_a_vs_d` from action index `ai` and danger index `di`
      down: an action no greater than the highest unspent danger is
      cancelled by it; any other action survives. */
  function Walk(a: seq<int>, d: seq<int>, ai: int, di: int): (w: Walked)
    requires -1 <= ai < |a| && -1 <= di < |d|
    ensures -1 <= w.dangerIndex <= di
    ensures |w.kept| <= ai + 1
    decreases ai
  {
    if ai < 0 then Walked([], di)
    else if di >= 0 && a[ai] <= d[di] then Walk(a, d, ai - 1, di - 1)
    else
      var rest := Walk(a, d, ai - 1, di);
      Walked([a[ai]] + rest.kept, rest.dangerIndex)
  }

  /** The value of `_a_vs_d` after the walk: the highest surviving action,
      plus one for each further surviving 6 when it is a 6; with no survivor,
      minus one for each unspent danger 6. */
  function Score(w: Walked, d: seq<int>): (r: int)
    requires -1 <= w.dangerIndex < |d|
    ensures w.kept != [] ==> r >= w.kept[0]
    ensures w.kept == [] ==> -(w.dangerIndex + 1) <= r <= 0
    ensures w.kept != [] && w.kept[0] == 6 ==> (r > 6 <==> 6 in w.kept[1..])
  {
    if w.kept != [] then
      if w.kept[0] == 6 then 6 + Count(w.kept[1..], 6) else w.kept[0]
    else 0 - Count(d[..w.dangerIndex + 1], 6)
  }

  lemma ScoreCases(w: Walked, d: seq<int>)
    requires -1 <= w.dangerIndex < |d|
    ensures w.kept != [] && w.kept[0] == 6 ==> Score(w, d) == 6 + Count(w.kept[1..], 6)
    ensures w.kept != [] && w.kept[0] != 6 ==> Score(w, d) == w.kept[0]
    ensures w.kept == [] ==> Score(w, d) == 0 - Count(d[..w.dangerIndex + 1], 6)
  {
  }

  /** `_a_vs_d` on whole rolls. */
  function SoDangerous(a: seq<int>, d: seq<int>): (r: int)
    ensures Survivors(a, d) != [] ==> r >= Survivors(a, d)[0]
    ensures Survivors(a, d) == [] ==> -|d| <= r <= 0
    ensures Survivors(a, d) != [] && Survivors(a, d)[0] == 6 ==> (r > 6 <==> 6 in Survivors(a, d)[1..])
  {
    Score(Walk(a, d, |a| - 1, |d| - 1), d)
  }

  /** `_a_vs_d`: walks both rolls from their highest die down, then scores. */
  method AVsD(aRoll: seq<int>, dRoll: seq<int>) returns (result: int)
    ensures result == SoDangerous(aRoll, dRoll)
  {
    ghost var whole := Walk(aRoll, dRoll, |aRoll| - 1, |dRoll| - 1);
    var kept: seq<int> := [];
    var actionIndex := |aRoll| - 1;
    var dangerIndex := |dRoll| - 1;
    while actionIndex >= 0
      invariant -1 <= actionIndex < |aRoll| && -1 <= dangerIndex < |dRoll|
      invariant whole == Resume(kept, Walk(aRoll, dRoll, actionIndex, dangerIndex))
      decreases actionIndex
    {
      WalkStep(aRoll, dRoll, actionIndex, dangerIndex);
      if dangerIndex >= 0 && aRoll[actionIndex] <= dRoll[dangerIndex] {
        actionIndex := actionIndex - 1;
        dangerIndex := dangerIndex - 1;
      } else {
        ResumeKeep(kept, aRoll[actionIndex], Walk(aRoll, dRoll, actionIndex - 1, dangerIndex));
        kept := kept + [aRoll[actionIndex]];
        actionIndex := actionIndex - 1;
      }
    }
    assert whole == Walked(kept, dangerIndex) by {
      assert kept + [] == kept;
    }
    WalkedScore(aRoll, dRoll, kept, dangerIndex);
    if kept != [] {
      result := kept[0];
      if result == 6 {
        result := result + Count(kept[1..], 6);
      }
    } else {
      var zeroActionsBase := 0;
      var unspentD := dRoll[..dangerIndex + 1];
      result := zeroActionsBase - Count(unspentD, 6);
    }
  }

  /** The score of a finished walk, case by case. */
  lemma WalkedScore(a: seq<int>, d: seq<int>, kept: seq<int>, di: int)
    requires Walk(a, d, |a| - 1, |d| - 1) == Walked(kept, di)
    ensures -1 <= di < |d|
    ensures kept != [] && kept[0] == 6 ==> SoDangerous(a, d) == 6 + Count(kept[1..], 6)
    ensures kept != [] && kept[0] != 6 ==> SoDangerous(a, d) == kept[0]
    ensures kept == [] ==> SoDangerous(a, d) == 0 - Count(d[..di + 1], 6)
  {
    ScoreCases(Walked(kept, di), d);
  }

  /** The walk's outcome after the actions already kept. */
  function Resume(kept: seq<int>, w: Walked): (r: Walked)
    ensures r.dangerIndex == w.dangerIndex && |r.kept| == |kept| + |w.kept|
  {
    Walked(kept + w.kept, w.dangerIndex)
  }

  /** One step of the walk: a cancelled action moves both indices down, a
      surviving one is put in front of the rest. */
  lemma WalkStep(a: seq<int>, d: seq<int>, ai: int, di: int)
    requires 0 <= ai < |a| && -1 <= di < |d|
    ensures di >= 0 && a[ai] <= d[di] ==> Walk(a, d, ai, di) == Walk(a, d, ai - 1, di - 1)
    ensures !(di >= 0 && a[ai] <= d[di]) ==>
      Walk(a, d, ai, di) == Walked([a[ai]] + Walk(a, d, ai - 1, di).kept, Walk(a, d, ai - 1, di).dangerIndex)
  {
  }

  lemma ResumeKeep(kept: seq<int>, x: int, w: Walked)
    ensures Resume(kept, Walked([x] + w.kept, w.dangerIndex)) == Resume(kept + [x], w)
  {
    assert kept + ([x] + w.kept) == (kept + [x]) + w.kept;
  }

  /** Every examined action is either kept or cancelled by exactly one
      danger, and each cancelling danger is spent. */
  lemma {:induction false} WalkAccounts(a: seq<int>, d: seq<int>, ai: int, di: int)
    requires -1 <= ai < |a| && -1 <= di < |d|
    ensures |Walk(a, d, ai, di).kept| + (di - Walk(a, d, ai, di).dangerIndex) == ai + 1
    decreases ai
  {
    if ai >= 0 {
      if di >= 0 && a[ai] <= d[di] {
        WalkAccounts(a, d, ai - 1, di - 1);
      } else {
        WalkAccounts(a, d, ai - 1, di);
      }
    }
  }

  /** On an ascending action roll the survivors come out highest first, each
      no higher than the action the walk started from. */
  lemma {:induction false} WalkKeepsDescending(a: seq<int>, d: seq<int>, ai: int, di: int)
    requires SortedValues(a)
    requires -1 <= ai < |a| && -1 <= di < |d|
    ensures forall i :: 0 <= i < |Walk(a, d, ai, di).kept| ==> Walk(a, d, ai, di).kept[i] <= a[ai]
    ensures forall i, j :: 0 <= i < j < |Walk(a, d, ai, di).kept| ==>
      Walk(a, d, ai, di).kept[i] >= Walk(a, d, ai, di).kept[j]
    decreases ai
  {
    if ai >= 0 {
      if di >= 0 && a[ai] <= d[di] {
        WalkKeepsDescending(a, d, ai - 1, di - 1);
        if ai >= 1 { assert a[ai - 1] <= a[ai]; }
      } else {
        WalkKeepsDescending(a, d, ai - 1, di);
        if ai >= 1 { assert a[ai - 1] <= a[ai]; }
      }
    }
  }

  /** An action survives when no unspent danger is as high: with every
      danger below every action nothing is cancelled. */
  lemma {:induction false} NoHighDangerNoCancel(a: seq<int>, d: seq<int>, ai: int, di: int)
    requires -1 <= ai < |a| && -1 <= di < |d|
    requires forall i, j :: 0 <= i <= ai && 0 <= j <= di ==> d[j] < a[i]
    ensures Walk(a, d, ai, di).kept == Reversed(a[..ai + 1])
    decreases ai
  {
    if ai >= 0 {
      NoHighDangerNoCancel(a, d, ai - 1, di);
      assert a[..ai + 1] == a[..ai] + [a[ai]];
    }
  }

  function Reversed(s: seq<int>): (r: seq<int>)
    ensures |r| == |s|
    ensures forall i :: 0 <= i < |s| ==> r[i] == s[|s| - 1 - i]
  {
    if s == [] then [] else [s[|s| - 1]] + Reversed(s[..|s| - 1])
  }

  /** The actions that survive the whole walk, highest first. */
  function Survivors(a: seq<int>, d: seq<int>): seq<int>
  {
    Walk(a, d, |a| - 1, |d| - 1).kept
  }

  /** With a survivor on an ascending roll, the result is the highest
      survivor (plus the boons of further 6s), so at least every survivor;
      with none it is minus the unspent 6s, never positive. */
  lemma ScoreBounds(a: seq<int>, d: seq<int>)
    requires SortedValues(a)
    ensures forall i :: 0 <= i < |Survivors(a, d)| ==> Survivors(a, d)[i] <= SoDangerous(a, d)
    ensures Survivors(a, d) == [] ==> SoDangerous(a, d) <= 0
  {
    if |a| > 0 {
      WalkKeepsDescending(a, d, |a| - 1, |d| - 1);
    }
  }

  // ---------------------------------------------------------------------------
  // The placeholder die in the greedy walk

  /** `nco_so_dangerous` on pool sizes, as written: an empty pool is rolled
      as the placeholder die. */
  function SoDangerousPoolsAsWritten(aPoolSize: int, aRoll: seq<int>, dPoolSize: int, dRoll: seq<int>): (r: int)
    ensures aPoolSize > 0 && dPoolSize > 0 ==> r == SoDangerous(aRoll, dRoll)
    ensures aPoolSize <= 0 ==> r <= 0
  {
    SoDangerous(PoolRoll(aPoolSize, aRoll), PoolRoll(dPoolSize, dRoll))
  }

  /** The placeholder action die shows 0, which every danger die is at least,
      so it spends the highest danger: no actions against one danger 6 scores
      0 where the rule charges the unspent 6. */
  lemma PlaceholderActionSpendsDanger(aRoll: seq<int>, dRoll: seq<int>)
    requires dRoll == [6]
    ensures SoDangerousPoolsAsWritten(0, aRoll, 1, dRoll) == 0
    ensures SoDangerousPools(0, aRoll, 1, dRoll) == -1
  {
    assert PoolRoll(0, aRoll) == [0];
    assert Walk([0], dRoll, 0, 0) == Walked([], -1);
    NoActionsChargesEverySix(dRoll);
    assert Count(dRoll, 6) == 1;
  }

  /** `nco_so_dangerous` with an empty action pool rolled as no action dice
      (an empty danger pool keeps its placeholder, which is never a 6). */
  function SoDangerousPools(aPoolSize: int, aRoll: seq<int>, dPoolSize: int, dRoll: seq<int>): (r: int)
    ensures aPoolSize > 0 ==> r == SoDangerousPoolsAsWritten(aPoolSize, aRoll, dPoolSize, dRoll)
    ensures aPoolSize <= 0 ==> r <= 0
  {
    SoDangerous(if aPoolSize <= 0 then [] else aRoll, PoolRoll(dPoolSize, dRoll))
  }

  /** With no action dice every danger is unspent, and each danger 6 costs
      one. */
  lemma NoActionsChargesEverySix(d: seq<int>)
    ensures SoDangerous([], d) == 0 - Count(d, 6)
  {
    var w := Walk([], d, -1, |d| - 1);
    assert w == Walked([], |d| - 1);
    assert d[..|d|] == d;
    assert SoDangerous([], d) == Score(w, d);
    ScoreCases(w, d);
  }

  /** With an empty action pool the corrected rule charges every danger 6. */
  lemma EmptyActionPoolCharged(aRoll: seq<int>, dPoolSize: int, dRoll: seq<int>)
    requires dPoolSize > 0
    ensures SoDangerousPools(0, aRoll, dPoolSize, dRoll) == 0 - Count(dRoll, 6)
  {
    NoActionsChargesEverySix(dRoll);
  }
}
