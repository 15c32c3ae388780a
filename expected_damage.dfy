/** Expected damage of an attack: a to-hit roll is classified as a miss, a hit
    or a critical hit, and each class deals a clamped damage roll.  Two
    versions exist: the notebook's (`_limit`, damage floored at 0 per part)
    and the standalone file's (`bounds`, damage floored at 1 after adding). */
module ExpectedDamage {
  import opened Common

  /** The `HitResult` enumeration: MISS 0, HIT 1, CRIT 2. */
  datatype HitResult = Miss | Hit | Crit

  function HitValue(r: HitResult): (v: int)
    ensures v == 0 <==> r == Miss
    ensures v == 1 <==> r == Hit
    ensures v == 2 <==> r == Crit
  {
    match r
    case Miss => 0
    case Hit => 1
    case Crit => 2
  }

  function Max(a: int, b: int): int { if a >= b then a else b }
  function Min(a: int, b: int): int { if a <= b then a else b }

  // ---------------------------------------------------------------------------
  // Clamping

  /** The notebook's `_limit` on one outcome: raise to `lo`, then lower to
      `hi`, each only when given. */
  function Limit(x: int, lo: Option<int>, hi: Option<int>): (r: int)
    ensures lo.None? && hi.None? ==> r == x
    ensures hi.Some? ==> r <= hi.value
    ensures lo.Some? && (hi.None? || lo.value <= hi.value) ==> r >= lo.value
    ensures (lo.None? || x >= lo.value) && (hi.None? || x <= hi.value) ==> r == x
    ensures r == x || (lo.Some? && r == lo.value) || (hi.Some? && r == hi.value)
  {
    var raised := if lo.None? then x else Max(x, lo.value);
    if hi.None? then raised else Min(raised, hi.value)
  }

  /** `_limit` applied to every face of a die. */
  function LimitDie(d: Die, lo: Option<int>, hi: Option<int>): (r: Die)
    ensures |r| == |d|
    ensures forall i :: 0 <= i < |d| ==> r[i] == Limit(d[i], lo, hi)
  {
    seq(|d|, i requires 0 <= i < |d| => Limit(d[i], lo, hi))
  }

  /** The three clamps asserted on a d6: raising to 2 turns the 1 into a
      second 2, lowering to 5 turns the 6 into a second 5, and both do both. */
  lemma LimitOnD6()
    ensures LimitDie(Faces(6), Some(2), None) == [2, 2, 3, 4, 5, 6]
    ensures LimitDie(Faces(6), None, Some(5)) == [1, 2, 3, 4, 5, 5]
    ensures LimitDie(Faces(6), Some(2), Some(5)) == [2, 2, 3, 4, 5, 5]
  {
  }

  /** The file's `bounds` on one outcome, as written: a missing bound
      defaults to the outcome itself and the result is
      `max(min(x, this_max), this_min)`.  Because a missing lower bound is the
      outcome, the upper bound has no effect unless a lower bound is given. */
  function Bounds(x: int, minOutcome: Option<int>, maxOutcome: Option<int>): (r: int)
    ensures minOutcome.None? ==> r == x
    ensures minOutcome.Some? ==> r >= minOutcome.value
    ensures minOutcome.Some? && maxOutcome.Some? && minOutcome.value <= maxOutcome.value ==> r <= maxOutcome.value
    ensures (minOutcome.None? || x >= minOutcome.value) && (maxOutcome.None? || x <= maxOutcome.value) ==> r == x
  {
    var thisMin := if minOutcome.None? then x else minOutcome.value;
    var thisMax := if maxOutcome.None? then x else maxOutcome.value;
    Max(Min(x, thisMax), thisMin)
  }

  /** An upper bound given alone is ignored: `bounds` of a 6 with at most 5
      is still 6. */
  lemma LoneMaxIgnored(x: int, maxOutcome: Option<int>)
    requires x == 6 && maxOutcome == Some(5)
    ensures Bounds(x, None, maxOutcome) == 6
    ensures BoundsIntended(x, None, maxOutcome) == 5
  {
  }

  /** `bounds` as its name and parameters promise: each given bound is
      applied and a missing bound is no bound at all. */
  function BoundsIntended(x: int, minOutcome: Option<int>, maxOutcome: Option<int>): (r: int)
    ensures minOutcome.None? && maxOutcome.None? ==> r == x
    ensures minOutcome.Some? ==> r >= minOutcome.value
    ensures maxOutcome.Some? && (minOutcome.None? || minOutcome.value <= maxOutcome.value) ==> r <= maxOutcome.value
    ensures (minOutcome.None? || x >= minOutcome.value) && (maxOutcome.None? || x <= maxOutcome.value) ==> r == x
  {
    var lowered := if maxOutcome.None? then x else Min(x, maxOutcome.value);
    if minOutcome.None? then lowered else Max(lowered, minOutcome.value)
  }

  /** The intended `bounds` is the written one whenever a lower bound is
      given, which is how `expected_damage` calls it. */
  lemma BoundsAsWrittenWithLowerBound(x: int, minOutcome: Option<int>, maxOutcome: Option<int>)
    requires minOutcome.Some?
    ensures Bounds(x, minOutcome, maxOutcome) == BoundsIntended(x, minOutcome, maxOutcome)
  {
  }

  /** The intended `bounds` and `_limit` agree unless both bounds are given
      with the lower one above the upper one: then `_limit` yields the upper
      bound and `bounds` the lower one. */
  lemma BoundsAgreeWithLimit(x: int, lo: Option<int>, hi: Option<int>)
    ensures lo.None? || hi.None? || lo.value <= hi.value ==> BoundsIntended(x, lo, hi) == Limit(x, lo, hi)
    ensures lo.Some? && hi.Some? && lo.value > hi.value ==>
              Limit(x, lo, hi) == hi.value && BoundsIntended(x, lo, hi) == lo.value
  {
  }

  // ---------------------------------------------------------------------------
  // To-hit classification

  /** `_to_hit_result` / `to_hit_result`: a crit face is a CRIT even below the
      target; otherwise a natural 1 or an outcome below target misses. */
  function ToHitResult(outcome: int, target: int, crits: seq<int>): (r: HitResult)
    ensures r == Crit <==> outcome in crits
    ensures r == Miss <==> outcome !in crits && (outcome == 1 || outcome < target)
    ensures r == Hit <==> outcome !in crits && outcome != 1 && outcome >= target
  {
    if outcome in crits then Crit
    else if outcome == 1 || outcome < target then Miss
    else Hit
  }

  /** The crit faces of `crit_normal` (also `to_hit_result`'s default),
      `crit_improved` and `crit_superior`. */
  const NormalCrits: seq<int> := [20]
  const ImprovedCrits: seq<int> := [19, 20]
  const SuperiorCrits: seq<int> := [18, 19, 20]

  /** The crit faces of a d20 are exactly the faces from `c` up. */
  ghost predicate CritsFrom(crits: seq<int>, c: int)
  {
    forall x :: x in crits <==> c <= x <= 20
  }

  lemma CritTables()
    ensures CritsFrom(NormalCrits, 20)
    ensures CritsFrom(ImprovedCrits, 19)
    ensures CritsFrom(SuperiorCrits, 18)
  {
  }

  /** The classification of every face of a die (`H.foreach` over `to_hit`). */
  function Classify(d: Die, target: int, crits: seq<int>): (r: seq<HitResult>)
    ensures |r| == |d|
    ensures forall i :: 0 <= i < |d| ==> r[i] == ToHitResult(d[i], target, crits)
  {
    seq(|d|, i requires 0 <= i < |d| => ToHitResult(d[i], target, crits))
  }

  /** How many of the faces 1..m land in each class, when crits are the faces
      from `c` to 20 and the target lies between 2 and `c`. */
  lemma ClassCounts(m: nat, target: int, crits: seq<int>, c: int)
    requires m <= 20
    requires CritsFrom(crits, c)
    requires 2 <= target <= c <= 20
    ensures Count(Classify(Faces(m), target, crits), Miss) == Min(m, target - 1)
    ensures Count(Classify(Faces(m), target, crits), Hit) == Max(0, Min(m, c - 1) - target + 1)
    ensures Count(Classify(Faces(m), target, crits), Crit) == Max(0, m - c + 1)
  {
    MissCount(m, target, crits, c);
    HitCount(m, target, crits, c);
    CritCount(m, target, crits, c);
  }

  /** Counting one more face adds one to its own class only. */
  lemma CountNextFace(m: nat, target: int, crits: seq<int>, r: HitResult)
    requires m > 0
    ensures Count(Classify(Faces(m), target, crits), r)
         == Count(Classify(Faces(m - 1), target, crits), r) + (if ToHitResult(m, target, crits) == r then 1 else 0)
  {
    ClassifyNextFace(m, target, crits);
    CountAppend(Classify(Faces(m - 1), target, crits), [ToHitResult(m, target, crits)], r);
  }

  lemma {:induction false} MissCount(m: nat, target: int, crits: seq<int>, c: int)
    requires m <= 20 && CritsFrom(crits, c) && 2 <= target <= c <= 20
    ensures Count(Classify(Faces(m), target, crits), Miss) == Min(m, target - 1)
  {
    if m > 0 {
      MissCount(m - 1, target, crits, c);
      CountNextFace(m, target, crits, Miss);
      assert m in crits <==> c <= m;
      assert ToHitResult(m, target, crits) == Miss <==> m < target;
      assert Min(m, target - 1) == Min(m - 1, target - 1) + (if m < target then 1 else 0);
    }
  }

  lemma {:induction false} HitCount(m: nat, target: int, crits: seq<int>, c: int)
    requires m <= 20 && CritsFrom(crits, c) && 2 <= target <= c <= 20
    ensures Count(Classify(Faces(m), target, crits), Hit) == Max(0, Min(m, c - 1) - target + 1)
  {
    if m > 0 {
      HitCount(m - 1, target, crits, c);
      CountNextFace(m, target, crits, Hit);
      assert m in crits <==> c <= m;
      assert ToHitResult(m, target, crits) == Hit <==> target <= m < c;
      HitStep(m, target, c);
    }
  }

  lemma HitStep(m: nat, target: int, c: int)
    requires m > 0 && target <= c
    ensures Max(0, Min(m, c - 1) - target + 1)
         == Max(0, Min(m - 1, c - 1) - target + 1) + (if target <= m < c then 1 else 0)
  {
  }

  lemma {:induction false} CritCount(m: nat, target: int, crits: seq<int>, c: int)
    requires m <= 20 && CritsFrom(crits, c) && 2 <= target <= c <= 20
    ensures Count(Classify(Faces(m), target, crits), Crit) == Max(0, m - c + 1)
  {
    if m > 0 {
      CritCount(m - 1, target, crits, c);
      CountNextFace(m, target, crits, Crit);
      assert ToHitResult(m, target, crits) == Crit <==> c <= m;
    }
  }

  lemma ClassifyNextFace(m: nat, target: int, crits: seq<int>)
    requires m > 0
    ensures Classify(Faces(m), target, crits) == Classify(Faces(m - 1), target, crits) + [ToHitResult(m, target, crits)]
  {
  }

  /** The three distributions asserted on a plain d20 against target 10:
      MISS/HIT/CRIT weigh 9/10/1, 9/9/2 and 9/8/3. */
  lemma TargetTenOnD20()
    ensures Count(Classify(Faces(20), 10, NormalCrits), Miss) == 9
    ensures Count(Classify(Faces(20), 10, NormalCrits), Hit) == 10
    ensures Count(Classify(Faces(20), 10, NormalCrits), Crit) == 1
    ensures Count(Classify(Faces(20), 10, ImprovedCrits), Miss) == 9
    ensures Count(Classify(Faces(20), 10, ImprovedCrits), Hit) == 9
    ensures Count(Classify(Faces(20), 10, ImprovedCrits), Crit) == 2
    ensures Count(Classify(Faces(20), 10, SuperiorCrits), Miss) == 9
    ensures Count(Classify(Faces(20), 10, SuperiorCrits), Hit) == 8
    ensures Count(Classify(Faces(20), 10, SuperiorCrits), Crit) == 3
  {
    CritTables();
    ClassCounts(20, 10, NormalCrits, 20);
    ClassCounts(20, 10, ImprovedCrits, 19);
    ClassCounts(20, 10, SuperiorCrits, 18);
  }

  /** A higher roll never classifies worse, on a d20 whose crit faces run
      from `c` up. */
  lemma ResultMonotone(o1: int, o2: int, target: int, crits: seq<int>, c: int)
    requires CritsFrom(crits, c)
    requires 1 <= o1 <= o2 <= 20
    ensures HitValue(ToHitResult(o1, target, crits)) <= HitValue(ToHitResult(o2, target, crits))
  {
  }

  /** Disadvantage keeps the lower of two d20s, advantage the higher. */
  function Disadvantage(a: int, b: int): (r: int)
    ensures r <= a && r <= b && (r == a || r == b)
  {
    Min(a, b)
  }

  function Advantage(a: int, b: int): (r: int)
    ensures r >= a && r >= b && (r == a || r == b)
  {
    Max(a, b)
  }

  /** Rolling with disadvantage never classifies better than the first die
      alone, and with advantage never worse. */
  lemma AdvantageOrdersResults(a: int, b: int, target: int, crits: seq<int>, c: int)
    requires CritsFrom(crits, c)
    requires 1 <= a <= 20 && 1 <= b <= 20
    ensures HitValue(ToHitResult(Disadvantage(a, b), target, crits)) <= HitValue(ToHitResult(a, target, crits))
    ensures HitValue(ToHitResult(a, target, crits)) <= HitValue(ToHitResult(Advantage(a, b), target, crits))
  {
    ResultMonotone(Disadvantage(a, b), a, target, crits, c);
    ResultMonotone(a, Advantage(a, b), target, crits, c);
  }

  // ---------------------------------------------------------------------------
  // Damage

  /** The notebook's `expected_damage` for one to-hit class and one roll of
      each damage die: a miss deals nothing, a hit the normal damage floored
      at 0, a crit that plus the extra damage floored at 0. */
  function NotebookDamage(result: HitResult, normal: int, extra: int): (d: int)
    ensures d >= 0
    ensures result == Miss ==> d == 0
    ensures result == Hit ==> d == Limit(normal, Some(0), None)
    ensures result == Crit ==> d == Limit(normal, Some(0), None) + Limit(extra, Some(0), None)
  {
    var normalLtd := Limit(normal, Some(0), None);
    match result
    case Crit => normalLtd + Limit(extra, Some(0), None)
    case Hit => normalLtd
    case Miss => 0
  }

  /** A better class never deals less damage for the same damage rolls. */
  lemma NotebookDamageMonotone(r1: HitResult, r2: HitResult, normal: int, extra: int)
    requires HitValue(r1) <= HitValue(r2)
    ensures NotebookDamage(r1, normal, extra) <= NotebookDamage(r2, normal, extra)
  {
  }

  /** The file's `expected_damage` for one to-hit class and one roll of each
      damage die: a miss deals nothing, a hit the normal damage floored at 1,
      a crit the sum of both floored at 1. */
  function FileDamage(result: HitResult, normal: int, extra: int): (d: int)
    ensures d == 0 <==> result == Miss
    ensures result != Miss ==> d >= 1
    ensures result == Hit ==> d == (if normal >= 1 then normal else 1)
    ensures result == Crit ==> d == (if normal + extra >= 1 then normal + extra else 1)
  {
    match result
    case Crit => Bounds(normal + extra, Some(1), None)
    case Hit => Bounds(normal, Some(1), None)
    case Miss => 0
  }

  /** With non-negative extra damage a crit never deals less than a hit in
      the file's version; unlike the notebook's, a negative extra roll can
      make a crit deal less. */
  lemma FileDamageCritVersusHit(normal: int, extra: int)
    ensures extra >= 0 ==> FileDamage(Crit, normal, extra) >= FileDamage(Hit, normal, extra)
    ensures normal >= 2 && extra < 0 ==> FileDamage(Crit, normal, extra) < FileDamage(Hit, normal, extra)
  {
  }

  /** Where the two versions differ: the notebook floors each part at 0, the
      file floors the result at 1; they agree whenever every damage roll is at
      least 1. */
  lemma DamageVersionsAgreeOnPositiveRolls(result: HitResult, normal: int, extra: int)
    requires normal >= 1 && extra >= 1
    ensures NotebookDamage(result, normal, extra) == FileDamage(result, normal, extra)
  {
  }
}
