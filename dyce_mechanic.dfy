/** The bumpity-pool rule as `mechanic_dyce_fudged` applies it to one roll:
    the standard and bump rolls are tagged, combined, sorted by (outcome,
    pool), trimmed of the extra dice at one end, and the set die, the wrap,
    the bonus dice and the excess-extra adjustment give the total.  The
    tag-based form (dyce_impl.py of the files copy) and the value-based form of
    the notebooks copy are both here, with what separates them. */
module DyceMechanic {
  import opened Common
  import opened Params
  import opened Ranked

  /** Which end of the sorted combined roll the slice cuts away. */
  datatype Trim = DropTop(count: nat) | DropBottom(count: nat) | KeepAll

  /** What `mechanic_dyce_fudged` computes from the parameters before any
      roll: the pool size, the clamped extra counts, the slice and the
      adjustment for extra dice beyond the pool. */
  datatype Setup = Setup(poolSize: int, extraStd: int, extraBmp: int, trim: Trim, extraBonus: int)

  function Max(a: int, b: int): int { if a >= b then a else b }

  /** Extras are clamped to the pool size; each extra standard die that the
      clamp removes costs 2, each extra bump die it removes gains 2; extra
      standard dice cut the top of the roll, extra bump dice its bottom. */
  function MakeSetup(p: Params): (s: Setup)
    requires Valid(p)
    ensures s.poolSize == p.PoolSize() >= 1
    ensures 0 <= s.extraStd <= p.extraStd && s.extraStd <= s.poolSize
    ensures 0 <= s.extraBmp <= p.extraBmp && s.extraBmp <= s.poolSize
    ensures s.extraStd < p.extraStd ==> s.extraStd == s.poolSize
    ensures s.extraBmp < p.extraBmp ==> s.extraBmp == s.poolSize
    ensures p.extraStd != 0 ==>
      s.trim == DropTop(s.extraStd) && s.extraStd >= 1 && s.extraBonus == -2 * (p.extraStd - s.extraStd)
    ensures p.extraStd == 0 && p.extraBmp != 0 ==>
      s.trim == DropBottom(s.extraBmp) && s.extraBmp >= 1 && s.extraBonus == 2 * (p.extraBmp - s.extraBmp)
    ensures p.extraStd == 0 && p.extraBmp == 0 ==> s.trim == KeepAll && s.extraBonus == 0
  {
    var poolSize := p.PoolSize();
    var extraStd := Min(p.extraStd, poolSize);
    var extraBmp := Min(p.extraBmp, poolSize);
    if p.extraStd != 0 then
      Setup(poolSize, extraStd, extraBmp, DropTop(extraStd), -2 * Max(p.extraStd - poolSize, 0))
    else if p.extraBmp != 0 then
      Setup(poolSize, extraStd, extraBmp, DropBottom(extraBmp), 2 * Max(p.extraBmp - poolSize, 0))
    else
      Setup(poolSize, extraStd, extraBmp, KeepAll, 0)
  }

  /** The engine rolls `num_std + extra_std` standard dice and
      `num_bmp + extra_bmp` bump dice (both extras clamped). */
  predicate RollSizes(p: Params, std: seq<int>, bmp: seq<int>)
    requires Valid(p)
  {
    |std| == p.numStd + MakeSetup(p).extraStd && |bmp| == p.numBmp + MakeSetup(p).extraBmp
  }

  /** The slice `roll[:-k]`, `roll[k:]` or `roll[:]`. */
  function ApplyTrim<T>(roll: seq<T>, t: Trim): (r: seq<T>)
    requires !t.KeepAll? ==> t.count <= |roll|
    ensures t.DropTop? ==> r == roll[..|roll| - t.count]
    ensures t.DropBottom? ==> r == roll[t.count..]
    ensures t.KeepAll? ==> r == roll
  {
    match t
    case DropTop(k) => roll[..|roll| - k]
    case DropBottom(k) => roll[k..]
    case KeepAll => roll
  }

  /** The standard dice tagged STANDARD followed by the bump dice tagged BUMP. */
  function Combined(std: seq<int>, bmp: seq<int>): (r: seq<Entry>)
    ensures |r| == |std| + |bmp|
    ensures forall i :: 0 <= i < |std| ==> r[i] == Entry(std[i], Standard)
    ensures forall j :: |std| <= j < |r| ==> r[j] == Entry(bmp[j - |std|], Bump)
  {
    Tag(std, Standard) + Tag(bmp, Bump)
  }

  /** The ranked roll: the combined roll sorted and trimmed. */
  function RankedRoll(p: Params, std: seq<int>, bmp: seq<int>): (r: seq<Entry>)
    requires Valid(p) && RollSizes(p, std, bmp)
    ensures |r| == p.PoolSize()
  {
    ApplyTrim(Sort(Combined(std, bmp)), MakeSetup(p).trim)
  }

  /** The ranked roll has exactly pool-size entries, in ascending order, all
      taken from the roll. */
  lemma RankedRollShape(p: Params, std: seq<int>, bmp: seq<int>)
    requires Valid(p) && RollSizes(p, std, bmp)
    ensures Sorted(RankedRoll(p, std, bmp))
    ensures multiset(RankedRoll(p, std, bmp)) <= multiset(Combined(std, bmp))
  {
    TrimShape(Sort(Combined(std, bmp)), MakeSetup(p).trim);
  }

  /** Either slice of an ascending sequence is ascending and drawn from it. */
  lemma TrimShape(sorted: seq<Entry>, t: Trim)
    requires Sorted(sorted)
    requires !t.KeepAll? ==> t.count <= |sorted|
    ensures Sorted(ApplyTrim(sorted, t))
    ensures multiset(ApplyTrim(sorted, t)) <= multiset(sorted)
  {
    match t
    case DropTop(k) =>
      SortedSlice(sorted, 0, |sorted| - k);
      assert ApplyTrim(sorted, t) == sorted[0..|sorted| - k];
    case DropBottom(k) =>
      SortedSlice(sorted, k, |sorted|);
      assert ApplyTrim(sorted, t) == sorted[k..|sorted|];
    case KeepAll =>
      SortedSlice(sorted, 0, |sorted|);
      assert ApplyTrim(sorted, t) == sorted[0..|sorted|];
  }

  /** Trimming keeps the lowest pool-size entries when extra standard dice were
      rolled and the highest pool-size entries otherwise; every kept entry
      ranks at or below (above) every dropped one. */
  lemma TrimKeepsOneEnd(p: Params, std: seq<int>, bmp: seq<int>)
    requires Valid(p) && RollSizes(p, std, bmp)
    ensures var sorted := Sort(Combined(std, bmp));
      && |sorted| >= p.PoolSize()
      && (p.extraStd != 0 ==> RankedRoll(p, std, bmp) == sorted[..p.PoolSize()])
      && (p.extraStd == 0 ==> RankedRoll(p, std, bmp) == sorted[|sorted| - p.PoolSize()..])
  {
  }

  /** The index of the check die: the set die, moved up one rank (wrapping to
      the lowest) when the set die came from the bump pool. */
  function CheckIndex(roll: seq<Entry>, setDie: int): (c: int)
    requires 0 <= setDie < |roll|
    ensures 0 <= c < |roll|
    ensures roll[setDie].pool == Standard ==> c == setDie
    ensures roll[setDie].pool == Bump && setDie + 1 < |roll| ==> c == setDie + 1
    ensures roll[setDie].pool == Bump && setDie + 1 == |roll| ==> c == 0
  {
    if roll[setDie].pool == Bump then (setDie + 1) % |roll| else setDie
  }

  /** The check die differs from the set die exactly when the set die is a
      bump die and the pool holds more than one die. */
  lemma CheckMovesIffBump(roll: seq<Entry>, setDie: int)
    requires 0 <= setDie < |roll|
    ensures CheckIndex(roll, setDie) != setDie <==> roll[setDie].pool == Bump && |roll| >= 2
  {
  }

  /** The wrapped outcome is added only when the set die is the highest of at
      least two dice and is a bump die. */
  lemma WrapIffTopBump(roll: seq<Entry>, setDie: int)
    requires 0 <= setDie < |roll|
    ensures CheckIndex(roll, setDie) < setDie <==>
      setDie == |roll| - 1 && setDie >= 1 && roll[setDie].pool == Bump
  {
  }

  /** The sum of the outcomes at the bonus-die positions. */
  function BonusSum(roll: seq<int>, bonusDice: seq<int>): (t: int)
    requires BonusDiceInPool(bonusDice, |roll|)
    ensures (forall i :: 0 <= i < |roll| ==> roll[i] >= 0) ==> t >= 0
    ensures (forall i :: 0 <= i < |roll| ==> roll[i] >= 1) ==> t >= |bonusDice|
  {
    if bonusDice == [] then 0
    else BonusSum(roll, bonusDice[..|bonusDice| - 1]) + roll[bonusDice[|bonusDice| - 1]]
  }

  /** One more bonus die adds its outcome. */
  lemma BonusSumSnoc(roll: seq<int>, bonusDice: seq<int>, i: nat)
    requires BonusDiceInPool(bonusDice, |roll|) && i < |bonusDice|
    ensures BonusDiceInPool(bonusDice[..i], |roll|) && BonusDiceInPool(bonusDice[..i + 1], |roll|)
    ensures BonusSum(roll, bonusDice[..i + 1]) == BonusSum(roll, bonusDice[..i]) + roll[bonusDice[i]]
  {
    assert bonusDice[..i + 1][..i] == bonusDice[..i];
  }

  lemma {:induction false} BonusSumOfRepeated(roll: seq<int>, b: int, n: nat)
    requires 0 <= b < |roll|
    ensures BonusDiceInPool(seq(n, _ => b), |roll|)
    ensures BonusSum(roll, seq(n, _ => b)) == n * roll[b]
  {
    if n > 0 {
      assert seq(n, _ => b)[..n - 1] == seq(n - 1, _ => b);
      BonusSumOfRepeated(roll, b, n - 1);
    }
  }

  /** The result of `_mechanic` on a ranked roll, before the extra bonus: the
      check outcome, the wrapped set outcome when the check die wrapped below
      the set die, and the bonus dice. */
  function RankedTotal(p: Params, roll: seq<Entry>): (t: int)
    requires Valid(p) && |roll| == p.PoolSize()
    ensures roll[p.setDie].pool == Standard ==>
      t == roll[p.setDie].outcome + BonusSum(Outcomes(roll), p.bonusDice)
    ensures roll[p.setDie].pool == Bump && p.setDie + 1 < |roll| ==>
      t == roll[p.setDie + 1].outcome + BonusSum(Outcomes(roll), p.bonusDice)
    ensures roll[p.setDie].pool == Bump && p.setDie + 1 == |roll| >= 2 ==>
      t == roll[0].outcome + roll[p.setDie].outcome + BonusSum(Outcomes(roll), p.bonusDice)
    ensures roll[p.setDie].pool == Bump && |roll| == 1 ==>
      t == roll[0].outcome + BonusSum(Outcomes(roll), p.bonusDice)
  {
    CheckOutcome(p, roll)
      + (if CheckIndex(roll, p.setDie) < p.setDie then roll[p.setDie].outcome else 0)
      + BonusSum(Outcomes(roll), p.bonusDice)
  }

  /** The outcome of the check die. */
  function CheckOutcome(p: Params, roll: seq<Entry>): (o: int)
    requires 0 <= p.setDie < |roll|
    ensures exists i :: 0 <= i < |roll| && o == roll[i].outcome
    ensures roll[p.setDie].pool == Standard ==> o == roll[p.setDie].outcome
    ensures Sorted(roll) && (roll[p.setDie].pool == Standard || p.setDie + 1 < |roll|) ==>
      o >= roll[p.setDie].outcome
  {
    roll[CheckIndex(roll, p.setDie)].outcome
  }

  /** The value `_mechanic` returns for one standard roll and one bump roll. */
  function DyceTotal(p: Params, std: seq<int>, bmp: seq<int>): (t: int)
    requires Valid(p) && RollSizes(p, std, bmp)
    ensures p.extraStd == 0 && p.extraBmp == 0 ==>
      t == RankedTotal(p, Sort(Combined(std, bmp)))
    ensures p.extraStd != 0 ==>
      t == RankedTotal(p, Sort(Combined(std, bmp))[..p.PoolSize()]) - 2 * (p.extraStd - MakeSetup(p).extraStd)
    ensures p.extraStd == 0 && p.extraBmp != 0 ==>
      t == RankedTotal(p, Sort(Combined(std, bmp))[MakeSetup(p).extraBmp..]) + 2 * (p.extraBmp - MakeSetup(p).extraBmp)
  {
    TrimKeepsOneEnd(p, std, bmp);
    var roll := RankedRoll(p, std, bmp);
    var setup := MakeSetup(p);
    assert p.extraStd != 0 ==> setup.extraBonus == -2 * (p.extraStd - setup.extraStd);
    assert p.extraStd == 0 && p.extraBmp != 0 ==> setup.extraBonus == 2 * (p.extraBmp - setup.extraBmp);
    RankedTotal(p, roll) + setup.extraBonus
  }

  /** `_mechanic` of the tag-based form: tag, extend, sort, slice, then the
      set-die rule and a running sum over the bonus dice.  (With no bump dice
      the engine calls it without a bump roll; that is the empty bump roll
      here.) */
  method Mechanic(p: Params, std: seq<int>, bmp: seq<int>) returns (total: int)
    requires Valid(p) && RollSizes(p, std, bmp)
    ensures total == DyceTotal(p, std, bmp)
  {
    var setup := MakeSetup(p);
    var roll := Tag(std, Standard);
    roll := roll + Tag(bmp, Bump);
    roll := Sort(roll);
    roll := ApplyTrim(roll, setup.trim);
    assert roll == RankedRoll(p, std, bmp);
    var checkDie := p.setDie;
    var checkOutcome := roll[checkDie].outcome;
    if roll[checkDie].pool == Bump {
      checkDie := (checkDie + 1) % |roll|;
      checkOutcome := roll[checkDie].outcome;
    }
    total := checkOutcome;
    if checkDie < p.setDie {
      total := total + roll[p.setDie].outcome;
    }
    assert checkDie == CheckIndex(roll, p.setDie);
    ghost var outcomes := Outcomes(roll);
    var bonus := 0;
    var i := 0;
    while i < |p.bonusDice|
      invariant 0 <= i <= |p.bonusDice|
      invariant BonusDiceInPool(p.bonusDice[..i], |outcomes|)
      invariant bonus == BonusSum(outcomes, p.bonusDice[..i])
    {
      BonusSumSnoc(outcomes, p.bonusDice, i);
      bonus := bonus + roll[p.bonusDice[i]].outcome;
      i := i + 1;
    }
    assert p.bonusDice[..i] == p.bonusDice;
    total := total + bonus + setup.extraBonus;
  }

  // ---------------------------------------------------------------------------
  // The total depends on the rolled values only, not on the dice order

  lemma {:induction false} TagCount(roll: seq<int>, pool: Pool, e: Entry)
    ensures multiset(Tag(roll, pool))[e] == (if e.pool == pool then multiset(roll)[e.outcome] else 0)
  {
    if roll != [] {
      TagCons(roll, pool);
      MultisetTail(roll);
      MultisetTail(Tag(roll, pool));
      TagCount(roll[1..], pool, e);
    }
  }

  lemma TagCons(roll: seq<int>, pool: Pool)
    requires roll != []
    ensures Tag(roll, pool)[0] == Entry(roll[0], pool)
    ensures Tag(roll, pool)[1..] == Tag(roll[1..], pool)
  {
  }

  /** How often an entry occurs in the combined roll: as often as its value
      occurs in the roll of its own pool. */
  lemma CombinedCount(std: seq<int>, bmp: seq<int>, e: Entry)
    ensures multiset(Combined(std, bmp))[e] ==
      (if e.pool == Standard then multiset(std)[e.outcome] else multiset(bmp)[e.outcome])
  {
    TagCount(std, Standard, e);
    TagCount(bmp, Bump, e);
    assert multiset(Combined(std, bmp)) == multiset(Tag(std, Standard)) + multiset(Tag(bmp, Bump));
  }

  lemma TagPermutation(a: seq<int>, b: seq<int>, pool: Pool)
    requires multiset(a) == multiset(b)
    ensures multiset(Tag(a, pool)) == multiset(Tag(b, pool))
  {
    forall e: Entry ensures multiset(Tag(a, pool))[e] == multiset(Tag(b, pool))[e] {
      TagCount(a, pool, e);
      TagCount(b, pool, e);
    }
  }

  /** Rolls with the same values in each pool give the same ranked roll and
      the same total, whatever order the dice were rolled in. */
  lemma TotalIgnoresDiceOrder(p: Params, std: seq<int>, bmp: seq<int>, std': seq<int>, bmp': seq<int>)
    requires Valid(p) && RollSizes(p, std, bmp)
    requires multiset(std) == multiset(std') && multiset(bmp) == multiset(bmp')
    ensures RollSizes(p, std', bmp')
    ensures RankedRoll(p, std, bmp) == RankedRoll(p, std', bmp')
    ensures DyceTotal(p, std, bmp) == DyceTotal(p, std', bmp')
  {
    assert |std| == |multiset(std)| == |multiset(std')| == |std'|;
    assert |bmp| == |multiset(bmp)| == |multiset(bmp')| == |bmp'|;
    TagPermutation(std, std', Standard);
    TagPermutation(bmp, bmp', Bump);
    SortCharacterised(Combined(std', bmp'), Sort(Combined(std, bmp)));
  }

  // ---------------------------------------------------------------------------
  // The value-based form of the notebooks copy

  /** The roll of plain values sorted and trimmed, as the notebooks copy
      builds it. */
  function ValueRoll(p: Params, std: seq<int>, bmp: seq<int>): (r: seq<int>)
    requires Valid(p) && RollSizes(p, std, bmp)
    ensures |r| == p.PoolSize()
    ensures SortedValues(r)
  {
    ApplyTrim(SortValues(std + bmp), MakeSetup(p).trim)
  }

  /** The notebooks' check die: moved up one rank when ANY die of the bump
      roll, kept or trimmed, shows the set die's value. */
  function ValueCheckIndex(roll: seq<int>, setDie: int, bmp: seq<int>): (c: int)
    requires 0 <= setDie < |roll|
    ensures 0 <= c < |roll|
    ensures roll[setDie] !in bmp ==> c == setDie
    ensures roll[setDie] in bmp && setDie + 1 < |roll| ==> c == setDie + 1
    ensures roll[setDie] in bmp && setDie + 1 == |roll| ==> c == 0
  {
    if roll[setDie] in bmp then (setDie + 1) % |roll| else setDie
  }

  /** The value `_mechanic` of the notebooks copy returns. */
  function ValueTotal(p: Params, std: seq<int>, bmp: seq<int>): (t: int)
    requires Valid(p) && RollSizes(p, std, bmp)
    ensures ValueRoll(p, std, bmp)[p.setDie] !in bmp ==>
      t == ValueRoll(p, std, bmp)[p.setDie] + BonusSum(ValueRoll(p, std, bmp), p.bonusDice) + MakeSetup(p).extraBonus
    ensures ValueRoll(p, std, bmp)[p.setDie] in bmp && p.setDie + 1 < p.PoolSize() ==>
      t == ValueRoll(p, std, bmp)[p.setDie + 1] + BonusSum(ValueRoll(p, std, bmp), p.bonusDice) + MakeSetup(p).extraBonus
    ensures ValueRoll(p, std, bmp)[p.setDie] in bmp && p.setDie + 1 == p.PoolSize() >= 2 ==>
      t == ValueRoll(p, std, bmp)[0] + ValueRoll(p, std, bmp)[p.setDie]
           + BonusSum(ValueRoll(p, std, bmp), p.bonusDice) + MakeSetup(p).extraBonus
  {
    var roll := ValueRoll(p, std, bmp);
    var c := ValueCheckIndex(roll, p.setDie, bmp);
    roll[c] + (if c < p.setDie then roll[p.setDie] else 0) + BonusSum(roll, p.bonusDice)
      + MakeSetup(p).extraBonus
  }

  /** `_mechanic` of the notebooks copy. */
  method MechanicByValue(p: Params, std: seq<int>, bmp: seq<int>) returns (total: int)
    requires Valid(p) && RollSizes(p, std, bmp)
    ensures total == ValueTotal(p, std, bmp)
  {
    var setup := MakeSetup(p);
    var roll := std;
    roll := roll + bmp;
    var bumpedOutcomes := set o | o in bmp;
    roll := SortValues(roll);
    roll := ApplyTrim(roll, setup.trim);
    assert roll == ValueRoll(p, std, bmp);
    var checkDie := p.setDie;
    if roll[checkDie] in bumpedOutcomes {
      checkDie := (checkDie + 1) % |roll|;
    }
    assert checkDie == ValueCheckIndex(roll, p.setDie, bmp);
    var checkOutcome := roll[checkDie];
    total := checkOutcome;
    if checkDie < p.setDie {
      total := total + roll[p.setDie];
    }
    var bonus := 0;
    var i := 0;
    while i < |p.bonusDice|
      invariant 0 <= i <= |p.bonusDice|
      invariant BonusDiceInPool(p.bonusDice[..i], |roll|)
      invariant bonus == BonusSum(roll, p.bonusDice[..i])
    {
      BonusSumSnoc(roll, p.bonusDice, i);
      bonus := bonus + roll[p.bonusDice[i]];
      i := i + 1;
    }
    assert p.bonusDice[..i] == p.bonusDice;
    total := total + bonus + setup.extraBonus;
    assert ValueTotal(p, std, bmp) == checkOutcome + (if checkDie < p.setDie then roll[p.setDie] else 0)
      + BonusSum(roll, p.bonusDice) + setup.extraBonus;
  }

  lemma OutcomesOfTag(roll: seq<int>, pool: Pool)
    ensures Outcomes(Tag(roll, pool)) == roll
  {
  }

  lemma OutcomesOfCombined(std: seq<int>, bmp: seq<int>)
    ensures Outcomes(Combined(std, bmp)) == std + bmp
  {
    OutcomesAppend(Tag(std, Standard), Tag(bmp, Bump));
    OutcomesOfTag(std, Standard);
    OutcomesOfTag(bmp, Bump);
  }

  lemma OutcomesOfTrim(roll: seq<Entry>, t: Trim)
    requires !t.KeepAll? ==> t.count <= |roll|
    ensures Outcomes(ApplyTrim(roll, t)) == ApplyTrim(Outcomes(roll), t)
  {
  }

  /** The value roll holds, rank by rank, the outcomes of the ranked roll. */
  lemma ValueRollIsOutcomes(p: Params, std: seq<int>, bmp: seq<int>)
    requires Valid(p) && RollSizes(p, std, bmp)
    ensures ValueRoll(p, std, bmp) == Outcomes(RankedRoll(p, std, bmp))
  {
    var sorted := Sort(Combined(std, bmp));
    OutcomesOfSort(Combined(std, bmp));
    OutcomesOfCombined(std, bmp);
    OutcomesOfTrim(sorted, MakeSetup(p).trim);
  }

  /** A value appears in the bump roll exactly when the combined roll holds
      a bump die with that value. */
  lemma BumpEntryIffBumpValue(std: seq<int>, bmp: seq<int>, v: int)
    ensures Entry(v, Bump) in multiset(Combined(std, bmp)) <==> v in bmp
  {
    CombinedCount(std, bmp, Entry(v, Bump));
  }

  /** When a standard die holds the set rank and a bump die with the same
      value exists above it in the sorted roll, the next rank holds that
      value too. */
  lemma {:induction false} TiedBumpIsNext(sorted: seq<Entry>, k: int, v: int)
    requires Sorted(sorted)
    requires 0 <= k < |sorted| && sorted[k] == Entry(v, Standard)
    requires Entry(v, Bump) in multiset(sorted)
    ensures k + 1 < |sorted| && sorted[k + 1].outcome == v
  {
    var j :| 0 <= j < |sorted| && sorted[j] == Entry(v, Bump);
    if j <= k {
      assert false;
    }
    assert Le(sorted[k], sorted[k + 1]);
    if k + 1 < j {
      assert Le(sorted[k + 1], sorted[j]);
    }
  }

  /** The two check rules pick the same outcome and the same wrap when every
      bump die at the set rank has its value in the bump roll and every
      standard die there whose value is in the bump roll has that value again
      on the next rank. */
  lemma SameCheckOutcome(roll: seq<Entry>, s: int, bmp: seq<int>)
    requires 0 <= s < |roll|
    requires roll[s].pool == Bump ==> roll[s].outcome in bmp
    requires roll[s].pool == Standard && roll[s].outcome in bmp ==>
      s + 1 < |roll| && roll[s + 1].outcome == roll[s].outcome
    ensures Outcomes(roll)[ValueCheckIndex(Outcomes(roll), s, bmp)]
        + (if ValueCheckIndex(Outcomes(roll), s, bmp) < s then Outcomes(roll)[s] else 0)
      == roll[CheckIndex(roll, s)].outcome + (if CheckIndex(roll, s) < s then roll[s].outcome else 0)
  {
    var o := Outcomes(roll);
    var c := CheckIndex(roll, s);
    var vc := ValueCheckIndex(o, s, bmp);
    assert o[s] == roll[s].outcome;
    if roll[s].pool == Bump {
      assert vc == c;
    } else if roll[s].outcome in bmp {
      assert vc == s + 1 && c == s;
    } else {
      assert vc == s && c == s;
    }
    assert o[vc] == roll[vc].outcome;
    SameIndexSameSum(roll, o, s, vc, c);
  }

  lemma SameIndexSameSum(roll: seq<Entry>, o: seq<int>, s: int, vc: int, c: int)
    requires |o| == |roll| && forall i :: 0 <= i < |o| ==> o[i] == roll[i].outcome
    requires 0 <= s < |roll| && 0 <= vc < |roll| && 0 <= c < |roll|
    requires vc == c || (c == s && vc == s + 1 && roll[vc].outcome == roll[s].outcome)
    ensures o[vc] + (if vc < s then o[s] else 0) == roll[c].outcome + (if c < s then roll[s].outcome else 0)
  {
  }

  /** Without extra standard dice the value-based rule gives the tag-based
      total: no die of the bump roll is trimmed away above the set die, so a
      standard die tied with a bump die finds that bump die on the next rank. */
  lemma ValueAgreesWithoutExtraStd(p: Params, std: seq<int>, bmp: seq<int>)
    requires Valid(p) && RollSizes(p, std, bmp) && p.extraStd == 0
    ensures ValueTotal(p, std, bmp) == DyceTotal(p, std, bmp)
  {
    var roll := RankedRoll(p, std, bmp);
    ValueRollIsOutcomes(p, std, bmp);
    var s := p.setDie;
    var v := roll[s].outcome;
    if roll[s].pool == Bump {
      assert Entry(v, Bump) in multiset(Combined(std, bmp)) by {
        RankedRollShape(p, std, bmp);
        assert roll[s] in multiset(roll);
      }
      BumpEntryIffBumpValue(std, bmp, v);
    } else if v in bmp {
      TiedBumpKept(p, std, bmp);
    }
    SameCheckOutcome(roll, s, bmp);
    var o := Outcomes(roll);
    var c := ValueCheckIndex(o, s, bmp);
    assert ValueTotal(p, std, bmp)
        == o[c] + (if c < s then o[s] else 0) + BonusSum(o, p.bonusDice) + MakeSetup(p).extraBonus;
    assert DyceTotal(p, std, bmp) == RankedTotal(p, roll) + MakeSetup(p).extraBonus;
  }

  lemma TiedBumpKept(p: Params, std: seq<int>, bmp: seq<int>)
    requires Valid(p) && RollSizes(p, std, bmp) && p.extraStd == 0
    requires RankedRoll(p, std, bmp)[p.setDie].pool == Standard
    requires RankedRoll(p, std, bmp)[p.setDie].outcome in bmp
    ensures p.setDie + 1 < p.PoolSize()
    ensures RankedRoll(p, std, bmp)[p.setDie + 1].outcome == RankedRoll(p, std, bmp)[p.setDie].outcome
  {
    var roll := RankedRoll(p, std, bmp);
    var v := roll[p.setDie].outcome;
    assert roll[p.setDie] == Entry(v, Standard);
    var sorted := Sort(Combined(std, bmp));
    var lo := |sorted| - p.PoolSize();
    TrimKeepsOneEnd(p, std, bmp);
    assert roll == sorted[lo..];
    BumpEntryIffBumpValue(std, bmp, v);
    assert Entry(v, Bump) in multiset(sorted);
    TiedBumpInSuffix(sorted, lo, roll, p.setDie, v);
  }

  lemma TiedBumpInSuffix(sorted: seq<Entry>, lo: int, roll: seq<Entry>, s: int, v: int)
    requires Sorted(sorted) && 0 <= lo <= |sorted| && roll == sorted[lo..]
    requires 0 <= s < |roll| && roll[s] == Entry(v, Standard)
    requires Entry(v, Bump) in multiset(sorted)
    ensures s + 1 < |roll| && roll[s + 1].outcome == v
  {
    assert sorted[lo + s] == roll[s];
    TiedBumpIsNext(sorted, lo + s, v);
    assert sorted[lo + s + 1] == roll[s + 1];
  }

  /** The notebooks' rule on one concrete roll: one standard and one bump die
      in the pool, the set die the higher one, one extra standard die; the
      standard dice show 2 and 2 and the bump die 2.  The bump die is trimmed
      away, yet the kept standard 2 at the set rank counts as bumped, so the
      value-based total wraps to 4 where the tag-based total is 2. */
  lemma ValueBumpMisfires(p: Params, std: seq<int>, bmp: seq<int>)
    requires p == Params(1, 1, 1, [], 1, 0, "", None, None)
    requires std == [2, 2] && bmp == [2]
    ensures Valid(p) && RollSizes(p, std, bmp)
    ensures ValueTotal(p, std, bmp) == 4
    ensures DyceTotal(p, std, bmp) == 2
  {
    MisfireSetup(p);
    MisfireDyceTotal(p, std, bmp);
    MisfireValueTotal(p, std, bmp);
  }

  /** The tag-based total of the misfire example. */
  lemma MisfireDyceTotal(p: Params, std: seq<int>, bmp: seq<int>)
    requires p == Params(1, 1, 1, [], 1, 0, "", None, None)
    requires std == [2, 2] && bmp == [2]
    ensures Valid(p) && RollSizes(p, std, bmp)
    ensures DyceTotal(p, std, bmp) == 2
  {
    MisfireSetup(p);
    MisfireSorted(std, bmp);
    var roll := RankedRoll(p, std, bmp);
    assert roll == [Entry(2, Standard), Entry(2, Standard)];
    assert CheckIndex(roll, 1) == 1;
  }

  /** The value-based total of the misfire example. */
  lemma MisfireValueTotal(p: Params, std: seq<int>, bmp: seq<int>)
    requires p == Params(1, 1, 1, [], 1, 0, "", None, None)
    requires std == [2, 2] && bmp == [2]
    ensures Valid(p) && RollSizes(p, std, bmp)
    ensures ValueTotal(p, std, bmp) == 4
  {
    MisfireSetup(p);
    MisfireSortedValues(std, bmp);
    var values := ValueRoll(p, std, bmp);
    assert values == [2, 2];
    assert ValueCheckIndex(values, 1, bmp) == 0;
  }

  lemma MisfireSetup(p: Params)
    requires p == Params(1, 1, 1, [], 1, 0, "", None, None)
    ensures Valid(p) && MakeSetup(p) == Setup(2, 1, 0, DropTop(1), 0)
  {
  }

  /** The sorted and trimmed tagged roll of the misfire example. */
  lemma MisfireSorted(std: seq<int>, bmp: seq<int>)
    requires std == [2, 2] && bmp == [2]
    ensures ApplyTrim(Sort(Combined(std, bmp)), DropTop(1)) == [Entry(2, Standard), Entry(2, Standard)]
  {
    var combined := [Entry(2, Standard), Entry(2, Standard), Entry(2, Bump)];
    MisfireCombined(std, bmp);
    MisfireAlreadySorted(combined);
    assert combined[..2] == [Entry(2, Standard), Entry(2, Standard)];
  }

  lemma MisfireCombined(std: seq<int>, bmp: seq<int>)
    requires std == [2, 2] && bmp == [2]
    ensures Combined(std, bmp) == [Entry(2, Standard), Entry(2, Standard), Entry(2, Bump)]
  {
  }

  lemma MisfireAlreadySorted(combined: seq<Entry>)
    requires combined == [Entry(2, Standard), Entry(2, Standard), Entry(2, Bump)]
    ensures Sort(combined) == combined
  {
    assert Sorted(combined) by {
      forall i, j | 0 <= i < j < 3 ensures Le(combined[i], combined[j]) {
        assert combined[i].outcome == 2 && combined[j].outcome == 2;
        assert combined[i].pool == Standard || combined[j].pool == Bump;
      }
    }
    SortCharacterised(combined, combined);
  }

  /** The sorted and trimmed value roll of the misfire example. */
  lemma MisfireSortedValues(std: seq<int>, bmp: seq<int>)
    requires std == [2, 2] && bmp == [2]
    ensures ApplyTrim(SortValues(std + bmp), DropTop(1)) == [2, 2]
  {
    var values := std + bmp;
    assert values == [2, 2, 2];
    SortedValuesUnique(values, SortValues(values));
  }

  // ---------------------------------------------------------------------------
  // Explosions

  /** `_explosions_by_outcome`: empty for a non-positive limit; otherwise each
      face of the die maps to its explosion histogram, which the engine
      computes (`explosion` stands for it). */
  function ExplosionsByOutcome(die: Die, limit: real, explosion: int -> Die): (m: map<int, Die>)
    ensures limit <= 0.0 ==> m == map[]
    ensures limit > 0.0 ==> forall o :: o in m <==> o in die
    ensures forall o :: o in m ==> m[o] == explosion(o)
  {
    if limit <= 0.0 then map[] else map o | o in die :: explosion(o)
  }

  /** The delta `_aggregate_exploded_deltas` adds for one face: the explosion
      histogram of that face, or the constant 0 when it has none. */
  function ExplodedDelta(die: Die, limit: real, explosion: int -> Die, outcome: int): (d: Die)
    ensures limit > 0.0 && outcome in die ==> d == explosion(outcome)
    ensures limit <= 0.0 || outcome !in die ==> d == [0]
  {
    var m := ExplosionsByOutcome(die, limit, explosion);
    if outcome in m then m[outcome] else [0]
  }

  /** With a non-positive limit every face adds the constant 0, so the fudged
      result is the unexploded one. */
  lemma NoExplosionsWithoutLimit(die: Die, limit: real, explosion: int -> Die, outcome: int)
    requires limit <= 0.0
    ensures ExplodedDelta(die, limit, explosion, outcome) == [0]
  {
  }
}
