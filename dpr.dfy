/** Damage per round for three kinds of contest: a player character attacking
    a fixed difficulty, a player character defending against a fixed attack,
    and two player characters rolling against each other.  Each side rolls a
    d20 plus a modifier plus an optional pool of d6s; every point by which the
    attack meets the defence is a hit, natural 20s and 1s override the count,
    and the damage is the hits (capped at the rate of fire) times the damage
    left after armour. */
module Dpr {
  import opened Common

  /** The outcome of an optional pool of d6s: a pool of size 0 is the
      constant 0, otherwise the sum of the dice. */
  function PoolOutcome(size: nat, roll: seq<int>): (r: int)
    requires |roll| == size
    ensures size == 0 ==> r == 0
    ensures (forall i :: 0 <= i < |roll| ==> 1 <= roll[i] <= 6) ==> size <= r <= 6 * size
  {
    if size == 0 then 0
    else
      assert (forall i :: 0 <= i < |roll| ==> 1 <= roll[i] <= 6) ==> size <= Sum(roll) <= 6 * size by {
        if forall i :: 0 <= i < |roll| ==> 1 <= roll[i] <= 6 { SumOfDice(roll); }
      }
      Sum(roll)
  }

  lemma {:induction false} SumOfDice(roll: seq<int>)
    requires forall i :: 0 <= i < |roll| ==> 1 <= roll[i] <= 6
    ensures |roll| <= Sum(roll) <= 6 * |roll|
  {
    if roll != [] {
      SumOfDice(roll[1..]);
    }
  }

  /** Every point by which the attack meets the defence is a hit. */
  function BaseHits(moddedTh: int, moddedDc: int): (h: nat)
    ensures moddedTh >= moddedDc ==> h == moddedTh - moddedDc + 1
    ensures moddedTh < moddedDc ==> h == 0
  {
    if moddedTh - moddedDc + 1 > 0 then moddedTh - moddedDc + 1 else 0
  }

  function Max(a: int, b: int): int { if a >= b then a else b }
  function Min(a: int, b: int): int { if a <= b then a else b }

  /** The hits of a player character attacking: a natural 20 scores at least
      one hit and a natural 1 none. */
  function AttackHits(thDie: int, thMod: int, thPool: int, dcTarget: int, dcPool: int): (h: nat)
    ensures thDie == 20 ==> h >= 1 && h >= BaseHits(thDie + thMod + thPool, dcTarget + dcPool)
    ensures thDie == 1 ==> h == 0
    ensures thDie != 1 ==> h >= BaseHits(thDie + thMod + thPool, dcTarget + dcPool)
    ensures thDie != 1 && thDie != 20 ==> h == BaseHits(thDie + thMod + thPool, dcTarget + dcPool)
  {
    var hits := BaseHits(thDie + thMod + thPool, dcTarget + dcPool);
    if thDie == 20 then Max(hits, 1)
    else if thDie == 1 then 0
    else hits
  }

  /** The hits against a player character defending: the defender's natural
      20 stops every hit and a natural 1 lets at least one through. */
  function DefendHits(dcDie: int, dcMod: int, dcPool: int, thTarget: int, thPool: int): (h: nat)
    ensures dcDie == 20 ==> h == 0
    ensures dcDie == 1 ==> h >= 1 && h >= BaseHits(thTarget + thPool, dcDie + dcMod + dcPool)
    ensures dcDie != 20 ==> h >= BaseHits(thTarget + thPool, dcDie + dcMod + dcPool)
    ensures dcDie != 1 && dcDie != 20 ==> h == BaseHits(thTarget + thPool, dcDie + dcMod + dcPool)
  {
    var hits := BaseHits(thTarget + thPool, dcDie + dcMod + dcPool);
    if dcDie == 20 then 0
    else if dcDie == 1 then Max(hits, 1)
    else hits
  }

  /** The crit-hit clause of the player-versus-player contest, with Python's
      `and` binding tighter than `or`. */
  predicate PvpCritHit(thDie: int, dcDie: int)
  {
    (thDie == 20 && dcDie != 20) || (thDie != 1 && dcDie == 1)
  }

  /** The crit-miss clause, tried only when the crit-hit clause fails. */
  predicate PvpCritMiss(thDie: int, dcDie: int)
  {
    (thDie == 1 && dcDie != 1) || (thDie != 20 && dcDie == 20)
  }

  /** The hits of one player character against another. */
  function PvpHits(thDie: int, thMod: int, thPool: int, dcDie: int, dcMod: int, dcPool: int): (h: nat)
    ensures PvpCritHit(thDie, dcDie) ==> h >= 1
    ensures !PvpCritHit(thDie, dcDie) && PvpCritMiss(thDie, dcDie) ==> h == 0
    ensures !PvpCritHit(thDie, dcDie) && !PvpCritMiss(thDie, dcDie) ==>
              h == BaseHits(thDie + thMod + thPool, dcDie + dcMod + dcPool)
    ensures !PvpCritMiss(thDie, dcDie) ==> h >= BaseHits(thDie + thMod + thPool, dcDie + dcMod + dcPool)
  {
    var hits := BaseHits(thDie + thMod + thPool, dcDie + dcMod + dcPool);
    if PvpCritHit(thDie, dcDie) then Max(hits, 1)
    else if PvpCritMiss(thDie, dcDie) then 0
    else hits
  }

  /** The damage of a round: hits capped at the rate of fire, times the
      damage left after armour. */
  function Damage(rof: int, hits: nat, dmg: int, arm: int): (d: int)
    ensures rof >= 0 ==> 0 <= d <= rof * Max(0, dmg - arm)
    ensures rof >= 0 ==> d <= hits * Max(0, dmg - arm)
    ensures dmg <= arm || (hits == 0 && rof >= 0) ==> d == 0
  {
    CappedProduct(rof, hits, Max(0, dmg - arm));
    Min(rof, hits) * Max(0, dmg - arm)
  }

  lemma CappedProduct(rof: int, hits: nat, k: nat)
    ensures rof >= 0 ==> 0 <= Min(rof, hits) * k <= rof * k
    ensures rof >= 0 ==> Min(rof, hits) * k <= hits * k
  {
    if rof >= 0 {
      if rof <= hits {
        assert Min(rof, hits) * k == rof * k;
        assert rof * k <= hits * k by { MultiplyMonotone(rof, hits, k); }
      } else {
        assert Min(rof, hits) * k == hits * k;
        MultiplyMonotone(hits, rof, k);
      }
    }
  }

  lemma MultiplyMonotone(a: int, b: int, k: nat)
    requires a <= b
    ensures a * k <= b * k
  {
    assert b * k - a * k == (b - a) * k;
  }

  /** `expected_dmg_frm_rnd_pc_attacks`' dependent term. */
  function PcAttacks(thMod: int, dcTarget: int, dmg: int, arm: int, rof: int,
                     thDie: int, thPoolOutcome: int, dcPoolOutcome: int): (d: int)
    ensures thDie == 1 && rof >= 0 ==> d == 0
    ensures thDie == 20 && rof >= 1 && dmg > arm ==> d >= dmg - arm
    ensures rof >= 0 ==> 0 <= d <= rof * Max(0, dmg - arm)
  {
    var hits := AttackHits(thDie, thMod, thPoolOutcome, dcTarget, dcPoolOutcome);
    assert Min(rof, hits) >= 1 && dmg > arm ==> Min(rof, hits) * (dmg - arm) >= dmg - arm by {
      if Min(rof, hits) >= 1 && dmg > arm { MultiplyMonotone(1, Min(rof, hits), dmg - arm); }
    }
    Damage(rof, hits, dmg, arm)
  }

  /** `expected_dmg_frm_rnd_pc_defends`' dependent term. */
  function PcDefends(dcMod: int, thTarget: int, dmg: int, arm: int, rof: int,
                     dcDie: int, dcPoolOutcome: int, thPoolOutcome: int): (d: int)
    ensures dcDie == 20 && rof >= 0 ==> d == 0
    ensures dcDie == 1 && rof >= 1 && dmg > arm ==> d >= dmg - arm
    ensures rof >= 0 ==> 0 <= d <= rof * Max(0, dmg - arm)
  {
    var hits := DefendHits(dcDie, dcMod, dcPoolOutcome, thTarget, thPoolOutcome);
    assert Min(rof, hits) >= 1 && dmg > arm ==> Min(rof, hits) * (dmg - arm) >= dmg - arm by {
      if Min(rof, hits) >= 1 && dmg > arm { MultiplyMonotone(1, Min(rof, hits), dmg - arm); }
    }
    Damage(rof, hits, dmg, arm)
  }

  /** `expected_dmg_frm_rnd_pc_v_pc`' dependent term. */
  function PcVsPc(thMod: int, dcMod: int, dmg: int, arm: int, rof: int,
                  thDie: int, thPoolOutcome: int, dcDie: int, dcPoolOutcome: int): (d: int)
    ensures rof >= 0 ==> 0 <= d <= rof * Max(0, dmg - arm)
    ensures thDie == 1 && dcDie == 20 && rof >= 0 ==> d == 0
  {
    var hits := PvpHits(thDie, thMod, thPoolOutcome, dcDie, dcMod, dcPoolOutcome);
    Damage(rof, hits, dmg, arm)
  }

  /** The player-versus-player overrides: a natural 20 against anything but a
      natural 20 always hits, a natural 1 against anything but a natural 1
      always misses, and when both dice show the same natural 20 or natural
      1 neither override fires and the modifiers decide. */
  lemma PvpOverrides(thDie: int, dcDie: int)
    requires 1 <= thDie <= 20 && 1 <= dcDie <= 20
    ensures thDie == 20 && dcDie != 20 ==> PvpCritHit(thDie, dcDie)
    ensures dcDie == 1 && thDie != 1 ==> PvpCritHit(thDie, dcDie)
    ensures thDie == 1 && dcDie != 1 ==> !PvpCritHit(thDie, dcDie) && PvpCritMiss(thDie, dcDie)
    ensures dcDie == 20 && thDie != 20 ==> !PvpCritHit(thDie, dcDie) && PvpCritMiss(thDie, dcDie)
    ensures thDie == dcDie && (thDie == 1 || thDie == 20) ==> !PvpCritHit(thDie, dcDie) && !PvpCritMiss(thDie, dcDie)
    ensures PvpCritHit(thDie, dcDie) || PvpCritMiss(thDie, dcDie) <==>
              (thDie == 20 || thDie == 1 || dcDie == 20 || dcDie == 1) && !(thDie == dcDie && (thDie == 1 || thDie == 20))
  {
  }

  /** A better attack modifier never gives fewer hits, in every contest. */
  lemma HitsMonotone(thDie: int, dcDie: int, pool: int, otherPool: int, target: int, mod1: int, mod2: int)
    requires mod1 <= mod2
    ensures AttackHits(thDie, mod1, pool, target, otherPool) <= AttackHits(thDie, mod2, pool, target, otherPool)
    ensures DefendHits(dcDie, mod2, pool, target, otherPool) <= DefendHits(dcDie, mod1, pool, target, otherPool)
    ensures PvpHits(thDie, mod1, pool, dcDie, target, otherPool) <= PvpHits(thDie, mod2, pool, dcDie, target, otherPool)
    ensures PvpHits(thDie, target, pool, dcDie, mod2, otherPool) <= PvpHits(thDie, target, pool, dcDie, mod1, otherPool)
  {
  }

  /** More hits never mean less damage, for a non-negative rate of fire. */
  lemma DamageMonotone(rof: int, hits1: nat, hits2: nat, dmg: int, arm: int)
    requires rof >= 0 && hits1 <= hits2
    ensures Damage(rof, hits1, dmg, arm) <= Damage(rof, hits2, dmg, arm)
  {
    MultiplyMonotone(Min(rof, hits1), Min(rof, hits2), Max(0, dmg - arm));
  }
}
