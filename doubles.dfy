/** The "2d6 plus a third die" contest: a roll of three dice scores net wins
    for us and for them.  Reaching the base target goes to us (and reaching an
    optional extra target as well is a second win), missing it goes to them;
    doubles and triples go to us; ones go to them. */
module Doubles {
  import opened Common

  /** The distinct outcomes of a roll (`set(roll)`). */
  function Distinct(roll: seq<int>): set<int>
  {
    set i | 0 <= i < |roll| :: roll[i]
  }

  /** The wins the target test hands out: exactly one of "ours" and "theirs"
      is non-zero; ours is 2 exactly when an extra target is given and the
      total reaches both targets. */
  function TargetWins(total: int, baseTarget: int, extraTarget: Option<int>): (w: (nat, nat))
    ensures (w.0 > 0) != (w.1 > 0)
    ensures w.1 == 1 <==> total < baseTarget
    ensures w.0 == 2 <==> extraTarget.Some? && total >= baseTarget && total >= extraTarget.value
    ensures w.0 <= 2 && w.1 <= 1
  {
    if total >= baseTarget then
      (if extraTarget.Some? && total >= extraTarget.value then (2, 0) else (1, 0))
    else (0, 1)
  }

  /** The wins doubles and triples give us: 3 minus the number of distinct
      outcomes of the three dice, so two for triples, none for three
      different dice and one otherwise. */
  function MatchWins(roll: seq<int>): (w: int)
    requires |roll| == 3
    ensures 0 <= w <= 2
    ensures w == 2 <==> roll[0] == roll[1] == roll[2]
    ensures w == 0 <==> roll[0] != roll[1] && roll[1] != roll[2] && roll[0] != roll[2]
  {
    DistinctOfThree(roll);
    3 - |Distinct(roll)|
  }

  /** The wins ones give them: every one with `count_ones`, otherwise one win
      if any die shows a one. */
  function OnesWins(roll: seq<int>, countOnes: bool): (n: nat)
    ensures countOnes ==> n == Count(roll, 1)
    ensures !countOnes ==> (n == 1 <==> 1 in roll) && n <= 1
  {
    if countOnes then Count(roll, 1) else if 1 in roll then 1 else 0
  }

  /** Our net wins: from 0 to 4, only the matches below the base target,
      and 4 exactly for a triple that reaches both targets. */
  function OurWins(roll: seq<int>, baseTarget: int, extraTarget: Option<int>): (w: int)
    requires |roll| == 3
    ensures 0 <= w <= 4
    ensures Sum(roll) < baseTarget ==> w == MatchWins(roll)
    ensures w == 4 <==>
      roll[0] == roll[1] == roll[2] && extraTarget.Some? && Sum(roll) >= baseTarget && Sum(roll) >= extraTarget.value
  {
    TargetWins(Sum(roll), baseTarget, extraTarget).0 + MatchWins(roll)
  }

  /** Their net wins: none exactly when the base target is reached and no
      die shows a one; at most 4 for three dice when every one counts, and
      at most 2 otherwise. */
  function TheirWins(roll: seq<int>, baseTarget: int, countOnes: bool): (w: int)
    ensures w >= 0
    ensures w == 0 <==> Sum(roll) >= baseTarget && 1 !in roll
    ensures |roll| == 3 ==> w <= (if countOnes then 4 else 2)
  {
    TargetWins(Sum(roll), baseTarget, None).1 + OnesWins(roll, countOnes)
  }

  /** The distinct outcomes of three dice number 1 when all three match, 3
      when all three differ, and 2 otherwise. */
  lemma DistinctOfThree(roll: seq<int>)
    requires |roll| == 3
    ensures |Distinct(roll)| == 1 <==> roll[0] == roll[1] == roll[2]
    ensures |Distinct(roll)| == 3 <==> roll[0] != roll[1] && roll[1] != roll[2] && roll[0] != roll[2]
    ensures 1 <= |Distinct(roll)| <= 3
  {
    var a, b, c := roll[0], roll[1], roll[2];
    assert Distinct(roll) == {a, b, c} by {
      forall x ensures x in Distinct(roll) <==> x in {a, b, c} {
        if x in Distinct(roll) {
          var i :| 0 <= i < 3 && roll[i] == x;
        } else {
          assert roll[0] != x && roll[1] != x && roll[2] != x;
        }
      }
    }
    if a == b && b == c {
      assert {a, b, c} == {a};
    } else if a == b {
      assert {a, b, c} == {a, c};
    } else if b == c {
      assert {a, b, c} == {a, b};
    } else if a == c {
      assert {a, b, c} == {a, b};
    } else {
      assert {a, b, c} == {a} + {b} + {c};
    }
  }

  /** `_eval`: the two counters start at zero and are bumped step by step. */
  method Eval(roll: seq<int>, baseTarget: int, extraTarget: Option<int>, countOnes: bool)
    returns (ourNetWins: int, theirNetWins: int)
    requires |roll| == 3
    ensures ourNetWins == OurWins(roll, baseTarget, extraTarget)
    ensures theirNetWins == TheirWins(roll, baseTarget, countOnes)
  {
    ourNetWins := 0;
    theirNetWins := 0;
    var rollTotal := Sum(roll);
    if rollTotal >= baseTarget {
      ourNetWins := ourNetWins + 1;
      if extraTarget.Some? && rollTotal >= extraTarget.value {
        ourNetWins := ourNetWins + 1;
      }
    } else {
      theirNetWins := theirNetWins + 1;
    }
    var distinctOutcomes := Distinct(roll);
    ourNetWins := ourNetWins + 3 - |distinctOutcomes|;
    if countOnes {
      theirNetWins := theirNetWins + Count(roll, 1);
    } else if 1 in roll {
      theirNetWins := theirNetWins + 1;
    }
  }
}
