/** Year Zero dice with half successes: a six-sided die shows a bane, blanks,
    and a success; the modified die turns one blank into a half success.  A
    roll scores its successes and its banes; a push re-rolls every blank die
    once, with the same die, and adds what the re-roll scores.  Successes are
    kept in exact half-units (twice the number of successes) instead of the
    source's floats. */
module YearZero {
  import opened Common

  /** The `YearZeroOutcomes` enumeration: BANE -1, BLANK 0, HALF_SUCCESS 1,
      FULL_SUCCESS 2. */
  datatype Face = Bane | Blank | HalfSuccess | FullSuccess

  function FaceValue(f: Face): (v: int)
    ensures -1 <= v <= 2
    ensures v == -1 <==> f == Bane
    ensures v == 0 <==> f == Blank
    ensures v == 1 <==> f == HalfSuccess
    ensures v == 2 <==> f == FullSuccess
  {
    match f
    case Bane => -1
    case Blank => 0
    case HalfSuccess => 1
    case FullSuccess => 2
  }

  /** A die as the list of its faces. */
  type YzDie = seq<Face>

  /** The legacy die: a bane, four blanks and a success. */
  const LegacyDie: YzDie := [Bane, Blank, Blank, Blank, Blank, FullSuccess]

  /** The modified die: a bane, three blanks, a half success and a success. */
  const ModifiedDie: YzDie := [Bane, Blank, Blank, Blank, HalfSuccess, FullSuccess]

  /** `count_successes` of one roll, in half-units: a half success counts 1
      and a full success 2. */
  function SuccessHalves(roll: seq<Face>): (h: nat)
    ensures h <= 2 * |roll|
  {
    CountBound(roll);
    Count(roll, HalfSuccess) + 2 * Count(roll, FullSuccess)
  }

  /** The face values of a roll's successes, summed: each half success adds
      its value 1 and each full success its value 2. */
  function SuccessValues(roll: seq<Face>): int
  {
    if roll == [] then 0
    else (if FaceValue(roll[0]) > 0 then FaceValue(roll[0]) else 0) + SuccessValues(roll[1..])
  }

  /** In half-units the successes of a roll are the sum of its positive face
      values, since HALF_SUCCESS is 1 and FULL_SUCCESS is 2. */
  lemma {:induction false} SuccessHalvesAreFaceValues(roll: seq<Face>)
    ensures SuccessHalves(roll) == SuccessValues(roll)
  {
    if roll != [] {
      SuccessHalvesAreFaceValues(roll[1..]);
      assert roll == [roll[0]] + roll[1..];
      CountAppend([roll[0]], roll[1..], HalfSuccess);
      CountAppend([roll[0]], roll[1..], FullSuccess);
    }
  }

  lemma {:induction false} CountBound(roll: seq<Face>)
    ensures Count(roll, HalfSuccess) + Count(roll, FullSuccess) <= |roll|
  {
    if roll != [] {
      CountBound(roll[1..]);
      assert roll == [roll[0]] + roll[1..];
      CountAppend([roll[0]], roll[1..], HalfSuccess);
      CountAppend([roll[0]], roll[1..], FullSuccess);
    }
  }

  /** `count_banes` of one roll. */
  function Banes(roll: seq<Face>): (n: nat)
    ensures n <= |roll|
  {
    Count(roll, Bane)
  }

  /** Every die of the roll shows a face of `die`. */
  predicate RolledWith(roll: seq<Face>, die: YzDie)
  {
    forall i :: 0 <= i < |roll| ==> roll[i] in die
  }

  /** With the legacy die the successes are always a whole number. */
  lemma {:induction false} LegacySuccessesWhole(roll: seq<Face>)
    requires RolledWith(roll, LegacyDie)
    ensures SuccessHalves(roll) % 2 == 0
    ensures SuccessHalves(roll) == 2 * Count(roll, FullSuccess)
  {
    if roll != [] {
      assert roll[0] != HalfSuccess;
      assert RolledWith(roll[1..], LegacyDie) by {
        forall i | 0 <= i < |roll[1..]| ensures roll[1..][i] in LegacyDie {
          assert roll[1..][i] == roll[i + 1];
        }
      }
      LegacySuccessesWhole(roll[1..]);
      assert roll == [roll[0]] + roll[1..];
      CountAppend([roll[0]], roll[1..], FullSuccess);
      CountAppend([roll[0]], roll[1..], HalfSuccess);
    }
  }

  /** Why a push cannot be evaluated: the source asserts a homogeneous pool. */
  datatype PushError = NotHomogeneous

  /** A pool of dice, one die per position; homogeneous when all are the
      same die (an empty pool is homogeneous). */
  predicate Homogeneous(pool: seq<YzDie>)
  {
    forall i :: 0 <= i < |pool| ==> pool[i] == pool[0]
  }

  /** How many dice a push re-rolls: the blanks of the first roll. */
  function Rerolled(first: seq<Face>): (n: nat)
    ensures n <= |first|
    ensures n == 0 <==> Blank !in first
  {
    Count(first, Blank)
  }

  /** The re-roll fits the push: one die per blank, rolled with the pool's
      (first) die. */
  predicate PushFits(pool: seq<YzDie>, first: seq<Face>, reroll: seq<Face>)
  {
    |reroll| == Rerolled(first) && (|pool| > 0 ==> RolledWith(reroll, pool[0]))
  }

  /** `count_successes_with_push`'s step on one roll: without blanks the
      first roll's successes stand, otherwise the re-roll's are added. */
  function PushSuccessHalves(pool: seq<YzDie>, first: seq<Face>, reroll: seq<Face>): (r: Result<nat, PushError>)
    requires PushFits(pool, first, reroll)
    ensures !Homogeneous(pool) <==> r == Failure(NotHomogeneous)
    ensures r.Success? ==> r.value == SuccessHalves(first) + SuccessHalves(reroll)
    ensures r.Success? ==> r.value >= SuccessHalves(first)
    ensures r.Success? && Rerolled(first) == 0 ==> r.value == SuccessHalves(first)
  {
    var successes := SuccessHalves(first);
    if !Homogeneous(pool) then Failure(NotHomogeneous)
    else if Rerolled(first) != 0 then Success(SuccessHalves(reroll) + successes)
    else Success(successes)
  }

  /** `count_banes_with_push`'s step on one roll. */
  function PushBanes(pool: seq<YzDie>, first: seq<Face>, reroll: seq<Face>): (r: Result<nat, PushError>)
    requires PushFits(pool, first, reroll)
    ensures !Homogeneous(pool) <==> r == Failure(NotHomogeneous)
    ensures r.Success? ==> r.value == Banes(first) + Banes(reroll)
    ensures r.Success? ==> r.value >= Banes(first)
    ensures r.Success? && Rerolled(first) == 0 ==> r.value == Banes(first)
  {
    var banes := Banes(first);
    if !Homogeneous(pool) then Failure(NotHomogeneous)
    else if Rerolled(first) != 0 then Success(Banes(reroll) + banes)
    else Success(banes)
  }

  /** The first roll with its blank dice taken out. */
  function NonBlank(roll: seq<Face>): (r: seq<Face>)
    ensures Blank !in r
    ensures |r| == |roll| - Count(roll, Blank)
  {
    if roll == [] then []
    else
      assert roll == [roll[0]] + roll[1..];
      CountAppend([roll[0]], roll[1..], Blank);
      (if roll[0] == Blank then [] else [roll[0]]) + NonBlank(roll[1..])
  }

  /** The pool after the push, as a player would read it off the table: the
      dice that were kept, and the re-rolled ones in place of the blanks. */
  function PushedRoll(first: seq<Face>, reroll: seq<Face>): (r: seq<Face>)
    ensures |reroll| == Rerolled(first) ==> |r| == |first|
  {
    NonBlank(first) + reroll
  }

  /** Taking out blanks leaves every other face's count alone. */
  lemma {:induction false} NonBlankCount(roll: seq<Face>, f: Face)
    requires f != Blank
    ensures Count(NonBlank(roll), f) == Count(roll, f)
  {
    if roll != [] {
      NonBlankCount(roll[1..], f);
      var head := if roll[0] == Blank then [] else [roll[0]];
      assert roll == [roll[0]] + roll[1..];
      CountAppend(head, NonBlank(roll[1..]), f);
      CountAppend([roll[0]], roll[1..], f);
    }
  }

  /** Taking out blanks changes neither the successes nor the banes. */
  lemma NonBlankKeepsScores(roll: seq<Face>)
    ensures SuccessHalves(NonBlank(roll)) == SuccessHalves(roll)
    ensures Banes(NonBlank(roll)) == Banes(roll)
  {
    NonBlankCount(roll, HalfSuccess);
    NonBlankCount(roll, FullSuccess);
    NonBlankCount(roll, Bane);
  }

  lemma ScoresAppend(a: seq<Face>, b: seq<Face>)
    ensures SuccessHalves(a + b) == SuccessHalves(a) + SuccessHalves(b)
    ensures Banes(a + b) == Banes(a) + Banes(b)
  {
    CountAppend(a, b, HalfSuccess);
    CountAppend(a, b, FullSuccess);
    CountAppend(a, b, Bane);
  }

  /** The pushed pool scores what the first roll and the re-roll score
      together, since the blanks it drops score nothing. */
  lemma PushedRollScores(first: seq<Face>, reroll: seq<Face>)
    ensures SuccessHalves(PushedRoll(first, reroll)) == SuccessHalves(first) + SuccessHalves(reroll)
    ensures Banes(PushedRoll(first, reroll)) == Banes(first) + Banes(reroll)
  {
    NonBlankKeepsScores(first);
    ScoresAppend(NonBlank(first), reroll);
  }

  /** Adding the re-roll's successes to the first roll's, as the source
      does, scores the pushed pool as a whole. */
  lemma PushSuccessesScorePushedRoll(pool: seq<YzDie>, first: seq<Face>, reroll: seq<Face>)
    requires PushFits(pool, first, reroll) && Homogeneous(pool)
    ensures PushSuccessHalves(pool, first, reroll) == Success(SuccessHalves(PushedRoll(first, reroll)))
  {
    PushedRollScores(first, reroll);
  }

  /** Likewise for banes. */
  lemma PushBanesScorePushedRoll(pool: seq<YzDie>, first: seq<Face>, reroll: seq<Face>)
    requires PushFits(pool, first, reroll) && Homogeneous(pool)
    ensures PushBanes(pool, first, reroll) == Success(Banes(PushedRoll(first, reroll)))
  {
    PushedRollScores(first, reroll);
  }

  /** With the legacy die a push still scores whole successes. */
  lemma LegacyPushWhole(pool: seq<YzDie>, first: seq<Face>, reroll: seq<Face>)
    requires |pool| > 0 && pool[0] == LegacyDie
    requires PushFits(pool, first, reroll) && Homogeneous(pool)
    requires RolledWith(first, LegacyDie)
    ensures PushSuccessHalves(pool, first, reroll).value % 2 == 0
  {
    LegacySuccessesWhole(first);
    LegacySuccessesWhole(reroll);
  }
}
