/** The parameter record of one bumpity-pool invocation (`Params` in
    params.py): pool sizes, the set die, the bonus dice, the extra dice, a
    comment and an optional override die.  Construction validates the fields
    and normalises the two extra-dice counts in place. */
module Params {
  import opened Common

  datatype Params = Params(
    numStd: int,
    numBmp: int,
    setDie: int,                   // zero-indexed into the ranked roll
    bonusDice: seq<int>,           // zero-indexed
    extraStd: int,
    extraBmp: int,
    comment: string,
    overrideDie: Option<Die>,
    overrideDieStr: Option<string>)
  {
    /** The number of dice that survive trimming: `num_std + num_bmp`. */
    function PoolSize(): int
    {
      numStd + numBmp
    }
  }

  /** The assertion of `__post_init__` that failed, with the offending value. */
  datatype ParamError =
    | SetDieOutsidePool(setDie: int)
    | NoStandardDice(numStd: int)
    | NegativeBumpPool(numBmp: int)
    | BonusDieOutsidePool(bonusDice: seq<int>)

  /** Every bonus-die index lies in [0, poolSize). */
  predicate BonusDiceInPool(bonusDice: seq<int>, poolSize: int)
  {
    forall i :: 0 <= i < |bonusDice| ==> 0 <= bonusDice[i] < poolSize
  }

  /** The invariant a constructed `Params` satisfies. */
  predicate Valid(p: Params)
  {
    && 0 <= p.setDie < p.PoolSize()
    && p.numStd >= 1
    && p.numBmp >= 0
    && p.extraStd >= 0 && p.extraBmp >= 0
    && (p.extraStd == 0 || p.extraBmp == 0)
    && BonusDiceInPool(p.bonusDice, p.PoolSize())
  }

  function Min(a: int, b: int): int { if a <= b then a else b }

  /** Construction of a `Params` (the dataclass constructor followed by
      `__post_init__`): the checks run in the source's order and the first
      one that fails names the error; on success the two extra counts are
      both reduced by their minimum. */
  function Construct(
    numStd: int, numBmp: int, setDie: int, bonusDice: seq<int>,
    extraStd: int, extraBmp: int, comment: string,
    overrideDie: Option<Die>, overrideDieStr: Option<string>): (r: Result<Params, ParamError>)
    ensures r.Success? <==>
      && 0 <= setDie < numStd + numBmp && numStd >= 1 && numBmp >= 0
      && BonusDiceInPool(bonusDice, numStd + numBmp)
    ensures r.Failure? && !(0 <= setDie < numStd + numBmp) ==> r.error == SetDieOutsidePool(setDie)
    ensures r.Failure? && 0 <= setDie < numStd + numBmp && numStd < 1 ==> r.error == NoStandardDice(numStd)
    ensures r.Failure? && 0 <= setDie < numStd + numBmp && numStd >= 1 && numBmp < 0
      ==> r.error == NegativeBumpPool(numBmp)
    ensures r.Failure? && 0 <= setDie < numStd + numBmp && numStd >= 1 && numBmp >= 0
      ==> r.error == BonusDieOutsidePool(bonusDice)
    ensures r.Success? ==> Valid(r.value)
    ensures r.Success? ==>
      && r.value.numStd == numStd && r.value.numBmp == numBmp && r.value.setDie == setDie
      && r.value.bonusDice == bonusDice && r.value.comment == comment
      && r.value.overrideDie == overrideDie && r.value.overrideDieStr == overrideDieStr
    ensures r.Success? ==> r.value.extraStd - r.value.extraBmp == extraStd - extraBmp
    ensures r.Success? && extraStd >= 0 && extraBmp >= 0 ==>
      r.value.extraStd <= extraStd && r.value.extraBmp <= extraBmp
  {
    var poolSize := numStd + numBmp;
    if !(0 <= setDie < poolSize) then Failure(SetDieOutsidePool(setDie))
    else if numStd < 1 then Failure(NoStandardDice(numStd))
    else if numBmp < 0 then Failure(NegativeBumpPool(numBmp))
    else
      var lowest := Min(extraStd, extraBmp);
      if !BonusDiceInPool(bonusDice, poolSize) then Failure(BonusDieOutsidePool(bonusDice))
      else Success(Params(numStd, numBmp, setDie, bonusDice, extraStd - lowest, extraBmp - lowest,
                          comment, overrideDie, overrideDieStr))
  }

  /** `__post_init__` as the source runs it: the assertions in order, then the
      two extra counts reduced in place by their minimum, then the
      normalisation check and the bonus-dice check. */
  method PostInit(raw: Params) returns (r: Result<Params, ParamError>)
    ensures r == Construct(raw.numStd, raw.numBmp, raw.setDie, raw.bonusDice, raw.extraStd,
                           raw.extraBmp, raw.comment, raw.overrideDie, raw.overrideDieStr)
  {
    var poolSize := raw.numStd + raw.numBmp;
    if !(0 <= raw.setDie < poolSize) {
      return Failure(SetDieOutsidePool(raw.setDie));
    }
    if raw.numStd < 1 {
      return Failure(NoStandardDice(raw.numStd));
    }
    if raw.numBmp < 0 {
      return Failure(NegativeBumpPool(raw.numBmp));
    }
    var extraStd, extraBmp := raw.extraStd, raw.extraBmp;
    var extraLowest := Min(extraStd, extraBmp);
    extraStd := extraStd - extraLowest;
    extraBmp := extraBmp - extraLowest;
    // the normalisation assertion cannot fail
    assert extraStd >= 0 && extraBmp >= 0 && (extraStd == 0 || extraBmp == 0);
    var i := 0;
    while i < |raw.bonusDice|
      invariant 0 <= i <= |raw.bonusDice|
      invariant BonusDiceInPool(raw.bonusDice[..i], poolSize)
    {
      if !(0 <= raw.bonusDice[i] < poolSize) {
        assert !BonusDiceInPool(raw.bonusDice, poolSize);
        return Failure(BonusDieOutsidePool(raw.bonusDice));
      }
      i := i + 1;
    }
    assert raw.bonusDice[..i] == raw.bonusDice;
    r := Success(raw.(extraStd := extraStd, extraBmp := extraBmp));
  }

  /** Normalisation leaves both extra counts non-negative with at least one of
      them zero, and their difference unchanged. */
  lemma NormalisedExtras(numStd: int, numBmp: int, setDie: int, bonusDice: seq<int>,
                         extraStd: int, extraBmp: int)
    requires Construct(numStd, numBmp, setDie, bonusDice, extraStd, extraBmp, "", None, None).Success?
    ensures var p := Construct(numStd, numBmp, setDie, bonusDice, extraStd, extraBmp, "", None, None).value;
      && p.extraStd >= 0 && p.extraBmp >= 0
      && (p.extraStd == 0 || p.extraBmp == 0)
      && p.extraStd == extraStd - Min(extraStd, extraBmp)
      && p.extraBmp == extraBmp - Min(extraStd, extraBmp)
  {
  }

  /** Normalisation is idempotent: constructing again from the normalised
      fields changes nothing. */
  lemma NormaliseIdempotent(p: Params)
    requires Valid(p)
    ensures Construct(p.numStd, p.numBmp, p.setDie, p.bonusDice, p.extraStd, p.extraBmp,
                      p.comment, p.overrideDie, p.overrideDieStr) == Success(p)
  {
  }

  /** Constructing with extras (a, b) gives the same record as constructing
      with (a - min(a, b), b - min(a, b)). */
  lemma NormaliseAbsorbsCommonPart(numStd: int, numBmp: int, setDie: int, bonusDice: seq<int>,
                                   a: int, b: int, comment: string,
                                   overrideDie: Option<Die>, overrideDieStr: Option<string>)
    ensures Construct(numStd, numBmp, setDie, bonusDice, a, b, comment, overrideDie, overrideDieStr)
         == Construct(numStd, numBmp, setDie, bonusDice, a - Min(a, b), b - Min(a, b),
                      comment, overrideDie, overrideDieStr)
  {
  }
}
