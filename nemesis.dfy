/** Nemesis combat: each round both sides roll a yang (attack) pool and a yin
    (defence) pool of d6s, a die succeeding when it shows at most the side's
    rating.  The hits one side delivers minus the blocks the other side makes
    are the chi the other side loses, never less than zero.  Combat ends once
    either side's chi drops below zero; a round in which nobody loses chi is a
    dead end.  A whole combat is modelled on a concrete sequence of rounds. */
module Nemesis {
  import opened Common

  /** The `Result` enumeration: LOSS is -1 and WIN is 1. */
  datatype Verdict = Loss | Win

  function VerdictValue(v: Verdict): (n: int)
    ensures n == 1 <==> v == Win
    ensures n == -1 <==> v == Loss
  {
    match v
    case Loss => -1
    case Win => 1
  }

  /** One side of the fight. */
  datatype Fighter = Fighter(yangPoolSize: nat, yinPoolSize: nat, rating: int, initialChi: int)

  /** The dice of one round: both pools of both sides. */
  datatype Round = Round(ourYang: seq<int>, ourYin: seq<int>, theirYang: seq<int>, theirYin: seq<int>)

  /** The dice of a round are the dice both sides' pools roll: each roll has
      as many dice as its pool. */
  predicate RoundFits(us: Fighter, them: Fighter, r: Round)
  {
    |r.ourYang| == us.yangPoolSize && |r.ourYin| == us.yinPoolSize &&
    |r.theirYang| == them.yangPoolSize && |r.theirYin| == them.yinPoolSize
  }

  /** The chi each side loses in one round. */
  datatype Losses = Losses(ours: nat, theirs: nat)

  /** Where a combat ends up: a verdict, a round in which nobody lost chi,
      or still undecided when the given rounds run out. */
  datatype Resolution = Decided(verdict: Verdict) | DeadEnd | Pending

  /** The number of dice of a pool showing at most `rating` (`d6.le(rating)`
      summed over the pool); an empty pool, which the source replaces by the
      constant 0, counts 0. */
  function Successes(roll: seq<int>, rating: int): (n: nat)
    ensures n <= |roll|
    ensures n == |roll| <==> forall i :: 0 <= i < |roll| ==> roll[i] <= rating
    ensures n == 0 <==> forall i :: 0 <= i < |roll| ==> roll[i] > rating
  {
    if roll == [] then 0
    else
      var rest := Successes(roll[1..], rating);
      assert forall i :: 1 <= i < |roll| ==> roll[i] == roll[1..][i - 1];
      (if roll[0] <= rating then 1 else 0) + rest
  }

  /** Hits delivered minus blocks made, pegged at zero. */
  function ChiLoss(hits: int, blocks: int): (l: nat)
    ensures l >= hits - blocks
    ensures l == 0 <==> hits <= blocks
    ensures hits >= blocks ==> l == hits - blocks
  {
    if hits - blocks > 0 then hits - blocks else 0
  }

  /** The chi both sides lose in a round: we lose their hits beyond our
      blocks, they lose our hits beyond their blocks.  A side never loses
      more chi in a round than the other side has yang dice. */
  function RoundLosses(us: Fighter, them: Fighter, r: Round): (l: Losses)
    ensures l.ours == ChiLoss(Successes(r.theirYang, them.rating), Successes(r.ourYin, us.rating))
    ensures l.theirs == ChiLoss(Successes(r.ourYang, us.rating), Successes(r.theirYin, them.rating))
    ensures l.ours <= |r.theirYang| && l.theirs <= |r.ourYang|
    ensures RoundFits(us, them, r) ==> l.ours <= them.yangPoolSize && l.theirs <= us.yangPoolSize
  {
    Losses(ChiLoss(Successes(r.theirYang, them.rating), Successes(r.ourYin, us.rating)),
           ChiLoss(Successes(r.ourYang, us.rating), Successes(r.theirYin, them.rating)))
  }

  /** The verdict once a side has dropped below zero chi. */
  function FinalVerdict(ourChi: int, theirChi: int): (v: Verdict)
    ensures v == Win <==> ourChi >= theirChi
    ensures ourChi < 0 <= theirChi ==> v == Loss
    ensures theirChi < 0 <= ourChi ==> v == Win
  {
    if ourChi >= theirChi then Win else Loss
  }

  /** The chi after a round, or None for a round in which neither side lost
      any chi.  The combined chi strictly falls on every step that is taken. */
  function Step(ourChi: int, theirChi: int, l: Losses): (next: Option<(int, int)>)
    ensures next == None <==> l.ours == 0 && l.theirs == 0
    ensures next.Some? ==> next.value.0 <= ourChi && next.value.1 <= theirChi
    ensures next.Some? ==> next.value.0 + next.value.1 < ourChi + theirChi
  {
    if l.ours != 0 || l.theirs != 0 then Some((ourChi - l.ours, theirChi - l.theirs)) else None
  }

  /** `_resolve_combat` followed along the given rounds. */
  function Resolve(us: Fighter, them: Fighter, ourChi: int, theirChi: int, rounds: seq<Round>): (r: Resolution)
    ensures ourChi < 0 || theirChi < 0 ==> r == Decided(FinalVerdict(ourChi, theirChi))
    ensures ourChi >= 0 && theirChi >= 0 && rounds == [] ==> r == Pending
    decreases |rounds|
  {
    if ourChi < 0 || theirChi < 0 then Decided(FinalVerdict(ourChi, theirChi))
    else if rounds == [] then Pending
    else
      match Step(ourChi, theirChi, RoundLosses(us, them, rounds[0]))
      case None => DeadEnd
      case Some(next) => Resolve(us, them, next.0, next.1, rounds[1..])
  }

  /** The whole combat from both sides' initial chi: a side entering below
      zero decides it at once, and one entering with chi left and no rounds
      to roll is still pending. */
  function Combat(us: Fighter, them: Fighter, rounds: seq<Round>): (r: Resolution)
    ensures us.initialChi < 0 || them.initialChi < 0 ==>
      r == Decided(FinalVerdict(us.initialChi, them.initialChi))
    ensures us.initialChi >= 0 && them.initialChi >= 0 && rounds == [] ==> r == Pending
  {
    Resolve(us, them, us.initialChi, them.initialChi, rounds)
  }

  /** With non-negative initial chi and no dead-end round, more rounds than
      the combined initial chi always bring the combat to a verdict. */
  lemma CombatDecided(us: Fighter, them: Fighter, rounds: seq<Round>)
    requires us.initialChi >= 0 && them.initialChi >= 0
    requires |rounds| > us.initialChi + them.initialChi
    requires Decisive(us, them, rounds)
    ensures Combat(us, them, rounds).Decided?
  {
    EnoughRoundsDecide(us, them, us.initialChi, them.initialChi, rounds);
  }

  /** No round is a dead end. */
  predicate Decisive(us: Fighter, them: Fighter, rounds: seq<Round>)
  {
    forall i :: 0 <= i < |rounds| ==> Step(0, 0, RoundLosses(us, them, rounds[i])).Some?
  }

  /** The recursion terminates: with non-negative chi and no dead-end round,
      more rounds than the combined chi always reach a verdict. */
  lemma {:induction false} EnoughRoundsDecide(us: Fighter, them: Fighter, ourChi: int, theirChi: int, rounds: seq<Round>)
    requires ourChi >= 0 && theirChi >= 0
    requires |rounds| > ourChi + theirChi
    requires Decisive(us, them, rounds)
    ensures Resolve(us, them, ourChi, theirChi, rounds).Decided?
  {
    var l := RoundLosses(us, them, rounds[0]);
    assert Step(0, 0, l).Some?;
    var next := Step(ourChi, theirChi, l).value;
    if next.0 >= 0 && next.1 >= 0 {
      assert Decisive(us, them, rounds[1..]) by {
        forall i | 0 <= i < |rounds[1..]|
          ensures Step(0, 0, RoundLosses(us, them, rounds[1..][i])).Some?
        {
          assert rounds[1..][i] == rounds[i + 1];
        }
      }
      EnoughRoundsDecide(us, them, next.0, next.1, rounds[1..]);
    }
  }

  /** A verdict is the comparison of the two sides' chi at the moment one of
      them dropped below zero, and that chi is no more than either side had
      when the combat was entered. */
  lemma {:induction false} VerdictIsFinalComparison(us: Fighter, them: Fighter, ourChi: int, theirChi: int, rounds: seq<Round>)
    requires Resolve(us, them, ourChi, theirChi, rounds).Decided?
    ensures exists o, t ::
              (o < 0 || t < 0) && o <= ourChi && t <= theirChi &&
              Resolve(us, them, ourChi, theirChi, rounds) == Decided(FinalVerdict(o, t))
  {
    if ourChi >= 0 && theirChi >= 0 {
      var next := Step(ourChi, theirChi, RoundLosses(us, them, rounds[0])).value;
      VerdictIsFinalComparison(us, them, next.0, next.1, rounds[1..]);
    }
  }

  /** A side that never loses chi never loses the combat: if we start with
      non-negative chi and they deliver no hits beyond our blocks, any verdict
      is a WIN. */
  lemma {:induction false} UnhurtSideWins(us: Fighter, them: Fighter, ourChi: int, theirChi: int, rounds: seq<Round>)
    requires ourChi >= 0
    requires forall i :: 0 <= i < |rounds| ==> RoundLosses(us, them, rounds[i]).ours == 0
    requires Resolve(us, them, ourChi, theirChi, rounds).Decided?
    ensures Resolve(us, them, ourChi, theirChi, rounds).verdict == Win
  {
    if theirChi >= 0 {
      var next := Step(ourChi, theirChi, RoundLosses(us, them, rounds[0])).value;
      assert next.0 == ourChi;
      assert forall i :: 0 <= i < |rounds[1..]| ==> rounds[1..][i] == rounds[i + 1];
      UnhurtSideWins(us, them, next.0, next.1, rounds[1..]);
    }
  }
}
