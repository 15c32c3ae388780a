# Dice calculators of dyce-notebooks, modelled in Dafny

The notebooks answer dice questions with the `dyce` and `icepool` libraries.
This project models the game logic those notebooks hand to the libraries.
Each callback becomes a Dafny function or method on one concrete roll.
The libraries' probability machinery is left out.

- **Bumpity pool** (`params.py`, `dyce_impl.py`, `icepool_impl.py`):
  - The `Params` record: construction, validation and normalisation of the extra dice.
  - Its one-line notation: the `NOTATION_RE`/`BONUS_RE` grammar, the line parser, the line-by-line generator and the `__str__` rendering it reads back.
  - The mechanic. Standard and bump dice are tagged, sorted and trimmed to the pool size. The set die is then checked. A bump die moves the check up one rank, and past the top it wraps to the lowest die and adds the set die. Finally the bonus dice are added.
  - The notebooks' value-based variant of the mechanic.
  - The icepool evaluator: a class whose `next_state` folds the outcomes in evaluation order and whose `final_outcome` slices and scores.
  - The explosion map when the limit is not positive.
- **Neon City Overdrive**: the three formulations of action dice against danger dice (`nco_karonen`, `nco_carcer`, `nco_so_dangerous`).
- **Nemesis**: combat rounds of yang and yin pools against a rating, resolved until one side's chi drops below zero.
- **Doubles on 2d6 + d**: net wins from a target, from matches and from ones.
- **DPR**: hits and damage for PC attacks, PC defends and PvP, with the 1/20 critical overrides (`dpr.py`, `calc.py`).
- **Expected damage**:
  - clamping outcomes (`_limit`, `bounds`);
  - to-hit classification with the normal, improved and superior critical tables;
  - the two damage formulas.
- **Degrading target**: the try number at which a die first meets a target that drops each try, in the non-performant, performant and customizable forms.
- **Year Zero and a half**: successes in half-units, banes, and a push that re-rolls blanks.

Modules:

| file | module |
|---|---|
| common.dfy | `Common` |
| params.dfy | `Params` |
| notation.dfy | `Notation` |
| ranked.dfy | `Ranked` |
| dyce_mechanic.dfy | `DyceMechanic` |
| icepool_mechanic.dfy | `Icepool` |
| neon_city.dfy | `NeonCity` |
| nemesis.dfy | `Nemesis` |
| doubles.dfy | `Doubles` |
| dpr.dfy | `Dpr` |
| expected_damage.dfy | `ExpectedDamage` |
| degrading_target.dfy | `DegradingTarget` |
| year_zero.dfy | `YearZero` |

`Common` holds the shared pieces:
- `Option` and `Result`;
- a die as the list of its faces;
- `Count` and `Sum`.

`Ranked` holds:
- the tagged entries `(outcome, pool)`, with standard ranked before bump;
- an insertion sort, whose result is proved to be the unique sorted permutation.

## Model

| member | source | states |
|---|---|---|
| Common.Faces | notebooks/stack-exchange/expected-dmg-200447/expected_damage.py:14 | `H(n)` is the die with faces 1..n, in order |
| Common.Count | files/stack-exchange/year-zero-and-a-half-201331/year_zero_and_a_half.py:56-60 | the count of a value in a roll is its multiplicity in the roll's multiset, at most the roll's length |
| Common.SumAppend | files/github/bumpity-pool-posita-dyce-12/dyce_impl.py:78-82 | a total over a concatenated roll is the sum of the two parts' totals |
| Common.CountAppend | files/stack-exchange/year-zero-and-a-half-201331/year_zero_and_a_half.py:56-60 | counts over a concatenation add up |
| Params.Construct | files/github/bumpity-pool-posita-dyce-12/params.py:106-131 | construction succeeds exactly when the set die lies in the pool, at least one standard die is given, the bump pool is not negative and every bonus die lies in the pool; the first failing check names the error; on success the fields are kept, the record is valid, the extras keep their difference and neither grows; the same holds for notebooks/github/bumpity-pool-posita-dyce-12/params.py:106-131 |
| Params.PostInit | files/github/bumpity-pool-posita-dyce-12/params.py:106-131 | the in-place `__post_init__`, assertion by assertion, gives exactly the result `Construct` specifies |
| Params.NormalisedExtras | files/github/bumpity-pool-posita-dyce-12/params.py:118-128 | after normalisation both extras are non-negative, one of them is zero, and each has lost `min(extra_std, extra_bmp)` |
| Params.NormaliseIdempotent | files/github/bumpity-pool-posita-dyce-12/params.py:118-122 | constructing again from a valid record returns that record unchanged |
| Params.NormaliseAbsorbsCommonPart | files/github/bumpity-pool-posita-dyce-12/params.py:120-122 | extras (a, b) and (a − min, b − min) construct the same record |
| Notation.NatToStringValue | files/github/bumpity-pool-posita-dyce-12/params.py:62-64 | `int(str(n)) == n` for the decimal text `__str__` writes |
| Notation.SpanDigits | files/github/bumpity-pool-posita-dyce-12/params.py:26-31 | `\d*` splits a string into a maximal run of digits and the rest, which together are the input |
| Notation.PositiveInt | files/github/bumpity-pool-posita-dyce-12/params.py:27 | `\+?[1-9]\d*` consumes at least one character and yields a value of at least 1 |
| Notation.BumpCount | files/github/bumpity-pool-posita-dyce-12/params.py:28 | the bump count `(?:\+?[1-9]\d*)?\d` consumes at least one character |
| Notation.FirstClose | files/github/bumpity-pool-posita-dyce-12/params.py:26 | the override group ends at the first `]` after its start, and no `]` lies before it |
| Notation.SkipSpace | files/github/bumpity-pool-posita-dyce-12/params.py:26-33 | `\s*` leaves a string that does not start with white space and is no longer than its input |
| Notation.SkipSpaceSuffix | files/github/bumpity-pool-posita-dyce-12/params.py:26-33 | what `\s*` leaves is a suffix of its input |
| Notation.Strip | files/github/bumpity-pool-posita-dyce-12/params.py:48 | `str.strip` leaves a text no longer than its input with no white space at either end, and leaves a text that has none there unchanged |
| Notation.MatchNotation | files/github/bumpity-pool-posita-dyce-12/params.py:23-36 | a match needs a non-empty line; the override group is captured exactly when the line opens with `[`; the counts and one-indexed set position are at least 1, at most one of `<`/`>` is given and it is at least 1, every bonus position is at least 1, and the comment holds no newline |
| Notation.BonusDiceAsWritten | files/github/bumpity-pool-posita-dyce-12/params.py:65-68 | `BONUS_RE.findall` turns each unsigned bonus position into a zero-indexed bonus die and drops every signed one: all positions survive exactly when none is signed, and then the result is the corrected reading's |
| Notation.BonusDice | files/github/bumpity-pool-posita-dyce-12/params.py:37-39 | corrected reading: every bonus position the line names, signed or not, becomes a zero-indexed bonus die, in order |
| Notation.Build | files/github/bumpity-pool-posita-dyce-12/params.py:58-93 | the `try` block yields only valid records; a missing override name or a failed construction skips the line |
| Notation.ParseLine | files/github/bumpity-pool-posita-dyce-12/params.py:47-95 | one line as the program parses it, with `BONUS_RE` as written: a blank line is skipped and every record a line yields is valid |
| Notation.ParseLineIntended | files/github/bumpity-pool-posita-dyce-12/params.py:47-95 | the same line parse with every bonus position kept: a blank line is skipped and every record is valid |
| Notation.SplitLines | files/github/bumpity-pool-posita-dyce-12/params.py:47 | `s.split("\n")` gives at least one line, none contains a newline, and joining them with newlines gives `s` back |
| Notation.ParseLinesAt | files/github/bumpity-pool-posita-dyce-12/params.py:47-95 | the verdict on the k-th line depends on that line alone |
| Notation.ParseLinesAppend | files/github/bumpity-pool-posita-dyce-12/params.py:47-95 | the verdicts on two batches of lines are the verdicts on each batch, concatenated |
| Notation.Kept | files/github/bumpity-pool-posita-dyce-12/params.py:91-95 | every yielded record comes from a line that parsed |
| Notation.KeptAppend | files/github/bumpity-pool-posita-dyce-12/params.py:91-95 | keeping the parsed records distributes over concatenation |
| Notation.Accepted | files/github/bumpity-pool-posita-dyce-12/params.py:41-95 | the generator, with `BONUS_RE` as written, yields at most one record per line and only valid ones |
| Notation.ParseFromNotation | files/github/bumpity-pool-posita-dyce-12/params.py:41-95 | the loop over the lines yields, in order, the records of the lines that parse, with `BONUS_RE` as written |
| Notation.AcceptedAppend | files/github/bumpity-pool-posita-dyce-12/params.py:47-95 | the records of two batches of text are the records of each batch, one after the other |
| Notation.SkippedLine | files/github/bumpity-pool-posita-dyce-12/params.py:91-93 | a line that fails to parse is dropped and does not stop the lines after it |
| Notation.AcceptedOfSkipped | files/github/bumpity-pool-posita-dyce-12/params.py:50-56 | a line that does not parse yields nothing |
| Notation.MatchNotationOfText | files/github/bumpity-pool-posita-dyce-12/params.py:23-36 | `NOTATION_RE` matches the rendering of a valid record and captures its counts, its one-indexed positions, its extras and its comment |
| Notation.BuildOfCaptures | files/github/bumpity-pool-posita-dyce-12/params.py:58-90 | building from the captures of a rendered record gives that record back |
| Notation.RenderParseRoundTrip | files/github/bumpity-pool-posita-dyce-12/params.py:97-104 | parsing the `__str__` text of a valid record without an override die and with a plain comment gives the same record; the same holds for notebooks/github/bumpity-pool-posita-dyce-12/params.py:97-104 |
| Notation.Render | files/github/bumpity-pool-posita-dyce-12/params.py:97-104 | `__str__` never starts with white space; it opens with `[` exactly when a non-empty override name is set; a non-empty comment ends the text after two spaces and `# ` |
| Notation.ExtrasText | files/github/bumpity-pool-posita-dyce-12/params.py:100-104 | `extra_std or extra_bmp`: empty exactly when both extras are 0, `<n` for extra standard dice, otherwise `>n` for extra bump dice |
| Notation.SignedBonusMatched | files/github/bumpity-pool-posita-dyce-12/params.py:31 | `NOTATION_RE` accepts `1s0b@1+@+1`, capturing one signed bonus position |
| Notation.SignedBonusDropped | files/github/bumpity-pool-posita-dyce-12/params.py:37-39 | as written, `BONUS_RE` has no `\+?`, so `1s0b@1+@+1` yields a record without bonus dice |
| Notation.SignedBonusKept | files/github/bumpity-pool-posita-dyce-12/params.py:31 | with signed positions kept (`ParseLineIntended`), the same line names die 1 as a bonus die |
| Ranked.PoolValue | files/github/bumpity-pool-posita-dyce-12/dyce_impl.py:18-23 | `Pool.STANDARD` is 1 and `Pool.BUMP` is 2, so a standard die ranks below a bump die of the same outcome |
| Ranked.LeTotal | files/github/bumpity-pool-posita-dyce-12/dyce_impl.py:62 | the order of tagged dice, by outcome and then by pool, is total and antisymmetric |
| Ranked.Tag | files/github/bumpity-pool-posita-dyce-12/dyce_impl.py:57-60 | tagging keeps the roll's outcomes in order and marks every die with its pool |
| Ranked.Sort | files/github/bumpity-pool-posita-dyce-12/dyce_impl.py:62 | `sorted` returns a sorted permutation of its input |
| Ranked.SortedUnique | files/github/bumpity-pool-posita-dyce-12/dyce_impl.py:62 | two sorted permutations of the same dice are equal |
| Ranked.SortCharacterised | files/github/bumpity-pool-posita-dyce-12/dyce_impl.py:62 | any sorted permutation of the dice is what `sorted` returns |
| Ranked.SortValues | notebooks/github/bumpity-pool-posita-dyce-12/dyce_impl.py:51 | sorting plain outcomes gives a sorted permutation |
| Ranked.SortedValuesUnique | notebooks/github/bumpity-pool-posita-dyce-12/dyce_impl.py:51 | two sorted permutations of the same outcomes are equal |
| Ranked.OutcomesOfSort | notebooks/github/bumpity-pool-posita-dyce-12/dyce_impl.py:51 | the outcomes of the sorted tagged roll are the sorted outcomes |
| DyceMechanic.MakeSetup | files/github/bumpity-pool-posita-dyce-12/dyce_impl.py:39-51 | extras are clamped to the pool size. With extra standard dice the pool keeps the lowest dice and the bonus is −2 per extra die the clamp removed. With extra bump dice it keeps the highest dice and the bonus is +2 per extra die the clamp removed. Otherwise it keeps everything and the bonus is 0; the same holds for notebooks/github/bumpity-pool-posita-dyce-12/dyce_impl.py:25-37 |
| DyceMechanic.ApplyTrim | files/github/bumpity-pool-posita-dyce-12/dyce_impl.py:63 | the slice drops the top or the bottom `count` dice, or none |
| DyceMechanic.Combined | files/github/bumpity-pool-posita-dyce-12/dyce_impl.py:57-60 | the tagged roll holds every standard die, tagged standard, followed by every bump die, tagged bump |
| DyceMechanic.BonusSum | files/github/bumpity-pool-posita-dyce-12/dyce_impl.py:78-82 | the bonus total is not negative on non-negative dice and is at least the number of bonus dice on dice showing at least 1 |
| DyceMechanic.CheckOutcome | files/github/bumpity-pool-posita-dyce-12/dyce_impl.py:65-70 | the checked outcome is one of the roll's dice; it is the set die's for a standard set die and, on a sorted roll without a wrap, never below it |
| DyceMechanic.RankedTotal | files/github/bumpity-pool-posita-dyce-12/dyce_impl.py:65-82 | per case: a standard set die scores itself, a bump set die the die one rank up, and a bump set die at the top the lowest die plus itself; the bonus dice are added in every case |
| DyceMechanic.DyceTotal | files/github/bumpity-pool-posita-dyce-12/dyce_impl.py:56-82 | the total of the sorted, trimmed roll: with no extras the whole sorted roll, with extra standard dice the lowest pool-size dice less 2 per clamped die, with extra bump dice the highest pool-size dice plus 2 per clamped die |
| DyceMechanic.RankedRoll | files/github/bumpity-pool-posita-dyce-12/dyce_impl.py:57-64 | the ranked roll holds exactly pool-size dice (the `assert` at line 64 cannot fail) |
| DyceMechanic.RankedRollShape | files/github/bumpity-pool-posita-dyce-12/dyce_impl.py:57-63 | the ranked roll is sorted and is a sub-multiset of the rolled dice |
| DyceMechanic.TrimKeepsOneEnd | files/github/bumpity-pool-posita-dyce-12/dyce_impl.py:43-51 | with extra standard dice the lowest pool-size dice are kept, otherwise the highest |
| DyceMechanic.CheckIndex | files/github/bumpity-pool-posita-dyce-12/dyce_impl.py:65-70 | a standard set die is checked itself. A bump set die moves the check up one rank, and from the top it wraps to index 0 |
| DyceMechanic.CheckMovesIffBump | files/github/bumpity-pool-posita-dyce-12/dyce_impl.py:65-70 | the check die differs from the set die exactly when the set die is a bump die in a pool of two or more |
| DyceMechanic.WrapIffTopBump | files/github/bumpity-pool-posita-dyce-12/dyce_impl.py:74-76 | the set die is added for a wrap exactly when it is the top die of at least two and a bump die |
| DyceMechanic.BonusSumOfRepeated | files/github/bumpity-pool-posita-dyce-12/dyce_impl.py:78-82 | naming the same bonus die n times adds its outcome n times |
| DyceMechanic.Mechanic | files/github/bumpity-pool-posita-dyce-12/dyce_impl.py:56-82 | the loop-based `_mechanic` computes the total of check die, wrap, bonus dice and extra bonus that the ranked roll specifies (the notebooks copy of `_mechanic` is the value-based DyceMechanic.MechanicByValue) |
| DyceMechanic.TotalIgnoresDiceOrder | files/github/bumpity-pool-posita-dyce-12/dyce_impl.py:56-62 | the ranked roll and the total depend only on the multisets of standard and bump dice, not on the order they arrive in |
| DyceMechanic.ValueRoll | notebooks/github/bumpity-pool-posita-dyce-12/dyce_impl.py:51-53 | the value-sorted, trimmed roll is sorted and holds pool-size outcomes |
| DyceMechanic.ValueCheckIndex | notebooks/github/bumpity-pool-posita-dyce-12/dyce_impl.py:56-60 | the check moves up one rank, wrapping, exactly when the set die's outcome is among the bump dice's outcomes |
| DyceMechanic.ValueTotal | notebooks/github/bumpity-pool-posita-dyce-12/dyce_impl.py:42-70 | per case: a set outcome not among the bump dice scores itself; one among them scores the die one rank up, or from the top the lowest die plus itself; bonus dice and extra bonus are added |
| DyceMechanic.MechanicByValue | notebooks/github/bumpity-pool-posita-dyce-12/dyce_impl.py:42-70 | the value-based loop computes the value-based total |
| DyceMechanic.ValueRollIsOutcomes | notebooks/github/bumpity-pool-posita-dyce-12/dyce_impl.py:45-53 | the value-sorted roll is the outcomes of the tag-sorted roll |
| DyceMechanic.ValueAgreesWithoutExtraStd | notebooks/github/bumpity-pool-posita-dyce-12/dyce_impl.py:45-70 | without extra standard dice the value-based total equals the tag-based total |
| DyceMechanic.ValueBumpMisfires | notebooks/github/bumpity-pool-posita-dyce-12/dyce_impl.py:45-57 | with `1s1b@2<1`, standard [2, 2] and bump [2], the value-based total is 4 where the tag-based total is 2 |
| DyceMechanic.ExplosionsByOutcome | files/github/bumpity-pool-posita-dyce-12/dyce_impl.py:100-113 | a non-positive limit gives no explosions; otherwise every face of the die maps to its explosion; the same holds for notebooks/github/bumpity-pool-posita-dyce-12/dyce_impl.py:88-101 |
| DyceMechanic.NoExplosionsWithoutLimit | files/github/bumpity-pool-posita-dyce-12/dyce_impl.py:92-103 | with a non-positive limit the exploded delta is the constant 0 |
| DyceMechanic.ExplodedDelta | files/github/bumpity-pool-posita-dyce-12/dyce_impl.py:92-97 | a face of the die explodes by the parameter's explosion when the limit is positive; otherwise, or for an outcome not on the die, the delta is 0 |
| Icepool.ApplyWindow | files/github/bumpity-pool-posita-dyce-12/icepool_impl.py:59-60 | the `roll_slice` keeps the lowest n, the highest n, or every entry |
| Icepool.Repeat | files/github/bumpity-pool-posita-dyce-12/icepool_impl.py:89-90 | `(outcome, pool) * count` is `count` copies of that entry |
| Icepool.IcepoolMechanic.constructor | files/github/bumpity-pool-posita-dyce-12/icepool_impl.py:32-56 | `__init__` clamps the extras and picks the evaluation order, the slice and the extra bonus exactly as the dyce setup does |
| Icepool.IcepoolMechanic.EvaluationOrder | files/github/bumpity-pool-posita-dyce-12/icepool_impl.py:99-100 | the order is ascending exactly when extra standard dice were rolled |
| Icepool.IcepoolMechanic.NextState | files/github/bumpity-pool-posita-dyce-12/icepool_impl.py:83-97 | the dice showing an outcome, standard before bump, are appended in ascending order and prepended in descending order |
| Icepool.IcepoolMechanic.FinalOutcome | files/github/bumpity-pool-posita-dyce-12/icepool_impl.py:58-81 | the slice holds pool-size dice. The total is the ranked-roll total plus the extra bonus, and the delta is the check die's explosion |
| Icepool.IcepoolMechanic.Accumulate | files/github/bumpity-pool-posita-dyce-12/icepool_impl.py:83-97 | folding `next_state` over the outcomes in evaluation order yields the sorted tagged roll |
| Icepool.IcepoolMechanic.Evaluate | files/github/bumpity-pool-posita-dyce-12/icepool_impl.py:103-131 | the icepool evaluator gives the same total as the dyce mechanic: the equivalence the `assert` at `test.py` line 58 would check, in a block that `if False:` disables |
| Icepool.AccumulatedIsSorted | files/github/bumpity-pool-posita-dyce-12/icepool_impl.py:83-97 | a state built from blocks of ever larger (or smaller) outcomes that covers every outcome is the sorted roll |
| Icepool.WindowIsTrim | files/github/bumpity-pool-posita-dyce-12/icepool_impl.py:45-60 | the icepool slice of the sorted roll is the dyce trim |
| NeonCity.PoolRoll | files/stack-exchange/neon-city-overdrive-171498/neon_city_overdrive.py:27-30 | a pool of no dice is rolled as one die that always shows 0 |
| NeonCity.SoDangerousPoolsAsWritten | files/stack-exchange/neon-city-overdrive-171498/neon_city_overdrive.py:179-182 | with both pools non-empty the result is `_a_vs_d` on the rolls, and an empty action pool never scores above 0 |
| NeonCity.SoDangerousPools | files/stack-exchange/neon-city-overdrive-171498/neon_city_overdrive.py:170-182 | corrected pools: a non-empty action pool scores as written, and an empty one, rolled as no dice, never scores above 0 |
| NeonCity.KaronenStep | files/stack-exchange/neon-city-overdrive-171498/neon_city_overdrive.py:65-92 | with more actions than dangers at face n the result is n, or 6 plus the extra boons at 6. Otherwise it recurses at n − 1 on the pools less the dice at n, and below face 1 it returns 0 |
| NeonCity.Karonen | files/stack-exchange/neon-city-overdrive-171498/neon_city_overdrive.py:16-98 | the recursion over faces never returns a negative result, and returns more than the current face only from face 6 or above (the boon case) |
| NeonCity.KaronenHighestExcess | files/stack-exchange/neon-city-overdrive-171498/neon_city_overdrive.py:65-92 | the result is the highest face at which actions outnumber dangers: at no face above it do they, and on a d6 they do at the result |
| NeonCity.Below | files/stack-exchange/neon-city-overdrive-171498/neon_city_overdrive.py:80-92 | the dice left for the recursion are the ones below n, one fewer for each die showing n |
| NeonCity.RecursionPoolSizes | files/stack-exchange/neon-city-overdrive-171498/neon_city_overdrive.py:80-92 | the recursive pools shrink by exactly the dice that show the current face |
| NeonCity.KaronenZeroIff | files/stack-exchange/neon-city-overdrive-171498/neon_city_overdrive.py:16-98 | the result is 0 exactly when at no face do actions outnumber dangers, and otherwise it is at least 1 |
| NeonCity.PlaceholderIsNoDie | files/stack-exchange/neon-city-overdrive-171498/neon_city_overdrive.py:41-43 | the 0-faced placeholder die changes nothing in the face recursion |
| NeonCity.Carcer | files/stack-exchange/neon-city-overdrive-171498/neon_city_overdrive.py:101-129 | the scan over faces 6 down to 1 returns what the recursion of `nco_karonen` returns |
| NeonCity.Walk | files/stack-exchange/neon-city-overdrive-171498/neon_city_overdrive.py:142-158 | the walk never moves the danger index up and keeps at most one action per action die |
| NeonCity.AVsD | files/stack-exchange/neon-city-overdrive-171498/neon_city_overdrive.py:136-177 | the imperative walk-and-score loop returns the specified greedy result |
| NeonCity.ScoreCases | files/stack-exchange/neon-city-overdrive-171498/neon_city_overdrive.py:160-175 | the best survivor, plus a boon per further 6 when it is a 6; with no survivor, minus one per unspent danger 6 |
| NeonCity.Score | files/stack-exchange/neon-city-overdrive-171498/neon_city_overdrive.py:160-175 | with a survivor the result is at least the best survivor, and above 6 for a top 6 exactly when another 6 survives; with none it lies between minus the unspent dangers and 0 |
| NeonCity.SoDangerous | files/stack-exchange/neon-city-overdrive-171498/neon_city_overdrive.py:136-177 | `_a_vs_d` on whole rolls: at least the best survivor of the walk, above 6 for a top 6 exactly when another 6 survives, and between −(danger dice) and 0 when nothing survives |
| NeonCity.WalkAccounts | files/stack-exchange/neon-city-overdrive-171498/neon_city_overdrive.py:142-158 | every action die either survives or spends exactly one danger die |
| NeonCity.WalkKeepsDescending | files/stack-exchange/neon-city-overdrive-171498/neon_city_overdrive.py:142-158 | on a sorted roll the survivors come out highest first |
| NeonCity.NoHighDangerNoCancel | files/stack-exchange/neon-city-overdrive-171498/neon_city_overdrive.py:146-151 | when every danger is below every action, all actions survive |
| NeonCity.ScoreBounds | files/stack-exchange/neon-city-overdrive-171498/neon_city_overdrive.py:160-175 | the result is at least every surviving action, and at most 0 when none survives |
| NeonCity.NoActionsChargesEverySix | files/stack-exchange/neon-city-overdrive-171498/neon_city_overdrive.py:170-175 | with no action dice the result is minus the number of danger 6s |
| NeonCity.PlaceholderActionSpendsDanger | files/stack-exchange/neon-city-overdrive-171498/neon_city_overdrive.py:179 | as written, an empty action pool against one danger 6 scores 0, because the placeholder spends the 6 |
| NeonCity.EmptyActionPoolCharged | files/stack-exchange/neon-city-overdrive-171498/neon_city_overdrive.py:170-175 | an empty action pool rolled as no dice is charged one per danger 6 |
| Nemesis.VerdictValue | files/stack-exchange/nemesis-199705/nemesis.py:17-19 | a win is 1 and a loss is −1 |
| Nemesis.Successes | files/stack-exchange/nemesis-199705/nemesis.py:32-46 | a die succeeds when it is at most the rating; all succeed or none succeed exactly as the bounds say |
| Nemesis.ChiLoss | files/stack-exchange/nemesis-199705/nemesis.py:50-57 | the chi lost is the hits beyond the blocks, and 0 exactly when blocks cover the hits |
| Nemesis.RoundLosses | files/stack-exchange/nemesis-199705/nemesis.py:32-57 | each side loses the other's yang successes beyond its own yin successes, and for rolls of the fighters' pool sizes never more than the other side's yang pool |
| Nemesis.FinalVerdict | files/stack-exchange/nemesis-199705/nemesis.py:65-70 | we win exactly when our chi is at least theirs |
| Nemesis.Step | files/stack-exchange/nemesis-199705/nemesis.py:72-82 | a round without losses is a dead end. Any other round lowers neither chi and lowers their sum |
| Nemesis.Resolve | files/stack-exchange/nemesis-199705/nemesis.py:59-91 | once a chi is negative the combat is decided by the final comparison; with chi left and no rounds it is pending |
| Nemesis.Combat | files/stack-exchange/nemesis-199705/nemesis.py:59-93 | a side that starts below 0 decides the combat at once by the final comparison; with chi left and no rounds it is pending |
| Nemesis.CombatDecided | files/stack-exchange/nemesis-199705/nemesis.py:59-93 | from non-negative initial chi, more rounds without a dead end than the chi both sides hold always decide the combat |
| Nemesis.EnoughRoundsDecide | files/stack-exchange/nemesis-199705/nemesis.py:59-91 | with more decisive rounds than the chi both sides hold, the combat is decided |
| Nemesis.VerdictIsFinalComparison | files/stack-exchange/nemesis-199705/nemesis.py:65-70 | every decided combat is the final comparison of two chi values, one of them negative and neither above the chi the combat started with |
| Nemesis.UnhurtSideWins | files/stack-exchange/nemesis-199705/nemesis.py:59-91 | a side that never loses chi wins every decided combat |
| Doubles.TargetWins | files/stack-exchange/doubles-on-2d6-plus-d-200587/doubles_on_2d6_plus_d.py:18-26 | below the base target they win one. At or above it we win one, or two when the extra target is also met |
| Doubles.OnesWins | files/stack-exchange/doubles-on-2d6-plus-d-200587/doubles_on_2d6_plus_d.py:33-36 | ones count once each, or once in all when ones are not counted per die |
| Doubles.DistinctOfThree | files/stack-exchange/doubles-on-2d6-plus-d-200587/doubles_on_2d6_plus_d.py:29-30 | three dice show one distinct value exactly when all match, three exactly when all differ |
| Doubles.MatchWins | files/stack-exchange/doubles-on-2d6-plus-d-200587/doubles_on_2d6_plus_d.py:28-30 | matches win 0 to 2: 2 exactly for a triple, 0 exactly for three different values |
| Doubles.OurWins | files/stack-exchange/doubles-on-2d6-plus-d-200587/doubles_on_2d6_plus_d.py:17-30 | our wins lie in 0..4; below the base target only the matches count, and 4 comes exactly from a triple that meets the base and the extra target |
| Doubles.TheirWins | files/stack-exchange/doubles-on-2d6-plus-d-200587/doubles_on_2d6_plus_d.py:17-36 | their wins are not negative, 0 exactly when the base target is met and no die shows a one, and for three dice at most 4, or 2 when ones count once in all |
| Doubles.Eval | files/stack-exchange/doubles-on-2d6-plus-d-200587/doubles_on_2d6_plus_d.py:13-38 | `_eval` returns both sides' net wins |
| Dpr.PoolOutcome | notebooks/stack-exchange/dpr-195490/dpr.py:41-42 | an empty pool adds 0, and n d6 add between n and 6n |
| Dpr.SumOfDice | notebooks/stack-exchange/dpr-195490/dpr.py:41-42 | n d6 sum to between n and 6n |
| Dpr.BaseHits | notebooks/stack-exchange/dpr-195490/dpr.py:29 | the hits are the margin plus one when the roll meets the target, else 0 |
| Dpr.AttackHits | notebooks/stack-exchange/dpr-195490/dpr.py:29-34 | a natural 1 misses, a natural 20 hits at least once, any other roll gives the base hits; the same holds for notebooks/stack-exchange/dpr-195490/calc.py:33-38 |
| Dpr.DefendHits | notebooks/stack-exchange/dpr-195490/dpr.py:60-65 | a defending 20 takes no hits, a defending 1 takes at least one, any other roll the base hits; the same holds for notebooks/stack-exchange/dpr-195490/calc.py:64-69 |
| Dpr.PvpHits | notebooks/stack-exchange/dpr-195490/dpr.py:94-109 | a critical hit gives at least one hit and never fewer than the base hits; a critical miss gives none; any other roll gives the base hits; the same holds for notebooks/stack-exchange/dpr-195490/calc.py:98-113 |
| Dpr.Damage | notebooks/stack-exchange/dpr-195490/dpr.py:36 | damage is at most the rate of fire, and at most the hits, times the damage over armour, and 0 when armour stops it |
| Dpr.PcAttacks | notebooks/stack-exchange/dpr-195490/dpr.py:15-43 | a natural 1 deals nothing, a natural 20 at least the damage over armour, and damage stays within rof × (dmg − arm); the same holds for notebooks/stack-exchange/dpr-195490/calc.py:19-47 |
| Dpr.PcDefends | notebooks/stack-exchange/dpr-195490/dpr.py:46-74 | a defending 20 takes nothing, a defending 1 at least the damage over armour; the same holds for notebooks/stack-exchange/dpr-195490/calc.py:50-78 |
| Dpr.PcVsPc | notebooks/stack-exchange/dpr-195490/dpr.py:77-119 | PvP damage stays within rof × (dmg − arm), and an attacker's 1 against a defender's 20 deals nothing; the same holds for notebooks/stack-exchange/dpr-195490/calc.py:81-123 |
| Dpr.PvpOverrides | notebooks/stack-exchange/dpr-195490/dpr.py:96-109 | which 1/20 combinations are critical hits and misses; equal naturals cancel |
| Dpr.HitsMonotone | notebooks/stack-exchange/dpr-195490/dpr.py:29-34 | a better attack modifier never lowers the hits and a better defence modifier never raises them |
| Dpr.DamageMonotone | notebooks/stack-exchange/dpr-195490/dpr.py:36 | more hits never lower the damage |
| ExpectedDamage.HitValue | notebooks/stack-exchange/expected-dmg-200447/expected_damage.py:8-11 | MISS 0, HIT 1, CRIT 2 |
| ExpectedDamage.Limit | notebooks/stack-exchange/expected-dmg-200447/expected_damage.py:19-27 | `_limit` leaves an outcome within the bounds alone, never exceeds a max, reaches a min that is not above the max, and returns the outcome or a bound |
| ExpectedDamage.LimitDie | notebooks/stack-exchange/expected-dmg-200447/expected_damage.py:19-27 | limiting a die limits each face |
| ExpectedDamage.LimitOnD6 | notebooks/stack-exchange/expected-dmg-200447/expected_damage.py:30-32 | the three asserted limits of a d6 |
| ExpectedDamage.Bounds | files/stack-exchange/expected-dmg-200447/expected_damage.py:19-27 | as written, `bounds` without a min returns the outcome unchanged; with a min the result is at least the min and within a max that is not below it |
| ExpectedDamage.LoneMaxIgnored | files/stack-exchange/expected-dmg-200447/expected_damage.py:23-25 | a lone max of 5 leaves a 6 at 6, where the intended clamp gives 5 |
| ExpectedDamage.BoundsIntended | files/stack-exchange/expected-dmg-200447/expected_damage.py:19-27 | the corrected clamp honours each bound given, alone or together |
| ExpectedDamage.BoundsAsWrittenWithLowerBound | files/stack-exchange/expected-dmg-200447/expected_damage.py:19-27 | whenever a min is given, the code as written and the corrected clamp agree |
| ExpectedDamage.BoundsAgreeWithLimit | notebooks/stack-exchange/expected-dmg-200447/expected_damage.py:19-27 | the corrected `bounds` and `_limit` agree whenever the bounds are consistent |
| ExpectedDamage.ToHitResult | notebooks/stack-exchange/expected-dmg-200447/expected_damage.py:35-46 | a crit face is a crit, a natural 1 or a roll below target misses, anything else hits; the same holds for files/stack-exchange/expected-dmg-200447/expected_damage.py:47-58 |
| ExpectedDamage.CritTables | notebooks/stack-exchange/expected-dmg-200447/expected_damage.py:49-82 | normal crits are 20, improved 19–20, superior 18–20; the same holds for files/stack-exchange/expected-dmg-200447/expected_damage.py:30-44 |
| ExpectedDamage.Classify | notebooks/stack-exchange/expected-dmg-200447/expected_damage.py:35-46 | classifying a die classifies each face |
| ExpectedDamage.ClassCounts | notebooks/stack-exchange/expected-dmg-200447/expected_damage.py:35-82 | on faces 1..m the misses, hits and crits number min(m, target−1), the faces from target below the crit range, and the faces in it |
| ExpectedDamage.TargetTenOnD20 | notebooks/stack-exchange/expected-dmg-200447/expected_damage.py:56-82 | against 10 on a d20 the three tables give 9/10/1, 9/9/2 and 9/8/3 misses/hits/crits, as asserted |
| ExpectedDamage.ResultMonotone | notebooks/stack-exchange/expected-dmg-200447/expected_damage.py:35-46 | a higher roll never gives a worse result |
| ExpectedDamage.Disadvantage | notebooks/stack-exchange/expected-dmg-200447/expected_damage.py:14-16 | disadvantage keeps the lower of two d20s |
| ExpectedDamage.Advantage | notebooks/stack-exchange/expected-dmg-200447/expected_damage.py:14-16 | advantage keeps the higher of two d20s |
| ExpectedDamage.AdvantageOrdersResults | notebooks/stack-exchange/expected-dmg-200447/expected_damage.py:14-16 | disadvantage is never better than one roll, and advantage never worse |
| ExpectedDamage.NotebookDamage | notebooks/stack-exchange/expected-dmg-200447/expected_damage.py:95-101 | a miss deals 0, a hit the normal damage floored at 0, a crit adds the extra damage floored at 0 |
| ExpectedDamage.NotebookDamageMonotone | notebooks/stack-exchange/expected-dmg-200447/expected_damage.py:95-101 | a better result never deals less damage |
| ExpectedDamage.FileDamage | files/stack-exchange/expected-dmg-200447/expected_damage.py:61-80 | a miss deals 0 and a hit or crit at least 1: the normal, or normal plus extra, damage floored at 1 |
| ExpectedDamage.FileDamageCritVersusHit | files/stack-exchange/expected-dmg-200447/expected_damage.py:71-76 | a crit deals at least a hit's damage when the extra damage is not negative, and less when it is |
| ExpectedDamage.DamageVersionsAgreeOnPositiveRolls | files/stack-exchange/expected-dmg-200447/expected_damage.py:61-80 | on positive damage rolls the two versions deal the same damage |
| DegradingTarget.AdjustedTarget | files/stack-exchange/degrading-target-202071/degrading_target.py:75-84 | the target drops by one, or by two, per prior try, and never rises |
| DegradingTarget.AdjustedTargetFromOne | notebooks/stack-exchange/degrading-target-202071/degrading_target.py:71-80 | counting tries from 1, the target drops by `tries − 1`, or twice that |
| DegradingTarget.AdjustmentFormsAgree | notebooks/stack-exchange/degrading-target-202071/degrading_target.py:26 | the two counting conventions give the same target, and `initial − tries + 1` is the reduce-once target |
| DegradingTarget.NonPerformant | files/stack-exchange/degrading-target-202071/degrading_target.py:15-41 | a success is reported at a try after the prior ones and within the rolls given |
| DegradingTarget.GeIndicator | files/stack-exchange/degrading-target-202071/degrading_target.py:56 | `die.ge(target)` is 1 exactly when the outcome meets the target, else 0 |
| DegradingTarget.Customizable | files/stack-exchange/degrading-target-202071/degrading_target.py:87-121 | the reported try is the first whose roll meets its adjusted target; no report means every roll failed |
| DegradingTarget.CustomizableFromOne | notebooks/stack-exchange/degrading-target-202071/degrading_target.py:83-115 | a reported try lies among the tries the rolls cover |
| DegradingTarget.PerformantAgrees | files/stack-exchange/degrading-target-202071/degrading_target.py:44-72 | the performant form with one drop per try reports what the non-performant form reports |
| DegradingTarget.CountingFormsAgree | notebooks/stack-exchange/degrading-target-202071/degrading_target.py:83-115 | counting from 1 reports the try one above what counting prior tries reports, and fails exactly when it fails |
| DegradingTarget.ReduceOnceIsBounded | files/stack-exchange/degrading-target-202071/degrading_target.py:100-113 | with one drop per try and enough rolls, success comes by the try at which the target reaches the lowest face |
| YearZero.FaceValue | files/stack-exchange/year-zero-and-a-half-201331/year_zero_and_a_half.py:9-13 | BANE −1, BLANK 0, HALF_SUCCESS 1, FULL_SUCCESS 2, each value naming exactly one face |
| YearZero.SuccessHalvesAreFaceValues | files/stack-exchange/year-zero-and-a-half-201331/year_zero_and_a_half.py:56-62 | in half-units the successes are the sum of the roll's positive face values |
| YearZero.SuccessHalves | files/stack-exchange/year-zero-and-a-half-201331/year_zero_and_a_half.py:56-62 | in half-units, successes are at most twice the number of dice |
| YearZero.Banes | files/stack-exchange/year-zero-and-a-half-201331/year_zero_and_a_half.py:102-105 | banes are at most the number of dice |
| YearZero.LegacySuccessesWhole | files/stack-exchange/year-zero-and-a-half-201331/year_zero_and_a_half.py:18-29 | the legacy die always scores whole successes, one per success face |
| YearZero.Rerolled | files/stack-exchange/year-zero-and-a-half-201331/year_zero_and_a_half.py:76 | a push re-rolls one die per blank, and none exactly when no blank shows |
| YearZero.PushSuccessHalves | files/stack-exchange/year-zero-and-a-half-201331/year_zero_and_a_half.py:74-88 | a mixed pool fails the homogeneity assertion. Otherwise the push adds the re-roll's successes and never lowers them |
| YearZero.PushBanes | files/stack-exchange/year-zero-and-a-half-201331/year_zero_and_a_half.py:115-126 | the same for banes |
| YearZero.NonBlank | files/stack-exchange/year-zero-and-a-half-201331/year_zero_and_a_half.py:83-84 | the kept dice show no blank and number the dice less the blanks |
| YearZero.PushedRoll | files/stack-exchange/year-zero-and-a-half-201331/year_zero_and_a_half.py:83-86 | the pushed pool has as many dice as the first roll |
| YearZero.PushedRollScores | files/stack-exchange/year-zero-and-a-half-201331/year_zero_and_a_half.py:83-88 | the pushed pool scores the first roll's successes and banes plus the re-roll's |
| YearZero.PushSuccessesScorePushedRoll | files/stack-exchange/year-zero-and-a-half-201331/year_zero_and_a_half.py:83-88 | adding the re-roll's successes is scoring the pushed pool as a whole |
| YearZero.PushBanesScorePushedRoll | files/stack-exchange/year-zero-and-a-half-201331/year_zero_and_a_half.py:121-126 | adding the re-roll's banes is scoring the pushed pool as a whole |
| YearZero.LegacyPushWhole | files/stack-exchange/year-zero-and-a-half-201331/year_zero_and_a_half.py:81-88 | with the legacy die a push still scores whole successes |

## Left out

- The `dyce` and `icepool` engines are not part of this model: `H`, `P`, `foreach`, `expandable`, the `MultisetEvaluator` driver and `lowest_terms`. Each callback is modelled on one concrete roll, and probabilities and distributions are not modelled. Where the source asserts a count over a die, the die is a list of its faces.
- Explosion arithmetic for a positive limit is not modelled. The library's `explode` becomes a function parameter, and the limit (an `int` or a `Fraction`) becomes a `real`.
- The `functools` caches, `showit`/`show` UI code, `eval`/`exec` and the `test.py` drivers are left out. They do not change results.
- `traceback.print_exc()` is left out. A failing line is skipped silently.
- Notation.MatchNotation: the regular-expression engine is replaced by a hand-written scanner. `\d` is ASCII digits only, though Python also accepts other Unicode digits. `IGNORECASE` covers only `s`/`S`/`ſ` and `b`/`B`.
- Notation.ParseLine, Notation.Accepted and Notation.ParseFromNotation follow `BONUS_RE` as written, so they drop a signed bonus position as the program does. The corrected reading, Notation.ParseLineIntended, is used only by the lemmas for the first finding.
- Notation.RenderParseRoundTrip: only records without an override die and with a comment that is already stripped are covered. The override name is looked up in a map the caller supplies.
- Params.PostInit: `Params` is a value and `__post_init__` returns the normalised record. The in-place update of the dataclass fields is not modelled.
- Both `params.py` copies, and both `dyce_impl.py` copies' setups, share one model. They differ only in field names (`num_bmp`/`num_bump`).
- `calc.py` shares the `Dpr` module with `dpr.py`. Its functions are the same text, four lines lower.
- Dpr.PoolOutcome: pool sizes are natural numbers. The source does not check for negative sizes.
- Dpr.Damage: the bounds are stated for a non-negative rate of fire. A negative `rof` gives negative damage in the source, and that case is not stated.
- Nemesis.Resolve: the unbounded recursion over rounds is modelled on a finite list of rolled rounds. A list that runs out before the combat is decided gives `Pending`. The per-round `this_round` bookkeeping is not modelled.
- DegradingTarget.Customizable: the unbounded recursion over tries is modelled on a finite list of rolls. The adjustment callable is one of the two functions the source defines (`reduce_once_per_try`, `reduce_twice_per_try`), not an arbitrary callable.
- YearZero.SuccessHalves: successes are counted in exact half-units instead of Python floats.
- `showit.py` in the files' expected-damage folder calls the attack function with a mismatched keyword. That is UI code and is left out.

## Findings

| source | as written | input that shows it | evidently intended | confidence | as-written member | corrected member |
|---|---|---|---|---|---|---|
| files/github/bumpity-pool-posita-dyce-12/params.py:37-39 | `BONUS_RE` reads a bonus position as `[1-9]\d*` with no `\+?`, though `NOTATION_RE` (line 31) accepts `+@+1` | the line `1s0b@1+@+1` | the line names die 1 as a bonus die, giving bonus dice `(0,)` | high, not executed | Notation.SignedBonusDropped | Notation.SignedBonusKept |
| notebooks/github/bumpity-pool-posita-dyce-12/dyce_impl.py:45-57 | the set die counts as bumped when its outcome equals any bump die's outcome, including a bump die the slice removed | `1s1b@2<1` with standard dice [2, 2] and bump die [2] gives 4 | the check moves only when the set die itself is a bump die; the tag-based mechanic gives 2 | high, not executed | DyceMechanic.ValueBumpMisfires | DyceMechanic.Mechanic |
| files/stack-exchange/neon-city-overdrive-171498/neon_city_overdrive.py:179 | an empty action pool is rolled as one die showing 0. That die spends the highest danger die, so that 6 is never charged | action pool size 0 against one danger die showing 6 gives 0 | with no actions every danger 6 costs one, giving −1 (lines 170-175) | medium, not executed | NeonCity.PlaceholderActionSpendsDanger | NeonCity.EmptyActionPoolCharged |
| files/stack-exchange/expected-dmg-200447/expected_damage.py:23-25 | without a min, `bounds` returns the outcome and never applies the max | outcome 6 with max 5 and no min gives 6 | the outcome is clamped to 5 | medium, not executed | ExpectedDamage.LoneMaxIgnored | ExpectedDamage.BoundsIntended |
