# Aurelia: Beastbound, verified

A Dafny model of the server-side logic of Aurelia: Beastbound, and proofs of what that logic promises.

**The battle engine and its replay chain.** `Turns.dfy` says what a turn does, as a function of the battle state and
the two actions. `Battles.dfy` holds the engine's objects (battlers, sides, the battle, the generator), whose methods
update their fields in place and are proved to do exactly what that function says. `Sessions.dfy` is the authoritative
turn loop over an arbitrary schedule of messages, timer firings and cancellations; `Records.dfy` is the recorder, the
replayer and the verifier; `Digests.dfy` is the FNV-1a state digest; `Service.dfy` puts them together. On top stand the
results: every match that ends verifies, an invariant holds clause by clause of every battle, the event stream accounts for
every hit point, fainting is final, the outcome is exact, and the generator is a full-period permutation.

**Matchmaking.** The quadratic scan is proved equal to a linear greedy. Under equal bands no choice of matches from the
pool is larger; `DisparityProofs.dfy` says when the total rating disparity is the smallest there is.

**Trades.** Every interleaving of trade operations over a shared collection, on either of the two repositories, whose
transfer batches differ; `RepoProofs.dfy` and `OwnershipProofs.dfy` say exactly when that shows.

**The rate limiter and the cursor pagination.** A tight sliding-window bound, and exact enumeration under change.

A larger component has one file with its data, specification functions and objects, and files named `...Proofs.dfy`
with the results about them; a small one (`Rng`, `Types`, `Creatures`, `Keys`, `Limiter`, `Pages`) keeps its results at
its end. `dafny verify dfyconfig.toml` checks everything.

## How to read the model

- A method that changes state promises `State() == F(old(State()), ...)` for a specification function `F`; what the
  source promises is then proved of `F`. Each rule is also stated without `F`: as an exact condition, a whole share, a
  count over one period of the generator, or a published value (the `...Law` and `...Iff` lemmas).
- Go maps are iterated in an arbitrary order, and `sort.Slice` is not stable: both are nondeterministic here.
- `uint64` arithmetic is modulo 2^64, `int8` stage arithmetic wraps, `int` is unbounded. Conversions from `float64` to
  `int` drop the fraction; the arithmetic itself is over the reals, so bit-exact IEEE rounding is not modelled.
- A quotient with divisor zero is given the value 0 (`Damage.Ratio`); `DamageProofs.DivisorPositive` shows that it never
  arises for creatures in the documented data ranges.
- The process-wide skill table is a parameter of every turn; the replay results use the same table for the live match
  and the replay, as the service does.
- An event keeps its kind, side and amount; its text is left out. The player id of a side is never read by the engine
  and is not part of the battle state.

## Where the code and its own words differ

- `pkg/types/types.go:76-78` says that Neutral as a second element carries no penalty. It makes the creature immune to
  Spectre; `Types.NeutralAsSecondElement` says exactly when it is free.
- `services/battle/internal/engine/battle.go:334` calls the digest a hash of the full battle state. It is blind to
  stages, cooldowns, status counters and the outcome (`DigestProofs.DigestBlind`); `DigestProofs.SerialiseExact` says exactly what it
  sees.
- `pkg/creatures/model.go:21` reads as turns before reuse. The tick at the end of the same turn makes a cooldown of 1
  block nothing, and only the active battler's cooldowns tick, so a switch lengthens the block
  (`CooldownProofs.ReadyAfterCooldown`, `CooldownProofs.CooldownCountsActiveTurns`).
- A type-immune hit deals no damage but its riders still apply; `MoveProofs.TypeImmuneHit` says exactly when the
  defender is left alone.
- `services/battle/internal/persistence/record.go:83-86`: a record padded with turns after its end still verifies
  (`SessionProofs.PaddedRecordStillVerifies`); a restated winner or digest does not (`SessionProofs.ForgedResultsFail`),
  nor does a won match cut short (`SessionProofs.TruncatedRecordFails`).
- `services/matchmaking/internal/matcher.go:37` lets a timed-out player meet anyone. Nobody is matched across a gap of
  2^30 (`MatcherProofs.FarApartNeverMatch`; `MatcherProofs.TimedOutStaysIff` says exactly who is left waiting), and pools
  mix when a region name runs over the separator (`MatcherProofs.SeparatorInRegionMixesPools`;
  `MatcherProofs.SameKeyIff` says exactly when).
- `services/matchmaking/internal/matcher.go:55-58` says that pairing nearest neighbours minimises the total disparity.
  Under equal bands a sorted group falls into runs of tickets within reach of each other. The total is the smallest
  for as many matches exactly when, in each run of odd length, leaving out the last ticket is no worse than leaving out
  any other of even position (`DisparityProofs.UniformGroupMinimalIff`); ratings 0, 10, 11 in reach of each other are a
  case where it is worse (`DisparityProofs.NearestPassedOver`).
- `services/profile/internal/repo_memory.go:10-12` says that the two repositories exercise the same logic. Their batches
  agree exactly when the transfers come from the present owners both at the outset and in turn, or neither
  (`RepoProofs.BatchesAgreeIff`), so always when creatures are distinct (`RepoProofs.DistinctBatchesAgree`).
  `OwnershipProofs.CommitsAgreeIff` says exactly which commits depend on the store: those with a creature twice in one
  offer, which only memory lets through, or in both offers, which only Postgres does. Staging prevents neither
  (`OwnershipProofs.CrossListing`).
- The limiter's rate per window is not a sliding bound: 2 * rate - 1 calls fit into one window's length, and no more
  (`Limiter.SlidingWindowBound`, `Limiter.BoundIsAttained`, `Limiter.RateBoundsIff`). Callers whose keys and routes run
  over the separator share a bucket (`Limiter.SameBucketIff`).
- A creature whose id is the empty string is never listed (`Pages.ListedExactlyOnce`).

## Model

| member | source | states |
|---|---|---|
| Rng.OutputIsPermutation | services/battle/internal/engine/rng.go:23-29 | the output mix is a bijection of the 64-bit words: each output comes from exactly one state |
| Rng.FullPeriod | services/battle/internal/engine/rng.go:23-25 | two states of a run coincide exactly when their positions agree modulo 2^64 |
| Rng.Equidistribution | services/battle/internal/engine/rng.go:33-38 | over one period IntN(n) returns each value floor or ceiling of 2^64/n times, and which values get the extra one |
| Rng.DrawnOnce | services/battle/internal/engine/rng.go:23-29 | every word is drawn at exactly one position of the period |
| Rng.RNG.Next | services/battle/internal/engine/rng.go:23-29 | one draw advances the state by one step and yields its output |
| Rng.RNG.IntN | services/battle/internal/engine/rng.go:33-38 | one draw, reduced below n |
| Rng.RNG.Chance | services/battle/internal/engine/rng.go:42-50 | impossible and certain events draw nothing |
| Rng.RNG.Float | services/battle/internal/engine/rng.go:53-55 | one draw, scaled to at least 0 and below 1 |
| ChanceProofs.ReferenceWords | services/battle/internal/engine/rng.go:23-29 | from seed zero the generator gives the published words of SplitMix64 |
| ChanceProofs.IntNLaw | services/battle/internal/engine/rng.go:33-38 | IntN takes one word and returns its remainder |
| ChanceProofs.FloatLaw | services/battle/internal/engine/rng.go:53-55 | Float takes one word and returns its 53 leading bits as a fraction |
| ChanceProofs.ChanceLaw | services/battle/internal/engine/rng.go:42-50 | when a chance draws, and which words make it come up |
| ChanceProofs.ChanceMonotone | services/battle/internal/engine/rng.go:40-50 | what comes up at one percentage comes up at every higher one |
| ChanceProofs.ChanceCount | services/battle/internal/engine/rng.go:40-50 | over one period a chance of pct percent comes up pct hundredths of the time, to the word |
| Types.MatrixAgrees | pkg/types/types.go:51-74 | the matchups as rules equal the published matrix, entry by entry, and unlisted elements are neutral |
| Types.DualMultiplierValues | pkg/types/types.go:79-85 | a combined multiplier is one of 0, 0.25, 0.5, 1, 2, 4 |
| Types.DualSymmetric | pkg/types/types.go:79-85 | the order of a defender's elements does not matter |
| Types.NeutralAsSecondElement | pkg/types/types.go:76-85 | Neutral as second element is free exactly when the attack is not Spectre or the defender is Neutral |
| Types.NeutralIsNotFree | pkg/types/types.go:76-85 | Spectre hits Mind doubly and Mind with Neutral not at all |
| Creatures.StatsPositive | pkg/creatures/stats.go:25-42 | every documented creature has at least 10 HP and 4 in each other stat |
| Creatures.StatsAtLevel100 | pkg/creatures/stats.go:19-42 | the closed form of all six stats at level 100 with a neutral nature |
| Creatures.NatureTrades | pkg/creatures/stats.go:6-17 | a nature raises only the stat it names up and lowers only the one it names down |
| Creatures.StatsLaw | pkg/creatures/stats.go:19-42 | all six stats at every level and nature, as whole parts: a hundredth of level times twice base plus IV plus a quarter EV, and so on |
| Creatures.TowardZero | pkg/creatures/stats.go:28-33 | conversions and divisions drop the fraction, toward zero for negative numbers too |
| Creatures.StatIsUnique | pkg/creatures/stats.go:19-42 | that formula determines the stat |
| Battlers.ClampSaturates | services/battle/internal/engine/battler.go:102-111 | stages stay in -6..6 under every int8 delta; adding saturates exactly when the int8 sum does not wrap |
| Battlers.StageMultipliersReciprocal | services/battle/internal/engine/battler.go:55-69 | opposite stages cancel, within 1/4..4 and up to 3 |
| BattlerProofs.StageSteps | services/battle/internal/engine/battler.go:53-69 | each stage up adds a half to a stat and a third to accuracy, and a stage down undoes a stage up |
| BattlerProofs.NamedStages | services/battle/internal/engine/battle.go:367-384 | which stage each of the seven names moves |
| BattlerProofs.EffectiveStats | services/battle/internal/engine/battler.go:71-99 | each effective stat from its own base stat and stage; burn halves physical attack, paralysis speed |
| BattlerProofs.EntersBattle | services/battle/internal/engine/battler.go:33-48 | HP brought if between 1 and the maximum, else full; the status brought; nothing else |
| BattlerProofs.StatusTakesIff | services/battle/internal/engine/status.go:8-41 | exactly which statuses take on which battler, element by element |
| BattlerProofs.SleepTakesIff | services/battle/internal/engine/status.go:47-55 | rolled sleep takes exactly without a status; its counter comes from one word |
| BattlerProofs.SleepingGate | services/battle/internal/engine/status.go:60-68 | a sleeper's counter falls by one; it acts exactly when none is left |
| BattlerProofs.FrozenGate | services/battle/internal/engine/status.go:69-74 | over one period a frozen battler thaws and acts in 20 of 100 states |
| BattlerProofs.ParalysedGate | services/battle/internal/engine/status.go:75-78 | over one period a paralysed battler loses its move in 25 of 100 states |
| BattlerProofs.OpenGate | services/battle/internal/engine/status.go:79-85 | nothing else but a flinch, for one move, holds a battler back |
| BattlerProofs.EndOfTurnLaw | services/battle/internal/engine/status.go:86-124 | toll by status, regeneration by ability, clamping and the counter, each as a whole share |
| BattlerProofs.FaintedTick | services/battle/internal/engine/status.go:90-92 | a fainted battler has no tick |
| Battlers.Battler.constructor | services/battle/internal/engine/battler.go:34-48 | a fresh battler at full or carried-over HP, with no stages or cooldowns |
| Battlers.Battler.ApplyStatus | services/battle/internal/engine/status.go:10-41 | a status takes hold only on a standing, healthy, non-immune battler, and changes nothing else |
| Battlers.Battler.SetSleep | services/battle/internal/engine/status.go:48-55 | sleep of 1 to 3 turns by one draw, unless some status is set |
| Battlers.Battler.PreMoveGate | services/battle/internal/engine/status.go:60-85 | the gate's answer, the waking or thawing and the draws |
| Battlers.Battler.EndOfTurnTick | services/battle/internal/engine/status.go:89-124 | the reported delta and the clamped HP; the toxic counter rises |
| Battlers.Battler.TickCooldowns | services/battle/internal/engine/battle.go:126-132 | every positive cooldown drops by one, and nothing else changes |
| Battlers.Battler.AddStage | services/battle/internal/engine/battle.go:367-384 | the named stage moves, unknown names are ignored |
| StatusProofs.ToxicKillsInSix | services/battle/internal/engine/status.go:101-107 | toxic poison with its counter at 1 or more kills within six ticks, for every MaxHP |
| StatusProofs.BurnKillsInFifteen | services/battle/internal/engine/status.go:95-100 | burn or poison kills within fifteen ticks, for every MaxHP |
| StatusProofs.SleepCost | services/battle/internal/engine/status.go:61-68 | sleep costs exactly its counter less one move attempts, whatever else is interleaved |
| StatusProofs.SetSleepCostsAtMostTwo | services/battle/internal/engine/status.go:48-68 | sleep set in battle costs at most two attempted moves |
| Damage.ComputeDamage | services/battle/internal/engine/damage.go:42-118 | the step-by-step pipeline yields the specified result and draws, and touches neither battler |
| FormulaProofs.RollsInOrder | services/battle/internal/engine/damage.go:42-118 | what is rolled in which order, and the report: same-type bonus, matchup, critical hit, damage |
| FormulaProofs.DamageFormula | services/battle/internal/engine/damage.go:33-41 | the whole formula as published: base, same-type bonus, matchup, critical hit, abilities, spread, rounding |
| FormulaProofs.StabScales | services/battle/internal/engine/damage.go:81-89 | the same-type bonus multiplies the amount by exactly 1.5, or 2 with Adaptable, for an attacker of the skill's element |
| FormulaProofs.Multipliers | services/battle/internal/engine/damage.go:81-176 | exactly who gets the same-type bonus, the low-HP boosts and the Iron Hide reduction |
| FormulaProofs.CriticalStats | services/battle/internal/engine/damage.go:120-152 | a critical hit uses the better attack and the worse defence of staged and unstaged |
| FormulaProofs.CriticalChances | services/battle/internal/engine/damage.go:58-65 | 4, 12, 50 and 100 percent by stage |
| FormulaProofs.AccuracyOdds | services/battle/internal/engine/damage.go:49-57 | the odds of hitting by accuracy and evasion stages |
| FormulaProofs.EqualStagesCancel | services/battle/internal/engine/damage.go:49-57 | at equal accuracy and evasion stages the odds are the accuracy itself |
| FormulaProofs.SpreadRange | services/battle/internal/engine/damage.go:108-110 | the spread runs evenly from 0.85 up to 1 |
| FormulaProofs.RoundsToNearest | services/battle/internal/engine/rng.go:61-64 | rounding goes to the nearest, from halfway away from zero |
| DamageProofs.CritNeverLess | services/battle/internal/engine/damage.go:67-152 | for the same spread a critical hit never deals less than a plain one |
| DamageProofs.DamageMonotone | services/battle/internal/engine/damage.go:69-118 | damage never falls when power or matchup rises |
| DamageProofs.DamageIffConnects | services/battle/internal/engine/damage.go:42-118 | at least 1 damage exactly when a damaging move connects with non-zero matchup, else none |
| DamageProofs.DivisorPositive | services/battle/internal/engine/damage.go:139-152 | the divisor is positive for every battler built from documented data, at any stages |
| MoveProofs.OrderRespectsPriorityAndSpeed | services/battle/internal/engine/battle.go:135-153 | the first side is ahead in priority, then speed; only an exact tie draws |
| MoveProofs.MoveOrderIff | services/battle/internal/engine/battle.go:134-166 | exactly when the second side goes first, from the registry's priorities, the speeds and the tie-break draw |
| MoveProofs.SwitchIff | services/battle/internal/engine/battle.go:168-179 | exactly which switches are made, and all they change |
| MoveProofs.StatusPenalties | services/battle/internal/engine/battler.go:74-99 | burn halves physical attack only, paralysis halves speed |
| MoveProofs.AbilityImmunity | services/battle/internal/engine/battle.go:196-210 | Levitate and Insulate leave the defender and the generator untouched |
| MoveProofs.TypeImmuneHit | services/battle/internal/engine/battle.go:212-277 | a damaging move against an immune type never costs HP, changes nothing exactly when it misses or its riders are idle by the rolls, and otherwise just sets its riders' status and stages |
| MoveProofs.SureTypeImmuneHit | services/battle/internal/engine/battle.go:212-277 | with no roll left open, the exact condition on battlers and move under which an immune defender is left alone |
| MoveProofs.TypeImmunityLetsRidersThrough | services/battle/internal/engine/battle.go:212-272 | a sure status rider takes hold of a healthy, non-immune defender even though the hit is type-immune |
| CooldownProofs.FizzlesIff | services/battle/internal/engine/battle.go:196-200 | for every slot number, a move fizzles exactly when the slot holds no skill or is still cooling down |
| CooldownProofs.TurnCooldown | services/battle/internal/engine/battle.go:85-132 | the exact cooldown law of a turn: benched entries stand still, active ones drop by one or start at one less than the used skill's cooldown |
| CooldownProofs.CooldownCountsActiveTurns | services/battle/internal/engine/battle.go:85-132 | over any battle a cooldown runs down by one for each turn its battler is active, whatever is tried meanwhile |
| CooldownProofs.ReadyAfterCooldown | services/battle/internal/engine/battle.go:119-132 | a used skill with cooldown c is refused for exactly c - 1 further turns in which its user is active; turns on the bench do not count |
| StatOrder.OrderIrrelevant | services/battle/internal/engine/battle.go:273-276 | every iteration order of the stat changes gives the same stages |
| Battles.Battle.ChangeStats | services/battle/internal/engine/battle.go:273-276 | iterating the map in any order gives those stages and one event per change |
| Battles.Battle.ApplyRiders | services/battle/internal/engine/battle.go:245-297 | the five riders in order, on attacker, defender, generator and log |
| RiderProofs.StaticLaw | services/battle/internal/engine/battle.go:247-253 | Static: a damaging physical hit paralyses three times in ten, if paralysis takes |
| RiderProofs.StatusLaw | services/battle/internal/engine/battle.go:257-272 | the status rider: its chance, its target, sleep apart |
| RiderProofs.StatLaw | services/battle/internal/engine/battle.go:273-276 | the stat changes: on whom, and one note each |
| RiderProofs.HealAndRecoilLaw | services/battle/internal/engine/battle.go:277-296 | healing from the damage, or from MaxHP for status moves, then recoil from the damage, within bounds and reported |
| RiderProofs.RidersInOrder | services/battle/internal/engine/battle.go:245-297 | Static first, then status, stats, healing and recoil |
| Battles.Battle.Strike | services/battle/internal/engine/battle.go:212-242 | a hit or miss, its damage, riders and faint events |
| RiderProofs.StrikeLaw | services/battle/internal/engine/battle.go:212-242 | miss, damage and its three reports, riders, and who has fainted |
| Battles.Battle.Attack | services/battle/internal/engine/battle.go:182-242 | gate, fizzle, cooldown, ability immunity, then the strike |
| RiderProofs.AttackLaw | services/battle/internal/engine/battle.go:188-195 | the gate comes first, and who does not pass does nothing more |
| RiderProofs.ReadySkillLaw | services/battle/internal/engine/battle.go:201-212 | a ready skill starts its cooldown, is announced, and strikes unless Levitate or Insulate stops it |
| RiderProofs.SkillLookup | services/battle/internal/engine/registry.go:20-29 | exactly which slots hold a skill, and which |
| Battles.Battle.ExecuteMove | services/battle/internal/engine/battle.go:182-242 | only the two active battlers, the generator and the log change |
| Battles.Side.SwitchTo | services/battle/internal/engine/battle.go:168-179 | illegal switches change nothing; legal ones clear the leaver's boosts and flinch |
| Battles.Side.HasUsable | services/battle/internal/engine/battle.go:35-42 | some battler of the party still stands |
| Battles.Battle.MoveOrder | services/battle/internal/engine/battle.go:135-153 | the order of the sides and the tie-break draw |
| Battles.Battle.CheckVictory | services/battle/internal/engine/battle.go:318-332 | the outcome by the two sides' usable battlers, with an end event |
| Battles.Battle.EndOfTurn | services/battle/internal/engine/battle.go:299-313 | residual ticks in move order, then the victory check, unless the battle is over |
| Battles.Battle.ResolveTurn | services/battle/internal/engine/battle.go:85-124 | a whole turn on the objects equals the specified turn; a finished battle is refused and unchanged |
| PhaseProofs.TurnInOrder | services/battle/internal/engine/battle.go:85-124 | switches, attacks in move order, the end of the turn unless the battle is over, cooldowns |
| PhaseProofs.SwitchesInOrder | services/battle/internal/engine/battle.go:91-96 | the first side's switch, then the second's |
| PhaseProofs.AttacksInOrder | services/battle/internal/engine/battle.go:98-111 | the second attack only if the battle is not over |
| PhaseProofs.ActLaw | services/battle/internal/engine/battle.go:101-110 | who acts, and what becomes of both sides |
| PhaseProofs.ResidualLaw | services/battle/internal/engine/battle.go:299-313 | a side's tick, its report and its faint |
| PhaseProofs.CoolDownLaw | services/battle/internal/engine/battle.go:119-122 | only the active battler's cooldowns tick |
| PhaseProofs.CooledLaw | services/battle/internal/engine/battle.go:126-132 | each positive entry falls by one |
| PhaseProofs.VictoryLaw | services/battle/internal/engine/battle.go:315-332 | the outcome by who has somebody standing, and its announcement |
| PhaseProofs.OverRefuses | services/battle/internal/engine/battle.go:86-88 | exactly the finished battles refuse a turn |
| DuelProofs.StepsCompose | services/battle/internal/engine/battle.go:182-297 | what each step keeps is kept by their sequence, and draws add up |
| AttackProofs.ExecuteMoveStep | services/battle/internal/engine/battle.go:182-297 | an attack keeps whatever clauses held of each battler, revives nobody, draws at most 7 words and logs every HP change |
| TurnProofs.FightPhase | services/battle/internal/engine/battle.go:98-123 | attacks, residuals and cooldowns break no clause of any battler, keep each side's ledger, touch no bench, draw at most 15 words |
| TurnProofs.SwitchOne | services/battle/internal/engine/battle.go:168-179 | a switch alters nothing but the active index and the leaver's boosts and flinch |
| TurnProofs.SwitchKeeps | services/battle/internal/engine/battle.go:168-179 | so it breaks no clause of any battler and leaves a clean bench clean |
| RunProofs.TurnKeepsInvariant | services/battle/internal/engine/battle.go:85-186 | the invariant, clause by clause from any state: HP in range, stages in range, cooldowns within their skills', possible statuses, no flinch and a clean bench are each kept by every turn, whether or not the others hold |
| RunProofs.TurnFrame | services/battle/internal/engine/battle.go:85-186 | a turn changes only the two active battlers, apart from the boosts of one switched out; nobody is revived and no clause broken |
| RunProofs.EventsAccountForHp | services/battle/internal/engine/battle.go:218-313 | for every state and actions, folding a turn's events over a side's post-switch HP gives exactly its HP at the end, if that HP is in range to start with |
| RunProofs.TurnDraws | services/battle/internal/engine/battle.go:85-153 | a turn draws at most 15 words |
| RunProofs.TurnCounts | services/battle/internal/engine/battle.go:85-89 | a turn counts once |
| RunProofs.TurnDecides | services/battle/internal/engine/battle.go:98-117 | after every turn Over holds exactly when a side has nobody left, and Winner is exactly the survivor |
| BattleProofs.ReachableBattles | services/battle/internal/engine/battle.go:67-124 | from any fresh teams, seed and actions: stages, cooldowns, flinch and bench in order, HP in range where MaxHP is not negative, no impossible status unless brought along, nobody revived, 15 draws a turn, exact outcome after any turn |
| BattleProofs.DocumentedStands | pkg/creatures/stats.go:25-42 | a documented creature enters battle standing, with MaxHP of 10 or more |
| BattleProofs.UsableAlongBattle | services/battle/internal/engine/battle.go:35-42 | along any battle from any state the number of usable battlers of a side never rises |
| Digests.Hasher.Put | services/battle/internal/engine/battle.go:340-345 | a value enters the hash as its eight little-endian bytes |
| Digests.DigestOf | services/battle/internal/engine/battle.go:337-356 | the digest is FNV-1a of the serialised generator, turn, active indices, HP and statuses |
| Digests.FnvStepInjective | services/battle/internal/engine/battle.go:338-355 | a hash step is injective in the running hash and in the byte |
| Digests.DigestSeparates | services/battle/internal/engine/battle.go:337-356 | battles whose serialised forms differ in one byte have different digests |
| DigestProofs.SerialiseExact | services/battle/internal/engine/battle.go:346-354 | same-shape battles serialise alike exactly when generator, turn, active indices, HP and statuses agree |
| DigestProofs.DigestBlind | services/battle/internal/engine/battle.go:334-356 | stages, cooldowns and counter of any battler, the outcome and the log do not enter the digest |
| DigestProofs.SerialiseLayout | services/battle/internal/engine/battle.go:337-356 | where each value stands in the serialised form, in little-endian words, and that there is nothing else |
| DigestProofs.FnvVectors | services/battle/internal/engine/battle.go:338-355 | the hash gives the published 64-bit FNV-1a values |
| DigestProofs.StatusCodes | pkg/types/types.go:150-158 | the number of each status |
| DigestProofs.TamperingShows | services/battle/internal/engine/battle.go:334-356 | changing one battler's status, or the low byte of its HP, always changes the digest |
| Records.Recorder.RecordTurn | services/battle/internal/persistence/record.go:47-49 | the turn is appended, nothing else changes |
| Records.Recorder.Finish | services/battle/internal/persistence/record.go:52-56 | winner and digest are stamped on the record |
| Records.BuildBattlers | services/battle/internal/persistence/record.go:95-106 | fresh, unshared battlers of the team, or the first unknown species |
| Records.PartyLaw | services/battle/internal/persistence/record.go:95-106 | a team is built exactly when every species is known, each place a fresh battler of its instance |
| Records.FirstUnknown | services/battle/internal/persistence/record.go:98-101 | otherwise the first unknown species is named |
| Records.RunTurns | services/battle/internal/persistence/record.go:72-79 | the recorded turns are played until the battle is over |
| Records.Replay | services/battle/internal/persistence/record.go:62-81 | winner, digest and turn count of an independent re-simulation, or its error |
| Records.Verify | services/battle/internal/persistence/record.go:87-93 | the verdict compares the reproduced winner and digest with the recorded ones |
| Sessions.Session.AcceptIntent | services/battle/internal/netcode/session.go:178-194 | only participants, only the first message of a turn, illegal actions replaced |
| Sessions.Session.FillMissing | services/battle/internal/netcode/session.go:209-217 | exactly the missing intents become slot 0 |
| IntentProofs.MessageLaw | services/battle/internal/netcode/session.go:178-207 | exactly which messages count and which actions stand; anything else becomes slot 0 |
| IntentProofs.TimerLaw | services/battle/internal/netcode/session.go:209-217 | when the timer fires, whoever is missing plays slot 0 |
| Sessions.Session.Select | services/battle/internal/netcode/session.go:149-162 | reads inputs in order until both intents are in, or the run is cancelled |
| Sessions.Session.Run | services/battle/internal/netcode/session.go:132-176 | the loop ends in the specified state, record and number of onEnd calls |
| SessionProofs.EveryEndedMatchVerifies | services/battle/internal/persistence/record.go:62-93 | for every schedule, a match that ends verifies: the record carries the live battle's winner, digest and turn count, and replay reproduces them; onEnd once; no turn refused |
| SessionProofs.ForgedResultsFail | services/battle/internal/persistence/record.go:83-93 | a genuine record verifies with exactly one winner and digest |
| SessionProofs.PaddedRecordStillVerifies | services/battle/internal/persistence/record.go:72-75 | turns after the end are ignored by replay |
| SessionProofs.TruncatedRecordFails | services/battle/internal/persistence/record.go:62-93 | a genuine record cut short replays to an unfinished battle, and never verifies if anybody won |
| IntentProofs.CollectReads | services/battle/internal/netcode/session.go:145-194 | a turn reads the shortest stretch of inputs that decides it, and resolves each side's first choice |
| IntentProofs.RecordedChoice | services/battle/internal/netcode/session.go:178-217 | a turn records each side's first message as sent if it may be submitted, and slot 0 otherwise |
| IntentProofs.CollectLaw | services/battle/internal/netcode/session.go:149-162 | an unresolved turn was cancelled or ran out of inputs, and a cancellation is never passed over |
| Sessions.RunUnfolds | services/battle/internal/netcode/session.go:136-175 | a run goes on with the turn its inputs resolve, or leaves off waiting or cancelled |
| Sessions.RunEnds | services/battle/internal/netcode/session.go:137-144 | a finished battle ends the run with its winner and digest on record, once |
| IntentProofs.SwitchGoesThrough | services/battle/internal/netcode/session.go:198-207 | a first message that switches to another standing member is recorded, and that member ends the turn active |
| IntentProofs.RunFollowsInputs | services/battle/internal/netcode/session.go:136-175 | a run's inputs fall into consecutive stretches, one per recorded turn |
| Service.HostMatch | services/battle/cmd/demo/main.go:45-70 | objects, session, recorder and verifier together: whatever arrives, an ended match gets a record the verifier accepts |
| Matcher.BandWidens | services/matchmaking/internal/matcher.go:45-53 | the band grows with waiting and never exceeds its cap |
| BandProofs.BandLaw | services/matchmaking/internal/matcher.go:42-53 | the band: opening band, whole seconds times the widening, a quarter of the deviation, under the cap |
| BandProofs.BandSteps | services/matchmaking/internal/matcher.go:46-48 | below the cap each second adds exactly the widening, and four points of deviation add one |
| BandProofs.MeetIff | services/matchmaking/internal/matcher.go:83-91 | exactly when two tickets may be matched, by gap, waits, deviations and policy |
| BandProofs.ReachesFrom | services/matchmaking/internal/matcher.go:45-53 | from which second on a band reaches a gap |
| BandProofs.DefaultPolicyWidens | services/matchmaking/internal/matcher.go:37-53 | players 200 apart are not matched on arrival and are after ten seconds |
| BandProofs.KeyLaw | services/matchmaking/internal/matcher.go:64 | a ticket's key is its region and mode around the separator |
| Matcher.FindPartner | services/matchmaking/internal/matcher.go:77-95 | the inner scan with its early break finds the next ticket or nobody |
| Matcher.PairGroup | services/matchmaking/internal/matcher.go:72-105 | the quadratic scan equals the linear greedy on every sorted group, for any bands and timeouts |
| Matcher.SortByMMR | services/matchmaking/internal/matcher.go:71 | some sorted rearrangement |
| Matcher.Pair | services/matchmaking/internal/matcher.go:61-108 | the pool is split by key, each group sorted and paired on its own, in any order of keys |
| MatcherProofs.PoolConserved | services/matchmaking/internal/matcher.go:61-108 | every ticket appears exactly once, in a match or left over |
| MatcherProofs.MatchesRespectPolicy | services/matchmaking/internal/matcher.go:83-98 | every match is allowed by a band or a timeout, and BandUsed is its true gap |
| MatcherProofs.UniformBandsAreOptimal | services/matchmaking/internal/matcher.go:70-100 | with equal bands and no timeout, no pairing that respects the band has more matches |
| MatcherProofs.GreedyIsBest | services/matchmaking/internal/matcher.go:70-100 | the same whenever eligibility is a common bound on the gap |
| MatcherProofs.GreedyIsAPairing | services/matchmaking/internal/matcher.go:70-100 | the matches made are themselves such a pairing |
| PoolProofs.GroupOptimal | services/matchmaking/internal/matcher.go:70-100 | under a common bound on the gap no list of allowed matches from a group's tickets is longer |
| PoolProofs.PoolOptimal | services/matchmaking/internal/matcher.go:61-108 | with equal bands within each key and nobody timed out, no choice of allowed matches from the whole pool is larger |
| MatcherProofs.MixedBandsFallShort | services/matchmaking/internal/matcher.go:77-100 | with unequal bands one match can be made where two are possible |
| MatcherProofs.MixedBandsArise | services/matchmaking/internal/matcher.go:45-53 | four tickets whose bands are of that kind |
| DisparityProofs.EvenGroupMinimal | services/matchmaking/internal/matcher.go:55-100 | in an even group whose neighbours may meet, everybody is matched, at the smallest total disparity |
| DisparityProofs.OddGroupMinimalIff | services/matchmaking/internal/matcher.go:55-100 | in an odd one the last ticket stays, and the total is smallest exactly when leaving out no other of even position gives closer couples |
| DisparityProofs.GroupMinimalIff | services/matchmaking/internal/matcher.go:55-100 | under a common bound on the gap, the total disparity of a group is the smallest among as many allowed matches exactly when that holds of each of its odd runs |
| DisparityProofs.UniformGroupMinimalIff | services/matchmaking/internal/matcher.go:55-100 | so for every group with equal bands and nobody timed out |
| DisparityProofs.NearestPassedOver | services/matchmaking/internal/matcher.go:55-100 | of three, the first two are matched however much closer the last two are |
| MatcherProofs.LeftoversByPosition | services/matchmaking/internal/matcher.go:72-105 | the leftovers are the tickets at the positions left alone, in order |
| MatcherProofs.StaysIff | services/matchmaking/internal/matcher.go:72-105 | a position is left alone exactly when it is unused and may not be paired with the next |
| MatcherProofs.TimedOutStaysIff | services/matchmaking/internal/matcher.go:72-105 | a timed-out ticket is left exactly when unused and last, or followed by one 2^30 away or more |
| MatcherProofs.TimedOutNeighboursMatch | services/matchmaking/internal/matcher.go:83-100 | neighbours closer than 2^30, one of them timed out, are matched with each other if the first is unused |
| MatcherProofs.TimedOutLeftover | services/matchmaking/internal/matcher.go:88-105 | every timed-out leftover of any group is its last ticket or followed by one 2^30 away or more |
| MatcherProofs.TimedOutLeftoverIsLast | services/matchmaking/internal/matcher.go:88-105 | so with closer neighbours a group leaves at most one, the last in sorted order |
| MatcherProofs.FarApartNeverMatch | services/matchmaking/internal/matcher.go:78-91 | no match of any outcome joins tickets 2^30 apart, timed out or not |
| MatcherProofs.FarPairWaits | services/matchmaking/internal/matcher.go:78-105 | two such tickets on their own are both left over |
| MatcherProofs.EveryMatchIsFair | services/matchmaking/internal/matcher.go:61-108 | every match made joins two tickets of the pool with one key, allowed by a band or a timeout, at their true gap |
| MatcherProofs.SameKeyIff | services/matchmaking/internal/matcher.go:62-66 | exactly when two tickets share a pool: same region and mode, or one region runs over the separator into the other's mode |
| MatcherProofs.PlainRegionsNeverMix | services/matchmaking/internal/matcher.go:62-66 | so regions and modes never mix when no region's name holds the separator |
| Repo.MemRepo.TransferOwnership | services/profile/internal/repo_memory.go:92-105 | a guarded move, or an error and no change |
| Repo.PgRepo.TransferOwnership | services/profile/internal/repo_postgres.go:138-152 | the same by one guarded update, with one error for both failures |
| EscrowProofs.TransferIff | services/profile/internal/repo_memory.go:88-105 | exactly which transfers succeed, on either store, what they change and why they fail |
| Repo.MemRepo.TransferBatch | services/profile/internal/repo_memory.go:110-130 | all transfers are applied, or none and the first failing guard is reported |
| Repo.PgRepo.TransferBatch | services/profile/internal/repo_postgres.go:159-174 | guarded updates one by one, rolled back in full at the first miss |
| Repo.Batch | services/profile/internal/repo_memory.go:107-130 | a refused batch leaves every owner in place, in either store |
| EscrowProofs.FirstFault | services/profile/internal/repo_memory.go:110-122 | a refused batch names the first transfer at fault |
| EscrowProofs.AppliedOwners | services/profile/internal/repo_memory.go:123-129 | an accepted batch leaves each creature with its last receiver, and is otherwise unchanged |
| RepoProofs.MemoryAcceptsIff | services/profile/internal/repo_memory.go:113-122 | memory accepts exactly the batches that transfer from the owners before the batch |
| RepoProofs.PostgresAcceptsIff | services/profile/internal/repo_postgres.go:159-174 | Postgres accepts exactly those that transfer from the owner as each transfer's turn comes |
| RepoProofs.BatchesAgreeIff | services/profile/internal/repo_memory.go:9-12 | on every repository and batch the two agree exactly when both conditions hold or neither does |
| RepoProofs.DistinctBatchesAgree | services/profile/internal/repo_memory.go:107-130 | on distinct creatures both batches agree on success and on every owner |
| RepoProofs.SequentialAgreesIff | services/profile/internal/repo_postgres.go:155-174 | of the batches memory accepts, Postgres accepts exactly those that repeat a creature only to hand it to its owner |
| RepoProofs.RepeatsDisagree | services/profile/internal/repo_memory.go:9-12 | a double listing passes only in memory, a there-and-back only in Postgres |
| Trades.TradeManager.Open | services/profile/internal/trade.go:63-73 | a new open trade with empty offers and no locks, under the given id |
| EscrowProofs.OpenLaw | services/profile/internal/trade.go:63-73 | a new trade is open between its parties, with nothing offered or locked |
| Trades.TradeManager.Stage | services/profile/internal/trade.go:76-98 | only owned creatures can be offered; both locks fall; the first fault is reported and changes nothing |
| EscrowProofs.StageIff | services/profile/internal/trade.go:76-98 | staging succeeds exactly for a party of an open trade that owns everything it offers; then its offer is new and both locks are off |
| EscrowProofs.StageErrors | services/profile/internal/trade.go:76-92 | which error a failed staging gives, in order |
| Trades.TradeManager.Lock | services/profile/internal/trade.go:104-113 | one party's lock is set, on an open trade only |
| EscrowProofs.LockIff | services/profile/internal/trade.go:100-113 | locking succeeds exactly for a party of an open trade, and sets that lock alone |
| Trades.TradeManager.Commit | services/profile/internal/trade.go:119-148 | both locks needed; the whole swap or an error and no change |
| EscrowProofs.CommitIff | services/profile/internal/trade.go:115-148 | a commit succeeds exactly on an open trade with both locks whose swap the store accepts |
| EscrowProofs.SwapLaw | services/profile/internal/trade.go:135-141 | the transfers of a swap, one by one |
| Trades.TradeManager.Cancel | services/profile/internal/trade.go:151-166 | a party voids a trade that is not committed; ownership stays |
| EscrowProofs.CancelIff | services/profile/internal/trade.go:150-166 | cancelling succeeds exactly for a party of a trade that is not committed |
| TradeProofs.LockMeansAgreement | services/profile/internal/trade.go:100-113 | over any history, a set lock dates from a lock of that party that took effect, and the offers are those of that time |
| TradeProofs.CommitSwapsWhatWasAgreed | services/profile/internal/trade.go:115-148 | every commit swaps exactly the offers that both parties locked, each by a lock that took effect |
| TradeProofs.RefusedChangesNothing | services/profile/internal/trade.go:76-166 | a refused operation leaves trades and ownership as they were |
| TradeProofs.TerminalAbsorbs | services/profile/internal/trade.go:23-29 | a committed or cancelled trade never changes again, with fresh ids |
| TradeProofs.CommitsOnce | services/profile/internal/trade.go:20-28 | each trade swaps at most once, with fresh ids |
| OwnershipProofs.CommitExchanges | services/profile/internal/trade.go:132-147 | on either store the offers change owners, third parties and creature data do not; the order of the two halves matters exactly when an offer overlaps the other, which memory refuses |
| OwnershipProofs.OwnershipChains | services/profile/internal/trade.go:9-22 | over any history each creature's transfers form an unbroken chain to its present owner: on Postgres always, in memory with duplicate-free offers |
| OwnershipProofs.CommitKeepsChainIff | services/profile/internal/trade.go:132-147 | a successful commit continues the chain on Postgres always, in memory exactly when its offers are duplicate-free or the parties are one account |
| OwnershipProofs.MemorySwapsIff | services/profile/internal/repo_memory.go:113-122 | memory accepts a swap exactly when each party owns its whole offer |
| OwnershipProofs.PostgresSwapsIff | services/profile/internal/repo_postgres.go:159-174 | Postgres accepts a swap between two accounts exactly when it can be delivered in order and neither offer repeats a creature |
| OwnershipProofs.SwapAgreesIff | services/profile/internal/repo_postgres.go:154-174 | the two stores part ways on a swap exactly when it is deliverable, between two accounts, and either repeats a creature or has one in both offers, not both |
| OwnershipProofs.CommitsAgreeIff | services/profile/internal/trade.go:115-148 | the same for a locked commit: exactly which commits depend on the store |
| OwnershipProofs.CrossListing | services/profile/internal/trade.go:76-98 | a duplicate-free history after which memory refuses the commit and Postgres makes it |
| Limiter.MemoryLimiter.Allow | services/gateway/internal/gateway.go:167-182 | one call on one bucket; all other buckets stay |
| Limiter.CallLaw | services/gateway/internal/gateway.go:173-181 | a window opens, a token is taken, or the call is refused and the bucket left alone |
| Limiter.WindowLaw | services/gateway/internal/gateway.go:173-181 | within one window exactly the first rate calls are allowed, and always the first |
| Limiter.AnswerIgnoresOthers | services/gateway/internal/gateway.go:170-171 | an answer depends on the earlier calls of its own key alone |
| Limiter.SlidingWindowBound | services/gateway/internal/gateway.go:173-181 | at most 2 * rate - 1 allowed calls in any closed interval of one window's length |
| Limiter.EveryKeyIsBounded | services/gateway/internal/gateway.go:167-182 | the same for each key of a limiter shared by many |
| Limiter.BoundIsAttained | services/gateway/internal/gateway.go:173-181 | for every positive rate and window some run reaches that bound |
| Limiter.RateBoundsIff | services/gateway/internal/gateway.go:173-181 | the rate itself is a sliding bound exactly when it is one, or positive with a window of no length |
| Limiter.SameBucketIff | services/gateway/internal/gateway.go:170-171 | exactly which callers share a bucket |
| Pages.ListCreatures | services/profile/internal/repo_memory.go:55-73 | the page is the first ids after the cursor, in order, up to the limit |
| Pages.List | services/profile/internal/collection.go:66-71 | the same with the page size kept within 1 to 100 |
| Pages.PageLaw | services/profile/internal/repo_memory.go:52-73 | a page holds the owner's creatures after the cursor, in order, passing over none |
| Pages.PageSizeLaw | services/profile/internal/collection.go:66-71 | sizes from 1 to 100 are kept, others become 50 |
| Pages.OrderLaw | services/profile/internal/repo_memory.go:55-73 | ids are compared by the first character in which they differ |
| Pages.IdsIncrease | services/profile/internal/repo_memory.go:52-54 | ids go up within and across pages, whatever changes in between |
| Pages.ListedExactlyOnce | services/profile/internal/repo_memory.go:52-73 | a creature owned throughout is listed exactly once, if and only if its id is not empty |
| Pages.ListAll | services/profile/internal/repo_memory.go:55-73 | on a collection at rest the traversal ends and reads exactly the owner's creatures in order |

## Left out

- HTTP handlers, the reverse proxy, WebSocket transport, broadcasts and snapshot views: input and output only.
- Goroutines and the 16-slot inbox: `Sessions.Session.Run` is single-threaded over the order in which its `select`
  statement receives messages, timer firings and cancellation; every such order is covered.
- A turn resolved with an empty party panics in the source; the replayer reports it as `Panicked`, and the other results
  are about battles whose parties are not empty.
- Bit-exact IEEE rounding: the arithmetic is over the reals.
- Event texts, so the names of the stats in a block of stat events are not told apart.
- Skill names, power points and the abilities Pressure and Insulate's speed bonus, which the engine does not implement.
- The battle AI, the creature generator, experience, evolution, authentication, passwords and save files.
- SQL, connection pools and the concurrency of transactions, except the guarded updates of one transaction in order.
- Adding creatures during a trade history, team lists, and `UpdateCreature`, which overwrites the owner.
- Mutation of a trade through the pointer that `Open` returns or through the maps that `Get` shares with its copy.
- Wall clocks, id sources and time zones: times and new ids are parameters, and durations do not saturate.
