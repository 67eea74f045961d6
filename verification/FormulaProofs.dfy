/** The damage formula told in full, and each of its parts: accuracy, critical hits, the same-type
    bonus, abilities, the spread and rounding. */
module FormulaProofs {
  import opened Types
  import opened Creatures
  import opened Words
  import opened Rng
  import opened Battlers
  import opened Damage
  import opened DamageProofs

  // ----- Who gets which multiplier -----

  /** The same-type bonus: half as much again, or twice as much with Adaptable, for a battler one
      of whose elements is the skill's. */
  predicate IsStab(x: real, att: BattlerState, skill: Skill) {
    var own := att.species.element1 == skill.element || att.species.element2 == skill.element;
    && (x == 1.5 <==> own && att.inst.ability != Adaptable)
    && (x == 2.0 <==> own && att.inst.ability == Adaptable)
    && (x == 1.0 <==> !own)
  }

  /** Blaze, Torrent and Overgrow: half as much again for their element, at a third of the HP or
      less. */
  predicate IsBoost(x: real, att: BattlerState, skill: Skill) {
    && (x == 1.5 <==> 3 * att.curHP <= att.maxHP
                      && (att.inst.ability, skill.element) in {(Blaze, Fire), (Torrent, Water), (Overgrow, Grass)})
    && (x == 1.0 <==> x != 1.5)
  }

  /** Iron Hide: a quarter less from physical moves. */
  predicate IsShield(x: real, def: BattlerState, skill: Skill) {
    && (x == 0.75 <==> def.inst.ability == IronHide && skill.class_ == Physical)
    && (x == 1.0 <==> x != 0.75)
  }

  lemma Multipliers(att: BattlerState, def: BattlerState, skill: Skill)
    ensures IsStab(Stab(att, skill), att, skill)
    ensures IsBoost(OffensiveAbilityMod(att, skill), att, skill)
    ensures IsShield(DefensiveAbilityMod(def, skill), def, skill)
  {
  }

  // ----- Critical hits -----

  /** A critical hit attacks with the better, and meets the worse, of the staged and the unstaged
      stat. */
  lemma CriticalStats(b: BattlerState, c: DamageClass)
    requires PositiveStats(b.stats)
    ensures var plain := b.(stages := NO_STAGES);
            && CritAttack(b, c) == (if EffAttack(b, c) > EffAttack(plain, c) then EffAttack(b, c) else EffAttack(plain, c))
            && CritDefense(b, c) == (if EffDefense(b, c) < EffDefense(plain, c) then EffDefense(b, c) else EffDefense(plain, c))
  {
    hide StageMultiplier, EffAttack, EffDefense, CritAttack, CritDefense;
    CriticalAttack(b, c);
    CriticalDefense(b, c);
  }

  lemma CriticalAttack(b: BattlerState, c: DamageClass)
    requires PositiveStats(b.stats)
    ensures var plain := b.(stages := NO_STAGES);
            CritAttack(b, c) == Higher(EffAttack(b, c), EffAttack(plain, c))
  {
    hide StageMultiplier, BurnFactor;
    BurnFactorAlike(b);
    HigherStaged(b.stats.attack, b.stages.atk, BurnFactor(b));
    HigherStage(b.stats.spAttack, b.stages.spa);
  }

  lemma CriticalDefense(b: BattlerState, c: DamageClass)
    requires PositiveStats(b.stats)
    ensures var plain := b.(stages := NO_STAGES);
            CritDefense(b, c) == Lower(EffDefense(b, c), EffDefense(plain, c))
  {
    hide StageMultiplier;
    LowerStage(b.stats.defense, b.stages.def);
    LowerStage(b.stats.spDefense, b.stages.spd);
  }

  function Higher(x: real, y: real): real {
    if x > y then x else y
  }

  function Lower(x: real, y: real): real {
    if x < y then x else y
  }

  lemma HigherStage(n: int, s: Int8)
    requires n > 0
    ensures n as real * StageMultiplier(if s < 0 then 0 else s) == Higher(n as real * StageMultiplier(s), n as real * StageMultiplier(0))
  {
    hide StageMultiplier;
    StageAgainstNone(n, s);
  }

  lemma HigherStaged(n: int, s: Int8, f: real)
    requires n > 0 && f > 0.0
    ensures n as real * StageMultiplier(if s < 0 then 0 else s) * f
            == Higher(n as real * StageMultiplier(s) * f, n as real * StageMultiplier(0) * f)
  {
    hide StageMultiplier;
    StagedAgainstNone(n, s, f);
  }

  lemma LowerStage(n: int, s: Int8)
    requires n > 0
    ensures n as real * StageMultiplier(if s > 0 then 0 else s) == Lower(n as real * StageMultiplier(s), n as real * StageMultiplier(0))
  {
    hide StageMultiplier;
    StageAgainstNone(n, s);
  }

  lemma BurnFactorAlike(b: BattlerState)
    ensures BurnFactor(b.(stages := NO_STAGES)) == BurnFactor(b) > 0.0
  {
  }

  lemma StageAgainstNone(n: int, s: Int8)
    requires n > 0
    ensures s >= 0 ==> n as real * StageMultiplier(s) >= n as real * StageMultiplier(0) > 0.0
    ensures s <= 0 ==> 0.0 < n as real * StageMultiplier(s) <= n as real * StageMultiplier(0)
  {
    hide StageMultiplier;
    if s >= 0 {
      StagedMonotone(n, 0, s);
    }
    if s <= 0 {
      StagedMonotone(n, s, 0);
    }
  }

  lemma StagedAgainstNone(n: int, s: Int8, f: real)
    requires n > 0 && f > 0.0
    ensures s >= 0 ==> n as real * StageMultiplier(s) * f >= n as real * StageMultiplier(0) * f
    ensures s <= 0 ==> n as real * StageMultiplier(s) * f <= n as real * StageMultiplier(0) * f
  {
    hide StageMultiplier;
    StageAgainstNone(n, s);
    if s >= 0 {
      ScaleMonotone(n as real * StageMultiplier(0), n as real * StageMultiplier(s), f);
    }
    if s <= 0 {
      ScaleMonotone(n as real * StageMultiplier(s), n as real * StageMultiplier(0), f);
    }
  }

  /** The critical chance by stage: 4, 12, 50, then always; a negative stage counts as none. */
  lemma CriticalChances(s: Int8)
    ensures s <= 0 ==> CritChance(s) == 4
    ensures s == 1 ==> CritChance(s) == 12
    ensures s == 2 ==> CritChance(s) == 50
    ensures s >= 3 ==> CritChance(s) == 100
  {
  }

  // ----- Accuracy -----

  lemma TruncIsWhole(x: real)
    requires x >= 0.0
    ensures WholeReal(Trunc(x), x)
  {
  }

  lemma QuotientPositive(a: real, b: real, c: real)
    requires a >= 0.0 && b > 0.0 && c > 0.0
    ensures b / c > 0.0 && a * (b / c) == a * b / c >= 0.0
  {
    var q := b / c;
    assert q * c == b;
    assert a * q * c == a * b;
  }

  lemma ProportionWhole(n: int, a: real, e: real)
    requires n >= 0 && a > 0.0 && e > 0.0
    ensures WholeReal(Proportion(n, a, e), n as real * a / e)
  {
    QuotientPositive(n as real, a, e);
    TruncOfEqual(n as real * (a / e), n as real * a / e);
  }

  lemma TruncOfEqual(x: real, y: real)
    requires x == y >= 0.0
    ensures WholeReal(Trunc(x), y)
  {
  }

  /** The odds of hitting: the accuracy, times what the attacker's accuracy stage is worth, over
      what the defender's evasion stage is worth, in whole percent. */
  lemma AccuracyOdds(att: BattlerState, def: BattlerState, skill: Skill)
    requires skill.accuracy >= 0
    ensures WholeReal(EffectiveAccuracy(att, def, skill),
                      skill.accuracy as real * AccStageMultiplier(att.stages.acc) / AccStageMultiplier(def.stages.eva))
  {
    hide AccStageMultiplier, Proportion;
    ProportionWhole(skill.accuracy, AccStageMultiplier(att.stages.acc), AccStageMultiplier(def.stages.eva));
  }

  lemma EqualStagesCancel(att: BattlerState, def: BattlerState, skill: Skill)
    requires att.stages.acc == def.stages.eva
    ensures EffectiveAccuracy(att, def, skill) == skill.accuracy
  {
    hide AccStageMultiplier;
    var a := AccStageMultiplier(att.stages.acc);
    assert a / a == 1.0 && skill.accuracy as real * 1.0 == skill.accuracy as real;
  }

  // ----- Spread and rounding -----

  lemma SpreadRange(f: real)
    requires 0.0 <= f < 1.0
    ensures 0.85 <= Spread(f) < 1.0 && (Spread(f) - 0.85) * 20.0 == 3.0 * f
  {
  }

  /** Rounding goes to the nearest whole number and, from halfway, away from zero. */
  lemma RoundsToNearest(x: real)
    requires x >= 0.0
    ensures RoundHalfUp(x) as real - 0.5 <= x < RoundHalfUp(x) as real + 0.5
    ensures RoundHalfUp(-x) == -RoundHalfUp(x)
  {
  }

  // ----- The formula -----

  /** The base damage: two more than the whole part of a fiftieth of what two fifths of the level
      and two more, the power, and attack over defence come to. */
  predicate IsBase(base: int, level: int, power: int, a: real, d: real) {
    d > 0.0
    && exists l | 0 <= l <= level :: WholePart(l, 2 * level, 5) && WholeReal(base - 2, BaseWorth(l, power, a, d))
  }

  function BaseWorth(l: int, power: int, a: real, d: real): real
    requires d > 0.0
  {
    (l + 2) as real * power as real * a / d / 50.0
  }

  lemma BaseWorthWhole(level: int, power: int, a: real, d: real, l: int)
    requires level >= 0 && power >= 0 && a >= 0.0 && d > 0.0 && LevelTerm(level) == l + 2 && l >= 0
    ensures BaseDamage(level, power, a, d) == Trunc(BaseWorth(l, power, a, d)) + 2 && BaseWorth(l, power, a, d) >= 0.0
  {
    hide LevelTerm, Trunc;
    var x := (l + 2) as real * power as real * a;
    ScaleMonotone(0.0, (l + 2) as real * power as real, a);
    QuotientPositive(x, 1.0, d);
    var q := x / d;
    assert q * d == x;
    assert LevelTerm(level) as real * power as real * a == x;
    assert Ratio(x, d) == q;
  }

  lemma BaseLaw(level: int, power: int, a: real, d: real)
    requires level >= 0 && power >= 0 && a >= 0.0 && d > 0.0
    ensures IsBase(BaseDamage(level, power, a, d), level, power, a, d)
  {
    hide WholeReal, Trunc, LevelTerm, BaseDamage, BaseWorth;
    var l := 2 * level / 5;
    assert WholePart(l, 2 * level, 5) && 0 <= l <= level;
    LevelTermIs(level);
    BaseWorthWhole(level, power, a, d, l);
    TruncIsWhole(BaseWorth(l, power, a, d));
  }

  lemma LevelTermIs(level: int)
    requires level >= 0
    ensures LevelTerm(level) == 2 * level / 5 + 2
  {
  }

  /** x rounds to n, and at least to one. */
  predicate RoundsTo(x: real, n: int) {
    n >= 1 && ((n as real - 0.5 <= x < n as real + 0.5) || (n == 1 && x < 0.5))
  }

  /** The damage of a hit: the base, times the same-type bonus, the matchup, one and a half if it
      is critical, the abilities of both, and the spread; rounded to the nearest, at least one. */
  lemma DamageFormula(att: BattlerState, def: BattlerState, skill: Skill, crit: bool, spread: real,
                      a: real, d: real, base: int, stab: real, boost: real, shield: real)
    requires Battleworthy(att) && Battleworthy(def) && skill.power > 0 && spread >= 0.0
    requires a == if crit && EffAttack(att.(stages := NO_STAGES), skill.class_) > EffAttack(att, skill.class_)
                  then EffAttack(att.(stages := NO_STAGES), skill.class_) else EffAttack(att, skill.class_)
    requires d == if crit && EffDefense(def.(stages := NO_STAGES), skill.class_) < EffDefense(def, skill.class_)
                  then EffDefense(def.(stages := NO_STAGES), skill.class_) else EffDefense(def, skill.class_)
    requires IsBase(base, att.inst.level, skill.power, a, d)
    requires IsStab(stab, att, skill) && IsBoost(boost, att, skill) && IsShield(shield, def, skill)
    ensures RoundsTo(base as real * stab * DualEffectiveness(skill.element, def.species.element1, def.species.element2)
                     * (if crit then 1.5 else 1.0) * boost * shield * spread,
                     HitDamage(att, def, skill, crit, spread))
  {
    hide EffAttack, EffDefense, CritAttack, CritDefense, DualEffectiveness, Stab, OffensiveAbilityMod, DefensiveAbilityMod,
      BaseDamage, IsBase, RoundHalfUp;
    CriticalStats(att, skill.class_);
    CriticalStats(def, skill.class_);
    Multipliers(att, def, skill);
    DefenseOrder(def, skill.class_);
    AttackOrder(att, skill.class_);
    BaseLaw(att.inst.level, skill.power, a, d);
    BaseUnique(base, BaseDamage(att.inst.level, skill.power, a, d), att.inst.level, skill.power, a, d);
    BaseMonotone(att.inst.level, skill.power, skill.power, a, a, d, d);
    ScaledRounds(base, att, def, skill, crit, spread);
  }

  lemma ScaledRounds(base: int, att: BattlerState, def: BattlerState, skill: Skill, crit: bool, spread: real)
    requires base >= 0 && spread >= 0.0
    ensures var x := Scaled(base, att, def, skill, crit, spread); RoundsTo(x, AtLeast1(RoundHalfUp(x)))
  {
    hide Scaled, RoundHalfUp;
    ScaledNonNegative(base, att, def, skill, crit, spread);
    RoundsToNearest(Scaled(base, att, def, skill, crit, spread));
  }

  lemma BaseUnique(x: int, y: int, level: int, power: int, a: real, d: real)
    requires IsBase(x, level, power, a, d) && IsBase(y, level, power, a, d)
    ensures x == y
  {
    hide BaseWorth;
    var l :| 0 <= l <= level && WholePart(l, 2 * level, 5) && WholeReal(x - 2, BaseWorth(l, power, a, d));
    var m :| 0 <= m <= level && WholePart(m, 2 * level, 5) && WholeReal(y - 2, BaseWorth(m, power, a, d));
    assert l == m;
  }

  // ----- The report of one attempt -----

  /** The order of the rolls and the report.  A status move, or one without power, rolls nothing.
      Then come accuracy, unless it is above 100, and on a hit the critical roll, and then, unless
      the matchup is zero, the spread.  The report carries the same-type bonus and the matchup of
      every connecting move. */
  lemma RollsInOrder(s: Word, att: BattlerState, def: BattlerState, skill: Skill)
    ensures var r := DamageFor(s, att, def, skill);
            var aim := if skill.accuracy > 100 then (s, true) else DrawChance(s, EffectiveAccuracy(att, def, skill));
            var crit := DrawChance(aim.0, CritChance(skill.critStage));
            var spread := DrawFloat(crit.0);
            var matchup := DualEffectiveness(skill.element, def.species.element1, def.species.element2);
            if skill.class_ == StatusOnly || skill.power <= 0 then r == (s, DamageResult(0, false, 1.0, 1.0, false))
            else if !aim.1 then r == (aim.0, DamageResult(0, false, 1.0, 1.0, true))
            else && !r.1.missed && r.1.crit == crit.1 && r.1.effectiveness == matchup && IsStab(r.1.stab, att, skill)
                 && (matchup == 0.0 ==> r.0 == crit.0 && r.1.damage == 0)
                 && (matchup != 0.0 ==> r.0 == spread.0 && r.1.damage == HitDamage(att, def, skill, crit.1, Spread(spread.1)))
  {
    hide DrawChance, DrawFloat, EffectiveAccuracy, CritChance, DualEffectiveness, HitDamage, Stab, IsStab;
    Multipliers(att, def, skill);
  }

  /** The same-type bonus is worth exactly what it says before rounding, and never less than
      nothing after: against an otherwise equal attacker without the skill's element, the amount
      is one and a half times, or twice, as large. */
  lemma StabScales(att: BattlerState, other: Species, def: BattlerState, skill: Skill, crit: bool, spread: real)
    requires Battleworthy(att) && Battleworthy(def) && skill.power > 0 && spread >= 0.0
    requires att.species.element1 == skill.element || att.species.element2 == skill.element
    requires other.element1 != skill.element && other.element2 != skill.element
    ensures forall base :: Scaled(base, att, def, skill, crit, spread)
                    == (if att.inst.ability == Adaptable then 2.0 else 1.5) * Scaled(base, att.(species := other), def, skill, crit, spread)
    ensures HitDamage(att, def, skill, crit, spread) >= HitDamage(att.(species := other), def, skill, crit, spread)
  {
    hide Scaled;
    var att', f := att.(species := other), if att.inst.ability == Adaptable then 2.0 else 1.5;
    forall base ensures Scaled(base, att, def, skill, crit, spread) == f * Scaled(base, att', def, skill, crit, spread) {
      StabFactor(base, att, other, def, skill, crit, spread, f);
    }
    hide HitDamage, RoundHalfUp, BaseFor;
    BaseIgnoresSpecies(att, other, def, skill, crit);
    HitIs(att, def, skill, crit, spread);
    HitIs(att', def, skill, crit, spread);
    var y := Scaled(BaseFor(att, def, skill, crit), att', def, skill, crit, spread);
    ScaledNonNegative(BaseFor(att, def, skill, crit), att', def, skill, crit, spread);
    assert 0.0 <= y <= f * y;
    RoundMonotone(y, f * y);
  }

  function BaseFor(att: BattlerState, def: BattlerState, skill: Skill, crit: bool): int {
    BaseDamage(att.inst.level, skill.power,
      if crit then CritAttack(att, skill.class_) else EffAttack(att, skill.class_),
      if crit then CritDefense(def, skill.class_) else EffDefense(def, skill.class_))
  }

  lemma HitIs(att: BattlerState, def: BattlerState, skill: Skill, crit: bool, spread: real)
    ensures HitDamage(att, def, skill, crit, spread)
            == AtLeast1(RoundHalfUp(Scaled(BaseFor(att, def, skill, crit), att, def, skill, crit, spread)))
  {
    hide RoundHalfUp, BaseDamage, Scaled, EffAttack, CritAttack, EffDefense, CritDefense;
  }

  lemma BaseIgnoresSpecies(att: BattlerState, other: Species, def: BattlerState, skill: Skill, crit: bool)
    requires Battleworthy(att) && Battleworthy(def) && skill.power > 0
    ensures BaseFor(att.(species := other), def, skill, crit) == BaseFor(att, def, skill, crit) >= 2
  {
    hide BaseDamage, EffDefense, CritDefense, StageMultiplier;
    var c := skill.class_;
    AttackOrder(att, c);
    DefenseOrder(def, c);
    var a := if crit then CritAttack(att, c) else EffAttack(att, c);
    var d := if crit then CritDefense(def, c) else EffDefense(def, c);
    BaseMonotone(att.inst.level, skill.power, skill.power, a, a, d, d);
    var att' := att.(species := other);
    assert EffAttack(att', c) == EffAttack(att, c) && CritAttack(att', c) == CritAttack(att, c);
  }

  lemma StabFactor(base: int, att: BattlerState, other: Species, def: BattlerState, skill: Skill, crit: bool, spread: real, f: real)
    requires f == Stab(att, skill) && Stab(att.(species := other), skill) == 1.0
    ensures Scaled(base, att, def, skill, crit, spread) == f * Scaled(base, att.(species := other), def, skill, crit, spread)
  {
    hide Matchup, Stab, DefensiveAbilityMod;
    FactorOut(base as real, f, Matchup(def, skill), if crit then 1.5 else 1.0, OffensiveAbilityMod(att, skill),
      DefensiveAbilityMod(def, skill), spread);
  }

  lemma FactorOut(b: real, f: real, m: real, c: real, o: real, d: real, s: real)
    ensures b * f * m * c * o * d * s == f * (b * 1.0 * m * c * o * d * s)
  {
    assert b * f == f * b && b * 1.0 == b;
    assert f * b * m == f * (b * m);
    assert f * (b * m) * c == f * (b * m * c);
    assert f * (b * m * c) * o == f * (b * m * c * o);
    assert f * (b * m * c * o) * d == f * (b * m * c * o * d);
    assert f * (b * m * c * o * d) * s == f * (b * m * c * o * d * s);
  }

  lemma ScaledNonNegative(base: int, att: BattlerState, def: BattlerState, skill: Skill, crit: bool, spread: real)
    requires base >= 0 && spread >= 0.0
    ensures Scaled(base, att, def, skill, crit, spread) >= 0.0
  {
    hide Matchup, Stab, OffensiveAbilityMod, DefensiveAbilityMod;
    Multipliers(att, def, skill);
    MatchupNonNegative(def, skill);
    FactorsMonotone(0.0, base as real, Stab(att, skill), Matchup(def, skill), Matchup(def, skill), 0.0, if crit then 1.5 else 1.0,
      OffensiveAbilityMod(att, skill), DefensiveAbilityMod(def, skill), spread);
  }
}
