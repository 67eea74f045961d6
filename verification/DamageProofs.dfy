/** Order properties of the damage pipeline. */
module DamageProofs {
  import opened Types
  import opened Creatures
  import opened Words
  import opened Rng
  import opened Battlers
  import opened Damage

  // ----- Arithmetic on non-negative reals -----

  lemma ScaleMonotone(a: real, b: real, c: real)
    requires 0.0 <= a <= b && 0.0 <= c
    ensures 0.0 <= a * c <= b * c
  {
    assert (b - a) * c >= 0.0;
  }

  lemma ProductMonotone(a: real, b: real, c: real, d: real)
    requires 0.0 <= a <= b && 0.0 <= c <= d
    ensures 0.0 <= a * c <= b * d
  {
    ScaleMonotone(a, b, c);
    assert b * (d - c) >= 0.0;
    assert b * d == b * c + b * (d - c);
  }

  lemma RatioMonotone(a: real, b: real, c: real, d: real)
    requires 0.0 <= a <= b && 0.0 < d <= c
    ensures 0.0 <= Ratio(a, c) <= Ratio(b, d)
  {
    var q, p := a / c, b / d;
    assert q * c == a && p * d == b;
    if p < q {
      assert 0.0 < q;
      ScaleMonotone(d, c, q);
      assert (q - p) * d > 0.0;
    }
  }

  lemma FloorMonotone(x: real, y: real)
    requires x <= y
    ensures x.Floor <= y.Floor
  {
  }

  lemma TruncMonotone(x: real, y: real)
    requires 0.0 <= x <= y
    ensures 0 <= Trunc(x) <= Trunc(y)
  {
  }

  lemma RoundMonotone(x: real, y: real)
    requires 0.0 <= x <= y
    ensures RoundHalfUp(x) <= RoundHalfUp(y)
  {
    FloorMonotone(x + 0.5, y + 0.5);
  }

  // ----- The stages of the pipeline -----

  predicate PositiveStats(s: Stats) {
    s.attack > 0 && s.defense > 0 && s.spAttack > 0 && s.spDefense > 0
  }

  lemma StageMonotone(s: Int8, t: Int8)
    requires s <= t
    ensures StageMultiplier(s) <= StageMultiplier(t)
  {
  }

  lemma BaseMonotone(level: int, p: int, q: int, a: real, b: real, c: real, d: real)
    requires level >= 0 && 0 <= p <= q && 0.0 <= a <= b && 0.0 < d <= c
    ensures 2 <= BaseDamage(level, p, a, c) <= BaseDamage(level, q, b, d)
  {
    hide Ratio, Trunc, LevelTerm;
    LevelTermPositive(level);
    ScaleMonotone(p as real, q as real, LevelTerm(level) as real);
    ProductMonotone(LevelTerm(level) as real * p as real, LevelTerm(level) as real * q as real, a, b);
    RatioMonotone(LevelTerm(level) as real * p as real * a, LevelTerm(level) as real * q as real * b, c, d);
    TruncMonotone(Ratio(LevelTerm(level) as real * p as real * a, c) / 50.0,
      Ratio(LevelTerm(level) as real * q as real * b, d) / 50.0);
  }

  lemma LevelTermPositive(level: int)
    requires level >= 0
    ensures LevelTerm(level) >= 2
  {
  }

  lemma StagedMonotone(n: int, s: Int8, t: Int8)
    requires n > 0 && s <= t
    ensures 0.0 < n as real * StageMultiplier(s) <= n as real * StageMultiplier(t)
  {
    hide StageMultiplier;
    StageMonotone(s, t);
    ScaleMonotone(StageMultiplier(s), StageMultiplier(t), n as real);
    assert n as real * StageMultiplier(s) > 0.0;
  }

  lemma AttackOrder(b: BattlerState, c: DamageClass)
    requires PositiveStats(b.stats)
    ensures 0.0 <= EffAttack(b, c) <= CritAttack(b, c)
  {
    hide StageMultiplier;
    StagedMonotone(b.stats.spAttack, b.stages.spa, if b.stages.spa < 0 then 0 else b.stages.spa);
    StagedMonotone(b.stats.attack, b.stages.atk, if b.stages.atk < 0 then 0 else b.stages.atk);
    ScaleMonotone(b.stats.attack as real * StageMultiplier(b.stages.atk),
      b.stats.attack as real * StageMultiplier(if b.stages.atk < 0 then 0 else b.stages.atk), BurnFactor(b));
  }

  lemma DefenseOrder(b: BattlerState, c: DamageClass)
    requires PositiveStats(b.stats)
    ensures 0.0 < CritDefense(b, c) <= EffDefense(b, c)
  {
    hide StageMultiplier;
    StagedMonotone(b.stats.spDefense, if b.stages.spd > 0 then 0 else b.stages.spd, b.stages.spd);
    StagedMonotone(b.stats.defense, if b.stages.def > 0 then 0 else b.stages.def, b.stages.def);
  }

  /** Everything that follows the base damage, one factor at a time. */
  lemma FactorsMonotone(a: real, b: real, stab: real, m: real, n: real, c: real, d: real, off: real, dfn: real, s: real)
    requires 0.0 <= a <= b && 0.0 <= stab && 0.0 <= m <= n && 0.0 <= c <= d && 0.0 <= off && 0.0 <= dfn && 0.0 <= s
    ensures 0.0 <= a * stab * m * c * off * dfn * s <= b * stab * n * d * off * dfn * s
  {
    ScaleMonotone(a, b, stab);
    ProductMonotone(a * stab, b * stab, m, n);
    ProductMonotone(a * stab * m, b * stab * n, c, d);
    ScaleMonotone(a * stab * m * c, b * stab * n * d, off);
    ScaleMonotone(a * stab * m * c * off, b * stab * n * d * off, dfn);
    ScaleMonotone(a * stab * m * c * off * dfn, b * stab * n * d * off * dfn, s);
  }

  lemma MatchupNonNegative(def: BattlerState, skill: Skill)
    ensures Matchup(def, skill) >= 0.0
  {
    hide DualEffectiveness;
    DualMultiplierValues(skill.element, def.species.element1, def.species.element2);
  }

  lemma ModsAlike(att: BattlerState, d1: BattlerState, d2: BattlerState, k1: Skill, k2: Skill)
    requires k2 == k1.(power := k2.power) && d2 == d1.(species := d2.species)
    ensures Stab(att, k1) == Stab(att, k2) > 0.0
    ensures OffensiveAbilityMod(att, k1) == OffensiveAbilityMod(att, k2) > 0.0
    ensures DefensiveAbilityMod(d1, k1) == DefensiveAbilityMod(d2, k2) > 0.0
  {
  }

  lemma ScaledMonotone(a: int, b: int, att: BattlerState, d1: BattlerState, d2: BattlerState, k1: Skill, k2: Skill,
                       c1: bool, c2: bool, s: real)
    requires 0 <= a <= b && (c1 ==> c2) && s >= 0.0
    requires k2 == k1.(power := k2.power)
    requires d2 == d1.(species := d2.species)
    requires Matchup(d1, k1) <= Matchup(d2, k2)
    ensures RoundHalfUp(Scaled(a, att, d1, k1, c1, s)) <= RoundHalfUp(Scaled(b, att, d2, k2, c2, s))
  {
    hide Matchup, RoundHalfUp, Stab, OffensiveAbilityMod, DefensiveAbilityMod;
    MatchupNonNegative(d1, k1);
    ModsAlike(att, d1, d2, k1, k2);
    FactorsMonotone(a as real, b as real, Stab(att, k1), Matchup(d1, k1), Matchup(d2, k2),
      if c1 then 1.5 else 1.0, if c2 then 1.5 else 1.0, OffensiveAbilityMod(att, k1), DefensiveAbilityMod(d1, k1), s);
    RoundMonotone(Scaled(a, att, d1, k1, c1, s), Scaled(b, att, d2, k2, c2, s));
  }

  predicate Battleworthy(b: BattlerState) {
    PositiveStats(b.stats) && b.inst.level >= 0
  }

  // ----- Main results -----

  /** For the same spread, a critical hit never deals less than a plain one, whatever the
      stages, stats and burns. */
  lemma CritNeverLess(att: BattlerState, def: BattlerState, skill: Skill, spread: real)
    requires Battleworthy(att) && Battleworthy(def) && skill.power > 0 && spread >= 0.0
    ensures HitDamage(att, def, skill, false, spread) <= HitDamage(att, def, skill, true, spread)
  {
    hide Scaled, BaseDamage, EffAttack, EffDefense, CritAttack, CritDefense, Matchup, RoundHalfUp;
    var c := skill.class_;
    AttackOrder(att, c);
    DefenseOrder(def, c);
    BaseMonotone(att.inst.level, skill.power, skill.power, EffAttack(att, c), CritAttack(att, c), EffDefense(def, c), CritDefense(def, c));
    ScaledMonotone(
      BaseDamage(att.inst.level, skill.power, EffAttack(att, c), EffDefense(def, c)),
      BaseDamage(att.inst.level, skill.power, CritAttack(att, c), CritDefense(def, c)),
      att, def, def, skill, skill, false, true, spread);
  }

  /** Damage never falls when the power or the type matchup rises. */
  lemma DamageMonotone(att: BattlerState, def: BattlerState, skill: Skill, crit: bool, spread: real, power: int, species: Species)
    requires Battleworthy(att) && Battleworthy(def) && 0 < skill.power <= power && spread >= 0.0
    requires Matchup(def, skill) <= Matchup(def.(species := species), skill)
    ensures HitDamage(att, def, skill, crit, spread)
            <= HitDamage(att, def.(species := species), skill.(power := power), crit, spread)
  {
    hide Scaled, BaseDamage, EffAttack, CritAttack, StageMultiplier, RoundHalfUp, DualEffectiveness;
    var c := skill.class_;
    var def', skill' := def.(species := species), skill.(power := power);
    AttackOrder(att, c);
    DefenseOrder(def, c);
    var a := if crit then CritAttack(att, c) else EffAttack(att, c);
    var d := if crit then CritDefense(def, c) else EffDefense(def, c);
    assert d == if crit then CritDefense(def', c) else EffDefense(def', c);
    BaseMonotone(att.inst.level, skill.power, power, a, a, d, d);
    assert 0 <= BaseDamage(att.inst.level, skill.power, a, d) <= BaseDamage(att.inst.level, power, a, d);
    ScaledMonotone(BaseDamage(att.inst.level, skill.power, a, d), BaseDamage(att.inst.level, power, a, d),
      att, def, def', skill, skill', crit, crit, spread);
  }

  /** A hit removes HP exactly when a damaging move connects with a non-zero matchup; then it
      removes at least 1, and otherwise nothing. */
  lemma DamageIffConnects(rng: Word, att: BattlerState, def: BattlerState, skill: Skill)
    ensures var res := DamageFor(rng, att, def, skill).1;
            (res.damage >= 1 <==> Damaging(skill) && !res.missed && Matchup(def, skill) != 0.0)
            && (res.damage >= 1 || res.damage == 0)
  {
    hide DrawChance, DrawFloat, Matchup, EffectiveAccuracy, Scaled, BaseDamage, EffAttack, EffDefense, CritAttack, CritDefense, RoundHalfUp;
  }

  /** The divisor is positive for every battler built from documented data, at any stages. */
  lemma DivisorPositive(sp: Species, inst: Instance, b: BattlerState, c: DamageClass)
    requires Documented(sp, inst) && b.stats == FreshBattler(sp, inst).stats
    ensures EffDefense(b, c) > 0.0 && CritDefense(b, c) > 0.0
  {
    hide ComputeStats, StageMultiplier;
    StatsPositive(sp, inst);
    DefenseOrder(b, c);
  }
}
