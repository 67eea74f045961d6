/** The damage pipeline (services/battle/internal/engine/damage.go), over real arithmetic. */
module Damage {
  import opened Types
  import opened Creatures
  import opened Words
  import opened Rng
  import opened Battlers

  datatype DamageResult = DamageResult(damage: int, crit: bool, effectiveness: real, stab: real, missed: bool)

  /** Rounds half away from zero. */
  function RoundHalfUp(x: real): int {
    if x >= 0.0 then (x + 0.5).Floor else -((0.5 - x).Floor)
  }

  /** The source divides floats; a zero divisor never arises for documented creatures
      (lemma DivisorPositive), and is given the value 0 here. */
  function Ratio(a: real, b: real): real {
    if b == 0.0 then 0.0 else a / b
  }

  const CRIT_CHANCE_BY_STAGE: seq<int> := [4, 12, 50, 100]

  /** The tier of a move, clamped to the table. */
  function CritTier(critStage: Int8): (tier: nat)
    ensures tier < |CRIT_CHANCE_BY_STAGE|
  {
    if critStage < 0 then 0
    else if critStage >= |CRIT_CHANCE_BY_STAGE| then |CRIT_CHANCE_BY_STAGE| - 1
    else critStage
  }

  function CritChance(critStage: Int8): int {
    CRIT_CHANCE_BY_STAGE[CritTier(critStage)]
  }

  /** n times a over e, without the fraction. */
  function Proportion(n: int, a: real, e: real): int
    requires e != 0.0
  {
    Trunc(n as real * (a / e))
  }

  function EffectiveAccuracy(att: BattlerState, def: BattlerState, skill: Skill): int {
    Proportion(skill.accuracy, AccStageMultiplier(att.stages.acc), AccStageMultiplier(def.stages.eva))
  }

  /** A critical hit ignores the attacker's negative stages. */
  function CritAttack(b: BattlerState, c: DamageClass): real {
    if c == Special then b.stats.spAttack as real * StageMultiplier(if b.stages.spa < 0 then 0 else b.stages.spa)
    else b.stats.attack as real * StageMultiplier(if b.stages.atk < 0 then 0 else b.stages.atk) * BurnFactor(b)
  }

  /** A critical hit ignores the defender's positive stages. */
  function CritDefense(b: BattlerState, c: DamageClass): real {
    if c == Special then b.stats.spDefense as real * StageMultiplier(if b.stages.spd > 0 then 0 else b.stages.spd)
    else b.stats.defense as real * StageMultiplier(if b.stages.def > 0 then 0 else b.stages.def)
  }

  function LevelTerm(level: int): int {
    Quot(2 * level, 5) + 2
  }

  function BaseDamage(level: int, power: int, atk: real, def: real): int {
    Trunc(Ratio(LevelTerm(level) as real * power as real * atk, def) / 50.0) + 2
  }

  function Stab(att: BattlerState, skill: Skill): real {
    if !Has(att.species, skill.element) then 1.0
    else if att.HasAbility(Adaptable) then 2.0 else 1.5
  }

  function Matchup(def: BattlerState, skill: Skill): real {
    DualEffectiveness(skill.element, def.species.element1, def.species.element2)
  }

  function OffensiveAbilityMod(b: BattlerState, skill: Skill): real {
    var low := b.curHP * 3 <= b.maxHP;
    if b.HasAbility(Blaze) && skill.element == Fire && low then 1.5
    else if b.HasAbility(Torrent) && skill.element == Water && low then 1.5
    else if b.HasAbility(Overgrow) && skill.element == Grass && low then 1.5
    else 1.0
  }

  function DefensiveAbilityMod(b: BattlerState, skill: Skill): real {
    if b.HasAbility(IronHide) && skill.class_ == Physical then 0.75 else 1.0
  }

  /** The multipliers that follow the base damage, in pipeline order. */
  function Scaled(base: int, att: BattlerState, def: BattlerState, skill: Skill, crit: bool, spread: real): real {
    base as real * Stab(att, skill) * Matchup(def, skill) * (if crit then 1.5 else 1.0)
    * OffensiveAbilityMod(att, skill) * DefensiveAbilityMod(def, skill) * spread
  }

  /** The damage of a connecting hit of non-zero effectiveness. */
  function HitDamage(att: BattlerState, def: BattlerState, skill: Skill, crit: bool, spread: real): int {
    var atk := if crit then CritAttack(att, skill.class_) else EffAttack(att, skill.class_);
    var dfn := if crit then CritDefense(def, skill.class_) else EffDefense(def, skill.class_);
    AtLeast1(RoundHalfUp(Scaled(BaseDamage(att.inst.level, skill.power, atk, dfn), att, def, skill, crit, spread)))
  }

  function Spread(f: real): real {
    0.85 + f * 0.15
  }

  predicate Damaging(skill: Skill) {
    skill.class_ != StatusOnly && skill.power > 0
  }

  function AccuracyRoll(rng: Word, att: BattlerState, def: BattlerState, skill: Skill): (Word, bool) {
    if skill.accuracy <= 100 then DrawChance(rng, EffectiveAccuracy(att, def, skill)) else (rng, true)
  }

  function DamageFor(rng: Word, att: BattlerState, def: BattlerState, skill: Skill): (Word, DamageResult) {
    if !Damaging(skill) then (rng, DamageResult(0, false, 1.0, 1.0, false))
    else
      var aim := AccuracyRoll(rng, att, def, skill);
      if !aim.1 then (aim.0, DamageResult(0, false, 1.0, 1.0, true))
      else
        var crit := DrawChance(aim.0, CritChance(skill.critStage));
        var eff := Matchup(def, skill);
        if eff == 0.0 then (crit.0, DamageResult(0, crit.1, eff, Stab(att, skill), false))
        else
          var f := DrawFloat(crit.0);
          (f.0, DamageResult(HitDamage(att, def, skill, crit.1, Spread(f.1)), crit.1, eff, Stab(att, skill), false))
  }

  method ComputeDamage(rng: RNG, attacker: Battler, defender: Battler, skill: Skill) returns (res: DamageResult)
    modifies rng
    ensures (rng.state, res) == DamageFor(old(rng.state), attacker.State(), defender.State(), skill)
  {
    hide DrawChance, DrawFloat, DualEffectiveness, CritTier, EffectiveAccuracy, EffAttack, EffDefense, CritAttack, CritDefense, Ratio,
      LevelTerm, RoundHalfUp, OffensiveAbilityMod, DefensiveAbilityMod;
    ghost var att, def := attacker.State(), defender.State();
    res := DamageResult(0, false, 1.0, 1.0, false);
    if skill.class_ == StatusOnly || skill.power <= 0 {
      return;
    }
    if skill.accuracy <= 100 {
      var hit := rng.Chance(EffectiveAccuracy(attacker.State(), defender.State(), skill));
      if !hit {
        return res.(missed := true);
      }
    }
    var crit := rng.Chance(CritChance(skill.critStage));
    var atk := EffAttack(attacker.State(), skill.class_);
    var dfn := EffDefense(defender.State(), skill.class_);
    if crit {
      atk := CritAttack(attacker.State(), skill.class_);
      dfn := CritDefense(defender.State(), skill.class_);
    }
    var dmg := BaseDamage(attacker.inst.level, skill.power, atk, dfn) as real;
    res := res.(crit := crit);
    if Has(attacker.species, skill.element) {
      res := res.(stab := if attacker.inst.ability == Adaptable then 2.0 else 1.5);
    }
    dmg := dmg * res.stab;
    res := res.(effectiveness := DualEffectiveness(skill.element, defender.species.element1, defender.species.element2));
    if res.effectiveness == 0.0 {
      return;
    }
    dmg := dmg * res.effectiveness;
    dmg := dmg * (if crit then 1.5 else 1.0);
    dmg := dmg * OffensiveAbilityMod(attacker.State(), skill);
    dmg := dmg * DefensiveAbilityMod(defender.State(), skill);
    var f := rng.Float();
    dmg := dmg * (0.85 + f * 0.15);
    assert dmg == Scaled(BaseDamage(att.inst.level, skill.power, atk, dfn), att, def, skill, crit, Spread(f));
    res := res.(damage := RoundHalfUp(dmg));
    if res.damage < 1 {
      res := res.(damage := 1);
    }
  }
}
