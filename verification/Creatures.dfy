/** Static creature data and stat computation (pkg/creatures/model.go, pkg/creatures/stats.go). */
module Creatures {
  import opened Types

  datatype Ability =
    | NoAbility | Blaze | Torrent | Overgrow | Static | Levitate | Regenerator | IronHide
    | Insulate | Pressure | Adaptable

  datatype SkillEffect = SkillEffect(
    status: StatusCondition, statusChance: int, statChanges: map<string, Int8>,
    targetSelf: bool, healFrac: real, recoilFrac: real)

  datatype Skill = Skill(
    element: Element, class_: DamageClass, power: int, accuracy: int, priority: Int8,
    critStage: Int8, cooldown: Int8, effect: Option<SkillEffect>)

  datatype Species = Species(dexID: int, element1: Element, element2: Element, base: Stats)

  datatype Nature = Nature(up: string, down: string)

  type SkillSlots = s: seq<string> | |s| == 4 witness ["", "", "", ""]

  datatype Instance = Instance(
    dexID: int, level: int, ivs: Stats, evs: Stats, nature: Nature, ability: Ability,
    skillIDs: SkillSlots, status: StatusCondition, currentHP: int)

  // Go's conversion and division drop the fraction, rounding toward zero.
  function Trunc(x: real): int {
    if x >= 0.0 then x.Floor else -((-x).Floor)
  }

  function Quot(a: int, b: int): int
    requires b > 0
  {
    if a >= 0 then a / b else -((-a) / b)
  }

  /** Both drop the fraction of what is not negative, and treat a negative number as the negation
      of what they do to its opposite. */
  lemma TowardZero(x: real, a: int, b: int)
    requires x >= 0.0 && a >= 0 && b > 0
    ensures WholeReal(Trunc(x), x) && Trunc(-x) == -Trunc(x)
    ensures WholePart(Quot(a, b), a, b) && Quot(-a, b) == -Quot(a, b)
  {
  }

  function NatureMult(n: Nature, stat: string): real {
    if n.up == n.down then 1.0
    else if stat == n.up then 1.1
    else if stat == n.down then 0.9
    else 1.0
  }

  function CoreStat(base: int, iv: int, ev: int, level: int): int {
    Quot((2 * base + iv + Quot(ev, 4)) * level, 100)
  }

  function BattleStat(base: int, iv: int, ev: int, inst: Instance, stat: string): int {
    Trunc((CoreStat(base, iv, ev, inst.level) + 5) as real * NatureMult(inst.nature, stat))
  }

  function ComputeStats(sp: Species, inst: Instance): Stats {
    Stats(
      CoreStat(sp.base.hp, inst.ivs.hp, inst.evs.hp, inst.level) + inst.level + 10,
      BattleStat(sp.base.attack, inst.ivs.attack, inst.evs.attack, inst, "attack"),
      BattleStat(sp.base.defense, inst.ivs.defense, inst.evs.defense, inst, "defense"),
      BattleStat(sp.base.spAttack, inst.ivs.spAttack, inst.evs.spAttack, inst, "sp_attack"),
      BattleStat(sp.base.spDefense, inst.ivs.spDefense, inst.evs.spDefense, inst, "sp_defense"),
      BattleStat(sp.base.speed, inst.ivs.speed, inst.evs.speed, inst, "speed"))
  }

  predicate NonNegative(s: Stats) {
    s.hp >= 0 && s.attack >= 0 && s.defense >= 0 && s.spAttack >= 0 && s.spDefense >= 0 && s.speed >= 0
  }

  /** The documented data ranges that matter: no negative base stat, IV, EV or level. */
  predicate Documented(sp: Species, inst: Instance) {
    NonNegative(sp.base) && NonNegative(inst.ivs) && NonNegative(inst.evs) && inst.level >= 0
  }

  lemma CoreNonNegative(base: int, iv: int, ev: int, level: int)
    requires base >= 0 && iv >= 0 && ev >= 0 && level >= 0
    ensures CoreStat(base, iv, ev, level) >= 0
  {
    assert 2 * base + iv + Quot(ev, 4) >= 0;
    assert (2 * base + iv + Quot(ev, 4)) * level >= 0;
  }

  lemma BattleStatPositive(base: int, iv: int, ev: int, inst: Instance, stat: string)
    requires base >= 0 && iv >= 0 && ev >= 0 && inst.level >= 0
    ensures BattleStat(base, iv, ev, inst, stat) >= 4
  {
    CoreNonNegative(base, iv, ev, inst.level);
    var core := CoreStat(base, iv, ev, inst.level) + 5;
    assert core as real * 0.9 >= 4.5;
  }

  /** Every creature in the documented ranges has at least 10 HP and 4 in each other stat:
      it starts a battle alive, and no damage formula divides by zero. */
  lemma StatsPositive(sp: Species, inst: Instance)
    requires Documented(sp, inst)
    ensures var s := ComputeStats(sp, inst);
            s.hp >= 10 && s.attack >= 4 && s.defense >= 4 && s.spAttack >= 4 && s.spDefense >= 4 && s.speed >= 4
  {
    hide BattleStat;
    hide CoreStat;
    CoreNonNegative(sp.base.hp, inst.ivs.hp, inst.evs.hp, inst.level);
    BattleStatPositive(sp.base.attack, inst.ivs.attack, inst.evs.attack, inst, "attack");
    BattleStatPositive(sp.base.defense, inst.ivs.defense, inst.evs.defense, inst, "defense");
    BattleStatPositive(sp.base.spAttack, inst.ivs.spAttack, inst.evs.spAttack, inst, "sp_attack");
    BattleStatPositive(sp.base.spDefense, inst.ivs.spDefense, inst.evs.spDefense, inst, "sp_defense");
    BattleStatPositive(sp.base.speed, inst.ivs.speed, inst.evs.speed, inst, "speed");
  }

  /** The documented closed form at level 100 with a neutral nature: every stat is twice its base,
      plus its IV, plus a quarter of its EV, plus 110 for HP and 5 for the others. */
  lemma StatsAtLevel100(sp: Species, inst: Instance)
    requires Documented(sp, inst) && inst.level == 100 && inst.nature.up == inst.nature.down
    ensures var s, b, i, e := ComputeStats(sp, inst), sp.base, inst.ivs, inst.evs;
            && s.hp == 2 * b.hp + i.hp + e.hp / 4 + 110
            && s.attack == 2 * b.attack + i.attack + e.attack / 4 + 5
            && s.defense == 2 * b.defense + i.defense + e.defense / 4 + 5
            && s.spAttack == 2 * b.spAttack + i.spAttack + e.spAttack / 4 + 5
            && s.spDefense == 2 * b.spDefense + i.spDefense + e.spDefense / 4 + 5
            && s.speed == 2 * b.speed + i.speed + e.speed / 4 + 5
  {
    hide CoreStat;
    CoreAtLevel100(sp.base.hp, inst.ivs.hp, inst.evs.hp);
    CoreAtLevel100(sp.base.attack, inst.ivs.attack, inst.evs.attack);
    CoreAtLevel100(sp.base.defense, inst.ivs.defense, inst.evs.defense);
    CoreAtLevel100(sp.base.spAttack, inst.ivs.spAttack, inst.evs.spAttack);
    CoreAtLevel100(sp.base.spDefense, inst.ivs.spDefense, inst.evs.spDefense);
    CoreAtLevel100(sp.base.speed, inst.ivs.speed, inst.evs.speed);
  }

  lemma CoreAtLevel100(base: int, iv: int, ev: int)
    requires base >= 0 && iv >= 0 && ev >= 0
    ensures CoreStat(base, iv, ev, 100) == 2 * base + iv + ev / 4
  {
  }

  /** A nature raises the stat it names and lowers the other, and moves nothing else. */
  lemma NatureTrades(base: int, iv: int, ev: int, inst: Instance, stat: string)
    requires base >= 0 && iv >= 0 && ev >= 0 && inst.level >= 0
    ensures var plain, actual := CoreStat(base, iv, ev, inst.level) + 5, BattleStat(base, iv, ev, inst, stat);
            && (actual > plain ==> stat == inst.nature.up) && (actual < plain ==> stat == inst.nature.down)
            && (stat == inst.nature.down != inst.nature.up ==> actual < plain)
            && (stat == inst.nature.up != inst.nature.down && plain >= 10 ==> actual > plain)
  {
    CoreNonNegative(base, iv, ev, inst.level);
    var core := CoreStat(base, iv, ev, inst.level) + 5;
    assert core as real * 1.0 == core as real;
    assert core as real * 1.1 == core as real + core as real * 0.1;
    assert core as real * 0.9 == core as real - core as real * 0.1;
  }

  // ----- The stat formula at every level -----

  /** The formula common to all six stats: core is the whole part of a hundredth of level times
      (twice the base, plus the IV, plus a quarter of the EV). */
  ghost predicate IsCore(core: int, base: int, iv: int, ev: int, level: int) {
    exists q :: WholePart(q, ev, 4) && WholePart(core, (2 * base + iv + q) * level, 100)
  }

  /** The five battle stats: five more than the core, times so many tenths. */
  ghost predicate IsStat(stat: int, base: int, iv: int, ev: int, level: int, tenths: int) {
    exists core :: IsCore(core, base, iv, ev, level) && WholePart(stat, (core + 5) * tenths, 10)
  }

  /** Eleven tenths for the stat that a nature raises, nine for the one it lowers, and ten for
      all others; a nature that names one stat twice does neither. */
  predicate NatureTenths(n: Nature, stat: string, tenths: int) {
    && (tenths == 11 <==> stat == n.up && n.up != n.down)
    && (tenths == 9 <==> stat == n.down && n.up != n.down)
    && tenths in {9, 10, 11}
  }

  lemma CoreLaw(base: int, iv: int, ev: int, level: int)
    requires base >= 0 && iv >= 0 && ev >= 0 && level >= 0
    ensures IsCore(CoreStat(base, iv, ev, level), base, iv, ev, level)
  {
    CoreNonNegative(base, iv, ev, level);
    var q := ev / 4;
    assert WholePart(q, ev, 4);
    assert (2 * base + iv + q) * level >= 0;
    assert WholePart(CoreStat(base, iv, ev, level), (2 * base + iv + q) * level, 100);
  }

  lemma BattleStatLaw(base: int, iv: int, ev: int, inst: Instance, stat: string, tenths: int)
    requires base >= 0 && iv >= 0 && ev >= 0 && inst.level >= 0 && NatureTenths(inst.nature, stat, tenths)
    ensures IsStat(BattleStat(base, iv, ev, inst, stat), base, iv, ev, inst.level, tenths)
  {
    hide CoreStat, IsCore;
    CoreNonNegative(base, iv, ev, inst.level);
    CoreLaw(base, iv, ev, inst.level);
    var core := CoreStat(base, iv, ev, inst.level);
    var x := (core + 5) as real * NatureMult(inst.nature, stat);
    assert x * 10.0 == ((core + 5) * tenths) as real;
    assert BattleStat(base, iv, ev, inst, stat) == x.Floor;
    assert WholePart(x.Floor, (core + 5) * tenths, 10);
  }

  /** All six stats of every documented creature, at every level and under every nature. */
  lemma StatsLaw(sp: Species, inst: Instance, attack: int, defense: int, spAttack: int, spDefense: int, speed: int)
    requires Documented(sp, inst)
    requires NatureTenths(inst.nature, "attack", attack) && NatureTenths(inst.nature, "defense", defense)
    requires NatureTenths(inst.nature, "sp_attack", spAttack) && NatureTenths(inst.nature, "sp_defense", spDefense)
    requires NatureTenths(inst.nature, "speed", speed)
    ensures var s, b, i, e, l := ComputeStats(sp, inst), sp.base, inst.ivs, inst.evs, inst.level;
            && IsCore(s.hp - l - 10, b.hp, i.hp, e.hp, l)
            && IsStat(s.attack, b.attack, i.attack, e.attack, l, attack)
            && IsStat(s.defense, b.defense, i.defense, e.defense, l, defense)
            && IsStat(s.spAttack, b.spAttack, i.spAttack, e.spAttack, l, spAttack)
            && IsStat(s.spDefense, b.spDefense, i.spDefense, e.spDefense, l, spDefense)
            && IsStat(s.speed, b.speed, i.speed, e.speed, l, speed)
  {
    hide BattleStat, CoreStat, NatureTenths, IsCore, IsStat;
    CoreLaw(sp.base.hp, inst.ivs.hp, inst.evs.hp, inst.level);
    BattleStatLaw(sp.base.attack, inst.ivs.attack, inst.evs.attack, inst, "attack", attack);
    BattleStatLaw(sp.base.defense, inst.ivs.defense, inst.evs.defense, inst, "defense", defense);
    BattleStatLaw(sp.base.spAttack, inst.ivs.spAttack, inst.evs.spAttack, inst, "sp_attack", spAttack);
    BattleStatLaw(sp.base.spDefense, inst.ivs.spDefense, inst.evs.spDefense, inst, "sp_defense", spDefense);
    BattleStatLaw(sp.base.speed, inst.ivs.speed, inst.evs.speed, inst, "speed", speed);
  }

  /** The formula determines the stat. */
  lemma StatIsUnique(x: int, y: int, base: int, iv: int, ev: int, level: int, tenths: int)
    requires IsStat(x, base, iv, ev, level, tenths) && IsStat(y, base, iv, ev, level, tenths)
    ensures x == y
  {
    var c :| IsCore(c, base, iv, ev, level) && WholePart(x, (c + 5) * tenths, 10);
    var d :| IsCore(d, base, iv, ev, level) && WholePart(y, (d + 5) * tenths, 10);
    assert c == d by {
      CoreIsUnique(c, d, base, iv, ev, level);
    }
  }

  lemma CoreIsUnique(x: int, y: int, base: int, iv: int, ev: int, level: int)
    requires IsCore(x, base, iv, ev, level) && IsCore(y, base, iv, ev, level)
    ensures x == y
  {
    var q :| WholePart(q, ev, 4) && WholePart(x, (2 * base + iv + q) * level, 100);
    var r :| WholePart(r, ev, 4) && WholePart(y, (2 * base + iv + r) * level, 100);
    assert q == r;
  }
}
