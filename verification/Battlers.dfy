/** A creature inside one battle: its state, stages and status rules
    (services/battle/internal/engine/battler.go, services/battle/internal/engine/status.go). */
module Battlers {
  import opened Types
  import opened Creatures
  import opened Words
  import opened Rng

  /** Boost levels, -6..+6 in play; each is an int8. */
  datatype Stages = Stages(atk: Int8, def: Int8, spa: Int8, spd: Int8, spe: Int8, acc: Int8, eva: Int8)

  const NO_STAGES := Stages(0, 0, 0, 0, 0, 0, 0)

  type Cooldowns = s: seq<Int8> | |s| == 4 witness [0, 0, 0, 0]

  const NO_COOLDOWNS: Cooldowns := [0, 0, 0, 0]

  datatype BattlerState = BattlerState(
    species: Species, inst: Instance, maxHP: int, stats: Stats,
    curHP: int, status: StatusCondition, statusCtr: int,
    stages: Stages, cooldowns: Cooldowns, flinched: bool)
  {
    predicate Fainted() {
      curHP <= 0
    }

    predicate HasAbility(a: Ability) {
      inst.ability == a
    }
  }

  function FreshBattler(sp: Species, inst: Instance): BattlerState {
    var stats := ComputeStats(sp, inst);
    var cur := if inst.currentHP <= 0 || inst.currentHP > stats.hp then stats.hp else inst.currentHP;
    BattlerState(sp, inst, stats.hp, stats, cur, inst.status, 0, NO_STAGES, NO_COOLDOWNS, false)
  }

  // ----- Stages -----

  /** Go's int8 addition wraps around. */
  function WrapInt8(v: int): Int8 {
    (v + 128) % 256 - 128
  }

  function ClampStage(cur: Int8, delta: Int8): Int8 {
    var v := WrapInt8(cur + delta);
    if v > 6 then 6 else if v < -6 then -6 else v
  }

  function StageMultiplier(stage: Int8): (m: real)
    ensures m > 0.0
  {
    if stage >= 0 then (2 + stage) as real / 2.0 else 2.0 / (2 - stage) as real
  }

  function AccStageMultiplier(stage: Int8): (m: real)
    ensures m > 0.0
  {
    if stage >= 0 then (3 + stage) as real / 3.0 else 3.0 / (3 - stage) as real
  }

  function ApplyStatStage(st: Stages, stat: string, delta: Int8): Stages {
    if stat == "attack" then st.(atk := ClampStage(st.atk, delta))
    else if stat == "defense" then st.(def := ClampStage(st.def, delta))
    else if stat == "sp_attack" then st.(spa := ClampStage(st.spa, delta))
    else if stat == "sp_defense" then st.(spd := ClampStage(st.spd, delta))
    else if stat == "speed" then st.(spe := ClampStage(st.spe, delta))
    else if stat == "accuracy" then st.(acc := ClampStage(st.acc, delta))
    else if stat == "evasion" then st.(eva := ClampStage(st.eva, delta))
    else st
  }

  predicate StageOk(s: Int8) {
    -6 <= s <= 6
  }

  predicate StagesOk(st: Stages) {
    StageOk(st.atk) && StageOk(st.def) && StageOk(st.spa) && StageOk(st.spd) && StageOk(st.spe)
    && StageOk(st.acc) && StageOk(st.eva)
  }

  /** Adding a delta saturates at +-6 exactly when the int8 sum does not wrap; for stages in
      range that is every delta from -122 to 121, so every documented one. */
  lemma ClampSaturates(cur: Int8, delta: Int8)
    requires StageOk(cur)
    ensures StageOk(ClampStage(cur, delta))
    ensures ClampStage(cur, delta) == (if cur + delta > 6 then 6 else if cur + delta < -6 then -6 else cur + delta)
            <==> -128 <= cur + delta <= 127
  {
  }

  /** Opposite stages cancel, and the extremes are fourfold and threefold. */
  lemma StageMultipliersReciprocal(s: Int8)
    requires StageOk(s)
    ensures StageMultiplier(s) * StageMultiplier(-s) == 1.0 && AccStageMultiplier(s) * AccStageMultiplier(-s) == 1.0
    ensures 0.25 <= StageMultiplier(s) <= 4.0 && (s == 6 <==> StageMultiplier(s) == 4.0)
    ensures AccStageMultiplier(s) <= 3.0 && (s == 6 <==> AccStageMultiplier(s) == 3.0)
  {
    if s == 0 {
    } else if s > 0 {
      assert (2 + s) as real / 2.0 * (2.0 / (2 + s) as real) == 1.0;
      assert (3 + s) as real / 3.0 * (3.0 / (3 + s) as real) == 1.0;
    } else {
      assert 2.0 / (2 - s) as real * ((2 - s) as real / 2.0) == 1.0;
      assert 3.0 / (3 - s) as real * ((3 - s) as real / 3.0) == 1.0;
    }
  }

  // ----- Effective stats -----

  function BurnFactor(b: BattlerState): real {
    if b.status == Burn then 0.5 else 1.0
  }

  function EffAttack(b: BattlerState, c: DamageClass): real {
    if c == Special then b.stats.spAttack as real * StageMultiplier(b.stages.spa)
    else b.stats.attack as real * StageMultiplier(b.stages.atk) * BurnFactor(b)
  }

  function EffDefense(b: BattlerState, c: DamageClass): real {
    if c == Special then b.stats.spDefense as real * StageMultiplier(b.stages.spd)
    else b.stats.defense as real * StageMultiplier(b.stages.def)
  }

  function EffSpeed(b: BattlerState): real {
    b.stats.speed as real * StageMultiplier(b.stages.spe) * (if b.status == Paralysis then 0.5 else 1.0)
  }

  // ----- Status conditions -----

  predicate Has(sp: Species, e: Element) {
    sp.element1 == e || sp.element2 == e
  }

  predicate ImmuneTo(sp: Species, s: StatusCondition) {
    match s
    case Burn => Has(sp, Fire)
    case Freeze => Has(sp, Ice)
    case Poison => Has(sp, Element.Toxin) || Has(sp, Metal)
    case Toxic => Has(sp, Element.Toxin) || Has(sp, Metal)
    case Paralysis => Has(sp, Electric)
    case _ => false
  }

  function WithStatus(b: BattlerState, s: StatusCondition): (r: (BattlerState, bool)) {
    if b.status != NoStatus || b.Fainted() || ImmuneTo(b.species, s) then (b, false)
    else if s == Sleep || s == Toxic then (b.(status := s, statusCtr := 1), true)
    else (b.(status := s), true)
  }

  function WithSleep(b: BattlerState, rng: Word): (Word, BattlerState, bool) {
    if b.status != NoStatus then (rng, b, false)
    else
      var roll := DrawIntN(rng, 3);
      (roll.0, b.(status := Sleep, statusCtr := 1 + roll.1), true)
  }

  datatype Gate = Gate(rng: Word, battler: BattlerState, canAct: bool, announced: bool)

  function ThroughGate(b: BattlerState, rng: Word): Gate {
    match b.status
    case Sleep =>
      if b.statusCtr - 1 <= 0 then Gate(rng, b.(statusCtr := b.statusCtr - 1, status := NoStatus), true, true)
      else Gate(rng, b.(statusCtr := b.statusCtr - 1), false, true)
    case Freeze =>
      var roll := DrawChance(rng, 20);
      if roll.1 then Gate(roll.0, b.(status := NoStatus), true, true) else Gate(roll.0, b, false, true)
    case Paralysis =>
      var roll := DrawChance(rng, 25);
      if roll.1 then Gate(roll.0, b, false, true) else ThroughFlinch(b, roll.0)
    case _ => ThroughFlinch(b, rng)
  }

  function ThroughFlinch(b: BattlerState, rng: Word): Gate {
    if b.flinched then Gate(rng, b.(flinched := false), false, true) else Gate(rng, b, true, false)
  }

  function AtLeast1(n: int): (m: int)
    ensures m >= 1 && m >= n && (m == n || m == 1)
  {
    if n < 1 then 1 else n
  }

  function ClampHP(hp: int, max: int): int {
    var capped := if hp > max then max else hp;
    if capped < 0 then 0 else capped
  }

  /** The escalating share of MaxHP that toxic poison takes. */
  function ToxicShare(maxHP: int, ctr: int): int {
    maxHP * ctr / 16
  }

  /** What the residual damage of the current status takes at the end of a turn. */
  function StatusToll(b: BattlerState): int {
    match b.status
    case Burn => AtLeast1(b.maxHP / 8)
    case Poison => AtLeast1(b.maxHP / 8)
    case Toxic => AtLeast1(ToxicShare(b.maxHP, b.statusCtr))
    case _ => 0
  }

  function Regeneration(b: BattlerState): int {
    if b.HasAbility(Regenerator) then AtLeast1(b.maxHP / 16) else 0
  }

  function AfterTurn(b: BattlerState): (r: (BattlerState, int)) {
    if b.Fainted() then (b, 0)
    else
      var delta := Regeneration(b) - StatusToll(b);
      (b.(curHP := ClampHP(b.curHP + delta, b.maxHP),
          statusCtr := if b.status == Toxic then b.statusCtr + 1 else b.statusCtr), delta)
  }

  function Cooled(c: Int8): Int8 {
    if c > 0 then c - 1 else c
  }

  function CooledAll(cs: Cooldowns): Cooldowns {
    [Cooled(cs[0]), Cooled(cs[1]), Cooled(cs[2]), Cooled(cs[3])]
  }

  // ----- The mutable battler -----

  class Battler {
    const species: Species
    const inst: Instance
    const maxHP: int
    const stats: Stats
    var curHP: int
    var status: StatusCondition
    var statusCtr: int
    var stages: Stages
    var cooldowns: Cooldowns
    var flinched: bool

    function State(): BattlerState
      reads this
    {
      BattlerState(species, inst, maxHP, stats, curHP, status, statusCtr, stages, cooldowns, flinched)
    }

    constructor (sp: Species, inst: Instance)
      ensures State() == FreshBattler(sp, inst)
    {
      var computed := ComputeStats(sp, inst);
      var cur := inst.currentHP;
      if cur <= 0 || cur > computed.hp {
        cur := computed.hp;
      }
      species, this.inst, maxHP, stats := sp, inst, computed.hp, computed;
      curHP, status, statusCtr := cur, inst.status, 0;
      stages, cooldowns, flinched := NO_STAGES, NO_COOLDOWNS, false;
    }

    method ApplyStatus(s: StatusCondition) returns (ok: bool)
      modifies this
      ensures (State(), ok) == WithStatus(old(State()), s)
    {
      hide ImmuneTo;
      if status != NoStatus || curHP <= 0 {
        return false;
      }
      if ImmuneTo(species, s) {
        return false;
      }
      status := s;
      if s == Sleep {
        statusCtr := 1;
      }
      if s == Toxic {
        statusCtr := 1;
      }
      ok := true;
    }

    method SetSleep(rng: RNG) returns (ok: bool)
      modifies this, rng
      ensures (rng.state, State(), ok) == WithSleep(old(State()), old(rng.state))
    {
      hide DrawIntN;
      if status != NoStatus {
        return false;
      }
      status := Sleep;
      var roll := rng.IntN(3);
      statusCtr := 1 + roll;
      ok := true;
    }

    method PreMoveGate(rng: RNG) returns (canAct: bool, announced: bool)
      modifies this, rng
      ensures Gate(rng.state, State(), canAct, announced) == ThroughGate(old(State()), old(rng.state))
    {
      hide DrawChance;
      match status {
        case Sleep =>
          statusCtr := statusCtr - 1;
          if statusCtr <= 0 {
            status := NoStatus;
            return true, true;
          }
          return false, true;
        case Freeze =>
          var thaw := rng.Chance(20);
          if thaw {
            status := NoStatus;
            return true, true;
          }
          return false, true;
        case Paralysis =>
          var stuck := rng.Chance(25);
          if stuck {
            return false, true;
          }
        case _ =>
      }
      if flinched {
        flinched := false;
        return false, true;
      }
      return true, false;
    }

    /** The residual damage of the current status; toxic poison escalates. */
    method StatusTick() returns (dmg: int)
      modifies this`statusCtr
      ensures dmg == StatusToll(old(State()))
      ensures statusCtr == if status == Toxic then old(statusCtr) + 1 else old(statusCtr)
    {
      hide ToxicShare;
      dmg := 0;
      match status {
        case Burn | Poison =>
          dmg := maxHP / 8;
          if dmg < 1 {
            dmg := 1;
          }
        case Toxic =>
          dmg := ToxicShare(maxHP, statusCtr);
          if dmg < 1 {
            dmg := 1;
          }
          statusCtr := statusCtr + 1;
        case _ =>
      }
    }

    method EndOfTurnTick() returns (delta: int)
      modifies this
      ensures (State(), delta) == AfterTurn(old(State()))
    {
      hide StatusToll;
      if curHP <= 0 {
        return 0;
      }
      var dmg := StatusTick();
      delta := -dmg;
      if inst.ability == Regenerator {
        var heal := maxHP / 16;
        if heal < 1 {
          heal := 1;
        }
        delta := delta + heal;
      }
      curHP := curHP + delta;
      if curHP > maxHP {
        curHP := maxHP;
      }
      if curHP < 0 {
        curHP := 0;
      }
    }

    method AddStage(stat: string, delta: Int8)
      modifies this`stages
      ensures stages == ApplyStatStage(old(stages), stat, delta)
    {
      if stat == "attack" {
        stages := stages.(atk := ClampStage(stages.atk, delta));
      } else if stat == "defense" {
        stages := stages.(def := ClampStage(stages.def, delta));
      } else if stat == "sp_attack" {
        stages := stages.(spa := ClampStage(stages.spa, delta));
      } else if stat == "sp_defense" {
        stages := stages.(spd := ClampStage(stages.spd, delta));
      } else if stat == "speed" {
        stages := stages.(spe := ClampStage(stages.spe, delta));
      } else if stat == "accuracy" {
        stages := stages.(acc := ClampStage(stages.acc, delta));
      } else if stat == "evasion" {
        stages := stages.(eva := ClampStage(stages.eva, delta));
      }
    }

    method TickCooldowns()
      modifies this`cooldowns
      ensures State() == old(State()).(cooldowns := CooledAll(old(cooldowns)))
    {
      var i := 0;
      while i < 4
        invariant 0 <= i <= 4
        invariant forall k :: 0 <= k < i ==> cooldowns[k] == Cooled(old(cooldowns)[k])
        invariant forall k :: i <= k < 4 ==> cooldowns[k] == old(cooldowns)[k]
      {
        if cooldowns[i] > 0 {
          cooldowns := cooldowns[i := cooldowns[i] - 1];
        }
        i := i + 1;
      }
      assert cooldowns == CooledAll(old(cooldowns));
    }
  }
}
