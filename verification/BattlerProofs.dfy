/** The rules of a single battler, each told apart from how the engine computes it: how it enters,
    what a stage is worth, which statuses take, and what they cost. */
module BattlerProofs {
  import opened Types
  import opened Creatures
  import opened Words
  import opened Rng
  import opened ChanceProofs
  import opened Battlers

  // ----- Entering battle -----

  /** A battler enters with the HP it brought if that is between 1 and its maximum, and at full HP
      otherwise; with the status it brought; and with no counter, stage, cooldown or flinch. */
  lemma EntersBattle(sp: Species, inst: Instance)
    ensures var b := FreshBattler(sp, inst);
            && b.species == sp && b.inst == inst && b.status == inst.status
            && b.stats == ComputeStats(sp, inst) && b.maxHP == b.stats.hp
            && (1 <= inst.currentHP <= b.maxHP ==> b.curHP == inst.currentHP)
            && (!(1 <= inst.currentHP <= b.maxHP) ==> b.curHP == b.maxHP)
            && b.statusCtr == 0 && !b.flinched
            && b.stages == Stages(0, 0, 0, 0, 0, 0, 0) && b.cooldowns == [0, 0, 0, 0]
  {
    hide ComputeStats;
  }

  // ----- Stages -----

  /** No stage multiplies by one; each stage up adds a half to a stat, a third to accuracy and
      evasion; and a stage down undoes a stage up. */
  lemma StageSteps(s: Int8)
    requires 0 <= s < 127
    ensures StageMultiplier(0) == 1.0 && AccStageMultiplier(0) == 1.0
    ensures StageMultiplier(s + 1) == StageMultiplier(s) + 0.5
    ensures 3.0 * (AccStageMultiplier(s + 1) - AccStageMultiplier(s)) == 1.0
    ensures StageMultiplier(-s) * StageMultiplier(s) == 1.0 && AccStageMultiplier(-s) * AccStageMultiplier(s) == 1.0
  {
    if s > 0 {
      var x, y := (2 + s) as real, (3 + s) as real;
      assert x > 0.0 && y > 0.0;
      assert (2.0 / x) * (x / 2.0) == 1.0;
      assert (3.0 / y) * (y / 3.0) == 1.0;
    }
  }

  /** The seven names of stages, and nothing for any other name. */
  lemma NamedStages(st: Stages, d: Int8)
    ensures ApplyStatStage(st, "attack", d) == st.(atk := ClampStage(st.atk, d))
    ensures ApplyStatStage(st, "defense", d) == st.(def := ClampStage(st.def, d))
    ensures ApplyStatStage(st, "sp_attack", d) == st.(spa := ClampStage(st.spa, d))
    ensures ApplyStatStage(st, "sp_defense", d) == st.(spd := ClampStage(st.spd, d))
    ensures ApplyStatStage(st, "speed", d) == st.(spe := ClampStage(st.spe, d))
    ensures ApplyStatStage(st, "accuracy", d) == st.(acc := ClampStage(st.acc, d))
    ensures ApplyStatStage(st, "evasion", d) == st.(eva := ClampStage(st.eva, d))
    ensures forall name :: name !in ["attack", "defense", "sp_attack", "sp_defense", "speed", "accuracy", "evasion"] ==>
      ApplyStatStage(st, name, d) == st
  {
    hide ClampStage;
  }

  /** Each effective stat is the computed stat of its class times what its own stage is worth;
      burn halves physical attack, and paralysis speed. */
  lemma EffectiveStats(b: BattlerState)
    ensures EffAttack(b, Special) == b.stats.spAttack as real * StageMultiplier(b.stages.spa)
    ensures forall c :: c != Special ==>
      EffAttack(b, c) == (if b.status == Burn then 0.5 else 1.0) * (b.stats.attack as real * StageMultiplier(b.stages.atk))
    ensures EffDefense(b, Special) == b.stats.spDefense as real * StageMultiplier(b.stages.spd)
    ensures forall c :: c != Special ==> EffDefense(b, c) == b.stats.defense as real * StageMultiplier(b.stages.def)
    ensures EffSpeed(b) == (if b.status == Paralysis then 0.5 else 1.0) * (b.stats.speed as real * StageMultiplier(b.stages.spe))
  {
    hide StageMultiplier;
  }

  // ----- Statuses -----

  /** Which statuses a species' elements keep off. */
  predicate KeptOff(sp: Species, s: StatusCondition) {
    var elements := {sp.element1, sp.element2};
    || (s == Burn && Fire in elements)
    || (s == Freeze && Ice in elements)
    || ((s == Poison || s == Toxic) && (Element.Toxin in elements || Metal in elements))
    || (s == Paralysis && Electric in elements)
  }

  /** A status takes exactly on a standing battler that has none and whose elements do not keep it
      off; sleep and toxic poison start their counter at one. */
  lemma StatusTakesIff(b: BattlerState, s: StatusCondition)
    ensures var r := WithStatus(b, s);
            && (r.1 <==> b.status == NoStatus && b.curHP > 0 && !KeptOff(b.species, s))
            && r.0 == (if r.1 then b.(status := s, statusCtr := if s in {Sleep, Toxic} then 1 else b.statusCtr) else b)
  {
  }

  /** Rolled sleep takes exactly on a battler without a status, fainted or not, and its counter of
      one to three comes from one word. */
  lemma SleepTakesIff(b: BattlerState, s: Word)
    ensures var r := WithSleep(b, s);
            && (r.2 <==> b.status == NoStatus)
            && (!r.2 ==> r.0 == s && r.1 == b)
            && (r.2 ==> r.0 == Jump(s, 1) && r.1 == b.(status := Sleep, statusCtr := r.1.statusCtr)
                        && 1 <= r.1.statusCtr <= 3
                        && exists q: nat :: Drawn(s, 0) == 3 * q + (r.1.statusCtr - 1))
  {
    hide DrawIntN, Drawn;
    IntNLaw(s, 3);
    if b.status == NoStatus {
      var q: nat :| Drawn(s, 0) == q * 3 + DrawIntN(s, 3).1;
      assert Drawn(s, 0) == 3 * q + (WithSleep(b, s).1.statusCtr - 1);
    }
  }

  // ----- The gate before a move -----

  /** The states of one period from which a battler gets to act. */
  ghost function ActingStates(b: BattlerState, s: Word): set<nat> {
    set k: nat | k < WORD_COUNT && ThroughGate(b, Jump(s, k)).canAct
  }

  /** A frozen battler thaws and acts, or stays as it is and does not; over one period it acts
      twenty hundredths of the time. */
  lemma FrozenGate(b: BattlerState, s: Word)
    requires b.status == Freeze
    ensures var g := ThroughGate(b, s);
            g.announced && g.rng == Jump(s, 1) && g.battler == if g.canAct then b.(status := NoStatus) else b
    ensures |ActingStates(b, s)| == 20 * 184467440737095516 + 16
  {
    hide DrawChance, Jump;
    ChanceLaw(s, 20);
    assert ActingStates(b, s) == Successes(s, 20);
    ChanceCount(s, 20);
  }

  ghost function StuckStates(b: BattlerState, s: Word): set<nat> {
    set k: nat | k < WORD_COUNT && !ThroughGate(b, Jump(s, k)).canAct
  }

  /** A paralysed battler that has not flinched keeps its status and loses its move a quarter of
      the time over one period. */
  lemma ParalysedGate(b: BattlerState, s: Word)
    requires b.status == Paralysis && !b.flinched
    ensures var g := ThroughGate(b, s); g.battler == b && g.rng == Jump(s, 1) && (g.announced <==> !g.canAct)
    ensures |StuckStates(b, s)| == 25 * 184467440737095516 + 16
  {
    hide DrawChance, Jump, ThroughGate;
    ChanceLaw(s, 25);
    ChanceCount(s, 25);
    StuckByChance(b, s);
    forall k: nat ensures !ThroughGate(b, Jump(s, k)).canAct <==> DrawChance(Jump(s, k), 25).1 {
      StuckByChance(b, Jump(s, k));
    }
    assert StuckStates(b, s) == Successes(s, 25);
  }

  lemma StuckByChance(b: BattlerState, s: Word)
    requires b.status == Paralysis && !b.flinched
    ensures var roll := DrawChance(s, 25); ThroughGate(b, s) == Gate(roll.0, b, !roll.1, roll.1)
  {
    hide DrawChance;
  }

  /** A sleeper's counter falls by one; it wakes and acts exactly when none is left. */
  lemma SleepingGate(b: BattlerState, s: Word)
    requires b.status == Sleep
    ensures var g := ThroughGate(b, s);
            && g.rng == s && g.announced && g.battler.statusCtr == b.statusCtr - 1
            && (g.canAct <==> b.statusCtr <= 1)
            && g.battler == b.(statusCtr := b.statusCtr - 1, status := if g.canAct then NoStatus else Sleep)
  {
  }

  /** Nothing else holds a battler back but a flinch, which lasts for one move. */
  lemma OpenGate(b: BattlerState, s: Word)
    requires b.status !in {Sleep, Freeze, Paralysis}
    ensures ThroughGate(b, s) == Gate(s, b.(flinched := false), !b.flinched, b.flinched)
  {
  }

  // ----- The end of a turn -----

  /** A share of a whole, but at least one. */
  predicate ShareOrOne(x: int, num: int, den: int) {
    x >= 1 && (WholePart(x, num, den) || (x == 1 && num < den))
  }

  /** What the status takes: an eighth of the maximum for burn and poison, as many sixteenths as
      the counter says for toxic poison, nothing otherwise. */
  predicate IsToll(b: BattlerState, toll: int) {
    if b.status in {Burn, Poison} then ShareOrOne(toll, b.maxHP, 8)
    else if b.status == Toxic then ShareOrOne(toll, b.maxHP * b.statusCtr, 16)
    else toll == 0
  }

  /** What Regenerator gives back: a sixteenth. */
  predicate IsRegeneration(b: BattlerState, heal: int) {
    if b.inst.ability == Regenerator then ShareOrOne(heal, b.maxHP, 16) else heal == 0
  }

  /** At the end of a turn a standing battler loses its toll and regains its regeneration, within
      0 and its maximum, and the difference is reported; only the toxic counter changes besides. */
  lemma EndOfTurnLaw(b: BattlerState, toll: int, heal: int)
    requires b.curHP > 0 && b.maxHP >= 0 && IsToll(b, toll) && IsRegeneration(b, heal)
    ensures var t, hp := AfterTurn(b), b.curHP + heal - toll;
            && t.1 == heal - toll
            && t.0.curHP == (if hp > b.maxHP then b.maxHP else if hp < 0 then 0 else hp)
            && t.0 == b.(curHP := t.0.curHP, statusCtr := b.statusCtr + if b.status == Toxic then 1 else 0)
  {
    ShareIsQuotient(toll, b.maxHP, 8);
    ShareIsQuotient(toll, b.maxHP * b.statusCtr, 16);
    ShareIsQuotient(heal, b.maxHP, 16);
  }

  lemma ShareIsQuotient(x: int, num: int, den: int)
    requires den > 0
    ensures ShareOrOne(x, num, den) ==> x == AtLeast1(num / den)
  {
    if WholePart(x, num, den) {
      DivModUnique(num, den, x, num - den * x);
    }
  }

  /** A fainted battler is past all of it. */
  lemma FaintedTick(b: BattlerState)
    requires b.curHP <= 0
    ensures AfterTurn(b) == (b, 0)
  {
  }
}
