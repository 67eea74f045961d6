/** Rules of single moves: who goes first, what status costs, and what immunities stop. */
module MoveProofs {
  import opened Types
  import opened Creatures
  import opened Words
  import opened Rng
  import opened Battlers
  import opened Damage
  import opened Turns

  /** The side that acts first has the higher priority or, priorities being equal, at least the
      speed of the other; the generator is consulted only for an exact tie. */
  lemma OrderRespectsPriorityAndSpeed(reg: Registry, st: State, acts: Actions)
    requires st.WellFormed()
    ensures var order := MoveOrder(reg, st, acts);
            var f, s := order.1, 1 - order.1;
            var pf, ps := PriorityOf(reg, ActionOf(acts, f), st.Active(f)), PriorityOf(reg, ActionOf(acts, s), st.Active(s));
            var vf, vs := EffSpeed(st.Active(f)), EffSpeed(st.Active(s));
            && (pf > ps || (pf == ps && vf >= vs))
            && (order.0 != st.rng ==> pf == ps && vf == vs)
  {
    hide DrawChance, EffSpeed, PriorityOf;
  }

  /** The priority of an action: the registry's for a move whose slot holds a listed skill, none
      for a move whose slot does not, and six for anything that is not a move. */
  predicate IsPriority(p: int, reg: Registry, act: MoveAction, b: BattlerState) {
    var slot := act.skillSlot;
    var listed := 0 <= slot < 4 && reg.Loaded? && b.inst.skillIDs[slot] != "" && b.inst.skillIDs[slot] in reg.skills;
    && (act.kind != 0 ==> p == 6)
    && (act.kind == 0 && listed ==> p == reg.skills[b.inst.skillIDs[slot]].priority)
    && (act.kind == 0 && !listed ==> p == 0)
  }

  /** The second side goes first exactly when its action has the higher priority or, at equal
      priorities, it is faster or, at equal speeds too, an even chance falls to it; and only that
      last case draws. */
  lemma MoveOrderIff(reg: Registry, st: State, acts: Actions, p: int, q: int)
    requires st.WellFormed()
    requires IsPriority(p, reg, acts.0, st.Active(0)) && IsPriority(q, reg, acts.1, st.Active(1))
    ensures var order := MoveOrder(reg, st, acts);
            var v, w, roll := EffSpeed(st.Active(0)), EffSpeed(st.Active(1)), DrawChance(st.rng, 50);
            && order.1 in {0, 1}
            && (order.1 == 1 <==> q > p || (q == p && (w > v || (w == v && roll.1))))
            && order.0 == (if q == p && w == v then roll.0 else st.rng)
  {
    hide DrawChance, EffSpeed;
  }

  // ----- Switches -----

  /** A switch is made exactly when it names a place in the party other than the active one, with
      somebody standing in it; the leaver's boosts and flinch go, it is announced, and nothing
      else changes.  Any other changes nothing. */
  lemma SwitchIff(st: State, side: nat, to: int)
    requires st.WellFormed() && side < 2
    ensures var s, st' := st.At(side), DoSwitch(st, side, to);
            if 0 <= to < |s.party| && to != s.active && s.party[to].curHP > 0
            then && st'.At(side).active == to && st'.At(1 - side) == st.At(1 - side)
                 && st'.At(side).party == s.party[s.active := s.party[s.active].(stages := Stages(0, 0, 0, 0, 0, 0, 0), flinched := false)]
                 && (st'.rng, st'.turn, st'.over, st'.winner) == (st.rng, st.turn, st.over, st.winner)
                 && st'.log == st.log + [Event(SwitchIn, side, 0)]
            else st' == st
  {
  }

  /** Burn halves physical attack and nothing else; paralysis halves speed. */
  lemma StatusPenalties(b: BattlerState)
    ensures EffAttack(b.(status := Burn), Physical) == EffAttack(b.(status := NoStatus), Physical) / 2.0
    ensures EffAttack(b.(status := Burn), Special) == EffAttack(b.(status := NoStatus), Special)
    ensures EffSpeed(b.(status := Paralysis)) == EffSpeed(b.(status := NoStatus)) / 2.0
  {
    hide StageMultiplier;
    var a, v := b.stats.attack as real * StageMultiplier(b.stages.atk), b.stats.speed as real * StageMultiplier(b.stages.spe);
    assert a * 0.5 == a / 2.0 && a * 1.0 == a;
    assert v * 0.5 == v / 2.0 && v * 1.0 == v;
  }

  /** Levitate and Insulate stop a move before anything is drawn or done: the defender is
      untouched, and the attacker has at most started a cooldown. */
  lemma AbilityImmunity(reg: Registry, d: Duel, side: nat, slot: int, skill: Skill)
    requires side < 2 && SkillFor(reg, d.att.inst, slot) == Some(skill)
    requires (d.def.HasAbility(Levitate) && skill.element == Earth) || (d.def.HasAbility(Insulate) && skill.element == Electric)
    ensures var d' := UseSkill(reg, d, side, slot);
            d'.def == d.def && d'.rng == d.rng && d'.att.(cooldowns := d.att.cooldowns) == d.att
  {
    hide Strike, SkillFor;
  }

  // ----- Type immunity -----

  /** The status rider of a hit takes hold of the defender, by the generator as it then stands.
      Sleep asks for less than the others. */
  predicate StatusTakes(rng: Word, def: BattlerState, eff: SkillEffect) {
    && eff.status != NoStatus && DrawChance(rng, OrDefault(eff.statusChance, 100)).1
    && def.status == NoStatus && (eff.status == Sleep || (!def.Fainted() && !ImmuneTo(def.species, eff.status)))
  }

  /** The riders of a type-immune hit do nothing to the defender: there are none, they are the
      attacker's own, or neither a status nor a stage takes. */
  predicate RidersIdle(rng: Word, def: BattlerState, skill: Skill) {
    match skill.effect
    case None => true
    case Some(eff) =>
      eff.targetSelf || (!StatusTakes(rng, def, eff) && StagesAfter(def.stages, eff.statChanges) == def.stages)
  }

  /** The generator once the accuracy and the critical hit have been rolled. */
  function AfterAim(d: Duel, skill: Skill): (Word, bool) {
    var aim := AccuracyRoll(d.rng, d.att, d.def, skill);
    (DrawChance(aim.0, CritChance(skill.critStage)).0, aim.1)
  }

  lemma LaterRidersSpareDefender(d: Duel, skill: Skill, eff: SkillEffect, side: nat)
    requires side < 2
    ensures FaintNotes(RecoilRider(HealRider(d, skill, eff, 0, side), eff, 0, side), side).def == d.def
  {
    hide Portion;
  }

  lemma RidersOnDefender(d: Duel, skill: Skill, res: DamageResult, side: nat)
    requires side < 2 && res.damage == 0
    ensures var def := FaintNotes(Riders(d, skill, res, side), side).def;
            && def.curHP == d.def.curHP
            && (def == d.def <==> RidersIdle(d.rng, d.def, skill))
            && (skill.effect.Some? && !skill.effect.value.targetSelf ==>
                 def.stages == StagesAfter(d.def.stages, skill.effect.value.statChanges)
                 && def.status == if StatusTakes(d.rng, d.def, skill.effect.value) then skill.effect.value.status else d.def.status)
  {
    hide DrawChance, DrawIntN, StagesAfter, StatNotes, ImmuneTo, HealRider, RecoilRider, FaintNotes;
    if skill.effect.Some? {
      var eff := skill.effect.value;
      LaterRidersSpareDefender(StatRider(StatusRider(d, eff, side), eff, side), skill, eff, side);
    } else {
      FaintingSpares(d, side);
    }
  }

  lemma FaintingSpares(d: Duel, side: nat)
    requires side < 2
    ensures FaintNotes(d, side).def == d.def
  {
  }

  /** What a damaging move does to a defender whose types are immune to it: never any damage;
      nothing at all exactly when it misses or its riders are idle, by the rolls as they come;
      and otherwise just the status and the stages of its riders. */
  lemma TypeImmuneHit(d: Duel, skill: Skill, side: nat)
    requires side < 2 && Damaging(skill) && Matchup(d.def, skill) == 0.0
    ensures var def, aim := Strike(d, skill, side).def, AfterAim(d, skill);
            && def.curHP == d.def.curHP
            && (def == d.def <==> !aim.1 || RidersIdle(aim.0, d.def, skill))
            && (aim.1 && skill.effect.Some? && !skill.effect.value.targetSelf ==>
                 def.stages == StagesAfter(d.def.stages, skill.effect.value.statChanges)
                 && def.status == if StatusTakes(aim.0, d.def, skill.effect.value) then skill.effect.value.status else d.def.status)
  {
    hide AccuracyRoll, DrawChance, DrawFloat, Matchup, HitDamage, Riders, RidersIdle, StatusTakes, StagesAfter, FaintNotes, CritChance, Stab;
    var r := DamageFor(d.rng, d.att, d.def, skill);
    if !r.1.missed {
      var d1 := d.(rng := r.0);
      assert Hit(d1, r.1, side) == d1;
      RidersOnDefender(d1, skill, r.1, side);
    }
  }

  /** With no roll left open (it cannot miss, and its status is certain or impossible), a
      type-immune hit leaves the defender alone exactly under a condition of the two battlers
      and the move. */
  lemma SureTypeImmuneHit(d: Duel, skill: Skill, side: nat, eff: SkillEffect)
    requires side < 2 && Damaging(skill) && Matchup(d.def, skill) == 0.0
    requires skill.accuracy > 100 && skill.effect == Some(eff)
    requires var chance := OrDefault(eff.statusChance, 100); chance <= 0 || chance >= 100
    ensures Strike(d, skill, side).def == d.def <==>
      eff.targetSelf
      || ((eff.status == NoStatus || OrDefault(eff.statusChance, 100) <= 0 || d.def.status != NoStatus
           || (eff.status != Sleep && (d.def.Fainted() || ImmuneTo(d.def.species, eff.status))))
          && StagesAfter(d.def.stages, eff.statChanges) == d.def.stages)
  {
    hide Matchup, Strike, StagesAfter, ImmuneTo, DrawIntN, CritChance;
    TypeImmuneHit(d, skill, side);
  }

  /** A type immunity stops only the damage: a certain rider still takes hold. */
  lemma TypeImmunityLetsRidersThrough(d: Duel, skill: Skill, side: nat, eff: SkillEffect)
    requires side < 2 && Damaging(skill) && skill.accuracy > 100 && Matchup(d.def, skill) == 0.0
    requires skill.effect == Some(eff) && !eff.targetSelf && eff.status != NoStatus && eff.status != Sleep
    requires OrDefault(eff.statusChance, 100) >= 100
    requires d.def.status == NoStatus && !d.def.Fainted() && !ImmuneTo(d.def.species, eff.status)
    ensures Strike(d, skill, side).def.curHP == d.def.curHP
    ensures Strike(d, skill, side).def.status == eff.status
  {
    hide Matchup, Strike, StagesAfter, ImmuneTo, DrawIntN, CritChance;
    TypeImmuneHit(d, skill, side);
  }
}
