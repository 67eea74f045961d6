/** What a hit does, told in one piece: the damage, the five riders in their order, and the events. */
module RiderProofs {
  import opened Types
  import opened Creatures
  import opened Rng
  import opened Battlers
  import opened Damage
  import opened Turns

  /** A battler's HP after gaining or losing some, within 0 and its maximum where that is crossed. */
  function AfterGain(hp: int, gain: int, maxHP: int): int {
    if hp + gain > maxHP then maxHP else hp + gain
  }

  function AfterLoss(hp: int, loss: int): int {
    if loss > hp then 0 else hp - loss
  }

  function Note(happens: bool, kind: EventKind, side: nat, amount: int): seq<Event> {
    if happens then [Event(kind, side, amount)] else []
  }

  /** What a drain or recovery move gives back: a fraction of the damage it did or, if it is a
      status move, of the attacker's maximum. */
  predicate IsHeal(heal: int, att: BattlerState, skill: Skill, eff: SkillEffect, damage: int) {
    WholeReal(heal, (if skill.class_ == StatusOnly then att.maxHP else damage) as real * eff.healFrac)
  }

  /** What a recoil move costs: a fraction of the damage it did. */
  predicate IsRecoil(recoil: int, eff: SkillEffect, damage: int) {
    WholeReal(recoil, damage as real * eff.recoilFrac)
  }

  /** Static: three times in ten, a physical hit that did damage may paralyse the attacker. */
  lemma StaticLaw(d: Duel, skill: Skill, damage: int, side: nat)
    ensures var d' := StaticRider(d, skill, damage, side);
            if d.def.inst.ability == Static && skill.class_ == Physical && damage > 0
            then var roll, hit := DrawChance(d.rng, 30), WithStatus(d.att, Paralysis);
                 d' == Duel(roll.0, if roll.1 then hit.0 else d.att, d.def, d.log + Note(roll.1 && hit.1, StatusNote, side, 0))
            else d' == d
  {
    hide DrawChance, ImmuneTo;
  }

  /** A status: rolled at the stated chance, or certain if none is stated, on the attacker itself
      or on the defender; sleep by its own rule. */
  lemma StatusLaw(d: Duel, eff: SkillEffect, side: nat)
    requires side < 2
    ensures var d' := StatusRider(d, eff, side);
            if eff.status == NoStatus then d' == d
            else
              var roll := DrawChance(d.rng, if eff.statusChance != 0 then eff.statusChance else 100);
              var target := if eff.targetSelf then d.att else d.def;
              var hit := if eff.status == Sleep then WithSleep(target, roll.0)
                         else (roll.0, WithStatus(target, eff.status).0, WithStatus(target, eff.status).1);
              if roll.1
              then d' == Duel(hit.0, if eff.targetSelf then hit.1 else d.att, if eff.targetSelf then d.def else hit.1,
                              d.log + Note(hit.2, StatusNote, if eff.targetSelf then side else 1 - side, 0))
              else d' == d.(rng := roll.0)
  {
    hide DrawChance, WithSleep, WithStatus;
  }

  /** Stat changes: all of them, on the attacker itself or on the defender, with a note each. */
  lemma StatLaw(d: Duel, eff: SkillEffect, side: nat)
    requires side < 2
    ensures var d' := StatRider(d, eff, side);
            && d'.rng == d.rng
            && d'.att == (if eff.targetSelf then d.att.(stages := StagesAfter(d.att.stages, eff.statChanges)) else d.att)
            && d'.def == (if eff.targetSelf then d.def else d.def.(stages := StagesAfter(d.def.stages, eff.statChanges)))
            && d.log <= d'.log && |d'.log| == |d.log| + |eff.statChanges|
            && forall k :: |d.log| <= k < |d'.log| ==> d'.log[k] == Event(StatNote, if eff.targetSelf then side else 1 - side, 0)
  {
    hide StagesAfter;
    NotesAlike(if eff.targetSelf then side else 1 - side, |eff.statChanges|);
  }

  lemma {:induction false} NotesAlike(side: nat, n: nat)
    ensures forall k :: 0 <= k < n ==> StatNotes(side, n)[k] == Event(StatNote, side, 0)
  {
    if n > 0 {
      NotesAlike(side, n - 1);
    }
  }

  /** Healing comes first and recoil after it, each within bounds and each reported; the attacker's
      HP is all they change. */
  lemma HealAndRecoilLaw(d: Duel, skill: Skill, eff: SkillEffect, damage: int, side: nat, heal: int, recoil: int)
    requires side < 2 && damage >= 0 && (skill.class_ == StatusOnly ==> d.att.maxHP >= 0)
    requires eff.healFrac > 0.0 ==> IsHeal(heal, d.att, skill, eff, damage)
    requires eff.recoilFrac > 0.0 ==> IsRecoil(recoil, eff, damage)
    ensures var d' := RecoilRider(HealRider(d, skill, eff, damage, side), eff, damage, side);
            var heals, recoils := eff.healFrac > 0.0, eff.recoilFrac > 0.0 && damage > 0;
            var hp := if heals then AfterGain(d.att.curHP, heal, d.att.maxHP) else d.att.curHP;
            && d' == Duel(d.rng, d.att.(curHP := if recoils then AfterLoss(hp, recoil) else hp), d.def, d'.log)
            && d'.log == d.log + Note(heals, Healed, side, heal) + Note(recoils, Recoil, side, recoil)
  {
    hide Portion;
    if eff.healFrac > 0.0 {
      PortionIs(if skill.class_ == StatusOnly then d.att.maxHP else damage, eff.healFrac, heal);
    }
    if eff.recoilFrac > 0.0 {
      PortionIs(damage, eff.recoilFrac, recoil);
    }
  }

  lemma PortionIs(amount: int, frac: real, n: int)
    requires amount >= 0 && frac > 0.0 && WholeReal(n, amount as real * frac)
    ensures Portion(amount, frac) == n
  {
    assert amount as real * frac >= 0.0;
  }

  /** The riders come in that order: Static whatever the move, then those of its effect. */
  lemma RidersInOrder(d: Duel, skill: Skill, res: DamageResult, side: nat)
    requires side < 2
    ensures var d1 := StaticRider(d, skill, res.damage, side);
            match skill.effect
            case None => Riders(d, skill, res, side) == d1
            case Some(eff) =>
              Riders(d, skill, res, side)
              == RecoilRider(HealRider(StatRider(StatusRider(d1, eff, side), eff, side), skill, eff, res.damage, side), eff, res.damage, side)
  {
    hide StaticRider, StatusRider, StatRider, HealRider, RecoilRider;
  }

  /** A strike: a miss is only noted.  A hit takes its damage from the defender, not below 0, and
      reports it, and with it a critical hit and a matchup that is neither neutral nor zero; a
      hit without damage reports nothing.  The riders follow, and then who has fainted. */
  lemma StrikeLaw(d: Duel, skill: Skill, side: nat)
    requires side < 2
    ensures var r := DamageFor(d.rng, d.att, d.def, skill);
            if r.1.missed then Strike(d, skill, side) == Duel(r.0, d.att, d.def, d.log + [Event(MissNote, side, 0)])
            else
              var hits, e := r.1.damage > 0, r.1.effectiveness;
              var d1 := Duel(r.0, d.att, if hits then d.def.(curHP := AfterLoss(d.def.curHP, r.1.damage)) else d.def,
                d.log + Note(hits, DamageDealt, 1 - side, r.1.damage) + Note(hits && r.1.crit, CritNote, 1 - side, 0)
                + Note(hits && (e > 1.0 || 0.0 < e < 1.0), MatchupNote, 1 - side, 0));
              var d2 := Riders(d1, skill, r.1, side);
              Strike(d, skill, side)
              == d2.(log := d2.log + Note(d2.def.curHP <= 0, FaintNote, 1 - side, 0) + Note(d2.att.curHP <= 0, FaintNote, side, 0))
  {
    hide DamageFor, Riders;
    var r := DamageFor(d.rng, d.att, d.def, skill);
    if !r.1.missed {
      HitLaw(d.(rng := r.0), r.1, side);
      FaintLaw(Riders(Hit(d.(rng := r.0), r.1, side), skill, r.1, side), side);
    }
  }

  lemma HitLaw(d: Duel, res: DamageResult, side: nat)
    requires side < 2
    ensures var hits, e := res.damage > 0, res.effectiveness;
            Hit(d, res, side) == Duel(d.rng, d.att, if hits then d.def.(curHP := AfterLoss(d.def.curHP, res.damage)) else d.def,
                d.log + Note(hits, DamageDealt, 1 - side, res.damage) + Note(hits && res.crit, CritNote, 1 - side, 0)
                + Note(hits && (e > 1.0 || 0.0 < e < 1.0), MatchupNote, 1 - side, 0))
  {
  }

  lemma FaintLaw(d: Duel, side: nat)
    requires side < 2
    ensures FaintNotes(d, side) == d.(log := d.log + Note(d.def.curHP <= 0, FaintNote, 1 - side, 0) + Note(d.att.curHP <= 0, FaintNote, side, 0))
  {
  }

  // ----- Using a skill -----

  /** The skill of a slot: the one the registry lists under the id in that slot, if the slot is
      one of four, holds an id, and the registry lists it. */
  lemma SkillLookup(reg: Registry, inst: Instance, slot: int)
    ensures SkillFor(reg, inst, slot).Some? <==>
      0 <= slot < 4 && reg.Loaded? && inst.skillIDs[slot] != "" && inst.skillIDs[slot] in reg.skills
    ensures SkillFor(reg, inst, slot).Some? ==> SkillFor(reg, inst, slot).value == reg.skills[inst.skillIDs[slot]]
  {
  }

  /** Levitate stops Earth moves and Insulate Electric ones. */
  predicate StoppedByAbility(def: BattlerState, skill: Skill) {
    (def.inst.ability, skill.element) in {(Levitate, Earth), (Insulate, Electric)}
  }

  /** An attempt at a skill that is there and ready: its cooldown starts, the move is announced,
      and it strikes unless the defender's ability stops it. */
  lemma ReadySkillLaw(reg: Registry, d: Duel, side: nat, slot: int, skill: Skill)
    requires side < 2 && SkillFor(reg, d.att.inst, slot) == Some(skill) && d.att.cooldowns[slot] <= 0
    ensures var d1 := Duel(d.rng, if skill.cooldown > 0 then d.att.(cooldowns := d.att.cooldowns[slot := skill.cooldown]) else d.att,
                           d.def, d.log + [Event(MoveUsed, side, 0)]);
            UseSkill(reg, d, side, slot) == if StoppedByAbility(d.def, skill) then d1.(log := d1.log + [Event(ImmuneNote, 1 - side, 0)])
                                            else Strike(d1, skill, side)
  {
    hide Strike, SkillFor;
  }

  /** An attack passes the gate first; one that does not get through does nothing more. */
  lemma AttackLaw(reg: Registry, d: Duel, side: nat, slot: int)
    requires side < 2
    ensures var g := ThroughGate(d.att, d.rng);
            var d1 := Duel(g.rng, g.battler, d.def, d.log + Note(g.announced, StatusNote, side, 0));
            ExecuteMove(reg, d, side, slot) == if g.canAct then UseSkill(reg, d1, side, slot) else d1
  {
    hide ThroughGate, UseSkill;
    assert d.log + [] == d.log;
  }
}
