/** Each stage of an attack keeps what DuelProofs.StepOk states, and so does the whole attack. */
module AttackProofs {
  import opened Types
  import opened Creatures
  import opened Words
  import opened Rng
  import opened Battlers
  import opened Damage
  import opened DamageProofs
  import opened Turns
  import opened DuelProofs

  lemma HpEvent(reg: Registry, d: Duel, d': Duel, kind: EventKind, at: nat, amount: int, side: nat, h: (int, int))
    requires side < 2 && at < 2 && d'.log == d.log + [Event(kind, at, amount)] && d'.rng == d.rng
    requires Kept(reg, d.att, d'.att) && Kept(reg, d.def, d'.def) && (d.def.Fainted() ==> d'.def.Fainted())
    requires Holds(HpInRange, reg, d.att) ==> d'.att.curHP == Credit(d.att.curHP, d.att.maxHP, side, Event(kind, at, amount))
    requires Holds(HpInRange, reg, d.def) ==> d'.def.curHP == Credit(d.def.curHP, d.def.maxHP, 1 - side, Event(kind, at, amount))
    ensures StepOk(reg, d, d', side, h, 0)
  {
    hide HpAfter, Holds, Within, Credit;
    NoDraw(d.rng, 0);
    HpAfterSay(Pick(h, side), d.att.maxHP, side, d.log, Event(kind, at, amount));
    HpAfterSay(Pick(h, 1 - side), d.def.maxHP, 1 - side, d.log, Event(kind, at, amount));
  }

  lemma DamageStep(reg: Registry, d: Duel, damage: int, side: nat, h: (int, int))
    requires side < 2 && damage >= 0
    ensures var hp := d.def.curHP - damage;
            StepOk(reg, d, d.(def := d.def.(curHP := if hp < 0 then 0 else hp)).Say(DamageDealt, 1 - side, damage), side, h, 0)
  {
    hide StagesOk, CooldownsOk, ImmuneTo;
    var hp := d.def.curHP - damage;
    HpEvent(reg, d, d.(def := d.def.(curHP := if hp < 0 then 0 else hp)).Say(DamageDealt, 1 - side, damage),
      DamageDealt, 1 - side, damage, side, h);
  }

  lemma HitStep(reg: Registry, d: Duel, res: DamageResult, side: nat, h: (int, int))
    requires side < 2 && res.damage >= 0
    ensures StepOk(reg, d, Hit(d, res, side), side, h, 0)
  {
    hide StepOk;
    if res.damage <= 0 {
      StayStep(reg, d, side, h);
    } else {
      var hp := d.def.curHP - res.damage;
      var d1 := d.(def := d.def.(curHP := if hp < 0 then 0 else hp)).Say(DamageDealt, 1 - side, res.damage);
      DamageStep(reg, d, res.damage, side, h);
      var d2 := if res.crit then d1.Say(CritNote, 1 - side, 0) else d1;
      StayStep(reg, d1, side, h);
      SaySilent(reg, d1, CritNote, side, 1 - side, h, 0);
      StepsCompose(reg, d, d1, d2, side, h, 0, 0);
      StayStep(reg, d2, side, h);
      SaySilent(reg, d2, MatchupNote, side, 1 - side, h, 0);
      StepsCompose(reg, d, d2, Hit(d, res, side), side, h, 0, 0);
    }
  }

  lemma StayStep(reg: Registry, d: Duel, side: nat, h: (int, int))
    requires side < 2
    ensures StepOk(reg, d, d, side, h, 0)
  {
    hide Ledger, Holds;
    NoDraw(d.rng, 0);
  }

  lemma StatusKeeps(reg: Registry, b: BattlerState, s: StatusCondition)
    ensures var r := WithStatus(b, s).0;
            Kept(reg, b, r) && r.curHP == b.curHP
  {
    hide StagesOk, CooldownsOk;
  }

  lemma SleepKeeps(reg: Registry, b: BattlerState, rng: Word)
    ensures var r := WithSleep(b, rng);
            Kept(reg, b, r.1) && r.1.curHP == b.curHP && Within(rng, r.0, 1)
  {
    hide StagesOk, CooldownsOk, Within, Output, Advance;
    NoDraw(rng, 1);
    OneDraw(rng, 1);
  }

  lemma StaticStep(reg: Registry, d: Duel, skill: Skill, damage: int, side: nat, h: (int, int))
    requires side < 2
    ensures StepOk(reg, d, StaticRider(d, skill, damage, side), side, h, 1)
  {
    hide Within, DrawChance, WithStatus, Holds, Ledger, StepOk;
    StatusKeeps(reg, d.att, Paralysis);
    ChanceDraws(d.rng, 30, 1);
    NoDraw(d.rng, 1);
    var d1 := d.(rng := DrawChance(d.rng, 30).0, att := WithStatus(d.att, Paralysis).0);
    QuietChange(reg, d, d.(rng := DrawChance(d.rng, 30).0), side, h, 1);
    QuietChange(reg, d, d, side, h, 1);
    QuietChange(reg, d, d1, side, h, 1);
    SaySilent(reg, d1, StatusNote, side, side, h, 0);
    StepsCompose(reg, d, d1, d1.Say(StatusNote, side, 0), side, h, 1, 0);
  }

  lemma AfflictKeeps(reg: Registry, b: BattlerState, s: StatusCondition, rng: Word)
    ensures var r := Afflict(b, s, rng);
            Kept(reg, b, r.1) && r.1.curHP == b.curHP && Within(rng, r.0, 1)
  {
    hide Holds, WithSleep, WithStatus, Within;
    StatusKeeps(reg, b, s);
    SleepKeeps(reg, b, rng);
    NoDraw(rng, 1);
  }

  lemma StatusStep(reg: Registry, d: Duel, eff: SkillEffect, side: nat, h: (int, int))
    requires side < 2
    ensures StepOk(reg, d, StatusRider(d, eff, side), side, h, 2)
  {
    hide Within, DrawChance, Afflict, Holds, Ledger, StepOk;
    var roll := DrawChance(d.rng, OrDefault(eff.statusChance, 100));
    ChanceDraws(d.rng, OrDefault(eff.statusChance, 100), 1);
    NoDraw(d.rng, 2);
    NoDraw(roll.0, 1);
    DrawsAdd(d.rng, roll.0, roll.0, 1, 1);
    QuietChange(reg, d, d, side, h, 2);
    QuietChange(reg, d, d.(rng := roll.0), side, h, 2);
    var hit := Afflict(d.Target(eff.targetSelf), eff.status, roll.0);
    AfflictKeeps(reg, d.Target(eff.targetSelf), eff.status, roll.0);
    DrawsAdd(d.rng, roll.0, hit.0, 1, 1);
    var d1 := d.WithTarget(eff.targetSelf, hit.1).(rng := hit.0);
    QuietChange(reg, d, d1, side, h, 2);
    SaySilent(reg, d1, StatusNote, side, TargetSide(eff.targetSelf, side), h, 0);
    StepsCompose(reg, d, d1, d1.Say(StatusNote, TargetSide(eff.targetSelf, side), 0), side, h, 2, 0);
  }

  lemma StagesAfterOk(st: Stages, changes: map<string, Int8>)
    requires StagesOk(st)
    ensures StagesOk(StagesAfter(st, changes))
  {
    hide WrapInt8;
  }

  lemma {:induction false} StatNotesSilent(hp: int, maxHP: int, side: nat, log: seq<Event>, at: nat, n: nat)
    ensures HpAfter(hp, maxHP, side, log + StatNotes(at, n)) == HpAfter(hp, maxHP, side, log)
  {
    if n == 0 {
      assert log + StatNotes(at, 0) == log;
    } else {
      var shorter := log + StatNotes(at, n - 1);
      StatNotesSilent(hp, maxHP, side, log, at, n - 1);
      SilentSay(hp, maxHP, side, shorter, Event(StatNote, at, 0));
      assert log + StatNotes(at, n) == shorter + [Event(StatNote, at, 0)];
    }
  }

  lemma StatStep(reg: Registry, d: Duel, eff: SkillEffect, side: nat, h: (int, int))
    requires side < 2
    ensures StepOk(reg, d, StatRider(d, eff, side), side, h, 0)
  {
    hide StagesAfter, StagesOk, CooldownsOk, ImmuneTo, Within, HpAfter, StatNotes;
    var at, n := TargetSide(eff.targetSelf, side), |eff.statChanges|;
    NoDraw(d.rng, 0);
    var b := d.Target(eff.targetSelf);
    if StagesOk(b.stages) {
      StagesAfterOk(b.stages, eff.statChanges);
    }
    StatNotesSilent(Pick(h, side), d.att.maxHP, side, d.log, at, n);
    StatNotesSilent(Pick(h, 1 - side), d.def.maxHP, 1 - side, d.log, at, n);
  }

  lemma PortionNonNegative(n: int, x: real)
    requires n >= 0 && x > 0.0
    ensures Portion(n, x) >= 0
  {
    assert n as real * x >= 0.0;
  }

  lemma HealStep(reg: Registry, d: Duel, skill: Skill, eff: SkillEffect, damage: int, side: nat, h: (int, int))
    requires side < 2 && damage >= 0 && !d.att.Fainted()
    ensures StepOk(reg, d, HealRider(d, skill, eff, damage, side), side, h, 0)
  {
    hide StagesOk, CooldownsOk, ImmuneTo, Portion, StepOk;
    if eff.healFrac <= 0.0 {
      StayStep(reg, d, side, h);
    } else {
      var base := if skill.class_ == StatusOnly then d.att.maxHP else damage;
      if Holds(HpInRange, reg, d.att) {
        PortionNonNegative(base, eff.healFrac);
      }
      HpEvent(reg, d, HealRider(d, skill, eff, damage, side), Healed, side, Portion(base, eff.healFrac), side, h);
    }
  }

  lemma RecoilStep(reg: Registry, d: Duel, eff: SkillEffect, damage: int, side: nat, h: (int, int))
    requires side < 2 && damage >= 0
    ensures StepOk(reg, d, RecoilRider(d, eff, damage, side), side, h, 0)
  {
    hide StagesOk, CooldownsOk, ImmuneTo, Portion, StepOk;
    if eff.recoilFrac <= 0.0 || damage <= 0 {
      StayStep(reg, d, side, h);
    } else {
      PortionNonNegative(damage, eff.recoilFrac);
      HpEvent(reg, d, RecoilRider(d, eff, damage, side), Recoil, side, Portion(damage, eff.recoilFrac), side, h);
    }
  }

  /** The first three stages leave the attacker's HP alone, so it is alive when it heals. */
  lemma AttackerUnharmed(d: Duel, skill: Skill, eff: SkillEffect, damage: int, side: nat)
    requires side < 2
    ensures StatRider(StatusRider(StaticRider(d, skill, damage, side), eff, side), eff, side).att.curHP == d.att.curHP
  {
    hide DrawChance, DrawIntN, StagesAfter, StatNotes;
    var d1 := StaticRider(d, skill, damage, side);
    assert d1.att.curHP == d.att.curHP;
    hide StaticRider;
    var d2 := StatusRider(d1, eff, side);
    assert d2.att.curHP == d1.att.curHP;
  }

  lemma RidersStep(reg: Registry, d: Duel, skill: Skill, res: DamageResult, side: nat, h: (int, int))
    requires side < 2 && res.damage >= 0 && !d.att.Fainted()
    ensures StepOk(reg, d, Riders(d, skill, res, side), side, h, 3)
  {
    hide StepOk, StaticRider, StatusRider, StatRider, HealRider, RecoilRider;
    var d1 := StaticRider(d, skill, res.damage, side);
    StaticStep(reg, d, skill, res.damage, side, h);
    StepLoosens(reg, d, d1, side, h, 1, 3);
    if skill.effect.Some? {
      var eff := skill.effect.value;
      var d2 := StatusRider(d1, eff, side);
      var d3 := StatRider(d2, eff, side);
      var d4 := HealRider(d3, skill, eff, res.damage, side);
      StatusStep(reg, d1, eff, side, h);
      StatStep(reg, d2, eff, side, h);
      AttackerUnharmed(d, skill, eff, res.damage, side);
      HealStep(reg, d3, skill, eff, res.damage, side, h);
      RecoilStep(reg, d4, eff, res.damage, side, h);
      StepsCompose(reg, d, d1, d2, side, h, 1, 2);
      StepsCompose(reg, d, d2, d3, side, h, 3, 0);
      StepsCompose(reg, d, d3, d4, side, h, 3, 0);
      StepsCompose(reg, d, d4, Riders(d, skill, res, side), side, h, 3, 0);
    }
  }

  lemma FaintNotesStep(reg: Registry, d: Duel, side: nat, h: (int, int))
    requires side < 2
    ensures StepOk(reg, d, FaintNotes(d, side), side, h, 0)
  {
    hide StepOk;
    var d1 := if d.def.Fainted() then d.Say(FaintNote, 1 - side, 0) else d;
    StayStep(reg, d, side, h);
    SaySilent(reg, d, FaintNote, side, 1 - side, h, 0);
    StayStep(reg, d1, side, h);
    SaySilent(reg, d1, FaintNote, side, side, h, 0);
    StepsCompose(reg, d, d1, FaintNotes(d, side), side, h, 0, 0);
  }

  lemma DamageDraws(rng: Word, att: BattlerState, def: BattlerState, skill: Skill)
    ensures Within(rng, DamageFor(rng, att, def, skill).0, 3)
  {
    hide Within, DrawChance, Output, Advance, HitDamage, EffectiveAccuracy, Matchup, Stab;
    NoDraw(rng, 3);
    NoDraw(rng, 1);
    var aim := AccuracyRoll(rng, att, def, skill);
    ChanceDraws(rng, EffectiveAccuracy(att, def, skill), 1);
    var crit := DrawChance(aim.0, CritChance(skill.critStage));
    ChanceDraws(aim.0, CritChance(skill.critStage), 1);
    DrawsAdd(rng, aim.0, crit.0, 1, 1);
    OneDraw(crit.0, 1);
    NoDraw(crit.0, 1);
    DrawsAdd(rng, crit.0, crit.0, 2, 1);
    DrawsAdd(rng, crit.0, Advance(crit.0), 2, 1);
    NoDraw(aim.0, 2);
    DrawsAdd(rng, aim.0, aim.0, 1, 2);
  }

  lemma StrikeStep(reg: Registry, d: Duel, skill: Skill, side: nat, h: (int, int))
    requires side < 2 && !d.att.Fainted()
    ensures StepOk(reg, d, Strike(d, skill, side), side, h, 6)
  {
    hide StepOk, DamageFor, Hit, Riders, FaintNotes, Within;
    var r := DamageFor(d.rng, d.att, d.def, skill);
    var d1 := d.(rng := r.0);
    DamageDraws(d.rng, d.att, d.def, skill);
    QuietChange(reg, d, d1, side, h, 3);
    if r.1.missed {
      SaySilent(reg, d1, MissNote, side, side, h, 3);
      StepsCompose(reg, d, d1, d1.Say(MissNote, side, 0), side, h, 3, 3);
    } else {
      DamageIffConnects(d.rng, d.att, d.def, skill);
      var d2 := Hit(d1, r.1, side);
      HitStep(reg, d1, r.1, side, h);
      HitSparesAttacker(d1, r.1, side);
      var d3 := Riders(d2, skill, r.1, side);
      RidersStep(reg, d2, skill, r.1, side, h);
      FaintNotesStep(reg, d3, side, h);
      StepsCompose(reg, d, d1, d2, side, h, 3, 0);
      StepsCompose(reg, d, d2, d3, side, h, 3, 3);
      StepsCompose(reg, d, d3, FaintNotes(d3, side), side, h, 6, 0);
    }
  }

  lemma HitSparesAttacker(d: Duel, res: DamageResult, side: nat)
    requires side < 2
    ensures Hit(d, res, side).att == d.att
  {
  }

  lemma CooldownSetOk(reg: Registry, b: BattlerState, slot: int, skill: Skill)
    requires SkillFor(reg, b.inst, slot) == Some(skill) && skill.cooldown > 0
    ensures Kept(reg, b, b.(cooldowns := b.cooldowns[slot := skill.cooldown]))
  {
    hide StagesOk, ImmuneTo, SkillFor;
  }

  lemma UseSkillStep(reg: Registry, d: Duel, side: nat, slot: int, h: (int, int))
    requires side < 2 && !d.att.Fainted()
    ensures StepOk(reg, d, UseSkill(reg, d, side, slot), side, h, 6)
  {
    hide StepOk, Strike, ImmuneByAbility, Within, Holds, SkillFor;
    SaySilent(reg, d, Fizzle, side, side, h, 6);
    var skill := SkillFor(reg, d.att.inst, slot);
    if skill.Some? && d.att.cooldowns[slot] <= 0 {
      var d0 := if skill.value.cooldown > 0 then d.(att := d.att.(cooldowns := d.att.cooldowns[slot := skill.value.cooldown])) else d;
      if skill.value.cooldown > 0 {
        CooldownSetOk(reg, d.att, slot, skill.value);
      }
      NoDraw(d.rng, 0);
      QuietChange(reg, d, d0, side, h, 0);
      var d1 := d0.Say(MoveUsed, side, 0);
      SaySilent(reg, d0, MoveUsed, side, side, h, 0);
      StepsCompose(reg, d, d0, d1, side, h, 0, 0);
      SaySilent(reg, d1, ImmuneNote, side, 1 - side, h, 6);
      StrikeStep(reg, d1, skill.value, side, h);
      StepsCompose(reg, d, d1, UseSkill(reg, d, side, slot), side, h, 0, 6);
    }
  }

  lemma GateKeeps(reg: Registry, b: BattlerState, rng: Word)
    ensures var g := ThroughGate(b, rng);
            Kept(reg, b, g.battler) && g.battler.curHP == b.curHP && Within(rng, g.rng, 1)
  {
    hide StagesOk, CooldownsOk, Within, DrawChance;
    NoDraw(rng, 1);
    ChanceDraws(rng, 20, 1);
    ChanceDraws(rng, 25, 1);
  }

  lemma PassGateStep(reg: Registry, d: Duel, side: nat, h: (int, int))
    requires side < 2
    ensures StepOk(reg, d, PassGate(d, side).0, side, h, 1)
    ensures PassGate(d, side).0.att.curHP == d.att.curHP
  {
    hide StepOk, ThroughGate, Holds, Within;
    var g := ThroughGate(d.att, d.rng);
    var d1 := d.(rng := g.rng, att := g.battler);
    GateKeeps(reg, d.att, d.rng);
    QuietChange(reg, d, d1, side, h, 1);
    SaySilent(reg, d1, StatusNote, side, side, h, 0);
    StepsCompose(reg, d, d1, d1.Say(StatusNote, side, 0), side, h, 1, 0);
  }

  /** A whole attack by a battler that is still standing. */
  lemma ExecuteMoveStep(reg: Registry, d: Duel, side: nat, slot: int, h: (int, int))
    requires side < 2 && !d.att.Fainted()
    ensures StepOk(reg, d, ExecuteMove(reg, d, side, slot), side, h, 7)
  {
    hide StepOk, PassGate, UseSkill;
    var g := PassGate(d, side);
    PassGateStep(reg, d, side, h);
    StepLoosens(reg, d, g.0, side, h, 1, 7);
    if g.1 {
      UseSkillStep(reg, g.0, side, slot, h);
      StepsCompose(reg, d, g.0, UseSkill(reg, g.0, side, slot), side, h, 1, 6);
    }
  }
}
