/** Cooldowns over whole battles: an exact law for one turn, and how many turns a skill stays
    blocked. */
module CooldownProofs {
  import opened Types
  import opened Creatures
  import opened Rng
  import opened Battlers
  import opened Damage
  import opened Turns

  // ----- One attack -----

  /** Neither creature nor cooldowns change, on either side of a duel; the log only grows. */
  predicate CooldownsKept(d: Duel, d': Duel) {
    && d'.att.cooldowns == d.att.cooldowns && d'.def.cooldowns == d.def.cooldowns
    && d'.att.inst == d.att.inst && d'.def.inst == d.def.inst
    && d.log <= d'.log
  }

  lemma StaticKeepsCooldowns(d: Duel, skill: Skill, damage: int, side: nat)
    ensures CooldownsKept(d, StaticRider(d, skill, damage, side))
  {
    hide DrawChance, ImmuneTo;
  }

  lemma StatusKeepsCooldowns(d: Duel, eff: SkillEffect, side: nat)
    requires side < 2
    ensures CooldownsKept(d, StatusRider(d, eff, side))
  {
    hide DrawChance, DrawIntN, ImmuneTo;
  }

  lemma LaterRidersKeepCooldowns(d: Duel, skill: Skill, eff: SkillEffect, damage: int, side: nat)
    requires side < 2
    ensures CooldownsKept(d, RecoilRider(HealRider(StatRider(d, eff, side), skill, eff, damage, side), eff, damage, side))
  {
    hide StagesAfter, StatNotes, Portion;
    var d1 := StatRider(d, eff, side);
    assert CooldownsKept(d, d1);
    var d2 := HealRider(d1, skill, eff, damage, side);
    assert CooldownsKept(d1, d2);
  }

  lemma RidersKeepCooldowns(d: Duel, skill: Skill, res: DamageResult, side: nat)
    requires side < 2
    ensures CooldownsKept(d, Riders(d, skill, res, side))
  {
    hide StaticRider, StatusRider, StatRider, HealRider, RecoilRider;
    var d1 := StaticRider(d, skill, res.damage, side);
    StaticKeepsCooldowns(d, skill, res.damage, side);
    if skill.effect.Some? {
      var eff := skill.effect.value;
      StatusKeepsCooldowns(d1, eff, side);
      LaterRidersKeepCooldowns(StatusRider(d1, eff, side), skill, eff, res.damage, side);
    }
  }

  lemma StrikeKeepsCooldowns(d: Duel, skill: Skill, side: nat)
    requires side < 2
    ensures CooldownsKept(d, Strike(d, skill, side))
  {
    hide DamageFor, Riders;
    var r := DamageFor(d.rng, d.att, d.def, skill);
    RidersKeepCooldowns(Hit(d.(rng := r.0), r.1, side), skill, r.1, side);
  }

  /** A move fizzles, spending nothing and doing nothing, exactly when its slot holds no skill or
      is still cooling down. */
  lemma FizzlesIff(reg: Registry, d: Duel, side: nat, slot: int)
    requires side < 2
    ensures UseSkill(reg, d, side, slot) == d.Say(Fizzle, side, 0)
            <==> SkillFor(reg, d.att.inst, slot).None? || d.att.cooldowns[slot] > 0
  {
    hide Strike, SkillFor;
    if SkillFor(reg, d.att.inst, slot).Some? && d.att.cooldowns[slot] <= 0 {
      var skill := SkillFor(reg, d.att.inst, slot).value;
      var att := if skill.cooldown > 0 then d.att.(cooldowns := d.att.cooldowns[slot := skill.cooldown]) else d.att;
      var d1 := d.(att := att).Say(MoveUsed, side, 0);
      StrikeKeepsCooldowns(d1, skill, side);
      assert d1.log <= UseSkill(reg, d, side, slot).log && d1.log[|d.log|].kind == MoveUsed;
    }
  }

  /** The skill the attacker gets to try: it passes its gate and has one in that slot. */
  function Attempt(reg: Registry, d: Duel, side: nat, slot: int): Option<Skill> {
    if PassGate(d, side).1 then SkillFor(reg, d.att.inst, slot) else None
  }

  /** The entry of a slot once a skill has been tried. */
  function AfterAttempt(entry: Int8, attempt: Option<Skill>): Int8 {
    if attempt.Some? && entry <= 0 && attempt.value.cooldown > 0 then attempt.value.cooldown else entry
  }

  lemma MoveCooldowns(reg: Registry, d: Duel, side: nat, tried: int, slot: nat)
    requires side < 2 && slot < 4
    ensures var d' := ExecuteMove(reg, d, side, tried);
            && d'.att.inst == d.att.inst && d'.def.inst == d.def.inst && d'.def.cooldowns == d.def.cooldowns
            && d'.att.cooldowns[slot]
               == AfterAttempt(d.att.cooldowns[slot], if tried == slot then Attempt(reg, d, side, slot) else None)
  {
    hide Strike, SkillFor, DrawChance;
    var g := PassGate(d, side);
    assert g.0.att.cooldowns == d.att.cooldowns && g.0.att.inst == d.att.inst && g.0.def == d.def;
    if g.1 && SkillFor(reg, d.att.inst, tried).Some? && g.0.att.cooldowns[tried] <= 0 {
      var skill := SkillFor(reg, d.att.inst, tried).value;
      var att := if skill.cooldown > 0 then g.0.att.(cooldowns := g.0.att.cooldowns[tried := skill.cooldown]) else g.0.att;
      StrikeKeepsCooldowns(g.0.(att := att).Say(MoveUsed, side, 0), skill, side);
    }
  }

  // ----- One turn -----

  function Entry(st: State, side: nat, j: nat, slot: nat): Int8
    requires j < |st.At(side).party| && slot < 4
  {
    st.At(side).party[j].cooldowns[slot]
  }

  /** Same creatures in the same places. */
  predicate SamePlaces(st: State, st': State, side: nat) {
    && st'.At(side).active == st.At(side).active && |st'.At(side).party| == |st.At(side).party|
    && forall j :: 0 <= j < |st.At(side).party| ==> st'.At(side).party[j].inst == st.At(side).party[j].inst
  }

  predicate Steady(st: State, st': State, side: nat, j: nat, slot: nat)
    requires j < |st.At(side).party| && slot < 4
  {
    SamePlaces(st, st', side) && Entry(st', side, j, slot) == Entry(st, side, j, slot)
  }

  /** What the side's own battler tries when it comes to act in this state. */
  function Tried(reg: Registry, st: State, side: nat, act: MoveAction, slot: nat): Option<Skill>
    requires st.WellFormed() && side < 2
  {
    if act.kind == ACT_MOVE && act.skillSlot == slot && !st.Active(side).Fainted()
    then Attempt(reg, DuelFrom(st, side), side, slot) else None
  }

  lemma SettleCooldown(st: State, actor: nat, d: Duel, side: nat, j: nat, slot: nat)
    requires st.WellFormed() && actor < 2 && side < 2 && j < |st.At(side).party| && slot < 4
    requires d.att.inst == st.Active(actor).inst && d.def.inst == st.Active(1 - actor).inst
    requires d.def.cooldowns == st.Active(1 - actor).cooldowns
    ensures var st' := Settle(st, actor, d);
            SamePlaces(st, st', side)
            && Entry(st', side, j, slot)
               == if side == actor && j == st.At(side).active then d.att.cooldowns[slot] else Entry(st, side, j, slot)
  {
  }

  lemma ActCooldown(reg: Registry, st: State, actor: nat, act: MoveAction, side: nat, j: nat, slot: nat)
    requires st.WellFormed() && actor < 2 && side < 2 && j < |st.At(side).party| && slot < 4
    ensures var st' := Act(reg, st, actor, act);
            && SamePlaces(st, st', side)
            && Entry(st', side, j, slot) == if side == actor && j == st.At(side).active
                 then AfterAttempt(Entry(st, side, j, slot), Tried(reg, st, side, act, slot)) else Entry(st, side, j, slot)
  {
    hide ExecuteMove, CheckVictory, Attempt, AfterAttempt, Settle;
    NoAttempt(Entry(st, side, j, slot));
    if act.kind == ACT_MOVE && !st.Active(actor).Fainted() {
      MoveCooldowns(reg, DuelFrom(st, actor), actor, act.skillSlot, slot);
      SettleCooldown(st, actor, ExecuteMove(reg, DuelFrom(st, actor), actor, act.skillSlot), side, j, slot);
    }
  }

  lemma NoAttempt(entry: Int8)
    ensures AfterAttempt(entry, None) == entry
  {
  }

  /** The state in which a side comes to act in a turn, unless the battle ends before. */
  function ActsIn(reg: Registry, st: State, acts: Actions, side: nat): (r: State)
    requires st.WellFormed() && side < 2
    ensures r.WellFormed()
  {
    var m := AfterSwitches(st, acts);
    var order := MoveOrder(reg, m, acts);
    if order.1 == side then m.(rng := order.0)
    else Act(reg, m.(rng := order.0), order.1, ActionOf(acts, order.1))
  }

  /** The skill a side tries in the course of a turn, if it gets that far. */
  function TriedInTurn(reg: Registry, st: State, acts: Actions, side: nat, slot: nat): Option<Skill>
    requires st.WellFormed() && side < 2
  {
    var at := ActsIn(reg, st, acts, side);
    if at.over then None else Tried(reg, at, side, ActionOf(acts, side), slot)
  }

  lemma SwitchesSteady(st: State, acts: Actions, side: nat, j: nat, slot: nat)
    requires st.WellFormed() && side < 2 && j < |st.At(side).party| && slot < 4
    ensures var m := AfterSwitches(st, acts);
            && |m.At(side).party| == |st.At(side).party| && m.At(side).party[j].inst == st.At(side).party[j].inst
            && Entry(m, side, j, slot) == Entry(st, side, j, slot) && m.over == st.over
  {
    hide LegalSwitch;
  }

  lemma BothActed(reg: Registry, st: State, acts: Actions, side: nat, j: nat, slot: nat)
    requires st.WellFormed() && !st.over && side < 2 && j < |st.At(side).party| && slot < 4
    ensures var m := AfterSwitches(st, acts);
            var order := MoveOrder(reg, m, acts);
            var st' := ActBoth(reg, m.(rng := order.0), order.1, acts);
            && j < |m.At(side).party| && SamePlaces(m, st', side)
            && Entry(st', side, j, slot) == if j == m.At(side).active
                 then AfterAttempt(Entry(st, side, j, slot), TriedInTurn(reg, st, acts, side, slot)) else Entry(st, side, j, slot)
  {
    hide AfterSwitches, MoveOrder, Act, Tried, AfterAttempt;
    SwitchesSteady(st, acts, side, j, slot);
    var m := AfterSwitches(st, acts);
    var order := MoveOrder(reg, m, acts);
    var st0, first, second := m.(rng := order.0), order.1, 1 - order.1;
    var st1 := Act(reg, st0, first, ActionOf(acts, first));
    NoAttempt(Entry(st, side, j, slot));
    ActCooldown(reg, st0, first, ActionOf(acts, first), side, j, slot);
    ActCooldown(reg, st1, second, ActionOf(acts, second), side, j, slot);
  }

  lemma EndSteady(st: State, first: nat, side: nat, j: nat, slot: nat)
    requires st.WellFormed() && first < 2 && side < 2 && j < |st.At(side).party| && slot < 4
    ensures Steady(st, EndOfTurn(st, first), side, j, slot)
  {
    hide CheckVictory, Residual;
    ResidualSteady(st, first, side, j, slot);
    ResidualSteady(Residual(st, first), 1 - first, side, j, slot);
  }

  lemma ResidualSteady(st: State, who: nat, side: nat, j: nat, slot: nat)
    requires st.WellFormed() && who < 2 && side < 2 && j < |st.At(side).party| && slot < 4
    ensures Steady(st, Residual(st, who), side, j, slot)
  {
  }

  lemma CoolDownTicks(st: State, who: nat, side: nat, j: nat, slot: nat)
    requires st.WellFormed() && who < 2 && side < 2 && j < |st.At(side).party| && slot < 4
    ensures var st' := CoolDown(st, who);
            SamePlaces(st, st', side)
            && Entry(st', side, j, slot) == if who == side && j == st.At(side).active
                 then Cooled(Entry(st, side, j, slot)) else Entry(st, side, j, slot)
  {
  }

  /** The skill a side tries and does use: its battler's slot is not cooling down. */
  function UsedInTurn(reg: Registry, st: State, acts: Actions, side: nat, slot: nat): Option<Skill>
    requires st.WellFormed() && side < 2 && slot < 4
  {
    if AfterSwitches(st, acts).Active(side).cooldowns[slot] > 0 then None else TriedInTurn(reg, st, acts, side, slot)
  }

  /** The exact law of a turn: a benched battler's cooldowns stand still; the active one's drop
      by one, or start at one less than the cooldown of the skill it used. */
  lemma TurnCooldown(reg: Registry, st: State, acts: Actions, side: nat, j: nat, slot: nat)
    requires st.WellFormed() && !st.over && side < 2 && j < |st.At(side).party| && slot < 4
    ensures var st' := ResolveTurn(reg, st, acts).state;
            && |st'.At(side).party| == |st.At(side).party|
            && st'.At(side).active == AfterSwitches(st, acts).At(side).active
            && var used := UsedInTurn(reg, st, acts, side, slot);
               Entry(st', side, j, slot) == if j != st'.At(side).active then Entry(st, side, j, slot)
                 else if used.Some? && used.value.cooldown > 0 then used.value.cooldown - 1
                 else Cooled(Entry(st, side, j, slot))
  {
    hide AfterSwitches, MoveOrder, ActBoth, EndOfTurn, CoolDown, TriedInTurn;
    SwitchesSteady(st, acts, side, j, slot);
    BothActed(reg, st, acts, side, j, slot);
    var m := AfterSwitches(st, acts);
    var order := MoveOrder(reg, m, acts);
    var st1 := ActBoth(reg, m.(rng := order.0), order.1, acts);
    var st2 := EndOfTurn(st1, order.1);
    EndSteady(st1, order.1, side, j, slot);
    CoolDownTicks(st2, 0, side, j, slot);
    CoolDownTicks(CoolDown(st2, 0), 1, side, j, slot);
  }

  // ----- Whole battles -----

  /** How many of the turns played end with battler j active. */
  function ActiveTurns(reg: Registry, st: State, turns: seq<Actions>, side: nat, j: nat): nat
    requires st.WellFormed()
    decreases |turns|
  {
    if turns == [] || st.over then 0
    else
      var st' := ResolveTurn(reg, st, turns[0]).state;
      (if st'.At(side).active == j then 1 else 0) + ActiveTurns(reg, st', turns[1..], side, j)
  }

  /** Whatever both players try meanwhile, a cooldown runs down by one for each turn its battler
      is active, and stands still while it is benched. */
  lemma {:induction false} CooldownCountsActiveTurns(reg: Registry, st: State, turns: seq<Actions>, side: nat, j: nat, slot: nat)
    requires st.WellFormed() && side < 2 && j < |st.At(side).party| && slot < 4
    requires ActiveTurns(reg, st, turns, side, j) <= Entry(st, side, j, slot)
    ensures var end := Play(reg, st, turns);
            && |end.At(side).party| == |st.At(side).party|
            && Entry(end, side, j, slot) == Entry(st, side, j, slot) - ActiveTurns(reg, st, turns, side, j)
    decreases |turns|
  {
    hide ResolveTurn, TriedInTurn, AfterSwitches;
    if turns != [] && !st.over {
      SwitchesSteady(st, turns[0], side, j, slot);
      TurnCooldown(reg, st, turns[0], side, j, slot);
      CooldownCountsActiveTurns(reg, ResolveTurn(reg, st, turns[0]).state, turns[1..], side, j, slot);
    }
  }

  /** A skill with cooldown c, once used, is refused for exactly the next c - 1 turns in which
      its user is active: after n of them its entry is c - 1 - n, and the next attempt at it goes
      through if and only if n = c - 1.  Turns on the bench do not count. */
  lemma ReadyAfterCooldown(reg: Registry, st: State, acts: Actions, turns: seq<Actions>, next: Actions, side: nat, slot: nat)
    requires st.WellFormed() && !st.over && side < 2 && slot < 4
    requires var used := UsedInTurn(reg, st, acts, side, slot); used.Some? && used.value.cooldown > 0
    requires var st1, c := ResolveTurn(reg, st, acts).state, UsedInTurn(reg, st, acts, side, slot).value.cooldown;
             ActiveTurns(reg, st1, turns, side, st1.At(side).active) <= c - 1
    ensures var st1, c := ResolveTurn(reg, st, acts).state, UsedInTurn(reg, st, acts, side, slot).value.cooldown;
            var j, end := st1.At(side).active, Play(reg, st1, turns);
            var n := ActiveTurns(reg, st1, turns, side, j);
            && j < |end.At(side).party| && Entry(end, side, j, slot) == c - 1 - n
            && (AfterSwitches(end, next).At(side).active == j ==>
                  UsedInTurn(reg, end, next, side, slot) == if n == c - 1 then TriedInTurn(reg, end, next, side, slot) else None)
  {
    hide ResolveTurn, TriedInTurn, ActiveTurns, Play, AfterSwitches;
    var st1 := ResolveTurn(reg, st, acts).state;
    var j, end := st1.At(side).active, Play(reg, st1, turns);
    SameSize(reg, st, acts, side, slot);
    TurnCooldown(reg, st, acts, side, j, slot);
    CooldownCountsActiveTurns(reg, st1, turns, side, j, slot);
    SwitchesSteady(end, next, side, j, slot);
  }

  lemma SameSize(reg: Registry, st: State, acts: Actions, side: nat, slot: nat)
    requires st.WellFormed() && !st.over && side < 2 && slot < 4
    ensures |ResolveTurn(reg, st, acts).state.At(side).party| == |st.At(side).party|
  {
    hide ResolveTurn, TriedInTurn;
    TurnCooldown(reg, st, acts, side, 0, slot);
  }
}
