/** What one turn of a battle does, as a function of state and actions
    (services/battle/internal/engine/battle.go, services/battle/internal/engine/registry.go). */
module Turns {
  import opened Types
  import opened Creatures
  import opened Words
  import opened Rng
  import opened Battlers
  import opened Damage

  // ----- Skills -----

  /** The process-wide skill table; Unset before SetRegistry. */
  datatype Registry = Unset | Loaded(skills: map<string, Skill>)

  function SkillFor(reg: Registry, inst: Instance, slot: int): (sk: Option<Skill>)
    ensures sk.Some? ==> 0 <= slot < 4
  {
    if slot < 0 || slot >= 4 || reg.Unset? || inst.skillIDs[slot] == "" || inst.skillIDs[slot] !in reg.skills then None
    else Some(reg.skills[inst.skillIDs[slot]])
  }

  // ----- Events -----

  datatype EventKind =
    | SwitchIn | StatusNote | Fizzle | MoveUsed | ImmuneNote | MissNote | DamageDealt | CritNote | MatchupNote
    | StatNote | Healed | Recoil | ResidualDamage | ResidualHeal | FaintNote | BattleEnd

  datatype Event = Event(kind: EventKind, side: nat, amount: int)

  // ----- One attack, seen as a duel between two battlers -----

  datatype Duel = Duel(rng: Word, att: BattlerState, def: BattlerState, log: seq<Event>)
  {
    function Say(kind: EventKind, side: nat, amount: int): Duel {
      this.(log := log + [Event(kind, side, amount)])
    }

    function Target(self: bool): BattlerState {
      if self then att else def
    }

    function WithTarget(self: bool, b: BattlerState): Duel {
      if self then this.(att := b) else this.(def := b)
    }
  }

  function TargetSide(self: bool, side: nat): nat
    requires side < 2
  {
    if self then side else 1 - side
  }

  function ImmuneByAbility(def: BattlerState, skill: Skill): bool {
    (def.HasAbility(Levitate) && skill.element == Earth) || (def.HasAbility(Insulate) && skill.element == Electric)
  }

  function Hit(d: Duel, res: DamageResult, side: nat): Duel
    requires side < 2
  {
    if res.damage <= 0 then d
    else
      var hp := d.def.curHP - res.damage;
      var d1 := d.(def := d.def.(curHP := if hp < 0 then 0 else hp)).Say(DamageDealt, 1 - side, res.damage);
      var d2 := if res.crit then d1.Say(CritNote, 1 - side, 0) else d1;
      if res.effectiveness > 1.0 || (0.0 < res.effectiveness < 1.0) then d2.Say(MatchupNote, 1 - side, 0) else d2
  }

  function StaticRider(d: Duel, skill: Skill, damage: int, side: nat): Duel {
    if d.def.HasAbility(Static) && skill.class_ == Physical && damage > 0 then
      var roll := DrawChance(d.rng, 30);
      if roll.1 && WithStatus(d.att, Paralysis).1
      then d.(rng := roll.0, att := WithStatus(d.att, Paralysis).0).Say(StatusNote, side, 0)
      else d.(rng := roll.0)
    else d
  }

  function OrDefault(v: int, d: int): int {
    if v == 0 then d else v
  }

  function Afflict(b: BattlerState, s: StatusCondition, rng: Word): (Word, BattlerState, bool) {
    if s == Sleep then WithSleep(b, rng) else (rng, WithStatus(b, s).0, WithStatus(b, s).1)
  }

  function StatusRider(d: Duel, eff: SkillEffect, side: nat): Duel
    requires side < 2
  {
    if eff.status == NoStatus then d
    else
      var roll := DrawChance(d.rng, OrDefault(eff.statusChance, 100));
      if !roll.1 then d.(rng := roll.0)
      else
        var hit := Afflict(d.Target(eff.targetSelf), eff.status, roll.0);
        var d1 := d.WithTarget(eff.targetSelf, hit.1).(rng := hit.0);
        if hit.2 then d1.Say(StatusNote, TargetSide(eff.targetSelf, side), 0) else d1
  }

  function Bumped(cur: Int8, stat: string, changes: map<string, Int8>): Int8 {
    if stat in changes then ClampStage(cur, changes[stat]) else cur
  }

  /** The stages after all the changes, in whatever order they are made. */
  function StagesAfter(st: Stages, changes: map<string, Int8>): Stages {
    Stages(Bumped(st.atk, "attack", changes), Bumped(st.def, "defense", changes),
           Bumped(st.spa, "sp_attack", changes), Bumped(st.spd, "sp_defense", changes),
           Bumped(st.spe, "speed", changes), Bumped(st.acc, "accuracy", changes), Bumped(st.eva, "evasion", changes))
  }

  function StatNotes(side: nat, n: nat): (es: seq<Event>)
    ensures |es| == n
  {
    if n == 0 then [] else StatNotes(side, n - 1) + [Event(StatNote, side, 0)]
  }

  function StatRider(d: Duel, eff: SkillEffect, side: nat): Duel
    requires side < 2
  {
    var b := d.Target(eff.targetSelf);
    d.WithTarget(eff.targetSelf, b.(stages := StagesAfter(b.stages, eff.statChanges)))
     .(log := d.log + StatNotes(TargetSide(eff.targetSelf, side), |eff.statChanges|))
  }

  /** A fraction of a whole amount, rounded toward zero. */
  function Portion(amount: int, frac: real): int {
    Trunc(amount as real * frac)
  }

  function HealRider(d: Duel, skill: Skill, eff: SkillEffect, damage: int, side: nat): Duel {
    if eff.healFrac <= 0.0 then d
    else
      var heal := Portion(if skill.class_ == StatusOnly then d.att.maxHP else damage, eff.healFrac);
      var hp := d.att.curHP + heal;
      d.(att := d.att.(curHP := if hp > d.att.maxHP then d.att.maxHP else hp)).Say(Healed, side, heal)
  }

  function RecoilRider(d: Duel, eff: SkillEffect, damage: int, side: nat): Duel {
    if eff.recoilFrac <= 0.0 || damage <= 0 then d
    else
      var recoil := Portion(damage, eff.recoilFrac);
      var hp := d.att.curHP - recoil;
      d.(att := d.att.(curHP := if hp < 0 then 0 else hp)).Say(Recoil, side, recoil)
  }

  function Riders(d: Duel, skill: Skill, res: DamageResult, side: nat): Duel
    requires side < 2
  {
    var d1 := StaticRider(d, skill, res.damage, side);
    match skill.effect
    case None => d1
    case Some(eff) =>
      RecoilRider(HealRider(StatRider(StatusRider(d1, eff, side), eff, side), skill, eff, res.damage, side), eff, res.damage, side)
  }

  function FaintNotes(d: Duel, side: nat): Duel
    requires side < 2
  {
    var d1 := if d.def.Fainted() then d.Say(FaintNote, 1 - side, 0) else d;
    if d1.att.Fainted() then d1.Say(FaintNote, side, 0) else d1
  }

  function Strike(d: Duel, skill: Skill, side: nat): Duel
    requires side < 2
  {
    var r := DamageFor(d.rng, d.att, d.def, skill);
    var d1 := d.(rng := r.0);
    if r.1.missed then d1.Say(MissNote, side, 0)
    else FaintNotes(Riders(Hit(d1, r.1, side), skill, r.1, side), side)
  }

  function UseSkill(reg: Registry, d: Duel, side: nat, slot: int): Duel
    requires side < 2
  {
    match SkillFor(reg, d.att.inst, slot)
    case None => d.Say(Fizzle, side, 0)
    case Some(skill) =>
      if d.att.cooldowns[slot] > 0 then d.Say(Fizzle, side, 0)
      else
        var att := if skill.cooldown > 0 then d.att.(cooldowns := d.att.cooldowns[slot := skill.cooldown]) else d.att;
        var d1 := d.(att := att).Say(MoveUsed, side, 0);
        if ImmuneByAbility(d1.def, skill) then d1.Say(ImmuneNote, 1 - side, 0) else Strike(d1, skill, side)
  }

  function PassGate(d: Duel, side: nat): (Duel, bool) {
    var g := ThroughGate(d.att, d.rng);
    var d1 := d.(rng := g.rng, att := g.battler);
    (if g.announced then d1.Say(StatusNote, side, 0) else d1, g.canAct)
  }

  function ExecuteMove(reg: Registry, d: Duel, side: nat, slot: int): Duel
    requires side < 2
  {
    var g := PassGate(d, side);
    if g.1 then UseSkill(reg, g.0, side, slot) else g.0
  }

  // ----- The battle -----

  const ACT_MOVE: nat := 0
  const ACT_SWITCH: nat := 1

  /** What a client may submit; kind is a byte, of which 0 and 1 mean something. */
  datatype MoveAction = MoveAction(kind: nat, skillSlot: int, switchTo: int)

  type Actions = (MoveAction, MoveAction)

  function ActionOf(acts: Actions, side: nat): MoveAction {
    if side == 0 then acts.0 else acts.1
  }

  datatype SideState = SideState(party: seq<BattlerState>, active: nat)
  {
    predicate HasUsable() {
      exists i :: 0 <= i < |party| && !party[i].Fainted()
    }
  }

  datatype State = State(rng: Word, side0: SideState, side1: SideState, turn: nat, over: bool, winner: int, log: seq<Event>)
  {
    function At(i: nat): SideState {
      if i == 0 then side0 else side1
    }

    function Put(i: nat, s: SideState): State {
      if i == 0 then this.(side0 := s) else this.(side1 := s)
    }

    /** Both active indices point into their party. */
    predicate WellFormed() {
      side0.active < |side0.party| && side1.active < |side1.party|
    }

    function Active(i: nat): BattlerState
      requires WellFormed()
    {
      At(i).party[At(i).active]
    }

    function PutActive(i: nat, b: BattlerState): State
      requires WellFormed()
    {
      Put(i, At(i).(party := At(i).party[At(i).active := b]))
    }

    function Say(kind: EventKind, side: nat, amount: int): State {
      this.(log := log + [Event(kind, side, amount)])
    }
  }

  function FreshBattle(seed: Word, a: seq<BattlerState>, b: seq<BattlerState>): State {
    State(seed, SideState(a, 0), SideState(b, 0), 0, false, -1, [])
  }

  function LegalSwitch(s: SideState, to: int): bool {
    0 <= to < |s.party| && !s.party[to].Fainted() && to != s.active
  }

  function Withdrawn(b: BattlerState): BattlerState {
    b.(stages := NO_STAGES, flinched := false)
  }

  function DoSwitch(st: State, side: nat, to: int): (r: State)
    requires st.WellFormed()
    ensures r.WellFormed()
  {
    var s := st.At(side);
    if !LegalSwitch(s, to) then st
    else st.Put(side, SideState(s.party[s.active := Withdrawn(s.party[s.active])], to)).Say(SwitchIn, side, 0)
  }

  function SwitchIfAsked(st: State, side: nat, act: MoveAction): (r: State)
    requires st.WellFormed()
    ensures r.WellFormed()
  {
    if act.kind == ACT_SWITCH then DoSwitch(st, side, act.switchTo) else st
  }

  function PriorityOf(reg: Registry, act: MoveAction, b: BattlerState): int {
    if act.kind != ACT_MOVE then 6
    else match SkillFor(reg, b.inst, act.skillSlot)
      case Some(skill) => skill.priority
      case None => 0
  }

  /** Which side acts first, and the generator after a possible tie-break. */
  function MoveOrder(reg: Registry, st: State, acts: Actions): (r: (Word, nat))
    requires st.WellFormed()
    ensures r.1 < 2
  {
    var a, b := st.Active(0), st.Active(1);
    var pa, pb := PriorityOf(reg, acts.0, a), PriorityOf(reg, acts.1, b);
    if pa != pb then (st.rng, if pb > pa then 1 else 0)
    else if EffSpeed(b) > EffSpeed(a) then (st.rng, 1)
    else if EffSpeed(b) == EffSpeed(a) then
      var roll := DrawChance(st.rng, 50);
      (roll.0, if roll.1 then 1 else 0)
    else (st.rng, 0)
  }

  function DuelFrom(st: State, side: nat): Duel
    requires st.WellFormed() && side < 2
  {
    Duel(st.rng, st.Active(side), st.Active(1 - side), st.log)
  }

  function Settle(st: State, side: nat, d: Duel): (r: State)
    requires st.WellFormed() && side < 2
    ensures r.WellFormed()
  {
    st.PutActive(side, d.att).PutActive(1 - side, d.def).(rng := d.rng, log := d.log)
  }

  function CheckVictory(st: State): (r: State)
    ensures r.side0 == st.side0 && r.side1 == st.side1
  {
    var a, b := st.side0.HasUsable(), st.side1.HasUsable();
    var st1 :=
      if !a && !b then st.(over := true, winner := -1)
      else if !a then st.(over := true, winner := 1)
      else if !b then st.(over := true, winner := 0)
      else st;
    if st1.over then st1.Say(BattleEnd, 0, 0) else st1
  }

  /** One iteration of the attack phase. */
  function Act(reg: Registry, st: State, side: nat, act: MoveAction): (r: State)
    requires st.WellFormed() && side < 2
    ensures r.WellFormed()
  {
    if act.kind != ACT_MOVE || st.Active(side).Fainted() then st
    else CheckVictory(Settle(st, side, ExecuteMove(reg, DuelFrom(st, side), side, act.skillSlot)))
  }

  function ActBoth(reg: Registry, st: State, first: nat, acts: Actions): (r: State)
    requires st.WellFormed() && first < 2
    ensures r.WellFormed()
  {
    var st1 := Act(reg, st, first, ActionOf(acts, first));
    if st1.over then st1 else Act(reg, st1, 1 - first, ActionOf(acts, 1 - first))
  }

  /** One battler's end-of-turn tick and its report. */
  function Ticked(st: State, side: nat): (r: State)
    requires st.WellFormed() && side < 2
    ensures r.WellFormed()
  {
    var t := AfterTurn(st.Active(side));
    var st1 := st.PutActive(side, t.0);
    if t.1 == 0 then st1 else st1.Say(if t.1 > 0 then ResidualHeal else ResidualDamage, side, t.1)
  }

  function Residual(st: State, side: nat): (r: State)
    requires st.WellFormed() && side < 2
    ensures r.WellFormed()
  {
    var st1 := Ticked(st, side);
    if st1.Active(side).Fainted() then st1.Say(FaintNote, side, 0) else st1
  }

  function EndOfTurn(st: State, first: nat): (r: State)
    requires st.WellFormed() && first < 2
    ensures r.WellFormed()
  {
    hide CheckVictory, Residual;
    if st.over then st else CheckVictory(Residual(Residual(st, first), 1 - first))
  }

  function CoolDown(st: State, side: nat): (r: State)
    requires st.WellFormed() && side < 2
    ensures r.WellFormed()
  {
    st.PutActive(side, st.Active(side).(cooldowns := CooledAll(st.Active(side).cooldowns)))
  }

  /** The state once both switches have been made. */
  function AfterSwitches(st: State, acts: Actions): (r: State)
    requires st.WellFormed()
    ensures r.WellFormed()
  {
    SwitchIfAsked(SwitchIfAsked(st.(turn := st.turn + 1), 0, acts.0), 1, acts.1)
  }

  /** Attacks, end-of-turn effects and cooldown ticks. */
  function Fight(reg: Registry, st: State, acts: Actions): (r: State)
    requires st.WellFormed()
    ensures r.WellFormed()
  {
    var order := MoveOrder(reg, st, acts);
    CoolDown(CoolDown(EndOfTurn(ActBoth(reg, st.(rng := order.0), order.1, acts), order.1), 0), 1)
  }

  datatype TurnResult = BattleOver | Resolved(state: State, events: seq<Event>)

  /** A whole turn: refused once the battle is over; otherwise the events are drained. */
  function ResolveTurn(reg: Registry, st: State, acts: Actions): (r: TurnResult)
    requires st.WellFormed()
    ensures r.Resolved? <==> !st.over
    ensures r.Resolved? ==> r.state.WellFormed()
  {
    if st.over then BattleOver
    else
      var end := Fight(reg, AfterSwitches(st, acts), acts);
      Resolved(end.(log := []), end.log)
  }

  /** Turn after turn, stopping once the battle is over. */
  function Play(reg: Registry, st: State, turns: seq<Actions>): (r: State)
    requires st.WellFormed()
    ensures r.WellFormed()
    decreases |turns|
  {
    if turns == [] || st.over then st
    else Play(reg, ResolveTurn(reg, st, turns[0]).state, turns[1..])
  }
}
