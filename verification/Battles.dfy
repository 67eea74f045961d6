/** The mutable battle: sides, battlers and generator as objects
    (services/battle/internal/engine/battle.go).  Every method does what the function of the
    same name in Turns says. */
module Battles {
  import opened Types
  import opened Creatures
  import opened Words
  import opened Rng
  import opened Battlers
  import opened Damage
  import opened StatOrder
  import opened Turns
  import T = Turns

  function States(party: seq<Battler>): (ps: seq<BattlerState>)
    reads party
    ensures |ps| == |party| && forall i :: 0 <= i < |ps| ==> ps[i] == party[i].State()
  {
    if party == [] then [] else States(party[..|party| - 1]) + [party[|party| - 1].State()]
  }

  class Side {
    const playerID: string
    const party: seq<Battler>
    var active: nat

    constructor (playerID: string, party: seq<Battler>)
      ensures this.playerID == playerID && this.party == party && active == 0
    {
      this.playerID, this.party, active := playerID, party, 0;
    }

    function State(): SideState
      reads this, party
    {
      SideState(States(party), active)
    }

    ghost function Members(): set<object> {
      set b | b in party
    }

    function ActiveBattler(): Battler
      requires active < |party|
      reads this
    {
      party[active]
    }

    /** Illegal switches are ignored; a legal one clears the boosts and flinch of the battler
        that leaves. */
    method SwitchTo(to: int) returns (done: bool)
      requires active < |party| && forall i, j :: 0 <= i < j < |party| ==> party[i] != party[j]
      modifies `active, ActiveBattler()
      ensures done == LegalSwitch(old(State()), to)
      ensures State() == if done then SideState(old(State()).party[old(active) := Withdrawn(old(ActiveBattler().State()))], to)
                         else old(State())
    {
      hide States;
      if to < 0 || to >= |party| || party[to].curHP <= 0 || to == active {
        return false;
      }
      var out := ActiveBattler();
      out.stages := NO_STAGES;
      out.flinched := false;
      active := to;
      done := true;
      assert States(party) == old(States(party))[old(active) := out.State()];
    }

    method HasUsable() returns (ok: bool)
      ensures ok == State().HasUsable()
    {
      hide States;
      for i := 0 to |party|
        invariant forall j :: 0 <= j < i ==> party[j].curHP <= 0
      {
        if party[i].curHP > 0 {
          assert !State().party[i].Fainted();
          return true;
        }
      }
      return false;
    }
  }

  ghost predicate AllDistinct(a: seq<Battler>, b: seq<Battler>) {
    && (forall i, j :: 0 <= i < j < |a| ==> a[i] != a[j])
    && (forall i, j :: 0 <= i < j < |b| ==> b[i] != b[j])
    && (forall i, j :: 0 <= i < |a| && 0 <= j < |b| ==> a[i] != b[j])
  }

  /** If only the active battler changed, only its entry did. */
  twostate lemma OnlyActiveChanged(s: Side)
    requires s.active == old(s.active) && s.active < |s.party|
    requires forall j :: 0 <= j < |s.party| && j != s.active ==> s.party[j].State() == old(s.party[j].State())
    ensures s.State() == old(s.State()).(party := old(s.State()).party[s.active := s.ActiveBattler().State()])
  {
    hide States;
  }

  twostate lemma SideUnchanged(s: Side)
    requires s.active == old(s.active)
    requires forall j :: 0 <= j < |s.party| ==> s.party[j].State() == old(s.party[j].State())
    ensures s.State() == old(s.State())
  {
    hide States;
    assert s.State().party == old(s.State()).party;
  }

  class Battle {
    const rng: RNG
    const side0: Side
    const side1: Side
    var turn: nat
    var over: bool
    var winner: int
    var log: seq<Event>

    constructor (seed: Word, a: Side, b: Side)
      ensures side0 == a && side1 == b && fresh(rng)
      ensures rng.state == seed && turn == 0 && !over && winner == -1 && log == []
    {
      rng := new RNG(seed);
      side0, side1 := a, b;
      turn, over, winner, log := 0, false, -1, [];
    }

    function At(i: nat): Side {
      if i == 0 then side0 else side1
    }

    ghost predicate Valid()
      reads side0, side1
    {
      side0 != side1 && AllDistinct(side0.party, side1.party)
      && side0.active < |side0.party| && side1.active < |side1.party|
    }

    ghost function Objects(): set<object> {
      {this, rng, side0, side1} + side0.Members() + side1.Members()
    }

    function State(): (st: T.State)
      reads this, rng, side0, side1, side0.party, side1.party
    {
      T.State(rng.state, side0.State(), side1.State(), turn, over, winner, log)
    }

    ghost function DuelNow(attacker: Battler, defender: Battler): Duel
      reads this, rng, attacker, defender
    {
      Duel(rng.state, attacker.State(), defender.State(), log)
    }

    method Emit(kind: EventKind, side: nat, amount: int)
      modifies this`log
      ensures log == old(log) + [Event(kind, side, amount)]
    {
      log := log + [Event(kind, side, amount)];
    }

    method DrainLog() returns (out: seq<Event>)
      modifies this`log
      ensures out == old(log) && log == []
    {
      out := log;
      log := [];
    }

    // ----- Riders -----

    method StaticRider(attacker: Battler, defender: Battler, skill: Skill, damage: int, side: nat)
      requires attacker != defender
      modifies this`log, rng, attacker
      ensures DuelNow(attacker, defender) == T.StaticRider(old(DuelNow(attacker, defender)), skill, damage, side)
    {
      hide DrawChance, ImmuneTo;
      if defender.inst.ability == Static && skill.class_ == Physical && damage > 0 {
        var roll := rng.Chance(30);
        if roll {
          var ok := attacker.ApplyStatus(Paralysis);
          if ok {
            Emit(StatusNote, side, 0);
          }
        }
      }
    }

    method StatusRider(attacker: Battler, defender: Battler, eff: SkillEffect, side: nat)
      requires attacker != defender && side < 2
      modifies this`log, rng, attacker, defender
      ensures DuelNow(attacker, defender) == T.StatusRider(old(DuelNow(attacker, defender)), eff, side)
    {
      hide DrawChance, WithStatus, WithSleep;
      if eff.status == NoStatus {
        return;
      }
      var roll := rng.Chance(OrDefault(eff.statusChance, 100));
      if roll {
        var target, tSide := defender, 1 - side;
        if eff.targetSelf {
          target, tSide := attacker, side;
        }
        var ok;
        if eff.status == Sleep {
          ok := target.SetSleep(rng);
        } else {
          ok := target.ApplyStatus(eff.status);
        }
        if ok {
          Emit(StatusNote, tSide, 0);
        }
      }
    }

    /** Iterates the map in an arbitrary order. */
    method ChangeStats(target: Battler, changes: map<string, Int8>, tSide: nat)
      modifies this`log, target`stages
      ensures target.stages == StagesAfter(old(target.stages), changes)
      ensures log == old(log) + StatNotes(tSide, |changes|)
    {
      hide StagesAfter, ApplyStatStage, InOrder, Distinct;
      NoKeys(target.stages, changes);
      var remaining := changes.Keys;
      ghost var order: seq<string> := [];
      ghost var log0 := log;
      assert log0 + StatNotes(tSide, 0) == log0;
      while remaining != {}
        invariant remaining <= changes.Keys && |order| + |remaining| == |changes|
        invariant Distinct(order) && forall k :: k in order <==> k in changes && k !in remaining
        invariant target.stages == InOrder(old(target.stages), changes, order)
        invariant log == log0 + StatNotes(tSide, |order|)
        decreases remaining
      {
        var stat :| stat in remaining;
        target.AddStage(stat, changes[stat]);
        Emit(StatNote, tSide, 0);
        remaining := remaining - {stat};
        OneMoreKey(old(target.stages), changes, order, stat);
        order := order + [stat];
      }
      OrderIrrelevant(old(target.stages), changes, order);
    }

    method StatRider(attacker: Battler, defender: Battler, eff: SkillEffect, side: nat)
      requires attacker != defender && side < 2
      modifies this`log, attacker, defender
      ensures DuelNow(attacker, defender) == T.StatRider(old(DuelNow(attacker, defender)), eff, side)
    {
      hide StagesAfter, StatNotes;
      if eff.targetSelf {
        ChangeStats(attacker, eff.statChanges, side);
      } else {
        ChangeStats(defender, eff.statChanges, 1 - side);
      }
    }

    method HealRider(attacker: Battler, defender: Battler, skill: Skill, eff: SkillEffect, damage: int, side: nat)
      requires attacker != defender
      modifies this`log, attacker
      ensures DuelNow(attacker, defender) == T.HealRider(old(DuelNow(attacker, defender)), skill, eff, damage, side)
    {
      hide Portion;
      if eff.healFrac > 0.0 {
        var base := damage;
        if skill.class_ == StatusOnly {
          base := attacker.maxHP;
        }
        var heal := Portion(base, eff.healFrac);
        attacker.curHP := attacker.curHP + heal;
        if attacker.curHP > attacker.maxHP {
          attacker.curHP := attacker.maxHP;
        }
        Emit(Healed, side, heal);
      }
    }

    method RecoilRider(attacker: Battler, defender: Battler, eff: SkillEffect, damage: int, side: nat)
      requires attacker != defender
      modifies this`log, attacker
      ensures DuelNow(attacker, defender) == T.RecoilRider(old(DuelNow(attacker, defender)), eff, damage, side)
    {
      hide Portion;
      if eff.recoilFrac > 0.0 && damage > 0 {
        var recoil := Portion(damage, eff.recoilFrac);
        attacker.curHP := attacker.curHP - recoil;
        if attacker.curHP < 0 {
          attacker.curHP := 0;
        }
        Emit(Recoil, side, recoil);
      }
    }

    method ApplyRiders(attacker: Battler, defender: Battler, skill: Skill, res: DamageResult, side: nat)
      requires attacker != defender && side < 2
      modifies this`log, rng, attacker, defender
      ensures DuelNow(attacker, defender) == Riders(old(DuelNow(attacker, defender)), skill, res, side)
    {
      hide T.StaticRider, T.StatusRider, T.StatRider, T.HealRider, T.RecoilRider;
      StaticRider(attacker, defender, skill, res.damage, side);
      if skill.effect == None {
        return;
      }
      var eff := skill.effect.value;
      StatusRider(attacker, defender, eff, side);
      StatRider(attacker, defender, eff, side);
      HealRider(attacker, defender, skill, eff, res.damage, side);
      RecoilRider(attacker, defender, eff, res.damage, side);
    }

    // ----- One attack -----

    method ApplyDamage(attacker: Battler, defender: Battler, res: DamageResult, side: nat)
      requires attacker != defender && side < 2
      modifies this`log, defender
      ensures DuelNow(attacker, defender) == Hit(old(DuelNow(attacker, defender)), res, side)
    {
      if res.damage > 0 {
        defender.curHP := defender.curHP - res.damage;
        if defender.curHP < 0 {
          defender.curHP := 0;
        }
        Emit(DamageDealt, 1 - side, res.damage);
        if res.crit {
          Emit(CritNote, 1 - side, 0);
        }
        if res.effectiveness > 1.0 {
          Emit(MatchupNote, 1 - side, 0);
        } else if res.effectiveness < 1.0 && res.effectiveness > 0.0 {
          Emit(MatchupNote, 1 - side, 0);
        }
      }
    }

    method Strike(attacker: Battler, defender: Battler, skill: Skill, side: nat)
      requires attacker != defender && side < 2
      modifies this`log, rng, attacker, defender
      ensures DuelNow(attacker, defender) == T.Strike(old(DuelNow(attacker, defender)), skill, side)
    {
      hide DamageFor, Hit, Riders;
      var res := ComputeDamage(rng, attacker, defender, skill);
      if res.missed {
        Emit(MissNote, side, 0);
        return;
      }
      ApplyDamage(attacker, defender, res, side);
      ApplyRiders(attacker, defender, skill, res, side);
      if defender.curHP <= 0 {
        Emit(FaintNote, 1 - side, 0);
      }
      if attacker.curHP <= 0 {
        Emit(FaintNote, side, 0);
      }
    }

    method Attack(reg: Registry, attacker: Battler, defender: Battler, side: nat, slot: int)
      requires attacker != defender && side < 2
      modifies this`log, rng, attacker, defender
      ensures DuelNow(attacker, defender) == T.ExecuteMove(reg, old(DuelNow(attacker, defender)), side, slot)
    {
      hide ThroughGate, T.Strike, ImmuneByAbility;
      var canAct, announced := attacker.PreMoveGate(rng);
      if announced {
        Emit(StatusNote, side, 0);
      }
      if !canAct {
        return;
      }
      var skill := SkillFor(reg, attacker.inst, slot);
      if skill == None || attacker.cooldowns[slot] > 0 {
        Emit(Fizzle, side, 0);
        return;
      }
      if skill.value.cooldown > 0 {
        attacker.cooldowns := attacker.cooldowns[slot := skill.value.cooldown];
      }
      Emit(MoveUsed, side, 0);
      if ImmuneByAbility(defender.State(), skill.value) {
        Emit(ImmuneNote, 1 - side, 0);
        return;
      }
      Strike(attacker, defender, skill.value, side);
    }

    method ExecuteMove(reg: Registry, side: nat, slot: int)
      requires Valid() && side < 2
      modifies this`log, rng, At(side).ActiveBattler(), At(1 - side).ActiveBattler()
      ensures Valid()
      ensures State() == old(Settle(State(), side, T.ExecuteMove(reg, DuelFrom(State(), side), side, slot)))
    {
      hide States, T.ExecuteMove;
      Attack(reg, At(side).ActiveBattler(), At(1 - side).ActiveBattler(), side, slot);
      OnlyActiveChanged(side0);
      OnlyActiveChanged(side1);
    }

    // ----- The turn -----

    method DoSwitch(side: nat, to: int)
      requires Valid() && side < 2
      modifies this`log, At(side)`active, At(side).ActiveBattler()
      ensures Valid()
      ensures State() == T.DoSwitch(old(State()), side, to)
    {
      hide States;
      var done := At(side).SwitchTo(to);
      if done {
        Emit(SwitchIn, side, 0);
      }
      SideUnchanged(At(1 - side));
    }

    method MoveOrder(reg: Registry, acts: Actions) returns (first: nat)
      requires Valid()
      modifies rng
      ensures first < 2
      ensures (rng.state, first) == T.MoveOrder(reg, old(State()), acts)
    {
      hide States, DrawChance, EffSpeed, PriorityOf;
      var a, b := side0.ActiveBattler().State(), side1.ActiveBattler().State();
      var pa, pb := PriorityOf(reg, acts.0, a), PriorityOf(reg, acts.1, b);
      first := 0;
      if pa != pb {
        if pb > pa {
          first := 1;
        }
      } else {
        var sa, sb := EffSpeed(a), EffSpeed(b);
        if sb > sa {
          first := 1;
        } else if sb == sa {
          var roll := rng.Chance(50);
          if roll {
            first := 1;
          }
        }
      }
    }

    method CheckVictory() returns (done: bool)
      requires Valid()
      modifies this`log, this`over, this`winner
      ensures Valid() && State() == T.CheckVictory(old(State())) && done == over
    {
      hide States;
      var a := side0.HasUsable();
      var b := side1.HasUsable();
      if !a && !b {
        over, winner := true, -1;
      } else if !a {
        over, winner := true, 1;
      } else if !b {
        over, winner := true, 0;
      }
      if over {
        Emit(BattleEnd, 0, 0);
      }
      done := over;
    }

    method TickActive(side: nat)
      requires Valid() && side < 2
      modifies this`log, At(side).ActiveBattler()
      ensures Valid() && State() == Ticked(old(State()), side)
    {
      hide States, AfterTurn;
      var d := At(side).ActiveBattler().EndOfTurnTick();
      OnlyActiveChanged(At(side));
      SideUnchanged(At(1 - side));
      if d != 0 {
        Emit(if d > 0 then ResidualHeal else ResidualDamage, side, d);
      }
    }

    method Residual(side: nat)
      requires Valid() && side < 2
      modifies this`log, At(side).ActiveBattler()
      ensures Valid() && State() == T.Residual(old(State()), side)
    {
      hide States, Ticked;
      TickActive(side);
      if At(side).ActiveBattler().curHP <= 0 {
        Emit(FaintNote, side, 0);
      }
    }

    method EndOfTurn(first: nat)
      requires Valid() && first < 2
      modifies this`log, this`over, this`winner, side0.ActiveBattler(), side1.ActiveBattler()
      ensures Valid() && State() == T.EndOfTurn(old(State()), first)
    {
      hide States, T.Residual, T.CheckVictory;
      if !over {
        Residual(first);
        Residual(1 - first);
        var done := CheckVictory();
      }
    }

    method CoolDown(side: nat)
      requires Valid() && side < 2
      modifies At(side).ActiveBattler()
      ensures Valid() && State() == T.CoolDown(old(State()), side)
    {
      hide States, CooledAll;
      At(side).ActiveBattler().TickCooldowns();
      OnlyActiveChanged(At(side));
      SideUnchanged(At(1 - side));
    }

    /** One iteration of the attack phase. */
    method Act(reg: Registry, side: nat, act: MoveAction) returns (done: bool)
      requires Valid() && side < 2 && !over
      modifies this`log, this`over, this`winner, rng, At(side).ActiveBattler(), At(1 - side).ActiveBattler()
      ensures Valid() && State() == T.Act(reg, old(State()), side, act) && done == over
    {
      hide States, T.ExecuteMove, T.CheckVictory, Settle;
      done := false;
      if act.kind == ACT_MOVE && At(side).ActiveBattler().curHP > 0 {
        ExecuteMove(reg, side, act.skillSlot);
        done := CheckVictory();
      }
    }

    method ActBoth(reg: Registry, first: nat, acts: Actions)
      requires Valid() && first < 2 && !over
      modifies this`log, this`over, this`winner, rng, side0.ActiveBattler(), side1.ActiveBattler()
      ensures Valid() && State() == T.ActBoth(reg, old(State()), first, acts)
    {
      hide States, T.Act;
      var k := 0;
      while k < 2
        invariant 0 <= k <= 2 && Valid()
        invariant k == 0 ==> State() == old(State())
        invariant k == 1 ==> State() == T.Act(reg, old(State()), first, ActionOf(acts, first)) && !over
        invariant k == 2 ==> State() == T.ActBoth(reg, old(State()), first, acts)
      {
        var side := if k == 0 then first else 1 - first;
        var done := Act(reg, side, ActionOf(acts, side));
        if done {
          break;
        }
        k := k + 1;
      }
    }

    method SwitchAsAsked(side: nat, act: MoveAction)
      requires Valid() && side < 2
      modifies this`log, At(side)`active, At(side).ActiveBattler()
      ensures Valid() && State() == SwitchIfAsked(old(State()), side, act)
    {
      hide States, T.DoSwitch;
      if act.kind == ACT_SWITCH {
        DoSwitch(side, act.switchTo);
      }
    }

    method SwitchPhase(acts: Actions)
      requires Valid()
      modifies this`turn, this`log, side0, side1, side0.ActiveBattler(), side1.ActiveBattler()
      ensures Valid() && State() == AfterSwitches(old(State()), acts)
    {
      hide States, SwitchIfAsked;
      turn := turn + 1;
      SwitchAsAsked(0, acts.0);
      SwitchAsAsked(1, acts.1);
    }

    method FightPhase(reg: Registry, acts: Actions)
      requires Valid() && !over
      modifies this`log, this`over, this`winner, rng, side0.ActiveBattler(), side1.ActiveBattler()
      ensures Valid() && State() == Fight(reg, old(State()), acts)
    {
      hide States, T.MoveOrder, T.ActBoth, T.EndOfTurn, T.CoolDown;
      var first := MoveOrder(reg, acts);
      assert State() == old(State()).(rng := T.MoveOrder(reg, old(State()), acts).0);
      ActBoth(reg, first, acts);
      EndOfTurn(first);
      CoolDown(0);
      CoolDown(1);
    }

    /** A whole turn; refused, changing nothing, once the battle is over. */
    method ResolveTurn(reg: Registry, acts: Actions) returns (ok: bool, events: seq<Event>)
      requires Valid()
      modifies Objects()
      ensures Valid()
      ensures ok == !old(over)
      ensures !ok ==> State() == old(State())
      ensures ok ==> Resolved(State(), events) == T.ResolveTurn(reg, old(State()), acts)
    {
      hide States, AfterSwitches, Fight;
      if over {
        return false, [];
      }
      SwitchPhase(acts);
      FightPhase(reg, acts);
      events := DrainLog();
      ok := true;
    }
  }
}
