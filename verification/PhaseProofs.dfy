/** The phases of a turn, each told in one piece: who acts, when the battle is over, what the end of
    a turn does, and in which order it all comes. */
module PhaseProofs {
  import opened Battlers
  import opened Turns

  /** A side as it stands with another battler in the active place. */
  function WithActive(s: SideState, b: BattlerState): SideState
    requires s.active < |s.party|
  {
    SideState(s.party[s.active := b], s.active)
  }

  /** Whether somebody of a side can still fight. */
  predicate Standing(s: SideState) {
    exists b :: b in s.party && b.curHP > 0
  }

  /** The battle is over when a side has nobody left; the other wins if it has somebody.  That is
      announced, and otherwise nothing changes. */
  lemma VictoryLaw(st: State)
    requires !st.over
    ensures var a, b := Standing(st.side0), Standing(st.side1);
            CheckVictory(st) == if a && b then st
              else State(st.rng, st.side0, st.side1, st.turn, true, if a then 0 else if b then 1 else -1,
                         st.log + [Event(BattleEnd, 0, 0)])
  {
    StandingIsUsable(st.side0);
    StandingIsUsable(st.side1);
  }

  lemma StandingIsUsable(s: SideState)
    ensures s.HasUsable() <==> Standing(s)
  {
    if Standing(s) {
      var b :| b in s.party && b.curHP > 0;
      var i :| 0 <= i < |s.party| && s.party[i] == b;
      assert !s.party[i].Fainted();
    }
    if s.HasUsable() {
      var i :| 0 <= i < |s.party| && !s.party[i].Fainted();
      assert s.party[i] in s.party;
    }
  }

  /** A side acts only if its action is a move and its battler stands; then the two active battlers
      come out of the attack as it left them, and the victory check follows. */
  lemma ActLaw(reg: Registry, st: State, side: nat, act: MoveAction)
    requires st.WellFormed() && side < 2
    ensures var user, foe := st.Active(side), st.Active(1 - side);
            var d := ExecuteMove(reg, Duel(st.rng, user, foe, st.log), side, act.skillSlot);
            Act(reg, st, side, act) == if act.kind != 0 || user.curHP <= 0 then st
              else CheckVictory(State(d.rng, WithActive(st.side0, if side == 0 then d.att else d.def),
                                      WithActive(st.side1, if side == 0 then d.def else d.att), st.turn, st.over, st.winner, d.log))
  {
    hide ExecuteMove, CheckVictory;
  }

  /** The end of a turn for one side: its battler ticks, a change of HP is reported as healing or
      damage, and then if it has fainted. */
  lemma ResidualLaw(st: State, side: nat)
    requires st.WellFormed() && side < 2
    ensures var t, s := AfterTurn(st.Active(side)), WithActive(st.At(side), AfterTurn(st.Active(side)).0);
            var ticked := if t.1 > 0 then [Event(ResidualHeal, side, t.1)] else if t.1 < 0 then [Event(ResidualDamage, side, t.1)] else [];
            var fainted := if t.0.curHP <= 0 then [Event(FaintNote, side, 0)] else [];
            Residual(st, side) == st.(side0 := if side == 0 then s else st.side0, side1 := if side == 1 then s else st.side1,
                                      log := st.log + ticked + fainted)
  {
    hide AfterTurn;
  }

  /** A cooldown tick of one side touches its active battler's cooldowns alone. */
  lemma CoolDownLaw(st: State, side: nat)
    requires st.WellFormed() && side < 2
    ensures var b := st.Active(side);
            var s := WithActive(st.At(side), b.(cooldowns := CooledAll(b.cooldowns)));
            CoolDown(st, side) == st.(side0 := if side == 0 then s else st.side0, side1 := if side == 1 then s else st.side1)
  {
    hide CooledAll;
  }

  lemma CooledLaw(cs: Cooldowns, i: nat)
    requires i < 4
    ensures CooledAll(cs)[i] == if cs[i] > 0 then cs[i] - 1 else cs[i]
  {
  }

  /** The first side's switch comes before the second's, and both before anything else. */
  lemma SwitchesInOrder(st: State, acts: Actions)
    requires st.WellFormed()
    ensures var st0 := st.(turn := st.turn + 1);
            var st1 := if acts.0.kind == 1 then DoSwitch(st0, 0, acts.0.switchTo) else st0;
            AfterSwitches(st, acts) == if acts.1.kind == 1 then DoSwitch(st1, 1, acts.1.switchTo) else st1
  {
    hide DoSwitch;
  }

  /** The side that comes second acts only if the battle is not over by then. */
  lemma AttacksInOrder(reg: Registry, st: State, first: nat, acts: Actions)
    requires st.WellFormed() && first < 2
    ensures var st1 := Act(reg, st, first, if first == 0 then acts.0 else acts.1);
            ActBoth(reg, st, first, acts) == if st1.over then st1 else Act(reg, st1, 1 - first, if first == 0 then acts.1 else acts.0)
  {
    hide Act;
  }

  /** A turn in its order: switches; attacks in move order; then, only if the battle is not over,
      the end of the turn for both in that same order and a victory check; and last, both active
      battlers' cooldowns tick. */
  lemma TurnInOrder(reg: Registry, st: State, acts: Actions)
    requires st.WellFormed() && !st.over
    ensures var m := AfterSwitches(st, acts);
            var order := MoveOrder(reg, m, acts);
            var fought := ActBoth(reg, m.(rng := order.0), order.1, acts);
            var done := if fought.over then fought else CheckVictory(Residual(Residual(fought, order.1), 1 - order.1));
            var end := CoolDown(CoolDown(done, 0), 1);
            ResolveTurn(reg, st, acts) == Resolved(end.(log := []), end.log)
  {
    hide AfterSwitches, MoveOrder, ActBoth, Residual, CheckVictory, CoolDown;
  }

  /** A battle that is over refuses every turn. */
  lemma OverRefuses(reg: Registry, st: State, acts: Actions)
    requires st.WellFormed()
    ensures ResolveTurn(reg, st, acts) == BattleOver <==> st.over
  {
    hide Fight, AfterSwitches;
  }
}
