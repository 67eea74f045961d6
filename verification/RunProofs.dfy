/** Main results about turns and whole battles. */
module RunProofs {
  import opened Battlers
  import opened Turns
  import opened DuelProofs
  import opened TurnProofs

  lemma BothSwitches(st: State, acts: Actions)
    requires st.WellFormed()
    ensures var m := AfterSwitches(st, acts);
            && Switched(st.side0, m.side0) && Switched(st.side1, m.side1)
            && (m.rng, m.turn, m.over, m.winner) == (st.rng, st.turn + 1, st.over, st.winner)
  {
    hide SwitchIfAsked, Switched;
    var st0 := st.(turn := st.turn + 1);
    SwitchOne(st0, 0, acts.0);
    SwitchOne(SwitchIfAsked(st0, 0, acts.0), 1, acts.1);
  }

  lemma SwitchesAreSilent(st: State, acts: Actions, hp: int, maxHP: int, side: nat)
    requires st.WellFormed()
    ensures HpAfter(hp, maxHP, side, AfterSwitches(st, acts).log) == HpAfter(hp, maxHP, side, st.log)
  {
    hide SwitchIfAsked, HpAfter, Switched;
    var st0 := st.(turn := st.turn + 1);
    var st1 := SwitchIfAsked(st0, 0, acts.0);
    SwitchOne(st0, 0, acts.0);
    SwitchOne(st1, 1, acts.1);
    SilentSay(hp, maxHP, side, st.log, Event(SwitchIn, 0, 0));
    SilentSay(hp, maxHP, side, st1.log, Event(SwitchIn, 1, 0));
  }

  // ----- One turn -----

  lemma TurnCounts(reg: Registry, st: State, acts: Actions)
    requires st.WellFormed() && !st.over
    ensures ResolveTurn(reg, st, acts).state.turn == st.turn + 1
  {
    hide AfterSwitches, Fight, SameBench, LedgerOn, Switched, Within;
    BothSwitches(st, acts);
    FightPhase(reg, AfterSwitches(st, acts), acts, (0, 0));
  }

  /** One side of a turn: a legal switch moves the active index, and otherwise it stays; the
      battlers that did not act are untouched, but for the boosts and flinch of the one
      withdrawn; every battler is the same creature and keeps each clause that held of it, and no
      fainted one rises. */
  ghost predicate SideFrame(reg: Registry, s: SideState, s': SideState, act: MoveAction) {
    && |s'.party| == |s.party| && s'.active < |s'.party| && s.active < |s.party|
    && s'.active == (if act.kind == ACT_SWITCH && LegalSwitch(s, act.switchTo) then act.switchTo else s.active)
    && forall j :: 0 <= j < |s.party| ==>
         Kept(reg, s.party[j], s'.party[j]) && (s.party[j].Fainted() ==> s'.party[j].Fainted())
         && (j != s'.active ==> s'.party[j] == if j == s.active then Withdrawn(s.party[j]) else s.party[j])
  }

  lemma FrameFromPhases(reg: Registry, s: SideState, m: SideState, s': SideState, act: MoveAction)
    requires s.active < |s.party| && Switched(s, m) && m.active < |m.party| && SameBench(reg, m, s')
    requires m.active == (if act.kind == ACT_SWITCH && LegalSwitch(s, act.switchTo) then act.switchTo else s.active)
    ensures SideFrame(reg, s, s', act)
  {
    hide Holds, LegalSwitch;
    SwitchKeeps(reg, s, m);
  }

  lemma SwitchIndex(st: State, acts: Actions)
    requires st.WellFormed()
    ensures forall i :: 0 <= i < 2 ==>
      var s, act := st.At(i), ActionOf(acts, i);
      AfterSwitches(st, acts).At(i).active
      == (if act.kind == ACT_SWITCH && LegalSwitch(s, act.switchTo) then act.switchTo else s.active)
  {
    hide Withdrawn;
  }

  /** A turn changes no battler but the two that fight it, and breaks no clause of any. */
  lemma TurnFrame(reg: Registry, st: State, acts: Actions)
    requires st.WellFormed() && !st.over
    ensures var st' := ResolveTurn(reg, st, acts).state;
            SideFrame(reg, st.side0, st'.side0, acts.0) && SideFrame(reg, st.side1, st'.side1, acts.1)
  {
    hide AfterSwitches, Fight, SameBench, LedgerOn, Switched, SideFrame, Within, LegalSwitch;
    var m := AfterSwitches(st, acts);
    BothSwitches(st, acts);
    SwitchIndex(st, acts);
    FightPhase(reg, m, acts, (0, 0));
    assert m.side0 == m.At(0) && m.side1 == m.At(1);
    FrameFromPhases(reg, st.side0, m.side0, Fight(reg, m, acts).side0, acts.0);
    FrameFromPhases(reg, st.side1, m.side1, Fight(reg, m, acts).side1, acts.1);
  }

  ghost predicate SideHolds(c: Clause, reg: Registry, s: SideState) {
    forall j :: 0 <= j < |s.party| ==> Holds(c, reg, s.party[j])
  }

  /** A clause holds of every battler. */
  ghost predicate AllHold(c: Clause, reg: Registry, st: State) {
    SideHolds(c, reg, st.side0) && SideHolds(c, reg, st.side1)
  }

  /** No benched battler carries boosts. */
  predicate BenchClean(st: State) {
    SideBenchClean(st.side0) && SideBenchClean(st.side1)
  }

  /** The inductive invariant, clause by clause: every turn keeps HP in range if it was, stages
      if they were, cooldowns, statuses and flinches likewise, and the bench clean. */
  lemma TurnKeepsInvariant(reg: Registry, st: State, acts: Actions)
    requires st.WellFormed() && !st.over
    ensures var st' := ResolveTurn(reg, st, acts).state;
            (forall c :: AllHold(c, reg, st) ==> AllHold(c, reg, st')) && (BenchClean(st) ==> BenchClean(st'))
  {
    hide ResolveTurn, Holds, SideFrame;
    TurnFrame(reg, st, acts);
    var st' := ResolveTurn(reg, st, acts).state;
    SideKeepsClauses(reg, st.side0, st'.side0, acts.0);
    SideKeepsClauses(reg, st.side1, st'.side1, acts.1);
  }

  lemma SideKeepsClauses(reg: Registry, s: SideState, s': SideState, act: MoveAction)
    requires SideFrame(reg, s, s', act)
    ensures (forall c :: SideHolds(c, reg, s) ==> SideHolds(c, reg, s')) && (SideBenchClean(s) ==> SideBenchClean(s'))
  {
    hide Holds, LegalSwitch;
    WithdrawnKeeps(reg, s.party[s.active]);
  }

  /** The events of a turn are a lossless account of HP: for each side, starting from the HP its
      active battler has once the switches are made, the damage, recoil, healing and residual
      amounts, each clamped to 0..MaxHP, give exactly its HP at the end of the turn.  All it
      takes is that this HP is in that range to start with. */
  lemma EventsAccountForHp(reg: Registry, st: State, acts: Actions)
    requires st.WellFormed() && !st.over && st.log == []
    ensures var r, m := ResolveTurn(reg, st, acts), AfterSwitches(st, acts);
            forall i :: 0 <= i < 2 ==>
              m.Active(i).curHP == st.At(i).party[m.At(i).active].curHP
              && (0 <= m.Active(i).curHP <= m.Active(i).maxHP ==>
                    HpAfter(m.Active(i).curHP, m.Active(i).maxHP, i, r.events) == r.state.Active(i).curHP)
  {
    hide AfterSwitches, Fight, HpAfter, Within;
    var m := AfterSwitches(st, acts);
    var h := (m.Active(0).curHP, m.Active(1).curHP);
    BothSwitches(st, acts);
    SwitchesAreSilent(st, acts, h.0, m.Active(0).maxHP, 0);
    SwitchesAreSilent(st, acts, h.1, m.Active(1).maxHP, 1);
    NothingLogged(h.0, m.Active(0).maxHP, 0);
    NothingLogged(h.1, m.Active(1).maxHP, 1);
    FightPhase(reg, m, acts, h);
    SwitchedHp(st.side0, m.side0);
    SwitchedHp(st.side1, m.side1);
  }

  lemma NothingLogged(hp: int, maxHP: int, side: nat)
    ensures HpAfter(hp, maxHP, side, []) == hp
  {
  }

  lemma SwitchedHp(s: SideState, s': SideState)
    requires s.active < |s.party| && Switched(s, s')
    ensures s'.party[s'.active].curHP == s.party[s'.active].curHP
  {
  }

  /** A turn draws at most fifteen words from the match generator. */
  lemma TurnDraws(reg: Registry, st: State, acts: Actions)
    requires st.WellFormed() && !st.over
    ensures Within(st.rng, ResolveTurn(reg, st, acts).state.rng, 15)
  {
    hide AfterSwitches, Fight, SameBench, LedgerOn, Switched, Within;
    BothSwitches(st, acts);
    FightPhase(reg, AfterSwitches(st, acts), acts, (0, 0));
  }

  // ----- Victory -----

  function Outcome(usable0: bool, usable1: bool): int {
    if usable0 && !usable1 then 0 else if usable1 && !usable0 then 1 else -1
  }

  /** Over exactly when a side has nobody left, with the survivor, if any, as the winner. */
  predicate Decided(st: State) {
    var u0, u1 := st.side0.HasUsable(), st.side1.HasUsable();
    st.over == (!u0 || !u1) && st.winner == Outcome(u0, u1)
  }

  predicate Undecided(st: State) {
    !st.over && st.winner == -1
  }

  lemma CheckDecides(st: State)
    requires Undecided(st)
    ensures Decided(CheckVictory(st))
    ensures CheckVictory(st).over || Undecided(CheckVictory(st))
  {
  }

  lemma ActDecides(reg: Registry, st: State, side: nat, act: MoveAction)
    requires st.WellFormed() && side < 2 && Undecided(st)
    ensures var st' := Act(reg, st, side, act); if st'.over then Decided(st') else Undecided(st')
  {
    hide ExecuteMove, CheckVictory, Decided;
    CheckDecides(if act.kind != ACT_MOVE || st.Active(side).Fainted() then st
      else Settle(st, side, ExecuteMove(reg, DuelFrom(st, side), side, act.skillSlot)));
  }

  lemma ResidualUndecided(st: State, side: nat)
    requires st.WellFormed() && side < 2 && Undecided(st)
    ensures Undecided(Residual(st, side))
  {
    hide AfterTurn;
  }

  /** Cooling down touches no HP. */
  lemma CoolDownDecides(st: State, side: nat)
    requires st.WellFormed() && side < 2 && Decided(st)
    ensures Decided(CoolDown(st, side))
  {
    hide CooledAll;
    var st' := CoolDown(st, side);
    UsableByHp(st.side0, st'.side0);
    UsableByHp(st.side1, st'.side1);
  }

  lemma UsableByHp(s: SideState, s': SideState)
    requires |s.party| == |s'.party|
    requires forall j :: 0 <= j < |s.party| ==> s.party[j].curHP == s'.party[j].curHP
    ensures s.HasUsable() == s'.HasUsable()
  {
    if s.HasUsable() {
      var j :| 0 <= j < |s.party| && !s.party[j].Fainted();
      assert !s'.party[j].Fainted();
    }
    if s'.HasUsable() {
      var j :| 0 <= j < |s'.party| && !s'.party[j].Fainted();
      assert !s.party[j].Fainted();
    }
  }

  lemma FightDecides(reg: Registry, st: State, acts: Actions)
    requires st.WellFormed() && Undecided(st)
    ensures Decided(Fight(reg, st, acts))
  {
    hide MoveOrder, Act, Residual, CheckVictory, CoolDown, Decided;
    var order := MoveOrder(reg, st, acts);
    var first, second := order.1, 1 - order.1;
    var st1 := Act(reg, st.(rng := order.0), first, ActionOf(acts, first));
    ActDecides(reg, st.(rng := order.0), first, ActionOf(acts, first));
    if !st1.over {
      ActDecides(reg, st1, second, ActionOf(acts, second));
    }
    var st2 := ActBoth(reg, st.(rng := order.0), first, acts);
    if !st2.over {
      ResidualUndecided(st2, first);
      ResidualUndecided(Residual(st2, first), second);
      CheckDecides(Residual(Residual(st2, first), second));
    }
    var st3 := EndOfTurn(st2, first);
    CoolDownDecides(st3, 0);
    CoolDownDecides(CoolDown(st3, 0), 1);
  }

  /** After every turn the battle is over exactly when some side has no usable battler, and
      the winner is exactly the surviving side. */
  lemma TurnDecides(reg: Registry, st: State, acts: Actions)
    requires st.WellFormed() && Undecided(st)
    ensures Decided(ResolveTurn(reg, st, acts).state)
  {
    hide AfterSwitches, Fight, Switched, Decided;
    BothSwitches(st, acts);
    FightDecides(reg, AfterSwitches(st, acts), acts);
    var end := Fight(reg, AfterSwitches(st, acts), acts);
    DecidedIgnoresLog(end);
  }

  lemma DecidedIgnoresLog(st: State)
    requires Decided(st)
    ensures Decided(st.(log := []))
  {
  }
}
