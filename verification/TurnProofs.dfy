/** What every phase of a turn, and so every turn, keeps. */
module TurnProofs {
  import opened Words
  import opened Rng
  import opened Battlers
  import opened Turns
  import opened DuelProofs
  import opened AttackProofs

  // ----- Phases -----

  /** The log accounts for the HP of one active battler, from h on. */
  ghost predicate LedgerOn(reg: Registry, st: State, side: nat, h: (int, int))
    requires st.WellFormed() && side < 2
  {
    Ledger(reg, st.Active(side), side, h, st.log)
  }

  /** Nothing happened on the bench; the active battler is the same creature, keeps what held of
      it and, if it had fainted, still has. */
  ghost predicate SameBench(reg: Registry, s: SideState, s': SideState)
    requires s.active < |s.party|
  {
    && s'.active == s.active && |s'.party| == |s.party|
    && Kept(reg, s.party[s.active], s'.party[s.active])
    && (s.party[s.active].Fainted() ==> s'.party[s.active].Fainted())
    && forall j :: 0 <= j < |s.party| && j != s.active ==> s'.party[j] == s.party[j]
  }

  ghost predicate PhaseOk(reg: Registry, st: State, st': State, h: (int, int), n: nat)
    requires st.WellFormed() && st'.WellFormed()
  {
    && SameBench(reg, st.side0, st'.side0) && SameBench(reg, st.side1, st'.side1)
    && st'.turn == st.turn
    && Within(st.rng, st'.rng, n)
    && (LedgerOn(reg, st, 0, h) ==> LedgerOn(reg, st', 0, h))
    && (LedgerOn(reg, st, 1, h) ==> LedgerOn(reg, st', 1, h))
  }

  lemma PhasesCompose(reg: Registry, st: State, st1: State, st2: State, h: (int, int), m: nat, n: nat)
    requires st.WellFormed() && st1.WellFormed() && st2.WellFormed()
    requires PhaseOk(reg, st, st1, h, m) && PhaseOk(reg, st1, st2, h, n)
    ensures PhaseOk(reg, st, st2, h, m + n)
  {
    hide Within, Holds, LedgerOn;
    DrawsAdd(st.rng, st1.rng, st2.rng, m, n);
  }

  lemma PhaseStays(reg: Registry, st: State, h: (int, int), n: nat)
    requires st.WellFormed()
    ensures PhaseOk(reg, st, st, h, n)
  {
    hide Within, Holds, LedgerOn;
    NoDraw(st.rng, n);
  }

  /** Both active battlers replaced, with some new events. */
  lemma BothReplaced(reg: Registry, st: State, st': State, h: (int, int), n: nat)
    requires st.WellFormed() && st'.WellFormed() && st'.turn == st.turn && Within(st.rng, st'.rng, n)
    requires st'.side0 == st.side0.(party := st.side0.party[st.side0.active := st'.Active(0)])
    requires st'.side1 == st.side1.(party := st.side1.party[st.side1.active := st'.Active(1)])
    requires Kept(reg, st.Active(0), st'.Active(0)) && (st.Active(0).Fainted() ==> st'.Active(0).Fainted())
    requires Kept(reg, st.Active(1), st'.Active(1)) && (st.Active(1).Fainted() ==> st'.Active(1).Fainted())
    requires LedgerOn(reg, st, 0, h) ==> LedgerOn(reg, st', 0, h)
    requires LedgerOn(reg, st, 1, h) ==> LedgerOn(reg, st', 1, h)
    ensures PhaseOk(reg, st, st', h, n)
  {
    hide Kept, LedgerOn, Within;
  }

  lemma SettlePhase(reg: Registry, st: State, side: nat, d: Duel, h: (int, int), n: nat)
    requires st.WellFormed() && side < 2 && !st.Active(side).Fainted()
    requires StepOk(reg, DuelFrom(st, side), d, side, h, n)
    ensures PhaseOk(reg, st, Settle(st, side, d), h, n)
  {
    hide Kept, Ledger, Within, PhaseOk;
    var st' := Settle(st, side, d);
    assert st'.Active(side) == d.att && st'.Active(1 - side) == d.def;
    BothReplaced(reg, st, st', h, n);
  }

  lemma CheckVictoryPhase(reg: Registry, st: State, h: (int, int))
    requires st.WellFormed()
    ensures CheckVictory(st).WellFormed() && PhaseOk(reg, st, CheckVictory(st), h, 0)
  {
    hide Holds, HpAfter, Within;
    NoDraw(st.rng, 0);
    SilentSay(h.0, st.Active(0).maxHP, 0, st.log, Event(BattleEnd, 0, 0));
    SilentSay(h.1, st.Active(1).maxHP, 1, st.log, Event(BattleEnd, 0, 0));
  }

  lemma ActPhase(reg: Registry, st: State, side: nat, act: MoveAction, h: (int, int))
    requires st.WellFormed() && side < 2
    ensures PhaseOk(reg, st, Act(reg, st, side, act), h, 7)
  {
    hide PhaseOk, StepOk, ExecuteMove, Settle, CheckVictory;
    if act.kind != ACT_MOVE || st.Active(side).Fainted() {
      PhaseStays(reg, st, h, 7);
    } else {
      var d := ExecuteMove(reg, DuelFrom(st, side), side, act.skillSlot);
      ExecuteMoveStep(reg, DuelFrom(st, side), side, act.skillSlot, h);
      var st1 := Settle(st, side, d);
      SettlePhase(reg, st, side, d, h, 7);
      CheckVictoryPhase(reg, st1, h);
      PhasesCompose(reg, st, st1, CheckVictory(st1), h, 7, 0);
    }
  }

  lemma ActBothPhase(reg: Registry, st: State, first: nat, acts: Actions, h: (int, int))
    requires st.WellFormed() && first < 2
    ensures PhaseOk(reg, st, ActBoth(reg, st, first, acts), h, 14)
  {
    hide PhaseOk, Act;
    var st1 := Act(reg, st, first, ActionOf(acts, first));
    ActPhase(reg, st, first, ActionOf(acts, first), h);
    PhaseStays(reg, st1, h, 7);
    PhasesCompose(reg, st, st1, st1, h, 7, 7);
    var st2 := Act(reg, st1, 1 - first, ActionOf(acts, 1 - first));
    ActPhase(reg, st1, 1 - first, ActionOf(acts, 1 - first), h);
    PhasesCompose(reg, st, st1, st2, h, 7, 7);
  }

  lemma AfterTurnKeeps(reg: Registry, b: BattlerState)
    ensures var t := AfterTurn(b);
            Kept(reg, b, t.0) && (b.Fainted() ==> t.0 == b)
            && (Holds(HpInRange, reg, b) ==> t.0.curHP == ClampHP(b.curHP + t.1, b.maxHP))
  {
    hide StagesOk, CooldownsOk, ImmuneTo, StatusToll, Regeneration;
  }

  lemma HpAfterMaybe(hp: int, maxHP: int, side: nat, log: seq<Event>, e: Event, say: bool)
    ensures HpAfter(hp, maxHP, side, if say then log + [e] else log)
            == if say then Credit(HpAfter(hp, maxHP, side, log), maxHP, side, e) else HpAfter(hp, maxHP, side, log)
  {
    HpAfterSay(hp, maxHP, side, log, e);
  }

  lemma SayPhase(reg: Registry, st: State, kind: EventKind, at: nat, h: (int, int))
    requires st.WellFormed() && Silent(kind)
    ensures PhaseOk(reg, st, st.Say(kind, at, 0), h, 0)
  {
    hide Holds, HpAfter, Within;
    NoDraw(st.rng, 0);
    SilentSay(h.0, st.Active(0).maxHP, 0, st.log, Event(kind, at, 0));
    SilentSay(h.1, st.Active(1).maxHP, 1, st.log, Event(kind, at, 0));
  }

  /** The tick of one side is on record for both. */
  lemma TickedLedger(reg: Registry, st: State, side: nat, i: nat, h: (int, int))
    requires st.WellFormed() && side < 2 && i < 2 && LedgerOn(reg, st, i, h)
    ensures LedgerOn(reg, Ticked(st, side), i, h)
  {
    hide HpAfter, AfterTurn, ClampHP;
    var t := AfterTurn(st.Active(side));
    AfterTurnKeeps(reg, st.Active(side));
    UnharmedClamp(reg, st.Active(side));
    var e := Event(if t.1 > 0 then ResidualHeal else ResidualDamage, side, t.1);
    HpAfterMaybe(Pick(h, i), st.Active(i).maxHP, i, st.log, e, t.1 != 0);
    assert Ticked(st, side).Active(i) == if i == side then t.0 else st.Active(i);
  }

  lemma TickedPhase(reg: Registry, st: State, side: nat, h: (int, int))
    requires st.WellFormed() && side < 2
    ensures PhaseOk(reg, st, Ticked(st, side), h, 0)
  {
    hide Holds, LedgerOn, Within, PhaseOk, AfterTurn;
    AfterTurnKeeps(reg, st.Active(side));
    NoDraw(st.rng, 0);
    if LedgerOn(reg, st, 0, h) {
      TickedLedger(reg, st, side, 0, h);
    }
    if LedgerOn(reg, st, 1, h) {
      TickedLedger(reg, st, side, 1, h);
    }
    BothReplaced(reg, st, Ticked(st, side), h, 0);
  }

  lemma ResidualPhase(reg: Registry, st: State, side: nat, h: (int, int))
    requires st.WellFormed() && side < 2
    ensures PhaseOk(reg, st, Residual(st, side), h, 0)
  {
    hide PhaseOk, Ticked;
    var st1 := Ticked(st, side);
    TickedPhase(reg, st, side, h);
    SayPhase(reg, st1, FaintNote, side, h);
    PhasesCompose(reg, st, st1, st1.Say(FaintNote, side, 0), h, 0, 0);
  }

  lemma UnharmedClamp(reg: Registry, b: BattlerState)
    ensures Holds(HpInRange, reg, b) ==> ClampHP(b.curHP, b.maxHP) == b.curHP
  {
  }

  lemma EndOfTurnPhase(reg: Registry, st: State, first: nat, h: (int, int))
    requires st.WellFormed() && first < 2
    ensures PhaseOk(reg, st, EndOfTurn(st, first), h, 0)
  {
    hide PhaseOk, Residual, CheckVictory;
    PhaseStays(reg, st, h, 0);
    var st1 := Residual(st, first);
    var st2 := Residual(st1, 1 - first);
    ResidualPhase(reg, st, first, h);
    ResidualPhase(reg, st1, 1 - first, h);
    PhasesCompose(reg, st, st1, st2, h, 0, 0);
    CheckVictoryPhase(reg, st2, h);
    PhasesCompose(reg, st, st2, CheckVictory(st2), h, 0, 0);
  }

  lemma CooledKeeps(reg: Registry, b: BattlerState)
    ensures Kept(reg, b, b.(cooldowns := CooledAll(b.cooldowns)))
  {
    hide StagesOk, ImmuneTo, CooldownCap;
  }

  lemma CoolDownPhase(reg: Registry, st: State, side: nat, h: (int, int))
    requires st.WellFormed() && side < 2
    ensures PhaseOk(reg, st, CoolDown(st, side), h, 0)
  {
    hide Holds, HpAfter, Within, PhaseOk, CooledAll;
    NoDraw(st.rng, 0);
    CooledKeeps(reg, st.Active(side));
    BothReplaced(reg, st, CoolDown(st, side), h, 0);
  }

  lemma MoveOrderDraws(reg: Registry, st: State, acts: Actions)
    requires st.WellFormed()
    ensures Within(st.rng, MoveOrder(reg, st, acts).0, 1)
  {
    hide Within, DrawChance, EffSpeed, PriorityOf;
    NoDraw(st.rng, 1);
    ChanceDraws(st.rng, 50, 1);
  }

  lemma FightPhase(reg: Registry, st: State, acts: Actions, h: (int, int))
    requires st.WellFormed()
    ensures PhaseOk(reg, st, Fight(reg, st, acts), h, 15)
  {
    hide PhaseOk, MoveOrder, ActBoth, EndOfTurn, CoolDown;
    var order := MoveOrder(reg, st, acts);
    var st1 := st.(rng := order.0);
    MoveOrderDraws(reg, st, acts);
    OrderPhase(reg, st, order.0, h);
    var st2 := ActBoth(reg, st1, order.1, acts);
    ActBothPhase(reg, st1, order.1, acts, h);
    PhasesCompose(reg, st, st1, st2, h, 1, 14);
    var st3 := EndOfTurn(st2, order.1);
    EndOfTurnPhase(reg, st2, order.1, h);
    PhasesCompose(reg, st, st2, st3, h, 15, 0);
    var st4 := CoolDown(st3, 0);
    CoolDownPhase(reg, st3, 0, h);
    PhasesCompose(reg, st, st3, st4, h, 15, 0);
    CoolDownPhase(reg, st4, 1, h);
    PhasesCompose(reg, st, st4, CoolDown(st4, 1), h, 15, 0);
  }

  lemma OrderPhase(reg: Registry, st: State, rng: Word, h: (int, int))
    requires st.WellFormed() && Within(st.rng, rng, 1)
    ensures PhaseOk(reg, st, st.(rng := rng), h, 1)
  {
    hide Holds, HpAfter, Within;
  }

  // ----- The switch phase -----

  /** The only effect a switch has on a battler: the one withdrawn loses boosts and flinch. */
  ghost predicate Switched(s: SideState, s': SideState)
    requires s.active < |s.party|
  {
    && |s'.party| == |s.party| && s'.active < |s'.party|
    && (s'.active != s.active ==> s'.party[s.active] == Withdrawn(s.party[s.active]) && !s'.party[s'.active].Fainted())
    && (s'.active == s.active ==> s'.party[s.active] == s.party[s.active])
    && forall j :: 0 <= j < |s.party| && j != s.active ==> s'.party[j] == s.party[j]
  }

  lemma WithdrawnKeeps(reg: Registry, b: BattlerState)
    ensures Kept(reg, b, Withdrawn(b)) && Withdrawn(b).stages == NO_STAGES
  {
    hide CooldownsOk, ImmuneTo;
  }

  lemma SwitchOne(st: State, side: nat, act: MoveAction)
    requires st.WellFormed() && side < 2
    ensures var st' := SwitchIfAsked(st, side, act);
            Switched(st.At(side), st'.At(side)) && st'.At(1 - side) == st.At(1 - side)
            && (st'.rng, st'.turn, st'.over, st'.winner) == (st.rng, st.turn, st.over, st.winner)
            && (st'.log == st.log || st'.log == st.log + [Event(SwitchIn, side, 0)])
  {
    hide Withdrawn;
  }

  predicate SideBenchClean(s: SideState) {
    forall j :: 0 <= j < |s.party| && j != s.active ==> s.party[j].stages == NO_STAGES
  }

  /** A switch breaks no clause of any battler, and leaves a clean bench clean. */
  lemma SwitchKeeps(reg: Registry, s: SideState, s': SideState)
    requires s.active < |s.party| && Switched(s, s')
    ensures forall j :: 0 <= j < |s.party| ==> Kept(reg, s.party[j], s'.party[j])
    ensures SideBenchClean(s) ==> SideBenchClean(s')
  {
    hide Holds, Withdrawn;
    WithdrawnKeeps(reg, s.party[s.active]);
  }
}
