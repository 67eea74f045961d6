/** Main results about whole battles: what holds of every state reachable from fresh teams. */
module BattleProofs {
  import opened Creatures
  import opened Words
  import opened Battlers
  import opened Turns
  import opened DuelProofs
  import opened TurnProofs
  import opened RunProofs

  /** A team as a battle receives it: battlers freshly built, from whatever data. */
  predicate FreshTeam(team: seq<BattlerState>) {
    |team| > 0 && forall j :: 0 <= j < |team| ==> team[j] == FreshBattler(team[j].species, team[j].inst)
  }

  /** What a fresh battler satisfies, and hence, as no turn breaks a clause, what it always will:
      stages, cooldowns and flinch in order whatever its data, HP in range if its MaxHP is not
      negative, and a possible status if it brought one. */
  ghost predicate AsFresh(reg: Registry, b: BattlerState, later: BattlerState) {
    && Holds(StagesInRange, reg, later) && Holds(CooldownsWithinSkills, reg, later) && Holds(NoFlinch, reg, later)
    && (b.maxHP >= 0 ==> Holds(HpInRange, reg, later))
    && (!ImmuneTo(b.species, b.status) ==> Holds(StatusPossible, reg, later))
  }

  lemma FreshHolds(reg: Registry, sp: Species, inst: Instance, later: BattlerState)
    requires Kept(reg, FreshBattler(sp, inst), later)
    ensures AsFresh(reg, FreshBattler(sp, inst), later)
  {
    hide ComputeStats, ImmuneTo, SkillFor;
    var b := FreshBattler(sp, inst);
    assert Holds(StagesInRange, reg, b) && Holds(CooldownsWithinSkills, reg, b) && Holds(NoFlinch, reg, b);
    assert b.maxHP >= 0 ==> Holds(HpInRange, reg, b);
    assert !ImmuneTo(b.species, b.status) ==> Holds(StatusPossible, reg, b);
  }

  /** Documented creatures start with HP to spare. */
  lemma DocumentedStands(reg: Registry, sp: Species, inst: Instance)
    requires Documented(sp, inst)
    ensures FreshBattler(sp, inst).maxHP >= 10 && !FreshBattler(sp, inst).Fainted()
  {
    hide ComputeStats;
    StatsPositive(sp, inst);
  }

  /** The battlers of a side that can still fight. */
  function Usable(party: seq<BattlerState>): nat {
    if party == [] then 0 else (if party[0].Fainted() then 0 else 1) + Usable(party[1..])
  }

  /** Place for place, the same creatures, with what held of them, and none that had fainted is
      back. */
  ghost predicate PartyKept(reg: Registry, p: seq<BattlerState>, q: seq<BattlerState>) {
    |p| == |q| && forall j :: 0 <= j < |p| ==> Kept(reg, p[j], q[j]) && (p[j].Fainted() ==> q[j].Fainted())
  }

  lemma {:induction false} UsableNeverRises(reg: Registry, p: seq<BattlerState>, q: seq<BattlerState>)
    requires PartyKept(reg, p, q)
    ensures Usable(q) <= Usable(p)
  {
    hide Kept;
    if p != [] {
      UsableNeverRises(reg, p[1..], q[1..]);
    }
  }

  lemma KeptLonger(reg: Registry, p: seq<BattlerState>, q: seq<BattlerState>, r: seq<BattlerState>)
    requires PartyKept(reg, p, q) && PartyKept(reg, q, r)
    ensures PartyKept(reg, p, r)
  {
    hide Holds;
  }

  lemma KeptAtOnce(reg: Registry, p: seq<BattlerState>)
    ensures PartyKept(reg, p, p)
  {
    hide Holds;
  }

  lemma {:induction false} PlayKeeps(reg: Registry, st: State, turns: seq<Actions>)
    requires st.WellFormed()
    ensures var end := Play(reg, st, turns);
            && Within(st.rng, end.rng, 15 * |turns|)
            && PartyKept(reg, st.side0.party, end.side0.party) && PartyKept(reg, st.side1.party, end.side1.party)
            && (BenchClean(st) ==> BenchClean(end))
    decreases |turns|
  {
    hide ResolveTurn, Within, BenchClean, PartyKept;
    if turns == [] || st.over {
      NoDraw(st.rng, 15 * |turns|);
      KeptAtOnce(reg, st.side0.party);
      KeptAtOnce(reg, st.side1.party);
    } else {
      var st1, end := ResolveTurn(reg, st, turns[0]).state, Play(reg, st, turns);
      TurnKeepsInvariant(reg, st, turns[0]);
      TurnFrame(reg, st, turns[0]);
      FrameKeepsParty(reg, st.side0, st1.side0, turns[0].0);
      FrameKeepsParty(reg, st.side1, st1.side1, turns[0].1);
      TurnDraws(reg, st, turns[0]);
      PlayKeeps(reg, st1, turns[1..]);
      KeptLonger(reg, st.side0.party, st1.side0.party, end.side0.party);
      KeptLonger(reg, st.side1.party, st1.side1.party, end.side1.party);
      DrawsAdd(st.rng, st1.rng, end.rng, 15, 15 * |turns[1..]|);
    }
  }

  lemma FrameKeepsParty(reg: Registry, s: SideState, s': SideState, act: MoveAction)
    requires SideFrame(reg, s, s', act)
    ensures PartyKept(reg, s.party, s'.party)
  {
    hide Kept, LegalSwitch;
  }

  /** From any battle in progress, however its parties stand, one turn or more gives the exact
      outcome. */
  lemma {:induction false} PlayDecides(reg: Registry, st: State, turns: seq<Actions>)
    requires st.WellFormed() && Undecided(st)
    ensures turns != [] ==> Decided(Play(reg, st, turns))
    decreases |turns|
  {
    hide ResolveTurn;
    if turns != [] {
      var st1 := ResolveTurn(reg, st, turns[0]).state;
      TurnDecides(reg, st, turns[0]);
      if !st1.over {
        PlayDecides(reg, st1, turns[1..]);
      }
    }
  }

  /** Every state a battle can reach, from any fresh teams, seed and actions: each battler is as
      a fresh one stays, the bench carries no boosts, nobody is revived, at most 15 words per
      turn are drawn, and after the first turn the outcome is exact. */
  lemma ReachableBattles(reg: Registry, seed: Word, a: seq<BattlerState>, b: seq<BattlerState>, turns: seq<Actions>)
    requires FreshTeam(a) && FreshTeam(b)
    ensures var end := Play(reg, FreshBattle(seed, a, b), turns);
            && PartyKept(reg, a, end.side0.party) && PartyKept(reg, b, end.side1.party)
            && (forall j :: 0 <= j < |a| ==> AsFresh(reg, a[j], end.side0.party[j]))
            && (forall j :: 0 <= j < |b| ==> AsFresh(reg, b[j], end.side1.party[j]))
            && BenchClean(end)
            && Within(seed, end.rng, 15 * |turns|)
            && (turns != [] ==> Decided(end))
  {
    hide Play, Within, Kept, AsFresh, FreshBattler, Decided;
    var st := FreshBattle(seed, a, b);
    var end := Play(reg, st, turns);
    assert BenchClean(st) by {
      FreshBench(a);
      FreshBench(b);
    }
    PlayKeeps(reg, st, turns);
    PlayDecides(reg, st, turns);
    forall j | 0 <= j < |a| ensures AsFresh(reg, a[j], end.side0.party[j]) {
      FreshHolds(reg, a[j].species, a[j].inst, end.side0.party[j]);
    }
    forall j | 0 <= j < |b| ensures AsFresh(reg, b[j], end.side1.party[j]) {
      FreshHolds(reg, b[j].species, b[j].inst, end.side1.party[j]);
    }
  }

  lemma FreshBench(team: seq<BattlerState>)
    requires FreshTeam(team)
    ensures SideBenchClean(SideState(team, 0))
  {
    hide ComputeStats;
  }

  /** Along any battle, from any state at all, the number of usable battlers of each side never
      rises. */
  lemma UsableAlongBattle(reg: Registry, st: State, turns: seq<Actions>)
    requires st.WellFormed()
    ensures var end := Play(reg, st, turns);
            Usable(end.side0.party) <= Usable(st.side0.party) && Usable(end.side1.party) <= Usable(st.side1.party)
  {
    hide Play, PartyKept, Within, BenchClean;
    var end := Play(reg, st, turns);
    PlayKeeps(reg, st, turns);
    UsableNeverRises(reg, st.side0.party, end.side0.party);
    UsableNeverRises(reg, st.side1.party, end.side1.party);
  }
}
