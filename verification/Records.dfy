/** Match records and their re-simulation (services/battle/internal/persistence/record.go). */
module Records {
  import opened Types
  import opened Creatures
  import opened Words
  import opened Battlers
  import opened Turns
  import opened Battles
  import opened Digests

  type Dex = map<int, Species>

  datatype MatchRecord = MatchRecord(
    matchID: string, mode: string, seed: Word, teamA: seq<Instance>, teamB: seq<Instance>,
    turns: seq<Actions>, winner: int, finalDigest: bv64)

  // ----- Building a side -----

  datatype Built = UnknownSpecies(dexID: int) | Built(party: seq<BattlerState>)

  /** Fresh battlers for a team, or the first species the dex does not know. */
  function BuildParty(team: seq<Instance>, dex: Dex): Built {
    if team == [] then Built([])
    else match BuildParty(team[..|team| - 1], dex)
      case UnknownSpecies(id) => UnknownSpecies(id)
      case Built(party) =>
        var inst := team[|team| - 1];
        if inst.dexID in dex then Built(party + [FreshBattler(dex[inst.dexID], inst)]) else UnknownSpecies(inst.dexID)
  }

  lemma {:induction false} BuiltSize(team: seq<Instance>, dex: Dex)
    ensures BuildParty(team, dex).Built? ==> |BuildParty(team, dex).party| == |team|
  {
    if team == [] {
    } else {
      BuiltSize(team[..|team| - 1], dex);
    }
  }

  lemma {:induction false} UnknownStays(team: seq<Instance>, dex: Dex, i: nat)
    requires i <= |team| && BuildParty(team[..i], dex).UnknownSpecies?
    ensures BuildParty(team, dex) == BuildParty(team[..i], dex)
    decreases |team|
  {
    if i == |team| {
      assert team[..i] == team;
    } else {
      assert team[..|team| - 1][..i] == team[..i];
      UnknownStays(team[..|team| - 1], dex, i);
    }
  }

  /** A team is built exactly when the dex knows every species in it; then each place holds a
      fresh battler of that instance and its species. */
  lemma {:induction false} PartyLaw(team: seq<Instance>, dex: Dex)
    ensures BuildParty(team, dex).Built? <==> forall i :: 0 <= i < |team| ==> team[i].dexID in dex
    ensures BuildParty(team, dex).Built? ==>
      var party := BuildParty(team, dex).party;
      |party| == |team| && forall i :: 0 <= i < |team| ==> team[i].dexID in dex && party[i] == FreshBattler(dex[team[i].dexID], team[i])
  {
    hide FreshBattler;
    if team != [] {
      var n := |team| - 1;
      PartyLaw(team[..n], dex);
      assert forall i :: 0 <= i < n ==> team[..n][i] == team[i];
    }
  }

  /** Otherwise the error names the first species the dex does not know. */
  lemma {:induction false} FirstUnknown(team: seq<Instance>, dex: Dex, i: nat)
    requires i < |team| && team[i].dexID !in dex && forall k :: 0 <= k < i ==> team[k].dexID in dex
    ensures BuildParty(team, dex) == UnknownSpecies(team[i].dexID)
  {
    PartyLaw(team[..i], dex);
    assert team[..i + 1][..i] == team[..i];
    UnknownStays(team, dex, i + 1);
  }

  // ----- Replay -----

  /** Panicked: the engine indexes an empty party as soon as it resolves a turn. */
  datatype Replayed = ReplayError(dexID: int) | Panicked | Replayed(winner: int, digest: bv64, turns: nat)

  function ReplayBattle(reg: Registry, st: State, turns: seq<Actions>): Replayed {
    if turns == [] then Replayed(st.winner, Digest(st), st.turn)
    else if !st.WellFormed() then Panicked
    else var end := Play(reg, st, turns); Replayed(end.winner, Digest(end), end.turn)
  }

  function ReplayOf(reg: Registry, dex: Dex, rec: MatchRecord): Replayed {
    match BuildParty(rec.teamA, dex)
    case UnknownSpecies(id) => ReplayError(id)
    case Built(a) =>
      match BuildParty(rec.teamB, dex)
      case UnknownSpecies(id) => ReplayError(id)
      case Built(b) => ReplayBattle(reg, FreshBattle(rec.seed, a, b), rec.turns)
  }

  datatype Verdict = NotReplayable | Verdict(ok: bool)

  function VerifyOf(reg: Registry, dex: Dex, rec: MatchRecord): Verdict {
    match ReplayOf(reg, dex, rec)
    case Replayed(w, d, _) => Verdict(w == rec.winner && d == rec.finalDigest)
    case _ => NotReplayable
  }

  // ----- The recorder and the replayer as the service runs them -----

  class Recorder {
    var rec: MatchRecord

    constructor (matchID: string, mode: string, seed: Word, teamA: seq<Instance>, teamB: seq<Instance>)
      ensures rec == MatchRecord(matchID, mode, seed, teamA, teamB, [], 0, 0)
    {
      rec := MatchRecord(matchID, mode, seed, teamA, teamB, [], 0, 0);
    }

    method RecordTurn(acts: Actions)
      modifies this
      ensures rec == old(rec).(turns := old(rec).turns + [acts])
    {
      rec := rec.(turns := rec.turns + [acts]);
    }

    method Finish(winner: int, digest: bv64) returns (r: MatchRecord)
      modifies this
      ensures r == rec == old(rec).(winner := winner, finalDigest := digest)
    {
      rec := rec.(winner := winner);
      rec := rec.(finalDigest := digest);
      r := rec;
    }
  }

  lemma EmptyStates()
    ensures States([]) == []
  {
  }

  lemma OneMoreState(party: seq<Battler>)
    requires party != []
    ensures States(party) == States(party[..|party| - 1]) + [party[|party| - 1].State()]
  {
  }

  /** Builds fresh battlers, sharing nothing with any other session. */
  method BuildBattlers(team: seq<Instance>, dex: Dex) returns (err: Option<int>, party: seq<Battler>)
    ensures err.Some? ==> BuildParty(team, dex) == UnknownSpecies(err.value)
    ensures err.None? ==> BuildParty(team, dex) == Built(States(party))
    ensures fresh(party) && forall i, j :: 0 <= i < j < |party| ==> party[i] != party[j]
  {
    hide FreshBattler, States;
    EmptyStates();
    party := [];
    err := None;
    for i := 0 to |team|
      invariant fresh(party) && BuildParty(team[..i], dex) == Built(States(party))
      invariant forall i, j :: 0 <= i < j < |party| ==> party[i] != party[j]
    {
      var inst := team[i];
      assert team[..i + 1][..i] == team[..i];
      if inst.dexID !in dex {
        UnknownStays(team, dex, i + 1);
        return Some(inst.dexID), party;
      }
      var b := new Battler(dex[inst.dexID], inst);
      party := party + [b];
      OneMoreState(party);
    }
    assert team[..|team|] == team;
  }

  method Replay(reg: Registry, dex: Dex, rec: MatchRecord) returns (r: Replayed)
    ensures r == ReplayOf(reg, dex, rec)
  {
    hide BuildParty, ReplayBattle;
    var errA, a := BuildBattlers(rec.teamA, dex);
    if errA.Some? {
      return ReplayError(errA.value);
    }
    var errB, b := BuildBattlers(rec.teamB, dex);
    if errB.Some? {
      return ReplayError(errB.value);
    }
    r := ReplayBattlers(reg, rec.seed, a, b, rec.turns);
  }

  method ReplayBattlers(reg: Registry, seed: Word, a: seq<Battler>, b: seq<Battler>, turns: seq<Actions>) returns (r: Replayed)
    requires AllDistinct(a, b)
    modifies a, b
    ensures r == ReplayBattle(reg, old(FreshBattle(seed, States(a), States(b))), turns)
  {
    hide Play, Digest, States;
    var sideA := new Side("A", a);
    var sideB := new Side("B", b);
    var bt := new Battle(seed, sideA, sideB);
    assert bt.State() == FreshBattle(seed, States(a), States(b));
    if turns != [] {
      if a == [] || b == [] {
        return Panicked;
      }
      RunTurns(reg, bt, turns);
    }
    var d := DigestOf(bt);
    r := Replayed(bt.winner, d, bt.turn);
  }

  method RunTurns(reg: Registry, bt: Battle, turns: seq<Actions>)
    requires bt.Valid()
    modifies bt.Objects()
    ensures bt.Valid() && bt.State() == Play(reg, old(bt.State()), turns)
  {
    hide Turns.ResolveTurn;
    for i := 0 to |turns|
      invariant bt.Valid() && Play(reg, bt.State(), turns[i..]) == Play(reg, old(bt.State()), turns)
    {
      if bt.over {
        break;
      }
      var ok, events := bt.ResolveTurn(reg, turns[i]);
      assert turns[i..][1..] == turns[i + 1..];
    }
  }

  method Verify(reg: Registry, dex: Dex, rec: MatchRecord) returns (v: Verdict)
    ensures v == VerifyOf(reg, dex, rec)
  {
    hide ReplayOf;
    var r := Replay(reg, dex, rec);
    if !r.Replayed? {
      return NotReplayable;
    }
    v := Verdict(r.winner == rec.winner && r.digest == rec.finalDigest);
  }
}
