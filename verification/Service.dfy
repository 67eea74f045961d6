/** A hosted match from end to end: battlers built from the dex, a session with a recorder, and
    the anti-cheat check of the finished record (services/battle/cmd/demo/main.go:45-70,
    services/battle/internal/persistence/record.go). */
module Service {
  import opened Creatures
  import opened Words
  import opened Turns
  import opened Battles
  import opened Digests
  import opened Records
  import opened Sessions
  import opened SessionProofs

  /** A side of fresh battlers. */
  method FreshSide(playerID: string, team: seq<Instance>, dex: Dex) returns (side: Side)
    requires BuildParty(team, dex).Built?
    ensures fresh(side) && fresh(side.party) && fresh(side.Members()) && |side.party| == |team|
    ensures forall i, j :: 0 <= i < j < |side.party| ==> side.party[i] != side.party[j]
    ensures side.State() == SideState(BuildParty(team, dex).party, 0)
  {
    hide BuildParty, States;
    var err, party := BuildBattlers(team, dex);
    BuiltSize(team, dex);
    side := new Side(playerID, party);
  }

  /** Opens a session over fresh battlers of the two teams, with a recorder of its own. */
  method OpenMatch(dex: Dex, matchID: string, mode: string, seed: Word, teamA: seq<Instance>, teamB: seq<Instance>, players: Players)
    returns (session: Session)
    requires teamA != [] && teamB != []
    requires BuildParty(teamA, dex).Built? && BuildParty(teamB, dex).Built?
    ensures fresh(session) && fresh(session.recorder) && fresh(session.battle.Objects())
    ensures session.Valid() && session.players == players && session.endCalls == 0
    ensures session.recorder.rec == MatchRecord(matchID, mode, seed, teamA, teamB, [], 0, 0)
    ensures OpensMatch(dex, session.battle.State(), session.recorder.rec)
  {
    hide BuildParty, States;
    var sideA := FreshSide(players.0, teamA, dex);
    var sideB := FreshSide(players.1, teamB, dex);
    assert AllDistinct(sideA.party, sideB.party);
    var recorder := new Recorder(matchID, mode, seed, teamA, teamB);
    session := new Session(seed, players, sideA, sideB, recorder);
    assert session.battle.side0 == sideA && session.battle.side1 == sideB;
  }

  /** Runs a match over whatever inputs arrive; a match that ends yields a record that the
      verifier accepts. */
  method HostMatch(reg: Registry, dex: Dex, matchID: string, mode: string, seed: Word,
                   teamA: seq<Instance>, teamB: seq<Instance>, players: Players, inputs: seq<Input>)
    returns (ended: bool, rec: MatchRecord, verdict: Verdict)
    requires teamA != [] && teamB != []
    requires BuildParty(teamA, dex).Built? && BuildParty(teamB, dex).Built?
    ensures ended ==> verdict == Verdict(true) && VerifyOf(reg, dex, rec) == Verdict(true)
    ensures ended ==> (rec.seed, rec.teamA, rec.teamB) == (seed, teamA, teamB)
    ensures ended ==> ReplayOf(reg, dex, rec) == Replayed(rec.winner, rec.finalDigest, |rec.turns|)
  {
    hide BuildParty, RunFrom, VerifyOf, ReplayOf, States, Digest, OpensMatch;
    var session := OpenMatch(dex, matchID, mode, seed, teamA, teamB, players);
    ghost var start, record := session.battle.State(), session.recorder.rec;
    EveryEndedMatchVerifies(reg, dex, players, start, record, inputs);
    RecordKeepsTeams(reg, players, start, record, inputs);
    var status := session.Run(reg, inputs);
    ended := status.Ended?;
    rec := session.recorder.rec;
    verdict := NotReplayable;
    if ended {
      verdict := Verify(reg, dex, rec);
    }
  }

  lemma {:induction false} RecordKeepsTeams(reg: Registry, players: Players, st: State, record: MatchRecord, inputs: seq<Input>)
    requires st.WellFormed()
    ensures var rec := RunFrom(reg, players, st, record, inputs).record;
            (rec.seed, rec.teamA, rec.teamB) == (record.seed, record.teamA, record.teamB)
    decreases |inputs|
  {
    hide Turns.ResolveTurn, RunFrom, Collect;
    if st.over {
      RunEnds(reg, players, st, record, inputs);
    } else {
      RunUnfolds(reg, players, st, record, inputs);
      var c := Collect(players, NOTHING_PENDING, inputs);
      if c.Ready? {
        RecordKeepsTeams(reg, players, Turns.ResolveTurn(reg, st, c.actions).state,
          record.(turns := record.turns + [c.actions]), c.rest);
      }
    }
  }
}
