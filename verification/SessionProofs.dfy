/** Main results about sessions: every match that ends verifies, whatever the players and the
    clock do, and every recorded action is the first one its player sent. */
module SessionProofs {
  import opened Turns
  import opened RunProofs
  import opened Digests
  import opened Records
  import opened Sessions

  // ----- A run is a play of its recorded turns -----

  lemma {:induction false} PlayOneMore(reg: Registry, st: State, turns: seq<Actions>, acts: Actions)
    requires st.WellFormed()
    ensures var mid := Play(reg, st, turns);
            Play(reg, st, turns + [acts]) == if mid.over then mid else Turns.ResolveTurn(reg, mid, acts).state
    decreases |turns|
  {
    hide Turns.ResolveTurn;
    if turns == [] {
      assert (turns + [acts])[1..] == [];
    } else if !st.over {
      assert (turns + [acts])[1..] == turns[1..] + [acts];
      PlayOneMore(reg, Turns.ResolveTurn(reg, st, turns[0]).state, turns[1..], acts);
    }
  }

  /** The battle of a session and its record agree: the turns recorded so far, played from the
      start, give the battle as it stands. */
  predicate InStep(reg: Registry, start: State, st: State, record: MatchRecord)
    requires start.WellFormed()
  {
    st == Play(reg, start, record.turns) && st.turn == |record.turns|
  }

  lemma StaysInStep(reg: Registry, start: State, st: State, record: MatchRecord, acts: Actions)
    requires start.WellFormed() && st.WellFormed() && !st.over && InStep(reg, start, st, record)
    ensures InStep(reg, start, Turns.ResolveTurn(reg, st, acts).state, record.(turns := record.turns + [acts]))
  {
    hide Turns.ResolveTurn, Play;
    PlayOneMore(reg, start, record.turns, acts);
    TurnCounts(reg, st, acts);
  }

  lemma {:induction false} RunStaysInStep(reg: Registry, players: Players, start: State, st: State, record: MatchRecord, inputs: seq<Input>)
    requires start.WellFormed() && st.WellFormed() && InStep(reg, start, st, record)
    ensures var run := RunFrom(reg, players, st, record, inputs);
            && InStep(reg, start, run.battle, run.record)
            && !run.status.Refused?
            && run.endCalls == (if run.status.Ended? then 1 else 0)
            && (run.status.Ended? <==> run.battle.over)
            && (run.status.Ended? ==> run.record.winner == run.battle.winner && run.record.finalDigest == Digest(run.battle))
            && run.record == record.(turns := run.record.turns, winner := run.record.winner, finalDigest := run.record.finalDigest)
    decreases |inputs|
  {
    hide Turns.ResolveTurn, Collect, Digest, Play;
    if !st.over {
      var c := Collect(players, NOTHING_PENDING, inputs);
      if c.Ready? {
        StaysInStep(reg, start, st, record, c.actions);
        RunStaysInStep(reg, players, start, Turns.ResolveTurn(reg, st, c.actions).state,
          record.(turns := record.turns + [c.actions]), c.rest);
      }
    }
  }

  // ----- Main results -----

  /** A session as the battle service opens it: fresh battlers of the recorded teams, nothing
      recorded yet. */
  predicate OpensMatch(dex: Dex, start: State, record: MatchRecord) {
    && record.turns == [] && record.teamA != [] && record.teamB != []
    && BuildParty(record.teamA, dex).Built? && BuildParty(record.teamB, dex).Built?
    && start == FreshBattle(record.seed, BuildParty(record.teamA, dex).party, BuildParty(record.teamB, dex).party)
  }

  lemma OpensWellFormed(dex: Dex, start: State, record: MatchRecord)
    requires OpensMatch(dex, start, record)
    ensures start.WellFormed() && !start.over
  {
    BuiltSize(record.teamA, dex);
    BuiltSize(record.teamB, dex);
  }

  /** Every match that ends under any schedule of messages and timer firings verifies: its record
      carries the winner, the digest and as many turns as the live battle, and replayed with the
      same dex and skill table it reproduces all three; onEnd fires once, and the engine never
      refuses a turn. */
  lemma EveryEndedMatchVerifies(reg: Registry, dex: Dex, players: Players, start: State, record: MatchRecord, inputs: seq<Input>)
    requires OpensMatch(dex, start, record) && start.WellFormed()
    ensures var run := RunFrom(reg, players, start, record, inputs);
            && !run.status.Refused?
            && (run.status.Ended? ==>
                 run.endCalls == 1 && run.battle.over
                 && run.record.winner == run.battle.winner && run.record.finalDigest == Digest(run.battle)
                 && run.battle.turn == |run.record.turns|
                 && ReplayOf(reg, dex, run.record) == Replayed(run.record.winner, run.record.finalDigest, |run.record.turns|)
                 && VerifyOf(reg, dex, run.record) == Verdict(true))
  {
    hide RunFrom, Digest, BuildParty;
    var run := RunFrom(reg, players, start, record, inputs);
    OpensWellFormed(dex, start, record);
    RunStaysInStep(reg, players, start, start, record, inputs);
  }

  /** The result of a genuine match cannot be restated: its record verifies with exactly one
      winner and one digest. */
  lemma ForgedResultsFail(reg: Registry, dex: Dex, players: Players, start: State, record: MatchRecord, inputs: seq<Input>,
                          winner: int, digest: bv64)
    requires OpensMatch(dex, start, record) && start.WellFormed()
    requires RunFrom(reg, players, start, record, inputs).status.Ended?
    ensures var rec := RunFrom(reg, players, start, record, inputs).record;
            VerifyOf(reg, dex, rec.(winner := winner, finalDigest := digest)) == Verdict(winner == rec.winner && digest == rec.finalDigest)
  {
    hide RunFrom, ReplayBattle, BuildParty;
    EveryEndedMatchVerifies(reg, dex, players, start, record, inputs);
    var rec := RunFrom(reg, players, start, record, inputs).record;
    var forged := rec.(winner := winner, finalDigest := digest);
    assert ReplayOf(reg, dex, forged) == ReplayOf(reg, dex, rec);
  }

  /** Turns appended after the end go unnoticed: replay stops at the first conclusion. */
  lemma {:induction false} PlayIgnoresAfterEnd(reg: Registry, st: State, turns: seq<Actions>, extra: seq<Actions>)
    requires st.WellFormed() && Play(reg, st, turns).over
    ensures Play(reg, st, turns + extra) == Play(reg, st, turns)
    decreases |turns|
  {
    hide Turns.ResolveTurn;
    if turns != [] && !st.over {
      assert (turns + extra)[1..] == turns[1..] + extra;
      PlayIgnoresAfterEnd(reg, Turns.ResolveTurn(reg, st, turns[0]).state, turns[1..], extra);
    }
  }

  lemma PaddedRecordStillVerifies(reg: Registry, dex: Dex, players: Players, start: State, record: MatchRecord, inputs: seq<Input>,
                                  extra: seq<Actions>)
    requires OpensMatch(dex, start, record) && start.WellFormed()
    requires RunFrom(reg, players, start, record, inputs).status.Ended?
    ensures var rec := RunFrom(reg, players, start, record, inputs).record;
            VerifyOf(reg, dex, rec.(turns := rec.turns + extra)) == Verdict(true)
  {
    hide RunFrom, Digest, BuildParty, Play;
    EveryEndedMatchVerifies(reg, dex, players, start, record, inputs);
    OpensWellFormed(dex, start, record);
    PlayNothing(reg, start);
    RunStaysInStep(reg, players, start, start, record, inputs);
    PlayIgnoresAfterEnd(reg, start, RunFrom(reg, players, start, record, inputs).record.turns, extra);
  }

  // ----- Truncated records -----

  lemma PlayWhenOver(reg: Registry, st: State, turns: seq<Actions>)
    requires st.WellFormed() && (st.over || turns == [])
    ensures Play(reg, st, turns) == st
  {
  }

  /** A battle that plays all the turns it is given was not over before the last of them. */
  lemma {:induction false} PlayedInFull(reg: Registry, st: State, turns: seq<Actions>, n: nat)
    requires st.WellFormed() && n < |turns| && Play(reg, st, turns).turn == st.turn + |turns|
    ensures !Play(reg, st, turns[..n]).over
    decreases |turns|
  {
    hide Turns.ResolveTurn;
    if n == 0 {
      PlayWhenOver(reg, st, turns[..n]);
    } else if !st.over {
      TurnCounts(reg, st, turns[0]);
      assert turns[..n][1..] == turns[1..][..n - 1];
      PlayedInFull(reg, Turns.ResolveTurn(reg, st, turns[0]).state, turns[1..], n - 1);
    }
  }

  /** A battle still going on has no winner. */
  lemma {:induction false} NoWinnerYet(reg: Registry, st: State, turns: seq<Actions>)
    requires st.WellFormed() && Undecided(st)
    ensures Play(reg, st, turns).over || Undecided(Play(reg, st, turns))
    decreases |turns|
  {
    hide Turns.ResolveTurn;
    if turns != [] {
      var st1 := Turns.ResolveTurn(reg, st, turns[0]).state;
      TurnDecides(reg, st, turns[0]);
      if st1.over {
        PlayWhenOver(reg, st1, turns[1..]);
      } else {
        NoWinnerYet(reg, st1, turns[1..]);
      }
    }
  }

  /** A genuine record cut short replays to an unfinished battle: it never verifies if anybody
      won the match, and otherwise only if the digest at the cut equals the final one. */
  lemma TruncatedRecordFails(reg: Registry, dex: Dex, players: Players, start: State, record: MatchRecord, inputs: seq<Input>,
                             n: nat)
    requires OpensMatch(dex, start, record) && start.WellFormed()
    requires RunFrom(reg, players, start, record, inputs).status.Ended?
    requires n < |RunFrom(reg, players, start, record, inputs).record.turns|
    ensures var rec := RunFrom(reg, players, start, record, inputs).record;
            var cut := Play(reg, start, rec.turns[..n]);
            && !cut.over
            && VerifyOf(reg, dex, rec.(turns := rec.turns[..n])) == Verdict(rec.winner == -1 && Digest(cut) == rec.finalDigest)
            && (rec.winner != -1 ==> VerifyOf(reg, dex, rec.(turns := rec.turns[..n])) == Verdict(false))
  {
    hide RunFrom, Digest, BuildParty, Play;
    OpensWellFormed(dex, start, record);
    PlayNothing(reg, start);
    RunStaysInStep(reg, players, start, start, record, inputs);
    var turns := RunFrom(reg, players, start, record, inputs).record.turns;
    PlayedInFull(reg, start, turns, n);
    NoWinnerYet(reg, start, turns[..n]);
    PlayNothing(reg, start);
  }

  lemma PlayNothing(reg: Registry, st: State)
    requires st.WellFormed()
    ensures Play(reg, st, []) == st
  {
  }
}
