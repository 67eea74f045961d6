/** Which inputs decide a turn: the first message of each player, checked, or the default. */
module IntentProofs {
  import opened Types
  import opened Turns
  import opened DuelProofs
  import opened RunProofs
  import opened Records
  import opened Sessions

  predicate SpeaksFor(players: Players, x: Input, side: nat) {
    x.Submit? && SideOf(players, x.playerID) == Some(side)
  }

  predicate Spoke(players: Players, xs: seq<Input>, side: nat) {
    exists i :: 0 <= i < |xs| && SpeaksFor(players, xs[i], side)
  }

  /** The first action a side sent among xs, replaced by the default if illegal; the default
      if it sent none. */
  function FirstChoice(players: Players, xs: seq<Input>, side: nat): MoveAction {
    if xs == [] then DEFAULT_ACTION
    else if SpeaksFor(players, xs[0], side) then Sanitized(xs[0].intent.action)
    else FirstChoice(players, xs[1..], side)
  }

  /** Enough to resolve a turn: the timer fired, or both sides spoke. */
  predicate Enough(players: Players, xs: seq<Input>) {
    TimerFires in xs || (Spoke(players, xs, 0) && Spoke(players, xs, 1))
  }

  /** xs is exactly what one turn reads, and acts is what it resolves to. */
  predicate TurnReads(players: Players, xs: seq<Input>, acts: Actions) {
    && Enough(players, xs) && Cancelled !in xs
    && (forall k :: 0 <= k < |xs| ==> !Enough(players, xs[..k]))
    && acts == (FirstChoice(players, xs, 0), FirstChoice(players, xs, 1))
  }

  lemma {:induction false} ChoiceSnoc(players: Players, xs: seq<Input>, x: Input, side: nat)
    ensures Spoke(players, xs + [x], side) <==> Spoke(players, xs, side) || SpeaksFor(players, x, side)
    ensures FirstChoice(players, xs + [x], side)
            == if Spoke(players, xs, side) then FirstChoice(players, xs, side)
               else if SpeaksFor(players, x, side) then Sanitized(x.intent.action) else DEFAULT_ACTION
  {
    hide Sanitized, SideOf;
    assert (xs + [x])[|xs|] == x;
    if Spoke(players, xs, side) {
      var i :| 0 <= i < |xs| && SpeaksFor(players, xs[i], side);
      assert (xs + [x])[i] == xs[i];
    }
    if xs == [] {
    } else {
      ChoiceSnoc(players, xs[1..], x, side);
      assert (xs + [x])[1..] == xs[1..] + [x];
      SpokeCons(players, xs, side);
    }
  }

  lemma SpokeCons(players: Players, xs: seq<Input>, side: nat)
    requires xs != []
    ensures Spoke(players, xs, side) <==> SpeaksFor(players, xs[0], side) || Spoke(players, xs[1..], side)
  {
    if Spoke(players, xs, side) && !SpeaksFor(players, xs[0], side) {
      var i :| 0 <= i < |xs| && SpeaksFor(players, xs[i], side);
      assert xs[1..][i - 1] == xs[i];
    }
    if Spoke(players, xs[1..], side) {
      var i :| 0 <= i < |xs[1..]| && SpeaksFor(players, xs[1..][i], side);
      assert xs[i + 1] == xs[1..][i];
    }
  }

  /** The pending intents mirror what has been read so far, with no timer among it. */
  predicate Mirrors(players: Players, read: seq<Input>, p: Pending) {
    && TimerFires !in read && Cancelled !in read
    && (forall k :: 0 <= k < |read| ==> !Enough(players, read[..k]))
    && p.p0 == (if Spoke(players, read, 0) then Some(FirstChoice(players, read, 0)) else None)
    && p.p1 == (if Spoke(players, read, 1) then Some(FirstChoice(players, read, 1)) else None)
  }

  lemma ReadOneMore(players: Players, read: seq<Input>, p: Pending, x: Input)
    requires Mirrors(players, read, p) && !p.BothReady() && x.Submit?
    ensures Mirrors(players, read + [x], Accept(players, p, x.playerID, x.intent))
  {
    hide FirstChoice, Spoke, Sanitized;
    ChoiceSnoc(players, read, x, 0);
    ChoiceSnoc(players, read, x, 1);
    PrefixesStayShort(players, read, x);
  }

  lemma PrefixesStayShort(players: Players, read: seq<Input>, x: Input)
    requires !Enough(players, read) && forall k :: 0 <= k < |read| ==> !Enough(players, read[..k])
    ensures forall k :: 0 <= k < |read + [x]| ==> !Enough(players, (read + [x])[..k])
  {
    hide Enough;
    forall k | 0 <= k < |read + [x]| ensures !Enough(players, (read + [x])[..k]) {
      assert (read + [x])[..k] == read[..k];
      assert read[..|read|] == read;
    }
  }

  lemma TimerDecides(players: Players, read: seq<Input>, p: Pending)
    requires Mirrors(players, read, p) && !p.BothReady()
    ensures var q := FillDefaults(p); TurnReads(players, read + [TimerFires], (q.p0.value, q.p1.value))
  {
    hide FirstChoice, Spoke;
    ChoiceSnoc(players, read, TimerFires, 0);
    ChoiceSnoc(players, read, TimerFires, 1);
    PrefixesStayShort(players, read, TimerFires);
    assert (read + [TimerFires])[|read|] == TimerFires;
  }

  lemma {:induction false} CollectReads(players: Players, read: seq<Input>, p: Pending, inputs: seq<Input>)
    requires Mirrors(players, read, p)
    requires Collect(players, p, inputs).Ready?
    ensures var c := Collect(players, p, inputs);
            TurnReads(players, read + inputs[..|inputs| - |c.rest|], c.actions)
    decreases |inputs|
  {
    hide Mirrors, TurnReads, FillDefaults, Accept, Collect;
    CollectUnfolds(players, p, inputs);
    var c := Collect(players, p, inputs);
    if p.BothReady() {
      ReadyReads(players, read, p);
      assert read + inputs[..0] == read;
    } else {
      var x := inputs[0];
      var used := |inputs| - |c.rest|;
      if x.TimerFires? {
        TimerDecides(players, read, p);
        FilledIsReady(p);
        CollectUnfolds(players, FillDefaults(p), inputs[1..]);
        assert read + inputs[..1] == read + [x];
      } else {
        var q := Accept(players, p, x.playerID, x.intent);
        ReadOneMore(players, read, p, x);
        CollectReads(players, read + [x], q, inputs[1..]);
        assert read + [x] + inputs[1..][..used - 1] == read + inputs[..used];
      }
    }
  }

  lemma CollectUnfolds(players: Players, p: Pending, inputs: seq<Input>)
    requires Collect(players, p, inputs).Ready?
    ensures if p.BothReady() then Collect(players, p, inputs) == Ready((p.p0.value, p.p1.value), inputs)
            else inputs != [] && !inputs[0].Cancelled?
                 && Collect(players, p, inputs) == Collect(players,
                      if inputs[0].TimerFires? then FillDefaults(p) else Accept(players, p, inputs[0].playerID, inputs[0].intent),
                      inputs[1..])
  {
    hide FillDefaults, Accept;
  }

  lemma FilledIsReady(p: Pending)
    ensures FillDefaults(p).BothReady()
  {
  }

  lemma ReadyReads(players: Players, read: seq<Input>, p: Pending)
    requires Mirrors(players, read, p) && p.BothReady()
    ensures TurnReads(players, read, (p.p0.value, p.p1.value))
  {
    hide FirstChoice, Spoke;
  }

  lemma NothingMirrors(players: Players)
    ensures Mirrors(players, [], NOTHING_PENDING)
  {
  }

  function Flat(xss: seq<seq<Input>>): seq<Input> {
    if xss == [] then [] else xss[0] + Flat(xss[1..])
  }

  /** Consecutive stretches of the inputs, one for each turn. */
  ghost predicate Accounts(players: Players, inputs: seq<Input>, stretches: seq<seq<Input>>, turns: seq<Actions>) {
    && |stretches| == |turns| && Flat(stretches) <= inputs
    && forall k :: 0 <= k < |turns| ==> TurnReads(players, stretches[k], turns[k])
  }

  lemma AccountsCons(players: Players, inputs: seq<Input>, n: nat, acts: Actions, stretches: seq<seq<Input>>, turns: seq<Actions>)
    requires n <= |inputs| && TurnReads(players, inputs[..n], acts) && Accounts(players, inputs[n..], stretches, turns)
    ensures Accounts(players, inputs, [inputs[..n]] + stretches, [acts] + turns)
  {
    hide TurnReads;
    var all := [inputs[..n]] + stretches;
    assert all[1..] == stretches;
    assert inputs == inputs[..n] + inputs[n..];
  }

  lemma NothingAccounted(players: Players, inputs: seq<Input>)
    ensures Accounts(players, inputs, [], [])
  {
  }

  /** The inputs of a run fall into consecutive stretches, one for each recorded turn: what a
      player sends after its first message of a turn is discarded with that turn, and an input
      not yet read belongs to the next one. */
  lemma {:induction false} RunFollowsInputs(reg: Registry, players: Players, st: State, record: MatchRecord, inputs: seq<Input>)
    returns (stretches: seq<seq<Input>>, turns: seq<Actions>)
    requires st.WellFormed()
    ensures RunFrom(reg, players, st, record, inputs).record.turns == record.turns + turns
    ensures Accounts(players, inputs, stretches, turns)
    decreases |inputs|
  {
    hide Turns.ResolveTurn, TurnReads, Mirrors, RunFrom, Collect, Accounts;
    stretches, turns := [], [];
    NothingAccounted(players, inputs);
    if st.over {
      RunEnds(reg, players, st, record, inputs);
    } else {
      RunUnfolds(reg, players, st, record, inputs);
      var c := Collect(players, NOTHING_PENDING, inputs);
      if c.Ready? {
        var n := |inputs| - |c.rest|;
        NothingMirrors(players);
        CollectReads(players, [], NOTHING_PENDING, inputs);
        assert [] + inputs[..n] == inputs[..n];
        stretches, turns := RunFollowsInputs(reg, players, Turns.ResolveTurn(reg, st, c.actions).state,
          record.(turns := record.turns + [c.actions]), c.rest);
        AccountsCons(players, inputs, n, c.actions, stretches, turns);
        stretches, turns := [inputs[..n]] + stretches, [c.actions] + turns;
      }
    }
  }

  // ----- What becomes of a message -----

  /** An action a client may submit: a move with one of the four slots, or a switch to some index. */
  predicate Playable(a: MoveAction) {
    (a.kind == 0 && a.skillSlot in {0, 1, 2, 3}) || (a.kind == 1 && a.switchTo >= 0)
  }

  /** What is played instead of anything else: the skill in slot 0. */
  predicate IsSlotZero(a: MoveAction) {
    a.kind == 0 && a.skillSlot == 0
  }

  /** A message counts if its sender is a player who has sent none this turn; an action that may
      be submitted stands as it is, and any other becomes slot 0. */
  lemma MessageLaw(players: Players, p: Pending, id: string, intent: Intent)
    ensures var q := Accept(players, p, id, intent);
            if id == players.0 && p.p0 == None then q.p1 == p.p1 && q.p0.Some?
              && (Playable(intent.action) ==> q.p0.value == intent.action)
              && (!Playable(intent.action) ==> IsSlotZero(q.p0.value))
            else if id == players.1 && id != players.0 && p.p1 == None then q.p0 == p.p0 && q.p1.Some?
              && (Playable(intent.action) ==> q.p1.value == intent.action)
              && (!Playable(intent.action) ==> IsSlotZero(q.p1.value))
            else q == p
  {
  }

  /** When the timer fires, whoever has sent nothing plays slot 0. */
  lemma TimerLaw(p: Pending)
    ensures var q := FillDefaults(p);
            && q.p0.Some? && (p.p0.Some? ==> q.p0 == p.p0) && (p.p0.None? ==> IsSlotZero(q.p0.value))
            && q.p1.Some? && (p.p1.Some? ==> q.p1 == p.p1) && (p.p1.None? ==> IsSlotZero(q.p1.value))
  {
  }

  /** x is a message of the player of that side; one id for both players speaks for the first. */
  predicate IsFrom(players: Players, x: Input, side: nat) {
    x.Submit? && if side == 0 then x.playerID == players.0 else x.playerID == players.1 && x.playerID != players.0
  }

  lemma {:induction false} FirstMessage(players: Players, xs: seq<Input>, side: nat, i: nat)
    requires side < 2 && i < |xs| && IsFrom(players, xs[i], side) && forall k :: 0 <= k < i ==> !IsFrom(players, xs[k], side)
    ensures var a := xs[i].intent.action;
            (Playable(a) ==> FirstChoice(players, xs, side) == a)
            && (!Playable(a) ==> IsSlotZero(FirstChoice(players, xs, side)))
    decreases i
  {
    if i > 0 {
      assert !IsFrom(players, xs[0], side);
      FirstMessage(players, xs[1..], side, i - 1);
    }
  }

  lemma {:induction false} NoMessage(players: Players, xs: seq<Input>, side: nat)
    requires side < 2 && forall k :: 0 <= k < |xs| ==> !IsFrom(players, xs[k], side)
    ensures IsSlotZero(FirstChoice(players, xs, side))
  {
    if xs != [] {
      assert !IsFrom(players, xs[0], side);
      NoMessage(players, xs[1..], side);
    }
  }

  /** What a turn records for a side is its first message as sent, if that may be submitted, and
      slot 0 otherwise or if it sent none. */
  lemma RecordedChoice(players: Players, xs: seq<Input>, acts: Actions, side: nat)
    requires side < 2 && TurnReads(players, xs, acts)
    ensures var act := if side == 0 then acts.0 else acts.1;
            && (forall i :: 0 <= i < |xs| && IsFrom(players, xs[i], side) && (forall k :: 0 <= k < i ==> !IsFrom(players, xs[k], side)) ==>
                  (Playable(xs[i].intent.action) ==> act == xs[i].intent.action)
                  && (!Playable(xs[i].intent.action) ==> IsSlotZero(act)))
            && ((forall k :: 0 <= k < |xs| ==> !IsFrom(players, xs[k], side)) ==> IsSlotZero(act))
  {
    hide FirstChoice, Enough, Playable, IsSlotZero;
    forall i | 0 <= i < |xs| && IsFrom(players, xs[i], side) && (forall k :: 0 <= k < i ==> !IsFrom(players, xs[k], side))
      ensures var act := if side == 0 then acts.0 else acts.1;
              (Playable(xs[i].intent.action) ==> act == xs[i].intent.action)
              && (!Playable(xs[i].intent.action) ==> IsSlotZero(act)) {
      FirstMessage(players, xs, side, i);
    }
    if forall k :: 0 <= k < |xs| ==> !IsFrom(players, xs[k], side) {
      NoMessage(players, xs, side);
    }
  }

  /** A turn that is not resolved has been cancelled, or has used up its inputs without a firing of
      the timer or a cancellation; and a cancellation is never passed over. */
  lemma {:induction false} CollectLaw(players: Players, p: Pending, inputs: seq<Input>)
    requires !p.BothReady()
    ensures Collect(players, p, inputs).Stopped? ==> Cancelled in inputs
    ensures Collect(players, p, inputs).Starved? ==> Cancelled !in inputs && TimerFires !in inputs
    ensures Collect(players, p, inputs).Ready? ==> Cancelled !in inputs[..|inputs| - |Collect(players, p, inputs).rest|]
    decreases |inputs|
  {
    hide Accept, FillDefaults, Collect;
    CollectSteps(players, p, inputs);
    if inputs != [] && !inputs[0].Cancelled? {
      var q := if inputs[0].TimerFires? then FillDefaults(p) else Accept(players, p, inputs[0].playerID, inputs[0].intent);
      FilledIsReady(p);
      if q.BothReady() {
        CollectIsDone(players, q, inputs[1..]);
        assert inputs[..1] == [inputs[0]];
      } else {
        CollectLaw(players, q, inputs[1..]);
        if Collect(players, q, inputs[1..]).Ready? {
          var used := |inputs| - |Collect(players, p, inputs).rest|;
          assert inputs[..used] == [inputs[0]] + inputs[1..][..used - 1];
        }
      }
    }
  }

  lemma CollectIsDone(players: Players, p: Pending, inputs: seq<Input>)
    requires p.BothReady()
    ensures Collect(players, p, inputs) == Ready((p.p0.value, p.p1.value), inputs)
  {
  }

  lemma CollectSteps(players: Players, p: Pending, inputs: seq<Input>)
    requires !p.BothReady()
    ensures Collect(players, p, inputs) ==
      if inputs == [] then Starved
      else if inputs[0].Cancelled? then Stopped
      else Collect(players, if inputs[0].TimerFires? then FillDefaults(p) else Accept(players, p, inputs[0].playerID, inputs[0].intent),
                   inputs[1..])
  {
    hide Accept, FillDefaults;
  }

  /** From end to end: if a side's first message of a turn is a switch to another standing member
      of its party, that switch is recorded, and the turn ends with that member active. */
  lemma SwitchGoesThrough(reg: Registry, players: Players, st: State, xs: seq<Input>, acts: Actions, side: nat, i: nat, to: nat)
    requires st.WellFormed() && !st.over && side < 2 && TurnReads(players, xs, acts)
    requires i < |xs| && IsFrom(players, xs[i], side) && forall k :: 0 <= k < i ==> !IsFrom(players, xs[k], side)
    requires xs[i].intent.action.kind == 1 && xs[i].intent.action.switchTo == to
    requires to < |st.At(side).party| && to != st.At(side).active && st.At(side).party[to].curHP > 0
    ensures (if side == 0 then acts.0 else acts.1) == xs[i].intent.action
    ensures ResolveTurn(reg, st, acts).state.At(side).active == to
  {
    hide FirstChoice, Enough, ResolveTurn, Kept;
    assert (if side == 0 then acts.0 else acts.1) == xs[i].intent.action by {
      FirstMessage(players, xs, side, i);
    }
    TurnFrame(reg, st, acts);
  }
}
