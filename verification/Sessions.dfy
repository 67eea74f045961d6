/** The authoritative turn loop (services/battle/internal/netcode/session.go), single-threaded
    over the sequence of inputs its select statement receives.  The observers are wired to the
    match recorder, as the battle service wires them. */
module Sessions {
  import opened Types
  import opened Words
  import opened Turns
  import opened Battles
  import opened Digests
  import opened Records

  datatype Intent = Intent(action: MoveAction, seqNo: nat)

  /** What the run loop can receive: a message from some player id, its own turn timer, or
      the cancellation of its context. */
  datatype Input = Submit(playerID: string, intent: Intent) | TimerFires | Cancelled

  type Players = (string, string)

  datatype Pending = Pending(p0: Option<MoveAction>, p1: Option<MoveAction>)
  {
    function Of(side: nat): Option<MoveAction> {
      if side == 0 then p0 else p1
    }

    predicate BothReady() {
      p0.Some? && p1.Some?
    }

    function Put(side: nat, a: MoveAction): Pending {
      if side == 0 then this.(p0 := Some(a)) else this.(p1 := Some(a))
    }
  }

  const NOTHING_PENDING := Pending(None, None)

  /** The safe default: use slot 0. */
  const DEFAULT_ACTION := MoveAction(ACT_MOVE, 0, 0)

  /** The side of a player id; the first wins if both players carry the same id. */
  function SideOf(players: Players, id: string): Option<nat> {
    if id == players.0 then Some(0) else if id == players.1 then Some(1) else None
  }

  predicate Validate(a: MoveAction) {
    if a.kind == ACT_MOVE then 0 <= a.skillSlot < 4
    else a.kind == ACT_SWITCH && a.switchTo >= 0
  }

  /** An illegal action is replaced by the default. */
  function Sanitized(a: MoveAction): (r: MoveAction)
    ensures Validate(r) && (Validate(a) ==> r == a)
  {
    if Validate(a) then a else DEFAULT_ACTION
  }

  function Accept(players: Players, p: Pending, id: string, intent: Intent): Pending {
    match SideOf(players, id)
    case None => p
    case Some(side) => if p.Of(side).Some? then p else p.Put(side, Sanitized(intent.action))
  }

  function FillDefaults(p: Pending): Pending {
    Pending(if p.p0.Some? then p.p0 else Some(DEFAULT_ACTION), if p.p1.Some? then p.p1 else Some(DEFAULT_ACTION))
  }

  // ----- Collecting one turn's intents -----

  datatype Collected = Ready(actions: Actions, rest: seq<Input>) | Starved | Stopped

  function Collect(players: Players, p: Pending, inputs: seq<Input>): (c: Collected)
    ensures c.Ready? ==> |c.rest| <= |inputs| && c.rest == inputs[|inputs| - |c.rest|..]
    ensures c.Ready? && !p.BothReady() ==> |c.rest| < |inputs|
    decreases |inputs|
  {
    if p.BothReady() then Ready((p.p0.value, p.p1.value), inputs)
    else if inputs == [] then Starved
    else match inputs[0]
      case Cancelled => Stopped
      case TimerFires => Collect(players, FillDefaults(p), inputs[1..])
      case Submit(id, intent) => Collect(players, Accept(players, p, id, intent), inputs[1..])
  }

  // ----- The whole run -----

  /** How a run stands when its inputs are used up: waiting for more, cancelled, refused by the
      engine, or ended. */
  datatype Status = Waiting | CancelledRun | Refused | Ended

  datatype RunResult = RunResult(status: Status, battle: State, record: MatchRecord, endCalls: int)

  function RunFrom(reg: Registry, players: Players, st: State, record: MatchRecord, inputs: seq<Input>): RunResult
    requires st.WellFormed()
    decreases |inputs|
  {
    if st.over then RunResult(Ended, st, record.(winner := st.winner, finalDigest := Digest(st)), 1)
    else match Collect(players, NOTHING_PENDING, inputs)
      case Starved => RunResult(Waiting, st, record, 0)
      case Stopped => RunResult(CancelledRun, st, record, 0)
      case Ready(actions, rest) =>
        match Turns.ResolveTurn(reg, st, actions)
        case BattleOver => RunResult(Refused, st, record, 0)
        case Resolved(st1, _) => RunFrom(reg, players, st1, record.(turns := record.turns + [actions]), rest)
  }

  /** The three ways a run can go on from a battle in progress. */
  lemma RunUnfolds(reg: Registry, players: Players, st: State, record: MatchRecord, inputs: seq<Input>)
    requires st.WellFormed() && !st.over
    ensures var c, run := Collect(players, NOTHING_PENDING, inputs), RunFrom(reg, players, st, record, inputs);
            && (c.Starved? ==> run == RunResult(Waiting, st, record, 0))
            && (c.Stopped? ==> run == RunResult(CancelledRun, st, record, 0))
            && (c.Ready? ==> |c.rest| < |inputs|)
            && (c.Ready? ==> run == RunFrom(reg, players, Turns.ResolveTurn(reg, st, c.actions).state,
                     record.(turns := record.turns + [c.actions]), c.rest))
  {
    hide Turns.ResolveTurn, Collect;
  }

  lemma RunEnds(reg: Registry, players: Players, st: State, record: MatchRecord, inputs: seq<Input>)
    requires st.WellFormed() && st.over
    ensures RunFrom(reg, players, st, record, inputs)
            == RunResult(Ended, st, record.(winner := st.winner, finalDigest := Digest(st)), 1)
  {
  }

  datatype Phase = PhaseWaiting | PhaseSelecting | PhaseResolving | PhaseEnded

  class Session {
    const battle: Battle
    const players: Players
    const recorder: Recorder
    var phase: Phase
    var pending: Pending
    var endCalls: nat

    constructor (seed: Word, players: Players, sideA: Side, sideB: Side, recorder: Recorder)
      requires sideA != sideB && AllDistinct(sideA.party, sideB.party)
      requires sideA.active < |sideA.party| && sideB.active < |sideB.party|
      ensures Valid() && this.players == players && this.recorder == recorder && endCalls == 0
      ensures battle.side0 == sideA && battle.side1 == sideB && fresh(battle) && fresh(battle.rng)
      ensures battle.State() == Turns.State(seed, old(sideA.State()), old(sideB.State()), 0, false, -1, [])
    {
      hide States;
      var bt := new Battle(seed, sideA, sideB);
      battle := bt;
      this.players, this.recorder := players, recorder;
      phase, pending, endCalls := PhaseSelecting, NOTHING_PENDING, 0;
    }

    ghost predicate Valid()
      reads this, battle.side0, battle.side1
    {
      battle.Valid()
    }

    method BothReady() returns (ok: bool)
      ensures ok == pending.BothReady()
    {
      ok := pending.p0 != None && pending.p1 != None;
    }

    method AcceptIntent(id: string, intent: Intent)
      modifies this`pending
      ensures pending == Accept(players, old(pending), id, intent)
    {
      var side := SideOf(players, id);
      if side == None {
        return;
      }
      if pending.Of(side.value) != None {
        return;
      }
      var action := intent.action;
      if !Validate(action) {
        action := MoveAction(ACT_MOVE, 0, 0);
      }
      pending := pending.Put(side.value, action);
    }

    method FillMissing()
      modifies this`pending
      ensures pending == FillDefaults(old(pending))
    {
      for i := 0 to 2
        invariant pending == if i == 0 then old(pending) else if i == 1
          then Pending(FillDefaults(old(pending)).p0, old(pending).p1) else FillDefaults(old(pending))
      {
        if pending.Of(i) == None {
          pending := pending.Put(i, DEFAULT_ACTION);
        }
      }
    }

    /** Receives inputs until both intents are in, the run is cancelled, or none are left. */
    method Select(inputs: seq<Input>) returns (c: Collected)
      modifies this`pending
      ensures c == Collect(players, old(pending), inputs)
    {
      hide Accept, FillDefaults;
      var i := 0;
      var ready := BothReady();
      while !ready
        invariant 0 <= i <= |inputs| && ready == pending.BothReady()
        invariant Collect(players, pending, inputs[i..]) == Collect(players, old(pending), inputs)
        decreases |inputs| - i
      {
        if i == |inputs| {
          return Starved;
        }
        assert inputs[i..][1..] == inputs[i + 1..];
        match inputs[i] {
          case Cancelled => return Stopped;
          case TimerFires => FillMissing();
          case Submit(id, intent) => AcceptIntent(id, intent);
        }
        i := i + 1;
        ready := BothReady();
      }
      c := Ready((pending.p0.value, pending.p1.value), inputs[i..]);
    }

    method OnEnd()
      modifies this`endCalls, recorder
      ensures endCalls == old(endCalls) + 1
      ensures recorder.rec == old(recorder.rec).(winner := battle.winner, finalDigest := Digest(battle.State()))
    {
      hide Digest, States;
      var d := DigestOf(battle);
      var r := recorder.Finish(battle.winner, d);
      endCalls := endCalls + 1;
    }

    /** Resolves one turn and records its actions. */
    method Resolve(reg: Registry, actions: Actions) returns (ok: bool)
      requires Valid()
      modifies this`phase, recorder, battle.Objects()
      ensures Valid() && ok == !old(battle.over)
      ensures ok ==> battle.State() == Turns.ResolveTurn(reg, old(battle.State()), actions).state
      ensures ok ==> recorder.rec == old(recorder.rec).(turns := old(recorder.rec).turns + [actions])
      ensures !ok ==> battle.State() == old(battle.State()) && recorder.rec == old(recorder.rec)
    {
      hide Turns.ResolveTurn, States;
      phase := PhaseResolving;
      var events;
      ok, events := battle.ResolveTurn(reg, actions);
      if ok {
        recorder.RecordTurn(actions);
      }
    }

    /** One turn: select, resolve, record.  Yields a status if the run stops here. */
    method Round(reg: Registry, inputs: seq<Input>) returns (stop: Option<Status>, rest: seq<Input>)
      requires Valid() && !battle.over
      modifies this`phase, this`pending, recorder, battle.Objects()
      ensures Valid()
      ensures stop.None? ==> |rest| < |inputs|
      ensures RunFrom(reg, players, old(battle.State()), old(recorder.rec), inputs)
              == if stop.Some? then RunResult(stop.value, battle.State(), recorder.rec, 0)
                 else RunFrom(reg, players, battle.State(), recorder.rec, rest)
      ensures stop.Some? ==> !stop.value.Ended?
    {
      hide Turns.ResolveTurn, Collect, States, RunFrom;
      RunUnfolds(reg, players, battle.State(), recorder.rec, inputs);
      rest := inputs;
      phase := PhaseSelecting;
      pending := NOTHING_PENDING;
      var c := Select(inputs);
      if c.Starved? {
        return Some(Waiting), rest;
      }
      if c.Stopped? {
        return Some(CancelledRun), rest;
      }
      var ok := Resolve(reg, c.actions);
      if !ok {
        return Some(Refused), rest;
      }
      return None, c.rest;
    }

    /** Drives the match until it ends, is cancelled, or the inputs run out. */
    method Run(reg: Registry, inputs: seq<Input>) returns (status: Status)
      requires Valid()
      modifies this, recorder, battle.Objects()
      ensures Valid()
      ensures RunResult(status, battle.State(), recorder.rec, endCalls - old(endCalls))
              == RunFrom(reg, players, old(battle.State()), old(recorder.rec), inputs)
      ensures status.Ended? ==> phase == PhaseEnded
    {
      hide Turns.ResolveTurn, Collect, Digest, States, RunFrom;
      var rest := inputs;
      while !battle.over
        invariant Valid() && endCalls == old(endCalls)
        invariant RunFrom(reg, players, battle.State(), recorder.rec, rest)
                  == RunFrom(reg, players, old(battle.State()), old(recorder.rec), inputs)
        decreases |rest|
      {
        var stop, remaining := Round(reg, rest);
        if stop.Some? {
          return stop.value;
        }
        rest := remaining;
      }
      RunEnds(reg, players, battle.State(), recorder.rec, rest);
      phase := PhaseEnded;
      OnEnd();
      status := Ended;
    }
  }
}
