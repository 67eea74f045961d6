/** How long status conditions can last. */
module StatusProofs {
  import opened Types
  import opened Creatures
  import opened Words
  import opened Rng
  import opened Battlers

  /** The battler after n end-of-turn ticks with nothing else happening. */
  function Ticked(b: BattlerState, n: nat): BattlerState
    decreases n
  {
    if n == 0 then b else Ticked(AfterTurn(b).0, n - 1)
  }

  lemma {:induction false} FaintedStays(b: BattlerState, n: nat)
    requires b.Fainted()
    ensures Ticked(b, n) == b
    decreases n
  {
    if n == 0 {
    } else {
      FaintedStays(b, n - 1);
    }
  }

  lemma ShareMonotone(maxHP: int, k: int, ctr: int)
    requires maxHP >= 0 && ctr >= k >= 0
    ensures ToxicShare(maxHP, ctr) >= ToxicShare(maxHP, k)
  {
    assert maxHP * (ctr - k) >= 0;
    assert maxHP * ctr == maxHP * k + maxHP * (ctr - k);
  }

  predicate Poisoned(b: BattlerState, k: int) {
    b.status == Toxic && b.statusCtr >= k >= 0 && !b.HasAbility(Regenerator) && b.maxHP >= 1
  }

  /** One tick with the counter at k or more takes at least the k-th share. */
  lemma ToxicTick(b: BattlerState, k: int)
    requires Poisoned(b, k)
    ensures var b' := AfterTurn(b).0;
            b'.Fainted() || (Poisoned(b', k + 1) && b'.maxHP == b.maxHP
                             && b'.curHP <= b.curHP - AtLeast1(ToxicShare(b.maxHP, k)))
  {
    hide ToxicShare;
    ShareMonotone(b.maxHP, k, b.statusCtr);
  }

  /** The shares still to come when the counter has passed k, of the first six. */
  function SharesFrom(maxHP: int, k: nat): int
    requires k <= 7
    decreases 7 - k
  {
    if k == 7 then 0 else AtLeast1(ToxicShare(maxHP, k)) + SharesFrom(maxHP, k + 1)
  }

  lemma {:induction false} ToxicRun(b: BattlerState, k: nat)
    requires k <= 7 && (b.Fainted() || (Poisoned(b, k) && b.curHP <= SharesFrom(b.maxHP, k)))
    ensures Ticked(b, 7 - k).Fainted()
    decreases 7 - k
  {
    hide ToxicShare;
    if b.Fainted() {
      FaintedStays(b, 7 - k);
    } else {
      ToxicTick(b, k);
      ToxicRun(AfterTurn(b).0, k + 1);
    }
  }

  lemma SixSharesSuffice(m: int)
    requires m >= 1
    ensures SharesFrom(m, 1) >= m
  {
    var s1, s2, s3 := AtLeast1(m * 1 / 16), AtLeast1(m * 2 / 16), AtLeast1(m * 3 / 16);
    var s4, s5, s6 := AtLeast1(m * 4 / 16), AtLeast1(m * 5 / 16), AtLeast1(m * 6 / 16);
    assert SharesFrom(m, 5) == s5 + s6;
    assert SharesFrom(m, 3) == s3 + s4 + SharesFrom(m, 5);
    assert SharesFrom(m, 1) == s1 + s2 + SharesFrom(m, 3);
  }

  /** Toxic poison with its counter at 1 or more kills within six ticks, for every MaxHP. */
  lemma ToxicKillsInSix(b: BattlerState)
    requires Poisoned(b, 1) && b.curHP <= b.maxHP
    ensures Ticked(b, 6).Fainted()
  {
    SixSharesSuffice(b.maxHP);
    ToxicRun(b, 1);
  }

  predicate Burning(b: BattlerState) {
    (b.status == Burn || b.status == Poison) && !b.HasAbility(Regenerator) && b.maxHP >= 1
  }

  lemma {:induction false} BurnRun(b: BattlerState, n: nat)
    requires b.Fainted() || (Burning(b) && b.curHP <= n * AtLeast1(b.maxHP / 8))
    ensures Ticked(b, n).Fainted()
    decreases n
  {
    if b.Fainted() {
      FaintedStays(b, n);
    } else {
      assert n > 0;
      assert n * AtLeast1(b.maxHP / 8) == (n - 1) * AtLeast1(b.maxHP / 8) + AtLeast1(b.maxHP / 8);
      BurnRun(AfterTurn(b).0, n - 1);
    }
  }

  /** A burn or plain poison kills within fifteen ticks, for every MaxHP. */
  lemma BurnKillsInFifteen(b: BattlerState)
    requires Burning(b) && b.curHP <= b.maxHP
    ensures Ticked(b, 15).Fainted()
  {
    BurnRun(b, 15);
  }

  // ----- Sleep -----

  /** What can befall a sleeping battler. */
  datatype Happening = MoveAttempt | TryStatus(s: StatusCondition) | TrySleep | TurnEnd

  function Befall(b: BattlerState, rng: Word, h: Happening): (BattlerState, Word) {
    match h
    case MoveAttempt => var g := ThroughGate(b, rng); (g.battler, g.rng)
    case TryStatus(s) => (WithStatus(b, s).0, rng)
    case TrySleep => var r := WithSleep(b, rng); (r.1, r.0)
    case TurnEnd => (AfterTurn(b).0, rng)
  }

  /** The move attempts refused because the battler is still asleep, up to its waking. */
  function MovesLost(b: BattlerState, rng: Word, hs: seq<Happening>): nat
    decreases |hs|
  {
    if hs == [] || b.status != Sleep then 0
    else
      var next := Befall(b, rng, hs[0]);
      (if hs[0] == MoveAttempt && !ThroughGate(b, rng).canAct then 1 else 0) + MovesLost(next.0, next.1, hs[1..])
  }

  function Attempts(hs: seq<Happening>): nat {
    if hs == [] then 0 else (if hs[0] == MoveAttempt then 1 else 0) + Attempts(hs[1..])
  }

  /** Sleep costs exactly its counter less one move attempts (or all there are), whatever
      other status attempts and turn ends are interleaved. */
  lemma {:induction false} SleepCost(b: BattlerState, rng: Word, hs: seq<Happening>)
    requires b.status == Sleep && b.statusCtr >= 1
    ensures MovesLost(b, rng, hs) == (if Attempts(hs) < b.statusCtr then Attempts(hs) else b.statusCtr - 1)
    decreases |hs|
  {
    hide DrawIntN, ClampHP, Regeneration;
    if hs == [] {
    } else if hs[0] == MoveAttempt && b.statusCtr == 1 {
    } else {
      var next := Befall(b, rng, hs[0]);
      SleepCost(next.0, next.1, hs[1..]);
    }
  }

  /** Sleep set by SetSleep costs at most two attempted moves. */
  lemma SetSleepCostsAtMostTwo(b: BattlerState, rng: Word, hs: seq<Happening>)
    requires b.status == NoStatus
    ensures var r := WithSleep(b, rng);
            r.1.status == Sleep && 1 <= r.1.statusCtr <= 3 && MovesLost(r.1, r.0, hs) <= 2
  {
    hide MovesLost;
    var r := WithSleep(b, rng);
    SleepCost(r.1, r.0, hs);
  }
}
