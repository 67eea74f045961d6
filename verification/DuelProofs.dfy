/** What every step of one attack keeps: the clauses of its battlers, fainting, the HP ledger of the
    event log, and the number of random draws. */
module DuelProofs {
  import opened Types
  import opened Creatures
  import opened Words
  import opened Rng
  import opened Battlers
  import opened Turns

  // ----- Battlers -----

  /** The longest cooldown a slot can have. */
  function CooldownCap(reg: Registry, inst: Instance, slot: int): int {
    match SkillFor(reg, inst, slot)
    case None => 0
    case Some(skill) => if skill.cooldown > 0 then skill.cooldown else 0
  }

  ghost predicate CooldownsOk(reg: Registry, inst: Instance, cs: Cooldowns) {
    forall s :: 0 <= s < 4 ==> 0 <= cs[s] <= CooldownCap(reg, inst, s)
  }

  /** What a battler may be asked to satisfy, clause by clause; nothing in the engine ever sets
      a flinch. */
  datatype Clause = HpInRange | StagesInRange | CooldownsWithinSkills | StatusPossible | NoFlinch

  ghost predicate Holds(c: Clause, reg: Registry, b: BattlerState) {
    match c
    case HpInRange => 0 <= b.curHP <= b.maxHP
    case StagesInRange => StagesOk(b.stages)
    case CooldownsWithinSkills => CooldownsOk(reg, b.inst, b.cooldowns)
    case StatusPossible => !ImmuneTo(b.species, b.status)
    case NoFlinch => !b.flinched
  }

  /** The same creature: what no turn may change. */
  predicate Kin(b: BattlerState, c: BattlerState) {
    b.species == c.species && b.inst == c.inst && b.maxHP == c.maxHP && b.stats == c.stats
  }

  /** The same creature later on: each clause that held still holds, whether or not the others
      did. */
  ghost predicate Kept(reg: Registry, b: BattlerState, b': BattlerState) {
    Kin(b, b') && forall c :: Holds(c, reg, b) ==> Holds(c, reg, b')
  }

  // ----- The HP ledger -----

  /** The effect one event reports on the HP of a side's active battler. */
  function Credit(hp: int, maxHP: int, side: nat, e: Event): int {
    if e.side != side then hp
    else match e.kind
      case DamageDealt => ClampHP(hp - e.amount, maxHP)
      case Recoil => ClampHP(hp - e.amount, maxHP)
      case Healed => ClampHP(hp + e.amount, maxHP)
      case ResidualDamage => ClampHP(hp + e.amount, maxHP)
      case ResidualHeal => ClampHP(hp + e.amount, maxHP)
      case _ => hp
  }

  /** The HP that the events alone account for. */
  function HpAfter(hp: int, maxHP: int, side: nat, log: seq<Event>): int {
    if log == [] then hp
    else Credit(HpAfter(hp, maxHP, side, log[..|log| - 1]), maxHP, side, log[|log| - 1])
  }

  lemma HpAfterSay(hp: int, maxHP: int, side: nat, log: seq<Event>, e: Event)
    ensures HpAfter(hp, maxHP, side, log + [e]) == Credit(HpAfter(hp, maxHP, side, log), maxHP, side, e)
  {
    assert (log + [e])[..|log|] == log;
  }

  /** The battler's HP is in range, and the log accounts for it; h gives the HP of side 0 and
      side 1 at the start of the log. */
  ghost predicate Ledger(reg: Registry, b: BattlerState, side: nat, h: (int, int), log: seq<Event>) {
    Holds(HpInRange, reg, b) && HpAfter(Pick(h, side), b.maxHP, side, log) == b.curHP
  }

  function Pick(h: (int, int), side: nat): int {
    if side == 0 then h.0 else h.1
  }

  // ----- Random draws -----

  /** r' is reached from r by at most n draws. */
  ghost predicate Within(r: Word, r': Word, n: nat) {
    exists k: nat :: k <= n && r' == Jump(r, k)
  }

  lemma NoDraw(r: Word, n: nat)
    ensures Within(r, r, n)
  {
    assert Jump(r, 0) == r;
  }

  lemma OneDraw(r: Word, n: nat)
    requires n >= 1
    ensures Within(r, Advance(r), n)
  {
    assert Jump(r, 1) == Advance(Jump(r, 0));
  }

  lemma DrawsAdd(a: Word, b: Word, c: Word, m: nat, n: nat)
    requires Within(a, b, m) && Within(b, c, n)
    ensures Within(a, c, m + n)
  {
    var i: nat :| i <= m && b == Jump(a, i);
    var j: nat :| j <= n && c == Jump(b, j);
    JumpAdds(a, i, j);
  }

  lemma ChanceDraws(r: Word, pct: int, n: nat)
    requires n >= 1
    ensures Within(r, DrawChance(r, pct).0, n)
  {
    hide Output, Advance, Within;
    NoDraw(r, n);
    OneDraw(r, n);
  }

  // ----- Steps -----

  /** d' follows from d: the same two creatures, each with what held of it before, no revival
      of the defender, at most n draws, and the HP ledger of each carried over. */
  ghost predicate StepOk(reg: Registry, d: Duel, d': Duel, side: nat, h: (int, int), n: nat)
    requires side < 2
  {
    && Kept(reg, d.att, d'.att) && Kept(reg, d.def, d'.def)
    && (d.def.Fainted() ==> d'.def.Fainted())
    && Within(d.rng, d'.rng, n)
    && (Ledger(reg, d.att, side, h, d.log) ==> Ledger(reg, d'.att, side, h, d'.log))
    && (Ledger(reg, d.def, 1 - side, h, d.log) ==> Ledger(reg, d'.def, 1 - side, h, d'.log))
  }

  lemma StepsCompose(reg: Registry, d: Duel, d1: Duel, d2: Duel, side: nat, h: (int, int), m: nat, n: nat)
    requires side < 2 && StepOk(reg, d, d1, side, h, m) && StepOk(reg, d1, d2, side, h, n)
    ensures StepOk(reg, d, d2, side, h, m + n)
  {
    hide Within, Holds, Ledger;
    DrawsAdd(d.rng, d1.rng, d2.rng, m, n);
  }

  lemma StepLoosens(reg: Registry, d: Duel, d': Duel, side: nat, h: (int, int), m: nat, n: nat)
    requires side < 2 && StepOk(reg, d, d', side, h, m) && m <= n
    ensures StepOk(reg, d, d', side, h, n)
  {
    hide Holds, Ledger;
  }

  predicate Silent(kind: EventKind) {
    !kind.DamageDealt? && !kind.Recoil? && !kind.Healed? && !kind.ResidualDamage? && !kind.ResidualHeal?
  }

  lemma SilentSay(hp: int, maxHP: int, side: nat, log: seq<Event>, e: Event)
    requires Silent(e.kind)
    ensures HpAfter(hp, maxHP, side, log + [e]) == HpAfter(hp, maxHP, side, log)
  {
    HpAfterSay(hp, maxHP, side, log, e);
  }

  /** Adding an event that says nothing about HP keeps everything. */
  lemma SaySilent(reg: Registry, d: Duel, kind: EventKind, side: nat, at: nat, h: (int, int), n: nat)
    requires side < 2 && Silent(kind)
    ensures StepOk(reg, d, d.Say(kind, at, 0), side, h, n)
  {
    hide HpAfter, Holds, Within;
    NoDraw(d.rng, n);
    SilentSay(Pick(h, side), d.att.maxHP, side, d.log, Event(kind, at, 0));
    SilentSay(Pick(h, 1 - side), d.def.maxHP, 1 - side, d.log, Event(kind, at, 0));
  }

  /** A change of generator, and of attributes other than HP, keeps everything as long as the
      battlers do. */
  lemma QuietChange(reg: Registry, d: Duel, d': Duel, side: nat, h: (int, int), n: nat)
    requires side < 2 && d'.log == d.log && Within(d.rng, d'.rng, n)
    requires Kept(reg, d.att, d'.att) && Kept(reg, d.def, d'.def)
    requires d'.att.curHP == d.att.curHP && d'.def.curHP == d.def.curHP
    ensures StepOk(reg, d, d', side, h, n)
  {
    hide HpAfter, Holds, Within;
  }
}
