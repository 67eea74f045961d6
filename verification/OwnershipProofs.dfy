/** Main results about ownership: what a commit does on either store, when the two stores part
    ways, and the chain of owners over whole histories. */
module OwnershipProofs {
  import opened Types
  import opened Repo
  import opened RepoProofs
  import opened Trades
  import opened TradeProofs

  // ----- What a commit does to ownership -----

  function Owned(cs: Collection, account: string): set<string> {
    set c | c in cs && cs[c].ownerID == account
  }

  lemma {:induction false} GivesEffect(cs: Collection, ids: seq<string>, from: string, to: string, c: string)
    requires c in cs
    ensures ApplyAll(cs, Gives(ids, from, to))[c] == if c in ids then cs[c].(ownerID := to) else cs[c]
    decreases |ids|
  {
    if ids == [] {
    } else {
      var t := OwnershipTransfer(ids[0], from, to);
      assert Gives(ids, from, to)[1..] == Gives(ids[1..], from, to);
      GivesEffect(Moved(cs, t), ids[1..], from, to, c);
    }
  }

  lemma {:induction false} ApplyAppend(cs: Collection, x: seq<OwnershipTransfer>, y: seq<OwnershipTransfer>)
    ensures ApplyAll(cs, x + y) == ApplyAll(ApplyAll(cs, x), y)
    ensures GuardsPass(cs, x + y) <==> GuardsPass(cs, x) && GuardsPass(ApplyAll(cs, x), y)
    decreases |x|
  {
    hide Guard, Moved;
    if x == [] {
      assert x + y == y;
    } else {
      assert (x + y)[1..] == x[1..] + y;
      ApplyAppend(Moved(cs, x[0]), x[1..], y);
    }
  }

  lemma SwapEffect(cs: Collection, t: TradeState, c: string)
    requires c in cs
    ensures var o := ApplyAll(cs, Swap(t))[c];
            o == if c in t.Offer(t.partnerID) then cs[c].(ownerID := t.initiatorID)
                 else if c in t.Offer(t.initiatorID) then cs[c].(ownerID := t.partnerID) else cs[c]
  {
    hide ApplyAll, Gives;
    var x, y := Gives(t.Offer(t.initiatorID), t.initiatorID, t.partnerID), Gives(t.Offer(t.partnerID), t.partnerID, t.initiatorID);
    ApplyAppend(cs, x, y);
    GivesEffect(cs, t.Offer(t.initiatorID), t.initiatorID, t.partnerID, c);
    GivesEffect(ApplyAll(cs, x), t.Offer(t.partnerID), t.partnerID, t.initiatorID, c);
  }

  function Listed(ids: seq<string>): set<string> {
    set c | c in ids
  }

  predicate Disjoint(t: TradeState) {
    forall c :: c in t.Offer(t.initiatorID) ==> c !in t.Offer(t.partnerID)
  }

  predicate NoDuplicates(ids: seq<string>) {
    forall i, j :: 0 <= i < j < |ids| ==> ids[i] != ids[j]
  }

  predicate DuplicateFree(t: TradeState) {
    NoDuplicates(t.Offer(t.initiatorID)) && NoDuplicates(t.Offer(t.partnerID))
  }

  predicate AllOwned(cs: Collection, ids: seq<string>, owner: string) {
    forall c :: c in ids ==> c in cs && cs[c].ownerID == owner
  }

  /** The initiator owns its whole offer, and the partner all of its own that it is not about
      to receive. */
  predicate Deliverable(cs: Collection, t: TradeState) {
    && AllOwned(cs, t.Offer(t.initiatorID), t.initiatorID)
    && forall c :: c in t.Offer(t.partnerID) ==> c in cs && (c in t.Offer(t.initiatorID) || cs[c].ownerID == t.partnerID)
  }

  /** Memory accepts a swap exactly when each party owns its whole offer. */
  lemma MemorySwapsIff(cs: Collection, t: TradeState)
    ensures MemBatch(cs, Swap(t)).1.None? <==>
      AllOwned(cs, t.Offer(t.initiatorID), t.initiatorID) && AllOwned(cs, t.Offer(t.partnerID), t.partnerID)
  {
    CheckAllMeans(cs, Swap(t));
    var mine, theirs := t.Offer(t.initiatorID), t.Offer(t.partnerID);
    if CheckAll(cs, Swap(t)).None? {
      forall c | c in mine ensures c in cs && cs[c].ownerID == t.initiatorID {
        var i :| 0 <= i < |mine| && mine[i] == c;
        assert Swap(t)[i] == OwnershipTransfer(c, t.initiatorID, t.partnerID);
      }
      forall c | c in theirs ensures c in cs && cs[c].ownerID == t.partnerID {
        var i :| 0 <= i < |theirs| && theirs[i] == c;
        assert Swap(t)[|mine| + i] == OwnershipTransfer(c, t.partnerID, t.initiatorID);
      }
    }
  }

  lemma {:induction false} GivesPassIff(cs: Collection, ids: seq<string>, from: string, to: string)
    requires from != to
    ensures GuardsPass(cs, Gives(ids, from, to)) <==> NoDuplicates(ids) && AllOwned(cs, ids, from)
    decreases |ids|
  {
    if ids != [] {
      var t, rest := OwnershipTransfer(ids[0], from, to), ids[1..];
      assert Gives(ids, from, to)[1..] == Gives(rest, from, to);
      GivesPassIff(Moved(cs, t), rest, from, to);
      HeadIsNew(ids);
      assert ids == [ids[0]] + rest;
    }
  }

  lemma HeadIsNew(ids: seq<string>)
    requires ids != []
    ensures NoDuplicates(ids) <==> ids[0] !in ids[1..] && NoDuplicates(ids[1..])
  {
    var rest := ids[1..];
    if ids[0] !in rest && NoDuplicates(rest) {
      forall i, j | 0 <= i < j < |ids| ensures ids[i] != ids[j] {
        assert ids[j] == rest[j - 1] && (i > 0 ==> ids[i] == rest[i - 1]);
      }
    }
  }

  /** Postgres accepts a swap between two accounts exactly when it can be delivered and neither
      offer lists a creature twice. */
  lemma PostgresSwapsIff(cs: Collection, t: TradeState)
    requires t.initiatorID != t.partnerID
    ensures PgBatch(cs, Swap(t)).1.None? <==> Deliverable(cs, t) && DuplicateFree(t)
  {
    hide Gives, GuardsPass, ApplyAll, NoDuplicates;
    var a, b := t.initiatorID, t.partnerID;
    var mine, theirs := t.Offer(a), t.Offer(b);
    var cs1 := ApplyAll(cs, Gives(mine, a, b));
    ApplyAppend(cs, Gives(mine, a, b), Gives(theirs, b, a));
    GivesPassIff(cs, mine, a, b);
    GivesPassIff(cs1, theirs, b, a);
    forall c | c in cs ensures cs1[c] == if c in mine then cs[c].(ownerID := b) else cs[c] {
      GivesEffect(cs, mine, a, b, c);
    }
  }

  /** A creature that changes hands within one account stays where it is. */
  lemma {:induction false} SelfMovesPass(cs: Collection, ts: seq<OwnershipTransfer>)
    requires forall k :: 0 <= k < |ts| ==> ts[k].fromID == ts[k].toID
    ensures GuardsPass(cs, ts) <==> CheckAll(cs, ts).None?
  {
    if ts != [] && Guard(cs, ts[0]).None? {
      assert Moved(cs, ts[0]) == cs;
      SelfMovesPass(cs, ts[1..]);
    }
  }

  /** The two stores part ways on a swap exactly when it is between two accounts, can be
      delivered, and either lists a creature twice in one offer (memory alone accepts) or has
      one in both offers (Postgres alone accepts), but not both. */
  lemma SwapAgreesIff(cs: Collection, t: TradeState)
    ensures BatchesAgree(cs, Swap(t)) <==>
      t.initiatorID == t.partnerID || !Deliverable(cs, t) || (DuplicateFree(t) <==> Disjoint(t))
  {
    hide Swap, CheckAll, GuardsPass, ApplyAll, DuplicateFree;
    if t.initiatorID == t.partnerID {
      SwapLength(t);
      forall k | 0 <= k < |Swap(t)| ensures Swap(t)[k].fromID == Swap(t)[k].toID {
        SwapEntries(t, k);
      }
      SelfMovesPass(cs, Swap(t));
    } else {
      MemorySwapsIff(cs, t);
      PostgresSwapsIff(cs, t);
    }
  }

  lemma SwapLength(t: TradeState)
    ensures |Swap(t)| == |t.Offer(t.initiatorID)| + |t.Offer(t.partnerID)|
  {
  }

  lemma SwapEntries(t: TradeState, k: nat)
    requires k < |Swap(t)|
    ensures var mine, theirs := t.Offer(t.initiatorID), t.Offer(t.partnerID);
            Swap(t)[k] == if k < |mine| then OwnershipTransfer(mine[k], t.initiatorID, t.partnerID)
                          else OwnershipTransfer(theirs[k - |mine|], t.partnerID, t.initiatorID)
  {
  }

  /** The same for a commit both parties have locked: which commits depend on the store. */
  lemma CommitsAgreeIff(w: World, id: string)
    requires id in w.trades && w.trades[id].state == TradeOpen
    requires w.trades[id].Locked(w.trades[id].initiatorID) && w.trades[id].Locked(w.trades[id].partnerID)
    ensures var t, m, p := w.trades[id], CommitOn(w.(store := InMemory), id), CommitOn(w.(store := Postgres), id);
            (m.0.creatures == p.0.creatures && m.0.trades == p.0.trades && (m.1.None? <==> p.1.None?)) <==>
              t.initiatorID == t.partnerID || !Deliverable(w.creatures, t) || (DuplicateFree(t) <==> Disjoint(t))
  {
    hide Swap, MemBatch, PgBatch, Deliverable, DuplicateFree, Disjoint;
    SwapAgreesIff(w.creatures, w.trades[id]);
  }

  lemma CommittedSwap(w: World, id: string)
    requires CommitOn(w, id).1.None? && id in w.trades && w.trades[id].initiatorID != w.trades[id].partnerID
    ensures Deliverable(w.creatures, w.trades[id]) && (w.store.InMemory? ==> Disjoint(w.trades[id]))
  {
    hide CommitOn, Swap, CheckAll, GuardsPass, ApplyAll, DuplicateFree;
    CommitNeedsBothLocks(w, id);
    MemorySwapsIff(w.creatures, w.trades[id]);
    PostgresSwapsIff(w.creatures, w.trades[id]);
  }

  /** A commit between two accounts, on either store: the initiator gives up its offer and then
      receives the partner's, the partner the other way round.  No creature is lost, copied or
      altered, and nobody else is touched.  The order matters exactly when a creature is in both
      offers, which only Postgres lets through: it ends where it began. */
  lemma CommitExchanges(w: World, id: string)
    requires CommitOn(w, id).1.None? && id in w.trades && w.trades[id].initiatorID != w.trades[id].partnerID
    ensures var t, cs, cs' := w.trades[id], w.creatures, CommitOn(w, id).0.creatures;
            var a, b := t.initiatorID, t.partnerID;
            var mine, theirs := Listed(t.Offer(a)), Listed(t.Offer(b));
            && Owned(cs', a) == Owned(cs, a) - mine + theirs
            && Owned(cs', b) == Owned(cs, b) + mine - theirs
            && (Owned(cs', b) == Owned(cs, b) - theirs + mine <==> Disjoint(t))
            && (w.store.InMemory? ==> Disjoint(t))
            && (forall x :: x != a && x != b ==> Owned(cs', x) == Owned(cs, x))
            && cs'.Keys == cs.Keys && forall c :: c in cs ==> cs'[c].instance == cs[c].instance
  {
    hide CommitOn, ApplyAll, Batch, Swap;
    CommitNeedsBothLocks(w, id);
    CommittedSwap(w, id);
    var t, cs := w.trades[id], w.creatures;
    var cs' := ApplyAll(cs, Swap(t));
    forall c | c in cs
      ensures cs'[c] == if c in t.Offer(t.partnerID) then cs[c].(ownerID := t.initiatorID)
                        else if c in t.Offer(t.initiatorID) then cs[c].(ownerID := t.partnerID) else cs[c]
    {
      SwapEffect(cs, t, c);
    }
    if !Disjoint(t) {
      var c :| c in t.Offer(t.initiatorID) && c in t.Offer(t.partnerID);
      assert c !in Owned(cs', t.partnerID);
    }
  }

  // ----- The ownership log of a whole history -----

  /** The ownership changes an operation makes. */
  function Entries(w: World, op: Op): seq<OwnershipTransfer> {
    if Step(w, op).1.Some? then []
    else match op
      case Commit(id) => if id in w.trades then Swap(w.trades[id]) else []
      case Transfer(t) => [t]
      case _ => []
  }

  function Log(w: World, h: seq<Op>): seq<OwnershipTransfer> {
    if h == [] then [] else Log(w, h[..|h| - 1]) + Entries(After(w, h[..|h| - 1]), h[|h| - 1])
  }

  predicate CleanStages(h: seq<Op>) {
    forall k :: 0 <= k < |h| && h[k].Stage? ==> NoDuplicates(h[k].ids)
  }

  /** Every offer on the table is free of duplicates. */
  ghost predicate CleanOffers(w: World) {
    forall id, account :: id in w.trades && account in w.trades[id].offers ==> NoDuplicates(w.trades[id].offers[account])
  }

  lemma StepKeepsClean(w: World, op: Op)
    requires CleanOffers(w) && (op.Stage? ==> NoDuplicates(op.ids))
    ensures CleanOffers(Step(w, op).0)
  {
    hide OfferFault, MemBatch, NoDuplicates;
    assert NoDuplicates([]) by {
      EmptyIsClean();
    }
  }

  lemma EmptyIsClean()
    ensures NoDuplicates([])
  {
  }

  lemma {:induction false} CleanThroughout(w: World, h: seq<Op>)
    requires w.trades == map[] && CleanStages(h)
    ensures CleanOffers(After(w, h))
  {
    hide Step, NoDuplicates;
    if h == [] {
    } else {
      var n := |h| - 1;
      assert forall k :: 0 <= k < n ==> h[..n][k] == h[k];
      CleanThroughout(w, h[..n]);
      StepKeepsClean(After(w, h[..n]), h[n]);
    }
  }

  /** The log of one step replays it as guarded updates. */
  lemma StepReplays(w: World, op: Op)
    requires w.store.Postgres? || CleanOffers(w)
    ensures GuardsPass(w.creatures, Entries(w, op))
    ensures ApplyAll(w.creatures, Entries(w, op)) == Step(w, op).0.creatures
    ensures Step(w, op).0.store == w.store
  {
    hide OfferFault, Swap;
    if Step(w, op).1.None? {
      match op {
        case Commit(id) =>
          CommitNeedsBothLocks(w, id);
          EmptyIsClean();
          CommitPassesGuards(w, id);
        case Transfer(t) =>
          assert [t][1..] == [];
        case _ =>
      }
    }
  }

  /** A successful commit is a run of guarded updates on Postgres always, and in memory exactly
      when no offer lists a creature twice or the parties are one account: otherwise its log has
      an owner give a creature away twice. */
  lemma CommitKeepsChainIff(w: World, id: string)
    requires CommitOn(w, id).1.None? && id in w.trades
    ensures var t := w.trades[id];
            GuardsPass(w.creatures, Swap(t)) <==> w.store.Postgres? || t.initiatorID == t.partnerID || DuplicateFree(t)
  {
    hide CommitOn, GuardsPass, CheckAll, DuplicateFree, Swap, Deliverable, ApplyAll;
    CommitNeedsBothLocks(w, id);
    var t := w.trades[id];
    SwapAgreesIff(w.creatures, t);
    if t.initiatorID != t.partnerID {
      CommittedSwap(w, id);
      PostgresSwapsIff(w.creatures, t);
    }
  }

  lemma CommitPassesGuards(w: World, id: string)
    requires CommitOn(w, id).1.None? && id in w.trades
    requires w.store.Postgres? || DuplicateFree(w.trades[id])
    ensures GuardsPass(w.creatures, Swap(w.trades[id]))
  {
    hide CommitOn, GuardsPass, DuplicateFree, Swap;
    CommitKeepsChainIff(w, id);
  }

  /** Replaying the log of any history as guarded updates, one after another, succeeds at every
      entry and ends in the present ownership. */
  lemma {:induction false} HistoryReplays(w: World, h: seq<Op>)
    requires w.trades == map[] && (w.store.Postgres? || CleanStages(h))
    ensures GuardsPass(w.creatures, Log(w, h))
    ensures ApplyAll(w.creatures, Log(w, h)) == After(w, h).creatures
    ensures After(w, h).store == w.store
    decreases |h|
  {
    hide Step, Entries, CleanOffers, NoDuplicates;
    if h == [] {
    } else {
      var n := |h| - 1;
      assert forall k :: 0 <= k < n ==> h[..n][k] == h[k];
      HistoryReplays(w, h[..n]);
      if w.store.InMemory? {
        CleanThroughout(w, h[..n]);
      }
      StepReplays(After(w, h[..n]), h[n]);
      ApplyAppend(w.creatures, Log(w, h[..n]), Entries(After(w, h[..n]), h[n]));
    }
  }

  /** The entries about c lead from owner to owner without a break, from the first to the last. */
  predicate OwnerChain(first: string, log: seq<OwnershipTransfer>, c: string, last: string) {
    && (forall k :: 0 <= k < |log| && log[k].creatureID == c ==> log[k].fromID == OwnerAfter(first, log, c, k))
    && OwnerAfter(first, log, c, |log|) == last
  }

  lemma {:induction false} GuardsMakeChain(cs: Collection, log: seq<OwnershipTransfer>, c: string)
    requires GuardsPass(cs, log) && c in cs
    ensures OwnerChain(cs[c].ownerID, log, c, ApplyAll(cs, log)[c].ownerID)
    decreases |log|
  {
    if log == [] {
    } else {
      var cs1 := Moved(cs, log[0]);
      GuardsMakeChain(cs1, log[1..], c);
      OwnerAfterShifts(cs[c].ownerID, log, c, |log|);
      forall k | 0 <= k < |log| && log[k].creatureID == c ensures log[k].fromID == OwnerAfter(cs[c].ownerID, log, c, k) {
        if k > 0 {
          assert log[1..][k - 1] == log[k];
          OwnerAfterShifts(cs[c].ownerID, log, c, k);
        }
      }
    }
  }

  /** Across any history of any number of trades sharing creatures, each creature's transfers
      form an unbroken owner-to-owner chain from its first owner to its present one, and no
      creature appears, vanishes or changes: on Postgres always, in memory if no offer is staged
      with a creature listed twice. */
  lemma OwnershipChains(w: World, h: seq<Op>, c: string)
    requires w.trades == map[] && (w.store.Postgres? || CleanStages(h)) && c in w.creatures
    ensures After(w, h).creatures.Keys == w.creatures.Keys
    ensures OwnerChain(w.creatures[c].ownerID, Log(w, h), c, After(w, h).creatures[c].ownerID)
  {
    hide After, Log, OwnerChain, GuardsPass, ApplyAll;
    HistoryReplays(w, h);
    GuardsMakeChain(w.creatures, Log(w, h), c);
  }

  // ----- A history on which the stores part ways -----

  const CROSS_LISTING: seq<Op> := [
    Open("t", "a", "b"), Stage("t", "b", ["c"]), Transfer(OwnershipTransfer("c", "b", "a")),
    Stage("t", "a", ["c"]), Lock("t", "a"), Lock("t", "b")]

  function Between(mine: seq<string>, theirs: seq<string>, a: bool, b: bool): TradeState {
    TradeState("a", "b", TradeOpen, map["a" := mine, "b" := theirs], map["a" := a, "b" := b])
  }

  /** The world after the first n steps of the history above. */
  function CrossWorld(store: Store, oc: OwnedCreature, n: nat): World {
    World(store,
      if n == 0 then map[]
      else if n == 1 then map["t" := Between([], [], false, false)]
      else if n <= 3 then map["t" := Between([], ["c"], false, false)]
      else map["t" := Between(["c"], ["c"], n > 4, n > 5)],
      map["c" := oc.(ownerID := if n <= 2 then "b" else "a")])
  }

  lemma CrossStages(w: World, account: string)
    requires "t" in w.trades && w.trades["t"].Party(account) && w.trades["t"].state == TradeOpen
    requires "c" in w.creatures && w.creatures["c"].ownerID == account
    ensures var t := w.trades["t"];
            StageOn(w, "t", account, ["c"]).0 == w.(trades := w.trades["t" := t.(offers := t.offers[account := ["c"]],
              locked := t.locked[t.initiatorID := false][t.partnerID := false])])
  {
    assert ["c"][1..] == [];
    assert OfferFault(w.creatures, account, ["c"]) == OfferFault(w.creatures, account, []);
  }

  lemma CrossStep(store: Store, oc: OwnedCreature, n: nat)
    requires n < 6
    ensures Step(CrossWorld(store, oc, n), CROSS_LISTING[n]).0 == CrossWorld(store, oc, n + 1)
  {
    if n == 1 || n == 3 {
      CrossStagesStep(store, oc, n);
    } else if n >= 4 {
      CrossLocksStep(store, oc, n);
    }
  }

  lemma CrossStagesStep(store: Store, oc: OwnedCreature, n: nat)
    requires n == 1 || n == 3
    ensures Step(CrossWorld(store, oc, n), CROSS_LISTING[n]).0 == CrossWorld(store, oc, n + 1)
  {
    hide StageOn;
    var w, w' := CrossWorld(store, oc, n), CrossWorld(store, oc, n + 1);
    CrossStages(w, if n == 1 then "b" else "a");
    var t := Step(w, CROSS_LISTING[n]).0.trades["t"];
    assert t.offers == w'.trades["t"].offers && t.locked == w'.trades["t"].locked;
  }

  lemma CrossLocksStep(store: Store, oc: OwnedCreature, n: nat)
    requires 4 <= n < 6
    ensures Step(CrossWorld(store, oc, n), CROSS_LISTING[n]).0 == CrossWorld(store, oc, n + 1)
  {
    var w, w' := CrossWorld(store, oc, n), CrossWorld(store, oc, n + 1);
    var t := Step(w, CROSS_LISTING[n]).0.trades["t"];
    assert t.locked == w'.trades["t"].locked;
  }

  lemma {:induction false} CrossListed(store: Store, oc: OwnedCreature, n: nat)
    requires n <= 6
    ensures After(CrossWorld(store, oc, 0), CROSS_LISTING[..n]) == CrossWorld(store, oc, n)
  {
    hide Step, CrossWorld;
    if n > 0 {
      CrossListed(store, oc, n - 1);
      CrossStep(store, oc, n - 1);
      AfterSnoc(CrossWorld(store, oc, 0), CROSS_LISTING, n - 1);
    }
  }

  /** Staging checks ownership when an offer is made, so one creature can come to be in both
      offers.  After this history, free of duplicates, memory refuses the commit and Postgres
      makes it, which returns the creature to its owner. */
  lemma CrossListing(oc: OwnedCreature)
    ensures var cs := map["c" := oc.(ownerID := "b")];
            var m, p := After(World(InMemory, map[], cs), CROSS_LISTING), After(World(Postgres, map[], cs), CROSS_LISTING);
            && CleanStages(CROSS_LISTING)
            && CommitOn(m, "t").1.Some?
            && CommitOn(p, "t").1.None? && CommitOn(p, "t").0.creatures == map["c" := oc.(ownerID := "a")]
  {
    hide After, Swap, MemBatch, PgBatch;
    assert CROSS_LISTING[..6] == CROSS_LISTING;
    CrossListed(InMemory, oc, 6);
    CrossListed(Postgres, oc, 6);
    var t, cs := Between(["c"], ["c"], true, true), map["c" := oc.(ownerID := "a")];
    MemorySwapsIff(cs, t);
    PostgresSwapsIff(cs, t);
    assert "c" in t.Offer("b");
    SwapEffect(cs, t, "c");
    assert PgBatch(cs, Swap(t)).0 == ApplyAll(cs, Swap(t)) by {
      PostgresApplies(cs, Swap(t));
    }
    assert ApplyAll(cs, Swap(t)) == cs;
  }

  lemma PostgresApplies(cs: Collection, ts: seq<OwnershipTransfer>)
    requires PgBatch(cs, ts).1.None?
    ensures PgBatch(cs, ts).0 == ApplyAll(cs, ts)
  {
  }
}
