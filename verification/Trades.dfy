/** Escrowed trades (services/profile/internal/trade.go). */
module Trades {
  import opened Types
  import opened Repo

  datatype TradeStatus = TradeOpen | TradeCommitted | TradeCancelled

  datatype TradeError = TradeNotFound | NotParticipant | TradeClosed | NotLocked | Refused(cause: RepoError)

  datatype TradeState = TradeState(
    initiatorID: string, partnerID: string, state: TradeStatus,
    offers: map<string, seq<string>>, locked: map<string, bool>)
  {
    predicate Party(account: string) {
      account == initiatorID || account == partnerID
    }

    predicate Locked(account: string) {
      account in locked && locked[account]
    }

    function Offer(account: string): seq<string> {
      if account in offers then offers[account] else []
    }
  }

  /** All the trades of a manager, the collection they trade from, and the kind of its store. */
  datatype World = World(store: Store, trades: map<string, TradeState>, creatures: Collection)

  // ----- The operations, on values -----

  function Opened(a: string, b: string): TradeState {
    TradeState(a, b, TradeOpen, map[a := [], b := []], map[a := false, b := false])
  }

  /** Why a trade is not available to an account, if it is not. */
  function Unavailable(w: World, id: string, account: string): Option<TradeError> {
    if id !in w.trades then Some(TradeNotFound)
    else if !w.trades[id].Party(account) then Some(NotParticipant)
    else if w.trades[id].state != TradeOpen then Some(TradeClosed)
    else None
  }

  /** The first offered creature the account does not own. */
  function OfferFault(cs: Collection, account: string, ids: seq<string>): Option<TradeError> {
    if ids == [] then None
    else if ids[0] !in cs then Some(Refused(CreatureNotFound))
    else if cs[ids[0]].ownerID != account then Some(Refused(NotOwner))
    else OfferFault(cs, account, ids[1..])
  }

  function StageOn(w: World, id: string, account: string, ids: seq<string>): (World, Option<TradeError>) {
    var e := Unavailable(w, id, account);
    if e.Some? then (w, e)
    else
      var f := OfferFault(w.creatures, account, ids);
      if f.Some? then (w, f)
      else
        var t := w.trades[id];
        (w.(trades := w.trades[id := t.(offers := t.offers[account := ids],
                                       locked := t.locked[t.initiatorID := false][t.partnerID := false])]), None)
  }

  function LockOn(w: World, id: string, account: string): (World, Option<TradeError>) {
    var e := Unavailable(w, id, account);
    if e.Some? then (w, e)
    else
      var t := w.trades[id];
      (w.(trades := w.trades[id := t.(locked := t.locked[account := true])]), None)
  }

  function Gives(ids: seq<string>, from: string, to: string): (ts: seq<OwnershipTransfer>)
    ensures |ts| == |ids| && forall i :: 0 <= i < |ts| ==> ts[i] == OwnershipTransfer(ids[i], from, to)
  {
    seq(|ids|, i requires 0 <= i < |ids| => OwnershipTransfer(ids[i], from, to))
  }

  /** The whole swap: the initiator's offer one way, then the partner's the other. */
  function Swap(t: TradeState): seq<OwnershipTransfer> {
    Gives(t.Offer(t.initiatorID), t.initiatorID, t.partnerID) + Gives(t.Offer(t.partnerID), t.partnerID, t.initiatorID)
  }

  function CommitOn(w: World, id: string): (World, Option<TradeError>) {
    if id !in w.trades then (w, Some(TradeNotFound))
    else
      var t := w.trades[id];
      if t.state != TradeOpen then (w, Some(TradeClosed))
      else if !t.Locked(t.initiatorID) || !t.Locked(t.partnerID) then (w, Some(NotLocked))
      else
        var r := Batch(w.store, w.creatures, Swap(t));
        if r.1.Some? then (w, Some(Refused(r.1.value)))
        else (World(w.store, w.trades[id := t.(state := TradeCommitted)], r.0), None)
  }

  function CancelOn(w: World, id: string, account: string): (World, Option<TradeError>) {
    if id !in w.trades then (w, Some(TradeNotFound))
    else
      var t := w.trades[id];
      if !t.Party(account) then (w, Some(NotParticipant))
      else if t.state == TradeCommitted then (w, Some(TradeClosed))
      else (w.(trades := w.trades[id := t.(state := TradeCancelled)]), None)
  }

  // ----- The manager and its trades as objects -----

  class Trade {
    const id: string
    const initiatorID: string
    const partnerID: string
    var state: TradeStatus
    var offers: map<string, seq<string>>
    var locked: map<string, bool>

    constructor (id: string, a: string, b: string)
      ensures this.id == id && State() == Opened(a, b)
    {
      this.id, initiatorID, partnerID, state := id, a, b, TradeOpen;
      offers := map[a := [], b := []];
      locked := map[a := false, b := false];
    }

    function State(): TradeState
      reads this
    {
      TradeState(initiatorID, partnerID, state, offers, locked)
    }

    method Close(s: TradeStatus)
      modifies this`state
      ensures State() == old(State()).(state := s)
    {
      state := s;
    }

    /** A new offer clears both locks. */
    method SetOffer(account: string, ids: seq<string>)
      modifies this
      ensures State() == old(State()).(offers := old(offers)[account := ids],
                                       locked := old(locked)[initiatorID := false][partnerID := false])
    {
      offers := offers[account := ids];
      locked := locked[initiatorID := false];
      locked := locked[partnerID := false];
    }
  }

  class TradeManager {
    const repo: Repository
    var trades: map<string, Trade>

    constructor (repo: Repository)
      ensures Valid() && this.repo == repo && trades == map[]
    {
      this.repo, trades := repo, map[];
    }

    /** No two ids share a trade object. */
    ghost predicate Valid()
      reads this
    {
      forall x, y :: x in trades && y in trades && x != y ==> trades[x] != trades[y]
    }

    ghost function States(): map<string, TradeState>
      reads this, trades.Values
    {
      map id | id in trades :: trades[id].State()
    }

    ghost function Now(): World
      reads this, repo.Self(), trades.Values
    {
      World(repo.Store(), States(), repo.Creatures())
    }

    /** The trade a caller may act on, while it is open. */
    method GetOpen(id: string, account: string) returns (t: Trade?, err: Option<TradeError>)
      ensures err == Unavailable(Now(), id, account)
      ensures err.None? ==> t != null && id in trades && t == trades[id]
    {
      if id !in trades {
        return null, Some(TradeNotFound);
      }
      t := trades[id];
      if account != t.initiatorID && account != t.partnerID {
        return null, Some(NotParticipant);
      }
      if t.state != TradeOpen {
        return null, Some(TradeClosed);
      }
      err := None;
    }

    /** newID is whatever the id source yields; an id already in use is overwritten. */
    method Open(newID: string, a: string, b: string) returns (t: Trade)
      requires Valid()
      modifies this`trades
      ensures Valid() && Now() == old(Now()).(trades := old(Now()).trades[newID := Opened(a, b)])
      ensures fresh(t) && newID in trades && trades[newID] == t
    {
      t := new Trade(newID, a, b);
      ghost var before := States();
      trades := trades[newID := t];
      assert States() == before[newID := t.State()];
    }

    /** You can only offer what you own. */
    method CheckOwned(account: string, ids: seq<string>) returns (fault: Option<TradeError>)
      ensures fault == OfferFault(repo.Creatures(), account, ids)
    {
      for i := 0 to |ids|
        invariant OfferFault(repo.Creatures(), account, ids[i..]) == OfferFault(repo.Creatures(), account, ids)
      {
        var oc := repo.GetCreature(ids[i]);
        assert ids[i..][1..] == ids[i + 1..];
        if oc == None {
          return Some(Refused(CreatureNotFound));
        }
        if oc.value.ownerID != account {
          return Some(Refused(NotOwner));
        }
      }
      fault := None;
    }

    method Stage(id: string, account: string, ids: seq<string>) returns (err: Option<TradeError>)
      requires Valid()
      modifies trades.Values
      ensures Valid() && (Now(), err) == StageOn(old(Now()), id, account, ids)
    {
      hide OfferFault;
      var t, e := GetOpen(id, account);
      if e.Some? {
        return e;
      }
      var fault := CheckOwned(account, ids);
      if fault.Some? {
        return fault;
      }
      t.SetOffer(account, ids);
      err := None;
      OnlyOneChanged(id);
    }

    method Lock(id: string, account: string) returns (err: Option<TradeError>)
      requires Valid()
      modifies trades.Values
      ensures Valid() && (Now(), err) == LockOn(old(Now()), id, account)
    {
      var t, e := GetOpen(id, account);
      if e.Some? {
        return e;
      }
      t.locked := t.locked[account := true];
      err := None;
      OnlyOneChanged(id);
    }

    method Commit(id: string) returns (err: Option<TradeError>)
      requires Valid()
      modifies trades.Values, repo.Self()
      ensures Valid() && (Now(), err) == CommitOn(old(Now()), id)
    {
      hide Batch, Swap;
      if id !in trades {
        return Some(TradeNotFound);
      }
      var t := trades[id];
      if t.state != TradeOpen {
        return Some(TradeClosed);
      }
      if !(t.State().Locked(t.initiatorID) && t.State().Locked(t.partnerID)) {
        return Some(NotLocked);
      }
      var transfers := BuildSwap(t);
      var e := repo.TransferBatch(transfers);
      assert trades == old(trades) && States() == old(States());
      if e.Some? {
        return Some(Refused(e.value));
      }
      t.Close(TradeCommitted);
      err := None;
      OnlyOneChanged(id);
    }

    method Cancel(id: string, account: string) returns (err: Option<TradeError>)
      requires Valid()
      modifies trades.Values
      ensures Valid() && (Now(), err) == CancelOn(old(Now()), id, account)
    {
      if id !in trades {
        return Some(TradeNotFound);
      }
      var t := trades[id];
      if account != t.initiatorID && account != t.partnerID {
        return Some(NotParticipant);
      }
      if t.state == TradeCommitted {
        return Some(TradeClosed);
      }
      t.Close(TradeCancelled);
      err := None;
      OnlyOneChanged(id);
    }

    /** The frame of an operation on one trade. */
    twostate lemma OnlyOneChanged(id: string)
      requires Valid() && trades == old(trades) && id in trades
      requires forall k :: k in trades && k != id ==> trades[k].State() == old(trades[k].State())
      ensures States() == old(States())[id := trades[id].State()]
    {
    }
  }

  method BuildSwap(t: Trade) returns (ts: seq<OwnershipTransfer>)
    ensures ts == Swap(t.State())
  {
    var mine, theirs := t.State().Offer(t.initiatorID), t.State().Offer(t.partnerID);
    ts := [];
    for i := 0 to |mine|
      invariant ts == Gives(mine, t.initiatorID, t.partnerID)[..i]
    {
      ts := ts + [OwnershipTransfer(mine[i], t.initiatorID, t.partnerID)];
    }
    ghost var half := ts;
    for i := 0 to |theirs|
      invariant ts == half + Gives(theirs, t.partnerID, t.initiatorID)[..i]
    {
      ts := ts + [OwnershipTransfer(theirs[i], t.partnerID, t.initiatorID)];
    }
  }
}
