/** Main results about trading, over every interleaving of operations on any number of trades
    that share creatures. */
module TradeProofs {
  import opened Types
  import opened Repo
  import opened Trades

  // ----- Histories -----

  /** The trade operations, and ownership transfers made outside trades. */
  datatype Op =
    | Open(id: string, a: string, b: string)
    | Stage(id: string, account: string, ids: seq<string>)
    | Lock(id: string, account: string)
    | Commit(id: string)
    | Cancel(id: string, account: string)
    | Transfer(t: OwnershipTransfer)

  function Step(w: World, op: Op): (World, Option<TradeError>) {
    match op
    case Open(id, a, b) => (w.(trades := w.trades[id := Opened(a, b)]), None)
    case Stage(id, account, ids) => StageOn(w, id, account, ids)
    case Lock(id, account) => LockOn(w, id, account)
    case Commit(id) => CommitOn(w, id)
    case Cancel(id, account) => CancelOn(w, id, account)
    case Transfer(t) =>
      var r := Single(w.store, w.creatures, t);
      (w.(creatures := r.0), if r.1.None? then None else Some(Refused(r.1.value)))
  }

  function After(w: World, h: seq<Op>): World {
    if h == [] then w else Step(After(w, h[..|h| - 1]), h[|h| - 1]).0
  }

  lemma AfterSnoc(w: World, h: seq<Op>, n: nat)
    requires n < |h|
    ensures After(w, h[..n + 1]) == Step(After(w, h[..n]), h[n]).0
  {
    assert h[..n + 1][..n] == h[..n];
  }

  // ----- A lock is an agreement to the current offers -----

  /** The account agreed to the trade's present offers at step k, by a lock that took effect, and
      they have not changed since. */
  ghost predicate AgreedAt(w: World, h: seq<Op>, id: string, account: string, k: nat) {
    && k < |h| && h[k] == Lock(id, account) && Step(After(w, h[..k]), h[k]).1.None? && id in After(w, h).trades
    && forall m :: k < m <= |h| ==>
         id in After(w, h[..m]).trades && After(w, h[..m]).trades[id].offers == After(w, h).trades[id].offers
  }

  lemma StepOnLock(w: World, op: Op, id: string, account: string)
    requires var w' := Step(w, op).0; id in w'.trades && w'.trades[id].Party(account) && w'.trades[id].Locked(account)
    ensures (op == Lock(id, account) && Step(w, op).1.None?)
            || (id in w.trades && w.trades[id].Party(account) && w.trades[id].Locked(account)
                && Step(w, op).0.trades[id].offers == w.trades[id].offers)
  {
    hide OfferFault, Batch;
  }

  lemma ExtendAgreement(w: World, h: seq<Op>, id: string, account: string, k: nat)
    requires h != []
    requires AgreedAt(w, h[..|h| - 1], id, account, k)
    requires id in After(w, h).trades && After(w, h).trades[id].offers == After(w, h[..|h| - 1]).trades[id].offers
    ensures AgreedAt(w, h, id, account, k)
  {
    hide Step;
    var n := |h| - 1;
    assert h[..n][..k] == h[..k];
    forall m | k < m <= |h|
      ensures id in After(w, h[..m]).trades && After(w, h[..m]).trades[id].offers == After(w, h).trades[id].offers
    {
      if m == |h| {
        assert h[..m] == h;
      } else {
        assert h[..n][..m] == h[..m];
      }
    }
  }

  /** A set lock means both offers are exactly what they were when that party locked. */
  lemma {:induction false} LockMeansAgreement(w: World, h: seq<Op>, id: string, account: string) returns (k: nat)
    requires w.trades == map[]
    requires id in After(w, h).trades && After(w, h).trades[id].Party(account) && After(w, h).trades[id].Locked(account)
    ensures AgreedAt(w, h, id, account, k)
    decreases |h|
  {
    hide Step;
    assert h != [];
    var n := |h| - 1;
    StepOnLock(After(w, h[..n]), h[n], id, account);
    if h[n] == Lock(id, account) && Step(After(w, h[..n]), h[n]).1.None? {
      k := n;
      assert h[..n + 1] == h;
    } else {
      k := LockMeansAgreement(w, h[..n], id, account);
      ExtendAgreement(w, h, id, account, k);
    }
  }

  lemma CommitNeedsBothLocks(w: World, id: string)
    requires CommitOn(w, id).1.None?
    ensures id in w.trades
    ensures var t := w.trades[id];
            t.state == TradeOpen && t.Locked(t.initiatorID) && t.Locked(t.partnerID)
            && Batch(w.store, w.creatures, Swap(t)).1.None?
            && CommitOn(w, id).0 == World(w.store, w.trades[id := t.(state := TradeCommitted)], ApplyAll(w.creatures, Swap(t)))
  {
    hide CheckAll, GuardsPass, ApplyAll, Swap;
  }

  /** Every successful commit swaps precisely what both parties agreed to: each of them locked
      at some earlier step, and the swap is made of the offers as they stood ever since. */
  lemma CommitSwapsWhatWasAgreed(w: World, h: seq<Op>, id: string) returns (k: nat, l: nat)
    requires w.trades == map[] && CommitOn(After(w, h), id).1.None?
    ensures id in After(w, h).trades
    ensures var t := After(w, h).trades[id];
            AgreedAt(w, h, id, t.initiatorID, k) && AgreedAt(w, h, id, t.partnerID, l)
            && CommitOn(After(w, h), id).0.creatures == ApplyAll(After(w, h).creatures, Swap(t))
  {
    hide After, CommitOn, AgreedAt, ApplyAll, Swap;
    CommitNeedsBothLocks(After(w, h), id);
    var t := After(w, h).trades[id];
    k := LockMeansAgreement(w, h, id, t.initiatorID);
    l := LockMeansAgreement(w, h, id, t.partnerID);
  }

  // ----- Terminal states, single swaps, harmless failures -----

  /** A refused operation changes nothing at all. */
  lemma RefusedChangesNothing(w: World, op: Op)
    ensures Step(w, op).1.Some? ==> Step(w, op).0 == w
  {
    hide OfferFault, Batch;
  }

  lemma TerminalStep(w: World, op: Op, id: string)
    requires id in w.trades && w.trades[id].state != TradeOpen
    requires op.Open? ==> op.id != id
    ensures var w' := Step(w, op).0; id in w'.trades && w'.trades[id] == w.trades[id]
    ensures op == Commit(id) ==> Step(w, op).1 == Some(TradeClosed)
  {
    hide OfferFault, Batch;
  }

  /** No trade is opened over an id already in use. */
  ghost predicate FreshIDs(w: World, h: seq<Op>) {
    forall k :: 0 <= k < |h| && h[k].Open? ==> h[k].id !in After(w, h[..k]).trades
  }

  /** A committed or cancelled trade never changes again. */
  lemma {:induction false} TerminalAbsorbs(w: World, h: seq<Op>, id: string, m: nat)
    requires FreshIDs(w, h) && m <= |h|
    requires id in After(w, h[..m]).trades && After(w, h[..m]).trades[id].state != TradeOpen
    ensures id in After(w, h).trades && After(w, h).trades[id] == After(w, h[..m]).trades[id]
    decreases |h|
  {
    hide Step;
    if m == |h| {
      assert h[..m] == h;
    } else {
      var n := |h| - 1;
      var g := h[..n];
      assert forall k :: 0 <= k <= n ==> g[..k] == h[..k];
      TerminalAbsorbs(w, g, id, m);
      assert h[..n] == g;
      TerminalStep(After(w, g), h[n], id);
    }
  }

  /** Each trade swaps at most once: after one successful commit every other fails as closed. */
  lemma CommitsOnce(w: World, h: seq<Op>, id: string, m: nat)
    requires FreshIDs(w, h) && m < |h| && h[m] == Commit(id) && CommitOn(After(w, h[..m]), id).1.None?
    ensures CommitOn(After(w, h), id).1 == Some(TradeClosed)
  {
    hide Step, Batch;
    AfterSnoc(w, h, m);
    assert Step(After(w, h[..m]), h[m]) == CommitOn(After(w, h[..m]), id) by {
      StepCommits(After(w, h[..m]), id);
    }
    TerminalAbsorbs(w, h, id, m + 1);
  }

  lemma StepCommits(w: World, id: string)
    ensures Step(w, Commit(id)) == CommitOn(w, id)
  {
    hide CommitOn;
  }
}
