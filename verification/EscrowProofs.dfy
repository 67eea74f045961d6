/** Exactly when each trade operation succeeds, with which error it fails otherwise, and what it
    changes. */
module EscrowProofs {
  import opened Types
  import opened Repo
  import opened RepoProofs
  import opened Trades
  import opened TradeProofs

  // ----- Single transfers and batches -----

  /** A transfer succeeds exactly when the creature is there and is the giver's; then its owner is
      all that changes.  A failed one changes nothing, and memory tells why. */
  lemma TransferIff(store: Store, cs: Collection, t: OwnershipTransfer)
    ensures var r, c := Single(store, cs, t), t.creatureID;
            && (r.1 == None <==> c in cs && cs[c].ownerID == t.fromID)
            && (r.1 == None ==> r.0 == cs[c := OwnedCreature(cs[c].instance, t.toID)])
            && (r.1 != None ==> r.0 == cs && r.1 == Some(if store.InMemory? && c !in cs then CreatureNotFound else NotOwner))
  {
  }

  /** A batch that memory refuses is refused for the first transfer at fault: its creature is not
      there, or is not the giver's. */
  lemma FirstFault(cs: Collection, ts: seq<OwnershipTransfer>, k: nat)
    requires k < |ts| && !(ts[k].creatureID in cs && cs[ts[k].creatureID].ownerID == ts[k].fromID)
    requires forall i :: 0 <= i < k ==> ts[i].creatureID in cs && cs[ts[i].creatureID].ownerID == ts[i].fromID
    ensures MemBatch(cs, ts) == (cs, Some(if ts[k].creatureID in cs then NotOwner else CreatureNotFound))
    decreases k
  {
    if k > 0 {
      FirstFault(cs, ts[1..], k - 1);
    }
  }

  /** An accepted batch gives each creature to the receiver of the last transfer that names it, and
      leaves the others and everything else alone. */
  lemma {:induction false} AppliedOwners(cs: Collection, ts: seq<OwnershipTransfer>, c: string)
    requires c in cs
    ensures ApplyAll(cs, ts)[c] == OwnedCreature(cs[c].instance, OwnerAfter(cs[c].ownerID, ts, c, |ts|))
    decreases |ts|
  {
    if ts != [] {
      AppliedOwners(Moved(cs, ts[0]), ts[1..], c);
      OwnerAfterShifts(cs[c].ownerID, ts, c, |ts|);
    }
  }

  // ----- Opening -----

  /** A new trade is open, between its two parties, with nothing offered and nothing locked. */
  lemma OpenLaw(w: World, id: string, a: string, b: string)
    ensures var r := Step(w, Open(id, a, b));
            && r.1 == None && id in r.0.trades
            && r.0 == w.(trades := w.trades[id := r.0.trades[id]])
            && var t := r.0.trades[id];
               && t.initiatorID == a && t.partnerID == b && t.state == TradeOpen
               && t.offers.Keys == {a, b} && t.locked.Keys == {a, b}
               && (forall x :: x in {a, b} ==> t.offers[x] == [] && !t.locked[x])
  {
  }

  // ----- Staging, locking, cancelling, committing -----

  /** Why an account may not touch a trade: there is none, it is no party to it, or it is closed,
      in that order. */
  predicate Barred(w: World, id: string, account: string, e: TradeError) {
    if id !in w.trades then e == TradeNotFound
    else if account !in {w.trades[id].initiatorID, w.trades[id].partnerID} then e == NotParticipant
    else w.trades[id].state != TradeOpen && e == TradeClosed
  }

  predicate MayTouch(w: World, id: string, account: string) {
    id in w.trades && account in {w.trades[id].initiatorID, w.trades[id].partnerID} && w.trades[id].state == TradeOpen
  }

  /** Creature ids[k] is the first of ids that the account does not own. */
  predicate FirstForeign(cs: Collection, account: string, ids: seq<string>, k: nat) {
    && k < |ids| && !(ids[k] in cs && cs[ids[k]].ownerID == account)
    && forall i :: 0 <= i < k ==> ids[i] in cs && cs[ids[i]].ownerID == account
  }

  lemma {:induction false} OwnsThem(cs: Collection, account: string, ids: seq<string>)
    requires forall i :: 0 <= i < |ids| ==> ids[i] in cs && cs[ids[i]].ownerID == account
    ensures OfferFault(cs, account, ids) == None
  {
    if ids != [] {
      OwnsThem(cs, account, ids[1..]);
    }
  }

  lemma {:induction false} OwnsNot(cs: Collection, account: string, ids: seq<string>, k: nat)
    requires FirstForeign(cs, account, ids, k)
    ensures OfferFault(cs, account, ids) == Some(Refused(if ids[k] in cs then NotOwner else CreatureNotFound))
    decreases k
  {
    if k > 0 {
      OwnsNot(cs, account, ids[1..], k - 1);
    }
  }

  lemma {:induction false} FirstForeignExists(cs: Collection, account: string, ids: seq<string>) returns (k: nat)
    requires !forall i :: 0 <= i < |ids| ==> ids[i] in cs && cs[ids[i]].ownerID == account
    ensures FirstForeign(cs, account, ids, k)
    decreases |ids|
  {
    if ids[0] in cs && cs[ids[0]].ownerID == account {
      k := FirstForeignExists(cs, account, ids[1..]);
      k := k + 1;
      assert forall i :: 0 < i <= k ==> ids[i] == ids[1..][i - 1];
    } else {
      k := 0;
    }
  }

  /** Staging succeeds exactly when the account may touch the trade and owns every creature it
      offers; then that account's offer is the new one and both locks are off, and nothing else
      changes. */
  lemma StageIff(w: World, id: string, account: string, ids: seq<string>)
    ensures var r := StageOn(w, id, account, ids);
            && (r.1 == None <==> MayTouch(w, id, account) && forall i :: 0 <= i < |ids| ==> ids[i] in w.creatures && w.creatures[ids[i]].ownerID == account)
            && (r.1 == None ==>
                  && id in r.0.trades && r.0 == w.(trades := w.trades[id := r.0.trades[id]])
                  && var t, t' := w.trades[id], r.0.trades[id];
                     && t' == t.(offers := t.offers[account := ids], locked := t'.locked)
                     && !t'.Locked(t.initiatorID) && !t'.Locked(t.partnerID)
                     && forall x :: x !in {t.initiatorID, t.partnerID} ==> t'.Locked(x) == t.Locked(x))
            && (r.1 != None ==> r.0 == w)
  {
    hide OfferFault;
    if forall i :: 0 <= i < |ids| ==> ids[i] in w.creatures && w.creatures[ids[i]].ownerID == account {
      OwnsThem(w.creatures, account, ids);
    } else {
      var k := FirstForeignExists(w.creatures, account, ids);
      OwnsNot(w.creatures, account, ids, k);
    }
  }

  /** Staging that fails says why: what bars the account comes first, then the first creature it
      does not own. */
  lemma StageErrors(w: World, id: string, account: string, ids: seq<string>, e: TradeError, k: nat)
    ensures Barred(w, id, account, e) ==> StageOn(w, id, account, ids).1 == Some(e)
    ensures MayTouch(w, id, account) && FirstForeign(w.creatures, account, ids, k) ==>
      StageOn(w, id, account, ids).1 == Some(Refused(if ids[k] in w.creatures then NotOwner else CreatureNotFound))
  {
    hide OfferFault;
    if FirstForeign(w.creatures, account, ids, k) {
      OwnsNot(w.creatures, account, ids, k);
    }
  }

  /** Locking succeeds exactly when the account may touch the trade; then its own lock is on, and
      nothing else changes. */
  lemma LockIff(w: World, id: string, account: string, e: TradeError)
    ensures var r := LockOn(w, id, account);
            && (r.1 == None <==> MayTouch(w, id, account))
            && (r.1 == None ==>
                  && id in r.0.trades && r.0 == w.(trades := w.trades[id := r.0.trades[id]])
                  && var t, t' := w.trades[id], r.0.trades[id];
                     && t' == t.(locked := t'.locked) && t'.Locked(account)
                     && forall x :: x != account ==> t'.Locked(x) == t.Locked(x))
            && (r.1 != None ==> r.0 == w)
            && (Barred(w, id, account, e) ==> r.1 == Some(e))
  {
  }

  /** Cancelling succeeds exactly for a party of a trade that is not committed, and closes it. */
  lemma CancelIff(w: World, id: string, account: string)
    ensures var r := CancelOn(w, id, account);
            if id !in w.trades then r == (w, Some(TradeNotFound))
            else if account !in {w.trades[id].initiatorID, w.trades[id].partnerID} then r == (w, Some(NotParticipant))
            else if w.trades[id].state == TradeCommitted then r == (w, Some(TradeClosed))
            else r == (w.(trades := w.trades[id := w.trades[id].(state := TradeCancelled)]), None)
  {
  }

  /** The transfers of a swap: each creature of the initiator's offer to the partner, in order, and
      then each of the partner's to the initiator. */
  lemma SwapLaw(t: TradeState)
    ensures var mine, theirs, ts := t.Offer(t.initiatorID), t.Offer(t.partnerID), Swap(t);
            && |ts| == |mine| + |theirs|
            && (forall i :: 0 <= i < |mine| ==> ts[i] == OwnershipTransfer(mine[i], t.initiatorID, t.partnerID))
            && (forall i :: 0 <= i < |theirs| ==> ts[|mine| + i] == OwnershipTransfer(theirs[i], t.partnerID, t.initiatorID))
  {
    hide Gives;
  }

  /** A commit succeeds exactly on an open trade that both parties have locked and whose swap the
      store accepts; then the swap is made and the trade committed.  It fails for the first of
      these that does not hold, and then changes nothing. */
  lemma CommitIff(w: World, id: string)
    ensures var r := CommitOn(w, id);
            if id !in w.trades then r == (w, Some(TradeNotFound))
            else
              var t := w.trades[id];
              var both := t.Locked(t.initiatorID) && t.Locked(t.partnerID);
              var swap := Batch(w.store, w.creatures, Swap(t));
              if t.state != TradeOpen then r == (w, Some(TradeClosed))
              else if !both then r == (w, Some(NotLocked))
              else if swap.1.Some? then r == (w, Some(Refused(swap.1.value)))
              else r == (World(w.store, w.trades[id := t.(state := TradeCommitted)], swap.0), None)
  {
    hide Batch, Swap;
  }
}
