/** The in-memory and the transactional transfer batch compared: what each accepts, and exactly
    when they agree. */
module RepoProofs {
  import opened Types
  import opened Repo

  // ----- What each batch accepts -----

  /** Every transfer comes from the creature's owner as things stand before the batch. */
  predicate FromOwners(cs: Collection, ts: seq<OwnershipTransfer>) {
    forall k :: 0 <= k < |ts| ==> ts[k].creatureID in cs && ts[k].fromID == cs[ts[k].creatureID].ownerID
  }

  /** The owner of c once the first n entries of the log have been made. */
  function OwnerAfter(owner: string, log: seq<OwnershipTransfer>, c: string, n: nat): string
    requires n <= |log|
  {
    if n == 0 then owner else if log[n - 1].creatureID == c then log[n - 1].toID else OwnerAfter(owner, log, c, n - 1)
  }

  /** Every transfer comes from the creature's owner as things stand when its turn comes. */
  predicate FromOwnersInTurn(cs: Collection, ts: seq<OwnershipTransfer>) {
    forall k :: 0 <= k < |ts| ==>
      ts[k].creatureID in cs && ts[k].fromID == OwnerAfter(cs[ts[k].creatureID].ownerID, ts, ts[k].creatureID, k)
  }

  lemma {:induction false} OwnerAfterShifts(owner: string, log: seq<OwnershipTransfer>, c: string, n: nat)
    requires 0 < n <= |log|
    ensures OwnerAfter(owner, log, c, n)
            == OwnerAfter(if log[0].creatureID == c then log[0].toID else owner, log[1..], c, n - 1)
  {
    if n == 1 {
    } else {
      OwnerAfterShifts(owner, log, c, n - 1);
      assert log[1..][n - 2] == log[n - 1];
    }
  }

  lemma {:induction false} CheckAllMeans(cs: Collection, ts: seq<OwnershipTransfer>)
    ensures CheckAll(cs, ts).None? <==> forall i :: 0 <= i < |ts| ==> Guard(cs, ts[i]).None?
  {
    hide Guard;
    if ts == [] {
    } else {
      CheckAllMeans(cs, ts[1..]);
      if forall i :: 0 <= i < |ts| ==> Guard(cs, ts[i]).None? {
        assert forall i :: 0 <= i < |ts[1..]| ==> ts[1..][i] == ts[i + 1];
      }
      if CheckAll(cs, ts).None? {
        forall i | 0 <= i < |ts| ensures Guard(cs, ts[i]).None? {
          assert i > 0 ==> ts[i] == ts[1..][i - 1];
        }
      }
    }
  }

  lemma MemoryAcceptsIff(cs: Collection, ts: seq<OwnershipTransfer>)
    ensures MemBatch(cs, ts).1.None? <==> FromOwners(cs, ts)
  {
    CheckAllMeans(cs, ts);
    if FromOwners(cs, ts) {
      assert forall k :: 0 <= k < |ts| ==> Guard(cs, ts[k]).None?;
    } else {
      var k :| 0 <= k < |ts| && !(ts[k].creatureID in cs && ts[k].fromID == cs[ts[k].creatureID].ownerID);
      assert Guard(cs, ts[k]).Some?;
    }
  }

  lemma OwnerInTurn(cs: Collection, ts: seq<OwnershipTransfer>, k: nat)
    requires 0 < k < |ts| && Guard(cs, ts[0]).None? && ts[k].creatureID in cs
    ensures var c := ts[k].creatureID;
            OwnerAfter(cs[c].ownerID, ts, c, k) == OwnerAfter(Moved(cs, ts[0])[c].ownerID, ts[1..], c, k - 1)
  {
    OwnerAfterShifts(cs[ts[k].creatureID].ownerID, ts, ts[k].creatureID, k);
  }

  lemma {:induction false} PostgresAcceptsIff(cs: Collection, ts: seq<OwnershipTransfer>)
    ensures PgBatch(cs, ts).1.None? <==> FromOwnersInTurn(cs, ts)
    decreases |ts|
  {
    hide Moved, OwnerAfter;
    if ts != [] && Guard(cs, ts[0]).None? {
      var cs1, rest := Moved(cs, ts[0]), ts[1..];
      PostgresAcceptsIff(cs1, rest);
      forall k | 0 < k < |ts| && ts[k].creatureID in cs
        ensures ts[k] == rest[k - 1]
        ensures OwnerAfter(cs[ts[k].creatureID].ownerID, ts, ts[k].creatureID, k)
                == OwnerAfter(cs1[rest[k - 1].creatureID].ownerID, rest, rest[k - 1].creatureID, k - 1) {
        OwnerInTurn(cs, ts, k);
      }
      OwnerFirst(cs, ts);
      if FromOwnersInTurn(cs, ts) {
        forall k | 0 <= k < |rest|
          ensures rest[k].creatureID in cs1 && rest[k].fromID == OwnerAfter(cs1[rest[k].creatureID].ownerID, rest, rest[k].creatureID, k) {
          assert rest[k] == ts[k + 1];
        }
      }
      if FromOwnersInTurn(cs1, rest) {
        forall k | 0 <= k < |ts|
          ensures ts[k].creatureID in cs && ts[k].fromID == OwnerAfter(cs[ts[k].creatureID].ownerID, ts, ts[k].creatureID, k) {
          if k > 0 {
            assert ts[k] == rest[k - 1];
          }
        }
      }
    } else if ts != [] && ts[0].creatureID in cs {
      OwnerFirst(cs, ts);
    }
  }

  lemma OwnerFirst(cs: Collection, ts: seq<OwnershipTransfer>)
    requires ts != [] && ts[0].creatureID in cs
    ensures OwnerAfter(cs[ts[0].creatureID].ownerID, ts, ts[0].creatureID, 0) == cs[ts[0].creatureID].ownerID
  {
  }

  /** Both stores answer alike, and leave the same owners. */
  predicate BatchesAgree(cs: Collection, ts: seq<OwnershipTransfer>) {
    MemBatch(cs, ts).0 == PgBatch(cs, ts).0 && (MemBatch(cs, ts).1.None? <==> PgBatch(cs, ts).1.None?)
  }

  /** On any repository and any batch the two agree exactly when its transfers come from the
      present owners either both at the outset and in turn, or neither. */
  lemma BatchesAgreeIff(cs: Collection, ts: seq<OwnershipTransfer>)
    ensures BatchesAgree(cs, ts) <==> (FromOwners(cs, ts) <==> FromOwnersInTurn(cs, ts))
  {
    hide CheckAll, GuardsPass, ApplyAll, FromOwners, FromOwnersInTurn;
    MemoryAcceptsIff(cs, ts);
    PostgresAcceptsIff(cs, ts);
  }

  // ----- Distinct creatures, repeated creatures -----

  predicate DistinctIDs(ts: seq<OwnershipTransfer>) {
    forall i, j :: 0 <= i < j < |ts| ==> ts[i].creatureID != ts[j].creatureID
  }

  lemma {:induction false} OwnerUntouched(owner: string, log: seq<OwnershipTransfer>, c: string, n: nat)
    requires n <= |log| && forall i :: 0 <= i < n ==> log[i].creatureID != c
    ensures OwnerAfter(owner, log, c, n) == owner
  {
    if n > 0 {
      OwnerUntouched(owner, log, c, n - 1);
    }
  }

  /** On every repository and every batch of pairwise distinct creatures the two batches agree,
      on success and on every owner afterwards. */
  lemma DistinctBatchesAgree(cs: Collection, ts: seq<OwnershipTransfer>)
    requires DistinctIDs(ts)
    ensures BatchesAgree(cs, ts)
  {
    hide BatchesAgree, OwnerAfter;
    BatchesAgreeIff(cs, ts);
    forall k | 0 <= k < |ts| && ts[k].creatureID in cs
      ensures OwnerAfter(cs[ts[k].creatureID].ownerID, ts, ts[k].creatureID, k) == cs[ts[k].creatureID].ownerID {
      OwnerUntouched(cs[ts[k].creatureID].ownerID, ts, ts[k].creatureID, k);
    }
  }

  /** A creature listed again later was, until then, only handed back to its owner. */
  predicate RepeatsAreSelfMoves(ts: seq<OwnershipTransfer>) {
    forall i, j :: 0 <= i < j < |ts| && ts[i].creatureID == ts[j].creatureID ==> ts[i].fromID == ts[i].toID
  }

  lemma MovedGuards(cs: Collection, t: OwnershipTransfer, u: OwnershipTransfer)
    requires Guard(cs, t).None? && Guard(cs, u).None?
    ensures Guard(Moved(cs, t), u).None? <==> (t.creatureID == u.creatureID ==> t.toID == t.fromID)
  {
  }

  lemma MovedAway(cs: Collection, t: OwnershipTransfer)
    requires Guard(cs, t).None?
    ensures t.creatureID in Moved(cs, t) && Moved(cs, t)[t.creatureID].ownerID == t.toID
    ensures forall u: OwnershipTransfer :: Guard(cs, u).None? && u.creatureID == t.creatureID ==> u.fromID == t.fromID
  {
  }

  /** On a batch that the in-memory check accepts, the sequential guards pass exactly when every
      repeated creature is only moved to its own owner before its last entry. */
  lemma {:induction false} SequentialAgreesIff(cs: Collection, ts: seq<OwnershipTransfer>)
    requires forall i :: 0 <= i < |ts| ==> Guard(cs, ts[i]).None?
    ensures GuardsPass(cs, ts) <==> RepeatsAreSelfMoves(ts)
    decreases |ts|
  {
    hide Guard, Moved;
    if ts == [] {
    } else {
      var t, rest := ts[0], ts[1..];
      forall k | 0 <= k < |rest| ensures rest[k] == ts[k + 1]
        && (Guard(Moved(cs, t), rest[k]).None? <==> (t.creatureID == rest[k].creatureID ==> t.toID == t.fromID)) {
        MovedGuards(cs, t, ts[k + 1]);
      }
      if forall k :: 0 <= k < |rest| ==> Guard(Moved(cs, t), rest[k]).None? {
        SequentialAgreesIff(Moved(cs, t), rest);
        RepeatsSplit(ts);
      } else {
        var k :| 0 <= k < |rest| && Guard(Moved(cs, t), rest[k]).Some?;
        assert ts[0].creatureID == ts[k + 1].creatureID && ts[0].fromID != ts[0].toID;
        MovedAway(cs, t);
        AwayBlocks(Moved(cs, t), rest, k);
      }
    }
  }

  lemma RepeatsSplit(ts: seq<OwnershipTransfer>)
    requires ts != []
    ensures RepeatsAreSelfMoves(ts) <==>
      RepeatsAreSelfMoves(ts[1..])
      && forall k :: 0 <= k < |ts[1..]| ==> (ts[0].creatureID == ts[1..][k].creatureID ==> ts[0].toID == ts[0].fromID)
  {
    var rest := ts[1..];
    assert forall k :: 0 <= k < |rest| ==> rest[k] == ts[k + 1];
    if RepeatsAreSelfMoves(rest) && forall k :: 0 <= k < |rest| ==> (ts[0].creatureID == rest[k].creatureID ==> ts[0].toID == ts[0].fromID) {
      forall i, j | 0 <= i < j < |ts| && ts[i].creatureID == ts[j].creatureID ensures ts[i].fromID == ts[i].toID {
        assert ts[j] == rest[j - 1];
        if i > 0 {
          assert ts[i] == rest[i - 1];
        }
      }
    }
  }

  /** Once moved away, a creature that should be moved again from its first owner blocks the
      transaction: nothing in between can bring it back. */
  lemma {:induction false} AwayBlocks(cs: Collection, rest: seq<OwnershipTransfer>, k: nat)
    requires k < |rest| && rest[k].creatureID in cs && cs[rest[k].creatureID].ownerID != rest[k].fromID
    requires forall i :: 0 <= i < |rest| && rest[i].creatureID == rest[k].creatureID ==> rest[i].fromID == rest[k].fromID
    ensures !GuardsPass(cs, rest)
    decreases |rest|
  {
    if k > 0 && Guard(cs, rest[0]).None? {
      assert rest[1..][k - 1] == rest[k];
      AwayBlocks(Moved(cs, rest[0]), rest[1..], k - 1);
    }
  }

  /** The two part ways on repeated creatures in either direction: a double listing passes only
      in memory, and a there-and-back passes only in Postgres. */
  lemma RepeatsDisagree(oc: OwnedCreature)
    ensures var cs, out, back := map["c" := oc.(ownerID := "a")], OwnershipTransfer("c", "a", "b"), OwnershipTransfer("c", "b", "a");
            && MemBatch(cs, [out, out]).1.None? && PgBatch(cs, [out, out]).1 == Some(NotOwner)
            && MemBatch(cs, [out, back]).1.Some? && PgBatch(cs, [out, back]).1.None?
  {
    var cs, out, back := map["c" := oc.(ownerID := "a")], OwnershipTransfer("c", "a", "b"), OwnershipTransfer("c", "b", "a");
    var twice, thereAndBack := [out, out], [out, back];
    MemoryAcceptsIff(cs, twice);
    PostgresAcceptsIff(cs, twice);
    assert twice[1].fromID != OwnerAfter("a", twice, "c", 1);
    MemoryAcceptsIff(cs, thereAndBack);
    PostgresAcceptsIff(cs, thereAndBack);
    assert thereAndBack[1].fromID != cs["c"].ownerID;
  }
}
