/** Creature ownership: the in-memory repository, and the transactional batch of the Postgres
    one (services/profile/internal/repo_memory.go, services/profile/internal/repo_postgres.go). */
module Repo {
  import opened Types
  import opened Creatures

  datatype OwnedCreature = OwnedCreature(instance: Instance, ownerID: string)

  type Collection = map<string, OwnedCreature>

  datatype OwnershipTransfer = OwnershipTransfer(creatureID: string, fromID: string, toID: string)

  datatype RepoError = CreatureNotFound | NotOwner

  /** The guard of one transfer: the creature is there and is owned by the expected account. */
  function Guard(cs: Collection, t: OwnershipTransfer): Option<RepoError> {
    if t.creatureID !in cs then Some(CreatureNotFound)
    else if cs[t.creatureID].ownerID != t.fromID then Some(NotOwner)
    else None
  }

  function Moved(cs: Collection, t: OwnershipTransfer): (r: Collection)
    ensures r.Keys == cs.Keys
  {
    if t.creatureID in cs then cs[t.creatureID := cs[t.creatureID].(ownerID := t.toID)] else cs
  }

  /** The first guard that fails, all against the same state. */
  function CheckAll(cs: Collection, ts: seq<OwnershipTransfer>): Option<RepoError> {
    if ts == [] then None
    else if Guard(cs, ts[0]).Some? then Guard(cs, ts[0])
    else CheckAll(cs, ts[1..])
  }

  function ApplyAll(cs: Collection, ts: seq<OwnershipTransfer>): (r: Collection)
    ensures r.Keys == cs.Keys
    decreases |ts|
  {
    if ts == [] then cs else ApplyAll(Moved(cs, ts[0]), ts[1..])
  }

  /** Check everything first, then apply. */
  function MemBatch(cs: Collection, ts: seq<OwnershipTransfer>): (Collection, Option<RepoError>) {
    var e := CheckAll(cs, ts);
    (if e.None? then ApplyAll(cs, ts) else cs, e)
  }

  /** One guarded update after another. */
  predicate GuardsPass(cs: Collection, ts: seq<OwnershipTransfer>)
    decreases |ts|
  {
    ts == [] || (Guard(cs, ts[0]).None? && GuardsPass(Moved(cs, ts[0]), ts[1..]))
  }

  /** A transaction of guarded updates: all of them, or a rollback. */
  function PgBatch(cs: Collection, ts: seq<OwnershipTransfer>): (Collection, Option<RepoError>) {
    if GuardsPass(cs, ts) then (ApplyAll(cs, ts), None) else (cs, Some(NotOwner))
  }

  /** The two implementations of the repository. */
  datatype Store = InMemory | Postgres

  /** A refused batch leaves every owner in place, in either store. */
  function Batch(store: Store, cs: Collection, ts: seq<OwnershipTransfer>): (r: (Collection, Option<RepoError>))
    ensures r.1.Some? ==> r.0 == cs
  {
    match store
    case InMemory => MemBatch(cs, ts)
    case Postgres => PgBatch(cs, ts)
  }

  /** One transfer; the guarded update of Postgres does not tell a missing creature from one
      owned by somebody else. */
  function Single(store: Store, cs: Collection, t: OwnershipTransfer): (Collection, Option<RepoError>) {
    if Guard(cs, t).None? then (Moved(cs, t), None)
    else (cs, if store.Postgres? then Some(NotOwner) else Guard(cs, t))
  }

  class MemRepo {
    var creatures: Collection

    constructor (creatures: Collection)
      ensures this.creatures == creatures
    {
      this.creatures := creatures;
    }

    method GetCreature(id: string) returns (oc: Option<OwnedCreature>)
      ensures oc == if id in creatures then Some(creatures[id]) else None
    {
      if id !in creatures {
        return None;
      }
      oc := Some(creatures[id]);
    }

    method TransferOwnership(creatureID: string, fromID: string, toID: string) returns (err: Option<RepoError>)
      modifies this
      ensures (creatures, err) == Single(InMemory, old(creatures), OwnershipTransfer(creatureID, fromID, toID))
    {
      if creatureID !in creatures {
        return Some(CreatureNotFound);
      }
      var oc := creatures[creatureID];
      if oc.ownerID != fromID {
        return Some(NotOwner);
      }
      creatures := creatures[creatureID := oc.(ownerID := toID)];
      err := None;
    }

    /** Validates every transfer against the current state, and only then applies any. */
    method TransferBatch(ts: seq<OwnershipTransfer>) returns (err: Option<RepoError>)
      modifies this
      ensures (creatures, err) == MemBatch(old(creatures), ts)
    {
      for i := 0 to |ts|
        invariant creatures == old(creatures)
        invariant CheckAll(creatures, ts[i..]) == CheckAll(creatures, ts)
        invariant forall k :: 0 <= k < i ==> ts[k].creatureID in creatures
      {
        var t := ts[i];
        assert ts[i..][1..] == ts[i + 1..];
        if t.creatureID !in creatures {
          return Some(CreatureNotFound);
        }
        if creatures[t.creatureID].ownerID != t.fromID {
          return Some(NotOwner);
        }
      }
      for i := 0 to |ts|
        invariant creatures.Keys == old(creatures).Keys
        invariant ApplyAll(creatures, ts[i..]) == ApplyAll(old(creatures), ts)
      {
        assert ts[i..][1..] == ts[i + 1..];
        var oc := creatures[ts[i].creatureID];
        creatures := creatures[ts[i].creatureID := oc.(ownerID := ts[i].toID)];
      }
      err := None;
    }
  }

  /** The rows of creature_instances, under transactions. */
  class PgRepo {
    var rows: Collection

    constructor (rows: Collection)
      ensures this.rows == rows
    {
      this.rows := rows;
    }

    method GetCreature(id: string) returns (oc: Option<OwnedCreature>)
      ensures oc == if id in rows then Some(rows[id]) else None
    {
      if id !in rows {
        return None;
      }
      oc := Some(rows[id]);
    }

    /** UPDATE ... WHERE id = creature AND owner_id = from: the number of rows affected. */
    method GuardedUpdate(t: OwnershipTransfer) returns (affected: nat)
      modifies this
      ensures affected == if Guard(old(rows), t).None? then 1 else 0
      ensures rows == if affected == 1 then Moved(old(rows), t) else old(rows)
    {
      if t.creatureID in rows && rows[t.creatureID].ownerID == t.fromID {
        rows := rows[t.creatureID := rows[t.creatureID].(ownerID := t.toID)];
        return 1;
      }
      return 0;
    }

    method TransferOwnership(creatureID: string, fromID: string, toID: string) returns (err: Option<RepoError>)
      modifies this
      ensures (rows, err) == Single(Postgres, old(rows), OwnershipTransfer(creatureID, fromID, toID))
    {
      var affected := GuardedUpdate(OwnershipTransfer(creatureID, fromID, toID));
      err := if affected == 0 then Some(NotOwner) else None;
    }

    method TransferBatch(ts: seq<OwnershipTransfer>) returns (err: Option<RepoError>)
      modifies this
      ensures (rows, err) == PgBatch(old(rows), ts)
    {
      var before := rows;
      for i := 0 to |ts|
        invariant ApplyAll(rows, ts[i..]) == ApplyAll(old(rows), ts)
        invariant GuardsPass(rows, ts[i..]) == GuardsPass(old(rows), ts)
      {
        assert ts[i..][1..] == ts[i + 1..];
        var affected := GuardedUpdate(ts[i]);
        if affected != 1 {
          rows := before;
          return Some(NotOwner);
        }
      }
      err := None;
    }
  }

  /** A repository of either kind, as the use cases hold it. */
  datatype Repository = OverMemory(mem: MemRepo) | OverPostgres(pg: PgRepo)
  {
    function Store(): Store {
      if OverMemory? then InMemory else Postgres
    }

    function Self(): object {
      if OverMemory? then mem else pg
    }

    function Creatures(): Collection
      reads Self()
    {
      if OverMemory? then mem.creatures else pg.rows
    }

    method GetCreature(id: string) returns (oc: Option<OwnedCreature>)
      ensures oc == if id in Creatures() then Some(Creatures()[id]) else None
    {
      match this
      case OverMemory(mem) => oc := mem.GetCreature(id);
      case OverPostgres(pg) => oc := pg.GetCreature(id);
    }

    method TransferBatch(ts: seq<OwnershipTransfer>) returns (err: Option<RepoError>)
      modifies Self()
      ensures (Creatures(), err) == Batch(Store(), old(Creatures()), ts)
    {
      match this
      case OverMemory(mem) => err := mem.TransferBatch(ts);
      case OverPostgres(pg) => err := pg.TransferBatch(ts);
    }
  }
}
