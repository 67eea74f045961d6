/** A skill's stat changes are a Go map, iterated in an arbitrary order; the order does not
    matter (services/battle/internal/engine/battle.go:273-276). */
module StatOrder {
  import opened Types
  import opened Battlers
  import opened Turns

  /** The changes made one at a time, in the given order of keys. */
  function InOrder(st: Stages, changes: map<string, Int8>, order: seq<string>): Stages
    requires forall k :: k in order ==> k in changes
  {
    if order == [] then st
    else
      var last := order[|order| - 1];
      ApplyStatStage(InOrder(st, changes, order[..|order| - 1]), last, changes[last])
  }

  predicate Distinct(order: seq<string>) {
    forall i, j :: 0 <= i < j < |order| ==> order[i] != order[j]
  }

  function Restrict(changes: map<string, Int8>, keys: seq<string>): map<string, Int8> {
    map k | k in changes && k in keys :: changes[k]
  }

  lemma OneMoreChange(st: Stages, before: map<string, Int8>, after: map<string, Int8>, stat: string, delta: Int8)
    requires stat !in before && after == before[stat := delta]
    ensures StagesAfter(st, after) == ApplyStatStage(StagesAfter(st, before), stat, delta)
  {
    hide Bumped;
    BumpedOnce(st.atk, "attack", before, after, stat, delta);
    BumpedOnce(st.def, "defense", before, after, stat, delta);
    BumpedOnce(st.spa, "sp_attack", before, after, stat, delta);
    BumpedOnce(st.spd, "sp_defense", before, after, stat, delta);
    BumpedOnce(st.spe, "speed", before, after, stat, delta);
    BumpedOnce(st.acc, "accuracy", before, after, stat, delta);
    BumpedOnce(st.eva, "evasion", before, after, stat, delta);
  }

  lemma BumpedOnce(cur: Int8, name: string, before: map<string, Int8>, after: map<string, Int8>, stat: string, delta: Int8)
    requires stat !in before && after == before[stat := delta]
    ensures Bumped(cur, name, after) == if name == stat then ClampStage(cur, delta) else Bumped(cur, name, before)
    ensures name == stat ==> Bumped(cur, name, before) == cur
  {
    hide ClampStage;
  }

  lemma {:induction false} PartialOrder(st: Stages, changes: map<string, Int8>, order: seq<string>)
    requires Distinct(order) && forall k :: k in order ==> k in changes
    ensures InOrder(st, changes, order) == StagesAfter(st, Restrict(changes, order))
  {
    hide StagesAfter, ApplyStatStage;
    if order == [] {
      assert StagesAfter(st, Restrict(changes, order)) == st by {
        NoChange(st);
        assert Restrict(changes, order) == map[];
      }
    } else {
      var rest, last := order[..|order| - 1], order[|order| - 1];
      PartialOrder(st, changes, rest);
      assert last !in rest;
      assert Restrict(changes, order) == Restrict(changes, rest)[last := changes[last]];
      OneMoreChange(st, Restrict(changes, rest), Restrict(changes, order), last, changes[last]);
    }
  }

  lemma NoKeys(st: Stages, changes: map<string, Int8>)
    ensures Distinct([]) && InOrder(st, changes, []) == st
  {
  }

  lemma OneMoreKey(st: Stages, changes: map<string, Int8>, order: seq<string>, stat: string)
    requires (forall k :: k in order ==> k in changes) && stat in changes
    requires Distinct(order) && stat !in order
    ensures Distinct(order + [stat])
    ensures InOrder(st, changes, order + [stat]) == ApplyStatStage(InOrder(st, changes, order), stat, changes[stat])
  {
    hide ApplyStatStage;
    assert (order + [stat])[..|order|] == order;
  }

  lemma NoChange(st: Stages)
    ensures StagesAfter(st, map[]) == st
  {
  }

  /** Whatever order the map is iterated in, the resulting stages are the same. */
  lemma OrderIrrelevant(st: Stages, changes: map<string, Int8>, order: seq<string>)
    requires Distinct(order) && forall k :: k in order <==> k in changes
    ensures InOrder(st, changes, order) == StagesAfter(st, changes)
  {
    hide StagesAfter;
    PartialOrder(st, changes, order);
    assert Restrict(changes, order) == changes;
  }
}
