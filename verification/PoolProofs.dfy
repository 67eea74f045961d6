/** The pairing is as large as can be: no other choice of matches from the pool that respects
    regions, modes and bands makes more of them. */
module PoolProofs {
  import opened Matcher
  import opened MatcherProofs

  // ----- Leaving one ticket out -----

  function Without<T>(g: seq<T>, k: nat): seq<T>
    requires k < |g|
  {
    g[..k] + g[k + 1..]
  }

  /** Where position x of the shorter sequence is in the longer one. */
  function Up(x: nat, k: nat): nat {
    if x < k then x else x + 1
  }

  lemma WithoutAt<T>(g: seq<T>, k: nat)
    requires k < |g|
    ensures |Without(g, k)| == |g| - 1 && forall x :: 0 <= x < |g| - 1 ==> Without(g, k)[x] == g[Up(x, k)]
    ensures multiset(Without(g, k)) == multiset(g) - multiset{g[k]}
  {
    assert g == g[..k] + [g[k]] + g[k + 1..];
  }

  lemma WithoutKeeps(p: Policy, now: int, g: seq<Ticket>, bound: int, k: nat)
    requires Sorted(g) && k < |g|
    ensures Sorted(Without(g, k)) && (Threshold(p, now, g, bound) ==> Threshold(p, now, Without(g, k), bound))
  {
    hide Pairs, Without;
    WithoutAt(g, k);
  }

  function UpPair(e: (nat, nat), k: nat): (nat, nat) {
    (Up(e.0, k), Up(e.1, k))
  }

  function UpAll(ps: set<(nat, nat)>, k: nat): set<(nat, nat)> {
    set e | e in ps :: UpPair(e, k)
  }

  lemma UpSplits(ps: set<(nat, nat)>, k: nat, e: (nat, nat))
    requires e in ps
    ensures UpAll(ps, k) == UpAll(ps - {e}, k) + {UpPair(e, k)} && UpPair(e, k) !in UpAll(ps - {e}, k)
  {
    assert ps == ps - {e} + {e};
  }

  lemma {:induction false} UpKeepsSize(ps: set<(nat, nat)>, k: nat)
    ensures |UpAll(ps, k)| == |ps|
  {
    hide UpAll, UpPair;
    if ps == {} {
      UpOfNone(k);
    } else {
      var e :| e in ps;
      UpKeepsSize(ps - {e}, k);
      UpSplits(ps, k, e);
    }
  }

  lemma UpOfNone(k: nat)
    ensures UpAll({}, k) == {}
  {
  }

  predicate Avoids(ps: set<(nat, nat)>, k: nat) {
    forall e :: e in ps ==> e.0 != k && e.1 != k
  }

  /** A pairing of the shorter sequence is one of the longer that avoids the position left out. */
  lemma Reinsert(p: Policy, now: int, g: seq<Ticket>, k: nat, ps: set<(nat, nat)>)
    requires k < |g| && Pairing(p, now, Without(g, k), 0, ps)
    ensures Pairing(p, now, g, 0, UpAll(ps, k)) && Avoids(UpAll(ps, k), k) && |UpAll(ps, k)| == |ps|
  {
    hide Pairs, Without;
    WithoutAt(g, k);
    UpKeepsSize(ps, k);
    forall e | e in UpAll(ps, k) ensures Allowed(p, now, g, 0, e) {
      var e' :| e' in ps && e == UpPair(e', k);
      assert Allowed(p, now, Without(g, k), 0, e');
    }
    forall e, f | e in UpAll(ps, k) && f in UpAll(ps, k) && e != f ensures Apart(e, f) {
      var e' :| e' in ps && e == UpPair(e', k);
      var f' :| f' in ps && f == UpPair(f', k);
      assert Apart(e', f');
    }
  }

  /** Taking two tickets that may be paired out of a group costs the greedy a match at least. */
  lemma PairCostsAMatch(p: Policy, now: int, g: seq<Ticket>, bound: int, i: nat, j: nat)
    requires Sorted(g) && Threshold(p, now, g, bound) && i < j < |g| && Pairs(p, now, g[i], g[j])
    ensures |Linear(p, now, Without(Without(g, j), i)).0| + 1 <= |Linear(p, now, g).0|
  {
    hide Pairs, Linear, Without, UpAll, Threshold, Sorted;
    var g1 := Without(g, j);
    WithoutAt(g, j);
    WithoutAt(g1, i);
    var g2 := Without(g1, i);
    var ps := GreedyIsAPairing(p, now, g2, 0);
    assert g2[0..] == g2 && g[0..] == g;
    Reinsert(p, now, g1, i, ps);
    Reinsert(p, now, g, j, UpAll(ps, i));
    var qs := UpAll(UpAll(ps, i), j);
    UpAvoids(UpAll(ps, i), i, j);
    forall e | e in qs ensures Apart(e, (i, j)) && Apart((i, j), e) {
    }
    assert (i, j) !in qs;
    AddPair(p, now, g, 0, qs, (i, j));
    GreedyIsBest(p, now, g, bound, 0, qs + {(i, j)});
  }

  lemma UpAvoids(ps: set<(nat, nat)>, i: nat, j: nat)
    requires Avoids(ps, i) && i < j
    ensures Avoids(UpAll(ps, j), i)
  {
  }

  lemma PairsBothWays(p: Policy, now: int, a: Ticket, b: Ticket)
    ensures Pairs(p, now, a, b) <==> Pairs(p, now, b, a)
  {
    hide Band, TimedOut;
  }

  lemma Position(g: seq<Ticket>, t: Ticket) returns (i: nat)
    requires t in multiset(g)
    ensures i < |g| && g[i] == t
  {
    assert t in g;
    i :| i < |g| && g[i] == t;
  }

  lemma TwoPositions(g: seq<Ticket>, a: Ticket, b: Ticket, others: multiset<Ticket>) returns (i: nat, j: nat)
    requires multiset{a, b} + others <= multiset(g)
    ensures i < j < |g| && ((g[i], g[j]) == (a, b) || (g[i], g[j]) == (b, a))
    ensures others <= multiset(Without(Without(g, j), i))
  {
    hide Without;
    assert a in multiset{a, b} + others;
    var x := Position(g, a);
    WithoutHolds(g, x, multiset{b} + others);
    var z := Position(Without(g, x), b);
    WithoutAt(g, x);
    if x <= z {
      i, j := x, z + 1;
      WithoutHolds(g, j, multiset{a} + others);
    } else {
      i, j := z, x;
    }
    WithoutAt(g, j);
    WithoutHolds(Without(g, j), i, others);
  }

  lemma WithoutHolds(g: seq<Ticket>, k: nat, others: multiset<Ticket>)
    requires k < |g| && multiset{g[k]} + others <= multiset(g)
    ensures others <= multiset(Without(g, k))
  {
    hide Without;
    WithoutAt(g, k);
  }

  /** Under a common bound on the gap, no choice of matches from a group has more of them. */
  lemma {:induction false} GroupOptimal(p: Policy, now: int, g: seq<Ticket>, bound: int, alt: seq<Match>)
    requires Sorted(g) && Threshold(p, now, g, bound) && multiset(Players(alt)) <= multiset(g)
    requires forall k :: 0 <= k < |alt| ==> Pairs(p, now, alt[k].a, alt[k].b)
    ensures |alt| <= |Linear(p, now, g).0|
    decreases |alt|
  {
    hide Pairs, Linear, Without, Threshold, Sorted, Players;
    if alt != [] {
      var m, rest := alt[0], alt[1..];
      PlayersCons(m, rest);
      assert alt == [m] + rest;
      assert multiset([m.a, m.b] + Players(rest)) == multiset{m.a, m.b} + multiset(Players(rest));
      var i, j := TwoPositions(g, m.a, m.b, multiset(Players(rest)));
      PairsBothWays(p, now, m.a, m.b);
      PairCostsAMatch(p, now, g, bound, i, j);
      WithoutAt(g, j);
      WithoutKeeps(p, now, g, bound, j);
      WithoutKeeps(p, now, Without(g, j), bound, i);
      GroupOptimal(p, now, Without(Without(g, j), i), bound, rest);
    }
  }

  // ----- The whole pool -----

  /** Nobody twice, nobody across pools, nobody outside the policy. */
  predicate Respects(pool: seq<Ticket>, p: Policy, now: int, alt: seq<Match>) {
    && multiset(Players(alt)) <= multiset(pool)
    && forall k :: 0 <= k < |alt| ==> KeyOf(alt[k].a) == KeyOf(alt[k].b) && Pairs(p, now, alt[k].a, alt[k].b)
  }

  /** Within each key the bands are equal, and nobody has timed out. */
  predicate EvenBands(pool: seq<Ticket>, p: Policy, now: int) {
    && (forall t :: t in pool ==> !TimedOut(p, t, now))
    && forall t, u :: t in pool && u in pool && KeyOf(t) == KeyOf(u) ==> Band(p, t, now) == Band(p, u, now)
  }

  /** The matches of one key, or of all the others. */
  function OfKey(alt: seq<Match>, key: string, own: bool): (r: seq<Match>)
    ensures forall k :: 0 <= k < |r| ==> r[k] in alt && (KeyOf(r[k].a) == key <==> own)
  {
    if alt == [] then []
    else (if (KeyOf(alt[0].a) == key) == own then [alt[0]] else []) + OfKey(alt[1..], key, own)
  }

  lemma {:induction false} OfKeySplits(alt: seq<Match>, key: string)
    ensures |OfKey(alt, key, true)| + |OfKey(alt, key, false)| == |alt|
    ensures multiset(Players(OfKey(alt, key, true))) + multiset(Players(OfKey(alt, key, false))) == multiset(Players(alt))
  {
    hide KeyOf, Players;
    if alt == [] {
      NoPlayers();
    } else {
      var m, own, rest := alt[0], OfKey(alt[1..], key, true), OfKey(alt[1..], key, false);
      OfKeySplits(alt[1..], key);
      PlayersCons(m, alt[1..]);
      assert alt == [m] + alt[1..];
      PlayersCons(m, own);
      PlayersCons(m, rest);
      if KeyOf(m.a) == key {
        assert OfKey(alt, key, true) == [m] + own && OfKey(alt, key, false) == rest;
      } else {
        assert OfKey(alt, key, true) == own && OfKey(alt, key, false) == [m] + rest;
      }
    }
  }

  lemma {:induction false} PlayersShareKey(alt: seq<Match>, key: string, t: Ticket)
    requires forall k :: 0 <= k < |alt| ==> KeyOf(alt[k].a) == KeyOf(alt[k].b) == key
    requires t in Players(alt)
    ensures KeyOf(t) == key
  {
    hide KeyOf;
    if alt != [] && t in Players(alt[1..]) {
      PlayersShareKey(alt[1..], key, t);
    }
  }

  lemma {:induction false} KeyCount(pool: seq<Ticket>, key: string, t: Ticket)
    requires KeyOf(t) == key
    ensures multiset(WithKey(pool, key))[t] == multiset(pool)[t]
  {
    hide KeyOf;
    if pool != [] {
      var n := |pool| - 1;
      KeyCount(pool[..n], key, t);
      assert pool == pool[..n] + [pool[n]];
    }
  }

  /** The matches of one key are drawn from that key's tickets. */
  lemma OfKeyFromGroup(pool: seq<Ticket>, p: Policy, now: int, alt: seq<Match>, key: string)
    requires Respects(pool, p, now, alt)
    ensures multiset(Players(OfKey(alt, key, true))) <= multiset(WithKey(pool, key))
  {
    hide KeyOf, Pairs, WithKey, OfKey, Players;
    OfKeySplits(alt, key);
    var own := OfKey(alt, key, true);
    forall t ensures multiset(Players(own))[t] <= multiset(WithKey(pool, key))[t] {
      if t in multiset(Players(own)) {
        PlayersShareKey(own, key, t);
        KeyCount(pool, key, t);
      }
    }
  }

  lemma GroupThreshold(pool: seq<Ticket>, p: Policy, now: int, key: string, g: seq<Ticket>) returns (bound: int)
    requires EvenBands(pool, p, now) && multiset(g) == multiset(WithKey(pool, key))
    ensures Threshold(p, now, g, bound)
  {
    hide KeyOf, WithKey, Threshold, Band, TimedOut;
    forall i | 0 <= i < |g| ensures g[i] in pool && KeyOf(g[i]) == key {
      assert g[i] in multiset(g);
      KeyedAlike(pool, key, g[i]);
    }
    var band := if g == [] then 0 else Band(p, g[0], now);
    UniformIsThreshold(p, now, g, band);
    bound := if band < NO_PARTNER_GAP then band else NO_PARTNER_GAP - 1;
  }

  lemma {:induction false} GroupsOptimal(pool: seq<Ticket>, p: Policy, now: int, keys: seq<string>, groups: seq<seq<Ticket>>, alt: seq<Match>)
    requires Grouping(pool, keys, groups) && EvenBands(pool, p, now) && Respects(pool, p, now, alt)
    requires forall k :: 0 <= k < |alt| ==> KeyOf(alt[k].a) in keys
    ensures |alt| <= |AllMatches(p, now, groups)|
    decreases |groups|
  {
    hide KeyOf, Pairs, Linear, WithKey, Sorted, Threshold, EvenBands, OfKey, Players;
    if groups == [] {
      if alt != [] {
        SomeKey(alt, keys);
      }
    } else {
      var n := |groups| - 1;
      var own, rest := OfKey(alt, keys[n], true), OfKey(alt, keys[n], false);
      OfKeySplits(alt, keys[n]);
      OfKeyFromGroup(pool, p, now, alt, keys[n]);
      var bound := GroupThreshold(pool, p, now, keys[n], groups[n]);
      GroupOptimal(p, now, groups[n], bound, own);
      GroupsOptimal(pool, p, now, keys[..n], groups[..n], rest);
    }
  }

  lemma SomeKey(alt: seq<Match>, keys: seq<string>)
    requires alt != [] && forall k :: 0 <= k < |alt| ==> KeyOf(alt[k].a) in keys
    ensures keys != []
  {
    assert KeyOf(alt[0].a) in keys;
  }

  /** With equal bands within each key and nobody timed out, the matches made are as many as any
      choice of matches from the pool that respects the policy. */
  lemma PoolOptimal(pool: seq<Ticket>, p: Policy, now: int, matches: seq<Match>, leftover: seq<Ticket>, alt: seq<Match>)
    requires Outcome(pool, p, now, matches, leftover) && EvenBands(pool, p, now) && Respects(pool, p, now, alt)
    ensures |alt| <= |matches| && Respects(pool, p, now, matches)
  {
    hide Grouping, AllMatches, AllLeftover, KeyOf, Pairs, EvenBands, Players;
    var keys, groups :| && Grouping(pool, keys, groups) && (forall t :: t in pool ==> KeyOf(t) in keys)
                        && matches == AllMatches(p, now, groups) && leftover == AllLeftover(p, now, groups);
    forall k | 0 <= k < |alt| ensures KeyOf(alt[k].a) in keys {
      PlayedBy(alt, k);
      assert alt[k].a in multiset(pool);
    }
    GroupsOptimal(pool, p, now, keys, groups, alt);
    PoolConserved(pool, p, now, matches, leftover);
    forall k | 0 <= k < |matches| ensures KeyOf(matches[k].a) == KeyOf(matches[k].b) && Pairs(p, now, matches[k].a, matches[k].b) {
      EveryMatchIsFair(pool, p, now, matches, leftover, k);
    }
  }

  lemma {:induction false} PlayedBy(alt: seq<Match>, k: nat)
    requires k < |alt|
    ensures alt[k].a in multiset(Players(alt))
  {
    if k > 0 {
      PlayedBy(alt[1..], k - 1);
    }
  }
}
