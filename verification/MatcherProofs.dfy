/** What the pairing achieves: nobody lost, bands respected, as many matches as possible under
    equal bands, and nobody waiting past the hard timeout without reason. */
module MatcherProofs {
  import opened Keys
  import opened Matcher

  // ----- Nobody is lost or duplicated -----

  /** Everybody in the matches. */
  function Players(ms: seq<Match>): seq<Ticket> {
    if ms == [] then [] else [ms[0].a, ms[0].b] + Players(ms[1..])
  }

  lemma {:induction false} PlayersAppend(x: seq<Match>, y: seq<Match>)
    ensures Players(x + y) == Players(x) + Players(y)
  {
    if x == [] {
      assert x + y == y;
    } else {
      PlayersAppend(x[1..], y);
      assert (x + y)[1..] == x[1..] + y;
    }
  }

  lemma PlayersCons(m: Match, ms: seq<Match>)
    ensures Players([m] + ms) == [m.a, m.b] + Players(ms)
  {
    assert ([m] + ms)[1..] == ms;
  }

  lemma {:induction false} GroupConserved(p: Policy, now: int, g: seq<Ticket>)
    ensures var r := Linear(p, now, g); multiset(Players(r.0)) + multiset(r.1) == multiset(g)
    decreases |g|
  {
    hide Pairs, Linear, Players;
    LinearEmpty(p, now, g);
    if g == [] {
      assert Players([]) == [] by {
        NoPlayers();
      }
    } else {
      LinearStep(p, now, g, 0);
      if |g| >= 2 && Pairs(p, now, g[0], g[1]) {
        GroupConserved(p, now, g[2..]);
        PlayersCons(Match(g[0], g[1], Gap(g[0], g[1])), Linear(p, now, g[2..]).0);
        assert g == [g[0], g[1]] + g[2..];
      } else {
        GroupConserved(p, now, g[1..]);
        assert g == [g[0]] + g[1..];
      }
    }
  }

  lemma NoPlayers()
    ensures Players([]) == []
  {
  }

  lemma {:induction false} GroupsConserved(p: Policy, now: int, groups: seq<seq<Ticket>>)
    ensures multiset(Players(AllMatches(p, now, groups))) + multiset(AllLeftover(p, now, groups)) == AllTickets(groups)
  {
    hide Linear;
    if groups == [] {
    } else {
      var n := |groups| - 1;
      GroupsConserved(p, now, groups[..n]);
      GroupConserved(p, now, groups[n]);
      PlayersAppend(AllMatches(p, now, groups[..n]), Linear(p, now, groups[n]).0);
    }
  }

  function AllTickets(groups: seq<seq<Ticket>>): multiset<Ticket> {
    if groups == [] then multiset{} else AllTickets(groups[..|groups| - 1]) + multiset(groups[|groups| - 1])
  }

  /** The tickets whose key is one of keys. */
  function WithKeys(pool: seq<Ticket>, keys: seq<string>): seq<Ticket> {
    if pool == [] then []
    else WithKeys(pool[..|pool| - 1], keys) + (if KeyOf(pool[|pool| - 1]) in keys then [pool[|pool| - 1]] else [])
  }

  lemma {:induction false} OneMoreKey(pool: seq<Ticket>, keys: seq<string>, key: string)
    requires key !in keys
    ensures multiset(WithKeys(pool, keys + [key])) == multiset(WithKeys(pool, keys)) + multiset(WithKey(pool, key))
  {
    hide KeyOf;
    if pool == [] {
    } else {
      OneMoreKey(pool[..|pool| - 1], keys, key);
    }
  }

  lemma {:induction false} NoKeys(pool: seq<Ticket>)
    ensures WithKeys(pool, []) == []
  {
    if pool == [] {
    } else {
      NoKeys(pool[..|pool| - 1]);
    }
  }

  lemma {:induction false} AllKeys(pool: seq<Ticket>, keys: seq<string>)
    requires forall t :: t in pool ==> KeyOf(t) in keys
    ensures WithKeys(pool, keys) == pool
  {
    if pool == [] {
    } else {
      AllKeys(pool[..|pool| - 1], keys);
      assert pool == pool[..|pool| - 1] + [pool[|pool| - 1]];
    }
  }

  lemma {:induction false} GroupsHoldKeys(pool: seq<Ticket>, keys: seq<string>, groups: seq<seq<Ticket>>)
    requires Grouping(pool, keys, groups)
    ensures AllTickets(groups) == multiset(WithKeys(pool, keys))
    decreases |groups|
  {
    hide Sorted, KeyOf, WithKey, WithKeys;
    if groups == [] {
      NoKeys(pool);
    } else {
      var n := |groups| - 1;
      GroupsHoldKeys(pool, keys[..n], groups[..n]);
      OneMoreKey(pool, keys[..n], keys[n]);
      assert keys == keys[..n] + [keys[n]];
    }
  }

  /** Every ticket of the pool appears exactly once, in a match or among the leftovers. */
  lemma PoolConserved(pool: seq<Ticket>, p: Policy, now: int, matches: seq<Match>, leftover: seq<Ticket>)
    requires Outcome(pool, p, now, matches, leftover)
    ensures multiset(Players(matches)) + multiset(leftover) == multiset(pool)
  {
    hide Grouping, AllMatches, AllLeftover, KeyOf;
    var keys, groups :| && Grouping(pool, keys, groups) && (forall t :: t in pool ==> KeyOf(t) in keys)
                        && matches == AllMatches(p, now, groups) && leftover == AllLeftover(p, now, groups);
    GroupsConserved(p, now, groups);
    GroupsHoldKeys(pool, keys, groups);
    AllKeys(pool, keys);
  }

  // ----- Every match respects the policy -----

  predicate GoodMatch(p: Policy, now: int, m: Match) {
    Pairs(p, now, m.a, m.b) && m.bandUsed == Gap(m.a, m.b)
  }

  lemma {:induction false} MatchesRespectPolicy(p: Policy, now: int, g: seq<Ticket>, k: nat)
    requires k < |Linear(p, now, g).0|
    ensures var m := Linear(p, now, g).0[k]; GoodMatch(p, now, m) && m.a in g && m.b in g
    decreases |g|
  {
    hide Pairs;
    if |g| >= 2 && Pairs(p, now, g[0], g[1]) {
      if k > 0 {
        MatchesRespectPolicy(p, now, g[2..], k - 1);
      }
    } else {
      MatchesRespectPolicy(p, now, g[1..], k);
    }
  }

  lemma {:induction false} KeyedAlike(pool: seq<Ticket>, key: string, t: Ticket)
    requires t in WithKey(pool, key)
    ensures KeyOf(t) == key && t in pool
  {
    hide KeyOf;
    if pool != [] && t in WithKey(pool[..|pool| - 1], key) {
      KeyedAlike(pool[..|pool| - 1], key, t);
    }
  }

  lemma {:induction false} GroupsMatchFairly(pool: seq<Ticket>, p: Policy, now: int, keys: seq<string>, groups: seq<seq<Ticket>>, k: nat)
    requires Grouping(pool, keys, groups) && k < |AllMatches(p, now, groups)|
    ensures var m := AllMatches(p, now, groups)[k];
            GoodMatch(p, now, m) && KeyOf(m.a) == KeyOf(m.b) && m.a in pool && m.b in pool
    decreases |groups|
  {
    hide KeyOf, WithKey, Linear, GoodMatch, Sorted;
    var n := |groups| - 1;
    var earlier := AllMatches(p, now, groups[..n]);
    if k < |earlier| {
      GroupsMatchFairly(pool, p, now, keys[..n], groups[..n], k);
    } else {
      var g := groups[n];
      MatchesRespectPolicy(p, now, g, k - |earlier|);
      var m := Linear(p, now, g).0[k - |earlier|];
      assert m.a in multiset(g) && m.b in multiset(g);
      KeyedAlike(pool, keys[n], m.a);
      KeyedAlike(pool, keys[n], m.b);
    }
  }

  /** Whatever the pool, every match joins two of its tickets with one key, allowed by a band or
      a timeout, and reports their true gap. */
  lemma EveryMatchIsFair(pool: seq<Ticket>, p: Policy, now: int, matches: seq<Match>, leftover: seq<Ticket>, k: nat)
    requires Outcome(pool, p, now, matches, leftover) && k < |matches|
    ensures var m := matches[k];
            GoodMatch(p, now, m) && KeyOf(m.a) == KeyOf(m.b) && m.a in pool && m.b in pool
  {
    hide Grouping, AllMatches, AllLeftover, KeyOf, GoodMatch;
    var keys, groups :| Grouping(pool, keys, groups) && matches == AllMatches(p, now, groups) && leftover == AllLeftover(p, now, groups);
    GroupsMatchFairly(pool, p, now, keys, groups, k);
  }

  /** Two tickets wait in one pool exactly when their regions and modes agree, or one's region
      is the other's followed by a separator and the start of the other's mode. */
  lemma SameKeyIff(a: Ticket, b: Ticket)
    ensures KeyOf(a) == KeyOf(b) <==>
      (a.region == b.region && a.mode == b.mode)
      || Straddles(a.region, a.mode, b.region, b.mode) || Straddles(b.region, b.mode, a.region, a.mode)
  {
    hide Joined, Straddles;
    SharedKeyIff(a.region, a.mode, b.region, b.mode);
  }

  /** So pools never mix as long as no region's name holds the separator. */
  lemma PlainRegionsNeverMix(a: Ticket, b: Ticket)
    requires SEPARATOR !in a.region && SEPARATOR !in b.region && KeyOf(a) == KeyOf(b)
    ensures a.region == b.region && a.mode == b.mode
  {
    hide Joined;
    PlainNamesNeverCollide(a.region, a.mode, b.region, b.mode);
  }

  lemma SeparatorInRegionMixesPools()
    ensures var a, b := Ticket("a", 0, 0.0, "eu", "1|x", 0), Ticket("b", 0, 0.0, "eu|1", "x", 0);
            KeyOf(a) == KeyOf(b) && a.region != b.region
  {
    assert "eu" + "|" + "1|x" == "eu|1" + "|" + "x";
  }

  // ----- As many matches as possible -----

  /** Whether two tickets of g may be paired depends only on a common bound on the gap. */
  predicate Threshold(p: Policy, now: int, g: seq<Ticket>, bound: int) {
    forall i, j :: 0 <= i < j < |g| ==> (Pairs(p, now, g[i], g[j]) <==> Gap(g[i], g[j]) <= bound)
  }

  /** Equal bands, nobody timed out. */
  predicate UniformBand(p: Policy, now: int, g: seq<Ticket>, band: int) {
    forall i :: 0 <= i < |g| ==> Band(p, g[i], now) == band && !TimedOut(p, g[i], now)
  }

  lemma UniformIsThreshold(p: Policy, now: int, g: seq<Ticket>, band: int)
    requires UniformBand(p, now, g, band)
    ensures Threshold(p, now, g, if band < NO_PARTNER_GAP then band else NO_PARTNER_GAP - 1)
  {
    hide Band, TimedOut;
  }

  predicate Allowed(p: Policy, now: int, g: seq<Ticket>, lo: nat, e: (nat, nat)) {
    lo <= e.0 < e.1 < |g| && Pairs(p, now, g[e.0], g[e.1])
  }

  predicate Apart(e: (nat, nat), f: (nat, nat)) {
    e.0 != f.0 && e.0 != f.1 && e.1 != f.0 && e.1 != f.1
  }

  /** A pairing of ticket positions from lo on: disjoint pairs, each allowed. */
  ghost predicate Pairing(p: Policy, now: int, g: seq<Ticket>, lo: nat, ps: set<(nat, nat)>) {
    && (forall e :: e in ps ==> Allowed(p, now, g, lo, e))
    && (forall e, f {:trigger Apart(e, f)} :: e in ps && f in ps && e != f ==> Apart(e, f))
  }

  function GreedyCount(p: Policy, now: int, g: seq<Ticket>, lo: nat): nat
    requires lo <= |g|
  {
    |Linear(p, now, g[lo..]).0|
  }

  lemma PairingBeyond(p: Policy, now: int, g: seq<Ticket>, lo: nat, ps: set<(nat, nat)>)
    requires Pairing(p, now, g, lo, ps) && forall e :: e in ps ==> e.0 != lo
    ensures Pairing(p, now, g, lo + 1, ps)
  {
    hide Pairs;
  }

  /** If the first two tickets may not be paired, the first is in no pair at all. */
  lemma FirstStaysAlone(p: Policy, now: int, g: seq<Ticket>, bound: int, lo: nat, ps: set<(nat, nat)>)
    requires Sorted(g) && Threshold(p, now, g, bound) && Pairing(p, now, g, lo, ps) && lo < |g|
    requires lo + 1 < |g| ==> !Pairs(p, now, g[lo], g[lo + 1])
    ensures Pairing(p, now, g, lo + 1, ps)
  {
    hide Pairs;
    forall j | lo < j < |g| ensures !Pairs(p, now, g[lo], g[j]) {
      assert Gap(g[lo], g[j]) >= Gap(g[lo], g[lo + 1]);
    }
    PairingBeyond(p, now, g, lo, ps);
  }

  lemma FewerPairs(p: Policy, now: int, g: seq<Ticket>, lo: nat, ps: set<(nat, nat)>, qs: set<(nat, nat)>)
    requires Pairing(p, now, g, lo, ps) && qs <= ps
    requires forall e :: e in qs ==> e.0 != lo && e.0 != lo + 1
    ensures Pairing(p, now, g, lo + 2, qs)
  {
    hide Pairs, Apart;
    forall e | e in qs ensures Allowed(p, now, g, lo + 2, e) {
      assert Allowed(p, now, g, lo, e);
    }
  }

  lemma RemoveOne(ps: set<(nat, nat)>, e: (nat, nat))
    ensures |ps| <= |ps - {e}| + 1
  {
    if e in ps {
      assert ps == ps - {e} + {e};
    } else {
      assert ps == ps - {e};
    }
  }

  /** Dropping e leaves the two first positions free if no other pair touches them. */
  lemma DropOne(p: Policy, now: int, g: seq<Ticket>, lo: nat, ps: set<(nat, nat)>, e: (nat, nat))
    requires Pairing(p, now, g, lo, ps)
    requires forall f :: f in ps && f != e ==> f.0 != lo && f.0 != lo + 1
    ensures Pairing(p, now, g, lo + 2, ps - {e}) && |ps| <= |ps - {e}| + 1
  {
    hide Pairing;
    FewerPairs(p, now, g, lo, ps, ps - {e});
    RemoveOne(ps, e);
  }

  lemma AddPair(p: Policy, now: int, g: seq<Ticket>, lo: nat, ps: set<(nat, nat)>, x: (nat, nat))
    requires Pairing(p, now, g, lo, ps) && Allowed(p, now, g, lo, x)
    requires forall e :: e in ps ==> Apart(e, x) && Apart(x, e)
    ensures Pairing(p, now, g, lo, ps + {x})
  {
    hide Allowed, Apart;
  }

  /** The partners of the two first positions lie within the bound of each other. */
  lemma PartnersMayPair(p: Policy, now: int, g: seq<Ticket>, bound: int, lo: nat, a: nat, b: nat)
    requires Sorted(g) && Threshold(p, now, g, bound)
    requires lo + 1 < a < |g| && lo + 1 < b < |g| && a != b
    requires Pairs(p, now, g[lo], g[a]) && Pairs(p, now, g[lo + 1], g[b])
    ensures Allowed(p, now, g, lo + 2, if a < b then (a, b) else (b, a))
  {
    hide Pairs;
    var i, j := if a < b then a else b, if a < b then b else a;
    assert Gap(g[lo], g[a]) <= bound && Gap(g[lo + 1], g[b]) <= bound;
    assert g[lo].mmr <= g[lo + 1].mmr <= g[i].mmr <= g[j].mmr;
    assert Gap(g[i], g[j]) <= bound;
  }

  /** Two pairs that use one of the first positions each give way to one pair of their partners. */
  lemma Exchange(p: Policy, now: int, g: seq<Ticket>, bound: int, lo: nat, ps: set<(nat, nat)>, e: (nat, nat), f: (nat, nat))
    returns (qs: set<(nat, nat)>)
    requires Sorted(g) && Threshold(p, now, g, bound) && Pairing(p, now, g, lo, ps)
    requires e in ps && f in ps && e != f && e.0 == lo && f.0 == lo + 1
    ensures Pairing(p, now, g, lo + 2, qs) && |ps| <= |qs| + 1
  {
    hide Pairs, Sorted, Threshold;
    var rest := ps - {e} - {f};
    var x := if e.1 < f.1 then (e.1, f.1) else (f.1, e.1);
    assert Apart(e, f) && Allowed(p, now, g, lo, e) && Allowed(p, now, g, lo, f);
    forall h | h in rest ensures h.0 != lo && h.0 != lo + 1 && Apart(h, x) && Apart(x, h) {
      assert Apart(h, e) && Apart(h, f);
    }
    FewerPairs(p, now, g, lo, ps, rest);
    PartnersMayPair(p, now, g, bound, lo, e.1, f.1);
    AddPair(p, now, g, lo + 2, rest, x);
    qs := rest + {x};
    RemoveOne(ps, e);
    RemoveOne(ps - {e}, f);
    assert x !in rest;
  }

  /** The exchange argument: a pairing can give up at most one pair and leave the first two
      tickets free. */
  lemma FreeFirstTwo(p: Policy, now: int, g: seq<Ticket>, bound: int, lo: nat, ps: set<(nat, nat)>) returns (qs: set<(nat, nat)>)
    requires Sorted(g) && Threshold(p, now, g, bound) && Pairing(p, now, g, lo, ps)
    requires lo + 1 < |g| && Pairs(p, now, g[lo], g[lo + 1])
    ensures Pairing(p, now, g, lo + 2, qs) && |ps| <= |qs| + 1
  {
    hide Pairs, Sorted, Threshold;
    assert forall e, f :: e in ps && f in ps && e != f ==> Apart(e, f);
    if e :| e in ps && e.0 == lo {
      if f :| f in ps && f != e && f.0 == lo + 1 {
        qs := Exchange(p, now, g, bound, lo, ps, e, f);
      } else {
        DropOne(p, now, g, lo, ps, e);
        qs := ps - {e};
      }
    } else if f :| f in ps && f.0 == lo + 1 {
      DropOne(p, now, g, lo, ps, f);
      qs := ps - {f};
    } else {
      DropOne(p, now, g, lo, ps, (lo, lo));
      qs := ps - {(lo, lo)};
    }
  }

  lemma {:induction false} GreedyIsBest(p: Policy, now: int, g: seq<Ticket>, bound: int, lo: nat, ps: set<(nat, nat)>)
    requires Sorted(g) && Threshold(p, now, g, bound) && lo <= |g| && Pairing(p, now, g, lo, ps)
    ensures |ps| <= GreedyCount(p, now, g, lo)
    decreases |g| - lo
  {
    hide Pairs, Threshold, Sorted;
    if lo == |g| {
      assert ps == {};
    } else {
      LinearStep(p, now, g, lo);
      if lo + 1 < |g| && Pairs(p, now, g[lo], g[lo + 1]) {
        var qs := FreeFirstTwo(p, now, g, bound, lo, ps);
        GreedyIsBest(p, now, g, bound, lo + 2, qs);
      } else {
        FirstStaysAlone(p, now, g, bound, lo, ps);
        GreedyIsBest(p, now, g, bound, lo + 1, ps);
      }
    }
  }

  /** The matches made are themselves a pairing, whatever the bands. */
  lemma {:induction false} GreedyIsAPairing(p: Policy, now: int, g: seq<Ticket>, lo: nat) returns (ps: set<(nat, nat)>)
    requires lo <= |g|
    ensures Pairing(p, now, g, lo, ps) && |ps| == GreedyCount(p, now, g, lo)
    decreases |g| - lo
  {
    hide Pairs, Linear;
    LinearEmpty(p, now, g);
    if lo == |g| {
      assert g[lo..] == [];
      ps := {};
    } else {
      LinearStep(p, now, g, lo);
      if lo + 1 < |g| && Pairs(p, now, g[lo], g[lo + 1]) {
        var rest := GreedyIsAPairing(p, now, g, lo + 2);
        LoosenPairing(p, now, g, lo + 2, lo, rest);
        forall e | e in rest ensures Apart(e, (lo, lo + 1)) && Apart((lo, lo + 1), e) {
          assert Allowed(p, now, g, lo + 2, e);
        }
        assert (lo, lo + 1) !in rest;
        AddPair(p, now, g, lo, rest, (lo, lo + 1));
        ps := rest + {(lo, lo + 1)};
      } else {
        ps := GreedyIsAPairing(p, now, g, lo + 1);
        LoosenPairing(p, now, g, lo + 1, lo, ps);
      }
    }
  }

  lemma LoosenPairing(p: Policy, now: int, g: seq<Ticket>, from: nat, lo: nat, ps: set<(nat, nat)>)
    requires lo <= from && Pairing(p, now, g, from, ps)
    ensures Pairing(p, now, g, lo, ps)
  {
    hide Pairs, Apart;
    forall e | e in ps ensures Allowed(p, now, g, lo, e) {
      assert Allowed(p, now, g, from, e);
    }
  }

  /** With equal bands and nobody timed out, the scan makes as many matches as any pairing of
      the group that respects the band. */
  lemma UniformBandsAreOptimal(p: Policy, now: int, g: seq<Ticket>, band: int, ps: set<(nat, nat)>)
    requires Sorted(g) && UniformBand(p, now, g, band) && Pairing(p, now, g, 0, ps)
    ensures |ps| <= |Linear(p, now, g).0|
  {
    hide Pairs, Band, TimedOut;
    UniformIsThreshold(p, now, g, band);
    GreedyIsBest(p, now, g, if band < NO_PARTNER_GAP then band else NO_PARTNER_GAP - 1, 0, ps);
    assert g[0..] == g;
  }

  // ----- Who is left, and waiting too long -----

  /** The ticket at i is still unused when the scan comes to it. */
  predicate Free(p: Policy, now: int, g: seq<Ticket>, i: nat)
    requires i < |g|
  {
    i == 0 || !(Free(p, now, g, i - 1) && Pairs(p, now, g[i - 1], g[i]))
  }

  /** The positions from lo on that the greedy leaves alone, lo being free. */
  function Staying(p: Policy, now: int, g: seq<Ticket>, lo: nat): (r: seq<nat>)
    ensures forall k :: 0 <= k < |r| ==> lo <= r[k] < |g|
    ensures forall k, l :: 0 <= k < l < |r| ==> r[k] < r[l]
    decreases |g| - lo
  {
    if lo >= |g| then []
    else if lo + 1 < |g| && Pairs(p, now, g[lo], g[lo + 1]) then Staying(p, now, g, lo + 2)
    else [lo] + Staying(p, now, g, lo + 1)
  }

  lemma {:induction false} LeftoversByPosition(p: Policy, now: int, g: seq<Ticket>, lo: nat)
    requires lo <= |g|
    ensures var left, at := Linear(p, now, g[lo..]).1, Staying(p, now, g, lo);
            |left| == |at| && forall k :: 0 <= k < |at| ==> left[k] == g[at[k]]
    decreases |g| - lo
  {
    hide Pairs, Linear;
    LinearEmpty(p, now, g);
    if lo == |g| {
      assert g[lo..] == [];
    } else {
      LinearStep(p, now, g, lo);
      LeftoversByPosition(p, now, g, if lo + 1 < |g| && Pairs(p, now, g[lo], g[lo + 1]) then lo + 2 else lo + 1);
    }
  }

  /** A position is left alone exactly when it is free and may not be paired with the next. */
  lemma {:induction false} StaysIff(p: Policy, now: int, g: seq<Ticket>, lo: nat, i: nat)
    requires lo <= i < |g| && Free(p, now, g, lo)
    ensures i in Staying(p, now, g, lo) <==> Free(p, now, g, i) && (i + 1 == |g| || !Pairs(p, now, g[i], g[i + 1]))
    decreases |g| - lo
  {
    hide Pairs;
    if lo + 1 < |g| && Pairs(p, now, g[lo], g[lo + 1]) {
      assert !Free(p, now, g, lo + 1);
      if i >= lo + 2 {
        StaysIff(p, now, g, lo + 2, i);
      }
    } else if i > lo {
      StaysIff(p, now, g, lo + 1, i);
    }
  }

  /** A free ticket that may be paired with the next one is matched with it. */
  lemma {:induction false} FreePairsMatch(p: Policy, now: int, g: seq<Ticket>, lo: nat, i: nat)
    requires lo <= i < |g| - 1 && Free(p, now, g, lo) && Free(p, now, g, i) && Pairs(p, now, g[i], g[i + 1])
    ensures Match(g[i], g[i + 1], Gap(g[i], g[i + 1])) in Linear(p, now, g[lo..]).0
    decreases |g| - lo
  {
    hide Pairs, Linear;
    LinearStep(p, now, g, lo);
    if i > lo {
      if Pairs(p, now, g[lo], g[lo + 1]) {
        assert !Free(p, now, g, lo + 1);
        FreePairsMatch(p, now, g, lo + 2, i);
      } else {
        FreePairsMatch(p, now, g, lo + 1, i);
      }
    }
  }

  /** A ticket past the hard timeout is left over exactly when the scan finds it unused and it
      is the last in sorted order or the next one is 2^30 away or more. */
  lemma TimedOutStaysIff(p: Policy, now: int, g: seq<Ticket>, i: nat)
    requires i < |g| && TimedOut(p, g[i], now)
    ensures i in Staying(p, now, g, 0) <==>
      Free(p, now, g, i) && (i == |g| - 1 || Gap(g[i], g[i + 1]) >= NO_PARTNER_GAP)
  {
    hide TimedOut, Band, Gap, Free, Staying;
    assert Free(p, now, g, 0) by {
      FirstIsFree(p, now, g);
    }
    StaysIff(p, now, g, 0, i);
  }

  lemma FirstIsFree(p: Policy, now: int, g: seq<Ticket>)
    requires g != []
    ensures Free(p, now, g, 0)
  {
  }

  /** Neighbours closer than 2^30, one of them past the hard timeout, are matched with each other
      if the first is still unused. */
  lemma TimedOutNeighboursMatch(p: Policy, now: int, g: seq<Ticket>, i: nat)
    requires i < |g| - 1 && Free(p, now, g, i) && Gap(g[i], g[i + 1]) < NO_PARTNER_GAP
    requires TimedOut(p, g[i], now) || TimedOut(p, g[i + 1], now)
    ensures Match(g[i], g[i + 1], Gap(g[i], g[i + 1])) in Linear(p, now, g).0
  {
    hide TimedOut, Band, Gap, Linear;
    FreePairsMatch(p, now, g, 0, i);
    assert g[0..] == g;
  }

  /** So, whatever the group, a leftover past the hard timeout is its last ticket or is followed
      by one 2^30 away or more. */
  lemma TimedOutLeftover(p: Policy, now: int, g: seq<Ticket>, k: nat) returns (i: nat)
    requires k < |Linear(p, now, g).1| && TimedOut(p, Linear(p, now, g).1[k], now)
    ensures i < |g| && Linear(p, now, g).1[k] == g[i]
    ensures i == |g| - 1 || Gap(g[i], g[i + 1]) >= NO_PARTNER_GAP
    ensures i == |g| - 1 ==> k == |Linear(p, now, g).1| - 1
  {
    hide TimedOut, Gap, Linear, Free;
    assert g[0..] == g;
    LeftoversByPosition(p, now, g, 0);
    var at := Staying(p, now, g, 0);
    i := at[k];
    TimedOutStaysIff(p, now, g, i);
    assert k < |at| - 1 ==> at[k] < at[k + 1];
  }

  ghost predicate CloseNeighbours(g: seq<Ticket>) {
    forall i, j :: 0 <= i && j == i + 1 && j < |g| ==> Gap(g[i], g[j]) < NO_PARTNER_GAP
  }

  /** In particular, with neighbouring gaps below 2^30 throughout, a group leaves at most one
      such ticket, the last in sorted order. */
  lemma TimedOutLeftoverIsLast(p: Policy, now: int, g: seq<Ticket>, k: nat)
    requires CloseNeighbours(g)
    requires k < |Linear(p, now, g).1| && TimedOut(p, Linear(p, now, g).1[k], now)
    ensures k == |Linear(p, now, g).1| - 1 && Linear(p, now, g).1[k] == g[|g| - 1]
  {
    hide TimedOut, Gap, Linear;
    var i := TimedOutLeftover(p, now, g, k);
  }

  /** The hard timeout reaches only so far: in no outcome, whatever the pool and however long
      anybody has waited, are two tickets 2^30 apart matched. */
  lemma FarApartNeverMatch(pool: seq<Ticket>, p: Policy, now: int, matches: seq<Match>, leftover: seq<Ticket>, k: nat)
    requires Outcome(pool, p, now, matches, leftover) && k < |matches|
    ensures Gap(matches[k].a, matches[k].b) < NO_PARTNER_GAP
  {
    hide Outcome, Eligible, KeyOf;
    EveryMatchIsFair(pool, p, now, matches, leftover, k);
  }

  /** So two such tickets on their own wait for ever. */
  lemma FarPairWaits(p: Policy, now: int, a: Ticket, b: Ticket)
    requires a.mmr + NO_PARTNER_GAP <= b.mmr
    ensures Linear(p, now, [a, b]) == ([], [a, b])
  {
    hide Eligible, Linear;
    var g := [a, b];
    LinearEmpty(p, now, g);
    LinearStep(p, now, g, 0);
    LinearStep(p, now, g, 1);
    assert g[2..] == [] && [a] + ([b] + []) == g;
  }

  /** With unequal bands the scan can fall short: when a may meet d and b may meet c, but c and d
      may not meet, it makes one match where two are allowed. */
  lemma MixedBandsFallShort(p: Policy, now: int, a: Ticket, b: Ticket, c: Ticket, d: Ticket)
    requires a.mmr <= b.mmr <= c.mmr <= d.mmr
    requires Pairs(p, now, a, b) && Pairs(p, now, a, d) && Pairs(p, now, b, c) && !Pairs(p, now, c, d)
    ensures Sorted([a, b, c, d]) && |Linear(p, now, [a, b, c, d]).0| == 1
    ensures Pairing(p, now, [a, b, c, d], 0, {(0, 3), (1, 2)}) && |{(0, 3), (1, 2)}| == 2
  {
    hide Linear, Pairs;
    var g := [a, b, c, d];
    LinearEmpty(p, now, g);
    LinearStep(p, now, g, 0);
    LinearStep(p, now, g, 2);
    LinearStep(p, now, g, 3);
    assert g[4..] == [];
  }

  /** Such bands do arise: a waited long or is newly placed, the others are neither. */
  lemma MixedBandsArise()
    ensures var p := Policy(10, 0, 400, 1000);
            var a, b := Ticket("a", 0, 1600.0, "eu", "r", 0), Ticket("b", 10, 0.0, "eu", "r", 0);
            var c, d := Ticket("c", 20, 0.0, "eu", "r", 0), Ticket("d", 300, 0.0, "eu", "r", 0);
            Pairs(p, 0, a, b) && Pairs(p, 0, a, d) && Pairs(p, 0, b, c) && !Pairs(p, 0, c, d)
  {
  }
}
