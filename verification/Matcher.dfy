/** Matchmaking: the pairing policy and its scan (services/matchmaking/internal/matcher.go). */
module Matcher {
  import opened Keys
  import opened Creatures

  /** Times are nanoseconds. */
  datatype Ticket = Ticket(accountID: string, mmr: int, rd: real, region: string, mode: string, waitStarted: int)

  datatype Match = Match(a: Ticket, b: Ticket, bandUsed: int)

  datatype Policy = Policy(baseBand: int, widenPerSec: int, maxBand: int, hardTimeout: int)

  const NO_PARTNER_GAP := 0x4000_0000

  function Band(p: Policy, t: Ticket, now: int): int {
    var b := p.baseBand + Quot(now - t.waitStarted, 1_000_000_000) * p.widenPerSec + Trunc(t.rd / 4.0);
    if b > p.maxBand then p.maxBand else b
  }

  /** The band widens with waiting, up to its cap and no further. */
  lemma BandWidens(p: Policy, t: Ticket, now: int, later: int)
    requires p.widenPerSec >= 0 && t.waitStarted <= now <= later
    ensures Band(p, t, now) <= Band(p, t, later) <= p.maxBand
  {
    var s, s' := Quot(now - t.waitStarted, 1_000_000_000), Quot(later - t.waitStarted, 1_000_000_000);
    assert (s' - s) * p.widenPerSec >= 0;
    assert s' * p.widenPerSec == s * p.widenPerSec + (s' - s) * p.widenPerSec;
  }

  predicate TimedOut(p: Policy, t: Ticket, now: int) {
    now - t.waitStarted > p.hardTimeout
  }

  function Gap(a: Ticket, b: Ticket): nat {
    if a.mmr >= b.mmr then a.mmr - b.mmr else b.mmr - a.mmr
  }

  /** Either party's band covers the gap, or either has waited past the hard timeout. */
  predicate Eligible(p: Policy, now: int, a: Ticket, b: Ticket) {
    Gap(a, b) <= Band(p, a, now) || Gap(a, b) <= Band(p, b, now) || TimedOut(p, a, now) || TimedOut(p, b, now)
  }

  /** The scan starts from a gap of 2^30, so a wider one is never taken. */
  predicate Pairs(p: Policy, now: int, a: Ticket, b: Ticket) {
    Eligible(p, now, a, b) && Gap(a, b) < NO_PARTNER_GAP
  }

  predicate Sorted(g: seq<Ticket>) {
    forall i, j :: 0 <= i <= j < |g| ==> g[i].mmr <= g[j].mmr
  }

  /** The linear greedy on a sorted group: pair the first ticket with the second if they may
      be paired, else leave it. */
  function Linear(p: Policy, now: int, g: seq<Ticket>): (seq<Match>, seq<Ticket>) {
    if g == [] then ([], [])
    else if |g| >= 2 && Pairs(p, now, g[0], g[1]) then
      var rest := Linear(p, now, g[2..]);
      ([Match(g[0], g[1], Gap(g[0], g[1]))] + rest.0, rest.1)
    else
      var rest := Linear(p, now, g[1..]);
      (rest.0, [g[0]] + rest.1)
  }

  // ----- The quadratic scan -----

  /** Looks for the nearest unused partner of ticket i, stopping early once neither band can
      reach further.  All later tickets being unused, that is the next one or none. */
  method FindPartner(p: Policy, now: int, g: seq<Ticket>, used: array<bool>, i: nat) returns (best: int, bestGap: int)
    requires i < |g| == used.Length && Sorted(g)
    requires forall j :: i < j < |g| ==> !used[j]
    ensures best == (if i + 1 < |g| && Pairs(p, now, g[i], g[i + 1]) then i + 1 else -1)
    ensures best >= 0 ==> bestGap == Gap(g[i], g[best])
  {
    hide Band, TimedOut;
    best, bestGap := -1, NO_PARTNER_GAP;
    var j := i + 1;
    while j < |g|
      invariant i < j <= |g|
      invariant j == i + 1 ==> best == -1 && bestGap == NO_PARTNER_GAP
      invariant j > i + 1 ==> best == (if Pairs(p, now, g[i], g[i + 1]) then i + 1 else -1)
      invariant j > i + 1 ==> bestGap == (if best >= 0 then Gap(g[i], g[i + 1]) else NO_PARTNER_GAP)
      invariant j > i + 1 ==> best >= 0 || Gap(g[i], g[i + 1]) >= NO_PARTNER_GAP
    {
      if !used[j] {
        var gap := Gap(g[i], g[j]);
        var bi, bj := Band(p, g[i], now), Band(p, g[j], now);
        var timedOut := TimedOut(p, g[i], now) || TimedOut(p, g[j], now);
        if (gap <= bi || gap <= bj || timedOut) && gap < bestGap {
          best, bestGap := j, gap;
        }
        if g[j].mmr - g[i].mmr > bi && g[j].mmr - g[i].mmr > bj {
          break;
        }
      }
      j := j + 1;
    }
  }

  /** The tickets of g not marked used. */
  function Unused(g: seq<Ticket>, used: seq<bool>): seq<Ticket>
    requires |g| == |used|
  {
    if g == [] then []
    else Unused(g[..|g| - 1], used[..|g| - 1]) + (if used[|g| - 1] then [] else [g[|g| - 1]])
  }

  lemma LinearStep(p: Policy, now: int, g: seq<Ticket>, i: nat)
    requires i < |g|
    ensures var r := Linear(p, now, g[i..]);
            if i + 1 < |g| && Pairs(p, now, g[i], g[i + 1])
            then r.0 == [Match(g[i], g[i + 1], Gap(g[i], g[i + 1]))] + Linear(p, now, g[i + 2..]).0
                 && r.1 == Linear(p, now, g[i + 2..]).1
            else r.0 == Linear(p, now, g[i + 1..]).0 && r.1 == [g[i]] + Linear(p, now, g[i + 1..]).1
  {
    hide Pairs;
    assert g[i..][1..] == g[i + 1..];
    if i + 1 < |g| {
      assert g[i..][2..] == g[i + 2..];
    }
  }

  lemma UnusedNext(g: seq<Ticket>, flags: seq<bool>, flag: bool)
    requires |flags| < |g|
    ensures var n := |flags|;
            Unused(g[..n + 1], flags + [flag]) == Unused(g[..n], flags) + (if flag then [] else [g[n]])
  {
    assert g[..|flags| + 1][..|flags|] == g[..|flags|];
  }

  /** The scan has come to ticket i, taken already or not; flags are the marks of the tickets
      before it.  What it has made and left so far, with the greedy on the rest, is the greedy
      on the whole group. */
  predicate SoFar(p: Policy, now: int, g: seq<Ticket>, flags: seq<bool>, taken: bool, matches: seq<Match>) {
    && |flags| <= |g| && (taken ==> |flags| < |g|)
    && var rest := Linear(p, now, g[if taken then |flags| + 1 else |flags|..]);
       matches + rest.0 == Linear(p, now, g).0 && Unused(g[..|flags|], flags) + rest.1 == Linear(p, now, g).1
  }

  lemma ScanStarts(p: Policy, now: int, g: seq<Ticket>)
    ensures SoFar(p, now, g, [], false, [])
  {
    hide Linear;
    UnusedNone();
    assert g[0..] == g && g[..0] == [];
  }

  lemma ScanSkips(p: Policy, now: int, g: seq<Ticket>, flags: seq<bool>, matches: seq<Match>)
    requires SoFar(p, now, g, flags, true, matches)
    ensures SoFar(p, now, g, flags + [true], false, matches)
  {
    hide Linear, Unused;
    UnusedNext(g, flags, true);
  }

  lemma ScanPairs(p: Policy, now: int, g: seq<Ticket>, flags: seq<bool>, matches: seq<Match>)
    requires SoFar(p, now, g, flags, false, matches)
    requires var i := |flags|; i + 1 < |g| && Pairs(p, now, g[i], g[i + 1])
    ensures var i := |flags|;
            SoFar(p, now, g, flags + [true], true, matches + [Match(g[i], g[i + 1], Gap(g[i], g[i + 1]))])
  {
    hide Linear, Unused, Pairs, Gap;
    LinearStep(p, now, g, |flags|);
    UnusedNext(g, flags, true);
  }

  lemma ScanLeaves(p: Policy, now: int, g: seq<Ticket>, flags: seq<bool>, matches: seq<Match>)
    requires SoFar(p, now, g, flags, false, matches)
    requires var i := |flags|; i < |g| && !(i + 1 < |g| && Pairs(p, now, g[i], g[i + 1]))
    ensures SoFar(p, now, g, flags + [false], false, matches)
  {
    hide Linear, Unused, Pairs;
    LinearStep(p, now, g, |flags|);
    UnusedNext(g, flags, false);
  }

  lemma ScanEnds(p: Policy, now: int, g: seq<Ticket>, flags: seq<bool>, matches: seq<Match>)
    requires |flags| == |g| && SoFar(p, now, g, flags, false, matches)
    ensures (matches, Unused(g, flags)) == Linear(p, now, g)
  {
    hide Linear, Unused;
    LinearEmpty(p, now, g);
    assert g[|g|..] == [] && g[..|g|] == g;
    assert matches + [] == matches && Unused(g, flags) + [] == Unused(g, flags);
  }

  /** The scan of one sorted group does exactly what the linear greedy does. */
  method PairGroup(p: Policy, now: int, g: seq<Ticket>) returns (matches: seq<Match>, leftover: seq<Ticket>)
    requires Sorted(g)
    ensures (matches, leftover) == Linear(p, now, g)
  {
    hide Pairs, Linear, Unused, SoFar, Sorted, Gap;
    var used := new bool[|g|](_ => false);
    matches := [];
    ScanStarts(p, now, g);
    for i := 0 to |g|
      invariant forall j :: i < j < |g| ==> !used[j]
      invariant i == 0 && |g| > 0 ==> !used[0]
      invariant SoFar(p, now, g, used[..i], i < |g| && used[i], matches)
    {
      ghost var flags := used[..i];
      if used[i] {
        ScanSkips(p, now, g, flags, matches);
      } else {
        var best, bestGap := FindPartner(p, now, g, used, i);
        if best >= 0 {
          ScanPairs(p, now, g, flags, matches);
          used[i], used[best] := true, true;
          matches := matches + [Match(g[i], g[best], bestGap)];
        } else {
          ScanLeaves(p, now, g, flags, matches);
        }
      }
      assert used[..i + 1] == flags + [used[i]];
    }
    assert used[..|g|] == used[..];
    ScanEnds(p, now, g, used[..], matches);
    leftover := CollectUnused(g, used);
  }

  lemma LinearEmpty(p: Policy, now: int, g: seq<Ticket>)
    ensures Linear(p, now, []) == ([], []) && g[0..] == g
  {
  }

  lemma UnusedNone()
    ensures Unused([], []) == []
  {
  }

  method CollectUnused(g: seq<Ticket>, used: array<bool>) returns (leftover: seq<Ticket>)
    requires |g| == used.Length
    ensures leftover == Unused(g, used[..])
  {
    leftover := [];
    for i := 0 to |g|
      invariant leftover == Unused(g[..i], used[..i])
    {
      assert used[..i + 1] == used[..i] + [used[i]];
      UnusedNext(g, used[..i], used[i]);
      if !used[i] {
        leftover := leftover + [g[i]];
      }
    }
    assert g[..|g|] == g && used[..|g|] == used[..];
  }

  // ----- The whole pool -----

  function KeyOf(t: Ticket): string {
    Joined(t.region, t.mode)
  }

  function WithKey(pool: seq<Ticket>, key: string): seq<Ticket> {
    if pool == [] then []
    else WithKey(pool[..|pool| - 1], key) + (if KeyOf(pool[|pool| - 1]) == key then [pool[|pool| - 1]] else [])
  }

  lemma NoTickets()
    ensures forall key :: WithKey([], key) == []
  {
  }

  lemma WithKeyNext(pool: seq<Ticket>, i: nat, key: string)
    requires i < |pool|
    ensures WithKey(pool[..i + 1], key) == WithKey(pool[..i], key) + (if key == KeyOf(pool[i]) then [pool[i]] else [])
  {
    hide KeyOf;
    assert pool[..i + 1][..i] == pool[..i];
  }

  method GroupByKey(pool: seq<Ticket>) returns (byMode: map<string, seq<Ticket>>)
    ensures forall t :: t in pool ==> KeyOf(t) in byMode
    ensures forall key :: key in byMode ==> byMode[key] == WithKey(pool, key)
  {
    hide KeyOf, WithKey;
    byMode := map[];
    NoTickets();
    for i := 0 to |pool|
      invariant forall t :: t in pool[..i] ==> KeyOf(t) in byMode
      invariant forall key :: key in byMode ==> byMode[key] == WithKey(pool[..i], key)
      invariant forall key :: key !in byMode ==> WithKey(pool[..i], key) == []
    {
      var t := pool[i];
      var key := KeyOf(t);
      byMode := byMode[key := (if key in byMode then byMode[key] else []) + [t]];
      forall k ensures WithKey(pool[..i + 1], k) == WithKey(pool[..i], k) + (if k == key then [t] else []) {
        WithKeyNext(pool, i, k);
      }
    }
    assert pool[..|pool|] == pool;
  }

  function Insert(t: Ticket, g: seq<Ticket>): (r: seq<Ticket>)
    ensures multiset(r) == multiset(g) + multiset{t}
  {
    if g == [] || t.mmr <= g[0].mmr then [t] + g
    else
      assert g == [g[0]] + g[1..];
      [g[0]] + Insert(t, g[1..])
  }

  lemma {:induction false} InsertSorted(t: Ticket, g: seq<Ticket>)
    requires Sorted(g)
    ensures Sorted(Insert(t, g))
  {
    if g != [] && t.mmr > g[0].mmr {
      var rest := Insert(t, g[1..]);
      InsertSorted(t, g[1..]);
      forall x | x in rest ensures g[0].mmr <= x.mmr {
        assert x in multiset(rest);
      }
      SortedCons(g[0], rest);
    } else {
      SortedCons(t, g);
    }
  }

  lemma SortedCons(t: Ticket, g: seq<Ticket>)
    requires Sorted(g) && forall x :: x in g ==> t.mmr <= x.mmr
    ensures Sorted([t] + g)
  {
  }

  /** Some sorted rearrangement: the source's sort is not stable, and callers may rely on
      nothing more than this contract. */
  method SortByMMR(group: seq<Ticket>) returns (g: seq<Ticket>)
    ensures Sorted(g) && multiset(g) == multiset(group)
  {
    g := [];
    for i := 0 to |group|
      invariant Sorted(g) && multiset(g) == multiset(group[..i])
    {
      InsertSorted(group[i], g);
      g := Insert(group[i], g);
      assert group[..i + 1] == group[..i] + [group[i]];
    }
    assert group[..|group|] == group;
  }

  function AllMatches(p: Policy, now: int, groups: seq<seq<Ticket>>): seq<Match> {
    if groups == [] then []
    else AllMatches(p, now, groups[..|groups| - 1]) + Linear(p, now, groups[|groups| - 1]).0
  }

  function AllLeftover(p: Policy, now: int, groups: seq<seq<Ticket>>): seq<Ticket> {
    if groups == [] then []
    else AllLeftover(p, now, groups[..|groups| - 1]) + Linear(p, now, groups[|groups| - 1]).1
  }

  /** groups is the pool split by key, in some order of keys, each group sorted in some way. */
  ghost predicate Grouping(pool: seq<Ticket>, keys: seq<string>, groups: seq<seq<Ticket>>) {
    && |keys| == |groups|
    && (forall i, j :: 0 <= i < j < |keys| ==> keys[i] != keys[j])
    && (forall i :: 0 <= i < |keys| ==> Sorted(groups[i]) && multiset(groups[i]) == multiset(WithKey(pool, keys[i])))
  }

  /** The pool paired group by group, for some order of keys and some sorting of each group. */
  ghost predicate Outcome(pool: seq<Ticket>, p: Policy, now: int, matches: seq<Match>, leftover: seq<Ticket>) {
    exists keys, groups | Grouping(pool, keys, groups) ::
      && (forall t :: t in pool ==> KeyOf(t) in keys)
      && matches == AllMatches(p, now, groups) && leftover == AllLeftover(p, now, groups)
  }

  /** Pairs each group on its own; the groups come in the arbitrary order of a Go map. */
  method Pair(pool: seq<Ticket>, p: Policy, now: int) returns (matches: seq<Match>, leftover: seq<Ticket>)
    ensures Outcome(pool, p, now, matches, leftover)
  {
    hide KeyOf, Linear, WithKey, Sorted;
    var byMode := GroupByKey(pool);
    matches, leftover := [], [];
    ghost var keys: seq<string>, groups: seq<seq<Ticket>> := [], [];
    var remaining := byMode.Keys;
    while remaining != {}
      invariant remaining <= byMode.Keys
      invariant forall key :: key in keys <==> key in byMode && key !in remaining
      invariant Grouping(pool, keys, groups)
      invariant matches == AllMatches(p, now, groups) && leftover == AllLeftover(p, now, groups)
      decreases remaining
    {
      var key :| key in remaining;
      var g := SortByMMR(byMode[key]);
      var m, l := PairGroup(p, now, g);
      matches, leftover := matches + m, leftover + l;
      remaining := remaining - {key};
      keys := keys + [key];
      assert (groups + [g])[..|groups|] == groups;
      groups := groups + [g];
    }
  }
}
