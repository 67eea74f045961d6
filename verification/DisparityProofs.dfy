/** How far the pairing minimises the total rating disparity.  Where a common bound on the gap
    decides who may meet, a sorted group falls into runs of tickets within the bound of each
    other; the total is the smallest there is exactly when, in each run of odd length, leaving
    out the last ticket is no worse than leaving out any other of even position. */
module DisparityProofs {
  import opened Matcher
  import opened MatcherProofs
  import opened PoolProofs

  /** The total rating gap of some matches. */
  function Disparity(ms: seq<Match>): nat {
    if ms == [] then 0 else Gap(ms[0].a, ms[0].b) + Disparity(ms[1..])
  }

  /** Each ticket with its neighbour, two by two; an odd last one stays. */
  function Couples(g: seq<Ticket>): seq<Match> {
    if |g| < 2 then [] else [Match(g[0], g[1], Gap(g[0], g[1]))] + Couples(g[2..])
  }

  /** Each ticket of the group may be paired with the next. */
  ghost predicate NeighboursPair(p: Policy, now: int, g: seq<Ticket>) {
    forall i, j :: 0 <= i && j == i + 1 && j < |g| ==> Pairs(p, now, g[i], g[j])
  }

  lemma {:induction false} GreedyCouples(p: Policy, now: int, g: seq<Ticket>)
    requires NeighboursPair(p, now, g)
    ensures Linear(p, now, g).0 == Couples(g)
    decreases |g|
  {
    hide Pairs, Linear;
    LinearEmpty(p, now, g);
    if g != [] {
      LinearStep(p, now, g, 0);
      if |g| >= 2 {
        assert Pairs(p, now, g[0], g[1]);
        GreedyCouples(p, now, g[2..]);
      } else {
        assert g[1..] == [];
      }
    }
  }

  // ----- The alternating sum -----

  function Alternating(g: seq<Ticket>): int {
    if g == [] then 0 else g[0].mmr - Alternating(g[1..])
  }

  lemma {:induction false} CouplesOf(g: seq<Ticket>)
    requires Sorted(g) && |g| % 2 == 0
    ensures Players(Couples(g)) == g && Disparity(Couples(g)) == -Alternating(g)
    decreases |g|
  {
    if g != [] {
      var rest := g[2..];
      CouplesOf(rest);
      assert Couples(g)[1..] == Couples(rest);
      assert g == [g[0], g[1]] + rest && g[1..][1..] == rest;
    }
  }

  lemma {:induction false} OddCouples(g: seq<Ticket>)
    requires |g| % 2 == 1
    ensures Couples(g) == Couples(g[..|g| - 1])
    decreases |g|
  {
    if |g| > 1 {
      OddCouples(g[2..]);
      assert g[..|g| - 1][2..] == g[2..][..|g[2..]| - 1];
    }
  }

  lemma WithoutFirst(g: seq<Ticket>)
    requires g != []
    ensures Without(g, 0) == g[1..]
  {
  }

  lemma WithoutLater(g: seq<Ticket>, k: nat)
    requires 0 < k < |g|
    ensures Without(g, k) == [g[0]] + Without(g[1..], k - 1) && Without(g, k)[1..] == Without(g[1..], k - 1)
  {
  }

  /** Leaving out one ticket turns the sum of what follows around, within its rating. */
  lemma {:induction false} LeaveOne(h: seq<Ticket>, k: nat, floor: int)
    requires Sorted(h) && k < |h| && floor <= h[0].mmr
    ensures 2 * floor - h[k].mmr <= Alternating(h) + Alternating(Without(h, k)) <= h[k].mmr
    decreases k
  {
    hide Without;
    if k == 0 {
      WithoutFirst(h);
    } else {
      WithoutLater(h, k);
      LeaveOne(h[1..], k - 1, h[0].mmr);
    }
  }

  /** Leaving out two tickets changes the alternating sum by no more than their gap. */
  lemma {:induction false} LeaveTwo(g: seq<Ticket>, i: nat, j: nat)
    requires Sorted(g) && i < j < |g|
    ensures |Without(g, j)| == |g| - 1
    ensures var d := Alternating(g) - Alternating(Without(Without(g, j), i)); -(Gap(g[i], g[j]) as int) <= d <= Gap(g[i], g[j])
    decreases i
  {
    hide Without;
    var rest := g[1..];
    WithoutAt(g, j);
    WithoutLater(g, j);
    if i == 0 {
      WithoutFirst(Without(g, j));
      LeaveOne(rest, j - 1, g[0].mmr);
    } else {
      WithoutLater(Without(g, j), i);
      LeaveTwo(rest, i - 1, j - 1);
    }
  }

  /** However the tickets of a sorted group are matched with each other, the total gap is at
      least that of its couples. */
  lemma {:induction false} CouplesMinimal(g: seq<Ticket>, alt: seq<Match>)
    requires Sorted(g) && multiset(Players(alt)) == multiset(g)
    ensures -Alternating(g) <= Disparity(alt)
    decreases |alt|
  {
    hide Sorted, Without, Players, Gap;
    if alt == [] {
      NoPlayers();
      assert |multiset(g)| == 0;
    } else {
      var m, rest := alt[0], alt[1..];
      PlayersCons(m, rest);
      assert alt == [m] + rest;
      assert multiset([m.a, m.b] + Players(rest)) == multiset{m.a, m.b} + multiset(Players(rest));
      var i, j := TwoPositions(g, m.a, m.b, multiset(Players(rest)));
      WithoutAt(g, j);
      WithoutAt(Without(g, j), i);
      assert multiset(Without(Without(g, j), i)) == multiset(Players(rest));
      LeavingKeepsSorted(g, j);
      LeavingKeepsSorted(Without(g, j), i);
      LeaveTwo(g, i, j);
      GapBothWays(g[i], g[j]);
      CouplesMinimal(Without(Without(g, j), i), rest);
    }
  }

  lemma LeavingKeepsSorted(g: seq<Ticket>, k: nat)
    requires Sorted(g) && k < |g|
    ensures Sorted(Without(g, k))
  {
    hide Without;
    WithoutAt(g, k);
  }

  lemma GapBothWays(a: Ticket, b: Ticket)
    ensures Gap(a, b) == Gap(b, a)
  {
  }

  // ----- One run of neighbours that may meet -----

  /** Another choice of matches from the group: allowed, and as many as the scan makes. */
  predicate AsMany(p: Policy, now: int, g: seq<Ticket>, alt: seq<Match>) {
    && multiset(Players(alt)) <= multiset(g)
    && (forall k :: 0 <= k < |alt| ==> Pairs(p, now, alt[k].a, alt[k].b))
    && |alt| == |Linear(p, now, g).0|
  }

  /** No such choice has a smaller total disparity. */
  ghost predicate Minimal(p: Policy, now: int, g: seq<Ticket>) {
    forall alt :: AsMany(p, now, g, alt) ==> Disparity(Linear(p, now, g).0) <= Disparity(alt)
  }

  lemma {:induction false} PlayersSize(ms: seq<Match>)
    ensures |Players(ms)| == 2 * |ms|
  {
    if ms != [] {
      PlayersSize(ms[1..]);
    }
  }

  lemma {:induction false} CouplesSize(g: seq<Ticket>)
    ensures |Couples(g)| == |g| / 2
  {
    if |g| >= 2 {
      CouplesSize(g[2..]);
    }
  }

  lemma SameSizeSameTickets(a: multiset<Ticket>, b: multiset<Ticket>)
    requires a <= b && |a| == |b|
    ensures a == b
  {
    assert |b - a| == 0;
    assert b == a + (b - a);
  }

  /** In a group of even size whose neighbours may meet, the scan matches everybody, at the
      smallest total disparity there is, allowed or not. */
  lemma EvenGroupMinimal(p: Policy, now: int, g: seq<Ticket>)
    requires Sorted(g) && NeighboursPair(p, now, g) && |g| % 2 == 0
    ensures Players(Linear(p, now, g).0) == g && Minimal(p, now, g)
    ensures forall alt :: multiset(Players(alt)) == multiset(g) ==> Disparity(Linear(p, now, g).0) <= Disparity(alt)
  {
    hide Sorted, NeighboursPair, Linear, Players, Pairs, Couples, Disparity;
    GreedyCouples(p, now, g);
    CouplesOf(g);
    CouplesSize(g);
    forall alt | multiset(Players(alt)) == multiset(g) ensures Disparity(Linear(p, now, g).0) <= Disparity(alt) {
      CouplesMinimal(g, alt);
    }
    forall alt | AsMany(p, now, g, alt) ensures Disparity(Linear(p, now, g).0) <= Disparity(alt) {
      PlayersSize(alt);
      SameSizeSameTickets(multiset(Players(alt)), multiset(g));
    }
  }

  lemma LeftOut(g: seq<Ticket>, alt: seq<Match>) returns (k: nat)
    requires |g| == 2 * |alt| + 1 && multiset(Players(alt)) <= multiset(g)
    ensures k < |g| && multiset(Players(alt)) == multiset(Without(g, k))
  {
    hide Without, Players;
    PlayersSize(alt);
    var left := multiset(g) - multiset(Players(alt));
    assert |left| == 1 && multiset(Players(alt)) + left == multiset(g);
    var t :| t in left;
    k := Position(g, t);
    WithoutAt(g, k);
    assert |left - multiset{t}| == 0;
    assert left == multiset{t};
  }

  /** Leaving out an odd position is never better than leaving out the one before it. */
  lemma {:induction false} OddOutNoBetter(g: seq<Ticket>, k: nat)
    requires Sorted(g) && k % 2 == 1 && k < |g|
    ensures Alternating(Without(g, k)) <= Alternating(Without(g, k - 1))
    decreases k
  {
    hide Without;
    WithoutLater(g, k);
    if k == 1 {
      WithoutFirst(g);
      WithoutFirst(g[1..]);
    } else {
      WithoutLater(g, k - 1);
      WithoutLater(g[1..], k - 1);
      WithoutLater(g[1..], k - 2);
      OddOutNoBetter(g[1..][1..], k - 2);
    }
  }

  lemma {:induction false} CouplesAt(h: seq<Ticket>, i: nat)
    requires i < |Couples(h)|
    ensures 2 * i + 1 < |h| && Couples(h)[i].a == h[2 * i] && Couples(h)[i].b == h[2 * i + 1]
  {
    if i > 0 {
      CouplesAt(h[2..], i - 1);
    }
  }

  /** Without a ticket of even position, the couples are still neighbours of the group. */
  lemma CouplesAllowed(p: Policy, now: int, g: seq<Ticket>, k: nat)
    requires NeighboursPair(p, now, g) && k % 2 == 0 && k < |g|
    ensures forall i :: 0 <= i < |Couples(Without(g, k))| ==>
      Pairs(p, now, Couples(Without(g, k))[i].a, Couples(Without(g, k))[i].b)
  {
    hide Pairs, Without, Couples;
    WithoutAt(g, k);
    var h := Without(g, k);
    forall i | 0 <= i < |Couples(h)| ensures Pairs(p, now, Couples(h)[i].a, Couples(h)[i].b) {
      CouplesAt(h, i);
      var x, y := Up(2 * i, k), Up(2 * i + 1, k);
      assert y == x + 1 && h[2 * i] == g[x] && h[2 * i + 1] == g[y];
    }
  }

  /** In a run of odd length, leaving out the last ticket is no worse than leaving out any other
      of even position. */
  predicate LastIsBest(run: seq<Ticket>) {
    |run| % 2 == 1 ==>
      forall k :: 0 <= k < |run| && k % 2 == 0 ==>
        Disparity(Couples(run[..|run| - 1])) <= Disparity(Couples(Without(run, k)))
  }

  lemma SortedFront(g: seq<Ticket>)
    requires Sorted(g) && g != []
    ensures Sorted(g[..|g| - 1])
  {
  }

  lemma CouplesAsMany(p: Policy, now: int, g: seq<Ticket>, k: nat)
    requires Sorted(g) && NeighboursPair(p, now, g) && |g| % 2 == 1 && k % 2 == 0 && k < |g|
    ensures AsMany(p, now, g, Couples(Without(g, k)))
  {
    hide Sorted, NeighboursPair, Without, Couples, Players, Pairs, Linear;
    WithoutAt(g, k);
    LeavingKeepsSorted(g, k);
    CouplesOf(Without(g, k));
    CouplesSize(Without(g, k));
    CouplesAllowed(p, now, g, k);
    GreedyCouples(p, now, g);
    CouplesSize(g);
  }

  lemma EvenPositionBeats(g: seq<Ticket>, alt: seq<Match>) returns (k: nat)
    requires Sorted(g) && |g| == 2 * |alt| + 1 && multiset(Players(alt)) <= multiset(g)
    ensures k < |g| && k % 2 == 0 && Disparity(Couples(Without(g, k))) <= Disparity(alt)
  {
    hide Sorted, Without, Couples, Disparity, Players;
    k := LeftOut(g, alt);
    LeavingKeepsSorted(g, k);
    CouplesWithout(g, k);
    CouplesMinimal(Without(g, k), alt);
    if k % 2 == 1 {
      OneDownIsNoWorse(g, k);
      k := k - 1;
    }
  }

  lemma OneDownIsNoWorse(g: seq<Ticket>, k: nat)
    requires Sorted(g) && |g| % 2 == 1 && k % 2 == 1 && k < |g|
    ensures Disparity(Couples(Without(g, k - 1))) <= Disparity(Couples(Without(g, k)))
  {
    hide Sorted, Without, Couples, Disparity;
    OddOutNoBetter(g, k);
    CouplesWithout(g, k);
    CouplesWithout(g, k - 1);
  }

  lemma CouplesWithout(g: seq<Ticket>, k: nat)
    requires Sorted(g) && |g| % 2 == 1 && k < |g|
    ensures Disparity(Couples(Without(g, k))) == -Alternating(Without(g, k))
  {
    hide Sorted, Without, Couples, Disparity, Players;
    WithoutAt(g, k);
    LeavingKeepsSorted(g, k);
    CouplesOf(Without(g, k));
  }

  /** In a group of odd size whose neighbours may meet, the scan leaves the last ticket, which
      gives the smallest total disparity exactly when leaving out no other of even position
      would leave closer couples. */
  lemma OddGroupMinimalIff(p: Policy, now: int, g: seq<Ticket>)
    requires Sorted(g) && NeighboursPair(p, now, g) && |g| % 2 == 1
    ensures Players(Linear(p, now, g).0) == g[..|g| - 1]
    ensures Minimal(p, now, g) <==> LastIsBest(g)
  {
    hide Sorted, NeighboursPair, Linear, Without, Couples, Disparity, Players, Pairs;
    GreedyCouples(p, now, g);
    OddCouples(g);
    SortedFront(g);
    CouplesOf(g[..|g| - 1]);
    CouplesSize(g);
    if Minimal(p, now, g) {
      forall k | 0 <= k < |g| && k % 2 == 0
        ensures Disparity(Couples(g[..|g| - 1])) <= Disparity(Couples(Without(g, k))) {
        CouplesAsMany(p, now, g, k);
      }
    }
    if LastIsBest(g) {
      forall alt | AsMany(p, now, g, alt) ensures Disparity(Linear(p, now, g).0) <= Disparity(alt) {
        var k := EvenPositionBeats(g, alt);
      }
    }
  }

  /** So the nearest neighbours can be passed over: of three, the first two are matched however
      much closer the last two are. */
  lemma NearestPassedOver(p: Policy, now: int, a: Ticket, b: Ticket, c: Ticket)
    requires a.mmr <= b.mmr <= c.mmr && c.mmr - b.mmr < b.mmr - a.mmr && NeighboursPair(p, now, [a, b, c])
    ensures Disparity(Linear(p, now, [a, b, c]).0) == Gap(a, b) > Gap(b, c) == Disparity([Match(b, c, Gap(b, c))])
  {
    hide Pairs, Linear;
    var g := [a, b, c];
    GreedyCouples(p, now, g);
    assert Couples(g) == [Match(a, b, Gap(a, b))] + Couples(g[2..]) && Couples(g[2..]) == [];
  }

  // ----- Groups of many runs -----

  /** The length of the first run: up to the first gap above the bound. */
  function RunLength(g: seq<Ticket>, bound: int): (n: nat)
    requires g != []
    ensures 1 <= n <= |g|
    ensures forall i, j :: 0 <= i && j == i + 1 && j < n ==> Gap(g[i], g[j]) <= bound
    ensures n < |g| ==> Gap(g[n - 1], g[n]) > bound
  {
    if |g| == 1 || Gap(g[0], g[1]) > bound then 1 else 1 + RunLength(g[1..], bound)
  }

  function Runs(g: seq<Ticket>, bound: int): seq<seq<Ticket>> {
    if g == [] then []
    else var n := RunLength(g, bound); [g[..n]] + Runs(g[n..], bound)
  }

  /** A group in two parts, too far apart for anybody to meet across. */
  predicate SetApart(p: Policy, now: int, x: seq<Ticket>, y: seq<Ticket>, cut: int) {
    && (forall t :: t in x ==> t.mmr <= cut) && (forall t :: t in y ==> cut < t.mmr)
    && forall t, u :: t in x && u in y ==> !Pairs(p, now, t, u)
  }

  lemma {:induction false} GreedyApart(p: Policy, now: int, x: seq<Ticket>, y: seq<Ticket>)
    requires x != [] && y != [] ==> !Pairs(p, now, x[|x| - 1], y[0])
    ensures Linear(p, now, x + y).0 == Linear(p, now, x).0 + Linear(p, now, y).0
    decreases |x|
  {
    hide Pairs, Linear;
    LinearEmpty(p, now, x + y);
    if x == [] {
      assert x + y == y;
    } else {
      LinearStep(p, now, x + y, 0);
      LinearEmpty(p, now, x);
      LinearStep(p, now, x, 0);
      if |x| >= 2 && Pairs(p, now, x[0], x[1]) {
        assert (x + y)[2..] == x[2..] + y;
        GreedyApart(p, now, x[2..], y);
      } else {
        assert (x + y)[1..] == x[1..] + y;
        GreedyApart(p, now, x[1..], y);
      }
    }
  }

  /** The matches on one side of a rating. */
  function Part(alt: seq<Match>, cut: int, low: bool): (r: seq<Match>)
    ensures forall k :: 0 <= k < |r| ==> r[k] in alt && (r[k].a.mmr <= cut <==> low)
  {
    if alt == [] then []
    else (if (alt[0].a.mmr <= cut) == low then [alt[0]] else []) + Part(alt[1..], cut, low)
  }

  lemma {:induction false} PartsAddUp(alt: seq<Match>, cut: int)
    ensures |Part(alt, cut, true)| + |Part(alt, cut, false)| == |alt|
    ensures multiset(Players(Part(alt, cut, true))) + multiset(Players(Part(alt, cut, false))) == multiset(Players(alt))
    ensures Disparity(Part(alt, cut, true)) + Disparity(Part(alt, cut, false)) == Disparity(alt)
  {
    hide Players, Disparity, Gap, Part;
    PartStep(alt, cut, true);
    PartStep(alt, cut, false);
    if alt == [] {
      NoPlayers();
      NoDisparity();
    } else {
      var m, low, high := alt[0], Part(alt[1..], cut, true), Part(alt[1..], cut, false);
      PartsAddUp(alt[1..], cut);
      assert alt == [m] + alt[1..];
      OneMoreMatch(m, alt[1..]);
      OneMoreMatch(m, low);
      OneMoreMatch(m, high);
    }
  }

  lemma PartStep(alt: seq<Match>, cut: int, low: bool)
    ensures Part(alt, cut, low) ==
      if alt == [] then []
      else if (alt[0].a.mmr <= cut) == low then [alt[0]] + Part(alt[1..], cut, low) else Part(alt[1..], cut, low)
  {
  }

  lemma NoDisparity()
    ensures Disparity([]) == 0
  {
  }

  lemma OneMoreMatch(m: Match, ms: seq<Match>)
    ensures Players([m] + ms) == [m.a, m.b] + Players(ms)
    ensures Disparity([m] + ms) == Gap(m.a, m.b) + Disparity(ms)
  {
    assert ([m] + ms)[1..] == ms;
  }

  lemma {:induction false} DisparityAppend(x: seq<Match>, y: seq<Match>)
    ensures Disparity(x + y) == Disparity(x) + Disparity(y)
  {
    hide Gap;
    if x == [] {
      assert x + y == y;
    } else {
      DisparityAppend(x[1..], y);
      assert (x + y)[1..] == x[1..] + y;
    }
  }

  lemma {:induction false} PlayedIn(alt: seq<Match>, t: Ticket) returns (k: nat)
    requires t in Players(alt)
    ensures k < |alt| && (t == alt[k].a || t == alt[k].b)
  {
    if t == alt[0].a || t == alt[0].b {
      k := 0;
    } else {
      k := PlayedIn(alt[1..], t);
      k := k + 1;
    }
  }

  lemma {:induction false} BothPlay(alt: seq<Match>, k: nat)
    requires k < |alt|
    ensures alt[k].a in Players(alt) && alt[k].b in Players(alt)
  {
    if k > 0 {
      BothPlay(alt[1..], k - 1);
    }
  }

  /** Of a choice from both parts, each part's matches are a choice from that part. */
  lemma PartsStayApart(p: Policy, now: int, x: seq<Ticket>, y: seq<Ticket>, cut: int, alt: seq<Match>)
    requires SetApart(p, now, x, y, cut) && multiset(Players(alt)) <= multiset(x + y)
    requires forall k :: 0 <= k < |alt| ==> Pairs(p, now, alt[k].a, alt[k].b)
    ensures multiset(Players(Part(alt, cut, true))) <= multiset(x)
    ensures multiset(Players(Part(alt, cut, false))) <= multiset(y)
  {
    hide Pairs, Players, Part;
    PartsAddUp(alt, cut);
    var low, high := Part(alt, cut, true), Part(alt, cut, false);
    forall k | 0 <= k < |alt| ensures alt[k].a.mmr <= cut <==> alt[k].b.mmr <= cut {
      BothPlay(alt, k);
      PairsBothWays(p, now, alt[k].a, alt[k].b);
      assert alt[k].a in multiset(x + y) && alt[k].b in multiset(x + y);
    }
    forall t ensures multiset(Players(low))[t] <= multiset(x)[t] && multiset(Players(high))[t] <= multiset(y)[t] {
      assert multiset(x + y)[t] == multiset(x)[t] + multiset(y)[t];
      if t in Players(low) {
        var k := PlayedIn(low, t);
        assert t !in y;
      }
      if t in Players(high) {
        var k := PlayedIn(high, t);
        assert t !in x;
      }
    }
  }

  /** The total is the smallest in the whole exactly when it is in both parts. */
  lemma MinimalApart(p: Policy, now: int, x: seq<Ticket>, y: seq<Ticket>, cut: int, bound: int)
    requires SetApart(p, now, x, y, cut) && Sorted(x) && Sorted(y)
    requires Threshold(p, now, x, bound) && Threshold(p, now, y, bound)
    ensures Minimal(p, now, x + y) <==> Minimal(p, now, x) && Minimal(p, now, y)
  {
    hide Linear, Threshold, Disparity, AsMany, SetApart, Sorted;
    var lx, ly := Linear(p, now, x).0, Linear(p, now, y).0;
    LinearApart(p, now, x, y, cut);
    DisparityAppend(lx, ly);
    if Minimal(p, now, x) && Minimal(p, now, y) {
      forall alt | AsMany(p, now, x + y, alt) ensures Disparity(Linear(p, now, x + y).0) <= Disparity(alt) {
        PartsAddUp(alt, cut);
        PartsAsMany(p, now, x, y, cut, bound, alt);
      }
    }
    GreedyAsMany(p, now, x);
    GreedyAsMany(p, now, y);
    if Minimal(p, now, x + y) {
      forall alt | AsMany(p, now, x, alt) ensures Disparity(lx) <= Disparity(alt) {
        TogetherAsMany(p, now, x, y, alt, ly);
        DisparityAppend(alt, ly);
      }
      forall alt | AsMany(p, now, y, alt) ensures Disparity(ly) <= Disparity(alt) {
        TogetherAsMany(p, now, x, y, lx, alt);
        DisparityAppend(lx, alt);
      }
    }
  }

  lemma LinearApart(p: Policy, now: int, x: seq<Ticket>, y: seq<Ticket>, cut: int)
    requires SetApart(p, now, x, y, cut)
    ensures Linear(p, now, x + y).0 == Linear(p, now, x).0 + Linear(p, now, y).0
  {
    hide Pairs, Linear;
    GreedyApart(p, now, x, y);
  }

  lemma PartsAsMany(p: Policy, now: int, x: seq<Ticket>, y: seq<Ticket>, cut: int, bound: int, alt: seq<Match>)
    requires SetApart(p, now, x, y, cut) && Sorted(x) && Sorted(y)
    requires Threshold(p, now, x, bound) && Threshold(p, now, y, bound) && AsMany(p, now, x + y, alt)
    ensures AsMany(p, now, x, Part(alt, cut, true)) && AsMany(p, now, y, Part(alt, cut, false))
  {
    hide Pairs, Linear, Sorted, Threshold, Players, Disparity, Part;
    LinearApart(p, now, x, y, cut);
    PartsAddUp(alt, cut);
    PartsStayApart(p, now, x, y, cut, alt);
    GroupOptimal(p, now, x, bound, Part(alt, cut, true));
    GroupOptimal(p, now, y, bound, Part(alt, cut, false));
  }

  lemma GreedyAsMany(p: Policy, now: int, g: seq<Ticket>)
    ensures AsMany(p, now, g, Linear(p, now, g).0)
  {
    hide Pairs, Linear, Players;
    GroupConserved(p, now, g);
    var ms := Linear(p, now, g).0;
    forall k | 0 <= k < |ms| ensures Pairs(p, now, ms[k].a, ms[k].b) {
      MatchesRespectPolicy(p, now, g, k);
    }
  }

  lemma TogetherAsMany(p: Policy, now: int, x: seq<Ticket>, y: seq<Ticket>, ax: seq<Match>, ay: seq<Match>)
    requires AsMany(p, now, x, ax) && AsMany(p, now, y, ay)
    requires Linear(p, now, x + y).0 == Linear(p, now, x).0 + Linear(p, now, y).0
    ensures AsMany(p, now, x + y, ax + ay)
  {
    hide Pairs, Linear, Players;
    PlayersAppend(ax, ay);
  }

  lemma AcrossTheGap(p: Policy, now: int, g: seq<Ticket>, bound: int, n: nat, i: nat, j: nat)
    requires Sorted(g) && Threshold(p, now, g, bound) && bound >= 0
    requires i < n <= j < |g| && Gap(g[n - 1], g[n]) > bound
    ensures g[i].mmr <= g[n - 1].mmr < g[j].mmr && !Pairs(p, now, g[i], g[j])
  {
    hide Pairs;
    assert g[i].mmr <= g[n - 1].mmr <= g[n].mmr <= g[j].mmr;
  }

  lemma PartsApart(p: Policy, now: int, g: seq<Ticket>, bound: int, n: nat)
    requires Sorted(g) && Threshold(p, now, g, bound) && bound >= 0
    requires 0 < n <= |g| && (n < |g| ==> Gap(g[n - 1], g[n]) > bound)
    ensures SetApart(p, now, g[..n], g[n..], g[n - 1].mmr)
  {
    hide Pairs, Threshold, Gap;
    assert forall i :: 0 <= i < n ==> g[i].mmr <= g[n - 1].mmr;
    hide Sorted;
    forall i, j | 0 <= i < n <= j < |g| ensures g[n - 1].mmr < g[j].mmr && !Pairs(p, now, g[i], g[j]) {
      AcrossTheGap(p, now, g, bound, n, i, j);
    }
    assert n < |g| ==> forall j :: n <= j < |g| ==> g[n - 1].mmr < g[j].mmr && !Pairs(p, now, g[0], g[j]);
  }

  lemma PartsInherit(p: Policy, now: int, g: seq<Ticket>, bound: int, n: nat)
    requires Sorted(g) && Threshold(p, now, g, bound) && n <= |g|
    ensures Sorted(g[..n]) && Threshold(p, now, g[..n], bound) && Sorted(g[n..]) && Threshold(p, now, g[n..], bound)
  {
    hide Pairs;
  }

  lemma RunMinimalIff(p: Policy, now: int, run: seq<Ticket>)
    requires Sorted(run) && NeighboursPair(p, now, run)
    ensures Minimal(p, now, run) <==> LastIsBest(run)
  {
    hide Sorted, NeighboursPair, Minimal;
    if |run| % 2 == 0 {
      EvenGroupMinimal(p, now, run);
    } else {
      OddGroupMinimalIff(p, now, run);
    }
  }

  predicate AllLastBest(runs: seq<seq<Ticket>>) {
    forall r :: 0 <= r < |runs| ==> LastIsBest(runs[r])
  }

  lemma OneMoreRun(run: seq<Ticket>, rest: seq<seq<Ticket>>)
    ensures AllLastBest([run] + rest) <==> LastIsBest(run) && AllLastBest(rest)
  {
    hide LastIsBest;
    var runs := [run] + rest;
    assert runs[0] == run && forall r :: 0 <= r < |rest| ==> runs[r + 1] == rest[r];
    if AllLastBest(runs) {
      forall r | 0 <= r < |rest| ensures LastIsBest(rest[r]) {
        assert LastIsBest(runs[r + 1]);
      }
    }
  }

  lemma FirstRun(g: seq<Ticket>, bound: int)
    requires g != []
    ensures var n := RunLength(g, bound);
            AllLastBest(Runs(g, bound)) <==> LastIsBest(g[..n]) && AllLastBest(Runs(g[n..], bound))
  {
    hide LastIsBest, AllLastBest, Gap;
    OneMoreRun(g[..RunLength(g, bound)], Runs(g[RunLength(g, bound)..], bound));
  }

  lemma {:induction false} RunsMinimalIff(p: Policy, now: int, g: seq<Ticket>, bound: int)
    requires Sorted(g) && Threshold(p, now, g, bound) && bound >= 0
    ensures Minimal(p, now, g) <==> AllLastBest(Runs(g, bound))
    decreases |g|
  {
    hide Sorted, Threshold, Minimal, AllLastBest, LastIsBest, Pairs, SetApart, Runs;
    if g == [] {
      NothingMinimal(p, now, bound);
    } else {
      var n := RunLength(g, bound);
      var run, rest := g[..n], g[n..];
      PartsInherit(p, now, g, bound, n);
      PartsApart(p, now, g, bound, n);
      MinimalApart(p, now, run, rest, g[n - 1].mmr, bound);
      assert g == run + rest;
      RunNeighboursPair(p, now, g, bound);
      RunMinimalIff(p, now, run);
      RunsMinimalIff(p, now, rest, bound);
      FirstRun(g, bound);
    }
  }

  lemma RunNeighboursPair(p: Policy, now: int, g: seq<Ticket>, bound: int)
    requires Threshold(p, now, g, bound) && g != []
    ensures NeighboursPair(p, now, g[..RunLength(g, bound)])
  {
    hide Pairs;
  }

  lemma NothingMinimal(p: Policy, now: int, bound: int)
    ensures Minimal(p, now, []) && AllLastBest(Runs([], bound))
  {
    hide Pairs, Disparity, Players;
    NoDisparity();
    LinearEmpty(p, now, []);
  }

  /** Under a negative bound nobody meets, and every run is a single ticket. */
  lemma {:induction false} NobodyMeets(p: Policy, now: int, g: seq<Ticket>, bound: int)
    requires Threshold(p, now, g, bound) && bound < 0
    ensures Linear(p, now, g).0 == [] && AllLastBest(Runs(g, bound))
    decreases |g|
  {
    hide Pairs, Linear, Runs, AllLastBest;
    if g == [] {
      NothingMinimal(p, now, bound);
      LinearEmpty(p, now, g);
    } else {
      assert RunLength(g, bound) == 1;
      NobodyMeets(p, now, g[1..], bound);
      FirstRun(g, bound);
      SingleRun(g[..1]);
      LinearEmpty(p, now, g);
      LinearStep(p, now, g, 0);
    }
  }

  lemma SingleRun(run: seq<Ticket>)
    requires |run| == 1
    ensures LastIsBest(run)
  {
  }

  // ----- Main results -----

  /** Wherever a common bound on the gap decides who may meet, the scan's total disparity is the
      smallest among all choices of as many allowed matches exactly when, in each run of odd
      length, leaving out the last ticket is no worse than leaving out any other of even
      position. */
  lemma GroupMinimalIff(p: Policy, now: int, g: seq<Ticket>, bound: int)
    requires Sorted(g) && Threshold(p, now, g, bound)
    ensures Minimal(p, now, g) <==> AllLastBest(Runs(g, bound))
  {
    hide Sorted, Threshold, AllLastBest, Runs, AsMany;
    if bound >= 0 {
      RunsMinimalIff(p, now, g, bound);
    } else {
      NobodyMeets(p, now, g, bound);
      NoDisparity();
    }
  }

  /** So in every group with equal bands and nobody timed out. */
  lemma UniformGroupMinimalIff(p: Policy, now: int, g: seq<Ticket>, band: int)
    requires Sorted(g) && UniformBand(p, now, g, band)
    ensures Minimal(p, now, g) <==> AllLastBest(Runs(g, if band < NO_PARTNER_GAP then band else NO_PARTNER_GAP - 1))
  {
    hide Sorted, UniformBand, Threshold, Minimal, AllLastBest, Runs;
    UniformIsThreshold(p, now, g, band);
    GroupMinimalIff(p, now, g, if band < NO_PARTNER_GAP then band else NO_PARTNER_GAP - 1);
  }
}
