/** How the band widens, and from when two tickets may meet. */
module BandProofs {
  import opened Types
  import opened Matcher

  const SECOND := 1_000_000_000

  /** secs whole seconds have passed since the ticket began to wait, and its rating deviation adds
      rd points. */
  predicate Waited(t: Ticket, now: int, secs: int, rd: int) {
    && t.waitStarted <= now && WholePart(secs, now - t.waitStarted, SECOND)
    && t.rd >= 0.0 && WholeReal(rd, t.rd / 4.0)
  }

  /** The band: so much to begin with, so much for each whole second waited, a quarter of the
      rating deviation, and never more than the cap. */
  lemma BandLaw(p: Policy, t: Ticket, now: int, secs: int, rd: int)
    requires Waited(t, now, secs, rd)
    ensures var open := p.baseBand + secs * p.widenPerSec + rd;
            Band(p, t, now) == if open > p.maxBand then p.maxBand else open
  {
    var n := now - t.waitStarted;
    assert n / SECOND == secs;
    assert t.rd / 4.0 >= 0.0;
  }

  /** Below the cap every further second adds exactly the widening, and four points of deviation
      add one. */
  lemma BandSteps(p: Policy, t: Ticket, now: int, k: nat)
    requires t.waitStarted <= now && t.rd >= 0.0
    ensures Band(p, t, now + k * SECOND) < p.maxBand && Band(p, t, now) < p.maxBand ==>
      Band(p, t, now + k * SECOND) == Band(p, t, now) + k * p.widenPerSec
    ensures Band(p, t.(rd := t.rd + 4.0 * k as real), now) < p.maxBand && Band(p, t, now) < p.maxBand ==>
      Band(p, t.(rd := t.rd + 4.0 * k as real), now) == Band(p, t, now) + k
  {
    hide Band;
    var secs, rd := (now - t.waitStarted) / SECOND, (t.rd / 4.0).Floor;
    assert Waited(t, now, secs, rd);
    BandLaw(p, t, now, secs, rd);
    assert Waited(t, now + k * SECOND, secs + k, rd);
    BandLaw(p, t, now + k * SECOND, secs + k, rd);
    assert (secs + k) * p.widenPerSec == secs * p.widenPerSec + k * p.widenPerSec;
    var t' := t.(rd := t.rd + 4.0 * k as real);
    assert t'.rd / 4.0 == t.rd / 4.0 + k as real;
    assert Waited(t', now, secs, rd + k);
    BandLaw(p, t', now, secs, rd + k);
  }

  /** Two ratings are so far apart. */
  predicate Distance(a: Ticket, b: Ticket, gap: int) {
    gap >= 0 && (gap == a.mmr - b.mmr || gap == b.mmr - a.mmr)
  }

  /** Two tickets may be matched exactly when they are closer than 2^30 and either of them has
      waited past the hard timeout, or has a band that reaches the other. */
  lemma MeetIff(p: Policy, now: int, a: Ticket, b: Ticket, gap: int, sa: int, ra: int, sb: int, rb: int)
    requires Waited(a, now, sa, ra) && Waited(b, now, sb, rb) && Distance(a, b, gap)
    ensures Pairs(p, now, a, b) <==>
      && gap < 0x4000_0000
      && (now - a.waitStarted > p.hardTimeout || now - b.waitStarted > p.hardTimeout
          || (gap <= p.maxBand && (gap <= p.baseBand + sa * p.widenPerSec + ra || gap <= p.baseBand + sb * p.widenPerSec + rb)))
  {
    hide Band;
    BandLaw(p, a, now, sa, ra);
    BandLaw(p, b, now, sb, rb);
  }

  /** From which second on a ticket's band reaches a gap within the cap: the first by which the
      widening has made up what the opening band and the deviation leave. */
  lemma ReachesFrom(p: Policy, t: Ticket, now: int, gap: int, secs: int, rd: int, first: int)
    requires Waited(t, now, secs, rd) && 0 <= gap <= p.maxBand && p.widenPerSec > 0
    requires (first - 1) * p.widenPerSec < gap - p.baseBand - rd <= first * p.widenPerSec
    ensures gap <= Band(p, t, now) <==> secs >= first
  {
    hide Band;
    BandLaw(p, t, now, secs, rd);
    FirstMultiple(p.widenPerSec, secs, first, gap - p.baseBand - rd);
  }

  lemma FirstMultiple(w: int, n: int, first: int, need: int)
    requires w > 0 && (first - 1) * w < need <= first * w
    ensures need <= n * w <==> n >= first
  {
    if n >= first {
      assert (n - first) * w >= 0;
    } else {
      assert (first - 1 - n) * w >= 0;
    }
  }

  /** Ten seconds at the default policy reach 300 points, so players 200 apart are matched; fresh
      arrivals at that distance are not. */
  lemma DefaultPolicyWidens(a: Ticket, b: Ticket)
    requires a.rd == b.rd == 0.0 && a.waitStarted == b.waitStarted == 0 && b.mmr == a.mmr + 200
    ensures var p := Policy(50, 25, 400, 30 * SECOND);
            Linear(p, 10 * SECOND, [a, b]) == ([Match(a, b, 200)], []) && Linear(p, 0, [a, b]) == ([], [a, b])
  {
    hide Pairs, Linear;
    var p, g := Policy(50, 25, 400, 30 * SECOND), [a, b];
    assert Waited(a, 10 * SECOND, 10, 0) && Waited(b, 10 * SECOND, 10, 0) && Waited(a, 0, 0, 0) && Waited(b, 0, 0, 0);
    assert Distance(a, b, 200);
    MeetIff(p, 10 * SECOND, a, b, 200, 10, 0, 10, 0);
    MeetIff(p, 0, a, b, 200, 0, 0, 0, 0);
    forall now ensures Linear(p, now, g) == if Pairs(p, now, a, b) then ([Match(a, b, 200)], []) else ([], [a, b]) {
      TwoTickets(p, now, a, b);
    }
  }

  lemma TwoTickets(p: Policy, now: int, a: Ticket, b: Ticket)
    ensures Linear(p, now, [a, b]) == if Pairs(p, now, a, b) then ([Match(a, b, Gap(a, b))], []) else ([], [a, b])
  {
    hide Pairs, Linear, Gap;
    var g := [a, b];
    LinearEmpty(p, now, g);
    LinearStep(p, now, g, 0);
    LinearStep(p, now, g, 1);
    assert g[2..] == [];
    assert [Match(a, b, Gap(a, b))] + [] == [Match(a, b, Gap(a, b))];
    assert [a] + ([b] + []) == g;
  }

  /** The key of a ticket is its region and its mode around a separator, and each ticket goes to
      the group of its key. */
  lemma KeyLaw(t: Ticket)
    ensures |KeyOf(t)| == |t.region| + 1 + |t.mode|
    ensures t.region <= KeyOf(t) && KeyOf(t)[|t.region|] == '|' && KeyOf(t)[|t.region| + 1..] == t.mode
  {
  }
}
