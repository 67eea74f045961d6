/** The in-memory rate limiter (services/gateway/internal/gateway.go:149-182). */
module Limiter {
  import opened Keys
  import opened Types

  datatype Bucket = Bucket(tokens: int, reset: int)

  datatype Config = Config(rate: int, window: nat)

  /** One call on a bucket that may not exist yet. */
  function Hit(cfg: Config, b: Option<Bucket>, now: int): (Bucket, bool) {
    if b.None? || now > b.value.reset then (Bucket(cfg.rate - 1, now + cfg.window), true)
    else if b.value.tokens <= 0 then (b.value, false)
    else (b.value.(tokens := b.value.tokens - 1), true)
  }

  type Buckets = map<string, Bucket>

  function Find(bs: Buckets, k: string): Option<Bucket> {
    if k in bs then Some(bs[k]) else None
  }

  function KeyOf(key: string, route: string): string {
    Joined(key, route)
  }

  datatype Call = Call(key: string, route: string, now: int)

  function AllowOn(cfg: Config, bs: Buckets, c: Call): (Buckets, bool) {
    var k := KeyOf(c.key, c.route);
    var r := Hit(cfg, Find(bs, k), c.now);
    (bs[k := r.0], r.1)
  }

  class MemoryLimiter {
    var buckets: Buckets
    const cfg: Config

    constructor (rate: int, window: nat)
      ensures buckets == map[] && cfg == Config(rate, window)
    {
      buckets, cfg := map[], Config(rate, window);
    }

    method Allow(key: string, route: string, now: int) returns (ok: bool)
      modifies this
      ensures (buckets, ok) == AllowOn(cfg, old(buckets), Call(key, route, now))
    {
      var k := KeyOf(key, route);
      if k !in buckets || now > buckets[k].reset {
        buckets := buckets[k := Bucket(cfg.rate - 1, now + cfg.window)];
        return true;
      }
      var b := buckets[k];
      if b.tokens <= 0 {
        assert buckets == buckets[k := b];
        return false;
      }
      buckets := buckets[k := b.(tokens := b.tokens - 1)];
      ok := true;
    }
  }

  // ----- Runs -----

  function BucketsAfter(cfg: Config, bs: Buckets, calls: seq<Call>): Buckets {
    if calls == [] then bs
    else AllowOn(cfg, BucketsAfter(cfg, bs, calls[..|calls| - 1]), calls[|calls| - 1]).0
  }

  /** The answer to the k-th call of a run. */
  function Answer(cfg: Config, bs: Buckets, calls: seq<Call>, k: nat): bool
    requires k < |calls|
  {
    AllowOn(cfg, BucketsAfter(cfg, bs, calls[..k]), calls[k]).1
  }

  // ----- Other keys never matter -----

  /** The calls of a run that go to one composed key. */
  function Only(calls: seq<Call>, k: string): seq<Call> {
    if calls == [] then []
    else
      var last := calls[|calls| - 1];
      Only(calls[..|calls| - 1], k) + (if KeyOf(last.key, last.route) == k then [last] else [])
  }

  lemma {:induction false} BucketIgnoresOthers(cfg: Config, bs: Buckets, calls: seq<Call>, k: string)
    ensures Find(BucketsAfter(cfg, bs, calls), k) == Find(BucketsAfter(cfg, bs, Only(calls, k)), k)
  {
    hide KeyOf, Hit;
    if calls == [] {
    } else {
      var n := |calls| - 1;
      BucketIgnoresOthers(cfg, bs, calls[..n], k);
      if KeyOf(calls[n].key, calls[n].route) == k {
        assert Only(calls, k)[..|Only(calls, k)| - 1] == Only(calls[..n], k);
      } else {
        assert Only(calls, k) == Only(calls[..n], k);
      }
    }
  }

  /** The answer to a call depends on the earlier calls on its own composed key alone. */
  lemma AnswerIgnoresOthers(cfg: Config, bs: Buckets, calls: seq<Call>, n: nat)
    requires n < |calls|
    ensures var own := Only(calls[..n], KeyOf(calls[n].key, calls[n].route)) + [calls[n]];
            Answer(cfg, bs, calls, n) == Answer(cfg, bs, own, |own| - 1)
  {
    hide KeyOf, Hit;
    var k := KeyOf(calls[n].key, calls[n].route);
    var own := Only(calls[..n], k) + [calls[n]];
    BucketIgnoresOthers(cfg, bs, calls[..n], k);
    assert own[..|own| - 1] == Only(calls[..n], k);
  }

  // ----- The sliding-window bound -----

  /** A run on one key: the times of the calls. */
  function BucketAt(cfg: Config, times: seq<int>): Option<Bucket> {
    if times == [] then None else Some(Hit(cfg, BucketAt(cfg, times[..|times| - 1]), times[|times| - 1]).0)
  }

  function Allowed(cfg: Config, times: seq<int>, k: nat): bool
    requires k < |times|
  {
    Hit(cfg, BucketAt(cfg, times[..k]), times[k]).1
  }

  predicate NonDecreasing(times: seq<int>) {
    forall i, j :: 0 <= i <= j < |times| ==> times[i] <= times[j]
  }

  /** The calls allowed among the first n whose time lies in from..to. */
  function AllowedIn(cfg: Config, times: seq<int>, n: nat, from: int, to: int): nat
    requires n <= |times|
  {
    if n == 0 then 0
    else
      var counts := from <= times[n - 1] <= to && Allowed(cfg, times, n - 1);
      AllowedIn(cfg, times, n - 1, from, to) + (if counts then 1 else 0)
  }

  /** The number of calls one bucket can allow: it always allows the call that opens it. */
  function Quota(cfg: Config): int {
    if cfg.rate > 1 then cfg.rate else 1
  }

  function Left(b: Bucket): int {
    if b.tokens > 0 then b.tokens else 0
  }

  /** When the bucket was opened. */
  function Opened(cfg: Config, b: Bucket): int {
    b.reset - cfg.window
  }

  lemma BucketStep(cfg: Config, times: seq<int>, n: nat)
    requires n < |times|
    ensures BucketAt(cfg, times[..n + 1]) == Some(Hit(cfg, BucketAt(cfg, times[..n]), times[n]).0)
  {
    assert times[..n + 1][..n] == times[..n];
  }

  lemma {:induction false} NoneBefore(cfg: Config, times: seq<int>, n: nat, from: int, to: int)
    requires n <= |times| && forall k :: 0 <= k < n ==> times[k] < from
    ensures AllowedIn(cfg, times, n, from, to) == 0
  {
    if n > 0 {
      NoneBefore(cfg, times, n - 1, from, to);
    }
  }

  /** What the calls allowed so far in a closed interval of one window's length can amount to,
      by where the current bucket was opened: before the interval, in it, or after it. */
  ghost predicate Bounded(cfg: Config, times: seq<int>, n: nat, from: int)
    requires 0 < n <= |times|
  {
    var b, count := BucketAt(cfg, times[..n]), AllowedIn(cfg, times, n, from, from + cfg.window);
    && b.Some?
    && Opened(cfg, b.value) <= times[n - 1] <= b.value.reset
    && (Opened(cfg, b.value) < from ==> count <= Quota(cfg) - 1 - Left(b.value))
    && (from <= Opened(cfg, b.value) <= from + cfg.window ==> count <= 2 * Quota(cfg) - 1 - Left(b.value))
    && count <= 2 * Quota(cfg) - 1
  }

  lemma {:induction false} StaysBounded(cfg: Config, times: seq<int>, n: nat, from: int)
    requires 0 < n <= |times| && NonDecreasing(times)
    ensures Bounded(cfg, times, n, from)
    decreases n
  {
    hide BucketAt;
    BucketStep(cfg, times, n - 1);
    if n == 1 {
      NoBucketYet(cfg, times);
      assert AllowedIn(cfg, times, 0, from, from + cfg.window) == 0;
    } else {
      StaysBounded(cfg, times, n - 1, from);
      if times[n - 1] < from {
        NoneBefore(cfg, times, n, from, from + cfg.window);
      }
      if times[n - 2] < from {
        NoneBefore(cfg, times, n - 1, from, from + cfg.window);
      }
    }
  }

  lemma NoBucketYet(cfg: Config, times: seq<int>)
    ensures BucketAt(cfg, times[..0]) == None
  {
  }

  /** In any closed interval of one window's length, a key is allowed at most 2 * rate - 1 calls
      (one, if the rate is not positive). */
  lemma SlidingWindowBound(cfg: Config, times: seq<int>, from: int)
    requires NonDecreasing(times)
    ensures AllowedIn(cfg, times, |times|, from, from + cfg.window) <= 2 * Quota(cfg) - 1
  {
    if times != [] {
      StaysBounded(cfg, times, |times|, from);
    }
  }

  // ----- The same bound inside a run over many keys -----

  function Times(calls: seq<Call>): (ts: seq<int>)
    ensures |ts| == |calls| && forall i :: 0 <= i < |ts| ==> ts[i] == calls[i].now
  {
    if calls == [] then [] else Times(calls[..|calls| - 1]) + [calls[|calls| - 1].now]
  }

  /** A limiter's bucket for a key is the one that key's own calls make. */
  lemma {:induction false} BucketOfKey(cfg: Config, calls: seq<Call>, k: string)
    ensures Find(BucketsAfter(cfg, map[], calls), k) == BucketAt(cfg, Times(Only(calls, k)))
  {
    hide KeyOf, Hit;
    if calls == [] {
    } else {
      var n := |calls| - 1;
      BucketOfKey(cfg, calls[..n], k);
      if KeyOf(calls[n].key, calls[n].route) == k {
        var own := Only(calls, k);
        assert own[..|own| - 1] == Only(calls[..n], k);
        assert Times(own)[..|own| - 1] == Times(own[..|own| - 1]);
      } else {
        assert Only(calls, k) == Only(calls[..n], k);
      }
    }
  }

  /** The allowed calls on key k among the first n of a run whose time lies in from..to. */
  function KeyAllowedIn(cfg: Config, calls: seq<Call>, n: nat, k: string, from: int, to: int): nat
    requires n <= |calls|
  {
    if n == 0 then 0
    else
      var c := calls[n - 1];
      var counts := KeyOf(c.key, c.route) == k && from <= c.now <= to && Answer(cfg, map[], calls, n - 1);
      KeyAllowedIn(cfg, calls, n - 1, k, from, to) + (if counts then 1 else 0)
  }

  lemma {:induction false} AllowedInPrefix(cfg: Config, times: seq<int>, t: int, n: nat, from: int, to: int)
    requires n <= |times|
    ensures AllowedIn(cfg, times + [t], n, from, to) == AllowedIn(cfg, times, n, from, to)
  {
    hide Hit;
    if n > 0 {
      AllowedInPrefix(cfg, times, t, n - 1, from, to);
      assert (times + [t])[..n - 1] == times[..n - 1];
    }
  }

  lemma OnlyStep(calls: seq<Call>, n: nat, k: string)
    requires 0 < n <= |calls|
    ensures var c := calls[n - 1];
            Only(calls[..n], k) == Only(calls[..n - 1], k) + (if KeyOf(c.key, c.route) == k then [c] else [])
  {
    hide KeyOf;
    assert calls[..n][..n - 1] == calls[..n - 1];
  }

  lemma TimesSnoc(calls: seq<Call>, c: Call)
    ensures Times(calls + [c]) == Times(calls) + [c.now]
  {
    assert (calls + [c])[..|calls|] == calls;
  }

  lemma {:induction false} KeyAllowedIsOwn(cfg: Config, calls: seq<Call>, n: nat, k: string, from: int, to: int)
    requires n <= |calls|
    ensures var own := Times(Only(calls[..n], k)); KeyAllowedIn(cfg, calls, n, k, from, to) == AllowedIn(cfg, own, |own|, from, to)
  {
    hide KeyOf, Hit, Only, Times, BucketAt, BucketsAfter;
    if n == 0 {
      NothingOwn(k);
    } else {
      KeyAllowedIsOwn(cfg, calls, n - 1, k, from, to);
      OnlyStep(calls, n, k);
      var own := Times(Only(calls[..n - 1], k));
      var c := calls[n - 1];
      if KeyOf(c.key, c.route) == k {
        TimesSnoc(Only(calls[..n - 1], k), c);
        AllowedInPrefix(cfg, own, c.now, |own|, from, to);
        BucketOfKey(cfg, calls[..n - 1], k);
        assert (own + [c.now])[..|own|] == own;
      } else {
        assert Only(calls[..n - 1], k) + [] == Only(calls[..n - 1], k);
      }
    }
  }

  lemma NothingOwn(k: string)
    ensures Only([], k) == [] && Times([]) == []
  {
  }

  predicate Ordered(calls: seq<Call>) {
    forall i, j :: 0 <= i <= j < |calls| ==> calls[i].now <= calls[j].now
  }

  lemma {:induction false} OnlyOrdered(calls: seq<Call>, k: string, n: nat)
    requires Ordered(calls) && n <= |calls|
    ensures Ordered(Only(calls[..n], k))
    ensures n > 0 ==> forall i :: 0 <= i < |Only(calls[..n], k)| ==> Only(calls[..n], k)[i].now <= calls[n - 1].now
  {
    hide KeyOf, Only;
    NothingOwn(k);
    assert calls[..0] == [];
    if n > 0 {
      OnlyOrdered(calls, k, n - 1);
      OnlyStep(calls, n, k);
      assert n > 1 ==> calls[n - 2].now <= calls[n - 1].now;
    }
  }

  /** Whatever other keys do, over any run of a new limiter with a clock that does not go back,
      a key is allowed at most 2 * rate - 1 calls in any closed interval of one window's length. */
  lemma EveryKeyIsBounded(cfg: Config, calls: seq<Call>, k: string, from: int)
    requires Ordered(calls)
    ensures KeyAllowedIn(cfg, calls, |calls|, k, from, from + cfg.window) <= 2 * Quota(cfg) - 1
  {
    hide KeyAllowedIn, AllowedIn, Only, Times;
    assert calls[..|calls|] == calls;
    KeyAllowedIsOwn(cfg, calls, |calls|, k, from, from + cfg.window);
    OnlyOrdered(calls, k, |calls|);
    SlidingWindowBound(cfg, Times(Only(calls, k)), from);
  }

  // ----- The bound is attained -----

  function Repeat(t: int, k: nat): (ts: seq<int>)
    ensures |ts| == k && forall i :: 0 <= i < k ==> ts[i] == t
  {
    if k == 0 then [] else Repeat(t, k - 1) + [t]
  }

  /** k calls at one time, while the bucket has tokens for them, are all allowed. */
  lemma {:induction false} Burst(cfg: Config, times: seq<int>, n: nat, k: nat, b: Bucket, from: int, to: int)
    requires n + k <= |times| && forall i :: n <= i < n + k ==> times[i] <= b.reset && from <= times[i] <= to
    requires BucketAt(cfg, times[..n]) == Some(b) && b.tokens >= k
    ensures BucketAt(cfg, times[..n + k]) == Some(b.(tokens := b.tokens - k))
    ensures AllowedIn(cfg, times, n + k, from, to) == AllowedIn(cfg, times, n, from, to) + k
    decreases k
  {
    hide BucketAt;
    if k > 0 {
      Burst(cfg, times, n, k - 1, b, from, to);
      BucketStep(cfg, times, n + k - 1);
    }
  }

  /** One call at 0, rate - 1 at the end of its window, rate just after. */
  predicate EdgeBurst(cfg: Config, times: seq<int>) {
    && cfg.rate >= 1 && |times| == 2 * cfg.rate && times[0] == 0
    && (forall i :: 1 <= i < cfg.rate ==> times[i] == cfg.window)
    && (forall i :: cfg.rate <= i < 2 * cfg.rate ==> times[i] == cfg.window + 1)
  }

  lemma EdgeBurstCounts(cfg: Config, times: seq<int>)
    requires EdgeBurst(cfg, times) && cfg.window >= 1
    ensures AllowedIn(cfg, times, |times|, cfg.window, 2 * cfg.window) == 2 * cfg.rate - 1
  {
    hide BucketAt;
    var w, r := cfg.window, cfg.rate;
    NoBucketYet(cfg, times);
    BucketStep(cfg, times, 0);
    assert AllowedIn(cfg, times, 0, w, 2 * w) == 0;
    assert AllowedIn(cfg, times, 1, w, 2 * w) == 0;
    Burst(cfg, times, 1, r - 1, Bucket(r - 1, w), w, 2 * w);
    BucketStep(cfg, times, r);
    assert AllowedIn(cfg, times, r + 1, w, 2 * w) == r;
    Burst(cfg, times, r + 1, r - 1, Bucket(r - 1, w + 1 + w), w, 2 * w);
  }

  /** The bound is attained: one call opens a bucket, the rest of its quota is spent at its very
      end, and a whole quota just after. */
  lemma BoundIsAttained(cfg: Config) returns (times: seq<int>, from: int)
    requires cfg.rate >= 1 && cfg.window >= 1
    ensures NonDecreasing(times)
    ensures AllowedIn(cfg, times, |times|, from, from + cfg.window) == 2 * cfg.rate - 1
  {
    hide Repeat, AllowedIn;
    times, from := [0] + Repeat(cfg.window, cfg.rate - 1) + Repeat(cfg.window + 1, cfg.rate), cfg.window;
    assert EdgeBurst(cfg, times);
    EdgeBurstCounts(cfg, times);
  }

  // ----- When the rate itself is the bound -----

  /** With a window of no length, each instant opens a bucket of its own. */
  ghost predicate OneInstant(cfg: Config, times: seq<int>, n: nat, from: int)
    requires 0 < n <= |times|
  {
    var b, count := BucketAt(cfg, times[..n]), AllowedIn(cfg, times, n, from, from);
    && b.Some? && b.value.reset == times[n - 1]
    && (times[n - 1] == from ==> count <= Quota(cfg) - Left(b.value))
    && count <= Quota(cfg)
  }

  lemma {:induction false} InstantBound(cfg: Config, times: seq<int>, n: nat, from: int)
    requires 0 < n <= |times| && NonDecreasing(times) && cfg.window == 0
    ensures OneInstant(cfg, times, n, from)
    decreases n
  {
    hide BucketAt;
    BucketStep(cfg, times, n - 1);
    if n == 1 {
      NoBucketYet(cfg, times);
      assert AllowedIn(cfg, times, 0, from, from) == 0;
    } else {
      InstantBound(cfg, times, n - 1, from);
      if times[n - 2] < from {
        NoneBefore(cfg, times, n - 1, from, from);
      }
    }
  }

  lemma FirstIsAllowed(cfg: Config)
    ensures AllowedIn(cfg, [0], 1, 0, cfg.window) == 1
  {
    assert [0][..0] == [];
    assert AllowedIn(cfg, [0], 0, 0, cfg.window) == 0;
  }

  /** No more calls allowed than the rate says, in the window's length from a time on. */
  predicate WithinRate(cfg: Config, times: seq<int>, from: int) {
    AllowedIn(cfg, times, |times|, from, from + cfg.window) <= cfg.rate
  }

  /** The rate bounds every interval of one window's length exactly when it is one, or when it is
      positive and the window has no length. */
  lemma RateBoundsIff(cfg: Config)
    ensures (forall times, from :: NonDecreasing(times) ==> WithinRate(cfg, times, from))
            <==> cfg.rate == 1 || (cfg.rate >= 1 && cfg.window == 0)
  {
    hide AllowedIn;
    if cfg.rate < 1 {
      FirstIsAllowed(cfg);
      assert NonDecreasing([0]) && !WithinRate(cfg, [0], 0);
    } else if cfg.rate == 1 {
      forall times, from | NonDecreasing(times) ensures WithinRate(cfg, times, from) {
        SlidingWindowBound(cfg, times, from);
      }
    } else if cfg.window == 0 {
      forall times, from | NonDecreasing(times) ensures WithinRate(cfg, times, from) {
        RateInAnInstant(cfg, times, from);
      }
    } else {
      var times, from := BoundIsAttained(cfg);
      assert !WithinRate(cfg, times, from);
    }
  }

  lemma RateInAnInstant(cfg: Config, times: seq<int>, from: int)
    requires NonDecreasing(times) && cfg.window == 0 && cfg.rate >= 1
    ensures AllowedIn(cfg, times, |times|, from, from) <= cfg.rate
  {
    if times != [] {
      InstantBound(cfg, times, |times|, from);
    }
  }

  // ----- Who shares a bucket -----

  /** Two callers share a bucket exactly when their keys and routes agree, or one key is the
      other followed by a separator and the start of the other's route. */
  lemma SameBucketIff(c: Call, d: Call)
    ensures KeyOf(c.key, c.route) == KeyOf(d.key, d.route) <==>
      (c.key == d.key && c.route == d.route)
      || Straddles(c.key, c.route, d.key, d.route) || Straddles(d.key, d.route, c.key, c.route)
  {
    hide Joined, Straddles;
    SharedKeyIff(c.key, c.route, d.key, d.route);
  }

  // ----- One window -----

  /** One call: a new window opens if there is none or the last has run out, and its first call is
      allowed.  Otherwise the call takes a token, or is refused for want of one, which leaves the
      bucket as it was. */
  lemma CallLaw(cfg: Config, b: Option<Bucket>, now: int)
    ensures var r := Hit(cfg, b, now);
            && (b == None || now > b.value.reset ==> r.1 && r.0.reset == now + cfg.window && r.0.tokens == cfg.rate - 1)
            && (b != None && now <= b.value.reset ==>
                  && r.0.reset == b.value.reset
                  && (r.1 <==> b.value.tokens > 0)
                  && r.0.tokens == (if r.1 then b.value.tokens - 1 else b.value.tokens))
  {
  }

  /** The call at n opens a window. */
  predicate Opens(cfg: Config, times: seq<int>, n: nat)
    requires n < |times|
  {
    var b := BucketAt(cfg, times[..n]);
    b == None || times[n] > b.value.reset
  }

  lemma {:induction false} InWindow(cfg: Config, times: seq<int>, n: nat, k: nat)
    requires n + k < |times| && Opens(cfg, times, n)
    requires forall i :: n <= i <= n + k ==> times[i] <= times[n] + cfg.window
    ensures BucketAt(cfg, times[..n + k + 1])
            == Some(Bucket(if k < cfg.rate then cfg.rate - 1 - k else if cfg.rate >= 1 then 0 else cfg.rate - 1, times[n] + cfg.window))
    decreases k
  {
    hide BucketAt;
    BucketStep(cfg, times, n + k);
    if k > 0 {
      InWindow(cfg, times, n, k - 1);
    }
  }

  /** Within one window exactly the first rate calls are allowed, and always the very first. */
  lemma WindowLaw(cfg: Config, times: seq<int>, n: nat, k: nat)
    requires n + k < |times| && Opens(cfg, times, n)
    requires forall i :: n <= i <= n + k ==> times[i] <= times[n] + cfg.window
    ensures Allowed(cfg, times, n + k) <==> k == 0 || k < cfg.rate
  {
    hide BucketAt;
    if k > 0 {
      InWindow(cfg, times, n, k - 1);
    }
  }
}
