/** The match random number generator: SplitMix64 (services/battle/internal/engine/rng.go). */
module Rng {
  import opened Words

  const GOLDEN: nat := 0x9E3779B97F4A7C15
  const GOLDEN_INVERSE: nat := 0xF1DE83E19937733D

  /** The state after one draw: a wrapping 64-bit addition. */
  function Advance(s: Word): Word {
    (s + GOLDEN) % WORD_COUNT
  }

  // SplitMix64's output step: two rounds of xor-shift and multiply, then a last xor-shift.
  function XorShift30(z: bv64): bv64 { z ^ (z >> 30) }
  function XorShift27(z: bv64): bv64 { z ^ (z >> 27) }
  function XorShift31(z: bv64): bv64 { z ^ (z >> 31) }
  function Scale1(z: bv64): bv64 { z * 0xBF58476D1CE4E5B9 }
  function Scale2(z: bv64): bv64 { z * 0x94D049BB133111EB }

  function Mix(z: bv64): bv64 {
    XorShift31(Scale2(XorShift27(Scale1(XorShift30(z)))))
  }

  // The inverse of each step: the shifts folded back in, and the inverse multipliers.
  function Unshift30(y: bv64): bv64 { y ^ (y >> 30) ^ (y >> 60) }
  function Unshift27(y: bv64): bv64 { y ^ (y >> 27) ^ (y >> 54) }
  function Unshift31(y: bv64): bv64 { y ^ (y >> 31) ^ (y >> 62) }
  function Unscale1(z: bv64): bv64 { z * 0x96DE1B173F119089 }
  function Unscale2(z: bv64): bv64 { z * 0x319642B2D24D8EC3 }

  function Unmix(w: bv64): bv64 {
    Unshift30(Unscale1(Unshift27(Unscale2(Unshift31(w)))))
  }

  /** The 64-bit word a draw returns when it moves the state to s. */
  function Output(s: Word): Word {
    FromBits(Mix(ToBits(s)))
  }

  function DrawIntN(s: Word, n: nat): (r: (Word, nat))
    requires n > 0
    ensures r.1 < n
  {
    (Advance(s), Output(Advance(s)) % n)
  }

  /** A guaranteed or an impossible event draws nothing. */
  function DrawChance(s: Word, pct: int): (Word, bool) {
    if pct <= 0 then (s, false)
    else if pct >= 100 then (s, true)
    else var r := DrawIntN(s, 100); (r.0, r.1 < pct)
  }

  /** The 53 high-order bits of a word. */
  function TopBits(w: Word): (t: nat)
    ensures t < 0x20_0000_0000_0000
  {
    w / 2048
  }

  function DrawFloat(s: Word): (r: (Word, real))
    ensures 0.0 <= r.1 < 1.0
  {
    (Advance(s), TopBits(Output(Advance(s))) as real / 9007199254740992.0)
  }

  /** The generator itself: one mutable word. */
  class RNG {
    var state: Word

    constructor (seed: Word)
      ensures state == seed
    {
      state := seed;
    }

    method Next() returns (z: Word)
      modifies this
      ensures state == Advance(old(state)) && z == Output(state)
    {
      state := (state + GOLDEN) % WORD_COUNT;
      z := FromBits(Mix(ToBits(state)));
    }

    method IntN(n: nat) returns (r: nat)
      requires n > 0
      modifies this
      ensures (state, r) == DrawIntN(old(state), n)
    {
      var z := Next();
      r := z % n;
    }

    method Chance(pct: int) returns (ok: bool)
      modifies this
      ensures (state, ok) == DrawChance(old(state), pct)
    {
      if pct <= 0 {
        return false;
      }
      if pct >= 100 {
        return true;
      }
      var r := IntN(100);
      ok := r < pct;
    }

    method Float() returns (f: real)
      modifies this
      ensures (state, f) == DrawFloat(old(state))
    {
      var z := Next();
      f := TopBits(z) as real / 9007199254740992.0;
    }
  }

  // ----- The output function is a permutation of the 64-bit words -----

  lemma Step30(z: bv64)
    ensures Unshift30(XorShift30(z)) == z
    ensures XorShift30(Unshift30(z)) == z
  {
    assert Unshift30(z ^ (z >> 30)) == z;
    assert XorShift30(z ^ (z >> 30) ^ (z >> 60)) == z;
  }

  lemma Step27(z: bv64)
    ensures Unshift27(XorShift27(z)) == z
    ensures XorShift27(Unshift27(z)) == z
  {
    assert Unshift27(z ^ (z >> 27)) == z;
    assert XorShift27(z ^ (z >> 27) ^ (z >> 54)) == z;
  }

  lemma Step31(z: bv64)
    ensures Unshift31(XorShift31(z)) == z
    ensures XorShift31(Unshift31(z)) == z
  {
    assert Unshift31(z ^ (z >> 31)) == z;
    assert XorShift31(z ^ (z >> 31) ^ (z >> 62)) == z;
  }

  lemma Scales(z: bv64)
    ensures Unscale1(Scale1(z)) == z && Scale1(Unscale1(z)) == z
    ensures Unscale2(Scale2(z)) == z && Scale2(Unscale2(z)) == z
  {
    assert Unscale1(z * 0xBF58476D1CE4E5B9) == z;
    assert Scale1(z * 0x96DE1B173F119089) == z;
    assert Unscale2(z * 0x94D049BB133111EB) == z;
    assert Scale2(z * 0x319642B2D24D8EC3) == z;
  }

  lemma UnmixMix(z: bv64)
    ensures Unmix(Mix(z)) == z
  {
    hide XorShift30, XorShift27, XorShift31, Scale1, Scale2, Unshift30, Unshift27, Unshift31, Unscale1, Unscale2;
    Step31(Scale2(XorShift27(Scale1(XorShift30(z)))));
    Scales(XorShift27(Scale1(XorShift30(z))));
    Step27(Scale1(XorShift30(z)));
    Scales(XorShift30(z));
    Step30(z);
  }

  lemma MixUnmix(w: bv64)
    ensures Mix(Unmix(w)) == w
  {
    hide XorShift30, XorShift27, XorShift31, Scale1, Scale2, Unshift30, Unshift27, Unshift31, Unscale1, Unscale2;
    Step30(Unscale1(Unshift27(Unscale2(Unshift31(w)))));
    Scales(Unshift27(Unscale2(Unshift31(w))));
    Step27(Unscale2(Unshift31(w)));
    Scales(Unshift31(w));
    Step31(w);
  }

  /** The state that produces output y. */
  function StateFor(y: Word): Word {
    FromBits(Unmix(ToBits(y)))
  }

  lemma OutputIsPermutation(s: Word, y: Word)
    ensures StateFor(Output(s)) == s
    ensures Output(StateFor(y)) == y
  {
    hide Mix;
    hide Unmix;
    BitsRoundTrip(s, Mix(ToBits(s)));
    UnmixMix(ToBits(s));
    BitsRoundTrip(y, Unmix(ToBits(y)));
    MixUnmix(ToBits(y));
  }

  // ----- Full period -----

  /** The state after k draws. */
  function Jump(s: Word, k: nat): Word {
    if k == 0 then s else Advance(Jump(s, k - 1))
  }

  lemma {:induction false} JumpClosedForm(s: Word, k: nat)
    ensures Jump(s, k) == (s + k * GOLDEN) % WORD_COUNT
  {
    if k == 0 {
    } else {
      JumpClosedForm(s, k - 1);
      var x := s + (k - 1) * GOLDEN;
      WrapOnce(x);
      assert s + k * GOLDEN == x + GOLDEN;
    }
  }

  lemma WrapOnce(x: nat)
    ensures (x % WORD_COUNT + GOLDEN) % WORD_COUNT == (x + GOLDEN) % WORD_COUNT
  {
    var q, r := x / WORD_COUNT, x % WORD_COUNT;
    if r + GOLDEN < WORD_COUNT {
      DivModUnique(x + GOLDEN, WORD_COUNT, q, r + GOLDEN);
      DivModUnique(r + GOLDEN, WORD_COUNT, 0, r + GOLDEN);
    } else {
      DivModUnique(x + GOLDEN, WORD_COUNT, q + 1, r + GOLDEN - WORD_COUNT);
      DivModUnique(r + GOLDEN, WORD_COUNT, 1, r + GOLDEN - WORD_COUNT);
    }
  }

  lemma {:induction false} JumpAdds(s: Word, i: nat, j: nat)
    ensures Jump(s, i + j) == Jump(Jump(s, i), j)
  {
    if j == 0 {
    } else {
      JumpAdds(s, i, j - 1);
    }
  }

  /** Multiplying by the odd increment loses nothing modulo 2^64. */
  lemma GoldenInjective(d: int)
    ensures (d * GOLDEN) % WORD_COUNT == 0 <==> d % WORD_COUNT == 0
  {
    if (d * GOLDEN) % WORD_COUNT == 0 {
      var m := (d * GOLDEN) / WORD_COUNT;
      var q := (GOLDEN * GOLDEN_INVERSE) / WORD_COUNT;
      assert GOLDEN * GOLDEN_INVERSE == 1 + q * WORD_COUNT;
      assert d * GOLDEN * GOLDEN_INVERSE == d * (1 + q * WORD_COUNT);
      assert d == (m * GOLDEN_INVERSE - d * q) * WORD_COUNT;
      MultipleHasNoRemainder(m * GOLDEN_INVERSE - d * q, WORD_COUNT);
    }
    if d % WORD_COUNT == 0 {
      var m := d / WORD_COUNT;
      assert d * GOLDEN == (m * GOLDEN) * WORD_COUNT;
      MultipleHasNoRemainder(m * GOLDEN, WORD_COUNT);
    }
  }

  lemma MultipleHasNoRemainder(a: int, n: int)
    requires n > 0
    ensures (a * n) % n == 0
  {
    DivModUnique(a * n, n, a, 0);
  }

  lemma DivModUnique(x: int, n: int, q: int, r: int)
    requires n > 0 && x == q * n + r && 0 <= r < n
    ensures x / n == q && x % n == r
  {
    DistinctMultiples(x / n - q, n, r - x % n);
  }

  lemma DistinctMultiples(d: int, n: int, e: int)
    requires n > 0 && d * n == e && -n < e < n
    ensures d == 0
  {
    if d > 0 {
      ProductNonNegative(d - 1, n);
    } else if d < 0 {
      ProductNonNegative(-d - 1, n);
    }
  }

  lemma ProductNonNegative(a: int, b: int)
    requires a >= 0 && b >= 0
    ensures a * b >= 0
  {
  }

  lemma SameResidue(a: int, b: int)
    ensures a % WORD_COUNT == b % WORD_COUNT <==> (a - b) % WORD_COUNT == 0
  {
  }

  /** Any 2^64 consecutive states are pairwise different, and then the cycle closes. */
  lemma FullPeriod(s: Word, i: nat, j: nat)
    ensures Jump(s, i) == Jump(s, j) <==> i % WORD_COUNT == j % WORD_COUNT
  {
    hide Jump;
    JumpClosedForm(s, i);
    JumpClosedForm(s, j);
    SameResidue(s + i * GOLDEN, s + j * GOLDEN);
    SameResidue(i, j);
    GoldenInjective(i - j);
    assert (s + i * GOLDEN) - (s + j * GOLDEN) == (i - j) * GOLDEN;
  }

  // ----- Equidistribution over one period -----

  /** The k-th word drawn from a generator seeded with s, counting from 0. */
  function Drawn(s: Word, k: nat): Word {
    Output(Jump(s, k + 1))
  }

  /** The position below 2^64 at which y is drawn. */
  function PositionOf(s: Word, y: Word): nat {
    ((StateFor(y) - s) * GOLDEN_INVERSE - 1) % WORD_COUNT
  }

  lemma PositionIsRight(s: Word, y: Word)
    ensures Drawn(s, PositionOf(s, y)) == y
  {
    hide Jump, Output, StateFor;
    var x, k := StateFor(y), PositionOf(s, y);
    JumpClosedForm(s, k + 1);
    GoldenDivides(s, x);
    OutputIsPermutation(x, y);
  }

  lemma GoldenDivides(s: Word, x: Word)
    ensures (s + (((x - s) * GOLDEN_INVERSE - 1) % WORD_COUNT + 1) * GOLDEN) % WORD_COUNT == x
  {
    var e := (x - s) * GOLDEN_INVERSE - 1;
    var k, m := e % WORD_COUNT, e / WORD_COUNT;
    var q := (GOLDEN * GOLDEN_INVERSE) / WORD_COUNT;
    assert GOLDEN * GOLDEN_INVERSE == 1 + q * WORD_COUNT;
    assert k + 1 == (x - s) * GOLDEN_INVERSE - m * WORD_COUNT;
    assert (k + 1) * GOLDEN == (x - s) * (1 + q * WORD_COUNT) - m * GOLDEN * WORD_COUNT;
    assert s + (k + 1) * GOLDEN == ((x - s) * q - m * GOLDEN) * WORD_COUNT + x;
    DivModUnique(s + (k + 1) * GOLDEN, WORD_COUNT, (x - s) * q - m * GOLDEN, x);
  }

  lemma DrawnOnce(s: Word, k: nat)
    requires k < WORD_COUNT
    ensures PositionOf(s, Drawn(s, k)) == k
  {
    hide Jump, Output, StateFor, PositionOf;
    var p := PositionOf(s, Drawn(s, k));
    PositionIsRight(s, Drawn(s, k));
    PositionInRange(s, Drawn(s, k));
    OutputIsPermutation(Jump(s, k + 1), 0);
    OutputIsPermutation(Jump(s, p + 1), 0);
    NoRepeat(s, p, k);
  }

  lemma NoRepeat(s: Word, i: Word, j: Word)
    requires Jump(s, i + 1) == Jump(s, j + 1)
    ensures i == j
  {
    FullPeriod(s, i + 1, j + 1);
    SameSuccessor(i, j);
  }

  lemma SameSuccessor(i: Word, j: Word)
    requires (i + 1) % WORD_COUNT == (j + 1) % WORD_COUNT
    ensures i == j
  {
  }

  lemma PositionInRange(s: Word, y: Word)
    ensures PositionOf(s, y) < WORD_COUNT
  {
  }

  ghost function Residues(bound: nat, n: nat, v: nat): set<nat>
    requires n > 0
  {
    set y: nat | y < bound && y % n == v
  }

  /** The draws of one period for which IntN(n) returns v. */
  ghost function Hits(s: Word, n: nat, v: nat): set<nat>
    requires n > 0
  {
    set k: nat | k < WORD_COUNT && Drawn(s, k) % n == v
  }

  lemma {:induction false} ResidueCount(bound: nat, n: nat, v: nat)
    requires v < n
    ensures |Residues(bound, n, v)| == bound / n + (if v < bound % n then 1 else 0)
  {
    if bound == 0 {
      assert Residues(bound, n, v) == {};
      DivModUnique(bound, n, 0, 0);
    } else {
      var b := bound - 1;
      ResidueCount(b, n, v);
      assert b % n == v ==> Residues(bound, n, v) == Residues(b, n, v) + {b};
      assert b % n != v ==> Residues(bound, n, v) == Residues(b, n, v);
      NextDivMod(b, n);
    }
  }

  lemma NextDivMod(b: nat, n: nat)
    requires n > 0
    ensures b % n + 1 < n ==> (b + 1) / n == b / n && (b + 1) % n == b % n + 1
    ensures b % n + 1 == n ==> (b + 1) / n == b / n + 1 && (b + 1) % n == 0
  {
    if b % n + 1 < n {
      DivModUnique(b + 1, n, b / n, b % n + 1);
    } else {
      assert (b / n + 1) * n == b / n * n + n;
      DivModUnique(b + 1, n, b / n + 1, 0);
    }
  }

  lemma {:induction false} SameSize(a: set<nat>, b: set<nat>, f: nat -> nat, g: nat -> nat)
    requires forall x :: x in a ==> f(x) in b && g(f(x)) == x
    requires forall y :: y in b ==> g(y) in a && f(g(y)) == y
    ensures |a| == |b|
  {
    if a == {} {
      assert forall y :: y in b ==> g(y) in a;
      assert b == {};
    } else {
      var x :| x in a;
      SameSize(a - {x}, b - {f(x)}, f, g);
    }
  }

  /** Over one period IntN(n) returns every value floor or ceiling of 2^64/n times,
      and the first 2^64 mod n values are the favoured ones. */
  lemma Equidistribution(s: Word, n: nat, v: nat)
    requires v < n
    ensures |Hits(s, n, v)| == WORD_COUNT / n + (if v < WORD_COUNT % n then 1 else 0)
  {
    hide Drawn, PositionOf;
    var a, b := Hits(s, n, v), Residues(WORD_COUNT, n, v);
    var f := (k: nat) => Drawn(s, k) as nat;
    var g := (y: nat) => if y < WORD_COUNT then PositionOf(s, y) else 0;
    forall k | k in a ensures f(k) in b && g(f(k)) == k {
      DrawnOnce(s, k);
    }
    forall y | y in b ensures g(y) in a && f(g(y)) == y {
      PositionIsRight(s, y);
      PositionInRange(s, y);
    }
    SameSize(a, b, f, g);
    ResidueCount(WORD_COUNT, n, v);
  }
}
