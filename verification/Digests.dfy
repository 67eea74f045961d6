/** The 64-bit state digest: FNV-1a over a serialised battle
    (services/battle/internal/engine/battle.go:334-356). */
module Digests {
  import opened Types
  import opened Words
  import opened Battlers
  import opened Turns
  import opened Battles

  const FNV_OFFSET: bv64 := 0xCBF29CE484222325

  function FnvXor(h: bv64, b: bv8): bv64 {
    h ^ (b as bv64)
  }

  function FnvPrime(h: bv64): bv64 {
    h * 0x100000001B3
  }

  /** One FNV-1a step, section 2 of draft-eastlake-fnv. */
  function FnvStep(h: bv64, b: bv8): bv64 {
    FnvPrime(FnvXor(h, b))
  }

  function Fnv(h: bv64, bs: seq<bv8>): bv64 {
    if bs == [] then h else FnvStep(Fnv(h, bs[..|bs| - 1]), bs[|bs| - 1])
  }

  /** A Go conversion to uint64, negative numbers wrapping. */
  function Word64(v: int): Word {
    v % WORD_COUNT
  }

  function WordBytes(v: int): (bs: seq<bv8>)
    ensures |bs| == 8
  {
    ToBytes(Word64(v), 8)
  }

  function PartyBytes(party: seq<BattlerState>): (bs: seq<bv8>)
    ensures |bs| == 16 * |party|
  {
    if party == [] then []
    else
      var b := party[|party| - 1];
      PartyBytes(party[..|party| - 1]) + WordBytes(b.curHP) + WordBytes(StatusCode(b.status))
  }

  function SideBytes(s: SideState): (bs: seq<bv8>)
    ensures |bs| == 8 + 16 * |s.party|
  {
    WordBytes(s.active) + PartyBytes(s.party)
  }

  function Serialise(st: State): (bs: seq<bv8>)
    ensures |bs| == 32 + 16 * (|st.side0.party| + |st.side1.party|)
  {
    WordBytes(st.rng) + WordBytes(st.turn) + SideBytes(st.side0) + SideBytes(st.side1)
  }

  function Digest(st: State): bv64 {
    Fnv(FNV_OFFSET, Serialise(st))
  }

  lemma {:induction false} FnvAppend(h: bv64, a: seq<bv8>, b: seq<bv8>)
    ensures Fnv(h, a + b) == Fnv(Fnv(h, a), b)
  {
    hide FnvStep;
    if b == [] {
      assert a + b == a;
    } else {
      var n := |b| - 1;
      FnvAppend(h, a, b[..n]);
      assert (a + b)[..|a + b| - 1] == a + b[..n];
    }
  }

  // ----- The digest as the engine computes it -----

  lemma NextByte(done: seq<bv8>, rest: nat, n: nat)
    requires n > 0
    ensures done + ToBytes(rest, n) == done + [(rest % 256) as bv8] + ToBytes(rest / 256, n - 1)
  {
  }

  lemma NoBytes(v: int)
    ensures WordBytes(v) == ToBytes(Word64(v), 8)
    ensures forall k :: ToBytes(k, 0) == []
  {
  }

  class Hasher {
    var h: bv64

    constructor ()
      ensures h == FNV_OFFSET
    {
      h := FNV_OFFSET;
    }

    method Write(bs: seq<bv8>)
      modifies this
      ensures h == Fnv(old(h), bs)
    {
      hide FnvStep;
      for i := 0 to |bs|
        invariant h == Fnv(old(h), bs[..i])
      {
        h := FnvStep(h, bs[i]);
        assert bs[..i + 1][..i] == bs[..i];
      }
      assert bs[..|bs|] == bs;
    }

    /** Writes a 64-bit value, least significant byte first. */
    method Put(v: int)
      modifies this
      ensures h == Fnv(old(h), WordBytes(v))
    {
      hide Fnv, ToBytes, WordBytes;
      NoBytes(v);
      var buf := new bv8[8];
      var rest: nat := Word64(v);
      for i := 0 to 8
        invariant h == old(h)
        invariant WordBytes(v) == buf[..i] + ToBytes(rest, 8 - i)
      {
        NextByte(buf[..i], rest, 8 - i);
        buf[i] := (rest % 256) as bv8;
        rest := rest / 256;
        assert buf[..i + 1] == buf[..i] + [buf[i]];
      }
      assert WordBytes(v) == buf[..];
      Write(buf[..]);
    }
  }

  lemma PartyBytesEmpty()
    ensures PartyBytes([]) == []
  {
  }

  lemma OneMoreBattler(start: seq<bv8>, party: seq<BattlerState>, i: nat)
    requires i < |party|
    ensures start + PartyBytes(party[..i + 1])
            == start + PartyBytes(party[..i]) + WordBytes(party[i].curHP) + WordBytes(StatusCode(party[i].status))
  {
    hide WordBytes, StatusCode;
    assert party[..i + 1][..i] == party[..i];
  }

  method PutSide(h: Hasher, s: Side)
    modifies h
    ensures h.h == Fnv(old(h.h), SideBytes(s.State()))
  {
    hide Fnv, WordBytes, StatusCode, PartyBytes;
    PartyBytesEmpty();
    h.Put(s.active);
    ghost var party := s.State().party;
    ghost var start := WordBytes(s.active);
    assert start + PartyBytes(party[..0]) == start;
    for i := 0 to |s.party|
      invariant h.h == Fnv(old(h.h), start + PartyBytes(party[..i]))
    {
      var b := s.party[i];
      ghost var done := start + PartyBytes(party[..i]);
      h.Put(b.curHP);
      FnvAppend(old(h.h), done, WordBytes(b.curHP));
      h.Put(StatusCode(b.status));
      FnvAppend(old(h.h), done + WordBytes(b.curHP), WordBytes(StatusCode(b.status)));
      OneMoreBattler(start, party, i);
    }
    assert party[..|s.party|] == party;
  }

  /** Reads the battle; the hasher is its own. */
  method DigestOf(bt: Battle) returns (d: bv64)
    ensures d == Digest(bt.State())
  {
    hide Fnv, WordBytes, SideBytes;
    var h := new Hasher();
    h.Put(bt.rng.state);
    h.Put(bt.turn);
    FnvAppend(FNV_OFFSET, WordBytes(bt.rng.state), WordBytes(bt.turn));
    ghost var head := WordBytes(bt.rng.state) + WordBytes(bt.turn);
    PutSide(h, bt.side0);
    FnvAppend(FNV_OFFSET, head, SideBytes(bt.side0.State()));
    PutSide(h, bt.side1);
    FnvAppend(FNV_OFFSET, head + SideBytes(bt.side0.State()), SideBytes(bt.side1.State()));
    d := h.h;
  }

  // ----- What the digest tells apart -----

  /** Multiplication by the FNV prime, undone by its inverse modulo 2^64. */
  function FnvUnprime(h: bv64): bv64 {
    h * 0xCE965057AFF6957B
  }

  lemma FnvUndo(x: bv64)
    ensures FnvUnprime(FnvPrime(x)) == x
  {
    assert FnvUnprime(x * 0x100000001B3) == x;
  }

  lemma XorInjective(h: bv64, k: bv64, b: bv8, c: bv8)
    ensures FnvXor(h, b) == FnvXor(k, b) ==> h == k
    ensures FnvXor(h, b) == FnvXor(h, c) ==> b == c
  {
  }

  /** A step loses nothing: it is injective in the running hash and in the byte. */
  lemma FnvStepInjective(h: bv64, k: bv64, b: bv8, c: bv8)
    ensures FnvStep(h, b) == FnvStep(k, b) <==> h == k
    ensures FnvStep(h, b) == FnvStep(h, c) <==> b == c
  {
    hide FnvPrime, FnvUnprime, FnvXor;
    FnvUndo(FnvXor(h, b));
    FnvUndo(FnvXor(k, b));
    FnvUndo(FnvXor(h, c));
    XorInjective(h, k, b, c);
  }

  lemma {:induction false} FnvInjectiveInHash(h: bv64, k: bv64, bs: seq<bv8>)
    ensures Fnv(h, bs) == Fnv(k, bs) <==> h == k
  {
    hide FnvStep;
    if bs == [] {
    } else {
      var n := |bs| - 1;
      FnvInjectiveInHash(h, k, bs[..n]);
      FnvStepInjective(Fnv(h, bs[..n]), Fnv(k, bs[..n]), bs[n], bs[n]);
    }
  }

  /** Two byte strings of the same length that differ in exactly one place. */
  predicate OneByteApart(x: seq<bv8>, y: seq<bv8>, i: nat) {
    |x| == |y| && i < |x| && x[i] != y[i] && x[..i] == y[..i] && x[i + 1..] == y[i + 1..]
  }

  lemma OneByteSeparates(h: bv64, x: seq<bv8>, y: seq<bv8>, i: nat)
    requires OneByteApart(x, y, i)
    ensures Fnv(h, x) != Fnv(h, y)
  {
    hide FnvStep, Fnv;
    var hash := Fnv(h, x[..i]);
    FnvAround(h, x, i);
    FnvAround(h, y, i);
    FnvStepInjective(hash, hash, x[i], y[i]);
    FnvInjectiveInHash(FnvStep(hash, x[i]), FnvStep(hash, y[i]), x[i + 1..]);
  }

  lemma FnvAround(h: bv64, x: seq<bv8>, i: nat)
    requires i < |x|
    ensures Fnv(h, x) == Fnv(FnvStep(Fnv(h, x[..i]), x[i]), x[i + 1..])
  {
    hide FnvStep;
    assert x == x[..i + 1] + x[i + 1..] && x[..i + 1][..i] == x[..i];
    FnvAppend(h, x[..i + 1], x[i + 1..]);
  }

  /** Battles whose serialised forms differ in exactly one byte have different digests. */
  lemma DigestSeparates(st: State, st': State, i: nat)
    requires OneByteApart(Serialise(st), Serialise(st'), i)
    ensures Digest(st) != Digest(st')
  {
    OneByteSeparates(FNV_OFFSET, Serialise(st), Serialise(st'), i);
  }
}
