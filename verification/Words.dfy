/** 64-bit machine words, their little-endian byte form, and the passage between
    the two.  Arithmetic on words is done on numbers modulo 2^64; only xor and shift
    go through bit-vectors. */
module Words {

  const WORD_COUNT: nat := 0x1_0000_0000_0000_0000

  type Word = n: nat | n < WORD_COUNT

  /** The n low-order bytes of k, least significant first. */
  function ToBytes(k: nat, n: nat): (bs: seq<bv8>)
    ensures |bs| == n
  {
    if n == 0 then [] else [(k % 256) as bv8] + ToBytes(k / 256, n - 1)
  }

  /** The number whose little-endian byte form is bs. */
  function FromBytes(bs: seq<bv8>): (k: nat)
    ensures k < Power256(|bs|)
  {
    if bs == [] then 0 else bs[0] as nat + 256 * FromBytes(bs[1..])
  }

  function Power256(n: nat): (p: nat)
    ensures p > 0
  {
    if n == 0 then 1 else 256 * Power256(n - 1)
  }

  lemma NibbleRoundTrip(k: nat)
    requires k < 16
    ensures (k as bv4) as nat == k
  {
  }

  lemma NibblesMakeByte(lo: bv4, hi: bv4)
    ensures ((lo as bv8) + 16 * (hi as bv8)) as nat == lo as nat + 16 * (hi as nat)
  {
  }

  lemma ByteRoundTrip(k: nat)
    requires k < 256
    ensures (k as bv8) as nat == k
  {
    NibbleRoundTrip(k % 16);
    NibbleRoundTrip(k / 16);
    var b := (((k % 16) as bv4) as bv8) + 16 * (((k / 16) as bv4) as bv8);
    NibblesMakeByte((k % 16) as bv4, (k / 16) as bv4);
    ByteOfValue(b, k);
  }

  lemma ByteOfValue(b: bv8, k: nat)
    requires b as nat == k
    ensures k < 256 && (k as bv8) == b
  {
    assert (b as nat) as bv8 == b;
  }

  lemma {:induction false} FromToBytes(k: nat, n: nat)
    requires k < Power256(n)
    ensures FromBytes(ToBytes(k, n)) == k
  {
    if n == 0 {
    } else {
      FromToBytes(k / 256, n - 1);
      ByteRoundTrip(k % 256);
      assert ToBytes(k, n)[1..] == ToBytes(k / 256, n - 1);
    }
  }

  lemma {:induction false} ToFromBytes(bs: seq<bv8>)
    ensures ToBytes(FromBytes(bs), |bs|) == bs
  {
    if bs != [] {
      hide ToBytes;
      ToFromBytes(bs[1..]);
      BytePacked(bs[0], FromBytes(bs[1..]), |bs| - 1);
      assert bs == [bs[0]] + bs[1..];
    } else {
      assert FromBytes([]) == 0;
    }
  }

  lemma BytePacked(b: bv8, rest: nat, n: nat)
    ensures ToBytes(b as nat + 256 * rest, n + 1) == [b] + ToBytes(rest, n)
  {
    ByteOfValue(b, b as nat);
    LowByteSplits(b as nat, rest);
  }

  lemma LowByteSplits(v: nat, rest: nat)
    requires v < 256
    ensures (v + 256 * rest) / 256 == rest && (v + 256 * rest) % 256 == v
  {
  }

  lemma Power256Eight()
    ensures Power256(8) == WORD_COUNT
  {
    assert Power256(4) == 0x1_0000_0000;
  }

  function Join(bs: seq<bv8>): bv64
    requires |bs| == 8
  {
    (bs[0] as bv64) | ((bs[1] as bv64) << 8) | ((bs[2] as bv64) << 16) | ((bs[3] as bv64) << 24)
    | ((bs[4] as bv64) << 32) | ((bs[5] as bv64) << 40) | ((bs[6] as bv64) << 48) | ((bs[7] as bv64) << 56)
  }

  function Split(w: bv64): (bs: seq<bv8>)
    ensures |bs| == 8
  {
    [(w & 0xFF) as bv8, ((w >> 8) & 0xFF) as bv8, ((w >> 16) & 0xFF) as bv8, ((w >> 24) & 0xFF) as bv8,
     ((w >> 32) & 0xFF) as bv8, ((w >> 40) & 0xFF) as bv8, ((w >> 48) & 0xFF) as bv8, ((w >> 56) & 0xFF) as bv8]
  }

  lemma JoinSplit(w: bv64)
    ensures Join(Split(w)) == w
  {
  }

  lemma SplitJoin(bs: seq<bv8>)
    requires |bs| == 8
    ensures Split(Join(bs)) == bs
  {
  }

  function ToBits(k: Word): bv64 {
    Join(ToBytes(k, 8))
  }

  function FromBits(w: bv64): Word {
    Power256Eight();
    FromBytes(Split(w))
  }

  lemma BitsRoundTrip(k: Word, w: bv64)
    ensures FromBits(ToBits(k)) == k
    ensures ToBits(FromBits(w)) == w
  {
    Power256Eight();
    SplitJoin(ToBytes(k, 8));
    FromToBytes(k, 8);
    ToFromBytes(Split(w));
    JoinSplit(w);
  }

  /** Eight bytes are a number written least significant byte first. */
  lemma EightBytes(bs: seq<bv8>)
    requires |bs| == 8
    ensures FromBytes(bs) == bs[0] as nat + 256 * (bs[1] as nat + 256 * (bs[2] as nat + 256 * (bs[3] as nat
                            + 256 * (bs[4] as nat + 256 * (bs[5] as nat + 256 * (bs[6] as nat + 256 * bs[7] as nat))))))
  {
    FourBytes(bs, FromBytes(bs[4..]));
    FourBytes(bs[4..], 0);
  }

  lemma FourBytes(bs: seq<bv8>, rest: nat)
    requires |bs| >= 4 && rest == FromBytes(bs[4..])
    ensures FromBytes(bs) == bs[0] as nat + 256 * (bs[1] as nat + 256 * (bs[2] as nat + 256 * (bs[3] as nat + 256 * rest)))
  {
    var b1, b2, b3 := bs[1..], bs[2..], bs[3..];
    assert b1[1..] == b2 && b2[1..] == b3 && b3[1..] == bs[4..];
    assert FromBytes(b3) == bs[3] as nat + 256 * rest;
    assert FromBytes(b2) == bs[2] as nat + 256 * FromBytes(b3);
  }
}
