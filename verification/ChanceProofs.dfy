/** What a draw means: published outputs of the generator, the value an IntN takes from a word,
    and exactly how often a chance comes up. */
module ChanceProofs {
  import opened Types
  import opened Words
  import opened Rng

  /** The first three words of SplitMix64 seeded with zero, as its reference implementation gives
      them. */
  lemma ReferenceWords()
    ensures Drawn(0, 0) == 0xE220A8397B1DCDAF
    ensures Drawn(0, 1) == 0x6E789E6AA1B965F4
    ensures Drawn(0, 2) == 0x06C45D188009454F
  {
    hide Output;
    assert Jump(0, 1) == 0x9E3779B97F4A7C15;
    assert Jump(0, 2) == 0x3C6EF372FE94F82A;
    assert Jump(0, 3) == 0xDAA66D2C7DDF743F;
    ReferenceOutputs();
  }

  lemma ReferenceOutputs()
    ensures Output(0x9E3779B97F4A7C15) == 0xE220A8397B1DCDAF
    ensures Output(0x3C6EF372FE94F82A) == 0x6E789E6AA1B965F4
    ensures Output(0xDAA66D2C7DDF743F) == 0x06C45D188009454F
  {
    hide FromBits, ToBits;
    SameNumber(0x9E3779B97F4A7C15, 0x9E3779B97F4A7C15);
    SameNumber(0x3C6EF372FE94F82A, 0x3C6EF372FE94F82A);
    SameNumber(0xDAA66D2C7DDF743F, 0xDAA66D2C7DDF743F);
    SameNumber(0xE220A8397B1DCDAF, 0xE220A8397B1DCDAF);
    SameNumber(0x6E789E6AA1B965F4, 0x6E789E6AA1B965F4);
    SameNumber(0x06C45D188009454F, 0x06C45D188009454F);
    assert Mix(0x9E3779B97F4A7C15) == 0xE220A8397B1DCDAF;
    assert Mix(0x3C6EF372FE94F82A) == 0x6E789E6AA1B965F4;
    assert Mix(0xDAA66D2C7DDF743F) == 0x06C45D188009454F;
  }

  /** The number whose eight bytes are those of w is w. */
  lemma SameNumber(w: bv64, n: Word)
    requires n == (w & 0xFF) as bv8 as nat + 256 * (((w >> 8) & 0xFF) as bv8 as nat
                  + 256 * (((w >> 16) & 0xFF) as bv8 as nat + 256 * (((w >> 24) & 0xFF) as bv8 as nat
                  + 256 * (((w >> 32) & 0xFF) as bv8 as nat + 256 * (((w >> 40) & 0xFF) as bv8 as nat
                  + 256 * (((w >> 48) & 0xFF) as bv8 as nat + 256 * (((w >> 56) & 0xFF) as bv8 as nat)))))))
    ensures FromBits(w) == n && ToBits(n) == w
  {
    hide ToBits;
    EightBytes(Split(w));
    BitsRoundTrip(n, w);
  }

  // ----- What is made of a word -----

  lemma OneWord(s: Word)
    ensures Advance(s) == Jump(s, 1) && Output(Advance(s)) == Drawn(s, 0)
  {
    hide Output;
    assert Jump(s, 0) == s;
  }

  /** IntN draws one word and leaves its remainder: the word is a multiple of n and the value. */
  lemma IntNLaw(s: Word, n: nat)
    requires n > 0
    ensures DrawIntN(s, n).0 == Jump(s, 1)
    ensures exists q: nat :: Drawn(s, 0) == q * n + DrawIntN(s, n).1
  {
    hide Output, Advance;
    OneWord(s);
    var w := Drawn(s, 0);
    assert w == (w / n) * n + w % n;
  }

  /** Float draws one word and returns its 53 leading bits as a binary fraction. */
  lemma FloatLaw(s: Word)
    ensures DrawFloat(s).0 == Jump(s, 1)
    ensures exists t: nat :: WholePart(t, Drawn(s, 0), 2048) && DrawFloat(s).1 * 9007199254740992.0 == t as real
  {
    hide Output, Advance;
    OneWord(s);
    var t := TopBits(Drawn(s, 0));
    assert WholePart(t, Drawn(s, 0), 2048);
    assert t as real / 9007199254740992.0 * 9007199254740992.0 == t as real;
  }

  /** An impossible chance fails and a certain one comes up, neither drawing; any other draws one
      word, and comes up if its last two decimal digits are below the percentage. */
  lemma ChanceLaw(s: Word, pct: int)
    ensures pct <= 0 ==> DrawChance(s, pct) == (s, false)
    ensures pct >= 100 ==> DrawChance(s, pct) == (s, true)
    ensures 0 < pct < 100 ==> DrawChance(s, pct).0 == Jump(s, 1)
    ensures 0 < pct < 100 ==> (DrawChance(s, pct).1 <==> Drawn(s, 0) % 100 < pct)
  {
    hide Output, Advance;
    OneWord(s);
  }

  /** What comes up at one percentage comes up at any higher one. */
  lemma ChanceMonotone(s: Word, pct: int, higher: int)
    requires pct <= higher && DrawChance(s, pct).1
    ensures DrawChance(s, higher).1
  {
    hide Output, Advance;
  }

  /** The states of one period from which a chance comes up. */
  ghost function Successes(s: Word, pct: int): set<nat> {
    set k: nat | k < WORD_COUNT && DrawChance(Jump(s, k), pct).1
  }

  lemma ChanceOfWord(s: Word, k: nat, pct: int)
    requires 0 <= pct <= 99
    ensures DrawChance(Jump(s, k), pct).1 <==> Drawn(s, k) % 100 < pct
  {
    hide Output, Advance;
  }

  lemma OneMorePercent(s: Word, pct: nat)
    requires pct < 99
    ensures Successes(s, pct + 1) == Successes(s, pct) + Hits(s, 100, pct)
    ensures Successes(s, pct) !! Hits(s, 100, pct)
  {
    hide Drawn, Jump, DrawChance;
    forall k: nat ensures DrawChance(Jump(s, k), pct).1 <==> Drawn(s, k) % 100 < pct {
      ChanceOfWord(s, k, pct);
    }
    forall k: nat ensures DrawChance(Jump(s, k), pct + 1).1 <==> Drawn(s, k) % 100 < pct + 1 {
      ChanceOfWord(s, k, pct + 1);
    }
  }

  /** Over one period of the generator a chance of pct percent comes up pct hundredths of the
      time, to within the 16 words that 2^64 has over a multiple of a hundred. */
  lemma {:induction false} ChanceCount(s: Word, pct: nat)
    requires pct <= 99
    ensures |Successes(s, pct)| == pct * 184467440737095516 + (if pct < 16 then pct else 16)
  {
    hide Jump, DrawChance, Hits;
    if pct == 0 {
      NoChance(s);
    } else {
      ChanceCount(s, pct - 1);
      OneMorePercent(s, pct - 1);
      Equidistribution(s, 100, pct - 1);
      assert WORD_COUNT / 100 == 184467440737095516 && WORD_COUNT % 100 == 16;
    }
  }

  lemma NoChance(s: Word)
    ensures Successes(s, 0) == {}
  {
    hide Jump;
  }
}
