/** Exactly what the digest sees, and tampering it is sure to notice. */
module DigestProofs {
  import opened Types
  import opened Words
  import opened Battlers
  import opened Turns
  import opened Digests

  // ----- Equal serialised forms -----

  lemma WordBytesInjective(v: int, w: int)
    ensures WordBytes(v) == WordBytes(w) <==> Word64(v) == Word64(w)
  {
    Power256Eight();
    FromToBytes(Word64(v), 8);
    FromToBytes(Word64(w), 8);
  }

  lemma AppendInjective<T>(a: seq<T>, b: seq<T>, c: seq<T>, d: seq<T>)
    requires |a| == |c| || |b| == |d|
    ensures a + b == c + d <==> a == c && b == d
  {
    if a + b == c + d {
      assert |a + b| == |c + d|;
      assert a == (a + b)[..|a|] && c == (c + d)[..|c|];
      assert b == (a + b)[|a|..] && d == (c + d)[|c|..];
    }
  }

  /** The two battlers show the digest the same HP and status. */
  predicate SameFace(b: BattlerState, c: BattlerState) {
    Word64(b.curHP) == Word64(c.curHP) && b.status == c.status
  }

  predicate SameFaces(p: seq<BattlerState>, q: seq<BattlerState>) {
    |p| == |q| && forall j :: 0 <= j < |p| ==> SameFace(p[j], q[j])
  }

  lemma StatusCodeInjective(s: StatusCondition, t: StatusCondition)
    ensures Word64(StatusCode(s)) == Word64(StatusCode(t)) <==> s == t
  {
  }

  lemma {:induction false} PartyBytesInjective(p: seq<BattlerState>, q: seq<BattlerState>)
    requires |p| == |q|
    ensures PartyBytes(p) == PartyBytes(q) <==> SameFaces(p, q)
  {
    hide WordBytes, Word64, StatusCode;
    if p == [] {
    } else {
      var n := |p| - 1;
      PartyBytesInjective(p[..n], q[..n]);
      var b, c := p[n], q[n];
      WordBytesInjective(b.curHP, c.curHP);
      WordBytesInjective(StatusCode(b.status), StatusCode(c.status));
      StatusCodeInjective(b.status, c.status);
      AppendInjective(PartyBytes(p[..n]), WordBytes(b.curHP), PartyBytes(q[..n]), WordBytes(c.curHP));
      AppendInjective(PartyBytes(p[..n]) + WordBytes(b.curHP), WordBytes(StatusCode(b.status)),
        PartyBytes(q[..n]) + WordBytes(c.curHP), WordBytes(StatusCode(c.status)));
      assert SameFaces(p, q) <==> SameFaces(p[..n], q[..n]) && SameFace(b, c) by {
        SameFacesSplit(p, q);
      }
    }
  }

  lemma SameFacesSplit(p: seq<BattlerState>, q: seq<BattlerState>)
    requires |p| == |q| > 0
    ensures SameFaces(p, q) <==> SameFaces(p[..|p| - 1], q[..|p| - 1]) && SameFace(p[|p| - 1], q[|p| - 1])
  {
    hide SameFace;
    var n := |p| - 1;
    if SameFaces(p[..n], q[..n]) && SameFace(p[n], q[n]) {
      forall j | 0 <= j < |p| ensures SameFace(p[j], q[j]) {
        if j < n {
          assert SameFace(p[..n][j], q[..n][j]);
        }
      }
    }
  }

  lemma SideBytesInjective(s: SideState, t: SideState)
    requires |s.party| == |t.party|
    ensures SideBytes(s) == SideBytes(t) <==> Word64(s.active) == Word64(t.active) && SameFaces(s.party, t.party)
  {
    hide WordBytes, Word64, PartyBytes, SameFaces;
    WordBytesInjective(s.active, t.active);
    PartyBytesInjective(s.party, t.party);
    AppendInjective(WordBytes(s.active), PartyBytes(s.party), WordBytes(t.active), PartyBytes(t.party));
  }

  /** Everything the digest looks at: generator, turn, active indices, HP and statuses. */
  predicate LooksAlike(st: State, st': State) {
    && st.rng == st'.rng && Word64(st.turn) == Word64(st'.turn)
    && Word64(st.side0.active) == Word64(st'.side0.active) && SameFaces(st.side0.party, st'.side0.party)
    && Word64(st.side1.active) == Word64(st'.side1.active) && SameFaces(st.side1.party, st'.side1.party)
  }

  lemma WordIsItself(w: Word)
    ensures Word64(w) == w
  {
  }

  /** Battles of the same shape have the same serialised form exactly when they look alike. */
  lemma SerialiseExact(st: State, st': State)
    requires |st.side0.party| == |st'.side0.party| && |st.side1.party| == |st'.side1.party|
    ensures Serialise(st) == Serialise(st') <==> LooksAlike(st, st')
  {
    hide WordBytes, Word64, SideBytes, SameFaces;
    WordIsItself(st.rng);
    WordIsItself(st'.rng);
    WordBytesInjective(st.rng, st'.rng);
    WordBytesInjective(st.turn, st'.turn);
    SideBytesInjective(st.side0, st'.side0);
    SideBytesInjective(st.side1, st'.side1);
    var h, h' := WordBytes(st.rng) + WordBytes(st.turn), WordBytes(st'.rng) + WordBytes(st'.turn);
    AppendInjective(WordBytes(st.rng), WordBytes(st.turn), WordBytes(st'.rng), WordBytes(st'.turn));
    AppendInjective(h, SideBytes(st.side0), h', SideBytes(st'.side0));
    AppendInjective(h + SideBytes(st.side0), SideBytes(st.side1), h' + SideBytes(st'.side0), SideBytes(st'.side1));
  }

  /** The digest is called a hash of the full state; the stages, cooldowns and status counter of
      any battler, active or benched, the outcome and the event log leave it unchanged, so equal
      digests do not mean equal states. */
  lemma DigestBlind(st: State, side: nat, j: nat, b: BattlerState, over: bool, winner: int, log: seq<Event>)
    requires side < 2 && j < |st.At(side).party|
    requires b.curHP == st.At(side).party[j].curHP && b.status == st.At(side).party[j].status
    ensures var s := st.At(side);
            Digest(st.Put(side, s.(party := s.party[j := b])).(over := over, winner := winner, log := log)) == Digest(st)
  {
    hide WordBytes, Word64, SideBytes, Serialise;
    var s := st.At(side);
    SerialiseExact(st, st.Put(side, s.(party := s.party[j := b])).(over := over, winner := winner, log := log));
  }

  // ----- Tampering with one battler -----

  lemma ApartInside(a: seq<bv8>, x: seq<bv8>, y: seq<bv8>, b: seq<bv8>, i: nat)
    requires OneByteApart(x, y, i)
    ensures OneByteApart(a + x + b, a + y + b, |a| + i)
  {
    var s, t, k := a + x + b, a + y + b, |a| + i;
    assert s[..k] == a + x[..i] && t[..k] == a + y[..i];
    assert s[k + 1..] == x[i + 1..] + b && t[k + 1..] == y[i + 1..] + b;
  }

  /** Numbers that differ only in their low byte. */
  predicate LowByteApart(v: int, w: int) {
    Word64(v) != Word64(w) && Word64(v) / 256 == Word64(w) / 256
  }

  lemma LowByteIsFirst(v: int, w: int)
    requires LowByteApart(v, w)
    ensures OneByteApart(WordBytes(v), WordBytes(w), 0)
  {
    ByteRoundTrip(Word64(v) % 256);
    ByteRoundTrip(Word64(w) % 256);
    assert WordBytes(v)[1..] == ToBytes(Word64(v) / 256, 7);
    assert WordBytes(w)[1..] == ToBytes(Word64(w) / 256, 7);
  }

  lemma StatusApart(s: StatusCondition, t: StatusCondition)
    requires s != t
    ensures LowByteApart(StatusCode(s), StatusCode(t))
  {
  }

  /** One battler shows a different status, or an HP different in its low byte, but not both. */
  predicate OneFaceChange(b: BattlerState, c: BattlerState) {
    (b.curHP == c.curHP && b.status != c.status) || (LowByteApart(b.curHP, c.curHP) && b.status == c.status)
  }

  lemma {:induction false} PartyApart(p: seq<BattlerState>, j: nat, c: BattlerState) returns (i: nat)
    requires j < |p| && OneFaceChange(p[j], c)
    ensures OneByteApart(PartyBytes(p), PartyBytes(p[j := c]), i)
  {
    hide WordBytes, StatusCode, LowByteApart, OneByteApart;
    var n := |p| - 1;
    var rest, hp, s := PartyBytes(p[..n]), WordBytes(p[n].curHP), WordBytes(StatusCode(p[n].status));
    if j == n {
      assert p[j := c][..n] == p[..n];
      if p[n].status != c.status {
        StatusApart(p[n].status, c.status);
        LowByteIsFirst(StatusCode(p[n].status), StatusCode(c.status));
        ApartInside(rest + hp, s, WordBytes(StatusCode(c.status)), [], 0);
        i := |rest + hp|;
        assert PartyBytes(p) == rest + hp + s + [];
        assert PartyBytes(p[j := c]) == rest + hp + WordBytes(StatusCode(c.status)) + [];
      } else {
        LowByteIsFirst(p[n].curHP, c.curHP);
        ApartInside(rest, hp, WordBytes(c.curHP), s, 0);
        i := |rest|;
      }
    } else {
      i := PartyApart(p[..n], j, c);
      assert p[j := c][..n] == p[..n][j := c];
      var rest' := PartyBytes(p[..n][j := c]);
      ApartInside([], rest, rest', hp + s, i);
      assert PartyBytes(p) == [] + rest + (hp + s);
      assert PartyBytes(p[j := c]) == [] + rest' + (hp + s);
    }
  }

  /** The serialised form before and after the party of one side. */
  function Head(st: State, side: nat): seq<bv8> {
    WordBytes(st.rng) + WordBytes(st.turn) + (if side == 0 then [] else SideBytes(st.side0)) + WordBytes(st.At(side).active)
  }

  function Tail(st: State, side: nat): seq<bv8> {
    if side == 0 then SideBytes(st.side1) else []
  }

  lemma SerialiseAround(st: State, side: nat)
    requires side < 2
    ensures Serialise(st) == Head(st, side) + PartyBytes(st.At(side).party) + Tail(st, side)
  {
    hide WordBytes, PartyBytes;
  }

  lemma AroundStays(st: State, side: nat, party: seq<BattlerState>)
    requires side < 2
    ensures var st' := st.Put(side, st.At(side).(party := party));
            Head(st', side) == Head(st, side) && Tail(st', side) == Tail(st, side) && st'.At(side).party == party
  {
    hide WordBytes, SideBytes;
  }

  /** Changing one battler's status, or only the low byte of its HP, always changes the
      digest: no such tampering can go unnoticed. */
  lemma TamperingShows(st: State, side: nat, j: nat, c: BattlerState)
    requires side < 2 && j < |st.At(side).party| && OneFaceChange(st.At(side).party[j], c)
    ensures Digest(st.Put(side, st.At(side).(party := st.At(side).party[j := c]))) != Digest(st)
  {
    hide Head, Tail, PartyBytes, Serialise, OneByteApart, OneFaceChange, Digest;
    var party := st.At(side).party;
    var st' := st.Put(side, st.At(side).(party := party[j := c]));
    var i := PartyApart(party, j, c);
    AroundStays(st, side, party[j := c]);
    SerialiseAround(st, side);
    SerialiseAround(st', side);
    ApartInside(Head(st, side), PartyBytes(party), PartyBytes(party[j := c]), Tail(st, side), i);
    DigestSeparates(st, st', |Head(st, side)| + i);
  }

  // ----- The layout, and the hash itself -----

  /** The eight bytes from at on are v modulo 2^64, least significant byte first. */
  predicate Holds64(bs: seq<bv8>, at: nat, v: int) {
    && at + 8 <= |bs|
    && v % WORD_COUNT == bs[at] as nat + 256 * (bs[at + 1] as nat + 256 * (bs[at + 2] as nat + 256 * (bs[at + 3] as nat
         + 256 * (bs[at + 4] as nat + 256 * (bs[at + 5] as nat + 256 * (bs[at + 6] as nat + 256 * bs[at + 7] as nat))))))
  }

  lemma WordBytesHold(v: int)
    ensures Holds64(WordBytes(v), 0, v)
  {
    hide ToBytes;
    Power256Eight();
    FromToBytes(Word64(v), 8);
    EightBytes(WordBytes(v));
  }

  lemma HoldsInside(a: seq<bv8>, x: seq<bv8>, b: seq<bv8>, at: nat, v: int)
    requires Holds64(x, at, v)
    ensures Holds64(a + x + b, |a| + at, v)
  {
    var s := a + x + b;
    assert forall i :: 0 <= i < |x| ==> s[|a| + i] == x[i];
  }

  /** From at on, sixteen bytes for each battler: HP, then status. */
  predicate HoldsParty(bs: seq<bv8>, at: nat, party: seq<BattlerState>) {
    forall j :: 0 <= j < |party| ==>
      Holds64(bs, at + 16 * j, party[j].curHP) && Holds64(bs, at + 16 * j + 8, StatusCode(party[j].status))
  }

  lemma {:induction false} PartyBytesHold(party: seq<BattlerState>)
    ensures HoldsParty(PartyBytes(party), 0, party)
  {
    hide WordBytes, StatusCode, Holds64;
    if party != [] {
      var n := |party| - 1;
      var rest, hp, status := PartyBytes(party[..n]), WordBytes(party[n].curHP), WordBytes(StatusCode(party[n].status));
      PartyBytesHold(party[..n]);
      assert PartyBytes(party) == rest + hp + status;
      forall j | 0 <= j < |party|
        ensures Holds64(PartyBytes(party), 16 * j, party[j].curHP) && Holds64(PartyBytes(party), 16 * j + 8, StatusCode(party[j].status)) {
        if j < n {
          assert party[..n][j] == party[j];
          EarlierHolds(rest, hp, status, 16 * j, party[j].curHP);
          EarlierHolds(rest, hp, status, 16 * j + 8, StatusCode(party[j].status));
        } else {
          LastHolds(rest, party[n].curHP, StatusCode(party[n].status));
        }
      }
    }
  }

  lemma EarlierHolds(rest: seq<bv8>, hp: seq<bv8>, status: seq<bv8>, at: nat, v: int)
    requires Holds64(rest, at, v)
    ensures Holds64(rest + hp + status, at, v)
  {
    hide Holds64;
    HoldsInside([], rest, hp + status, at, v);
    assert rest + hp + status == [] + rest + (hp + status);
  }

  lemma LastHolds(rest: seq<bv8>, hp: int, status: int)
    ensures var bs := rest + WordBytes(hp) + WordBytes(status); Holds64(bs, |rest|, hp) && Holds64(bs, |rest| + 8, status)
  {
    hide WordBytes, Holds64;
    WordBytesHold(hp);
    WordBytesHold(status);
    HoldsInside(rest, WordBytes(hp), WordBytes(status), 0, hp);
    HoldsInside(rest + WordBytes(hp), WordBytes(status), [], 0, status);
    assert rest + WordBytes(hp) + WordBytes(status) == rest + WordBytes(hp) + WordBytes(status) + [];
  }

  lemma PartyInside(a: seq<bv8>, party: seq<BattlerState>, b: seq<bv8>)
    ensures HoldsParty(a + PartyBytes(party) + b, |a|, party)
  {
    hide PartyBytes, Holds64;
    PartyBytesHold(party);
    forall j | 0 <= j < |party|
      ensures Holds64(a + PartyBytes(party) + b, |a| + 16 * j, party[j].curHP)
           && Holds64(a + PartyBytes(party) + b, |a| + 16 * j + 8, StatusCode(party[j].status)) {
      HoldsInside(a, PartyBytes(party), b, 16 * j, party[j].curHP);
      HoldsInside(a, PartyBytes(party), b, 16 * j + 8, StatusCode(party[j].status));
    }
  }

  /** The serialised form, in 64-bit little-endian words: the generator, the turn, and for each side
      the active index and then HP and status of its battlers in order; nothing more. */
  lemma SerialiseLayout(st: State)
    ensures var bs, m := Serialise(st), |st.side0.party|;
            && |bs| == 32 + 16 * (m + |st.side1.party|)
            && Holds64(bs, 0, st.rng) && Holds64(bs, 8, st.turn)
            && Holds64(bs, 16, st.side0.active) && HoldsParty(bs, 24, st.side0.party)
            && Holds64(bs, 24 + 16 * m, st.side1.active) && HoldsParty(bs, 32 + 16 * m, st.side1.party)
  {
    hide WordBytes, PartyBytes, Holds64, HoldsParty;
    var r, t, a, b := WordBytes(st.rng), WordBytes(st.turn), WordBytes(st.side0.active), WordBytes(st.side1.active);
    var p, q := PartyBytes(st.side0.party), PartyBytes(st.side1.party);
    WordBytesHold(st.rng);
    WordBytesHold(st.turn);
    WordBytesHold(st.side0.active);
    WordBytesHold(st.side1.active);
    var bs := Serialise(st);
    assert bs == [] + r + (t + a + p + b + q);
    HoldsInside([], r, t + a + p + b + q, 0, st.rng);
    assert bs == r + t + (a + p + b + q);
    HoldsInside(r, t, a + p + b + q, 0, st.turn);
    assert bs == (r + t) + a + (p + b + q);
    HoldsInside(r + t, a, p + b + q, 0, st.side0.active);
    assert bs == (r + t + a) + p + (b + q);
    PartyInside(r + t + a, st.side0.party, b + q);
    assert bs == (r + t + a + p) + b + q;
    HoldsInside(r + t + a + p, b, q, 0, st.side1.active);
    assert bs == (r + t + a + p + b) + q + [];
    PartyInside(r + t + a + p + b, st.side1.party, []);
  }

  lemma StatusCodes()
    ensures StatusCode(NoStatus) == 0 && StatusCode(Burn) == 1 && StatusCode(Poison) == 2 && StatusCode(Freeze) == 3
    ensures StatusCode(Sleep) == 4 && StatusCode(Paralysis) == 5 && StatusCode(Toxic) == 6
  {
  }

  /** The published 64-bit FNV-1a hashes of nothing, of "a" and of "foobar". */
  lemma FnvVectors()
    ensures Fnv(FNV_OFFSET, []) == 0xCBF29CE484222325
    ensures Fnv(FNV_OFFSET, [0x61]) == 0xAF63DC4C8601EC8C
    ensures Fnv(FNV_OFFSET, [0x66, 0x6F, 0x6F, 0x62, 0x61, 0x72]) == 0x85944171F73967E8
  {
    hide Fnv;
    FnvOneByOne(FNV_OFFSET, [], 0x61);
    var s := [0x66, 0x6F, 0x6F, 0x62, 0x61, 0x72];
    forall i | 0 <= i < 6 ensures Fnv(FNV_OFFSET, s[..i + 1]) == FnvStep(Fnv(FNV_OFFSET, s[..i]), s[i]) {
      assert s[..i + 1] == s[..i] + [s[i]];
      FnvOneByOne(FNV_OFFSET, s[..i], s[i]);
    }
    assert s[..0] == [] && s[..6] == s;
    FnvOfNothing(FNV_OFFSET);
    assert Fnv(FNV_OFFSET, s[..1]) == 0xAF63DB4C8601EAD9;
    assert Fnv(FNV_OFFSET, s[..2]) == 0x08985907B541D342;
    assert Fnv(FNV_OFFSET, s[..3]) == 0xDCB27518FED9D577;
    assert Fnv(FNV_OFFSET, s[..4]) == 0xDD120E790C2512AF;
    assert Fnv(FNV_OFFSET, s[..5]) == 0xCAC165AFA2FEF40A;
    assert Fnv(FNV_OFFSET, s[..6]) == 0x85944171F73967E8;
    assert [] + [0x61 as bv8] == [0x61];
  }

  lemma FnvOneByOne(h: bv64, bs: seq<bv8>, b: bv8)
    ensures Fnv(h, bs + [b]) == FnvStep(Fnv(h, bs), b)
  {
    hide FnvStep;
    assert (bs + [b])[..|bs|] == bs;
  }

  lemma FnvOfNothing(h: bv64)
    ensures Fnv(h, []) == h
  {
  }
}
