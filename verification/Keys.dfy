/** Names joined by a separator, as the matchmaker and the limiter use them for map keys, and
    exactly when two pairs of names share a key. */
module Keys {
  const SEPARATOR := '|'

  function Joined(first: string, second: string): string {
    first + [SEPARATOR] + second
  }

  /** The separator falls at the end of the first name of one pair and again inside that of the
      other, which swallows the start of the second. */
  predicate Straddles(x: string, y: string, x': string, y': string) {
    && |x| < |x'| && x + [SEPARATOR] == x'[..|x| + 1]
    && y == Joined(x'[|x| + 1..], y')
  }

  lemma SplitKey(x: string, y: string, x': string, y': string)
    requires Joined(x, y) == Joined(x', y') && |x| < |x'|
    ensures Straddles(x, y, x', y')
  {
    var k, k', n := Joined(x, y), Joined(x', y'), |x| + 1;
    assert x + [SEPARATOR] == k[..n] == k'[..n] == x'[..n];
    assert y == k[n..] == k'[n..] == Joined(x'[n..], y');
  }

  lemma StraddlingKeys(x: string, y: string, x': string, y': string)
    requires Straddles(x, y, x', y')
    ensures Joined(x, y) == Joined(x', y')
  {
    var n := |x| + 1;
    assert x' == x'[..n] + x'[n..];
    assert Joined(x, y) == (x + [SEPARATOR]) + (x'[n..] + [SEPARATOR] + y');
  }

  /** Two pairs share a key exactly when they are equal or one straddles the other. */
  lemma SharedKeyIff(x: string, y: string, x': string, y': string)
    ensures Joined(x, y) == Joined(x', y') <==> (x == x' && y == y') || Straddles(x, y, x', y') || Straddles(x', y', x, y)
  {
    hide Straddles;
    if Joined(x, y) == Joined(x', y') {
      var k, k' := Joined(x, y), Joined(x', y');
      if |x| < |x'| {
        SplitKey(x, y, x', y');
      } else if |x'| < |x| {
        SplitKey(x', y', x, y);
      } else {
        assert x == k[..|x|] == k'[..|x'|] == x';
        assert y == k[|x| + 1..] == k'[|x'| + 1..] == y';
      }
    } else {
      if Straddles(x, y, x', y') {
        StraddlingKeys(x, y, x', y');
      }
      if Straddles(x', y', x, y) {
        StraddlingKeys(x', y', x, y);
      }
    }
  }

  lemma StraddlingNeedsSeparator(x: string, y: string, x': string, y': string)
    requires Straddles(x, y, x', y')
    ensures SEPARATOR in x'
  {
    assert x'[|x|] == (x + [SEPARATOR])[|x|];
  }

  /** So keys never collide as long as no first name holds the separator. */
  lemma PlainNamesNeverCollide(x: string, y: string, x': string, y': string)
    requires SEPARATOR !in x && SEPARATOR !in x' && Joined(x, y) == Joined(x', y')
    ensures x == x' && y == y'
  {
    hide Joined, Straddles;
    SharedKeyIff(x, y, x', y');
    if Straddles(x, y, x', y') {
      StraddlingNeedsSeparator(x, y, x', y');
    } else if Straddles(x', y', x, y) {
      StraddlingNeedsSeparator(x', y', x, y);
    }
  }
}
