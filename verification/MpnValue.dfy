/** Values of digit sequences in base 2^32, least significant digit first. */
module MpnValue {
  const BASE: int := 0x1_0000_0000

  type Digit = x: int | 0 <= x < BASE

  /** A 64-bit double digit: storing into one proves that nothing overflows. */
  type Double = x: int | 0 <= x < BASE * BASE

  function Pow(n: nat): (r: nat)
    ensures r > 0
  {
    if n == 0 then 1 else BASE * Pow(n - 1)
  }

  /** Digit `i`, with zeros beyond the end. */
  function At(s: seq<Digit>, i: nat): Digit {
    if i < |s| then s[i] else 0
  }

  /** The value of the `n` low digits. */
  function Low(s: seq<Digit>, n: nat): (r: nat)
  {
    if n == 0 then 0 else Low(s, n - 1) + At(s, n - 1) * Pow(n - 1)
  }

  function Val(s: seq<Digit>): nat {
    Low(s, |s|)
  }

  lemma {:induction false} LowPrefix(s: seq<Digit>, t: seq<Digit>, n: nat)
    requires forall i :: 0 <= i < n ==> At(s, i) == At(t, i)
    ensures Low(s, n) == Low(t, n)
  {
    if n > 0 { LowPrefix(s, t, n - 1); }
  }

  lemma {:induction false} LowPadded(s: seq<Digit>, n: nat)
    requires n >= |s|
    ensures Low(s, n) == Val(s)
  {
    if n > |s| {
      LowPadded(s, n - 1);
      assert At(s, n - 1) == 0;
    }
  }

  lemma {:induction false} LowBound(s: seq<Digit>, n: nat)
    ensures Low(s, n) < Pow(n)
  {
    if n > 0 {
      LowBound(s, n - 1);
      DigitBound(Low(s, n - 1), At(s, n - 1), Pow(n - 1));
    }
  }

  lemma {:induction false} MulMono(a: int, b: int, p: int)
    requires a <= b && 0 <= p
    ensures a * p <= b * p
  {
    assert b * p - a * p == (b - a) * p;
  }

  lemma {:induction false} MulNext(a: int, b: int, t: int)
    requires a < b && 0 <= t
    ensures a * t + t <= b * t
  {
    MulMono(a + 1, b, t);
    assert (a + 1) * t == a * t + t;
  }

  lemma {:induction false} DigitBound(low: nat, d: Digit, p: nat)
    requires low < p
    ensures low + d * p < BASE * p
  {
    MulMono(d, BASE - 1, p);
  }

  lemma {:induction false} ValSnoc(s: seq<Digit>, d: Digit)
    ensures Val(s + [d]) == Val(s) + d * Pow(|s|)
  {
    LowPrefix(s, s + [d], |s|);
  }

  lemma {:induction false} PowAdd(i: nat, j: nat)
    ensures Pow(i + j) == Pow(i) * Pow(j)
  {
    if i > 0 {
      PowAdd(i - 1, j);
      assert Pow(i + j) == BASE * (Pow(i - 1) * Pow(j));
      assert BASE * (Pow(i - 1) * Pow(j)) == (BASE * Pow(i - 1)) * Pow(j);
    }
  }

  /** Low digits and shifted high digits. */
  lemma {:induction false} LowSplit(s: seq<Digit>, i: nat, j: nat)
    requires i <= |s|
    ensures Low(s, i + j) == Low(s, i) + Pow(i) * Low(s[i..], j)
  {
    if j > 0 {
      LowSplit(s, i, j - 1);
      PowAdd(i, j - 1);
      var d := At(s, i + j - 1);
      assert d == At(s[i..], j - 1);
      Regroup(Low(s, i), Pow(i), Low(s[i..], j - 1), d, Pow(j - 1));
    }
  }

  lemma {:induction false} Regroup(a: int, p: int, x: int, d: int, q: int)
    ensures a + p * x + d * (p * q) == a + p * (x + d * q)
  {
    assert d * (p * q) == p * (d * q);
    assert p * (x + d * q) == p * x + p * (d * q);
  }

  lemma {:induction false} ValSplit(s: seq<Digit>, i: nat)
    requires i <= |s|
    ensures Val(s) == Val(s[..i]) + Pow(i) * Val(s[i..])
  {
    LowSplit(s, i, |s| - i);
    LowPrefix(s, s[..i], i);
  }

  lemma {:induction false} ValCons(d: Digit, s: seq<Digit>)
    ensures Val([d] + s) == d + BASE * Val(s)
  {
    var t := [d] + s;
    ValSplit(t, 1);
    assert t[1..] == s && t[..1] == [d];
    assert Low(t[..1], 0) == 0;
    assert Pow(1) == BASE * Pow(0);
  }

  lemma {:induction false} ValZeros(s: seq<Digit>, n: nat)
    requires n <= |s| && forall i :: n <= i < |s| ==> s[i] == 0
    ensures Val(s) == Val(s[..n])
    decreases |s|
  {
    if n < |s| {
      var k := |s| - 1;
      assert s == s[..k] + [s[k]];
      ValSnoc(s[..k], s[k]);
      ValZeros(s[..k], n);
      assert s[..k][..n] == s[..n];
    } else {
      assert s[..n] == s;
    }
  }

  /** The top differing digit decides the order. */
  lemma {:induction false} TopDecides(s: seq<Digit>, t: seq<Digit>, n: nat, m: nat)
    requires n < m && At(s, n) < At(t, n)
    requires forall i :: n < i < m ==> At(s, i) == At(t, i)
    ensures Low(s, m) < Low(t, m)
  {
    if m == n + 1 {
      LowBound(s, n);
      LowBound(t, n);
      MulNext(At(s, n), At(t, n), Pow(n));
    } else {
      TopDecides(s, t, n, m - 1);
    }
  }
}
