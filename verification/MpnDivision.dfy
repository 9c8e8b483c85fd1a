/** Long division: normalisation, division by one digit, Algorithm D, and undoing the
    normalisation (runtime/mpn.cpp). A buffer that is resized is a new array. */
module MpnDivision {
  import opened Prelude
  import opened MpnValue
  import opened MpnBits
  import opened MpnKnuth
  import Mpn

  const HALF_BASE: int := 0x8000_0000

  // ---------------------------------------------------------------- shifting whole numbers

  /** `y[..len]` holds the low `len` digits of `x << d`. */
  ghost predicate Shifted(x: seq<Digit>, d: nat, y: seq<Digit>)
    requires d <= DIGIT_BITS
  {
    && |y| == |x|
    && forall i :: 0 <= i < |x| ==> y[i] == Shl(x[i], d) + Out(x, d, i)
  }

  /** The bits shifted out of the digits below `n`. */
  function Out(x: seq<Digit>, d: nat, n: nat): nat
    requires d <= DIGIT_BITS && n <= |x|
  {
    if n == 0 then 0 else FirstBits(d, x[n - 1])
  }

  lemma {:induction false} ShiftedValue(x: seq<Digit>, d: nat, y: seq<Digit>, n: nat)
    requires d <= DIGIT_BITS && Shifted(x, d, y) && n <= |x|
    ensures Low(y, n) + Out(x, d, n) * Pow(n) == Low(x, n) * Pow2(d)
  {
    hide FirstBits, Shl, Pow2;
    if n > 0 {
      ShiftedValue(x, d, y, n - 1);
      ShlSplit(x[n - 1], d);
      ShiftedStep(Low(y, n - 1), Low(x, n - 1), Out(x, d, n - 1), x[n - 1], Shl(x[n - 1], d), FirstBits(d, x[n - 1]), Pow2(d), Pow(n - 1));
    }
  }

  lemma {:induction false} ShiftedStep(low: nat, lowX: nat, below: nat, x: nat, kept: nat, out: nat, t: nat, p: nat)
    requires low + below * p == lowX * t && x * t == out * BASE + kept
    ensures low + (kept + below) * p + out * (BASE * p) == (lowX + x * p) * t
  {
    assert (kept + below) * p == kept * p + below * p;
    assert (lowX + x * p) * t == lowX * t + (x * p) * t;
    assert (x * p) * t == (x * t) * p;
    assert (out * BASE + kept) * p == out * (BASE * p) + kept * p;
  }

  /** Write `x << d`, digit by digit from the top, into `y[..len]`. */
  method ShiftDigits(x: array<Digit>, len: nat, d: nat, y: array<Digit>)
    requires 0 < len <= x.Length && len <= y.Length && x != y && d <= DIGIT_BITS
    modifies y
    ensures Shifted(x[..len], d, y[..len])
    ensures y[len..] == old(y[len..])
  {
    var i := len - 1;
    while i > 0
      invariant 0 <= i < len
      invariant forall k :: i < k < len ==> y[k] == Shl(x[k], d) + FirstBits(d, x[k - 1])
      invariant y[len..] == old(y[len..])
    {
      ShiftDigit(x[i], x[i - 1], d);
      y[i] := Or(Shl(x[i], d), FirstBits(d, x[i - 1]));
      i := i - 1;
    }
    y[0] := Shl(x[0], d);
  }

  method Copy(x: array<Digit>, len: nat, y: array<Digit>)
    requires len <= x.Length && len <= y.Length && x != y
    modifies y
    ensures y[..len] == x[..len] && y[len..] == old(y[len..])
  {
    for i := 0 to len
      invariant y[..i] == x[..i] && y[len..] == old(y[len..])
    {
      y[i] := x[i];
    }
  }

  /** How far the divisor must be shifted for its top bit to be set. */
  method NormalShift(top: Digit) returns (d: nat)
    requires top != 0
    ensures d < DIGIT_BITS && HALF_BASE <= top * Pow2(d) < BASE
  {
    d := 0;
    ShlExact(top, 0);
    while Shl(top, d) < HALF_BASE
      invariant d <= DIGIT_BITS && top * Pow2(d) < BASE && Shl(top, d) == top * Pow2(d)
      decreases DIGIT_BITS - d
    {
      ShlExact(top, d);
      ShiftSmall(top, d);
      d := d + 1;
      ShlExact(top, d);
    }
    if d == DIGIT_BITS {
      TwoWord();
      MulMono(1, top, BASE);
      assert false;
    }
  }

  lemma {:induction false} ShiftSmall(top: nat, d: nat)
    requires top * Pow2(d) < HALF_BASE && top != 0
    ensures d < DIGIT_BITS
  {
    if d >= DIGIT_BITS {
      TwoAdd(DIGIT_BITS, d - DIGIT_BITS);
      TwoWord();
      MulMono(1, Pow2(d - DIGIT_BITS), BASE);
      MulMono(1, top, Pow2(d));
    }
  }

  /** Shift both numbers so that the divisor's top bit is set. */
  method Normalize(numer: array<Digit>, lnum: nat, denom: array<Digit>, lden: nat)
    returns (d: nat, nNumer: array<Digit>, nDenom: array<Digit>)
    requires 0 < lnum <= numer.Length && 0 < lden <= denom.Length && denom[lden - 1] != 0
    ensures d < DIGIT_BITS && fresh(nNumer) && fresh(nDenom) && nNumer != nDenom
    ensures nNumer.Length == lnum + 1 && nDenom.Length == lden
    ensures Val(nNumer[..]) == Val(numer[..lnum]) * Pow2(d)
    ensures Val(nDenom[..]) == Val(denom[..lden]) * Pow2(d)
    ensures nDenom[lden - 1] >= HALF_BASE && nNumer[lnum] < HALF_BASE
  {
    d := NormalShift(denom[lden - 1]);
    nNumer, nDenom := new Digit[lnum + 1](_ => 0), new Digit[lden](_ => 0);
    ShiftInto(numer, lnum, d, nNumer, if d == 0 then 0 else FirstBits(d, numer[lnum - 1]));
    if d == 0 {
      Copy(denom, lden, nDenom);
    } else {
      ShiftDigits(denom, lden, d, nDenom);
      NormalDivisor(denom[..lden], d, nDenom[..lden]);
    }
    assert nDenom[..] == nDenom[..lden];
  }

  /** `y := x << d` with one extra digit for the bits pushed out of the top. */
  method ShiftInto(x: array<Digit>, len: nat, d: nat, y: array<Digit>, top: Digit)
    requires 0 < len <= x.Length && y.Length == len + 1 && x != y && d < DIGIT_BITS
    requires top == if d == 0 then 0 else FirstBits(d, x[len - 1])
    modifies y
    ensures Val(y[..]) == Val(x[..len]) * Pow2(d) && y[len] < HALF_BASE
  {
    y[len] := top;
    if d == 0 {
      Copy(x, len, y);
    } else {
      ShiftDigits(x, len, d, y);
    }
    assert y[..] == y[..len] + y[len..] && y[len..] == [top];
    ValSnoc(y[..len], top);
    if d > 0 { NormalValues(x[..len], d, y[..len]); }
  }

  lemma {:induction false} NormalValues(x: seq<Digit>, d: nat, y: seq<Digit>)
    requires 0 < d < DIGIT_BITS && |x| > 0 && Shifted(x, d, y)
    ensures Val(y) + FirstBits(d, x[|x| - 1]) * Pow(|x|) == Val(x) * Pow2(d)
    ensures FirstBits(d, x[|x| - 1]) < HALF_BASE
  {
    ShiftedValue(x, d, y, |x|);
    ShlSplit(x[|x| - 1], d);
    TwoMono(d);
  }

  lemma {:induction false} TwoMono(d: nat)
    requires d < DIGIT_BITS
    ensures Pow2(d) <= HALF_BASE
  {
    TwoBase(d);
    MulMono(2, Pow2(DIGIT_BITS - d), Pow2(d));
    assert Pow2(d) * Pow2(DIGIT_BITS - d) == Pow2(DIGIT_BITS - d) * Pow2(d);
  }

  lemma {:induction false} NormalDivisor(x: seq<Digit>, d: nat, y: seq<Digit>)
    requires 0 < d < DIGIT_BITS && |x| > 0 && Shifted(x, d, y) && HALF_BASE <= x[|x| - 1] * Pow2(d) < BASE
    ensures Val(y) == Val(x) * Pow2(d) && y[|x| - 1] >= HALF_BASE
  {
    var n := |x|;
    ShiftedValue(x, d, y, n);
    ShlSplit(x[n - 1], d);
    DivUnique(x[n - 1] * Pow2(d), BASE, 0, x[n - 1] * Pow2(d));
    DivUnique(x[n - 1] * Pow2(d), BASE, FirstBits(d, x[n - 1]), Shl(x[n - 1], d));
  }

  /** Shift the remainder back: `rem` is the quotient of the low digits of `numer` by `2^d`. */
  method Unnormalize(numer: array<Digit>, n: nat, d: nat, rem: array<Digit>)
    requires 0 < n <= numer.Length && n <= rem.Length && rem != numer && d < DIGIT_BITS
    modifies rem
    ensures Val(rem[..n]) == Val(numer[..n]) / Pow2(d)
  {
    if d == 0 {
      Copy(numer, n, rem);
    } else {
      for i := 0 to n - 1
        invariant forall k :: 0 <= k < i ==> rem[k] == Shr(numer[k], d) + (numer[k + 1] % Pow2(d)) * Pow2(DIGIT_BITS - d)
      {
        UnshiftDigit(numer[i], numer[i + 1], d);
        rem[i] := Or(Shr(numer[i], d), Shl(LastBits(d, numer[i + 1]), DIGIT_BITS - d));
      }
      rem[n - 1] := Shr(numer[n - 1], d);
      Unshifted(numer[..n], d, rem[..n]);
    }
  }

  ghost predicate UnshiftedDigits(x: seq<Digit>, d: nat, y: seq<Digit>)
    requires d <= DIGIT_BITS
  {
    && |y| == |x| > 0 && y[|x| - 1] == Shr(x[|x| - 1], d)
    && forall k :: 0 <= k < |x| - 1 ==> y[k] == Shr(x[k], d) + (x[k + 1] % Pow2(d)) * Pow2(DIGIT_BITS - d)
  }

  lemma {:induction false} Unshifted(x: seq<Digit>, d: nat, y: seq<Digit>)
    requires d <= DIGIT_BITS && UnshiftedDigits(x, d, y)
    ensures Val(y) == Val(x) / Pow2(d)
  {
    var n, t := |x|, Pow2(d);
    UnshiftedValue(x, d, y, n - 1);
    DivMod(x[n - 1], t);
    DivMod(x[0], t);
    UnshiftedEnd(Low(y, n - 1), y[n - 1], Low(x, n - 1), x[n - 1], x[n - 1] % t, x[0] % t, t, Pow(n - 1));
    assert Val(y) * t == t * Val(y);
    DivUnique(Val(x), t, Val(y), x[0] % t);
  }

  lemma {:induction false} UnshiftedEnd(low: nat, top: nat, lowX: nat, x: nat, bits: nat, rest: nat, t: nat, p: nat)
    requires t * low + rest == lowX + bits * p && x == top * t + bits
    ensures t * (low + top * p) + rest == lowX + x * p
  {
    assert t * (low + top * p) == t * low + (top * t) * p;
    assert (top * t + bits) * p == (top * t) * p + bits * p;
  }

  lemma {:induction false} ShrSplit(x: Digit, d: nat)
    ensures x == Shr(x, d) * Pow2(d) + x % Pow2(d)
  {
    DivMod(x, Pow2(d));
  }

  lemma {:induction false} UnshiftedValue(x: seq<Digit>, d: nat, y: seq<Digit>, n: nat)
    requires d <= DIGIT_BITS && UnshiftedDigits(x, d, y) && n < |x|
    ensures Pow2(d) * Low(y, n) + x[0] % Pow2(d) == Low(x, n) + (x[n] % Pow2(d)) * Pow(n)
  {
    hide Shr, Pow2;
    if n > 0 {
      UnshiftedValue(x, d, y, n - 1);
      var t, u, p := Pow2(d), Pow2(DIGIT_BITS - d), Pow(n - 1);
      ShrSplit(x[n - 1], d);
      TwoBase(d);
      UnshiftedStep(Low(y, n - 1), Shr(x[n - 1], d), x[n] % t, Low(x, n - 1), x[n - 1], x[n - 1] % t, x[0] % t, t, u, p);
    }
  }

  lemma {:induction false} UnshiftedStep(low: nat, q: nat, above: nat, lowX: nat, x: nat, bits: nat, rest: nat,
      t: nat, u: nat, p: nat)
    requires t * low + rest == lowX + bits * p && x == q * t + bits && t * u == BASE
    ensures t * (low + (q + above * u) * p) + rest == lowX + x * p + above * (BASE * p)
  {
    assert t * (low + (q + above * u) * p) == t * low + t * ((q + above * u) * p);
    assert (q + above * u) * p == q * p + (above * u) * p;
    assert t * (q * p + (above * u) * p) == (q * t) * p + above * ((t * u) * p);
    assert (q * t + bits) * p == (q * t) * p + bits * p;
  }

  // ---------------------------------------------------------------- one quotient digit at a time

  /** A dividend part `w == q * v + r` below the quotient digits found so far. */
  lemma {:induction false} QuotientStep(low: nat, p: nat, w: nat, v: nat, q: nat, r: nat, rest: nat)
    requires w == q * v + r
    ensures low + p * w + (BASE * p) * (v * rest) == low + p * r + p * (v * (q + BASE * rest))
  {
    assert p * (q * v + r) == p * (q * v) + p * r;
    assert v * (q + BASE * rest) == q * v + v * (BASE * rest);
    assert p * (q * v + v * (BASE * rest)) == p * (q * v) + p * (v * (BASE * rest));
    assert p * (v * (BASE * rest)) == (BASE * p) * (v * rest);
  }

  lemma {:induction false} LowWindow(s: seq<Digit>, j: nat, n: nat)
    requires j + n <= |s|
    ensures Low(s, j + n) == Low(s, j) + Pow(j) * Val(s[j..j + n])
  {
    LowSplit(s, j, n);
    LowPrefix(s[j..], s[j..j + n], n);
  }

  /** Two digits by one: the quotient is a digit and nothing is borrowed. */
  method DivideTwo(high: Digit, low: Digit, denom: Digit) returns (q: Digit, ms: Double)
    requires high < denom
    ensures high * BASE + low == q * denom + ms && ms < denom
  {
    MulNext(high, denom, BASE);
    MulMono(denom, BASE, BASE);
    var temp: Double := high * BASE + low;
    DivMod(temp, denom);
    QuotientFits(temp, denom);
    var qHat: Double := temp / denom;
    if qHat >= BASE {
      assert false;
    }
    ms := (temp - qHat * denom) % (BASE * BASE);
    var borrow := ms > temp;
    if borrow {
      assert false;
    }
    q := qHat;
  }

  /** Divide by one digit; the remainder ends up in `numer[0]`. */
  method DivOne(numer: array<Digit>, denom: Digit, quot: array<Digit>)
    requires numer.Length > 0 && numer[numer.Length - 1] < denom
    requires quot.Length >= numer.Length - 1 && quot != numer
    modifies numer, quot
    ensures old(Val(numer[..])) == Val(quot[..numer.Length - 1]) * denom + numer[0] && numer[0] < denom
    ensures quot[numer.Length - 1..] == old(quot[numer.Length - 1..])
  {
    hide Low, Val, Pow;
    var m := numer.Length - 1;
    var j := m;
    DivStart(numer[..], denom, quot[m..m]);
    while j > 0
      invariant 0 <= j <= m && numer[j] < denom
      invariant quot[m..] == old(quot[m..])
      invariant old(Val(numer[..])) == Low(numer[..], j + 1) + Pow(j) * (denom * Val(quot[j..m]))
    {
      ghost var x, rest := numer[..], quot[j..m];
      var q, ms := DivideTwo(numer[j], numer[j - 1], denom);
      numer[j - 1] := ms % BASE;
      numer[j] := ms / BASE;
      quot[j - 1] := q;
      assert quot[j - 1..m] == [q] + rest;
      OneDigit(x, numer[..], j, denom, q, rest);
      j := j - 1;
    }
    DivEnd(numer[..], denom, quot[..m]);
    assert quot[0..m] == quot[..m];
  }

  lemma {:induction false} DivStart(x: seq<Digit>, denom: Digit, none: seq<Digit>)
    requires |x| > 0 && none == []
    ensures Val(x) == Low(x, |x|) + Pow(|x| - 1) * (denom * Val(none))
  {
    assert Val(none) == 0;
  }

  lemma {:induction false} DivEnd(x: seq<Digit>, denom: Digit, q: seq<Digit>)
    requires |x| > 0
    ensures Low(x, 1) + Pow(0) * (denom * Val(q)) == Val(q) * denom + x[0]
  {
    LowOne(x, 0);
  }

  lemma {:induction false} QuotientFits(temp: nat, denom: nat)
    requires 0 < denom <= BASE && temp < denom * BASE
    ensures temp / denom < BASE
  {
    DivMod(temp, denom);
    if temp / denom >= BASE { MulMono(BASE, temp / denom, denom); }
  }

  lemma {:induction false} OneDigit(x: seq<Digit>, y: seq<Digit>, j: nat, denom: Digit, q: Digit, rest: seq<Digit>)
    requires 0 < j < |x| == |y| && x[..j - 1] == y[..j - 1]
    requires x[j] * BASE + x[j - 1] == q * denom + y[j - 1]
    ensures Low(x, j + 1) + Pow(j) * (denom * Val(rest)) == Low(y, j) + Pow(j - 1) * (denom * Val([q] + rest))
  {
    hide Low, Pow, Val;
    LowPrefix(x, y, j - 1);
    LowTwo(x, j);
    LowOne(y, j - 1);
    QuotientStep(Low(x, j - 1), Pow(j - 1), x[j] * BASE + x[j - 1], denom, q, y[j - 1], Val(rest));
    ValCons(q, rest);
  }

  lemma {:induction false} LowOne(x: seq<Digit>, j: nat)
    requires j < |x|
    ensures Low(x, j + 1) == Low(x, j) + Pow(j) * x[j] && Pow(j + 1) == BASE * Pow(j)
  {
  }

  lemma {:induction false} LowTwo(x: seq<Digit>, j: nat)
    requires 0 < j < |x|
    ensures Low(x, j + 1) == Low(x, j - 1) + Pow(j - 1) * (x[j] * BASE + x[j - 1]) && Pow(j) == BASE * Pow(j - 1)
  {
    hide Low, Pow;
    LowOne(x, j - 1);
    LowOne(x, j);
    TwoTop(x[j], x[j - 1], Pow(j - 1));
  }

  lemma {:induction false} TwoTop(high: nat, low: nat, p: nat)
    ensures p * (high * BASE + low) == p * low + (BASE * p) * high
  {
    assert p * (high * BASE) == (BASE * p) * high;
  }

  // ---------------------------------------------------------------- Algorithm D

  /** The test on the third digit; both sides fit a double digit. */
  predicate TooLarge(qHat: Double, rHat: Digit, v2: Digit, u2: Digit) {
    qHat >= BASE ||
    (Mpn.MulFits(qHat, v2, 0, 0);
     var left: Double := qHat * v2;
     var right: Double := rHat * BASE + u2;
     left > right)
  }

  lemma {:induction false} TwoDigits(a: nat, b: nat, p: nat)
    ensures (a * BASE + b) * p == a * (BASE * p) + b * p
    ensures (b + 1) * p == b * p + p
  {
  }

  lemma {:induction false} LeadingDivisor(x: seq<Digit>, n: nat)
    requires |x| == n >= 2
    ensures (x[n - 1] * BASE + x[n - 2]) * Pow(n - 2) <= Val(x) < (x[n - 1] * BASE + x[n - 2] + 1) * Pow(n - 2)
  {
    LowBound(x, n - 2);
    assert Low(x, n - 1) == Low(x, n - 2) + x[n - 2] * Pow(n - 2);
    assert Val(x) == Low(x, n - 1) + x[n - 1] * (BASE * Pow(n - 2));
    TwoDigits(x[n - 1], x[n - 2], Pow(n - 2));
    TwoDigits(0, x[n - 1] * BASE + x[n - 2], Pow(n - 2));
  }

  lemma {:induction false} LeadingDividend(w: seq<Digit>, n: nat)
    requires |w| == n + 1 && n >= 2
    ensures ((w[n] * BASE + w[n - 1]) * BASE + w[n - 2]) * Pow(n - 2) <= Val(w)
    ensures Val(w) < ((w[n] * BASE + w[n - 1]) * BASE + w[n - 2] + 1) * Pow(n - 2)
  {
    var top, p := w[n] * BASE + w[n - 1], Pow(n - 2);
    LowBound(w, n - 2);
    assert Low(w, n - 1) == Low(w, n - 2) + w[n - 2] * p;
    assert Low(w, n) == Low(w, n - 1) + w[n - 1] * (BASE * p);
    assert Val(w) == Low(w, n) + w[n] * (BASE * (BASE * p));
    TwoDigits(w[n], w[n - 1], BASE * p);
    TwoDigits(top, w[n - 2], p);
    TwoDigits(0, top * BASE + w[n - 2], p);
  }

  lemma {:induction false} LeadingWindow(w: seq<Digit>, v: seq<Digit>, n: nat)
    requires |v| == n >= 2 && |w| == n + 1 && v[n - 1] > 0 && Val(w) < BASE * Val(v)
    ensures Leading(BASE, Pow(n - 2), Val(w), w[n] * BASE + w[n - 1], w[n - 2], Val(v), v[n - 1], v[n - 2])
  {
    LeadingDivisor(v, n);
    LeadingDividend(w, n);
  }

  /** The trial digit is the true quotient digit of the window or one more, after at most two
      corrections. */
  method Estimate(numer: array<Digit>, denom: array<Digit>, j: nat) returns (q: Digit, ghost corrections: nat)
    requires denom.Length >= 2 && j + denom.Length < numer.Length && denom[denom.Length - 1] >= HALF_BASE
    requires Val(numer[j..j + denom.Length + 1]) < BASE * Val(denom[..])
    ensures Val(denom[..]) > 0 && corrections <= 2
    ensures Val(numer[j..j + denom.Length + 1]) / Val(denom[..]) <= q
    ensures q <= Val(numer[j..j + denom.Length + 1]) / Val(denom[..]) + 1
  {
    hide Low;
    var n := denom.Length;
    ghost var w, v := numer[j..j + n + 1], denom[..];
    var v1, v2, u2 := denom[n - 1], denom[n - 2], numer[j + n - 2];
    ghost var p := Pow(n - 2);
    LeadingWindow(w, v, n);
    var temp: Double := numer[j + n] * BASE + numer[j + n - 1];
    FirstTrial(BASE, p, Val(w), temp, u2, Val(v), v1, v2);
    DivMod(temp, v1);
    MulMono(1, v1, temp / v1);
    var qHat: Double := temp / v1;
    var rHat: Double := temp % v1;
    corrections := 0;
    while rHat < BASE && TooLarge(qHat, rHat, v2, u2)
      invariant Trial(temp, v1, qHat, rHat) && Val(w) / Val(v) <= qHat
      invariant rHat < BASE + v1 && corrections * HALF_BASE <= rHat && corrections <= 2
      decreases qHat
    {
      Correction(BASE, p, Val(w), temp, u2, Val(v), v1, v2, qHat, rHat);
      qHat := qHat - 1;
      rHat := rHat + v1;
      corrections := corrections + 1;
    }
    if rHat >= BASE { LargeRemainder(BASE, p, Val(w), temp, u2, Val(v), v1, v2, qHat, rHat); }
    AtMostOneMore(BASE, p, Val(w), temp, u2, Val(v), v1, v2, qHat, rHat);
    q := qHat;
  }

  lemma {:induction false} ValOne(d: Digit)
    ensures Val([d]) == d
  {
    assert [d] == [] + [d];
    ValSnoc([], d);
  }

  /** Subtract `qHat * denom` from the window, modulo the window's size. */
  method SubtractMultiple(numer: array<Digit>, denom: array<Digit>, j: nat, qHat: Digit, ms: array<Digit>)
    returns (borrow: Digit)
    requires j + denom.Length < numer.Length && ms.Length == denom.Length + 1
    requires numer != denom && numer != ms && denom != ms
    modifies numer, ms
    ensures borrow <= 1
    ensures Val(numer[j..j + denom.Length + 1]) - borrow * Pow(denom.Length + 1)
              == old(Val(numer[j..j + denom.Length + 1])) - qHat * Val(denom[..])
    ensures borrow == 1 <==> old(Val(numer[j..j + denom.Length + 1])) < qHat * Val(denom[..])
    ensures numer[..j] == old(numer[..j])
  {
    var n := denom.Length;
    var small := new Digit[1](_ => qHat);
    assert small[..1] == [qHat] && denom[..n] == denom[..];
    ValOne(qHat);
    Mpn.Mul(small, 1, denom, n, ms);
    assert ms[..1 + n] == ms[0..0 + (n + 1)];
    borrow := Mpn.Sub(numer, j, n + 1, ms, 0, n + 1, numer, j);
  }

  /** Add the divisor back once; the carry out of the window is dropped. */
  method AddBack(numer: array<Digit>, denom: array<Digit>, j: nat, ab: array<Digit>)
    returns (ghost carry: nat)
    requires j + denom.Length < numer.Length && ab.Length == denom.Length + 2
    requires numer != denom && numer != ab && denom != ab
    modifies numer, ab
    ensures Val(numer[j..j + denom.Length + 1]) + carry * Pow(denom.Length + 1)
              == old(Val(numer[j..j + denom.Length + 1])) + Val(denom[..])
    ensures numer[..j] == old(numer[..j])
  {
    var n := denom.Length;
    assert denom[0..0 + n] == denom[..];
    var size := Mpn.Add(denom, 0, n, numer, j, n + 1, ab);
    assert ab[..] == ab[..n + 1] + [ab[n + 1]];
    ValSnoc(ab[..n + 1], ab[n + 1]);
    carry := ab[n + 1];
    ghost var sum := ab[..];
    for i := 0 to n + 1
      invariant ab[..] == sum
      invariant numer[..j] == old(numer[..j]) && numer[j..j + i] == ab[..i]
    {
      numer[j + i] := ab[i];
    }
    assert numer[j..j + n + 1] == sum[..n + 1];
  }

  /** What is left in the window is the remainder, whether or not the divisor was added back. */
  lemma {:induction false} DigitDone(w: nat, v: nat, qHat: nat, borrow: nat, diff: nat, carry: nat, win: nat, p: nat)
    requires v > 0 && w / v <= qHat <= w / v + 1 && borrow <= 1 && v <= p && win < p
    requires diff - borrow * p == w - qHat * v && (borrow == 1 <==> w < qHat * v)
    requires if borrow == 0 then win == diff else win + carry * p == diff + v
    ensures qHat - borrow == w / v && win == w % v
  {
    DivMod(w, v);
    assert (w / v + 1) * v == (w / v) * v + v;
    if borrow == 0 {
      DivUnique(w, v, qHat, win);
    } else {
      assert qHat == w / v + 1;
      assert win + carry * p == w % v + p;
      if carry == 0 {
        assert false;
      } else if carry > 1 {
        MulMono(2, carry, p);
        assert false;
      }
    }
  }

  /** One digit of the quotient; the window becomes its remainder. */
  method QuotientDigit(numer: array<Digit>, denom: array<Digit>, j: nat, ms: array<Digit>, ab: array<Digit>)
    returns (q: Digit)
    requires denom.Length >= 2 && j + denom.Length < numer.Length && denom[denom.Length - 1] >= HALF_BASE
    requires ms.Length == denom.Length + 1 && ab.Length == denom.Length + 2
    requires numer != denom && numer != ms && numer != ab && denom != ms && denom != ab && ms != ab
    requires Val(numer[j..j + denom.Length + 1]) < BASE * Val(denom[..])
    modifies numer, ms, ab
    ensures Val(denom[..]) > 0
    ensures q == old(Val(numer[j..j + denom.Length + 1])) / Val(denom[..])
    ensures Val(numer[j..j + denom.Length + 1]) == old(Val(numer[j..j + denom.Length + 1])) % Val(denom[..])
    ensures numer[..j] == old(numer[..j])
  {
    var n := denom.Length;
    ghost var w, v, p := Val(numer[j..j + n + 1]), Val(denom[..]), Pow(n + 1);
    var qHat, corrections := Estimate(numer, denom, j);
    var borrow := SubtractMultiple(numer, denom, j, qHat, ms);
    ghost var diff, carry := Val(numer[j..j + n + 1]), 0;
    q := qHat;
    LowBound(denom[..], n);
    assert v <= p by { MulMono(1, BASE, Pow(n)); }
    if borrow != 0 {
      carry := AddBack(numer, denom, j, ab);
    }
    LowBound(numer[j..j + n + 1], n + 1);
    DigitDone(w, v, qHat, borrow, diff, carry, Val(numer[j..j + n + 1]), p);
    if borrow != 0 {
      q := q - 1;
    }
  }

  lemma {:induction false} WindowBelow(low: Digit, rest: seq<Digit>, v: nat)
    requires Val(rest) < v
    ensures Val([low] + rest) < BASE * v
  {
    ValCons(low, rest);
  }

  /** A remainder below the divisor leaves the top digit of its window zero. */
  lemma {:induction false} TopCleared(win: seq<Digit>, n: nat, v: nat)
    requires |win| == n + 1 && Val(win) < v < Pow(n)
    ensures win[n] == 0 && Val(win[..n]) == Val(win)
  {
    assert win == win[..n] + [win[n]];
    ValSnoc(win[..n], win[n]);
    if win[n] > 0 { MulMono(1, win[n], Pow(n)); }
  }

  lemma {:induction false} ManyStep(x: seq<Digit>, y: seq<Digit>, j: nat, n: nat, v: nat, q: Digit, rest: seq<Digit>)
    requires 0 < j && j + n <= |x| == |y| && x[..j - 1] == y[..j - 1]
    requires Val(x[j - 1..j + n]) == q * v + Val(y[j - 1..j - 1 + n])
    ensures Low(x, j + n) + Pow(j) * (v * Val(rest)) == Low(y, j - 1 + n) + Pow(j - 1) * (v * Val([q] + rest))
  {
    LowWindow(x, j - 1, n + 1);
    LowWindow(y, j - 1, n);
    LowPrefix(x, y, j - 1);
    ValCons(q, rest);
    QuotientStep(Low(x, j - 1), Pow(j - 1), Val(x[j - 1..j + n]), v, q, Val(y[j - 1..j - 1 + n]), Val(rest));
  }

  /** Quotient digits `rest` are known, the window below them is smaller than the divisor. */
  ghost predicate Progress(x: seq<Digit>, rest: seq<Digit>, j: nat, n: nat, v: nat, u: nat)
    requires j + n <= |x|
  {
    Val(x[j..j + n]) < v && u == Low(x, j + n) + Pow(j) * (v * Val(rest))
  }

  lemma {:induction false} ProgressStep(x: seq<Digit>, y: seq<Digit>, j: nat, n: nat, v: nat, u: nat, q: Digit, rest: seq<Digit>)
    requires 0 < j && j + n <= |x| == |y| && x[..j - 1] == y[..j - 1] && Progress(x, rest, j, n, v, u)
    requires 0 < v < Pow(n) && q == Val(x[j - 1..j + n]) / v && Val(y[j - 1..j + n]) == Val(x[j - 1..j + n]) % v
    ensures Progress(y, [q] + rest, j - 1, n, v, u)
  {
    var win := y[j - 1..j + n];
    DivMod(Val(x[j - 1..j + n]), v);
    TopCleared(win, n, v);
    assert win[..n] == y[j - 1..j - 1 + n];
    ManyStep(x, y, j, n, v, q, rest);
  }

  method DivManyStep(numer: array<Digit>, denom: array<Digit>, quot: array<Digit>, j: nat, ms: array<Digit>,
      ab: array<Digit>, ghost m: nat, ghost u: nat)
    requires denom.Length >= 2 && 0 < j <= m <= quot.Length && j + denom.Length <= numer.Length
    requires denom[denom.Length - 1] >= HALF_BASE
    requires ms.Length == denom.Length + 1 && ab.Length == denom.Length + 2
    requires numer != denom && numer != ms && numer != ab && denom != ms && denom != ab && ms != ab
    requires quot != numer && quot != denom && quot != ms && quot != ab
    requires Progress(numer[..], quot[j..m], j, denom.Length, Val(denom[..]), u)
    modifies numer, quot, ms, ab
    ensures Progress(numer[..], quot[j - 1..m], j - 1, denom.Length, Val(denom[..]), u)
  {
    var n := denom.Length;
    ghost var x, rest, v := numer[..], quot[j..m], Val(denom[..]);
    LowBound(denom[..], n);
    assert numer[j - 1..j + n] == [numer[j - 1]] + numer[j..j + n] && x[j..j + n] == numer[j..j + n];
    WindowBelow(numer[j - 1], numer[j..j + n], v);
    assert x[j - 1..j + n] == numer[j - 1..j + n];
    var q := QuotientDigit(numer, denom, j - 1, ms, ab);
    quot[j - 1] := q;
    assert quot[j - 1..m] == [q] + rest;
    assert x[..j - 1] == numer[..][..j - 1] && numer[..][j - 1..j + n] == numer[j - 1..j + n];
    ProgressStep(x, numer[..], j, n, v, u, q, rest);
  }

  /** Divide by two or more digits; the remainder ends up in the low digits of `numer`. */
  method DivMany(numer: array<Digit>, denom: array<Digit>, quot: array<Digit>)
    requires denom.Length >= 2 && numer.Length > denom.Length && denom[denom.Length - 1] >= HALF_BASE
    requires numer[numer.Length - 1] < HALF_BASE && quot.Length >= numer.Length - denom.Length
    requires numer != denom && quot != numer && quot != denom
    modifies numer, quot
    ensures old(Val(numer[..])) == Val(quot[..numer.Length - denom.Length]) * Val(denom[..]) + Val(numer[..denom.Length])
    ensures Val(numer[..denom.Length]) < Val(denom[..])
  {
    var n := denom.Length;
    var m := numer.Length - n;
    var ms, ab := new Digit[n + 1](_ => 0), new Digit[n + 2](_ => 0);
    ghost var v, u := Val(denom[..]), Val(numer[..]);
    FirstWindow(numer[m..m + n], denom[..], n);
    assert quot[m..m] == [] && numer[..][m..m + n] == numer[m..m + n];
    var j := m;
    while j > 0
      invariant 0 <= j <= m && denom[..] == old(denom[..])
      invariant Progress(numer[..], quot[j..m], j, n, v, u)
    {
      DivManyStep(numer, denom, quot, j, ms, ab, m, u);
      j := j - 1;
    }
    LowPrefix(numer[..], numer[..n], n);
    assert numer[..][0..0 + n] == numer[..n] && quot[0..m] == quot[..m];
  }

  lemma {:induction false} FirstWindow(w: seq<Digit>, v: seq<Digit>, n: nat)
    requires |w| == |v| == n && n > 0 && w[n - 1] < v[n - 1]
    ensures Val(w) < Val(v)
  {
    TopDecides(w, v, n - 1, n);
  }

  /** Undoing the normalisation of quotient and remainder. */
  lemma {:induction false} UndoScale(x: nat, y: nat, t: nat, q: nat, r: nat)
    requires t > 0 && x * t == q * (y * t) + r && r < y * t
    ensures x == q * y + r / t && r / t < y
  {
    assert q * (y * t) == (q * y) * t;
    if x < q * y { MulNext(x, q * y, t); }
    var k := x - q * y;
    assert k * t == x * t - (q * y) * t;
    DivUnique(r, t, k, 0);
    LessProduct(k, y, t);
  }

  /** The numerator itself is the remainder. */
  method FewerDigits(numer: array<Digit>, lnum: nat, denom: array<Digit>, lden: nat, rem: array<Digit>)
    requires lnum + 1 == lden && lnum <= numer.Length && lden <= denom.Length && denom[lden - 1] != 0
    requires rem.Length >= lden && rem != numer && rem != denom
    modifies rem
    ensures Val(rem[..lden]) == Val(numer[..lnum]) < Val(denom[..lden])
  {
    for i := 0 to lden
      invariant forall k :: 0 <= k < i ==> rem[k] == if k < lnum then numer[k] else 0
    {
      rem[i] := if i < lnum then numer[i] else 0;
    }
    assert rem[..lden] == numer[..lnum] + [0];
    ValSnoc(numer[..lnum], 0);
    FirstWindow(rem[..lden], denom[..lden], lden);
  }

  /** `numer = quot * denom + rem` with `rem < denom`: the division theorem for `mpn_div`.  With
      one digit fewer than the divisor has, the quotient has no digits; with still fewer the bound
      of the loop that clears the quotient would wrap around. */
  method Div(numer: array<Digit>, lnum: nat, denom: array<Digit>, lden: nat, quot: array<Digit>, rem: array<Digit>)
    requires 1 <= lden <= lnum + 1 && lnum <= numer.Length && lden <= denom.Length && denom[lden - 1] != 0
    requires quot.Length >= lnum + 1 - lden && rem.Length >= lden
    requires quot != numer && quot != denom && rem != numer && rem != denom && quot != rem
    modifies quot, rem
    ensures Val(numer[..lnum]) == Val(quot[..lnum + 1 - lden]) * Val(denom[..lden]) + Val(rem[..lden])
    ensures Val(rem[..lden]) < Val(denom[..lden])
  {
    if lnum < lden {
      FewerDigits(numer, lnum, denom, lden, rem);
      assert quot[..lnum + 1 - lden] == [];
      return;
    }
    if lnum == 1 && lden == 1 {
      DivMod(numer[0], denom[0]);
      MulMono(1, denom[0], numer[0] / denom[0]);
      quot[0] := numer[0] / denom[0];
      rem[0] := numer[0] % denom[0];
      assert numer[..1] == [numer[0]] && denom[..1] == [denom[0]] && quot[..1] == [quot[0]] && rem[..1] == [rem[0]];
      ValOne(numer[0]);
      ValOne(denom[0]);
      ValOne(quot[0]);
      ValOne(rem[0]);
    } else if lnum == lden && numer[lnum - 1] < denom[lden - 1] {
      quot[0] := 0;
      Copy(numer, lden, rem);
      assert quot[..1] == [0];
      ValOne(0);
      FirstWindow(numer[..lnum], denom[..lden], lnum);
    } else {
      DivNormalized(numer, lnum, denom, lden, quot, rem);
    }
  }

  method DivNormalized(numer: array<Digit>, lnum: nat, denom: array<Digit>, lden: nat, quot: array<Digit>, rem: array<Digit>)
    requires 1 <= lden <= lnum <= numer.Length && lden <= denom.Length && denom[lden - 1] != 0
    requires quot.Length >= lnum - lden + 1 && rem.Length >= lden
    requires quot != numer && quot != denom && rem != numer && rem != denom && quot != rem
    modifies quot, rem
    ensures Val(numer[..lnum]) == Val(quot[..lnum - lden + 1]) * Val(denom[..lden]) + Val(rem[..lden])
    ensures Val(rem[..lden]) < Val(denom[..lden])
  {
    var d, u, v := Normalize(numer, lnum, denom, lden);
    ghost var x, y, t := Val(numer[..lnum]), Val(denom[..lden]), Pow2(d);
    if lden == 1 {
      assert v[..] == [v[0]];
      ValOne(v[0]);
      DivOne(u, v[0], quot);
      assert u[..lden] == [u[0]];
      ValOne(u[0]);
    } else {
      DivMany(u, v, quot);
    }
    UndoScale(x, y, t, Val(quot[..lnum - lden + 1]), Val(u[..lden]));
    Unnormalize(u, lden, d, rem);
  }
}
