/** Multi-precision arithmetic on 32-bit digit arrays (runtime/mpn.cpp). A pointer into a digit
    array is an array with an offset. */
module Mpn {
  import opened MpnValue

  /** 32-bit wrap-around. */
  function Wrap(x: int): Digit {
    x % BASE
  }

  function MaxNat(a: nat, b: nat): nat {
    if a >= b then a else b
  }

  // ---------------------------------------------------------------- comparison

  /** The sign of `Val(a) - Val(b)`. */
  method Compare(a: array<Digit>, lnga: nat, b: array<Digit>, lngb: nat) returns (res: int)
    requires lnga <= a.Length && lngb <= b.Length
    ensures res == 0 || res == 1 || res == -1
    ensures res == 0 <==> Val(a[..lnga]) == Val(b[..lngb])
    ensures res == 1 <==> Val(a[..lnga]) > Val(b[..lngb])
  {
    ghost var u, v := a[..lnga], b[..lngb];
    res := 0;
    var len := MaxNat(lnga, lngb);
    var j := len;
    while j > 0 && res == 0
      invariant 0 <= j <= len
      invariant forall i :: j <= i < len && (res == 0 || i > j) ==> At(u, i) == At(v, i)
      invariant res != 0 ==> j < len
      invariant res == 0 || (res == 1 && At(u, j) > At(v, j)) || (res == -1 && At(u, j) < At(v, j))
    {
      j := j - 1;
      var uj := if j < lnga then a[j] else 0;
      var vj := if j < lngb then b[j] else 0;
      if uj > vj {
        res := 1;
      } else if uj < vj {
        res := -1;
      }
    }
    LowPadded(u, len);
    LowPadded(v, len);
    if res == 0 {
      LowPrefix(u, v, len);
    } else if res == 1 {
      TopDecides(v, u, j, len);
    } else {
      TopDecides(u, v, j, len);
    }
  }

  // ---------------------------------------------------------------- addition and subtraction

  /** Digit and carry: each of the two additions may wrap around. */
  function AddDigits(u: Digit, v: Digit, k: Digit): (r: (Digit, Digit))
    requires k <= 1
    ensures u + v + k == r.0 + BASE * r.1 && r.1 <= 1
  {
    var s := Wrap(u + v);
    var c := Wrap(s + k);
    (c, if s < u || c < s then 1 else 0)
  }

  /** Digit and borrow: each of the two subtractions may wrap around. */
  function SubDigits(u: Digit, v: Digit, k: Digit): (r: (Digit, Digit))
    requires k <= 1
    ensures u - v - k == r.0 - BASE * r.1 && r.1 <= 1
  {
    var s := Wrap(u - v);
    var c := Wrap(s - k);
    (c, if s > u || c > s then 1 else 0)
  }

  lemma {:induction false} Distribute(u: int, v: int, k: int, p: int)
    ensures (u + v + k) * p == u * p + v * p + k * p
    ensures (u - v - k) * p == u * p - v * p - k * p
  {
  }

  lemma {:induction false} CarryOut(c: int, k: int, p: int)
    ensures (c + BASE * k) * p == c * p + k * (BASE * p)
    ensures (c - BASE * k) * p == c * p - k * (BASE * p)
  {
  }

  /** One digit of a sum: the invariant of Algorithm A. */
  lemma {:induction false} AddStep(u: seq<Digit>, v: seq<Digit>, j: nat, done: seq<Digit>, k: Digit, c: Digit, k': Digit)
    requires |done| == j && Val(done) + k * Pow(j) == Low(u, j) + Low(v, j)
    requires At(u, j) + At(v, j) + k == c + BASE * k'
    ensures Val(done + [c]) + k' * Pow(j + 1) == Low(u, j + 1) + Low(v, j + 1)
  {
    ValSnoc(done, c);
    Distribute(At(u, j), At(v, j), k, Pow(j));
    CarryOut(c, k', Pow(j));
  }

  /** One digit of a difference: the invariant of Algorithm S. */
  lemma {:induction false} SubStep(u: seq<Digit>, v: seq<Digit>, j: nat, done: seq<Digit>, k: Digit, c: Digit, k': Digit)
    requires |done| == j && Val(done) - k * Pow(j) == Low(u, j) - Low(v, j)
    requires At(u, j) - At(v, j) - k == c - BASE * k'
    ensures Val(done + [c]) - k' * Pow(j + 1) == Low(u, j + 1) - Low(v, j + 1)
  {
    ValSnoc(done, c);
    Distribute(At(u, j), At(v, j), k, Pow(j));
    CarryOut(c, k', Pow(j));
  }

  /** The number of significant digits, at least one. */
  method Trim(c: array<Digit>) returns (size: nat)
    requires c.Length > 0
    ensures 1 <= size <= c.Length && Val(c[..size]) == Val(c[..]) && (size > 1 ==> c[size - 1] != 0)
  {
    size := c.Length;
    assert c[..size] == c[..];
    while size > 1 && c[size - 1] == 0
      invariant 1 <= size <= c.Length
      invariant Val(c[..size]) == Val(c[..])
    {
      size := size - 1;
      assert c[..size + 1] == c[..size] + [c[size]];
      ValSnoc(c[..size], c[size]);
    }
  }

  lemma {:induction false} NoDigits(u: seq<Digit>, v: seq<Digit>, c: seq<Digit>)
    requires c == []
    ensures Val(c) == 0 && Low(u, 0) == 0 && Low(v, 0) == 0 && Pow(0) == 1
  {
  }

  /** One round of Algorithm A: digit `j` of the sum. */
  method AddRound(x: Digit, y: Digit, k: Digit, c: array<Digit>, j: nat, ghost u: seq<Digit>, ghost v: seq<Digit>) returns (k': Digit)
    requires j < c.Length && k <= 1 && x == At(u, j) && y == At(v, j)
    requires Val(c[..j]) + k * Pow(j) == Low(u, j) + Low(v, j)
    modifies c
    ensures k' <= 1 && Val(c[..j + 1]) + k' * Pow(j + 1) == Low(u, j + 1) + Low(v, j + 1)
    ensures forall i :: j < i < c.Length ==> c[i] == old(c[i])
  {
    hide Val, Low, Pow;
    ghost var done := c[..j];
    var r := AddDigits(x, y, k);
    AddStep(u, v, j, done, k, r.0, r.1);
    c[j], k' := r.0, r.1;
    assert c[..j + 1] == done + [r.0];
  }

  /** `c := a + b` with its number of significant digits. */
  method Add(a: array<Digit>, ao: nat, lnga: nat, b: array<Digit>, bo: nat, lngb: nat, c: array<Digit>) returns (size: nat)
    requires ao + lnga <= a.Length && bo + lngb <= b.Length && MaxNat(lnga, lngb) > 0
    requires c.Length == MaxNat(lnga, lngb) + 1 && (c != a || ao == 0) && (c != b || bo == 0)
    modifies c
    ensures Val(c[..]) == old(Val(a[ao..ao + lnga]) + Val(b[bo..bo + lngb]))
    ensures 1 <= size <= c.Length && Val(c[..size]) == Val(c[..]) && (size > 1 ==> c[size - 1] != 0)
  {
    hide Val, Low, Pow;
    var len := MaxNat(lnga, lngb);
    ghost var u, v := a[ao..ao + lnga], b[bo..bo + lngb];
    NoDigits(u, v, []);
    var k: Digit := 0;
    var j := 0;
    while j < len
      invariant 0 <= j <= len && k <= 1
      invariant forall i :: j <= i < lnga ==> a[ao + i] == u[i]
      invariant forall i :: j <= i < lngb ==> b[bo + i] == v[i]
      invariant Val(c[..j]) + k * Pow(j) == Low(u, j) + Low(v, j)
    {
      var uj := if j < lnga then a[ao + j] else 0;
      var vj := if j < lngb then b[bo + j] else 0;
      k := AddRound(uj, vj, k, c, j, u, v);
      j := j + 1;
    }
    ghost var done := c[..len];
    c[len] := k;
    assert c[..] == done + [k];
    AddEnd(u, v, len, done, k);
    size := Trim(c);
  }

  lemma {:induction false} AddEnd(u: seq<Digit>, v: seq<Digit>, n: nat, done: seq<Digit>, k: Digit)
    requires |u| <= n && |v| <= n && |done| == n && Val(done) + k * Pow(n) == Low(u, n) + Low(v, n)
    ensures Val(done + [k]) == Val(u) + Val(v)
  {
    ValSnoc(done, k);
    LowPadded(u, n);
    LowPadded(v, n);
  }

  lemma {:induction false} SubEnd(u: seq<Digit>, v: seq<Digit>, n: nat, done: seq<Digit>, k: Digit)
    requires |u| <= n && |v| <= n && |done| == n && k <= 1 && Val(done) - k * Pow(n) == Low(u, n) - Low(v, n)
    ensures Val(done) - k * Pow(n) == Val(u) - Val(v)
    ensures k == 1 <==> Val(u) < Val(v)
  {
    LowPadded(u, n);
    LowPadded(v, n);
    LowBound(done, n);
  }

  /** One round of Algorithm S: digit `j` of the difference goes to `c[i]`. */
  method SubRound(x: Digit, y: Digit, k: Digit, c: array<Digit>, i: nat, ghost u: seq<Digit>, ghost v: seq<Digit>, ghost j: nat)
    returns (k': Digit)
    requires j <= i < c.Length && k <= 1 && x == At(u, j) && y == At(v, j)
    requires Val(c[i - j..i]) - k * Pow(j) == Low(u, j) - Low(v, j)
    modifies c
    ensures k' <= 1 && Val(c[i - j..i + 1]) - k' * Pow(j + 1) == Low(u, j + 1) - Low(v, j + 1)
    ensures c[..i - j] == old(c[..i - j]) && c[i + 1..] == old(c[i + 1..])
  {
    hide Val, Low, Pow;
    ghost var done := c[i - j..i];
    var r := SubDigits(x, y, k);
    SubStep(u, v, j, done, k, r.0, r.1);
    c[i], k' := r.0, r.1;
    assert c[i - j..i + 1] == done + [r.0];
  }

  /** `c := a - b` modulo `BASE^len`; the borrow tells whether `a < b`. */
  method Sub(a: array<Digit>, ao: nat, lnga: nat, b: array<Digit>, bo: nat, lngb: nat, c: array<Digit>, co: nat)
    returns (borrow: Digit)
    requires ao + lnga <= a.Length && bo + lngb <= b.Length && co + MaxNat(lnga, lngb) <= c.Length
    requires (c != a || ao == co) && (c != b || bo == co)
    modifies c
    ensures borrow <= 1
    ensures Val(c[co..co + MaxNat(lnga, lngb)]) - borrow * Pow(MaxNat(lnga, lngb))
              == old(Val(a[ao..ao + lnga]) - Val(b[bo..bo + lngb]))
    ensures borrow == 1 <==> old(Val(a[ao..ao + lnga]) < Val(b[bo..bo + lngb]))
    ensures c[..co] == old(c[..co]) && c[co + MaxNat(lnga, lngb)..] == old(c[co + MaxNat(lnga, lngb)..])
  {
    hide Val, Low, Pow;
    var len := MaxNat(lnga, lngb);
    ghost var u, v := a[ao..ao + lnga], b[bo..bo + lngb];
    NoDigits(u, v, c[co..co]);
    var k: Digit := 0;
    var j := 0;
    while j < len
      invariant 0 <= j <= len && k <= 1
      invariant c[..co] == old(c[..co]) && c[co + j..] == old(c[co + j..])
      invariant Val(c[co..co + j]) - k * Pow(j) == Low(u, j) - Low(v, j)
    {
      var uj := if j < lnga then a[ao + j] else 0;
      var vj := if j < lngb then b[bo + j] else 0;
      ghost var rest := c[co + j..];
      assert uj == At(u, j) && vj == At(v, j);
      k := SubRound(uj, vj, k, c, co + j, u, v, j);
      assert c[co + j + 1..] == rest[1..];
      j := j + 1;
    }
    borrow := k;
    SubEnd(u, v, len, c[co..co + len], k);
  }

  // ---------------------------------------------------------------- multiplication

  lemma {:induction false} ProductBound(u: nat, v: nat, b: nat)
    requires u <= b && v <= b
    ensures 0 <= u * v <= b * b
  {
    MulMono(u, b, v);
    MulMono(v, b, b);
  }

  /** The largest product plus two digits still fits a double digit. */
  lemma {:induction false} MulFits(u: Digit, v: Digit, c: Digit, k: Digit)
    ensures 0 <= u * v + c + k < BASE * BASE
  {
    ProductBound(u, v, BASE - 1);
    assert (BASE - 1) * (BASE - 1) + 2 * BASE - 2 < BASE * BASE;
  }

  lemma {:induction false} MulStep(a: seq<Digit>, v: Digit, was: seq<Digit>, i: nat, done: seq<Digit>,
      k: Digit, d: Digit, k': Digit)
    requires |done| == i && i < |was| && Val(done) + k * Pow(i) == Low(was, i) + Low(a, i) * v
    requires At(a, i) * v + was[i] + k == d + BASE * k'
    ensures Val(done + [d]) + k' * Pow(i + 1) == Low(was, i + 1) + Low(a, i + 1) * v
  {
    ValSnoc(done, d);
    MulDistribute(Low(a, i), At(a, i), v, Pow(i));
    Distribute(At(a, i) * v, was[i], k, Pow(i));
    CarryOut(d, k', Pow(i));
  }

  lemma {:induction false} MulDistribute(low: int, x: int, v: int, p: int)
    ensures (low + x * p) * v == low * v + (x * v) * p
  {
    assert (low + x * p) * v == low * v + (x * p) * v;
    assert (x * p) * v == (x * v) * p;
  }

  /** Add `a * v` into `c` at digit `j`, writing one new digit on top. */
  method MulRow(a: array<Digit>, lnga: nat, v: Digit, c: array<Digit>, j: nat)
    requires lnga <= a.Length && j + lnga + 1 <= c.Length && c != a
    modifies c
    ensures Val(c[j..j + lnga + 1]) == old(Val(c[j..j + lnga])) + Val(a[..lnga]) * v
    ensures c[..j] == old(c[..j])
  {
    ghost var u, was := a[..lnga], c[j..j + lnga];
    var k: Digit := 0;
    var i := 0;
    while i < lnga
      invariant 0 <= i <= lnga
      invariant c[..j] == old(c[..j]) && c[j + i..j + lnga] == was[i..]
      invariant Val(c[j..j + i]) + k * Pow(i) == Low(was, i) + Low(u, i) * v
    {
      ghost var done, rest := c[j..j + i], c[j + i..j + lnga];
      assert c[i + j] == was[i] && a[i] == At(u, i);
      MulFits(a[i], v, c[i + j], k);
      var t: Double := a[i] * v + c[i + j] + k;
      MulStep(u, v, was, i, done, k, t % BASE, t / BASE);
      c[i + j] := t % BASE;
      k := t / BASE;
      assert c[j..j + i + 1] == done + [t % BASE];
      assert c[j + i + 1..j + lnga] == rest[1..];
      i := i + 1;
    }
    ghost var done := c[j..j + lnga];
    c[j + lnga] := k;
    assert c[j..j + lnga + 1] == done + [k];
    ValSnoc(done, k);
  }

  lemma {:induction false} RowSum(b: seq<Digit>, j: nat, x: nat, was: seq<Digit>, now: seq<Digit>)
    requires j < |b| && j <= |was| && |now| == |was| + 1 && now[..j] == was[..j]
    requires Val(was) == x * Low(b, j) && Val(now[j..]) == Val(was[j..]) + x * b[j]
    ensures Val(now) == x * Low(b, j + 1)
  {
    ValSplit(was, j);
    ValSplit(now, j);
    RowArith(Val(was[..j]), Val(was[j..]), x, Low(b, j), b[j], Pow(j));
  }

  lemma {:induction false} RowArith(low: int, high: int, x: int, y: int, d: int, p: int)
    requires low + p * high == x * y
    ensures low + p * (high + x * d) == x * (y + d * p)
  {
    assert p * (high + x * d) == p * high + p * (x * d);
    assert x * (y + d * p) == x * y + x * (d * p);
    assert p * (x * d) == x * (d * p);
  }

  /** One round of Algorithm M: a zero digit only writes the new top digit. */
  method MulRound(a: array<Digit>, lnga: nat, v: Digit, c: array<Digit>, j: nat, ghost y: seq<Digit>)
    requires lnga <= a.Length && j + lnga + 1 <= c.Length && c != a && j < |y| && v == y[j]
    requires Val(c[..j + lnga]) == Val(a[..lnga]) * Low(y, j)
    modifies c
    ensures Val(c[..j + lnga + 1]) == Val(a[..lnga]) * Low(y, j + 1)
  {
    ghost var was := c[..j + lnga];
    assert was[j..] == c[j..j + lnga];
    if v == 0 {
      c[j + lnga] := 0;
      ValSnoc(was[j..], 0);
      assert c[..j + lnga + 1] == was + [0];
      assert c[..j + lnga + 1][j..] == was[j..] + [0];
    } else {
      MulRow(a, lnga, v, c, j);
      assert c[..j + lnga + 1][j..] == c[j..j + lnga + 1];
      assert c[..j + lnga + 1][..j] == c[..j] == was[..j];
    }
    RowSum(y, j, Val(a[..lnga]), was, c[..j + lnga + 1]);
  }

  /** `c := a * b`. */
  method Mul(a: array<Digit>, lnga: nat, b: array<Digit>, lngb: nat, c: array<Digit>)
    requires lnga <= a.Length && lngb <= b.Length && c.Length >= lnga + lngb && c != a && c != b
    modifies c
    ensures Val(c[..lnga + lngb]) == Val(a[..lnga]) * Val(b[..lngb])
  {
    ghost var y := b[..lngb];
    for i := 0 to lnga
      invariant forall k :: 0 <= k < i ==> c[k] == 0
    {
      c[i] := 0;
    }
    ValZeros(c[..lnga], 0);
    assert c[..0 + lnga] == c[..lnga];
    var j := 0;
    while j < lngb
      invariant 0 <= j <= lngb && Val(c[..j + lnga]) == Val(a[..lnga]) * Low(y, j)
    {
      MulRound(a, lnga, b[j], c, j, y);
      j := j + 1;
    }
  }
}
