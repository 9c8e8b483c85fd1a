/** Shifts and bitwise or on 32-bit digits, and what they mean for values. */
module MpnBits {
  import opened Prelude
  import opened MpnValue

  const DIGIT_BITS: nat := 32

  /** `x << d` on 32 bits. */
  function Shl(x: Digit, d: nat): Digit {
    (x * Pow2(d)) % BASE
  }

  /** `x >> d`. */
  function Shr(x: Digit, d: nat): (r: Digit) {
    ShrBound(x, Pow2(d));
    x / Pow2(d)
  }

  /** Bitwise or. */
  function Or(x: nat, y: nat): nat {
    if x == 0 && y == 0 then 0
    else (if x % 2 == 1 || y % 2 == 1 then 1 else 0) + 2 * Or(x / 2, y / 2)
  }

  function FirstBits(n: nat, x: Digit): Digit
    requires n <= DIGIT_BITS
  {
    Shr(x, DIGIT_BITS - n)
  }

  function LastBits(n: nat, x: Digit): Digit
    requires n <= DIGIT_BITS
  {
    Shr(Shl(x, DIGIT_BITS - n), DIGIT_BITS - n)
  }

  lemma {:induction false} ShrBound(x: Digit, t: nat)
    requires t > 0
    ensures 0 <= x / t < BASE
  {
    DivMod(x, t);
    MulMono(1, t, x / t);
  }

  lemma {:induction false} DivMod(x: nat, t: nat)
    requires t > 0
    ensures x == (x / t) * t + x % t && 0 <= x % t < t && x / t >= 0
  {
  }

  lemma {:induction false} DivUnique(x: nat, t: nat, q: nat, r: nat)
    requires x == q * t + r && r < t
    ensures x / t == q && x % t == r
  {
    DivMod(x, t);
    if x / t < q {
      MulNext(x / t, q, t);
    } else if x / t > q {
      MulNext(q, x / t, t);
    }
  }

  lemma {:induction false} DoubleProduct(a: nat, b: nat)
    ensures 2 * (a * b) == (2 * a) * b
  {
  }

  lemma {:induction false} TwoAdd(i: nat, j: nat)
    ensures Pow2(i + j) == Pow2(i) * Pow2(j)
  {
    if i > 0 {
      TwoAdd(i - 1, j);
      DoubleProduct(Pow2(i - 1), Pow2(j));
    } else {
      assert Pow2(0) == 1;
    }
  }

  lemma {:induction false} TwoWord()
    ensures Pow2(DIGIT_BITS) == BASE
  {
    assert Pow2(4) == 16;
    TwoAdd(4, 4);
    TwoAdd(8, 8);
    TwoAdd(16, 16);
  }

  lemma {:induction false} TwoBase(d: nat)
    requires d <= DIGIT_BITS
    ensures Pow2(d) * Pow2(DIGIT_BITS - d) == BASE
  {
    TwoAdd(d, DIGIT_BITS - d);
    TwoWord();
  }

  lemma {:induction false} OrZero(x: nat)
    ensures Or(x, 0) == x && Or(0, x) == x
  {
    if x > 0 { OrZero(x / 2); }
  }

  lemma {:induction false} OrStep(h: nat, y: nat)
    ensures Or(2 * h, y) == y % 2 + 2 * Or(h, y / 2)
    ensures Or(y, 2 * h) == y % 2 + 2 * Or(y / 2, h)
  {
    if h == 0 && y == 0 { OrZero(0); }
  }

  /** Or of bits that do not overlap is addition. */
  lemma {:induction false} OrDisjoint(m: nat, y: nat, d: nat)
    requires y < Pow2(d)
    ensures Or(m * Pow2(d), y) == m * Pow2(d) + y && Or(y, m * Pow2(d)) == m * Pow2(d) + y
  {
    if d == 0 {
      assert m * Pow2(0) == m;
      OrZero(m);
    } else {
      OrDisjoint(m, y / 2, d - 1);
      MulTwice(m, Pow2(d - 1));
      OrStep(m * Pow2(d - 1), y);
    }
  }

  lemma {:induction false} MulTwice(m: nat, t: nat)
    ensures m * (2 * t) == 2 * (m * t)
  {
  }

  /** A left shift splits `x * 2^d` into the bits pushed out and the digit kept. */
  lemma {:induction false} ShlSplit(x: Digit, d: nat)
    requires d <= DIGIT_BITS
    ensures x * Pow2(d) == FirstBits(d, x) * BASE + Shl(x, d)
    ensures FirstBits(d, x) < Pow2(d)
    ensures Shl(x, d) == (x % Pow2(DIGIT_BITS - d)) * Pow2(d)
  {
    TwoBase(d);
    ShiftArith(x, Pow2(d), Pow2(DIGIT_BITS - d), BASE);
  }

  lemma {:induction false} ShiftArith(x: nat, t: nat, u: nat, b: nat)
    requires t > 0 && u > 0 && t * u == b && x < b
    ensures x / u < t && (x % u) * t + t <= b
    ensures (x * t) / b == x / u && (x * t) % b == (x % u) * t && x * t == (x / u) * b + (x % u) * t
  {
    var h, l := x / u, x % u;
    DivMod(x, u);
    if t <= h {
      MulMono(t, h, u);
    }
    MulNext(l, u, t);
    assert u * t == t * u;
    ShiftProduct(h, u, l, t);
    DivUnique(x * t, b, h, l * t);
  }

  lemma {:induction false} ShiftProduct(h: nat, u: nat, l: nat, t: nat)
    ensures (h * u + l) * t == h * (t * u) + l * t
  {
    assert (h * u + l) * t == (h * u) * t + l * t;
    assert (h * u) * t == h * (t * u);
  }

  lemma {:induction false} ShlExact(x: Digit, d: nat)
    requires x * Pow2(d) < BASE
    ensures Shl(x, d) == x * Pow2(d) && x * Pow2(d + 1) == 2 * (x * Pow2(d))
  {
    MulTwice(x, Pow2(d));
  }

  lemma {:induction false} LastBitsMeaning(n: nat, x: Digit)
    requires n <= DIGIT_BITS
    ensures LastBits(n, x) == x % Pow2(n)
  {
    var k := DIGIT_BITS - n;
    ShlSplit(x, k);
    DivMod(x, Pow2(n));
    DivUnique(Shl(x, k), Pow2(k), x % Pow2(n), 0);
  }

  /** One digit of `x << d` across digits. */
  lemma {:induction false} ShiftDigit(x: Digit, below: Digit, d: nat)
    requires d <= DIGIT_BITS
    ensures Or(Shl(x, d), FirstBits(d, below)) == Shl(x, d) + FirstBits(d, below) < BASE
  {
    TwoBase(d);
    ShlSplit(x, d);
    ShlSplit(below, d);
    ShiftArith(x, Pow2(d), Pow2(DIGIT_BITS - d), BASE);
    OrDisjoint(x % Pow2(DIGIT_BITS - d), FirstBits(d, below), d);
  }

  lemma {:induction false} ShlLast(x: Digit, d: nat)
    requires d <= DIGIT_BITS
    ensures Shl(LastBits(d, x), DIGIT_BITS - d) == (x % Pow2(d)) * Pow2(DIGIT_BITS - d)
  {
    LastBitsMeaning(d, x);
    DivMod(x, Pow2(d));
    ShlSplit(x % Pow2(d), DIGIT_BITS - d);
    DivUnique(x % Pow2(d), Pow2(d), 0, x % Pow2(d));
  }

  /** One digit of `x >> d` across digits. */
  lemma {:induction false} UnshiftDigit(x: Digit, above: Digit, d: nat)
    requires d <= DIGIT_BITS
    ensures Or(Shr(x, d), Shl(LastBits(d, above), DIGIT_BITS - d))
              == Shr(x, d) + (above % Pow2(d)) * Pow2(DIGIT_BITS - d) < BASE
  {
    ShlLast(above, d);
    ShrSmall(x, d);
    OrDisjoint(above % Pow2(d), Shr(x, d), DIGIT_BITS - d);
    DivMod(above, Pow2(d));
    MulNext(above % Pow2(d), Pow2(d), Pow2(DIGIT_BITS - d));
    TwoBase(d);
  }

  lemma {:induction false} ShrSmall(x: Digit, d: nat)
    requires d <= DIGIT_BITS
    ensures Shr(x, d) < Pow2(DIGIT_BITS - d)
  {
    hide Pow2;
    TwoBase(d);
    ShiftArith(x, Pow2(DIGIT_BITS - d), Pow2(d), BASE);
  }
}
