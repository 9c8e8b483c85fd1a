/** Why one quotient digit of Algorithm D is right: section 4.3.1 of The Art of Computer
    Programming, Volume 2. All statements are about plain numbers in some base `b`. */
module MpnKnuth {
  import opened MpnValue
  import opened MpnBits

  /** What the three leading digits say: the dividend `w` has leading part `top` (two digits) and
      third digit `u2`, the divisor `v` has leading digits `v1`, `v2`; `p` weighs the third digit. */
  ghost predicate Leading(b: nat, p: nat, w: nat, top: nat, u2: nat, v: nat, v1: nat, v2: nat) {
    && 1 < b && 0 < p && 0 < v1 < b && v2 < b && u2 < b
    && (top * b + u2) * p <= w < (top * b + u2 + 1) * p
    && (v1 * b + v2) * p <= v < (v1 * b + v2 + 1) * p
    && w < b * v
  }

  /** A trial digit and its remainder against the leading divisor digit. */
  ghost predicate Trial(top: nat, v1: nat, qHat: nat, rHat: nat) {
    qHat * v1 + rHat == top
  }

  lemma {:induction false} LessProduct(a: nat, c: nat, p: nat)
    requires a * p < c * p
    ensures a < c
  {
    if c <= a { MulMono(c, a, p); }
  }

  lemma {:induction false} MulAssoc(a: int, c: int, p: int)
    ensures a * (c * p) == (a * c) * p && (c * p) * a == (c * a) * p
  {
  }

  /** A quotient stays below the ratio of the leading parts. */
  lemma {:induction false} LeadingQuotient(w: nat, v: nat, lead: nat, vv: nat, p: nat)
    requires 0 < v && 0 < p && vv * p <= v && w < (lead + 1) * p
    ensures (w / v) * vv <= lead
  {
    var q := w / v;
    DivMod(w, v);
    MulMono(vv * p, v, q);
    MulAssoc(q, vv, p);
    MulAssoc(vv, q, p);
    LessProduct(q * vv, lead + 1, p);
  }

  /** The code's test on the third digit compares the trial digit with three leading digits. */
  lemma {:induction false} TestMeaning(b: nat, top: nat, u2: nat, v1: nat, v2: nat, q: nat, r: nat)
    requires Trial(top, v1, q, r)
    ensures q * v2 <= r * b + u2 <==> q * (v1 * b + v2) <= top * b + u2
  {
    MulAssoc(q, v1, b);
    assert q * (v1 * b + v2) == q * (v1 * b) + q * v2;
    assert (q * v1 + r) * b == (q * v1) * b + r * b;
  }

  lemma {:induction false} LeadingDigit(b: nat, top: nat, u2: nat, v1: nat, v2: nat, q: nat)
    requires u2 < b && q * (v1 * b + v2) <= top * b + u2
    ensures q * v1 <= top
  {
    MulAssoc(q, v1, b);
    assert q * (v1 * b + v2) == q * (v1 * b) + q * v2;
    MulMono(0, q, v2);
    assert (top + 1) * b == top * b + b;
    LessProduct(q * v1, top + 1, b);
  }

  lemma {:induction false} DivisorPositive(b: nat, p: nat, v: nat, v1: nat, v2: nat)
    requires 0 < v1 && 0 < p && 0 < b && (v1 * b + v2) * p <= v
    ensures v > 0 && b <= v1 * b + v2
  {
    MulMono(1, v1, b);
    MulMono(1, v1 * b + v2, p);
  }

  /** The true digit times the leading divisor digits is at most the leading dividend digits. */
  lemma {:induction false} TrueDigit(b: nat, p: nat, w: nat, top: nat, u2: nat, v: nat, v1: nat, v2: nat)
    requires Leading(b, p, w, top, u2, v, v1, v2)
    ensures v > 0 && w / v < b
    ensures (w / v) * (v1 * b + v2) <= top * b + u2
    ensures (w / v) * v1 <= top
  {
    DivisorPositive(b, p, v, v1, v2);
    DivMod(w, v);
    if w / v >= b { MulMono(b, w / v, v); }
    LeadingQuotient(w, v, top * b + u2, v1 * b + v2, p);
    LeadingDigit(b, top, u2, v1, v2, w / v);
  }

  /** The first trial digit is not too small. */
  lemma {:induction false} FirstTrial(b: nat, p: nat, w: nat, top: nat, u2: nat, v: nat, v1: nat, v2: nat)
    requires Leading(b, p, w, top, u2, v, v1, v2)
    ensures v > 0 && w / v <= top / v1 && Trial(top, v1, top / v1, top % v1) && top % v1 < v1
  {
    TrueDigit(b, p, w, top, u2, v, v1, v2);
    DivMod(top, v1);
    if w / v > top / v1 { MulNext(top / v1, w / v, v1); }
  }

  /** A trial digit that fails the test is too large. */
  lemma {:induction false} Correction(b: nat, p: nat, w: nat, top: nat, u2: nat, v: nat, v1: nat, v2: nat, qHat: nat, rHat: nat)
    requires Leading(b, p, w, top, u2, v, v1, v2) && Trial(top, v1, qHat, rHat)
    requires v > 0 && w / v <= qHat
    requires qHat >= b || qHat * v2 > rHat * b + u2
    ensures w / v <= qHat - 1 && Trial(top, v1, qHat - 1, rHat + v1)
  {
    TrueDigit(b, p, w, top, u2, v, v1, v2);
    TestMeaning(b, top, u2, v1, v2, qHat, rHat);
    assert w / v < qHat;
    assert (qHat - 1) * v1 == qHat * v1 - v1;
  }

  /** Once the trial remainder reaches the base the trial digit is a digit and passes the test. */
  lemma {:induction false} LargeRemainder(b: nat, p: nat, w: nat, top: nat, u2: nat, v: nat, v1: nat, v2: nat, qHat: nat, rHat: nat)
    requires Leading(b, p, w, top, u2, v, v1, v2) && Trial(top, v1, qHat, rHat) && rHat >= b
    ensures qHat < b && qHat * v2 <= rHat * b + u2
  {
    TopBound(b, p, w, top, u2, v, v1, v2);
    if qHat >= b { MulMono(b, qHat, v1); }
    MulMono(qHat, b, v2);
    MulMono(v2, b, b);
    MulMono(b, rHat, b);
    assert b * v2 == v2 * b;
  }

  lemma {:induction false} TopBound(b: nat, p: nat, w: nat, top: nat, u2: nat, v: nat, v1: nat, v2: nat)
    requires Leading(b, p, w, top, u2, v, v1, v2)
    ensures top < b * v1 + b
  {
    var vv, lead := v1 * b + v2, top * b + u2;
    MulMono(v, (vv + 1) * p, b);
    MulAssoc(b, vv + 1, p);
    assert b * v == v * b;
    LessProduct(lead, b * (vv + 1), p);
    MulMono(vv + 1, v1 * b + b, b);
    assert (v1 * b + b) * b == (b * v1 + b) * b && b * (vv + 1) == (vv + 1) * b;
    LessProduct(top, b * v1 + b, b);
  }

  /** Ignoring the low digits of the divisor costs less than one divisor. */
  lemma {:induction false} ExcessSmall(b: nat, p: nat, w: nat, lead: nat, v: nat, vv: nat, q: nat)
    requires q < b && b <= vv && vv * p <= v < (vv + 1) * p && lead * p <= w && q * vv <= lead
    ensures q * v <= w + v
  {
    MulMono(v, (vv + 1) * p, q);
    assert v * q == q * v;
    assert (vv + 1) * p == vv * p + p;
    assert (vv * p + p) * q == (vv * p) * q + q * p;
    MulAssoc(q, vv, p);
    assert (vv * p) * q == q * (vv * p);
    MulMono(q, vv, p);
    MulMono(q * vv, lead, p);
  }

  /** A trial digit that passes the test is the true digit or one more. */
  lemma {:induction false} AtMostOneMore(b: nat, p: nat, w: nat, top: nat, u2: nat, v: nat, v1: nat, v2: nat, qHat: nat, rHat: nat)
    requires Leading(b, p, w, top, u2, v, v1, v2) && Trial(top, v1, qHat, rHat)
    requires qHat < b && qHat * v2 <= rHat * b + u2 && v > 0
    ensures qHat <= w / v + 1
  {
    TestMeaning(b, top, u2, v1, v2, qHat, rHat);
    DivisorPositive(b, p, v, v1, v2);
    NearQuotient(b, p, w, top * b + u2, v, v1 * b + v2, qHat);
  }

  lemma {:induction false} NearQuotient(b: nat, p: nat, w: nat, lead: nat, v: nat, vv: nat, q: nat)
    requires q < b && b <= vv && vv * p <= v < (vv + 1) * p && lead * p <= w && q * vv <= lead && v > 0
    ensures q <= w / v + 1
  {
    ExcessSmall(b, p, w, lead, v, vv, q);
    DivMod(w, v);
    assert (w / v + 1) * v == (w / v) * v + v;
    if w / v + 1 < q { MulNext(w / v + 1, q, v); }
  }
}
