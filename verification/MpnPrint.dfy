/** Decimal printing of multi-precision naturals (`mpn_to_string`). */
module MpnPrint {
  import opened Prelude
  import opened MpnValue
  import opened MpnBits
  import opened MpnDivision

  function DigitChar(d: nat): char
    requires d < 10
  {
    '0' + d as char
  }

  /** The decimal numeral of `n`, most significant digit first. */
  function Decimal(n: nat): (r: string)
    ensures |r| > 0
  {
    if n < 10 then [DigitChar(n)] else Decimal(n / 10) + [DigitChar(n % 10)]
  }

  predicate IsDigit(c: char) {
    '0' <= c <= '9'
  }

  predicate AllDigits(s: string) {
    forall i :: 0 <= i < |s| ==> IsDigit(s[i])
  }

  /** The number a string of decimal digits denotes. */
  function Parse(s: string): nat
    requires AllDigits(s)
  {
    if s == [] then 0 else 10 * Parse(s[..|s| - 1]) + (s[|s| - 1] - '0') as nat
  }

  /** No leading zero, except for the numeral of zero itself. */
  predicate Canonical(s: string) {
    s != [] && AllDigits(s) && (s[0] == '0' ==> |s| == 1)
  }

  /** The numeral of `n` is canonical and denotes `n`. */
  lemma {:induction false} DecimalMeaning(n: nat)
    ensures Canonical(Decimal(n)) && Parse(Decimal(n)) == n
    ensures Decimal(n)[0] == '0' <==> n == 0
  {
    if n >= 10 {
      DecimalMeaning(n / 10);
      var s := Decimal(n);
      assert s[..|s| - 1] == Decimal(n / 10);
    } else {
      assert Decimal(n)[..0] == [];
    }
  }

  /** It is the only canonical numeral of `n`. */
  lemma {:induction false} DecimalUnique(s: string)
    requires Canonical(s)
    ensures Decimal(Parse(s)) == s
    decreases |s|
  {
    var k := |s| - 1;
    assert s == s[..k] + [s[k]];
    if k == 0 {
      assert s[..0] == [];
      assert Parse(s[..0]) == 0;
    } else {
      DecimalUnique(s[..k]);
      DecimalMeaning(Parse(s[..k]));
      assert s[..k][0] == s[0];
      assert Parse(s) / 10 == Parse(s[..k]);
    }
  }

  /** The digits still to be printed for `n`. */
  function Head(n: nat): string {
    if n == 0 then [] else Decimal(n)
  }

  lemma {:induction false} LastDigit(n: nat)
    ensures Decimal(n) == Head(n / 10) + [DigitChar(n % 10)]
  {
  }

  /** Divide in place by ten. */
  method DivideByTen(temp: array<Digit>, size: nat) returns (rem: Digit)
    requires 0 < size <= temp.Length
    modifies temp
    ensures old(Val(temp[..size])) == Val(temp[..size]) * 10 + rem && rem < 10
  {
    var ten := new Digit[1](_ => 10);
    var rest := new Digit[1](_ => 0);
    ghost var x := Val(temp[..size]);
    assert ten[..1] == [10];
    ValOne(10);
    var d, u, v := Normalize(temp, size, ten, 1);
    assert v[..] == [v[0]];
    ValOne(v[0]);
    DivOne(u, v[0], temp);
    assert u[..1] == [u[0]];
    ValOne(u[0]);
    UndoScale(x, 10, Pow2(d), Val(temp[..size]), Val(u[..1]));
    Unnormalize(u, 1, d, rest);
    rem := rest[0];
    assert rest[..1] == [rest[0]];
    ValOne(rest[0]);
  }

  /** Drop leading zero digits, all of them if need be. */
  method PopZeros(temp: array<Digit>, size: nat) returns (r: nat)
    requires size <= temp.Length
    ensures r <= size && Val(temp[..r]) == Val(temp[..size]) && (r > 0 ==> temp[r - 1] != 0)
  {
    r := size;
    while r > 0 && temp[r - 1] == 0
      invariant r <= size && Val(temp[..r]) == Val(temp[..size])
    {
      r := r - 1;
      assert temp[..r + 1] == temp[..r] + [temp[r]];
      ValSnoc(temp[..r], temp[r]);
    }
  }

  lemma {:induction false} TopPositive(s: seq<Digit>)
    requires |s| > 0 && s[|s| - 1] != 0
    ensures Val(s) > 0
  {
    MulMono(1, s[|s| - 1], Pow(|s| - 1));
  }

  /** What is printed so far, last digit first, and what is left to print. */
  ghost predicate Printing(v: nat, n: nat, printed: string) {
    if printed == [] then n == v else Decimal(v) == Head(n) + Reverse(printed)
  }

  lemma {:induction false} PrintStep(v: nat, n: nat, printed: string)
    requires Printing(v, n, printed) && (printed == [] || n > 0)
    ensures Printing(v, n / 10, printed + [DigitChar(n % 10)]) && |printed| < |Decimal(v)|
  {
    LastDigit(n);
    var next := printed + [DigitChar(n % 10)];
    assert Reverse(next) == [DigitChar(n % 10)] + Reverse(printed);
    if printed != [] {
      assert Decimal(v) == Head(n / 10) + ([DigitChar(n % 10)] + Reverse(printed));
    } else {
      assert Reverse(next) == [DigitChar(n % 10)];
    }
  }

  /** Print one more digit. */
  method PrintDigit(temp: array<Digit>, size: nat, buf: array<char>, j: nat, ghost v: nat) returns (rest: nat)
    requires 0 < size <= temp.Length && j <= |Decimal(v)| < buf.Length
    requires j > 0 ==> temp[size - 1] != 0
    requires Printing(v, Val(temp[..size]), buf[..j])
    modifies temp, buf
    ensures rest <= size && j < |Decimal(v)| && (rest > 0 ==> temp[rest - 1] != 0)
    ensures Printing(v, Val(temp[..rest]), buf[..j + 1])
    ensures Val(temp[..rest]) == old(Val(temp[..size])) / 10
  {
    hide Printing, Decimal, DigitChar, Val;
    ghost var n, printed := Val(temp[..size]), buf[..j];
    if j > 0 { TopPositive(temp[..size]); }
    PrintStep(v, n, printed);
    var rem := DivideByTen(temp, size);
    assert n % 10 == rem && n / 10 == Val(temp[..size]);
    buf[j] := DigitChar(rem);
    assert buf[..j + 1] == printed + [DigitChar(n % 10)];
    rest := PopZeros(temp, size);
  }

  /** The digits of the number, least significant first. */
  method PrintDigits(temp: array<Digit>, buf: array<char>) returns (j: nat)
    requires temp.Length > 1 && buf.Length > |Decimal(Val(temp[..]))|
    modifies temp, buf
    ensures 0 < j < buf.Length && Reverse(buf[..j]) == old(Decimal(Val(temp[..])))
  {
    ghost var v := Val(temp[..]);
    var size: nat := temp.Length;
    assert temp[..size] == temp[..];
    j := 0;
    while size > 0 && (size > 1 || temp[0] != 0)
      invariant size <= temp.Length && j <= |Decimal(v)| < buf.Length
      invariant j == 0 ==> size > 1
      invariant j > 0 && size > 0 ==> temp[size - 1] != 0
      invariant Printing(v, Val(temp[..size]), buf[..j])
      decreases Val(temp[..size]), j == 0
    {
      if j > 0 { TopPositive(temp[..size]); }
      size := PrintDigit(temp, size, buf, j, v);
      j := j + 1;
    }
    assert temp[..0] == [];
    assert Reverse(buf[..j]) == [] + Reverse(buf[..j]);
  }

  method ReverseInPlace(buf: array<char>, len: nat)
    requires 0 < len <= buf.Length
    modifies buf
    ensures buf[..len] == Reverse(old(buf[..len])) && buf[len..] == old(buf[len..])
  {
    var j := len - 1;
    var mid := j / 2 + if j % 2 != 0 then 1 else 0;
    for i := 0 to mid
      invariant forall k :: 0 <= k < i ==> buf[k] == old(buf[j - k]) && buf[j - k] == old(buf[k])
      invariant forall k :: i <= k <= j - i ==> buf[k] == old(buf[k])
      invariant buf[len..] == old(buf[len..])
    {
      buf[i], buf[j - i] := buf[j - i], buf[i];
    }
    forall k | 0 <= k < len ensures buf[k] == old(buf[j - k]) {
      if k < mid { } else if j - k < mid {
        assert buf[j - (j - k)] == old(buf[j - k]);
      } else {
        assert k == j - k;
      }
    }
  }

  /** Formatting of a single digit by the C library. */
  method PrintUnsigned(x: Digit, buf: array<char>)
    requires buf.Length > |Decimal(x)|
    modifies buf
    ensures buf[..|Decimal(x)|] == Decimal(x) && buf[|Decimal(x)|] == '\0'
  {
    var s := Decimal(x);
    for i := 0 to |s|
      invariant buf[..i] == s[..i]
    {
      buf[i] := s[i];
    }
    buf[|s|] := '\0';
  }

  /** The buffer receives the canonical decimal numeral and a terminating zero. */
  method ToString(a: array<Digit>, lng: nat, buf: array<char>)
    requires 1 <= lng <= a.Length && buf.Length > |Decimal(Val(a[..lng]))|
    modifies buf
    ensures buf[..|Decimal(Val(a[..lng]))|] == Decimal(Val(a[..lng]))
    ensures buf[|Decimal(Val(a[..lng]))|] == '\0'
  {
    if lng == 1 {
      assert a[..1] == [a[0]];
      ValOne(a[0]);
      PrintUnsigned(a[0], buf);
    } else {
      var temp := new Digit[lng](_ => 0);
      Copy(a, lng, temp);
      assert temp[..] == temp[..lng];
      var j := PrintDigits(temp, buf);
      buf[j] := '\0';
      ghost var printed := buf[..j];
      ReverseInPlace(buf, j);
    }
  }
}
