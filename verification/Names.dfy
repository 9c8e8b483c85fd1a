/** Hierarchical names and their total order (util/name.cpp). */
module Names {

  datatype Limb = Str(text: string) | Num(index: nat)

  /** A name is the list of its limbs, outermost first; the empty list is the anonymous name. */
  type Name = seq<Limb>

  ghost predicate StrictTotal<T(!new)>(lt: (T, T) -> bool) {
    && (forall a :: !lt(a, a))
    && (forall a, b :: a == b || lt(a, b) || lt(b, a))
    && (forall a, b, c :: lt(a, b) && lt(b, c) ==> lt(a, c))
  }

  /** Lexicographic order on sequences: a proper prefix comes first. */
  predicate LexLess<T(==)>(lt: (T, T) -> bool, a: seq<T>, b: seq<T>) {
    if a == [] || b == [] then a == [] && b != []
    else if a[0] != b[0] then lt(a[0], b[0])
    else LexLess(lt, a[1..], b[1..])
  }

  predicate CharLess(a: char, b: char) {
    a < b
  }

  /** Numerals come before strings. */
  predicate LimbLess(a: Limb, b: Limb) {
    match (a, b)
    case (Num(m), Num(n)) => m < n
    case (Num(_), Str(_)) => true
    case (Str(_), Num(_)) => false
    case (Str(s), Str(t)) => LexLess(CharLess, s, t)
  }

  /** `operator<` on names: `cmp_core` is negative. */
  predicate Less(a: Name, b: Name) {
    LexLess(LimbLess, a, b)
  }

  lemma {:induction false} LexConnected<T(!new)>(lt: (T, T) -> bool, a: seq<T>, b: seq<T>)
    requires StrictTotal(lt)
    ensures a == b || LexLess(lt, a, b) || LexLess(lt, b, a)
    decreases |a|
  {
    if a != [] && b != [] && a[0] == b[0] {
      LexConnected(lt, a[1..], b[1..]);
      assert a == [a[0]] + a[1..] && b == [b[0]] + b[1..];
    }
  }

  lemma {:induction false} LexIrreflexive<T(!new)>(lt: (T, T) -> bool, a: seq<T>)
    ensures !LexLess(lt, a, a)
  {
    if a != [] {
      LexIrreflexive(lt, a[1..]);
    }
  }

  lemma {:induction false} LexTransitive<T(!new)>(lt: (T, T) -> bool, a: seq<T>, b: seq<T>, c: seq<T>)
    requires StrictTotal(lt)
    requires LexLess(lt, a, b) && LexLess(lt, b, c)
    ensures LexLess(lt, a, c)
    decreases |a|
  {
    if a != [] && a[0] == b[0] && b[0] == c[0] {
      LexTransitive(lt, a[1..], b[1..], c[1..]);
    }
  }

  lemma {:induction false} LexTotal<T(!new)>(lt: (T, T) -> bool)
    requires StrictTotal(lt)
    ensures StrictTotal((a: seq<T>, b: seq<T>) => LexLess(lt, a, b))
  {
    forall a: seq<T> ensures !LexLess(lt, a, a) { LexIrreflexive(lt, a); }
    forall a: seq<T>, b: seq<T> ensures a == b || LexLess(lt, a, b) || LexLess(lt, b, a) {
      LexConnected(lt, a, b);
    }
    forall a: seq<T>, b: seq<T>, c: seq<T> | LexLess(lt, a, b) && LexLess(lt, b, c)
      ensures LexLess(lt, a, c)
    {
      LexTransitive(lt, a, b, c);
    }
  }

  lemma {:induction false} LimbTotal()
    ensures StrictTotal(LimbLess)
  {
    LexTotal(CharLess);
    var strLess := (a: string, b: string) => LexLess(CharLess, a, b);
    forall a: Limb ensures !LimbLess(a, a) {
      if a.Str? { assert !strLess(a.text, a.text); }
    }
    forall a: Limb, b: Limb ensures a == b || LimbLess(a, b) || LimbLess(b, a) {
      if a.Str? && b.Str? { assert a.text == b.text || strLess(a.text, b.text) || strLess(b.text, a.text); }
    }
    forall a: Limb, b: Limb, c: Limb | LimbLess(a, b) && LimbLess(b, c) ensures LimbLess(a, c) {
      if a.Str? { assert strLess(a.text, b.text) && strLess(b.text, c.text); }
    }
  }

  /** `cmp` is a strict total order on names, with the anonymous name least. */
  lemma {:induction false} NameOrder(a: Name, b: Name, c: Name)
    ensures !Less(a, a)
    ensures a == b || Less(a, b) || Less(b, a)
    ensures Less(a, b) && Less(b, c) ==> Less(a, c)
    ensures a != [] ==> Less([], a)
  {
    LimbTotal();
    LexIrreflexive(LimbLess, a);
    LexConnected(LimbLess, a, b);
    if Less(a, b) && Less(b, c) {
      LexTransitive(LimbLess, a, b, c);
    }
  }
}
