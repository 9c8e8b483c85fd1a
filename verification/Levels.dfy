/** Universe levels (kernel/level.cpp): smart constructors, the normaliser and the order test. */
module Levels {
  import opened Names

  datatype Level =
    | Zero
    | Succ(pred: Level)
    | Max(lhs: Level, rhs: Level)
    | IMax(lhs: Level, rhs: Level)
    | Param(id: Name)
    | MVar(id: Name)

  /** An assignment of naturals to universe parameters and metavariables. */
  datatype Assignment = Assignment(param: Name -> nat, mvar: Name -> nat)

  function MaxNat(a: nat, b: nat): nat {
    if a >= b then a else b
  }

  /** The meaning of a level; `imax a 0 = 0`. */
  function Eval(l: Level, A: Assignment): nat {
    match l
    case Zero => 0
    case Succ(p) => Eval(p, A) + 1
    case Max(a, b) => MaxNat(Eval(a, A), Eval(b, A))
    case IMax(a, b) => if Eval(b, A) == 0 then 0 else MaxNat(Eval(a, A), Eval(b, A))
    case Param(n) => A.param(n)
    case MVar(n) => A.mvar(n)
  }

  /** Equal denotation under every assignment. */
  ghost predicate SameMeaning(l1: Level, l2: Level) {
    forall A :: Eval(l1, A) == Eval(l2, A)
  }

  function Size(l: Level): nat {
    match l
    case Succ(p) => 1 + Size(p)
    case Max(a, b) => 1 + Size(a) + Size(b)
    case IMax(a, b) => 1 + Size(a) + Size(b)
    case _ => 1
  }

  predicate IsExplicit(l: Level) {
    match l
    case Zero => true
    case Succ(p) => IsExplicit(p)
    case _ => false
  }

  /** The depth field stored in a level object. */
  function Depth(l: Level): nat {
    match l
    case Succ(p) => Depth(p) + 1
    case Max(a, b) => MaxNat(Depth(a), Depth(b)) + 1
    case IMax(a, b) => MaxNat(Depth(a), Depth(b)) + 1
    case _ => 0
  }

  /** `succ^k b` with `b` not a successor: the base `b` and the offset `k`. */
  function Base(l: Level): (b: Level)
    ensures !b.Succ?
    ensures Size(b) <= Size(l)
  {
    if l.Succ? then Base(l.pred) else l
  }

  function Offset(l: Level): nat {
    if l.Succ? then Offset(l.pred) + 1 else 0
  }

  function AddSucc(l: Level, k: nat): Level {
    if k == 0 then l else Succ(AddSucc(l, k - 1))
  }

  lemma {:induction false} AddSuccFacts(l: Level, k: nat, A: Assignment)
    ensures Base(AddSucc(l, k)) == Base(l)
    ensures Offset(AddSucc(l, k)) == Offset(l) + k
    ensures Eval(AddSucc(l, k), A) == Eval(l, A) + k
    ensures AddSucc(Succ(l), k) == Succ(AddSucc(l, k))
  {
    if k > 0 {
      AddSuccFacts(l, k - 1, A);
    }
  }

  lemma {:induction false} OffsetFacts(l: Level, A: Assignment)
    ensures AddSucc(Base(l), Offset(l)) == l
    ensures Eval(l, A) == Eval(Base(l), A) + Offset(l)
    ensures IsExplicit(l) == Base(l).Zero?
    ensures IsExplicit(l) ==> Depth(l) == Offset(l)
  {
    if l.Succ? {
      OffsetFacts(l.pred, A);
    }
  }

  lemma {:induction false} BaseOffsetInjective(a: Level, b: Level)
    requires Base(a) == Base(b) && Offset(a) == Offset(b)
    ensures a == b
  {
    var A := Assignment(n => 0, n => 0);
    OffsetFacts(a, A);
    OffsetFacts(b, A);
  }

  method ToOffset(l: Level) returns (b: Level, k: nat)
    ensures b == Base(l) && k == Offset(l)
  {
    b, k := l, 0;
    while b.Succ?
      invariant Base(b) == Base(l) && Offset(b) + k == Offset(l)
      decreases b
    {
      b := b.pred;
      k := k + 1;
    }
  }

  method MkSuccTimes(l: Level, k: nat) returns (r: Level)
    ensures r == AddSucc(l, k)
  {
    r := l;
    var n := k;
    while n > 0
      invariant AddSucc(r, n) == AddSucc(l, k)
    {
      n := n - 1;
      AddSuccFacts(r, n, Assignment(x => 0, x => 0));
      r := Succ(r);
    }
  }

  // ---------------------------------------------------------------- smart constructors

  function MkMax(l1: Level, l2: Level): Level {
    if IsExplicit(l1) && IsExplicit(l2) then
      if Depth(l1) >= Depth(l2) then l1 else l2
    else if l1 == l2 then l1
    else if l1.Zero? then l2
    else if l2.Zero? then l1
    else if l2.Max? && (l2.lhs == l1 || l2.rhs == l1) then l2
    else if l1.Max? && (l1.lhs == l2 || l1.rhs == l2) then l1
    else if Base(l1) == Base(l2) then
      if Offset(l1) > Offset(l2) then l1 else l2
    else Max(l1, l2)
  }

  predicate IsNotZero(l: Level) {
    match l
    case Zero => false
    case Param(_) => false
    case MVar(_) => false
    case Succ(_) => true
    case Max(a, b) => IsNotZero(a) || IsNotZero(b)
    case IMax(_, b) => IsNotZero(b)
  }

  function MkIMax(l1: Level, l2: Level): Level {
    if IsNotZero(l2) then MkMax(l1, l2)
    else if l2.Zero? then l2
    else if l1.Zero? || l1 == Succ(Zero) then l2
    else if l1 == l2 then l1
    else IMax(l1, l2)
  }

  lemma {:induction false} EvalMkMaxSameBase(l1: Level, l2: Level, A: Assignment)
    requires Base(l1) == Base(l2)
    ensures Eval(if Offset(l1) > Offset(l2) then l1 else l2, A) == MaxNat(Eval(l1, A), Eval(l2, A))
  {
    OffsetFacts(l1, A);
    OffsetFacts(l2, A);
  }

  lemma {:induction false} EvalMkMax(l1: Level, l2: Level, A: Assignment)
    ensures Eval(MkMax(l1, l2), A) == MaxNat(Eval(l1, A), Eval(l2, A))
  {
    if IsExplicit(l1) && IsExplicit(l2) {
      OffsetFacts(l1, A);
      OffsetFacts(l2, A);
      EvalMkMaxSameBase(l1, l2, A);
    } else if l1 == l2 || l1.Zero? || l2.Zero? {
    } else if l2.Max? && (l2.lhs == l1 || l2.rhs == l1) {
    } else if l1.Max? && (l1.lhs == l2 || l1.rhs == l2) {
    } else if Base(l1) == Base(l2) {
      EvalMkMaxSameBase(l1, l2, A);
    }
  }

  lemma {:induction false} IsNotZeroSound(l: Level, A: Assignment)
    requires IsNotZero(l)
    ensures Eval(l, A) > 0
  {
    match l
    case Succ(_) =>
    case Max(a, b) => if IsNotZero(a) { IsNotZeroSound(a, A); } else { IsNotZeroSound(b, A); }
    case IMax(_, b) => IsNotZeroSound(b, A);
  }

  /** The simplifications of `mk_imax` (`imax u 0 = 0`, `imax 1 u = u`, ...) never change the value. */
  lemma {:induction false} EvalMkIMax(l1: Level, l2: Level, A: Assignment)
    ensures Eval(MkIMax(l1, l2), A) == Eval(IMax(l1, l2), A)
  {
    EvalMkMax(l1, l2, A);
    if IsNotZero(l2) { IsNotZeroSound(l2, A); }
  }

  // ---------------------------------------------------------------- the order used for sorting

  function KindIndex(l: Level): nat {
    match l
    case Zero => 0
    case Succ(_) => 1
    case Max(_, _) => 2
    case IMax(_, _) => 3
    case Param(_) => 4
    case MVar(_) => 5
  }

  predicate IsNormLt(a: Level, b: Level)
    decreases Size(a)
  {
    var l1, l2 := Base(a), Base(b);
    if l1 == l2 then Offset(a) < Offset(b)
    else if KindIndex(l1) != KindIndex(l2) then KindIndex(l1) < KindIndex(l2)
    else match l1
      case Param(n) => Less(n, l2.id)
      case MVar(n) => Less(n, l2.id)
      case Max(x, y) => if x != l2.lhs then IsNormLt(x, l2.lhs) else IsNormLt(y, l2.rhs)
      case IMax(x, y) => if x != l2.lhs then IsNormLt(x, l2.lhs) else IsNormLt(y, l2.rhs)
      case Zero => false
  }

  lemma {:induction false} NormLtConnected(a: Level, b: Level)
    ensures a == b || IsNormLt(a, b) || IsNormLt(b, a)
    decreases Size(a)
  {
    var l1, l2 := Base(a), Base(b);
    if l1 == l2 {
      if Offset(a) == Offset(b) { BaseOffsetInjective(a, b); }
    } else if KindIndex(l1) == KindIndex(l2) {
      match l1
      case Param(n) => NameOrder(n, l2.id, n);
      case MVar(n) => NameOrder(n, l2.id, n);
      case Max(x, y) => if x != l2.lhs { NormLtConnected(x, l2.lhs); } else { NormLtConnected(y, l2.rhs); }
      case IMax(x, y) => if x != l2.lhs { NormLtConnected(x, l2.lhs); } else { NormLtConnected(y, l2.rhs); }
      case Zero =>
    }
  }

  lemma {:induction false} NormLtAsymmetric(a: Level, b: Level)
    requires IsNormLt(a, b)
    ensures !IsNormLt(b, a)
    decreases Size(a)
  {
    var l1, l2 := Base(a), Base(b);
    if l1 != l2 && KindIndex(l1) == KindIndex(l2) {
      match l1
      case Param(n) => NameOrder(n, l2.id, n);
      case MVar(n) => NameOrder(n, l2.id, n);
      case Max(x, y) => if x != l2.lhs { NormLtAsymmetric(x, l2.lhs); } else { NormLtAsymmetric(y, l2.rhs); }
      case IMax(x, y) => if x != l2.lhs { NormLtAsymmetric(x, l2.lhs); } else { NormLtAsymmetric(y, l2.rhs); }
    }
  }

  lemma {:induction false} NormLtTransitive(a: Level, b: Level, c: Level)
    requires IsNormLt(a, b) && IsNormLt(b, c)
    ensures IsNormLt(a, c)
    decreases Size(a)
  {
    var l1, l2, l3 := Base(a), Base(b), Base(c);
    if l1 != l2 && l2 != l3 && KindIndex(l1) == KindIndex(l2) == KindIndex(l3) {
      match l1
      case Param(n) => NameOrder(n, l2.id, l3.id); NameOrder(n, l2.id, n);
      case MVar(n) => NameOrder(n, l2.id, l3.id); NameOrder(n, l2.id, n);
      case Max(x, y) => NormLtPairTransitive(x, y, l2.lhs, l2.rhs, l3.lhs, l3.rhs);
      case IMax(x, y) => NormLtPairTransitive(x, y, l2.lhs, l2.rhs, l3.lhs, l3.rhs);
    }
  }

  /** Lexicographic comparison of two children, the step inside `NormLtTransitive`. */
  lemma {:induction false} NormLtPairTransitive(x1: Level, y1: Level, x2: Level, y2: Level, x3: Level, y3: Level)
    requires x1 != x2 || y1 != y2
    requires x2 != x3 || y2 != y3
    requires if x1 != x2 then IsNormLt(x1, x2) else IsNormLt(y1, y2)
    requires if x2 != x3 then IsNormLt(x2, x3) else IsNormLt(y2, y3)
    ensures x1 != x3 || y1 != y3
    ensures if x1 != x3 then IsNormLt(x1, x3) else IsNormLt(y1, y3)
    decreases Size(x1) + Size(y1)
  {
    if x1 != x2 && x2 != x3 {
      if x1 == x3 { NormLtAsymmetric(x1, x2); assert false; }
      NormLtTransitive(x1, x2, x3);
    } else if x1 == x2 && x2 == x3 {
      if y1 == y3 { NormLtAsymmetric(y1, y2); assert false; }
      NormLtTransitive(y1, y2, y3);
    }
  }

  /** The comment above `is_norm_lt`: a strict total order, zero least, `succ l` next after `l`. */
  lemma {:induction false} NormOrder(a: Level, b: Level, c: Level)
    ensures !IsNormLt(a, a)
    ensures a == b || IsNormLt(a, b) || IsNormLt(b, a)
    ensures IsNormLt(a, b) && IsNormLt(b, c) ==> IsNormLt(a, c)
    ensures a != Zero ==> IsNormLt(Zero, a)
    ensures IsNormLt(a, Succ(a)) && !(IsNormLt(a, b) && IsNormLt(b, Succ(a)))
  {
    NormLtConnected(a, b);
    if IsNormLt(a, b) && IsNormLt(b, c) { NormLtTransitive(a, b, c); }
    if IsNormLt(a, b) { NormLtAsymmetric(a, b); }
    if Base(a).Zero? && Offset(a) == 0 { BaseOffsetInjective(a, Zero); }
  }
}
