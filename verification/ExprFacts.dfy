/** Loose ranges, free variables and erasure under the passes of `Exprs`, and substitution of
    free variables. */
module ExprFacts {
  import opened Names
  import opened Prelude
  import opened Exprs
  import opened DeBruijn

  // ---------------------------------------------------------------- loose ranges

  ghost predicate LeafRange(f: (Expr, nat) -> Expr, k: nat, a: nat, b: nat, l: Expr, j: nat) {
    LooseRange(l) <= a + j ==> LooseRange(f(l, k + j)) <= b + j
  }

  ghost predicate RangeStep(f: (Expr, nat) -> Expr, k: nat, a: nat, b: nat) {
    forall l, j: nat :: Atomic(l) ==> LeafRange(f, k, a, b, l, j)
  }

  lemma {:induction false} MapRange(e: Expr, i: nat, f: (Expr, nat) -> Expr, k: nat, a: nat, b: nat)
    requires RangeStep(f, k, a, b) && LooseRange(e) <= a + i
    ensures LooseRange(Map(e, k + i, f)) <= b + i
  {
    match e
    case App(g, x) => MapRange(g, i, f, k, a, b); MapRange(x, i, f, k, a, b);
    case Lambda(_, t, c) => MapRange(t, i, f, k, a, b); MapRange(c, i + 1, f, k, a, b);
    case Pi(_, t, c) => MapRange(t, i, f, k, a, b); MapRange(c, i + 1, f, k, a, b);
    case Let(_, t, v, c, _) => MapRange(t, i, f, k, a, b); MapRange(v, i, f, k, a, b); MapRange(c, i + 1, f, k, a, b);
    case MData(_, x) => MapRange(x, i, f, k, a, b);
    case Proj(_, _, x) => MapRange(x, i, f, k, a, b);
    case _ => assert LeafRange(f, k, a, b, e, i);
  }

  lemma {:induction false} LiftRange(e: Expr, s: nat, d: nat, n: nat)
    requires LooseRange(e) <= n
    ensures LooseRange(Lift(e, s, d)) <= n + d
  {
    var m := n + d;
    forall l, j: nat | Atomic(l) ensures LeafRange(LiftLeaf(d), s, n, m, l, j) { }
    MapRange(e, 0, LiftLeaf(d), s, n, m);
  }

  /** Substituting terms with range `n` for the lowest indices leaves range `n`. */
  lemma {:induction false} InstRange(e: Expr, us: seq<Expr>, n: nat)
    requires LooseRange(e) <= |us| + n
    requires forall i :: 0 <= i < |us| ==> LooseRange(us[i]) <= n
    ensures LooseRange(Inst(e, 0, us)) <= n
  {
    var m := |us| + n;
    forall l, j: nat | Atomic(l) ensures LeafRange(InstLeaf(us), 0, m, n, l, j) {
      if l.BVar? && j <= l.idx < j + |us| { LiftRange(us[l.idx - j], 0, j, n); }
    }
    MapRange(e, 0, InstLeaf(us), 0, m, n);
  }

  lemma {:induction false} AbstractRange(e: Expr, k: nat, xs: seq<Name>, n: nat)
    requires LooseRange(e) <= n && k <= n
    ensures LooseRange(Abstract(e, k, xs)) <= n + |xs|
  {
    var m := n + |xs|;
    forall l, j: nat | Atomic(l) ensures LeafRange(AbstractLeaf(xs), k, n, m, l, j) { }
    MapRange(e, 0, AbstractLeaf(xs), k, n, m);
  }

  // ---------------------------------------------------------------- free variables

  ghost predicate LeafFVars(f: (Expr, nat) -> Expr, s: set<Name>, l: Expr, j: nat) {
    FVars(f(l, j)) <= FVars(l) + s
  }

  ghost predicate FVarsBounded(f: (Expr, nat) -> Expr, s: set<Name>) {
    forall l, j: nat :: Atomic(l) ==> LeafFVars(f, s, l, j)
  }

  lemma {:induction false} MapFVars(e: Expr, k: nat, f: (Expr, nat) -> Expr, s: set<Name>)
    requires FVarsBounded(f, s)
    ensures FVars(Map(e, k, f)) <= FVars(e) + s
  {
    match e
    case App(g, x) => MapFVars(g, k, f, s); MapFVars(x, k, f, s);
    case Lambda(_, t, c) => MapFVars(t, k, f, s); MapFVars(c, k + 1, f, s);
    case Pi(_, t, c) => MapFVars(t, k, f, s); MapFVars(c, k + 1, f, s);
    case Let(_, t, v, c, _) => MapFVars(t, k, f, s); MapFVars(v, k, f, s); MapFVars(c, k + 1, f, s);
    case MData(_, x) => MapFVars(x, k, f, s);
    case Proj(_, _, x) => MapFVars(x, k, f, s);
    case _ => assert LeafFVars(f, s, e, k);
  }

  lemma {:induction false} LiftFVars(e: Expr, s: nat, d: nat)
    ensures FVars(Lift(e, s, d)) <= FVars(e)
  {
    forall l, j: nat | Atomic(l) ensures LeafFVars(LiftLeaf(d), {}, l, j) { }
    MapFVars(e, s, LiftLeaf(d), {});
  }

  function FVarsAll(us: seq<Expr>): set<Name> {
    set u, x | u in us && x in FVars(u) :: x
  }

  lemma {:induction false} InstFVars(e: Expr, k: nat, us: seq<Expr>)
    ensures FVars(Inst(e, k, us)) <= FVars(e) + FVarsAll(us)
  {
    forall l, j: nat | Atomic(l) ensures LeafFVars(InstLeaf(us), FVarsAll(us), l, j) {
      if l.BVar? && j <= l.idx < j + |us| {
        var u := us[l.idx - j];
        LiftFVars(u, 0, j);
        assert u in us && FVars(u) <= FVarsAll(us);
      }
    }
    MapFVars(e, k, InstLeaf(us), FVarsAll(us));
  }

  lemma {:induction false} HasFVarMeaning(e: Expr)
    ensures HasFVar(e) <==> FVars(e) != {}
  {
    match e
    case App(f, a) => HasFVarMeaning(f); HasFVarMeaning(a);
    case Lambda(_, t, b) => HasFVarMeaning(t); HasFVarMeaning(b);
    case Pi(_, t, b) => HasFVarMeaning(t); HasFVarMeaning(b);
    case Let(_, t, v, b, _) => HasFVarMeaning(t); HasFVarMeaning(v); HasFVarMeaning(b);
    case MData(_, x) => HasFVarMeaning(x);
    case Proj(_, _, x) => HasFVarMeaning(x);
    case _ =>
  }

  // ---------------------------------------------------------------- erasure

  lemma {:induction false} EraseFacts(e: Expr)
    ensures LooseRange(Erase(e)) == LooseRange(e)
    ensures FVars(Erase(e)) == FVars(e)
    ensures Erase(Erase(e)) == Erase(e)
  {
    match e
    case App(f, a) => EraseFacts(f); EraseFacts(a);
    case Lambda(_, t, b) => EraseFacts(t); EraseFacts(b);
    case Pi(_, t, b) => EraseFacts(t); EraseFacts(b);
    case Let(_, t, v, b, _) => EraseFacts(t); EraseFacts(v); EraseFacts(b);
    case MData(_, x) => EraseFacts(x);
    case Proj(_, _, x) => EraseFacts(x);
    case _ =>
  }

  ghost predicate LeafErase(f: (Expr, nat) -> Expr, g: (Expr, nat) -> Expr, l: Expr, j: nat) {
    Erase(f(l, j)) == g(l, j)
  }

  lemma {:induction false} EraseMap(e: Expr, k: nat, f: (Expr, nat) -> Expr, g: (Expr, nat) -> Expr)
    requires forall l, j: nat :: Atomic(l) ==> LeafErase(f, g, l, j)
    ensures Erase(Map(e, k, f)) == Map(Erase(e), k, g)
  {
    match e
    case App(h, x) => EraseMap(h, k, f, g); EraseMap(x, k, f, g);
    case Lambda(_, t, c) => EraseMap(t, k, f, g); EraseMap(c, k + 1, f, g);
    case Pi(_, t, c) => EraseMap(t, k, f, g); EraseMap(c, k + 1, f, g);
    case Let(_, t, v, c, _) => EraseMap(t, k, f, g); EraseMap(v, k, f, g); EraseMap(c, k + 1, f, g);
    case MData(_, x) => EraseMap(x, k, f, g);
    case Proj(_, _, x) => EraseMap(x, k, f, g);
    case _ => assert LeafErase(f, g, e, k);
  }

  lemma {:induction false} EraseLift(e: Expr, s: nat, d: nat)
    ensures Erase(Lift(e, s, d)) == Lift(Erase(e), s, d)
  {
    forall l, j: nat | Atomic(l) ensures LeafErase(LiftLeaf(d), LiftLeaf(d), l, j) { }
    EraseMap(e, s, LiftLeaf(d), LiftLeaf(d));
  }

  function EraseAll(us: seq<Expr>): (r: seq<Expr>)
    ensures |r| == |us|
  {
    seq(|us|, i requires 0 <= i < |us| => Erase(us[i]))
  }

  /** Kernel equality is respected by substitution. */
  lemma {:induction false} EraseInst(e: Expr, k: nat, us: seq<Expr>)
    ensures Erase(Inst(e, k, us)) == Inst(Erase(e), k, EraseAll(us))
  {
    forall l, j: nat | Atomic(l) ensures LeafErase(InstLeaf(us), InstLeaf(EraseAll(us)), l, j) {
      if l.BVar? && j <= l.idx < j + |us| { EraseLift(us[l.idx - j], 0, j); }
    }
    EraseMap(e, k, InstLeaf(us), InstLeaf(EraseAll(us)));
  }

  // ---------------------------------------------------------------- substituting free variables

  function SubstAt(l: Expr, j: nat, m: map<Name, Expr>): Expr {
    if l.FVar? && l.fvar in m then Lift(m[l.fvar], 0, j) else l
  }

  function SubstLeaf(m: map<Name, Expr>): (Expr, nat) -> Expr {
    (l: Expr, j: nat) => SubstAt(l, j, m)
  }

  /** Replace the free variables in `m` by their images, under `k` binders. */
  function Subst(e: Expr, k: nat, m: map<Name, Expr>): Expr {
    Map(e, k, SubstLeaf(m))
  }

  lemma {:induction false} SubstLiftAtom(l: Expr, j: nat, s: nat, d: nat, k: nat, m: map<Name, Expr>)
    requires Atomic(l) && s <= k
    ensures Agree(l, j, Pass(s, LiftLeaf(d)), Pass(k + d, SubstLeaf(m)), Pass(k, SubstLeaf(m)), Pass(s, LiftLeaf(d)))
  {
    if l.FVar? && l.fvar in m { LiftMerge(m[l.fvar], 0, k + j, s + j, d); }
  }

  lemma {:induction false} SubstLift(e: Expr, s: nat, d: nat, k: nat, m: map<Name, Expr>)
    requires s <= k
    ensures Subst(Lift(e, s, d), k + d, m) == Lift(Subst(e, k, m), s, d)
  {
    AlwaysLeaves(e, 0);
    var p1, p2 := Pass(s, LiftLeaf(d)), Pass(k + d, SubstLeaf(m));
    var q1, q2 := Pass(k, SubstLeaf(m)), Pass(s, LiftLeaf(d));
    forall l, j: nat | Atomic(l) ensures Agree(l, j, p1, p2, q1, q2) {
      SubstLiftAtom(l, j, s, d, k, m);
    }
    MapCommute(e, Always(), p1, p2, q1, q2);
  }

  function SubstAll(us: seq<Expr>, k: nat, m: map<Name, Expr>): (r: seq<Expr>)
    ensures |r| == |us|
  {
    seq(|us|, i requires 0 <= i < |us| => Subst(us[i], k, m))
  }

  lemma {:induction false} SubstInstAtom(l: Expr, j: nat, k: nat, us: seq<Expr>, s: nat, m: map<Name, Expr>)
    requires Atomic(l)
    ensures Agree(l, j, Pass(k, InstLeaf(us)), Pass(k + s, SubstLeaf(m)),
                        Pass(k + |us| + s, SubstLeaf(m)), Pass(k, InstLeaf(SubstAll(us, s, m))))
  {
    var low, high := k + j, k + |us| + s + j;
    if l.BVar? {
      if low <= l.idx < low + |us| { SubstLift(us[l.idx - low], 0, low, s, m); }
    } else if l.FVar? && l.fvar in m {
      InstLiftCancel(m[l.fvar], 0, high, low, SubstAll(us, s, m));
    }
  }

  /** Substituting free variables commutes with instantiating indices. */
  lemma {:induction false} SubstInst(e: Expr, k: nat, us: seq<Expr>, s: nat, m: map<Name, Expr>)
    ensures Subst(Inst(e, k, us), k + s, m) == Inst(Subst(e, k + |us| + s, m), k, SubstAll(us, s, m))
  {
    AlwaysLeaves(e, 0);
    var p1, p2 := Pass(k, InstLeaf(us)), Pass(k + s, SubstLeaf(m));
    var q1, q2 := Pass(k + |us| + s, SubstLeaf(m)), Pass(k, InstLeaf(SubstAll(us, s, m)));
    forall l, j: nat | Atomic(l) ensures Agree(l, j, p1, p2, q1, q2) {
      SubstInstAtom(l, j, k, us, s, m);
    }
    MapCommute(e, Always(), p1, p2, q1, q2);
  }

  // ---------------------------------------------------------------- closing over one variable

  function CloseAt(l: Expr, j: nat, x: Name): Expr {
    if l == FVar(x) then BVar(j)
    else LiftAt(l, j, 1)
  }

  function CloseLeaf(x: Name): (Expr, nat) -> Expr {
    (l: Expr, j: nat) => CloseAt(l, j, x)
  }

  /** Make room for a new binder at depth `k` and bind `x` there. */
  function Close(e: Expr, k: nat, x: Name): Expr {
    Map(e, k, CloseLeaf(x))
  }

  lemma {:induction false} CloseLift(e: Expr, s: nat, d: nat, k: nat, x: Name)
    requires s <= k
    ensures Close(Lift(e, s, d), k + d, x) == Lift(Close(e, k, x), s, d)
  {
    AlwaysLeaves(e, 0);
    var p1, p2 := Pass(s, LiftLeaf(d)), Pass(k + d, CloseLeaf(x));
    var q1, q2 := Pass(k, CloseLeaf(x)), Pass(s, LiftLeaf(d));
    forall l, j: nat | Atomic(l) ensures Agree(l, j, p1, p2, q1, q2) { }
    MapCommute(e, Always(), p1, p2, q1, q2);
  }

  lemma {:induction false} CloseInstAtom(l: Expr, j: nat, k: nat, u: Expr, s: nat, x: Name)
    requires Atomic(l)
    ensures Agree(l, j, Pass(k, InstLeaf([u])), Pass(k + s, CloseLeaf(x)),
                        Pass(k + 1 + s, CloseLeaf(x)), Pass(k, InstLeaf([Close(u, s, x)])))
  {
    if l.BVar? && l.idx == k + j { CloseLift(u, 0, k + j, s, x); }
  }

  lemma {:induction false} CloseInst(e: Expr, k: nat, u: Expr, s: nat, x: Name)
    ensures Close(Inst(e, k, [u]), k + s, x) == Inst(Close(e, k + 1 + s, x), k, [Close(u, s, x)])
  {
    AlwaysLeaves(e, 0);
    var p1, p2 := Pass(k, InstLeaf([u])), Pass(k + s, CloseLeaf(x));
    var q1, q2 := Pass(k + 1 + s, CloseLeaf(x)), Pass(k, InstLeaf([Close(u, s, x)]));
    forall l, j: nat | Atomic(l) ensures Agree(l, j, p1, p2, q1, q2) {
      CloseInstAtom(l, j, k, u, s, x);
    }
    MapCommute(e, Always(), p1, p2, q1, q2);
  }

  /** Opening with a variable that does not occur and closing over it gives the body back. */
  lemma {:induction false} OpenThenClose(e: Expr, x: Name)
    requires x !in FVars(e)
    ensures Close(Inst(e, 0, [FVar(x)]), 0, x) == e
  {
    var n := LooseRange(e);
    RangeLeaves(e, 0, n, [x]);
    var p1, p2, q := Pass(0, InstLeaf([FVar(x)])), Pass(0, CloseLeaf(x)), Pass(0, Id());
    forall l, j: nat | Atomic(l) && Avoiding(n, [x])(l, j) ensures Fuses(l, j, p1, p2, q) { }
    MapFuse(e, Avoiding(n, [x]), p1, p2, q);
    MapIdentity(e, 0);
  }
}
