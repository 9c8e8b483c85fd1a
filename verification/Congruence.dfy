/** The least congruence on expressions that contains a given relation, as derivation trees.
    Like kernel equality, it ignores binder names and infos; like the equivalence manager, it
    also ignores metadata maps, the `nondep` flag and the structure name of a projection. */
module Congruence {
  import opened Names
  import opened Exprs
  import opened DeBruijn
  import opened ExprFacts

  type Rel = (Expr, Expr) -> bool

  datatype Deriv =
    | Axiom
    | Refl
    | Symm(d: Deriv)
    | Trans(mid: Expr, d1: Deriv, d2: Deriv)
    | CApp(d1: Deriv, d2: Deriv)
    | CLambda(d1: Deriv, d2: Deriv)
    | CPi(d1: Deriv, d2: Deriv)
    | CLet(d1: Deriv, d2: Deriv, d3: Deriv)
    | CMData(d: Deriv)
    | CProj(d: Deriv)

  /** `d` derives `t ~ s` from the pairs in `R`. */
  ghost predicate Derives(R: Rel, d: Deriv, t: Expr, s: Expr) {
    match d
    case Axiom => R(t, s)
    case Refl => Same(t, s)
    case Symm(d1) => Derives(R, d1, s, t)
    case Trans(m, d1, d2) => Derives(R, d1, t, m) && Derives(R, d2, m, s)
    case CApp(d1, d2) => t.App? && s.App? && Derives(R, d1, t.fn, s.fn) && Derives(R, d2, t.arg, s.arg)
    case CLambda(d1, d2) =>
      t.Lambda? && s.Lambda? && Derives(R, d1, t.domain, s.domain) && Derives(R, d2, t.body, s.body)
    case CPi(d1, d2) =>
      t.Pi? && s.Pi? && Derives(R, d1, t.domain, s.domain) && Derives(R, d2, t.body, s.body)
    case CLet(d1, d2, d3) =>
      t.Let? && s.Let? && Derives(R, d1, t.letType, s.letType)
      && Derives(R, d2, t.letValue, s.letValue) && Derives(R, d3, t.letBody, s.letBody)
    case CMData(d1) => t.MData? && s.MData? && Derives(R, d1, t.inner, s.inner)
    case CProj(d1) => t.Proj? && s.Proj? && t.pidx == s.pidx && Derives(R, d1, t.struct, s.struct)
  }

  /** `t` and `s` are in the congruence generated by `R`. */
  ghost predicate Conv(R: Rel, t: Expr, s: Expr) {
    exists d :: Derives(R, d, t, s)
  }

  lemma {:induction false} ConvAxiom(R: Rel, t: Expr, s: Expr)
    requires R(t, s)
    ensures Conv(R, t, s)
  {
    assert Derives(R, Axiom, t, s);
  }

  lemma {:induction false} ConvRefl(R: Rel, t: Expr, s: Expr)
    requires Same(t, s)
    ensures Conv(R, t, s)
  {
    assert Derives(R, Refl, t, s);
  }

  lemma {:induction false} ConvSymm(R: Rel, t: Expr, s: Expr)
    requires Conv(R, t, s)
    ensures Conv(R, s, t)
  {
    var d :| Derives(R, d, t, s);
    assert Derives(R, Symm(d), s, t);
  }

  lemma {:induction false} TransDeriv(R: Rel, d1: Deriv, d2: Deriv, t: Expr, m: Expr, s: Expr)
    requires Derives(R, d1, t, m) && Derives(R, d2, m, s)
    ensures Derives(R, Trans(m, d1, d2), t, s)
  {
  }

  lemma {:induction false} ConvTrans(R: Rel, t: Expr, m: Expr, s: Expr)
    requires Conv(R, t, m) && Conv(R, m, s)
    ensures Conv(R, t, s)
  {
    var d1 :| Derives(R, d1, t, m);
    var d2 :| Derives(R, d2, m, s);
    TransDeriv(R, d1, d2, t, m, s);
  }

  lemma {:induction false} ConvApp(R: Rel, t: Expr, s: Expr)
    requires t.App? && s.App? && Conv(R, t.fn, s.fn) && Conv(R, t.arg, s.arg)
    ensures Conv(R, t, s)
  {
    var d1 :| Derives(R, d1, t.fn, s.fn);
    var d2 :| Derives(R, d2, t.arg, s.arg);
    assert Derives(R, CApp(d1, d2), t, s);
  }

  lemma {:induction false} ConvBinding(R: Rel, t: Expr, s: Expr)
    requires (t.Lambda? && s.Lambda?) || (t.Pi? && s.Pi?)
    requires Conv(R, t.domain, s.domain) && Conv(R, t.body, s.body)
    ensures Conv(R, t, s)
  {
    var d1 :| Derives(R, d1, t.domain, s.domain);
    var d2 :| Derives(R, d2, t.body, s.body);
    assert Derives(R, if t.Lambda? then CLambda(d1, d2) else CPi(d1, d2), t, s);
  }

  lemma {:induction false} ConvLet(R: Rel, t: Expr, s: Expr)
    requires t.Let? && s.Let? && Conv(R, t.letType, s.letType)
    requires Conv(R, t.letValue, s.letValue) && Conv(R, t.letBody, s.letBody)
    ensures Conv(R, t, s)
  {
    var d1 :| Derives(R, d1, t.letType, s.letType);
    var d2 :| Derives(R, d2, t.letValue, s.letValue);
    var d3 :| Derives(R, d3, t.letBody, s.letBody);
    assert Derives(R, CLet(d1, d2, d3), t, s);
  }

  lemma {:induction false} ConvMData(R: Rel, t: Expr, s: Expr)
    requires t.MData? && s.MData? && Conv(R, t.inner, s.inner)
    ensures Conv(R, t, s)
  {
    var d :| Derives(R, d, t.inner, s.inner);
    assert Derives(R, CMData(d), t, s);
  }

  lemma {:induction false} ConvProj(R: Rel, t: Expr, s: Expr)
    requires t.Proj? && s.Proj? && t.pidx == s.pidx && Conv(R, t.struct, s.struct)
    ensures Conv(R, t, s)
  {
    var d :| Derives(R, d, t.struct, s.struct);
    assert Derives(R, CProj(d), t, s);
  }

  lemma {:induction false} ConvRevApp(R: Rel, f: Expr, g: Expr, args: seq<Expr>)
    requires Conv(R, f, g)
    ensures Conv(R, MkRevApp(f, args), MkRevApp(g, args))
  {
    if args != [] {
      ConvRevApp(R, f, g, args[1..]);
      ConvRefl(R, args[0], args[0]);
      ConvApp(R, MkRevApp(f, args), MkRevApp(g, args));
    }
  }

  /** A congruence that contains the generating pairs of another contains all of it. */
  lemma {:induction false} ConvMono(R: Rel, Q: Rel, d: Deriv, t: Expr, s: Expr)
    requires forall x, y :: R(x, y) ==> Conv(Q, x, y)
    requires Derives(R, d, t, s)
    ensures Conv(Q, t, s)
  {
    match d
    case Axiom =>
    case Refl => ConvRefl(Q, t, s);
    case Symm(d1) => ConvMono(R, Q, d1, s, t); ConvSymm(Q, s, t);
    case Trans(m, d1, d2) => ConvMono(R, Q, d1, t, m); ConvMono(R, Q, d2, m, s); ConvTrans(Q, t, m, s);
    case CApp(d1, d2) => ConvMono(R, Q, d1, t.fn, s.fn); ConvMono(R, Q, d2, t.arg, s.arg); ConvApp(Q, t, s);
    case CLambda(d1, d2) =>
      ConvMono(R, Q, d1, t.domain, s.domain); ConvMono(R, Q, d2, t.body, s.body); ConvBinding(Q, t, s);
    case CPi(d1, d2) =>
      ConvMono(R, Q, d1, t.domain, s.domain); ConvMono(R, Q, d2, t.body, s.body); ConvBinding(Q, t, s);
    case CLet(d1, d2, d3) =>
      ConvMono(R, Q, d1, t.letType, s.letType); ConvMono(R, Q, d2, t.letValue, s.letValue);
      ConvMono(R, Q, d3, t.letBody, s.letBody); ConvLet(Q, t, s);
    case CMData(d1) => ConvMono(R, Q, d1, t.inner, s.inner); ConvMData(Q, t, s);
    case CProj(d1) => ConvMono(R, Q, d1, t.struct, s.struct); ConvProj(Q, t, s);
  }

  lemma {:induction false} SameMap(t: Expr, s: Expr, k: nat, f: (Expr, nat) -> Expr)
    requires Same(t, s)
    ensures Same(Map(t, k, f), Map(s, k, f))
  {
    var g := (l: Expr, j: nat) => Erase(f(l, j));
    forall l, j: nat | Atomic(l) ensures LeafErase(f, g, l, j) { }
    EraseMap(t, k, f, g);
    EraseMap(s, k, f, g);
  }

  /** A pass that sends generating pairs into a congruence sends the whole congruence into it. */
  ghost predicate Carries(R: Rel, Q: Rel, f: (Expr, nat) -> Expr, k: nat, t: Expr, s: Expr) {
    R(t, s) ==> Conv(Q, Map(t, k, f), Map(s, k, f))
  }

  lemma {:induction false} ConvMap(R: Rel, Q: Rel, f: (Expr, nat) -> Expr, d: Deriv, t: Expr, s: Expr, k: nat)
    requires forall x, y, j: nat :: Carries(R, Q, f, j, x, y)
    requires Derives(R, d, t, s)
    ensures Conv(Q, Map(t, k, f), Map(s, k, f))
    decreases d
  {
    var t', s' := Map(t, k, f), Map(s, k, f);
    match d
    case Axiom => assert Carries(R, Q, f, k, t, s);
    case Refl => SameMap(t, s, k, f); ConvRefl(Q, t', s');
    case Symm(d1) => ConvMap(R, Q, f, d1, s, t, k); ConvSymm(Q, s', t');
    case Trans(m, d1, d2) =>
      ConvMap(R, Q, f, d1, t, m, k); ConvMap(R, Q, f, d2, m, s, k); ConvTrans(Q, t', Map(m, k, f), s');
    case CApp(d1, d2) =>
      ConvMap(R, Q, f, d1, t.fn, s.fn, k); ConvMap(R, Q, f, d2, t.arg, s.arg, k); ConvApp(Q, t', s');
    case CLambda(d1, d2) =>
      ConvMap(R, Q, f, d1, t.domain, s.domain, k); ConvMap(R, Q, f, d2, t.body, s.body, k + 1); ConvBinding(Q, t', s');
    case CPi(d1, d2) =>
      ConvMap(R, Q, f, d1, t.domain, s.domain, k); ConvMap(R, Q, f, d2, t.body, s.body, k + 1); ConvBinding(Q, t', s');
    case CLet(d1, d2, d3) =>
      ConvMap(R, Q, f, d1, t.letType, s.letType, k); ConvMap(R, Q, f, d2, t.letValue, s.letValue, k);
      ConvMap(R, Q, f, d3, t.letBody, s.letBody, k + 1); ConvLet(Q, t', s');
    case CMData(d1) => ConvMap(R, Q, f, d1, t.inner, s.inner, k); ConvMData(Q, t', s');
    case CProj(d1) => ConvMap(R, Q, f, d1, t.struct, s.struct, k); ConvProj(Q, t', s');
  }
}
