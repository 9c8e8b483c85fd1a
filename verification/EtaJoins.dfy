/** Eta: a function against a term at rest whose eta expansion is joined with it. */
module EtaJoins {
  import opened Prelude
  import opened Exprs
  import opened DeBruijn
  import opened ExprFacts
  import opened Congruence
  import opened Conversion
  import opened ConversionFacts
  import opened CheckerState
  import opened HeadPaths
  import opened Resting
  import opened Literals
  import opened Joins

  /** Every weak head normal form of the type of `s` is a Pi, and its domain is joined with `dom`. */
  ghost predicate PiTyped(sc: Scope, lets: Lets, infer: InferFn, dom: Expr, s: Expr) {
    forall u, ty, r :: Same(s, u) && infer(sc.lctx, u) == Some(ty) && NormalTo(sc, lets, ty, r) ==> r.Pi? && Joined(sc, dom, r.domain)
  }

  ghost predicate NormalTo(sc: Scope, lets: Lets, ty: Expr, r: Expr) {
    Reduces(sc.env, lets, ty, r) && WeakHeadNormal(sc.env, lets, sc.lctx, r)
  }

  ghost predicate EtaPair(sc: Scope, lets: Lets, infer: InferFn, t: Expr, s: Expr) {
    t.Lambda? && Rests(sc, AppFn(s)) && PiTyped(sc, lets, infer, t.domain, s) && Joined(sc, t.body, App(s, BVar(0)))
  }

  ghost predicate EtaEither(sc: Scope, lets: Lets, infer: InferFn, t: Expr, s: Expr) {
    EtaPair(sc, lets, infer, t, s) || EtaPair(sc, lets, infer, s, t)
  }

  /** Contractions lead to such a pair. */
  ghost predicate EtaMeets(sc: Scope, lets: Lets, infer: InferFn, t: Expr, s: Expr) {
    exists m: nat, n: nat, t1, s1 :: Path(sc.lctx, m, t, t1) && Path(sc.lctx, n, s, s1) && EtaEither(sc, lets, infer, t1, s1)
  }

  lemma {:induction false} EtaPairSame(sc: Scope, lets: Lets, infer: InferFn, t: Expr, s: Expr, t': Expr, s': Expr)
    requires EtaPair(sc, lets, infer, t, s) && Same(t, t') && Same(s, s')
    ensures EtaPair(sc, lets, infer, t', s')
  {
    hide Joined, Rests, NormalTo;
    SameHead(s, s');
    RestsSame(sc, AppFn(s), AppFn(s'));
    assert Same(t.domain, t'.domain) && Same(t.body, t'.body);
    JoinedSameBoth(sc, t.body, App(s, BVar(0)), t'.body, App(s', BVar(0)));
    forall u, ty, r | Same(s', u) && infer(sc.lctx, u) == Some(ty) && NormalTo(sc, lets, ty, r) ensures r.Pi? && Joined(sc, t'.domain, r.domain) {
      assert Same(s, u);
      JoinedSameBoth(sc, t.domain, r.domain, t'.domain, r.domain);
    }
  }

  lemma {:induction false} EtaEitherSame(sc: Scope, lets: Lets, infer: InferFn, t: Expr, s: Expr, t': Expr, s': Expr)
    requires EtaEither(sc, lets, infer, t, s) && Same(t, t') && Same(s, s')
    ensures EtaEither(sc, lets, infer, t', s')
  {
    hide EtaPair, Same;
    if EtaPair(sc, lets, infer, t, s) {
      EtaPairSame(sc, lets, infer, t, s, t', s');
    } else {
      EtaPairSame(sc, lets, infer, s, t, s', t');
    }
  }

  /** Nothing is left to do at either head, nor do the easy tests or arithmetic apply. */
  lemma {:induction false} EtaStops(sc: Scope, lets: Lets, infer: InferFn, t: Expr, s: Expr)
    requires EtaEither(sc, lets, infer, t, s)
    ensures Contract(sc.lctx, t).None? && Contract(sc.lctx, s).None? && !BothBind(t, s) && !(t.Sort? && s.Sort?) && !(t.Lit? && s.Lit?)
    ensures (AppFn(t).Proj? ==> Frozen(sc, AppFn(t))) && (AppFn(s).Proj? ==> Frozen(sc, AppFn(s)))
    ensures Inert(sc.env, t) && Inert(sc.env, s)
  {
    hide PiTyped, Joined, Rests;
    if t.Lambda? && Rests(sc, AppFn(s)) {
      RestInert(sc, s);
    } else {
      RestInert(sc, t);
    }
  }

  lemma {:induction false} RestInert(sc: Scope, t: Expr)
    requires Rests(sc, AppFn(t))
    ensures Contract(sc.lctx, t).None? && Inert(sc.env, t) && !t.Lambda? && !t.Pi? && !t.Sort? && !t.Lit?
    ensures AppFn(t).Proj? ==> Frozen(sc, AppFn(t))
  {
    hide Rests;
    RestStops(sc, t);
    RestsCases(sc, AppFn(t));
    ArithmeticHead(sc.env, t);
  }

  lemma {:induction false} EtaMeetsNow(sc: Scope, lets: Lets, infer: InferFn, t: Expr, s: Expr)
    requires EtaEither(sc, lets, infer, t, s)
    ensures EtaMeets(sc, lets, infer, t, s)
  {
    hide EtaEither;
    assert Path(sc.lctx, 0, t, t) && Path(sc.lctx, 0, s, s);
  }

  /** Where both sides land they are such a pair. */
  lemma {:induction false} EtaLands(sc: Scope, lets: Lets, infer: InferFn, t: Expr, s: Expr, t': Expr, s': Expr)
    requires EtaMeets(sc, lets, infer, t, s) && Lands(sc, t, t') && Lands(sc, s, s')
    requires Contract(sc.lctx, t').None? && Contract(sc.lctx, s').None?
    ensures EtaEither(sc, lets, infer, t', s')
  {
    hide Path, EtaEither, Lands, Frozen, Same, Contract, Inert;
    var m: nat, n: nat, t1, s1 :| Path(sc.lctx, m, t, t1) && Path(sc.lctx, n, s, s1) && EtaEither(sc, lets, infer, t1, s1);
    EtaStops(sc, lets, infer, t1, s1);
    LandsAt(sc, t, t', m, t1);
    LandsAt(sc, s, s', n, s1);
    SameSymm(t', t1);
    SameSymm(s', s1);
    EtaEitherSame(sc, lets, infer, t1, s1, t', s');
  }

  /** A pair without contractions is one already. */
  lemma {:induction false} EtaSettled(sc: Scope, lets: Lets, infer: InferFn, t: Expr, s: Expr)
    requires EtaMeets(sc, lets, infer, t, s) && Contract(sc.lctx, t).None? && Contract(sc.lctx, s).None?
    ensures EtaEither(sc, lets, infer, t, s)
  {
    hide EtaMeets, EtaEither;
    LandsSelf(sc, t, t);
    LandsSelf(sc, s, s);
    EtaLands(sc, lets, infer, t, s, t, s);
  }

  lemma {:induction false} EtaInner(sc: Scope, lets: Lets, infer: InferFn, t: Expr, s: Expr)
    requires EtaMeets(sc, lets, infer, t, s) && t.MData? && s.MData?
    ensures EtaMeets(sc, lets, infer, t.inner, s.inner)
  {
    hide EtaEither;
    var m: nat, n: nat, t1, s1 :| Path(sc.lctx, m, t, t1) && Path(sc.lctx, n, s, s1) && EtaEither(sc, lets, infer, t1, s1);
    EtaStops(sc, lets, infer, t1, s1);
    if m == 0 { ContractSame(sc.lctx, t, t1); }
    if n == 0 { ContractSame(sc.lctx, s, s1); }
    assert Path(sc.lctx, m - 1, t.inner, t1) && Path(sc.lctx, n - 1, s.inner, s1);
  }

  /** The function and the eta expansion are joined. */
  lemma {:induction false} EtaJoined(sc: Scope, t: Expr, r: Expr)
    requires BothBind(t, r) && Joined(sc, t.domain, r.domain) && Joined(sc, t.body, r.body)
    ensures Joined(sc, t, r)
  {
    hide JoinedBy;
    var jd :| JoinedBy(sc, jd, t.domain, r.domain);
    var jb :| JoinedBy(sc, jb, t.body, r.body);
    assert Meets(sc, false, JBind(jd, jb), t, r);
    MeetsJoined(sc, false, JBind(jd, jb), t, r);
  }
}
