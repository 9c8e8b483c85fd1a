/** Scoping of reduction, and why comparing two bodies under a fresh variable is enough. */
module ConversionFacts {
  import opened Names
  import opened Prelude
  import opened Exprs
  import opened DeBruijn
  import opened ExprFacts
  import opened Congruence
  import opened Conversion

  /** Values of constants are closed terms. */
  ghost predicate EnvOk(env: Environment) {
    forall c :: c in env.defs ==> LooseRange(env.defs[c].value) == 0 && FVars(env.defs[c].value) == {}
  }

  /** `e` has no loose index and only variables from `known`. */
  ghost predicate Scoped(e: Expr, known: iset<Name>) {
    LooseRange(e) == 0 && forall x :: x in FVars(e) ==> x in known
  }

  ghost predicate LetsScoped(lets: Lets, known: iset<Name>) {
    forall y :: y in lets ==> Scoped(lets[y], known)
  }

  lemma {:induction false} SpineScoped(e: Expr, known: iset<Name>)
    requires Scoped(e, known)
    ensures Scoped(AppFn(e), known)
    ensures forall i :: 0 <= i < |AppArgs(e)| ==> Scoped(AppArgs(e)[i], known)
  {
    if e.App? { SpineScoped(e.fn, known); }
  }

  lemma {:induction false} InstScoped(b: Expr, a: Expr, known: iset<Name>)
    requires LooseRange(b) <= 1 && Scoped(a, known) && forall x :: x in FVars(b) ==> x in known
    ensures Scoped(Inst(b, 0, [a]), known)
  {
    InstRange(b, [a], 0);
    InstFVars(b, 0, [a]);
  }

  lemma {:induction false} DeltaScoped(env: Environment, t: Expr, s: Expr)
    requires EnvOk(env) && DeltaStep(env, t, s)
    ensures LooseRange(s) == 0 && FVars(s) == {}
  {
    var def := env.defs[t.name];
    var keep :| s == InstLParams(def.value, def.lparams, t.levels, keep);
    InstLParamsScope(def.value, def.lparams, t.levels, keep);
  }

  lemma {:induction false} NatScoped(env: Environment, t: Expr, s: Expr)
    requires NatStep(env, t, s)
    ensures LooseRange(s) == 0 && FVars(s) == {}
  {
  }

  lemma {:induction false} BetaScoped(t: Expr, s: Expr, known: iset<Name>)
    requires (BetaStep(t, s) || LetStep(t, s)) && Scoped(t, known)
    ensures Scoped(s, known)
  {
    if t.App? {
      assert LooseRange(t.fn) == 0 && FVars(t.fn) <= FVars(t);
      InstScoped(t.fn.body, t.arg, known);
    } else {
      InstScoped(t.letBody, t.letValue, known);
    }
  }

  lemma {:induction false} ProjScoped(env: Environment, t: Expr, s: Expr, known: iset<Name>)
    requires ProjStep(env, t, s) && Scoped(t, known)
    ensures Scoped(s, known)
  {
    SpineScoped(t.struct, known);
  }

  lemma {:induction false} StepScoped(env: Environment, lets: Lets, known: iset<Name>, t: Expr, s: Expr)
    requires EnvOk(env) && LetsScoped(lets, known) && ReduceStep(env, lets, t, s) && Scoped(t, known)
    ensures Scoped(s, known)
  {
    if BetaStep(t, s) || LetStep(t, s) {
      BetaScoped(t, s, known);
    } else if NatStep(env, t, s) {
      NatScoped(env, t, s);
    } else if DeltaStep(env, t, s) {
      DeltaScoped(env, t, s);
    } else if ProjStep(env, t, s) {
      ProjScoped(env, t, s, known);
    }
  }

  /** Reduction never introduces a loose index or an unknown variable. */
  lemma {:induction false} RedScoped(env: Environment, lets: Lets, known: iset<Name>, d: RDeriv, t: Expr, s: Expr)
    requires EnvOk(env) && LetsScoped(lets, known) && RDerives(env, lets, d, t, s) && Scoped(t, known)
    ensures Scoped(s, known)
  {
    match d
    case RSame => EraseFacts(t); EraseFacts(s);
    case RStep => StepScoped(env, lets, known, t, s);
    case RTrans(m, d1, d2) => RedScoped(env, lets, known, d1, t, m); RedScoped(env, lets, known, d2, m, s);
    case RFn(d1) => RedScoped(env, lets, known, d1, t.fn, s.fn);
    case RArg(d1) => RedScoped(env, lets, known, d1, t.arg, s.arg);
    case RProj(d1) => RedScoped(env, lets, known, d1, t.struct, s.struct);
  }

  // ---------------------------------------------------------------- passes that respect conversion

  /** What a pass must do for one-step conversion to survive it. */
  ghost predicate Respects(f: (Expr, nat) -> Expr, b: Expr, a: Expr, j: nat) {
    && Map(Inst(b, 0, [a]), j, f) == Inst(Map(b, j + 1, f), 0, [Map(a, j, f)])
    && Map(Lift(a, 0, 1), j + 1, f) == Lift(Map(a, j, f), 0, 1)
    && f(BVar(0), j + 1) == BVar(0)
    && (Atomic(a) && !a.BVar? && !a.FVar? ==> f(a, j) == a)
    && (LooseRange(a) == 0 && FVars(a) == {} ==> Map(a, j, f) == a)
  }

  ghost predicate Respectful(f: (Expr, nat) -> Expr) {
    forall b, a, j: nat :: Respects(f, b, a, j)
  }

  lemma {:induction false} MapSpine(e: Expr, j: nat, f: (Expr, nat) -> Expr)
    requires AppFn(e).Const? && f(AppFn(e), j) == AppFn(e)
    ensures AppFn(Map(e, j, f)) == AppFn(e)
    ensures |AppArgs(Map(e, j, f))| == |AppArgs(e)|
    ensures forall i :: 0 <= i < |AppArgs(e)| ==> AppArgs(Map(e, j, f))[i] == Map(AppArgs(e)[i], j, f)
  {
    if e.App? { MapSpine(e.fn, j, f); }
  }

  /** Where a pass sends a let-variable it must also send the variable's value. */
  ghost predicate LetCarried(R: Rel, lets: Lets, f: (Expr, nat) -> Expr, y: Name, j: nat) {
    y in lets ==> Conv(R, Map(FVar(y), j, f), Map(lets[y], j, f))
  }

  lemma {:induction false} AtomFixed(f: (Expr, nat) -> Expr, a: Expr, k: nat)
    requires Respectful(f) && Atomic(a) && !a.BVar? && !a.FVar?
    ensures Map(a, k, f) == a
  {
    assert Respects(f, a, a, k);
  }

  lemma {:induction false} NatCarries(env: Environment, f: (Expr, nat) -> Expr, k: nat, t: Expr, s: Expr)
    requires Respectful(f) && NatStep(env, t, s)
    ensures Map(t, k, f) == t && Map(s, k, f) == s
  {
    AtomFixed(f, t.arg, k);
    AtomFixed(f, s, k);
    if t.fn == NAT_SUCC {
      AtomFixed(f, t.fn, k);
    } else {
      AtomFixed(f, t.fn.arg, k);
      AtomFixed(f, t.fn.fn, k);
      assert Map(t.fn, k, f) == t.fn;
    }
  }

  lemma {:induction false} ProjCarries(env: Environment, f: (Expr, nat) -> Expr, k: nat, t: Expr, s: Expr)
    requires Respectful(f) && ProjStep(env, t, s)
    ensures ProjStep(env, Map(t, k, f), Map(s, k, f))
  {
    assert Respects(f, t, AppFn(t.struct), k);
    MapSpine(t.struct, k, f);
  }

  lemma {:induction false} BetaCarries(f: (Expr, nat) -> Expr, k: nat, t: Expr, s: Expr)
    requires Respectful(f) && (BetaStep(t, s) || LetStep(t, s))
    ensures BetaStep(Map(t, k, f), Map(s, k, f)) || LetStep(Map(t, k, f), Map(s, k, f))
  {
    if BetaStep(t, s) {
      assert Respects(f, t.fn.body, t.arg, k);
    } else {
      assert Respects(f, t.letBody, t.letValue, k);
    }
  }

  lemma {:induction false} DeltaCarries(env: Environment, f: (Expr, nat) -> Expr, k: nat, t: Expr, s: Expr)
    requires EnvOk(env) && Respectful(f) && DeltaStep(env, t, s)
    ensures Map(t, k, f) == t && Map(s, k, f) == s
  {
    DeltaScoped(env, t, s);
    assert Respects(f, t, t, k) && Respects(f, t, s, k);
  }

  lemma {:induction false} MDataCarries(f: (Expr, nat) -> Expr, k: nat, t: Expr, s: Expr)
    requires MDataStep(t, s)
    ensures MDataStep(Map(t, k, f), Map(s, k, f))
  {
  }

  lemma {:induction false} ReduceCarries(
      env: Environment, lets: Lets, lets2: Lets, f: (Expr, nat) -> Expr, k: nat, t: Expr, s: Expr)
    requires EnvOk(env) && Respectful(f) && ReduceStep(env, lets, t, s)
    requires forall y, j: nat :: LetCarried(StepRel(env, lets2), lets, f, y, j)
    ensures DefEq(env, lets2, Map(t, k, f), Map(s, k, f))
  {
    hide Conv, AppFn, AppArgs, Inst, HasField;
    var R, t', s' := StepRel(env, lets2), Map(t, k, f), Map(s, k, f);
    if FVarStep(lets, t, s) {
      assert LetCarried(R, lets, f, t.fvar, k);
      return;
    } else if DeltaStep(env, t, s) {
      DeltaCarries(env, f, k, t, s);
    } else if BetaStep(t, s) || LetStep(t, s) {
      BetaCarries(f, k, t, s);
    } else if NatStep(env, t, s) {
      NatCarries(env, f, k, t, s);
    } else if ProjStep(env, t, s) {
      ProjCarries(env, f, k, t, s);
    } else {
      MDataCarries(f, k, t, s);
    }
    ConvAxiom(R, t', s');
  }

  lemma {:induction false} LevelCarries(f: (Expr, nat) -> Expr, k: nat, t: Expr, s: Expr)
    requires Respectful(f) && (LevelStep(t, s) || (t == NatLitExpr(0) && s == NAT_ZERO))
    ensures Map(t, k, f) == t && Map(s, k, f) == s
  {
    AtomFixed(f, t, k);
    AtomFixed(f, s, k);
  }

  lemma {:induction false} EtaCarries(f: (Expr, nat) -> Expr, k: nat, t: Expr, s: Expr)
    requires Respectful(f) && EtaStep(t, s)
    ensures EtaStep(Map(t, k, f), Map(s, k, f))
  {
    assert Respects(f, s, s, k);
    assert Map(t.body, k + 1, f) == App(Map(t.body.fn, k + 1, f), f(BVar(0), k + 1));
  }

  /** A respectful pass sends definitionally equal terms to definitionally equal terms. */
  lemma {:induction false} DefEqMap(
      env: Environment, lets: Lets, lets2: Lets, f: (Expr, nat) -> Expr, k: nat, t: Expr, s: Expr)
    requires EnvOk(env) && Respectful(f) && DefEq(env, lets, t, s)
    requires forall y, j: nat :: LetCarried(StepRel(env, lets2), lets, f, y, j)
    ensures DefEq(env, lets2, Map(t, k, f), Map(s, k, f))
  {
    var R, Q := StepRel(env, lets), StepRel(env, lets2);
    forall x, y, j: nat ensures Carries(R, Q, f, j, x, y) {
      if R(x, y) {
        var x', y' := Map(x, j, f), Map(y, j, f);
        if ReduceStep(env, lets, x, y) {
          ReduceCarries(env, lets, lets2, f, j, x, y);
        } else if EtaStep(x, y) {
          EtaCarries(f, j, x, y);
          ConvAxiom(Q, x', y');
        } else {
          assert Step(env, lets, x, y);
          LevelCarries(f, j, x, y);
          ConvAxiom(Q, x', y');
        }
      }
    }
    var d :| Derives(R, d, t, s);
    ConvMap(R, Q, f, d, t, s, k);
  }

  lemma {:induction false} CloseRespectful(x: Name)
    ensures Respectful(CloseLeaf(x))
  {
    var f := CloseLeaf(x);
    forall b, a, j: nat ensures Respects(f, b, a, j) {
      CloseInst(b, 0, a, j, x);
      CloseLift(a, 0, 1, j, x);
      if LooseRange(a) == 0 && FVars(a) == {} {
        RangeLeaves(a, 0, 0, [x]);
        MapFixes(a, Avoiding(0, [x]), Pass(j, f));
      }
    }
  }

  ghost predicate ClosedValues(m: map<Name, Expr>) {
    forall y :: y in m ==> LooseRange(m[y]) == 0
  }

  lemma {:induction false} SubstFixes(e: Expr, j: nat, m: map<Name, Expr>)
    requires forall x :: x in FVars(e) ==> x !in m
    ensures Subst(e, j, m) == e
    decreases e
  {
    match e
    case App(f, a) => SubstFixes(f, j, m); SubstFixes(a, j, m);
    case Lambda(_, t, b) => SubstFixes(t, j, m); SubstFixes(b, j + 1, m);
    case Pi(_, t, b) => SubstFixes(t, j, m); SubstFixes(b, j + 1, m);
    case Let(_, t, v, b, _) => SubstFixes(t, j, m); SubstFixes(v, j, m); SubstFixes(b, j + 1, m);
    case MData(_, x) => SubstFixes(x, j, m);
    case Proj(_, _, x) => SubstFixes(x, j, m);
    case _ =>
  }

  lemma {:induction false} SubstRespects(m: map<Name, Expr>, b: Expr, a: Expr, j: nat)
    ensures Respects(SubstLeaf(m), b, a, j)
  {
    hide Map;
    SubstInst(b, 0, [a], j, m);
    assert SubstAll([a], j, m) == [Subst(a, j, m)];
    SubstLift(a, 0, 1, j, m);
    if LooseRange(a) == 0 && FVars(a) == {} { SubstFixes(a, j, m); }
  }

  lemma {:induction false} SubstRespectful(m: map<Name, Expr>)
    ensures Respectful(SubstLeaf(m))
  {
    forall b, a, j: nat ensures Respects(SubstLeaf(m), b, a, j) {
      SubstRespects(m, b, a, j);
    }
  }

  // ---------------------------------------------------------------- let-variables and fresh binders

  /** One entry of the resolved table. */
  ghost predicate ResolvedAt(env: Environment, lets: Lets, sigma: Lets, y: Name)
    requires y in lets && y in sigma
  {
    && LooseRange(lets[y]) == 0 && LooseRange(sigma[y]) == 0
    && Subst(lets[y], 0, sigma) == sigma[y] && DefEq(env, lets, FVar(y), sigma[y])
  }

  /** `sigma` is `lets` with every let-variable inside the values already replaced. */
  ghost predicate Resolved(env: Environment, lets: Lets, sigma: Lets) {
    && sigma.Keys == lets.Keys
    && (forall y :: y in lets ==> ResolvedAt(env, lets, sigma, y))
  }

  lemma {:induction false} SubstDepth(e: Expr, j: nat, k: nat, m: map<Name, Expr>)
    requires ClosedValues(m)
    ensures Subst(e, j, m) == Subst(e, k, m)
  {
    match e
    case App(f, a) => SubstDepth(f, j, k, m); SubstDepth(a, j, k, m);
    case Lambda(_, t, b) => SubstDepth(t, j, k, m); SubstDepth(b, j + 1, k + 1, m);
    case Pi(_, t, b) => SubstDepth(t, j, k, m); SubstDepth(b, j + 1, k + 1, m);
    case Let(_, t, v, b, _) => SubstDepth(t, j, k, m); SubstDepth(v, j, k, m); SubstDepth(b, j + 1, k + 1, m);
    case MData(_, x) => SubstDepth(x, j, k, m);
    case Proj(_, _, x) => SubstDepth(x, j, k, m);
    case FVar(y) => if y in m { NoLoose(m[y], 0, j, []); NoLoose(m[y], 0, k, []); }
    case _ =>
  }

  lemma {:induction false} SubstAgree(e: Expr, k: nat, m: map<Name, Expr>, z: Name, v: Expr)
    requires z !in FVars(e)
    ensures Subst(e, k, m[z := v]) == Subst(e, k, m)
  {
    match e
    case App(f, a) => SubstAgree(f, k, m, z, v); SubstAgree(a, k, m, z, v);
    case Lambda(_, t, b) => SubstAgree(t, k, m, z, v); SubstAgree(b, k + 1, m, z, v);
    case Pi(_, t, b) => SubstAgree(t, k, m, z, v); SubstAgree(b, k + 1, m, z, v);
    case Let(_, t, w, b, _) => SubstAgree(t, k, m, z, v); SubstAgree(w, k, m, z, v); SubstAgree(b, k + 1, m, z, v);
    case MData(_, x) => SubstAgree(x, k, m, z, v);
    case Proj(_, _, x) => SubstAgree(x, k, m, z, v);
    case _ =>
  }

  /** Replacing let-variables by their values is definitional. */
  lemma {:induction false} ZetaDefEq(env: Environment, lets: Lets, sigma: Lets, e: Expr, k: nat)
    requires Resolved(env, lets, sigma)
    ensures DefEq(env, lets, e, Subst(e, k, sigma))
  {
    var R, s := StepRel(env, lets), Subst(e, k, sigma);
    match e
    case App(f, a) => ZetaDefEq(env, lets, sigma, f, k); ZetaDefEq(env, lets, sigma, a, k); ConvApp(R, e, s);
    case Lambda(_, t, b) =>
      ZetaDefEq(env, lets, sigma, t, k); ZetaDefEq(env, lets, sigma, b, k + 1); ConvBinding(R, e, s);
    case Pi(_, t, b) =>
      ZetaDefEq(env, lets, sigma, t, k); ZetaDefEq(env, lets, sigma, b, k + 1); ConvBinding(R, e, s);
    case Let(_, t, v, b, _) =>
      ZetaDefEq(env, lets, sigma, t, k); ZetaDefEq(env, lets, sigma, v, k);
      ZetaDefEq(env, lets, sigma, b, k + 1); ConvLet(R, e, s);
    case MData(_, x) => ZetaDefEq(env, lets, sigma, x, k); ConvMData(R, e, s);
    case Proj(_, _, x) => ZetaDefEq(env, lets, sigma, x, k); ConvProj(R, e, s);
    case FVar(y) => if y in sigma { NoLoose(sigma[y], 0, k, []); } else { ConvRefl(R, e, s); }
    case _ => ConvRefl(R, e, s);
  }

  /** More let-variables, more equalities. */
  lemma {:induction false} DefEqMono(env: Environment, lets: Lets, lets2: Lets, t: Expr, s: Expr)
    requires DefEq(env, lets, t, s)
    requires forall y :: y in lets ==> y in lets2 && lets2[y] == lets[y]
    ensures DefEq(env, lets2, t, s)
  {
    var R, Q := StepRel(env, lets), StepRel(env, lets2);
    forall x, y | R(x, y) ensures Conv(Q, x, y) {
      assert Step(env, lets, x, y);
      assert Step(env, lets2, x, y);
      ConvAxiom(Q, x, y);
    }
    var d :| Derives(R, d, t, s);
    ConvMono(R, Q, d, t, s);
  }

  /** Definitional equality with let-variables is definitional equality of the expanded terms. */
  lemma {:induction false} DefEqExpand(env: Environment, lets: Lets, sigma: Lets, t: Expr, s: Expr)
    requires EnvOk(env) && Resolved(env, lets, sigma) && DefEq(env, lets, t, s)
    ensures DefEq(env, map[], Subst(t, 0, sigma), Subst(s, 0, sigma))
  {
    var f, Q := SubstLeaf(sigma), StepRel(env, map[]);
    SubstRespectful(sigma);
    forall y, j: nat ensures LetCarried(Q, lets, f, y, j) {
      if y in lets {
        SubstDepth(lets[y], j, 0, sigma);
        NoLoose(sigma[y], 0, j, []);
        ConvRefl(Q, Subst(FVar(y), j, sigma), Subst(lets[y], j, sigma));
      }
    }
    DefEqMap(env, lets, map[], f, 0, t, s);
  }

  /** Two bodies that are definitionally equal once opened with a fresh variable are
      definitionally equal as they stand. */
  lemma {:induction false} BodiesDefEq(env: Environment, b: Expr, c: Expr, x: Name)
    requires EnvOk(env) && x !in FVars(b) && x !in FVars(c)
    requires DefEq(env, map[], Inst(b, 0, [FVar(x)]), Inst(c, 0, [FVar(x)]))
    ensures DefEq(env, map[], b, c)
  {
    CloseRespectful(x);
    var Q := StepRel(env, map[]);
    assert forall y, j: nat :: LetCarried(Q, map[], CloseLeaf(x), y, j);
    DefEqMap(env, map[], map[], CloseLeaf(x), 0, Inst(b, 0, [FVar(x)]), Inst(c, 0, [FVar(x)]));
    OpenThenClose(b, x);
    OpenThenClose(c, x);
  }

  lemma {:induction false} SubstFVars(e: Expr, m: map<Name, Expr>, x: Name)
    requires x !in FVars(e) && forall y :: y in m ==> x !in FVars(m[y])
    ensures x !in FVars(Subst(e, 1, m))
  {
    var s := set y, z | y in m && z in FVars(m[y]) :: z;
    forall l, j: nat | Atomic(l) ensures LeafFVars(SubstLeaf(m), s, l, j) {
      if l.FVar? && l.fvar in m {
        LiftFVars(m[l.fvar], 0, j);
        assert FVars(m[l.fvar]) <= s;
      }
    }
    MapFVars(e, 1, SubstLeaf(m), s);
  }

  lemma {:induction false} SubstOpened(b: Expr, x: Name, m: map<Name, Expr>)
    requires x !in m
    ensures Subst(Inst(b, 0, [FVar(x)]), 0, m) == Inst(Subst(b, 1, m), 0, [FVar(x)])
  {
    SubstInst(b, 0, [FVar(x)], 0, m);
    assert SubstAll([FVar(x)], 0, m) == [FVar(x)];
  }

  /** Terms whose expansions are definitionally equal are definitionally equal. */
  lemma {:induction false} DefEqCollapse(env: Environment, lets: Lets, sigma: Lets, b: Expr, c: Expr, k: nat)
    requires Resolved(env, lets, sigma)
    requires DefEq(env, map[], Subst(b, k, sigma), Subst(c, k, sigma))
    ensures DefEq(env, lets, b, c)
  {
    var R, b', c' := StepRel(env, lets), Subst(b, k, sigma), Subst(c, k, sigma);
    DefEqMono(env, map[], lets, b', c');
    ZetaDefEq(env, lets, sigma, b, k);
    ZetaDefEq(env, lets, sigma, c, k);
    ConvSymm(R, c, c');
    ConvTrans(R, b, b', c');
    ConvTrans(R, b, c', c);
  }

  /** The same in the presence of let-variables whose values do not mention the fresh variable. */
  lemma {:induction false} BinderDefEq(env: Environment, lets: Lets, sigma: Lets, b: Expr, c: Expr, x: Name)
    requires EnvOk(env) && Resolved(env, lets, sigma)
    requires x !in lets && x !in FVars(b) && x !in FVars(c) && forall y :: y in sigma ==> x !in FVars(sigma[y])
    requires DefEq(env, lets, Inst(b, 0, [FVar(x)]), Inst(c, 0, [FVar(x)]))
    ensures DefEq(env, lets, b, c)
  {
    DefEqExpand(env, lets, sigma, Inst(b, 0, [FVar(x)]), Inst(c, 0, [FVar(x)]));
    SubstOpened(b, x, sigma);
    SubstOpened(c, x, sigma);
    SubstFVars(b, sigma, x);
    SubstFVars(c, sigma, x);
    BodiesDefEq(env, Subst(b, 1, sigma), Subst(c, 1, sigma), x);
    DefEqCollapse(env, lets, sigma, b, c, 1);
  }

  lemma {:induction false} SubstClosed(v: Expr, m: map<Name, Expr>)
    requires LooseRange(v) == 0 && ClosedValues(m)
    ensures LooseRange(Subst(v, 0, m)) == 0
  {
    forall l, j: nat | Atomic(l) ensures LeafRange(SubstLeaf(m), 0, 0, 0, l, j) {
      if l.FVar? && l.fvar in m { NoLoose(m[l.fvar], 0, j, []); }
    }
    MapRange(v, 0, SubstLeaf(m), 0, 0, 0);
  }

  lemma {:induction false} NewLetDefEq(env: Environment, lets: Lets, sigma: Lets, z: Name, v: Expr)
    requires Resolved(env, lets, sigma) && z !in lets
    ensures DefEq(env, lets[z := v], FVar(z), Subst(v, 0, sigma))
  {
    var lets2, v' := lets[z := v], Subst(v, 0, sigma);
    ZetaDefEq(env, lets, sigma, v, 0);
    DefEqMono(env, lets, lets2, v, v');
    assert Step(env, lets2, FVar(z), v);
    ConvAxiom(StepRel(env, lets2), FVar(z), v);
    ConvTrans(StepRel(env, lets2), FVar(z), v, v');
  }

  /** Declaring a fresh let-variable keeps `Resolved`. */
  lemma {:induction false} ResolvedKept(env: Environment, lets: Lets, sigma: Lets, z: Name, v: Expr, v': Expr, y: Name)
    requires Resolved(env, lets, sigma) && z !in lets && LooseRange(v') == 0 && y in lets && z !in FVars(lets[y])
    ensures ResolvedAt(env, lets[z := v], sigma[z := v'], y)
  {
    hide DefEq;
    SubstAgree(lets[y], 0, sigma, z, v');
    DefEqMono(env, lets, lets[z := v], FVar(y), sigma[y]);
  }

  lemma {:induction false} ResolvedExtend(env: Environment, lets: Lets, sigma: Lets, z: Name, v: Expr)
    requires Resolved(env, lets, sigma) && z !in lets && LooseRange(v) == 0 && z !in FVars(v)
    requires forall y :: y in lets ==> z !in FVars(lets[y])
    ensures Resolved(env, lets[z := v], sigma[z := Subst(v, 0, sigma)])
  {
    hide DefEq;
    var lets2, v' := lets[z := v], Subst(v, 0, sigma);
    var sigma2 := sigma[z := v'];
    SubstClosed(v, sigma);
    NewLetDefEq(env, lets, sigma, z, v);
    SubstAgree(v, 0, sigma, z, v');
    assert ResolvedAt(env, lets2, sigma2, z);
    forall y | y in lets2 ensures ResolvedAt(env, lets2, sigma2, y) {
      if y != z { ResolvedKept(env, lets, sigma, z, v, v', y); }
    }
  }
}
