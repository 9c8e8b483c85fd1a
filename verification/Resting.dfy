/** Terms at rest: nothing is left to do at the head, neither a contraction nor an unfolding nor a
    projection, whatever mode `whnf_core` runs in (kernel/type_checker.cpp, lines 376-504). */
module Resting {
  import opened Names
  import opened Prelude
  import opened Exprs
  import opened DeBruijn
  import opened ExprFacts
  import opened Congruence
  import opened Conversion
  import opened ConversionFacts
  import opened HeadPaths
  import Beta

  datatype Scope = Scope(env: Environment, lctx: LocalCtx)

  /** A constant that plays no part in literal arithmetic. */
  predicate Ordinary(env: Environment, n: Name) {
    n !in env.natOps && n != NAT_SUCC.name && n != NAT_ZERO.name
  }

  /** A variable without a value, or a constant that is only a name. */
  predicate RigidHead(sc: Scope, h: Expr) {
    h.BVar? || (h.FVar? && !LetBound(sc.lctx, h.fvar)) || (h.Const? && Ordinary(sc.env, h.name) && h.name !in sc.env.defs)
  }

  /** A rigid head, or a projection whose structure comes to rest and is no constructor application
      with that field; `d` bounds how deep projections are nested. */
  ghost predicate RestsAt(d: nat, sc: Scope, h: Expr)
    decreases d, 1
  {
    RigidHead(sc, h) || (d > 0 && h.Proj? && exists n: nat, v :: Path(sc.lctx, n, h.struct, v) && HoldsAt(d - 1, sc, h.pidx, v))
  }

  ghost predicate HoldsAt(d: nat, sc: Scope, idx: nat, v: Expr)
    decreases d, 2
  {
    RestsAt(d, sc, AppFn(v)) && !HasField(sc.env, v, idx)
  }

  ghost predicate Rests(sc: Scope, h: Expr) {
    exists d: nat :: RestsAt(d, sc, h)
  }

  ghost predicate Frozen(sc: Scope, h: Expr) {
    h.Proj? && Rests(sc, h)
  }

  lemma {:induction false} RigidRests(sc: Scope, h: Expr)
    requires RigidHead(sc, h)
    ensures Rests(sc, h)
  {
    assert RestsAt(0, sc, h);
  }

  lemma {:induction false} RestsCases(sc: Scope, h: Expr)
    requires Rests(sc, h)
    ensures RigidHead(sc, h) || Frozen(sc, h)
  {
    var d: nat :| RestsAt(d, sc, h);
  }

  /** Where the structure of a frozen projection comes to rest. */
  lemma {:induction false} FrozenStruct(sc: Scope, h: Expr) returns (n: nat, v: Expr)
    requires Frozen(sc, h)
    ensures Path(sc.lctx, n, h.struct, v) && Rests(sc, AppFn(v)) && !HasField(sc.env, v, h.pidx)
  {
    hide Path, HasField;
    var d: nat :| RestsAt(d, sc, h);
    n, v :| Path(sc.lctx, n, h.struct, v) && HoldsAt(d - 1, sc, h.pidx, v);
    assert RestsAt(d - 1, sc, AppFn(v));
  }

  lemma {:induction false} RestStops(sc: Scope, e: Expr)
    requires Rests(sc, AppFn(e))
    ensures Contract(sc.lctx, e).None?
  {
    RestsCases(sc, AppFn(e));
    HeadStops(sc.lctx, e);
  }

  lemma {:induction false} HeadStops(lctx: LocalCtx, e: Expr)
    requires var h := AppFn(e); h.BVar? || (h.FVar? && !LetBound(lctx, h.fvar)) || h.Const? || h.Proj?
    ensures Contract(lctx, e).None?
  {
    if e.App? { HeadStops(lctx, e.fn); }
  }

  // ---------------------------------------------------------------- binder names and contexts

  lemma {:induction false} HasFieldSame(env: Environment, c: Expr, c': Expr, idx: nat)
    requires Same(c, c')
    ensures HasField(env, c, idx) <==> HasField(env, c', idx)
  {
    SameHead(c, c');
  }

  lemma {:induction false} RestsAtSame(d: nat, sc: Scope, h: Expr, g: Expr)
    requires Same(h, g) && RestsAt(d, sc, h)
    ensures RestsAt(d, sc, g)
  {
    hide Path, HasField, HoldsAt;
    if !RigidHead(sc, h) {
      var n: nat, v :| Path(sc.lctx, n, h.struct, v) && HoldsAt(d - 1, sc, h.pidx, v);
      assert Same(h.struct, g.struct);
      PathSame(sc.lctx, n, h.struct, v, g.struct, v);
    }
  }

  lemma {:induction false} RestsSame(sc: Scope, h: Expr, g: Expr)
    requires Same(h, g) && Rests(sc, h)
    ensures Rests(sc, g)
  {
    var d: nat :| RestsAt(d, sc, h);
    RestsAtSame(d, sc, h, g);
  }

  lemma {:induction false} RestsAtCtx(d: nat, env: Environment, a: LocalCtx, b: LocalCtx, h: Expr)
    requires SameLets(a, b) && RestsAt(d, Scope(env, a), h)
    ensures RestsAt(d, Scope(env, b), h)
    decreases d
  {
    hide Path, HasField;
    if !RigidHead(Scope(env, a), h) {
      var n: nat, v :| Path(a, n, h.struct, v) && HoldsAt(d - 1, Scope(env, a), h.pidx, v);
      PathCtx(a, b, n, h.struct, v);
      RestsAtCtx(d - 1, env, a, b, AppFn(v));
      assert HoldsAt(d - 1, Scope(env, b), h.pidx, v);
    }
  }

  lemma {:induction false} RestsCtx(env: Environment, a: LocalCtx, b: LocalCtx, h: Expr)
    requires SameLets(a, b) && Rests(Scope(env, a), h)
    ensures Rests(Scope(env, b), h)
  {
    var d: nat :| RestsAt(d, Scope(env, a), h);
    RestsAtCtx(d, env, a, b, h);
  }

  // ---------------------------------------------------------------- new variables

  ghost predicate ValuesScoped(lctx: LocalCtx, known: iset<Name>) {
    forall y :: LetBound(lctx, y) ==> Scoped(lctx[y].value.value, known)
  }

  lemma {:induction false} ContractScoped(lctx: LocalCtx, e: Expr, known: iset<Name>)
    requires ValuesScoped(lctx, known) && Scoped(e, known) && Contract(lctx, e).Some?
    ensures Scoped(Contract(lctx, e).value, known)
  {
    match e
    case App(f, a) => if f.Lambda? { BetaScoped(e, Inst(f.body, 0, [a]), known); } else { ContractScoped(lctx, f, known); }
    case Let(_, _, v, b, _) => BetaScoped(e, Inst(b, 0, [v]), known);
    case _ =>
  }

  lemma {:induction false} PathScoped(lctx: LocalCtx, n: nat, e: Expr, r: Expr, known: iset<Name>)
    requires ValuesScoped(lctx, known) && Scoped(e, known) && Path(lctx, n, e, r)
    ensures Scoped(r, known)
    decreases n
  {
    if n == 0 {
      EraseFacts(e);
      EraseFacts(r);
    } else {
      ContractScoped(lctx, e, known);
      PathScoped(lctx, n - 1, Contract(lctx, e).value, r, known);
    }
  }

  /** A variable that cannot occur makes no difference. */
  lemma {:induction false} PathNew(lctx: LocalCtx, z: Name, decl: LocalDecl, n: nat, e: Expr, r: Expr, known: iset<Name>)
    requires ValuesScoped(lctx, known) && Scoped(e, known) && z !in known
    ensures Path(lctx, n, e, r) <==> Path(lctx[z := decl], n, e, r)
    decreases n
  {
    if n > 0 {
      ContractCtx(lctx, lctx[z := decl], e);
      if Contract(lctx, e).Some? {
        ContractScoped(lctx, e, known);
        PathNew(lctx, z, decl, n - 1, Contract(lctx, e).value, r, known);
      }
    }
  }

  lemma {:induction false} HeadScoped(e: Expr, known: iset<Name>)
    requires Scoped(e, known)
    ensures Scoped(AppFn(e), known)
  {
    if e.App? {
      assert FVars(e.fn) <= FVars(e);
      HeadScoped(e.fn, known);
    }
  }

  lemma {:induction false} RestsAtNew(d: nat, env: Environment, lctx: LocalCtx, z: Name, decl: LocalDecl, h: Expr, known: iset<Name>)
    requires ValuesScoped(lctx, known) && Scoped(h, known) && z !in known && RestsAt(d, Scope(env, lctx[z := decl]), h)
    ensures RestsAt(d, Scope(env, lctx), h)
    decreases d
  {
    hide Path, HasField, ValuesScoped;
    var a := lctx[z := decl];
    if !RigidHead(Scope(env, a), h) {
      var n: nat, v :| Path(a, n, h.struct, v) && HoldsAt(d - 1, Scope(env, a), h.pidx, v);
      PathNew(lctx, z, decl, n, h.struct, v, known);
      PathScoped(lctx, n, h.struct, v, known);
      HeadScoped(v, known);
      RestsAtNew(d - 1, env, lctx, z, decl, AppFn(v), known);
      assert HoldsAt(d - 1, Scope(env, lctx), h.pidx, v);
    }
  }

  lemma {:induction false} RestsNew(env: Environment, lctx: LocalCtx, z: Name, decl: LocalDecl, h: Expr, known: iset<Name>)
    requires ValuesScoped(lctx, known) && Scoped(h, known) && z !in known && Rests(Scope(env, lctx[z := decl]), h)
    ensures Rests(Scope(env, lctx), h)
  {
    var d: nat :| RestsAt(d, Scope(env, lctx[z := decl]), h);
    RestsAtNew(d, env, lctx, z, decl, h, known);
  }

  // ---------------------------------------------------------------- where paths lead

  /** The contractions of `e` bring a projection to the head that is not frozen. */
  ghost predicate MeetsProj(sc: Scope, e: Expr) {
    exists n: nat, u :: Path(sc.lctx, n, e, u) && AppFn(u).Proj? && !Frozen(sc, AppFn(u))
  }

  /** `r` is where the contractions of `e` lead, unless they bring a projection to the head that may
      be reduced. */
  ghost predicate Lands(sc: Scope, e: Expr, r: Expr) {
    MeetsProj(sc, e) || exists n: nat :: Path(sc.lctx, n, e, r)
  }

  lemma {:induction false} LandsSelf(sc: Scope, e: Expr, r: Expr)
    requires Same(e, r)
    ensures Lands(sc, e, r)
  {
    assert Path(sc.lctx, 0, e, r);
  }

  lemma {:induction false} LandsSame(sc: Scope, e: Expr, r: Expr, e': Expr, r': Expr)
    requires Lands(sc, e, r) && Same(e, e') && Same(r, r')
    ensures Lands(sc, e', r')
  {
    hide Path, Frozen;
    if MeetsProj(sc, e) {
      var n: nat, u :| Path(sc.lctx, n, e, u) && AppFn(u).Proj? && !Frozen(sc, AppFn(u));
      PathSame(sc.lctx, n, e, u, e', u);
    } else {
      var n: nat :| Path(sc.lctx, n, e, r);
      PathSame(sc.lctx, n, e, r, e', r');
    }
  }

  /** Going on from a term on the path. */
  lemma {:induction false} LandsTrans(sc: Scope, e: Expr, t: Expr, r: Expr)
    requires Lands(sc, e, t) && Lands(sc, t, r)
    ensures Lands(sc, e, r)
  {
    hide Path, Frozen;
    if !MeetsProj(sc, e) {
      var m: nat :| Path(sc.lctx, m, e, t);
      if MeetsProj(sc, t) {
        var n: nat, u :| Path(sc.lctx, n, t, u) && AppFn(u).Proj? && !Frozen(sc, AppFn(u));
        PathTrans(sc.lctx, m, n, e, t, u);
      } else {
        var n: nat :| Path(sc.lctx, n, t, r);
        PathTrans(sc.lctx, m, n, e, t, r);
      }
    }
  }

  lemma {:induction false} LandsStep(sc: Scope, e: Expr, t: Expr)
    requires Contract(sc.lctx, e) == Some(t)
    ensures Lands(sc, e, t)
  {
    assert Path(sc.lctx, 0, t, t);
    assert Path(sc.lctx, 1, e, t);
  }

  lemma {:induction false} LandsProj(sc: Scope, e: Expr, r: Expr)
    requires AppFn(e).Proj? && !Frozen(sc, AppFn(e))
    ensures Lands(sc, e, r)
  {
    assert Path(sc.lctx, 0, e, e);
  }

  lemma {:induction false} LandsRevApp(sc: Scope, e: Expr, r: Expr, rev: seq<Expr>)
    requires Lands(sc, e, r)
    ensures Lands(sc, MkRevApp(e, rev), MkRevApp(r, rev))
  {
    hide Path, Frozen;
    if MeetsProj(sc, e) {
      var n: nat, u :| Path(sc.lctx, n, e, u) && AppFn(u).Proj? && !Frozen(sc, AppFn(u));
      PathRevApp(sc.lctx, n, e, u, rev);
      RevAppHead(u, rev);
    } else {
      var n: nat :| Path(sc.lctx, n, e, r);
      PathRevApp(sc.lctx, n, e, r, rev);
    }
  }

  lemma {:induction false} LandsIter(sc: Scope, f: Expr, args: seq<Expr>, m: nat)
    requires m <= |args| && m <= Beta.LambdaCount(f)
    ensures Lands(sc, MkApp(f, args), Beta.BetaIter(f, args, m))
  {
    IterPath(sc.lctx, f, args, m);
  }

  /** Without contractions left a path that lands ends in the same place as every other. */
  lemma {:induction false} LandsAt(sc: Scope, e: Expr, r: Expr, n: nat, u: Expr)
    requires Lands(sc, e, r) && Contract(sc.lctx, r).None?
    requires Path(sc.lctx, n, e, u) && Contract(sc.lctx, u).None? && (AppFn(u).Proj? ==> Frozen(sc, AppFn(u)))
    ensures Same(r, u)
  {
    hide Frozen, Erase;
    if MeetsProj(sc, e) {
      var m: nat, w :| Path(sc.lctx, m, e, w) && AppFn(w).Proj? && !Frozen(sc, AppFn(w));
      ProjStops(sc.lctx, w);
      PathUnique(sc.lctx, m, n, e, w, u);
      ThawedSame(sc, w, u);
    } else {
      var m: nat :| Path(sc.lctx, m, e, r);
      PathUnique(sc.lctx, m, n, e, r, u);
    }
  }

  lemma {:induction false} ThawedSame(sc: Scope, w: Expr, u: Expr)
    requires Same(w, u) && AppFn(w).Proj? && !Frozen(sc, AppFn(w))
    ensures AppFn(u).Proj? && !Frozen(sc, AppFn(u))
  {
    hide Rests;
    SameHead(w, u);
    if Rests(sc, AppFn(u)) { RestsSame(sc, AppFn(u), AppFn(w)); }
  }

  lemma {:induction false} LandsCtx(env: Environment, a: LocalCtx, b: LocalCtx, e: Expr, r: Expr)
    requires SameLets(a, b) && Lands(Scope(env, a), e, r)
    ensures Lands(Scope(env, b), e, r)
  {
    hide Path, Rests, SameLets;
    SameLetsSymm(a, b);
    if MeetsProj(Scope(env, a), e) {
      var n: nat, u :| Path(a, n, e, u) && AppFn(u).Proj? && !Frozen(Scope(env, a), AppFn(u));
      PathCtx(a, b, n, e, u);
      if Rests(Scope(env, b), AppFn(u)) { RestsCtx(env, b, a, AppFn(u)); }
    } else {
      var n: nat :| Path(a, n, e, r);
      PathCtx(a, b, n, e, r);
    }
  }

  lemma {:induction false} LandsNew(env: Environment, lctx: LocalCtx, z: Name, decl: LocalDecl, e: Expr, r: Expr, known: iset<Name>)
    requires ValuesScoped(lctx, known) && Scoped(e, known) && z !in known && Lands(Scope(env, lctx), e, r)
    ensures Lands(Scope(env, lctx[z := decl]), e, r)
  {
    hide Path, ValuesScoped, Scoped, Rests;
    var a := lctx[z := decl];
    if MeetsProj(Scope(env, lctx), e) {
      var n: nat, u :| Path(lctx, n, e, u) && AppFn(u).Proj? && !Frozen(Scope(env, lctx), AppFn(u));
      PathNew(lctx, z, decl, n, e, u, known);
      PathScoped(lctx, n, e, u, known);
      HeadScoped(u, known);
      if Rests(Scope(env, a), AppFn(u)) { RestsNew(env, lctx, z, decl, AppFn(u), known); }
    } else {
      var n: nat :| Path(lctx, n, e, r);
      PathNew(lctx, z, decl, n, e, r, known);
    }
  }

  // ---------------------------------------------------------------- where everything stops

  /** `r` is where contractions bring `e` to rest, if they do. */
  ghost predicate Settles(sc: Scope, e: Expr, r: Expr) {
    forall n: nat, v :: Path(sc.lctx, n, e, v) && Rests(sc, AppFn(v)) ==> Same(r, v)
  }

  lemma {:induction false} SettlesSame(sc: Scope, e: Expr, e': Expr, r: Expr)
    requires Same(e, e') && Settles(sc, e, r)
    ensures Settles(sc, e', r)
  {
    hide Path, Rests;
    forall n: nat, v | Path(sc.lctx, n, e', v) && Rests(sc, AppFn(v)) ensures Same(r, v) { PathSame(sc.lctx, n, e', v, e, v); }
  }

  lemma {:induction false} SettlesCtx(env: Environment, a: LocalCtx, b: LocalCtx, e: Expr, r: Expr)
    requires SameLets(a, b) && SameLets(b, a) && Settles(Scope(env, a), e, r)
    ensures Settles(Scope(env, b), e, r)
  {
    hide Path, Rests, SameLets;
    forall n: nat, v | Path(b, n, e, v) && Rests(Scope(env, b), AppFn(v)) ensures Same(r, v) {
      PathCtx(b, a, n, e, v);
      RestsCtx(env, b, a, AppFn(v));
    }
  }

  lemma {:induction false} SettlesNew(env: Environment, lctx: LocalCtx, z: Name, decl: LocalDecl, e: Expr, r: Expr, known: iset<Name>)
    requires ValuesScoped(lctx, known) && Scoped(e, known) && z !in known && Settles(Scope(env, lctx), e, r)
    ensures Settles(Scope(env, lctx[z := decl]), e, r)
  {
    hide Path, ValuesScoped, Scoped, Rests;
    var a := lctx[z := decl];
    forall n: nat, v | Path(a, n, e, v) && Rests(Scope(env, a), AppFn(v)) ensures Same(r, v) {
      PathNew(lctx, z, decl, n, e, v, known);
      PathScoped(lctx, n, e, v, known);
      HeadScoped(v, known);
      RestsNew(env, lctx, z, decl, AppFn(v), known);
    }
  }

  /** A path that lands settles. */
  lemma {:induction false} LandsSettles(sc: Scope, e: Expr, r: Expr)
    requires Lands(sc, e, r) && Contract(sc.lctx, r).None?
    ensures Settles(sc, e, r)
  {
    hide Path, Lands, Rests;
    forall n: nat, v | Path(sc.lctx, n, e, v) && Rests(sc, AppFn(v)) ensures Same(r, v) {
      RestStops(sc, v);
      LandsAt(sc, e, r, n, v);
    }
  }

  lemma {:induction false} SettlesStep(sc: Scope, e: Expr, t: Expr, r: Expr)
    requires Contract(sc.lctx, e) == Some(t) && Settles(sc, t, r)
    ensures Settles(sc, e, r)
  {
    hide Rests, Erase;
    forall n: nat, v | Path(sc.lctx, n, e, v) && Rests(sc, AppFn(v)) ensures Same(r, v) {
      RestStops(sc, v);
      if n == 0 { ContractSame(sc.lctx, e, v); }
      assert Path(sc.lctx, n - 1, t, v);
    }
  }

  /** The structure of a frozen projection settles on a term without the field. */
  lemma {:induction false} FrozenField(sc: Scope, p: Expr, c: Expr)
    requires p.Proj? && Settles(sc, p.struct, c) && HasField(sc.env, c, p.pidx)
    ensures !Frozen(sc, p)
  {
    hide Path, Rests, HasField;
    if Rests(sc, p) {
      var n, v := FrozenStruct(sc, p);
      HasFieldSame(sc.env, c, v, p.pidx);
    }
  }

  /** The head is no constant with a value. */
  predicate Undefined(env: Environment, t: Expr) {
    AppFn(t).Const? ==> AppFn(t).name !in env.defs
  }

  /** The structure itself is no constructor application with the field, and no constant with a value. */
  lemma {:induction false} FrozenStays(sc: Scope, p: Expr)
    requires Frozen(sc, p)
    ensures !HasField(sc.env, p.struct, p.pidx)
    ensures Undefined(sc.env, p.struct)
  {
    hide Rests, HasField;
    var n, v := FrozenStruct(sc, p);
    if n == 0 {
      HasFieldSame(sc.env, p.struct, v, p.pidx);
      SameHead(p.struct, v);
      RestsSame(sc, AppFn(v), AppFn(p.struct));
      RestsCases(sc, AppFn(p.struct));
    } else {
      if AppFn(p.struct).Const? { HeadStops(sc.lctx, p.struct); }
      NoConstNoField(sc.env, p.struct, p.pidx);
    }
  }

  lemma {:induction false} NoConstNoField(env: Environment, c: Expr, idx: nat)
    requires !AppFn(c).Const?
    ensures !HasField(env, c, idx)
  {
  }

  // ---------------------------------------------------------------- how deep `whnf_core` goes

  function FuelFor(n: nat, e: Expr): nat {
    2 * n + if e.App? then 2 else 1
  }

  /** The contractions of `e` end without a projection at the head, and `fuel` covers them. */
  ghost predicate Enough(lctx: LocalCtx, fuel: nat, e: Expr) {
    exists n: nat, v :: EnoughFor(lctx, fuel, e, n, v)
  }

  ghost predicate EnoughFor(lctx: LocalCtx, fuel: nat, e: Expr, n: nat, v: Expr) {
    Path(lctx, n, e, v) && Contract(lctx, v).None? && !AppFn(v).Proj? && fuel >= FuelFor(n, e)
  }

  lemma {:induction false} EnoughIntro(lctx: LocalCtx, fuel: nat, e: Expr, n: nat, v: Expr)
    requires EnoughFor(lctx, fuel, e, n, v)
    ensures Enough(lctx, fuel, e)
  {
  }

  lemma {:induction false} EnoughStep(lctx: LocalCtx, fuel: nat, e: Expr, t: Expr)
    requires Enough(lctx, fuel, e) && Contract(lctx, e) == Some(t) && !e.App?
    ensures fuel > 0 && Enough(lctx, fuel - 1, t)
  {
    hide Erase;
    var n: nat, v :| EnoughFor(lctx, fuel, e, n, v);
    if n == 0 { ContractSame(lctx, e, v); }
    assert EnoughFor(lctx, fuel - 1, t, n - 1, v);
  }

  lemma {:induction false} NoProjEnough(lctx: LocalCtx, fuel: nat, e: Expr)
    requires e.Proj?
    ensures !Enough(lctx, fuel, e)
  {
    forall n: nat, v ensures !EnoughFor(lctx, fuel, e, n, v) {
      if EnoughFor(lctx, fuel, e, n, v) { ProjSame(e, v); }
    }
  }

  lemma {:induction false} ProjSame(a: Expr, b: Expr)
    requires Same(a, b)
    ensures AppFn(a).Proj? <==> AppFn(b).Proj?
  {
    SameHead(a, b);
  }

  /** The head alone, and what is left when it has been reduced to `f1`. */
  lemma {:induction false} EnoughSplit(sc: Scope, fuel: nat, f: Expr, rev: seq<Expr>, n: nat, v: Expr) returns (j: nat, g: Expr)
    requires rev != [] && !f.App? && EnoughFor(sc.lctx, fuel, MkRevApp(f, rev), n, v)
    ensures j <= n && EnoughFor(sc.lctx, fuel - 1, f, j, g) && Path(sc.lctx, n - j, MkRevApp(g, rev), v)
  {
    hide Path, Erase;
    j, g := PathSplit(sc.lctx, n, f, rev, v);
    if AppFn(g).Proj? {
      RevAppHead(g, rev);
      ProjStops(sc.lctx, MkRevApp(g, rev));
      StuckPath(sc.lctx, n - j, MkRevApp(g, rev), v);
      ProjSame(MkRevApp(g, rev), v);
    }
  }

  lemma {:induction false} StuckPath(lctx: LocalCtx, n: nat, e: Expr, v: Expr)
    requires Path(lctx, n, e, v) && Contract(lctx, e).None?
    ensures Same(e, v)
  {
  }

  lemma {:induction false} EnoughHead(sc: Scope, fuel: nat, f: Expr, rev: seq<Expr>)
    requires rev != [] && !f.App? && Enough(sc.lctx, fuel, MkRevApp(f, rev))
    ensures fuel > 0 && Enough(sc.lctx, fuel - 1, f)
  {
    hide EnoughFor;
    var n: nat, v :| EnoughFor(sc.lctx, fuel, MkRevApp(f, rev), n, v);
    var j, g := EnoughSplit(sc, fuel, f, rev, n, v);
    FuelPositive(sc.lctx, fuel, MkRevApp(f, rev), n, v);
    EnoughIntro(sc.lctx, fuel - 1, f, j, g);
  }

  lemma {:induction false} FuelPositive(lctx: LocalCtx, fuel: nat, e: Expr, n: nat, v: Expr)
    requires EnoughFor(lctx, fuel, e, n, v)
    ensures fuel > 0
  {
  }

  /** At least one contraction at or below the head was done: enough is left for the rest. */
  lemma {:induction false} EnoughRest(sc: Scope, fuel: nat, f: Expr, rev: seq<Expr>, f1: Expr, m: nat, t: Expr)
    requires rev != [] && !f.App? && Enough(sc.lctx, fuel, MkRevApp(f, rev))
    requires Lands(sc, f, f1) && Contract(sc.lctx, f1).None? && Path(sc.lctx, m, MkRevApp(f1, rev), t)
    requires m > 0 || !Same(f1, f)
    ensures fuel > 0 && Enough(sc.lctx, fuel - 1, t)
  {
    hide Path, Erase, Lands;
    var n: nat, v :| EnoughFor(sc.lctx, fuel, MkRevApp(f, rev), n, v);
    var j, g := EnoughSplit(sc, fuel, f, rev, n, v);
    LandsAt(sc, f, f1, j, g);
    if j == 0 { PathStart(sc.lctx, f, g); SameBoth(f, g, f1); }
    SameRevApp(g, f1, rev);
    PathSame(sc.lctx, n - j, MkRevApp(g, rev), v, MkRevApp(f1, rev), v);
    PathSuffix(sc.lctx, m, n - j, MkRevApp(f1, rev), t, v);
    EnoughLeft(sc.lctx, fuel, MkRevApp(f, rev), n, t, n - j - m, v);
  }

  lemma {:induction false} PathStart(lctx: LocalCtx, e: Expr, r: Expr)
    requires Path(lctx, 0, e, r)
    ensures Same(e, r)
  {
  }

  lemma {:induction false} SameBoth(f: Expr, g: Expr, f1: Expr)
    requires Same(f, g) && Same(f1, g)
    ensures Same(f1, f)
  {
  }

  lemma {:induction false} SameRevApp(g: Expr, f: Expr, rev: seq<Expr>)
    requires Same(f, g)
    ensures Same(MkRevApp(g, rev), MkRevApp(f, rev))
  {
    if rev != [] { SameRevApp(g, f, rev[1..]); }
  }

  lemma {:induction false} EnoughLeft(lctx: LocalCtx, fuel: nat, e: Expr, n: nat, t: Expr, left: nat, v: Expr)
    requires EnoughFor(lctx, fuel, e, n, v) && e.App? && left < n && Path(lctx, left, t, v)
    ensures fuel > 0 && Enough(lctx, fuel - 1, t)
  {
    hide Path;
    assert EnoughFor(lctx, fuel - 1, t, left, v);
  }
}
