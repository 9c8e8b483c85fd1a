/** Weak-head normalisation and definitional equality with caches (kernel/type_checker.cpp).
    `fuel` is the recursion depth `check_system` still allows; running out of it, like any other
    exception, is the outcome `Raised`. */
module TypeChecker {
  import opened Names
  import opened Prelude
  import opened Exprs
  import opened DeBruijn
  import opened ExprFacts
  import opened Congruence
  import opened Conversion
  import opened ConversionFacts
  import opened EquivManagers
  import opened CheckerState
  import opened HeadPaths
  import opened Resting
  import opened Literals
  import opened BindingFacts
  import opened Joins
  import opened EtaJoins
  import Beta
  import L = Levels
  import LN = LevelNormalizer

  datatype Outcome<+T> = Raised | Done(value: T)

  datatype LBool = LTrue | LFalse | LUndef

  datatype Status = Continue | DefUnknown | DefEqual | DefDiff

  const DONT_CARE: Expr := Const([Str("dontcare")], [])

  /** `compare` on reducibility hints: negative unfolds the left side, positive the right one. */
  function CompareHints(h1: Hints, h2: Hints): int {
    match (h1, h2)
    case (Regular(a), Regular(b)) => if a == b then 0 else if a > b then -1 else 1
    case (Opaque, Opaque) => 0
    case (Abbreviation, Abbreviation) => 0
    case (Opaque, _) => 1
    case (_, Opaque) => -1
    case (Abbreviation, _) => -1
    case (_, Abbreviation) => 1
  }

  class Checker {
    const env: Environment
    const eqv: EquivManager
    const inferType: InferFn
    var lctx: LocalCtx
    var nextIdx: nat
    var coreCache: map<Expr, Expr>
    var whnfCache: map<Expr, Expr>
    var failures: set<(Expr, Expr)>
    /** Every let-variable ever declared, with its value, and the resolved table. */
    ghost var lets: Lets
    ghost var sigma: Lets

    ghost predicate Valid()
      reads this, eqv
    {
      && StateOk(env, lets, sigma, nextIdx, lctx, coreCache, whnfCache, eqv.pairs)
      && eqv.Valid() && InferOk(inferType)
    }

    ghost predicate Ok(e: Expr)
      reads this`nextIdx
    {
      Scoped(e, Known(nextIdx))
    }

    constructor (env: Environment, inferType: InferFn, hash: Expr -> nat)
      requires EnvOk(env) && InferOk(inferType) && forall a, b :: Same(a, b) ==> hash(a) == hash(b)
      ensures Valid() && lctx == map[] && lets == map[] && nextIdx == 0
      ensures this.env == env && this.inferType == inferType && fresh(eqv)
    {
      this.env, this.inferType := env, inferType;
      var manager := new EquivManager(hash);
      eqv := manager;
      lctx, nextIdx, coreCache, whnfCache, failures := map[], 0, map[], map[], {};
      lets, sigma := map[], map[];
    }

    /** `mk_local_decl` with a value: the name is fresh, so no let-variable is ever rebound. */
    method MkLetDecl(user: Binder, typ: Expr, value: Expr) returns (x: Expr)
      requires Valid() && Ok(typ) && Ok(value)
      modifies this`lctx, this`nextIdx, this`lets, this`sigma
      ensures Valid() && x == FVar(FreshName(old(nextIdx)))
      ensures FreshName(old(nextIdx)) !in old(lets) && nextIdx == old(nextIdx) + 1
      ensures lets == old(lets)[FreshName(old(nextIdx)) := value]
      ensures lctx == old(lctx)[FreshName(old(nextIdx)) := LocalDecl(user, typ, Some(value))]
    {
      hide StateOk;
      var z := FreshName(nextIdx);
      FreshUnknown(nextIdx);
      NotYetDeclared(z);
      ghost var lets2, sigma2 := lets[z := value], sigma[z := Subst(value, 0, sigma)];
      var lctx2, n2 := lctx[z := LocalDecl(user, typ, Some(value))], nextIdx + 1;
      assert StateOk(env, lets2, sigma2, n2, lctx2, coreCache, whnfCache, eqv.pairs) by {
        DeclareLet(env, lets, sigma, nextIdx, lctx, coreCache, whnfCache, eqv.pairs, user, typ, value);
      }
      x := FVar(z);
      lctx, lets, sigma, nextIdx := lctx2, lets2, sigma2, n2;
    }

    lemma {:induction false} NotYetDeclared(z: Name)
      requires Valid() && z == FreshName(nextIdx)
      ensures z !in lets
    {
      FreshUnknown(nextIdx);
    }

    /** `mk_local_decl` without a value. */
    method MkLocalDecl(user: Binder, typ: Expr) returns (x: Expr)
      requires Valid() && Ok(typ)
      modifies this`lctx, this`nextIdx
      ensures Valid() && x == FVar(FreshName(old(nextIdx))) && nextIdx == old(nextIdx) + 1
      ensures lctx == old(lctx)[FreshName(old(nextIdx)) := LocalDecl(user, typ, None)]
    {
      hide StateOk;
      var z := FreshName(nextIdx);
      FreshUnknown(nextIdx);
      DeclareLocal(env, lets, sigma, nextIdx, lctx, coreCache, whnfCache, eqv.pairs, user, typ);
      x := FVar(z);
      lctx, nextIdx := lctx[z := LocalDecl(user, typ, None)], nextIdx + 1;
    }

    // -------------------------------------------------------------- weak head normal form

    predicate IsLetFVar(e: Expr)
      requires e.FVar?
      reads this`lctx
    {
      e.fvar in lctx && lctx[e.fvar].value.Some?
    }

    function IsDelta(e: Expr): Option<Definition> {
      var f := AppFn(e);
      if f.Const? && f.name in env.defs then Some(env.defs[f.name]) else None
    }

    method UnfoldDefinitionCore(e: Expr) returns (r: Option<Expr>)
      ensures r.Some? ==> Reduces(env, lets, e, r.value) && DeltaStep(env, e, r.value)
      ensures r.Some? <==> e.Const? && e.name in env.defs && |e.levels| == |env.defs[e.name].lparams|
    {
      r := None;
      if e.Const? {
        var d := IsDelta(e);
        if d.Some? && |e.levels| == |d.value.lparams| {
          var keep: L.Level -> bool := *;
          var v := InstLParams(d.value.value, d.value.lparams, e.levels, keep);
          r := Some(v);
          DeltaIntro(env, e, keep);
          RedStep(env, lets, e, r.value);
        }
      }
    }

    /** `r` is `e` with its head constant replaced by the value of its definition. */
    ghost predicate UnfoldsHead(e: Expr, r: Expr) {
      exists v :: DeltaStep(env, AppFn(e), v) && r == MkApp(v, AppArgs(e))
    }

    /** Unfold the head constant. */
    method UnfoldDefinition(e: Expr) returns (r: Option<Expr>)
      ensures r.Some? ==> Reduces(env, lets, e, r.value) && UnfoldsHead(e, r.value)
      ensures r.Some? <==> Unfoldable(env, e)
    {
      if e.App? {
        var f0, args := GetAppRevArgs(e);
        var f := UnfoldDefinitionCore(f0);
        if f.None? {
          return None;
        }
        AppSpine(e);
        RedRevApp(env, lets, f0, f.value, args);
        MkRevAppIsMkApp(f.value, args);
        assert Reverse(args) == AppArgs(e);
        r := Some(MkRevApp(f.value, args));
      } else {
        r := UnfoldDefinitionCore(e);
        assert r.Some? ==> r.value == MkApp(r.value, AppArgs(e));
      }
    }

    method ReduceProjCore(c: Expr, idx: nat, ghost sname: Name) returns (r: Option<Expr>)
      ensures r.Some? ==> Reduces(env, lets, Proj(sname, idx, c), r.value)
      ensures r.Some? <==> HasField(env, c, idx)
    {
      var mk, args := GetAppArgs(c);
      if !mk.Const? || mk.name !in env.ctors {
        return None;
      }
      var nparams := env.ctors[mk.name];
      if nparams + idx < |args| {
        r := Some(args[nparams + idx]);
        assert ProjStep(env, Proj(sname, idx, c), r.value);
        RedStep(env, lets, Proj(sname, idx, c), r.value);
      } else {
        r := None;
      }
    }

    method ReduceProj(fuel: nat, e: Expr, cheapRec: bool, cheapProj: bool) returns (r: Outcome<Option<Expr>>)
      requires Valid() && Ok(e) && e.Proj? && fuel > 0
      modifies this`coreCache, this`whnfCache
      ensures Valid()
      ensures r.Done? && r.value.Some? ==> Reduces(env, lets, e, r.value.value)
      ensures r.Done? && r.value.None? ==> ProjStuck(env, lets, lctx, e)
      ensures r.Done? && r.value.Some? ==> !Frozen(Scope(env, lctx), e)
      decreases fuel, 0, 0
    {
      hide StateOk, Reduces, HasField, PlainNormal, ProjStuck, Unfoldable, Lands, Settles, Frozen;
      var c;
      if cheapProj {
        c := WhnfCore(fuel - 1, e.struct, cheapRec, cheapProj);
        if c.Done? { CoreSettles(e.struct, c.value); }
      } else {
        c := Whnf(fuel - 1, e.struct);
      }
      if c.Raised? {
        return Raised;
      }
      var v := ReduceProjCore(c.value, e.pidx, e.sname);
      if v.Some? {
        FrozenField(Scope(env, lctx), e, c.value);
        RedProj(env, lets, e.sname, e.pidx, e.struct, c.value);
        RedTrans(env, lets, e, Proj(e.sname, e.pidx, c.value), v.value);
      } else {
        StuckIntro(env, lets, lctx, e, c.value);
      }
      r := Done(v);
    }

    lemma {:induction false} CoreSettles(e: Expr, c: Expr)
      requires Lands(Scope(env, lctx), e, c) && HeadNormal(env, lets, lctx, c)
      ensures Settles(Scope(env, lctx), e, c)
    {
      hide Lands, HeadNormal;
      NormalContract(env, lets, lctx, c);
      LandsSettles(Scope(env, lctx), e, c);
    }

    /** Consume as many arguments as `f` has leading lambdas, all in one instantiation. */
    method BetaSpine(f0: Expr, revArgs: seq<Expr>) returns (r: Expr)
      requires f0.Lambda? && revArgs != []
      ensures Reduces(env, lets, MkRevApp(f0, revArgs), r) && Lands(Scope(env, lctx), MkRevApp(f0, revArgs), r)
      ensures exists k: nat :: k > 0 && Path(lctx, k, MkRevApp(f0, revArgs), r)
    {
      var f := f0;
      var m := 1;
      var n := |revArgs|;
      Beta.StripAll(f0, 0);
      while f.body.Lambda? && m < n
        invariant 1 <= m <= n && m <= Beta.LambdaCount(f0)
        invariant f == Beta.Strip(f0, m - 1) && f.Lambda?
        decreases n - m
      {
        Beta.StripBody(f0, m - 1);
        f := f.body;
        Beta.StripAll(f0, m);
        m := m + 1;
      }
      Beta.StripBody(f0, m - 1);
      r := MkRevApp(Inst(f.body, 0, revArgs[n - m..]), revArgs[..n - m]);
      SpineBatch(f0, revArgs, m);
    }

    lemma {:induction false} SpineBatch(f: Expr, revArgs: seq<Expr>, m: nat)
      requires m <= |revArgs| && m <= Beta.LambdaCount(f)
      ensures Reduces(env, lets, MkRevApp(f, revArgs),
        MkRevApp(Inst(Beta.Strip(f, m), 0, revArgs[|revArgs| - m..]), revArgs[..|revArgs| - m]))
      ensures Lands(Scope(env, lctx), MkRevApp(f, revArgs),
        MkRevApp(Inst(Beta.Strip(f, m), 0, revArgs[|revArgs| - m..]), revArgs[..|revArgs| - m]))
      ensures Path(lctx, m, MkRevApp(f, revArgs),
        MkRevApp(Inst(Beta.Strip(f, m), 0, revArgs[|revArgs| - m..]), revArgs[..|revArgs| - m]))
    {
      var args, n := Reverse(revArgs), |revArgs|;
      MkRevAppIsMkApp(f, revArgs);
      MkRevAppIsMkApp(Inst(Beta.Strip(f, m), 0, revArgs[n - m..]), revArgs[..n - m]);
      assert Reverse(args[..m]) == revArgs[n - m..];
      assert Reverse(revArgs[..n - m]) == args[m..];
      Beta.BatchReduces(env, lets, f, args, m);
      Beta.BatchIsIter(f, args, m);
      LandsIter(Scope(env, lctx), f, args, m);
      IterPath(lctx, f, args, m);
    }

    lemma {:induction false} SelfReduces(e: Expr)
      ensures Reduces(env, lets, e, e)
    {
      RedRefl(env, lets, e, e);
    }

    method WhnfCoreApp(fuel: nat, e: Expr, cheapRec: bool, cheapProj: bool) returns (r: Outcome<Expr>, cached: bool)
      requires Valid() && Ok(e) && e.App? && fuel > 0
      modifies this`coreCache, this`whnfCache
      ensures Valid()
      ensures r.Done? ==> Reduces(env, lets, e, r.value)
      ensures r.Done? ==> HeadNormal(env, lets, lctx, r.value)
      ensures r.Done? ==> Lands(Scope(env, lctx), e, r.value)
      ensures Enough(lctx, fuel, e) ==> r.Done?
      decreases fuel, 0
    {
      hide Valid, Ok, HeadNormal, Reduces, Same, Lands, Enough, Path;
      cached := true;
      var f0, args := GetAppRevArgs(e);
      AppSpine(e);
      HeadOk(e);
      SpineHead(e, f0, args);
      if Enough(lctx, fuel, e) { EnoughHead(Scope(env, lctx), fuel, f0, args); }
      var f := WhnfCore(fuel - 1, f0, cheapRec, cheapProj);
      if f.Raised? {
        return Raised, false;
      }
      NormalContract(env, lets, lctx, f.value);
      RedRevApp(env, lets, f0, f.value, args);
      LandsRevApp(Scope(env, lctx), f0, f.value, args);
      var t;
      if f.value.Lambda? {
        t := BetaSpine(f.value, args);
        ghost var k: nat :| k > 0 && Path(lctx, k, MkRevApp(f.value, args), t);
        if Enough(lctx, fuel, e) { EnoughRest(Scope(env, lctx), fuel, f0, args, f.value, k, t); }
        RedTrans(env, lets, e, MkRevApp(f.value, args), t);
        LandsTrans(Scope(env, lctx), e, MkRevApp(f.value, args), t);
      } else if Same(f.value, f0) {
        SelfReduces(e);
        LandsItself(e);
        SpineNormal(env, lets, lctx, e, f.value);
        return Done(e), false;
      } else {
        t := MkRevApp(f.value, args);
        PathItself(lctx, t);
        if Enough(lctx, fuel, e) { EnoughRest(Scope(env, lctx), fuel, f0, args, f.value, 0, t); }
      }
      ReductOk(e, t);
      r := WhnfCore(fuel - 1, t, cheapRec, cheapProj);
      if r.Done? {
        RedTrans(env, lets, e, t, r.value);
        LandsTrans(Scope(env, lctx), e, t, r.value);
      }
    }

    lemma {:induction false} HeadOk(e: Expr)
      requires Ok(e)
      ensures Ok(AppFn(e))
    {
      SpineScoped(e, Known(nextIdx));
    }

    /** What a term reduces to has its variables. */
    lemma {:induction false} ReductOk(e: Expr, t: Expr)
      requires Valid() && Ok(e) && Reduces(env, lets, e, t)
      ensures Ok(t)
    {
      hide StateOk, Reduces;
      StateScoped(env, lets, sigma, nextIdx, lctx, coreCache, whnfCache, eqv.pairs, e, t);
    }

    lemma {:induction false} PathItself(ctx: LocalCtx, e: Expr)
      ensures Path(ctx, 0, e, e)
    {
    }

    /** The spine of an application. */
    lemma {:induction false} SpineHead(e: Expr, f: Expr, rev: seq<Expr>)
      requires e.App? && f == AppFn(e) && e == MkRevApp(f, rev)
      ensures rev != [] && !f.App?
    {
    }

    lemma {:induction false} LandsItself(e: Expr)
      ensures Lands(Scope(env, lctx), e, e)
    {
      LandsSelf(Scope(env, lctx), e, e);
    }

    /** One further step followed by `whnf_core` on its result. */
    method WhnfCoreNext(fuel: nat, e: Expr, t: Expr, cheapRec: bool, cheapProj: bool) returns (r: Outcome<Expr>)
      requires Valid() && Ok(e) && fuel > 0 && Reduces(env, lets, e, t)
      modifies this`coreCache, this`whnfCache
      ensures Valid()
      ensures r.Done? ==> Reduces(env, lets, e, r.value)
      ensures r.Done? ==> HeadNormal(env, lets, lctx, r.value)
      ensures r.Done? ==> Lands(Scope(env, lctx), t, r.value)
      ensures Enough(lctx, fuel - 1, t) ==> r.Done?
      decreases fuel, 0, 0
    {
      hide Valid, Ok, Enough, Reduces, HeadNormal, Lands;
      ReductOk(e, t);
      r := WhnfCore(fuel - 1, t, cheapRec, cheapProj);
      if r.Done? { RedTrans(env, lets, e, t, r.value); }
    }

    method WhnfCore(fuel: nat, e: Expr, cheapRec: bool, cheapProj: bool) returns (r: Outcome<Expr>)
      requires Valid() && Ok(e)
      modifies this`coreCache, this`whnfCache
      ensures Valid()
      ensures r.Done? ==> Reduces(env, lets, e, r.value)
      ensures r.Done? ==> HeadNormal(env, lets, lctx, r.value)
      ensures r.Done? ==> Lands(Scope(env, lctx), e, r.value)
      ensures Enough(lctx, fuel, e) ==> r.Done?
      decreases fuel, 1
    {
      hide HeadNormal, Reduces, Scoped, StateOk, Same, Lands, Enough;
      if fuel == 0 {
        NeedsFuel(lctx, e);
        return Raised;
      }
      SelfReduces(e);
      LandsItself(e);
      if e.MData? {
        RedStep(env, lets, e, e.inner);
        r := WhnfCoreStep(fuel, e, e.inner, cheapRec, cheapProj);
        return;
      }
      if !(e.App? || e.Let? || e.Proj? || (e.FVar? && IsLetFVar(e))) {
        StuckNormal(env, lets, lctx, e);
        return Done(e);
      }
      var key := Erase(e);
      if key in coreCache {
        LookUpCore(env, lets, sigma, nextIdx, lctx, coreCache, whnfCache, eqv.pairs, e);
        return Done(coreCache[key]);
      }
      var cached := true;
      if e.FVar? {
        LetReduces(env, lets, sigma, nextIdx, lctx, coreCache, whnfCache, eqv.pairs, e.fvar);
        r := WhnfCoreStep(fuel, e, lctx[e.fvar].value.value, cheapRec, cheapProj);
        cached := false;
      } else if e.Proj? {
        NoProjEnough(lctx, fuel, e);
        r := WhnfCoreProj(fuel, e, cheapRec, cheapProj);
      } else if e.App? {
        r, cached := WhnfCoreApp(fuel, e, cheapRec, cheapProj);
      } else {
        RedStep(env, lets, e, Inst(e.letBody, 0, [e.letValue]));
        r := WhnfCoreStep(fuel, e, Inst(e.letBody, 0, [e.letValue]), cheapRec, cheapProj);
      }
      if r.Done? && cached && !cheapRec && !cheapProj {
        StoreCore(env, lets, sigma, nextIdx, lctx, coreCache, whnfCache, eqv.pairs, e, r.value);
        coreCache := coreCache[key := r.value];
      }
    }

    lemma {:induction false} NeedsFuel(ctx: LocalCtx, e: Expr)
      ensures !Enough(ctx, 0, e)
    {
    }

    /** A contraction at the head, and `whnf_core` on its result. */
    method WhnfCoreStep(fuel: nat, e: Expr, t: Expr, cheapRec: bool, cheapProj: bool) returns (r: Outcome<Expr>)
      requires Valid() && Ok(e) && fuel > 0 && Reduces(env, lets, e, t) && Contract(lctx, e) == Some(t)
      modifies this`coreCache, this`whnfCache
      ensures Valid()
      ensures r.Done? ==> Reduces(env, lets, e, r.value)
      ensures r.Done? ==> HeadNormal(env, lets, lctx, r.value)
      ensures r.Done? ==> Lands(Scope(env, lctx), e, r.value)
      ensures Enough(lctx, fuel, e) && !e.App? ==> r.Done?
      decreases fuel, 0, 1
    {
      hide HeadNormal, Reduces, Scoped, StateOk, Lands, Enough;
      if Enough(lctx, fuel, e) && !e.App? { EnoughStep(lctx, fuel, e, t); }
      LandsStep(Scope(env, lctx), e, t);
      r := WhnfCoreNext(fuel, e, t, cheapRec, cheapProj);
      if r.Done? { LandsTrans(Scope(env, lctx), e, t, r.value); }
    }

    method WhnfCoreProj(fuel: nat, e: Expr, cheapRec: bool, cheapProj: bool) returns (r: Outcome<Expr>)
      requires Valid() && Ok(e) && e.Proj? && fuel > 0
      modifies this`coreCache, this`whnfCache
      ensures Valid()
      ensures r.Done? ==> Reduces(env, lets, e, r.value)
      ensures r.Done? ==> HeadNormal(env, lets, lctx, r.value)
      ensures r.Done? ==> Lands(Scope(env, lctx), e, r.value)
      decreases fuel, 0, 1
    {
      hide HeadNormal, Reduces, Scoped, StateOk, Lands, Frozen;
      var m := ReduceProj(fuel, e, cheapRec, cheapProj);
      if m.Raised? {
        return Raised;
      } else if m.value.Some? {
        r := WhnfCoreNext(fuel, e, m.value.value, cheapRec, cheapProj);
        if r.Done? { LandsProj(Scope(env, lctx), e, r.value); }
      } else {
        SelfReduces(e);
        StuckNormal(env, lets, lctx, e);
        LandsItself(e);
        r := Done(e);
      }
    }

    /** Literal arithmetic on weak-head normal arguments. */
    method ReduceNat(fuel: nat, e: Expr) returns (r: Outcome<Option<Expr>>)
      requires Valid() && Ok(e) && fuel > 0
      modifies this`coreCache, this`whnfCache
      ensures Valid()
      ensures r.Done? && r.value.Some? ==> Reduces(env, lets, e, r.value.value)
      ensures r.Done? && r.value.Some? ==> WeakHeadNormal(env, lets, lctx, r.value.value)
      ensures r.Done? && r.value.None? ==> Stuck(env, lets, lctx, e)
      ensures r.Done? && r.value.Some? ==> SuccApp(e) || BinOp(env, e)
      ensures r.Done? ==> Computes(env, lctx, e, r.value)
      ensures !SuccApp(e) && !BinOp(env, e) ==> r.Done?
      decreases fuel, 1
    {
      hide StateOk, WeakHeadNormal, Reduces, Stuck, EvaluatesAt;
      if e.App? && !e.fn.App? && e.fn == NAT_SUCC {
        r := ReduceNatSucc(fuel, e);
      } else if e.App? && e.fn.App? && !e.fn.fn.App? && e.fn.fn.Const? && e.fn.fn.levels == []
                && e.fn.fn.name in env.natOps {
        r := ReduceNatBin(fuel, e);
      } else {
        StuckOther(env, lets, lctx, e);
        NothingToCompute(env, lctx, e);
        r := Done(None);
      }
    }

    method ReduceNatSucc(fuel: nat, e: Expr) returns (r: Outcome<Option<Expr>>)
      requires Valid() && Ok(e) && fuel > 0 && SuccApp(e)
      modifies this`coreCache, this`whnfCache
      ensures Valid()
      ensures r.Done? && r.value.Some? ==> Reduces(env, lets, e, r.value.value)
      ensures r.Done? && r.value.Some? ==> WeakHeadNormal(env, lets, lctx, r.value.value)
      ensures r.Done? && r.value.None? ==> Stuck(env, lets, lctx, e)
      ensures r.Done? ==> Computes(env, lctx, e, r.value)
      decreases fuel, 0
    {
      hide StateOk, WeakHeadNormal, Reduces, Stuck, Agrees, Computes;
      var arg := Whnf(fuel - 1, e.arg);
      if arg.Raised? {
        return Raised;
      }
      var v := NatSuccOf(e, arg.value);
      if v.Some? {
        LiteralNormal(env, lets, lctx, v.value);
      } else {
        StuckOperand(env, lets, lctx, e, e.arg, arg.value);
      }
      SuccComputes(env, lctx, e, arg.value, v);
      r := Done(v);
    }

    method NatSuccOf(e: Expr, a: Expr) returns (r: Option<Expr>)
      requires SuccApp(e) && Reduces(env, lets, e.arg, a)
      ensures r.Some? ==> Reduces(env, lets, e, r.value)
      ensures r == if IsNatLitExt(a) then Some(NatLitExpr(NatVal(a) + 1)) else None
    {
      if !IsNatLitExt(a) {
        return None;
      }
      NatSuccReduces(e, a);
      r := Some(NatLitExpr(NatVal(a) + 1));
    }

    lemma {:induction false} NatSuccReduces(e: Expr, a: Expr)
      requires e.App? && e.fn == NAT_SUCC && IsNatLitExt(a) && Reduces(env, lets, e.arg, a)
      ensures Reduces(env, lets, e, NatLitExpr(NatVal(a) + 1))
    {
      var t, v := App(e.fn, a), NatLitExpr(NatVal(a) + 1);
      RedRefl(env, lets, e.fn, e.fn);
      RedApp(env, lets, e.fn, e.fn, e.arg, a);
      assert NatStep(env, t, v);
      RedStep(env, lets, t, v);
      RedTrans(env, lets, e, t, v);
    }

    lemma {:induction false} NatBinReduces(e: Expr, a: Expr, b: Expr, v: Expr)
      requires e.App? && e.fn.App? && e.fn.fn.Const? && e.fn.fn.levels == [] && e.fn.fn.name in env.natOps
      requires IsNatLitExt(a) && Reduces(env, lets, e.fn.arg, a) && IsNatLitExt(b) && Reduces(env, lets, e.arg, b)
      requires NatOpResult(env.natOps[e.fn.fn.name], NatVal(a), NatVal(b)) == Some(v)
      ensures Reduces(env, lets, e, v)
    {
      var op, t := e.fn.fn, App(App(e.fn.fn, a), b);
      RedRefl(env, lets, op, op);
      RedApp(env, lets, op, op, e.fn.arg, a);
      RedApp(env, lets, e.fn, App(op, a), e.arg, b);
      assert NatStep(env, t, v);
      RedStep(env, lets, t, v);
      RedTrans(env, lets, e, t, v);
    }

    method ReduceNatBin(fuel: nat, e: Expr) returns (r: Outcome<Option<Expr>>)
      requires Valid() && Ok(e) && fuel > 0 && BinOp(env, e)
      modifies this`coreCache, this`whnfCache
      ensures Valid()
      ensures r.Done? && r.value.Some? ==> Reduces(env, lets, e, r.value.value)
      ensures r.Done? && r.value.Some? ==> WeakHeadNormal(env, lets, lctx, r.value.value)
      ensures r.Done? && r.value.None? ==> Stuck(env, lets, lctx, e)
      ensures r.Done? ==> Computes(env, lctx, e, r.value)
      decreases fuel, 0
    {
      hide StateOk, Reduces, WeakHeadNormal, NatOpResult, Stuck, Agrees, Computes, Scoped;
      var op := e.fn.fn;
      OperandScoped(e, Known(nextIdx));
      var arg1 := Whnf(fuel - 1, e.fn.arg);
      if arg1.Raised? {
        return Raised;
      }
      if !IsNatLitExt(arg1.value) {
        StuckOperand(env, lets, lctx, e, e.fn.arg, arg1.value);
        LeftStuck(env, lctx, e, arg1.value);
        return Done(None);
      }
      var arg2 := Whnf(fuel - 1, e.arg);
      if arg2.Raised? {
        return Raised;
      }
      if !IsNatLitExt(arg2.value) {
        StuckOperand(env, lets, lctx, e, e.arg, arg2.value);
        RightStuck(env, lctx, e, arg2.value);
        return Done(None);
      }
      var v := NatOpResult(env.natOps[op.name], NatVal(arg1.value), NatVal(arg2.value));
      if v.Some? {
        NatBinReduces(e, arg1.value, arg2.value, v.value);
        NatOpNormal(env, lets, lctx, env.natOps[op.name], NatVal(arg1.value), NatVal(arg2.value), v.value);
      } else {
        StuckPower(env, lets, lctx, e, arg1.value, arg2.value);
      }
      OpComputes(env, lctx, e, arg1.value, arg2.value, v);
      r := Done(v);
    }

    /** Every result is reachable from `e` by computation steps, normal, and the value of `e` when
        `e` is closed arithmetic, and so is every result cached. */
    method Whnf(fuel: nat, e: Expr) returns (r: Outcome<Expr>)
      requires Valid() && Ok(e)
      modifies this`coreCache, this`whnfCache
      ensures Valid()
      ensures r.Done? ==> Reduces(env, lets, e, r.value)
      ensures r.Done? ==> WeakHeadNormal(env, lets, lctx, r.value)
      ensures r.Done? ==> Agrees(env, lctx, e, r.value)
      ensures Sufficient(Scope(env, lctx), fuel, e) ==> r.Done?
      decreases fuel, 1
    {
      hide StateOk, HeadNormal, WeakHeadNormal, Reduces, Agrees, Sufficient;
      if Sufficient(Scope(env, lctx), fuel, e) { SufficientCore(Scope(env, lctx), fuel, e); }
      if fuel == 0 {
        return Raised;
      }
      SelfReduces(e);
      if e.BVar? || e.Sort? || e.MVar? || e.Pi? || e.Lit? || (e.FVar? && !IsLetFVar(e)) {
        FinalNormal(env, lets, lctx, e);
        return Done(e);
      }
      if e.MData? {
        if Sufficient(Scope(env, lctx), fuel, e) { SufficientStep(Scope(env, lctx), fuel, e, e.inner); }
        r := Whnf(fuel - 1, e.inner);
        if r.Done? {
          RedStep(env, lets, e, e.inner);
          RedTrans(env, lets, e, e.inner, r.value);
          AgreesStep(env, lctx, e, e.inner, r.value);
        }
        return;
      }
      var key := Erase(e);
      if key in whnfCache {
        LookUpWhnf(env, lets, sigma, nextIdx, lctx, coreCache, whnfCache, eqv.pairs, e);
        return Done(whnfCache[key]);
      }
      r := WhnfLoop(fuel, e);
      if r.Done? {
        StoreWhnf(env, lets, sigma, nextIdx, lctx, coreCache, whnfCache, eqv.pairs, e, r.value);
        whnfCache := whnfCache[key := r.value];
      }
    }

    /** Alternate `whnf_core`, literal arithmetic and delta until nothing applies. */
    method WhnfLoop(fuel: nat, e: Expr) returns (r: Outcome<Expr>)
      requires Valid() && Ok(e) && fuel > 0
      modifies this`coreCache, this`whnfCache
      ensures Valid()
      ensures r.Done? ==> Reduces(env, lets, e, r.value)
      ensures r.Done? ==> WeakHeadNormal(env, lets, lctx, r.value)
      ensures r.Done? ==> Agrees(env, lctx, e, r.value)
      ensures Sufficient(Scope(env, lctx), fuel, e) ==> r.Done?
      decreases fuel, 0
    {
      hide StateOk, HeadNormal, WeakHeadNormal, Stuck, Reduces, Lands, Computes, Agrees, Unsettled, Sufficient, Enough, SuccApp, BinOp;
      var t := e;
      var rounds := fuel - 1;
      SelfReduces(e);
      if Sufficient(Scope(env, lctx), fuel, e) { SufficientCore(Scope(env, lctx), fuel, e); }
      while rounds > 0
        invariant 0 <= rounds < fuel
        invariant Sufficient(Scope(env, lctx), fuel, e) ==> t == e && rounds == fuel - 1 > 0 && Enough(lctx, rounds, e)
        invariant Valid() && Reduces(env, lets, e, t) && (t == e || Unsettled(env, lctx, e))
        decreases rounds
      {
        StateScoped(env, lets, sigma, nextIdx, lctx, coreCache, whnfCache, eqv.pairs, e, t);
        var t1 := WhnfCore(rounds, t, false, false);
        if t1.Raised? {
          return Raised;
        }
        RedTrans(env, lets, e, t, t1.value);
        if Sufficient(Scope(env, lctx), fuel, e) { NothingToDo(fuel, e, t1.value); }
        StateScoped(env, lets, sigma, nextIdx, lctx, coreCache, whnfCache, eqv.pairs, e, t1.value);
        var v := ReduceNat(rounds, t1.value);
        if v.Raised? {
          return Raised;
        }
        if v.value.Some? {
          RedTrans(env, lets, e, t1.value, v.value.value);
          RoundComputed(env, lets, lctx, e, t, t1.value, v.value);
          return Done(v.value.value);
        }
        var next := UnfoldDefinition(t1.value);
        if next.None? {
          WeakIntro(env, lets, lctx, t1.value);
          RoundFinal(env, lets, lctx, e, t, t1.value);
          return Done(t1.value);
        }
        RedTrans(env, lets, e, t1.value, next.value);
        RoundUnfolded(env, lets, lctx, e, t, t1.value);
        t := next.value;
        rounds := rounds - 1;
      }
      r := Raised;
    }

    lemma {:induction false} NothingToDo(fuel: nat, e: Expr, t1: Expr)
      requires Sufficient(Scope(env, lctx), fuel, e) && Lands(Scope(env, lctx), e, t1) && HeadNormal(env, lets, lctx, t1)
      ensures !SuccApp(t1) && !BinOp(env, t1) && !Unfoldable(env, t1)
    {
      hide Sufficient, Lands, HeadNormal;
      NormalContract(env, lets, lctx, t1);
      SufficientEnds(Scope(env, lctx), fuel, e, t1);
    }

    // -------------------------------------------------------------- definitional equality

    /** Record that `t` and `s` are definitionally equal. */
    method RecordEquiv(t: Expr, s: Expr)
      requires Valid() && DefEq(env, lets, t, s)
      modifies eqv
      ensures Valid()
    {
      eqv.AddEquiv(t, s);
    }

    /** `is_def_eq` on levels and on lists of levels. */
    predicate LevelsDefEq(ls: seq<L.Level>, ks: seq<L.Level>) {
      if ls == [] || ks == [] then ls == [] && ks == []
      else LN.IsEquivalent(ls[0], ks[0]) && LevelsDefEq(ls[1..], ks[1..])
    }

    lemma {:induction false} LevelsDefEqSound(ls: seq<L.Level>, ks: seq<L.Level>)
      requires LevelsDefEq(ls, ks)
      ensures SameLevels(ls, ks)
    {
      if ls != [] && ks != [] {
        LN.IsEquivalentSound(ls[0], ks[0]);
        LevelsDefEqSound(ls[1..], ks[1..]);
        forall i | 0 <= i < |ls| ensures L.SameMeaning(ls[i], ks[i]) {
          if i > 0 { assert ls[i] == ls[1..][i - 1] && ks[i] == ks[1..][i - 1]; }
        }
      }
    }

    lemma {:induction false} LevelStepDefEq(t: Expr, s: Expr)
      requires LevelStep(t, s)
      ensures DefEq(env, lets, t, s)
    {
      ConvAxiom(StepRel(env, lets), t, s);
    }

    /** One round of the binder loop: compare the domains and choose what stands for the bound
        variable in both bodies. */
    method CompareBinder(fuel: nat, t: Expr, s: Expr, subst: seq<Expr>) returns (ok: Outcome<bool>, u: Expr)
      requires Valid() && fuel > 0 && SameBinder(t, s) && AllScoped(subst, Known(nextIdx))
      requires Under(t, |subst|, Known(nextIdx)) && Under(s, |subst|, Known(nextIdx))
      modifies this`lctx, this`nextIdx, this`coreCache, this`whnfCache, this`failures, eqv
      ensures Valid() && nextIdx >= old(nextIdx) && SameLets(old(lctx), lctx)
      ensures ok == Done(true) ==> Ok(u)
      ensures ok == Done(true) ==> OpenSuffices(t, s, subst, u)
      ensures Joined(Scope(env, old(lctx)), InstRev(t, subst), InstRev(s, subst)) ==> ok != Done(false)
      ensures ok == Done(true) && Joined(Scope(env, old(lctx)), InstRev(t, subst), InstRev(s, subst)) ==>
        Joined(Scope(env, lctx), InstRev(t.body, subst + [u]), InstRev(s.body, subst + [u]))
      decreases fuel, 2, 0
    {
      hide DefEq, Inst, Joined, StateOk, BodiesJoined, OpenSuffices;
      u := DONT_CARE;
      ghost var n := nextIdx;
      JoinedParts(Scope(env, lctx), t, s, subst);
      ok := CompareDomains(fuel, t, s, subst);
      if ok == Done(true) {
        BinderMono(t, s, subst, n, nextIdx);
        u := OpenBinder(t, s, subst);
      }
    }

    /** Bindings that are joined have joined domains, and bodies joined below their index. */
    lemma {:induction false} JoinedParts(sc: Scope, t: Expr, s: Expr, subst: seq<Expr>)
      requires SameBinder(t, s)
      ensures Joined(sc, InstRev(t, subst), InstRev(s, subst)) ==>
        && Joined(sc, InstRev(t.domain, subst), InstRev(s.domain, subst))
        && BodiesJoined(sc, t, s, subst)
    {
      hide Joined;
      InstRevBinding(t, subst);
      InstRevBinding(s, subst);
      if Joined(sc, InstRev(t, subst), InstRev(s, subst)) { JoinedBindings(sc, InstRev(t, subst), InstRev(s, subst)); }
    }

    lemma {:induction false} JoinedUnused(sc: Scope, t: Expr, s: Expr, subst: seq<Expr>, u: Expr)
      requires SameBinder(t, s) && LooseRange(t.body) == 0 && LooseRange(s.body) == 0
      requires BodiesJoined(sc, t, s, subst)
      ensures Joined(sc, InstRev(t.body, subst + [u]), InstRev(s.body, subst + [u]))
    {
      hide Joined;
      NoLoose(t.body, 0, 0, Reverse(subst + [u]));
      NoLoose(s.body, 0, 0, Reverse(subst + [u]));
      NoLoose(t.body, 1, 0, Reverse(subst));
      NoLoose(s.body, 1, 0, Reverse(subst));
    }

    /** The variable made for the binder. */
    lemma {:induction false} JoinedFresh(before: LocalCtx, t: Expr, s: Expr, subst: seq<Expr>, m: nat)
      requires Valid() && SameBinder(t, s) && SameLets(before, lctx) && !LetBound(before, FreshName(m))
      requires BodiesJoined(Scope(env, before), t, s, subst)
      ensures Joined(Scope(env, lctx), InstRev(t.body, subst + [FVar(FreshName(m))]), InstRev(s.body, subst + [FVar(FreshName(m))]))
    {
      hide Joined, StateOk, EnvOk, LetsOk, CtxScoped, ClosedLets, Inst;
      var x, b, c := FreshName(m), Inst(t.body, 1, Reverse(subst)), Inst(s.body, 1, Reverse(subst));
      StateParts();
      JoinedCtx(env, before, lctx, b, c);
      JoinedOpen(Scope(env, lctx), b, c, x);
      InstRevSnoc(t.body, subst, FVar(x));
      InstRevSnoc(s.body, subst, FVar(x));
    }

    /** Choose what stands for the bound variable in both bodies. */
    method OpenBinder(t: Expr, s: Expr, subst: seq<Expr>) returns (u: Expr)
      requires Valid() && SameBinder(t, s) && AllScoped(subst, Known(nextIdx))
      requires Under(t, |subst|, Known(nextIdx)) && Under(s, |subst|, Known(nextIdx))
      requires DefEq(env, lets, InstRev(t.domain, subst), InstRev(s.domain, subst))
      modifies this`lctx, this`nextIdx
      ensures Valid() && nextIdx >= old(nextIdx) && SameLets(old(lctx), lctx)
      ensures Ok(u) && OpenSuffices(t, s, subst, u)
      ensures BodiesJoined(Scope(env, old(lctx)), t, s, subst) ==> Joined(Scope(env, lctx), InstRev(t.body, subst + [u]), InstRev(s.body, subst + [u]))
    {
      hide DefEq, Inst, Joined, StateOk, BodiesJoined, OpenSuffices;
      ghost var m := nextIdx;
      StateParts();
      if LooseRange(t.body) > 0 || LooseRange(s.body) > 0 {
        BinderMono(t, s, subst, m, m);
        InstRevScoped(s.domain, subst, Known(m));
        LocalKeepsLets(lctx, m, LocalDecl(s.binder, InstRev(s.domain, subst), None));
        FreshOpen(t, s, subst, m);
        NotLetBound(m);
        u := MkLocalDecl(s.binder, InstRev(s.domain, subst));
        if BodiesJoined(Scope(env, old(lctx)), t, s, subst) { JoinedFresh(old(lctx), t, s, subst, m); }
      } else {
        u := DONT_CARE;
        UnusedOpen(t, s, subst, u);
        if BodiesJoined(Scope(env, lctx), t, s, subst) { JoinedUnused(Scope(env, lctx), t, s, subst, u); }
      }
    }

    lemma {:induction false} StateParts()
      requires Valid()
      ensures EnvOk(env) && LetsOk(env, lets, sigma, nextIdx) && CtxScoped(lctx, nextIdx) && ClosedLets(lctx)
    {
    }

    lemma {:induction false} NotLetBound(m: nat)
      requires CtxScoped(lctx, m)
      ensures !LetBound(lctx, FreshName(m))
    {
      FreshUnknown(m);
    }

    ghost predicate BodiesJoined(sc: Scope, t: Expr, s: Expr, subst: seq<Expr>)
      requires SameBinder(t, s)
    {
      Joined(sc, Inst(t.body, 1, Reverse(subst)), Inst(s.body, 1, Reverse(subst)))
    }

    /** Equal bodies, opened with `u`, make equal bindings. */
    ghost predicate OpenSuffices(t: Expr, s: Expr, subst: seq<Expr>, u: Expr)
      requires SameBinder(t, s)
      reads this`lets
    {
      DefEq(env, lets, InstRev(t.body, subst + [u]), InstRev(s.body, subst + [u])) ==>
        DefEq(env, lets, InstRev(t, subst), InstRev(s, subst))
    }

    lemma {:induction false} BinderMono(t: Expr, s: Expr, subst: seq<Expr>, i: nat, j: nat)
      requires i <= j && SameBinder(t, s) && AllScoped(subst, Known(i))
      requires Under(t, |subst|, Known(i)) && Under(s, |subst|, Known(i))
      ensures AllScoped(subst, Known(j)) && Under(t, |subst|, Known(j)) && Under(s, |subst|, Known(j))
      ensures Under(s.domain, |subst|, Known(j)) && Under(t.domain, |subst|, Known(j))
    {
      UnderMono(t, |subst|, i, j);
      UnderMono(s, |subst|, i, j);
      AllScopedMono(subst, i, j);
    }

    lemma {:induction false} FreshOpen(t: Expr, s: Expr, subst: seq<Expr>, m: nat)
      requires EnvOk(env) && LetsOk(env, lets, sigma, m) && SameBinder(t, s) && AllScoped(subst, Known(m))
      requires Under(t, |subst|, Known(m)) && Under(s, |subst|, Known(m))
      requires DefEq(env, lets, InstRev(t.domain, subst), InstRev(s.domain, subst))
      ensures OpenSuffices(t, s, subst, FVar(FreshName(m)))
      ensures Scoped(FVar(FreshName(m)), Known(m + 1))
    {
      var x := FreshName(m);
      FreshUnknown(m);
      if DefEq(env, lets, InstRev(t.body, subst + [FVar(x)]), InstRev(s.body, subst + [FVar(x)])) {
        FreshBinderStep(env, lets, sigma, m, t, s, subst, x);
      }
    }

    lemma {:induction false} UnusedOpen(t: Expr, s: Expr, subst: seq<Expr>, u: Expr)
      requires SameBinder(t, s) && LooseRange(t.body) == 0 && LooseRange(s.body) == 0
      requires DefEq(env, lets, InstRev(t.domain, subst), InstRev(s.domain, subst))
      ensures OpenSuffices(t, s, subst, u)
    {
      if DefEq(env, lets, InstRev(t.body, subst + [u]), InstRev(s.body, subst + [u])) {
        UnusedBinderStep(env, lets, t, s, subst, u);
      }
    }

    method CompareDomains(fuel: nat, t: Expr, s: Expr, subst: seq<Expr>) returns (ok: Outcome<bool>)
      requires Valid() && fuel > 0 && SameBinder(t, s) && AllScoped(subst, Known(nextIdx))
      requires Under(t, |subst|, Known(nextIdx)) && Under(s, |subst|, Known(nextIdx))
      modifies this`lctx, this`nextIdx, this`coreCache, this`whnfCache, this`failures, eqv
      ensures Valid() && nextIdx >= old(nextIdx) && lctx == old(lctx)
      ensures ok == Done(true) ==> DefEq(env, lets, InstRev(t.domain, subst), InstRev(s.domain, subst))
      ensures Joined(Scope(env, lctx), InstRev(t.domain, subst), InstRev(s.domain, subst)) ==> ok != Done(false)
      decreases fuel, 1
    {
      hide Joined;
      var tType, sType := InstRev(t.domain, subst), InstRev(s.domain, subst);
      InstRevScoped(t.domain, subst, Known(nextIdx));
      InstRevScoped(s.domain, subst, Known(nextIdx));
      if !Same(t.domain, s.domain) {
        ok := IsDefEq(fuel - 1, tType, sType);
      } else {
        InstRevSame(t.domain, s.domain, subst);
        ConvRefl(StepRel(env, lets), tType, sType);
        ok := Done(true);
      }
    }

    /** Compare two telescopes of lambdas or Pis, opening one binder at a time. */
    method IsDefEqBinding(fuel: nat, t0: Expr, s0: Expr) returns (r: Outcome<bool>)
      requires Valid() && fuel > 0 && Ok(t0) && Ok(s0) && SameBinder(t0, s0)
      modifies this`lctx, this`nextIdx, this`coreCache, this`whnfCache, this`failures, eqv
      ensures Valid() && nextIdx >= old(nextIdx) && lctx == old(lctx)
      ensures r == Done(true) ==> DefEq(env, lets, t0, s0)
      ensures Joined(Scope(env, lctx), t0, s0) ==> r != Done(false)
      decreases fuel, 3
    {
      hide Joined;
      var saved := lctx;
      ghost var n := nextIdx;
      r := BinderLoop(fuel, t0, s0);
      RestoreCtx(saved, n);
      lctx := saved;
    }

    lemma {:induction false} RestoreCtx(saved: LocalCtx, n: nat)
      requires Valid() && CtxOk(saved, lets, n) && n <= nextIdx && SameLets(saved, lctx)
      ensures StateOk(env, lets, sigma, nextIdx, saved, coreCache, whnfCache, eqv.pairs)
    {
      KnownMono(n, nextIdx);
      CachesNarrowed(env, lets, saved, lctx, coreCache, whnfCache);
    }

    method BinderLoop(fuel: nat, t0: Expr, s0: Expr) returns (r: Outcome<bool>)
      requires Valid() && fuel > 0 && Ok(t0) && Ok(s0) && SameBinder(t0, s0)
      modifies this`lctx, this`nextIdx, this`coreCache, this`whnfCache, this`failures, eqv
      ensures Valid() && nextIdx >= old(nextIdx) && SameLets(old(lctx), lctx)
      ensures r == Done(true) ==> DefEq(env, lets, t0, s0)
      ensures Joined(Scope(env, old(lctx)), t0, s0) ==> r != Done(false)
      decreases fuel, 2, 1
    {
      hide StateOk, DefEq, Inst, Joined;
      var t, s, subst: seq<Expr> := t0, s0, [];
      OpenNothing(t0);
      OpenNothing(s0);
      while true
        invariant Valid() && nextIdx >= old(nextIdx) && SameLets(old(lctx), lctx)
        invariant SameBinder(t, s) && (t.Lambda? <==> t0.Lambda?) && AllScoped(subst, Known(nextIdx))
        invariant Under(t, |subst|, Known(nextIdx)) && Under(s, |subst|, Known(nextIdx))
        invariant DefEq(env, lets, InstRev(t, subst), InstRev(s, subst)) ==> DefEq(env, lets, t0, s0)
        invariant Joined(Scope(env, old(lctx)), t0, s0) ==> Joined(Scope(env, lctx), InstRev(t, subst), InstRev(s, subst))
        decreases t
      {
        ghost var n := nextIdx;
        var ok, u := CompareBinder(fuel, t, s, subst);
        if ok != Done(true) {
          return ok;
        }
        UnderMono(t, |subst|, n, nextIdx);
        UnderMono(s, |subst|, n, nextIdx);
        AllScopedMono(subst, n, nextIdx);
        subst := subst + [u];
        t, s := t.body, s.body;
        if !((t0.Lambda? && t.Lambda? && s.Lambda?) || (t0.Pi? && t.Pi? && s.Pi?)) {
          break;
        }
      }
      InstRevScoped(t, subst, Known(nextIdx));
      InstRevScoped(s, subst, Known(nextIdx));
      r := IsDefEq(fuel - 1, InstRev(t, subst), InstRev(s, subst));
    }

    lemma {:induction false} OpenNothing(t: Expr)
      ensures InstRev(t, []) == t
    {
      InstNothing(t, 0);
      assert Reverse<Expr>([]) == [];
    }

    /** The easy cases: known equalities first. */
    method QuickIsDefEq(fuel: nat, t: Expr, s: Expr, useHash: bool) returns (r: Outcome<LBool>)
      requires Valid() && fuel > 0 && Ok(t) && Ok(s)
      modifies this`lctx, this`nextIdx, this`coreCache, this`whnfCache, this`failures, eqv
      ensures Valid() && nextIdx >= old(nextIdx) && lctx == old(lctx)
      ensures r == Done(LTrue) ==> DefEq(env, lets, t, s)
      ensures Same(t, s) ==> r == Done(LTrue)
      ensures Joined(Scope(env, lctx), t, s) ==> r != Done(LFalse)
      ensures EtaMeets(Scope(env, lctx), lets, inferType, t, s) ==> r != Done(LFalse)
      ensures r == Done(LUndef) ==> !Easy(t, s)
      decreases fuel, 4
    {
      hide DefEq, Scoped, StateOk, Same, Joined, EtaMeets;
      var known := eqv.IsEquiv(t, s, useHash);
      if known {
        LearnedSound(env, lets, sigma, nextIdx, lctx, coreCache, whnfCache, eqv.pairs, t, s);
        r := Done(LTrue);
      } else {
        r := QuickShapes(fuel, t, s);
      }
    }

    /** The shapes of both sides. */
    method QuickShapes(fuel: nat, t: Expr, s: Expr) returns (r: Outcome<LBool>)
      requires Valid() && fuel > 0 && Ok(t) && Ok(s) && !Same(t, s)
      modifies this`lctx, this`nextIdx, this`coreCache, this`whnfCache, this`failures, eqv
      ensures Valid() && nextIdx >= old(nextIdx) && lctx == old(lctx)
      ensures r == Done(LTrue) ==> DefEq(env, lets, t, s)
      ensures Joined(Scope(env, lctx), t, s) ==> r != Done(LFalse)
      ensures EtaMeets(Scope(env, lctx), lets, inferType, t, s) ==> r != Done(LFalse)
      ensures r == Done(LUndef) ==> !Easy(t, s)
      decreases fuel, 4, 0
    {
      hide DefEq, Valid, Ok, Same, Joined, EtaMeets;
      if (t.Lambda? && s.Lambda?) || (t.Pi? && s.Pi?) {
        if EtaMeets(Scope(env, lctx), lets, inferType, t, s) { EtaShapes(Scope(env, lctx), t, s); }
        var b := IsDefEqBinding(fuel, t, s);
        r := ToLBool(b);
      } else if t.MData? && s.MData? {
        if Joined(Scope(env, lctx), t, s) { JoinedInner(Scope(env, lctx), t, s); }
        if EtaMeets(Scope(env, lctx), lets, inferType, t, s) { EtaInner(Scope(env, lctx), lets, inferType, t, s); }
        r := CompareInner(fuel, t, s);
      } else {
        if Joined(Scope(env, lctx), t, s) && ((t.Sort? && s.Sort?) || (t.Lit? && s.Lit?)) { JoinedAtoms(Scope(env, lctx), t, s); }
        if EtaMeets(Scope(env, lctx), lets, inferType, t, s) { EtaShapes(Scope(env, lctx), t, s); }
        r := QuickAtoms(t, s);
      }
    }

    lemma {:induction false} EtaShapes(sc: Scope, t: Expr, s: Expr)
      requires EtaMeets(sc, lets, inferType, t, s)
      ensures !BothBind(t, s) && !(t.Sort? && s.Sort?) && !(t.Lit? && s.Lit?)
    {
      hide EtaMeets, EtaEither, Inert, Frozen;
      if Contract(sc.lctx, t).None? && Contract(sc.lctx, s).None? {
        EtaSettled(sc, lets, inferType, t, s);
        EtaStops(sc, lets, inferType, t, s);
      }
    }

    lemma {:induction false} JoinedInner(sc: Scope, t: Expr, s: Expr)
      requires Joined(sc, t, s) && t.MData? && s.MData? && !Same(t, s)
      ensures Joined(sc, t.inner, s.inner)
    {
      hide Joined, Lands, Same;
      LandsStep(sc, t, t.inner);
      LandsStep(sc, s, s.inner);
      JoinedLands(sc, t, s, t.inner, s.inner);
    }

    method CompareInner(fuel: nat, t: Expr, s: Expr) returns (r: Outcome<LBool>)
      requires Valid() && fuel > 0 && Ok(t) && Ok(s) && t.MData? && s.MData?
      modifies this`lctx, this`nextIdx, this`coreCache, this`whnfCache, this`failures, eqv
      ensures Valid() && nextIdx >= old(nextIdx) && lctx == old(lctx)
      ensures r == Done(LTrue) ==> DefEq(env, lets, t, s)
      ensures Joined(Scope(env, lctx), t.inner, s.inner) ==> r != Done(LFalse)
      ensures EtaMeets(Scope(env, lctx), lets, inferType, t.inner, s.inner) ==> r != Done(LFalse)
      decreases fuel, 0
    {
      hide Joined, EtaMeets;
      var b := IsDefEq(fuel - 1, t.inner, s.inner);
      if b == Done(true) { ConvMData(StepRel(env, lets), t, s); }
      r := ToLBool(b);
    }

    /** Sorts, metavariables and literals are decided at once. */
    method QuickAtoms(t: Expr, s: Expr) returns (r: Outcome<LBool>)
      ensures r == Done(LTrue) ==> DefEq(env, lets, t, s)
      ensures r == Done(LFalse) ==> (t.Sort? && s.Sort? && !LN.IsEquivalent(t.level, s.level)) || (t.Lit? && s.Lit? && t != s)
      ensures r == Done(LUndef) ==> !(t.Sort? && s.Sort?)
    {
      r := Done(LUndef);
      if t.Sort? && s.Sort? {
        if LN.IsEquivalent(t.level, s.level) {
          LN.IsEquivalentSound(t.level, s.level);
          LevelStepDefEq(t, s);
          r := Done(LTrue);
        } else {
          r := Done(LFalse);
        }
      } else if t.MVar? && s.MVar? {
        r := Raised;
      } else if t.Lit? && s.Lit? {
        r := Done(if t.lit == s.lit then LTrue else LFalse);
        if t == s { ConvRefl(StepRel(env, lets), t, s); }
      }
    }

    function ToLBool(b: Outcome<bool>): Outcome<LBool> {
      match b
      case Raised => Raised
      case Done(v) => Done(if v then LTrue else LFalse)
    }

    /** Arguments only, last first. */
    method IsDefEqArgs(fuel: nat, t0: Expr, s0: Expr) returns (r: Outcome<bool>)
      requires Valid() && fuel > 0 && Ok(t0) && Ok(s0)
      modifies this`lctx, this`nextIdx, this`coreCache, this`whnfCache, this`failures, eqv
      ensures Valid() && nextIdx >= old(nextIdx) && lctx == old(lctx)
      ensures r == Done(true) && DefEq(env, lets, AppFn(t0), AppFn(s0)) ==> DefEq(env, lets, t0, s0)
      decreases fuel, 4
    {
      hide StateOk, HeadNormal, WeakHeadNormal, Reduces, Conv;
      var t, s := t0, s0;
      while t.App? && s.App?
        invariant Valid() && nextIdx >= old(nextIdx) && lctx == old(lctx) && Ok(t) && Ok(s)
        invariant AppFn(t) == AppFn(t0) && AppFn(s) == AppFn(s0)
        invariant DefEq(env, lets, t, s) ==> DefEq(env, lets, t0, s0)
        decreases t
      {
        ghost var n := nextIdx;
        var b := IsDefEq(fuel - 1, t.arg, s.arg);
        if b != Done(true) {
          return b;
        }
        ScopedMono(t, n, nextIdx);
        ScopedMono(s, n, nextIdx);
        if DefEq(env, lets, t.fn, s.fn) { ConvApp(StepRel(env, lets), t, s); }
        t, s := t.fn, s.fn;
      }
      r := Done(!t.App? && !s.App?);
    }

    /** Same head up to definitional equality and pairwise equal arguments, first to last. */
    method IsDefEqApp(fuel: nat, t: Expr, s: Expr) returns (r: Outcome<bool>)
      requires Valid() && fuel > 0 && Ok(t) && Ok(s)
      modifies this`lctx, this`nextIdx, this`coreCache, this`whnfCache, this`failures, eqv
      ensures Valid() && nextIdx >= old(nextIdx) && lctx == old(lctx)
      ensures r == Done(true) ==> DefEq(env, lets, t, s)
      ensures SpinesJoined(Scope(env, lctx), t, s) && t.App? && s.App? ==> r != Done(false)
      decreases fuel, 4
    {
      hide SpinesJoined;
      if !(t.App? && s.App?) {
        return Done(false);
      }
      ghost var n := nextIdx;
      var tFn, tArgs := GetAppArgs(t);
      var sFn, sArgs := GetAppArgs(s);
      AppSpine(t);
      AppSpine(s);
      SpineScoped(t, Known(n));
      SpineScoped(s, Known(n));
      if SpinesJoined(Scope(env, lctx), t, s) { SpineParts(Scope(env, lctx), t, s); }
      r := IsDefEq(fuel - 1, tFn, sFn);
      if r == Done(true) {
        AllScopedMono(tArgs, n, nextIdx);
        AllScopedMono(sArgs, n, nextIdx);
        r := IsDefEqArgList(fuel, tFn, tArgs, sFn, sArgs);
      }
    }

    lemma {:induction false} SpineParts(sc: Scope, t: Expr, s: Expr)
      requires SpinesJoined(sc, t, s)
      ensures Joined(sc, AppFn(t), AppFn(s)) && AllJoined(sc, AppArgs(t), AppArgs(s))
    {
      hide Joined;
      assert AppFn(AppFn(t)) == AppFn(t) && AppFn(AppFn(s)) == AppFn(s);
      SpinesMeet(sc, AppFn(t), AppFn(s));
    }

    ghost predicate AllJoined(sc: Scope, ts: seq<Expr>, ss: seq<Expr>) {
      |ts| == |ss| && forall i :: 0 <= i < |ts| ==> Joined(sc, ts[i], ss[i])
    }

    method IsDefEqArgList(fuel: nat, ghost f: Expr, ts: seq<Expr>, ghost g: Expr, ss: seq<Expr>) returns (r: Outcome<bool>)
      requires Valid() && fuel > 0 && AllScoped(ts, Known(nextIdx)) && AllScoped(ss, Known(nextIdx))
      requires DefEq(env, lets, f, g)
      modifies this`lctx, this`nextIdx, this`coreCache, this`whnfCache, this`failures, eqv
      ensures Valid() && nextIdx >= old(nextIdx) && lctx == old(lctx)
      ensures r == Done(true) ==> DefEq(env, lets, MkApp(f, ts), MkApp(g, ss))
      ensures AllJoined(Scope(env, lctx), ts, ss) ==> r != Done(false)
      decreases fuel, 3
    {
      hide StateOk, HeadNormal, WeakHeadNormal, Reduces, Conv, Joined;
      if |ts| != |ss| {
        return Done(false);
      }
      ghost var n := nextIdx;
      var i := 0;
      assert ts[..0] == [] && ss[..0] == [];
      while i < |ts|
        invariant i <= |ts|
        invariant Valid() && nextIdx >= n && lctx == old(lctx)
        invariant DefEq(env, lets, MkApp(f, ts[..i]), MkApp(g, ss[..i]))
      {
        ScopedMono(ts[i], n, nextIdx);
        ScopedMono(ss[i], n, nextIdx);
        r := IsDefEq(fuel - 1, ts[i], ss[i]);
        if r != Done(true) {
          return;
        }
        AppSnocDefEq(f, ts, g, ss, i);
        i := i + 1;
      }
      assert ts[..i] == ts && ss[..i] == ss;
      r := Done(true);
    }

    lemma {:induction false} AppSnocDefEq(f: Expr, ts: seq<Expr>, g: Expr, ss: seq<Expr>, i: nat)
      requires i < |ts| == |ss|
      requires DefEq(env, lets, MkApp(f, ts[..i]), MkApp(g, ss[..i])) && DefEq(env, lets, ts[i], ss[i])
      ensures DefEq(env, lets, MkApp(f, ts[..i + 1]), MkApp(g, ss[..i + 1]))
    {
      assert ts[..i + 1][..i] == ts[..i] && ss[..i + 1][..i] == ss[..i];
      ConvApp(StepRel(env, lets), MkApp(f, ts[..i + 1]), MkApp(g, ss[..i + 1]));
    }

    /** The eta expansion of `s`, when its type is a Pi. */
    method EtaExpand(fuel: nat, s: Expr, ghost dom: Expr) returns (r: Outcome<Option<Expr>>)
      requires Valid() && fuel > 0 && Ok(s)
      modifies this`coreCache, this`whnfCache
      ensures Valid()
      ensures r.Done? && r.value.Some? ==> Ok(r.value.value)
      ensures r.Done? && r.value.Some? ==> r.value.value.Lambda? && r.value.value.body == App(s, BVar(0))
      ensures r.Done? && PiTyped(Scope(env, lctx), lets, inferType, dom, s) ==>
        r.value.Some? && Joined(Scope(env, lctx), dom, r.value.value.domain)
      decreases fuel, 0
    {
      hide Reduces, WeakHeadNormal, Agrees, Joined, PiTyped, CachesNormal, LetsOk, CacheOk, PairsOk;
      var ty := inferType(lctx, s);
      if ty.None? {
        return Raised;
      }
      var sType := Whnf(fuel - 1, ty.value);
      if sType.Raised? {
        return Raised;
      }
      StateScoped(env, lets, sigma, nextIdx, lctx, coreCache, whnfCache, eqv.pairs, ty.value, sType.value);
      TypeNormal(dom, s, ty.value, sType.value);
      if !sType.value.Pi? {
        return Done(None);
      }
      var newS := Lambda(sType.value.binder, sType.value.domain, App(s, BVar(0)));
      EtaScoped(sType.value, newS, s, nextIdx);
      r := Done(Some(newS));
    }

    lemma {:induction false} TypeNormal(dom: Expr, s: Expr, ty: Expr, r: Expr)
      requires inferType(lctx, s) == Some(ty) && Reduces(env, lets, ty, r) && WeakHeadNormal(env, lets, lctx, r)
      ensures PiTyped(Scope(env, lctx), lets, inferType, dom, s) ==> r.Pi? && Joined(Scope(env, lctx), dom, r.domain)
    {
      hide Reduces, WeakHeadNormal, Joined;
      assert Same(s, s) && NormalTo(Scope(env, lctx), lets, ty, r);
    }

    lemma {:induction false} EtaScoped(ty: Expr, newS: Expr, s: Expr, n: nat)
      requires ty.Pi? && Scoped(ty, Known(n)) && Scoped(s, Known(n))
      requires newS.Lambda? && newS.domain == ty.domain && newS.body == App(s, BVar(0))
      ensures Scoped(newS, Known(n))
    {
      var b := App(s, BVar(0));
      assert LooseRange(BVar(0)) == 1 && FVars(BVar(0)) == {};
      assert LooseRange(b) == 1 && FVars(b) == FVars(s);
    }

    /** `fun x, b =?= s` by comparing `fun x, b` with the eta expansion of `s`. */
    method TryEtaExpansionCore(fuel: nat, t: Expr, s: Expr) returns (r: Outcome<bool>)
      requires Valid() && fuel > 0 && Ok(t) && Ok(s)
      modifies this`lctx, this`nextIdx, this`coreCache, this`whnfCache, this`failures, eqv
      ensures Valid() && nextIdx >= old(nextIdx) && lctx == old(lctx)
      ensures r == Done(true) ==> DefEq(env, lets, t, s)
      ensures EtaPair(Scope(env, lctx), lets, inferType, t, s) ==> r != Done(false)
      decreases fuel, 4
    {
      hide DefEq, Valid, Ok, PiTyped, Joined, Rests;
      if !(t.Lambda? && !s.Lambda?) {
        if EtaPair(Scope(env, lctx), lets, inferType, t, s) { RestInert(Scope(env, lctx), s); }
        return Done(false);
      }
      var newS := EtaExpand(fuel, s, if t.Lambda? then t.domain else t);
      if newS.Raised? {
        return Raised;
      }
      if newS.value.None? {
        return Done(false);
      }
      if EtaPair(Scope(env, lctx), lets, inferType, t, s) { EtaJoined(Scope(env, lctx), t, newS.value.value); }
      ScopedClosed(s);
      r := IsDefEq(fuel - 1, t, newS.value.value);
      if r == Done(true) { EtaDefEq(t, newS.value.value, s); }
    }

    lemma {:induction false} ScopedClosed(e: Expr)
      requires Ok(e)
      ensures LooseRange(e) == 0
    {
    }

    lemma {:induction false} EtaDefEq(t: Expr, newS: Expr, s: Expr)
      requires newS.Lambda? && newS.body == App(s, BVar(0)) && LooseRange(s) == 0 && DefEq(env, lets, t, newS)
      ensures DefEq(env, lets, t, s)
    {
      NoLoose(s, 0, 1, []);
      assert EtaStep(newS, s);
      ConvAxiom(StepRel(env, lets), newS, s);
      ConvTrans(StepRel(env, lets), t, newS, s);
    }

    method TryEtaExpansion(fuel: nat, t: Expr, s: Expr) returns (r: Outcome<bool>)
      requires Valid() && fuel > 0 && Ok(t) && Ok(s)
      modifies this`lctx, this`nextIdx, this`coreCache, this`whnfCache, this`failures, eqv
      ensures Valid() && nextIdx >= old(nextIdx) && lctx == old(lctx)
      ensures r == Done(true) ==> DefEq(env, lets, t, s)
      ensures EtaEither(Scope(env, lctx), lets, inferType, t, s) ==> r != Done(false)
      decreases fuel, 5
    {
      hide EtaPair, StateOk, DefEq, Scoped, Known;
      ghost var n := nextIdx;
      r := TryEtaExpansionCore(fuel, t, s);
      if r != Done(false) {
        return;
      }
      StillOk(t, s, n);
      r := TryEtaExpansionCore(fuel, s, t);
      if r == Done(true) { DefEqSymm(s, t); }
    }

    lemma {:induction false} DefEqSymm(t: Expr, s: Expr)
      requires DefEq(env, lets, t, s)
      ensures DefEq(env, lets, s, t)
    {
      ConvSymm(StepRel(env, lets), t, s);
    }

    // -------------------------------------------------------------- lazy delta reduction

    lemma {:induction false} NatSuccDefEq(t: Expr, p: Expr)
      requires IsNatSucc(t) == Some(p)
      ensures DefEq(env, lets, t, App(NAT_SUCC, p))
    {
      var R := StepRel(env, lets);
      if t.Lit? {
        assert NatStep(env, App(NAT_SUCC, p), t);
        ConvAxiom(R, App(NAT_SUCC, p), t);
        ConvSymm(R, App(NAT_SUCC, p), t);
      } else {
        ConvRefl(R, t, t);
      }
    }

    lemma {:induction false} NatZeroDefEq(t: Expr, s: Expr)
      requires IsNatZero(t) && IsNatZero(s)
      ensures DefEq(env, lets, t, s)
    {
      var R := StepRel(env, lets);
      ConvRefl(R, t, t);
      if t != s {
        assert Step(env, lets, NatLitExpr(0), NAT_ZERO);
        ConvAxiom(R, NatLitExpr(0), NAT_ZERO);
        ConvSymm(R, NatLitExpr(0), NAT_ZERO);
      }
    }

    lemma {:induction false} NatSuccCong(t: Expr, p: Expr, s: Expr, q: Expr)
      requires IsNatSucc(t) == Some(p) && IsNatSucc(s) == Some(q) && DefEq(env, lets, p, q)
      ensures DefEq(env, lets, t, s)
    {
      var R := StepRel(env, lets);
      NatSuccDefEq(t, p);
      NatSuccDefEq(s, q);
      ConvRefl(R, NAT_SUCC, NAT_SUCC);
      ConvApp(R, App(NAT_SUCC, p), App(NAT_SUCC, q));
      ConvTrans(R, t, App(NAT_SUCC, p), App(NAT_SUCC, q));
      ConvSymm(R, s, App(NAT_SUCC, q));
      ConvTrans(R, t, App(NAT_SUCC, q), s);
    }

    method IsDefEqOffset(fuel: nat, t: Expr, s: Expr) returns (r: Outcome<LBool>)
      requires Valid() && fuel > 0 && Ok(t) && Ok(s)
      modifies this`lctx, this`nextIdx, this`coreCache, this`whnfCache, this`failures, eqv
      ensures Valid() && nextIdx >= old(nextIdx) && lctx == old(lctx)
      ensures r == Done(LTrue) ==> DefEq(env, lets, t, s)
      ensures Unfinished(Scope(env, lctx), t, s) ==> r == Done(LUndef)
      ensures Numeric(Scope(env, lctx), t, s) ==> r == Raised || r == Done(LTrue) || r == Done(LUndef)
      ensures Numeric(Scope(env, lctx), t, s) && r == Done(LUndef) ==> Arithmetic(Scope(env, lctx), t, s)
      ensures Inert(env, t) && Inert(env, s) ==> r == Done(LUndef)
      decreases fuel, 4
    {
      hide DefEq, Valid, Ok, Unfinished, Numeric, Arithmetic, Joined, IsNatSucc, IsNatZero;
      if Unfinished(Scope(env, lctx), t, s) { NoOffset(t, s); }
      if Numeric(Scope(env, lctx), t, s) { NumericParts(Scope(env, lctx), t, s); }
      if IsNatZero(t) && IsNatZero(s) {
        NatZeroDefEq(t, s);
        return Done(LTrue);
      }
      var p, q := IsNatSucc(t), IsNatSucc(s);
      if p.None? || q.None? {
        return Done(LUndef);
      }
      r := ComparePreds(fuel, t, s, p.value, q.value);
    }

    method ComparePreds(fuel: nat, t: Expr, s: Expr, p: Expr, q: Expr) returns (r: Outcome<LBool>)
      requires Valid() && fuel > 0 && Ok(t) && Ok(s) && IsNatSucc(t) == Some(p) && IsNatSucc(s) == Some(q)
      modifies this`lctx, this`nextIdx, this`coreCache, this`whnfCache, this`failures, eqv
      ensures Valid() && nextIdx >= old(nextIdx) && lctx == old(lctx)
      ensures r == Done(LTrue) ==> DefEq(env, lets, t, s)
      ensures Joined(Scope(env, lctx), p, q) ==> r == Raised || r == Done(LTrue)
      decreases fuel, 3
    {
      hide DefEq, StateOk, Scoped, Joined, IsNatSucc;
      NatPredScoped(t, p, nextIdx);
      NatPredScoped(s, q, nextIdx);
      var b := IsDefEqCore(fuel - 1, p, q);
      if b == Done(true) { NatSuccCong(t, p, s, q); }
      r := ToLBool(b);
    }

    lemma {:induction false} NumericParts(sc: Scope, t: Expr, s: Expr)
      requires Numeric(sc, t, s)
      ensures IsNatSucc(t).Some? && IsNatSucc(s).Some? ==> Joined(sc, IsNatSucc(t).value, IsNatSucc(s).value)
      ensures (IsNatSucc(t).None? || IsNatSucc(s).None?) && !(IsNatZero(t) && IsNatZero(s)) ==> Arithmetic(sc, t, s)
    {
      hide NumbersMeet, Joined;
      if IsNatSucc(t).Some? && IsNatSucc(s).Some? && NumbersMeet(sc.env, sc.lctx, t, s) {
        NumbersPred(sc.env, sc.lctx, t, s);
        NumbersJoined(sc, IsNatSucc(t).value, IsNatSucc(s).value);
      }
    }

    /** Neither side of a pair that unfolding joins is a number. */
    lemma {:induction false} NoOffset(t: Expr, s: Expr)
      requires Unfinished(Scope(env, lctx), t, s)
      ensures !(IsNatZero(t) && IsNatZero(s)) && (IsNatSucc(t).None? || IsNatSucc(s).None?)
    {
      hide Meets, Unfolds;
      UnfinishedHeads(Scope(env, lctx), t, s);
      OrdinaryHead(Scope(env, lctx), t);
      OrdinaryHead(Scope(env, lctx), s);
      var j :| Meets(Scope(env, lctx), true, j, t, s);
      MeetsJoined(Scope(env, lctx), true, j, t, s);
      if t.Lit? && s.Lit? { JoinedAtoms(Scope(env, lctx), t, s); }
    }

    lemma {:induction false} NatPredScoped(t: Expr, p: Expr, n: nat)
      requires IsNatSucc(t) == Some(p) && Scoped(t, Known(n))
      ensures Scoped(p, Known(n))
    {
    }

    /** `whnf_core(*unfold_definition(e), false, true)`. */
    method UnfoldAndWhnf(fuel: nat, e: Expr) returns (r: Outcome<Expr>)
      requires Valid() && fuel > 0 && Ok(e)
      modifies this`coreCache, this`whnfCache
      ensures Valid()
      ensures r.Done? ==> Reduces(env, lets, e, r.value) && Ok(r.value)
      ensures r.Done? ==> Contract(lctx, r.value).None?
      ensures r.Done? ==> forall m :: Unfolds(env, e, m) ==> Lands(Scope(env, lctx), m, r.value)
      ensures r.Done? ==> Unfoldable(env, e)
      decreases fuel, 0
    {
      hide StateOk, Reduces, Lands, DeltaStep;
      var next := UnfoldDefinition(e);
      if next.None? {
        return Raised;
      }
      r := WhnfCoreNext(fuel, e, next.value, false, true);
      if r.Done? { PlainContract(lctx, r.value); }
      if r.Done? { StateScoped(env, lets, sigma, nextIdx, lctx, coreCache, whnfCache, eqv.pairs, e, r.value); }
    }

    /** Reduce an application of a projection, if that changes it. */
    method TryUnfoldProjApp(fuel: nat, e: Expr) returns (r: Outcome<Option<Expr>>)
      requires Valid() && fuel > 0 && Ok(e)
      modifies this`coreCache, this`whnfCache
      ensures Valid()
      ensures r.Done? && r.value.Some? ==> Reduces(env, lets, e, r.value.value) && Ok(r.value.value)
      ensures r.Done? && r.value.Some? ==> AppFn(e).Proj? && !Frozen(Scope(env, lctx), AppFn(e))
      decreases fuel, 0
    {
      hide Lands, Frozen, Same, StateOk, HeadNormal, Reduces;
      if !AppFn(e).Proj? {
        return Done(None);
      }
      var w := WhnfCore(fuel - 1, e, false, false);
      if w.Raised? {
        return Raised;
      }
      if Frozen(Scope(env, lctx), AppFn(e)) { FrozenSettled(e, w.value); }
      StateScoped(env, lets, sigma, nextIdx, lctx, coreCache, whnfCache, eqv.pairs, e, w.value);
      r := Done(if Same(w.value, e) then None else Some(w.value));
    }

    lemma {:induction false} FrozenSettled(e: Expr, w: Expr)
      requires Frozen(Scope(env, lctx), AppFn(e)) && Lands(Scope(env, lctx), e, w) && HeadNormal(env, lets, lctx, w)
      ensures Same(w, e)
    {
      hide Rests, Lands, HeadNormal, Same;
      SpineSettled(e, w);
      SameSymm(e, w);
    }

    predicate FailedBefore(t: Expr, s: Expr)
      reads this`failures
    {
      var (a, b) := (Erase(t), Erase(s));
      if eqv.hash(t) < eqv.hash(s) then (a, b) in failures
      else if eqv.hash(t) > eqv.hash(s) then (b, a) in failures
      else (a, b) in failures || (b, a) in failures
    }

    method CacheFailure(t: Expr, s: Expr)
      requires Valid()
      modifies this`failures
      ensures Valid()
    {
      if eqv.hash(t) <= eqv.hash(s) {
        failures := failures + {(Erase(t), Erase(s))};
      } else {
        failures := failures + {(Erase(s), Erase(t))};
      }
    }

    /** Same constant at the head: compare the levels and arguments before unfolding. */
    method SameHeadArgs(fuel: nat, t: Expr, s: Expr) returns (r: Outcome<bool>)
      requires Valid() && fuel > 0 && Ok(t) && Ok(s)
      requires AppFn(t).Const? && AppFn(s).Const? && AppFn(t).name == AppFn(s).name
      modifies this`lctx, this`nextIdx, this`coreCache, this`whnfCache, this`failures, eqv
      ensures Valid() && nextIdx >= old(nextIdx) && lctx == old(lctx)
      ensures r == Done(true) ==> DefEq(env, lets, t, s)
      decreases fuel, 5
    {
      hide StateOk, HeadNormal, WeakHeadNormal, Reduces, Conv;
      r := Done(false);
      if !FailedBefore(t, s) {
        if LevelsDefEq(AppFn(t).levels, AppFn(s).levels) {
          r := IsDefEqArgs(fuel, t, s);
          LevelsDefEqSound(AppFn(t).levels, AppFn(s).levels);
          LevelStepDefEq(AppFn(t), AppFn(s));
        }
        if r == Done(false) {
          CacheFailure(t, s);
        }
      }
    }

    /** Unfold one side or both, as the reducibility hints say. */
    method UnfoldByHints(fuel: nat, t: Expr, s: Expr, c: int) returns (ok: bool, t': Expr, s': Expr)
      requires Valid() && fuel > 0 && Ok(t) && Ok(s)
      modifies this`coreCache, this`whnfCache
      ensures Valid() && Ok(t') && Ok(s')
      ensures Reduces(env, lets, t, t') && Reduces(env, lets, s, s')
      ensures ok && GoodHead(Scope(env, lctx), t) && GoodHead(Scope(env, lctx), s) ==> Advances(Scope(env, lctx), t, t') && Advances(Scope(env, lctx), s, s')
      decreases fuel, 1
    {
      hide Valid, Ok, Reduces, Contract, Advances, GoodHead, Unfolds, Lands;
      t', s', ok := t, s, true;
      SelfReduces(t);
      SelfReduces(s);
      StaysAdvances(Scope(env, lctx), t);
      StaysAdvances(Scope(env, lctx), s);
      if c <= 0 {
        var u := UnfoldAndWhnf(fuel, t);
        if u.Raised? {
          return false, t, s;
        }
        t' := u.value;
        if GoodHead(Scope(env, lctx), t) { UnfoldAdvances(Scope(env, lctx), t, t'); }
      }
      if c >= 0 {
        var u := UnfoldAndWhnf(fuel, s);
        if u.Raised? {
          return false, t', s;
        }
        s' := u.value;
        if GoodHead(Scope(env, lctx), s) { UnfoldAdvances(Scope(env, lctx), s, s'); }
      }
    }

    /** Only `t` can be unfolded: prefer reducing `s` if it is a projection application. */
    method UnfoldOneSide(fuel: nat, t: Expr, s: Expr) returns (ok: bool, t': Expr, s': Expr)
      requires Valid() && fuel > 0 && Ok(t) && Ok(s)
      modifies this`coreCache, this`whnfCache
      ensures Valid() && Ok(t') && Ok(s')
      ensures Reduces(env, lets, t, t') && Reduces(env, lets, s, s')
      ensures ok && GoodHead(Scope(env, lctx), t) && GoodHead(Scope(env, lctx), s) ==> Advances(Scope(env, lctx), t, t') && Advances(Scope(env, lctx), s, s')
      decreases fuel, 1
    {
      hide Valid, Ok, Reduces, Contract, Advances, GoodHead, Unfolds, Lands;
      SelfReduces(t);
      SelfReduces(s);
      var p := TryUnfoldProjApp(fuel, s);
      if p.Raised? {
        return false, t, s;
      }
      if p.value.Some? {
        if GoodHead(Scope(env, lctx), s) { NoProjection(Scope(env, lctx), s); }
        return true, t, p.value.value;
      }
      var u := UnfoldAndWhnf(fuel, t);
      if u.Raised? {
        return false, t, s;
      }
      if GoodHead(Scope(env, lctx), t) { UnfoldAdvances(Scope(env, lctx), t, u.value); }
      StaysAdvances(Scope(env, lctx), s);
      return true, u.value, s;
    }

    lemma {:induction false} NoProjection(sc: Scope, t: Expr)
      requires GoodHead(sc, t)
      ensures AppFn(t).Proj? ==> Frozen(sc, AppFn(t))
    {
    }

    lemma {:induction false} StaysAdvances(sc: Scope, t: Expr)
      ensures Advances(sc, t, t)
    {
    }

    lemma {:induction false} UnfoldAdvances(sc: Scope, t: Expr, r: Expr)
      requires GoodHead(sc, t) && Unfoldable(sc.env, t) && Contract(sc.lctx, r).None?
      requires forall m :: Unfolds(sc.env, t, m) ==> Lands(sc, m, r)
      ensures Advances(sc, t, r)
    {
      hide Unfolds, Lands;
      var m :| Unfolds(sc.env, t, m);
    }

    /** Both heads unfold: the arguments may decide, otherwise the hints say what to unfold. */
    method UnfoldBoth(fuel: nat, t: Expr, s: Expr, dt: Definition, ds: Definition)
      returns (st: Outcome<Status>, t': Expr, s': Expr)
      requires Valid() && fuel > 0 && Ok(t) && Ok(s) && IsDelta(t) == Some(dt) && IsDelta(s) == Some(ds)
      modifies this`lctx, this`nextIdx, this`coreCache, this`whnfCache, this`failures, eqv
      ensures Valid() && nextIdx >= old(nextIdx) && lctx == old(lctx)
      ensures Ok(t') && Ok(s') && Reduces(env, lets, t, t') && Reduces(env, lets, s, s')
      ensures st == Done(DefEqual) ==> DefEq(env, lets, t, s)
      ensures st == Done(Continue) && GoodHead(Scope(env, lctx), t) && GoodHead(Scope(env, lctx), s) ==> Advances(Scope(env, lctx), t, t') && Advances(Scope(env, lctx), s, s')
      ensures st != Done(DefDiff) && st != Done(DefUnknown)
      decreases fuel, 6, 0
    {
      hide StateOk, Reduces, Lands, Unfolds, GoodHead, Advances;
      ghost var n := nextIdx;
      var c := CompareHints(dt.hints, ds.hints);
      var sameInfo: bool := *;
      if c == 0 && t.App? && s.App? && sameInfo && AppFn(t).name == AppFn(s).name && dt.hints.Regular? {
        var b := SameHeadArgs(fuel, t, s);
        ScopedMono(t, n, nextIdx);
        ScopedMono(s, n, nextIdx);
        SelfReduces(t);
        SelfReduces(s);
        if b.Raised? {
          return Raised, t, s;
        } else if b.value {
          return Done(DefEqual), t, s;
        }
      }
      var ok;
      ok, t', s' := UnfoldByHints(fuel, t, s, c);
      st := if ok then Done(Continue) else Raised;
    }

    /** Unfold the side or sides that the heads ask for. */
    method UnfoldHeads(fuel: nat, t: Expr, s: Expr) returns (st: Outcome<Status>, t': Expr, s': Expr)
      requires Valid() && fuel > 0 && Ok(t) && Ok(s)
      modifies this`lctx, this`nextIdx, this`coreCache, this`whnfCache, this`failures, eqv
      ensures Valid() && nextIdx >= old(nextIdx) && lctx == old(lctx)
      ensures Ok(t') && Ok(s') && Reduces(env, lets, t, t') && Reduces(env, lets, s, s')
      ensures st == Done(DefEqual) ==> DefEq(env, lets, t, s)
      ensures st == Done(Continue) && GoodHead(Scope(env, lctx), t) && GoodHead(Scope(env, lctx), s) ==> Advances(Scope(env, lctx), t, t') && Advances(Scope(env, lctx), s, s')
      ensures st != Done(DefDiff)
      ensures st == Done(DefUnknown) ==> t' == t && s' == s && !Unfoldable(env, t) && !Unfoldable(env, s)
      ensures Undefined(env, t) && Undefined(env, s) ==> st == Done(DefUnknown)
      decreases fuel, 6, 1
    {
      hide StateOk, Reduces, Lands, Unfolds, GoodHead, Advances;
      var dt, ds := IsDelta(t), IsDelta(s);
      var ok := true;
      if dt.Some? && ds.Some? {
        st, t', s' := UnfoldBoth(fuel, t, s, dt.value, ds.value);
        return;
      } else if dt.Some? {
        ok, t', s' := UnfoldOneSide(fuel, t, s);
      } else if ds.Some? {
        ok, s', t' := UnfoldOneSide(fuel, s, t);
      } else {
        SelfReduces(t);
        SelfReduces(s);
        return Done(DefUnknown), t, s;
      }
      st := if ok then Done(Continue) else Raised;
    }

    method LazyDeltaStep(fuel: nat, t: Expr, s: Expr) returns (st: Outcome<Status>, t': Expr, s': Expr)
      requires Valid() && fuel > 0 && Ok(t) && Ok(s)
      modifies this`lctx, this`nextIdx, this`coreCache, this`whnfCache, this`failures, eqv
      ensures Valid() && nextIdx >= old(nextIdx) && lctx == old(lctx)
      ensures Ok(t') && Ok(s') && Reduces(env, lets, t, t') && Reduces(env, lets, s, s')
      ensures st == Done(DefEqual) ==> DefEq(env, lets, t, s)
      ensures Unfinished(Scope(env, lctx), t, s) ==> st != Done(DefDiff)
      ensures Unfinished(Scope(env, lctx), t, s) && st == Done(Continue) ==> Unfinished(Scope(env, lctx), t', s')
      ensures Unfinished(Scope(env, lctx), t, s) && st == Done(DefUnknown) ==> t' == t && s' == s && SpinesJoined(Scope(env, lctx), t, s)
      ensures Undefined(env, t) && Undefined(env, s) ==> st == Done(DefUnknown) && t' == t && s' == s
      decreases fuel, 6, 2
    {
      hide StateOk, HeadNormal, WeakHeadNormal, Reduces, Conv, Unfinished, GoodHead, Advances, SpinesJoined, Joined, Easy, Meets;
      if Unfinished(Scope(env, lctx), t, s) { UnfinishedHeads(Scope(env, lctx), t, s); }
      st, t', s' := UnfoldHeads(fuel, t, s);
      if st == Done(DefUnknown) {
        if Unfinished(Scope(env, lctx), t, s) { FinalSpines(Scope(env, lctx), t, s); }
      }
      if st == Done(Continue) {
        if Unfinished(Scope(env, lctx), t, s) { UnfinishedAdvance(Scope(env, lctx), t, s, t', s'); }
        st := QuickStatus(fuel, t', s');
        if st == Done(DefEqual) { JoinDefEq(env, lets, t, t', s, s'); }
        if st == Done(Continue) && Unfinished(Scope(env, lctx), t, s) { StillUnfinished(Scope(env, lctx), t', s'); }
      }
    }

    lemma {:induction false} StillUnfinished(sc: Scope, t: Expr, s: Expr)
      requires exists j :: Meets(sc, true, j, t, s)
      requires Contract(sc.lctx, t).None? && Contract(sc.lctx, s).None?
      requires !Easy(t, s)
      ensures Unfinished(sc, t, s)
    {
    }

    method QuickStatus(fuel: nat, t: Expr, s: Expr) returns (st: Outcome<Status>)
      requires Valid() && fuel > 0 && Ok(t) && Ok(s)
      modifies this`lctx, this`nextIdx, this`coreCache, this`whnfCache, this`failures, eqv
      ensures Valid() && nextIdx >= old(nextIdx) && lctx == old(lctx)
      ensures Ok(t) && Ok(s)
      ensures st == Done(DefEqual) ==> DefEq(env, lets, t, s)
      ensures Joined(Scope(env, lctx), t, s) ==> st != Done(DefDiff)
      ensures st == Done(Continue) ==> !Easy(t, s)
      ensures st != Done(DefUnknown)
      decreases fuel, 5
    {
      hide Joined, Same, StateOk, Easy;
      ghost var n := nextIdx;
      var q := QuickIsDefEq(fuel, t, s, false);
      ScopedMono(t, n, nextIdx);
      ScopedMono(s, n, nextIdx);
      match q
      case Raised => st := Raised;
      case Done(LTrue) => st := Done(DefEqual);
      case Done(LFalse) => st := Done(DefDiff);
      case Done(LUndef) => st := Done(Continue);
    }

    /** Evaluate a closed arithmetic side and compare; `LUndef` when neither side is one. */
    method CompareNat(fuel: nat, t: Expr, s: Expr) returns (r: Outcome<LBool>)
      requires Valid() && fuel > 0 && Ok(t) && Ok(s)
      modifies this`lctx, this`nextIdx, this`coreCache, this`whnfCache, this`failures, eqv
      ensures Valid() && nextIdx >= old(nextIdx) && lctx == old(lctx)
      ensures r == Done(LTrue) ==> DefEq(env, lets, t, s)
      ensures Unfinished(Scope(env, lctx), t, s) ==> r == Raised || r == Done(LUndef)
      ensures Arithmetic(Scope(env, lctx), t, s) ==> r == Raised || r == Done(LTrue)
      ensures Inert(env, t) && Inert(env, s) ==> r == Raised || r == Done(LUndef)
      decreases fuel, 4
    {
      hide Valid, Ok, Unfinished, DefEq, Arithmetic, SuccApp, BinOp;
      if HasFVar(t) || HasFVar(s) {
        if Arithmetic(Scope(env, lctx), t, s) { NumbersGround(t, s); }
        return Done(LUndef);
      }
      if Unfinished(Scope(env, lctx), t, s) { NoArithmetic(t, s); }
      r := CompareClosed(fuel, t, s);
    }

    lemma {:induction false} NumbersGround(t: Expr, s: Expr)
      requires Arithmetic(Scope(env, lctx), t, s)
      ensures !HasFVar(t) && !HasFVar(s)
    {
      hide Evaluates;
      NoVariables(t);
      NoVariables(s);
    }

    lemma {:induction false} NoVariables(e: Expr)
      requires FVars(e) == {}
      ensures !HasFVar(e)
    {
      match e
      case App(f, a) => NoVariables(f); NoVariables(a);
      case Lambda(_, d, b) => NoVariables(d); NoVariables(b);
      case Pi(_, d, b) => NoVariables(d); NoVariables(b);
      case Let(_, t, v, b, _) => NoVariables(t); NoVariables(v); NoVariables(b);
      case MData(_, x) => NoVariables(x);
      case Proj(_, _, x) => NoVariables(x);
      case _ =>
    }

    /** The left side first. */
    method CompareClosed(fuel: nat, t: Expr, s: Expr) returns (r: Outcome<LBool>)
      requires Valid() && fuel > 0 && Ok(t) && Ok(s)
      modifies this`lctx, this`nextIdx, this`coreCache, this`whnfCache, this`failures, eqv
      ensures Valid() && nextIdx >= old(nextIdx) && lctx == old(lctx)
      ensures r == Done(LTrue) ==> DefEq(env, lets, t, s)
      ensures !SuccApp(t) && !BinOp(env, t) && !SuccApp(s) && !BinOp(env, s) ==> r == Raised || r == Done(LUndef)
      ensures Arithmetic(Scope(env, lctx), t, s) ==> r == Raised || r == Done(LTrue)
      decreases fuel, 3, 2
    {
      hide Valid, Ok, DefEq, Reduces, Stuck, Computes, WeakHeadNormal, SuccApp, BinOp, Arithmetic, Joined;
      var tv := ReduceNat(fuel, t);
      if tv.Raised? {
        return Raised;
      }
      if Arithmetic(Scope(env, lctx), t, s) { LeftComputed(t, s, tv.value); }
      if tv.value.Some? {
        r := CompareLeftNat(fuel, t, s, tv.value.value);
      } else {
        r := CompareRightNat(fuel, t, s);
      }
    }

    method CompareLeftNat(fuel: nat, ghost t: Expr, s: Expr, v: Expr) returns (r: Outcome<LBool>)
      requires Valid() && fuel > 0 && Ok(t) && Ok(s) && Reduces(env, lets, t, v)
      modifies this`lctx, this`nextIdx, this`coreCache, this`whnfCache, this`failures, eqv
      ensures Valid() && nextIdx >= old(nextIdx) && lctx == old(lctx)
      ensures r == Done(LTrue) ==> DefEq(env, lets, t, s)
      ensures Joined(Scope(env, lctx), v, s) ==> r == Raised || r == Done(LTrue)
      decreases fuel, 3, 1
    {
      hide Valid, Ok, DefEq, Reduces, Joined;
      SelfReduces(s);
      r := CompareReducts(fuel, t, v, s, s);
    }

    method CompareRightNat(fuel: nat, t: Expr, s: Expr) returns (r: Outcome<LBool>)
      requires Valid() && fuel > 0 && Ok(t) && Ok(s)
      modifies this`lctx, this`nextIdx, this`coreCache, this`whnfCache, this`failures, eqv
      ensures Valid() && nextIdx >= old(nextIdx) && lctx == old(lctx)
      ensures r == Done(LTrue) ==> DefEq(env, lets, t, s)
      ensures !SuccApp(s) && !BinOp(env, s) ==> r == Raised || r == Done(LUndef)
      ensures Arithmetic(Scope(env, lctx), t, s) && (t.Const? || t.Lit?) ==> r == Raised || r == Done(LTrue)
      decreases fuel, 3, 1
    {
      hide Valid, Ok, DefEq, Reduces, Stuck, Computes, WeakHeadNormal, SuccApp, BinOp, Arithmetic, Joined;
      var sv := ReduceNat(fuel, s);
      if sv.Raised? {
        return Raised;
      }
      if Arithmetic(Scope(env, lctx), t, s) && (t.Const? || t.Lit?) { RightComputed(t, s, sv.value); }
      if sv.value.None? {
        return Done(LUndef);
      }
      SelfReduces(t);
      r := CompareReducts(fuel, t, t, s, sv.value.value);
    }

    lemma {:induction false} LeftComputed(t: Expr, s: Expr, v: Option<Expr>)
      requires Arithmetic(Scope(env, lctx), t, s) && Computes(env, lctx, t, v) && (v.Some? ==> SuccApp(t) || BinOp(env, t))
      ensures if v.Some? then Joined(Scope(env, lctx), v.value, s) else t.Const? || t.Lit?
    {
      hide NumbersMeet, Computes, Joined;
      NumbersComputed(env, lctx, t, s, v);
      if v.Some? { NumbersJoined(Scope(env, lctx), v.value, s); }
    }

    lemma {:induction false} RightComputed(t: Expr, s: Expr, v: Option<Expr>)
      requires Arithmetic(Scope(env, lctx), t, s) && (t.Const? || t.Lit?) && Computes(env, lctx, s, v) && (v.Some? ==> SuccApp(s) || BinOp(env, s))
      ensures v.Some? && Joined(Scope(env, lctx), t, v.value)
    {
      hide NumbersMeet, Computes, Joined;
      NumbersSymm(env, lctx, t, s);
      NumbersComputed(env, lctx, s, t, v);
      if v.None? {
        ValuesMeet(env, lctx, t, s);
      } else {
        NumbersSymm(env, lctx, v.value, t);
        NumbersJoined(Scope(env, lctx), t, v.value);
      }
    }

    lemma {:induction false} NoArithmetic(t: Expr, s: Expr)
      requires Unfinished(Scope(env, lctx), t, s)
      ensures !SuccApp(t) && !BinOp(env, t) && !SuccApp(s) && !BinOp(env, s)
    {
      hide Unfinished, Unfolds;
      UnfinishedHeads(Scope(env, lctx), t, s);
      OrdinaryHead(Scope(env, lctx), t);
      OrdinaryHead(Scope(env, lctx), s);
    }

    lemma {:induction false} OrdinaryHead(sc: Scope, t: Expr)
      requires GoodHead(sc, t)
      ensures !SuccApp(t) && !BinOp(sc.env, t) && t != NAT_ZERO
    {
      hide Unfolds;
      ArithmeticHead(sc.env, t);
    }

    method CompareReducts(fuel: nat, ghost t: Expr, t': Expr, ghost s: Expr, s': Expr) returns (r: Outcome<LBool>)
      requires Valid() && fuel > 0 && Ok(t) && Ok(s) && Reduces(env, lets, t, t') && Reduces(env, lets, s, s')
      modifies this`lctx, this`nextIdx, this`coreCache, this`whnfCache, this`failures, eqv
      ensures Valid() && nextIdx >= old(nextIdx) && lctx == old(lctx)
      ensures r == Done(LTrue) ==> DefEq(env, lets, t, s)
      ensures Joined(Scope(env, lctx), t', s') ==> r == Raised || r == Done(LTrue)
      decreases fuel, 3, 0
    {
      hide Valid, Ok, Reduces, DefEq, Joined;
      ReductOk(t, t');
      ReductOk(s, s');
      var b := IsDefEqCore(fuel - 1, t', s');
      if b == Done(true) { JoinDefEq(env, lets, t, t', s, s'); }
      r := ToLBool(b);
    }

    /** One round of `lazy_delta_reduction`. */
    method LazyDeltaRound(fuel: nat, t: Expr, s: Expr) returns (st: Outcome<Status>, t': Expr, s': Expr)
      requires Valid() && fuel > 0 && Ok(t) && Ok(s)
      modifies this`lctx, this`nextIdx, this`coreCache, this`whnfCache, this`failures, eqv
      ensures Valid() && nextIdx >= old(nextIdx) && lctx == old(lctx)
      ensures Ok(t') && Ok(s') && Reduces(env, lets, t, t') && Reduces(env, lets, s, s')
      ensures st == Done(DefEqual) ==> DefEq(env, lets, t, s)
      ensures Unfinished(Scope(env, lctx), t, s) ==> st != Done(DefDiff)
      ensures Unfinished(Scope(env, lctx), t, s) && st == Done(Continue) ==> Unfinished(Scope(env, lctx), t', s')
      ensures Unfinished(Scope(env, lctx), t, s) && st == Done(DefUnknown) ==> t' == t && s' == s && SpinesJoined(Scope(env, lctx), t, s)
      ensures Numeric(Scope(env, lctx), t, s) ==> st == Raised || st == Done(DefEqual)
      ensures Inert(env, t) && Inert(env, s) ==> st == Raised || (st == Done(DefUnknown) && t' == t && s' == s)
      decreases fuel, 7
    {
      hide StateOk, Unfinished, SpinesJoined, Reduces, DefEq, Scoped, Known, Numeric;
      SelfReduces(t);
      SelfReduces(s);
      ghost var n := nextIdx;
      var r := CompareNumbers(fuel, t, s);
      StillOk(t, s, n);
      if r == Done(LUndef) {
        st, t', s' := LazyDeltaStep(fuel, t, s);
      } else {
        t', s' := t, s;
        st := match r case Raised => Raised case Done(LTrue) => Done(DefEqual) case _ => Done(DefDiff);
      }
    }

    /** Successors, then closed arithmetic. */
    method CompareNumbers(fuel: nat, t: Expr, s: Expr) returns (r: Outcome<LBool>)
      requires Valid() && fuel > 0 && Ok(t) && Ok(s)
      modifies this`lctx, this`nextIdx, this`coreCache, this`whnfCache, this`failures, eqv
      ensures Valid() && nextIdx >= old(nextIdx) && lctx == old(lctx)
      ensures r == Done(LTrue) ==> DefEq(env, lets, t, s)
      ensures Unfinished(Scope(env, lctx), t, s) ==> r == Raised || r == Done(LUndef)
      ensures Numeric(Scope(env, lctx), t, s) ==> r == Raised || r == Done(LTrue)
      ensures Inert(env, t) && Inert(env, s) ==> r == Raised || r == Done(LUndef)
      decreases fuel, 5
    {
      hide StateOk, Unfinished, DefEq, Scoped, Known, Numeric, Arithmetic, Inert;
      ghost var n := nextIdx;
      r := IsDefEqOffset(fuel, t, s);
      StillOk(t, s, n);
      if r == Done(LUndef) {
        r := CompareNat(fuel, t, s);
      }
    }

    lemma {:induction false} StillOk(t: Expr, s: Expr, n: nat)
      requires Scoped(t, Known(n)) && Scoped(s, Known(n)) && n <= nextIdx
      ensures Ok(t) && Ok(s)
    {
      ScopedMono(t, n, nextIdx);
      ScopedMono(s, n, nextIdx);
    }

    /** One round for the pair reached from `t0` and `s0`. */
    method LazyDeltaFrom(fuel: nat, ghost t0: Expr, ghost s0: Expr, t: Expr, s: Expr)
      returns (st: Outcome<Status>, t': Expr, s': Expr)
      requires Valid() && fuel > 0 && Ok(t) && Ok(s) && Reduces(env, lets, t0, t) && Reduces(env, lets, s0, s)
      modifies this`lctx, this`nextIdx, this`coreCache, this`whnfCache, this`failures, eqv
      ensures Valid() && nextIdx >= old(nextIdx) && lctx == old(lctx)
      ensures Ok(t') && Ok(s') && Reduces(env, lets, t0, t') && Reduces(env, lets, s0, s')
      ensures st == Done(DefEqual) ==> DefEq(env, lets, t0, s0)
      ensures Unfinished(Scope(env, lctx), t, s) ==> st != Done(DefDiff)
      ensures Unfinished(Scope(env, lctx), t, s) && st == Done(Continue) ==> Unfinished(Scope(env, lctx), t', s')
      ensures Unfinished(Scope(env, lctx), t, s) && st == Done(DefUnknown) ==> t' == t && s' == s && SpinesJoined(Scope(env, lctx), t, s)
      ensures Numeric(Scope(env, lctx), t, s) ==> st == Raised || st == Done(DefEqual)
      ensures Inert(env, t) && Inert(env, s) ==> st == Raised || (st == Done(DefUnknown) && t' == t && s' == s)
      decreases fuel, 8
    {
      hide StateOk, Unfinished, SpinesJoined, Numeric, Reduces, DefEq, Scoped, Known, Inert;
      st, t', s' := LazyDeltaRound(fuel, t, s);
      RedTrans(env, lets, t0, t, t');
      RedTrans(env, lets, s0, s, s');
      if st == Done(DefEqual) { JoinDefEq(env, lets, t0, t, s0, s); }
    }

    method LazyDelta(fuel: nat, t: Expr, s: Expr) returns (r: Outcome<LBool>, t': Expr, s': Expr)
      requires Valid() && fuel > 0 && Ok(t) && Ok(s)
      modifies this`lctx, this`nextIdx, this`coreCache, this`whnfCache, this`failures, eqv
      ensures Valid() && nextIdx >= old(nextIdx) && lctx == old(lctx)
      ensures Ok(t') && Ok(s') && Reduces(env, lets, t, t') && Reduces(env, lets, s, s')
      ensures r == Done(LTrue) ==> DefEq(env, lets, t, s)
      ensures Unfinished(Scope(env, lctx), t, s) ==> r != Done(LFalse)
      ensures Unfinished(Scope(env, lctx), t, s) && r == Done(LUndef) ==> Unfinished(Scope(env, lctx), t', s') && SpinesJoined(Scope(env, lctx), t', s')
      ensures Numeric(Scope(env, lctx), t, s) ==> r == Raised || r == Done(LTrue)
      ensures Inert(env, t) && Inert(env, s) ==> r == Raised || (r == Done(LUndef) && t' == t && s' == s)
      decreases fuel, 9
    {
      hide Valid, Ok, Unfinished, SpinesJoined, Numeric, Reduces, DefEq, Inert;
      t', s' := t, s;
      var rounds := fuel;
      SelfReduces(t);
      SelfReduces(s);
      while rounds > 0
        invariant rounds <= fuel
        invariant Valid() && nextIdx >= old(nextIdx) && lctx == old(lctx) && Ok(t') && Ok(s')
        invariant Reduces(env, lets, t, t') && Reduces(env, lets, s, s')
        invariant Unfinished(Scope(env, lctx), t, s) ==> Unfinished(Scope(env, lctx), t', s')
        invariant Numeric(Scope(env, lctx), t, s) || (Inert(env, t) && Inert(env, s)) ==> t' == t && s' == s
        decreases rounds
      {
        var st;
        st, t', s' := LazyDeltaFrom(rounds, t, s, t', s');
        match st {
          case Done(Continue) =>
          case Done(DefEqual) => return Done(LTrue), t', s';
          case Done(DefDiff) => return Done(LFalse), t', s';
          case Done(DefUnknown) => return Done(LUndef), t', s';
          case Raised => return Raised, t', s';
        }
        rounds := rounds - 1;
      }
      r := Raised;
    }

    /** `t.idx =?= s.idx`, unfolding the two structures lazily. */
    method LazyDeltaProj(fuel: nat, t: Expr, s: Expr, idx: nat, ghost n1: Name, ghost n2: Name) returns (r: Outcome<bool>)
      requires Valid() && fuel > 0 && Ok(t) && Ok(s)
      modifies this`lctx, this`nextIdx, this`coreCache, this`whnfCache, this`failures, eqv
      ensures Valid() && nextIdx >= old(nextIdx) && lctx == old(lctx)
      ensures r == Done(true) ==> DefEq(env, lets, Proj(n1, idx, t), Proj(n2, idx, s))
      ensures FieldsJoined(Scope(env, lctx), idx, t, s) ==> r != Done(false)
      decreases fuel, 8
    {
      hide Valid, Ok, Reduces, DefEq, Undefined, FieldsJoined;
      if FieldsJoined(Scope(env, lctx), idx, t, s) { FieldsStay(Scope(env, lctx), idx, t, s); }
      var t', s', st := t, s, Done(Continue);
      var rounds := fuel;
      SelfReduces(t);
      SelfReduces(s);
      while rounds > 0 && st == Done(Continue)
        invariant rounds <= fuel
        invariant Valid() && nextIdx >= old(nextIdx) && lctx == old(lctx) && Ok(t') && Ok(s')
        invariant Reduces(env, lets, t, t') && Reduces(env, lets, s, s')
        invariant st == Done(DefEqual) ==> DefEq(env, lets, t, s)
        invariant FieldsJoined(Scope(env, lctx), idx, t, s) ==> t' == t && s' == s && (st == Done(Continue) || st == Done(DefUnknown))
        decreases rounds
      {
        st, t', s' := UnfoldRound(rounds, t, s, t', s');
        rounds := rounds - 1;
      }
      match st
      case Raised => r := Raised;
      case Done(Continue) => r := Raised;
      case Done(DefEqual) =>
        FieldsDefEq(t, s, idx, n1, n2);
        r := Done(true);
      case _ =>
        r := CompareFields(fuel, t', s', idx, n1, n2);
        if r == Done(true) { ProjJoin(t, t', s, s', idx, n1, n2); }
    }

    /** Structures that are joined, where neither projection can be reduced. */
    ghost predicate FieldsJoined(sc: Scope, idx: nat, t: Expr, s: Expr) {
      Joined(sc, t, s) && !HasField(sc.env, t, idx) && Undefined(sc.env, t) && Undefined(sc.env, s)
    }

    lemma {:induction false} FieldsStay(sc: Scope, idx: nat, t: Expr, s: Expr)
      requires FieldsJoined(sc, idx, t, s)
      ensures Undefined(sc.env, t) && Undefined(sc.env, s)
    {
    }

    lemma {:induction false} FrozenFields(sc: Scope, p: Expr, q: Expr)
      requires Frozen(sc, p) && Frozen(sc, q) && p.pidx == q.pidx && Joined(sc, p.struct, q.struct)
      ensures FieldsJoined(sc, p.pidx, p.struct, q.struct)
    {
      hide Joined, Frozen, HasField;
      FrozenStays(sc, p);
      FrozenStays(sc, q);
    }

    /** One unfolding step of the pair reached from `t0` and `s0`. */
    method UnfoldRound(fuel: nat, ghost t0: Expr, ghost s0: Expr, t: Expr, s: Expr)
      returns (st: Outcome<Status>, t': Expr, s': Expr)
      requires Valid() && fuel > 0 && Ok(t) && Ok(s) && Reduces(env, lets, t0, t) && Reduces(env, lets, s0, s)
      modifies this`lctx, this`nextIdx, this`coreCache, this`whnfCache, this`failures, eqv
      ensures Valid() && nextIdx >= old(nextIdx) && lctx == old(lctx)
      ensures Ok(t') && Ok(s') && Reduces(env, lets, t0, t') && Reduces(env, lets, s0, s')
      ensures st == Done(DefEqual) ==> DefEq(env, lets, t0, s0)
      ensures Undefined(env, t) && Undefined(env, s) ==> st == Done(DefUnknown) && t' == t && s' == s
      decreases fuel, 7
    {
      hide StateOk, HeadNormal, WeakHeadNormal, Reduces, DefEq, Undefined;
      st, t', s' := LazyDeltaStep(fuel, t, s);
      RedTrans(env, lets, t0, t, t');
      RedTrans(env, lets, s0, s, s');
      if st == Done(DefEqual) { JoinDefEq(env, lets, t0, t, s0, s); }
    }

    lemma {:induction false} ProjJoin(t: Expr, t': Expr, s: Expr, s': Expr, idx: nat, n1: Name, n2: Name)
      requires Reduces(env, lets, t, t') && Reduces(env, lets, s, s')
      requires DefEq(env, lets, Proj(n1, idx, t'), Proj(n2, idx, s'))
      ensures DefEq(env, lets, Proj(n1, idx, t), Proj(n2, idx, s))
    {
      RedProj(env, lets, n1, idx, t, t');
      RedProj(env, lets, n2, idx, s, s');
      JoinDefEq(env, lets, Proj(n1, idx, t), Proj(n1, idx, t'), Proj(n2, idx, s), Proj(n2, idx, s'));
    }

    lemma {:induction false} FieldOk(t: Expr, idx: nat, n: Name, v: Expr)
      requires Valid() && Ok(t) && Reduces(env, lets, Proj(n, idx, t), v)
      ensures Ok(v)
    {
      hide StateOk, Reduces;
      StateScoped(env, lets, sigma, nextIdx, lctx, coreCache, whnfCache, eqv.pairs, Proj(n, idx, t), v);
    }

    lemma {:induction false} FieldsDefEq(t: Expr, s: Expr, idx: nat, n1: Name, n2: Name)
      requires DefEq(env, lets, t, s)
      ensures DefEq(env, lets, Proj(n1, idx, t), Proj(n2, idx, s))
    {
      ConvProj(StepRel(env, lets), Proj(n1, idx, t), Proj(n2, idx, s));
    }

    method CompareFields(fuel: nat, t: Expr, s: Expr, idx: nat, ghost n1: Name, ghost n2: Name) returns (r: Outcome<bool>)
      requires Valid() && fuel > 0 && Ok(t) && Ok(s)
      modifies this`lctx, this`nextIdx, this`coreCache, this`whnfCache, this`failures, eqv
      ensures Valid() && nextIdx >= old(nextIdx) && lctx == old(lctx)
      ensures r == Done(true) ==> DefEq(env, lets, Proj(n1, idx, t), Proj(n2, idx, s))
      ensures FieldsJoined(Scope(env, lctx), idx, t, s) ==> r != Done(false)
      decreases fuel, 4
    {
      hide StateOk, HeadNormal, WeakHeadNormal, Reduces, DefEq, Scoped, Known, HasField, Joined, Undefined;
      var a := ReduceProjCore(t, idx, n1);
      var b := ReduceProjCore(s, idx, n2);
      if a.Some? && b.Some? {
        FieldOk(t, idx, n1, a.value);
        FieldOk(s, idx, n2, b.value);
        r := IsDefEqCore(fuel - 1, a.value, b.value);
        if r == Done(true) { JoinDefEq(env, lets, Proj(n1, idx, t), a.value, Proj(n2, idx, s), b.value); }
      } else {
        r := IsDefEqCore(fuel - 1, t, s);
        if r == Done(true) { FieldsDefEq(t, s, idx, n1, n2); }
      }
    }

    // -------------------------------------------------------------- the main test

    /** Constants, variables and projections after lazy unfolding. */
    method CompareHeads(fuel: nat, t: Expr, s: Expr) returns (r: Outcome<bool>)
      requires Valid() && fuel > 0 && Ok(t) && Ok(s)
      modifies this`lctx, this`nextIdx, this`coreCache, this`whnfCache, this`failures, eqv
      ensures Valid() && nextIdx >= old(nextIdx) && lctx == old(lctx)
      ensures r == Done(true) ==> DefEq(env, lets, t, s)
      ensures Unfinished(Scope(env, lctx), t, s) && SpinesJoined(Scope(env, lctx), t, s) && !t.App? ==> r != Done(false)
      decreases fuel, 9
    {
      hide Unfinished, SpinesJoined, FieldsJoined;
      r := Done(false);
      if Unfinished(Scope(env, lctx), t, s) && SpinesJoined(Scope(env, lctx), t, s) && !t.App? { HeadsAgreed(t, s); }
      if t.Const? && s.Const? && t.name == s.name && LevelsDefEq(t.levels, s.levels) {
        LevelsDefEqSound(t.levels, s.levels);
        LevelStepDefEq(t, s);
        return Done(true);
      }
      if t.FVar? && s.FVar? && t.fvar == s.fvar {
        ConvRefl(StepRel(env, lets), t, s);
        return Done(true);
      }
      if t.Proj? && s.Proj? && t.pidx == s.pidx {
        r := LazyDeltaProj(fuel, t.struct, s.struct, t.pidx, t.sname, s.sname);
      }
    }

    /** Two heads without arguments are the same constant at equivalent levels, or frozen projections
        of structures that are joined. */
    lemma {:induction false} HeadsAgreed(t: Expr, s: Expr)
      requires Unfinished(Scope(env, lctx), t, s) && SpinesJoined(Scope(env, lctx), t, s) && !t.App?
      ensures (t.Const? && s.Const? && t.name == s.name && LevelsDefEq(t.levels, s.levels))
        || (t.Proj? && s.Proj? && t.pidx == s.pidx && FieldsJoined(Scope(env, lctx), t.pidx, t.struct, s.struct))
    {
      hide Joined, Meets, FieldsJoined, Rests;
      assert AppFn(t) == t && AppFn(s) == s;
      if t.Proj? && s.Proj? && Frozen(Scope(env, lctx), t) && Frozen(Scope(env, lctx), s) && t.pidx == s.pidx && Joined(Scope(env, lctx), t.struct, s.struct) {
        FrozenFields(Scope(env, lctx), t, s);
      } else {
        if t != s { LevelsAgreed(t.levels, s.levels); }
      }
    }

    lemma {:induction false} LevelsAgreed(ls: seq<L.Level>, ks: seq<L.Level>)
      requires LevelsAgree(ls, ks)
      ensures LevelsDefEq(ls, ks)
    {
      if ls != [] {
        assert LN.NormalForm(ls[0]) == LN.NormalForm(ks[0]);
        forall i | 0 <= i < |ls| - 1 ensures LN.NormalForm(ls[1..][i]) == LN.NormalForm(ks[1..][i]) {
          assert LN.NormalForm(ls[i + 1]) == LN.NormalForm(ks[i + 1]);
        }
        LevelsAgreed(ls[1..], ks[1..]);
      }
    }

    /** Reduce projections fully and start over, or compare weak-head normal forms. */
    method CompareNormal(fuel: nat, t: Expr, s: Expr) returns (r: Outcome<bool>)
      requires Valid() && fuel > 0 && Ok(t) && Ok(s)
      modifies this`lctx, this`nextIdx, this`coreCache, this`whnfCache, this`failures, eqv
      ensures Valid() && nextIdx >= old(nextIdx) && lctx == old(lctx)
      ensures r == Done(true) ==> DefEq(env, lets, t, s)
      ensures SpinesJoined(Scope(env, lctx), t, s) && t.App? ==> r != Done(false)
      ensures EtaEither(Scope(env, lctx), lets, inferType, t, s) ==> r != Done(false)
      decreases fuel, 9
    {
      hide Valid, Ok, HeadNormal, Reduces, Lands, SpinesJoined, EtaEither, EtaMeets, Joined, DefEq;
      var t2 := WhnfCore(fuel - 1, t, false, false);
      if t2.Raised? {
        return Raised;
      }
      var s2 := WhnfCore(fuel - 1, s, false, false);
      if s2.Raised? {
        return Raised;
      }
      if SpinesJoined(Scope(env, lctx), t, s) { SpinesSettled(t, s, t2.value, s2.value); }
      if EtaEither(Scope(env, lctx), lets, inferType, t, s) { EtaStaysPair(t, s, t2.value, s2.value); }
      var samePtr: bool := *;
      if !(samePtr && t2.value == t && s2.value == s) {
        r := CompareReduced(fuel, t, s, t2.value, s2.value);
      } else {
        r := CompareStopped(fuel, t, s);
      }
    }

    method CompareReduced(fuel: nat, ghost t: Expr, ghost s: Expr, t2: Expr, s2: Expr) returns (r: Outcome<bool>)
      requires Valid() && fuel > 0 && Ok(t) && Ok(s) && Reduces(env, lets, t, t2) && Reduces(env, lets, s, s2)
      modifies this`lctx, this`nextIdx, this`coreCache, this`whnfCache, this`failures, eqv
      ensures Valid() && nextIdx >= old(nextIdx) && lctx == old(lctx)
      ensures r == Done(true) ==> DefEq(env, lets, t, s)
      ensures Joined(Scope(env, lctx), t2, s2) || EtaMeets(Scope(env, lctx), lets, inferType, t2, s2) ==> r != Done(false)
      decreases fuel, 6
    {
      hide Valid, Ok, Reduces, Joined, EtaMeets, DefEq;
      ReductOk(t, t2);
      ReductOk(s, s2);
      r := IsDefEqCore(fuel - 1, t2, s2);
      if r == Done(true) { JoinDefEq(env, lets, t, t2, s, s2); }
    }

    /** Applications, then eta. */
    method CompareStopped(fuel: nat, t: Expr, s: Expr) returns (r: Outcome<bool>)
      requires Valid() && fuel > 0 && Ok(t) && Ok(s)
      modifies this`lctx, this`nextIdx, this`coreCache, this`whnfCache, this`failures, eqv
      ensures Valid() && nextIdx >= old(nextIdx) && lctx == old(lctx)
      ensures r == Done(true) ==> DefEq(env, lets, t, s)
      ensures SpinesJoined(Scope(env, lctx), t, s) && t.App? && s.App? ==> r != Done(false)
      ensures EtaEither(Scope(env, lctx), lets, inferType, t, s) ==> r != Done(false)
      decreases fuel, 6
    {
      hide StateOk, SpinesJoined, EtaEither, DefEq, Scoped, Known;
      ghost var n := nextIdx;
      r := IsDefEqApp(fuel, t, s);
      if r == Done(false) {
        StillOk(t, s, n);
        r := TryEtaExpansion(fuel, t, s);
      }
    }

    /** `whnf_core` leaves a function and a term at rest alone. */
    lemma {:induction false} EtaStaysPair(t: Expr, s: Expr, t2: Expr, s2: Expr)
      requires EtaEither(Scope(env, lctx), lets, inferType, t, s)
      requires Lands(Scope(env, lctx), t, t2) && HeadNormal(env, lets, lctx, t2) && Lands(Scope(env, lctx), s, s2) && HeadNormal(env, lets, lctx, s2)
      ensures EtaMeets(Scope(env, lctx), lets, inferType, t2, s2)
    {
      hide EtaEither, EtaMeets, Lands, HeadNormal;
      NormalContract(env, lets, lctx, t2);
      NormalContract(env, lets, lctx, s2);
      EtaMeetsNow(Scope(env, lctx), lets, inferType, t, s);
      EtaLands(Scope(env, lctx), lets, inferType, t, s, t2, s2);
      EtaMeetsNow(Scope(env, lctx), lets, inferType, t2, s2);
    }

    /** `whnf_core` leaves rigid spines alone. */
    lemma {:induction false} SpinesSettled(t: Expr, s: Expr, t2: Expr, s2: Expr)
      requires SpinesJoined(Scope(env, lctx), t, s)
      requires Lands(Scope(env, lctx), t, t2) && HeadNormal(env, lets, lctx, t2) && Lands(Scope(env, lctx), s, s2) && HeadNormal(env, lets, lctx, s2)
      ensures Joined(Scope(env, lctx), t2, s2) && (t.App? <==> s.App?)
    {
      hide Joined, Lands, HeadNormal, HeadsJoined, Rests;
      SpinesRest(Scope(env, lctx), t, s);
      SpineSettled(t, t2);
      SpineSettled(s, s2);
      SpinesMeet(Scope(env, lctx), t, s);
      JoinedSameBoth(Scope(env, lctx), t, s, t2, s2);
    }

    lemma {:induction false} SpinesRest(sc: Scope, t: Expr, s: Expr)
      requires SpinesJoined(sc, t, s)
      ensures Rests(sc, AppFn(t)) && Rests(sc, AppFn(s))
    {
      hide Joined, Rests;
      if RigidHead(sc, AppFn(t)) && RigidHead(sc, AppFn(s)) {
        RigidRests(sc, AppFn(t));
        RigidRests(sc, AppFn(s));
      }
    }

    lemma {:induction false} SpineSettled(t: Expr, t2: Expr)
      requires Rests(Scope(env, lctx), AppFn(t)) && Lands(Scope(env, lctx), t, t2) && HeadNormal(env, lets, lctx, t2)
      ensures Same(t, t2)
    {
      hide Lands, Rests, HeadNormal;
      RestStops(Scope(env, lctx), t);
      NormalContract(env, lets, lctx, t2);
      assert Path(lctx, 0, t, t);
      LandsAt(Scope(env, lctx), t, t2, 0, t);
    }

    /** Proof by reflection: a closed `t` against `Bool.true`. */
    method ReducesToTrue(fuel: nat, t: Expr, s: Expr) returns (r: Outcome<bool>)
      requires Valid() && fuel > 0 && Ok(t)
      modifies this`coreCache, this`whnfCache
      ensures Valid()
      ensures r == Done(true) ==> DefEq(env, lets, t, s)
      decreases fuel, 0
    {
      hide StateOk, HeadNormal, WeakHeadNormal, Reduces, Conv;
      if HasFVar(t) || !s.Const? || s.name != BOOL_TRUE {
        return Done(false);
      }
      var w := Whnf(fuel - 1, t);
      if w.Raised? {
        return Raised;
      }
      if w.value.Const? && w.value.name == BOOL_TRUE {
        LevelStepDefEq(w.value, s);
        ReducesDefEq(env, lets, t, w.value);
        ConvTrans(StepRel(env, lets), t, w.value, s);
        return Done(true);
      }
      r := Done(false);
    }

    /** After `whnf_core` without full projections: lazy unfolding, then the structural tests. */
    method CompareLazily(fuel: nat, t: Expr, s: Expr) returns (r: Outcome<bool>)
      requires Valid() && fuel > 0 && Ok(t) && Ok(s)
      modifies this`lctx, this`nextIdx, this`coreCache, this`whnfCache, this`failures, eqv
      ensures Valid() && nextIdx >= old(nextIdx) && lctx == old(lctx)
      ensures r == Done(true) ==> DefEq(env, lets, t, s)
      ensures Unfinished(Scope(env, lctx), t, s) || Numeric(Scope(env, lctx), t, s) ==> r != Done(false)
      ensures EtaEither(Scope(env, lctx), lets, inferType, t, s) ==> r != Done(false)
      decreases fuel, 10, 0
    {
      hide StateOk, Reduces, DefEq, Unfinished, SpinesJoined, Numeric, EtaEither, Inert, Scoped, Known;
      if EtaEither(Scope(env, lctx), lets, inferType, t, s) { EtaStops(Scope(env, lctx), lets, inferType, t, s); }
      var q, t', s' := LazyDelta(fuel, t, s);
      if q.Raised? {
        return Raised;
      }
      if q.value != LUndef {
        return Done(q.value == LTrue);
      }
      ghost var n := nextIdx;
      r := CompareHeads(fuel, t', s');
      if r == Done(false) {
        StillOk(t', s', n);
        r := CompareNormal(fuel, t', s');
      }
      if r == Done(true) { JoinDefEq(env, lets, t, t', s, s'); }
    }

    method IsDefEqCore(fuel: nat, t: Expr, s: Expr) returns (r: Outcome<bool>)
      requires Valid() && Ok(t) && Ok(s)
      modifies this`lctx, this`nextIdx, this`coreCache, this`whnfCache, this`failures, eqv
      ensures Valid() && nextIdx >= old(nextIdx) && lctx == old(lctx)
      ensures r == Done(true) ==> DefEq(env, lets, t, s)
      ensures Same(t, s) && fuel > 0 ==> r == Done(true)
      ensures Joined(Scope(env, lctx), t, s) ==> r != Done(false)
      ensures EtaMeets(Scope(env, lctx), lets, inferType, t, s) ==> r != Done(false)
      decreases fuel, 11
    {
      hide StateOk, Joined, EtaMeets, Easy, DefEq, Same;
      if fuel == 0 {
        return Raised;
      }
      ghost var n := nextIdx;
      var q := QuickIsDefEq(fuel, t, s, true);
      if q.Raised? {
        return Raised;
      }
      if q.value != LUndef {
        return Done(q.value == LTrue);
      }
      StillOk(t, s, n);
      r := CompareSlowly(fuel, t, s);
    }

    /** Both sides by `whnf_core` without reducing projections. */
    method CheapForms(fuel: nat, t: Expr, s: Expr) returns (tn: Outcome<Expr>, sn: Outcome<Expr>)
      requires Valid() && fuel > 0 && Ok(t) && Ok(s)
      modifies this`coreCache, this`whnfCache
      ensures Valid()
      ensures tn.Done? ==> Ok(tn.value) && Reduces(env, lets, t, tn.value)
      ensures sn.Done? ==> Ok(sn.value) && Reduces(env, lets, s, sn.value)
      ensures tn.Done? ==> Lands(Scope(env, lctx), t, tn.value) && Contract(lctx, tn.value).None?
      ensures sn.Done? ==> Lands(Scope(env, lctx), s, sn.value) && Contract(lctx, sn.value).None?
      decreases fuel, 10, 1
    {
      hide Reduces, Lands;
      sn := Raised;
      tn := WhnfCore(fuel - 1, t, false, true);
      if tn.Raised? {
        return;
      }
      sn := WhnfCore(fuel - 1, s, false, true);
      ReducesScoped(env, lets, sigma, nextIdx, t, tn.value);
      PlainContract(lctx, tn.value);
      if sn.Done? { PlainContract(lctx, sn.value); }
      if sn.Done? { ReducesScoped(env, lets, sigma, nextIdx, s, sn.value); }
    }

    /** Reflection, then comparison after `whnf_core`. */
    method CompareSlowly(fuel: nat, t: Expr, s: Expr) returns (r: Outcome<bool>)
      requires Valid() && fuel > 0 && Ok(t) && Ok(s)
      modifies this`lctx, this`nextIdx, this`coreCache, this`whnfCache, this`failures, eqv
      ensures Valid() && nextIdx >= old(nextIdx) && lctx == old(lctx)
      ensures r == Done(true) ==> DefEq(env, lets, t, s)
      ensures Joined(Scope(env, lctx), t, s) && !Easy(t, s) ==> r != Done(false)
      ensures EtaMeets(Scope(env, lctx), lets, inferType, t, s) ==> r != Done(false)
      decreases fuel, 10, 3
    {
      hide StateOk, Reduces, Joined, EtaMeets, EtaEither, Lands, Same, Easy, DefEq;
      r := ReducesToTrue(fuel, t, s);
      if r != Done(false) {
        return;
      }
      var tn, sn := CheapForms(fuel, t, s);
      if tn.Raised? || sn.Raised? {
        return Raised;
      }
      if Joined(Scope(env, lctx), t, s) && !Easy(t, s) { JoinedGoesOn(Scope(env, lctx), t, s, tn.value, sn.value); }
      if EtaMeets(Scope(env, lctx), lets, inferType, t, s) { EtaLands(Scope(env, lctx), lets, inferType, t, s, tn.value, sn.value); }
      r := CompareCheap(fuel, t, s, tn.value, sn.value);
      if r == Done(true) { JoinDefEq(env, lets, t, tn.value, s, sn.value); }
    }

    /** Neither side has a contraction left, and the easy cases say nothing. */
    method CompareSettled(fuel: nat, t: Expr, s: Expr) returns (r: Outcome<bool>)
      requires Valid() && fuel > 0 && Ok(t) && Ok(s)
      modifies this`lctx, this`nextIdx, this`coreCache, this`whnfCache, this`failures, eqv
      ensures Valid() && nextIdx >= old(nextIdx) && lctx == old(lctx)
      ensures r == Done(true) ==> DefEq(env, lets, t, s)
      ensures Joined(Scope(env, lctx), t, s) && Contract(lctx, t).None? && Contract(lctx, s).None? && !Easy(t, s) ==> r != Done(false)
      ensures EtaEither(Scope(env, lctx), lets, inferType, t, s) ==> r != Done(false)
      decreases fuel, 10, 1
    {
      hide StateOk, Joined, EtaEither, Easy, Unfinished, Numeric, Contract, DefEq, Scoped, Known;
      if Joined(Scope(env, lctx), t, s) && Contract(lctx, t).None? && Contract(lctx, s).None? && !Easy(t, s) { JoinedUnfinished(Scope(env, lctx), t, s); }
      r := CompareLazily(fuel, t, s);
    }

    /** Try the easy cases again if `whnf_core` changed a side. */
    method CompareCheap(fuel: nat, t: Expr, s: Expr, tn: Expr, sn: Expr) returns (r: Outcome<bool>)
      requires Valid() && fuel > 0 && Ok(tn) && Ok(sn)
      modifies this`lctx, this`nextIdx, this`coreCache, this`whnfCache, this`failures, eqv
      ensures Valid() && nextIdx >= old(nextIdx) && lctx == old(lctx)
      ensures r == Done(true) ==> DefEq(env, lets, tn, sn)
      ensures Joined(Scope(env, lctx), tn, sn) && Contract(lctx, tn).None? && Contract(lctx, sn).None? && !Easy(t, s) ==> r != Done(false)
      ensures EtaEither(Scope(env, lctx), lets, inferType, tn, sn) ==> r != Done(false)
      decreases fuel, 10, 2
    {
      hide StateOk, Joined, EtaEither, EtaMeets, Easy, Contract, DefEq, Scoped, Known;
      if EtaEither(Scope(env, lctx), lets, inferType, tn, sn) { EtaMeetsNow(Scope(env, lctx), lets, inferType, tn, sn); }
      var samePtr: bool := *;
      if !(samePtr && tn == t && sn == s) {
        ghost var n := nextIdx;
        var q := QuickIsDefEq(fuel, tn, sn, false);
        if q.Raised? {
          return Raised;
        }
        if q.value != LUndef {
          return Done(q.value == LTrue);
        }
        StillOk(tn, sn, n);
      }
      r := CompareSettled(fuel, tn, sn);
    }

    /** The kernel's definitional equality test: `true` is right, for the whole life of the
        checker and whatever its caches have learned before. */
    method IsDefEq(fuel: nat, t: Expr, s: Expr) returns (r: Outcome<bool>)
      requires Valid() && Ok(t) && Ok(s)
      modifies this`lctx, this`nextIdx, this`coreCache, this`whnfCache, this`failures, eqv
      ensures Valid() && nextIdx >= old(nextIdx) && lctx == old(lctx)
      ensures r == Done(true) ==> DefEq(env, lets, t, s)
      ensures Same(t, s) && fuel > 0 ==> r == Done(true)
      ensures Joined(Scope(env, lctx), t, s) ==> r != Done(false)
      ensures EtaMeets(Scope(env, lctx), lets, inferType, t, s) ==> r != Done(false)
      decreases fuel, 12
    {
      hide Joined, EtaMeets;
      r := IsDefEqCore(fuel, t, s);
      if r == Done(true) {
        RecordEquiv(t, s);
      }
    }
  }
}
