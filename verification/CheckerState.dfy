/** What the type checker's state means: local context, let-variables, caches and learned
    equalities (kernel/type_checker.h, `type_checker::state`). */
module CheckerState {
  import opened Names
  import opened Prelude
  import opened Exprs
  import opened ExprFacts
  import opened Congruence
  import opened Conversion
  import opened ConversionFacts
  import opened EquivManagers
  import opened HeadPaths
  import opened Resting
  import opened Literals

  /** The `i`-th name of the checker's name generator. */
  function FreshName(i: nat): Name {
    [Str("_kernel_fresh"), Num(i)]
  }

  /** The names that may occur once the generator stands at `n`: all but its later names. */
  ghost function Known(n: nat): iset<Name> {
    iset x: Name | !(|x| == 2 && x[0] == FreshName(0)[0] && x[1].Num? && x[1].index >= n)
  }

  lemma {:induction false} FreshUnknown(n: nat)
    ensures FreshName(n) !in Known(n) && FreshName(n) in Known(n + 1)
  {
  }

  lemma {:induction false} KnownMono(m: nat, n: nat)
    requires m <= n
    ensures Known(m) <= Known(n)
  {
  }

  lemma {:induction false} ScopedMono(e: Expr, m: nat, n: nat)
    requires m <= n && Scoped(e, Known(m))
    ensures Scoped(e, Known(n))
  {
  }

  /** Every let-variable ever declared keeps its one value; `sigma` is the resolved table. */
  ghost predicate LetsOk(env: Environment, lets: Lets, sigma: Lets, n: nat) {
    && Resolved(env, lets, sigma)
    && LetsScoped(lets, Known(n)) && LetsScoped(sigma, Known(n))
    && forall y :: y in lets ==> y in Known(n)
  }

  ghost predicate CtxScoped(lctx: LocalCtx, n: nat) {
    forall y :: y in lctx ==> y in Known(n) && Scoped(lctx[y].typ, Known(n))
  }

  ghost predicate CtxOk(lctx: LocalCtx, lets: Lets, n: nat) {
    && CtxScoped(lctx, n)
    && forall y :: y in lctx && lctx[y].value.Some? ==> y in lets && lets[y] == lctx[y].value.value
  }

  /** Every cached result is reachable from its key by computation steps. */
  ghost predicate CacheOk(env: Environment, lets: Lets, n: nat, cache: map<Expr, Expr>) {
    forall k :: k in cache ==> Erase(k) == k && Scoped(k, Known(n)) && Reduces(env, lets, k, cache[k])
  }

  /** Every pair given to the equivalence manager is definitionally equal. */
  ghost predicate PairsOk(env: Environment, lets: Lets, pairs: Pairs) {
    forall a, b :: (a, b) in pairs ==> DefEq(env, lets, a, b)
  }

  type InferFn = (LocalCtx, Expr) -> Option<Expr>

  /** Type inference is a parameter; the types it returns mention only known variables. */
  ghost predicate InferOk(infer: InferFn) {
    forall lctx, e, n: nat :: CtxScoped(lctx, n) && Scoped(e, Known(n)) && infer(lctx, e).Some?
      ==> Scoped(infer(lctx, e).value, Known(n))
  }

  // ---------------------------------------------------------------- weak head normal forms

  /** No metadata, let, let-variable or beta redex at the head. */
  ghost predicate PlainNormal(lctx: LocalCtx, r: Expr) {
    var h := AppFn(r);
    !h.MData? && !h.Let? && !(r.App? && h.Lambda?) && !(h.FVar? && LetBound(lctx, h.fvar))
  }

  /** The structure reduces to a term with none of these redexes at the head that is not a
      constructor application with the field asked for. */
  ghost predicate ProjStuck(env: Environment, lets: Lets, lctx: LocalCtx, p: Expr)
    requires p.Proj?
  {
    exists c :: Reduces(env, lets, p.struct, c) && PlainNormal(lctx, c) && !HasField(env, c, p.pidx)
  }

  /** Nor a projection at the head, unless it is stuck. */
  ghost predicate HeadNormal(env: Environment, lets: Lets, lctx: LocalCtx, r: Expr) {
    PlainNormal(lctx, r) && (AppFn(r).Proj? ==> ProjStuck(env, lets, lctx, AppFn(r)))
  }

  /** Nor a constant to unfold, except that literal arithmetic may answer with `Bool.true` or
      `Bool.false`, nor literal arithmetic; `k` bounds the depth of operands looked at. */
  ghost predicate NormalAt(k: nat, env: Environment, lets: Lets, lctx: LocalCtx, r: Expr)
    decreases k, 2
  {
    && HeadNormal(env, lets, lctx, r) && (Unfoldable(env, r) ==> r == BoolExpr(true) || r == BoolExpr(false))
    && NatStuck(k, env, lets, lctx, r)
  }

  /** A successor of something that is no literal, or an operation with such an operand or
      without a result on its operands. */
  ghost predicate NatStuck(k: nat, env: Environment, lets: Lets, lctx: LocalCtx, r: Expr)
    decreases k, 1
  {
    && (SuccApp(r) ==> NoLiteral(k, env, lets, lctx, r.arg))
    && (BinOp(env, r) ==>
         NoLiteral(k, env, lets, lctx, r.fn.arg) || NoLiteral(k, env, lets, lctx, r.arg) || NoResult(env, lets, r))
  }

  /** `a` reduces to a weak head normal form that is no literal. */
  ghost predicate NoLiteral(k: nat, env: Environment, lets: Lets, lctx: LocalCtx, a: Expr)
    decreases k, 0
  {
    k > 0 && exists c :: Reduces(env, lets, a, c) && NormalAt(k - 1, env, lets, lctx, c) && !IsNatLitExt(c)
  }

  ghost predicate NoResult(env: Environment, lets: Lets, r: Expr)
    requires BinOp(env, r)
  {
    exists a, b ::
      && Reduces(env, lets, r.fn.arg, a) && Reduces(env, lets, r.arg, b) && IsNatLitExt(a) && IsNatLitExt(b)
      && NatOpResult(env.natOps[r.fn.fn.name], NatVal(a), NatVal(b)) == None
  }

  ghost predicate WeakHeadNormal(env: Environment, lets: Lets, lctx: LocalCtx, r: Expr) {
    exists k: nat :: NormalAt(k, env, lets, lctx, r)
  }

  /** Cached results are normal; contraction and closed arithmetic give the same. */
  ghost predicate CachesNormal(env: Environment, lets: Lets, lctx: LocalCtx, coreCache: map<Expr, Expr>, whnfCache: map<Expr, Expr>) {
    && (forall k :: k in coreCache ==> HeadNormal(env, lets, lctx, coreCache[k]) && Lands(Scope(env, lctx), k, coreCache[k]))
    && (forall k :: k in whnfCache ==> WeakHeadNormal(env, lets, lctx, whnfCache[k]) && Agrees(env, lctx, k, whnfCache[k]))
  }

  lemma {:induction false} StuckNormal(env: Environment, lets: Lets, lctx: LocalCtx, e: Expr)
    requires !e.App? && !e.Let? && !e.MData? && !(e.FVar? && LetBound(lctx, e.fvar))
    requires e.Proj? ==> ProjStuck(env, lets, lctx, e)
    ensures HeadNormal(env, lets, lctx, e)
  {
  }

  lemma {:induction false} StuckIntro(env: Environment, lets: Lets, lctx: LocalCtx, p: Expr, c: Expr)
    requires p.Proj? && Reduces(env, lets, p.struct, c) && HeadNormal(env, lets, lctx, c) && !HasField(env, c, p.pidx)
    ensures ProjStuck(env, lets, lctx, p)
  {
  }

  lemma {:induction false} StuckSame(env: Environment, lets: Lets, lctx: LocalCtx, p: Expr, q: Expr)
    requires p.Proj? && q.Proj? && Same(p, q) && ProjStuck(env, lets, lctx, p)
    ensures ProjStuck(env, lets, lctx, q)
  {
    hide Reduces, HasField, PlainNormal;
    var c :| Reduces(env, lets, p.struct, c) && PlainNormal(lctx, c) && !HasField(env, c, p.pidx);
    RedRefl(env, lets, q.struct, p.struct);
    RedTrans(env, lets, q.struct, p.struct, c);
  }

  lemma {:induction false} SpineNormal(env: Environment, lets: Lets, lctx: LocalCtx, e: Expr, f: Expr)
    requires e.App? && HeadNormal(env, lets, lctx, f) && Same(f, AppFn(e)) && !f.Lambda?
    ensures HeadNormal(env, lets, lctx, e)
  {
    hide ProjStuck;
    assert !f.App?;
    if f.Proj? { StuckSame(env, lets, lctx, f, AppFn(e)); }
  }

  /** Terms that `whnf` returns at once. */
  lemma {:induction false} FinalNormal(env: Environment, lets: Lets, lctx: LocalCtx, e: Expr)
    requires e.BVar? || e.Sort? || e.MVar? || e.Pi? || e.Lit? || (e.FVar? && !LetBound(lctx, e.fvar))
    ensures WeakHeadNormal(env, lets, lctx, e) && Agrees(env, lctx, e, e)
  {
    assert NormalAt(0, env, lets, lctx, e);
    forall d, w | Evaluates(env, lctx, d, e, w) ensures e == w {
      var n: nat, u :| Path(lctx, n, e, u) && EvaluatesAt(env, lctx, d, u, w);
    }
  }

  lemma {:induction false} LiteralNormal(env: Environment, lets: Lets, lctx: LocalCtx, v: Expr)
    requires v.Lit? || v == BoolExpr(true) || v == BoolExpr(false)
    ensures WeakHeadNormal(env, lets, lctx, v)
  {
    assert NormalAt(0, env, lets, lctx, v);
  }

  lemma {:induction false} NatOpNormal(env: Environment, lets: Lets, lctx: LocalCtx, op: NatOp, a: nat, b: nat, v: Expr)
    requires NatOpResult(op, a, b) == Some(v)
    ensures WeakHeadNormal(env, lets, lctx, v)
  {
    LiteralNormal(env, lets, lctx, v);
  }

  /** An operand that is no literal. */
  lemma {:induction false} NoLiteralIntro(env: Environment, lets: Lets, lctx: LocalCtx, a: Expr, c: Expr) returns (k: nat)
    requires Reduces(env, lets, a, c) && WeakHeadNormal(env, lets, lctx, c) && !IsNatLitExt(c)
    ensures NoLiteral(k, env, lets, lctx, a)
  {
    hide Reduces, NormalAt;
    var j: nat :| NormalAt(j, env, lets, lctx, c);
    k := j + 1;
  }

  ghost predicate Stuck(env: Environment, lets: Lets, lctx: LocalCtx, r: Expr) {
    exists k: nat :: NatStuck(k, env, lets, lctx, r)
  }

  /** What `whnf` has when nothing applies any more. */
  lemma {:induction false} WeakIntro(env: Environment, lets: Lets, lctx: LocalCtx, r: Expr)
    requires HeadNormal(env, lets, lctx, r) && !Unfoldable(env, r) && Stuck(env, lets, lctx, r)
    ensures WeakHeadNormal(env, lets, lctx, r)
  {
    hide HeadNormal, NatStuck;
    var k: nat :| NatStuck(k, env, lets, lctx, r);
    assert NormalAt(k, env, lets, lctx, r);
  }

  lemma {:induction false} StuckOperand(env: Environment, lets: Lets, lctx: LocalCtx, r: Expr, a: Expr, c: Expr)
    requires (SuccApp(r) && a == r.arg) || (BinOp(env, r) && !SuccApp(r) && (a == r.fn.arg || a == r.arg))
    requires Reduces(env, lets, a, c) && WeakHeadNormal(env, lets, lctx, c) && !IsNatLitExt(c)
    ensures Stuck(env, lets, lctx, r)
  {
    hide NormalAt, Reduces;
    var k := NoLiteralIntro(env, lets, lctx, a, c);
    assert NatStuck(k, env, lets, lctx, r);
  }

  lemma {:induction false} StuckPower(env: Environment, lets: Lets, lctx: LocalCtx, r: Expr, a: Expr, b: Expr)
    requires BinOp(env, r) && Reduces(env, lets, r.fn.arg, a) && Reduces(env, lets, r.arg, b)
    requires IsNatLitExt(a) && IsNatLitExt(b) && NatOpResult(env.natOps[r.fn.fn.name], NatVal(a), NatVal(b)) == None
    ensures Stuck(env, lets, lctx, r)
  {
    hide NormalAt, Reduces;
    assert NatStuck(0, env, lets, lctx, r);
  }

  lemma {:induction false} StuckOther(env: Environment, lets: Lets, lctx: LocalCtx, r: Expr)
    requires !SuccApp(r) && !BinOp(env, r)
    ensures Stuck(env, lets, lctx, r)
  {
    assert NatStuck(0, env, lets, lctx, r);
  }

  lemma {:induction false} CoreSaved(env: Environment, lets: Lets, lctx: LocalCtx, coreCache: map<Expr, Expr>, whnfCache: map<Expr, Expr>, k: Expr, r: Expr)
    requires CachesNormal(env, lets, lctx, coreCache, whnfCache) && HeadNormal(env, lets, lctx, r) && Lands(Scope(env, lctx), k, r)
    ensures CachesNormal(env, lets, lctx, coreCache[k := r], whnfCache)
  {
    hide HeadNormal, WeakHeadNormal, Lands, Agrees;
  }

  lemma {:induction false} WhnfSaved(env: Environment, lets: Lets, lctx: LocalCtx, coreCache: map<Expr, Expr>, whnfCache: map<Expr, Expr>, k: Expr, r: Expr)
    requires CachesNormal(env, lets, lctx, coreCache, whnfCache) && WeakHeadNormal(env, lets, lctx, r) && Agrees(env, lctx, k, r)
    ensures CachesNormal(env, lets, lctx, coreCache, whnfCache[k := r])
  {
    hide HeadNormal, WeakHeadNormal, Lands, Agrees;
  }

  lemma {:induction false} StuckNarrowed(env: Environment, lets: Lets, a: LocalCtx, b: LocalCtx, p: Expr)
    requires SameLets(a, b) && p.Proj? && ProjStuck(env, lets, b, p)
    ensures ProjStuck(env, lets, a, p)
  {
    hide Reduces, HasField;
    var c :| Reduces(env, lets, p.struct, c) && PlainNormal(b, c) && !HasField(env, c, p.pidx);
    assert PlainNormal(a, c);
  }

  lemma {:induction false} NormalNarrowed(env: Environment, lets: Lets, a: LocalCtx, b: LocalCtx, r: Expr)
    requires SameLets(a, b) && HeadNormal(env, lets, b, r)
    ensures HeadNormal(env, lets, a, r)
  {
    hide ProjStuck;
    if AppFn(r).Proj? { StuckNarrowed(env, lets, a, b, AppFn(r)); }
  }

  lemma {:induction false} NormalAtNarrowed(k: nat, env: Environment, lets: Lets, a: LocalCtx, b: LocalCtx, r: Expr)
    requires SameLets(a, b) && NormalAt(k, env, lets, b, r)
    ensures NormalAt(k, env, lets, a, r)
    decreases k, 1
  {
    hide HeadNormal, SameLets, NoLiteral, NoResult;
    NormalNarrowed(env, lets, a, b, r);
    if SuccApp(r) && NoLiteral(k, env, lets, b, r.arg) { NoLiteralNarrowed(k, env, lets, a, b, r.arg); }
    if BinOp(env, r) {
      if NoLiteral(k, env, lets, b, r.fn.arg) { NoLiteralNarrowed(k, env, lets, a, b, r.fn.arg); }
      if NoLiteral(k, env, lets, b, r.arg) { NoLiteralNarrowed(k, env, lets, a, b, r.arg); }
    }
  }

  lemma {:induction false} NoLiteralNarrowed(k: nat, env: Environment, lets: Lets, a: LocalCtx, b: LocalCtx, e: Expr)
    requires SameLets(a, b) && NoLiteral(k, env, lets, b, e)
    ensures NoLiteral(k, env, lets, a, e)
    decreases k, 0
  {
    hide SameLets, NormalAt, Reduces;
    var c :| Reduces(env, lets, e, c) && NormalAt(k - 1, env, lets, b, c) && !IsNatLitExt(c);
    NormalAtNarrowed(k - 1, env, lets, a, b, c);
  }

  lemma {:induction false} CachesNarrowed(env: Environment, lets: Lets, a: LocalCtx, b: LocalCtx, coreCache: map<Expr, Expr>, whnfCache: map<Expr, Expr>)
    requires SameLets(a, b) && CachesNormal(env, lets, b, coreCache, whnfCache)
    ensures CachesNormal(env, lets, a, coreCache, whnfCache)
  {
    hide HeadNormal, NormalAt, SameLets, Lands, Agrees;
    SameLetsSymm(a, b);
    forall k | k in coreCache ensures HeadNormal(env, lets, a, coreCache[k]) && Lands(Scope(env, a), k, coreCache[k]) {
      NormalNarrowed(env, lets, a, b, coreCache[k]);
      LandsCtx(env, b, a, k, coreCache[k]);
    }
    forall k | k in whnfCache ensures WeakHeadNormal(env, lets, a, whnfCache[k]) && Agrees(env, a, k, whnfCache[k]) {
      var j: nat :| NormalAt(j, env, lets, b, whnfCache[k]);
      NormalAtNarrowed(j, env, lets, a, b, whnfCache[k]);
      AgreesCtx(env, b, a, k, whnfCache[k]);
    }
  }

  // ---------------------------------------------------------------- one round of `whnf`

  /** Contractions bring `e` neither to rest nor to closed arithmetic. */
  ghost predicate Unsettled(env: Environment, lctx: LocalCtx, e: Expr) {
    && (forall n: nat, v :: Path(lctx, n, e, v) ==> !Rests(Scope(env, lctx), AppFn(v)))
    && forall d, w :: !Evaluates(env, lctx, d, e, w)
  }

  /** A term that unfolds or computes is not at rest. */
  lemma {:induction false} ActiveHead(env: Environment, lctx: LocalCtx, t: Expr)
    requires SuccApp(t) || BinOp(env, t) || Unfoldable(env, t)
    ensures !Rests(Scope(env, lctx), AppFn(t))
  {
    hide Rests;
    ArithmeticHead(env, t);
    if Rests(Scope(env, lctx), AppFn(t)) { RestsCases(Scope(env, lctx), AppFn(t)); }
  }

  /** Then nothing before it is. */
  lemma {:induction false} ActiveUnsettled(env: Environment, lets: Lets, lctx: LocalCtx, e: Expr, t1: Expr)
    requires Lands(Scope(env, lctx), e, t1) && HeadNormal(env, lets, lctx, t1)
    requires SuccApp(t1) || BinOp(env, t1) || Unfoldable(env, t1)
    ensures forall n: nat, v :: Path(lctx, n, e, v) ==> !Rests(Scope(env, lctx), AppFn(v))
  {
    hide Rests, Lands, Path, SuccApp, BinOp, Unfoldable;
    var sc := Scope(env, lctx);
    PlainContract(lctx, t1);
    LandsSettles(sc, e, t1);
    ActiveHead(env, lctx, t1);
    forall n: nat, v | Path(lctx, n, e, v) ensures !Rests(sc, AppFn(v)) {
      if Rests(sc, AppFn(v)) {
        SameHead(t1, v);
        RestsSame(sc, AppFn(v), AppFn(t1));
      }
    }
  }

  lemma {:induction false} PlainContract(lctx: LocalCtx, r: Expr)
    requires PlainNormal(lctx, r)
    ensures Contract(lctx, r).None?
  {
    if r.App? { PlainContract(lctx, r.fn); }
  }

  /** The normal form of closed arithmetic is closed arithmetic. */
  lemma {:induction false} RoundEvaluates(env: Environment, lets: Lets, lctx: LocalCtx, e: Expr, t1: Expr, d: NatTree, w: Expr)
    requires Lands(Scope(env, lctx), e, t1) && HeadNormal(env, lets, lctx, t1) && Evaluates(env, lctx, d, e, w)
    ensures EvaluatesAt(env, lctx, d, t1, w)
  {
    hide Path, EvaluatesAt, Lands, Frozen, Erase, Contract, ProjStuck;
    var n: nat, u :| Path(lctx, n, e, u) && EvaluatesAt(env, lctx, d, u, w);
    ArithmeticStops(env, lctx, d, u, w);
    PlainContract(lctx, t1);
    LandsAt(Scope(env, lctx), e, t1, n, u);
    EvaluatesAtSame(env, lctx, d, u, t1, w);
  }

  lemma {:induction false} RoundComputed(env: Environment, lets: Lets, lctx: LocalCtx, e: Expr, t: Expr, t1: Expr, v: Option<Expr>)
    requires t == e || Unsettled(env, lctx, e)
    requires Lands(Scope(env, lctx), t, t1) && HeadNormal(env, lets, lctx, t1) && Computes(env, lctx, t1, v) && v.Some?
    requires SuccApp(t1) || BinOp(env, t1)
    ensures Agrees(env, lctx, e, v.value)
  {
    hide HeadNormal, Lands, Evaluates, Rests, Path;
    ActiveUnsettled(env, lets, lctx, t, t1);
    forall d, w | Evaluates(env, lctx, d, e, w) ensures v.value == w { RoundEvaluates(env, lets, lctx, e, t1, d, w); }
  }

  lemma {:induction false} RoundFinal(env: Environment, lets: Lets, lctx: LocalCtx, e: Expr, t: Expr, t1: Expr)
    requires t == e || Unsettled(env, lctx, e)
    requires Lands(Scope(env, lctx), t, t1) && HeadNormal(env, lets, lctx, t1) && Computes(env, lctx, t1, None)
    ensures Agrees(env, lctx, e, t1)
  {
    hide HeadNormal, Lands, Evaluates, Rests, Path;
    assert Contract(lctx, t1).None? by { NormalContract(env, lets, lctx, t1); }
    LandsSettles(Scope(env, lctx), t, t1);
    forall d, w | Evaluates(env, lctx, d, e, w) ensures t1 == w { RoundEvaluates(env, lets, lctx, e, t1, d, w); }
  }

  lemma {:induction false} NormalContract(env: Environment, lets: Lets, lctx: LocalCtx, r: Expr)
    requires HeadNormal(env, lets, lctx, r)
    ensures Contract(lctx, r).None?
  {
    PlainContract(lctx, r);
  }

  lemma {:induction false} RoundUnfolded(env: Environment, lets: Lets, lctx: LocalCtx, e: Expr, t: Expr, t1: Expr)
    requires t == e || Unsettled(env, lctx, e)
    requires Lands(Scope(env, lctx), t, t1) && HeadNormal(env, lets, lctx, t1) && Computes(env, lctx, t1, None) && Unfoldable(env, t1)
    ensures Unsettled(env, lctx, e)
  {
    hide HeadNormal, Lands, Evaluates, Unfoldable, Rests, Path;
    ActiveUnsettled(env, lets, lctx, t, t1);
    forall d, w ensures !Evaluates(env, lctx, d, e, w) {
      if Evaluates(env, lctx, d, e, w) { RoundEvaluates(env, lets, lctx, e, t1, d, w); }
    }
  }

  /** Every value of `lets` is one of `lets2`. */
  ghost predicate LetsKept(lets: Lets, lets2: Lets) {
    forall y :: y in lets ==> y in lets2 && lets2[y] == lets[y]
  }

  lemma {:induction false} ReducesKept(env: Environment, lets: Lets, lets2: Lets, t: Expr, s: Expr)
    requires LetsKept(lets, lets2) && Reduces(env, lets, t, s)
    ensures Reduces(env, lets2, t, s)
  {
    var d :| RDerives(env, lets, d, t, s);
    RedMono(env, lets, lets2, d, t, s);
  }

  lemma {:induction false} NewNamePlain(lctx: LocalCtx, n: nat, decl: LocalDecl, r: Expr)
    requires Scoped(r, Known(n)) && PlainNormal(lctx, r)
    ensures PlainNormal(lctx[FreshName(n) := decl], r)
  {
    SpineScoped(r, Known(n));
    FreshUnknown(n);
  }

  lemma {:induction false} NewNameStuck(env: Environment, lets: Lets, sigma: Lets, lets2: Lets, lctx: LocalCtx, n: nat, decl: LocalDecl, p: Expr)
    requires EnvOk(env) && LetsOk(env, lets, sigma, n) && LetsKept(lets, lets2)
    requires p.Proj? && Scoped(p, Known(n)) && ProjStuck(env, lets, lctx, p)
    ensures ProjStuck(env, lets2, lctx[FreshName(n) := decl], p)
  {
    hide Reduces, HasField, PlainNormal, LetsOk, EnvOk, LetsKept, Known;
    var c :| Reduces(env, lets, p.struct, c) && PlainNormal(lctx, c) && !HasField(env, c, p.pidx);
    ReducesScoped(env, lets, sigma, n, p.struct, c);
    ReducesKept(env, lets, lets2, p.struct, c);
    NewNamePlain(lctx, n, decl, c);
  }

  /** A declaration under a name that results cannot mention. */
  lemma {:induction false} NewNameNormal(env: Environment, lets: Lets, sigma: Lets, lets2: Lets, lctx: LocalCtx, n: nat, decl: LocalDecl, r: Expr)
    requires EnvOk(env) && LetsOk(env, lets, sigma, n) && LetsKept(lets, lets2) && Scoped(r, Known(n))
    requires HeadNormal(env, lets, lctx, r)
    ensures HeadNormal(env, lets2, lctx[FreshName(n) := decl], r)
  {
    hide ProjStuck, PlainNormal, LetsOk, EnvOk, LetsKept, Known;
    SpineScoped(r, Known(n));
    NewNamePlain(lctx, n, decl, r);
    if AppFn(r).Proj? { NewNameStuck(env, lets, sigma, lets2, lctx, n, decl, AppFn(r)); }
  }

  lemma {:induction false} NewNameNormalAt(k: nat, env: Environment, lets: Lets, sigma: Lets, lets2: Lets, lctx: LocalCtx, n: nat, decl: LocalDecl, r: Expr)
    requires EnvOk(env) && LetsOk(env, lets, sigma, n) && LetsKept(lets, lets2) && Scoped(r, Known(n))
    requires NormalAt(k, env, lets, lctx, r)
    ensures NormalAt(k, env, lets2, lctx[FreshName(n) := decl], r)
    decreases k, 1
  {
    hide HeadNormal, LetsOk, EnvOk, LetsKept, Known, NoLiteral, NoResult, Scoped;
    NewNameNormal(env, lets, sigma, lets2, lctx, n, decl, r);
    if SuccApp(r) {
      PartsScoped(r, Known(n));
      NewNameNoLiteral(k, env, lets, sigma, lets2, lctx, n, decl, r.arg);
    }
    if BinOp(env, r) {
      OperandScoped(r, Known(n));
      if NoLiteral(k, env, lets, lctx, r.fn.arg) { NewNameNoLiteral(k, env, lets, sigma, lets2, lctx, n, decl, r.fn.arg); }
      if NoLiteral(k, env, lets, lctx, r.arg) { NewNameNoLiteral(k, env, lets, sigma, lets2, lctx, n, decl, r.arg); }
      if NoResult(env, lets, r) { NoResultKept(env, lets, lets2, r); }
    }
  }

  lemma {:induction false} NewNameNoLiteral(k: nat, env: Environment, lets: Lets, sigma: Lets, lets2: Lets, lctx: LocalCtx, n: nat, decl: LocalDecl, e: Expr)
    requires EnvOk(env) && LetsOk(env, lets, sigma, n) && LetsKept(lets, lets2) && Scoped(e, Known(n))
    requires NoLiteral(k, env, lets, lctx, e)
    ensures NoLiteral(k, env, lets2, lctx[FreshName(n) := decl], e)
    decreases k, 0
  {
    hide NormalAt, Reduces, LetsOk, EnvOk, LetsKept, Known, Scoped;
    var c :| Reduces(env, lets, e, c) && NormalAt(k - 1, env, lets, lctx, c) && !IsNatLitExt(c);
    ReducesScoped(env, lets, sigma, n, e, c);
    ReducesKept(env, lets, lets2, e, c);
    NewNameNormalAt(k - 1, env, lets, sigma, lets2, lctx, n, decl, c);
  }

  lemma {:induction false} NoResultKept(env: Environment, lets: Lets, lets2: Lets, r: Expr)
    requires LetsKept(lets, lets2) && BinOp(env, r) && NoResult(env, lets, r)
    ensures NoResult(env, lets2, r)
  {
    hide Reduces, LetsKept;
    var a, b :|
      && Reduces(env, lets, r.fn.arg, a) && Reduces(env, lets, r.arg, b) && IsNatLitExt(a) && IsNatLitExt(b)
      && NatOpResult(env.natOps[r.fn.fn.name], NatVal(a), NatVal(b)) == None;
    ReducesKept(env, lets, lets2, r.fn.arg, a);
    ReducesKept(env, lets, lets2, r.arg, b);
  }

  lemma {:induction false} CtxValues(lctx: LocalCtx, lets: Lets, sigma: Lets, env: Environment, n: nat)
    requires LetsOk(env, lets, sigma, n) && CtxOk(lctx, lets, n)
    ensures ValuesScoped(lctx, Known(n))
  {
  }

  lemma {:induction false} CachesDeclared(env: Environment, lets: Lets, sigma: Lets, lets2: Lets, n: nat, lctx: LocalCtx, decl: LocalDecl,
      coreCache: map<Expr, Expr>, whnfCache: map<Expr, Expr>)
    requires EnvOk(env) && LetsOk(env, lets, sigma, n) && LetsKept(lets, lets2) && CtxOk(lctx, lets, n)
    requires CacheOk(env, lets, n, coreCache) && CacheOk(env, lets, n, whnfCache)
    requires CachesNormal(env, lets, lctx, coreCache, whnfCache)
    ensures CachesNormal(env, lets2, lctx[FreshName(n) := decl], coreCache, whnfCache)
  {
    hide HeadNormal, NormalAt, Reduces, Scoped, LetsOk, EnvOk, LetsKept, CtxOk, Known, Lands, Agrees, ValuesScoped;
    var z, lctx2 := FreshName(n), lctx[FreshName(n) := decl];
    CtxValues(lctx, lets, sigma, env, n);
    FreshUnknown(n);
    forall k | k in coreCache ensures HeadNormal(env, lets2, lctx2, coreCache[k]) && Lands(Scope(env, lctx2), k, coreCache[k]) {
      ReducesScoped(env, lets, sigma, n, k, coreCache[k]);
      NewNameNormal(env, lets, sigma, lets2, lctx, n, decl, coreCache[k]);
      LandsNew(env, lctx, z, decl, k, coreCache[k], Known(n));
    }
    forall k | k in whnfCache ensures WeakHeadNormal(env, lets2, lctx2, whnfCache[k]) && Agrees(env, lctx2, k, whnfCache[k]) {
      ReducesScoped(env, lets, sigma, n, k, whnfCache[k]);
      var j: nat :| NormalAt(j, env, lets, lctx, whnfCache[k]);
      NewNameNormalAt(j, env, lets, sigma, lets2, lctx, n, decl, whnfCache[k]);
      AgreesNew(env, lctx, z, decl, k, whnfCache[k], Known(n));
    }
  }

  lemma {:induction false} LocalKeepsLets(lctx: LocalCtx, n: nat, decl: LocalDecl)
    requires CtxScoped(lctx, n) && decl.value.None?
    ensures SameLets(lctx, lctx[FreshName(n) := decl])
  {
    FreshUnknown(n);
  }

  /** All that is claimed of a checker state. */
  ghost predicate StateOk(env: Environment, lets: Lets, sigma: Lets, n: nat, lctx: LocalCtx,
      coreCache: map<Expr, Expr>, whnfCache: map<Expr, Expr>, pairs: Pairs)
  {
    && EnvOk(env) && LetsOk(env, lets, sigma, n) && CtxOk(lctx, lets, n)
    && CacheOk(env, lets, n, coreCache) && CacheOk(env, lets, n, whnfCache) && PairsOk(env, lets, pairs)
    && CachesNormal(env, lets, lctx, coreCache, whnfCache)
  }

  /** The congruence kept by the equivalence manager stays inside definitional equality. */
  lemma {:induction false} PairsSound(env: Environment, lets: Lets, pairs: Pairs, a: Expr, b: Expr)
    requires PairsOk(env, lets, pairs) && Conv(PairRel(pairs), a, b)
    ensures DefEq(env, lets, a, b)
  {
    var R, Q := PairRel(pairs), StepRel(env, lets);
    forall x, y | R(x, y) ensures Conv(Q, x, y) {
      assert (x, y) in pairs;
    }
    var d :| Derives(R, d, a, b);
    ConvMono(R, Q, d, a, b);
  }

  lemma {:induction false} ReducesScoped(env: Environment, lets: Lets, sigma: Lets, n: nat, t: Expr, s: Expr)
    requires EnvOk(env) && LetsOk(env, lets, sigma, n) && Scoped(t, Known(n)) && Reduces(env, lets, t, s)
    ensures Scoped(s, Known(n))
  {
    var d :| RDerives(env, lets, d, t, s);
    RedScoped(env, lets, Known(n), d, t, s);
  }

  lemma {:induction false} ReducesDefEq(env: Environment, lets: Lets, t: Expr, s: Expr)
    requires Reduces(env, lets, t, s)
    ensures DefEq(env, lets, t, s)
  {
    var d :| RDerives(env, lets, d, t, s);
    RedDefEq(env, lets, d, t, s);
  }

  /** If both sides reduce to definitionally equal terms, they are definitionally equal. */
  lemma {:induction false} JoinDefEq(env: Environment, lets: Lets, t: Expr, t': Expr, s: Expr, s': Expr)
    requires Reduces(env, lets, t, t') && Reduces(env, lets, s, s') && DefEq(env, lets, t', s')
    ensures DefEq(env, lets, t, s)
  {
    var R := StepRel(env, lets);
    ReducesDefEq(env, lets, t, t');
    ReducesDefEq(env, lets, s, s');
    ConvSymm(R, s, s');
    ConvTrans(R, t, t', s');
    ConvTrans(R, t, s', s);
  }

  /** Advancing the name generator keeps the state. */
  lemma {:induction false} AdvanceState(env: Environment, lets: Lets, sigma: Lets, m: nat, n: nat, lctx: LocalCtx,
      coreCache: map<Expr, Expr>, whnfCache: map<Expr, Expr>, pairs: Pairs)
    requires StateOk(env, lets, sigma, m, lctx, coreCache, whnfCache, pairs) && m <= n
    ensures StateOk(env, lets, sigma, n, lctx, coreCache, whnfCache, pairs)
  {
    KnownMono(m, n);
  }

  /** A new result reachable from a scoped key may be cached. */
  lemma {:induction false} CacheInsert(env: Environment, lets: Lets, n: nat, cache: map<Expr, Expr>, e: Expr, r: Expr)
    requires CacheOk(env, lets, n, cache) && Scoped(e, Known(n)) && Reduces(env, lets, e, r)
    ensures CacheOk(env, lets, n, cache[Erase(e) := r])
  {
    EraseFacts(e);
    RedRefl(env, lets, Erase(e), e);
    RedTrans(env, lets, Erase(e), e, r);
  }

  lemma {:induction false} CacheLookup(env: Environment, lets: Lets, n: nat, cache: map<Expr, Expr>, e: Expr)
    requires CacheOk(env, lets, n, cache) && Erase(e) in cache
    ensures Reduces(env, lets, e, cache[Erase(e)])
  {
    EraseFacts(e);
    RedRefl(env, lets, e, Erase(e));
    RedTrans(env, lets, e, Erase(e), cache[Erase(e)]);
  }

  lemma {:induction false} LetsExtend(env: Environment, lets: Lets, sigma: Lets, n: nat, v: Expr)
    requires LetsOk(env, lets, sigma, n) && Scoped(v, Known(n))
    ensures LetsOk(env, lets[FreshName(n) := v], sigma[FreshName(n) := Subst(v, 0, sigma)], n + 1)
  {
    var z := FreshName(n);
    FreshUnknown(n);
    LetsFresh(lets, n);
    hide DefEq, Known;
    ResolvedExtend(env, lets, sigma, z, v);
    SubstScoped(v, sigma, Known(n));
    ScopedSnoc(lets, n, v);
    ScopedSnoc(sigma, n, Subst(v, 0, sigma));
    KnownMono(n, n + 1);
  }

  lemma {:induction false} LetsFresh(lets: Lets, n: nat)
    requires LetsScoped(lets, Known(n)) && forall y :: y in lets ==> y in Known(n)
    ensures FreshName(n) !in lets && forall y :: y in lets ==> FreshName(n) !in FVars(lets[y])
  {
    FreshUnknown(n);
  }

  lemma {:induction false} ScopedSnoc(lets: Lets, n: nat, v: Expr)
    requires LetsScoped(lets, Known(n)) && Scoped(v, Known(n))
    ensures LetsScoped(lets[FreshName(n) := v], Known(n + 1))
  {
    KnownMono(n, n + 1);
  }

  lemma {:induction false} PairsGrow(env: Environment, lets: Lets, lets2: Lets, pairs: Pairs)
    requires PairsOk(env, lets, pairs)
    requires LetsKept(lets, lets2)
    ensures PairsOk(env, lets2, pairs)
  {
    forall a, b | (a, b) in pairs ensures DefEq(env, lets2, a, b) {
      DefEqMono(env, lets, lets2, a, b);
    }
  }

  lemma {:induction false} CtxExtend(lctx: LocalCtx, lets: Lets, n: nat, user: Binder, typ: Expr, v: Expr)
    requires CtxOk(lctx, lets, n) && Scoped(typ, Known(n))
    ensures CtxOk(lctx[FreshName(n) := LocalDecl(user, typ, Some(v))], lets[FreshName(n) := v], n + 1)
  {
    FreshUnknown(n);
    KnownMono(n, n + 1);
  }

  /** Declaring a let-variable under a name never used before keeps every cached fact and every
      learned equality: the table of values only grows. */
  lemma {:induction false} DeclareLet(env: Environment, lets: Lets, sigma: Lets, n: nat, lctx: LocalCtx,
      coreCache: map<Expr, Expr>, whnfCache: map<Expr, Expr>, pairs: Pairs, user: Binder, typ: Expr, v: Expr)
    requires StateOk(env, lets, sigma, n, lctx, coreCache, whnfCache, pairs)
    requires Scoped(v, Known(n)) && Scoped(typ, Known(n))
    ensures StateOk(env, lets[FreshName(n) := v], sigma[FreshName(n) := Subst(v, 0, sigma)], n + 1,
              lctx[FreshName(n) := LocalDecl(user, typ, Some(v))], coreCache, whnfCache, pairs)
  {
    hide HeadNormal, WeakHeadNormal, Unfoldable, Reduces, DefEq, Known, Lands, Agrees;
    var lets2 := lets[FreshName(n) := v];
    FreshUnknown(n);
    LetsExtend(env, lets, sigma, n, v);
    CtxExtend(lctx, lets, n, user, typ, v);
    CacheGrows(env, lets, lets2, n, coreCache);
    CacheGrows(env, lets, lets2, n, whnfCache);
    PairsGrow(env, lets, lets2, pairs);
    CachesDeclared(env, lets, sigma, lets2, n, lctx, LocalDecl(user, typ, Some(v)), coreCache, whnfCache);
  }

  /** Declaring a plain variable keeps the state. */
  lemma {:induction false} DeclareLocal(env: Environment, lets: Lets, sigma: Lets, n: nat, lctx: LocalCtx,
      coreCache: map<Expr, Expr>, whnfCache: map<Expr, Expr>, pairs: Pairs, user: Binder, typ: Expr)
    requires StateOk(env, lets, sigma, n, lctx, coreCache, whnfCache, pairs) && Scoped(typ, Known(n))
    ensures StateOk(env, lets, sigma, n + 1, lctx[FreshName(n) := LocalDecl(user, typ, None)], coreCache, whnfCache, pairs)
    ensures FreshName(n) !in lets
  {
    hide HeadNormal, WeakHeadNormal, Unfoldable, Reduces, DefEq, Known, Lands, Agrees;
    FreshUnknown(n);
    KnownMono(n, n + 1);
    AdvanceState(env, lets, sigma, n, n + 1, lctx, coreCache, whnfCache, pairs);
    CachesDeclared(env, lets, sigma, lets, n, lctx, LocalDecl(user, typ, None), coreCache, whnfCache);
  }

  lemma {:induction false} CacheGrows(env: Environment, lets: Lets, lets2: Lets, n: nat, cache: map<Expr, Expr>)
    requires CacheOk(env, lets, n, cache)
    requires LetsKept(lets, lets2)
    ensures CacheOk(env, lets2, n + 1, cache)
  {
    KnownMono(n, n + 1);
    forall k | k in cache ensures Reduces(env, lets2, k, cache[k]) {
      ReducesKept(env, lets, lets2, k, cache[k]);
    }
  }

  lemma {:induction false} SubstScoped(v: Expr, sigma: Lets, known: iset<Name>)
    requires Scoped(v, known) && LetsScoped(sigma, known)
    ensures Scoped(Subst(v, 0, sigma), known)
  {
    SubstClosed(v, sigma);
    var s := set y, z | y in sigma && z in FVars(sigma[y]) :: z;
    forall l, j: nat | Atomic(l) ensures LeafFVars(SubstLeaf(sigma), s, l, j) {
      if l.FVar? && l.fvar in sigma {
        LiftFVars(sigma[l.fvar], 0, j);
        assert FVars(sigma[l.fvar]) <= s;
      }
    }
    MapFVars(v, 0, SubstLeaf(sigma), s);
  }

  // ---------------------------------------------------------------- using the state

  lemma {:induction false} StoreCore(env: Environment, lets: Lets, sigma: Lets, n: nat, lctx: LocalCtx,
      coreCache: map<Expr, Expr>, whnfCache: map<Expr, Expr>, pairs: Pairs, e: Expr, r: Expr)
    requires StateOk(env, lets, sigma, n, lctx, coreCache, whnfCache, pairs)
    requires Scoped(e, Known(n)) && Reduces(env, lets, e, r) && HeadNormal(env, lets, lctx, r) && Lands(Scope(env, lctx), e, r)
    ensures StateOk(env, lets, sigma, n, lctx, coreCache[Erase(e) := r], whnfCache, pairs)
  {
    hide HeadNormal, WeakHeadNormal, Reduces, Lands, Agrees;
    CacheInsert(env, lets, n, coreCache, e, r);
    EraseFacts(e);
    LandsSame(Scope(env, lctx), e, r, Erase(e), r);
    CoreSaved(env, lets, lctx, coreCache, whnfCache, Erase(e), r);
  }

  lemma {:induction false} StoreWhnf(env: Environment, lets: Lets, sigma: Lets, n: nat, lctx: LocalCtx,
      coreCache: map<Expr, Expr>, whnfCache: map<Expr, Expr>, pairs: Pairs, e: Expr, r: Expr)
    requires StateOk(env, lets, sigma, n, lctx, coreCache, whnfCache, pairs)
    requires Scoped(e, Known(n)) && Reduces(env, lets, e, r) && WeakHeadNormal(env, lets, lctx, r) && Agrees(env, lctx, e, r)
    ensures StateOk(env, lets, sigma, n, lctx, coreCache, whnfCache[Erase(e) := r], pairs)
  {
    hide HeadNormal, WeakHeadNormal, Reduces, Lands, Agrees;
    CacheInsert(env, lets, n, whnfCache, e, r);
    EraseFacts(e);
    AgreesSame(env, lctx, e, Erase(e), r);
    WhnfSaved(env, lets, lctx, coreCache, whnfCache, Erase(e), r);
  }

  lemma {:induction false} LookUpCore(env: Environment, lets: Lets, sigma: Lets, n: nat, lctx: LocalCtx,
      coreCache: map<Expr, Expr>, whnfCache: map<Expr, Expr>, pairs: Pairs, e: Expr)
    requires StateOk(env, lets, sigma, n, lctx, coreCache, whnfCache, pairs) && Erase(e) in coreCache
    ensures Reduces(env, lets, e, coreCache[Erase(e)]) && HeadNormal(env, lets, lctx, coreCache[Erase(e)])
    ensures Lands(Scope(env, lctx), e, coreCache[Erase(e)])
  {
    hide HeadNormal, Reduces, Lands, Agrees;
    EraseFacts(e);
    LandsSame(Scope(env, lctx), Erase(e), coreCache[Erase(e)], e, coreCache[Erase(e)]);
    CacheLookup(env, lets, n, coreCache, e);
  }

  lemma {:induction false} LookUpWhnf(env: Environment, lets: Lets, sigma: Lets, n: nat, lctx: LocalCtx,
      coreCache: map<Expr, Expr>, whnfCache: map<Expr, Expr>, pairs: Pairs, e: Expr)
    requires StateOk(env, lets, sigma, n, lctx, coreCache, whnfCache, pairs) && Erase(e) in whnfCache
    ensures Reduces(env, lets, e, whnfCache[Erase(e)]) && WeakHeadNormal(env, lets, lctx, whnfCache[Erase(e)])
    ensures Agrees(env, lctx, e, whnfCache[Erase(e)])
  {
    hide HeadNormal, WeakHeadNormal, Reduces, Lands, Agrees;
    EraseFacts(e);
    AgreesSame(env, lctx, Erase(e), e, whnfCache[Erase(e)]);
    CacheLookup(env, lets, n, whnfCache, e);
  }

  lemma {:induction false} LetReduces(env: Environment, lets: Lets, sigma: Lets, n: nat, lctx: LocalCtx,
      coreCache: map<Expr, Expr>, whnfCache: map<Expr, Expr>, pairs: Pairs, x: Name)
    requires StateOk(env, lets, sigma, n, lctx, coreCache, whnfCache, pairs) && LetBound(lctx, x)
    ensures Reduces(env, lets, FVar(x), lctx[x].value.value)
  {
    RedStep(env, lets, FVar(x), lctx[x].value.value);
  }

  lemma {:induction false} LearnedSound(env: Environment, lets: Lets, sigma: Lets, n: nat, lctx: LocalCtx,
      coreCache: map<Expr, Expr>, whnfCache: map<Expr, Expr>, pairs: Pairs, a: Expr, b: Expr)
    requires StateOk(env, lets, sigma, n, lctx, coreCache, whnfCache, pairs) && Conv(PairRel(pairs), a, b)
    ensures DefEq(env, lets, a, b)
  {
    PairsSound(env, lets, pairs, a, b);
  }

  lemma {:induction false} StateScoped(env: Environment, lets: Lets, sigma: Lets, n: nat, lctx: LocalCtx,
      coreCache: map<Expr, Expr>, whnfCache: map<Expr, Expr>, pairs: Pairs, t: Expr, s: Expr)
    requires StateOk(env, lets, sigma, n, lctx, coreCache, whnfCache, pairs) && Scoped(t, Known(n)) && Reduces(env, lets, t, s)
    ensures Scoped(s, Known(n))
  {
    ReducesScoped(env, lets, sigma, n, t, s);
  }
}
