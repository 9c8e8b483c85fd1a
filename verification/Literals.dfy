/** Closed arithmetic on literals, evaluated from the inside out (kernel/type_checker.cpp,
    lines 588-651): what `whnf` has to answer on such terms. */
module Literals {
  import opened Names
  import opened Prelude
  import opened Exprs
  import opened DeBruijn
  import opened ExprFacts
  import opened Congruence
  import opened Conversion
  import opened ConversionFacts
  import opened HeadPaths
  import opened Resting

  /** The head is a constant with a value. */
  predicate Unfoldable(env: Environment, r: Expr) {
    var h := AppFn(r);
    h.Const? && h.name in env.defs && |h.levels| == |env.defs[h.name].lparams|
  }

  /** A built-in operation applied to two arguments. */
  predicate BinOp(env: Environment, e: Expr) {
    e.App? && e.fn.App? && e.fn.fn.Const? && e.fn.fn.levels == [] && e.fn.fn.name in env.natOps
  }

  predicate SuccApp(e: Expr) {
    e.App? && e.fn == NAT_SUCC
  }

  lemma {:induction false} ArithmeticHead(env: Environment, t: Expr)
    ensures SuccApp(t) ==> AppFn(t) == NAT_SUCC
    ensures BinOp(env, t) ==> AppFn(t) == t.fn.fn
  {
    if SuccApp(t) {
      assert AppFn(t) == AppFn(t.fn);
    } else if BinOp(env, t) {
      assert AppFn(t) == AppFn(t.fn) == AppFn(t.fn.fn);
    }
  }

  datatype NatTree = NLit | NSucc(pred: NatTree) | NOp(left: NatTree, right: NatTree)

  /** Contractions lead from `e` to a literal, to the successor of such a term, or to an operation
      on two of them, with the result `w`. */
  ghost predicate Evaluates(env: Environment, lctx: LocalCtx, d: NatTree, e: Expr, w: Expr)
    decreases d, 1
  {
    exists n: nat, u :: Path(lctx, n, e, u) && EvaluatesAt(env, lctx, d, u, w)
  }

  ghost predicate EvaluatesAt(env: Environment, lctx: LocalCtx, d: NatTree, u: Expr, w: Expr)
    decreases d, 0
  {
    match d
    case NLit => u == w && IsNatLitExt(u) && !Unfoldable(env, u)
    case NSucc(d1) => SuccApp(u) && exists a :: Evaluates(env, lctx, d1, u.arg, a) && IsNatLitExt(a) && w == NatLitExpr(NatVal(a) + 1)
    case NOp(d1, d2) =>
      BinOp(env, u) && exists a, b ::
        && Evaluates(env, lctx, d1, u.fn.arg, a) && Evaluates(env, lctx, d2, u.arg, b) && IsNatLitExt(a) && IsNatLitExt(b)
        && NatOpResult(env.natOps[u.fn.fn.name], NatVal(a), NatVal(b)) == Some(w)
  }

  /** `r` is what closed arithmetic gives for `e`, if `e` is that, and where contractions bring `e`
      to rest, if they do. */
  ghost predicate Agrees(env: Environment, lctx: LocalCtx, e: Expr, r: Expr) {
    Settles(Scope(env, lctx), e, r) && forall d, w :: Evaluates(env, lctx, d, e, w) ==> r == w
  }

  // ---------------------------------------------------------------- binder names and contexts

  lemma {:induction false} EvaluatesSame(env: Environment, lctx: LocalCtx, d: NatTree, e: Expr, e': Expr, w: Expr)
    requires Same(e, e') && Evaluates(env, lctx, d, e, w)
    ensures Evaluates(env, lctx, d, e', w)
  {
    hide Path, EvaluatesAt;
    var n: nat, u :| Path(lctx, n, e, u) && EvaluatesAt(env, lctx, d, u, w);
    PathSame(lctx, n, e, u, e', u);
  }

  lemma {:induction false} EvaluatesAtSame(env: Environment, lctx: LocalCtx, d: NatTree, u: Expr, u': Expr, w: Expr)
    requires Same(u, u') && EvaluatesAt(env, lctx, d, u, w)
    ensures EvaluatesAt(env, lctx, d, u', w)
  {
    hide Evaluates, NatOpResult, NatVal;
    match d
    case NLit =>
    case NSucc(d1) =>
      assert Same(u.fn, u'.fn) && Same(u.arg, u'.arg);
      var a :| Evaluates(env, lctx, d1, u.arg, a) && IsNatLitExt(a) && w == NatLitExpr(NatVal(a) + 1);
      EvaluatesSame(env, lctx, d1, u.arg, u'.arg, a);
    case NOp(d1, d2) =>
      assert Same(u.fn, u'.fn) && Same(u.arg, u'.arg);
      assert Same(u.fn.fn, u'.fn.fn) && Same(u.fn.arg, u'.fn.arg);
      var a, b :|
        && Evaluates(env, lctx, d1, u.fn.arg, a) && Evaluates(env, lctx, d2, u.arg, b) && IsNatLitExt(a) && IsNatLitExt(b)
        && NatOpResult(env.natOps[u.fn.fn.name], NatVal(a), NatVal(b)) == Some(w);
      EvaluatesSame(env, lctx, d1, u.fn.arg, u'.fn.arg, a);
      EvaluatesSame(env, lctx, d2, u.arg, u'.arg, b);
  }

  lemma {:induction false} AgreesSame(env: Environment, lctx: LocalCtx, e: Expr, e': Expr, r: Expr)
    requires Same(e, e') && Agrees(env, lctx, e, r)
    ensures Agrees(env, lctx, e', r)
  {
    hide Evaluates, Settles;
    SettlesSame(Scope(env, lctx), e, e', r);
    forall d, w | Evaluates(env, lctx, d, e', w) ensures r == w { EvaluatesSame(env, lctx, d, e', e, w); }
  }

  lemma {:induction false} EvaluatesCtx(env: Environment, a: LocalCtx, b: LocalCtx, d: NatTree, e: Expr, w: Expr)
    requires SameLets(a, b) && Evaluates(env, a, d, e, w)
    ensures Evaluates(env, b, d, e, w)
    decreases d
  {
    hide Path, SameLets, NatOpResult, Unfoldable;
    var n: nat, u :| Path(a, n, e, u) && EvaluatesAt(env, a, d, u, w);
    PathCtx(a, b, n, e, u);
    match d
    case NLit =>
    case NSucc(d1) =>
      var x :| Evaluates(env, a, d1, u.arg, x) && IsNatLitExt(x) && w == NatLitExpr(NatVal(x) + 1);
      EvaluatesCtx(env, a, b, d1, u.arg, x);
    case NOp(d1, d2) =>
      var x, y :|
        && Evaluates(env, a, d1, u.fn.arg, x) && Evaluates(env, a, d2, u.arg, y) && IsNatLitExt(x) && IsNatLitExt(y)
        && NatOpResult(env.natOps[u.fn.fn.name], NatVal(x), NatVal(y)) == Some(w);
      EvaluatesCtx(env, a, b, d1, u.fn.arg, x);
      EvaluatesCtx(env, a, b, d2, u.arg, y);
  }

  lemma {:induction false} AgreesCtx(env: Environment, a: LocalCtx, b: LocalCtx, e: Expr, r: Expr)
    requires SameLets(a, b) && SameLets(b, a) && Agrees(env, a, e, r)
    ensures Agrees(env, b, e, r)
  {
    hide Evaluates, SameLets, Settles;
    SettlesCtx(env, a, b, e, r);
    forall d, w | Evaluates(env, b, d, e, w) ensures r == w { EvaluatesCtx(env, b, a, d, e, w); }
  }

  // ---------------------------------------------------------------- new variables

  lemma {:induction false} EvaluatesNew(env: Environment, lctx: LocalCtx, z: Name, decl: LocalDecl, d: NatTree, e: Expr, w: Expr, known: iset<Name>)
    requires ValuesScoped(lctx, known) && Scoped(e, known) && z !in known && Evaluates(env, lctx[z := decl], d, e, w)
    ensures Evaluates(env, lctx, d, e, w)
    decreases d
  {
    hide Path, ValuesScoped, NatOpResult, Unfoldable, Scoped;
    var a := lctx[z := decl];
    var n: nat, u :| Path(a, n, e, u) && EvaluatesAt(env, a, d, u, w);
    PathNew(lctx, z, decl, n, e, u, known);
    PathScoped(lctx, n, e, u, known);
    match d
    case NLit =>
    case NSucc(d1) =>
      var x :| Evaluates(env, a, d1, u.arg, x) && IsNatLitExt(x) && w == NatLitExpr(NatVal(x) + 1);
      PartsScoped(u, known);
      EvaluatesNew(env, lctx, z, decl, d1, u.arg, x, known);
    case NOp(d1, d2) =>
      var x, y :|
        && Evaluates(env, a, d1, u.fn.arg, x) && Evaluates(env, a, d2, u.arg, y) && IsNatLitExt(x) && IsNatLitExt(y)
        && NatOpResult(env.natOps[u.fn.fn.name], NatVal(x), NatVal(y)) == Some(w);
      OperandScoped(u, known);
      EvaluatesNew(env, lctx, z, decl, d1, u.fn.arg, x, known);
      EvaluatesNew(env, lctx, z, decl, d2, u.arg, y, known);
  }

  lemma {:induction false} OperandScoped(u: Expr, known: iset<Name>)
    requires u.App? && u.fn.App? && Scoped(u, known)
    ensures Scoped(u.fn.arg, known) && Scoped(u.arg, known)
  {
    PartsScoped(u, known);
    PartsScoped(u.fn, known);
  }

  lemma {:induction false} PartsScoped(u: Expr, known: iset<Name>)
    requires u.App? && Scoped(u, known)
    ensures Scoped(u.fn, known) && Scoped(u.arg, known)
  {
    assert FVars(u.fn) <= FVars(u) && FVars(u.arg) <= FVars(u);
  }

  lemma {:induction false} AgreesNew(env: Environment, lctx: LocalCtx, z: Name, decl: LocalDecl, e: Expr, r: Expr, known: iset<Name>)
    requires ValuesScoped(lctx, known) && Scoped(e, known) && z !in known && Agrees(env, lctx, e, r)
    ensures Agrees(env, lctx[z := decl], e, r)
  {
    hide Evaluates, ValuesScoped, Scoped, Settles;
    var a := lctx[z := decl];
    SettlesNew(env, lctx, z, decl, e, r, known);
    forall d, w | Evaluates(env, a, d, e, w) ensures r == w { EvaluatesNew(env, lctx, z, decl, d, e, w, known); }
  }

  // ---------------------------------------------------------------- what the reducer computes

  /** `v` is the result of the operation at the head of `e`, if `e` is closed arithmetic. */
  ghost predicate Computes(env: Environment, lctx: LocalCtx, e: Expr, v: Option<Expr>) {
    forall d, w :: EvaluatesAt(env, lctx, d, e, w) && !d.NLit? ==> v == Some(w)
  }

  lemma {:induction false} NothingToCompute(env: Environment, lctx: LocalCtx, e: Expr)
    requires !SuccApp(e) && !BinOp(env, e)
    ensures Computes(env, lctx, e, None)
  {
  }

  lemma {:induction false} SuccComputes(env: Environment, lctx: LocalCtx, e: Expr, a: Expr, v: Option<Expr>)
    requires SuccApp(e) && Agrees(env, lctx, e.arg, a) && v == if IsNatLitExt(a) then Some(NatLitExpr(NatVal(a) + 1)) else None
    ensures Computes(env, lctx, e, v)
  {
    hide Evaluates;
    forall d, w | EvaluatesAt(env, lctx, d, e, w) && !d.NLit? ensures v == Some(w) {
      match d
      case NSucc(d1) =>
        var x :| Evaluates(env, lctx, d1, e.arg, x) && IsNatLitExt(x) && w == NatLitExpr(NatVal(x) + 1);
      case NOp(_, _) => assert e.fn == NAT_SUCC;
    }
  }

  /** The operands of closed arithmetic have the values found for them. */
  lemma {:induction false} Operands(env: Environment, lctx: LocalCtx, d: NatTree, e: Expr, w: Expr)
    returns (a: Expr, b: Expr)
    requires BinOp(env, e) && EvaluatesAt(env, lctx, d, e, w) && !d.NLit?
    ensures IsNatLitExt(a) && IsNatLitExt(b) && NatOpResult(env.natOps[e.fn.fn.name], NatVal(a), NatVal(b)) == Some(w)
    ensures forall r :: Agrees(env, lctx, e.fn.arg, r) ==> r == a
    ensures forall r :: Agrees(env, lctx, e.arg, r) ==> r == b
  {
    hide Evaluates, NatOpResult;
    match d
    case NSucc(_) => assert false;
    case NOp(d1, d2) =>
      a, b :|
        && Evaluates(env, lctx, d1, e.fn.arg, a) && Evaluates(env, lctx, d2, e.arg, b) && IsNatLitExt(a) && IsNatLitExt(b)
        && NatOpResult(env.natOps[e.fn.fn.name], NatVal(a), NatVal(b)) == Some(w);
  }

  lemma {:induction false} LeftStuck(env: Environment, lctx: LocalCtx, e: Expr, a: Expr)
    requires BinOp(env, e) && Agrees(env, lctx, e.fn.arg, a) && !IsNatLitExt(a)
    ensures Computes(env, lctx, e, None)
  {
    hide EvaluatesAt, NatOpResult, Agrees;
    forall d, w ensures !(EvaluatesAt(env, lctx, d, e, w) && !d.NLit?) {
      if EvaluatesAt(env, lctx, d, e, w) && !d.NLit? { var x, y := Operands(env, lctx, d, e, w); }
    }
  }

  lemma {:induction false} RightStuck(env: Environment, lctx: LocalCtx, e: Expr, b: Expr)
    requires BinOp(env, e) && Agrees(env, lctx, e.arg, b) && !IsNatLitExt(b)
    ensures Computes(env, lctx, e, None)
  {
    hide EvaluatesAt, NatOpResult, Agrees;
    forall d, w ensures !(EvaluatesAt(env, lctx, d, e, w) && !d.NLit?) {
      if EvaluatesAt(env, lctx, d, e, w) && !d.NLit? { var x, y := Operands(env, lctx, d, e, w); }
    }
  }

  lemma {:induction false} OpComputes(env: Environment, lctx: LocalCtx, e: Expr, a: Expr, b: Expr, v: Option<Expr>)
    requires BinOp(env, e) && Agrees(env, lctx, e.fn.arg, a) && Agrees(env, lctx, e.arg, b) && IsNatLitExt(a) && IsNatLitExt(b)
    requires v == NatOpResult(env.natOps[e.fn.fn.name], NatVal(a), NatVal(b))
    ensures Computes(env, lctx, e, v)
  {
    hide EvaluatesAt, NatOpResult, Agrees;
    forall d, w | EvaluatesAt(env, lctx, d, e, w) && !d.NLit? ensures v == Some(w) { var x, y := Operands(env, lctx, d, e, w); }
  }

  /** Where a path of closed arithmetic ends. */
  lemma {:induction false} ArithmeticStops(env: Environment, lctx: LocalCtx, d: NatTree, u: Expr, w: Expr)
    requires EvaluatesAt(env, lctx, d, u, w)
    ensures Contract(lctx, u).None? && !AppFn(u).Proj?
  {
    match d
    case NLit =>
    case NSucc(_) => assert AppFn(u) == NAT_SUCC; ProjStops(lctx, u);
    case NOp(_, _) => assert AppFn(u.fn) == AppFn(u.fn.fn) == u.fn.fn; ProjStops(lctx, u);
  }

  lemma {:induction false} AgreesStep(env: Environment, lctx: LocalCtx, e: Expr, t: Expr, r: Expr)
    requires Contract(lctx, e) == Some(t) && Agrees(env, lctx, t, r)
    ensures Agrees(env, lctx, e, r)
  {
    hide Evaluates, Settles;
    SettlesStep(Scope(env, lctx), e, t, r);
    forall d, w | Evaluates(env, lctx, d, e, w) ensures r == w { EvaluatesStep(env, lctx, d, e, t, w); }
  }

  // ---------------------------------------------------------------- numbers

  predicate IsNatZero(t: Expr) {
    t == NAT_ZERO || t == NatLitExpr(0)
  }

  function IsNatSucc(t: Expr): Option<Expr> {
    if t.Lit? && t.lit.NatLit? && t.lit.n > 0 then Some(NatLitExpr(t.lit.n - 1))
    else if t.App? && !t.fn.App? && t.fn == NAT_SUCC then Some(t.arg)
    else None
  }

  predicate Ground(e: Expr) {
    LooseRange(e) == 0 && FVars(e) == {}
  }

  /** `t` is the constant or literal `w`, or closed arithmetic with the value `w`. */
  ghost predicate Denotes(env: Environment, lctx: LocalCtx, t: Expr, w: Expr) {
    Ground(t) && ((t == w && (w.Const? || w.Lit?)) || exists d :: Evaluates(env, lctx, d, t, w))
  }

  predicate SameValue(v: Expr, w: Expr) {
    v == w || (IsNatLitExt(v) && IsNatLitExt(w) && NatVal(v) == NatVal(w))
  }

  /** Closed arithmetic with one value on both sides. */
  ghost predicate NumbersMeet(env: Environment, lctx: LocalCtx, t: Expr, s: Expr) {
    exists v, w :: Denotes(env, lctx, t, v) && Denotes(env, lctx, s, w) && SameValue(v, w)
  }

  lemma {:induction false} NumbersIntro(env: Environment, lctx: LocalCtx, t: Expr, s: Expr, v: Expr, w: Expr)
    requires Denotes(env, lctx, t, v) && Denotes(env, lctx, s, w) && SameValue(v, w)
    ensures NumbersMeet(env, lctx, t, s)
  {
  }

  lemma {:induction false} NumbersSymm(env: Environment, lctx: LocalCtx, t: Expr, s: Expr)
    requires NumbersMeet(env, lctx, t, s)
    ensures NumbersMeet(env, lctx, s, t)
  {
    hide Denotes;
    var v, w :| Denotes(env, lctx, t, v) && Denotes(env, lctx, s, w) && SameValue(v, w);
    NumbersIntro(env, lctx, s, t, w, v);
  }

  lemma {:induction false} DenotesSame(env: Environment, lctx: LocalCtx, t: Expr, t': Expr, w: Expr)
    requires Same(t, t') && Denotes(env, lctx, t, w)
    ensures Denotes(env, lctx, t', w)
  {
    hide Evaluates;
    assert Ground(t') by {
      EraseFacts(t);
      EraseFacts(t');
    }
    if !(t == w && (w.Const? || w.Lit?)) {
      var d :| Evaluates(env, lctx, d, t, w);
      EvaluatesSame(env, lctx, d, t, t', w);
    }
  }

  lemma {:induction false} NumbersSame(env: Environment, lctx: LocalCtx, t: Expr, s: Expr, t': Expr, s': Expr)
    requires NumbersMeet(env, lctx, t, s) && Same(t, t') && Same(s, s')
    ensures NumbersMeet(env, lctx, t', s')
  {
    hide Denotes, Same;
    var v, w :| Denotes(env, lctx, t, v) && Denotes(env, lctx, s, w) && SameValue(v, w);
    DenotesSame(env, lctx, t, t', v);
    DenotesSame(env, lctx, s, s', w);
  }

  lemma {:induction false} NumbersCtx(env: Environment, a: LocalCtx, b: LocalCtx, t: Expr, s: Expr)
    requires SameLets(a, b) && NumbersMeet(env, a, t, s)
    ensures NumbersMeet(env, b, t, s)
  {
    hide Denotes;
    var v, w :| Denotes(env, a, t, v) && Denotes(env, a, s, w) && SameValue(v, w);
    DenotesCtx(env, a, b, t, v);
    DenotesCtx(env, a, b, s, w);
  }

  lemma {:induction false} DenotesCtx(env: Environment, a: LocalCtx, b: LocalCtx, t: Expr, w: Expr)
    requires SameLets(a, b) && Denotes(env, a, t, w)
    ensures Denotes(env, b, t, w)
  {
    hide Evaluates, SameLets;
    if !(t == w && (w.Const? || w.Lit?)) {
      var d :| Evaluates(env, a, d, t, w);
      EvaluatesCtx(env, a, b, d, t, w);
    }
  }

  /** Without variables no variable is contracted, and none appears. */
  lemma {:induction false} GroundStep(lctx: LocalCtx, e: Expr, r: Expr)
    requires Ground(e) && Contract(lctx, e) == Some(r)
    ensures Ground(r)
  {
    var known: iset<Name> := iset{};
    assert Scoped(e, known);
    match e
    case App(f, a) => if f.Lambda? { BetaScoped(e, r, known); } else { GroundStep(lctx, f, r.fn); }
    case Let(_, _, _, _, _) => BetaScoped(e, r, known);
    case _ =>
  }

  lemma {:induction false} EvaluatesStep(env: Environment, lctx: LocalCtx, d: NatTree, t: Expr, r: Expr, w: Expr)
    requires Evaluates(env, lctx, d, t, w) && Contract(lctx, t) == Some(r)
    ensures Evaluates(env, lctx, d, r, w)
  {
    hide EvaluatesAt, Erase;
    var n: nat, u :| Path(lctx, n, t, u) && EvaluatesAt(env, lctx, d, u, w);
    ArithmeticStops(env, lctx, d, u, w);
    if n == 0 { ContractSame(lctx, t, u); }
    assert Path(lctx, n - 1, r, u);
  }

  lemma {:induction false} EvaluatesStops(env: Environment, lctx: LocalCtx, d: NatTree, t: Expr, w: Expr)
    requires Evaluates(env, lctx, d, t, w) && Contract(lctx, t).None?
    ensures EvaluatesAt(env, lctx, d, t, w)
  {
    hide EvaluatesAt, Erase;
    var n: nat, u :| Path(lctx, n, t, u) && EvaluatesAt(env, lctx, d, u, w);
    assert n == 0;
    EvaluatesAtSame(env, lctx, d, u, t, w);
  }

  lemma {:induction false} DenotesStep(env: Environment, lctx: LocalCtx, t: Expr, r: Expr, w: Expr)
    requires Denotes(env, lctx, t, w) && Contract(lctx, t) == Some(r)
    ensures Denotes(env, lctx, r, w)
  {
    hide Evaluates, Ground;
    GroundStep(lctx, t, r);
    assert !t.Const? && !t.Lit?;
    var d :| Evaluates(env, lctx, d, t, w);
    EvaluatesStep(env, lctx, d, t, r, w);
  }

  lemma {:induction false} NumbersStep(env: Environment, lctx: LocalCtx, t: Expr, s: Expr, r: Expr)
    requires NumbersMeet(env, lctx, t, s) && Contract(lctx, t) == Some(r)
    ensures NumbersMeet(env, lctx, r, s)
  {
    hide Denotes;
    var v, w :| Denotes(env, lctx, t, v) && Denotes(env, lctx, s, w) && SameValue(v, w);
    DenotesStep(env, lctx, t, r, v);
  }

  /** Where contractions end closed arithmetic is a value or an operation with its operands. */
  lemma {:induction false} DenotesStops(env: Environment, lctx: LocalCtx, t: Expr, w: Expr)
    requires Denotes(env, lctx, t, w) && Contract(lctx, t).None?
    ensures (t == w && (w.Const? || w.Lit?)) || exists d :: EvaluatesAt(env, lctx, d, t, w) && !d.NLit?
  {
    hide Evaluates, EvaluatesAt, Ground, Contract;
    if !(t == w && (w.Const? || w.Lit?)) {
      var d :| Evaluates(env, lctx, d, t, w);
      EvaluatesStops(env, lctx, d, t, w);
      if d.NLit? { LeafIsValue(env, lctx, d, t, w); }
    }
  }

  lemma {:induction false} LeafIsValue(env: Environment, lctx: LocalCtx, d: NatTree, t: Expr, w: Expr)
    requires EvaluatesAt(env, lctx, d, t, w) && d.NLit?
    ensures t == w && (w.Const? || w.Lit?)
  {
  }

  /** The successor of a number: its predecessor. */
  lemma {:induction false} DenotesPred(env: Environment, lctx: LocalCtx, t: Expr, w: Expr) returns (v: Expr)
    requires Denotes(env, lctx, t, w) && Contract(lctx, t).None? && IsNatSucc(t).Some?
    ensures IsNatLitExt(w) && NatVal(w) > 0 && Denotes(env, lctx, IsNatSucc(t).value, v)
    ensures IsNatLitExt(v) && NatVal(v) == NatVal(w) - 1
  {
    hide Evaluates;
    DenotesStops(env, lctx, t, w);
    if t == w && (w.Const? || w.Lit?) {
      v := NatLitExpr(t.lit.n - 1);
    } else {
      var d :| EvaluatesAt(env, lctx, d, t, w) && !d.NLit?;
      if d.NSucc? { v :| Evaluates(env, lctx, d.pred, t.arg, v) && IsNatLitExt(v) && w == NatLitExpr(NatVal(v) + 1); }
    }
  }

  lemma {:induction false} NumbersPred(env: Environment, lctx: LocalCtx, t: Expr, s: Expr)
    requires NumbersMeet(env, lctx, t, s) && Contract(lctx, t).None? && Contract(lctx, s).None?
    requires IsNatSucc(t).Some? && IsNatSucc(s).Some?
    ensures NumbersMeet(env, lctx, IsNatSucc(t).value, IsNatSucc(s).value)
  {
    hide Denotes;
    var v, w :| Denotes(env, lctx, t, v) && Denotes(env, lctx, s, w) && SameValue(v, w);
    var v1 := DenotesPred(env, lctx, t, v);
    var w1 := DenotesPred(env, lctx, s, w);
    NumbersIntro(env, lctx, IsNatSucc(t).value, IsNatSucc(s).value, v1, w1);
  }

  /** What is computed for the left side may take its place. */
  lemma {:induction false} NumbersComputed(env: Environment, lctx: LocalCtx, t: Expr, s: Expr, r: Option<Expr>)
    requires NumbersMeet(env, lctx, t, s) && Contract(lctx, t).None? && Computes(env, lctx, t, r)
    ensures r.Some? ==> NumbersMeet(env, lctx, r.value, s) || t.Const? || t.Lit?
    ensures r.None? ==> t.Const? || t.Lit?
  {
    hide Evaluates;
    var v, w :| Denotes(env, lctx, t, v) && Denotes(env, lctx, s, w) && SameValue(v, w);
    DenotesStops(env, lctx, t, v);
    if !t.Const? && !t.Lit? {
      var d :| EvaluatesAt(env, lctx, d, t, v) && !d.NLit?;
      ValueDenotes(env, lctx, d, t, v);
      NumbersIntro(env, lctx, v, s, v, w);
    }
  }

  lemma {:induction false} ValueDenotes(env: Environment, lctx: LocalCtx, d: NatTree, t: Expr, w: Expr)
    requires EvaluatesAt(env, lctx, d, t, w) && !d.NLit?
    ensures Denotes(env, lctx, w, w)
  {
  }

  /** Two values are equal, or both zero. */
  lemma {:induction false} ValuesMeet(env: Environment, lctx: LocalCtx, t: Expr, s: Expr)
    requires NumbersMeet(env, lctx, t, s) && (t.Const? || t.Lit?) && (s.Const? || s.Lit?)
    ensures t == s || (IsNatZero(t) && IsNatZero(s))
  {
    hide Evaluates;
    var v, w :| Denotes(env, lctx, t, v) && Denotes(env, lctx, s, w) && SameValue(v, w);
    DenotesStops(env, lctx, t, v);
    DenotesStops(env, lctx, s, w);
  }

  /** No constant to unfold and no arithmetic at the head. */
  predicate Inert(env: Environment, t: Expr) {
    Undefined(env, t) && !SuccApp(t) && !BinOp(env, t) && IsNatSucc(t).None? && !IsNatZero(t)
  }

  lemma {:induction false} SuccStops(lctx: LocalCtx, t: Expr)
    requires IsNatSucc(t).Some? || IsNatZero(t)
    ensures Contract(lctx, t).None? && !AppFn(t).Proj? && !t.Lambda? && !t.Pi? && !t.Sort?
  {
    if t.App? { assert AppFn(t) == AppFn(t.fn); }
  }

  /** Neither side of a pair of numbers is a binding or a sort, or has a projection at the head. */
  lemma {:induction false} NumbersHead(env: Environment, lctx: LocalCtx, t: Expr, s: Expr)
    requires NumbersMeet(env, lctx, t, s) && Contract(lctx, t).None?
    ensures !AppFn(t).Proj? && !t.Lambda? && !t.Pi? && !t.Sort?
  {
    hide Evaluates;
    var v, w :| Denotes(env, lctx, t, v) && Denotes(env, lctx, s, w) && SameValue(v, w);
    DenotesStops(env, lctx, t, v);
    if !t.Const? && !t.Lit? {
      var d :| EvaluatesAt(env, lctx, d, t, v) && !d.NLit?;
      ArithmeticStops(env, lctx, d, t, v);
    }
  }

  // ---------------------------------------------------------------- how deep `whnf` goes

  /** The contractions of `e` end in a term that neither unfolds nor computes nor has a projection at
      the head, and `fuel` covers them. */
  ghost predicate Sufficient(sc: Scope, fuel: nat, e: Expr) {
    exists n: nat, v :: SufficientFor(sc, fuel, e, n, v)
  }

  ghost predicate SufficientFor(sc: Scope, fuel: nat, e: Expr, n: nat, v: Expr) {
    Path(sc.lctx, n, e, v) && Contract(sc.lctx, v).None? && !AppFn(v).Proj? && Inert(sc.env, v) && fuel >= 2 * n + 3
  }

  lemma {:induction false} InertSame(env: Environment, t: Expr, t': Expr)
    requires Same(t, t') && Inert(env, t)
    ensures Inert(env, t')
  {
    SameHead(t, t');
    if t'.App? {
      assert Same(t.fn, t'.fn);
      if t'.fn.App? { assert Same(t.fn.fn, t'.fn.fn); }
    }
  }

  lemma {:induction false} SufficientCore(sc: Scope, fuel: nat, e: Expr)
    requires Sufficient(sc, fuel, e)
    ensures fuel > 2 && Enough(sc.lctx, fuel - 1, e)
  {
    hide Path, Inert;
    var n: nat, v :| SufficientFor(sc, fuel, e, n, v);
    assert EnoughFor(sc.lctx, fuel - 1, e, n, v);
  }

  lemma {:induction false} SufficientStep(sc: Scope, fuel: nat, e: Expr, t: Expr)
    requires Sufficient(sc, fuel, e) && Contract(sc.lctx, e) == Some(t)
    ensures fuel > 0 && Sufficient(sc, fuel - 1, t)
  {
    hide Erase, Inert;
    var n: nat, v :| SufficientFor(sc, fuel, e, n, v);
    if n == 0 { ContractSame(sc.lctx, e, v); }
    assert SufficientFor(sc, fuel - 1, t, n - 1, v);
  }

  /** Where `whnf_core` lands nothing is left for `whnf` to do. */
  lemma {:induction false} SufficientEnds(sc: Scope, fuel: nat, e: Expr, t1: Expr)
    requires Sufficient(sc, fuel, e) && Lands(sc, e, t1) && Contract(sc.lctx, t1).None?
    ensures Inert(sc.env, t1)
  {
    hide Path, Inert, Lands, Frozen, Same;
    var n: nat, v :| SufficientFor(sc, fuel, e, n, v);
    LandsAt(sc, e, t1, n, v);
    SameBack(t1, v);
    InertSame(sc.env, v, t1);
  }

  lemma {:induction false} SameBack(t: Expr, s: Expr)
    requires Same(t, s)
    ensures Same(s, t)
  {
  }
}
