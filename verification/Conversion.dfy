/** Definitional equality as a relation: one-step reductions, reduction sequences, and the
    congruence generated by reduction, eta, literals and equal-valued levels. */
module Conversion {
  import opened Names
  import opened Prelude
  import opened Exprs
  import opened DeBruijn
  import opened ExprFacts
  import opened Congruence
  import L = Levels
  import LI = LevelInstantiate

  datatype Hints = Opaque | Abbreviation | Regular(height: nat)

  /** A constant that has a value. */
  datatype Definition = Definition(lparams: seq<Name>, value: Expr, hints: Hints)

  /** A built-in operation on natural-number literals. */
  datatype NatOp = Compute(f: (nat, nat) -> nat) | Test(p: (nat, nat) -> bool) | Power(f: (nat, nat) -> nat)

  /** `ctors` gives the number of parameters of each constructor. */
  datatype Environment = Environment(defs: map<Name, Definition>, ctors: map<Name, nat>, natOps: map<Name, NatOp>)

  type Lets = map<Name, Expr>

  const BOOL_TRUE: Name := [Str("Bool"), Str("true")]
  const BOOL_FALSE: Name := [Str("Bool"), Str("false")]
  const NAT_ZERO: Expr := Const([Str("Nat"), Str("zero")], [])
  const NAT_SUCC: Expr := Const([Str("Nat"), Str("succ")], [])
  const MAX_POW_EXP: nat := 16777216

  // ---------------------------------------------------------------- level instantiation

  function LevelsAt(ls: seq<L.Level>, ps: seq<Name>, us: seq<L.Level>, keep: L.Level -> bool): seq<L.Level> {
    seq(|ls|, i requires 0 <= i < |ls| => LI.Instantiate(ls[i], ps, us, keep))
  }

  function LParamAt(l: Expr, ps: seq<Name>, us: seq<L.Level>, keep: L.Level -> bool): Expr {
    match l
    case Sort(u) => Sort(LI.Instantiate(u, ps, us, keep))
    case Const(n, ls) => Const(n, LevelsAt(ls, ps, us, keep))
    case _ => l
  }

  function LParamLeaf(ps: seq<Name>, us: seq<L.Level>, keep: L.Level -> bool): (Expr, nat) -> Expr {
    (l: Expr, j: nat) => LParamAt(l, ps, us, keep)
  }

  /** `instantiate_lparams`; `keep` is the outcome of the pointer tests inside level updates. */
  function InstLParams(e: Expr, ps: seq<Name>, us: seq<L.Level>, keep: L.Level -> bool): Expr {
    Map(e, 0, LParamLeaf(ps, us, keep))
  }

  lemma {:induction false} InstLParamsScope(e: Expr, ps: seq<Name>, us: seq<L.Level>, keep: L.Level -> bool)
    requires LooseRange(e) == 0 && FVars(e) == {}
    ensures LooseRange(InstLParams(e, ps, us, keep)) == 0 && FVars(InstLParams(e, ps, us, keep)) == {}
  {
    var f := LParamLeaf(ps, us, keep);
    forall l, j: nat | Atomic(l) ensures LeafRange(f, 0, 0, 0, l, j) { }
    MapRange(e, 0, f, 0, 0, 0);
    forall l, j: nat | Atomic(l) ensures LeafFVars(f, {}, l, j) { }
    MapFVars(e, 0, f, {});
  }

  // ---------------------------------------------------------------- one-step reductions

  predicate IsNatLitExt(e: Expr) {
    e == NAT_ZERO || (e.Lit? && e.lit.NatLit?)
  }

  function NatVal(e: Expr): nat
    requires IsNatLitExt(e)
  {
    if e == NAT_ZERO then 0 else e.lit.n
  }

  function NatLitExpr(n: nat): Expr {
    Lit(NatLit(n))
  }

  function BoolExpr(b: bool): Expr {
    if b then Const(BOOL_TRUE, []) else Const(BOOL_FALSE, [])
  }

  /** The result of a built-in operation; powers with a huge exponent are left alone. */
  function NatOpResult(op: NatOp, a: nat, b: nat): Option<Expr> {
    match op
    case Compute(f) => Some(NatLitExpr(f(a, b)))
    case Test(p) => Some(BoolExpr(p(a, b)))
    case Power(f) => if b > MAX_POW_EXP then None else Some(NatLitExpr(f(a, b)))
  }

  ghost predicate BetaStep(t: Expr, s: Expr) {
    t.App? && t.fn.Lambda? && s == Inst(t.fn.body, 0, [t.arg])
  }

  ghost predicate LetStep(t: Expr, s: Expr) {
    t.Let? && s == Inst(t.letBody, 0, [t.letValue])
  }

  ghost predicate MDataStep(t: Expr, s: Expr) {
    t.MData? && s == t.inner
  }

  ghost predicate DeltaStep(env: Environment, t: Expr, s: Expr) {
    && t.Const? && t.name in env.defs && |t.levels| == |env.defs[t.name].lparams|
    && exists keep :: s == InstLParams(env.defs[t.name].value, env.defs[t.name].lparams, t.levels, keep)
  }

  lemma {:induction false} DeltaIntro(env: Environment, t: Expr, keep: L.Level -> bool)
    requires t.Const? && t.name in env.defs && |t.levels| == |env.defs[t.name].lparams|
    ensures DeltaStep(env, t, InstLParams(env.defs[t.name].value, env.defs[t.name].lparams, t.levels, keep))
  {
  }

  ghost predicate FVarStep(lets: Lets, t: Expr, s: Expr) {
    t.FVar? && t.fvar in lets && s == lets[t.fvar]
  }

  ghost predicate NatStep(env: Environment, t: Expr, s: Expr) {
    || (t.App? && t.fn == NAT_SUCC && IsNatLitExt(t.arg) && s == NatLitExpr(NatVal(t.arg) + 1))
    || (&& t.App? && t.fn.App? && t.fn.fn.Const? && t.fn.fn.levels == [] && t.fn.fn.name in env.natOps
        && IsNatLitExt(t.fn.arg) && IsNatLitExt(t.arg)
        && NatOpResult(env.natOps[t.fn.fn.name], NatVal(t.fn.arg), NatVal(t.arg)) == Some(s))
  }

  /** A projection of a constructor application selects the field after the parameters. */
  /** A constructor application with a field at position `i`. */
  predicate HasField(env: Environment, c: Expr, i: nat) {
    && AppFn(c).Const? && AppFn(c).name in env.ctors
    && env.ctors[AppFn(c).name] + i < |AppArgs(c)|
  }

  ghost predicate ProjStep(env: Environment, t: Expr, s: Expr) {
    && t.Proj? && HasField(env, t.struct, t.pidx)
    && s == AppArgs(t.struct)[env.ctors[AppFn(t.struct).name] + t.pidx]
  }

  /** Computation: beta, zeta (let and let-variable), delta, metadata, literals, projections. */
  ghost predicate ReduceStep(env: Environment, lets: Lets, t: Expr, s: Expr) {
    || BetaStep(t, s) || LetStep(t, s) || MDataStep(t, s) || DeltaStep(env, t, s)
    || FVarStep(lets, t, s) || NatStep(env, t, s) || ProjStep(env, t, s)
  }

  ghost predicate EtaStep(t: Expr, s: Expr) {
    t.Lambda? && t.body.App? && t.body.arg == BVar(0) && t.body.fn == Lift(s, 0, 1)
  }

  ghost predicate SameLevels(ls: seq<L.Level>, ks: seq<L.Level>) {
    |ls| == |ks| && forall i :: 0 <= i < |ls| ==> L.SameMeaning(ls[i], ks[i])
  }

  /** Sorts and constants with levels of equal value; `Bool.true` has no universe parameters, so
      levels written on it mean nothing. */
  ghost predicate LevelStep(t: Expr, s: Expr) {
    || (t.Sort? && s.Sort? && L.SameMeaning(t.level, s.level))
    || (t.Const? && s.Const? && t.name == s.name && (SameLevels(t.levels, s.levels) || t.name == BOOL_TRUE))
  }

  ghost predicate Step(env: Environment, lets: Lets, t: Expr, s: Expr) {
    ReduceStep(env, lets, t, s) || EtaStep(t, s) || LevelStep(t, s) || (t == NatLitExpr(0) && s == NAT_ZERO)
  }

  ghost function StepRel(env: Environment, lets: Lets): Rel {
    (t: Expr, s: Expr) => Step(env, lets, t, s)
  }

  /** Definitional equality on the modelled fragment. */
  ghost predicate DefEq(env: Environment, lets: Lets, t: Expr, s: Expr) {
    Conv(StepRel(env, lets), t, s)
  }

  // ---------------------------------------------------------------- reduction sequences

  datatype RDeriv = RSame | RStep | RTrans(mid: Expr, d1: RDeriv, d2: RDeriv) | RFn(d: RDeriv) | RArg(d: RDeriv) | RProj(d: RDeriv)

  /** `d` shows that `t` reduces to `s` in zero or more steps, taken anywhere in an application
      or below a projection.  Results are shared between expressions the kernel considers equal,
      so binder names and infos may change. */
  ghost predicate RDerives(env: Environment, lets: Lets, d: RDeriv, t: Expr, s: Expr) {
    match d
    case RSame => Same(t, s)
    case RStep => ReduceStep(env, lets, t, s)
    case RTrans(m, d1, d2) => RDerives(env, lets, d1, t, m) && RDerives(env, lets, d2, m, s)
    case RFn(d1) => t.App? && s.App? && t.arg == s.arg && RDerives(env, lets, d1, t.fn, s.fn)
    case RArg(d1) => t.App? && s.App? && t.fn == s.fn && RDerives(env, lets, d1, t.arg, s.arg)
    case RProj(d1) =>
      t.Proj? && s.Proj? && t.pidx == s.pidx && t.sname == s.sname && RDerives(env, lets, d1, t.struct, s.struct)
  }

  ghost predicate Reduces(env: Environment, lets: Lets, t: Expr, s: Expr) {
    exists d :: RDerives(env, lets, d, t, s)
  }

  lemma {:induction false} RedRefl(env: Environment, lets: Lets, t: Expr, s: Expr)
    requires Same(t, s)
    ensures Reduces(env, lets, t, s)
  {
    assert RDerives(env, lets, RSame, t, s);
  }

  lemma {:induction false} RedStep(env: Environment, lets: Lets, t: Expr, s: Expr)
    requires ReduceStep(env, lets, t, s)
    ensures Reduces(env, lets, t, s)
  {
    assert RDerives(env, lets, RStep, t, s);
  }

  lemma {:induction false} RedTransDeriv(env: Environment, lets: Lets, d1: RDeriv, d2: RDeriv, t: Expr, m: Expr, s: Expr)
    requires RDerives(env, lets, d1, t, m) && RDerives(env, lets, d2, m, s)
    ensures RDerives(env, lets, RTrans(m, d1, d2), t, s)
  {
  }

  lemma {:induction false} RedTrans(env: Environment, lets: Lets, t: Expr, m: Expr, s: Expr)
    requires Reduces(env, lets, t, m) && Reduces(env, lets, m, s)
    ensures Reduces(env, lets, t, s)
  {
    var d1 :| RDerives(env, lets, d1, t, m);
    var d2 :| RDerives(env, lets, d2, m, s);
    RedTransDeriv(env, lets, d1, d2, t, m, s);
  }

  lemma {:induction false} RedApp(env: Environment, lets: Lets, f: Expr, g: Expr, a: Expr, b: Expr)
    requires Reduces(env, lets, f, g) && Reduces(env, lets, a, b)
    ensures Reduces(env, lets, App(f, a), App(g, b))
  {
    var d1 :| RDerives(env, lets, d1, f, g);
    var d2 :| RDerives(env, lets, d2, a, b);
    assert RDerives(env, lets, RFn(d1), App(f, a), App(g, a));
    assert RDerives(env, lets, RArg(d2), App(g, a), App(g, b));
    RedTrans(env, lets, App(f, a), App(g, a), App(g, b));
  }

  lemma {:induction false} RedProj(env: Environment, lets: Lets, n: Name, i: nat, x: Expr, y: Expr)
    requires Reduces(env, lets, x, y)
    ensures Reduces(env, lets, Proj(n, i, x), Proj(n, i, y))
  {
    var d :| RDerives(env, lets, d, x, y);
    assert RDerives(env, lets, RProj(d), Proj(n, i, x), Proj(n, i, y));
  }

  lemma {:induction false} RedRevApp(env: Environment, lets: Lets, f: Expr, g: Expr, args: seq<Expr>)
    requires Reduces(env, lets, f, g)
    ensures Reduces(env, lets, MkRevApp(f, args), MkRevApp(g, args))
  {
    if args != [] {
      RedRevApp(env, lets, f, g, args[1..]);
      RedRefl(env, lets, args[0], args[0]);
      RedApp(env, lets, MkRevApp(f, args[1..]), MkRevApp(g, args[1..]), args[0], args[0]);
    }
  }

  /** A reduction sequence stays one when more let-variables become known. */
  lemma {:induction false} RedMono(env: Environment, lets: Lets, lets2: Lets, d: RDeriv, t: Expr, s: Expr)
    requires forall y :: y in lets ==> y in lets2 && lets2[y] == lets[y]
    requires RDerives(env, lets, d, t, s)
    ensures RDerives(env, lets2, d, t, s)
  {
    match d
    case RSame =>
    case RStep =>
    case RTrans(m, d1, d2) => RedMono(env, lets, lets2, d1, t, m); RedMono(env, lets, lets2, d2, m, s);
    case RFn(d1) => RedMono(env, lets, lets2, d1, t.fn, s.fn);
    case RArg(d1) => RedMono(env, lets, lets2, d1, t.arg, s.arg);
    case RProj(d1) => RedMono(env, lets, lets2, d1, t.struct, s.struct);
  }

  /** Reduction stays inside definitional equality. */
  lemma {:induction false} RedDefEq(env: Environment, lets: Lets, d: RDeriv, t: Expr, s: Expr)
    requires RDerives(env, lets, d, t, s)
    ensures DefEq(env, lets, t, s)
  {
    var R := StepRel(env, lets);
    match d
    case RSame => ConvRefl(R, t, s);
    case RStep => ConvAxiom(R, t, s);
    case RTrans(m, d1, d2) => RedDefEq(env, lets, d1, t, m); RedDefEq(env, lets, d2, m, s); ConvTrans(R, t, m, s);
    case RFn(d1) => RedDefEq(env, lets, d1, t.fn, s.fn); ConvRefl(R, t.arg, s.arg); ConvApp(R, t, s);
    case RArg(d1) => RedDefEq(env, lets, d1, t.arg, s.arg); ConvRefl(R, t.fn, s.fn); ConvApp(R, t, s);
    case RProj(d1) => RedDefEq(env, lets, d1, t.struct, s.struct); ConvProj(R, t, s);
  }
}
