/** What instantiation of metavariables means: it stays inside definitional equality extended with
    `?m = assignment of ?m`, and a delayed assignment is abstraction followed by instantiation. */
module MVarMeaning {
  import opened Names
  import opened Prelude
  import opened Exprs
  import opened DeBruijn
  import opened ExprFacts
  import opened ExprGraph
  import opened ReplaceFn
  import opened Congruence
  import opened Conversion
  import opened BetaZeta
  import opened MVarContexts
  import opened MVarFacts
  import opened MVarSaturation
  import L = Levels

  // ---------------------------------------------------------------- meaning is preserved

  /** Levels of equal value under every assignment of naturals that respects the context. */
  ghost predicate SameValue(c: Context, l: L.Level, k: L.Level) {
    forall A :: Respects(c, A) ==> L.Eval(l, A) == L.Eval(k, A)
  }

  ghost predicate SameValues(c: Context, ls: seq<L.Level>, ks: seq<L.Level>) {
    |ls| == |ks| && forall i :: 0 <= i < |ls| ==> SameValue(c, ls[i], ks[i])
  }

  /** A conversion step, an assigned metavariable and its assignment, levels of equal value, or a
      delayed metavariable of rank below `k` applied to exactly its variables. */
  ghost predicate MStep(env: Environment, lets: Lets, c: Context, rk: Ranking, k: nat, t: Expr, s: Expr)
    decreases k, 0
  {
    || Step(env, lets, t, s)
    || (t.MVar? && t.mvar in c.assign && s == c.assign[t.mvar])
    || (t.Sort? && s.Sort? && SameValue(c, t.level, s.level))
    || (t.Const? && s.Const? && t.name == s.name && SameValues(c, t.levels, s.levels))
    || (AppFn(t).MVar? && rk.expr(AppFn(t).mvar) < k
        && exists v :: DelayedValue(env, lets, c, rk, AppFn(t).mvar, v)
                    && |AppArgs(t)| == |c.delayed[AppFn(t).mvar].fvars|
                    && s == ReplaceFVars(v, c.delayed[AppFn(t).mvar].fvars, Reverse(AppArgs(t))))
  }

  /** `v` is a value of the metavariable that `m` waits for, with no expression metavariable left:
      `?m` stands for `fun fvars => v`. */
  ghost predicate DelayedValue(env: Environment, lets: Lets, c: Context, rk: Ranking, m: Name, v: Expr)
    decreases rk.expr(m), 3
  {
    && m !in c.assign && m in c.delayed && !HasExprMVar(v)
    && MEq(env, lets, c, rk, rk.expr(m), MVar(c.delayed[m].pending), v)
  }

  ghost function MRel(env: Environment, lets: Lets, c: Context, rk: Ranking, k: nat): Rel
    decreases k, 1
  {
    (t: Expr, s: Expr) => MStep(env, lets, c, rk, k, t, s)
  }

  /** Definitional equality when assigned metavariables stand for their assignments and delayed
      ones, of rank below `k`, for functions of the variables they abstract. */
  ghost predicate MEq(env: Environment, lets: Lets, c: Context, rk: Ranking, k: nat, t: Expr, s: Expr)
    decreases k, 2
  {
    Conv(MRel(env, lets, c, rk, k), t, s)
  }

  lemma {:induction false} LFullSameValue(c: Context, rk: Ranking, l: L.Level)
    requires LevelsAcyclic(c, rk)
    ensures SameValue(c, l, LFull(c, rk, l))
  {
    forall A | Respects(c, A) ensures L.Eval(l, A) == L.Eval(LFull(c, rk, l), A) { LFullMeaning(c, rk, l, A); }
  }

  lemma {:induction false} BetaZetaMEq(env: Environment, lets: Lets, c: Context, rk: Ranking, k: nat, f: Expr, rev: seq<Expr>)
    ensures MEq(env, lets, c, rk, k, MkRevApp(f, rev), ApplyBetaZeta(f, rev))
  {
    var t, s := MkRevApp(f, rev), ApplyBetaZeta(f, rev);
    var R, Q := StepRel(env, lets), MRel(env, lets, c, rk, k);
    BetaZetaReduces(env, lets, f, rev);
    var d :| RDerives(env, lets, d, t, s);
    RedDefEq(env, lets, d, t, s);
    var d2 :| Derives(R, d2, t, s);
    forall x, y | R(x, y) ensures Conv(Q, x, y) { assert MStep(env, lets, c, rk, k, x, y); ConvAxiom(Q, x, y); }
    ConvMono(R, Q, d2, t, s);
  }

  /** Instantiation preserves meaning. */
  lemma {:induction false} FullMeaning(env: Environment, lets: Lets, c: Context, rk: Ranking, k: nat, e: Expr)
    requires Acyclic(c, rk) && RankOf(rk, e) <= k
    ensures MEq(env, lets, c, rk, k, e, Full(c, rk, e))
    decreases RankOf(rk, e), Size(e), 2
  {
    hide FullApp, MStep, Derives;
    var Q, r := MRel(env, lets, c, rk, k), Full(c, rk, e);
    match e
    case MVar(m) =>
      if m in c.assign { AssignedMeaning(env, lets, c, rk, k, m); } else { ConvRefl(Q, e, r); }
    case Sort(l) => SortMeaning(env, lets, c, rk, k, l);
    case Const(n, ls) => ConstMeaning(env, lets, c, rk, k, n, ls);
    case App(_, _) => AppMeaning(env, lets, c, rk, k, e);
    case Lambda(_, t, b) =>
      FullMeaning(env, lets, c, rk, k, t);
      FullMeaning(env, lets, c, rk, k, b);
      ConvBinding(Q, e, r);
    case Pi(_, t, b) =>
      FullMeaning(env, lets, c, rk, k, t);
      FullMeaning(env, lets, c, rk, k, b);
      ConvBinding(Q, e, r);
    case Let(_, t, v, b, _) =>
      FullMeaning(env, lets, c, rk, k, t);
      FullMeaning(env, lets, c, rk, k, v);
      FullMeaning(env, lets, c, rk, k, b);
      ConvLet(Q, e, r);
    case MData(_, x) =>
      FullMeaning(env, lets, c, rk, k, x);
      ConvMData(Q, e, r);
    case Proj(_, _, x) =>
      FullMeaning(env, lets, c, rk, k, x);
      ConvProj(Q, e, r);
    case _ => ConvRefl(Q, e, r);
  }

  lemma {:induction false} SortMeaning(env: Environment, lets: Lets, c: Context, rk: Ranking, k: nat, l: L.Level)
    requires Acyclic(c, rk)
    ensures MEq(env, lets, c, rk, k, Sort(l), Sort(LFull(c, rk, l)))
  {
    LFullSameValue(c, rk, l);
    assert MStep(env, lets, c, rk, k, Sort(l), Sort(LFull(c, rk, l)));
    ConvAxiom(MRel(env, lets, c, rk, k), Sort(l), Sort(LFull(c, rk, l)));
  }

  lemma {:induction false} ConstMeaning(env: Environment, lets: Lets, c: Context, rk: Ranking, k: nat, n: Name, ls: seq<L.Level>)
    requires Acyclic(c, rk)
    ensures MEq(env, lets, c, rk, k, Const(n, ls), Const(n, LFullAll(c, rk, ls)))
  {
    var ks := LFullAll(c, rk, ls);
    forall i | 0 <= i < |ls| ensures SameValue(c, ls[i], ks[i]) { LFullSameValue(c, rk, ls[i]); }
    assert MStep(env, lets, c, rk, k, Const(n, ls), Const(n, ks));
    ConvAxiom(MRel(env, lets, c, rk, k), Const(n, ls), Const(n, ks));
  }

  lemma {:induction false} AssignedMeaning(env: Environment, lets: Lets, c: Context, rk: Ranking, k: nat, m: Name)
    requires Acyclic(c, rk) && m in c.assign && rk.expr(m) < k
    ensures MEq(env, lets, c, rk, k, MVar(m), Full(c, rk, c.assign[m]))
    decreases rk.expr(m) + 1, 0, 0
  {
    var Q := MRel(env, lets, c, rk, k);
    assert MStep(env, lets, c, rk, k, MVar(m), c.assign[m]);
    ConvAxiom(Q, MVar(m), c.assign[m]);
    FullMeaning(env, lets, c, rk, k, c.assign[m]);
    ConvTrans(Q, MVar(m), c.assign[m], Full(c, rk, c.assign[m]));
  }

  /** A spine with a new head `g` and instantiated arguments. */
  lemma {:induction false} SpineMeaning(env: Environment, lets: Lets, c: Context, rk: Ranking, k: nat, e: Expr, g: Expr)
    requires Acyclic(c, rk) && RankOf(rk, e) <= k && MEq(env, lets, c, rk, k, AppFn(e), g)
    ensures MEq(env, lets, c, rk, k, e, MkRevApp(g, FullRevArgs(c, rk, e)))
    decreases RankOf(rk, e), Size(e), 0
  {
    if e.App? {
      var Q, rev := MRel(env, lets, c, rk, k), FullRevArgs(c, rk, e);
      SpineMeaning(env, lets, c, rk, k, e.fn, g);
      FullMeaning(env, lets, c, rk, k, e.arg);
      assert rev[1..] == FullRevArgs(c, rk, e.fn);
      ConvApp(Q, e, MkRevApp(g, rev));
    }
  }

  lemma {:induction false} AppMeaning(env: Environment, lets: Lets, c: Context, rk: Ranking, k: nat, e: Expr)
    requires Acyclic(c, rk) && RankOf(rk, e) <= k && e.App?
    ensures MEq(env, lets, c, rk, k, e, FullApp(c, rk, e))
    decreases RankOf(rk, e), Size(e), 1
  {
    hide MEq, ApplyBetaZeta, MkRevApp, Acyclic;
    var f, rev := AppFn(e), FullRevArgs(c, rk, e);
    HeadMeasure(rk, e);
    if !f.MVar? {
      FullMeaning(env, lets, c, rk, k, f);
      SpineMeaning(env, lets, c, rk, k, e, Full(c, rk, f));
    } else if f.mvar in c.assign {
      var g := Full(c, rk, c.assign[f.mvar]);
      AssignedMeaning(env, lets, c, rk, k, f.mvar);
      SpineMeaning(env, lets, c, rk, k, e, g);
      BetaZetaMEq(env, lets, c, rk, k, g, rev);
      MEqTrans(env, lets, c, rk, k, e, MkRevApp(g, rev), ApplyBetaZeta(g, rev));
    } else {
      MEqRefl(env, lets, c, rk, k, f);
      SpineMeaning(env, lets, c, rk, k, e, f);
      if f.mvar in c.delayed && Ready(c, f.mvar, |rev|) {
        var d := c.delayed[f.mvar];
        var v := Full(c, rk, c.assign[d.pending]);
        PendingBelow(c, rk, f.mvar);
        AssignedMeaning(env, lets, c, rk, rk.expr(f.mvar), d.pending);
        if !HasExprMVar(v) {
          ResolveMeaning(env, lets, c, rk, k, f.mvar, v, rev);
          MEqTrans(env, lets, c, rk, k, e, MkRevApp(f, rev), Resolve(d.fvars, v, rev));
        }
      }
    }
  }

  lemma {:induction false} PendingBelow(c: Context, rk: Ranking, m: Name)
    requires Acyclic(c, rk) && m in c.delayed
    ensures rk.expr(c.delayed[m].pending) < rk.expr(m)
  {
  }

  /** A delayed metavariable with enough arguments is its value at the first of them. */
  lemma {:induction false} ResolveMeaning(env: Environment, lets: Lets, c: Context, rk: Ranking, k: nat, m: Name, v: Expr, rev: seq<Expr>)
    requires rk.expr(m) < k && DelayedValue(env, lets, c, rk, m, v) && |c.delayed[m].fvars| <= |rev|
    ensures MEq(env, lets, c, rk, k, MkRevApp(MVar(m), rev), Resolve(c.delayed[m].fvars, v, rev))
  {
    var Q, fvars := MRel(env, lets, c, rk, k), c.delayed[m].fvars;
    var n := |rev| - |fvars|;
    var t, s := MkRevApp(MVar(m), rev[n..]), ReplaceFVars(v, fvars, rev[n..]);
    DelayedStep(env, lets, c, rk, k, m, v, rev[n..]);
    ConvAxiom(Q, t, s);
    ConvRevApp(Q, t, s, rev[..n]);
    MkRevAppSplit(MVar(m), rev[..n], rev[n..]);
    assert rev[..n] + rev[n..] == rev;
  }

  lemma {:induction false} DelayedStep(env: Environment, lets: Lets, c: Context, rk: Ranking, k: nat, m: Name, v: Expr, rev: seq<Expr>)
    requires rk.expr(m) < k && DelayedValue(env, lets, c, rk, m, v) && |c.delayed[m].fvars| == |rev|
    ensures MStep(env, lets, c, rk, k, MkRevApp(MVar(m), rev), ReplaceFVars(v, c.delayed[m].fvars, rev))
  {
    hide Step, SameValue, ReplaceFVars, MkRevApp;
    SpineOfRevApp(MVar(m), rev);
    assert Reverse(Reverse(rev)) == rev;
  }

  lemma {:induction false} MkRevAppSplit(f: Expr, xs: seq<Expr>, ys: seq<Expr>)
    ensures MkRevApp(f, xs + ys) == MkRevApp(MkRevApp(f, ys), xs)
  {
    if xs == [] {
      assert xs + ys == ys;
    } else {
      assert (xs + ys)[1..] == xs[1..] + ys;
      MkRevAppSplit(f, xs[1..], ys);
    }
  }

  lemma {:induction false} MEqRefl(env: Environment, lets: Lets, c: Context, rk: Ranking, k: nat, t: Expr)
    ensures MEq(env, lets, c, rk, k, t, t)
  {
    ConvRefl(MRel(env, lets, c, rk, k), t, t);
  }

  lemma {:induction false} MEqTrans(env: Environment, lets: Lets, c: Context, rk: Ranking, k: nat, t: Expr, m: Expr, s: Expr)
    requires MEq(env, lets, c, rk, k, t, m) && MEq(env, lets, c, rk, k, m, s)
    ensures MEq(env, lets, c, rk, k, t, s)
  {
    ConvTrans(MRel(env, lets, c, rk, k), t, m, s);
  }

  // ---------------------------------------------------------------- delayed assignments

  lemma {:induction false} ReplaceAtom(l: Expr, j: nat, fvars: seq<Name>, revArgs: seq<Expr>)
    requires |revArgs| == |fvars| && Atomic(l) && LooseRange(l) <= j
    ensures Fuses(l, j, Pass(0, AbstractLeaf(fvars)), Pass(0, InstLeaf(revArgs)), Pass(0, SubstLeaf(FVarImages(fvars, revArgs))))
  {
    hide FVarImages, LastIndex;
    if l.FVar? { ReplaceVariable(l.fvar, j, fvars, revArgs); }
  }

  /** A variable that is listed becomes an index and then its argument. */
  lemma {:induction false} ReplaceVariable(x: Name, j: nat, fvars: seq<Name>, revArgs: seq<Expr>)
    requires |revArgs| == |fvars|
    ensures Map(AbstractAt(FVar(x), j, fvars), j, InstLeaf(revArgs)) == SubstAt(FVar(x), j, FVarImages(fvars, revArgs))
  {
    var i := LastIndex(fvars, x);
    if i.Some? {
      assert AbstractAt(FVar(x), j, fvars) == BVar(j + (|fvars| - i.value - 1));
      assert x in FVarImages(fvars, revArgs);
    } else {
      assert x !in FVarImages(fvars, revArgs);
    }
  }

  /** On a closed value, `replace_fvars` is abstraction followed by instantiation. */
  lemma {:induction false} ReplaceIsAbstractInst(e: Expr, fvars: seq<Name>, revArgs: seq<Expr>)
    requires |revArgs| == |fvars| && LooseRange(e) == 0
    ensures ReplaceFVars(e, fvars, revArgs) == Inst(Abstract(e, 0, fvars), 0, revArgs)
  {
    var m := FVarImages(fvars, revArgs);
    RangeLeaves(e, 0, 0, []);
    var p1, p2, q := Pass(0, AbstractLeaf(fvars)), Pass(0, InstLeaf(revArgs)), Pass(0, SubstLeaf(m));
    forall l, j: nat | Atomic(l) && InRange(0)(l, j) ensures Fuses(l, j, p1, p2, q) { ReplaceAtom(l, j, fvars, revArgs); }
    MapFuse(e, InRange(0), p1, p2, q);
  }

  function ReplaceFVarsCallback(fvars: seq<Name>, revArgs: seq<Expr>): Callback
    requires |revArgs| == |fvars|
  {
    (e: Expr, offset: nat) =>
      if !HasFVar(e) then Some(e)
      else if e.FVar? then
        match LastIndex(fvars, e.fvar)
        case Some(i) => Some(Lift(revArgs[|fvars| - i - 1], 0, offset))
        case None => None
      else None
  }

  lemma {:induction false} NoFVarsSubst(e: Expr, k: nat, m: map<Name, Expr>)
    requires !HasFVar(e)
    ensures Subst(e, k, m) == e
  {
    HasFVarMeaning(e);
    RangeLeaves(e, 0, LooseRange(e), []);
    NoFVarLeaves(e, 0);
    MapFixes(e, NoFVar(), Pass(k, SubstLeaf(m)));
  }

  function NoFVar(): (Expr, nat) -> bool {
    (l: Expr, j: nat) => !l.FVar?
  }

  lemma {:induction false} NoFVarLeaves(e: Expr, i: nat)
    requires !HasFVar(e)
    ensures AllLeaves(e, i, NoFVar())
  {
    match e
    case App(f, a) => NoFVarLeaves(f, i); NoFVarLeaves(a, i);
    case Lambda(_, t, b) => NoFVarLeaves(t, i); NoFVarLeaves(b, i + 1);
    case Pi(_, t, b) => NoFVarLeaves(t, i); NoFVarLeaves(b, i + 1);
    case Let(_, t, v, b, _) => NoFVarLeaves(t, i); NoFVarLeaves(v, i); NoFVarLeaves(b, i + 1);
    case MData(_, x) => NoFVarLeaves(x, i);
    case Proj(_, _, x) => NoFVarLeaves(x, i);
    case _ =>
  }

  lemma {:induction false} ReplaceFVarsPrunes(fvars: seq<Name>, revArgs: seq<Expr>)
    requires |revArgs| == |fvars|
    ensures Prunes(ReplaceFVarsCallback(fvars, revArgs), 0, SubstLeaf(FVarImages(fvars, revArgs)))
  {
    var f, leaf := ReplaceFVarsCallback(fvars, revArgs), SubstLeaf(FVarImages(fvars, revArgs));
    forall e, k: nat ensures PrunesAt(f, 0, leaf, e, k) {
      if !HasFVar(e) {
        NoFVarsSubst(e, k, FVarImages(fvars, revArgs));
      } else if e.FVar? {
        ImageAt(fvars, revArgs, e.fvar);
      }
    }
  }

  lemma {:induction false} ImageAt(fvars: seq<Name>, revArgs: seq<Expr>, x: Name)
    requires |revArgs| == |fvars|
    ensures var i := LastIndex(fvars, x);
      && (i.Some? <==> x in FVarImages(fvars, revArgs))
      && (i.Some? ==> FVarImages(fvars, revArgs)[x] == revArgs[|fvars| - i.value - 1])
  {
  }

  /** The pruned, memoised traversal of `replace_fvars` computes the plain substitution. */
  method ReplaceFVarsRun(g: Graph, p: nat, fvars: seq<Name>, revArgs: seq<Expr>) returns (r: Expr)
    requires GraphOk(g) && p < |g| && |revArgs| == |fvars|
    ensures r == ReplaceFVars(Term(g, p), fvars, revArgs)
  {
    var e := Term(g, p);
    var leaf := SubstLeaf(FVarImages(fvars, revArgs));
    if fvars == [] {
      AlwaysLeaves(e, 0);
      MapFixes(e, Always(), Pass(0, leaf));
      return e;
    }
    r := Replace(g, p, ReplaceFVarsCallback(fvars, revArgs), true);
    ReplaceFVarsPrunes(fvars, revArgs);
    ReplacedIsMap(e, 0, ReplaceFVarsCallback(fvars, revArgs), 0, leaf);
  }

  // ---------------------------------------------------------------- a second pass

  const NAMES: seq<Name> := [[Num(0)], [Num(1)], [Num(2)], [Num(3)], [Num(4)]]

  function ConstA(): Expr { Const([], []) }

  function ApplyToA(): Expr { Lambda(Binder([], Default), Sort(L.Zero), App(BVar(0), ConstA())) }

  /** `?d a`: one argument where two are needed. */
  function OneArgument(): Expr { App(MVar(NAMES[1]), ConstA()) }

  /** `?f (?d a)`. */
  function Unsaturated(): Expr { App(MVar(NAMES[0]), OneArgument()) }

  /** `?f := fun g => g a` and `?d x y := ?p` with `?p := x`. */
  function DelayedContext(): Context {
    Context(map[NAMES[0] := ApplyToA(), NAMES[2] := FVar(NAMES[3])], map[],
            map[NAMES[1] := Delayed([NAMES[3], NAMES[4]], NAMES[2])])
  }

  /** The same with one more assignment, `?h := h`. */
  function Extended(h: Expr): Context {
    DelayedContext().(assign := DelayedContext().assign[NAMES[4] := h])
  }

  function DelayedRanking(): Ranking {
    Ranking((m: Name) => if m == NAMES[1] then 1 else if m == NAMES[4] then 2 else 0, (m: Name) => 0)
  }

  ghost predicate Setting(c: Context) {
    c == DelayedContext() || exists h :: c == Extended(h)
  }

  /** What both contexts assign. */
  lemma {:induction false} SettingFacts(c: Context)
    requires Setting(c)
    ensures NAMES[0] in c.assign && c.assign[NAMES[0]] == ApplyToA()
    ensures NAMES[2] in c.assign && c.assign[NAMES[2]] == FVar(NAMES[3])
    ensures NAMES[1] !in c.assign && NAMES[1] in c.delayed
    ensures c.delayed[NAMES[1]] == Delayed([NAMES[3], NAMES[4]], NAMES[2])
  {
  }

  lemma {:induction false} DelayedAcyclic()
    ensures Acyclic(DelayedContext(), DelayedRanking())
    ensures Acyclic(Extended(Unsaturated()), DelayedRanking())
  {
    var rk := DelayedRanking();
    assert RankOf(rk, ApplyToA()) == 0;
    assert RankOf(rk, OneArgument()) == 2;
    assert RankOf(rk, Unsaturated()) == 2;
  }

  lemma {:induction false} UnaryArgs(c: Context, rk: Ranking, m: Name, a: Expr)
    requires Acyclic(c, rk)
    ensures FullRevArgs(c, rk, App(MVar(m), a)) == [Full(c, rk, a)]
  {
    assert FullRevArgs(c, rk, MVar(m)) == [];
  }

  /** `?d a` has too few arguments. */
  lemma {:induction false} TooFew(c: Context, rk: Ranking)
    requires Setting(c) && Acyclic(c, rk)
    ensures Full(c, rk, OneArgument()) == OneArgument()
  {
    hide Setting, Acyclic;
    SettingFacts(c);
    NoMVars(c, rk, ConstA());
    UnaryArgs(c, rk, NAMES[1], ConstA());
    assert MkRevApp(MVar(NAMES[1]), [ConstA()]) == OneArgument();
  }

  /** `?f (?d a)` becomes `?d a a`. */
  lemma {:induction false} FirstPass(c: Context, rk: Ranking)
    requires Setting(c) && Acyclic(c, rk)
    ensures Full(c, rk, Unsaturated()) == App(OneArgument(), ConstA())
  {
    hide Setting, Acyclic;
    SettingFacts(c);
    var inner := OneArgument();
    TooFew(c, rk);
    UnaryArgs(c, rk, NAMES[0], inner);
    NoMVars(c, rk, ApplyToA());
    LiftZero(inner, 0);
    assert Inst(App(BVar(0), ConstA()), 0, [inner]) == App(inner, ConstA());
    assert ApplyBetaZeta(ApplyToA(), [inner]) == App(inner, ConstA());
  }

  lemma {:induction false} ResolvedValue()
    ensures Resolve([NAMES[3], NAMES[4]], FVar(NAMES[3]), [ConstA(), ConstA()]) == ConstA()
  {
    LiftZero(ConstA(), 0);
    var xs := [NAMES[3], NAMES[4]];
    assert xs[1] != xs[0];
    assert LastIndex(xs, NAMES[3]) == Some(0);
    assert ReplaceFVars(FVar(NAMES[3]), xs, [ConstA(), ConstA()]) == ConstA();
    assert [ConstA(), ConstA()][0..] == [ConstA(), ConstA()];
  }

  /** `?d a a` becomes `a`. */
  lemma {:induction false} SecondPass(c: Context, rk: Ranking)
    requires Setting(c) && Acyclic(c, rk)
    ensures Full(c, rk, App(OneArgument(), ConstA())) == ConstA()
  {
    hide Setting, Acyclic, Resolve, ReplaceFVars;
    SettingFacts(c);
    var r := App(OneArgument(), ConstA());
    NoMVars(c, rk, ConstA());
    NoMVars(c, rk, FVar(NAMES[3]));
    UnaryArgs(c, rk, NAMES[1], ConstA());
    assert FullRevArgs(c, rk, r) == [ConstA(), ConstA()];
    ResolvedValue();
  }

  lemma {:induction false} LiveD(c: Context, rk: Ranking)
    requires Setting(c) && Acyclic(c, rk)
    ensures Live(c, rk, NAMES[1]) && Needed(c, rk, NAMES[1]) == 2
    ensures !Saturated(c, rk, Unsaturated(), 0)
  {
    hide Setting, Acyclic;
    SettingFacts(c);
    NoMVars(c, rk, FVar(NAMES[3]));
    assert !Saturated(c, rk, OneArgument(), 0);
  }

  lemma {:induction false} AssignmentsSaturated()
    ensures Acyclic(DelayedContext(), DelayedRanking()) && SaturatedContext(DelayedContext(), DelayedRanking())
  {
    hide Acyclic, Live, Needed, Saturated;
    var c, rk := DelayedContext(), DelayedRanking();
    DelayedAcyclic();
    ClosedSaturated(c, rk);
  }

  lemma {:induction false} ClosedSaturated(c: Context, rk: Ranking)
    requires Acyclic(c, rk)
    ensures Saturated(c, rk, ApplyToA(), 0) && Saturated(c, rk, FVar(NAMES[3]), 0)
  {
    hide Acyclic, Live, Needed;
    assert Saturated(c, rk, App(BVar(0), ConstA()), 0);
  }

  lemma {:induction false} Settings(h: Expr)
    ensures Setting(DelayedContext()) && Setting(Extended(h))
  {
  }

  /** Saturation of the term is needed: in a saturated context `?f (?d a)` changes twice. */
  lemma {:induction false} DelayedNeedsSecondPass()
    ensures Acyclic(DelayedContext(), DelayedRanking()) && SaturatedContext(DelayedContext(), DelayedRanking())
    ensures !Saturated(DelayedContext(), DelayedRanking(), Unsaturated(), 0)
    ensures var r := Full(DelayedContext(), DelayedRanking(), Unsaturated());
      Full(DelayedContext(), DelayedRanking(), r) != r
  {
    hide *;
    var c, rk := DelayedContext(), DelayedRanking();
    AssignmentsSaturated();
    Settings(ConstA());
    LiveD(c, rk);
    FirstPass(c, rk);
    SecondPass(c, rk);
    Different();
  }

  lemma {:induction false} Different()
    ensures App(OneArgument(), ConstA()) != ConstA()
  {
  }

  /** `?h := ?f (?d a)` before and after it is instantiated. */
  lemma {:induction false} ExtendedRewrites(r: Expr)
    requires Acyclic(Extended(Unsaturated()), DelayedRanking())
    requires r == Full(Extended(Unsaturated()), DelayedRanking(), Unsaturated())
    ensures Rewrites(Extended(Unsaturated()), DelayedRanking(), Extended(r))
  {
    var c, rk, c' := Extended(Unsaturated()), DelayedRanking(), Extended(r);
    hide Acyclic, Full, Unsaturated;
    forall m | m in c.assign ensures ExprEntry(c, rk, c', m) { }
    assert c'.assign.Keys == c.assign.Keys;
  }

  lemma {:induction false} HValue(h: Expr)
    requires Acyclic(Extended(h), DelayedRanking())
    ensures NAMES[4] in Extended(h).assign && Extended(h).assign[NAMES[4]] == h
    ensures Full(Extended(h), DelayedRanking(), MVar(NAMES[4])) == Full(Extended(h), DelayedRanking(), h)
  {
    hide Acyclic;
  }

  lemma {:induction false} HSaturated(h: Expr)
    requires Acyclic(Extended(h), DelayedRanking()) && !Saturated(Extended(h), DelayedRanking(), h, 0)
    ensures !SaturatedContext(Extended(h), DelayedRanking())
  {
    HValue(h);
    hide Acyclic, Saturated, Extended;
  }

  /** Saturation of the assignments is needed: once `?h := ?f (?d a)` has been instantiated in the
      context, `?h` is instantiated differently. */
  lemma {:induction false} UnsaturatedAssignment()
    ensures var (c, rk, h) := (Extended(Unsaturated()), DelayedRanking(), MVar(NAMES[4]));
      && Acyclic(c, rk) && !SaturatedContext(c, rk)
      && var c' := Extended(Full(c, rk, Unsaturated()));
         Rewrites(c, rk, c') && Acyclic(c', rk) && Full(c', rk, h) != Full(c, rk, h)
  {
    hide *;
    var h := Unsaturated();
    var c, rk := Extended(h), DelayedRanking();
    DelayedAcyclic();
    Settings(h);
    LiveD(c, rk);
    HSaturated(h);
    var r := Full(c, rk, h);
    var c' := Extended(r);
    ExtendedRewrites(r);
    RewrittenAcyclic(c, rk, c');
    Settings(r);
    FirstPass(c, rk);
    SecondPass(c', rk);
    HValue(h);
    HValue(r);
    Different();
  }
}
