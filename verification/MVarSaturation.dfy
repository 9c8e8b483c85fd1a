/** When one pass of instantiation is the last one: delayed assignments whose pending value is known
    must be applied to all their variables wherever they occur. */
module MVarSaturation {
  import opened Names
  import opened Prelude
  import opened Exprs
  import opened DeBruijn
  import opened ExprFacts
  import opened BetaZeta
  import opened MVarContexts
  import opened MVarFacts
  import L = Levels

  /** `m` is delayed assigned and its pending value is known and free of metavariables: with enough
      arguments `visit_app` resolves it. */
  ghost predicate Live(c: Context, rk: Ranking, m: Name)
    requires Acyclic(c, rk)
  {
    && m !in c.assign && m in c.delayed && c.delayed[m].pending in c.assign
    && !HasExprMVar(Full(c, rk, c.assign[c.delayed[m].pending]))
  }

  /** How many arguments a metavariable must have: a live one has all its variables to be replaced,
      and a metavariable that is not applied at all is never looked up among the delayed ones. */
  ghost function Needed(c: Context, rk: Ranking, m: Name): nat
    requires Acyclic(c, rk)
  {
    if Live(c, rk, m) then MaxNat(1, |c.delayed[m].fvars|) else 0
  }

  /** Every live metavariable of `e`, itself applied to `n` arguments, has the arguments it needs:
      the guard that sends `visit_app` past the error branch. */
  ghost predicate Saturated(c: Context, rk: Ranking, e: Expr, n: nat)
    requires Acyclic(c, rk)
  {
    match e
    case MVar(m) => n >= Needed(c, rk, m)
    case App(f, a) => Saturated(c, rk, f, n + 1) && Saturated(c, rk, a, 0)
    case Lambda(_, t, b) => Saturated(c, rk, t, 0) && Saturated(c, rk, b, 0)
    case Pi(_, t, b) => Saturated(c, rk, t, 0) && Saturated(c, rk, b, 0)
    case Let(_, t, v, b, _) => Saturated(c, rk, t, 0) && Saturated(c, rk, v, 0) && Saturated(c, rk, b, 0)
    case MData(_, x) => Saturated(c, rk, x, 0)
    case Proj(_, _, x) => Saturated(c, rk, x, 0)
    case _ => true
  }

  ghost predicate SaturatedContext(c: Context, rk: Ranking)
    requires Acyclic(c, rk)
  {
    forall m :: m in c.assign ==> Saturated(c, rk, c.assign[m], 0)
  }

  /** Neither assigned nor live: instantiation leaves it alone. */
  ghost function Quiet(c: Context, rk: Ranking): Test
    requires Acyclic(c, rk)
  {
    (m: Name) => m !in c.assign && !Live(c, rk, m)
  }

  ghost predicate QuietExpr(c: Context, rk: Ranking, e: Expr)
    requires Acyclic(c, rk)
  {
    MVarsIn(e, Quiet(c, rk), OutsideOf(c.lassign.Keys))
  }

  // ---------------------------------------------------------------- one pass settles saturated terms

  lemma {:induction false} SpineSaturated(c: Context, rk: Ranking, e: Expr, n: nat)
    requires Acyclic(c, rk) && Saturated(c, rk, e, n)
    ensures Saturated(c, rk, AppFn(e), n + |AppArgs(e)|)
  {
    if e.App? { SpineSaturated(c, rk, e.fn, n + 1); }
  }

  lemma {:induction false} HeadSaturated(c: Context, rk: Ranking, f: Expr, n: nat)
    requires Acyclic(c, rk) && Saturated(c, rk, f, n) && !f.App? && !f.MVar?
    ensures Saturated(c, rk, f, 0)
  {
  }

  lemma {:induction false} QuietLevels(c: Context, rk: Ranking, ls: seq<L.Level>)
    requires Acyclic(c, rk)
    ensures LevelsMVarsIn(LFullAll(c, rk, ls), OutsideOf(c.lassign.Keys))
  {
    var r := LFullAll(c, rk, ls);
    forall i | 0 <= i < |r| ensures LevelMVarsIn(r[i], OutsideOf(c.lassign.Keys)) { LFullSettled(c, rk, ls[i]); }
  }

  /** Instantiating a saturated term leaves only quiet metavariables. */
  lemma {:induction false} FullQuiet(c: Context, rk: Ranking, e: Expr)
    requires Acyclic(c, rk) && SaturatedContext(c, rk) && Saturated(c, rk, e, 0)
    ensures QuietExpr(c, rk, Full(c, rk, e))
    decreases RankOf(rk, e), Size(e), 2
  {
    assert LevelsAcyclic(c, rk);
    hide FullApp, LFull, Live, SaturatedContext, Acyclic, LevelsAcyclic;
    match e
    case MVar(m) => if m in c.assign { AssignedQuiet(c, rk, m); } else { NotLiveBare(c, rk, m); }
    case Sort(l) => LFullSettled(c, rk, l);
    case Const(_, ls) => QuietLevels(c, rk, ls);
    case App(_, _) => FullAppQuiet(c, rk, e);
    case Lambda(_, t, b) => FullQuiet(c, rk, t); FullQuiet(c, rk, b);
    case Pi(_, t, b) => FullQuiet(c, rk, t); FullQuiet(c, rk, b);
    case Let(_, t, v, b, _) => FullQuiet(c, rk, t); FullQuiet(c, rk, v); FullQuiet(c, rk, b);
    case MData(_, x) => FullQuiet(c, rk, x);
    case Proj(_, _, x) => FullQuiet(c, rk, x);
    case _ =>
  }

  lemma {:induction false} NotLiveBare(c: Context, rk: Ranking, m: Name)
    requires Acyclic(c, rk) && 0 >= Needed(c, rk, m)
    ensures !Live(c, rk, m)
  {
  }

  lemma {:induction false} AssignedQuiet(c: Context, rk: Ranking, m: Name)
    requires Acyclic(c, rk) && SaturatedContext(c, rk) && m in c.assign
    ensures QuietExpr(c, rk, Full(c, rk, c.assign[m]))
    decreases rk.expr(m) + 1, 0, 0
  {
    FullQuiet(c, rk, c.assign[m]);
  }

  lemma {:induction false} FullArgsQuiet(c: Context, rk: Ranking, e: Expr, n: nat)
    requires Acyclic(c, rk) && SaturatedContext(c, rk) && Saturated(c, rk, e, n)
    ensures AllIn(FullRevArgs(c, rk, e), Quiet(c, rk), OutsideOf(c.lassign.Keys))
    decreases RankOf(rk, e), Size(e), 0
  {
    hide Acyclic, SaturatedContext, Live, Full;
    if e.App? {
      FullQuiet(c, rk, e.arg);
      FullArgsQuiet(c, rk, e.fn, n + 1);
    }
  }

  lemma {:induction false} FullAppQuiet(c: Context, rk: Ranking, e: Expr)
    requires Acyclic(c, rk) && SaturatedContext(c, rk) && Saturated(c, rk, e, 0) && e.App?
    ensures QuietExpr(c, rk, FullApp(c, rk, e))
    decreases RankOf(rk, e), Size(e), 1
  {
    hide Acyclic, SaturatedContext, Full, HasExprMVar;
    var f, rev := AppFn(e), FullRevArgs(c, rk, e);
    var p, q := Quiet(c, rk), OutsideOf(c.lassign.Keys);
    HeadMeasure(rk, e);
    SpineSaturated(c, rk, e, 0);
    FullArgsQuiet(c, rk, e, 0);
    if !f.MVar? {
      HeadSaturated(c, rk, f, |AppArgs(e)|);
      FullQuiet(c, rk, f);
      RevAppKeeps(Full(c, rk, f), rev, p, q);
    } else if f.mvar in c.assign {
      AssignedQuiet(c, rk, f.mvar);
      BetaKeeps(Full(c, rk, c.assign[f.mvar]), rev, p, q);
    } else if Live(c, rk, f.mvar) {
      var d := c.delayed[f.mvar];
      var val := Full(c, rk, c.assign[d.pending]);
      NoExprMVarsQuiet(c, rk, c.assign[d.pending]);
      ResolveKeeps(d.fvars, val, rev, p, q);
    } else {
      RevAppKeeps(f, rev, p, q);
    }
  }

  /** A value without expression metavariables is quiet. */
  lemma {:induction false} NoExprMVarsQuiet(c: Context, rk: Ranking, e: Expr)
    requires Acyclic(c, rk) && !HasExprMVar(Full(c, rk, e))
    ensures QuietExpr(c, rk, Full(c, rk, e))
  {
    FullSettled(c, rk, e);
    BothIn(Full(c, rk, e), Never(), Anything(), OutsideOf(c.assign.Keys), OutsideOf(c.lassign.Keys), Quiet(c, rk));
  }

  /** Expression metavariables by both facts, level metavariables by the second. */
  lemma {:induction false} BothIn(e: Expr, p: Test, q: Test, p2: Test, q2: Test, r: Test)
    requires MVarsIn(e, p, q) && MVarsIn(e, p2, q2) && forall m :: p(m) && p2(m) ==> r(m)
    ensures MVarsIn(e, r, q2)
  {
    match e
    case App(f, a) => BothIn(f, p, q, p2, q2, r); BothIn(a, p, q, p2, q2, r);
    case Lambda(_, t, b) => BothIn(t, p, q, p2, q2, r); BothIn(b, p, q, p2, q2, r);
    case Pi(_, t, b) => BothIn(t, p, q, p2, q2, r); BothIn(b, p, q, p2, q2, r);
    case Let(_, t, v, b, _) => BothIn(t, p, q, p2, q2, r); BothIn(v, p, q, p2, q2, r); BothIn(b, p, q, p2, q2, r);
    case MData(_, x) => BothIn(x, p, q, p2, q2, r);
    case Proj(_, _, x) => BothIn(x, p, q, p2, q2, r);
    case _ =>
  }

  // ---------------------------------------------------------------- nothing happens to quiet terms

  lemma {:induction false} QuietFix(c: Context, rk: Ranking, e: Expr)
    requires Acyclic(c, rk) && QuietExpr(c, rk, e)
    ensures Full(c, rk, e) == e
    decreases Size(e), 1
  {
    assert LevelsAcyclic(c, rk);
    hide Acyclic, LevelsAcyclic, Live;
    match e
    case Sort(l) => LFullFix(c, rk, l);
    case Const(_, ls) => LevelsFix(c, rk, ls);
    case App(_, _) => QuietAppFix(c, rk, e);
    case Lambda(_, t, b) => QuietFix(c, rk, t); QuietFix(c, rk, b);
    case Pi(_, t, b) => QuietFix(c, rk, t); QuietFix(c, rk, b);
    case Let(_, t, v, b, _) => QuietFix(c, rk, t); QuietFix(c, rk, v); QuietFix(c, rk, b);
    case MData(_, x) => QuietFix(c, rk, x);
    case Proj(_, _, x) => QuietFix(c, rk, x);
    case _ =>
  }

  lemma {:induction false} QuietAppFix(c: Context, rk: Ranking, e: Expr)
    requires Acyclic(c, rk) && QuietExpr(c, rk, e) && e.App?
    ensures FullApp(c, rk, e) == e
    decreases Size(e), 0, 1
  {
    hide Acyclic, Full, HasExprMVar, MkRevApp;
    HeadMeasure(rk, e);
    HeadIn(e, Quiet(c, rk), OutsideOf(c.lassign.Keys));
    if !AppFn(e).MVar? { QuietFix(c, rk, AppFn(e)); }
    QuietArgsFix(c, rk, e);
    AppSpine(e);
  }

  lemma {:induction false} QuietArgsFix(c: Context, rk: Ranking, e: Expr)
    requires Acyclic(c, rk) && QuietExpr(c, rk, e)
    ensures FullRevArgs(c, rk, e) == Reverse(AppArgs(e))
    decreases Size(e), 0, 0
  {
    hide Acyclic, Full, Live;
    if e.App? {
      QuietFix(c, rk, e.arg);
      QuietArgsFix(c, rk, e.fn);
      assert Reverse(AppArgs(e)) == [e.arg] + Reverse(AppArgs(e.fn));
    }
  }

  /** One pass is the last one when every live metavariable, in the term and in the assignments, has
      the arguments it needs. */
  lemma {:induction false} FullIdempotent(c: Context, rk: Ranking, e: Expr)
    requires Acyclic(c, rk) && SaturatedContext(c, rk) && Saturated(c, rk, e, 0)
    ensures Full(c, rk, Full(c, rk, e)) == Full(c, rk, e)
  {
    FullQuiet(c, rk, e);
    QuietFix(c, rk, Full(c, rk, e));
  }

  /** A live head with saturated arguments: nothing resolvable is left exactly when it has the
      arguments it needs. */
  lemma {:induction false} LiveResolvedIff(c: Context, rk: Ranking, e: Expr, m: Name)
    requires Acyclic(c, rk) && SaturatedContext(c, rk) && AppFn(e) == MVar(m) && Live(c, rk, m)
    requires forall a :: a in AppArgs(e) ==> Saturated(c, rk, a, 0)
    ensures QuietExpr(c, rk, Full(c, rk, e)) <==> |AppArgs(e)| >= MaxNat(1, |c.delayed[m].fvars|)
    ensures Full(c, rk, e) ==
      if |AppArgs(e)| >= MaxNat(1, |c.delayed[m].fvars|)
      then Resolve(c.delayed[m].fvars, Full(c, rk, c.assign[c.delayed[m].pending]), FullRevArgs(c, rk, e))
      else MkRevApp(MVar(m), FullRevArgs(c, rk, e))
  {
    if |AppArgs(e)| >= MaxNat(1, |c.delayed[m].fvars|) {
      SpineFromArgs(c, rk, e, 0);
      FullQuiet(c, rk, e);
    } else {
      var r := MkRevApp(MVar(m), FullRevArgs(c, rk, e));
      SpineOfRevApp(MVar(m), FullRevArgs(c, rk, e));
      assert FullRevArgs(c, rk, MVar(m)) == [];
      assert Full(c, rk, e) == r;
      if QuietExpr(c, rk, r) { HeadIn(r, Quiet(c, rk), OutsideOf(c.lassign.Keys)); }
    }
  }

  lemma {:induction false} SpineFromArgs(c: Context, rk: Ranking, e: Expr, n: nat)
    requires Acyclic(c, rk) && Saturated(c, rk, AppFn(e), n + |AppArgs(e)|)
    requires forall a :: a in AppArgs(e) ==> Saturated(c, rk, a, 0)
    ensures Saturated(c, rk, e, n)
  {
    if e.App? {
      assert forall a :: a in AppArgs(e.fn) ==> a in AppArgs(e);
      assert e.arg in AppArgs(e);
      SpineFromArgs(c, rk, e.fn, n + 1);
    }
  }

  /** Without delayed assignments everything is saturated. */
  lemma {:induction false} NoDelayedSaturated(c: Context, rk: Ranking, e: Expr, n: nat)
    requires Acyclic(c, rk) && c.delayed == map[]
    ensures Saturated(c, rk, e, n)
  {
    match e
    case App(f, a) => NoDelayedSaturated(c, rk, f, n + 1); NoDelayedSaturated(c, rk, a, 0);
    case Lambda(_, t, b) => NoDelayedSaturated(c, rk, t, 0); NoDelayedSaturated(c, rk, b, 0);
    case Pi(_, t, b) => NoDelayedSaturated(c, rk, t, 0); NoDelayedSaturated(c, rk, b, 0);
    case Let(_, t, v, b, _) =>
      NoDelayedSaturated(c, rk, t, 0); NoDelayedSaturated(c, rk, v, 0); NoDelayedSaturated(c, rk, b, 0);
    case MData(_, x) => NoDelayedSaturated(c, rk, x, 0);
    case Proj(_, _, x) => NoDelayedSaturated(c, rk, x, 0);
    case _ =>
  }

  // ---------------------------------------------------------------- the rewritten context

  /** `c'` is `c` with some assignments instantiated, and the assignments of `c` are saturated. */
  ghost predicate Rewritten(c: Context, rk: Ranking, c': Context) {
    Acyclic(c, rk) && SaturatedContext(c, rk) && Rewrites(c, rk, c') && Acyclic(c', rk)
  }

  lemma {:induction false} AssignmentRewritten(c: Context, rk: Ranking, c': Context, m: Name)
    requires Rewritten(c, rk, c') && m in c.assign
    ensures m in c'.assign && Full(c', rk, c'.assign[m]) == Full(c, rk, c.assign[m])
    decreases rk.expr(m) + 1, 0, 0
  {
    assert ExprEntry(c, rk, c', m);
    if c'.assign[m] == c.assign[m] {
      FullRewritten(c, rk, c', c.assign[m]);
    } else {
      FullQuiet(c, rk, c.assign[m]);
      FullRank(c, rk, c.assign[m]);
      QuietRewritten(c, rk, c', Full(c, rk, c.assign[m]));
    }
  }

  /** A metavariable is live in the one context just when it is in the other. */
  lemma {:induction false} LiveRewritten(c: Context, rk: Ranking, c': Context, m: Name)
    requires Rewritten(c, rk, c')
    ensures Live(c', rk, m) <==> Live(c, rk, m)
    ensures m in c'.delayed <==> m in c.delayed
    ensures m in c.delayed ==> c'.delayed[m] == c.delayed[m]
    ensures Live(c, rk, m) ==> Full(c', rk, c'.assign[c'.delayed[m].pending]) == Full(c, rk, c.assign[c.delayed[m].pending])
    decreases rk.expr(m), 1, 0
  {
    SameDomain(c, rk, c', m);
    if m in c.delayed {
      SameDomain(c, rk, c', c.delayed[m].pending);
      if c.delayed[m].pending in c.assign { AssignmentRewritten(c, rk, c', c.delayed[m].pending); }
    }
  }

  /** Terms that are quiet in the old context are left alone by the new one. */
  lemma {:induction false} QuietRewritten(c: Context, rk: Ranking, c': Context, e: Expr)
    requires Rewritten(c, rk, c') && QuietExpr(c, rk, e)
    ensures Full(c', rk, e) == e
    decreases RankOf(rk, e), Size(e), 2
  {
    var b := RankOf(rk, e);
    ExprBelow(rk, e, b);
    forall m | Below(rk.expr, b)(m) && Quiet(c, rk)(m) ensures Quiet(c', rk)(m) { QuietMVar(c, rk, c', m); }
    BothIn(e, Below(rk.expr, b), Anything(), Quiet(c, rk), OutsideOf(c.lassign.Keys), Quiet(c', rk));
    assert c'.lassign.Keys == c.lassign.Keys;
    QuietFix(c', rk, e);
  }

  lemma {:induction false} RewrittenParts(c: Context, rk: Ranking, c': Context)
    requires Rewritten(c, rk, c')
    ensures Acyclic(c, rk) && Acyclic(c', rk) && Rewrites(c, rk, c')
  {
  }

  lemma {:induction false} QuietMVar(c: Context, rk: Ranking, c': Context, m: Name)
    requires Rewritten(c, rk, c') && m !in c.assign && !Live(c, rk, m)
    ensures m !in c'.assign && !Live(c', rk, m)
    decreases rk.expr(m) + 1, 0, 1
  {
    SameDomain(c, rk, c', m);
    LiveRewritten(c, rk, c', m);
  }

  /** The recursion of `Full`, stated once so that it can be used with `Full` hidden. */
  lemma {:induction false} FullUnfold(c: Context, rk: Ranking, e: Expr)
    requires Acyclic(c, rk)
    ensures match e
      case MVar(m) => Full(c, rk, e) == if m in c.assign then Full(c, rk, c.assign[m]) else e
      case Sort(l) => Full(c, rk, e) == Sort(LFull(c, rk, l))
      case Const(n, ls) => Full(c, rk, e) == Const(n, LFullAll(c, rk, ls))
      case App(_, _) => Full(c, rk, e) == FullApp(c, rk, e)
      case Lambda(n, t, b) => Full(c, rk, e) == Lambda(n, Full(c, rk, t), Full(c, rk, b))
      case Pi(n, t, b) => Full(c, rk, e) == Pi(n, Full(c, rk, t), Full(c, rk, b))
      case Let(n, t, v, b, nd) => Full(c, rk, e) == Let(n, Full(c, rk, t), Full(c, rk, v), Full(c, rk, b), nd)
      case MData(d, x) => Full(c, rk, e) == MData(d, Full(c, rk, x))
      case Proj(s, i, x) => Full(c, rk, e) == Proj(s, i, Full(c, rk, x))
      case _ => Full(c, rk, e) == e
  {
  }

  /** When the assignments are saturated every expression, so every metavariable, keeps its full
      instantiation when the context is rewritten; nothing is asked of the expression. */
  lemma {:induction false} FullRewritten(c: Context, rk: Ranking, c': Context, e: Expr)
    requires Rewritten(c, rk, c')
    ensures Full(c', rk, e) == Full(c, rk, e)
    decreases RankOf(rk, e), Size(e), 2
  {
    hide Full, FullApp, LFull, LFullAll, Rewritten, Acyclic, LevelsAcyclic, Rewrites, SaturatedContext;
    RewrittenParts(c, rk, c');
    FullUnfold(c, rk, e);
    FullUnfold(c', rk, e);
    match e
    case MVar(m) =>
      SameDomain(c, rk, c', m);
      if m in c.assign { AssignmentRewritten(c, rk, c', m); }
    case Sort(l) => LevelRewritten(c, rk, c', l);
    case Const(_, ls) => LevelsRewritten(c, rk, c', ls);
    case App(_, _) => AppRewritten(c, rk, c', e);
    case Lambda(_, t, b) => FullRewritten(c, rk, c', t); FullRewritten(c, rk, c', b);
    case Pi(_, t, b) => FullRewritten(c, rk, c', t); FullRewritten(c, rk, c', b);
    case Let(_, t, v, b, _) => FullRewritten(c, rk, c', t); FullRewritten(c, rk, c', v); FullRewritten(c, rk, c', b);
    case MData(_, x) => FullRewritten(c, rk, c', x);
    case Proj(_, _, x) => FullRewritten(c, rk, c', x);
    case _ =>
  }

  lemma {:induction false} AppRewritten(c: Context, rk: Ranking, c': Context, e: Expr)
    requires Rewritten(c, rk, c') && e.App?
    ensures FullApp(c', rk, e) == FullApp(c, rk, e)
    decreases RankOf(rk, e), Size(e), 1
  {
    hide Rewritten, Acyclic, Rewrites, ApplyBetaZeta, MkRevApp, Resolve, HasExprMVar, Full;
    RewrittenParts(c, rk, c');
    HeadMeasure(rk, e);
    ArgsRewritten(c, rk, c', e);
    var f := AppFn(e);
    if !f.MVar? {
      FullRewritten(c, rk, c', f);
    } else {
      SameDomain(c, rk, c', f.mvar);
      if f.mvar in c.assign {
        AssignmentRewritten(c, rk, c', f.mvar);
      } else {
        LiveRewritten(c, rk, c', f.mvar);
      }
    }
  }

  lemma {:induction false} ArgsRewritten(c: Context, rk: Ranking, c': Context, e: Expr)
    requires Rewritten(c, rk, c')
    ensures FullRevArgs(c', rk, e) == FullRevArgs(c, rk, e)
    decreases RankOf(rk, e), Size(e), 0
  {
    hide Rewritten, Acyclic, Rewrites, Full;
    RewrittenParts(c, rk, c');
    if e.App? {
      FullRewritten(c, rk, c', e.arg);
      ArgsRewritten(c, rk, c', e.fn);
    }
  }
}
