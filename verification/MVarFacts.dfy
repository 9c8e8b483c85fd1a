/** What instantiation of metavariables guarantees: which metavariables are left, that nothing happens
    where none is assigned, and that levels keep their values. */
module MVarFacts {
  import opened Names
  import opened Prelude
  import opened Exprs
  import opened DeBruijn
  import opened ExprFacts
  import opened BetaZeta
  import opened MVarContexts
  import L = Levels

  // ---------------------------------------------------------------- levels

  function Below(rank: Name -> nat, b: nat): Test { (m: Name) => rank(m) < b }

  ghost predicate Implies(p: Test, p2: Test) {
    forall m :: p(m) ==> p2(m)
  }

  lemma {:induction false} LevelMono(l: L.Level, q: Test, q2: Test)
    requires LevelMVarsIn(l, q) && Implies(q, q2)
    ensures LevelMVarsIn(l, q2)
  {
    match l
    case Succ(a) => LevelMono(a, q, q2);
    case Max(a, b) => LevelMono(a, q, q2); LevelMono(b, q, q2);
    case IMax(a, b) => LevelMono(a, q, q2); LevelMono(b, q, q2);
    case _ =>
  }

  lemma {:induction false} LevelBelow(rk: Ranking, l: L.Level, b: nat)
    ensures LevelMVarsIn(l, Below(rk.level, b)) <==> LRankOf(rk, l) <= b
  {
    match l
    case Succ(x) => LevelBelow(rk, x, b);
    case Max(x, y) => LevelBelow(rk, x, b); LevelBelow(rk, y, b);
    case IMax(x, y) => LevelBelow(rk, x, b); LevelBelow(rk, y, b);
    case _ =>
  }

  /** Assignments of metavariables in `q` stay in `q`. */
  ghost predicate LevelsClosed(c: Context, q: Test) {
    forall m :: m in c.lassign && q(m) ==> LevelMVarsIn(c.lassign[m], q)
  }

  /** The metavariables in `q` that are not assigned. */
  function LeftOver(q: Test, s: set<Name>): Test { (m: Name) => q(m) && m !in s }

  /** Instantiation leaves only unassigned metavariables. */
  lemma {:induction false} LFullKeeps(c: Context, rk: Ranking, l: L.Level, q: Test)
    requires LevelsAcyclic(c, rk) && LevelsClosed(c, q) && LevelMVarsIn(l, q)
    ensures LevelMVarsIn(LFull(c, rk, l), LeftOver(q, c.lassign.Keys))
    decreases LRankOf(rk, l), l
  {
    match l
    case Succ(a) => LFullKeeps(c, rk, a, q);
    case Max(a, b) => LFullKeeps(c, rk, a, q); LFullKeeps(c, rk, b, q);
    case IMax(a, b) => LFullKeeps(c, rk, a, q); LFullKeeps(c, rk, b, q);
    case MVar(m) => if m in c.lassign { LFullKeeps(c, rk, c.lassign[m], q); }
    case _ =>
  }

  /** Nothing changes where no metavariable is assigned. */
  lemma {:induction false} LFullFix(c: Context, rk: Ranking, l: L.Level)
    requires LevelsAcyclic(c, rk) && LevelMVarsIn(l, OutsideOf(c.lassign.Keys))
    ensures LFull(c, rk, l) == l
  {
    match l
    case Succ(a) => LFullFix(c, rk, a);
    case Max(a, b) => LFullFix(c, rk, a); LFullFix(c, rk, b);
    case IMax(a, b) => LFullFix(c, rk, a); LFullFix(c, rk, b);
    case _ =>
  }

  lemma {:induction false} LFullSettled(c: Context, rk: Ranking, l: L.Level)
    requires LevelsAcyclic(c, rk)
    ensures LevelMVarsIn(LFull(c, rk, l), OutsideOf(c.lassign.Keys))
    ensures LFull(c, rk, LFull(c, rk, l)) == LFull(c, rk, l)
  {
    LevelAny(l);
    forall m | m in c.lassign && Anything()(m) ensures LevelMVarsIn(c.lassign[m], Anything()) { LevelAny(c.lassign[m]); }
    LFullKeeps(c, rk, l, Anything());
    LevelMono(LFull(c, rk, l), LeftOver(Anything(), c.lassign.Keys), OutsideOf(c.lassign.Keys));
    LFullFix(c, rk, LFull(c, rk, l));
  }

  lemma {:induction false} LevelAny(l: L.Level)
    ensures LevelMVarsIn(l, Anything())
  {
    match l
    case Succ(a) => LevelAny(a);
    case Max(a, b) => LevelAny(a); LevelAny(b);
    case IMax(a, b) => LevelAny(a); LevelAny(b);
    case _ =>
  }

  /** The pointer test of the level updates is exact: instantiation returns its argument exactly
      when the argument mentions no assigned metavariable. */
  lemma {:induction false} LFullSame(c: Context, rk: Ranking, l: L.Level)
    requires LevelsAcyclic(c, rk)
    ensures LFull(c, rk, l) == l <==> LevelMVarsIn(l, OutsideOf(c.lassign.Keys))
  {
    LFullSettled(c, rk, l);
    if LevelMVarsIn(l, OutsideOf(c.lassign.Keys)) { LFullFix(c, rk, l); }
  }

  lemma {:induction false} NoMVarLevel(c: Context, rk: Ranking, l: L.Level)
    requires LevelsAcyclic(c, rk) && !LevelHasMVar(l)
    ensures LFull(c, rk, l) == l
  {
    LevelMono(l, Never(), OutsideOf(c.lassign.Keys));
    LFullFix(c, rk, l);
  }

  lemma {:induction false} LFullRank(c: Context, rk: Ranking, l: L.Level)
    requires LevelsAcyclic(c, rk)
    ensures LRankOf(rk, LFull(c, rk, l)) <= LRankOf(rk, l)
  {
    var b := LRankOf(rk, l);
    var q := Below(rk.level, b);
    LevelBelow(rk, l, b);
    forall m | m in c.lassign && q(m) ensures LevelMVarsIn(c.lassign[m], q) { LevelBelow(rk, c.lassign[m], b); }
    LFullKeeps(c, rk, l, q);
    LevelMono(LFull(c, rk, l), LeftOver(q, c.lassign.Keys), q);
    LevelBelow(rk, LFull(c, rk, l), b);
  }

  /** An assignment of naturals that gives every assigned metavariable the value of its level. */
  ghost predicate Respects(c: Context, A: L.Assignment) {
    forall m :: m in c.lassign ==> A.mvar(m) == L.Eval(c.lassign[m], A)
  }

  /** Instantiating a level preserves its value. */
  lemma {:induction false} LFullMeaning(c: Context, rk: Ranking, l: L.Level, A: L.Assignment)
    requires LevelsAcyclic(c, rk) && Respects(c, A)
    ensures L.Eval(LFull(c, rk, l), A) == L.Eval(l, A)
    decreases LRankOf(rk, l), l
  {
    match l
    case Succ(a) => LFullMeaning(c, rk, a, A);
    case Max(a, b) =>
      LFullMeaning(c, rk, a, A);
      LFullMeaning(c, rk, b, A);
      L.EvalMkMax(LFull(c, rk, a), LFull(c, rk, b), A);
    case IMax(a, b) =>
      LFullMeaning(c, rk, a, A);
      LFullMeaning(c, rk, b, A);
      L.EvalMkIMax(LFull(c, rk, a), LFull(c, rk, b), A);
    case MVar(m) => if m in c.lassign { LFullMeaning(c, rk, c.lassign[m], A); }
    case _ =>
  }

  // ---------------------------------------------------------------- occurrences under the passes

  lemma {:induction false} LevelsMono(ls: seq<L.Level>, q: Test, q2: Test)
    requires LevelsMVarsIn(ls, q) && Implies(q, q2)
    ensures LevelsMVarsIn(ls, q2)
  {
    forall i | 0 <= i < |ls| ensures LevelMVarsIn(ls[i], q2) { LevelMono(ls[i], q, q2); }
  }

  lemma {:induction false} MVarsMono(e: Expr, p: Test, q: Test, p2: Test, q2: Test)
    requires MVarsIn(e, p, q) && Implies(p, p2) && Implies(q, q2)
    ensures MVarsIn(e, p2, q2)
  {
    match e
    case Sort(l) => LevelMono(l, q, q2);
    case Const(_, ls) => LevelsMono(ls, q, q2);
    case App(f, a) => MVarsMono(f, p, q, p2, q2); MVarsMono(a, p, q, p2, q2);
    case Lambda(_, t, b) => MVarsMono(t, p, q, p2, q2); MVarsMono(b, p, q, p2, q2);
    case Pi(_, t, b) => MVarsMono(t, p, q, p2, q2); MVarsMono(b, p, q, p2, q2);
    case Let(_, t, v, b, _) => MVarsMono(t, p, q, p2, q2); MVarsMono(v, p, q, p2, q2); MVarsMono(b, p, q, p2, q2);
    case MData(_, x) => MVarsMono(x, p, q, p2, q2);
    case Proj(_, _, x) => MVarsMono(x, p, q, p2, q2);
    case _ =>
  }

  lemma {:induction false} AnyMVars(e: Expr)
    ensures MVarsIn(e, Anything(), Anything())
  {
    match e
    case Sort(l) => LevelAny(l);
    case Const(_, ls) => forall i | 0 <= i < |ls| ensures LevelMVarsIn(ls[i], Anything()) { LevelAny(ls[i]); }
    case App(f, a) => AnyMVars(f); AnyMVars(a);
    case Lambda(_, t, b) => AnyMVars(t); AnyMVars(b);
    case Pi(_, t, b) => AnyMVars(t); AnyMVars(b);
    case Let(_, t, v, b, _) => AnyMVars(t); AnyMVars(v); AnyMVars(b);
    case MData(_, x) => AnyMVars(x);
    case Proj(_, _, x) => AnyMVars(x);
    case _ =>
  }

  lemma {:induction false} ExprBelow(rk: Ranking, e: Expr, b: nat)
    ensures MVarsIn(e, Below(rk.expr, b), Anything()) <==> RankOf(rk, e) <= b
  {
    match e
    case Sort(l) => LevelAny(l);
    case Const(_, ls) => forall i | 0 <= i < |ls| ensures LevelMVarsIn(ls[i], Anything()) { LevelAny(ls[i]); }
    case App(f, a) => ExprBelow(rk, f, b); ExprBelow(rk, a, b);
    case Lambda(_, t, x) => ExprBelow(rk, t, b); ExprBelow(rk, x, b);
    case Pi(_, t, x) => ExprBelow(rk, t, b); ExprBelow(rk, x, b);
    case Let(_, t, v, x, _) => ExprBelow(rk, t, b); ExprBelow(rk, v, b); ExprBelow(rk, x, b);
    case MData(_, x) => ExprBelow(rk, x, b);
    case Proj(_, _, x) => ExprBelow(rk, x, b);
    case _ =>
  }

  ghost predicate LeafKeeps(f: (Expr, nat) -> Expr, p: Test, q: Test, l: Expr, j: nat) {
    MVarsIn(l, p, q) ==> MVarsIn(f(l, j), p, q)
  }

  lemma {:induction false} MapKeeps(e: Expr, k: nat, f: (Expr, nat) -> Expr, p: Test, q: Test)
    requires forall l, j: nat :: Atomic(l) ==> LeafKeeps(f, p, q, l, j)
    requires MVarsIn(e, p, q)
    ensures MVarsIn(Map(e, k, f), p, q)
  {
    match e
    case App(g, a) => MapKeeps(g, k, f, p, q); MapKeeps(a, k, f, p, q);
    case Lambda(_, t, b) => MapKeeps(t, k, f, p, q); MapKeeps(b, k + 1, f, p, q);
    case Pi(_, t, b) => MapKeeps(t, k, f, p, q); MapKeeps(b, k + 1, f, p, q);
    case Let(_, t, v, b, _) => MapKeeps(t, k, f, p, q); MapKeeps(v, k, f, p, q); MapKeeps(b, k + 1, f, p, q);
    case MData(_, x) => MapKeeps(x, k, f, p, q);
    case Proj(_, _, x) => MapKeeps(x, k, f, p, q);
    case _ => assert LeafKeeps(f, p, q, e, k);
  }

  ghost predicate AllIn(us: seq<Expr>, p: Test, q: Test) {
    forall i :: 0 <= i < |us| ==> MVarsIn(us[i], p, q)
  }

  lemma {:induction false} LiftKeeps(e: Expr, s: nat, d: nat, p: Test, q: Test)
    requires MVarsIn(e, p, q)
    ensures MVarsIn(Lift(e, s, d), p, q)
  {
    forall l, j: nat | Atomic(l) ensures LeafKeeps(LiftLeaf(d), p, q, l, j) { }
    MapKeeps(e, s, LiftLeaf(d), p, q);
  }

  lemma {:induction false} InstKeeps(e: Expr, us: seq<Expr>, p: Test, q: Test)
    requires MVarsIn(e, p, q) && AllIn(us, p, q)
    ensures MVarsIn(Inst(e, 0, us), p, q)
  {
    forall l, j: nat | Atomic(l) ensures LeafKeeps(InstLeaf(us), p, q, l, j) {
      if l.BVar? && j <= l.idx < j + |us| { LiftKeeps(us[l.idx - j], 0, j, p, q); }
    }
    MapKeeps(e, 0, InstLeaf(us), p, q);
  }

  lemma {:induction false} ReplaceKeeps(e: Expr, fvars: seq<Name>, us: seq<Expr>, p: Test, q: Test)
    requires |us| == |fvars| && MVarsIn(e, p, q) && AllIn(us, p, q)
    ensures MVarsIn(ReplaceFVars(e, fvars, us), p, q)
  {
    var m := FVarImages(fvars, us);
    forall l, j: nat | Atomic(l) ensures LeafKeeps(SubstLeaf(m), p, q, l, j) {
      if l.FVar? && l.fvar in m { LiftKeeps(m[l.fvar], 0, j, p, q); }
    }
    MapKeeps(e, 0, SubstLeaf(m), p, q);
  }

  lemma {:induction false} RevAppKeeps(f: Expr, us: seq<Expr>, p: Test, q: Test)
    requires MVarsIn(f, p, q) && AllIn(us, p, q)
    ensures MVarsIn(MkRevApp(f, us), p, q)
  {
    if us != [] { RevAppKeeps(f, us[1..], p, q); }
  }

  lemma {:induction false} BetaRecKeeps(e: Expr, i: nat, us: seq<Expr>, p: Test, q: Test)
    requires i < |us| && MVarsIn(e, p, q) && AllIn(us, p, q)
    ensures MVarsIn(ApplyBetaZetaRec(e, i, us), p, q)
    decreases HeadLength(e, Zeros(i))
  {
    var n := |us|;
    if e.Lambda? {
      if i + 1 < n { BetaRecKeeps(e.body, i + 1, us, p, q); } else { InstKeeps(e.body, us, p, q); }
    } else if e.Let? {
      LetShortens(e, i);
      InstKeeps(e.letBody, [e.letValue], p, q);
      BetaRecKeeps(Inst(e.letBody, 0, [e.letValue]), i, us, p, q);
    } else if e.MData? {
      BetaRecKeeps(e.inner, i, us, p, q);
    } else {
      InstKeeps(e, us[n - i..], p, q);
      RevAppKeeps(Inst(e, 0, us[n - i..]), us[..n - i], p, q);
    }
  }

  lemma {:induction false} BetaKeeps(f: Expr, us: seq<Expr>, p: Test, q: Test)
    requires MVarsIn(f, p, q) && AllIn(us, p, q)
    ensures MVarsIn(ApplyBetaZeta(f, us), p, q)
  {
    if us != [] { BetaRecKeeps(f, 0, us, p, q); }
  }

  // ---------------------------------------------------------------- what full instantiation leaves

  /** Assignments, and pending assignments, of metavariables in `p` stay in `p` and `q`. */
  ghost predicate Closed(c: Context, p: Test, q: Test) {
    && LevelsClosed(c, q)
    && (forall m :: m in c.assign && p(m) ==> MVarsIn(c.assign[m], p, q))
    && (forall m :: m in c.delayed && p(m) ==> p(c.delayed[m].pending))
  }

  lemma {:induction false} FullLevelsKeep(c: Context, rk: Ranking, ls: seq<L.Level>, q: Test)
    requires LevelsAcyclic(c, rk) && LevelsClosed(c, q) && LevelsMVarsIn(ls, q)
    ensures LevelsMVarsIn(LFullAll(c, rk, ls), LeftOver(q, c.lassign.Keys))
  {
    var r := LFullAll(c, rk, ls);
    forall i | 0 <= i < |r| ensures LevelMVarsIn(r[i], LeftOver(q, c.lassign.Keys)) { LFullKeeps(c, rk, ls[i], q); }
  }

  lemma {:induction false} HeadIn(e: Expr, p: Test, q: Test)
    requires MVarsIn(e, p, q)
    ensures MVarsIn(AppFn(e), p, q)
  {
    if e.App? { HeadIn(e.fn, p, q); }
  }

  /** Instantiation leaves only metavariables that are not assigned, reached from those of `e`. */
  lemma {:induction false} FullKeeps(c: Context, rk: Ranking, e: Expr, p: Test, q: Test)
    requires Acyclic(c, rk) && Closed(c, p, q) && MVarsIn(e, p, q)
    ensures MVarsIn(Full(c, rk, e), LeftOver(p, c.assign.Keys), LeftOver(q, c.lassign.Keys))
    decreases RankOf(rk, e), Size(e), 2
  {
    hide FullApp, LFull, Ready, Resolve, ApplyBetaZeta;
    match e
    case MVar(m) => if m in c.assign { FullKeeps(c, rk, c.assign[m], p, q); }
    case Sort(l) => LFullKeeps(c, rk, l, q);
    case Const(_, ls) => FullLevelsKeep(c, rk, ls, q);
    case App(_, _) => FullAppKeeps(c, rk, e, p, q);
    case Lambda(_, t, b) => FullKeeps(c, rk, t, p, q); FullKeeps(c, rk, b, p, q);
    case Pi(_, t, b) => FullKeeps(c, rk, t, p, q); FullKeeps(c, rk, b, p, q);
    case Let(_, t, v, b, _) => FullKeeps(c, rk, t, p, q); FullKeeps(c, rk, v, p, q); FullKeeps(c, rk, b, p, q);
    case MData(_, x) => FullKeeps(c, rk, x, p, q);
    case Proj(_, _, x) => FullKeeps(c, rk, x, p, q);
    case _ =>
  }

  lemma {:induction false} FullArgsKeep(c: Context, rk: Ranking, e: Expr, p: Test, q: Test)
    requires Acyclic(c, rk) && Closed(c, p, q) && MVarsIn(e, p, q)
    ensures AllIn(FullRevArgs(c, rk, e), LeftOver(p, c.assign.Keys), LeftOver(q, c.lassign.Keys))
    decreases RankOf(rk, e), Size(e), 0
  {
    if e.App? {
      FullKeeps(c, rk, e.arg, p, q);
      FullArgsKeep(c, rk, e.fn, p, q);
    }
  }

  lemma {:induction false} FullAppKeeps(c: Context, rk: Ranking, e: Expr, p: Test, q: Test)
    requires Acyclic(c, rk) && Closed(c, p, q) && MVarsIn(e, p, q) && e.App?
    ensures MVarsIn(FullApp(c, rk, e), LeftOver(p, c.assign.Keys), LeftOver(q, c.lassign.Keys))
    decreases RankOf(rk, e), Size(e), 1
  {
    var f, rev := AppFn(e), FullRevArgs(c, rk, e);
    var p', q' := LeftOver(p, c.assign.Keys), LeftOver(q, c.lassign.Keys);
    HeadMeasure(rk, e);
    HeadIn(e, p, q);
    FullArgsKeep(c, rk, e, p, q);
    if !f.MVar? {
      FullKeeps(c, rk, f, p, q);
      RevAppKeeps(Full(c, rk, f), rev, p', q');
    } else if f.mvar in c.assign {
      FullKeeps(c, rk, c.assign[f.mvar], p, q);
      BetaKeeps(Full(c, rk, c.assign[f.mvar]), rev, p', q');
    } else {
      RevAppKeeps(f, rev, p', q');
      if f.mvar in c.delayed && Ready(c, f.mvar, |rev|) {
        var d := c.delayed[f.mvar];
        FullKeeps(c, rk, c.assign[d.pending], p, q);
        ResolveKeeps(d.fvars, Full(c, rk, c.assign[d.pending]), rev, p', q');
      }
    }
  }

  lemma {:induction false} ResolveKeeps(fvars: seq<Name>, val: Expr, rev: seq<Expr>, p: Test, q: Test)
    requires |fvars| <= |rev| && MVarsIn(val, p, q) && AllIn(rev, p, q)
    ensures MVarsIn(Resolve(fvars, val, rev), p, q)
  {
    var n := |rev| - |fvars|;
    ReplaceKeeps(val, fvars, rev[n..], p, q);
    RevAppKeeps(ReplaceFVars(val, fvars, rev[n..]), rev[..n], p, q);
  }

  /** No assigned metavariable remains, delayed assignments or not. */
  lemma {:induction false} FullSettled(c: Context, rk: Ranking, e: Expr)
    requires Acyclic(c, rk)
    ensures MVarsIn(Full(c, rk, e), OutsideOf(c.assign.Keys), OutsideOf(c.lassign.Keys))
  {
    var any := Anything();
    AnyMVars(e);
    forall m | m in c.lassign && any(m) ensures LevelMVarsIn(c.lassign[m], any) { LevelAny(c.lassign[m]); }
    forall m | m in c.assign && any(m) ensures MVarsIn(c.assign[m], any, any) { AnyMVars(c.assign[m]); }
    FullKeeps(c, rk, e, any, any);
    MVarsMono(Full(c, rk, e), LeftOver(any, c.assign.Keys), LeftOver(any, c.lassign.Keys),
      OutsideOf(c.assign.Keys), OutsideOf(c.lassign.Keys));
  }

  lemma {:induction false} FullRank(c: Context, rk: Ranking, e: Expr)
    requires Acyclic(c, rk)
    ensures RankOf(rk, Full(c, rk, e)) <= RankOf(rk, e)
  {
    var b := RankOf(rk, e);
    var p, any := Below(rk.expr, b), Anything();
    ExprBelow(rk, e, b);
    forall m | m in c.lassign && any(m) ensures LevelMVarsIn(c.lassign[m], any) { LevelAny(c.lassign[m]); }
    forall m | m in c.assign && p(m) ensures MVarsIn(c.assign[m], p, any) { ExprBelow(rk, c.assign[m], b); }
    FullKeeps(c, rk, e, p, any);
    MVarsMono(Full(c, rk, e), LeftOver(p, c.assign.Keys), LeftOver(any, c.lassign.Keys), p, any);
    ExprBelow(rk, Full(c, rk, e), b);
  }

  // ---------------------------------------------------------------- where nothing happens

  function Inert(c: Context): Test { (m: Name) => m !in c.assign && m !in c.delayed }

  lemma {:induction false} LevelsFix(c: Context, rk: Ranking, ls: seq<L.Level>)
    requires LevelsAcyclic(c, rk) && LevelsMVarsIn(ls, OutsideOf(c.lassign.Keys))
    ensures LFullAll(c, rk, ls) == ls
  {
    forall i | 0 <= i < |ls| ensures LFull(c, rk, ls[i]) == ls[i] { LFullFix(c, rk, ls[i]); }
  }

  lemma {:induction false} FullFix(c: Context, rk: Ranking, e: Expr)
    requires Acyclic(c, rk) && MVarsIn(e, Inert(c), OutsideOf(c.lassign.Keys))
    ensures Full(c, rk, e) == e
    decreases Size(e), 1
  {
    match e
    case Sort(l) => LFullFix(c, rk, l);
    case Const(_, ls) => LevelsFix(c, rk, ls);
    case App(_, _) =>
      HeadMeasure(rk, e);
      HeadIn(e, Inert(c), OutsideOf(c.lassign.Keys));
      FullFix(c, rk, AppFn(e));
      FullArgsFix(c, rk, e);
      AppSpine(e);
    case Lambda(_, t, b) => FullFix(c, rk, t); FullFix(c, rk, b);
    case Pi(_, t, b) => FullFix(c, rk, t); FullFix(c, rk, b);
    case Let(_, t, v, b, _) => FullFix(c, rk, t); FullFix(c, rk, v); FullFix(c, rk, b);
    case MData(_, x) => FullFix(c, rk, x);
    case Proj(_, _, x) => FullFix(c, rk, x);
    case _ =>
  }

  lemma {:induction false} FullArgsFix(c: Context, rk: Ranking, e: Expr)
    requires Acyclic(c, rk) && MVarsIn(e, Inert(c), OutsideOf(c.lassign.Keys))
    ensures FullRevArgs(c, rk, e) == Reverse(AppArgs(e))
    decreases Size(e), 0
  {
    if e.App? {
      FullFix(c, rk, e.arg);
      FullArgsFix(c, rk, e.fn);
      assert Reverse(AppArgs(e)) == [e.arg] + Reverse(AppArgs(e.fn));
    }
  }

  /** The shortcut at the top of `visit`. */
  lemma {:induction false} NoMVars(c: Context, rk: Ranking, e: Expr)
    requires Acyclic(c, rk) && !HasMVar(e)
    ensures Full(c, rk, e) == e
  {
    MVarsMono(e, Never(), Never(), Inert(c), OutsideOf(c.lassign.Keys));
    FullFix(c, rk, e);
  }

  // ---------------------------------------------------------------- the rewritten context

  ghost predicate ExprEntry(c: Context, rk: Ranking, c': Context, m: Name)
    requires Acyclic(c, rk)
  {
    && m in c.assign && m in c'.assign
    && (c'.assign[m] == c.assign[m] || c'.assign[m] == Full(c, rk, c.assign[m]))
  }

  ghost predicate LevelEntry(c: Context, rk: Ranking, c': Context, m: Name)
    requires Acyclic(c, rk)
  {
    && m in c.lassign && m in c'.lassign
    && (c'.lassign[m] == c.lassign[m] || c'.lassign[m] == LFull(c, rk, c.lassign[m]))
  }

  /** `c'` is `c` with some assignments replaced by their instantiations. */
  ghost predicate Rewrites(c: Context, rk: Ranking, c': Context)
    requires Acyclic(c, rk)
  {
    && c'.assign.Keys == c.assign.Keys && c'.lassign.Keys == c.lassign.Keys && c'.delayed == c.delayed
    && (forall m :: m in c.assign ==> ExprEntry(c, rk, c', m))
    && (forall m :: m in c.lassign ==> LevelEntry(c, rk, c', m))
  }

  lemma {:induction false} RewrittenAcyclic(c: Context, rk: Ranking, c': Context)
    requires Acyclic(c, rk) && Rewrites(c, rk, c')
    ensures Acyclic(c', rk)
  {
    forall m | m in c'.assign ensures RankOf(rk, c'.assign[m]) <= rk.expr(m) {
      assert ExprEntry(c, rk, c', m);
      FullRank(c, rk, c.assign[m]);
    }
    forall m | m in c'.lassign ensures LRankOf(rk, c'.lassign[m]) <= rk.level(m) {
      assert LevelEntry(c, rk, c', m);
      LFullRank(c, rk, c.lassign[m]);
    }
  }

  lemma {:induction false} SameDomain(c: Context, rk: Ranking, c': Context, m: Name)
    requires Acyclic(c, rk) && Rewrites(c, rk, c')
    ensures (m in c'.assign <==> m in c.assign) && (m in c'.lassign <==> m in c.lassign)
  {
  }

  /** Every level keeps its full instantiation. */
  lemma {:induction false} LevelRewritten(c: Context, rk: Ranking, c': Context, l: L.Level)
    requires Acyclic(c, rk) && Rewrites(c, rk, c') && Acyclic(c', rk)
    ensures LFull(c', rk, l) == LFull(c, rk, l)
    decreases LRankOf(rk, l), L.Size(l), 1
  {
    hide Rewrites, Acyclic, L.MkMax, L.MkIMax;
    match l
    case Succ(a) => LevelRewritten(c, rk, c', a);
    case Max(a, b) => LevelRewritten(c, rk, c', a); LevelRewritten(c, rk, c', b);
    case IMax(a, b) => LevelRewritten(c, rk, c', a); LevelRewritten(c, rk, c', b);
    case MVar(m) =>
      SameDomain(c, rk, c', m);
      if m in c.lassign { LevelAssignmentRewritten(c, rk, c', m); }
    case _ =>
  }

  lemma {:induction false} LevelAssignmentRewritten(c: Context, rk: Ranking, c': Context, m: Name)
    requires Acyclic(c, rk) && Rewrites(c, rk, c') && Acyclic(c', rk) && m in c.lassign
    ensures m in c'.lassign && LFull(c', rk, c'.lassign[m]) == LFull(c, rk, c.lassign[m])
    decreases rk.level(m) + 1, 0, 0
  {
    assert LevelEntry(c, rk, c', m);
    LevelRewritten(c, rk, c', c.lassign[m]);
    LFullSettled(c, rk, c.lassign[m]);
    LFullSame(c', rk, LFull(c, rk, c.lassign[m]));
  }

  lemma {:induction false} LevelsRewritten(c: Context, rk: Ranking, c': Context, ls: seq<L.Level>)
    requires Acyclic(c, rk) && Rewrites(c, rk, c') && Acyclic(c', rk)
    ensures LFullAll(c', rk, ls) == LFullAll(c, rk, ls)
  {
    forall i | 0 <= i < |ls| ensures LFull(c', rk, ls[i]) == LFull(c, rk, ls[i]) { LevelRewritten(c, rk, c', ls[i]); }
  }
}
