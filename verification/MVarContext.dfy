/** Metavariable contexts, and instantiation of metavariables by plain recursion against a fixed
    context: no cache and no update of the context (kernel/instantiate_mvars.cpp). */
module MVarContexts {
  import opened Names
  import opened Prelude
  import opened Exprs
  import opened ExprFacts
  import opened BetaZeta
  import L = Levels

  /** `?m fvars... := pending`, to be applied once `pending` is free of metavariables. */
  datatype Delayed = Delayed(fvars: seq<Name>, pending: Name)

  datatype Context = Context(assign: map<Name, Expr>, lassign: map<Name, L.Level>, delayed: map<Name, Delayed>)

  // ---------------------------------------------------------------- occurrences of metavariables

  type Test = Name -> bool

  function Never(): Test { (m: Name) => false }

  function Anything(): Test { (m: Name) => true }

  function OutsideOf(s: set<Name>): Test { (m: Name) => m !in s }

  predicate LevelMVarsIn(l: L.Level, q: Test) {
    match l
    case Succ(a) => LevelMVarsIn(a, q)
    case Max(a, b) => LevelMVarsIn(a, q) && LevelMVarsIn(b, q)
    case IMax(a, b) => LevelMVarsIn(a, q) && LevelMVarsIn(b, q)
    case MVar(m) => q(m)
    case _ => true
  }

  predicate LevelsMVarsIn(ls: seq<L.Level>, q: Test) {
    forall i :: 0 <= i < |ls| ==> LevelMVarsIn(ls[i], q)
  }

  /** Every expression metavariable of `e` satisfies `p`, every level metavariable satisfies `q`. */
  predicate MVarsIn(e: Expr, p: Test, q: Test) {
    match e
    case MVar(m) => p(m)
    case Sort(l) => LevelMVarsIn(l, q)
    case Const(_, ls) => LevelsMVarsIn(ls, q)
    case App(f, a) => MVarsIn(f, p, q) && MVarsIn(a, p, q)
    case Lambda(_, t, b) => MVarsIn(t, p, q) && MVarsIn(b, p, q)
    case Pi(_, t, b) => MVarsIn(t, p, q) && MVarsIn(b, p, q)
    case Let(_, t, v, b, _) => MVarsIn(t, p, q) && MVarsIn(v, p, q) && MVarsIn(b, p, q)
    case MData(_, x) => MVarsIn(x, p, q)
    case Proj(_, _, x) => MVarsIn(x, p, q)
    case _ => true
  }

  predicate LevelHasMVar(l: L.Level) { !LevelMVarsIn(l, Never()) }

  predicate HasMVar(e: Expr) { !MVarsIn(e, Never(), Never()) }

  predicate HasExprMVar(e: Expr) { !MVarsIn(e, Never(), Anything()) }

  // ---------------------------------------------------------------- acyclic contexts

  /** A ranking that witnesses that no metavariable depends on itself. */
  datatype Ranking = Ranking(expr: Name -> nat, level: Name -> nat)

  function LRankOf(rk: Ranking, l: L.Level): nat {
    match l
    case Succ(a) => LRankOf(rk, a)
    case Max(a, b) => MaxNat(LRankOf(rk, a), LRankOf(rk, b))
    case IMax(a, b) => MaxNat(LRankOf(rk, a), LRankOf(rk, b))
    case MVar(m) => rk.level(m) + 1
    case _ => 0
  }

  /** One more than the largest rank of an expression metavariable of `e`. */
  function RankOf(rk: Ranking, e: Expr): nat {
    match e
    case MVar(m) => rk.expr(m) + 1
    case App(f, a) => MaxNat(RankOf(rk, f), RankOf(rk, a))
    case Lambda(_, t, b) => MaxNat(RankOf(rk, t), RankOf(rk, b))
    case Pi(_, t, b) => MaxNat(RankOf(rk, t), RankOf(rk, b))
    case Let(_, t, v, b, _) => MaxNat(MaxNat(RankOf(rk, t), RankOf(rk, v)), RankOf(rk, b))
    case MData(_, x) => RankOf(rk, x)
    case Proj(_, _, x) => RankOf(rk, x)
    case _ => 0
  }

  ghost predicate LevelsAcyclic(c: Context, rk: Ranking) {
    forall m :: m in c.lassign ==> LRankOf(rk, c.lassign[m]) <= rk.level(m)
  }

  /** An assignment only mentions metavariables of smaller rank, and so does a delayed one. */
  ghost predicate Acyclic(c: Context, rk: Ranking) {
    && LevelsAcyclic(c, rk)
    && (forall m :: m in c.assign ==> RankOf(rk, c.assign[m]) <= rk.expr(m))
    && (forall m :: m in c.delayed ==> rk.expr(c.delayed[m].pending) < rk.expr(m))
  }

  function Size(e: Expr): nat {
    match e
    case App(f, a) => 1 + Size(f) + Size(a)
    case Lambda(_, t, b) => 1 + Size(t) + Size(b)
    case Pi(_, t, b) => 1 + Size(t) + Size(b)
    case Let(_, t, v, b, _) => 1 + Size(t) + Size(v) + Size(b)
    case MData(_, x) => 1 + Size(x)
    case Proj(_, _, x) => 1 + Size(x)
    case _ => 1
  }

  lemma {:induction false} HeadMeasure(rk: Ranking, e: Expr)
    ensures RankOf(rk, AppFn(e)) <= RankOf(rk, e)
    ensures Size(AppFn(e)) <= Size(e) && (e.App? ==> Size(AppFn(e)) < Size(e))
  {
    if e.App? { HeadMeasure(rk, e.fn); }
  }

  // ---------------------------------------------------------------- plain instantiation

  /** A level is rebuilt with the simplifying constructors only where a child changed. */
  ghost function LFull(c: Context, rk: Ranking, l: L.Level): L.Level
    requires LevelsAcyclic(c, rk)
    decreases LRankOf(rk, l), l
  {
    match l
    case Succ(a) => L.Succ(LFull(c, rk, a))
    case Max(a, b) =>
      var (a', b') := (LFull(c, rk, a), LFull(c, rk, b));
      if a' == a && b' == b then l else L.MkMax(a', b')
    case IMax(a, b) =>
      var (a', b') := (LFull(c, rk, a), LFull(c, rk, b));
      if a' == a && b' == b then l else L.MkIMax(a', b')
    case MVar(m) => if m in c.lassign then LFull(c, rk, c.lassign[m]) else l
    case _ => l
  }

  ghost function LFullAll(c: Context, rk: Ranking, ls: seq<L.Level>): (r: seq<L.Level>)
    requires LevelsAcyclic(c, rk)
    ensures |r| == |ls|
  {
    seq(|ls|, i requires 0 <= i < |ls| => LFull(c, rk, ls[i]))
  }

  /** `replace_fvars`: the last occurrence of a name wins, `revArgs` holds the arguments last first. */
  function FVarImages(fvars: seq<Name>, revArgs: seq<Expr>): map<Name, Expr>
    requires |revArgs| == |fvars|
  {
    map x | x in fvars :: revArgs[|fvars| - LastIndex(fvars, x).value - 1]
  }

  function ReplaceFVars(e: Expr, fvars: seq<Name>, revArgs: seq<Expr>): Expr
    requires |revArgs| == |fvars|
  {
    Subst(e, 0, FVarImages(fvars, revArgs))
  }

  /** Metavariables of `e` replaced by their fully instantiated assignments; an assigned head is
      beta reduced with its arguments, a delayed one is substituted when its pending value is
      known, has no metavariables left and all its variables have an argument. */
  ghost function Full(c: Context, rk: Ranking, e: Expr): Expr
    requires Acyclic(c, rk)
    decreases RankOf(rk, e), Size(e), 2
  {
    match e
    case MVar(m) => if m in c.assign then Full(c, rk, c.assign[m]) else e
    case Sort(l) => Sort(LFull(c, rk, l))
    case Const(n, ls) => Const(n, LFullAll(c, rk, ls))
    case App(_, _) => FullApp(c, rk, e)
    case Lambda(n, t, b) => Lambda(n, Full(c, rk, t), Full(c, rk, b))
    case Pi(n, t, b) => Pi(n, Full(c, rk, t), Full(c, rk, b))
    case Let(n, t, v, b, nd) => Let(n, Full(c, rk, t), Full(c, rk, v), Full(c, rk, b), nd)
    case MData(d, x) => MData(d, Full(c, rk, x))
    case Proj(s, i, x) => Proj(s, i, Full(c, rk, x))
    case _ => e
  }

  /** The instantiated arguments, last first. */
  ghost function FullRevArgs(c: Context, rk: Ranking, e: Expr): (r: seq<Expr>)
    requires Acyclic(c, rk)
    ensures |r| == |AppArgs(e)|
    decreases RankOf(rk, e), Size(e), 0
  {
    if e.App? then [Full(c, rk, e.arg)] + FullRevArgs(c, rk, e.fn) else []
  }

  ghost function FullApp(c: Context, rk: Ranking, e: Expr): Expr
    requires Acyclic(c, rk) && e.App?
    decreases RankOf(rk, e), Size(e), 1
  {
    HeadMeasure(rk, e);
    var f, rev := AppFn(e), FullRevArgs(c, rk, e);
    if !f.MVar? then MkRevApp(Full(c, rk, f), rev)
    else if f.mvar in c.assign then ApplyBetaZeta(Full(c, rk, c.assign[f.mvar]), rev)
    else if f.mvar in c.delayed && Ready(c, f.mvar, |rev|)
         && !HasExprMVar(Full(c, rk, c.assign[c.delayed[f.mvar].pending])) then
      Resolve(c.delayed[f.mvar].fvars, Full(c, rk, c.assign[c.delayed[f.mvar].pending]), rev)
    else MkRevApp(f, rev)
  }

  /** There are enough arguments and the pending metavariable is assigned. */
  predicate Ready(c: Context, m: Name, argc: nat)
    requires m in c.delayed
  {
    |c.delayed[m].fvars| <= argc && c.delayed[m].pending in c.assign
  }

  /** `visit_delayed`: the first arguments replace the variables, the others are kept. */
  function Resolve(fvars: seq<Name>, val: Expr, rev: seq<Expr>): Expr
    requires |fvars| <= |rev|
  {
    var n := |rev| - |fvars|;
    MkRevApp(ReplaceFVars(val, fvars, rev[n..]), rev[..n])
  }
}
