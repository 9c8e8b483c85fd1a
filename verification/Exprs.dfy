/** Kernel expressions with de Bruijn indices (kernel/expr.cpp) and the plain structural
    definitions of lifting, lowering, simultaneous substitution and abstraction. */
module Exprs {
  import opened Names
  import opened Prelude
  import L = Levels

  datatype BinderInfo = Default | Implicit | StrictImplicit | InstImplicit

  datatype Binder = Binder(name: Name, info: BinderInfo)

  datatype Literal = NatLit(n: nat) | StrLit(s: string)

  /** `data` stands for the key-value map of a metadata node. */
  datatype Expr =
    | BVar(idx: nat)
    | FVar(fvar: Name)
    | MVar(mvar: Name)
    | Sort(level: L.Level)
    | Const(name: Name, levels: seq<L.Level>)
    | App(fn: Expr, arg: Expr)
    | Lambda(binder: Binder, domain: Expr, body: Expr)
    | Pi(binder: Binder, domain: Expr, body: Expr)
    | Let(letName: Name, letType: Expr, letValue: Expr, letBody: Expr, nondep: bool)
    | Lit(lit: Literal)
    | MData(data: nat, inner: Expr)
    | Proj(sname: Name, pidx: nat, struct: Expr)

  function MaxNat(a: nat, b: nat): nat {
    if a >= b then a else b
  }

  function Minus1(a: nat): nat {
    if a == 0 then 0 else a - 1
  }

  /** The loose-bvar range stored in an expression: one more than the largest loose index. */
  function LooseRange(e: Expr): nat {
    match e
    case BVar(i) => i + 1
    case App(f, a) => MaxNat(LooseRange(f), LooseRange(a))
    case Lambda(_, d, b) => MaxNat(LooseRange(d), Minus1(LooseRange(b)))
    case Pi(_, d, b) => MaxNat(LooseRange(d), Minus1(LooseRange(b)))
    case Let(_, t, v, b, _) => MaxNat(MaxNat(LooseRange(t), LooseRange(v)), Minus1(LooseRange(b)))
    case MData(_, x) => LooseRange(x)
    case Proj(_, _, x) => LooseRange(x)
    case _ => 0
  }

  predicate HasFVar(e: Expr) {
    match e
    case FVar(_) => true
    case App(f, a) => HasFVar(f) || HasFVar(a)
    case Lambda(_, d, b) => HasFVar(d) || HasFVar(b)
    case Pi(_, d, b) => HasFVar(d) || HasFVar(b)
    case Let(_, t, v, b, _) => HasFVar(t) || HasFVar(v) || HasFVar(b)
    case MData(_, x) => HasFVar(x)
    case Proj(_, _, x) => HasFVar(x)
    case _ => false
  }

  /** The names of the free variables of `e`. */
  function FVars(e: Expr): set<Name> {
    match e
    case FVar(x) => {x}
    case App(f, a) => FVars(f) + FVars(a)
    case Lambda(_, d, b) => FVars(d) + FVars(b)
    case Pi(_, d, b) => FVars(d) + FVars(b)
    case Let(_, t, v, b, _) => FVars(t) + FVars(v) + FVars(b)
    case MData(_, x) => FVars(x)
    case Proj(_, _, x) => FVars(x)
    case _ => {}
  }

  /** `e` with all binder names and binder infos forgotten; two expressions are `==` in the
      kernel exactly when their erasures are equal. */
  function Erase(e: Expr): Expr {
    match e
    case App(f, a) => App(Erase(f), Erase(a))
    case Lambda(_, d, b) => Lambda(Binder([], Default), Erase(d), Erase(b))
    case Pi(_, d, b) => Pi(Binder([], Default), Erase(d), Erase(b))
    case Let(_, t, v, b, nd) => Let([], Erase(t), Erase(v), Erase(b), nd)
    case MData(m, x) => MData(m, Erase(x))
    case Proj(s, i, x) => Proj(s, i, Erase(x))
    case _ => e
  }

  /** Kernel equality `==`: structural, ignoring binder names and infos. */
  predicate Same(a: Expr, b: Expr) {
    Erase(a) == Erase(b)
  }

  /** Constants, sorts, variables and literals: everything without subexpressions. */
  predicate Atomic(e: Expr) {
    !(e.App? || e.Lambda? || e.Pi? || e.Let? || e.MData? || e.Proj?)
  }

  /** Rebuild `e` with `f` applied at every atomic subexpression; the second argument of `f` is
      `k` plus the number of binders crossed. */
  function Map(e: Expr, k: nat, f: (Expr, nat) -> Expr): Expr {
    match e
    case App(g, a) => App(Map(g, k, f), Map(a, k, f))
    case Lambda(n, t, b) => Lambda(n, Map(t, k, f), Map(b, k + 1, f))
    case Pi(n, t, b) => Pi(n, Map(t, k, f), Map(b, k + 1, f))
    case Let(n, t, v, b, nd) => Let(n, Map(t, k, f), Map(v, k, f), Map(b, k + 1, f), nd)
    case MData(m, x) => MData(m, Map(x, k, f))
    case Proj(n, i, x) => Proj(n, i, Map(x, k, f))
    case _ => f(e, k)
  }

  function LiftAt(l: Expr, j: nat, d: nat): Expr {
    if l.BVar? && l.idx >= j then BVar(l.idx + d) else l
  }

  function LiftLeaf(d: nat): (Expr, nat) -> Expr {
    (l: Expr, j: nat) => LiftAt(l, j, d)
  }

  /** Every loose index at least `s` goes up by `d`. */
  function Lift(e: Expr, s: nat, d: nat): Expr {
    Map(e, s, LiftLeaf(d))
  }

  function LowerAt(l: Expr, j: nat, d: nat): Expr {
    if l.BVar? && l.idx >= j && l.idx >= d then BVar(l.idx - d) else l
  }

  function LowerLeaf(d: nat): (Expr, nat) -> Expr {
    (l: Expr, j: nat) => LowerAt(l, j, d)
  }

  /** Every loose index at least `s` goes down by `d`. */
  function Lower(e: Expr, s: nat, d: nat): Expr
    requires s >= d
  {
    Map(e, s, LowerLeaf(d))
  }

  function InstAt(l: Expr, j: nat, us: seq<Expr>): Expr {
    if !l.BVar? || l.idx < j then l
    else if l.idx < j + |us| then Lift(us[l.idx - j], 0, j)
    else BVar(l.idx - |us|)
  }

  function InstLeaf(us: seq<Expr>): (Expr, nat) -> Expr {
    (l: Expr, j: nat) => InstAt(l, j, us)
  }

  /** Simultaneous substitution under `k` binders: index `k + j` becomes `us[j]` (lifted by `k`),
      larger indices go down by `|us|`. */
  function Inst(e: Expr, k: nat, us: seq<Expr>): Expr {
    Map(e, k, InstLeaf(us))
  }

  /** Substitution with the most recently bound variable last. */
  function InstRev(e: Expr, us: seq<Expr>): Expr {
    Inst(e, 0, Reverse(us))
  }

  /** The last position of `x` in `xs`. */
  function LastIndex(xs: seq<Name>, x: Name): (r: Option<nat>)
    ensures r.Some? <==> x in xs
    ensures r.Some? ==> r.value < |xs| && xs[r.value] == x && x !in xs[r.value + 1..]
  {
    if xs == [] then None
    else if xs[|xs| - 1] == x then Some(|xs| - 1)
    else
      var r := LastIndex(xs[..|xs| - 1], x);
      assert r.Some? ==> xs[r.value + 1..] == xs[..|xs| - 1][r.value + 1..] + [xs[|xs| - 1]];
      assert x in xs <==> x in xs[..|xs| - 1];
      r
  }

  function AbstractAt(l: Expr, j: nat, xs: seq<Name>): Expr {
    if !l.FVar? then l
    else match LastIndex(xs, l.fvar)
      case Some(i) => BVar(j + |xs| - i - 1)
      case None => l
  }

  function AbstractLeaf(xs: seq<Name>): (Expr, nat) -> Expr {
    (l: Expr, j: nat) => AbstractAt(l, j, xs)
  }

  /** Replace free variables by indices: the last variable becomes index `k`. */
  function Abstract(e: Expr, k: nat, xs: seq<Name>): Expr {
    Map(e, k, AbstractLeaf(xs))
  }

  /** Does the loose index `i` occur in `e`? */
  predicate HasLoose(e: Expr, i: nat) {
    match e
    case BVar(j) => i == j
    case App(f, a) => HasLoose(f, i) || HasLoose(a, i)
    case Lambda(_, d, b) => HasLoose(d, i) || HasLoose(b, i + 1)
    case Pi(_, d, b) => HasLoose(d, i) || HasLoose(b, i + 1)
    case Let(_, t, v, b, _) => HasLoose(t, i) || HasLoose(v, i) || HasLoose(b, i + 1)
    case MData(_, x) => HasLoose(x, i)
    case Proj(_, _, x) => HasLoose(x, i)
    case _ => false
  }

  // ---------------------------------------------------------------- application spines

  function AppFn(e: Expr): (f: Expr)
    ensures !f.App?
  {
    if e.App? then AppFn(e.fn) else e
  }

  function AppArgs(e: Expr): seq<Expr> {
    if e.App? then AppArgs(e.fn) + [e.arg] else []
  }

  function MkApp(f: Expr, args: seq<Expr>): Expr
    decreases |args|
  {
    if args == [] then f else App(MkApp(f, args[..|args| - 1]), args[|args| - 1])
  }

  /** Application to arguments stored last first. */
  function MkRevApp(f: Expr, revArgs: seq<Expr>): Expr {
    if revArgs == [] then f else App(MkRevApp(f, revArgs[1..]), revArgs[0])
  }

  lemma {:induction false} AppSpine(e: Expr)
    ensures MkApp(AppFn(e), AppArgs(e)) == e
    ensures MkRevApp(AppFn(e), Reverse(AppArgs(e))) == e
  {
    if e.App? {
      AppSpine(e.fn);
      assert AppArgs(e)[..|AppArgs(e)| - 1] == AppArgs(e.fn);
      assert Reverse(AppArgs(e))[1..] == Reverse(AppArgs(e.fn));
    }
  }

  lemma {:induction false} SpineOfMkApp(f: Expr, args: seq<Expr>)
    ensures AppFn(MkApp(f, args)) == AppFn(f)
    ensures AppArgs(MkApp(f, args)) == AppArgs(f) + args
    decreases |args|
  {
    if args == [] {
      assert AppArgs(f) + args == AppArgs(f);
    } else {
      var n := |args| - 1;
      SpineOfMkApp(f, args[..n]);
      assert args == args[..n] + [args[n]];
      assert AppArgs(f) + args[..n] + [args[n]] == AppArgs(f) + args;
    }
  }

  lemma {:induction false} SpineOfRevApp(f: Expr, rev: seq<Expr>)
    requires !f.App?
    ensures AppFn(MkRevApp(f, rev)) == f && AppArgs(MkRevApp(f, rev)) == Reverse(rev)
  {
    MkRevAppIsMkApp(f, rev);
    SpineOfMkApp(f, Reverse(rev));
  }

  lemma {:induction false} MkRevAppIsMkApp(f: Expr, revArgs: seq<Expr>)
    ensures MkRevApp(f, revArgs) == MkApp(f, Reverse(revArgs))
  {
    if revArgs != [] {
      MkRevAppIsMkApp(f, revArgs[1..]);
      var args := Reverse(revArgs);
      assert args[..|args| - 1] == Reverse(revArgs[1..]);
    }
  }

  method GetAppArgs(e: Expr) returns (f: Expr, args: seq<Expr>)
    ensures f == AppFn(e) && args == AppArgs(e)
  {
    f := e;
    var rev := [];
    while f.App?
      invariant AppFn(f) == AppFn(e)
      invariant AppArgs(f) + Reverse(rev) == AppArgs(e)
      decreases f
    {
      assert AppArgs(f.fn) + Reverse(rev + [f.arg]) == AppArgs(f) + Reverse(rev);
      rev := rev + [f.arg];
      f := f.fn;
    }
    args := Reverse(rev);
    assert AppArgs(f) + args == args;
  }

  method GetAppRevArgs(e: Expr) returns (f: Expr, args: seq<Expr>)
    ensures f == AppFn(e) && args == Reverse(AppArgs(e))
  {
    f := e;
    args := [];
    while f.App?
      invariant AppFn(f) == AppFn(e)
      invariant args + Reverse(AppArgs(f)) == Reverse(AppArgs(e))
      decreases f
    {
      assert Reverse(AppArgs(f)) == [f.arg] + Reverse(AppArgs(f.fn));
      args := args + [f.arg];
      f := f.fn;
    }
  }

  method BuildRevApp(f: Expr, revArgs: seq<Expr>) returns (r: Expr)
    ensures r == MkRevApp(f, revArgs)
  {
    r := f;
    var i := |revArgs|;
    while i > 0
      invariant 0 <= i <= |revArgs|
      invariant r == MkRevApp(f, revArgs[i..])
    {
      i := i - 1;
      assert revArgs[i..][1..] == revArgs[i + 1..];
      r := App(r, revArgs[i]);
    }
    assert revArgs[0..] == revArgs;
  }
}
