/** Contraction at the head: beta, let, let-variable and metadata steps, which need neither the
    environment nor a cache (the part of kernel/type_checker.cpp, lines 422-504, that every mode of
    `whnf_core` has in common). */
module HeadPaths {
  import opened Names
  import opened Prelude
  import opened Exprs
  import opened DeBruijn
  import opened ExprFacts
  import opened Congruence
  import Beta

  /** `user` is the name and binder annotation shown to users. */
  datatype LocalDecl = LocalDecl(user: Binder, typ: Expr, value: Option<Expr>)

  type LocalCtx = map<Name, LocalDecl>

  predicate LetBound(lctx: LocalCtx, x: Name) {
    x in lctx && lctx[x].value.Some?
  }

  /** One contraction at the head of the spine of `e`, if there is one. */
  function Contract(lctx: LocalCtx, e: Expr): Option<Expr> {
    match e
    case MData(_, x) => Some(x)
    case Let(_, _, v, b, _) => Some(Inst(b, 0, [v]))
    case FVar(x) => if LetBound(lctx, x) then lctx[x].value else None
    case App(f, a) =>
      if f.Lambda? then Some(Inst(f.body, 0, [a]))
      else (match Contract(lctx, f) case Some(g) => Some(App(g, a)) case None => None)
    case _ => None
  }

  /** `n` contractions lead from `e` to `r`, up to binder names. */
  ghost predicate Path(lctx: LocalCtx, n: nat, e: Expr, r: Expr)
    decreases n
  {
    if n == 0 then Same(e, r)
    else
      var c := Contract(lctx, e);
      c.Some? && Path(lctx, n - 1, c.value, r)
  }

  // ---------------------------------------------------------------- binder names do not matter

  lemma {:induction false} SameInst(b: Expr, c: Expr, v: Expr, w: Expr)
    requires Same(b, c) && Same(v, w)
    ensures Same(Inst(b, 0, [v]), Inst(c, 0, [w]))
  {
    EraseInst(b, 0, [v]);
    EraseInst(c, 0, [w]);
    assert EraseAll([v]) == EraseAll([w]);
  }

  lemma {:induction false} ContractSame(lctx: LocalCtx, e: Expr, s: Expr)
    requires Same(e, s)
    ensures Contract(lctx, e).Some? <==> Contract(lctx, s).Some?
    ensures Contract(lctx, e).Some? ==> Same(Contract(lctx, e).value, Contract(lctx, s).value)
  {
    match e
    case App(f, a) =>
      assert Same(f, s.fn) && Same(a, s.arg);
      if f.Lambda? { SameInst(f.body, s.fn.body, a, s.arg); } else { ContractSame(lctx, f, s.fn); }
    case Let(_, _, v, b, _) => SameInst(b, s.letBody, v, s.letValue);
    case _ =>
  }

  lemma {:induction false} PathSame(lctx: LocalCtx, n: nat, e: Expr, r: Expr, e': Expr, r': Expr)
    requires Path(lctx, n, e, r) && Same(e, e') && Same(r, r')
    ensures Path(lctx, n, e', r')
    decreases n
  {
    if n > 0 {
      ContractSame(lctx, e, e');
      PathSame(lctx, n - 1, Contract(lctx, e).value, r, Contract(lctx, e').value, r');
    }
  }

  lemma {:induction false} PathTrans(lctx: LocalCtx, m: nat, n: nat, e: Expr, t: Expr, r: Expr)
    requires Path(lctx, m, e, t) && Path(lctx, n, t, r)
    ensures Path(lctx, m + n, e, r)
    decreases m
  {
    if m == 0 {
      PathSame(lctx, n, t, r, e, r);
    } else {
      PathTrans(lctx, m - 1, n, Contract(lctx, e).value, t, r);
    }
  }

  /** A path is determined by its start; two ends that cannot go on agree. */
  lemma {:induction false} PathUnique(lctx: LocalCtx, m: nat, n: nat, e: Expr, r: Expr, s: Expr)
    requires Path(lctx, m, e, r) && Path(lctx, n, e, s) && Contract(lctx, r).None? && Contract(lctx, s).None?
    ensures Same(r, s)
    decreases m
  {
    if m == 0 || n == 0 {
      ContractSame(lctx, e, if m == 0 then r else s);
    } else {
      PathUnique(lctx, m - 1, n - 1, Contract(lctx, e).value, r, s);
    }
  }

  lemma {:induction false} ProjStops(lctx: LocalCtx, u: Expr)
    requires AppFn(u).Proj? || AppFn(u).Const?
    ensures Contract(lctx, u).None?
  {
    if u.App? { ProjStops(lctx, u.fn); }
  }

  lemma {:induction false} SameHead(a: Expr, b: Expr)
    requires Same(a, b)
    ensures Same(AppFn(a), AppFn(b)) && |AppArgs(a)| == |AppArgs(b)|
    ensures forall i :: 0 <= i < |AppArgs(a)| ==> Same(AppArgs(a)[i], AppArgs(b)[i])
  {
    if a.App? { SameHead(a.fn, b.fn); }
  }

  // ---------------------------------------------------------------- paths below applications

  lemma {:induction false} PathApp(lctx: LocalCtx, n: nat, e: Expr, r: Expr, a: Expr)
    requires Path(lctx, n, e, r)
    ensures Path(lctx, n, App(e, a), App(r, a))
    decreases n
  {
    if n > 0 { PathApp(lctx, n - 1, Contract(lctx, e).value, r, a); }
  }

  lemma {:induction false} PathRevApp(lctx: LocalCtx, n: nat, e: Expr, r: Expr, rev: seq<Expr>)
    requires Path(lctx, n, e, r)
    ensures Path(lctx, n, MkRevApp(e, rev), MkRevApp(r, rev))
  {
    if rev != [] {
      PathRevApp(lctx, n, e, r, rev[1..]);
      PathApp(lctx, n, MkRevApp(e, rev[1..]), MkRevApp(r, rev[1..]), rev[0]);
    }
  }

  lemma {:induction false} RevAppHead(e: Expr, rev: seq<Expr>)
    ensures AppFn(MkRevApp(e, rev)) == AppFn(e)
  {
    if rev != [] { RevAppHead(e, rev[1..]); }
  }

  lemma {:induction false} PathMkApp(lctx: LocalCtx, n: nat, e: Expr, r: Expr, args: seq<Expr>)
    requires Path(lctx, n, e, r)
    ensures Path(lctx, n, MkApp(e, args), MkApp(r, args))
    decreases |args|
  {
    if args != [] {
      var m := |args| - 1;
      PathMkApp(lctx, n, e, r, args[..m]);
      PathApp(lctx, n, MkApp(e, args[..m]), MkApp(r, args[..m]), args[m]);
    }
  }

  /** Iterated beta reduction is a path. */
  lemma {:induction false} IterPath(lctx: LocalCtx, f: Expr, args: seq<Expr>, m: nat)
    requires m <= |args| && m <= Beta.LambdaCount(f)
    ensures Path(lctx, m, MkApp(f, args), Beta.BetaIter(f, args, m))
    decreases m
  {
    if m > 0 {
      var g, rest := Inst(f.body, 0, [args[0]]), args[1..];
      Beta.LambdaCountInst(f.body, 0, [args[0]]);
      Beta.MkAppCons(f, args);
      assert Path(lctx, 0, g, g);
      assert Path(lctx, 1, App(f, args[0]), g);
      PathMkApp(lctx, 1, App(f, args[0]), g, rest);
      IterPath(lctx, g, rest, m - 1);
      PathTrans(lctx, 1, m - 1, MkApp(f, args), MkApp(g, rest), Beta.BetaIter(f, args, m));
    }
  }

  // ---------------------------------------------------------------- how long a path is

  /** A path that ends goes through every term that contractions reach. */
  lemma {:induction false} PathSuffix(lctx: LocalCtx, m: nat, n: nat, e: Expr, t: Expr, v: Expr)
    requires Path(lctx, m, e, t) && Path(lctx, n, e, v) && Contract(lctx, v).None?
    ensures m <= n && Path(lctx, n - m, t, v)
    decreases m
  {
    if m == 0 {
      PathSame(lctx, n, e, v, t, v);
    } else {
      if n == 0 { ContractSame(lctx, e, v); }
      PathSuffix(lctx, m - 1, n - 1, Contract(lctx, e).value, t, v);
    }
  }

  lemma {:induction false} RevAppContract(lctx: LocalCtx, f: Expr, rev: seq<Expr>)
    requires !f.Lambda?
    ensures Contract(lctx, MkRevApp(f, rev)) == match Contract(lctx, f) case Some(g) => Some(MkRevApp(g, rev)) case None => None
    ensures !MkRevApp(f, rev).Lambda?
  {
    if rev != [] { RevAppContract(lctx, f, rev[1..]); }
  }

  /** The contractions of an application start with those of its head, as long as that is no lambda. */
  lemma {:induction false} PathSplit(lctx: LocalCtx, n: nat, f: Expr, rev: seq<Expr>, v: Expr) returns (j: nat, g: Expr)
    requires Path(lctx, n, MkRevApp(f, rev), v) && Contract(lctx, v).None?
    ensures j <= n && Path(lctx, j, f, g) && Contract(lctx, g).None? && Path(lctx, n - j, MkRevApp(g, rev), v)
    decreases n
  {
    if Contract(lctx, f).None? {
      j, g := 0, f;
    } else {
      RevAppContract(lctx, f, rev);
      if n == 0 { ContractSame(lctx, MkRevApp(f, rev), v); }
      j, g := PathSplit(lctx, n - 1, Contract(lctx, f).value, rev, v);
      j := j + 1;
    }
  }

  // ---------------------------------------------------------------- local contexts

  /** The same let-variables, with the same values. */
  ghost predicate SameLets(a: LocalCtx, b: LocalCtx) {
    forall y :: (LetBound(a, y) <==> LetBound(b, y)) && (LetBound(a, y) ==> a[y].value == b[y].value)
  }

  lemma {:induction false} SameLetsSymm(a: LocalCtx, b: LocalCtx)
    requires SameLets(a, b)
    ensures SameLets(b, a)
  {
  }

  lemma {:induction false} ContractCtx(a: LocalCtx, b: LocalCtx, e: Expr)
    requires forall y :: y in FVars(e) ==> (LetBound(a, y) <==> LetBound(b, y)) && (LetBound(a, y) ==> a[y].value == b[y].value)
    ensures Contract(a, e) == Contract(b, e)
  {
    if e.App? { ContractCtx(a, b, e.fn); }
  }

  lemma {:induction false} PathCtx(a: LocalCtx, b: LocalCtx, n: nat, e: Expr, r: Expr)
    requires SameLets(a, b) && Path(a, n, e, r)
    ensures Path(b, n, e, r)
    decreases n
  {
    if n > 0 {
      ContractCtx(a, b, e);
      PathCtx(a, b, n - 1, Contract(a, e).value, r);
    }
  }
}
