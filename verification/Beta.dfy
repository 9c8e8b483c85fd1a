/** Batched beta reduction (kernel/instantiate.cpp) against one-argument-at-a-time reduction. */
module Beta {
  import opened Names
  import opened Prelude
  import opened Exprs
  import opened DeBruijn
  import opened ExprFacts
  import opened Conversion

  /** The number of leading lambdas. */
  function LambdaCount(f: Expr): nat {
    if f.Lambda? then 1 + LambdaCount(f.body) else 0
  }

  /** The body below `m` leading lambdas. */
  function Strip(f: Expr, m: nat): Expr
    requires m <= LambdaCount(f)
  {
    if m == 0 then f else Strip(f.body, m - 1)
  }

  /** Consume `m` arguments, first argument first, instantiating one lambda body at a time. */
  function BetaIter(f: Expr, args: seq<Expr>, m: nat): Expr
    requires m <= |args| && m <= LambdaCount(f)
    decreases m
  {
    if m == 0 then MkApp(f, args)
    else
      LambdaCountInst(f.body, 0, [args[0]]);
      BetaIter(Inst(f.body, 0, [args[0]]), args[1..], m - 1)
  }

  lemma {:induction false} LambdaCountInst(f: Expr, k: nat, us: seq<Expr>)
    ensures LambdaCount(Inst(f, k, us)) >= LambdaCount(f)
  {
    if f.Lambda? { LambdaCountInst(f.body, k + 1, us); }
  }

  lemma {:induction false} StripInst(f: Expr, k: nat, us: seq<Expr>, m: nat)
    requires m <= LambdaCount(f)
    ensures m <= LambdaCount(Inst(f, k, us))
    ensures Strip(Inst(f, k, us), m) == Inst(Strip(f, m), k + m, us)
    decreases m
  {
    LambdaCountInst(f, k, us);
    if m > 0 { StripInst(f.body, k + 1, us, m - 1); }
  }

  /** What the kernel builds for `m` arguments: one simultaneous instantiation of the stripped body. */
  function BetaBatch(f: Expr, args: seq<Expr>, m: nat): Expr
    requires m <= |args| && m <= LambdaCount(f)
  {
    MkApp(Inst(Strip(f, m), 0, Reverse(args[..m])), args[m..])
  }

  lemma {:induction false} ReverseCons(a: Expr, rest: seq<Expr>)
    ensures Reverse([a] + rest) == Reverse(rest) + [a]
  {
  }

  /** Consuming the first argument on its own and batching the rest is batching all of them. */
  lemma {:induction false} BatchStep(f: Expr, args: seq<Expr>, m: nat)
    requires 0 < m <= |args| && m <= LambdaCount(f)
    ensures m - 1 <= LambdaCount(Inst(f.body, 0, [args[0]]))
    ensures BetaBatch(Inst(f.body, 0, [args[0]]), args[1..], m - 1) == BetaBatch(f, args, m)
  {
    var a, rest := args[0], args[1..];
    StripInst(f.body, 0, [a], m - 1);
    InstSplit(Strip(f, m), 0, Reverse(rest[..m - 1]), [a]);
    ReverseCons(a, rest[..m - 1]);
    assert args[..m] == [a] + rest[..m - 1] && rest[m - 1..] == args[m..];
  }

  /** Batched beta is iterated single beta. */
  lemma {:induction false} BatchIsIter(f: Expr, args: seq<Expr>, m: nat)
    requires m <= |args| && m <= LambdaCount(f)
    ensures BetaBatch(f, args, m) == BetaIter(f, args, m)
    decreases m
  {
    if m == 0 {
      assert args[0..] == args && Reverse(args[..0]) == [];
      InstNothing(f, 0);
    } else {
      BatchStep(f, args, m);
      BatchIsIter(Inst(f.body, 0, [args[0]]), args[1..], m - 1);
    }
  }

  /** Each iteration is a beta step, so batching only performs beta steps. */
  lemma {:induction false} BatchReduces(env: Environment, lets: Lets, f: Expr, args: seq<Expr>, m: nat)
    requires m <= |args| && m <= LambdaCount(f)
    ensures Reduces(env, lets, MkApp(f, args), BetaBatch(f, args, m))
    decreases m
  {
    BatchIsIter(f, args, m);
    IterReduces(env, lets, f, args, m);
  }

  lemma {:induction false} RedMkApp(env: Environment, lets: Lets, f: Expr, g: Expr, args: seq<Expr>)
    requires Reduces(env, lets, f, g)
    ensures Reduces(env, lets, MkApp(f, args), MkApp(g, args))
    decreases |args|
  {
    if args != [] {
      var n := |args| - 1;
      RedMkApp(env, lets, f, g, args[..n]);
      RedRefl(env, lets, args[n], args[n]);
      RedApp(env, lets, MkApp(f, args[..n]), MkApp(g, args[..n]), args[n], args[n]);
    }
  }

  lemma {:induction false} MkAppCons(f: Expr, args: seq<Expr>)
    requires args != []
    ensures MkApp(f, args) == MkApp(App(f, args[0]), args[1..])
    decreases |args|
  {
    var n := |args| - 1;
    if n == 0 {
      assert args[..0] == [] && args[1..] == [];
    } else {
      MkAppCons(f, args[..n]);
      assert args[..n][1..] == args[1..][..n - 1];
    }
  }

  lemma {:induction false} IterReduces(env: Environment, lets: Lets, f: Expr, args: seq<Expr>, m: nat)
    requires m <= |args| && m <= LambdaCount(f)
    ensures Reduces(env, lets, MkApp(f, args), BetaIter(f, args, m))
    decreases m
  {
    if m == 0 {
      RedRefl(env, lets, MkApp(f, args), MkApp(f, args));
    } else {
      var g := Inst(f.body, 0, [args[0]]);
      LambdaCountInst(f.body, 0, [args[0]]);
      MkAppCons(f, args);
      RedStep(env, lets, App(f, args[0]), g);
      RedMkApp(env, lets, App(f, args[0]), g, args[1..]);
      IterReduces(env, lets, g, args[1..], m - 1);
      RedTrans(env, lets, MkApp(f, args), MkApp(g, args[1..]), BetaIter(f, args, m));
    }
  }

  // ---------------------------------------------------------------- apply_beta

  /** `apply_beta_rec` with `preserve_data = true` and `zeta = false`, the defaults. */
  function ApplyBetaRec(e: Expr, i: nat, revArgs: seq<Expr>): Expr
    requires i <= |revArgs| && (e.Lambda? ==> i < |revArgs|)
  {
    var n := |revArgs|;
    if e.Lambda? then
      if i + 1 < n then ApplyBetaRec(e.body, i + 1, revArgs)
      else Inst(e.body, 0, revArgs)
    else
      MkRevApp(Inst(e, 0, revArgs[n - i..]), revArgs[..n - i])
  }

  function ApplyBeta(f: Expr, revArgs: seq<Expr>): Expr {
    if revArgs == [] then f else ApplyBetaRec(f, 0, revArgs)
  }

  function Min(a: nat, b: nat): nat {
    if a <= b then a else b
  }

  lemma {:induction false} StripBody(f: Expr, i: nat)
    requires i < LambdaCount(f)
    ensures Strip(f, i).Lambda? && Strip(f, i + 1) == Strip(f, i).body
    ensures LambdaCount(Strip(f, i)) == LambdaCount(f) - i
  {
    if i > 0 { StripBody(f.body, i - 1); }
  }

  lemma {:induction false} StripAll(f: Expr, i: nat)
    requires i <= LambdaCount(f)
    ensures LambdaCount(Strip(f, i)) == LambdaCount(f) - i
  {
    if i > 0 { StripAll(f.body, i - 1); }
  }

  lemma {:induction false} ApplyBetaRecSpec(f: Expr, i: nat, args: seq<Expr>)
    requires i < |args| && i <= LambdaCount(f)
    ensures ApplyBetaRec(Strip(f, i), i, Reverse(args)) == BetaBatch(f, args, Min(LambdaCount(f), |args|))
    decreases |args| - i
  {
    var n, rev, e := |args|, Reverse(args), Strip(f, i);
    StripAll(f, i);
    if e.Lambda? {
      StripBody(f, i);
      if i + 1 < n {
        ApplyBetaRecSpec(f, i + 1, args);
      } else {
        assert args[..n] == args && args[n..] == [];
      }
    } else {
      assert rev[n - i..] == Reverse(args[..i]);
      MkRevAppIsMkApp(Inst(e, 0, rev[n - i..]), rev[..n - i]);
      assert Reverse(rev[..n - i]) == args[i..];
    }
  }

  /** `apply_beta` in its default mode equals beta-reducing one argument at a time for as long as
      the function is syntactically a lambda. */
  lemma {:induction false} ApplyBetaIsIter(f: Expr, args: seq<Expr>)
    ensures ApplyBeta(f, Reverse(args)) == BetaIter(f, args, Min(LambdaCount(f), |args|))
  {
    if args == [] {
      assert Reverse(args) == [];
    } else {
      ApplyBetaRecSpec(f, 0, args);
      BatchIsIter(f, args, Min(LambdaCount(f), |args|));
    }
  }

  // ---------------------------------------------------------------- cheap_beta_reduce

  lemma {:induction false} StripRange(f: Expr, m: nat)
    requires m <= LambdaCount(f)
    ensures LooseRange(Strip(f, m)) <= LooseRange(f) + m
  {
    if m > 0 { StripRange(f.body, m - 1); }
  }

  lemma {:induction false} SpineRange(e: Expr)
    ensures LooseRange(AppFn(e)) <= LooseRange(e)
  {
    if e.App? { SpineRange(e.fn); }
  }

  /** How many arguments the head of `e` can consume at once. */
  function Consumed(e: Expr): (m: nat)
    ensures m <= LambdaCount(AppFn(e)) && m <= |AppArgs(e)|
  {
    Min(LambdaCount(AppFn(e)), |AppArgs(e)|)
  }

  /** What is below the lambdas that are consumed needs no real instantiation. */
  predicate CheapBeta(e: Expr) {
    && e.App? && AppFn(e).Lambda?
    && (LooseRange(Strip(AppFn(e), Consumed(e))) == 0 || Strip(AppFn(e), Consumed(e)).BVar?)
  }

  /** On closed input the result is the iterated beta reduct for as many arguments as the head can
      consume, exactly when the body below is closed or one of the variables; otherwise the input. */
  method CheapBetaReduce(e: Expr) returns (r: Expr)
    requires LooseRange(e) == 0
    ensures r == if CheapBeta(e) then BetaIter(AppFn(e), AppArgs(e), Consumed(e)) else e
  {
    if !e.App? {
      return e;
    }
    var fn, args := GetAppArgs(e);
    ghost var f := fn;
    if !fn.Lambda? {
      return e;
    }
    var i := 0;
    StripAll(f, 0);
    while fn.Lambda? && i < |args|
      invariant i <= |args| && i <= LambdaCount(f) && fn == Strip(f, i)
      decreases |args| - i
    {
      StripAll(f, i);
      StripBody(f, i);
      i := i + 1;
      fn := fn.body;
    }
    StripAll(f, i);
    assert i == Consumed(e);
    SpineRange(e);
    StripRange(f, i);
    BatchIsIter(f, args, i);
    if LooseRange(fn) == 0 {
      NoLoose(fn, 0, 0, Reverse(args[..i]));
      r := MkApp(fn, args[i..]);
    } else if fn.BVar? {
      LiftZero(args[i - fn.idx - 1], 0);
      r := MkApp(args[i - fn.idx - 1], args[i..]);
    } else {
      r := e;
    }
  }
}
