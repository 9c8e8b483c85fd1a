/** `apply_beta` with `preserve_data = false` and `zeta = true` (kernel/instantiate.cpp, lines
    168-199): it stops on every input and only performs beta, zeta and metadata steps. */
module BetaZeta {
  import opened Prelude
  import opened Exprs
  import opened DeBruijn
  import opened Conversion
  import Beta
  import L = Levels

  // ---------------------------------------------------------------- a measure for the head

  /** How many lambdas, lets and metadata nodes `apply_beta_rec` can strip from `e`; `env` gives
      the same number for each loose index, since a let value may come to the head. */
  function HeadLength(e: Expr, env: seq<nat>): nat {
    match e
    case BVar(i) => if i < |env| then env[i] else 0
    case Lambda(_, _, b) => 1 + HeadLength(b, [0] + env)
    case Let(_, _, v, b, _) => 1 + HeadLength(b, [HeadLength(v, env)] + env)
    case MData(_, x) => 1 + HeadLength(x, env)
    case _ => 0
  }

  lemma {:induction false} HeadLengthLift(e: Expr, inner: seq<nat>, gap: seq<nat>, env: seq<nat>)
    ensures HeadLength(Lift(e, |inner|, |gap|), inner + gap + env) == HeadLength(e, inner + env)
  {
    match e
    case Lambda(_, _, b) =>
      HeadLengthLift(b, [0] + inner, gap, env);
      assert [0] + inner + gap + env == [0] + (inner + gap + env) && [0] + inner + env == [0] + (inner + env);
    case Let(_, _, v, b, _) =>
      HeadLengthLift(v, inner, gap, env);
      var n := HeadLength(v, inner + env);
      HeadLengthLift(b, [n] + inner, gap, env);
      assert [n] + inner + gap + env == [n] + (inner + gap + env) && [n] + inner + env == [n] + (inner + env);
    case MData(_, x) => HeadLengthLift(x, inner, gap, env);
    case _ =>
  }

  lemma {:induction false} HeadLengthInst(e: Expr, inner: seq<nat>, u: Expr, env: seq<nat>)
    ensures HeadLength(Inst(e, |inner|, [u]), inner + env) == HeadLength(e, inner + [HeadLength(u, env)] + env)
  {
    var h := [HeadLength(u, env)];
    match e
    case BVar(i) =>
      if i == |inner| {
        HeadLengthLift(u, [], inner, env);
        assert [] + inner + env == inner + env && [] + env == env;
      }
    case Lambda(_, _, b) =>
      HeadLengthInst(b, [0] + inner, u, env);
      assert [0] + inner + env == [0] + (inner + env) && [0] + inner + h + env == [0] + (inner + h + env);
    case Let(_, _, v, b, _) =>
      HeadLengthInst(v, inner, u, env);
      var n := HeadLength(v, inner + h + env);
      HeadLengthInst(b, [n] + inner, u, env);
      assert [n] + inner + env == [n] + (inner + env) && [n] + inner + h + env == [n] + (inner + h + env);
    case MData(_, x) => HeadLengthInst(x, inner, u, env);
    case _ =>
  }

  function Zeros(i: nat): (r: seq<nat>)
    ensures |r| == i
  {
    if i == 0 then [] else [0] + Zeros(i - 1)
  }

  /** Unfolding a let at the head makes the head shorter, whatever its value is. */
  lemma {:induction false} LetShortens(e: Expr, i: nat)
    requires e.Let?
    ensures HeadLength(Inst(e.letBody, 0, [e.letValue]), Zeros(i)) < HeadLength(e, Zeros(i))
  {
    var env := Zeros(i);
    HeadLengthInst(e.letBody, [], e.letValue, env);
    assert [] + env == env && [] + [HeadLength(e.letValue, env)] + env == [HeadLength(e.letValue, env)] + env;
  }

  // ---------------------------------------------------------------- apply_beta

  /** `e` has had `i` lambdas stripped, for the last `i` of `revArgs`. */
  function ApplyBetaZetaRec(e: Expr, i: nat, revArgs: seq<Expr>): Expr
    requires i < |revArgs|
    decreases HeadLength(e, Zeros(i))
  {
    var n := |revArgs|;
    match e
    case Lambda(_, _, b) =>
      if i + 1 < n then ApplyBetaZetaRec(b, i + 1, revArgs) else Inst(b, 0, revArgs)
    case Let(_, _, v, b, _) =>
      LetShortens(e, i);
      ApplyBetaZetaRec(Inst(b, 0, [v]), i, revArgs)
    case MData(_, x) => ApplyBetaZetaRec(x, i, revArgs)
    case _ => MkRevApp(Inst(e, 0, revArgs[n - i..]), revArgs[..n - i])
  }

  function ApplyBetaZeta(f: Expr, revArgs: seq<Expr>): Expr {
    if revArgs == [] then f else ApplyBetaZetaRec(f, 0, revArgs)
  }

  // ---------------------------------------------------------------- soundness

  lemma {:induction false} MkRevAppLast(f: Expr, revArgs: seq<Expr>)
    requires revArgs != []
    ensures MkRevApp(f, revArgs) == MkRevApp(App(f, revArgs[|revArgs| - 1]), revArgs[..|revArgs| - 1])
  {
    var n := |revArgs| - 1;
    if n == 0 {
      assert revArgs[1..] == [];
    } else {
      MkRevAppLast(f, revArgs[1..]);
      assert revArgs[..n][1..] == revArgs[1..][..n - 1];
    }
  }

  /** The application that `apply_beta_rec` still has to reduce. */
  function Pending(e: Expr, i: nat, revArgs: seq<Expr>): Expr
    requires i <= |revArgs|
  {
    var n := |revArgs|;
    MkRevApp(Inst(e, 0, revArgs[n - i..]), revArgs[..n - i])
  }

  lemma {:induction false} LambdaStep(env: Environment, lets: Lets, e: Expr, i: nat, revArgs: seq<Expr>)
    requires i < |revArgs| && e.Lambda?
    ensures Reduces(env, lets, Pending(e, i, revArgs), Pending(e.body, i + 1, revArgs))
  {
    var n := |revArgs|;
    var us, a, rest := revArgs[n - i..], revArgs[n - i - 1], revArgs[..n - i];
    var f := Inst(e, 0, us);
    InstSplit(e.body, 0, [a], us);
    assert [a] + us == revArgs[n - (i + 1)..];
    assert rest[..|rest| - 1] == revArgs[..n - (i + 1)];
    MkRevAppLast(f, rest);
    RedStep(env, lets, App(f, a), Inst(e.body, 0, [a] + us));
    RedRevApp(env, lets, App(f, a), Inst(e.body, 0, [a] + us), revArgs[..n - (i + 1)]);
  }

  lemma {:induction false} ZetaStep(env: Environment, lets: Lets, e: Expr, i: nat, revArgs: seq<Expr>)
    requires i < |revArgs| && e.Let?
    ensures Reduces(env, lets, Pending(e, i, revArgs), Pending(Inst(e.letBody, 0, [e.letValue]), i, revArgs))
  {
    var n := |revArgs|;
    var us, v := revArgs[n - i..], e.letValue;
    InstInst(e.letBody, 0, [v], 0, us);
    assert InstAll([v], 0, us) == [Inst(v, 0, us)];
    RedStep(env, lets, Inst(e, 0, us), Inst(Inst(e.letBody, 0, [v]), 0, us));
    RedRevApp(env, lets, Inst(e, 0, us), Inst(Inst(e.letBody, 0, [v]), 0, us), revArgs[..n - i]);
  }

  lemma {:induction false} MDataDrop(env: Environment, lets: Lets, e: Expr, i: nat, revArgs: seq<Expr>)
    requires i < |revArgs| && e.MData?
    ensures Reduces(env, lets, Pending(e, i, revArgs), Pending(e.inner, i, revArgs))
  {
    var n := |revArgs|;
    var us := revArgs[n - i..];
    RedStep(env, lets, Inst(e, 0, us), Inst(e.inner, 0, us));
    RedRevApp(env, lets, Inst(e, 0, us), Inst(e.inner, 0, us), revArgs[..n - i]);
  }

  lemma {:induction false} BetaZetaRecReduces(env: Environment, lets: Lets, e: Expr, i: nat, revArgs: seq<Expr>)
    requires i < |revArgs|
    ensures Reduces(env, lets, Pending(e, i, revArgs), ApplyBetaZetaRec(e, i, revArgs))
    decreases HeadLength(e, Zeros(i))
  {
    var n, r := |revArgs|, ApplyBetaZetaRec(e, i, revArgs);
    if e.Lambda? {
      LambdaStep(env, lets, e, i, revArgs);
      if i + 1 < n {
        BetaZetaRecReduces(env, lets, e.body, i + 1, revArgs);
      } else {
        assert revArgs[n - (i + 1)..] == revArgs && revArgs[..n - (i + 1)] == [];
        RedRefl(env, lets, r, r);
      }
      RedTrans(env, lets, Pending(e, i, revArgs), Pending(e.body, i + 1, revArgs), r);
    } else if e.Let? {
      LetShortens(e, i);
      var b := Inst(e.letBody, 0, [e.letValue]);
      ZetaStep(env, lets, e, i, revArgs);
      BetaZetaRecReduces(env, lets, b, i, revArgs);
      RedTrans(env, lets, Pending(e, i, revArgs), Pending(b, i, revArgs), r);
    } else if e.MData? {
      MDataDrop(env, lets, e, i, revArgs);
      BetaZetaRecReduces(env, lets, e.inner, i, revArgs);
      RedTrans(env, lets, Pending(e, i, revArgs), Pending(e.inner, i, revArgs), r);
    } else {
      RedRefl(env, lets, r, r);
    }
  }

  /** The application to all arguments reduces to the result of `apply_beta`. */
  lemma {:induction false} BetaZetaReduces(env: Environment, lets: Lets, f: Expr, revArgs: seq<Expr>)
    ensures Reduces(env, lets, MkRevApp(f, revArgs), ApplyBetaZeta(f, revArgs))
  {
    if revArgs == [] {
      RedRefl(env, lets, f, f);
    } else {
      var n := |revArgs|;
      assert revArgs[n - 0..] == [] && revArgs[..n - 0] == revArgs;
      InstNothing(f, 0);
      BetaZetaRecReduces(env, lets, f, 0, revArgs);
    }
  }

  // ---------------------------------------------------------------- one step at a time

  predicate HeadRedex(f: Expr) {
    f.Lambda? || f.Let? || f.MData?
  }

  /** Beta-reduce one argument, unfold a let or drop metadata at the head of `f` applied to `args`. */
  function HeadStep(f: Expr, args: seq<Expr>): (Expr, seq<Expr>)
    requires args != [] && HeadRedex(f)
  {
    match f
    case Lambda(_, _, b) => (Inst(b, 0, [args[0]]), args[1..])
    case Let(_, _, v, b, _) => (Inst(b, 0, [v]), args)
    case MData(_, x) => (x, args)
  }

  /** At most `k` such steps, for as long as there is an argument and something to do. */
  function HeadSteps(f: Expr, args: seq<Expr>, k: nat): (Expr, seq<Expr>)
    decreases k
  {
    if k == 0 || args == [] || !HeadRedex(f) then (f, args)
    else
      var (g, rest) := HeadStep(f, args);
      HeadSteps(g, rest, k - 1)
  }

  /** How many steps `f` takes on `n` arguments that stay variables, and what is below the lambdas
      then, and how many arguments are used up. */
  function Opened(f: Expr, i: nat, n: nat): (r: (nat, Expr, nat))
    requires i <= n
    ensures i <= r.2 <= n
    decreases HeadLength(f, Zeros(i))
  {
    if i == n then (0, f, i)
    else
      match f
      case Lambda(_, _, b) =>
        var (k, e, j) := Opened(b, i + 1, n);
        (k + 1, e, j)
      case Let(_, _, v, b, _) =>
        LetShortens(f, i);
        var (k, e, j) := Opened(Inst(b, 0, [v]), i, n);
        (k + 1, e, j)
      case MData(_, x) =>
        var (k, e, j) := Opened(x, i, n);
        (k + 1, e, j)
      case _ => (0, f, i)
  }

  /** `e` below `i` lambdas whose arguments are the first `i` of `args`. */
  function Closure(e: Expr, i: nat, args: seq<Expr>): (Expr, seq<Expr>)
    requires i <= |args|
  {
    (Inst(e, 0, Reverse(args[..i])), args[i..])
  }

  lemma {:induction false} ReverseSnoc(args: seq<Expr>, i: nat)
    requires i < |args|
    ensures Reverse(args[..i + 1]) == [args[i]] + Reverse(args[..i])
  {
    assert args[..i + 1] == args[..i] + [args[i]];
  }

  /** A step of the open term is a step of the closed one. */
  lemma {:induction false} ClosureStep(e: Expr, i: nat, args: seq<Expr>)
    requires i < |args| && HeadRedex(e)
    ensures var (f, rest) := Closure(e, i, args);
      && HeadRedex(f) && rest != []
      && HeadStep(f, rest) ==
           match e
           case Lambda(_, _, b) => Closure(b, i + 1, args)
           case Let(_, _, v, b, _) => Closure(Inst(b, 0, [v]), i, args)
           case MData(_, x) => Closure(x, i, args)
  {
    var us := Reverse(args[..i]);
    match e
    case Lambda(_, _, b) =>
      InstSplit(b, 0, [args[i]], us);
      ReverseSnoc(args, i);
    case Let(_, _, v, b, _) =>
      InstInst(b, 0, [v], 0, us);
      assert InstAll([v], 0, us) == [Inst(v, 0, us)];
    case MData(_, x) =>
  }

  lemma {:induction false} ClosureRest(e: Expr, i: nat, args: seq<Expr>)
    requires i <= |args|
    ensures var n, rev := |args|, Reverse(args);
      |rev| == n && MkRevApp(Inst(e, 0, rev[n - i..]), rev[..n - i]) == MkApp(Closure(e, i, args).0, args[i..])
  {
    var n, rev := |args|, Reverse(args);
    assert rev[n - i..] == Reverse(args[..i]);
    MkRevAppIsMkApp(Inst(e, 0, rev[n - i..]), rev[..n - i]);
    assert Reverse(rev[..n - i]) == args[i..];
  }

  lemma {:induction false} ClosureAll(e: Expr, args: seq<Expr>)
    ensures Closure(e, |args|, args) == (Inst(e, 0, Reverse(args)), []) && |Reverse(args)| == |args|
    ensures MkApp(Inst(e, 0, Reverse(args)), args[|args|..]) == Inst(e, 0, Reverse(args))
  {
    assert args[..|args|] == args && args[|args|..] == [];
  }

  /** `apply_beta_rec` is as many single steps as the term takes on its own. */
  lemma {:induction false} ApplyBetaZetaRecSteps(e: Expr, i: nat, args: seq<Expr>)
    requires i < |args|
    ensures var (k, body, j) := Opened(e, i, |args|);
      var (f, rest) := Closure(e, i, args);
      && HeadSteps(f, rest, k) == Closure(body, j, args)
      && ApplyBetaZetaRec(e, i, Reverse(args)) == MkApp(Closure(body, j, args).0, args[j..])
    decreases HeadLength(e, Zeros(i))
  {
    hide Inst, Reverse, MkApp, MkRevApp;
    match e {
      case Lambda(_, _, b) =>
        ClosureStep(e, i, args);
        if i + 1 < |args| { ApplyBetaZetaRecSteps(b, i + 1, args); } else { ClosureAll(b, args); }
      case Let(_, _, v, b, _) =>
        LetShortens(e, i);
        ClosureStep(e, i, args);
        ApplyBetaZetaRecSteps(Inst(b, 0, [v]), i, args);
      case MData(_, x) =>
        ClosureStep(e, i, args);
        ApplyBetaZetaRecSteps(x, i, args);
      case _ => ClosureRest(e, i, args);
    }
  }

  /** `apply_beta` in this mode is reduction at the head, one argument, let or metadata node at a
      time, for as many steps as the function takes when its arguments are variables. */
  lemma {:induction false} ApplyBetaZetaIsSteps(f: Expr, args: seq<Expr>)
    ensures var k := Opened(f, 0, |args|).0;
      ApplyBetaZeta(f, Reverse(args)) == MkApp(HeadSteps(f, args, k).0, HeadSteps(f, args, k).1)
  {
    if args == [] {
      assert Reverse(args) == [];
    } else {
      InstNothing(f, 0);
      assert Reverse(args[..0]) == [] && args[0..] == args;
      ApplyBetaZetaRecSteps(f, 0, args);
    }
  }

  // ---------------------------------------------------------------- how far it gets

  lemma {:induction false} StepShortens(f: Expr, args: seq<Expr>)
    requires args != [] && HeadRedex(f)
    ensures var (g, rest) := HeadStep(f, args);
      |rest| < |args| || (rest == args && HeadLength(g, Zeros(0)) < HeadLength(f, Zeros(0)))
  {
    if f.Let? { LetShortens(f, 0); }
  }

  /** Single steps until no argument is left or the function part is no lambda, let or metadata. */
  function HeadCount(f: Expr, args: seq<Expr>): (k: nat)
    ensures HeadSteps(f, args, k).1 == [] || !HeadRedex(HeadSteps(f, args, k).0)
    decreases |args|, HeadLength(f, Zeros(0))
  {
    if args == [] || !HeadRedex(f) then 0
    else
      StepShortens(f, args);
      var (g, rest) := HeadStep(f, args);
      1 + HeadCount(g, rest)
  }

  lemma {:induction false} CountFromOpened(e: Expr, i: nat, args: seq<Expr>)
    requires i <= |args|
    ensures var (k, body, j) := Opened(e, i, |args|);
      HeadCount(Closure(e, i, args).0, Closure(e, i, args).1) == k + HeadCount(Closure(body, j, args).0, Closure(body, j, args).1)
    decreases HeadLength(e, Zeros(i))
  {
    if i < |args| && HeadRedex(e) {
      ClosureStep(e, i, args);
      match e
      case Lambda(_, _, b) => CountFromOpened(b, i + 1, args);
      case Let(_, _, v, b, _) =>
        LetShortens(e, i);
        CountFromOpened(Inst(b, 0, [v]), i, args);
      case MData(_, x) => CountFromOpened(x, i, args);
    }
  }

  /** An argument comes to the head, and it could take the next argument. */
  predicate ArgumentAtHead(f: Expr, args: seq<Expr>) {
    var (k, body, j) := Opened(f, 0, |args|);
    j < |args| && body.BVar? && body.idx < j && HeadRedex(args[j - 1 - body.idx])
  }

  lemma {:induction false} OpenedEnd(e: Expr, i: nat, n: nat)
    requires i <= n
    ensures var (k, body, j) := Opened(e, i, n); j == n || !HeadRedex(body)
    decreases HeadLength(e, Zeros(i))
  {
    if i < n {
      match e
      case Lambda(_, _, b) => OpenedEnd(b, i + 1, n);
      case Let(_, _, v, b, _) =>
        LetShortens(e, i);
        OpenedEnd(Inst(b, 0, [v]), i, n);
      case MData(_, x) => OpenedEnd(x, i, n);
      case _ =>
    }
  }

  lemma {:induction false} RedexInst(e: Expr, us: seq<Expr>)
    ensures HeadRedex(Inst(e, 0, us)) <==> HeadRedex(e) || (e.BVar? && e.idx < |us| && HeadRedex(us[e.idx]))
  {
    if e.BVar? && e.idx < |us| { LiftZero(us[e.idx], 0); }
  }

  /** `apply_beta` in this mode takes all the steps there are if and only if no argument that could
      take the next one comes to the head. */
  lemma {:induction false} AllStepsIff(f: Expr, args: seq<Expr>)
    ensures Opened(f, 0, |args|).0 <= HeadCount(f, args)
    ensures Opened(f, 0, |args|).0 == HeadCount(f, args) <==> !ArgumentAtHead(f, args)
  {
    hide Inst, Opened;
    var (k, body, j) := Opened(f, 0, |args|);
    InstNothing(f, 0);
    assert Reverse(args[..0]) == [] && args[0..] == args;
    CountFromOpened(f, 0, args);
    OpenedEnd(f, 0, |args|);
    RedexInst(body, Reverse(args[..j]));
  }

  /** It may stop early: `(fun f => f) (fun x => x) a` becomes `(fun x => x) a`. */
  lemma {:induction false} StopsEarly(x: Binder, a: Expr)
    ensures var id := Lambda(x, Sort(L.Zero), BVar(0));
      && ApplyBetaZeta(id, Reverse([id, a])) == App(id, a)
      && HeadSteps(id, [id, a], HeadCount(id, [id, a])) == (a, [])
  {
    var id := Lambda(x, Sort(L.Zero), BVar(0));
    LiftZero(id, 0);
    LiftZero(a, 0);
    assert Reverse([id, a]) == [a, id];
    assert ApplyBetaZetaRec(id, 0, [a, id]) == ApplyBetaZetaRec(BVar(0), 1, [a, id]);
    assert [a, id][1..] == [id] && [a, id][..1] == [a];
    assert MkRevApp(id, [a]) == App(MkRevApp(id, [a][1..]), a);
    assert HeadStep(id, [id, a]) == (id, [id, a][1..]) && [id, a][1..] == [a];
    assert HeadStep(id, [a]) == (a, [a][1..]) && [a][1..] == [];
  }

  lemma {:induction false} BetaZetaRecPlain(f: Expr, i: nat, revArgs: seq<Expr>)
    requires i < |revArgs| && i <= Beta.LambdaCount(f)
    requires |revArgs| > Beta.LambdaCount(f) ==> !HeadRedex(Beta.Strip(f, Beta.LambdaCount(f)))
    ensures ApplyBetaZetaRec(Beta.Strip(f, i), i, revArgs) == Beta.ApplyBetaRec(Beta.Strip(f, i), i, revArgs)
    decreases |revArgs| - i
  {
    Beta.StripAll(f, i);
    if Beta.Strip(f, i).Lambda? {
      Beta.StripBody(f, i);
      if i + 1 < |revArgs| { BetaZetaRecPlain(f, i + 1, revArgs); }
    } else {
      assert i == Beta.LambdaCount(f);
    }
  }

  /** Without a let or metadata below the lambdas it is iterated beta. */
  lemma {:induction false} ApplyBetaZetaIsIter(f: Expr, args: seq<Expr>)
    requires |args| > Beta.LambdaCount(f) ==> !HeadRedex(Beta.Strip(f, Beta.LambdaCount(f)))
    ensures ApplyBetaZeta(f, Reverse(args)) == Beta.BetaIter(f, args, Beta.Min(Beta.LambdaCount(f), |args|))
  {
    Beta.ApplyBetaIsIter(f, args);
    if args != [] { BetaZetaRecPlain(f, 0, Reverse(args)); }
  }
}
