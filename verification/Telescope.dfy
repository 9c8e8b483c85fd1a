/** Opening a telescope into local declarations and closing it again (`to_telescope` in
    library/util.cpp, `mk_binding` in kernel/local_ctx.cpp), eta reduction, and the batched
    instantiation of `infer_app`. */
module Telescope {
  import opened Names
  import opened Prelude
  import opened Exprs
  import opened DeBruijn
  import opened ExprFacts
  import opened Congruence
  import opened Conversion
  import opened ConversionFacts
  import opened CheckerState
  import opened HeadPaths
  import BindingFacts

  // ---------------------------------------------------------------- closing

  /** Bind the variable declared by `decl`; `typ` and `value` are already abstracted. */
  function CloseOne(isLambda: bool, decl: LocalDecl, xs: seq<Name>, r: Expr, removeDeadLet: bool): Expr {
    var typ := Abstract(decl.typ, 0, xs);
    if decl.value.Some? then
      if !removeDeadLet || HasLoose(r, 0) then Let(decl.user.name, typ, Abstract(decl.value.value, 0, xs), r, false)
      else Lower(r, 1, 1)
    else if isLambda then Lambda(decl.user, typ, r)
    else Pi(decl.user, typ, r)
  }

  /** Bind `xs[..i]` around `r`, innermost last; `None` when a variable is not declared. */
  function CloseFrom(isLambda: bool, lctx: LocalCtx, xs: seq<Name>, i: nat, r: Expr, removeDeadLet: bool): Option<Expr>
    requires i <= |xs|
  {
    if i == 0 then Some(r)
    else if xs[i - 1] !in lctx then None
    else CloseFrom(isLambda, lctx, xs, i - 1, CloseOne(isLambda, lctx[xs[i - 1]], xs[..i - 1], r, removeDeadLet), removeDeadLet)
  }

  function Closed(isLambda: bool, lctx: LocalCtx, xs: seq<Name>, b: Expr, removeDeadLet: bool): Option<Expr> {
    CloseFrom(isLambda, lctx, xs, |xs|, Abstract(b, 0, xs), removeDeadLet)
  }

  method MkBinding(isLambda: bool, lctx: LocalCtx, xs: seq<Name>, b: Expr, removeDeadLet: bool) returns (res: Option<Expr>)
    ensures res == Closed(isLambda, lctx, xs, b, removeDeadLet)
  {
    var r := Abstract(b, 0, xs);
    var i := |xs|;
    while i > 0
      invariant 0 <= i <= |xs|
      invariant Closed(isLambda, lctx, xs, b, removeDeadLet) == CloseFrom(isLambda, lctx, xs, i, r, removeDeadLet)
    {
      i := i - 1;
      if xs[i] !in lctx {
        return None;
      }
      var decl := lctx[xs[i]];
      if decl.value.Some? {
        if !removeDeadLet || HasLoose(r, 0) {
          var typ := Abstract(decl.typ, 0, xs[..i]);
          var value := Abstract(decl.value.value, 0, xs[..i]);
          r := Let(decl.user.name, typ, value, r, false);
        } else {
          r := Lower(r, 1, 1);
        }
      } else if isLambda {
        r := Lambda(decl.user, Abstract(decl.typ, 0, xs[..i]), r);
      } else {
        r := Pi(decl.user, Abstract(decl.typ, 0, xs[..i]), r);
      }
    }
    res := Some(r);
  }

  /** Dropping a dead let is instantiating it with its value, whatever that is. */
  lemma {:induction false} DeadLetIsInstantiation(r: Expr, v: Expr)
    requires !HasLoose(r, 0)
    ensures Lower(r, 1, 1) == Inst(r, 0, [v])
  {
    GapFreeOne(r, 0, 0);
    LiftLower(r, 0, 1);
    InstLiftCancel(Lower(r, 1, 1), 0, 1, 0, [v]);
    LiftZero(Lower(r, 1, 1), 0);
  }

  lemma {:induction false} CloseOneConv(env: Environment, lets: Lets, isLambda: bool, decl: LocalDecl, xs: seq<Name>, r: Expr, s: Expr)
    requires DefEq(env, lets, r, s)
    ensures DefEq(env, lets, CloseOne(isLambda, decl, xs, r, false), CloseOne(isLambda, decl, xs, s, true))
  {
    var R := StepRel(env, lets);
    var t, t' := CloseOne(isLambda, decl, xs, r, false), CloseOne(isLambda, decl, xs, s, true);
    var typ := Abstract(decl.typ, 0, xs);
    ConvRefl(R, typ, typ);
    if decl.value.None? {
      ConvBinding(R, t, t');
    } else {
      var value := Abstract(decl.value.value, 0, xs);
      var mid := Let(decl.user.name, typ, value, s, false);
      ConvRefl(R, value, value);
      ConvLet(R, t, mid);
      if !HasLoose(s, 0) {
        DeadLetIsInstantiation(s, value);
        assert LetStep(mid, t');
        ConvAxiom(R, mid, t');
        ConvTrans(R, t, mid, t');
      }
    }
  }

  /** Both fail, or both succeed with convertible results. */
  ghost predicate BothConv(env: Environment, lets: Lets, a: Option<Expr>, b: Option<Expr>) {
    (a.Some? <==> b.Some?) && (a.Some? ==> DefEq(env, lets, a.value, b.value))
  }

  /** Removing dead lets while closing changes the result only up to conversion. */
  lemma {:induction false} DeadLetsConv(env: Environment, lets: Lets, isLambda: bool, lctx: LocalCtx, xs: seq<Name>, i: nat, r: Expr, s: Expr)
    requires i <= |xs| && DefEq(env, lets, r, s)
    ensures BothConv(env, lets, CloseFrom(isLambda, lctx, xs, i, r, false), CloseFrom(isLambda, lctx, xs, i, s, true))
  {
    if i > 0 && xs[i - 1] in lctx {
      var decl, ys := lctx[xs[i - 1]], xs[..i - 1];
      CloseOneConv(env, lets, isLambda, decl, ys, r, s);
      DeadLetsConv(env, lets, isLambda, lctx, xs, i - 1, CloseOne(isLambda, decl, ys, r, false), CloseOne(isLambda, decl, ys, s, true));
    }
  }

  // ---------------------------------------------------------------- opening

  predicate IsBinding(pi: bool, e: Expr) {
    (pi && e.Pi?) || (!pi && e.Lambda?)
  }

  /** `mk_pi` or `mk_lambda` over `xs`, with or without dead-let removal, gives `e0`. */
  ghost predicate ClosesTo(isLambda: bool, lctx: LocalCtx, xs: seq<Name>, e: Expr, e0: Expr) {
    forall removeDeadLet :: ClosesWith(isLambda, lctx, xs, e, removeDeadLet, e0)
  }

  ghost predicate ClosesWith(isLambda: bool, lctx: LocalCtx, xs: seq<Name>, e: Expr, removeDeadLet: bool, e0: Expr) {
    Closed(isLambda, lctx, xs, e, removeDeadLet) == Some(e0)
  }

  /** `xs` are the names generated from `n` on. */
  ghost predicate FreshNames(xs: seq<Name>, n: nat) {
    forall i :: 0 <= i < |xs| ==> xs[i] == FreshName(n + i)
  }

  lemma {:induction false} FreshSnoc(xs: seq<Name>, n: nat)
    requires FreshNames(xs, n)
    ensures FreshName(n + |xs|) !in xs && FreshNames(xs + [FreshName(n + |xs|)], n)
  {
    assert forall i :: 0 <= i < |xs| ==> xs[i][1] == Num(n + i);
  }

  // The first `n` binders of a term, of one kind.

  predicate HasBinders(pi: bool, e: Expr, n: nat) {
    n == 0 || (IsBinding(pi, e) && HasBinders(pi, e.body, n - 1))
  }

  function Below(pi: bool, e: Expr, n: nat): Expr
    requires HasBinders(pi, e, n)
  {
    if n == 0 then e else Below(pi, e.body, n - 1)
  }

  /** The binder as it is declared: with the binder info asked for, if any. */
  function Declared(b: Binder, info: Option<BinderInfo>): Binder {
    if info.Some? then Binder(b.name, info.value) else b
  }

  function Rebind(e: Expr, info: Option<BinderInfo>, body: Expr): Expr
    requires e.Pi? || e.Lambda?
  {
    if e.Pi? then Pi(Declared(e.binder, info), e.domain, body) else Lambda(Declared(e.binder, info), e.domain, body)
  }

  /** The first `n` binders of `e`, as they are declared, around `r`. */
  function Around(pi: bool, e: Expr, n: nat, info: Option<BinderInfo>, r: Expr): Expr
    requires HasBinders(pi, e, n)
  {
    if n == 0 then r else Rebind(e, info, Around(pi, e.body, n - 1, info, r))
  }

  /** `e` with the binder info of its first `n` binders replaced. */
  function Overridden(pi: bool, e: Expr, n: nat, info: Option<BinderInfo>): Expr
    requires HasBinders(pi, e, n)
  {
    Around(pi, e, n, info, Below(pi, e, n))
  }

  /** Nothing but binder infos is replaced, and nothing at all when none is given. */
  lemma {:induction false} OverriddenSame(pi: bool, e: Expr, n: nat, info: Option<BinderInfo>)
    requires HasBinders(pi, e, n)
    ensures Same(Overridden(pi, e, n, info), e) && (info.None? ==> Overridden(pi, e, n, info) == e)
  {
    if n > 0 { OverriddenSame(pi, e.body, n - 1, info); }
  }

  lemma {:induction false} BindersStep(pi: bool, e: Expr, n: nat, info: Option<BinderInfo>, r: Expr)
    requires HasBinders(pi, e, n) && IsBinding(pi, Below(pi, e, n))
    ensures HasBinders(pi, e, n + 1) && Below(pi, e, n + 1) == Below(pi, e, n).body
    ensures Around(pi, e, n + 1, info, r) == Around(pi, e, n, info, Rebind(Below(pi, e, n), info, r))
  {
    if n > 0 { BindersStep(pi, e.body, n - 1, info, r); }
  }

  /** Binding `xs` around `r` gives the first binders of `e0`, as declared, around it. */
  ghost predicate BindsWith(pi: bool, lctx: LocalCtx, xs: seq<Name>, e0: Expr, info: Option<BinderInfo>, r: Expr, removeDeadLet: bool)
    requires HasBinders(pi, e0, |xs|)
  {
    CloseFrom(!pi, lctx, xs, |xs|, r, removeDeadLet) == Some(Around(pi, e0, |xs|, info, r))
  }

  /** `xs` declare the first binders of `e0`, and `e` is what is below them. */
  ghost predicate OpenedAs(pi: bool, lctx: LocalCtx, xs: seq<Name>, e: Expr, e0: Expr, info: Option<BinderInfo>) {
    && HasBinders(pi, e0, |xs|) && Abstract(e, 0, xs) == Below(pi, e0, |xs|)
    && forall r, removeDeadLet :: BindsWith(pi, lctx, xs, e0, info, r, removeDeadLet)
  }

  /** Open the leading binders of `e0` into fresh declarations, with the binder info `binfo` if it
      is given.  Closing them again gives `e0` with that binder info on the binders opened. */
  method ToTelescope(pi: bool, lctx0: LocalCtx, n0: nat, e0: Expr, binfo: Option<BinderInfo>)
    returns (lctx: LocalCtx, n: nat, xs: seq<Name>, e: Expr)
    requires Scoped(e0, Known(n0))
    ensures n == n0 + |xs| && FreshNames(xs, n0)
    ensures !IsBinding(pi, e) && Scoped(e, Known(n))
    ensures forall y :: y in lctx0 && y !in xs ==> y in lctx && lctx[y] == lctx0[y]
    ensures HasBinders(pi, e0, |xs|) && ClosesTo(!pi, lctx, xs, e, Overridden(pi, e0, |xs|, binfo))
    ensures binfo.None? ==> ClosesTo(!pi, lctx, xs, e, e0)
  {
    hide OpenedAs, ClosesTo, Scoped, Known, Inst, Same, Overridden;
    lctx, n, xs, e := lctx0, n0, [], e0;
    NothingOpened(pi, lctx, e0, binfo);
    while IsBinding(pi, e)
      invariant n == n0 + |xs| && FreshNames(xs, n0) && Scoped(e, Known(n))
      invariant forall y :: y in lctx0 && y !in xs ==> y in lctx && lctx[y] == lctx0[y]
      invariant OpenedAs(pi, lctx, xs, e, e0, binfo)
      decreases BinderDepth(e)
    {
      var x := FreshName(n);
      FreshSnoc(xs, n0);
      OpenScoped(e, n);
      BinderDepthInst(e.body, x);
      OpenOne(pi, lctx, xs, e, e0, binfo, x);
      lctx := lctx[x := LocalDecl(Declared(e.binder, binfo), e.domain, None)];
      xs := xs + [x];
      e := Inst(e.body, 0, [FVar(x)]);
      n := n + 1;
    }
    CloseOpened(pi, lctx, xs, e, e0, binfo);
    OverriddenSame(pi, e0, |xs|, binfo);
  }

  /** The number of leading binders. */
  function BinderDepth(e: Expr): nat {
    if e.Pi? || e.Lambda? then 1 + BinderDepth(e.body) else 0
  }

  lemma {:induction false} BinderDepthInst(e: Expr, x: Name)
    ensures BinderDepth(Inst(e, 0, [FVar(x)])) == BinderDepth(e)
  {
    BinderDepthAt(e, 0, x);
  }

  lemma {:induction false} BinderDepthAt(e: Expr, k: nat, x: Name)
    ensures BinderDepth(Inst(e, k, [FVar(x)])) == BinderDepth(e)
  {
    if e.Pi? || e.Lambda? { BinderDepthAt(e.body, k + 1, x); }
  }

  lemma {:induction false} NothingOpened(pi: bool, lctx: LocalCtx, e: Expr, info: Option<BinderInfo>)
    ensures OpenedAs(pi, lctx, [], e, e, info)
  {
    NoFVars(e, 0, []);
  }

  lemma {:induction false} CloseOpened(pi: bool, lctx: LocalCtx, xs: seq<Name>, e: Expr, e0: Expr, info: Option<BinderInfo>)
    requires OpenedAs(pi, lctx, xs, e, e0, info)
    ensures HasBinders(pi, e0, |xs|) && ClosesTo(!pi, lctx, xs, e, Overridden(pi, e0, |xs|, info))
  {
    var isLambda, r, closed := !pi, Abstract(e, 0, xs), Overridden(pi, e0, |xs|, info);
    forall removeDeadLet: bool ensures ClosesWith(isLambda, lctx, xs, e, removeDeadLet, closed) {
      assert BindsWith(pi, lctx, xs, e0, info, r, removeDeadLet);
    }
  }

  lemma {:induction false} OpenScoped(e: Expr, n: nat)
    requires (e.Pi? || e.Lambda?) && Scoped(e, Known(n))
    ensures Scoped(Inst(e.body, 0, [FVar(FreshName(n))]), Known(n + 1))
    ensures FreshName(n) !in FVars(e.body) && LooseRange(e.body) <= 1
  {
    FreshUnknown(n);
    KnownMono(n, n + 1);
    assert FVars(e.body) <= FVars(e);
    InstScoped(e.body, FVar(FreshName(n)), Known(n + 1));
  }

  lemma {:induction false} LastIndexSnoc(xs: seq<Name>, x: Name, y: Name)
    ensures LastIndex(xs + [x], y) == if y == x then Some(|xs|) else LastIndex(xs, y)
  {
    assert (xs + [x])[..|xs|] == xs;
  }

  /** Opening a body with a fresh variable and abstracting it along with `xs`. */
  lemma {:induction false} AbstractOpened(b: Expr, xs: seq<Name>, x: Name)
    requires x !in FVars(b) && x !in xs && LooseRange(b) <= 1
    ensures Abstract(Inst(b, 0, [FVar(x)]), 0, xs + [x]) == Abstract(b, 1, xs)
  {
    RangeLeaves(b, 0, 1, [x]);
    var ok := Avoiding(1, [x]);
    var p1, p2, q := Pass(0, InstLeaf([FVar(x)])), Pass(0, AbstractLeaf(xs + [x])), Pass(1, AbstractLeaf(xs));
    forall l, j: nat | Atomic(l) && ok(l, j) ensures Fuses(l, j, p1, p2, q) {
      AbstractOpenedAtom(l, j, xs, x);
    }
    MapFuse(b, ok, p1, p2, q);
  }

  lemma {:induction false} AbstractOpenedAtom(l: Expr, j: nat, xs: seq<Name>, x: Name)
    requires Atomic(l) && Avoiding(1, [x])(l, j) && x !in xs
    ensures Fuses(l, j, Pass(0, InstLeaf([FVar(x)])), Pass(0, AbstractLeaf(xs + [x])), Pass(1, AbstractLeaf(xs)))
  {
    LastIndexSnoc(xs, x, x);
    if l.FVar? {
      assert x in [x];
      LastIndexSnoc(xs, x, l.fvar);
    }
  }

  /** Declarations of other variables do not matter. */
  lemma {:induction false} CloseFromFrame(isLambda: bool, lctx: LocalCtx, lctx': LocalCtx, xs: seq<Name>, ys: seq<Name>, i: nat, r: Expr, removeDeadLet: bool)
    requires i <= |xs| && i <= |ys| && xs[..i] == ys[..i]
    requires forall k :: 0 <= k < i ==> (xs[k] in lctx <==> xs[k] in lctx') && (xs[k] in lctx ==> lctx[xs[k]] == lctx'[xs[k]])
    ensures CloseFrom(isLambda, lctx, xs, i, r, removeDeadLet) == CloseFrom(isLambda, lctx', ys, i, r, removeDeadLet)
  {
    if i > 0 {
      assert xs[i - 1] == xs[..i][i - 1] == ys[..i][i - 1] == ys[i - 1];
      assert xs[..i - 1] == xs[..i][..i - 1] == ys[..i][..i - 1] == ys[..i - 1];
      if xs[i - 1] in lctx {
        CloseFromFrame(isLambda, lctx, lctx', xs, ys, i - 1, CloseOne(isLambda, lctx[xs[i - 1]], xs[..i - 1], r, removeDeadLet), removeDeadLet);
      }
    }
  }

  /** One more binder is opened. */
  lemma {:induction false} OpenOne(pi: bool, lctx: LocalCtx, xs: seq<Name>, e: Expr, e0: Expr, info: Option<BinderInfo>, x: Name)
    requires IsBinding(pi, e) && OpenedAs(pi, lctx, xs, e, e0, info)
    requires x !in FVars(e.body) && x !in xs && LooseRange(e.body) <= 1
    ensures OpenedAs(pi, lctx[x := LocalDecl(Declared(e.binder, info), e.domain, None)], xs + [x], Inst(e.body, 0, [FVar(x)]), e0, info)
  {
    var decl := LocalDecl(Declared(e.binder, info), e.domain, None);
    var lctx', xs', n := lctx[x := decl], xs + [x], |xs|;
    var b := Below(pi, e0, n);
    AbstractOpened(e.body, xs, x);
    assert xs'[..n] == xs;
    BindersStep(pi, e0, n, info, e0);
    forall r, removeDeadLet: bool ensures BindsWith(pi, lctx', xs', e0, info, r, removeDeadLet) {
      assert CloseOne(!pi, decl, xs, r, removeDeadLet) == Rebind(b, info, r);
      CloseFromFrame(!pi, lctx, lctx', xs, xs', n, Rebind(b, info, r), removeDeadLet);
      assert BindsWith(pi, lctx, xs, e0, info, Rebind(b, info, r), removeDeadLet);
      BindersStep(pi, e0, n, info, r);
    }
  }

  // ---------------------------------------------------------------- eta

  function TryEta(e: Expr): Expr {
    if !e.Lambda? then e
    else if e.body.Lambda? then
      var newB := TryEta(e.body);
      if newB == e.body then e
      else if newB.App? && newB.arg == BVar(0) && !HasLoose(newB.fn, 0) then Lower(newB.fn, 1, 1)
      else Lambda(e.binder, e.domain, newB)
    else if e.body.App? && e.body.arg == BVar(0) && !HasLoose(e.body.fn, 0) then Lower(e.body.fn, 1, 1)
    else e
  }

  lemma {:induction false} EtaContracts(env: Environment, lets: Lets, e: Expr)
    requires e.Lambda? && e.body.App? && e.body.arg == BVar(0) && !HasLoose(e.body.fn, 0)
    ensures DefEq(env, lets, e, Lower(e.body.fn, 1, 1))
  {
    GapFreeOne(e.body.fn, 0, 0);
    LiftLower(e.body.fn, 0, 1);
    assert EtaStep(e, Lower(e.body.fn, 1, 1));
    ConvAxiom(StepRel(env, lets), e, Lower(e.body.fn, 1, 1));
  }

  /** Eta reduction stays within conversion. */
  lemma {:induction false} TryEtaConv(env: Environment, lets: Lets, e: Expr)
    ensures DefEq(env, lets, e, TryEta(e))
  {
    var R := StepRel(env, lets);
    ConvRefl(R, e, e);
    if e.Lambda? {
      if e.body.Lambda? {
        var newB := TryEta(e.body);
        var mid := Lambda(e.binder, e.domain, newB);
        TryEtaConv(env, lets, e.body);
        ConvRefl(R, e.domain, e.domain);
        ConvBinding(R, e, mid);
        if newB.App? && newB.arg == BVar(0) && !HasLoose(newB.fn, 0) {
          EtaContracts(env, lets, mid);
          ConvTrans(R, e, mid, Lower(newB.fn, 1, 1));
        }
      } else if e.body.App? && e.body.arg == BVar(0) && !HasLoose(e.body.fn, 0) {
        EtaContracts(env, lets, e);
      }
    }
  }

  /** `fun x1 .. xn => f x1 .. xn`, with these binders and domains. */
  function EtaExpanded(f: Expr, binders: seq<(Binder, Expr)>): Expr
    decreases |binders|
  {
    if binders == [] then f
    else Lambda(binders[0].0, binders[0].1, EtaExpanded(App(Lift(f, 0, 1), BVar(0)), binders[1..]))
  }

  lemma {:induction false} LiftedNotLoose(e: Expr, k: nat)
    ensures !HasLoose(Lift(e, k, 1), k)
  {
    match e
    case App(f, a) => LiftedNotLoose(f, k); LiftedNotLoose(a, k);
    case Lambda(_, t, b) => LiftedNotLoose(t, k); LiftedNotLoose(b, k + 1);
    case Pi(_, t, b) => LiftedNotLoose(t, k); LiftedNotLoose(b, k + 1);
    case Let(_, t, v, b, _) => LiftedNotLoose(t, k); LiftedNotLoose(v, k); LiftedNotLoose(b, k + 1);
    case MData(_, x) => LiftedNotLoose(x, k);
    case Proj(_, _, x) => LiftedNotLoose(x, k);
    case _ =>
  }

  /** Eta reduction undoes eta expansion, any number of arguments at once. */
  lemma {:induction false} TryEtaExpanded(f: Expr, binders: seq<(Binder, Expr)>)
    requires binders != []
    ensures TryEta(EtaExpanded(f, binders)) == f
    decreases |binders|
  {
    var g := App(Lift(f, 0, 1), BVar(0));
    LiftedNotLoose(f, 0);
    LowerLift(f, 0, 1);
    if |binders| > 1 { TryEtaExpanded(g, binders[1..]); }
  }

  // ---------------------------------------------------------------- types of applications

  /** `ensure_pi_core`: the identity on Pis; otherwise whatever reduction finds, or an error. */
  ghost predicate EnsuresPi(ensurePi: Expr -> Option<Expr>) {
    forall t: Expr :: (t.Pi? ==> ensurePi(t) == Some(t)) && (ensurePi(t).Some? ==> ensurePi(t).value.Pi?)
  }

  /** The type of an application, one argument and one Pi at a time. */
  function AppType(fType: Expr, args: seq<Expr>, ensurePi: Expr -> Option<Expr>): Option<Expr>
    decreases |args|
  {
    if args == [] then Some(fType)
    else
      var pi := ensurePi(fType);
      if pi.None? || !pi.value.Pi? then None
      else AppType(Inst(pi.value.body, 0, [args[0]]), args[1..], ensurePi)
  }

  /** `infer_app` without checks: Pis are stripped first and instantiated in batches. */
  method InferApp(fType0: Expr, args: seq<Expr>, ensurePi: Expr -> Option<Expr>) returns (r: Option<Expr>)
    requires EnsuresPi(ensurePi)
    ensures r == AppType(fType0, args, ensurePi)
  {
    var fType: Expr, j: nat := fType0, 0;
    InstRevNone(fType0);
    assert args[0..0] == [] && args[0..] == args;
    for i := 0 to |args|
      invariant j <= i
      invariant AppType(fType0, args, ensurePi) == AppType(InstRev(fType, args[j..i]), args[i..], ensurePi)
    {
      ghost var t := InstRev(fType, args[j..i]);
      assert args[i..][0] == args[i] && args[i..][1..] == args[i + 1..];
      if fType.Pi? {
        BindingFacts.InstRevBinding(fType, args[j..i]);
        BindingFacts.InstRevSnoc(fType.body, args[j..i], args[i]);
        assert args[j..i] + [args[i]] == args[j..i + 1];
        assert ensurePi(t) == Some(t);
        fType := fType.body;
      } else {
        fType := InstRev(fType, args[j..i]);
        var pi := ensurePi(fType);
        if pi.None? {
          return None;
        }
        fType := pi.value.body;
        j := i;
        assert args[i..i + 1] == [args[i]];
        assert Reverse([args[i]]) == [args[i]];
      }
    }
    assert args[|args|..] == [] && args[j..] == args[j..|args|];
    r := Some(InstRev(fType, args[j..]));
  }

  lemma {:induction false} InstRevNone(e: Expr)
    ensures InstRev(e, []) == e
  {
    InstNothing(e, 0);
    assert Reverse<Expr>([]) == [];
  }
}
