/** One step of comparing two telescopes binder by binder (`is_def_eq_binding`). */
module BindingFacts {
  import opened Names
  import opened Prelude
  import opened Exprs
  import opened DeBruijn
  import opened ExprFacts
  import opened Congruence
  import opened Conversion
  import opened ConversionFacts
  import opened CheckerState
  import opened HeadPaths

  /** `e` may refer to `m` enclosing binders and to known variables. */
  ghost predicate Under(e: Expr, m: nat, known: iset<Name>) {
    LooseRange(e) <= m && forall x :: x in FVars(e) ==> x in known
  }

  ghost predicate AllScoped(us: seq<Expr>, known: iset<Name>) {
    forall i :: 0 <= i < |us| ==> Scoped(us[i], known)
  }

  lemma {:induction false} FVarsAllScoped(us: seq<Expr>, known: iset<Name>)
    requires AllScoped(us, known)
    ensures forall x :: x in FVarsAll(us) ==> x in known
  {
  }

  lemma {:induction false} InstRevScoped(e: Expr, us: seq<Expr>, known: iset<Name>)
    requires Under(e, |us|, known) && AllScoped(us, known)
    ensures Scoped(InstRev(e, us), known)
  {
    var r := Reverse(us);
    InstRange(e, r, 0);
    InstFVars(e, 0, r);
    FVarsAllScoped(r, known);
  }

  lemma {:induction false} InstOneMoreScoped(e: Expr, us: seq<Expr>, known: iset<Name>, x: Name)
    requires Under(e, |us| + 1, known) && AllScoped(us, known) && x !in known
    ensures x !in FVars(Inst(e, 1, Reverse(us)))
  {
    InstFVars(e, 1, Reverse(us));
    FVarsAllScoped(Reverse(us), known);
  }

  /** Opening one more binder is instantiating the already opened body. */
  lemma {:induction false} InstRevSnoc(b: Expr, us: seq<Expr>, u: Expr)
    ensures InstRev(b, us + [u]) == Inst(Inst(b, 1, Reverse(us)), 0, [u])
  {
    InstSplit(b, 0, [u], Reverse(us));
    assert Reverse(us + [u]) == [u] + Reverse(us);
  }

  lemma {:induction false} InstRevSame(t: Expr, s: Expr, us: seq<Expr>)
    requires Same(t, s)
    ensures Same(InstRev(t, us), InstRev(s, us))
  {
    EraseInst(t, 0, Reverse(us));
    EraseInst(s, 0, Reverse(us));
  }

  lemma {:induction false} InstRevBinding(t: Expr, us: seq<Expr>)
    requires t.Lambda? || t.Pi?
    ensures (InstRev(t, us).Lambda? <==> t.Lambda?) && (InstRev(t, us).Pi? <==> t.Pi?)
    ensures InstRev(t, us).domain == InstRev(t.domain, us)
    ensures InstRev(t, us).body == Inst(t.body, 1, Reverse(us))
  {
  }

  ghost predicate SameBinder(t: Expr, s: Expr) {
    (t.Lambda? && s.Lambda?) || (t.Pi? && s.Pi?)
  }

  /** A fresh variable for the binder: equal opened bodies make equal bindings. */
  lemma {:induction false} FreshBinderStep(env: Environment, lets: Lets, sigma: Lets, n: nat,
      t: Expr, s: Expr, us: seq<Expr>, x: Name)
    requires EnvOk(env) && LetsOk(env, lets, sigma, n) && SameBinder(t, s)
    requires Under(t, |us|, Known(n)) && Under(s, |us|, Known(n)) && AllScoped(us, Known(n)) && x !in Known(n)
    requires DefEq(env, lets, InstRev(t.domain, us), InstRev(s.domain, us))
    requires DefEq(env, lets, InstRev(t.body, us + [FVar(x)]), InstRev(s.body, us + [FVar(x)]))
    ensures DefEq(env, lets, InstRev(t, us), InstRev(s, us))
  {
    InstRevSnoc(t.body, us, FVar(x));
    InstRevSnoc(s.body, us, FVar(x));
    InstOneMoreScoped(t.body, us, Known(n), x);
    InstOneMoreScoped(s.body, us, Known(n), x);
    BinderDefEq(env, lets, sigma, Inst(t.body, 1, Reverse(us)), Inst(s.body, 1, Reverse(us)), x);
    InstRevBinding(t, us);
    InstRevBinding(s, us);
    ConvBinding(StepRel(env, lets), InstRev(t, us), InstRev(s, us));
  }

  /** Bodies without loose indices need no variable: any term may stand in for it. */
  lemma {:induction false} UnusedBinderStep(env: Environment, lets: Lets, t: Expr, s: Expr, us: seq<Expr>, u: Expr)
    requires SameBinder(t, s) && LooseRange(t.body) == 0 && LooseRange(s.body) == 0
    requires DefEq(env, lets, InstRev(t.domain, us), InstRev(s.domain, us))
    requires DefEq(env, lets, InstRev(t.body, us + [u]), InstRev(s.body, us + [u]))
    ensures DefEq(env, lets, InstRev(t, us), InstRev(s, us))
  {
    NoLoose(t.body, 0, 0, Reverse(us + [u]));
    NoLoose(s.body, 0, 0, Reverse(us + [u]));
    NoLoose(t.body, 1, 0, Reverse(us));
    NoLoose(s.body, 1, 0, Reverse(us));
    InstRevBinding(t, us);
    InstRevBinding(s, us);
    ConvBinding(StepRel(env, lets), InstRev(t, us), InstRev(s, us));
  }

  lemma {:induction false} UnderMono(e: Expr, m: nat, i: nat, j: nat)
    requires i <= j && Under(e, m, Known(i))
    ensures Under(e, m, Known(j))
  {
    KnownMono(i, j);
  }

  lemma {:induction false} AllScopedMono(us: seq<Expr>, i: nat, j: nat)
    requires i <= j && AllScoped(us, Known(i))
    ensures AllScoped(us, Known(j))
  {
    KnownMono(i, j);
  }
}
