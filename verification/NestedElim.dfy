/** Eliminating nested inductive types from a mutual declaration (kernel/inductive.cpp, lines
    879-1074): auxiliary types are added to a queue while constructor types are rewritten. */
module NestedElim {
  import opened Names
  import opened Prelude
  import opened Exprs
  import opened DeBruijn
  import opened ExprFacts
  import opened Conversion
  import opened CheckerState
  import opened HeadPaths
  import opened Telescope
  import opened ReplaceFn
  import opened NestedTerms
  import opened NestedSpec
  import opened NestedInverse
  import L = Levels

  datatype Ctor = Ctor(name: Name, typ: Expr)

  datatype IndType = IndType(name: Name, typ: Expr, ctors: seq<Ctor>)

  // ---------------------------------------------------------------- the environment

  ghost predicate CtorOk(env: Env, j: Name, np: nat, c: Name) {
    j <= c && c in env && env[c].Constructor? && HasPis(env[c].typ, np) && Clean(env[c].typ)
  }

  ghost predicate MemberOk(env: Env, np: nat, j: Name) {
    && !Reserved(j) && j in env && env[j].Inductive? && HasPis(env[j].typ, np) && Clean(env[j].typ)
    && forall c :: c in env[j].ctors ==> CtorOk(env, j, np, c)
  }

  ghost predicate TypeOk(env: Env, i: Name) {
    i in env && (env[i].Inductive? ==>
      && i in env[i].all && Distinct(env[i].all)
      && forall j :: j in env[i].all ==> MemberOk(env, env[i].nparams, j) && env[j].all == env[i].all)
  }

  /** Declared types are closed and have their parameters, constructors are named after their
      types, no declared type has a generated name, and types declared together know each other. */
  ghost predicate EnvOk(env: Env) {
    forall i :: i in env ==> TypeOk(env, i)
  }

  // ---------------------------------------------------------------- instantiated copies

  /** `t` with `ds` for its first Pis. */
  function InstPis(t: Expr, ds: seq<Expr>): Expr
    requires HasPis(t, |ds|)
  {
    InstRev(PiBody(t, |ds|), ds)
  }

  method InstantiatePiParams(t: Expr, ds: seq<Expr>) returns (r: Option<Expr>)
    ensures r.Some? <==> HasPis(t, |ds|)
    ensures r.Some? ==> r.value == InstPis(t, ds)
  {
    var e := t;
    for i := 0 to |ds|
      invariant HasPis(t, i) && e == PiBody(t, i)
    {
      HasPisStep(t, i);
      if !e.Pi? {
        if HasPis(t, |ds|) { HasPisMono(t, i + 1, |ds|); }
        return None;
      }
      e := e.body;
    }
    r := Some(InstRev(e, ds));
  }

  lemma {:induction false} MapPis(t: Expr, k: nat, f: (Expr, nat) -> Expr, n: nat)
    requires HasPis(t, n)
    ensures HasPis(Map(t, k, f), n)
  {
    if n > 0 { MapPis(t.body, k + 1, f, n - 1); }
  }

  lemma {:induction false} InstLParamsClean(t: Expr, ps: seq<Name>, us: seq<L.Level>, keep: L.Level -> bool, n: nat)
    requires Clean(t) && HasPis(t, n)
    ensures Clean(InstLParams(t, ps, us, keep)) && HasPis(InstLParams(t, ps, us, keep), n)
  {
    var f := LParamLeaf(ps, us, keep);
    InstLParamsScope(t, ps, us, keep);
    forall l, j: nat | Atomic(l) ensures LeafPlain(f, l, j) { }
    MapPlain(t, 0, f);
    MapPis(t, 0, f, n);
  }

  /** The parameters of an occurrence inside a constructor type over `xs`. */
  ghost predicate ParamsOk(ds: seq<Expr>, xs: seq<Name>) {
    forall d :: d in ds ==> LooseRange(d) == 0 && Plain(d) && VarsFrom(d, xs)
  }

  ghost predicate VarsFrom(e: Expr, xs: seq<Name>) {
    forall x :: x in FVars(e) ==> x in xs
  }

  lemma {:induction false} InstPisFacts(t: Expr, ds: seq<Expr>, xs: seq<Name>)
    requires Clean(t) && HasPis(t, |ds|) && ParamsOk(ds, xs)
    ensures LooseRange(InstPis(t, ds)) == 0 && Plain(InstPis(t, ds)) && VarsFrom(InstPis(t, ds), xs)
  {
    var b, us := PiBody(t, |ds|), Reverse(ds);
    PiBodyFacts(t, |ds|, 0);
    assert forall i :: 0 <= i < |us| ==> us[i] in ds;
    InstRange(b, us, 0);
    InstPlain(b, us);
    InstFVars(b, 0, us);
    forall x | x in FVars(InstPis(t, ds)) ensures x in xs {
      var u :| u in us && x in FVars(u);
    }
  }

  /** Binding a body over the parameters of a clean type gives a clean type. */
  lemma {:induction false} CloseClean(t: Expr, xs: seq<Name>, e: Expr)
    requires HasPis(t, |xs|) && Clean(t) && LooseRange(e) == 0 && Plain(e) && VarsFrom(e, xs)
    ensures Clean(WithBody(t, |xs|, Abstract(e, 0, xs)))
  {
    AbstractRange(e, 0, xs, 0);
    AbstractPlain(e, xs);
    AbstractRemoves(e, 0, xs);
    assert FVars(Abstract(e, 0, xs)) == {};
    WithBodyFacts(t, |xs|, Abstract(e, 0, xs), 0);
  }

  // ---------------------------------------------------------------- the growing state

  ghost predicate Made(n: Name, bound: nat) {
    exists b, k: nat :: MadeAt(n, b, k, bound)
  }

  ghost predicate MadeAt(n: Name, b: Name, k: nat, bound: nat) {
    k < bound && n == AppendAfter(b, k)
  }

  ghost predicate AllMade(tbl: Table, bound: nat) {
    forall i :: 0 <= i < |tbl| ==> Made(tbl[i].1, bound)
  }

  function TypeNames(types: seq<IndType>): set<Name> {
    set t | t in types :: t.name
  }

  /** Types to process: clean types and constructor types; constructors of generated types have
      generated names. */
  ghost predicate SourceOk(t: IndType) {
    Clean(t.typ) && forall c :: c in t.ctors ==> Clean(c.typ) && (Reserved(t.name) ==> Reserved(c.name))
  }

  ghost predicate SourcesOk(types: seq<IndType>) {
    forall t :: t in types ==> SourceOk(t)
  }

  /** Beside the declared types only generated ones are added. */
  ghost predicate NamesOk(own: set<Name>, types: seq<IndType>) {
    own <= TypeNames(types) && forall n :: n in TypeNames(types) ==> n in own || Reserved(n)
  }

  /** New types for the same names may replace the old ones. */
  lemma {:induction false} MentionsOwn(e: Expr, own: set<Name>, types: seq<IndType>)
    requires Plain(e) && NamesOk(own, types)
    ensures Mentions(e, TypeNames(types)) <==> Mentions(e, own)
  {
    match e
    case App(f, a) => MentionsOwn(f, own, types); MentionsOwn(a, own, types);
    case Lambda(_, t, b) => MentionsOwn(t, own, types); MentionsOwn(b, own, types);
    case Pi(_, t, b) => MentionsOwn(t, own, types); MentionsOwn(b, own, types);
    case Let(_, t, v, b, _) => MentionsOwn(t, own, types); MentionsOwn(v, own, types); MentionsOwn(b, own, types);
    case MData(_, x) => MentionsOwn(x, own, types);
    case Proj(_, _, x) => MentionsOwn(x, own, types);
    case _ =>
  }

  lemma {:induction false} NameIsNew(tbl: Table, bound: nat, b: Name, k: nat)
    requires AllMade(tbl, bound) && bound <= k && DistinctNames(tbl)
    ensures forall i :: 0 <= i < |tbl| ==> tbl[i].1 != AppendAfter(b, k)
  {
    forall i | 0 <= i < |tbl| ensures tbl[i].1 != AppendAfter(b, k) {
      assert Made(tbl[i].1, bound);
      var c, j: nat :| MadeAt(tbl[i].1, c, j, bound);
      if tbl[i].1 == AppendAfter(b, k) { AppendAfterInjective(c, j, b, k); }
    }
  }

  lemma {:induction false} AllMadeMono(tbl: Table, m: nat, n: nat)
    requires AllMade(tbl, m) && m <= n
    ensures AllMade(tbl, n)
  {
    forall i | 0 <= i < |tbl| ensures Made(tbl[i].1, n) {
      assert Made(tbl[i].1, m);
      var b, k: nat :| MadeAt(tbl[i].1, b, k, m);
      assert MadeAt(tbl[i].1, b, k, n);
    }
  }

  /** Adding the entry for one more type. */
  lemma {:induction false} TableSnoc(st: Setting, tbl: Table, bound: nat, entry: (Expr, Name), b: Name, k: nat)
    requires TableOk(st, tbl) && AllMade(tbl, bound) && bound <= k && NestedEntry(st, entry) && entry.1 == AppendAfter(b, k)
    ensures TableOk(st, tbl + [entry]) && AllMade(tbl + [entry], k + 1)
  {
    var r := tbl + [entry];
    NameIsNew(tbl, bound, b, k);
    AllMadeMono(tbl, bound, k + 1);
    assert MadeAt(entry.1, b, k, k + 1);
    forall i | 0 <= i < |r| ensures NestedEntry(st, r[i]) && Made(r[i].1, k + 1) {
      if i < |tbl| { assert r[i] == tbl[i] && NestedEntry(st, tbl[i]) && Made(tbl[i].1, k + 1); }
    }
  }
}
