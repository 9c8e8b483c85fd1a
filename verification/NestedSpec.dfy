/** Eliminating nested occurrences of inductive types against a table of auxiliary types, and
    restoring them: what the two passes compute and how they undo each other
    (kernel/inductive.cpp, lines 792-870 and 903-1030). */
module NestedSpec {
  import opened Names
  import opened Prelude
  import opened Exprs
  import opened DeBruijn
  import opened ExprFacts
  import opened Congruence
  import opened ReplaceFn
  import opened NestedTerms
  import L = Levels

  datatype ConstInfo =
    | Inductive(typ: Expr, lparams: seq<Name>, nparams: nat, all: seq<Name>, ctors: seq<Name>)
    | Constructor(typ: Expr, lparams: seq<Name>)
    | Other

  type Env = map<Name, ConstInfo>

  /** Nested types (over the parameters `ps`) with the names of their auxiliary copies. */
  type Table = seq<(Expr, Name)>

  /** What stays fixed during elimination: the environment, the names of the types declared, the
      universe levels of the declaration and the variables that stand for its parameters. */
  datatype Setting = Setting(env: Env, own: set<Name>, lvls: seq<L.Level>, ps: seq<Name>)

  // ---------------------------------------------------------------- nested occurrences

  /** Some constant of `e` is in `names`. */
  predicate Mentions(e: Expr, names: set<Name>) {
    match e
    case Const(n, _) => n in names
    case App(f, a) => Mentions(f, names) || Mentions(a, names)
    case Lambda(_, t, b) => Mentions(t, names) || Mentions(b, names)
    case Pi(_, t, b) => Mentions(t, names) || Mentions(b, names)
    case Let(_, t, v, b, _) => Mentions(t, names) || Mentions(v, names) || Mentions(b, names)
    case MData(_, x) => Mentions(x, names)
    case Proj(_, _, x) => Mentions(x, names)
    case _ => false
  }

  predicate AnyMentions(us: seq<Expr>, names: set<Name>) {
    exists u :: u in us && Mentions(u, names)
  }

  predicate AnyLoose(us: seq<Expr>) {
    exists u :: u in us && LooseRange(u) > 0
  }

  /** An application of an inductive type to at least its parameters. */
  predicate InductiveApp(env: Env, e: Expr) {
    && e.App? && AppFn(e).Const? && AppFn(e).name in env && env[AppFn(e).name].Inductive?
    && env[AppFn(e).name].nparams <= |AppArgs(e)|
  }

  function ParamArgs(env: Env, e: Expr): seq<Expr>
    requires InductiveApp(env, e)
  {
    AppArgs(e)[..env[AppFn(e).name].nparams]
  }

  function IndexArgs(env: Env, e: Expr): seq<Expr>
    requires InductiveApp(env, e)
  {
    AppArgs(e)[env[AppFn(e).name].nparams..]
  }

  /** `I Ds`. */
  function Applied(env: Env, e: Expr): Expr
    requires InductiveApp(env, e)
  {
    MkApp(AppFn(e), ParamArgs(env, e))
  }

  /** A parameter mentions one of the types `names`. */
  predicate Nested(env: Env, names: set<Name>, e: Expr) {
    InductiveApp(env, e) && AnyMentions(ParamArgs(env, e), names)
  }

  /** The first entry that the kernel considers equal to `key`. */
  function Find(tbl: Table, key: Expr): (r: Option<nat>)
    ensures r.Some? ==> r.value < |tbl| && Same(tbl[r.value].0, key)
    ensures r.None? ==> forall i :: 0 <= i < |tbl| ==> !Same(tbl[i].0, key)
  {
    if tbl == [] then None
    else if Same(tbl[0].0, key) then Some(0)
    else match Find(tbl[1..], key)
      case Some(i) => Some(i + 1)
      case None => None
  }

  lemma {:induction false} FindPrefix(tbl: Table, more: Table, key: Expr)
    requires Find(tbl, key).Some?
    ensures Find(tbl + more, key) == Find(tbl, key)
  {
    assert (tbl + more)[0] == tbl[0];
    if !Same(tbl[0].0, key) {
      assert (tbl + more)[1..] == tbl[1..] + more;
      FindPrefix(tbl[1..], more, key);
    }
  }

  lemma {:induction false} FindAppended(tbl: Table, key: Expr, name: Name)
    requires Find(tbl, key).None?
    ensures Find(tbl + [(key, name)], key) == Some(|tbl|)
  {
    if tbl == [] {
      assert (tbl + [(key, name)])[0] == (key, name);
    } else {
      assert (tbl + [(key, name)])[0] == tbl[0];
      assert (tbl + [(key, name)])[1..] == tbl[1..] + [(key, name)];
      FindAppended(tbl[1..], key, name);
    }
  }

  /** The nested type of an occurrence, over the parameters `ps` instead of `xs`. */
  function Key(st: Setting, xs: seq<Name>, e: Expr): Expr
    requires InductiveApp(st.env, e) && |xs| == |st.ps|
  {
    Rename(Applied(st.env, e), xs, st.ps)
  }

  // ---------------------------------------------------------------- replacing them

  /** Replace every outermost nested occurrence `I Ds is` found in the table at `i` by `head(i) is`. */
  function NestedCallback(st: Setting, tbl: Table, xs: seq<Name>, head: nat -> Expr): Callback
    requires |xs| == |st.ps|
  {
    (e: Expr, offset: nat) =>
      if Nested(st.env, st.own, e) && Find(tbl, Key(st, xs, e)).Some? then
        Some(MkApp(head(Find(tbl, Key(st, xs, e)).value), IndexArgs(st.env, e)))
      else None
  }

  /** The auxiliary type applied to the parameters. */
  function AuxHead(st: Setting, tbl: Table, xs: seq<Name>): nat -> Expr {
    (i: nat) => if i < |tbl| then MkApp(Const(tbl[i].1, st.lvls), MkFVars(xs)) else Const([], [])
  }

  /** The entry itself, over `xs` again. */
  function EntryHead(st: Setting, tbl: Table, xs: seq<Name>): nat -> Expr
    requires |xs| == |st.ps|
  {
    (i: nat) => if i < |tbl| then Rename(tbl[i].0, st.ps, xs) else Const([], [])
  }

  /** `replace_all_nested` against a fixed table. */
  function Eliminated(st: Setting, tbl: Table, xs: seq<Name>, e: Expr): Expr
    requires |xs| == |st.ps|
  {
    Replaced(e, 0, NestedCallback(st, tbl, xs, AuxHead(st, tbl, xs)))
  }

  /** `e` with every nested occurrence replaced by the entry it was found equal to: the same term
      up to binder names. */
  function Canonical(st: Setting, tbl: Table, xs: seq<Name>, e: Expr): Expr
    requires |xs| == |st.ps|
  {
    Replaced(e, 0, NestedCallback(st, tbl, xs, EntryHead(st, tbl, xs)))
  }

  /** Every nested occurrence is in the table and has parameters without loose indices. */
  ghost predicate Covered(st: Setting, tbl: Table, xs: seq<Name>, e: Expr)
    requires |xs| == |st.ps|
  {
    if Nested(st.env, st.own, e) then
      !AnyLoose(ParamArgs(st.env, e)) && Find(tbl, Key(st, xs, e)).Some?
    else match e
      case App(f, a) => Covered(st, tbl, xs, f) && Covered(st, tbl, xs, a)
      case Lambda(_, t, b) => Covered(st, tbl, xs, t) && Covered(st, tbl, xs, b)
      case Pi(_, t, b) => Covered(st, tbl, xs, t) && Covered(st, tbl, xs, b)
      case Let(_, t, v, b, _) => Covered(st, tbl, xs, t) && Covered(st, tbl, xs, v) && Covered(st, tbl, xs, b)
      case MData(_, x) => Covered(st, tbl, xs, x)
      case Proj(_, _, x) => Covered(st, tbl, xs, x)
      case _ => true
  }

  /** Every nested occurrence has exactly the binder names of the entry it is found equal to. */
  ghost predicate Exact(st: Setting, tbl: Table, xs: seq<Name>, e: Expr)
    requires |xs| == |st.ps| && Covered(st, tbl, xs, e)
  {
    if Nested(st.env, st.own, e) then
      tbl[Find(tbl, Key(st, xs, e)).value].0 == Key(st, xs, e)
    else match e
      case App(f, a) => Exact(st, tbl, xs, f) && Exact(st, tbl, xs, a)
      case Lambda(_, t, b) => Exact(st, tbl, xs, t) && Exact(st, tbl, xs, b)
      case Pi(_, t, b) => Exact(st, tbl, xs, t) && Exact(st, tbl, xs, b)
      case Let(_, t, v, b, _) => Exact(st, tbl, xs, t) && Exact(st, tbl, xs, v) && Exact(st, tbl, xs, b)
      case MData(_, x) => Exact(st, tbl, xs, x)
      case Proj(_, _, x) => Exact(st, tbl, xs, x)
      case _ => true
  }

  /** No nested occurrence that the traversal meets has a parameter with a loose index. */
  ghost predicate NoLooseParams(st: Setting, e: Expr) {
    if Nested(st.env, st.own, e) then !AnyLoose(ParamArgs(st.env, e))
    else match e
      case App(f, a) => NoLooseParams(st, f) && NoLooseParams(st, a)
      case Lambda(_, t, b) => NoLooseParams(st, t) && NoLooseParams(st, b)
      case Pi(_, t, b) => NoLooseParams(st, t) && NoLooseParams(st, b)
      case Let(_, t, v, b, _) => NoLooseParams(st, t) && NoLooseParams(st, v) && NoLooseParams(st, b)
      case MData(_, x) => NoLooseParams(st, x)
      case Proj(_, _, x) => NoLooseParams(st, x)
      case _ => true
  }

  /** A larger table replaces covered terms in the same way. */
  lemma {:induction false} TableGrows(st: Setting, tbl: Table, more: Table, xs: seq<Name>, e: Expr, k: nat)
    requires |xs| == |st.ps| && Covered(st, tbl, xs, e)
    ensures Covered(st, tbl + more, xs, e)
    ensures Replaced(e, k, NestedCallback(st, tbl + more, xs, AuxHead(st, tbl + more, xs)))
         == Replaced(e, k, NestedCallback(st, tbl, xs, AuxHead(st, tbl, xs)))
  {
    if Nested(st.env, st.own, e) {
      FindPrefix(tbl, more, Key(st, xs, e));
      assert (tbl + more)[Find(tbl, Key(st, xs, e)).value] == tbl[Find(tbl, Key(st, xs, e)).value];
    } else {
      match e
      case App(f, a) => TableGrows(st, tbl, more, xs, f, k); TableGrows(st, tbl, more, xs, a, k);
      case Lambda(_, t, b) => TableGrows(st, tbl, more, xs, t, k); TableGrows(st, tbl, more, xs, b, k + 1);
      case Pi(_, t, b) => TableGrows(st, tbl, more, xs, t, k); TableGrows(st, tbl, more, xs, b, k + 1);
      case Let(_, t, v, b, _) =>
        TableGrows(st, tbl, more, xs, t, k); TableGrows(st, tbl, more, xs, v, k); TableGrows(st, tbl, more, xs, b, k + 1);
      case MData(_, x) => TableGrows(st, tbl, more, xs, x, k);
      case Proj(_, _, x) => TableGrows(st, tbl, more, xs, x, k);
      case _ =>
    }
  }
}
