/** What an auxiliary type is for: applied to the parameters it has the type that the nested
    occurrence it stands for has, and so have its constructors (kernel/inductive.cpp, lines 903-1030). */
module NestedTyped {
  import opened Names
  import opened Prelude
  import opened Exprs
  import opened DeBruijn
  import opened ExprFacts
  import opened Congruence
  import opened Conversion
  import opened CheckerState
  import opened HeadPaths
  import opened ReplaceFn
  import opened NestedTerms
  import opened NestedSpec
  import opened NestedInverse
  import opened NestedElim
  import L = Levels

  /** Where a constructor type is being rewritten: its declared parameters. */
  datatype Place = Place(lctx: LocalCtx, xs: seq<Name>, typ: Expr)

  ghost predicate PlaceOk(p: Place, np: nat, params: seq<Name>) {
    && |p.xs| == np && HasPis(p.typ, np) && Clean(p.typ) && Declares(p.lctx, p.xs, p.typ, np)
    && Distinct(p.xs) && Apart(p.xs, params)
  }

  /** `r` is `t` at the levels `us` and the parameters `ds`, bound over the parameters of the place. */
  ghost predicate CopyOf(r: Expr, t: Expr, lparams: seq<Name>, us: seq<L.Level>, ds: seq<Expr>, p: Place) {
    exists keep :: CopyWith(r, t, lparams, us, keep, ds, p)
  }

  ghost predicate CopyWith(r: Expr, t: Expr, lparams: seq<Name>, us: seq<L.Level>, keep: L.Level -> bool, ds: seq<Expr>, p: Place) {
    var t1 := InstLParams(t, lparams, us, keep);
    HasPis(t1, |ds|) && HasPis(p.typ, |p.xs|) && r == WithBody(p.typ, |p.xs|, Abstract(InstPis(t1, ds), 0, p.xs))
  }

  lemma {:induction false} CopyIntro(r: Expr, t: Expr, lparams: seq<Name>, us: seq<L.Level>, keep: L.Level -> bool, ds: seq<Expr>, p: Place)
    requires CopyWith(r, t, lparams, us, keep, ds, p)
    ensures CopyOf(r, t, lparams, us, ds, p)
  {
  }

  ghost predicate CtorCopy(env: Env, j: Name, us: seq<L.Level>, ds: seq<Expr>, p: Place, aux: Name, i: nat, c: Ctor)
    requires j in env && env[j].Inductive? && i < |env[j].ctors|
  {
    var n := env[j].ctors[i];
    n in env && env[n].Constructor? && c.name == ReplacePrefix(n, j, aux) && CopyOf(c.typ, env[n].typ, env[n].lparams, us, ds, p)
  }

  /** `t` is the copy of the inductive type `j` for the parameters `ds`. */
  ghost predicate TypeCopy(env: Env, j: Name, us: seq<L.Level>, ds: seq<Expr>, p: Place, t: IndType) {
    && j in env && env[j].Inductive? && CopyOf(t.typ, env[j].typ, env[j].lparams, us, ds, p)
    && |t.ctors| == |env[j].ctors|
    && forall i :: 0 <= i < |t.ctors| ==> CtorCopy(env, j, us, ds, p, t.name, i, t.ctors[i])
  }

  // ---------------------------------------------------------------- types at parameters

  /** At the parameters `ps` the type `t` is what `t0` is at the levels `us` and the parameters `ds`. */
  ghost predicate Specialises(t: Expr, ps: seq<Expr>, t0: Expr, lparams: seq<Name>, us: seq<L.Level>, ds: seq<Expr>) {
    exists keep :: SpecialisesWith(t, ps, t0, lparams, us, keep, ds)
  }

  ghost predicate SpecialisesWith(t: Expr, ps: seq<Expr>, t0: Expr, lparams: seq<Name>, us: seq<L.Level>, keep: L.Level -> bool, ds: seq<Expr>) {
    var t1 := InstLParams(t0, lparams, us, keep);
    HasPis(t, |ps|) && HasPis(t1, |ds|) && Same(InstPis(t, ps), InstPis(t1, ds))
  }

  ghost predicate CtorTypedAt(env: Env, j: Name, us: seq<L.Level>, ds: seq<Expr>, ps: seq<Expr>, aux: Name, i: nat, c: Ctor)
    requires j in env && env[j].Inductive? && i < |env[j].ctors|
  {
    var n := env[j].ctors[i];
    && n in env && env[n].Constructor? && c.name == ReplacePrefix(n, j, aux)
    && Specialises(c.typ, ps, env[n].typ, env[n].lparams, us, ds)
  }

  /** At the parameters `ps` the type `t` and its constructors are what the inductive type `j` and
      its constructors are at `us` and `ds`. */
  ghost predicate TypedAt(env: Env, j: Name, us: seq<L.Level>, ds: seq<Expr>, ps: seq<Expr>, t: IndType) {
    && j in env && env[j].Inductive? && Specialises(t.typ, ps, env[j].typ, env[j].lparams, us, ds)
    && |t.ctors| == |env[j].ctors|
    && forall i :: 0 <= i < |t.ctors| ==> CtorTypedAt(env, j, us, ds, ps, t.name, i, t.ctors[i])
  }

  /** Closed types, here and in the environment. */
  ghost predicate TypesClosed(env: Env, j: Name, t: IndType) {
    && j in env && env[j].Inductive? && FVars(env[j].typ) == {} && LooseRange(env[j].typ) == 0
    && FVars(t.typ) == {} && (forall c :: c in t.ctors ==> FVars(c.typ) == {})
    && forall n :: n in env[j].ctors && n in env && env[n].Constructor? ==> FVars(env[n].typ) == {} && LooseRange(env[n].typ) == 0
  }

  /** The type queued for a table entry. */
  ghost predicate EntryTyped(env: Env, ps: seq<Name>, entry: (Expr, Name), t: IndType) {
    var f := AppFn(entry.0);
    && t.name == entry.1 && f.Const? && TypesClosed(env, f.name, t)
    && TypedAt(env, f.name, f.levels, AppArgs(entry.0), MkFVars(ps), t)
  }

  /** From the `n`-th on the queued types belong to the entries of the table, one to one. */
  ghost predicate AllTyped(env: Env, ps: seq<Name>, tbl: Table, types: seq<IndType>, n: nat) {
    |types| == n + |tbl| && forall i :: 0 <= i < |tbl| ==> EntryTyped(env, ps, tbl[i], types[n + i])
  }

  // ---------------------------------------------------------------- renaming and instantiating

  lemma {:induction false} RenameLift(e: Expr, d: nat, xs: seq<Name>, ys: seq<Name>)
    requires |xs| == |ys|
    ensures Rename(Lift(e, 0, d), xs, ys) == Lift(Rename(e, xs, ys), 0, d)
  {
    AlwaysLeaves(e, 0);
    var p1, p2 := Pass(0, LiftLeaf(d)), Pass(0, RenameLeaf(xs, ys));
    forall l, j: nat | Atomic(l) ensures Agree(l, j, p1, p2, p2, p1) { }
    MapCommute(e, Always(), p1, p2, p2, p1);
  }

  lemma {:induction false} RenameInst(e: Expr, us: seq<Expr>, xs: seq<Name>, ys: seq<Name>)
    requires |xs| == |ys|
    ensures Rename(Inst(e, 0, us), xs, ys) == Inst(Rename(e, xs, ys), 0, RenameAll(us, xs, ys))
  {
    AlwaysLeaves(e, 0);
    var p1, p2 := Pass(0, InstLeaf(us)), Pass(0, RenameLeaf(xs, ys));
    var q2 := Pass(0, InstLeaf(RenameAll(us, xs, ys)));
    forall l, j: nat | Atomic(l) ensures Agree(l, j, p1, p2, p2, q2) { RenameInstAtom(l, j, us, xs, ys); }
    MapCommute(e, Always(), p1, p2, p2, q2);
  }

  lemma {:induction false} RenameInstAtom(l: Expr, j: nat, us: seq<Expr>, xs: seq<Name>, ys: seq<Name>)
    requires |xs| == |ys| && Atomic(l)
    ensures Agree(l, j, Pass(0, InstLeaf(us)), Pass(0, RenameLeaf(xs, ys)), Pass(0, RenameLeaf(xs, ys)), Pass(0, InstLeaf(RenameAll(us, xs, ys))))
  {
    if l.BVar? && j <= l.idx < j + |us| {
      RenameDepth(Lift(us[l.idx - j], 0, j), j, xs, ys);
      RenameLift(us[l.idx - j], j, xs, ys);
    }
  }

  lemma {:induction false} RenameClosed(e: Expr, xs: seq<Name>, ys: seq<Name>)
    requires |xs| == |ys| && forall x :: x in xs ==> x !in FVars(e)
    ensures Rename(e, xs, ys) == e
  {
    RangeLeaves(e, 0, LooseRange(e), xs);
    MapFixes(e, Avoiding(LooseRange(e), xs), Pass(0, RenameLeaf(xs, ys)));
  }

  lemma {:induction false} RenameReverse(us: seq<Expr>, xs: seq<Name>, ys: seq<Name>)
    requires |xs| == |ys|
    ensures RenameAll(Reverse(us), xs, ys) == Reverse(RenameAll(us, xs, ys))
  {
  }

  /** Renaming the arguments of a closed type. */
  lemma {:induction false} RenameInstPis(t: Expr, ds: seq<Expr>, xs: seq<Name>, ys: seq<Name>)
    requires |xs| == |ys| && HasPis(t, |ds|) && FVars(t) == {}
    ensures Rename(InstPis(t, ds), xs, ys) == InstPis(t, RenameAll(ds, xs, ys))
  {
    var b := PiBody(t, |ds|);
    PiBodyFacts(t, |ds|, LooseRange(t));
    RenameInst(b, Reverse(ds), xs, ys);
    RenameClosed(b, xs, ys);
    RenameReverse(ds, xs, ys);
  }

  lemma {:induction false} SameInstPis(t: Expr, ds: seq<Expr>, es: seq<Expr>)
    requires |ds| == |es| && HasPis(t, |ds|) && forall i :: 0 <= i < |ds| ==> Same(ds[i], es[i])
    ensures Same(InstPis(t, ds), InstPis(t, es))
  {
    var b := PiBody(t, |ds|);
    EraseInst(b, 0, Reverse(ds));
    EraseInst(b, 0, Reverse(es));
    assert EraseAll(Reverse(ds)) == EraseAll(Reverse(es));
  }

  lemma {:induction false} RenameSame(a: Expr, b: Expr, xs: seq<Name>, ys: seq<Name>)
    requires |xs| == |ys| && Same(a, b)
    ensures Same(Rename(a, xs, ys), Rename(b, xs, ys))
  {
    SameMap(a, b, 0, RenameLeaf(xs, ys));
  }

  // ---------------------------------------------------------------- the copy made for an entry

  /** A copy made at a place, seen over the parameters of the declaration. */
  lemma {:induction false} CopySpecialises(r: Expr, t: Expr, lparams: seq<Name>, us: seq<L.Level>, ds: seq<Expr>, p: Place, ps: seq<Name>)
    requires CopyOf(r, t, lparams, us, ds, p) && |p.xs| == |ps| && HasPis(t, |ds|) && Clean(t) && ParamsOk(ds, p.xs)
    ensures Specialises(r, MkFVars(ps), t, lparams, us, RenameAll(ds, p.xs, ps))
  {
    var keep :| CopyWith(r, t, lparams, us, keep, ds, p);
    var t1 := InstLParams(t, lparams, us, keep);
    InstLParamsClean(t, lparams, us, keep, |ds|);
    var b := InstPis(t1, ds);
    InstPisFacts(t1, ds, p.xs);
    WithBodyLaws(p.typ, |ps|, Abstract(b, 0, p.xs), b);
    ReopenIsRename(b, p.xs, ps);
    RenameInstPis(t1, ds, p.xs, ps);
    assert SpecialisesWith(r, MkFVars(ps), t, lparams, us, keep, RenameAll(ds, p.xs, ps));
  }

  lemma {:induction false} CopyTyped(env: Env, j: Name, us: seq<L.Level>, ds: seq<Expr>, p: Place, ps: seq<Name>, t: IndType)
    requires TypeCopy(env, j, us, ds, p, t) && MemberOk(env, |ds|, j) && |p.xs| == |ps| && ParamsOk(ds, p.xs)
    ensures TypedAt(env, j, us, RenameAll(ds, p.xs, ps), MkFVars(ps), t)
  {
    hide CopyOf, Specialises, ParamsOk;
    CopySpecialises(t.typ, env[j].typ, env[j].lparams, us, ds, p, ps);
    forall i | 0 <= i < |t.ctors| ensures CtorTypedAt(env, j, us, RenameAll(ds, p.xs, ps), MkFVars(ps), t.name, i, t.ctors[i]) {
      assert CtorCopy(env, j, us, ds, p, t.name, i, t.ctors[i]);
      var n := env[j].ctors[i];
      assert CtorOk(env, j, |ds|, n);
      CopySpecialises(t.ctors[i].typ, env[n].typ, env[n].lparams, us, ds, p, ps);
    }
  }

  lemma {:induction false} MemberClosed(env: Env, np: nat, j: Name, t: IndType)
    requires MemberOk(env, np, j) && Clean(t.typ) && forall c :: c in t.ctors ==> Clean(c.typ)
    ensures TypesClosed(env, j, t)
  {
    forall n | n in env[j].ctors && n in env && env[n].Constructor? ensures FVars(env[n].typ) == {} && LooseRange(env[n].typ) == 0 {
      assert CtorOk(env, j, np, n);
    }
  }

  /** The entry for a copy and the copy. */
  lemma {:induction false} CopyEntry(env: Env, j: Name, us: seq<L.Level>, ds: seq<Expr>, p: Place, ps: seq<Name>, t: IndType)
    requires TypeCopy(env, j, us, ds, p, t) && MemberOk(env, |ds|, j) && |p.xs| == |ps| && ParamsOk(ds, p.xs)
    requires Clean(t.typ) && forall c :: c in t.ctors ==> Clean(c.typ)
    ensures EntryTyped(env, ps, (Rename(MkApp(Const(j, us), ds), p.xs, ps), t.name), t)
  {
    hide TypeCopy, MemberOk, TypedAt, TypesClosed, ParamsOk, Clean;
    CopyTyped(env, j, us, ds, p, ps, t);
    MemberClosed(env, |ds|, j, t);
    RenameApp(Const(j, us), ds, p.xs, ps);
    SpineOfMkApp(Const(j, us), RenameAll(ds, p.xs, ps));
    assert [] + RenameAll(ds, p.xs, ps) == RenameAll(ds, p.xs, ps);
  }

  lemma {:induction false} TypedSnoc(env: Env, ps: seq<Name>, tbl: Table, types: seq<IndType>, n: nat, entry: (Expr, Name), t: IndType)
    requires AllTyped(env, ps, tbl, types, n) && EntryTyped(env, ps, entry, t)
    ensures AllTyped(env, ps, tbl + [entry], types + [t], n)
  {
    hide EntryTyped;
  }

  // ---------------------------------------------------------------- the occurrence it stands for

  /** The same at another place, where the arguments are the entry's up to binder names. */
  lemma {:induction false} Moved(t: Expr, t0: Expr, lparams: seq<Name>, us: seq<L.Level>, ds: seq<Expr>, ps: seq<Name>, xs: seq<Name>, es: seq<Expr>)
    requires Specialises(t, MkFVars(ps), t0, lparams, us, ds) && FVars(t) == {} && FVars(t0) == {} && LooseRange(t0) == 0
    requires |xs| == |ps| && Distinct(ps) && |es| == |ds| && forall i :: 0 <= i < |ds| ==> Same(Rename(ds[i], ps, xs), es[i])
    ensures Specialises(t, MkFVars(xs), t0, lparams, us, es)
  {
    var keep :| SpecialisesWith(t, MkFVars(ps), t0, lparams, us, keep, ds);
    var t1 := InstLParams(t0, lparams, us, keep);
    InstLParamsScope(t0, lparams, us, keep);
    RenameSame(InstPis(t, MkFVars(ps)), InstPis(t1, ds), ps, xs);
    RenameInstPis(t, MkFVars(ps), ps, xs);
    RenameVars(ps, xs);
    RenameInstPis(t1, ds, ps, xs);
    SameInstPis(t1, RenameAll(ds, ps, xs), es);
    assert SpecialisesWith(t, MkFVars(xs), t0, lparams, us, keep, es);
  }

  lemma {:induction false} MovedType(env: Env, j: Name, us: seq<L.Level>, ds: seq<Expr>, ps: seq<Name>, t: IndType, xs: seq<Name>, es: seq<Expr>)
    requires TypedAt(env, j, us, ds, MkFVars(ps), t) && TypesClosed(env, j, t)
    requires |xs| == |ps| && Distinct(ps) && |es| == |ds| && forall i :: 0 <= i < |ds| ==> Same(Rename(ds[i], ps, xs), es[i])
    ensures TypedAt(env, j, us, es, MkFVars(xs), t)
  {
    hide Specialises, Same;
    Moved(t.typ, env[j].typ, env[j].lparams, us, ds, ps, xs, es);
    forall i | 0 <= i < |t.ctors| ensures CtorTypedAt(env, j, us, es, MkFVars(xs), t.name, i, t.ctors[i]) {
      assert CtorTypedAt(env, j, us, ds, MkFVars(ps), t.name, i, t.ctors[i]);
      var n := env[j].ctors[i];
      assert n in env[j].ctors && t.ctors[i] in t.ctors;
      Moved(t.ctors[i].typ, env[n].typ, env[n].lparams, us, ds, ps, xs, es);
    }
  }

  /** `r` applies the type `t`, at the levels of the declaration, to `np` parameters and to the
      indices of the occurrence `e`; at these parameters `t` and its constructors have the types
      that the inductive type of `e` and its constructors have at the parameters of `e`. */
  ghost predicate RetypedBy(env: Env, lvls: seq<L.Level>, np: nat, t: IndType, e: Expr, r: Expr) {
    && InductiveApp(env, e) && AppFn(r) == Const(t.name, lvls) && np <= |AppArgs(r)| && AppArgs(r)[np..] == IndexArgs(env, e)
    && TypedAt(env, AppFn(e).name, AppFn(e).levels, ParamArgs(env, e), AppArgs(r)[..np], t)
  }

  ghost predicate Retyped(env: Env, lvls: seq<L.Level>, np: nat, types: seq<IndType>, e: Expr, r: Expr) {
    exists q :: 0 <= q < |types| && RetypedBy(env, lvls, np, types[q], e, r)
  }

  lemma {:induction false} SpineOfOccurrence(env: Env, e: Expr)
    requires InductiveApp(env, e)
    ensures AppFn(Applied(env, e)) == AppFn(e) && AppArgs(Applied(env, e)) == ParamArgs(env, e)
  {
    SpineOfMkApp(AppFn(e), ParamArgs(env, e));
    assert [] + ParamArgs(env, e) == ParamArgs(env, e);
  }

  lemma {:induction false} RenamedSpine(e: Expr, xs: seq<Name>, ys: seq<Name>)
    requires |xs| == |ys| && AppFn(e).Const?
    ensures AppFn(Rename(e, xs, ys)) == AppFn(e) && AppArgs(Rename(e, xs, ys)) == RenameAll(AppArgs(e), xs, ys)
  {
    AppSpine(e);
    RenameApp(AppFn(e), AppArgs(e), xs, ys);
    SpineOfMkApp(AppFn(e), RenameAll(AppArgs(e), xs, ys));
    assert [] + RenameAll(AppArgs(e), xs, ys) == RenameAll(AppArgs(e), xs, ys);
  }

  /** The entry found for an occurrence has its arguments, up to binder names. */
  lemma {:induction false} FoundArgs(st: Setting, tbl: Table, xs: seq<Name>, e: Expr, i: nat)
    requires TableOk(st, tbl) && |xs| == |st.ps| && Distinct(xs) && Distinct(st.ps) && Apart(xs, st.ps)
    requires InductiveApp(st.env, e) && Find(tbl, Key(st, xs, e)) == Some(i) && forall p :: p in st.ps ==> p !in FVars(e)
    requires AppFn(tbl[i].0).Const?
    ensures AppFn(tbl[i].0) == AppFn(e) && |AppArgs(tbl[i].0)| == |ParamArgs(st.env, e)|
    ensures forall k :: 0 <= k < |AppArgs(tbl[i].0)| ==> Same(Rename(AppArgs(tbl[i].0)[k], st.ps, xs), ParamArgs(st.env, e)[k])
  {
    var entry := tbl[i].0;
    EntryAgainstKey(st, tbl, xs, e);
    SameHead(Rename(entry, st.ps, xs), Applied(st.env, e));
    RenamedSpine(entry, st.ps, xs);
    SpineOfOccurrence(st.env, e);
  }

  /** Every occurrence that the table has an entry for is replaced by an application of its type. */
  lemma {:induction false} OccurrenceTyped(st: Setting, tbl: Table, types: seq<IndType>, n: nat, xs: seq<Name>, e: Expr)
    requires TableOk(st, tbl) && AllTyped(st.env, st.ps, tbl, types, n)
    requires |xs| == |st.ps| && Distinct(xs) && Distinct(st.ps) && Apart(xs, st.ps)
    requires InductiveApp(st.env, e) && Find(tbl, Key(st, xs, e)).Some? && forall p :: p in st.ps ==> p !in FVars(e)
    ensures Retyped(st.env, st.lvls, |xs|, types, e, MkApp(AuxHead(st, tbl, xs)(Find(tbl, Key(st, xs, e)).value), IndexArgs(st.env, e)))
  {
    hide TableOk, TypedAt, TypesClosed, Find, Same;
    var i := Find(tbl, Key(st, xs, e)).value;
    FindBound(tbl, Key(st, xs, e));
    assert EntryTyped(st.env, st.ps, tbl[i], types[n + i]);
    FoundArgs(st, tbl, xs, e, i);
    var f, t := AppFn(e), types[n + i];
    MovedType(st.env, f.name, f.levels, AppArgs(tbl[i].0), st.ps, t, xs, ParamArgs(st.env, e));
    AuxSpine(t.name, st.lvls, xs, IndexArgs(st.env, e));
    assert RetypedBy(st.env, st.lvls, |xs|, t, e, MkApp(AuxHead(st, tbl, xs)(i), IndexArgs(st.env, e)));
  }

  lemma {:induction false} FindBound(tbl: Table, key: Expr)
    requires Find(tbl, key).Some?
    ensures Find(tbl, key).value < |tbl|
  {
  }

  lemma {:induction false} AuxSpine(aux: Name, lvls: seq<L.Level>, xs: seq<Name>, rest: seq<Expr>)
    ensures var r := MkApp(MkApp(Const(aux, lvls), MkFVars(xs)), rest);
      AppFn(r) == Const(aux, lvls) && AppArgs(r) == MkFVars(xs) + rest
      && AppArgs(r)[..|xs|] == MkFVars(xs) && AppArgs(r)[|xs|..] == rest
  {
    var f := MkApp(Const(aux, lvls), MkFVars(xs));
    SpineOfMkApp(Const(aux, lvls), MkFVars(xs));
    SpineOfMkApp(f, rest);
    assert [] + MkFVars(xs) == MkFVars(xs);
  }

  // ---------------------------------------------------------------- whole constructor types

  /** `r` is `e` with every outermost nested occurrence replaced by an application of a queued type
      that has its type. */
  ghost predicate Rewritten(st: Setting, types: seq<IndType>, e: Expr, r: Expr) {
    if Nested(st.env, st.own, e) then Retyped(st.env, st.lvls, |st.ps|, types, e, r)
    else match e
      case App(f, a) => r.App? && Rewritten(st, types, f, r.fn) && Rewritten(st, types, a, r.arg)
      case Lambda(n, t, b) => r.Lambda? && r.binder == n && Rewritten(st, types, t, r.domain) && Rewritten(st, types, b, r.body)
      case Pi(n, t, b) => r.Pi? && r.binder == n && Rewritten(st, types, t, r.domain) && Rewritten(st, types, b, r.body)
      case Let(n, t, v, b, nd) =>
        && r.Let? && r.letName == n && r.nondep == nd && Rewritten(st, types, t, r.letType)
        && Rewritten(st, types, v, r.letValue) && Rewritten(st, types, b, r.letBody)
      case MData(m, x) => r.MData? && r.data == m && Rewritten(st, types, x, r.inner)
      case Proj(n, i, x) => r.Proj? && r.sname == n && r.pidx == i && Rewritten(st, types, x, r.struct)
      case _ => r == e
  }

  lemma {:induction false} ReplacedRewritten(st: Setting, tbl: Table, types: seq<IndType>, n: nat, xs: seq<Name>, e: Expr, k: nat)
    requires TableOk(st, tbl) && AllTyped(st.env, st.ps, tbl, types, n)
    requires |xs| == |st.ps| && Distinct(xs) && Distinct(st.ps) && Apart(xs, st.ps)
    requires Covered(st, tbl, xs, e) && forall p :: p in st.ps ==> p !in FVars(e)
    ensures Rewritten(st, types, e, Replaced(e, k, NestedCallback(st, tbl, xs, AuxHead(st, tbl, xs))))
  {
    hide TableOk, AllTyped, MkApp, Key, AnyMentions, InductiveApp, AppFn, AppArgs, Retyped, AuxHead;
    if Nested(st.env, st.own, e) {
      OccurrenceTyped(st, tbl, types, n, xs, e);
    } else {
      match e
      case App(f, a) =>
        ReplacedRewritten(st, tbl, types, n, xs, f, k); ReplacedRewritten(st, tbl, types, n, xs, a, k);
      case Lambda(_, t, b) =>
        ReplacedRewritten(st, tbl, types, n, xs, t, k); ReplacedRewritten(st, tbl, types, n, xs, b, k + 1);
      case Pi(_, t, b) =>
        ReplacedRewritten(st, tbl, types, n, xs, t, k); ReplacedRewritten(st, tbl, types, n, xs, b, k + 1);
      case Let(_, t, v, b, _) =>
        ReplacedRewritten(st, tbl, types, n, xs, t, k); ReplacedRewritten(st, tbl, types, n, xs, v, k);
        ReplacedRewritten(st, tbl, types, n, xs, b, k + 1);
      case MData(_, x) => ReplacedRewritten(st, tbl, types, n, xs, x, k);
      case Proj(_, _, x) => ReplacedRewritten(st, tbl, types, n, xs, x, k);
      case _ =>
    }
  }

  /** Below parameters opened as distinct new variables `r` is `t` rewritten. */
  ghost predicate CtorRewrittenOver(st: Setting, types: seq<IndType>, xs: seq<Name>, t: Expr, b: Expr, r: Expr) {
    && |xs| == |st.ps| && HasPis(t, |xs|) && Distinct(xs) && Apart(xs, st.ps)
    && Rewritten(st, types, Opened(t, xs), b) && r == WithBody(t, |xs|, Abstract(b, 0, xs))
  }

  ghost predicate CtorRewritten(st: Setting, types: seq<IndType>, t: Expr, r: Expr) {
    exists xs, b :: CtorRewrittenOver(st, types, xs, t, b, r)
  }

  lemma {:induction false} ElimTypeRewritten(st: Setting, tbl: Table, types: seq<IndType>, n: nat, xs: seq<Name>, t: Expr, r: Expr)
    requires TableOk(st, tbl) && AllTyped(st.env, st.ps, tbl, types, n) && Distinct(st.ps)
    requires ElimType(st, tbl, xs, t, r) && Clean(t)
    ensures CtorRewritten(st, types, t, r)
  {
    hide TableOk, AllTyped, Covered, Rewritten, NestedCallback;
    var e := Opened(t, xs);
    OpenedFacts(t, xs);
    ReplacedRewritten(st, tbl, types, n, xs, e, 0);
    assert CtorRewrittenOver(st, types, xs, t, Eliminated(st, tbl, xs, e), r);
  }
}
