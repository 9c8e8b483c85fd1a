/** Restoring nested inductive types undoes their elimination (kernel/inductive.cpp, lines 792-870). */
module NestedInverse {
  import opened Names
  import opened Prelude
  import opened Exprs
  import opened DeBruijn
  import opened ExprFacts
  import opened Congruence
  import opened CheckerState
  import opened HeadPaths
  import opened Telescope
  import opened ReplaceFn
  import opened NestedTerms
  import opened NestedSpec
  import L = Levels

  // ---------------------------------------------------------------- restoring

  /** What `restore_nested` knows: the nested type of each auxiliary type, the inductive type of
      each constructor of the auxiliary environment, and new names for auxiliary recursors. */
  datatype Restoration = Restoration(nested: map<Name, Expr>, ctors: map<Name, Name>, recs: map<Name, Name>)

  /** The entry with its parameters replaced by `ys`. */
  function Reopen(e: Expr, ps: seq<Name>, ys: seq<Name>): Expr {
    InstRev(Abstract(e, 0, ps), MkFVars(ys))
  }

  function ConstName(e: Expr): Name {
    if e.Const? then e.name else []
  }

  function ConstLevels(e: Expr): seq<L.Level> {
    if e.Const? then e.levels else []
  }

  function AfterParams(args: seq<Expr>, n: nat): seq<Expr> {
    if n <= |args| then args[n..] else []
  }

  predicate AuxCtor(rs: Restoration, n: Name) {
    n in rs.ctors && rs.ctors[n] in rs.nested
  }

  /** A constructor `Iaux.c` of an auxiliary type becomes the constructor `I.c` with the
      parameters of the nested type. */
  function RestoredCtor(rs: Restoration, n: Name, ps: seq<Name>, ys: seq<Name>): Expr
    requires AuxCtor(rs, n)
  {
    var nested := Reopen(rs.nested[rs.ctors[n]], ps, ys);
    var i := AppFn(nested);
    MkApp(Const(ReplacePrefix(n, rs.ctors[n], ConstName(i)), ConstLevels(i)), AppArgs(nested))
  }

  function RestoreCallback(rs: Restoration, ps: seq<Name>, ys: seq<Name>): Callback {
    (t: Expr, offset: nat) =>
      if t.Const? && t.name in rs.recs then Some(Const(rs.recs[t.name], t.levels))
      else
        var fn := AppFn(t);
        if fn.Const? && fn.name in rs.nested then
          Some(MkApp(Reopen(rs.nested[fn.name], ps, ys), AfterParams(AppArgs(t), |ps|)))
        else if fn.Const? && AuxCtor(rs, fn.name) then
          Some(MkApp(RestoredCtor(rs, fn.name, ps, ys), AfterParams(AppArgs(t), |ps|)))
        else None
  }

  /** `m_aux2nested`, filled entry by entry. */
  function AuxMap(tbl: Table): map<Name, Expr> {
    if tbl == [] then map[]
    else AuxMap(tbl[..|tbl| - 1])[tbl[|tbl| - 1].1 := tbl[|tbl| - 1].0]
  }

  // ---------------------------------------------------------------- the table

  /** An entry is a closed term over the parameters that mentions no generated type. */
  ghost predicate NestedEntry(st: Setting, entry: (Expr, Name)) {
    && LooseRange(entry.0) == 0 && (forall x :: x in FVars(entry.0) ==> x in st.ps)
    && Plain(entry.0) && Reserved(entry.1)
  }

  ghost predicate DistinctNames(tbl: Table) {
    forall i, j :: 0 <= i < j < |tbl| ==> tbl[i].1 != tbl[j].1
  }

  ghost predicate TableOk(st: Setting, tbl: Table) {
    DistinctNames(tbl) && forall i :: 0 <= i < |tbl| ==> NestedEntry(st, tbl[i])
  }

  lemma {:induction false} AuxMapLookup(tbl: Table, i: nat)
    requires DistinctNames(tbl) && i < |tbl|
    ensures tbl[i].1 in AuxMap(tbl) && AuxMap(tbl)[tbl[i].1] == tbl[i].0
  {
    var n := |tbl| - 1;
    if i < n {
      AuxMapLookup(tbl[..n], i);
      assert tbl[..n][i] == tbl[i];
    }
  }

  lemma {:induction false} AuxMapReserved(st: Setting, tbl: Table, n: Name)
    requires TableOk(st, tbl) && n in AuxMap(tbl)
    ensures Reserved(n)
  {
    var k := |tbl| - 1;
    assert NestedEntry(st, tbl[k]);
    if n != tbl[k].1 {
      assert forall i :: 0 <= i < k ==> tbl[..k][i] == tbl[i];
      AuxMapReserved(st, tbl[..k], n);
    }
  }

  /** The restoration that belongs to a table: constructors of auxiliary types have generated
      names; types of constructors are restored without renaming recursors. */
  ghost predicate Matches(rs: Restoration, tbl: Table) {
    && rs.nested == AuxMap(tbl) && rs.recs == map[]
    && forall n :: AuxCtor(rs, n) ==> Reserved(n)
  }

  // ---------------------------------------------------------------- heads

  ghost predicate HeadPlain(t: Expr) {
    AppFn(t).Const? ==> !Reserved(AppFn(t).name)
  }

  /** A part of a spine is nested only if the whole spine is. */
  lemma {:induction false} NestedPrefix(env: Env, names: set<Name>, e: Expr)
    requires e.App? && Nested(env, names, e.fn)
    ensures Nested(env, names, e)
  {
    assert ParamArgs(env, e) == ParamArgs(env, e.fn);
  }

  /** Where nothing is replaced at the top, no generated name comes to the head. */
  lemma {:induction false} HeadKept(st: Setting, tbl: Table, xs: seq<Name>, e: Expr, k: nat)
    requires |xs| == |st.ps| && Plain(e) && !Nested(st.env, st.own, e)
    ensures HeadPlain(Replaced(e, k, NestedCallback(st, tbl, xs, AuxHead(st, tbl, xs))))
  {
    if e.App? {
      if Nested(st.env, st.own, e.fn) { NestedPrefix(st.env, st.own, e); }
      HeadKept(st, tbl, xs, e.fn, k);
    }
  }

  lemma {:induction false} RenameHead(t: Expr, k: nat, xs: seq<Name>, ys: seq<Name>)
    requires |xs| == |ys| && HeadPlain(t)
    ensures HeadPlain(Map(t, k, RenameLeaf(xs, ys)))
  {
    if t.App? { RenameHead(t.fn, k, xs, ys); }
  }

  lemma {:induction false} NotRestored(st: Setting, tbl: Table, rs: Restoration, ys: seq<Name>, t: Expr, k: nat)
    requires TableOk(st, tbl) && Matches(rs, tbl) && HeadPlain(t)
    ensures RestoreCallback(rs, st.ps, ys)(t, k).None?
  {
    var fn := AppFn(t);
    if fn.Const? && fn.name in rs.nested { AuxMapReserved(st, tbl, fn.name); }
  }

  // ---------------------------------------------------------------- one nested occurrence

  lemma {:induction false} RenameVars(xs: seq<Name>, ys: seq<Name>)
    requires |xs| == |ys| && Distinct(xs)
    ensures RenameAll(MkFVars(xs), xs, ys) == MkFVars(ys)
  {
    forall i | 0 <= i < |xs| ensures Rename(FVar(xs[i]), xs, ys) == FVar(ys[i]) { DistinctLastIndex(xs, i); }
  }

  ghost predicate Apart(xs: seq<Name>, ys: seq<Name>) {
    forall x :: x in xs ==> x !in ys
  }

  lemma {:induction false} EntryRenamed(st: Setting, tbl: Table, i: nat, xs: seq<Name>, ys: seq<Name>)
    requires TableOk(st, tbl) && i < |tbl| && |xs| == |ys| == |st.ps| && Distinct(xs) && Apart(xs, st.ps)
    ensures Reopen(tbl[i].0, st.ps, ys) == Rename(Rename(tbl[i].0, st.ps, xs), xs, ys)
  {
    assert NestedEntry(st, tbl[i]);
    ReopenIsRename(tbl[i].0, st.ps, ys);
    RenameRename(tbl[i].0, st.ps, xs, ys);
  }

  lemma {:induction false} RestoreOne(st: Setting, tbl: Table, rs: Restoration, xs: seq<Name>, ys: seq<Name>, i: nat, rest: seq<Expr>, k: nat)
    requires TableOk(st, tbl) && Matches(rs, tbl) && i < |tbl|
    requires |xs| == |ys| == |st.ps| && Distinct(xs) && Apart(xs, st.ps)
    ensures RestoreCallback(rs, st.ps, ys)(Rename(MkApp(AuxHead(st, tbl, xs)(i), rest), xs, ys), k)
         == Some(Rename(MkApp(EntryHead(st, tbl, xs)(i), rest), xs, ys))
  {
    var c, rest' := Const(tbl[i].1, st.lvls), RenameAll(rest, xs, ys);
    var t := MkApp(MkApp(c, MkFVars(ys)), rest');
    RenameApp(MkApp(c, MkFVars(xs)), rest, xs, ys);
    RenameApp(c, MkFVars(xs), xs, ys);
    RenameVars(xs, ys);
    SpineOfMkApp(c, MkFVars(ys));
    SpineOfMkApp(MkApp(c, MkFVars(ys)), rest');
    assert AppFn(t) == c && AppArgs(t) == [] + MkFVars(ys) + rest';
    assert AppArgs(t)[|st.ps|..] == rest';
    AuxMapLookup(tbl, i);
    EntryRenamed(st, tbl, i, xs, ys);
    RenameApp(Rename(tbl[i].0, st.ps, xs), rest, xs, ys);
  }

  // ---------------------------------------------------------------- whole terms

  /** Restoring the eliminated term, with the parameters renamed on the way, gives its canonical
      form. */
  lemma {:induction false} RestoreEliminated(st: Setting, tbl: Table, rs: Restoration, xs: seq<Name>, ys: seq<Name>, e: Expr, k: nat)
    requires TableOk(st, tbl) && Matches(rs, tbl)
    requires |xs| == |ys| == |st.ps| && Distinct(xs) && Apart(xs, st.ps)
    requires Plain(e) && Covered(st, tbl, xs, e)
    ensures Replaced(Map(Replaced(e, k, NestedCallback(st, tbl, xs, AuxHead(st, tbl, xs))), k, RenameLeaf(xs, ys)), k,
                     RestoreCallback(rs, st.ps, ys))
         == Map(Replaced(e, k, NestedCallback(st, tbl, xs, EntryHead(st, tbl, xs))), k, RenameLeaf(xs, ys))
  {
    hide TableOk, Matches, RestoreCallback, MkApp;
    var elim := NestedCallback(st, tbl, xs, AuxHead(st, tbl, xs));
    var r := Replaced(e, k, elim);
    var t := Map(r, k, RenameLeaf(xs, ys));
    if Nested(st.env, st.own, e) {
      NestedRestored(st, tbl, rs, xs, ys, e, k);
    } else {
      HeadKept(st, tbl, xs, e, k);
      RenameHead(r, k, xs, ys);
      NotRestored(st, tbl, rs, ys, t, k);
      match e
      case App(f, a) => RestoreEliminated(st, tbl, rs, xs, ys, f, k); RestoreEliminated(st, tbl, rs, xs, ys, a, k);
      case Lambda(_, d, b) => RestoreEliminated(st, tbl, rs, xs, ys, d, k); RestoreEliminated(st, tbl, rs, xs, ys, b, k + 1);
      case Pi(_, d, b) => RestoreEliminated(st, tbl, rs, xs, ys, d, k); RestoreEliminated(st, tbl, rs, xs, ys, b, k + 1);
      case Let(_, d, v, b, _) =>
        RestoreEliminated(st, tbl, rs, xs, ys, d, k);
        RestoreEliminated(st, tbl, rs, xs, ys, v, k);
        RestoreEliminated(st, tbl, rs, xs, ys, b, k + 1);
      case MData(_, x) => RestoreEliminated(st, tbl, rs, xs, ys, x, k);
      case Proj(_, _, x) => RestoreEliminated(st, tbl, rs, xs, ys, x, k);
      case _ =>
    }
  }

  lemma {:induction false} NestedRestored(st: Setting, tbl: Table, rs: Restoration, xs: seq<Name>, ys: seq<Name>, e: Expr, k: nat)
    requires TableOk(st, tbl) && Matches(rs, tbl) && |xs| == |ys| == |st.ps| && Distinct(xs) && Apart(xs, st.ps)
    requires Nested(st.env, st.own, e) && Covered(st, tbl, xs, e)
    ensures Replaced(Map(Replaced(e, k, NestedCallback(st, tbl, xs, AuxHead(st, tbl, xs))), k, RenameLeaf(xs, ys)), k,
                     RestoreCallback(rs, st.ps, ys))
         == Map(Replaced(e, k, NestedCallback(st, tbl, xs, EntryHead(st, tbl, xs))), k, RenameLeaf(xs, ys))
  {
    hide TableOk, Matches, RestoreCallback, MkApp;
    var i, rest := Find(tbl, Key(st, xs, e)).value, IndexArgs(st.env, e);
    var r, c := MkApp(AuxHead(st, tbl, xs)(i), rest), MkApp(EntryHead(st, tbl, xs)(i), rest);
    assert Replaced(e, k, NestedCallback(st, tbl, xs, AuxHead(st, tbl, xs))) == r;
    assert Replaced(e, k, NestedCallback(st, tbl, xs, EntryHead(st, tbl, xs))) == c;
    RenameDepth(r, k, xs, ys);
    RenameDepth(c, k, xs, ys);
    RestoreOne(st, tbl, rs, xs, ys, i, rest, k);
  }

  // ---------------------------------------------------------------- the canonical form

  lemma {:induction false} AppRange(f: Expr, args: seq<Expr>, n: nat)
    requires LooseRange(f) <= n && forall a :: a in args ==> LooseRange(a) <= n
    ensures LooseRange(MkApp(f, args)) <= n
    decreases |args|
  {
    if args != [] { AppRange(f, args[..|args| - 1], n); }
  }

  lemma {:induction false} ArgsBounded(e: Expr)
    ensures forall a :: a in AppArgs(e) ==> LooseRange(a) <= LooseRange(e) && FVars(a) <= FVars(e)
    ensures LooseRange(AppFn(e)) <= LooseRange(e) && FVars(AppFn(e)) <= FVars(e)
  {
    if e.App? { ArgsBounded(e.fn); }
  }

  ghost predicate ClosedHeads(tbl: Table, head: nat -> Expr) {
    forall i :: 0 <= i < |tbl| ==> LooseRange(head(i)) == 0
  }

  lemma {:induction false} HeadsClosed(st: Setting, tbl: Table, xs: seq<Name>)
    requires TableOk(st, tbl) && |xs| == |st.ps|
    ensures ClosedHeads(tbl, AuxHead(st, tbl, xs)) && ClosedHeads(tbl, EntryHead(st, tbl, xs))
  {
    forall i | 0 <= i < |tbl| ensures LooseRange(AuxHead(st, tbl, xs)(i)) == 0 {
      AppRange(Const(tbl[i].1, st.lvls), MkFVars(xs), 0);
    }
    forall i | 0 <= i < |tbl| ensures LooseRange(EntryHead(st, tbl, xs)(i)) == 0 {
      assert NestedEntry(st, tbl[i]);
      RenameKeeps(tbl[i].0, st.ps, xs);
    }
  }

  /** Replacing occurrences by closed heads adds no loose index. */
  lemma {:induction false} RangeKept(st: Setting, tbl: Table, xs: seq<Name>, head: nat -> Expr, e: Expr, k: nat, n: nat)
    requires |xs| == |st.ps| && ClosedHeads(tbl, head) && LooseRange(e) <= n
    ensures LooseRange(Replaced(e, k, NestedCallback(st, tbl, xs, head))) <= n
  {
    hide MkApp, Key, AnyMentions, InductiveApp;
    if Nested(st.env, st.own, e) && Find(tbl, Key(st, xs, e)).Some? {
      ArgsBounded(e);
      AppRange(head(Find(tbl, Key(st, xs, e)).value), IndexArgs(st.env, e), n);
    } else {
      match e
      case App(f, a) => RangeKept(st, tbl, xs, head, f, k, n); RangeKept(st, tbl, xs, head, a, k, n);
      case Lambda(_, t, b) => RangeKept(st, tbl, xs, head, t, k, n); RangeKept(st, tbl, xs, head, b, k + 1, n + 1);
      case Pi(_, t, b) => RangeKept(st, tbl, xs, head, t, k, n); RangeKept(st, tbl, xs, head, b, k + 1, n + 1);
      case Let(_, t, v, b, _) =>
        RangeKept(st, tbl, xs, head, t, k, n); RangeKept(st, tbl, xs, head, v, k, n); RangeKept(st, tbl, xs, head, b, k + 1, n + 1);
      case MData(_, x) => RangeKept(st, tbl, xs, head, x, k, n);
      case Proj(_, _, x) => RangeKept(st, tbl, xs, head, x, k, n);
      case _ =>
    }
  }

  ghost predicate VarsIn(e: Expr, s: set<Name>) {
    FVars(e) <= s
  }

  lemma {:induction false} AppVars(f: Expr, args: seq<Expr>, s: set<Name>)
    requires VarsIn(f, s) && forall a :: a in args ==> VarsIn(a, s)
    ensures VarsIn(MkApp(f, args), s)
    decreases |args|
  {
    if args != [] {
      assert VarsIn(args[|args| - 1], s);
      AppVars(f, args[..|args| - 1], s);
    }
  }

  ghost predicate HeadVars(tbl: Table, head: nat -> Expr, s: set<Name>) {
    forall i :: 0 <= i < |tbl| ==> VarsIn(head(i), s)
  }

  lemma {:induction false} VarsKept(st: Setting, tbl: Table, xs: seq<Name>, head: nat -> Expr, e: Expr, k: nat, s: set<Name>)
    requires |xs| == |st.ps| && HeadVars(tbl, head, s) && VarsIn(e, s)
    ensures VarsIn(Replaced(e, k, NestedCallback(st, tbl, xs, head)), s)
  {
    if Nested(st.env, st.own, e) && Find(tbl, Key(st, xs, e)).Some? {
      ArgsBounded(e);
      AppVars(head(Find(tbl, Key(st, xs, e)).value), IndexArgs(st.env, e), s);
    } else {
      match e
      case App(f, a) => VarsKept(st, tbl, xs, head, f, k, s); VarsKept(st, tbl, xs, head, a, k, s);
      case Lambda(_, t, b) => VarsKept(st, tbl, xs, head, t, k, s); VarsKept(st, tbl, xs, head, b, k + 1, s);
      case Pi(_, t, b) => VarsKept(st, tbl, xs, head, t, k, s); VarsKept(st, tbl, xs, head, b, k + 1, s);
      case Let(_, t, v, b, _) =>
        VarsKept(st, tbl, xs, head, t, k, s); VarsKept(st, tbl, xs, head, v, k, s); VarsKept(st, tbl, xs, head, b, k + 1, s);
      case MData(_, x) => VarsKept(st, tbl, xs, head, x, k, s);
      case Proj(_, _, x) => VarsKept(st, tbl, xs, head, x, k, s);
      case _ =>
    }
  }

  lemma {:induction false} EntryHeadVars(st: Setting, tbl: Table, xs: seq<Name>, s: set<Name>)
    requires TableOk(st, tbl) && |xs| == |st.ps| && forall x :: x in xs ==> x in s
    ensures HeadVars(tbl, EntryHead(st, tbl, xs), s)
  {
    forall i | 0 <= i < |tbl| ensures VarsIn(EntryHead(st, tbl, xs)(i), s) {
      assert NestedEntry(st, tbl[i]);
      RenameFVars(tbl[i].0, st.ps, xs);
    }
  }

  lemma {:induction false} MkAppJoin(f: Expr, a: seq<Expr>, b: seq<Expr>)
    ensures MkApp(MkApp(f, a), b) == MkApp(f, a + b)
    decreases |b|
  {
    if b == [] {
      assert a + b == a;
    } else {
      var n := |b| - 1;
      MkAppJoin(f, a, b[..n]);
      assert (a + b)[..|a + b| - 1] == a + b[..n];
    }
  }

  /** `I Ds is` is `I Ds` applied to the indices. */
  lemma {:induction false} OccurrenceSplit(env: Env, e: Expr)
    requires InductiveApp(env, e)
    ensures MkApp(Applied(env, e), IndexArgs(env, e)) == e
  {
    AppSpine(e);
    MkAppJoin(AppFn(e), ParamArgs(env, e), IndexArgs(env, e));
    assert ParamArgs(env, e) + IndexArgs(env, e) == AppArgs(e);
  }

  lemma {:induction false} MkAppHeads(f: Expr, g: Expr, args: seq<Expr>)
    ensures MkApp(f, args) == MkApp(g, args) <==> f == g
    ensures Same(MkApp(f, args), MkApp(g, args)) <==> Same(f, g)
    decreases |args|
  {
    if args != [] { MkAppHeads(f, g, args[..|args| - 1]); }
  }

  /** An entry and a key, moved back to the variables `xs`. */
  lemma {:induction false} EntryAgainstKey(st: Setting, tbl: Table, xs: seq<Name>, e: Expr)
    requires TableOk(st, tbl) && |xs| == |st.ps| && Distinct(xs) && Distinct(st.ps) && Apart(xs, st.ps)
    requires InductiveApp(st.env, e) && Find(tbl, Key(st, xs, e)).Some? && forall p :: p in st.ps ==> p !in FVars(e)
    ensures Same(EntryHead(st, tbl, xs)(Find(tbl, Key(st, xs, e)).value), Applied(st.env, e))
    ensures EntryHead(st, tbl, xs)(Find(tbl, Key(st, xs, e)).value) == Applied(st.env, e)
       <==> tbl[Find(tbl, Key(st, xs, e)).value].0 == Key(st, xs, e)
  {
    var ps, key, app := st.ps, Key(st, xs, e), Applied(st.env, e);
    var entry := tbl[Find(tbl, key).value].0;
    assert NestedEntry(st, tbl[Find(tbl, key).value]);
    AppliedVars(st.env, e);
    RenameRename(app, xs, ps, xs);
    RenameSelf(app, xs);
    RenameRename(entry, ps, xs, ps);
    RenameSelf(entry, ps);
    RenameErase(entry, ps, xs);
    RenameErase(key, ps, xs);
  }

  lemma {:induction false} AppliedVars(env: Env, e: Expr)
    requires InductiveApp(env, e)
    ensures FVars(Applied(env, e)) <= FVars(e)
    ensures !AnyLoose(ParamArgs(env, e)) ==> LooseRange(Applied(env, e)) == 0
    ensures Plain(e) ==> Plain(Applied(env, e))
  {
    ArgsBounded(e);
    AppVars(AppFn(e), ParamArgs(env, e), FVars(e));
    if !AnyLoose(ParamArgs(env, e)) { AppRange(AppFn(e), ParamArgs(env, e), 0); }
    if Plain(e) {
      SpinePlain(e);
      SpineOfMkApp(AppFn(e), ParamArgs(env, e));
      SpinePlain(Applied(env, e));
    }
  }

  /** For the kernel the canonical form is the term itself. */
  lemma {:induction false} CanonicalSame(st: Setting, tbl: Table, xs: seq<Name>, e: Expr, k: nat)
    requires TableOk(st, tbl) && |xs| == |st.ps| && Distinct(xs) && Distinct(st.ps) && Apart(xs, st.ps)
    requires Covered(st, tbl, xs, e) && forall p :: p in st.ps ==> p !in FVars(e)
    ensures Same(Replaced(e, k, NestedCallback(st, tbl, xs, EntryHead(st, tbl, xs))), e)
  {
    hide TableOk, MkApp, Key, AnyMentions, InductiveApp, AppFn, AppArgs;
    if Nested(st.env, st.own, e) {
      CanonicalOccurrence(st, tbl, xs, e);
    } else {
      match e
      case App(f, a) => CanonicalSame(st, tbl, xs, f, k); CanonicalSame(st, tbl, xs, a, k);
      case Lambda(_, t, b) => CanonicalSame(st, tbl, xs, t, k); CanonicalSame(st, tbl, xs, b, k + 1);
      case Pi(_, t, b) => CanonicalSame(st, tbl, xs, t, k); CanonicalSame(st, tbl, xs, b, k + 1);
      case Let(_, t, v, b, _) =>
        CanonicalSame(st, tbl, xs, t, k); CanonicalSame(st, tbl, xs, v, k); CanonicalSame(st, tbl, xs, b, k + 1);
      case MData(_, x) => CanonicalSame(st, tbl, xs, x, k);
      case Proj(_, _, x) => CanonicalSame(st, tbl, xs, x, k);
      case _ =>
    }
  }

  /** It is exactly the term when the nested occurrences agree exactly with their entries. */
  lemma {:induction false} CanonicalExact(st: Setting, tbl: Table, xs: seq<Name>, e: Expr, k: nat)
    requires TableOk(st, tbl) && |xs| == |st.ps| && Distinct(xs) && Distinct(st.ps) && Apart(xs, st.ps)
    requires Covered(st, tbl, xs, e) && forall p :: p in st.ps ==> p !in FVars(e)
    ensures Replaced(e, k, NestedCallback(st, tbl, xs, EntryHead(st, tbl, xs))) == e <==> Exact(st, tbl, xs, e)
  {
    hide TableOk, MkApp, Key, AnyMentions, InductiveApp, AppFn, AppArgs;
    if Nested(st.env, st.own, e) {
      CanonicalOccurrence(st, tbl, xs, e);
    } else {
      match e
      case App(f, a) => CanonicalExact(st, tbl, xs, f, k); CanonicalExact(st, tbl, xs, a, k);
      case Lambda(_, t, b) => CanonicalExact(st, tbl, xs, t, k); CanonicalExact(st, tbl, xs, b, k + 1);
      case Pi(_, t, b) => CanonicalExact(st, tbl, xs, t, k); CanonicalExact(st, tbl, xs, b, k + 1);
      case Let(_, t, v, b, _) =>
        CanonicalExact(st, tbl, xs, t, k); CanonicalExact(st, tbl, xs, v, k); CanonicalExact(st, tbl, xs, b, k + 1);
      case MData(_, x) => CanonicalExact(st, tbl, xs, x, k);
      case Proj(_, _, x) => CanonicalExact(st, tbl, xs, x, k);
      case _ =>
    }
  }

  lemma {:induction false} CanonicalOccurrence(st: Setting, tbl: Table, xs: seq<Name>, e: Expr)
    requires TableOk(st, tbl) && |xs| == |st.ps| && Distinct(xs) && Distinct(st.ps) && Apart(xs, st.ps)
    requires Nested(st.env, st.own, e) && Find(tbl, Key(st, xs, e)).Some? && forall p :: p in st.ps ==> p !in FVars(e)
    ensures var i := Find(tbl, Key(st, xs, e)).value;
      var r := MkApp(EntryHead(st, tbl, xs)(i), IndexArgs(st.env, e));
      Same(r, e) && (r == e <==> tbl[i].0 == Key(st, xs, e))
  {
    var i := Find(tbl, Key(st, xs, e)).value;
    OccurrenceSplit(st.env, e);
    EntryAgainstKey(st, tbl, xs, e);
    MkAppHeads(EntryHead(st, tbl, xs)(i), Applied(st.env, e), IndexArgs(st.env, e));
  }

  // ---------------------------------------------------------------- constructor types

  /** The body of a constructor type over the parameters `xs`. */
  function Opened(t: Expr, xs: seq<Name>): Expr
    requires HasPis(t, |xs|)
  {
    InstRev(PiBody(t, |xs|), MkFVars(xs))
  }

  /** `t2` is `t` with the nested occurrences below its parameters eliminated. */
  ghost predicate ElimType(st: Setting, tbl: Table, xs: seq<Name>, t: Expr, t2: Expr) {
    && |xs| == |st.ps| && HasPis(t, |xs|) && Distinct(xs) && Apart(xs, st.ps)
    && Covered(st, tbl, xs, Opened(t, xs))
    && t2 == WithBody(t, |xs|, Abstract(Eliminated(st, tbl, xs, Opened(t, xs)), 0, xs))
  }

  /** Restoring under the parameters, opened as `ys`. */
  function RestoredType(rs: Restoration, ps: seq<Name>, ys: seq<Name>, t: Expr): Expr
    requires HasPis(t, |ys|)
  {
    WithBody(t, |ys|, Abstract(Replaced(Opened(t, ys), 0, RestoreCallback(rs, ps, ys)), 0, ys))
  }

  lemma {:induction false} OpenedFacts(t: Expr, xs: seq<Name>)
    requires HasPis(t, |xs|) && Clean(t) && Distinct(xs)
    ensures LooseRange(Opened(t, xs)) == 0 && Plain(Opened(t, xs))
    ensures forall x :: x in FVars(Opened(t, xs)) ==> x in xs
    ensures Abstract(Opened(t, xs), 0, xs) == PiBody(t, |xs|)
  {
    var b, us := PiBody(t, |xs|), Reverse(MkFVars(xs));
    PiBodyFacts(t, |xs|, 0);
    InstRange(b, us, 0);
    InstFVars(b, 0, us);
    InstPlain(b, us);
    OpenClose(b, 0, xs);
  }

  lemma {:induction false} AbstractRenamed(e: Expr, xs: seq<Name>, ys: seq<Name>)
    requires |xs| == |ys| && Distinct(ys) && forall y :: y in ys ==> y !in FVars(e)
    ensures Abstract(Rename(e, xs, ys), 0, ys) == Abstract(e, 0, xs)
  {
    var n := LooseRange(e);
    RangeLeaves(e, 0, n, ys);
    var ok := Avoiding(n, ys);
    var p1, p2, q := Pass(0, RenameLeaf(xs, ys)), Pass(0, AbstractLeaf(ys)), Pass(0, AbstractLeaf(xs));
    forall l, j: nat | Atomic(l) && ok(l, j) ensures Fuses(l, j, p1, p2, q) {
      if l.FVar? {
        var i := LastIndex(xs, l.fvar);
        if i.Some? { DistinctLastIndex(ys, i.value); }
      }
    }
    MapFuse(e, ok, p1, p2, q);
  }

  /** What restoration leaves below the parameters: the canonical form of the original body. */
  lemma {:induction false} RestoredBody(st: Setting, tbl: Table, rs: Restoration, xs: seq<Name>, ys: seq<Name>, t: Expr, t2: Expr)
    requires TableOk(st, tbl) && Matches(rs, tbl) && Clean(t) && ElimType(st, tbl, xs, t, t2)
    requires |ys| == |st.ps| && Distinct(ys) && Apart(ys, xs)
    ensures HasPis(t2, |ys|)
    ensures RestoredType(rs, st.ps, ys, t2) == WithBody(t, |xs|, Abstract(Canonical(st, tbl, xs, Opened(t, xs)), 0, xs))
  {
    var n, e := |xs|, Opened(t, xs);
    var r, c := Eliminated(st, tbl, xs, e), Canonical(st, tbl, xs, e);
    OpenedFacts(t, xs);
    HeadsClosed(st, tbl, xs);
    RangeKept(st, tbl, xs, AuxHead(st, tbl, xs), e, 0, 0);
    WithBodyLaws(t, n, Abstract(r, 0, xs), Abstract(c, 0, xs));
    ReopenIsRename(r, xs, ys);
    assert Opened(t2, ys) == Rename(r, xs, ys);
    RestoreEliminated(st, tbl, rs, xs, ys, e, 0);
    CanonicalVars(st, tbl, xs, e);
    assert forall y :: y in ys ==> y !in FVars(c);
    AbstractRenamed(c, xs, ys);
  }

  lemma {:induction false} CanonicalVars(st: Setting, tbl: Table, xs: seq<Name>, e: Expr)
    requires TableOk(st, tbl) && |xs| == |st.ps| && forall x :: x in FVars(e) ==> x in xs
    ensures forall x :: x in FVars(Canonical(st, tbl, xs, e)) ==> x in xs
  {
    var s := set x | x in xs;
    EntryHeadVars(st, tbl, xs, s);
    VarsKept(st, tbl, xs, EntryHead(st, tbl, xs), e, 0, s);
  }

  lemma {:induction false} AbstractInjective(c: Expr, e: Expr, xs: seq<Name>)
    requires LooseRange(c) == 0 && LooseRange(e) == 0 && Abstract(c, 0, xs) == Abstract(e, 0, xs)
    ensures c == e
  {
    ReopenIsRename(c, xs, xs);
    ReopenIsRename(e, xs, xs);
    RenameSelf(c, xs);
    RenameSelf(e, xs);
  }

  /** Elimination is undone by restoration: for the kernel the result is the original type; it is
      exactly the original type just when every nested occurrence has the binder names of the
      entry that the table search found for it. */
  lemma {:induction false} RestoreUndoesElimination(
      st: Setting, tbl: Table, rs: Restoration, xs: seq<Name>, ys: seq<Name>, t: Expr, t2: Expr)
    requires TableOk(st, tbl) && Matches(rs, tbl) && Clean(t) && ElimType(st, tbl, xs, t, t2)
    requires Distinct(st.ps) && |ys| == |st.ps| && Distinct(ys) && Apart(ys, xs)
    ensures HasPis(t2, |ys|)
    ensures Same(RestoredType(rs, st.ps, ys, t2), t)
    ensures RestoredType(rs, st.ps, ys, t2) == t <==> Exact(st, tbl, xs, Opened(t, xs))
  {
    hide MkApp, Erase;
    var n, e := |xs|, Opened(t, xs);
    var c := Canonical(st, tbl, xs, e);
    RestoredBody(st, tbl, rs, xs, ys, t, t2);
    OpenedFacts(t, xs);
    assert forall p :: p in st.ps ==> p !in FVars(e);
    CanonicalSame(st, tbl, xs, e, 0);
    CanonicalExact(st, tbl, xs, e, 0);
    WithBodyLaws(t, n, Abstract(c, 0, xs), PiBody(t, n));
    WithBodyErase(t, n, Abstract(c, 0, xs), PiBody(t, n));
    SameMap(c, e, 0, AbstractLeaf(xs));
    HeadsClosed(st, tbl, xs);
    RangeKept(st, tbl, xs, EntryHead(st, tbl, xs), e, 0, 0);
    if Abstract(c, 0, xs) == Abstract(e, 0, xs) { AbstractInjective(c, e, xs); }
  }

  // ---------------------------------------------------------------- constructors of auxiliary types

  lemma {:induction false} AuxCtorHead(
      st: Setting, tbl: Table, rs: Restoration, i: nat, j: Name, ls: seq<L.Level>, ds: seq<Expr>, c: Name, ys: seq<Name>)
    requires TableOk(st, tbl) && rs.nested == AuxMap(tbl) && i < |tbl| && |ys| == |st.ps|
    requires tbl[i].0 == MkApp(Const(j, ls), ds) && j <= c && AuxCtor(rs, ReplacePrefix(c, j, tbl[i].1))
    requires rs.ctors[ReplacePrefix(c, j, tbl[i].1)] == tbl[i].1
    ensures RestoredCtor(rs, ReplacePrefix(c, j, tbl[i].1), st.ps, ys) == MkApp(Const(c, ls), RenameAll(ds, st.ps, ys))
  {
    hide MkApp, ReplacePrefix;
    AuxMapLookup(tbl, i);
    assert NestedEntry(st, tbl[i]);
    ReopenIsRename(tbl[i].0, st.ps, ys);
    RenameApp(Const(j, ls), ds, st.ps, ys);
    SpineOfMkApp(Const(j, ls), RenameAll(ds, st.ps, ys));
    assert AppArgs(Const(j, ls)) + RenameAll(ds, st.ps, ys) == RenameAll(ds, st.ps, ys);
    ReplacePrefixBack(c, j, tbl[i].1);
  }

  /** A constructor of an auxiliary type, applied to the parameters and its fields, is restored to
      the constructor of the nested type, applied to that type's own parameters and the fields. */
  lemma {:induction false} AuxCtorRestored(
      st: Setting, tbl: Table, rs: Restoration, i: nat, j: Name, ls: seq<L.Level>, ds: seq<Expr>, c: Name,
      ys: seq<Name>, lvls: seq<L.Level>, fields: seq<Expr>, k: nat)
    requires TableOk(st, tbl) && rs.nested == AuxMap(tbl) && i < |tbl| && |ys| == |st.ps|
    requires tbl[i].0 == MkApp(Const(j, ls), ds) && j <= c
    requires var auxC := ReplacePrefix(c, j, tbl[i].1);
      AuxCtor(rs, auxC) && rs.ctors[auxC] == tbl[i].1 && auxC !in rs.nested && auxC !in rs.recs
    ensures RestoreCallback(rs, st.ps, ys)(MkApp(Const(ReplacePrefix(c, j, tbl[i].1), lvls), MkFVars(ys) + fields), k)
      == Some(MkApp(Const(c, ls), RenameAll(ds, st.ps, ys) + fields))
  {
    hide MkApp, ReplacePrefix, RestoredCtor;
    var auxC := Const(ReplacePrefix(c, j, tbl[i].1), lvls);
    AuxCtorHead(st, tbl, rs, i, j, ls, ds, c, ys);
    SpineOfMkApp(auxC, MkFVars(ys) + fields);
    assert AppArgs(auxC) + (MkFVars(ys) + fields) == MkFVars(ys) + fields;
    assert AfterParams(MkFVars(ys) + fields, |st.ps|) == fields;
    ConstSpine(auxC, MkFVars(ys) + fields);
    MkAppJoin(Const(c, ls), RenameAll(ds, st.ps, ys), fields);
  }

  lemma {:induction false} ConstSpine(c: Expr, args: seq<Expr>)
    requires c.Const?
    ensures MkApp(c, args).Const? ==> MkApp(c, args) == c
  {
  }
}
