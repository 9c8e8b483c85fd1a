/** The nested types that a declaration mentions, the table entries made for them, and when every
    one of them is found with exactly its own binder names (kernel/inductive.cpp, lines 960-1030). */
module NestedKeys {
  import opened Names
  import opened Prelude
  import opened Exprs
  import opened DeBruijn
  import opened ExprFacts
  import opened CheckerState
  import opened HeadPaths
  import opened Telescope
  import opened NestedTerms
  import opened NestedSpec
  import opened NestedInverse
  import opened NestedElim

  // ---------------------------------------------------------------- the nested types of a term

  /** The nested types of the outermost nested occurrences, over the parameters of the setting. */
  ghost function Keys(st: Setting, xs: seq<Name>, e: Expr): set<Expr>
    requires |xs| == |st.ps|
  {
    if Nested(st.env, st.own, e) then {Key(st, xs, e)}
    else match e
      case App(f, a) => Keys(st, xs, f) + Keys(st, xs, a)
      case Lambda(_, t, b) => Keys(st, xs, t) + Keys(st, xs, b)
      case Pi(_, t, b) => Keys(st, xs, t) + Keys(st, xs, b)
      case Let(_, t, v, b, _) => Keys(st, xs, t) + Keys(st, xs, v) + Keys(st, xs, b)
      case MData(_, x) => Keys(st, xs, x)
      case Proj(_, _, x) => Keys(st, xs, x)
      case _ => {}
  }

  /** The search for `key` finds `key` itself. */
  ghost predicate FoundExactly(tbl: Table, key: Expr) {
    Find(tbl, key).Some? && tbl[Find(tbl, key).value].0 == key
  }

  ghost predicate AllExact(tbl: Table, ks: set<Expr>) {
    forall k :: k in ks ==> FoundExactly(tbl, k)
  }

  lemma {:induction false} AllExactUnion(tbl: Table, a: set<Expr>, b: set<Expr>)
    ensures AllExact(tbl, a + b) <==> AllExact(tbl, a) && AllExact(tbl, b)
  {
    hide FoundExactly;
    assert forall k :: k in a ==> k in a + b;
    assert forall k :: k in b ==> k in a + b;
  }

  ghost predicate AllFound(tbl: Table, ks: set<Expr>) {
    forall k :: k in ks ==> Find(tbl, k).Some?
  }

  lemma {:induction false} CoveredKeys(st: Setting, tbl: Table, xs: seq<Name>, e: Expr)
    requires |xs| == |st.ps| && Covered(st, tbl, xs, e)
    ensures AllFound(tbl, Keys(st, xs, e))
  {
    hide Nested, Key, Find, AnyLoose;
    if !Nested(st.env, st.own, e) {
      match e
      case App(f, a) => CoveredKeys(st, tbl, xs, f); CoveredKeys(st, tbl, xs, a);
      case Lambda(_, t, b) => CoveredKeys(st, tbl, xs, t); CoveredKeys(st, tbl, xs, b);
      case Pi(_, t, b) => CoveredKeys(st, tbl, xs, t); CoveredKeys(st, tbl, xs, b);
      case Let(_, t, v, b, _) => CoveredKeys(st, tbl, xs, t); CoveredKeys(st, tbl, xs, v); CoveredKeys(st, tbl, xs, b);
      case MData(_, x) => CoveredKeys(st, tbl, xs, x);
      case Proj(_, _, x) => CoveredKeys(st, tbl, xs, x);
      case _ =>
    }
  }

  /** A term is restored exactly when each of its nested types is found exactly. */
  lemma {:induction false} ExactKeys(st: Setting, tbl: Table, xs: seq<Name>, e: Expr)
    requires |xs| == |st.ps| && Covered(st, tbl, xs, e)
    ensures Exact(st, tbl, xs, e) <==> AllExact(tbl, Keys(st, xs, e))
  {
    hide Nested, Key, Find, AnyLoose, AllExact;
    if Nested(st.env, st.own, e) {
      ExactOccurrence(st, tbl, xs, e);
    } else {
      match e
      case App(f, a) =>
        ExactKeys(st, tbl, xs, f); ExactKeys(st, tbl, xs, a);
        AllExactUnion(tbl, Keys(st, xs, f), Keys(st, xs, a));
      case Lambda(_, t, b) =>
        ExactKeys(st, tbl, xs, t); ExactKeys(st, tbl, xs, b);
        AllExactUnion(tbl, Keys(st, xs, t), Keys(st, xs, b));
      case Pi(_, t, b) =>
        ExactKeys(st, tbl, xs, t); ExactKeys(st, tbl, xs, b);
        AllExactUnion(tbl, Keys(st, xs, t), Keys(st, xs, b));
      case Let(_, t, v, b, _) =>
        ExactKeys(st, tbl, xs, t); ExactKeys(st, tbl, xs, v); ExactKeys(st, tbl, xs, b);
        AllExactUnion(tbl, Keys(st, xs, t), Keys(st, xs, v));
        AllExactUnion(tbl, Keys(st, xs, t) + Keys(st, xs, v), Keys(st, xs, b));
      case MData(_, x) => ExactKeys(st, tbl, xs, x);
      case Proj(_, _, x) => ExactKeys(st, tbl, xs, x);
      case _ => NoneExact(tbl);
    }
  }

  lemma {:induction false} NoneExact(tbl: Table)
    ensures AllExact(tbl, {})
  {
  }

  lemma {:induction false} ExactOccurrence(st: Setting, tbl: Table, xs: seq<Name>, e: Expr)
    requires |xs| == |st.ps| && Covered(st, tbl, xs, e) && Nested(st.env, st.own, e)
    ensures Exact(st, tbl, xs, e) <==> AllExact(tbl, Keys(st, xs, e))
  {
    assert Key(st, xs, e) in Keys(st, xs, e);
  }

  // ---------------------------------------------------------------- over the common parameters

  lemma {:induction false} MentionsRenamed(e: Expr, k: nat, xs: seq<Name>, ys: seq<Name>, names: set<Name>)
    requires |xs| == |ys|
    ensures Mentions(Map(e, k, RenameLeaf(xs, ys)), names) <==> Mentions(e, names)
  {
    match e
    case App(f, a) => MentionsRenamed(f, k, xs, ys, names); MentionsRenamed(a, k, xs, ys, names);
    case Lambda(_, t, b) => MentionsRenamed(t, k, xs, ys, names); MentionsRenamed(b, k + 1, xs, ys, names);
    case Pi(_, t, b) => MentionsRenamed(t, k, xs, ys, names); MentionsRenamed(b, k + 1, xs, ys, names);
    case Let(_, t, v, b, _) =>
      MentionsRenamed(t, k, xs, ys, names); MentionsRenamed(v, k, xs, ys, names); MentionsRenamed(b, k + 1, xs, ys, names);
    case MData(_, x) => MentionsRenamed(x, k, xs, ys, names);
    case Proj(_, _, x) => MentionsRenamed(x, k, xs, ys, names);
    case _ =>
  }

  lemma {:induction false} SpineRenamed(e: Expr, xs: seq<Name>, ys: seq<Name>)
    requires |xs| == |ys|
    ensures AppArgs(Rename(e, xs, ys)) == RenameAll(AppArgs(e), xs, ys)
    ensures AppFn(Rename(e, xs, ys)) == Rename(AppFn(e), xs, ys)
  {
    if e.App? { SpineRenamed(e.fn, xs, ys); }
  }

  lemma {:induction false} AnyMentionsRenamed(us: seq<Expr>, xs: seq<Name>, ys: seq<Name>, names: set<Name>)
    requires |xs| == |ys|
    ensures AnyMentions(RenameAll(us, xs, ys), names) <==> AnyMentions(us, names)
  {
    var vs := RenameAll(us, xs, ys);
    forall i | 0 <= i < |us| ensures Mentions(vs[i], names) <==> Mentions(us[i], names) {
      MentionsRenamed(us[i], 0, xs, ys, names);
    }
    if AnyMentions(us, names) {
      var i :| 0 <= i < |us| && Mentions(us[i], names);
      assert vs[i] in vs;
    }
    if AnyMentions(vs, names) {
      var i :| 0 <= i < |vs| && Mentions(vs[i], names);
      assert us[i] in us;
    }
  }

  /** Renaming moves a nested occurrence with its nested type. */
  lemma {:induction false} NestedRenamed(env: Env, names: set<Name>, e: Expr, xs: seq<Name>, ys: seq<Name>)
    requires |xs| == |ys|
    ensures InductiveApp(env, Rename(e, xs, ys)) <==> InductiveApp(env, e)
    ensures InductiveApp(env, e) ==> Applied(env, Rename(e, xs, ys)) == Rename(Applied(env, e), xs, ys)
    ensures Nested(env, names, Rename(e, xs, ys)) <==> Nested(env, names, e)
  {
    hide AnyMentions, MkApp;
    SpineRenamed(e, xs, ys);
    if InductiveApp(env, e) {
      var n := env[AppFn(e).name].nparams;
      assert RenameAll(AppArgs(e), xs, ys)[..n] == RenameAll(AppArgs(e)[..n], xs, ys);
      RenameApp(AppFn(e), ParamArgs(env, e), xs, ys);
      AnyMentionsRenamed(ParamArgs(env, e), xs, ys, names);
    }
  }

  /** A nested type does not depend on the variables that stand for the parameters. */
  lemma {:induction false} KeyRenamed(st: Setting, e: Expr, xs: seq<Name>)
    requires |xs| == |st.ps| && Distinct(xs) && Nested(st.env, st.own, e) && forall x :: x in xs ==> x !in FVars(e)
    ensures Nested(st.env, st.own, Rename(e, st.ps, xs))
    ensures Key(st, xs, Rename(e, st.ps, xs)) == Key(st, st.ps, e)
  {
    var app := Applied(st.env, e);
    NestedRenamed(st.env, st.own, e, st.ps, xs);
    AppliedVars(st.env, e);
    RenameRename(app, st.ps, xs, st.ps);
  }

  lemma {:induction false} KeysRenamed(st: Setting, e: Expr, k: nat, xs: seq<Name>)
    requires |xs| == |st.ps| && Distinct(xs) && forall x :: x in xs ==> x !in FVars(e)
    ensures Keys(st, xs, Map(e, k, RenameLeaf(st.ps, xs))) == Keys(st, st.ps, e)
  {
    hide Nested, Key;
    RenameDepth(e, k, st.ps, xs);
    NestedRenamed(st.env, st.own, e, st.ps, xs);
    if Nested(st.env, st.own, e) {
      KeyRenamed(st, e, xs);
    } else {
      match e
      case App(f, a) => KeysRenamed(st, f, k, xs); KeysRenamed(st, a, k, xs);
      case Lambda(_, t, b) => KeysRenamed(st, t, k, xs); KeysRenamed(st, b, k + 1, xs);
      case Pi(_, t, b) => KeysRenamed(st, t, k, xs); KeysRenamed(st, b, k + 1, xs);
      case Let(_, t, v, b, _) => KeysRenamed(st, t, k, xs); KeysRenamed(st, v, k, xs); KeysRenamed(st, b, k + 1, xs);
      case MData(_, x) => KeysRenamed(st, x, k, xs);
      case Proj(_, _, x) => KeysRenamed(st, x, k, xs);
      case _ =>
    }
  }

  /** The nested types of a constructor type. */
  ghost function CtorKeys(st: Setting, t: Expr): set<Expr> {
    if HasPis(t, |st.ps|) then Keys(st, st.ps, Opened(t, st.ps)) else {}
  }

  lemma {:induction false} OpenedKeys(st: Setting, t: Expr, xs: seq<Name>)
    requires |xs| == |st.ps| && HasPis(t, |xs|) && Clean(t) && Distinct(xs) && Distinct(st.ps) && Apart(xs, st.ps)
    ensures Keys(st, xs, Opened(t, xs)) == CtorKeys(st, t)
  {
    var e := Opened(t, st.ps);
    OpenedFacts(t, st.ps);
    ReopenIsRename(e, st.ps, xs);
    KeysRenamed(st, e, 0, xs);
  }

  ghost function CtorsKeys(st: Setting, cs: seq<Ctor>): set<Expr> {
    if cs == [] then {} else CtorsKeys(st, cs[..|cs| - 1]) + CtorKeys(st, cs[|cs| - 1].typ)
  }

  /** The nested types of all constructors of a declaration. */
  ghost function DeclKeys(st: Setting, types: seq<IndType>): set<Expr> {
    if types == [] then {} else DeclKeys(st, types[..|types| - 1]) + CtorsKeys(st, types[|types| - 1].ctors)
  }

  lemma {:induction false} CtorsKeysSnoc(st: Setting, cs: seq<Ctor>, i: nat)
    requires i < |cs|
    ensures CtorsKeys(st, cs[..i + 1]) == CtorsKeys(st, cs[..i]) + CtorKeys(st, cs[i].typ)
  {
    assert cs[..i + 1][..i] == cs[..i];
  }

  lemma {:induction false} DeclKeysSnoc(st: Setting, types: seq<IndType>, i: nat)
    requires i < |types|
    ensures DeclKeys(st, types[..i + 1]) == DeclKeys(st, types[..i]) + CtorsKeys(st, types[i].ctors)
  {
    assert types[..i + 1][..i] == types[..i];
  }

  lemma {:induction false} DeclKeysPrefix(st: Setting, types: seq<IndType>, i: nat, k: Expr)
    requires i <= |types| && k in DeclKeys(st, types[..i])
    ensures k in DeclKeys(st, types)
    decreases |types| - i
  {
    if i < |types| {
      DeclKeysSnoc(st, types, i);
      DeclKeysPrefix(st, types, i + 1, k);
    } else {
      assert types[..i] == types;
    }
  }

  // ---------------------------------------------------------------- where entries come from

  /** The nested type `k` with another type of the mutual declaration at its head. */
  function Regrouped(k: Expr, j: Name): Expr {
    MkApp(Const(j, ConstLevels(AppFn(k))), AppArgs(k))
  }

  /** The types declared together with the head of `k`. */
  function Members(env: Env, k: Expr): seq<Name> {
    if AppFn(k).Const? && AppFn(k).name in env && env[AppFn(k).name].Inductive? then env[AppFn(k).name].all else []
  }

  ghost predicate IsMember(env: Env, k: Expr, j: Name, entry: Expr) {
    j in Members(env, k) && entry == Regrouped(k, j)
  }

  /** `entry` was made when one of the nested types `ks` was met. */
  ghost predicate FromSome(env: Env, ks: set<Expr>, entry: Expr) {
    exists k, j :: k in ks && IsMember(env, k, j, entry)
  }

  /** `t1` is `t0` with entries made for the nested types `ks`. */
  ghost predicate AddedFor(env: Env, t0: Table, t1: Table, ks: set<Expr>) {
    |t0| <= |t1| && t1[..|t0|] == t0 && forall i :: |t0| <= i < |t1| ==> FromSome(env, ks, t1[i].0)
  }

  lemma {:induction false} FromMore(env: Env, ks: set<Expr>, more: set<Expr>, entry: Expr)
    requires FromSome(env, ks, entry) && ks <= more
    ensures FromSome(env, more, entry)
  {
    var k, j :| k in ks && IsMember(env, k, j, entry);
    assert k in more;
  }

  lemma {:induction false} AddedNone(env: Env, t: Table, ks: set<Expr>)
    ensures AddedFor(env, t, t, ks)
  {
  }

  lemma {:induction false} AddedMore(env: Env, t0: Table, t1: Table, ks: set<Expr>, more: set<Expr>)
    requires AddedFor(env, t0, t1, ks) && ks <= more
    ensures AddedFor(env, t0, t1, more)
  {
    hide FromSome;
    forall i | |t0| <= i < |t1| ensures FromSome(env, more, t1[i].0) { FromMore(env, ks, more, t1[i].0); }
  }

  lemma {:induction false} AddedTrans(env: Env, t0: Table, t1: Table, t2: Table, a: set<Expr>, b: set<Expr>)
    requires AddedFor(env, t0, t1, a) && AddedFor(env, t1, t2, b)
    ensures AddedFor(env, t0, t2, a + b)
  {
    hide FromSome;
    assert t2[..|t0|] == t2[..|t1|][..|t0|];
    forall i | |t0| <= i < |t2| ensures FromSome(env, a + b, t2[i].0) {
      if i < |t1| {
        assert t2[i] == t2[..|t1|][i] == t1[i];
        FromMore(env, a, a + b, t1[i].0);
      } else {
        FromMore(env, b, a + b, t2[i].0);
      }
    }
  }

  // ---------------------------------------------------------------- groups of entries

  ghost predicate HasEntry(tbl: Table, key: Expr) {
    exists i :: 0 <= i < |tbl| && tbl[i].0 == key
  }

  /** With an entry come the entries of the types declared together with it. */
  ghost predicate EntryGrouped(env: Env, tbl: Table, e: Expr) {
    forall j :: j in Members(env, e) ==> HasEntry(tbl, Regrouped(e, j))
  }

  ghost predicate NoRepeats(tbl: Table) {
    forall i, j :: 0 <= i < j < |tbl| ==> !Same(tbl[i].0, tbl[j].0)
  }

  ghost predicate Grouped(env: Env, tbl: Table) {
    NoRepeats(tbl) && forall i :: 0 <= i < |tbl| ==> EntryGrouped(env, tbl, tbl[i].0)
  }

  /** The entries added for `key`: one for each type declared together with its head. */
  ghost predicate AddedGroup(t0: Table, t1: Table, key: Expr, all: seq<Name>, n: nat)
    requires n <= |all|
  {
    && |t1| == |t0| + n && t1[..|t0|] == t0
    && forall m :: 0 <= m < n ==> t1[|t0| + m].0 == Regrouped(key, all[m])
  }

  lemma {:induction false} GroupStart(t: Table, key: Expr, all: seq<Name>)
    ensures AddedGroup(t, t, key, all, 0)
  {
  }

  lemma {:induction false} GroupStep(t0: Table, t1: Table, t2: Table, key: Expr, all: seq<Name>, n: nat, aux: Name)
    requires n < |all| && AddedGroup(t0, t1, key, all, n) && t2 == t1 + [(Regrouped(key, all[n]), aux)]
    ensures AddedGroup(t0, t2, key, all, n + 1)
  {
    hide Regrouped;
    assert t2[..|t0|] == t1[..|t0|];
  }

  lemma {:induction false} RegroupedSpine(k: Expr, j: Name)
    ensures AppFn(Regrouped(k, j)) == Const(j, ConstLevels(AppFn(k))) && AppArgs(Regrouped(k, j)) == AppArgs(k)
    ensures forall i :: Regrouped(Regrouped(k, j), i) == Regrouped(k, i)
    ensures AppFn(k).Const? && AppFn(k).name == j ==> Regrouped(k, j) == k
  {
    SpineOfMkApp(Const(j, ConstLevels(AppFn(k))), AppArgs(k));
    assert AppArgs(Const(j, ConstLevels(AppFn(k)))) + AppArgs(k) == AppArgs(k);
    if AppFn(k).Const? && AppFn(k).name == j { AppSpine(k); }
  }

  lemma {:induction false} MkAppSnoc(c: Expr, args: seq<Expr>, a: Expr)
    ensures MkApp(c, args + [a]) == App(MkApp(c, args), a)
  {
    assert (args + [a])[..|args|] == args;
  }

  lemma {:induction false} EraseSpine(e: Expr, c: Expr)
    ensures Erase(AppFn(e)) == AppFn(Erase(e))
    ensures Erase(MkApp(c, AppArgs(e))) == MkApp(Erase(c), AppArgs(Erase(e)))
  {
    if e.App? {
      hide MkApp;
      EraseSpine(e.fn, c);
      MkAppSnoc(c, AppArgs(e.fn), e.arg);
      MkAppSnoc(Erase(c), AppArgs(Erase(e.fn)), Erase(e.arg));
    }
  }

  /** Terms equal for the kernel have equal heads and arguments for it. */
  lemma {:induction false} SameSpines(a: Expr, b: Expr, c: Expr)
    requires Same(a, b)
    ensures Same(AppFn(a), AppFn(b)) && Same(MkApp(c, AppArgs(a)), MkApp(c, AppArgs(b)))
  {
    EraseSpine(a, c);
    EraseSpine(b, c);
  }

  lemma {:induction false} SameRegrouped(a: Expr, b: Expr, j: Name)
    requires Same(a, b) && AppFn(b).Const?
    ensures AppFn(a) == AppFn(b) && Same(Regrouped(a, j), Regrouped(b, j))
  {
    SameSpines(a, b, Const(j, ConstLevels(AppFn(b))));
  }

  lemma {:induction false} OtherHead(key: Expr, i: Name, j: Name)
    requires i != j
    ensures !Same(Regrouped(key, i), Regrouped(key, j))
  {
    MkAppHeads(Const(i, ConstLevels(AppFn(key))), Const(j, ConstLevels(AppFn(key))), AppArgs(key));
  }

  /** The environment: types declared together agree on the declaration. */
  ghost predicate SharedGroup(env: Env, key: Expr) {
    && Distinct(Members(env, key)) && AppFn(key).Const? && AppFn(key).name in Members(env, key)
    && forall j :: j in Members(env, key) ==> Members(env, Regrouped(key, j)) == Members(env, key)
  }

  lemma {:induction false} GroupIsNew(env: Env, t0: Table, key: Expr, i: nat, j: Name)
    requires Grouped(env, t0) && SharedGroup(env, key) && Find(t0, key).None? && i < |t0| && j in Members(env, key)
    ensures !Same(t0[i].0, Regrouped(key, j))
  {
    var e, h := t0[i].0, AppFn(key).name;
    if Same(e, Regrouped(key, j)) {
      RegroupedSpine(key, j);
      RegroupedSpine(key, h);
      SameRegrouped(e, Regrouped(key, j), h);
    }
  }

  lemma {:induction false} EntriesGrow(env: Env, t0: Table, t1: Table, e: Expr)
    requires |t0| <= |t1| && t1[..|t0|] == t0 && EntryGrouped(env, t0, e)
    ensures EntryGrouped(env, t1, e)
  {
    forall j | j in Members(env, e) ensures HasEntry(t1, Regrouped(e, j)) {
      assert HasEntry(t0, Regrouped(e, j));
      var i :| 0 <= i < |t0| && t0[i].0 == Regrouped(e, j);
      assert t1[i] == t1[..|t0|][i];
    }
  }

  lemma {:induction false} NewEntryGrouped(env: Env, t0: Table, t1: Table, key: Expr, m: nat)
    requires SharedGroup(env, key) && AddedGroup(t0, t1, key, Members(env, key), |Members(env, key)|)
    requires m < |Members(env, key)|
    ensures EntryGrouped(env, t1, t1[|t0| + m].0)
  {
    var all := Members(env, key);
    var e := t1[|t0| + m].0;
    RegroupedSpine(key, all[m]);
    forall j | j in Members(env, e) ensures HasEntry(t1, Regrouped(e, j)) {
      var i :| 0 <= i < |all| && all[i] == j;
      assert t1[|t0| + i].0 == Regrouped(key, all[i]);
    }
  }

  lemma {:induction false} NewPair(env: Env, t0: Table, t1: Table, key: Expr, i: nat, j: nat)
    requires Grouped(env, t0) && SharedGroup(env, key) && Find(t0, key).None?
    requires AddedGroup(t0, t1, key, Members(env, key), |Members(env, key)|) && i < j < |t1|
    ensures !Same(t1[i].0, t1[j].0)
  {
    hide Regrouped, SharedGroup, Find;
    var all := Members(env, key);
    assert forall m :: 0 <= m < |t0| ==> t1[m] == t1[..|t0|][m] == t0[m];
    if j >= |t0| {
      var m := j - |t0|;
      assert t1[|t0| + m].0 == Regrouped(key, all[m]);
      if i < |t0| {
        GroupIsNew(env, t0, key, i, all[m]);
      } else {
        var n := i - |t0|;
        assert t1[|t0| + n].0 == Regrouped(key, all[n]);
        MembersDistinct(env, key, n, m);
        OtherHead(key, all[n], all[m]);
      }
    }
  }

  lemma {:induction false} MembersDistinct(env: Env, key: Expr, i: nat, j: nat)
    requires SharedGroup(env, key) && i < j < |Members(env, key)|
    ensures Members(env, key)[i] != Members(env, key)[j]
  {
  }

  /** Adding the whole mutual declaration of a nested type that was not found keeps the groups. */
  lemma {:induction false} GroupAdded(env: Env, t0: Table, t1: Table, key: Expr)
    requires Grouped(env, t0) && SharedGroup(env, key) && Find(t0, key).None?
    requires AddedGroup(t0, t1, key, Members(env, key), |Members(env, key)|)
    ensures Grouped(env, t1) && AddedFor(env, t0, t1, {key})
  {
    hide SharedGroup, Same, Find, EntryGrouped, Regrouped, Members;
    forall i, j | 0 <= i < j < |t1| ensures !Same(t1[i].0, t1[j].0) { NewPair(env, t0, t1, key, i, j); }
    forall i | 0 <= i < |t1| ensures EntryGrouped(env, t1, t1[i].0) {
      if i < |t0| {
        assert t1[i] == t1[..|t0|][i] == t0[i];
        EntriesGrow(env, t0, t1, t1[i].0);
      } else {
        NewEntryGrouped(env, t0, t1, key, i - |t0|);
      }
    }
    forall i | |t0| <= i < |t1| ensures FromSome(env, {key}, t1[i].0) {
      var m := i - |t0|;
      assert t1[|t0| + m].0 == Regrouped(key, Members(env, key)[m]);
      assert key in {key} && IsMember(env, key, Members(env, key)[m], t1[i].0);
    }
  }

  // ---------------------------------------------------------------- binder names

  /** Where `k1` calls for an entry that the kernel considers equal to `k2`, it is `k2`. */
  ghost predicate KeysAgree(env: Env, k1: Expr, k2: Expr) {
    forall j :: j in Members(env, k1) && Same(Regrouped(k1, j), k2) ==> Regrouped(k1, j) == k2
  }

  /** Two nested types of one mutual declaration with parameters equal for the kernel have the same
      parameters, binder names included. */
  ghost predicate Consistent(env: Env, ks: set<Expr>) {
    forall k1, k2 :: k1 in ks && k2 in ks ==> KeysAgree(env, k1, k2)
  }

  /** Every nested type of `ks` has an entry, made for one of `ks`. */
  ghost predicate Settled(env: Env, tbl: Table, ks: set<Expr>) {
    forall k :: k in ks ==> Find(tbl, k).Some? && FromSome(env, ks, tbl[Find(tbl, k).value].0)
  }

  lemma {:induction false} SettledGrows(env: Env, t0: Table, t1: Table, ks: set<Expr>)
    requires |t0| <= |t1| && t1[..|t0|] == t0 && Settled(env, t0, ks)
    ensures Settled(env, t1, ks)
  {
    hide FromSome;
    forall k | k in ks ensures Find(t1, k).Some? && FromSome(env, ks, t1[Find(t1, k).value].0) {
      FindPrefix(t0, t1[|t0|..], k);
      assert t0 + t1[|t0|..] == t1;
      assert t1[Find(t0, k).value] == t1[..|t0|][Find(t0, k).value];
    }
  }

  lemma {:induction false} SettledFromOwn(env: Env, tbl: Table, ks: set<Expr>)
    requires AllFound(tbl, ks) && AddedFor(env, [], tbl, ks)
    ensures Settled(env, tbl, ks)
  {
  }

  /** The binder names of the nested types survive exactly when the declaration is consistent about
      them. */
  lemma {:induction false} ExactIffConsistent(env: Env, tbl: Table, ks: set<Expr>)
    requires Grouped(env, tbl) && Settled(env, tbl, ks)
    ensures AllExact(tbl, ks) <==> Consistent(env, ks)
  {
    hide Settled, Grouped, FoundExactly, KeysAgree;
    if Consistent(env, ks) {
      forall k | k in ks ensures FoundExactly(tbl, k) { AgreeExact(env, tbl, ks, k); }
    }
    if AllExact(tbl, ks) {
      forall k1, k2 | k1 in ks && k2 in ks ensures KeysAgree(env, k1, k2) { ExactAgree(env, tbl, k1, k2); }
    }
  }

  lemma {:induction false} AgreeExact(env: Env, tbl: Table, ks: set<Expr>, k: Expr)
    requires Settled(env, tbl, ks) && Consistent(env, ks) && k in ks
    ensures FoundExactly(tbl, k)
  {
    hide Same, Regrouped, Members;
    var e := tbl[Find(tbl, k).value].0;
    var k1, j :| k1 in ks && IsMember(env, k1, j, e);
    assert KeysAgree(env, k1, k);
  }

  lemma {:induction false} ExactAgree(env: Env, tbl: Table, k1: Expr, k2: Expr)
    requires Grouped(env, tbl) && FoundExactly(tbl, k1) && FoundExactly(tbl, k2)
    ensures KeysAgree(env, k1, k2)
  {
    hide Regrouped, Members;
    var i1, i2 := Find(tbl, k1).value, Find(tbl, k2).value;
    assert EntryGrouped(env, tbl, tbl[i1].0);
    forall j | j in Members(env, k1) && Same(Regrouped(k1, j), k2) ensures Regrouped(k1, j) == k2 {
      assert HasEntry(tbl, Regrouped(k1, j));
      var i :| 0 <= i < |tbl| && tbl[i].0 == Regrouped(k1, j);
      assert i == i2;
    }
  }
}
