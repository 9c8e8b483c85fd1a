/** The elimination pass as it runs (kernel/inductive.cpp, lines 879-1074), and the whole round
    trip of `add_inductive` on constructor types (lines 1113-1169). */
module NestedRun {
  import opened Names
  import opened Prelude
  import opened Exprs
  import opened DeBruijn
  import opened ExprFacts
  import opened Conversion
  import opened CheckerState
  import opened HeadPaths
  import opened Telescope
  import opened ReplaceFn
  import opened NestedTerms
  import opened NestedSpec
  import opened NestedInverse
  import opened NestedElim
  import opened NestedKeys
  import opened NestedTyped
  import L = Levels

  /** Types and table entries are only added, types and their sources alike. */
  ghost predicate Grown(n0: seq<IndType>, s0: seq<IndType>, t0: Table, n1: seq<IndType>, s1: seq<IndType>, t1: Table) {
    && |n0| == |s0| && |n0| <= |n1| && |n1| == |s1| && |t0| <= |t1|
    && n1[..|n0|] == n0 && s1[..|s0|] == s0 && t1[..|t0|] == t0
    && forall q :: |n0| <= q < |n1| ==> n1[q] == s1[q]
  }

  lemma {:induction false} GrownTrans(n0: seq<IndType>, s0: seq<IndType>, t0: Table,
      n1: seq<IndType>, s1: seq<IndType>, t1: Table, n2: seq<IndType>, s2: seq<IndType>, t2: Table)
    requires Grown(n0, s0, t0, n1, s1, t1) && Grown(n1, s1, t1, n2, s2, t2)
    ensures Grown(n0, s0, t0, n2, s2, t2)
  {
    assert n2[..|n0|] == n2[..|n1|][..|n0|];
    assert s2[..|s0|] == s2[..|s1|][..|s0|];
    assert t2[..|t0|] == t2[..|t1|][..|t0|];
    forall q | |n0| <= q < |n2| ensures n2[q] == s2[q] {
      if q < |n1| { assert n2[q] == n2[..|n1|][q] && s2[q] == s2[..|s1|][q]; }
    }
  }

  /** The auxiliary type applied to the parameters and the indices. */
  function AuxApp(aux: Name, lvls: seq<L.Level>, xs: seq<Name>, rest: seq<Expr>): Expr {
    MkApp(MkApp(Const(aux, lvls), MkFVars(xs)), rest)
  }

  datatype Outcome = Finished | IllFormed | OutOfFuel

  class Eliminator {
    const env: Env
    const lvls: seq<L.Level>
    const np: nat
    var params: seq<Name>
    var nestedAux: Table
    var newTypes: seq<IndType>
    var nextIdx: nat
    var nextFresh: nat
    var cache: map<(Expr, nat), Expr>
    ghost const own: set<Name>
    /** How many types were declared. */
    ghost const declared: nat
    /** The types as they were before their constructors were rewritten. */
    ghost var sources: seq<IndType>

    constructor (env: Env, lvls: seq<L.Level>, np: nat, types: seq<IndType>)
      ensures this.env == env && this.lvls == lvls && this.np == np && own == TypeNames(types) && declared == |types|
      ensures newTypes == types && sources == types && params == [] && nestedAux == [] && nextFresh == 0
    {
      this.env, this.lvls, this.np := env, lvls, np;
      params, nestedAux, newTypes, nextIdx, nextFresh, cache := [], [], types, 1, 0, map[];
      own, declared, sources := TypeNames(types), |types|, types;
    }

    ghost function St(): Setting
      reads this`params
    {
      Setting(env, own, lvls, params)
    }

    ghost predicate TypesValid()
      reads this`newTypes, this`sources
    {
      && SourcesOk(sources) && NamesOk(own, newTypes) && |sources| == |newTypes|
      && forall q :: 0 <= q < |sources| ==> newTypes[q].name == sources[q].name
    }

    /** One type was added for each entry, a copy of some type of the environment: at the
        parameters it has the type of the entry. */
    ghost predicate AddedValid()
      reads this`params, this`nestedAux, this`sources
    {
      AllCopies(env, sources, declared) && AllTyped(env, params, nestedAux, sources, declared)
    }

    /** What holds also while a mutual declaration is being added. */
    ghost predicate Adding()
      reads this`params, this`nestedAux, this`newTypes, this`nextIdx, this`sources
    {
      && EnvOk(env) && |params| == np && Distinct(params)
      && TableOk(St(), nestedAux) && AllMade(nestedAux, nextIdx) && TypesValid() && AddedValid()
    }

    ghost predicate Valid()
      reads this`params, this`nestedAux, this`newTypes, this`nextIdx, this`sources
    {
      Adding() && Grouped(env, nestedAux)
    }

    /** A name that no declared constant has. */
    method MkUniqueName(n: Name) returns (r: Name, ghost k: nat)
      modifies this`nextIdx
      ensures r == AppendAfter(n, k) && r !in env && old(nextIdx) <= k && nextIdx == k + 1
    {
      ghost var left := env.Keys;
      k := nextIdx;
      while true
        invariant old(nextIdx) <= nextIdx
        invariant forall j: nat :: j >= nextIdx && AppendAfter(n, j) in env ==> AppendAfter(n, j) in left
        decreases |left|
      {
        k := nextIdx;
        r := AppendAfter(n, nextIdx);
        nextIdx := nextIdx + 1;
        if r !in env {
          return;
        }
        forall j: nat | j >= nextIdx ensures AppendAfter(n, j) != r {
          if AppendAfter(n, j) == r { AppendAfterInjective(n, j, n, k); }
        }
        left := left - {r};
      }
    }

    /** `instantiate_lparams`, then the parameters, then the parameters of the place around it. */
    method CopyType(t: Expr, lparams: seq<Name>, us: seq<L.Level>, ds: seq<Expr>, p: Place) returns (r: Expr)
      requires Clean(t) && HasPis(t, |ds|) && ParamsOk(ds, p.xs) && PlaceOk(p, np, params)
      ensures Clean(r) && CopyOf(r, t, lparams, us, ds, p)
    {
      var keep: L.Level -> bool := *;
      var t1 := InstLParams(t, lparams, us, keep);
      InstLParamsClean(t, lparams, us, keep, |ds|);
      var e := InstantiatePiParams(t1, ds);
      InstPisFacts(t1, ds, p.xs);
      CloseParams(p.lctx, p.xs, p.typ, np, e.value);
      CloseClean(p.typ, p.xs, e.value);
      var closed := MkBinding(false, p.lctx, p.xs, e.value, false);
      r := closed.value;
      CopyIntro(r, t, lparams, us, keep, ds, p);
    }

    method CopyCtor(j: Name, aux: Name, i: nat, us: seq<L.Level>, ds: seq<Expr>, p: Place) returns (c: Ctor)
      requires MemberOk(env, |ds|, j) && ParamsOk(ds, p.xs) && PlaceOk(p, np, params) && Reserved(aux)
      requires i < |env[j].ctors|
      ensures Clean(c.typ) && Reserved(c.name) && CtorCopy(env, j, us, ds, p, aux, i, c)
    {
      hide PlaceOk, ParamsOk, Clean, CopyOf, ReplacePrefix;
      var n := env[j].ctors[i];
      assert CtorOk(env, j, |ds|, n);
      var t := CopyType(env[n].typ, env[n].lparams, us, ds, p);
      ReplacePrefixMeaning(n, j, aux);
      assert (aux + n[|j|..])[0] == aux[0];
      c := Ctor(ReplacePrefix(n, j, aux), t);
    }

    method CopyCtors(j: Name, aux: Name, us: seq<L.Level>, ds: seq<Expr>, p: Place) returns (r: seq<Ctor>)
      requires MemberOk(env, |ds|, j) && ParamsOk(ds, p.xs) && PlaceOk(p, np, params) && Reserved(aux)
      ensures forall c :: c in r ==> Clean(c.typ) && Reserved(c.name)
      ensures |r| == |env[j].ctors| && forall i :: 0 <= i < |r| ==> CtorCopy(env, j, us, ds, p, aux, i, r[i])
    {
      hide PlaceOk, ParamsOk, Clean, CtorCopy, Reserved;
      r := [];
      var cs := env[j].ctors;
      for i := 0 to |cs|
        invariant |r| == i && forall k :: 0 <= k < i ==> CtorCopy(env, j, us, ds, p, aux, k, r[k])
        invariant forall c :: c in r ==> Clean(c.typ) && Reserved(c.name)
      {
        var c := CopyCtor(j, aux, i, us, ds, p);
        r := r + [c];
      }
    }

    /** The key of a copy: the type and its parameters, over the parameters of the declaration. */
    method MakeKey(j: Name, us: seq<L.Level>, ds: seq<Expr>, p: Place, ghost aux: Name) returns (key: Expr)
      requires MemberOk(env, |ds|, j) && ParamsOk(ds, p.xs) && |p.xs| == |params| && Reserved(aux)
      ensures key == Rename(MkApp(Const(j, us), ds), p.xs, params) && NestedEntry(St(), (key, aux))
    {
      hide MkApp;
      var app := MkApp(Const(j, us), ds);
      AppliedOk(j, us, ds, p.xs);
      key := InstRev(Abstract(app, 0, p.xs), MkFVars(params));
      ReopenIsRename(app, p.xs, params);
      KeyOk(app, p.xs, params);
    }

    /** Add the auxiliary copy of `j`, with the parameters `ds`, to the declaration. */
    method AddAux(j: Name, us: seq<L.Level>, ds: seq<Expr>, p: Place) returns (aux: Name)
      requires Adding() && MemberOk(env, |ds|, j) && ParamsOk(ds, p.xs) && PlaceOk(p, np, params)
      modifies this`nestedAux, this`newTypes, this`nextIdx, this`sources
      ensures Adding() && Reserved(aux) && aux !in env
      ensures nestedAux == old(nestedAux) + [(Rename(MkApp(Const(j, us), ds), p.xs, params), aux)]
      ensures Grown(old(newTypes), old(sources), old(nestedAux), newTypes, sources, nestedAux)
      ensures |newTypes| == |old(newTypes)| + 1 && newTypes[|old(newTypes)|].name == aux
      ensures TypeCopy(env, j, us, ds, p, newTypes[|old(newTypes)|])
    {
      hide EnvOk, MkApp, ReplacePrefix, AppendAfter, TypeNames, CopyOf, AllCopies, TableOk, AllMade, NestedEntry, AllTyped;
      ghost var s0, t0 := sources, nestedAux;
      var base := [Str(NESTED)] + j;
      ghost var k;
      aux, k := MkUniqueName(base);
      AuxReserved(j, k);
      var t := CopyType(env[j].typ, env[j].lparams, us, ds, p);
      var key := MakeKey(j, us, ds, p, aux);
      TableSnoc(St(), nestedAux, old(nextIdx), (key, aux), base, k);
      nestedAux := nestedAux + [(key, aux)];
      var cs := CopyCtors(j, aux, us, ds, p);
      var new_ := IndType(aux, t, cs);
      CopyAdded(env, sources, declared, j, new_);
      CopyEntry(env, j, us, ds, p, params, new_);
      TypedSnoc(env, params, t0, s0, declared, (key, aux), new_);
      AddType(new_);
    }

    method AddType(t: IndType)
      requires TypesValid() && SourceOk(t) && Reserved(t.name)
      modifies this`newTypes, this`sources
      ensures TypesValid() && newTypes == old(newTypes) + [t] && sources == old(sources) + [t]
    {
      newTypes := newTypes + [t];
      sources := sources + [t];
      assert TypeNames(newTypes) == TypeNames(old(newTypes)) + {t.name} by {
        assert forall u :: u in newTypes <==> u in old(newTypes) || u == t;
      }
    }

    // ---------------------------------------------------------------- nested occurrences

    method IsNestedInductiveApp(e: Expr) returns (nested: bool, loose: bool)
      requires TypesValid() && Plain(e)
      ensures nested <==> Nested(env, own, e)
      ensures nested ==> (loose <==> AnyLoose(ParamArgs(env, e)))
    {
      nested, loose := false, false;
      if !e.App? {
        return;
      }
      var fn, args := GetAppArgs(e);
      if !fn.Const? || fn.name !in env || !env[fn.name].Inductive? || env[fn.name].nparams > |args| {
        return;
      }
      SpinePlain(e);
      for i := 0 to env[fn.name].nparams
        invariant nested <==> AnyMentions(args[..i], own)
        invariant loose <==> AnyLoose(args[..i])
      {
        MentionsOwn(args[i], own, newTypes);
        assert args[..i + 1] == args[..i] + [args[i]];
        if LooseRange(args[i]) > 0 {
          loose := true;
        }
        if Mentions(args[i], TypeNames(newTypes)) {
          nested := true;
        }
      }
    }

    method FindEntry(key: Expr) returns (r: Option<nat>)
      ensures r == Find(nestedAux, key)
    {
      for i := 0 to |nestedAux|
        invariant Find(nestedAux, key) == After(Find(nestedAux[i..], key), i)
      {
        hide Find, Same;
        FindStep(nestedAux, key, i);
        if Same(nestedAux[i].0, key) {
          return Some(i);
        }
      }
      r := None;
    }

    /** Add one member of the mutual declaration of `fn`; it is what a search for `key` finds just
        when it is `fn` itself. */
    method AddMember(j: Name, fn: Expr, ds: seq<Expr>, key: Expr, p: Place) returns (aux: Name)
      requires Adding() && MemberOk(env, |ds|, j) && ParamsOk(ds, p.xs) && PlaceOk(p, np, params) && fn.Const?
      requires |p.xs| == |params| && key == Rename(MkApp(fn, ds), p.xs, params)
      modifies this`nestedAux, this`newTypes, this`nextIdx, this`sources
      ensures Adding() && Grown(old(newTypes), old(sources), old(nestedAux), newTypes, sources, nestedAux)
      ensures nestedAux == old(nestedAux) + [(Regrouped(key, j), aux)]
      ensures Find(nestedAux, key) ==
        if Find(old(nestedAux), key).None? && j == fn.name then Some(|old(nestedAux)|) else Find(old(nestedAux), key)
    {
      hide Adding, PlaceOk, ParamsOk, MemberOk, MkApp, Rename, TypeCopy, Regrouped;
      ghost var t0 := nestedAux;
      aux := AddAux(j, fn.levels, ds, p);
      KeyRegrouped(fn, ds, p.xs, params, j);
      if j != fn.name {
        OtherMember(t0, key, j, fn, ds, p.xs, params, aux);
      } else if Find(t0, key).None? {
        FindAppended(t0, key, aux);
      } else {
        FindPrefix(t0, [(key, aux)], key);
      }
    }

    /** Add the whole mutual declaration of the nested type; the result is the auxiliary copy of
        the type itself. */
    method AddAll(fn: Expr, ds: seq<Expr>, rest: seq<Expr>, key: Expr, p: Place) returns (r: Expr)
      requires Valid() && ParamsOk(ds, p.xs) && PlaceOk(p, np, params)
      requires fn.Const? && fn.name in env && env[fn.name].Inductive? && env[fn.name].nparams == |ds|
      requires |p.xs| == |params| && key == Rename(MkApp(fn, ds), p.xs, params) && Find(nestedAux, key).None?
      modifies this`nestedAux, this`newTypes, this`nextIdx, this`sources
      ensures Valid() && Grown(old(newTypes), old(sources), old(nestedAux), newTypes, sources, nestedAux)
      ensures Find(nestedAux, key).Some? && AddedFor(env, old(nestedAux), nestedAux, {key})
      ensures r == MkApp(AuxHead(St(), nestedAux, p.xs)(Find(nestedAux, key).value), rest)
    {
      hide Valid, Adding, Grown, Progress, PlaceOk, ParamsOk, MembersOk, MemberOk, Find, Distinct, MkApp, Rename, EnvOk;
      hide AddedGroup, SharedGroup, Members, Regrouped, Grouped, AuxApp, AddedFor;
      var all := env[fn.name].all;
      ValidParts();
      TypeMembers(env, fn.name);
      KeyGroup(env, fn, ds, p.xs, params);
      var result: Option<Expr> := None;
      ghost var n0, s0, t0 := newTypes, sources, nestedAux;
      GrownSelf();
      ProgressStart(all, fn.name, nestedAux, key, lvls, p.xs, rest);
      GroupStart(nestedAux, key, all);
      for i := 0 to |all|
        invariant Adding() && Grown(n0, s0, t0, newTypes, sources, nestedAux)
        invariant AddedGroup(t0, nestedAux, key, all, i)
        invariant Progress(all, i, fn.name, result, nestedAux, key, lvls, p.xs, rest)
      {
        ghost var n1, s1, t1, r1 := newTypes, sources, nestedAux, result;
        MemberAt(env, |ds|, all, i);
        var aux := AddMember(all[i], fn, ds, key, p);
        GrownTrans(n0, s0, t0, n1, s1, t1, newTypes, sources, nestedAux);
        GrownTable(n1, s1, t1, newTypes, sources, nestedAux);
        if all[i] == fn.name {
          result := Some(AuxApp(aux, lvls, p.xs, rest));
        }
        GroupStep(t0, t1, nestedAux, key, all, i, aux);
        ProgressStep(all, i, fn.name, r1, result, t1, nestedAux, key, lvls, p.xs, rest);
      }
      GroupAdded(env, t0, nestedAux, key);
      ValidWhole();
      ProgressEnd(all, fn.name, result, nestedAux, key, St(), p.xs, rest);
      r := result.value;
    }

    ghost method ValidParts()
      requires Valid()
      ensures Adding() && Grouped(env, nestedAux) && EnvOk(env)
    {
    }

    ghost method ValidWhole()
      requires Adding() && Grouped(env, nestedAux)
      ensures Valid()
    {
    }

    /** The search for an existing entry, or the addition of the whole mutual declaration. */
    method ReplaceOccurrence(e: Expr, p: Place) returns (r: Expr)
      requires Valid() && PlaceOk(p, np, params) && Plain(e) && VarsFrom(e, p.xs) && |p.xs| == |params|
      requires Nested(env, own, e) && !AnyLoose(ParamArgs(env, e))
      modifies this`nestedAux, this`newTypes, this`nextIdx, this`sources
      ensures Valid() && Grown(old(newTypes), old(sources), old(nestedAux), newTypes, sources, nestedAux)
      ensures AddedFor(env, old(nestedAux), nestedAux, {Key(St(), p.xs, e)}) && Find(nestedAux, Key(St(), p.xs, e)).Some?
      ensures r == MkApp(AuxHead(St(), nestedAux, p.xs)(Find(nestedAux, Key(St(), p.xs, e)).value), IndexArgs(env, e))
    {
      hide Valid, PlaceOk, ParamsOk, MkApp, Grown, AnyLoose, AnyMentions, AddedFor;
      AddedNone(env, nestedAux, {Key(St(), p.xs, e)});
      GrownSelf();
      OccurrenceParams(env, e, p.xs);
      var app := Applied(env, e);
      ReopenIsRename(app, p.xs, params);
      var key := InstRev(Abstract(app, 0, p.xs), MkFVars(params));
      var found := FindEntry(key);
      if found.Some? {
        r := AuxApp(nestedAux[found.value].1, lvls, p.xs, IndexArgs(env, e));
      } else {
        r := AddAll(AppFn(e), ParamArgs(env, e), IndexArgs(env, e), key, p);
      }
    }

    /** `replace_if_nested`: `ok` is false for a parameter with a loose index. */
    method ReplaceIfNested(e: Expr, p: Place) returns (ok: bool, r: Option<Expr>)
      requires Valid() && PlaceOk(p, np, params) && Plain(e) && VarsFrom(e, p.xs)
      modifies this`nestedAux, this`newTypes, this`nextIdx, this`sources
      ensures ok <==> !(Nested(env, own, e) && AnyLoose(ParamArgs(env, e)))
      ensures Valid() && Grown(old(newTypes), old(sources), old(nestedAux), newTypes, sources, nestedAux)
      ensures ok ==> (r.Some? <==> Nested(env, own, e))
      ensures ok ==> AddedFor(env, old(nestedAux), nestedAux, if Nested(env, own, e) then {Key(St(), p.xs, e)} else {})
      ensures ok && r.Some? ==> Find(nestedAux, Key(St(), p.xs, e)).Some?
      ensures ok && r.Some? ==>
        r.value == MkApp(AuxHead(St(), nestedAux, p.xs)(Find(nestedAux, Key(St(), p.xs, e)).value), IndexArgs(env, e))
      ensures ok && r.Some? ==> Retyped(env, lvls, np, sources, e, r.value)
    {
      var nested, loose := IsNestedInductiveApp(e);
      AddedNone(env, nestedAux, if nested then {Key(St(), p.xs, e)} else {});
      if !nested {
        return true, None;
      }
      if loose {
        return false, None;
      }
      var v := ReplaceOccurrence(e, p);
      OccurrenceRetyped(e, p);
      return true, Some(v);
    }

    ghost method OccurrenceRetyped(e: Expr, p: Place)
      requires Valid() && PlaceOk(p, np, params) && VarsFrom(e, p.xs) && |p.xs| == |params|
      requires InductiveApp(env, e) && Find(nestedAux, Key(St(), p.xs, e)).Some?
      ensures Retyped(env, lvls, np, sources, e,
        MkApp(AuxHead(St(), nestedAux, p.xs)(Find(nestedAux, Key(St(), p.xs, e)).value), IndexArgs(env, e)))
    {
      hide EnvOk, TypesValid, AllCopies, AllTyped, Retyped, Find, Key, MkApp, InductiveApp, Declares;
      OccurrenceTyped(St(), nestedAux, sources, declared, p.xs, e);
    }

    // ---------------------------------------------------------------- the traversal

    /** Replace all nested occurrences below `offset` binders; `ok` is false when one of them has a
        parameter with a loose index. */
    method ReplaceAllNested(e: Expr, offset: nat, p: Place) returns (ok: bool, r: Expr)
      requires Valid() && PlaceOk(p, np, params) && |p.xs| == |params| && Plain(e) && VarsFrom(e, p.xs)
      requires ResultsOk(St(), nestedAux, p.xs, cache)
      modifies this`nestedAux, this`newTypes, this`nextIdx, this`sources, this`cache
      ensures ok <==> NoLooseParams(St(), e)
      ensures Valid() && Grown(old(newTypes), old(sources), old(nestedAux), newTypes, sources, nestedAux)
      ensures ok ==> ResultsOk(St(), nestedAux, p.xs, cache) && Visited(St(), nestedAux, p.xs, e, offset, r)
      ensures ok ==> AddedFor(env, old(nestedAux), nestedAux, Keys(St(), p.xs, e))
      decreases e, 1
    {
      hide Valid, PlaceOk, VarsFrom, Grown, NoLooseParams, Plain, Nested, ResultsOk, Visited, AddedFor, Keys;
      KeysTop(St(), p.xs, e);
      var shared: bool := *;
      if shared && (e, offset) in cache {
        ResultsHit(St(), nestedAux, p.xs, cache, e, offset);
        VisitedNoLoose(St(), nestedAux, p.xs, e, offset, cache[(e, offset)]);
        AddedNone(env, nestedAux, Keys(St(), p.xs, e));
        GrownSelf();
        return true, cache[(e, offset)];
      }
      ghost var n0, s0, t0 := newTypes, sources, nestedAux;
      var c;
      ok, c := ReplaceIfNested(e, p);
      NoLooseTop(St(), e);
      if !ok {
        return false, e;
      }
      ResultsGrow(St(), n0, s0, t0, newTypes, sources, nestedAux, p.xs, cache);
      if c.Some? {
        r := c.value;
        VisitedTop(St(), nestedAux, p.xs, e, offset);
      } else {
        ghost var n1, s1, t1 := newTypes, sources, nestedAux;
        ok, r := ReplaceChildren(e, offset, p);
        GrownTrans(n0, s0, t0, n1, s1, t1, newTypes, sources, nestedAux);
        if !ok {
          return;
        }
        AddedTrans(env, t0, t1, nestedAux, {}, Keys(St(), p.xs, e));
        assert {} + Keys(St(), p.xs, e) == Keys(St(), p.xs, e);
      }
      if shared {
        ResultsSaved(St(), nestedAux, p.xs, cache, e, offset, r);
        cache := cache[(e, offset) := r];
      }
    }

    ghost method GrownSelf()
      requires Valid()
      ensures Grown(newTypes, sources, nestedAux, newTypes, sources, nestedAux)
    {
    }

    method ReplaceTwo(a: Expr, b: Expr, offset: nat, shift: nat, p: Place, ghost e: Expr) returns (ok: bool, r: Expr, s: Expr)
      requires Valid() && PlaceOk(p, np, params) && |p.xs| == |params|
      requires a < e && b < e && Plain(a) && VarsFrom(a, p.xs) && Plain(b) && VarsFrom(b, p.xs)
      requires ResultsOk(St(), nestedAux, p.xs, cache)
      modifies this`nestedAux, this`newTypes, this`nextIdx, this`sources, this`cache
      ensures ok <==> NoLooseParams(St(), a) && NoLooseParams(St(), b)
      ensures Valid() && Grown(old(newTypes), old(sources), old(nestedAux), newTypes, sources, nestedAux)
      ensures ok ==> ResultsOk(St(), nestedAux, p.xs, cache)
      ensures ok ==> Visited(St(), nestedAux, p.xs, a, offset, r) && Visited(St(), nestedAux, p.xs, b, offset + shift, s)
      ensures ok ==> AddedFor(env, old(nestedAux), nestedAux, Keys(St(), p.xs, a) + Keys(St(), p.xs, b))
      decreases e, 0, 0, 0
    {
      hide Valid, PlaceOk, VarsFrom, Grown, NoLooseParams, Plain, ResultsOk, Visited, AddedFor, Keys;
      ghost var n0, s0, t0 := newTypes, sources, nestedAux;
      s := b;
      ok, r := ReplaceAllNested(a, offset, p);
      if !ok {
        return;
      }
      ghost var n1, s1, t1 := newTypes, sources, nestedAux;
      ok, s := ReplaceAllNested(b, offset + shift, p);
      GrownTrans(n0, s0, t0, n1, s1, t1, newTypes, sources, nestedAux);
      VisitedGrows(St(), n1, s1, t1, newTypes, sources, nestedAux, p.xs, a, offset, r);
      if ok { AddedTrans(env, t0, t1, nestedAux, Keys(St(), p.xs, a), Keys(St(), p.xs, b)); }
    }

    method ReplaceChildren(e: Expr, offset: nat, p: Place) returns (ok: bool, r: Expr)
      requires Valid() && PlaceOk(p, np, params) && |p.xs| == |params| && Plain(e) && VarsFrom(e, p.xs)
      requires ResultsOk(St(), nestedAux, p.xs, cache) && !Nested(env, own, e)
      modifies this`nestedAux, this`newTypes, this`nextIdx, this`sources, this`cache
      ensures ok <==> NoLooseParams(St(), e)
      ensures Valid() && Grown(old(newTypes), old(sources), old(nestedAux), newTypes, sources, nestedAux)
      ensures ok ==> ResultsOk(St(), nestedAux, p.xs, cache) && Visited(St(), nestedAux, p.xs, e, offset, r)
      ensures ok ==> AddedFor(env, old(nestedAux), nestedAux, Keys(St(), p.xs, e))
      decreases e, 0, 1
    {
      hide Valid, PlaceOk, Grown, ResultsOk, Nested, AddedFor, Keys;
      KeysBelow(St(), p.xs, e);
      var s: Expr;
      match e
      case App(f, a) =>
        ok, r, s := ReplaceTwo(f, a, offset, 0, p, e);
        r := App(r, s);
      case Lambda(n, t, b) =>
        ok, r, s := ReplaceTwo(t, b, offset, 1, p, e);
        r := Lambda(n, r, s);
      case Pi(n, t, b) =>
        ok, r, s := ReplaceTwo(t, b, offset, 1, p, e);
        r := Pi(n, r, s);
      case Let(n, t, v, b, nd) =>
        ok, r := ReplaceLet(e, offset, p);
      case MData(m, x) =>
        ok, r := ReplaceAllNested(x, offset, p);
        r := MData(m, r);
      case Proj(n, i, x) =>
        ok, r := ReplaceAllNested(x, offset, p);
        r := Proj(n, i, r);
      case _ =>
        ok, r := true, e;
        AddedNone(env, nestedAux, {});
        GrownSelf();
    }

    method ReplaceLet(e: Expr, offset: nat, p: Place) returns (ok: bool, r: Expr)
      requires Valid() && PlaceOk(p, np, params) && |p.xs| == |params| && Plain(e) && VarsFrom(e, p.xs)
      requires ResultsOk(St(), nestedAux, p.xs, cache) && !Nested(env, own, e) && e.Let?
      modifies this`nestedAux, this`newTypes, this`nextIdx, this`sources, this`cache
      ensures ok <==> NoLooseParams(St(), e)
      ensures Valid() && Grown(old(newTypes), old(sources), old(nestedAux), newTypes, sources, nestedAux)
      ensures ok ==> ResultsOk(St(), nestedAux, p.xs, cache) && Visited(St(), nestedAux, p.xs, e, offset, r)
      ensures ok ==> AddedFor(env, old(nestedAux), nestedAux, Keys(St(), p.xs, e))
      decreases e, 0, 0, 1
    {
      hide Valid, PlaceOk, Grown, ResultsOk, Nested, AddedFor, Keys;
      KeysBelow(St(), p.xs, e);
      ghost var n0, s0, t0 := newTypes, sources, nestedAux;
      var t, v, b;
      ok, t, v := ReplaceTwo(e.letType, e.letValue, offset, 0, p, e);
      r := e;
      if !ok {
        return;
      }
      ghost var n1, s1, t1 := newTypes, sources, nestedAux;
      ok, b := ReplaceAllNested(e.letBody, offset + 1, p);
      GrownTrans(n0, s0, t0, n1, s1, t1, newTypes, sources, nestedAux);
      if !ok {
        return;
      }
      VisitedGrows(St(), n1, s1, t1, newTypes, sources, nestedAux, p.xs, e.letType, offset, t);
      VisitedGrows(St(), n1, s1, t1, newTypes, sources, nestedAux, p.xs, e.letValue, offset, v);
      AddedTrans(env, t0, t1, nestedAux, Keys(St(), p.xs, e.letType) + Keys(St(), p.xs, e.letValue), Keys(St(), p.xs, e.letBody));
      r := Let(e.letName, t, v, b, e.nondep);
    }

    // ---------------------------------------------------------------- the queue

    /** The parameters of the declaration are the first names generated. */
    ghost predicate ParamsFirst()
      reads this`params, this`nextFresh
    {
      params == FreshFrom(0, np) && np <= nextFresh
    }

    /** Rewrite one constructor type over its own copy of the parameters. */
    method ElimCtorType(t: Expr) returns (ok: bool, r: Expr)
      requires Valid() && ParamsFirst() && Clean(t)
      modifies this`nestedAux, this`newTypes, this`nextIdx, this`sources, this`cache, this`nextFresh
      ensures ok <==> HasPis(t, np) && NoLooseParams(St(), Opened(t, FreshFrom(old(nextFresh), np)))
      ensures Valid() && ParamsFirst() && (ok ==> nextFresh == old(nextFresh) + np)
      ensures Grown(old(newTypes), old(sources), old(nestedAux), newTypes, sources, nestedAux)
      ensures ok ==> DoneWithin(St(), nestedAux, nextFresh, old(nextFresh), t, r)
      ensures ok ==> AddedFor(env, old(nestedAux), nestedAux, CtorKeys(St(), t))
    {
      hide Valid, Adding, Grown, NoLooseParams, DoneWithin, Declares, PlaceOk, VarsFrom, Plain, AddedFor, Keys, CtorKeys, Clean;
      CleanClosed(t);
      r := t;
      var lctx, xs, e;
      ok, lctx, xs, e := GetParams(t, np, nextFresh);
      if !ok {
        GrownSelf();
        return;
      }
      var p := Place(lctx, xs, t);
      PlaceReady(St(), np, nextFresh, p);
      OpenedKeys(St(), t, xs);
      nextFresh := nextFresh + np;
      ok, r := ElimOpened(p, e, nextFresh - np);
    }

    /** Rewrite below the parameters and bind them again. */
    method ElimOpened(p: Place, e: Expr, ghost a: nat) returns (ok: bool, r: Expr)
      requires Valid() && PlaceOk(p, np, params) && p.xs == FreshFrom(a, np) && |params| == np
      requires e == Opened(p.typ, p.xs) && Plain(e) && VarsFrom(e, p.xs)
      modifies this`nestedAux, this`newTypes, this`nextIdx, this`sources, this`cache
      ensures ok <==> NoLooseParams(St(), e)
      ensures Valid() && Grown(old(newTypes), old(sources), old(nestedAux), newTypes, sources, nestedAux)
      ensures ok ==> DoneWithin(St(), nestedAux, a + np, a, p.typ, r)
      ensures ok ==> AddedFor(env, old(nestedAux), nestedAux, Keys(St(), p.xs, e))
    {
      hide Valid, Grown, NoLooseParams, Visited, DoneWithin, VarsFrom, Plain, ResultsOk, AddedFor, Keys;
      cache := map[];
      NoResults(St(), nestedAux, p.xs);
      ok, r := ReplaceAllNested(e, 0, p);
      if ok {
        r := CloseCtor(St(), nestedAux, np, a, p, r);
      }
    }

    /** Rewrite the constructors of one type, in order. */
    method ElimCtors(cs: seq<Ctor>) returns (ok: bool, r: seq<Ctor>)
      requires Valid() && ParamsFirst() && forall c :: c in cs ==> Clean(c.typ)
      modifies this`nestedAux, this`newTypes, this`nextIdx, this`sources, this`cache, this`nextFresh
      ensures Valid() && ParamsFirst() && (ok ==> old(nextFresh) <= nextFresh)
      ensures Grown(old(newTypes), old(sources), old(nestedAux), newTypes, sources, nestedAux)
      ensures if ok then DoneCtors(St(), nestedAux, nextFresh, cs, r) else exists c :: c in cs && Rejected(St(), np, c.typ)
      ensures ok ==> AddedFor(env, old(nestedAux), nestedAux, CtorsKeys(St(), cs))
    {
      hide Valid, Grown, DoneWithin, DoneCtors, Clean, AddedFor, CtorKeys;
      AddedNone(env, nestedAux, {});
      r := [];
      ghost var n0, s0, t0 := newTypes, sources, nestedAux;
      GrownSelf();
      NoCtorsDone(St(), nestedAux, nextFresh);
      assert cs[..0] == [];
      for i := 0 to |cs|
        invariant Valid() && ParamsFirst() && old(nextFresh) <= nextFresh
        invariant Grown(n0, s0, t0, newTypes, sources, nestedAux)
        invariant DoneCtors(St(), nestedAux, nextFresh, cs[..i], r)
        invariant AddedFor(env, t0, nestedAux, CtorsKeys(St(), cs[..i]))
      {
        ghost var n1, s1, t1, f1 := newTypes, sources, nestedAux, nextFresh;
        var t;
        ok, t := ElimCtorType(cs[i].typ);
        GrownTrans(n0, s0, t0, n1, s1, t1, newTypes, sources, nestedAux);
        if !ok {
          CtorRejected(St(), np, f1, cs[i].typ);
          assert cs[i] in cs;
          return;
        }
        GrownTable(n1, s1, t1, newTypes, sources, nestedAux);
        DoneCtorsGrow(St(), t1, nestedAux, f1, nextFresh, cs[..i], r);
        DoneCtorsSnoc(St(), nestedAux, nextFresh, f1, cs[..i], r, cs[i], t);
        AddedTrans(env, t0, t1, nestedAux, CtorsKeys(St(), cs[..i]), CtorKeys(St(), cs[i].typ));
        CtorsKeysSnoc(St(), cs, i);
        assert cs[..i + 1] == cs[..i] + [cs[i]];
        r := r + [Ctor(cs[i].name, t)];
      }
      assert cs[..|cs|] == cs;
      ok := true;
    }

    /** Put the rewritten type back in its place. */
    method SetType(q: nat, t: IndType)
      requires Valid() && q < |newTypes| && t.name == newTypes[q].name
      modifies this`newTypes
      ensures Valid() && newTypes == old(newTypes)[q := t]
    {
      ghost var n0 := newTypes;
      newTypes := newTypes[q := t];
      forall n ensures n in TypeNames(newTypes) <==> n in TypeNames(n0) { SameNames(n0, q, t, n); }
    }

    /** `operator()`: process the queue of types until it is empty, at most `fuel` of them.  It fails
        for a type without the parameters or with a nested occurrence that has a loose parameter,
        and it stops early only when more than `fuel` types are queued. */
    method Run(fuel: nat) returns (res: Outcome)
      requires EnvOk(env) && params == [] && nestedAux == [] && newTypes == sources && nextFresh == 0
      requires SourcesOk(sources) && own == TypeNames(newTypes) && declared == |sources|
      modifies this
      ensures old(sources) <= sources && AllCopies(env, sources, declared)
      ensures !res.IllFormed? ==> Valid() && ParamsFirst() && AddedFor(env, [], nestedAux, DeclKeys(St(), sources))
      ensures res.Finished? ==> QueueOk(St(), nestedAux, nextFresh, sources, newTypes, |newTypes|)
      ensures res.Finished? ==> |newTypes| <= fuel && Settled(env, nestedAux, DeclKeys(St(), old(sources)))
      ensures res.Finished? ==> AuxDeclaration(St(), old(sources), newTypes)
      ensures res.OutOfFuel? ==> |newTypes| > fuel
      ensures res.IllFormed? ==> sources == [] || !HasPis(sources[0].typ, np) || (ParamsFirst() && Rejects(St(), np, sources))
    {
      hide EnvOk, SourcesOk, QueueOk, Settled, AddedFor, Rejects, Adding, TypeNames;
      if newTypes == [] {
        return IllFormed;
      }
      var ok := InitParams();
      if !ok {
        return IllFormed;
      }
      res := Process(fuel, sources);
      if res.Finished? {
        AuxWhole(old(sources));
      }
    }

    /** What a finished queue holds. */
    ghost method AuxWhole(types: seq<IndType>)
      requires Valid() && declared == |types| && types <= sources
      requires QueueOk(St(), nestedAux, nextFresh, sources, newTypes, |newTypes|)
      ensures AuxDeclaration(St(), types, newTypes)
    {
      hide EnvOk, AllCopies, AllTyped, QueueOk, NamesOk, TableOk, AllMade, Grouped, SourcesOk, TypesRewritten;
      QueueRewritten(St(), nestedAux, nextFresh, sources, newTypes, declared);
      assert AuxDeclarationBy(St(), types, newTypes, nestedAux, sources);
    }

    /** The main loop. */
    method Process(fuel: nat, ghost s: seq<IndType>) returns (res: Outcome)
      requires Valid() && ParamsFirst() && nestedAux == [] && newTypes == sources == s
      modifies this`nestedAux, this`newTypes, this`nextIdx, this`sources, this`cache, this`nextFresh
      ensures Valid() && ParamsFirst() && s <= sources && AllCopies(env, sources, declared)
      ensures !res.IllFormed? ==> AddedFor(env, [], nestedAux, DeclKeys(St(), sources))
      ensures res.Finished? ==> QueueOk(St(), nestedAux, nextFresh, sources, newTypes, |newTypes|)
      ensures res.Finished? ==> |newTypes| <= fuel && Settled(env, nestedAux, DeclKeys(St(), s))
      ensures res.OutOfFuel? ==> |newTypes| > fuel
      ensures res.IllFormed? ==> Rejects(St(), np, sources)
    {
      hide Adding, Valid, QueueOk, AddedFor, AllCopies, Settled, DeclKeys, Rejects;
      QueueStart(St(), nestedAux, nextFresh, s);
      var qhead: nat, steps := 0, fuel;
      NothingSettled(St(), s, nestedAux);
      while qhead < |newTypes|
        invariant Valid() && ParamsFirst() && s <= sources && qhead <= |newTypes| == |sources|
        invariant QueueOk(St(), nestedAux, nextFresh, sources, newTypes, qhead) && qhead + steps == fuel
        invariant AddedFor(env, [], nestedAux, DeclKeys(St(), sources[..qhead]))
        invariant SettledFrom(St(), nestedAux, s, qhead)
        decreases steps
      {
        if steps == 0 {
          AllAdded(St(), nestedAux, sources, qhead);
          ValidCopies();
          return OutOfFuel;
        }
        steps := steps - 1;
        var ok := ElimHead(qhead, s);
        if !ok {
          ValidCopies();
          return IllFormed;
        }
        qhead := qhead + 1;
      }
      ValidCopies();
      AllAdded(St(), nestedAux, sources, qhead);
      assert qhead >= |s|;
      res := Finished;
    }

    ghost method ValidCopies()
      requires Valid()
      ensures AllCopies(env, sources, declared)
    {
    }

    /** Rewrite the type at the head of the queue. */
    method ElimHead(qhead: nat, ghost s: seq<IndType>) returns (ok: bool)
      requires Valid() && ParamsFirst() && qhead < |newTypes| == |sources|
      requires QueueOk(St(), nestedAux, nextFresh, sources, newTypes, qhead) && s <= sources
      requires AddedFor(env, [], nestedAux, DeclKeys(St(), sources[..qhead])) && SettledFrom(St(), nestedAux, s, qhead)
      modifies this`nestedAux, this`newTypes, this`nextIdx, this`sources, this`cache, this`nextFresh
      ensures Valid() && ParamsFirst() && qhead < |newTypes| == |sources| && old(sources) <= sources
      ensures if ok then QueueOk(St(), nestedAux, nextFresh, sources, newTypes, qhead + 1) else Rejects(St(), np, sources)
      ensures ok ==> AddedFor(env, [], nestedAux, DeclKeys(St(), sources[..qhead + 1])) && SettledFrom(St(), nestedAux, s, qhead + 1)
    {
      var t := newTypes[qhead];
      HeadOk(St(), nestedAux, nextFresh, sources, newTypes, qhead);
      ghost var n0, s0, t0, f0 := newTypes, sources, nestedAux, nextFresh;
      hide Valid, QueueOk, Grown, DoneCtors, Clean, AddedFor, DeclKeys, CtorsKeys, SettledFrom, Settled;
      var cs;
      ok, cs := ElimCtors(t.ctors);
      ghost var n1 := newTypes;
      QueueGrows(St(), n0, s0, t0, newTypes, sources, nestedAux, f0, if ok then nextFresh else f0, qhead);
      if !ok {
        assert sources[qhead] == t && t in sources;
        TypeRejected(St(), np, sources, t);
        return;
      }
      var t' := IndType(t.name, t.typ, cs);
      QueueStep(St(), nestedAux, nextFresh, sources, newTypes, qhead, t, t');
      HeadAdded(St(), t0, nestedAux, s0, sources, qhead);
      SetType(qhead, t');
      GrownTable(n0, s0, t0, n1, sources, nestedAux);
      SettledStep(St(), t0, nestedAux, nextFresh, sources, newTypes, s, qhead);
    }

    /** The parameters of the first type become the parameters of the declaration. */
    method InitParams() returns (ok: bool)
      requires EnvOk(env) && params == [] && nestedAux == [] && newTypes == sources && nextFresh == 0 && newTypes != []
      requires SourcesOk(sources) && own == TypeNames(newTypes) && declared == |sources|
      modifies this`params, this`nextFresh
      ensures ok ==> Valid() && ParamsFirst()
      ensures ok <==> HasPis(newTypes[0].typ, np)
    {
      assert newTypes[0] in sources && SourceOk(newTypes[0]);
      assert AllCopies(env, sources, declared) && Grouped(env, nestedAux);
      hide EnvOk, SourcesOk, Declares;
      var lctx, xs, e;
      ok, lctx, xs, e := GetParams(newTypes[0].typ, np, nextFresh);
      params := xs;
      nextFresh := np;
    }
  }

  // ---------------------------------------------------------------- where added types come from

  ghost predicate CopiesSome(env: Env, t: IndType) {
    exists j :: j in env && env[j].Inductive? && |t.ctors| == |env[j].ctors|
  }

  /** From the `n`-th on the types are copies of types of the environment. */
  ghost predicate AllCopies(env: Env, types: seq<IndType>, n: nat) {
    n <= |types| && forall q :: n <= q < |types| ==> CopiesSome(env, types[q])
  }

  lemma {:induction false} CopyAdded(env: Env, types: seq<IndType>, n: nat, j: Name, t: IndType)
    requires AllCopies(env, types, n) && j in env && env[j].Inductive? && |t.ctors| == |env[j].ctors|
    ensures AllCopies(env, types + [t], n)
  {
    assert CopiesSome(env, t);
  }

  lemma {:induction false} KeyRegrouped(fn: Expr, ds: seq<Expr>, xs: seq<Name>, ps: seq<Name>, j: Name)
    requires |xs| == |ps| && fn.Const?
    ensures Regrouped(Rename(MkApp(fn, ds), xs, ps), j) == Rename(MkApp(Const(j, fn.levels), ds), xs, ps)
    ensures AppFn(Rename(MkApp(fn, ds), xs, ps)) == fn
  {
    hide MkApp;
    RenameApp(fn, ds, xs, ps);
    RenameApp(Const(j, fn.levels), ds, xs, ps);
    SpineOfMkApp(fn, RenameAll(ds, xs, ps));
    assert AppArgs(fn) + RenameAll(ds, xs, ps) == RenameAll(ds, xs, ps);
  }

  /** The types declared together with the head of a nested type. */
  lemma {:induction false} KeyGroup(env: Env, fn: Expr, ds: seq<Expr>, xs: seq<Name>, ps: seq<Name>)
    requires EnvOk(env) && |xs| == |ps| && fn.Const? && fn.name in env && env[fn.name].Inductive?
    ensures var key := Rename(MkApp(fn, ds), xs, ps);
      SharedGroup(env, key) && Members(env, key) == env[fn.name].all && AppFn(key) == fn
  {
    hide MkApp, Rename, Regrouped, MemberOk;
    var key := Rename(MkApp(fn, ds), xs, ps);
    KeyRegrouped(fn, ds, xs, ps, fn.name);
    TypeMembers(env, fn.name);
    forall j | j in Members(env, key) ensures Members(env, Regrouped(key, j)) == Members(env, key) {
      assert TypeOk(env, fn.name);
      MemberInductive(env, env[fn.name].nparams, j);
      RegroupedSpine(key, j);
    }
  }

  lemma {:induction false} MemberInductive(env: Env, np: nat, j: Name)
    requires MemberOk(env, np, j)
    ensures j in env && env[j].Inductive?
  {
  }

  lemma {:induction false} KeysBelow(st: Setting, xs: seq<Name>, e: Expr)
    requires |xs| == |st.ps| && !Nested(st.env, st.own, e)
    ensures match e
      case App(f, a) => Keys(st, xs, e) == Keys(st, xs, f) + Keys(st, xs, a)
      case Lambda(_, t, b) => Keys(st, xs, e) == Keys(st, xs, t) + Keys(st, xs, b)
      case Pi(_, t, b) => Keys(st, xs, e) == Keys(st, xs, t) + Keys(st, xs, b)
      case Let(_, t, v, b, _) => Keys(st, xs, e) == Keys(st, xs, t) + Keys(st, xs, v) + Keys(st, xs, b)
      case MData(_, x) => Keys(st, xs, e) == Keys(st, xs, x)
      case Proj(_, _, x) => Keys(st, xs, e) == Keys(st, xs, x)
      case _ => Keys(st, xs, e) == {}
  {
  }

  lemma {:induction false} KeysTop(st: Setting, xs: seq<Name>, e: Expr)
    requires |xs| == |st.ps|
    ensures Nested(st.env, st.own, e) ==> Keys(st, xs, e) == {Key(st, xs, e)}
  {
  }

  // ---------------------------------------------------------------- the declared types are settled

  /** Once the declared types `s` are processed their nested types have entries made for them. */
  ghost predicate SettledFrom(st: Setting, tbl: Table, s: seq<IndType>, qhead: nat) {
    qhead >= |s| ==> Settled(st.env, tbl, DeclKeys(st, s))
  }

  lemma {:induction false} NothingSettled(st: Setting, s: seq<IndType>, tbl: Table)
    requires tbl == []
    ensures SettledFrom(st, tbl, s, 0) && AddedFor(st.env, [], tbl, DeclKeys(st, s[..0]))
  {
  }

  lemma {:induction false} QueueStart(st: Setting, tbl: Table, bound: nat, s: seq<IndType>)
    ensures QueueOk(st, tbl, bound, s, s, 0)
  {
  }

  lemma {:induction false} AllAdded(st: Setting, tbl: Table, types: seq<IndType>, i: nat)
    requires i <= |types| && AddedFor(st.env, [], tbl, DeclKeys(st, types[..i]))
    ensures AddedFor(st.env, [], tbl, DeclKeys(st, types))
  {
    forall k | k in DeclKeys(st, types[..i]) ensures k in DeclKeys(st, types) { DeclKeysPrefix(st, types, i, k); }
    AddedMore(st.env, [], tbl, DeclKeys(st, types[..i]), DeclKeys(st, types));
  }

  lemma {:induction false} HeadAdded(st: Setting, t0: Table, t1: Table, s0: seq<IndType>, s1: seq<IndType>, q: nat)
    requires q < |s0| && s0 <= s1
    requires AddedFor(st.env, [], t0, DeclKeys(st, s0[..q])) && AddedFor(st.env, t0, t1, CtorsKeys(st, s0[q].ctors))
    ensures AddedFor(st.env, [], t1, DeclKeys(st, s1[..q + 1]))
  {
    hide AddedFor;
    AddedTrans(st.env, [], t0, t1, DeclKeys(st, s0[..q]), CtorsKeys(st, s0[q].ctors));
    DeclKeysSnoc(st, s0, q);
    assert s1[..q + 1] == s0[..q + 1];
  }

  lemma {:induction false} SettledStep(st: Setting, t0: Table, t1: Table, bound: nat, sources: seq<IndType>, types: seq<IndType>, s: seq<IndType>, q: nat)
    requires |t0| <= |t1| && t1[..|t0|] == t0 && SettledFrom(st, t0, s, q) && s <= sources && q < |types|
    requires QueueOk(st, t1, bound, sources, types, q + 1) && SourcesOk(sources) && Distinct(st.ps)
    requires AddedFor(st.env, [], t1, DeclKeys(st, sources[..q + 1]))
    ensures SettledFrom(st, t1, s, q + 1)
  {
    hide Settled, AddedFor, DeclKeys, QueueOk, SourcesOk;
    if q >= |s| {
      SettledGrows(st.env, t0, t1, DeclKeys(st, s));
    } else if q + 1 == |s| {
      assert sources[..q + 1] == s;
      DeclFound(st, t1, bound, sources, types, q + 1);
      SettledFromOwn(st.env, t1, DeclKeys(st, s));
    }
  }

  /** All nested types of processed types are found. */
  lemma {:induction false} DeclFound(st: Setting, tbl: Table, bound: nat, sources: seq<IndType>, types: seq<IndType>, q: nat)
    requires QueueOk(st, tbl, bound, sources, types, q) && SourcesOk(sources) && Distinct(st.ps)
    ensures q <= |sources| && AllFound(tbl, DeclKeys(st, sources[..q]))
  {
    for i := 0 to q
      invariant AllFound(tbl, DeclKeys(st, sources[..i]))
    {
      assert DoneType(st, tbl, bound, sources[i], types[i]);
      assert sources[i] in sources && SourceOk(sources[i]);
      CtorsFound(st, tbl, bound, sources[i].ctors, types[i].ctors);
      DeclKeysSnoc(st, sources, i);
    }
  }

  lemma {:induction false} CtorsFound(st: Setting, tbl: Table, bound: nat, cs: seq<Ctor>, rs: seq<Ctor>)
    requires DoneCtors(st, tbl, bound, cs, rs) && Distinct(st.ps) && forall c :: c in cs ==> Clean(c.typ)
    ensures AllFound(tbl, CtorsKeys(st, cs))
  {
    hide DoneCtor, Clean, CtorKeys;
    for i := 0 to |cs|
      invariant AllFound(tbl, CtorsKeys(st, cs[..i]))
    {
      assert cs[i] in cs && DoneCtor(st, tbl, bound, cs[i].typ, rs[i].typ);
      CtorFound(st, tbl, bound, cs[i].typ, rs[i].typ);
      CtorsKeysSnoc(st, cs, i);
    }
    assert cs[..|cs|] == cs;
  }

  lemma {:induction false} CtorFound(st: Setting, tbl: Table, bound: nat, t: Expr, r: Expr)
    requires DoneCtor(st, tbl, bound, t, r) && Distinct(st.ps) && Clean(t)
    ensures AllFound(tbl, CtorKeys(st, t))
  {
    var a: nat :| DoneWithin(st, tbl, bound, a, t, r);
    var xs := FreshFrom(a, |st.ps|);
    CoveredKeys(st, tbl, xs, Opened(t, xs));
    OpenedKeys(st, t, xs);
  }

  // ---------------------------------------------------------------- the auxiliary declaration

  /** `t` is `s` with the nested occurrences in its constructors rewritten. */
  ghost predicate TypeRewritten(st: Setting, sources: seq<IndType>, s: IndType, t: IndType) {
    && t.name == s.name && t.typ == s.typ && |t.ctors| == |s.ctors|
    && forall k :: 0 <= k < |t.ctors| ==>
        t.ctors[k].name == s.ctors[k].name && CtorRewritten(st, sources, s.ctors[k].typ, t.ctors[k].typ)
  }

  ghost predicate TypesRewritten(st: Setting, sources: seq<IndType>, types: seq<IndType>) {
    |types| == |sources| && forall q :: 0 <= q < |types| ==> TypeRewritten(st, sources, sources[q], types[q])
  }

  /** `aux` starts with the declared types and goes on with types that, at the parameters, have the
      types of nested ones; in all of them the nested occurrences are rewritten. */
  ghost predicate AuxDeclaration(st: Setting, types: seq<IndType>, aux: seq<IndType>) {
    exists tbl, sources :: AuxDeclarationBy(st, types, aux, tbl, sources)
  }

  ghost predicate AuxDeclarationBy(st: Setting, types: seq<IndType>, aux: seq<IndType>, tbl: Table, sources: seq<IndType>) {
    types <= sources && AllTyped(st.env, st.ps, tbl, sources, |types|) && TypesRewritten(st, sources, aux)
  }

  lemma {:induction false} CtorsRewritten(st: Setting, tbl: Table, bound: nat, sources: seq<IndType>, n: nat, s: IndType, t: IndType)
    requires TableOk(st, tbl) && AllTyped(st.env, st.ps, tbl, sources, n) && Distinct(st.ps)
    requires DoneType(st, tbl, bound, s, t) && SourceOk(s)
    ensures TypeRewritten(st, sources, s, t)
  {
    hide TableOk, AllTyped, CtorRewritten, ElimType, Clean;
    forall k | 0 <= k < |t.ctors| ensures CtorRewritten(st, sources, s.ctors[k].typ, t.ctors[k].typ) {
      assert s.ctors[k] in s.ctors && DoneCtor(st, tbl, bound, s.ctors[k].typ, t.ctors[k].typ);
      var a: nat :| DoneWithin(st, tbl, bound, a, s.ctors[k].typ, t.ctors[k].typ);
      ElimTypeRewritten(st, tbl, sources, n, FreshFrom(a, |st.ps|), s.ctors[k].typ, t.ctors[k].typ);
    }
  }

  lemma {:induction false} QueueRewritten(st: Setting, tbl: Table, bound: nat, sources: seq<IndType>, types: seq<IndType>, n: nat)
    requires TableOk(st, tbl) && AllTyped(st.env, st.ps, tbl, sources, n) && Distinct(st.ps)
    requires QueueOk(st, tbl, bound, sources, types, |types|) && SourcesOk(sources)
    ensures TypesRewritten(st, sources, types)
  {
    hide TableOk, AllTyped, DoneType, TypeRewritten, SourceOk;
    forall q | 0 <= q < |types| ensures TypeRewritten(st, sources, sources[q], types[q]) {
      assert sources[q] in sources && DoneType(st, tbl, bound, sources[q], types[q]);
      CtorsRewritten(st, tbl, bound, sources, n, sources[q], types[q]);
    }
  }

  /** A position found behind the first `i` entries. */
  function After(r: Option<nat>, i: nat): Option<nat> {
    match r
    case Some(k) => Some(i + k)
    case None => None
  }

  lemma {:induction false} FindStep(tbl: Table, key: Expr, i: nat)
    requires i < |tbl|
    ensures After(Find(tbl[i..], key), i) == if Same(tbl[i].0, key) then Some(i) else After(Find(tbl[i + 1..], key), i + 1)
  {
    hide Same;
    assert tbl[i..][1..] == tbl[i + 1..];
  }

  lemma {:induction false} AppliedOk(j: Name, us: seq<L.Level>, ds: seq<Expr>, xs: seq<Name>)
    requires ParamsOk(ds, xs) && !Reserved(j)
    ensures var app := MkApp(Const(j, us), ds); LooseRange(app) == 0 && Plain(app) && VarsFrom(app, xs)
  {
    var c := Const(j, us);
    var s := set x | x in xs;
    AppRange(c, ds, 0);
    assert forall d :: d in ds ==> VarsIn(d, s);
    AppVars(c, ds, s);
    SpineOfMkApp(c, ds);
    SpinePlain(MkApp(c, ds));
  }

  lemma {:induction false} KeyOk(app: Expr, xs: seq<Name>, ps: seq<Name>)
    requires |xs| == |ps| && LooseRange(app) == 0 && Plain(app) && VarsFrom(app, xs)
    ensures LooseRange(Rename(app, xs, ps)) == 0 && Plain(Rename(app, xs, ps)) && VarsFrom(Rename(app, xs, ps), ps)
  {
    RenameKeeps(app, xs, ps);
    RenameFVars(app, xs, ps);
  }

  /** The entry of another member of the same mutual declaration is not found for `key`. */
  lemma {:induction false} OtherMember(tbl: Table, key: Expr, j: Name, fn: Expr, ds: seq<Expr>, xs: seq<Name>, ps: seq<Name>, aux: Name)
    requires |xs| == |ps| && fn.Const? && j != fn.name && key == Rename(MkApp(fn, ds), xs, ps)
    ensures Find(tbl + [(Rename(MkApp(Const(j, fn.levels), ds), xs, ps), aux)], key) == Find(tbl, key)
  {
    var f, args := Const(j, fn.levels), RenameAll(ds, xs, ps);
    RenameApp(f, ds, xs, ps);
    RenameApp(fn, ds, xs, ps);
    MkAppHeads(f, fn, args);
    FindOther(tbl, (MkApp(f, args), aux), key);
  }

  /** Once the type itself is among the first `i` members its copy is what a search finds. */
  ghost predicate Progress(all: seq<Name>, i: nat, n: Name, result: Option<Expr>, tbl: Table, key: Expr,
      lvls: seq<L.Level>, xs: seq<Name>, rest: seq<Expr>)
    requires i <= |all|
  {
    && (result.Some? <==> n in all[..i]) && (result.Some? <==> Find(tbl, key).Some?)
    && (result.Some? ==> result.value == AuxApp(tbl[Find(tbl, key).value].1, lvls, xs, rest))
  }

  lemma {:induction false} ProgressStart(all: seq<Name>, n: Name, tbl: Table, key: Expr, lvls: seq<L.Level>, xs: seq<Name>, rest: seq<Expr>)
    requires Find(tbl, key).None?
    ensures Progress(all, 0, n, None, tbl, key, lvls, xs, rest)
  {
  }

  lemma {:induction false} ProgressStep(all: seq<Name>, i: nat, n: Name, result: Option<Expr>, result': Option<Expr>,
      t0: Table, t1: Table, key: Expr, lvls: seq<L.Level>, xs: seq<Name>, rest: seq<Expr>)
    requires Distinct(all) && i < |all| && Progress(all, i, n, result, t0, key, lvls, xs, rest)
    requires |t1| == |t0| + 1 && t1[..|t0|] == t0
    requires Find(t1, key) == if Find(t0, key).None? && all[i] == n then Some(|t0|) else Find(t0, key)
    requires result' == if all[i] == n then Some(AuxApp(t1[|t0|].1, lvls, xs, rest)) else result
    ensures Progress(all, i + 1, n, result', t1, key, lvls, xs, rest)
  {
    hide AuxApp;
    assert all[..i + 1] == all[..i] + [all[i]];
    if all[i] != n && Find(t0, key).Some? {
      var k := Find(t0, key).value;
      assert t1[k] == t1[..|t0|][k] == t0[k];
    }
  }

  lemma {:induction false} ProgressEnd(all: seq<Name>, n: Name, result: Option<Expr>, tbl: Table, key: Expr,
      st: Setting, xs: seq<Name>, rest: seq<Expr>)
    requires n in all && Progress(all, |all|, n, result, tbl, key, st.lvls, xs, rest)
    ensures result.Some? && Find(tbl, key).Some?
    ensures result.value == MkApp(AuxHead(st, tbl, xs)(Find(tbl, key).value), rest)
  {
    assert all[..|all|] == all;
  }

  lemma {:induction false} GrownTable(n0: seq<IndType>, s0: seq<IndType>, t0: Table, n1: seq<IndType>, s1: seq<IndType>, t1: Table)
    requires Grown(n0, s0, t0, n1, s1, t1)
    ensures |t0| <= |t1| && t1[..|t0|] == t0
  {
  }

  ghost predicate MembersOk(env: Env, np: nat, all: seq<Name>) {
    forall k :: 0 <= k < |all| ==> MemberOk(env, np, all[k])
  }

  lemma {:induction false} MemberAt(env: Env, np: nat, all: seq<Name>, k: nat)
    requires MembersOk(env, np, all) && k < |all|
    ensures MemberOk(env, np, all[k])
  {
  }

  lemma {:induction false} TypeMembers(env: Env, i: Name)
    requires EnvOk(env) && i in env && env[i].Inductive?
    ensures i in env[i].all && Distinct(env[i].all) && MembersOk(env, env[i].nparams, env[i].all)
  {
    assert TypeOk(env, i);
  }

  lemma {:induction false} FindOther(tbl: Table, entry: (Expr, Name), key: Expr)
    requires !Same(entry.0, key)
    ensures Find(tbl + [entry], key) == Find(tbl, key)
  {
    if tbl == [] {
      assert (tbl + [entry])[0] == entry && (tbl + [entry])[1..] == [];
    } else {
      assert (tbl + [entry])[0] == tbl[0];
      assert (tbl + [entry])[1..] == tbl[1..] + [entry];
      FindOther(tbl[1..], entry, key);
    }
  }

  lemma {:induction false} OccurrenceParams(env: Env, e: Expr, xs: seq<Name>)
    requires InductiveApp(env, e) && Plain(e) && VarsFrom(e, xs) && !AnyLoose(ParamArgs(env, e))
    ensures ParamsOk(ParamArgs(env, e), xs) && LooseRange(Applied(env, e)) == 0
  {
    SpinePlain(e);
    ArgsBounded(e);
    AppliedVars(env, e);
    forall d | d in ParamArgs(env, e) ensures LooseRange(d) == 0 && Plain(d) && VarsFrom(d, xs) {
      assert d in AppArgs(e);
    }
  }

  // ---------------------------------------------------------------- results of the traversal

  function ElimAt(st: Setting, tbl: Table, xs: seq<Name>, e: Expr, k: nat): Expr
    requires |xs| == |st.ps|
  {
    Replaced(e, k, NestedCallback(st, tbl, xs, AuxHead(st, tbl, xs)))
  }

  /** `r` is `e` rewritten by the table, which has all it needs. */
  ghost predicate Visited(st: Setting, tbl: Table, xs: seq<Name>, e: Expr, k: nat, r: Expr)
    requires |xs| == |st.ps|
  {
    Covered(st, tbl, xs, e) && r == ElimAt(st, tbl, xs, e, k)
  }

  ghost predicate ResultsOk(st: Setting, tbl: Table, xs: seq<Name>, cache: map<(Expr, nat), Expr>)
    requires |xs| == |st.ps|
  {
    forall key :: key in cache ==> Visited(st, tbl, xs, key.0, key.1, cache[key])
  }

  lemma {:induction false} ResultsHit(st: Setting, tbl: Table, xs: seq<Name>, cache: map<(Expr, nat), Expr>, e: Expr, k: nat)
    requires |xs| == |st.ps| && ResultsOk(st, tbl, xs, cache) && (e, k) in cache
    ensures Visited(st, tbl, xs, e, k, cache[(e, k)])
  {
    var key := (e, k);
    assert Visited(st, tbl, xs, key.0, key.1, cache[key]);
  }

  lemma {:induction false} ResultsSaved(st: Setting, tbl: Table, xs: seq<Name>, cache: map<(Expr, nat), Expr>, e: Expr, k: nat, r: Expr)
    requires |xs| == |st.ps| && ResultsOk(st, tbl, xs, cache) && Visited(st, tbl, xs, e, k, r)
    ensures ResultsOk(st, tbl, xs, cache[(e, k) := r])
  {
    hide Visited;
  }

  lemma {:induction false} VisitedGrows(st: Setting, n0: seq<IndType>, s0: seq<IndType>, t0: Table,
      n1: seq<IndType>, s1: seq<IndType>, t1: Table, xs: seq<Name>, e: Expr, k: nat, r: Expr)
    requires |xs| == |st.ps| && Grown(n0, s0, t0, n1, s1, t1) && Visited(st, t0, xs, e, k, r)
    ensures Visited(st, t1, xs, e, k, r)
  {
    TableGrows(st, t0, t1[|t0|..], xs, e, k);
    assert t0 + t1[|t0|..] == t1;
  }

  lemma {:induction false} ResultsGrow(st: Setting, n0: seq<IndType>, s0: seq<IndType>, t0: Table,
      n1: seq<IndType>, s1: seq<IndType>, t1: Table, xs: seq<Name>, cache: map<(Expr, nat), Expr>)
    requires |xs| == |st.ps| && Grown(n0, s0, t0, n1, s1, t1) && ResultsOk(st, t0, xs, cache)
    ensures ResultsOk(st, t1, xs, cache)
  {
    hide Visited, Grown;
    forall key | key in cache ensures Visited(st, t1, xs, key.0, key.1, cache[key]) {
      VisitedGrows(st, n0, s0, t0, n1, s1, t1, xs, key.0, key.1, cache[key]);
    }
  }

  lemma {:induction false} CoveredNoLoose(st: Setting, tbl: Table, xs: seq<Name>, e: Expr)
    requires |xs| == |st.ps| && Covered(st, tbl, xs, e)
    ensures NoLooseParams(st, e)
  {
    hide Nested, AnyLoose;
    if !Nested(st.env, st.own, e) {
      match e
      case App(f, a) => CoveredNoLoose(st, tbl, xs, f); CoveredNoLoose(st, tbl, xs, a);
      case Lambda(_, t, b) => CoveredNoLoose(st, tbl, xs, t); CoveredNoLoose(st, tbl, xs, b);
      case Pi(_, t, b) => CoveredNoLoose(st, tbl, xs, t); CoveredNoLoose(st, tbl, xs, b);
      case Let(_, t, v, b, _) => CoveredNoLoose(st, tbl, xs, t); CoveredNoLoose(st, tbl, xs, v); CoveredNoLoose(st, tbl, xs, b);
      case MData(_, x) => CoveredNoLoose(st, tbl, xs, x);
      case Proj(_, _, x) => CoveredNoLoose(st, tbl, xs, x);
      case _ =>
    }
  }

  lemma {:induction false} VisitedNoLoose(st: Setting, tbl: Table, xs: seq<Name>, e: Expr, k: nat, r: Expr)
    requires |xs| == |st.ps| && Visited(st, tbl, xs, e, k, r)
    ensures NoLooseParams(st, e)
  {
    CoveredNoLoose(st, tbl, xs, e);
  }

  lemma {:induction false} NoLooseTop(st: Setting, e: Expr)
    ensures Nested(st.env, st.own, e) ==> (NoLooseParams(st, e) <==> !AnyLoose(ParamArgs(st.env, e)))
  {
  }

  lemma {:induction false} VisitedTop(st: Setting, tbl: Table, xs: seq<Name>, e: Expr, k: nat)
    requires |xs| == |st.ps| && Nested(st.env, st.own, e) && !AnyLoose(ParamArgs(st.env, e))
    requires Find(tbl, Key(st, xs, e)).Some?
    ensures Visited(st, tbl, xs, e, k, MkApp(AuxHead(st, tbl, xs)(Find(tbl, Key(st, xs, e)).value), IndexArgs(st.env, e)))
  {
  }

  // ---------------------------------------------------------------- finished constructors

  /** `r` is `t` rewritten over the parameters generated from `a` on. */
  ghost predicate DoneWithin(st: Setting, tbl: Table, bound: nat, a: nat, t: Expr, r: Expr) {
    a + |st.ps| <= bound && ElimType(st, tbl, FreshFrom(a, |st.ps|), t, r)
  }

  lemma {:induction false} CleanClosed(t: Expr)
    requires Clean(t)
    ensures LooseRange(t) == 0 && FVars(t) == {}
  {
  }

  lemma {:induction false} NoResults(st: Setting, tbl: Table, xs: seq<Name>)
    requires |xs| == |st.ps|
    ensures ResultsOk(st, tbl, xs, map[])
  {
  }

  lemma {:induction false} PlaceReady(st: Setting, np: nat, a: nat, p: Place)
    requires st.ps == FreshFrom(0, np) && np <= a && p.xs == FreshFrom(a, np) && HasPis(p.typ, np) && Clean(p.typ)
    requires Declares(p.lctx, p.xs, p.typ, np)
    ensures PlaceOk(p, np, st.ps) && Apart(p.xs, st.ps)
    ensures Plain(Opened(p.typ, p.xs)) && VarsFrom(Opened(p.typ, p.xs), p.xs)
  {
    ParamsApart(np, a);
    OpenedFacts(p.typ, p.xs);
  }

  /** `mk_pi(As, new_cnstr_type)`. */
  method CloseCtor(ghost st: Setting, ghost tbl: Table, np: nat, ghost a: nat, p: Place, r0: Expr) returns (r: Expr)
    requires |st.ps| == np && p.xs == FreshFrom(a, np) && PlaceOk(p, np, st.ps)
    requires Visited(st, tbl, p.xs, Opened(p.typ, p.xs), 0, r0)
    ensures DoneWithin(st, tbl, a + np, a, p.typ, r)
  {
    CloseParams(p.lctx, p.xs, p.typ, np, r0);
    var closed := MkBinding(false, p.lctx, p.xs, r0, false);
    r := closed.value;
  }

  ghost predicate DoneCtor(st: Setting, tbl: Table, bound: nat, t: Expr, r: Expr) {
    exists a: nat :: DoneWithin(st, tbl, bound, a, t, r)
  }

  /** The constructor type lacks parameters, or a nested occurrence has a loose parameter. */
  ghost predicate Rejected(st: Setting, np: nat, t: Expr) {
    !HasPis(t, np) || exists a: nat :: RejectedAt(st, np, a, t)
  }

  ghost predicate RejectedAt(st: Setting, np: nat, a: nat, t: Expr)
    requires HasPis(t, np)
  {
    !NoLooseParams(st, Opened(t, FreshFrom(a, np)))
  }

  ghost predicate Rejects(st: Setting, np: nat, types: seq<IndType>) {
    exists t, c :: t in types && RejectedIn(st, np, t, c)
  }

  ghost predicate RejectedIn(st: Setting, np: nat, t: IndType, c: Ctor) {
    c in t.ctors && Rejected(st, np, c.typ)
  }

  ghost predicate DoneCtors(st: Setting, tbl: Table, bound: nat, cs: seq<Ctor>, rs: seq<Ctor>) {
    |cs| == |rs| && forall k :: 0 <= k < |cs| ==>
      rs[k].name == cs[k].name && DoneCtor(st, tbl, bound, cs[k].typ, rs[k].typ)
  }

  ghost predicate DoneType(st: Setting, tbl: Table, bound: nat, s: IndType, t: IndType) {
    t.name == s.name && t.typ == s.typ && DoneCtors(st, tbl, bound, s.ctors, t.ctors)
  }

  /** The types before `qhead` are done, the others are as they were added. */
  ghost predicate QueueOk(st: Setting, tbl: Table, bound: nat, sources: seq<IndType>, types: seq<IndType>, qhead: nat) {
    && qhead <= |types| == |sources|
    && (forall q :: 0 <= q < qhead ==> DoneType(st, tbl, bound, sources[q], types[q]))
    && (forall q :: qhead <= q < |types| ==> types[q] == sources[q])
  }

  lemma {:induction false} CtorRejected(st: Setting, np: nat, a: nat, t: Expr)
    requires HasPis(t, np) ==> !NoLooseParams(st, Opened(t, FreshFrom(a, np)))
    ensures Rejected(st, np, t)
  {
    if HasPis(t, np) { assert RejectedAt(st, np, a, t); }
  }

  lemma {:induction false} TypeRejected(st: Setting, np: nat, types: seq<IndType>, t: IndType)
    requires t in types && exists c :: c in t.ctors && Rejected(st, np, c.typ)
    ensures Rejects(st, np, types)
  {
    var c :| c in t.ctors && Rejected(st, np, c.typ);
    assert RejectedIn(st, np, t, c);
  }

  lemma {:induction false} ParamsApart(np: nat, a: nat)
    requires np <= a
    ensures Apart(FreshFrom(a, np), FreshFrom(0, np))
  {
    FreshApart(0, np, a, np);
  }

  lemma {:induction false} DoneGrows(st: Setting, t0: Table, t1: Table, f0: nat, f1: nat, a: nat, t: Expr, r: Expr)
    requires |t0| <= |t1| && t1[..|t0|] == t0 && f0 <= f1 && DoneWithin(st, t0, f0, a, t, r)
    ensures DoneWithin(st, t1, f1, a, t, r)
  {
    var xs := FreshFrom(a, |st.ps|);
    TableGrows(st, t0, t1[|t0|..], xs, Opened(t, xs), 0);
    assert t0 + t1[|t0|..] == t1;
  }

  lemma {:induction false} DoneCtorsGrow(st: Setting, t0: Table, t1: Table, f0: nat, f1: nat, cs: seq<Ctor>, rs: seq<Ctor>)
    requires |t0| <= |t1| && t1[..|t0|] == t0 && f0 <= f1 && DoneCtors(st, t0, f0, cs, rs)
    ensures DoneCtors(st, t1, f1, cs, rs)
  {
    hide DoneWithin;
    forall k | 0 <= k < |cs| ensures DoneCtor(st, t1, f1, cs[k].typ, rs[k].typ) {
      assert DoneCtor(st, t0, f0, cs[k].typ, rs[k].typ);
      var a: nat :| DoneWithin(st, t0, f0, a, cs[k].typ, rs[k].typ);
      DoneGrows(st, t0, t1, f0, f1, a, cs[k].typ, rs[k].typ);
    }
  }

  lemma {:induction false} NoCtorsDone(st: Setting, tbl: Table, bound: nat)
    ensures DoneCtors(st, tbl, bound, [], [])
  {
  }

  lemma {:induction false} DoneCtorsSnoc(st: Setting, tbl: Table, bound: nat, a: nat, cs: seq<Ctor>, rs: seq<Ctor>, c: Ctor, t: Expr)
    requires DoneCtors(st, tbl, bound, cs, rs) && DoneWithin(st, tbl, bound, a, c.typ, t)
    ensures DoneCtors(st, tbl, bound, cs + [c], rs + [Ctor(c.name, t)])
  {
    assert DoneCtor(st, tbl, bound, c.typ, t);
  }

  lemma {:induction false} SameNames(types: seq<IndType>, q: nat, t: IndType, n: Name)
    requires q < |types| && t.name == types[q].name
    ensures n in TypeNames(types[q := t]) <==> n in TypeNames(types)
  {
    var r := types[q := t];
    if n in TypeNames(types) {
      var k :| 0 <= k < |types| && types[k].name == n;
      assert r[k].name == n && r[k] in r;
    }
    if n in TypeNames(r) {
      var k :| 0 <= k < |r| && r[k].name == n;
      assert types[k].name == n && types[k] in types;
    }
  }

  lemma {:induction false} HeadOk(st: Setting, tbl: Table, bound: nat, sources: seq<IndType>, types: seq<IndType>, q: nat)
    requires q < |types| && QueueOk(st, tbl, bound, sources, types, q) && SourcesOk(sources)
    ensures types[q] == sources[q] && forall c :: c in types[q].ctors ==> Clean(c.typ)
  {
    assert sources[q] in sources && SourceOk(sources[q]);
  }

  lemma {:induction false} QueueGrows(st: Setting, n0: seq<IndType>, s0: seq<IndType>, t0: Table,
      n1: seq<IndType>, s1: seq<IndType>, t1: Table, f0: nat, f1: nat, qhead: nat)
    requires Grown(n0, s0, t0, n1, s1, t1) && f0 <= f1 && QueueOk(st, t0, f0, s0, n0, qhead)
    ensures QueueOk(st, t1, f1, s1, n1, qhead)
    ensures s0 <= s1 && |n0| <= |n1| && forall q :: 0 <= q < |n0| ==> n1[q] == n0[q]
  {
    assert forall q :: 0 <= q < |n0| ==> n1[q] == n1[..|n0|][q] && s1[q] == s1[..|s0|][q];
    forall q | 0 <= q < qhead ensures DoneType(st, t1, f1, s1[q], n1[q]) {
      assert DoneType(st, t0, f0, s0[q], n0[q]);
      DoneCtorsGrow(st, t0, t1, f0, f1, s0[q].ctors, n0[q].ctors);
    }
  }

  lemma {:induction false} QueueStep(st: Setting, tbl: Table, bound: nat, sources: seq<IndType>, types: seq<IndType>, q: nat, t: IndType, r: IndType)
    requires q < |types| && QueueOk(st, tbl, bound, sources, types, q) && types[q] == t && DoneType(st, tbl, bound, t, r)
    ensures QueueOk(st, tbl, bound, sources, types[q := r], q + 1)
  {
    hide DoneType;
  }

  // ---------------------------------------------------------------- restoring what was eliminated

  lemma {:induction false} AuxHeadVars(st: Setting, tbl: Table, xs: seq<Name>, s: set<Name>)
    requires forall x :: x in xs ==> x in s
    ensures HeadVars(tbl, AuxHead(st, tbl, xs), s)
  {
    forall i | 0 <= i < |tbl| ensures VarsIn(AuxHead(st, tbl, xs)(i), s) {
      AppVars(Const(tbl[i].1, st.lvls), MkFVars(xs), s);
    }
  }

  /** A rewritten constructor type is closed. */
  lemma {:induction false} ElimTypeClosed(st: Setting, tbl: Table, xs: seq<Name>, t: Expr, t2: Expr)
    requires TableOk(st, tbl) && Clean(t) && ElimType(st, tbl, xs, t, t2)
    ensures HasPis(t2, |xs|) && LooseRange(t2) == 0 && FVars(t2) == {}
  {
    var e, s := Opened(t, xs), (set x | x in xs);
    var r := Eliminated(st, tbl, xs, e);
    OpenedFacts(t, xs);
    HeadsClosed(st, tbl, xs);
    RangeKept(st, tbl, xs, AuxHead(st, tbl, xs), e, 0, 0);
    AuxHeadVars(st, tbl, xs, s);
    VarsKept(st, tbl, xs, AuxHead(st, tbl, xs), e, 0, s);
    AbstractRange(r, 0, xs, 0);
    AbstractRemoves(r, 0, xs);
    assert FVars(Abstract(r, 0, xs)) == {};
    WithBodyFacts(t, |xs|, Abstract(r, 0, xs), 0);
    WithBodyLaws(t, |xs|, Abstract(r, 0, xs), t);
  }

  /** `restore_nested` on the type of a constructor. */
  method RestoreNested(rs: Restoration, ps: seq<Name>, t: Expr, start: nat) returns (r: Expr)
    requires HasPis(t, |ps|) && LooseRange(t) == 0 && FVars(t) == {}
    ensures r == RestoredType(rs, ps, FreshFrom(start, |ps|), t)
  {
    var ok, lctx, xs, e := GetParams(t, |ps|, start);
    var e1 := Replaced(e, 0, RestoreCallback(rs, ps, xs));
    CloseParams(lctx, xs, t, |ps|, e1);
    var closed := MkBinding(false, lctx, xs, e1, false);
    r := closed.value;
  }

  /** The constructors of the auxiliary declaration with their types. */
  method CtorTypes(types: seq<IndType>) returns (m: map<Name, Name>)
    ensures forall n :: n in m ==> CtorOf(types, m[n], n)
    ensures forall t, c :: t in types && c in t.ctors ==> c.name in m
  {
    m := map[];
    for i := 0 to |types|
      invariant forall n :: n in m ==> CtorOf(types, m[n], n)
      invariant forall t, c :: t in types[..i] && c in t.ctors ==> c.name in m
    {
      var cs := types[i].ctors;
      for k := 0 to |cs|
        invariant forall n :: n in m ==> CtorOf(types, m[n], n)
        invariant forall t, c :: t in types[..i] && c in t.ctors ==> c.name in m
        invariant forall c :: c in cs[..k] ==> c.name in m
      {
        assert IsCtorOf(types[i], cs[k], types[i].name, cs[k].name);
        m := m[cs[k].name := types[i].name];
      }
    }
  }

  ghost predicate IsCtorOf(t: IndType, c: Ctor, i: Name, n: Name) {
    c in t.ctors && t.name == i && c.name == n
  }

  ghost predicate CtorOf(types: seq<IndType>, i: Name, n: Name) {
    exists t, c :: t in types && IsCtorOf(t, c, i, n)
  }

  /** Constructors of generated types have generated names after the run too. */
  lemma {:induction false} CtorsMatch(st: Setting, tbl: Table, bound: nat, sources: seq<IndType>, types: seq<IndType>, ctors: map<Name, Name>)
    requires TableOk(st, tbl) && SourcesOk(sources) && QueueOk(st, tbl, bound, sources, types, |types|)
    requires forall n :: n in ctors ==> CtorOf(types, ctors[n], n)
    ensures Matches(Restoration(AuxMap(tbl), ctors, map[]), tbl)
  {
    var rs := Restoration(AuxMap(tbl), ctors, map[]);
    forall n | AuxCtor(rs, n) ensures Reserved(n) {
      AuxMapReserved(st, tbl, ctors[n]);
      var t, c :| t in types && IsCtorOf(t, c, ctors[n], n);
      var q :| 0 <= q < |types| && types[q] == t;
      var k :| 0 <= k < |t.ctors| && t.ctors[k] == c;
      assert DoneType(st, tbl, bound, sources[q], types[q]);
      assert sources[q] in sources && SourceOk(sources[q]);
      assert sources[q].ctors[k] in sources[q].ctors;
    }
  }

  /** Restoring a finished constructor type gives the type it had, for the kernel; the very same one
      just when its nested types are all found exactly. */
  lemma {:induction false} DoneRestores(st: Setting, tbl: Table, rs: Restoration, bound: nat, t: Expr, r: Expr)
    requires TableOk(st, tbl) && Matches(rs, tbl) && Distinct(st.ps) && Clean(t) && DoneCtor(st, tbl, bound, t, r)
    ensures HasPis(r, |st.ps|) && LooseRange(r) == 0 && FVars(r) == {}
    ensures Same(RestoredType(rs, st.ps, FreshFrom(bound, |st.ps|), r), t)
    ensures RestoredType(rs, st.ps, FreshFrom(bound, |st.ps|), r) == t <==> AllExact(tbl, CtorKeys(st, t))
  {
    hide Same, AllExact, CtorKeys, RestoredType, Clean, Exact, Matches, TableOk;
    var a: nat :| DoneWithin(st, tbl, bound, a, t, r);
    var n := |st.ps|;
    FreshApart(a, n, bound, n);
    ElimTypeClosed(st, tbl, FreshFrom(a, n), t, r);
    RestoreUndoesElimination(st, tbl, rs, FreshFrom(a, n), FreshFrom(bound, n), t, r);
    OpenedKeys(st, t, FreshFrom(a, n));
    ExactKeys(st, tbl, FreshFrom(a, n), Opened(t, FreshFrom(a, n)));
  }

  ghost predicate SameCtors(cs: seq<Ctor>, rs: seq<Ctor>) {
    |rs| == |cs| && forall k :: 0 <= k < |cs| ==> rs[k].name == cs[k].name && Same(rs[k].typ, cs[k].typ)
  }

  ghost predicate SameTypes(ts: seq<IndType>, rs: seq<IndType>) {
    |rs| == |ts| && forall q :: 0 <= q < |ts| ==>
      rs[q].name == ts[q].name && rs[q].typ == ts[q].typ && SameCtors(ts[q].ctors, rs[q].ctors)
  }

  method RestoreCtor(st: Setting, tbl: Table, rs: Restoration, bound: nat, ghost c: Ctor, done: Ctor) returns (r: Ctor)
    requires TableOk(st, tbl) && Matches(rs, tbl) && Distinct(st.ps) && Clean(c.typ)
    requires done.name == c.name && DoneCtor(st, tbl, bound, c.typ, done.typ)
    ensures r.name == c.name && Same(r.typ, c.typ) && (r == c <==> AllExact(tbl, CtorKeys(st, c.typ)))
  {
    hide Matches, TableOk, DoneCtor, Distinct, Clean, Same, RestoredType, AllExact, CtorKeys;
    DoneRestores(st, tbl, rs, bound, c.typ, done.typ);
    var t := RestoreNested(rs, st.ps, done.typ, bound);
    r := Ctor(done.name, t);
  }

  method RestoreCtors(st: Setting, tbl: Table, rs: Restoration, bound: nat, ghost cs: seq<Ctor>, done: seq<Ctor>) returns (r: seq<Ctor>)
    requires TableOk(st, tbl) && Matches(rs, tbl) && Distinct(st.ps) && DoneCtors(st, tbl, bound, cs, done)
    requires forall c :: c in cs ==> Clean(c.typ)
    ensures SameCtors(cs, r) && (r == cs <==> AllExact(tbl, CtorsKeys(st, cs)))
  {
    r := [];
    hide Matches, TableOk, DoneCtor, Distinct, Clean, Same, AllExact, CtorKeys;
    NoneExact(tbl);
    for k := 0 to |done|
      invariant |r| == k && forall j :: 0 <= j < k ==> r[j].name == cs[j].name && Same(r[j].typ, cs[j].typ)
      invariant r == cs[..k] <==> AllExact(tbl, CtorsKeys(st, cs[..k]))
    {
      assert cs[k] in cs;
      ghost var r0 := r;
      var c := RestoreCtor(st, tbl, rs, bound, cs[k], done[k]);
      r := r + [c];
      CtorsKeysSnoc(st, cs, k);
      AllExactUnion(tbl, CtorsKeys(st, cs[..k]), CtorKeys(st, cs[k].typ));
      SnocEqual(r0, c, cs, k);
    }
    assert cs[..|cs|] == cs;
  }

  lemma {:induction false} SnocEqual<T>(r: seq<T>, x: T, s: seq<T>, k: nat)
    requires |r| == k < |s|
    ensures r + [x] == s[..k + 1] <==> r == s[..k] && x == s[k]
  {
    assert s[..k + 1] == s[..k] + [s[k]];
    if r + [x] == s[..k + 1] {
      assert r == (r + [x])[..k] == s[..k + 1][..k] == s[..k];
      assert x == (r + [x])[k] == s[..k + 1][k];
    }
  }

  /** The setting of a declaration: its parameters are the first names generated. */
  ghost function DeclSetting(env: Env, lvls: seq<L.Level>, np: nat, types: seq<IndType>): Setting {
    Setting(env, TypeNames(types), lvls, FreshFrom(0, np))
  }

  /** Nested occurrences in the declared constructors that have heads of one mutual declaration and
      parameters equal for the kernel have equal parameters, binder names included. */
  ghost predicate ConsistentNames(env: Env, lvls: seq<L.Level>, np: nat, types: seq<IndType>) {
    Consistent(env, DeclKeys(DeclSetting(env, lvls, np, types), types))
  }

  /** What `add_inductive` does to the constructor types of a declaration: nested occurrences are
      eliminated (by at most `fuel` steps of the queue) and restored, and every constructor gets
      back the type it was declared with, exactly when the declaration is consistent about the
      binder names in its nested occurrences and up to binder names otherwise. */
  method AddInductive(env: Env, lvls: seq<L.Level>, np: nat, types: seq<IndType>, fuel: nat)
    returns (res: Outcome, aux: seq<IndType>, restored: seq<IndType>)
    requires EnvOk(env) && SourcesOk(types)
    ensures res.Finished? ==> AuxDeclaration(DeclSetting(env, lvls, np, types), types, aux)
    ensures res.Finished? ==> SameTypes(types, restored)
    ensures res.Finished? ==> (restored == types <==> ConsistentNames(env, lvls, np, types))
  {
    hide AuxDeclaration;
    restored := [];
    var fn := new Eliminator(env, lvls, np, types);
    res := fn.Run(fuel);
    aux := fn.newTypes;
    if !res.Finished? {
      return;
    }
    restored := RestoreDeclared(fn, types);
  }

  /** The second half of `add_inductive`: what is restored from a finished elimination is exactly
      what was declared when every nested type is found exactly in the final table, that is, when
      the declaration is consistent. */
  method RestoreDeclared(fn: Eliminator, types: seq<IndType>) returns (restored: seq<IndType>)
    requires fn.Valid() && fn.ParamsFirst() && types <= fn.sources && fn.own == TypeNames(types)
    requires QueueOk(fn.St(), fn.nestedAux, fn.nextFresh, fn.sources, fn.newTypes, |fn.newTypes|)
    requires Settled(fn.env, fn.nestedAux, DeclKeys(fn.St(), types))
    ensures SameTypes(types, restored)
    ensures restored == types <==> AllExact(fn.nestedAux, DeclKeys(fn.St(), types))
    ensures restored == types <==> ConsistentNames(fn.env, fn.lvls, fn.np, types)
  {
    hide QueueOk, Settled, AllExact, DeclKeys, Consistent, SameTypes, Grouped, Matches;
    var ctors := CtorTypes(fn.newTypes);
    var st, tbl, done := Setting(fn.env, TypeNames(types), fn.lvls, fn.params), fn.nestedAux, fn.newTypes;
    assert st == fn.St() == DeclSetting(fn.env, fn.lvls, fn.np, types);
    var rs := Restoration(AuxMap(tbl), ctors, map[]);
    CtorsMatch(st, tbl, fn.nextFresh, fn.sources, done, ctors);
    PrefixDone(st, tbl, fn.nextFresh, types, fn.sources, done);
    PrefixSources(types, fn.sources);
    restored := RestoreTypes(st, tbl, rs, fn.nextFresh, types, done);
    ExactIffConsistent(fn.env, tbl, DeclKeys(st, types));
  }

  lemma {:induction false} PrefixSources(types: seq<IndType>, sources: seq<IndType>)
    requires types <= sources && SourcesOk(sources)
    ensures SourcesOk(types)
  {
    forall t | t in types ensures SourceOk(t) {
      var i :| 0 <= i < |types| && types[i] == t;
      assert sources[i] == t && t in sources;
    }
  }

  ghost predicate AllDone(st: Setting, tbl: Table, bound: nat, types: seq<IndType>, done: seq<IndType>) {
    |types| <= |done| && forall q :: 0 <= q < |types| ==> DoneType(st, tbl, bound, types[q], done[q])
  }

  lemma {:induction false} PrefixDone(st: Setting, tbl: Table, bound: nat, types: seq<IndType>, sources: seq<IndType>, done: seq<IndType>)
    requires types <= sources && QueueOk(st, tbl, bound, sources, done, |done|)
    ensures AllDone(st, tbl, bound, types, done)
  {
    hide DoneType;
    assert forall q :: 0 <= q < |types| ==> types[q] == sources[q];
  }

  method RestoreTypes(st: Setting, tbl: Table, rs: Restoration, bound: nat, types: seq<IndType>, done: seq<IndType>)
    returns (restored: seq<IndType>)
    requires TableOk(st, tbl) && Matches(rs, tbl) && Distinct(st.ps) && AllDone(st, tbl, bound, types, done) && SourcesOk(types)
    ensures SameTypes(types, restored) && (restored == types <==> AllExact(tbl, DeclKeys(st, types)))
  {
    hide TableOk, Matches, Distinct, SameCtors, DoneCtors, Clean, AllExact, CtorsKeys;
    restored := [];
    NoneExact(tbl);
    for q := 0 to |types|
      invariant SameTypes(types[..q], restored)
      invariant restored == types[..q] <==> AllExact(tbl, DeclKeys(st, types[..q]))
    {
      assert types[q] in types && SourceOk(types[q]);
      assert DoneType(st, tbl, bound, types[q], done[q]);
      ghost var r0 := restored;
      var cs := RestoreCtors(st, tbl, rs, bound, types[q].ctors, done[q].ctors);
      restored := restored + [IndType(done[q].name, done[q].typ, cs)];
      DeclKeysSnoc(st, types, q);
      AllExactUnion(tbl, DeclKeys(st, types[..q]), CtorsKeys(st, types[q].ctors));
      SnocEqual(r0, IndType(done[q].name, done[q].typ, cs), types, q);
    }
    assert types[..|types|] == types;
  }
}
