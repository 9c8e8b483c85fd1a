/** Names and terms used when nested inductive types are eliminated: generated names, renaming of
    free variables, and the parameter prefix of a constructor type. */
module NestedTerms {
  import opened Names
  import opened Prelude
  import opened Exprs
  import opened DeBruijn
  import opened ExprFacts
  import opened CheckerState
  import opened HeadPaths
  import opened Telescope
  import BindingFacts
  import MpnPrint

  // ---------------------------------------------------------------- generated names

  /** `append_after`: an index is added to the last string of the name. */
  function AppendAfter(n: Name, i: nat): Name {
    var suffix := "_" + MpnPrint.Decimal(i);
    if n != [] && n[|n| - 1].Str? then n[..|n| - 1] + [Str(n[|n| - 1].text + suffix)] else n + [Str(suffix)]
  }

  /** The last underscore comes after `s` or later in `s` itself. */
  lemma {:induction false} NotLonger(s: string, c: string, t: string, d: string)
    requires s + ("_" + c) == t + ("_" + d) && MpnPrint.AllDigits(c)
    ensures |t| <= |s|
  {
    var whole := s + ("_" + c);
    forall k | |s| < k < |whole| ensures whole[k] != '_' {
      assert whole[k] == c[k - |s| - 1];
      assert MpnPrint.IsDigit(c[k - |s| - 1]);
    }
    assert whole[|t|] == '_';
  }

  lemma {:induction false} SuffixUnique(s: string, i: nat, t: string, j: nat)
    requires s + ("_" + MpnPrint.Decimal(i)) == t + ("_" + MpnPrint.Decimal(j))
    ensures i == j
  {
    var c, d := MpnPrint.Decimal(i), MpnPrint.Decimal(j);
    MpnPrint.DecimalMeaning(i);
    MpnPrint.DecimalMeaning(j);
    NotLonger(s, c, t, d);
    NotLonger(t, d, s, c);
    var whole := s + ("_" + c);
    assert c == whole[|s| + 1..] && d == whole[|s| + 1..];
  }

  lemma {:induction false} LastText(n: Name, i: nat)
    ensures AppendAfter(n, i) != [] && AppendAfter(n, i)[|AppendAfter(n, i)| - 1].Str?
    ensures exists s ::
      AppendAfter(n, i)[|AppendAfter(n, i)| - 1].text == s + ("_" + MpnPrint.Decimal(i))
  {
    var s := if n != [] && n[|n| - 1].Str? then n[|n| - 1].text else "";
    assert AppendAfter(n, i)[|AppendAfter(n, i)| - 1].text == s + ("_" + MpnPrint.Decimal(i));
  }

  /** Names made with different indices differ, whatever the names were before. */
  lemma {:induction false} AppendAfterInjective(m: Name, i: nat, n: Name, j: nat)
    requires AppendAfter(m, i) == AppendAfter(n, j)
    ensures i == j
  {
    LastText(m, i);
    LastText(n, j);
    var r := AppendAfter(m, i);
    var s :| r[|r| - 1].text == s + ("_" + MpnPrint.Decimal(i));
    var t :| r[|r| - 1].text == t + ("_" + MpnPrint.Decimal(j));
    SuffixUnique(s, i, t, j);
  }

  const NESTED: string := "_nested"

  /** The names kept for generated types and their constructors. */
  predicate Reserved(n: Name) {
    n != [] && n[0].Str? && NESTED <= n[0].text
  }

  /** The name of the auxiliary copy of type `j`. */
  function AuxName(j: Name, i: nat): Name {
    AppendAfter([Str(NESTED)] + j, i)
  }

  lemma {:induction false} AuxReserved(j: Name, i: nat)
    ensures Reserved(AuxName(j, i))
  {
  }

  /** `replace_prefix`, removing limbs from the end until the prefix is found. */
  function ReplacePrefix(n: Name, p: Name, q: Name): Name {
    if n == p then q
    else if n == [] then n
    else ReplacePrefix(n[..|n| - 1], p, q) + [n[|n| - 1]]
  }

  lemma {:induction false} ReplacePrefixMeaning(n: Name, p: Name, q: Name)
    ensures ReplacePrefix(n, p, q) == if p <= n then q + n[|p|..] else n
    decreases |n|
  {
    if n != p && n != [] {
      var m := n[..|n| - 1];
      ReplacePrefixMeaning(m, p, q);
      assert n == m + [n[|n| - 1]];
      if p <= n {
        assert p <= m;
        assert n[|p|..] == m[|p|..] + [n[|n| - 1]];
      }
    } else if n == p {
      assert q + n[|p|..] == q;
    }
  }

  /** Renaming a constructor for the auxiliary type and back. */
  lemma {:induction false} ReplacePrefixBack(c: Name, j: Name, aux: Name)
    requires j <= c
    ensures ReplacePrefix(ReplacePrefix(c, j, aux), aux, j) == c
  {
    ReplacePrefixMeaning(c, j, aux);
    var r := aux + c[|j|..];
    ReplacePrefixMeaning(r, aux, j);
    assert r[|aux|..] == c[|j|..];
  }

  // ---------------------------------------------------------------- terms without generated names

  predicate Plain(e: Expr) {
    match e
    case Const(n, _) => !Reserved(n)
    case App(f, a) => Plain(f) && Plain(a)
    case Lambda(_, t, b) => Plain(t) && Plain(b)
    case Pi(_, t, b) => Plain(t) && Plain(b)
    case Let(_, t, v, b, _) => Plain(t) && Plain(v) && Plain(b)
    case MData(_, x) => Plain(x)
    case Proj(_, _, x) => Plain(x)
    case _ => true
  }

  ghost predicate LeafPlain(f: (Expr, nat) -> Expr, l: Expr, j: nat) {
    Plain(l) ==> Plain(f(l, j))
  }

  lemma {:induction false} MapPlain(e: Expr, k: nat, f: (Expr, nat) -> Expr)
    requires forall l, j: nat :: Atomic(l) ==> LeafPlain(f, l, j)
    requires Plain(e)
    ensures Plain(Map(e, k, f))
  {
    match e
    case App(g, a) => MapPlain(g, k, f); MapPlain(a, k, f);
    case Lambda(_, t, b) => MapPlain(t, k, f); MapPlain(b, k + 1, f);
    case Pi(_, t, b) => MapPlain(t, k, f); MapPlain(b, k + 1, f);
    case Let(_, t, v, b, _) => MapPlain(t, k, f); MapPlain(v, k, f); MapPlain(b, k + 1, f);
    case MData(_, x) => MapPlain(x, k, f);
    case Proj(_, _, x) => MapPlain(x, k, f);
    case _ => assert LeafPlain(f, e, k);
  }

  lemma {:induction false} InstPlain(e: Expr, us: seq<Expr>)
    requires Plain(e) && forall i :: 0 <= i < |us| ==> Plain(us[i])
    ensures Plain(Inst(e, 0, us))
  {
    forall l, j: nat | Atomic(l) ensures LeafPlain(InstLeaf(us), l, j) {
      if l.BVar? && j <= l.idx < j + |us| { LiftPlain(us[l.idx - j], j); }
    }
    MapPlain(e, 0, InstLeaf(us));
  }

  lemma {:induction false} LiftPlain(e: Expr, d: nat)
    requires Plain(e)
    ensures Plain(Lift(e, 0, d))
  {
    forall l, j: nat | Atomic(l) ensures LeafPlain(LiftLeaf(d), l, j) { }
    MapPlain(e, 0, LiftLeaf(d));
  }

  lemma {:induction false} AbstractPlain(e: Expr, xs: seq<Name>)
    requires Plain(e)
    ensures Plain(Abstract(e, 0, xs))
  {
    forall l, j: nat | Atomic(l) ensures LeafPlain(AbstractLeaf(xs), l, j) { }
    MapPlain(e, 0, AbstractLeaf(xs));
  }

  predicate AllPlain(us: seq<Expr>) {
    forall u :: u in us ==> Plain(u)
  }

  lemma {:induction false} SpinePlain(e: Expr)
    ensures Plain(e) <==> Plain(AppFn(e)) && AllPlain(AppArgs(e))
  {
    if e.App? {
      SpinePlain(e.fn);
      assert forall u :: u in AppArgs(e) <==> u in AppArgs(e.fn) || u == e.arg;
    }
  }

  // ---------------------------------------------------------------- renaming free variables

  function RenameAt(l: Expr, xs: seq<Name>, ys: seq<Name>): Expr
    requires |xs| == |ys|
  {
    if !l.FVar? then l
    else match LastIndex(xs, l.fvar)
      case Some(i) => FVar(ys[i])
      case None => l
  }

  function RenameLeaf(xs: seq<Name>, ys: seq<Name>): (Expr, nat) -> Expr
    requires |xs| == |ys|
  {
    (l: Expr, j: nat) => RenameAt(l, xs, ys)
  }

  /** Every variable of `xs` becomes the variable at the same place in `ys`. */
  function Rename(e: Expr, xs: seq<Name>, ys: seq<Name>): Expr
    requires |xs| == |ys|
  {
    Map(e, 0, RenameLeaf(xs, ys))
  }

  lemma {:induction false} RenameDepth(e: Expr, k: nat, xs: seq<Name>, ys: seq<Name>)
    requires |xs| == |ys|
    ensures Map(e, k, RenameLeaf(xs, ys)) == Rename(e, xs, ys)
  {
    RenameDepths(e, k, 0, xs, ys);
  }

  lemma {:induction false} RenameDepths(e: Expr, k: nat, m: nat, xs: seq<Name>, ys: seq<Name>)
    requires |xs| == |ys|
    ensures Map(e, k, RenameLeaf(xs, ys)) == Map(e, m, RenameLeaf(xs, ys))
  {
    match e
    case App(f, a) => RenameDepths(f, k, m, xs, ys); RenameDepths(a, k, m, xs, ys);
    case Lambda(_, t, b) => RenameDepths(t, k, m, xs, ys); RenameDepths(b, k + 1, m + 1, xs, ys);
    case Pi(_, t, b) => RenameDepths(t, k, m, xs, ys); RenameDepths(b, k + 1, m + 1, xs, ys);
    case Let(_, t, v, b, _) =>
      RenameDepths(t, k, m, xs, ys); RenameDepths(v, k, m, xs, ys); RenameDepths(b, k + 1, m + 1, xs, ys);
    case MData(_, x) => RenameDepths(x, k, m, xs, ys);
    case Proj(_, _, x) => RenameDepths(x, k, m, xs, ys);
    case _ =>
  }

  /** `instantiate_rev` after `abstract` renames, on closed terms. */
  lemma {:induction false} ReopenIsRename(e: Expr, xs: seq<Name>, ys: seq<Name>)
    requires |xs| == |ys| && LooseRange(e) == 0
    ensures InstRev(Abstract(e, 0, xs), MkFVars(ys)) == Rename(e, xs, ys)
  {
    var us := Reverse(MkFVars(ys));
    RangeLeaves(e, 0, 0, []);
    var p1, p2, q := Pass(0, AbstractLeaf(xs)), Pass(0, InstLeaf(us)), Pass(0, RenameLeaf(xs, ys));
    forall l, j: nat | Atomic(l) && InRange(0)(l, j) ensures Fuses(l, j, p1, p2, q) { ReopenAtom(l, j, xs, ys); }
    MapFuse(e, InRange(0), p1, p2, q);
  }

  lemma {:induction false} ReopenAtom(l: Expr, j: nat, xs: seq<Name>, ys: seq<Name>)
    requires |xs| == |ys| && Atomic(l) && LooseRange(l) <= j
    ensures Fuses(l, j, Pass(0, AbstractLeaf(xs)), Pass(0, InstLeaf(Reverse(MkFVars(ys)))), Pass(0, RenameLeaf(xs, ys)))
  {
    if l.FVar? {
      var i := LastIndex(xs, l.fvar);
      if i.Some? {
        var us := Reverse(MkFVars(ys));
        assert us[|xs| - i.value - 1] == FVar(ys[i.value]);
      }
    }
  }

  /** Renaming twice, through fresh distinct variables. */
  lemma {:induction false} RenameRename(e: Expr, xs: seq<Name>, ps: seq<Name>, ys: seq<Name>)
    requires |xs| == |ps| == |ys| && Distinct(ps) && forall p :: p in ps ==> p !in FVars(e)
    ensures Rename(Rename(e, xs, ps), ps, ys) == Rename(e, xs, ys)
  {
    var n := LooseRange(e);
    RangeLeaves(e, 0, n, ps);
    var ok := Avoiding(n, ps);
    var p1, p2, q := Pass(0, RenameLeaf(xs, ps)), Pass(0, RenameLeaf(ps, ys)), Pass(0, RenameLeaf(xs, ys));
    forall l, j: nat | Atomic(l) && ok(l, j) ensures Fuses(l, j, p1, p2, q) {
      if l.FVar? {
        var i := LastIndex(xs, l.fvar);
        if i.Some? { DistinctLastIndex(ps, i.value); }
      }
    }
    MapFuse(e, ok, p1, p2, q);
  }

  lemma {:induction false} RenameSelf(e: Expr, xs: seq<Name>)
    ensures Rename(e, xs, xs) == e
  {
    AlwaysLeaves(e, 0);
    MapFixes(e, Always(), Pass(0, RenameLeaf(xs, xs)));
  }

  lemma {:induction false} RenameFVars(e: Expr, xs: seq<Name>, ys: seq<Name>)
    requires |xs| == |ys|
    ensures forall x :: x in FVars(Rename(e, xs, ys)) ==> x in ys || (x in FVars(e) && x !in xs)
  {
    RenameFVarsAt(e, 0, xs, ys);
  }

  lemma {:induction false} RenameFVarsAt(e: Expr, k: nat, xs: seq<Name>, ys: seq<Name>)
    requires |xs| == |ys|
    ensures forall x :: x in FVars(Map(e, k, RenameLeaf(xs, ys))) ==> x in ys || (x in FVars(e) && x !in xs)
  {
    match e
    case App(f, a) => RenameFVarsAt(f, k, xs, ys); RenameFVarsAt(a, k, xs, ys);
    case Lambda(_, t, b) => RenameFVarsAt(t, k, xs, ys); RenameFVarsAt(b, k + 1, xs, ys);
    case Pi(_, t, b) => RenameFVarsAt(t, k, xs, ys); RenameFVarsAt(b, k + 1, xs, ys);
    case Let(_, t, v, b, _) => RenameFVarsAt(t, k, xs, ys); RenameFVarsAt(v, k, xs, ys); RenameFVarsAt(b, k + 1, xs, ys);
    case MData(_, x) => RenameFVarsAt(x, k, xs, ys);
    case Proj(_, _, x) => RenameFVarsAt(x, k, xs, ys);
    case _ =>
  }

  lemma {:induction false} RenameKeeps(e: Expr, xs: seq<Name>, ys: seq<Name>)
    requires |xs| == |ys|
    ensures LooseRange(Rename(e, xs, ys)) == LooseRange(e)
    ensures Plain(e) ==> Plain(Rename(e, xs, ys))
  {
    RenameRange(e, 0, xs, ys);
    if Plain(e) {
      forall l, j: nat | Atomic(l) ensures LeafPlain(RenameLeaf(xs, ys), l, j) { }
      MapPlain(e, 0, RenameLeaf(xs, ys));
    }
  }

  lemma {:induction false} RenameRange(e: Expr, k: nat, xs: seq<Name>, ys: seq<Name>)
    requires |xs| == |ys|
    ensures LooseRange(Map(e, k, RenameLeaf(xs, ys))) == LooseRange(e)
  {
    match e
    case App(f, a) => RenameRange(f, k, xs, ys); RenameRange(a, k, xs, ys);
    case Lambda(_, t, b) => RenameRange(t, k, xs, ys); RenameRange(b, k + 1, xs, ys);
    case Pi(_, t, b) => RenameRange(t, k, xs, ys); RenameRange(b, k + 1, xs, ys);
    case Let(_, t, v, b, _) => RenameRange(t, k, xs, ys); RenameRange(v, k, xs, ys); RenameRange(b, k + 1, xs, ys);
    case MData(_, x) => RenameRange(x, k, xs, ys);
    case Proj(_, _, x) => RenameRange(x, k, xs, ys);
    case _ =>
  }

  lemma {:induction false} RenameErase(e: Expr, xs: seq<Name>, ys: seq<Name>)
    requires |xs| == |ys|
    ensures Erase(Rename(e, xs, ys)) == Rename(Erase(e), xs, ys)
  {
    forall l, j: nat | Atomic(l) ensures LeafErase(RenameLeaf(xs, ys), RenameLeaf(xs, ys), l, j) { }
    EraseMap(e, 0, RenameLeaf(xs, ys), RenameLeaf(xs, ys));
  }

  function RenameAll(us: seq<Expr>, xs: seq<Name>, ys: seq<Name>): (r: seq<Expr>)
    requires |xs| == |ys|
    ensures |r| == |us|
  {
    seq(|us|, i requires 0 <= i < |us| => Rename(us[i], xs, ys))
  }

  lemma {:induction false} RenameApp(f: Expr, args: seq<Expr>, xs: seq<Name>, ys: seq<Name>)
    requires |xs| == |ys|
    ensures Rename(MkApp(f, args), xs, ys) == MkApp(Rename(f, xs, ys), RenameAll(args, xs, ys))
    decreases |args|
  {
    if args != [] {
      var n := |args| - 1;
      RenameApp(f, args[..n], xs, ys);
      assert RenameAll(args, xs, ys)[..n] == RenameAll(args[..n], xs, ys);
    }
  }

  // ---------------------------------------------------------------- parameter prefixes

  predicate HasPis(t: Expr, n: nat) {
    n == 0 || (t.Pi? && HasPis(t.body, n - 1))
  }

  /** What is below the first `n` Pis. */
  function PiBody(t: Expr, n: nat): Expr
    requires HasPis(t, n)
  {
    if n == 0 then t else PiBody(t.body, n - 1)
  }

  /** The first `n` Pis of `t` around another body. */
  function WithBody(t: Expr, n: nat, r: Expr): Expr
    requires HasPis(t, n)
  {
    if n == 0 then r else Pi(t.binder, t.domain, WithBody(t.body, n - 1, r))
  }

  lemma {:induction false} WithBodyLaws(t: Expr, n: nat, r: Expr, s: Expr)
    requires HasPis(t, n)
    ensures HasPis(WithBody(t, n, r), n)
    ensures WithBody(t, n, PiBody(t, n)) == t
    ensures PiBody(WithBody(t, n, r), n) == r
    ensures WithBody(WithBody(t, n, r), n, s) == WithBody(t, n, s)
  {
    if n > 0 { WithBodyLaws(t.body, n - 1, r, s); }
  }

  lemma {:induction false} WithBodyErase(t: Expr, n: nat, r: Expr, s: Expr)
    requires HasPis(t, n)
    ensures Same(WithBody(t, n, r), WithBody(t, n, s)) <==> Same(r, s)
  {
    if n > 0 { WithBodyErase(t.body, n - 1, r, s); }
  }

  lemma {:induction false} PiBodyFacts(t: Expr, n: nat, k: nat)
    requires HasPis(t, n) && LooseRange(t) <= k
    ensures LooseRange(PiBody(t, n)) <= k + n && FVars(PiBody(t, n)) <= FVars(t)
    ensures Plain(t) ==> Plain(PiBody(t, n))
  {
    if n > 0 { PiBodyFacts(t.body, n - 1, k + 1); }
  }

  lemma {:induction false} WithBodyFacts(t: Expr, n: nat, r: Expr, k: nat)
    requires HasPis(t, n) && LooseRange(t) <= k && LooseRange(r) <= k + n
    ensures LooseRange(WithBody(t, n, r)) <= k && FVars(WithBody(t, n, r)) <= FVars(t) + FVars(r)
    ensures Plain(t) && Plain(r) ==> Plain(WithBody(t, n, r))
  {
    if n > 0 { WithBodyFacts(t.body, n - 1, r, k + 1); }
  }

  lemma {:induction false} HasPisStep(t: Expr, i: nat)
    requires HasPis(t, i)
    ensures HasPis(t, i + 1) <==> PiBody(t, i).Pi?
    ensures HasPis(t, i + 1) ==> PiBody(t, i + 1) == PiBody(t, i).body
  {
    if i > 0 { HasPisStep(t.body, i - 1); }
  }

  lemma {:induction false} HasPisMono(t: Expr, i: nat, n: nat)
    requires i <= n && HasPis(t, n)
    ensures HasPis(t, i)
  {
    if i > 0 { HasPisMono(t.body, i - 1, n - 1); }
  }

  /** Binding one more variable around `r`. */
  lemma {:induction false} WithBodyStep(t: Expr, i: nat, r: Expr)
    requires HasPis(t, i + 1) && HasPis(t, i)
    ensures PiBody(t, i).Pi?
    ensures WithBody(t, i, Pi(PiBody(t, i).binder, PiBody(t, i).domain, r)) == WithBody(t, i + 1, r)
  {
    HasPisStep(t, i);
    if i > 0 { WithBodyStep(t.body, i - 1, r); }
  }

  /** A closed term without free variables or generated names. */
  predicate Clean(e: Expr) {
    LooseRange(e) == 0 && FVars(e) == {} && Plain(e)
  }

  lemma {:induction false} AbstractRemoves(e: Expr, k: nat, xs: seq<Name>)
    ensures forall x :: x in FVars(Abstract(e, k, xs)) ==> x in FVars(e) && x !in xs
  {
    match e
    case App(f, a) => AbstractRemoves(f, k, xs); AbstractRemoves(a, k, xs);
    case Lambda(_, t, b) => AbstractRemoves(t, k, xs); AbstractRemoves(b, k + 1, xs);
    case Pi(_, t, b) => AbstractRemoves(t, k, xs); AbstractRemoves(b, k + 1, xs);
    case Let(_, t, v, b, _) => AbstractRemoves(t, k, xs); AbstractRemoves(v, k, xs); AbstractRemoves(b, k + 1, xs);
    case MData(_, x) => AbstractRemoves(x, k, xs);
    case Proj(_, _, x) => AbstractRemoves(x, k, xs);
    case _ =>
  }

  // ---------------------------------------------------------------- opening parameters

  function NestedFresh(i: nat): Name {
    [Str("_nested_fresh"), Num(i)]
  }

  /** The `n` names generated from `i` on. */
  function FreshFrom(i: nat, n: nat): (r: seq<Name>)
    ensures |r| == n && Distinct(r)
  {
    var r := seq(n, k requires 0 <= k < n => NestedFresh(i + k));
    assert forall k :: 0 <= k < n ==> r[k] == NestedFresh(i + k) && r[k][1] == Num(i + k);
    r
  }

  lemma {:induction false} FreshMember(i: nat, n: nat, x: Name)
    ensures x in FreshFrom(i, n) ==> |x| == 2 && x[1].Num? && i <= x[1].index < i + n
  {
    if x in FreshFrom(i, n) {
      var k :| 0 <= k < n && FreshFrom(i, n)[k] == x;
      assert x == NestedFresh(i + k);
    }
  }

  lemma {:induction false} FreshApart(i: nat, n: nat, j: nat, m: nat)
    requires i + n <= j
    ensures forall x :: x in FreshFrom(i, n) ==> x !in FreshFrom(j, m)
  {
    forall x | x in FreshFrom(i, n) ensures x !in FreshFrom(j, m) {
      FreshMember(i, n, x);
      FreshMember(j, m, x);
    }
  }

  ghost predicate ClosesBody(lctx: LocalCtx, xs: seq<Name>, t: Expr, n: nat, r: Expr)
    requires HasPis(t, n) && |xs| == n
  {
    CloseFrom(false, lctx, xs, n, r, false) == Some(WithBody(t, n, r))
  }

  /** The declarations of `xs` are the first `n` Pis of `t`: binding them around any body gives
      that prefix with the body. */
  ghost predicate Declares(lctx: LocalCtx, xs: seq<Name>, t: Expr, n: nat)
    requires HasPis(t, n) && |xs| == n
  {
    forall r: Expr :: ClosesBody(lctx, xs, t, n, r)
  }

  /** `mk_pi(As, e)`. */
  lemma {:induction false} CloseParams(lctx: LocalCtx, xs: seq<Name>, t: Expr, n: nat, e: Expr)
    requires HasPis(t, n) && |xs| == n && Declares(lctx, xs, t, n)
    ensures Closed(false, lctx, xs, e, false) == Some(WithBody(t, n, Abstract(e, 0, xs)))
  {
    assert ClosesBody(lctx, xs, t, n, Abstract(e, 0, xs));
  }

  lemma {:induction false} DeclareOne(lctx: LocalCtx, xs: seq<Name>, t: Expr, i: nat, x: Name, d: Expr)
    requires HasPis(t, i) && HasPis(t, i + 1) && |xs| == i && Declares(lctx, xs, t, i) && Distinct(xs) && x !in xs
    requires LooseRange(t) == 0 && FVars(t) == {}
    requires PiBody(t, i).Pi? && d == InstRev(PiBody(t, i).domain, MkFVars(xs))
    ensures Declares(lctx[x := LocalDecl(PiBody(t, i).binder, d, None)], xs + [x], t, i + 1)
  {
    var p := PiBody(t, i);
    var decl := LocalDecl(p.binder, d, None);
    var lctx', xs' := lctx[x := decl], xs + [x];
    PiBodyFacts(t, i, 0);
    OpenClose(p.domain, 0, xs);
    assert xs'[..i] == xs;
    var m := i + 1;
    forall r: Expr ensures ClosesBody(lctx', xs', t, m, r) {
      var q := Pi(p.binder, p.domain, r);
      assert CloseOne(false, decl, xs, r, false) == q;
      CloseFromFrame(false, lctx, lctx', xs, xs', i, q, false);
      assert ClosesBody(lctx, xs, t, i, q);
      WithBodyStep(t, i, r);
    }
  }

  /** Instantiating with variables does not make new binders. */
  lemma {:induction false} OpenedPi(b: Expr, xs: seq<Name>)
    ensures InstRev(b, MkFVars(xs)).Pi? <==> b.Pi?
    ensures b.Pi? ==> InstRev(b, MkFVars(xs)).binder == b.binder
  {
  }

  lemma {:induction false} FreshSnocFrom(i: nat, n: nat)
    ensures FreshFrom(i, n) + [NestedFresh(i + n)] == FreshFrom(i, n + 1) && NestedFresh(i + n) !in FreshFrom(i, n)
  {
    var r := FreshFrom(i, n + 1);
    assert forall k :: 0 <= k < n ==> r[k] != r[n];
    assert forall k :: 0 <= k < n ==> FreshFrom(i, n)[k] == r[k];
  }

  /** Open the first `n` Pis of a closed type with fresh variables, one at a time; fails when there
      are fewer. */
  method GetParams(t: Expr, n: nat, start: nat) returns (ok: bool, lctx: LocalCtx, xs: seq<Name>, e: Expr)
    requires LooseRange(t) == 0 && FVars(t) == {}
    ensures ok <==> HasPis(t, n)
    ensures ok ==> xs == FreshFrom(start, n) && Declares(lctx, xs, t, n)
    ensures ok ==> e == InstRev(PiBody(t, n), MkFVars(xs))
  {
    lctx, xs, e := map[], [], t;
    InstRevNone(t);
    for i := 0 to n
      invariant HasPis(t, i) && xs == FreshFrom(start, i) && Declares(lctx, xs, t, i)
      invariant e == InstRev(PiBody(t, i), MkFVars(xs))
    {
      ghost var p := PiBody(t, i);
      HasPisStep(t, i);
      OpenedPi(p, xs);
      if !e.Pi? {
        if HasPis(t, n) { HasPisMono(t, i + 1, n); }
        return false, lctx, xs, e;
      }
      var x := NestedFresh(start + i);
      FreshSnocFrom(start, i);
      BindingFacts.InstRevBinding(p, MkFVars(xs));
      BindingFacts.InstRevSnoc(p.body, MkFVars(xs), FVar(x));
      DeclareOne(lctx, xs, t, i, x, e.domain);
      assert MkFVars(xs) + [FVar(x)] == MkFVars(xs + [x]);
      lctx := lctx[x := LocalDecl(e.binder, e.domain, None)];
      xs := xs + [x];
      e := Inst(e.body, 0, [FVar(x)]);
    }
    ok := true;
  }
}
