/** The memoised traversal behind lifting, lowering, instantiation and abstraction
    (kernel/replace_fn.cpp), and why its pruned callbacks compute the plain definitions. */
module ReplaceFn {
  import opened Names
  import opened Prelude
  import opened Exprs
  import opened DeBruijn
  import opened ExprFacts
  import opened ExprGraph

  /** A replacement for a subterm under `offset` binders, or `None` to go on into it. */
  type Callback = (Expr, nat) -> Option<Expr>

  /** Replacement by plain recursion, without a cache. */
  function Replaced(e: Expr, k: nat, f: Callback): Expr {
    if f(e, k).Some? then f(e, k).value else
    match e
    case App(g, a) => App(Replaced(g, k, f), Replaced(a, k, f))
    case Lambda(n, d, b) => Lambda(n, Replaced(d, k, f), Replaced(b, k + 1, f))
    case Pi(n, d, b) => Pi(n, Replaced(d, k, f), Replaced(b, k + 1, f))
    case Let(n, t, v, b, nd) => Let(n, Replaced(t, k, f), Replaced(v, k, f), Replaced(b, k + 1, f), nd)
    case MData(m, x) => MData(m, Replaced(x, k, f))
    case Proj(s, i, x) => Proj(s, i, Replaced(x, k, f))
    case _ => e
  }

  type Cache = map<(nat, nat), Expr>

  /** The entry for node `key.0` under `key.1` binders is what plain recursion computes. */
  ghost predicate EntryOk(g: Graph, f: Callback, key: (nat, nat), r: Expr)
    requires GraphOk(g)
  {
    key.0 < |g| && r == Replaced(Term(g, key.0), key.1, f)
  }

  ghost predicate CacheOk(g: Graph, f: Callback, cache: Cache)
    requires GraphOk(g)
  {
    forall key :: key in cache ==> EntryOk(g, f, key, cache[key])
  }

  class ReplaceRec {
    const g: Graph
    const f: Callback
    const useCache: bool
    var cache: Cache

    ghost predicate Valid()
      reads this
    {
      GraphOk(g) && CacheOk(g, f, cache)
    }

    constructor (g: Graph, f: Callback, useCache: bool)
      requires GraphOk(g)
      ensures Valid() && this.g == g && this.f == f
    {
      this.g, this.f, this.useCache, this.cache := g, f, useCache, map[];
    }

    method SaveResult(p: nat, offset: nat, r: Expr, shared: bool)
      requires Valid() && EntryOk(g, f, (p, offset), r)
      modifies this
      ensures Valid()
    {
      if shared && (p, offset) !in cache {
        cache := cache[(p, offset) := r];
      }
    }

    /** Whatever nodes count as shared, the result is that of plain recursion. */
    method Apply(p: nat, offset: nat) returns (r: Expr)
      requires Valid() && p < |g|
      modifies this
      ensures Valid() && r == Replaced(Term(g, p), offset, f)
      decreases p, 1
    {
      var shared := false;
      var likelyUnshared: bool := *;
      if useCache && !likelyUnshared {
        if (p, offset) in cache {
          assert EntryOk(g, f, (p, offset), cache[(p, offset)]);
          return cache[(p, offset)];
        }
        shared := true;
      }
      var c := f(Term(g, p), offset);
      if c.Some? {
        r := c.value;
      } else {
        r := ApplyChildren(p, offset);
      }
      SaveResult(p, offset, r, shared);
    }

    method ApplyChildren(p: nat, offset: nat) returns (r: Expr)
      requires Valid() && p < |g| && f(Term(g, p), offset).None?
      modifies this
      ensures Valid() && r == Replaced(Term(g, p), offset, f)
      decreases p, 0
    {
      assert NodeOk(g[p], p);
      match g[p]
      case NAtom(e) => r := e;
      case NMData(m, x) =>
        var newX := Apply(x, offset);
        r := MData(m, newX);
      case NProj(s, i, x) =>
        var newX := Apply(x, offset);
        r := Proj(s, i, newX);
      case NApp(h, a) =>
        var newH := Apply(h, offset);
        var newA := Apply(a, offset);
        r := App(newH, newA);
      case NLambda(n, d, b) =>
        var newD := Apply(d, offset);
        var newB := Apply(b, offset + 1);
        r := Lambda(n, newD, newB);
      case NPi(n, d, b) =>
        var newD := Apply(d, offset);
        var newB := Apply(b, offset + 1);
        r := Pi(n, newD, newB);
      case NLet(n, t, v, b, nd) =>
        var newT := Apply(t, offset);
        var newV := Apply(v, offset);
        var newB := Apply(b, offset + 1);
        r := Let(n, newT, newV, newB, nd);
    }
  }

  method Replace(g: Graph, p: nat, f: Callback, useCache: bool) returns (r: Expr)
    requires GraphOk(g) && p < |g|
    ensures r == Replaced(Term(g, p), 0, f)
  {
    var rec := new ReplaceRec(g, f, useCache);
    r := rec.Apply(p, 0);
  }

  // ---------------------------------------------------------------- pruned callbacks

  /** Where the callback answers, it gives the pass's result; where it descends, the pass fixes
      atoms. */
  ghost predicate PrunesAt(f: Callback, s: nat, leaf: (Expr, nat) -> Expr, e: Expr, k: nat) {
    if f(e, k).Some? then f(e, k).value == Map(e, s + k, leaf)
    else Atomic(e) ==> leaf(e, s + k) == e
  }

  ghost predicate Prunes(f: Callback, s: nat, leaf: (Expr, nat) -> Expr) {
    forall e, k: nat :: PrunesAt(f, s, leaf, e, k)
  }

  lemma {:induction false} ReplacedIsMap(e: Expr, k: nat, f: Callback, s: nat, leaf: (Expr, nat) -> Expr)
    requires Prunes(f, s, leaf)
    ensures Replaced(e, k, f) == Map(e, s + k, leaf)
  {
    assert PrunesAt(f, s, leaf, e, k);
    if f(e, k).None? {
      match e
      case App(h, a) => ReplacedIsMap(h, k, f, s, leaf); ReplacedIsMap(a, k, f, s, leaf);
      case Lambda(_, d, b) => ReplacedIsMap(d, k, f, s, leaf); ReplacedIsMap(b, k + 1, f, s, leaf);
      case Pi(_, d, b) => ReplacedIsMap(d, k, f, s, leaf); ReplacedIsMap(b, k + 1, f, s, leaf);
      case Let(_, t, v, b, _) =>
        ReplacedIsMap(t, k, f, s, leaf); ReplacedIsMap(v, k, f, s, leaf); ReplacedIsMap(b, k + 1, f, s, leaf);
      case MData(_, x) => ReplacedIsMap(x, k, f, s, leaf);
      case Proj(_, _, x) => ReplacedIsMap(x, k, f, s, leaf);
      case _ =>
    }
  }

  // ---------------------------------------------------------------- lifting and lowering

  function LiftCallback(s: nat, d: nat): Callback {
    (e: Expr, offset: nat) =>
      var s1 := s + offset;
      if s1 >= LooseRange(e) then Some(e)
      else if e.BVar? && e.idx >= s1 then Some(BVar(e.idx + d))
      else None
  }

  lemma {:induction false} LiftPrunes(s: nat, d: nat)
    ensures Prunes(LiftCallback(s, d), s, LiftLeaf(d))
  {
    forall e, k: nat ensures PrunesAt(LiftCallback(s, d), s, LiftLeaf(d), e, k) {
      if s + k >= LooseRange(e) { NoLoose(e, s + k, d, []); }
    }
  }

  method LiftLooseBVars(g: Graph, p: nat, s: nat, d: nat) returns (r: Expr)
    requires GraphOk(g) && p < |g|
    ensures r == Lift(Term(g, p), s, d)
  {
    var e := Term(g, p);
    if d == 0 || s >= LooseRange(e) {
      LiftZero(e, s);
      if s >= LooseRange(e) { NoLoose(e, s, d, []); }
      return e;
    }
    r := Replace(g, p, LiftCallback(s, d), true);
    LiftPrunes(s, d);
    ReplacedIsMap(e, 0, LiftCallback(s, d), s, LiftLeaf(d));
  }

  function LowerCallback(s: nat, d: nat): Callback {
    (e: Expr, offset: nat) =>
      var s1 := s + offset;
      if s1 >= LooseRange(e) then Some(e)
      else if e.BVar? && e.idx >= s1 && e.idx >= d then Some(BVar(e.idx - d))
      else None
  }

  lemma {:induction false} LowerPrunes(s: nat, d: nat)
    requires s >= d
    ensures Prunes(LowerCallback(s, d), s, LowerLeaf(d))
  {
    forall e, k: nat ensures PrunesAt(LowerCallback(s, d), s, LowerLeaf(d), e, k) {
      if s + k >= LooseRange(e) { NoLoose(e, s + k, d, []); }
    }
  }

  method LowerLooseBVars(g: Graph, p: nat, s: nat, d: nat) returns (r: Expr)
    requires GraphOk(g) && p < |g| && s >= d
    ensures r == Lower(Term(g, p), s, d)
  {
    var e := Term(g, p);
    if d == 0 || s >= LooseRange(e) {
      if s >= LooseRange(e) { NoLoose(e, s, d, []); } else { LowerZero(e, s); }
      return e;
    }
    r := Replace(g, p, LowerCallback(s, d), true);
    LowerPrunes(s, d);
    ReplacedIsMap(e, 0, LowerCallback(s, d), s, LowerLeaf(d));
  }

  lemma {:induction false} LowerZero(e: Expr, s: nat)
    ensures Lower(e, s, 0) == e
  {
    AlwaysLeaves(e, 0);
    MapFixes(e, Always(), Pass(s, LowerLeaf(0)));
  }

  // ---------------------------------------------------------------- instantiation

  /** Substitution from index `s` on; the terms are lifted over the binders crossed only. */
  function InstFromLeaf(s: nat, us: seq<Expr>): (Expr, nat) -> Expr {
    (l: Expr, j: nat) =>
      if !l.BVar? || l.idx < j || j < s then l
      else if l.idx < j + |us| then Lift(us[l.idx - j], 0, j - s)
      else BVar(l.idx - |us|)
  }

  function InstFrom(e: Expr, s: nat, us: seq<Expr>): Expr {
    Map(e, s, InstFromLeaf(s, us))
  }

  function InstCallback(s: nat, us: seq<Expr>): Callback {
    (e: Expr, offset: nat) =>
      var s1 := s + offset;
      if s1 >= LooseRange(e) then Some(e)
      else if e.BVar? && e.idx >= s1 then
        if e.idx < s1 + |us| then Some(Lift(us[e.idx - s1], 0, offset)) else Some(BVar(e.idx - |us|))
      else None
  }

  lemma {:induction false} InstFromNothing(e: Expr, s: nat, k: nat, us: seq<Expr>)
    requires LooseRange(e) <= s + k
    ensures Map(e, s + k, InstFromLeaf(s, us)) == e
  {
    RangeLeaves(e, 0, s + k, []);
    MapFixes(e, InRange(s + k), Pass(s + k, InstFromLeaf(s, us)));
  }

  lemma {:induction false} InstPrunes(s: nat, us: seq<Expr>)
    ensures Prunes(InstCallback(s, us), s, InstFromLeaf(s, us))
  {
    forall e, k: nat ensures PrunesAt(InstCallback(s, us), s, InstFromLeaf(s, us), e, k) {
      if s + k >= LooseRange(e) { InstFromNothing(e, s, k, us); }
    }
  }

  /** From index zero this is simultaneous substitution; from `s` it is substitution of terms that
      live outside the `s` innermost binders. */
  lemma {:induction false} InstFromMeaning(e: Expr, s: nat, us: seq<Expr>)
    ensures InstFrom(e, 0, us) == Inst(e, 0, us)
    ensures InstFrom(e, s, LiftAll(us, 0, s)) == Inst(e, s, us)
  {
    forall l, j: nat | Atomic(l) ensures AtomsAgree(InstFromLeaf(0, us), InstLeaf(us), 0, l, j) { }
    SamePass(e, 0, 0, InstFromLeaf(0, us), InstLeaf(us));
    forall l, j: nat | Atomic(l) ensures AtomsAgree(InstFromLeaf(s, LiftAll(us, 0, s)), InstLeaf(us), s, l, j) {
      if l.BVar? && s + j <= l.idx < s + j + |us| { LiftMerge(us[l.idx - (s + j)], 0, s, 0, j); }
    }
    SamePass(e, s, 0, InstFromLeaf(s, LiftAll(us, 0, s)), InstLeaf(us));
  }

  ghost predicate AtomsAgree(f: (Expr, nat) -> Expr, h: (Expr, nat) -> Expr, s: nat, l: Expr, j: nat) {
    f(l, s + j) == h(l, s + j)
  }

  lemma {:induction false} SamePass(e: Expr, s: nat, k: nat, f: (Expr, nat) -> Expr, h: (Expr, nat) -> Expr)
    requires forall l, j: nat :: Atomic(l) ==> AtomsAgree(f, h, s, l, j)
    ensures Map(e, s + k, f) == Map(e, s + k, h)
  {
    match e
    case App(g, a) => SamePass(g, s, k, f, h); SamePass(a, s, k, f, h);
    case Lambda(_, d, b) => SamePass(d, s, k, f, h); SamePass(b, s, k + 1, f, h);
    case Pi(_, d, b) => SamePass(d, s, k, f, h); SamePass(b, s, k + 1, f, h);
    case Let(_, t, v, b, _) => SamePass(t, s, k, f, h); SamePass(v, s, k, f, h); SamePass(b, s, k + 1, f, h);
    case MData(_, x) => SamePass(x, s, k, f, h);
    case Proj(_, _, x) => SamePass(x, s, k, f, h);
    case _ => assert AtomsAgree(f, h, s, e, k);
  }

  method Instantiate(g: Graph, p: nat, s: nat, us: seq<Expr>) returns (r: Expr)
    requires GraphOk(g) && p < |g|
    ensures r == InstFrom(Term(g, p), s, us)
    ensures s == 0 ==> r == Inst(Term(g, p), 0, us)
  {
    var e := Term(g, p);
    InstFromMeaning(e, 0, us);
    if s >= LooseRange(e) || us == [] {
      if s >= LooseRange(e) {
        InstFromNothing(e, s, 0, us);
      } else {
        InstFromMeaning(e, s, us);
        InstNothing(e, s);
        assert LiftAll(us, 0, s) == us;
      }
      return e;
    }
    r := Replace(g, p, InstCallback(s, us), true);
    InstPrunes(s, us);
    ReplacedIsMap(e, 0, InstCallback(s, us), s, InstFromLeaf(s, us));
  }

  function InstRevCallback(us: seq<Expr>): Callback {
    (e: Expr, offset: nat) =>
      if offset >= LooseRange(e) then Some(e)
      else if e.BVar? && e.idx >= offset then
        if e.idx < offset + |us| then Some(Lift(us[|us| - (e.idx - offset) - 1], 0, offset)) else Some(BVar(e.idx - |us|))
      else None
  }

  lemma {:induction false} InstRevPrunes(us: seq<Expr>)
    ensures Prunes(InstRevCallback(us), 0, InstLeaf(Reverse(us)))
  {
    forall e, k: nat ensures PrunesAt(InstRevCallback(us), 0, InstLeaf(Reverse(us)), e, k) {
      if k >= LooseRange(e) { NoLoose(e, k, 0, Reverse(us)); }
    }
  }

  method InstantiateRev(g: Graph, p: nat, us: seq<Expr>) returns (r: Expr)
    requires GraphOk(g) && p < |g|
    ensures r == InstRev(Term(g, p), us)
  {
    var e := Term(g, p);
    if LooseRange(e) == 0 {
      NoLoose(e, 0, 0, Reverse(us));
      return e;
    }
    r := Replace(g, p, InstRevCallback(us), true);
    InstRevPrunes(us);
    ReplacedIsMap(e, 0, InstRevCallback(us), 0, InstLeaf(Reverse(us)));
  }

  // ---------------------------------------------------------------- abstraction

  /** The backward search of the callback. */
  method FindLast(xs: seq<Name>, x: Name) returns (r: Option<nat>)
    ensures r == LastIndex(xs, x)
  {
    var i := |xs|;
    while i > 0
      invariant 0 <= i <= |xs| && LastIndex(xs, x) == LastIndex(xs[..i], x)
    {
      assert xs[..i][..i - 1] == xs[..i - 1];
      i := i - 1;
      if xs[i] == x {
        return Some(i);
      }
    }
    r := None;
  }

  function AbstractCallback(xs: seq<Name>): Callback {
    (e: Expr, offset: nat) =>
      if !HasFVar(e) then Some(e)
      else if e.FVar? then
        match LastIndex(xs, e.fvar)
        case Some(i) => Some(BVar(offset + |xs| - i - 1))
        case None => None
      else None
  }

  lemma {:induction false} AbstractPrunes(xs: seq<Name>)
    ensures Prunes(AbstractCallback(xs), 0, AbstractLeaf(xs))
  {
    forall e, k: nat ensures PrunesAt(AbstractCallback(xs), 0, AbstractLeaf(xs), e, k) {
      HasFVarMeaning(e);
      if !HasFVar(e) { NoFVars(e, k, xs); }
    }
  }

  method AbstractFVars(g: Graph, p: nat, xs: seq<Name>) returns (r: Expr)
    requires GraphOk(g) && p < |g|
    ensures r == Abstract(Term(g, p), 0, xs)
  {
    var e := Term(g, p);
    HasFVarMeaning(e);
    if !HasFVar(e) {
      NoFVars(e, 0, xs);
      return e;
    }
    r := Replace(g, p, AbstractCallback(xs), true);
    AbstractPrunes(xs);
    ReplacedIsMap(e, 0, AbstractCallback(xs), 0, AbstractLeaf(xs));
  }

  // ---------------------------------------------------------------- searching for a loose index

  class LooseSearch {
    const g: Graph
    const i: nat
    var cache: set<(nat, nat)>
    var found: bool

    constructor (g: Graph, i: nat)
      ensures cache == {} && !found && this.g == g && this.i == i
    {
      this.g, this.i, this.cache, this.found := g, i, {}, false;
    }

    ghost predicate Occurs(p: nat, offset: nat)
      requires GraphOk(g) && p < |g|
    {
      HasLoose(Term(g, p), i + offset)
    }

    /** A visited node below which the index does not occur. */
    ghost predicate KeyClean(key: (nat, nat))
      requires GraphOk(g)
    {
      key.0 < |g| && !Occurs(key.0, key.1)
    }

    /** The visited nodes before `n` are clean; later ones may still be in progress. */
    ghost predicate CleanBelow(visited: set<(nat, nat)>, n: nat)
      requires GraphOk(g)
    {
      forall key :: key in visited && key.0 < n ==> KeyClean(key)
    }

    /** Only clean nodes before `n` were added. */
    ghost predicate Grown(was: set<(nat, nat)>, now: set<(nat, nat)>, n: nat)
      requires GraphOk(g)
    {
      was <= now && forall key :: key in now && key !in was ==> key.0 < n && KeyClean(key)
    }

    /** The callback: `false` means that the children need not be searched. */
    method Visit(p: nat, offset: nat) returns (descend: bool)
      requires GraphOk(g) && p < |g|
      modifies this`found
      ensures old(found) ==> found && !descend
      ensures !old(found) && found ==> Occurs(p, offset)
      ensures !old(found) && !descend ==> !Occurs(p, offset)
      ensures !old(found) && g[p].NAtom? ==> found == Occurs(p, offset)
      ensures !g[p].NAtom? ==> found == old(found)
    {
      var e := Term(g, p);
      assert NodeOk(g[p], p);
      if found {
        return false;
      }
      var n := i + offset;
      if n >= LooseRange(e) {
        LooseBelowRange(e, n);
        return false;
      }
      if e.BVar? && e.idx == n {
        found := true;
      }
      descend := true;
    }

    method Visited(p: nat, offset: nat) returns (r: bool)
      modifies this`cache
      ensures r ==> (p, offset) in old(cache) && cache == old(cache)
      ensures !r ==> cache == old(cache) || cache == old(cache) + {(p, offset)}
    {
      var likelyUnshared: bool := *;
      if likelyUnshared {
        return false;
      }
      if (p, offset) in cache {
        return true;
      }
      cache := cache + {(p, offset)};
      r := false;
    }

    /** Searching finds the index exactly if it occurs, although visited nodes are skipped. */
    method Apply(p: nat, offset: nat)
      requires GraphOk(g) && p < |g| && (found || CleanBelow(cache, p + 1))
      modifies this
      ensures old(found) ==> found
      ensures !old(found) ==> (found <==> Occurs(p, offset))
      ensures found || Grown(old(cache), cache, p + 1)
      decreases p, 1
    {
      var d;
      if g[p].NAtom? && (g[p].e.Const? || g[p].e.BVar? || g[p].e.Sort?) {
        d := Visit(p, offset);
        return;
      }
      var seen := Visited(p, offset);
      if seen {
        assert !found ==> KeyClean((p, offset));
        return;
      }
      ghost var now := cache;
      d := Visit(p, offset);
      if d {
        ApplyChildren(p, offset);
      }
      assert !old(found) && !found ==> KeyClean((p, offset));
    }

    method ApplyChildren(p: nat, offset: nat)
      requires GraphOk(g) && p < |g| && (found || CleanBelow(cache, p)) && (g[p].NAtom? ==> found == Occurs(p, offset))
      requires !g[p].NAtom? ==> !found
      modifies this
      ensures found <==> Occurs(p, offset)
      ensures found || Grown(old(cache), cache, p)
      decreases p, 0
    {
      assert NodeOk(g[p], p);
      match g[p]
      case NAtom(e) =>
      case NMData(_, x) => Apply(x, offset);
      case NProj(_, _, x) => Apply(x, offset);
      case NApp(f, a) => Apply(f, offset); Apply(a, offset);
      case NLambda(_, d, b) => Apply(d, offset); Apply(b, offset + 1);
      case NPi(_, d, b) => Apply(d, offset); Apply(b, offset + 1);
      case NLet(_, t, v, b, _) => Apply(t, offset); Apply(v, offset); Apply(b, offset + 1);
    }
  }

  method HasLooseBVar(g: Graph, p: nat, i: nat) returns (r: bool)
    requires GraphOk(g) && p < |g|
    ensures r <==> HasLoose(Term(g, p), i)
  {
    if LooseRange(Term(g, p)) == 0 {
      LooseBelowRange(Term(g, p), i);
      return false;
    }
    var search := new LooseSearch(g, i);
    search.Apply(p, 0);
    r := search.found;
  }

  lemma {:induction false} LooseBelowRange(e: Expr, n: nat)
    requires LooseRange(e) <= n
    ensures !HasLoose(e, n)
  {
    match e
    case App(f, a) => LooseBelowRange(f, n); LooseBelowRange(a, n);
    case Lambda(_, d, b) => LooseBelowRange(d, n); LooseBelowRange(b, n + 1);
    case Pi(_, d, b) => LooseBelowRange(d, n); LooseBelowRange(b, n + 1);
    case Let(_, t, v, b, _) => LooseBelowRange(t, n); LooseBelowRange(v, n); LooseBelowRange(b, n + 1);
    case MData(_, x) => LooseBelowRange(x, n);
    case Proj(_, _, x) => LooseBelowRange(x, n);
    case _ =>
  }
}
