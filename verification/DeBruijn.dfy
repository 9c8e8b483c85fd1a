/** The de Bruijn algebra: how lifting, substitution and abstraction commute and cancel.
    Every law compares two passes with two passes; `MapChain` reduces it to atomic terms. */
module DeBruijn {
  import opened Names
  import opened Prelude
  import opened Exprs

  // ---------------------------------------------------------------- comparing passes

  datatype Pass = Pass(base: nat, f: (Expr, nat) -> Expr)

  function Id(): (Expr, nat) -> Expr {
    (l: Expr, j: nat) => l
  }

  ghost predicate Agree(e: Expr, i: nat, p1: Pass, p2: Pass, q1: Pass, q2: Pass) {
    Map(Map(e, p1.base + i, p1.f), p2.base + i, p2.f) == Map(Map(e, q1.base + i, q1.f), q2.base + i, q2.f)
  }

  /** `ok` holds of every atomic subexpression with its depth. */
  ghost predicate AllLeaves(e: Expr, i: nat, ok: (Expr, nat) -> bool) {
    match e
    case App(f, a) => AllLeaves(f, i, ok) && AllLeaves(a, i, ok)
    case Lambda(_, t, b) => AllLeaves(t, i, ok) && AllLeaves(b, i + 1, ok)
    case Pi(_, t, b) => AllLeaves(t, i, ok) && AllLeaves(b, i + 1, ok)
    case Let(_, t, v, b, _) => AllLeaves(t, i, ok) && AllLeaves(v, i, ok) && AllLeaves(b, i + 1, ok)
    case MData(_, x) => AllLeaves(x, i, ok)
    case Proj(_, _, x) => AllLeaves(x, i, ok)
    case _ => ok(e, i)
  }

  ghost predicate AgreeWhere(ok: (Expr, nat) -> bool, p1: Pass, p2: Pass, q1: Pass, q2: Pass) {
    forall l, j: nat :: Atomic(l) && ok(l, j) ==> Agree(l, j, p1, p2, q1, q2)
  }

  lemma {:induction false} AgreeLambda(n: Binder, t: Expr, b: Expr, i: nat, p1: Pass, p2: Pass, q1: Pass, q2: Pass)
    requires Agree(t, i, p1, p2, q1, q2) && Agree(b, i + 1, p1, p2, q1, q2)
    ensures Agree(Lambda(n, t, b), i, p1, p2, q1, q2)
  {
  }

  lemma {:induction false} AgreePi(n: Binder, t: Expr, b: Expr, i: nat, p1: Pass, p2: Pass, q1: Pass, q2: Pass)
    requires Agree(t, i, p1, p2, q1, q2) && Agree(b, i + 1, p1, p2, q1, q2)
    ensures Agree(Pi(n, t, b), i, p1, p2, q1, q2)
  {
  }

  lemma {:induction false} AgreeLet(n: Name, t: Expr, v: Expr, b: Expr, nd: bool, i: nat, p1: Pass, p2: Pass, q1: Pass, q2: Pass)
    requires Agree(t, i, p1, p2, q1, q2) && Agree(v, i, p1, p2, q1, q2) && Agree(b, i + 1, p1, p2, q1, q2)
    ensures Agree(Let(n, t, v, b, nd), i, p1, p2, q1, q2)
  {
  }

  lemma {:induction false} AgreeUnary(m: nat, n: Name, x: Expr, i: nat, p1: Pass, p2: Pass, q1: Pass, q2: Pass)
    requires Agree(x, i, p1, p2, q1, q2)
    ensures Agree(MData(m, x), i, p1, p2, q1, q2) && Agree(Proj(n, m, x), i, p1, p2, q1, q2)
  {
  }

  /** Two pairs of passes that agree on the atomic subexpressions of `e` agree on `e`. */
  lemma {:induction false} MapChain(e: Expr, i: nat, ok: (Expr, nat) -> bool, p1: Pass, p2: Pass, q1: Pass, q2: Pass)
    requires AllLeaves(e, i, ok)
    requires AgreeWhere(ok, p1, p2, q1, q2)
    ensures Agree(e, i, p1, p2, q1, q2)
  {
    match e
    case App(g, a) =>
      MapChain(g, i, ok, p1, p2, q1, q2);
      MapChain(a, i, ok, p1, p2, q1, q2);
    case Lambda(n, t, b) =>
      MapChain(t, i, ok, p1, p2, q1, q2);
      MapChain(b, i + 1, ok, p1, p2, q1, q2);
      AgreeLambda(n, t, b, i, p1, p2, q1, q2);
    case Pi(n, t, b) =>
      MapChain(t, i, ok, p1, p2, q1, q2);
      MapChain(b, i + 1, ok, p1, p2, q1, q2);
      AgreePi(n, t, b, i, p1, p2, q1, q2);
    case Let(n, t, v, b, nd) =>
      MapChain(t, i, ok, p1, p2, q1, q2);
      MapChain(v, i, ok, p1, p2, q1, q2);
      MapChain(b, i + 1, ok, p1, p2, q1, q2);
      AgreeLet(n, t, v, b, nd, i, p1, p2, q1, q2);
    case MData(m, x) => MapChain(x, i, ok, p1, p2, q1, q2); AgreeUnary(m, [], x, i, p1, p2, q1, q2);
    case Proj(n, m, x) => MapChain(x, i, ok, p1, p2, q1, q2); AgreeUnary(m, n, x, i, p1, p2, q1, q2);
    case _ => assert Atomic(e);
  }

  lemma {:induction false} MapCommute(e: Expr, ok: (Expr, nat) -> bool, p1: Pass, p2: Pass, q1: Pass, q2: Pass)
    requires AllLeaves(e, 0, ok)
    requires AgreeWhere(ok, p1, p2, q1, q2)
    ensures Map(Map(e, p1.base, p1.f), p2.base, p2.f) == Map(Map(e, q1.base, q1.f), q2.base, q2.f)
  {
    MapChain(e, 0, ok, p1, p2, q1, q2);
  }

  lemma {:induction false} MapIdentity(e: Expr, k: nat)
    ensures Map(e, k, Id()) == e
  {
    match e
    case App(f, a) => MapIdentity(f, k); MapIdentity(a, k);
    case Lambda(_, t, b) => MapIdentity(t, k); MapIdentity(b, k + 1);
    case Pi(_, t, b) => MapIdentity(t, k); MapIdentity(b, k + 1);
    case Let(_, t, v, b, _) => MapIdentity(t, k); MapIdentity(v, k); MapIdentity(b, k + 1);
    case MData(_, x) => MapIdentity(x, k);
    case Proj(_, _, x) => MapIdentity(x, k);
    case _ =>
  }

  ghost predicate Fuses(e: Expr, i: nat, p1: Pass, p2: Pass, q: Pass) {
    Map(Map(e, p1.base + i, p1.f), p2.base + i, p2.f) == Map(e, q.base + i, q.f)
  }

  /** Two passes that agree with one pass on the atomic subexpressions of `e` agree with it on `e`. */
  lemma {:induction false} MapFuse(e: Expr, ok: (Expr, nat) -> bool, p1: Pass, p2: Pass, q: Pass)
    requires AllLeaves(e, 0, ok)
    requires forall l, j: nat :: Atomic(l) && ok(l, j) ==> Fuses(l, j, p1, p2, q)
    ensures Map(Map(e, p1.base, p1.f), p2.base, p2.f) == Map(e, q.base, q.f)
  {
    var id := Pass(0, Id());
    forall l, j: nat | Atomic(l) && ok(l, j) ensures Agree(l, j, p1, p2, q, id) {
      assert Fuses(l, j, p1, p2, q);
      MapIdentity(Map(l, q.base + j, q.f), id.base + j);
    }
    MapChain(e, 0, ok, p1, p2, q, id);
    MapIdentity(Map(e, q.base, q.f), 0);
  }

  /** A pass that fixes the atomic subexpressions of `e` fixes `e`. */
  lemma {:induction false} MapFixes(e: Expr, ok: (Expr, nat) -> bool, p: Pass)
    requires AllLeaves(e, 0, ok)
    requires forall l, j: nat :: Atomic(l) && ok(l, j) ==> p.f(l, p.base + j) == l
    ensures Map(e, p.base, p.f) == e
  {
    var id := Pass(0, Id());
    forall l, j: nat | Atomic(l) && ok(l, j) ensures Fuses(l, j, p, id, id) {
      assert p.f(l, p.base + j) == l;
    }
    MapFuse(e, ok, p, id, id);
    MapIdentity(e, 0);
    MapIdentity(Map(e, p.base, p.f), 0);
  }

  function Always(): (Expr, nat) -> bool {
    (l: Expr, j: nat) => true
  }

  function InRange(n: nat): (Expr, nat) -> bool {
    (l: Expr, j: nat) => LooseRange(l) <= n + j
  }

  function Avoiding(n: nat, xs: seq<Name>): (Expr, nat) -> bool {
    (l: Expr, j: nat) => LooseRange(l) <= n + j && (l.FVar? ==> l.fvar !in xs)
  }

  function NoGap(s: nat, d: nat): (Expr, nat) -> bool {
    (l: Expr, j: nat) => l.BVar? ==> !(s + j <= l.idx < s + j + d)
  }

  lemma {:induction false} AlwaysLeaves(e: Expr, i: nat)
    ensures AllLeaves(e, i, Always())
  {
    match e
    case App(f, a) => AlwaysLeaves(f, i); AlwaysLeaves(a, i);
    case Lambda(_, t, b) => AlwaysLeaves(t, i); AlwaysLeaves(b, i + 1);
    case Pi(_, t, b) => AlwaysLeaves(t, i); AlwaysLeaves(b, i + 1);
    case Let(_, t, v, b, _) => AlwaysLeaves(t, i); AlwaysLeaves(v, i); AlwaysLeaves(b, i + 1);
    case MData(_, x) => AlwaysLeaves(x, i);
    case Proj(_, _, x) => AlwaysLeaves(x, i);
    case _ =>
  }

  lemma {:induction false} RangeLeaves(e: Expr, i: nat, n: nat, xs: seq<Name>)
    requires LooseRange(e) <= n + i
    ensures AllLeaves(e, i, InRange(n))
    ensures (forall x :: x in xs ==> x !in FVars(e)) ==> AllLeaves(e, i, Avoiding(n, xs))
  {
    match e
    case App(f, a) => RangeLeaves(f, i, n, xs); RangeLeaves(a, i, n, xs);
    case Lambda(_, t, b) => RangeLeaves(t, i, n, xs); RangeLeaves(b, i + 1, n, xs);
    case Pi(_, t, b) => RangeLeaves(t, i, n, xs); RangeLeaves(b, i + 1, n, xs);
    case Let(_, t, v, b, _) => RangeLeaves(t, i, n, xs); RangeLeaves(v, i, n, xs); RangeLeaves(b, i + 1, n, xs);
    case MData(_, x) => RangeLeaves(x, i, n, xs);
    case Proj(_, _, x) => RangeLeaves(x, i, n, xs);
    case _ =>
  }

  /** None of the indices from `s` up to `s + d` occurs. */
  ghost predicate GapFree(e: Expr, s: nat, d: nat) {
    AllLeaves(e, 0, NoGap(s, d))
  }

  /** `has_loose_bvar` says exactly whether a single index is absent. */
  lemma {:induction false} GapFreeOne(e: Expr, s: nat, i: nat)
    ensures AllLeaves(e, i, NoGap(s, 1)) <==> !HasLoose(e, s + i)
  {
    match e
    case App(f, a) => GapFreeOne(f, s, i); GapFreeOne(a, s, i);
    case Lambda(_, t, b) => GapFreeOne(t, s, i); GapFreeOne(b, s, i + 1);
    case Pi(_, t, b) => GapFreeOne(t, s, i); GapFreeOne(b, s, i + 1);
    case Let(_, t, v, b, _) => GapFreeOne(t, s, i); GapFreeOne(v, s, i); GapFreeOne(b, s, i + 1);
    case MData(_, x) => GapFreeOne(x, s, i);
    case Proj(_, _, x) => GapFreeOne(x, s, i);
    case _ =>
  }

  // ---------------------------------------------------------------- no-ops

  /** Passes above the loose range change nothing. */
  lemma {:induction false} NoLoose(e: Expr, s: nat, d: nat, us: seq<Expr>)
    requires LooseRange(e) <= s
    ensures Lift(e, s, d) == e
    ensures Inst(e, s, us) == e
    ensures s >= d ==> Lower(e, s, d) == e
  {
    RangeLeaves(e, 0, s, []);
    MapFixes(e, InRange(s), Pass(s, LiftLeaf(d)));
    MapFixes(e, InRange(s), Pass(s, InstLeaf(us)));
    MapFixes(e, InRange(s), Pass(s, LowerLeaf(d)));
  }

  lemma {:induction false} LiftZero(e: Expr, s: nat)
    ensures Lift(e, s, 0) == e
  {
    AlwaysLeaves(e, 0);
    MapFixes(e, Always(), Pass(s, LiftLeaf(0)));
  }

  lemma {:induction false} InstNothing(e: Expr, k: nat)
    ensures Inst(e, k, []) == e
  {
    AlwaysLeaves(e, 0);
    MapFixes(e, Always(), Pass(k, InstLeaf([])));
  }

  lemma {:induction false} NoFVars(e: Expr, k: nat, xs: seq<Name>)
    requires forall x :: x in xs ==> x !in FVars(e)
    ensures Abstract(e, k, xs) == e
  {
    RangeLeaves(e, 0, LooseRange(e), xs);
    MapFixes(e, Avoiding(LooseRange(e), xs), Pass(k, AbstractLeaf(xs)));
  }

  // ---------------------------------------------------------------- lifting

  /** Two overlapping lifts are one. */
  lemma {:induction false} LiftMerge(e: Expr, s: nat, d: nat, s': nat, d': nat)
    requires s <= s' <= s + d
    ensures Lift(Lift(e, s, d), s', d') == Lift(e, s, d + d')
  {
    AlwaysLeaves(e, 0);
    var p1, p2, q := Pass(s, LiftLeaf(d)), Pass(s', LiftLeaf(d')), Pass(s, LiftLeaf(d + d'));
    forall l, j: nat | Atomic(l) ensures Fuses(l, j, p1, p2, q) { }
    MapFuse(e, Always(), p1, p2, q);
  }

  /** Lowering undoes lifting. */
  lemma {:induction false} LowerLift(e: Expr, s: nat, d: nat)
    ensures Lower(Lift(e, s, d), s + d, d) == e
  {
    AlwaysLeaves(e, 0);
    var p1, p2, q := Pass(s, LiftLeaf(d)), Pass(s + d, LowerLeaf(d)), Pass(0, Id());
    forall l, j: nat | Atomic(l) ensures Fuses(l, j, p1, p2, q) { }
    MapFuse(e, Always(), p1, p2, q);
    MapIdentity(e, 0);
  }

  /** Lifting undoes lowering when none of the removed indices occurs. */
  lemma {:induction false} LiftLower(e: Expr, s: nat, d: nat)
    requires GapFree(e, s, d)
    ensures Lift(Lower(e, s + d, d), s, d) == e
  {
    var p1, p2, q := Pass(s + d, LowerLeaf(d)), Pass(s, LiftLeaf(d)), Pass(0, Id());
    forall l, j: nat | Atomic(l) && NoGap(s, d)(l, j) ensures Fuses(l, j, p1, p2, q) { }
    MapFuse(e, NoGap(s, d), p1, p2, q);
    MapIdentity(e, 0);
  }

  // ---------------------------------------------------------------- substitution

  /** Substituting into a gap made by lifting removes the gap. */
  lemma {:induction false} InstLiftCancel(e: Expr, s: nat, d: nat, k: nat, us: seq<Expr>)
    requires s <= k && k + |us| <= s + d
    ensures Inst(Lift(e, s, d), k, us) == Lift(e, s, d - |us|)
  {
    AlwaysLeaves(e, 0);
    var p1, p2, q := Pass(s, LiftLeaf(d)), Pass(k, InstLeaf(us)), Pass(s, LiftLeaf(d - |us|));
    forall l, j: nat | Atomic(l) ensures Fuses(l, j, p1, p2, q) { }
    MapFuse(e, Always(), p1, p2, q);
  }

  /** Lifting below the substituted indices. */
  lemma {:induction false} LiftInstLow(e: Expr, k: nat, us: seq<Expr>, s: nat, d: nat)
    requires s <= k
    ensures Lift(Inst(e, k, us), s, d) == Inst(Lift(e, s, d), k + d, us)
  {
    AlwaysLeaves(e, 0);
    var p1, p2 := Pass(k, InstLeaf(us)), Pass(s, LiftLeaf(d));
    var q1, q2 := Pass(s, LiftLeaf(d)), Pass(k + d, InstLeaf(us));
    forall l, j: nat | Atomic(l) ensures Agree(l, j, p1, p2, q1, q2) {
      if l.BVar? && k + j <= l.idx < k + j + |us| { LiftMerge(us[l.idx - (k + j)], 0, k + j, s + j, d); }
    }
    MapCommute(e, Always(), p1, p2, q1, q2);
  }

  function LiftAll(us: seq<Expr>, s: nat, d: nat): (r: seq<Expr>)
    ensures |r| == |us|
  {
    seq(|us|, i requires 0 <= i < |us| => Lift(us[i], s, d))
  }

  function InstAll(us: seq<Expr>, k: nat, vs: seq<Expr>): (r: seq<Expr>)
    ensures |r| == |us|
  {
    seq(|us|, i requires 0 <= i < |us| => Inst(us[i], k, vs))
  }

  lemma {:induction false} InstInstAtom(l: Expr, j: nat, k: nat, us: seq<Expr>, s: nat, vs: seq<Expr>)
    requires Atomic(l)
    ensures Agree(l, j, Pass(k, InstLeaf(us)), Pass(k + s, InstLeaf(vs)),
                        Pass(k + |us| + s, InstLeaf(vs)), Pass(k, InstLeaf(InstAll(us, s, vs))))
  {
    if l.BVar? {
      var low, high := k + j, k + |us| + s + j;
      if low <= l.idx < low + |us| {
        LiftInstLow(us[l.idx - low], s, vs, 0, low);
      } else if high <= l.idx < high + |vs| {
        InstLiftCancel(vs[l.idx - high], 0, high, low, InstAll(us, s, vs));
      }
    }
  }

  /** Substitution lemma: two substitutions commute. */
  lemma {:induction false} InstInst(e: Expr, k: nat, us: seq<Expr>, s: nat, vs: seq<Expr>)
    ensures Inst(Inst(e, k, us), k + s, vs) == Inst(Inst(e, k + |us| + s, vs), k, InstAll(us, s, vs))
  {
    AlwaysLeaves(e, 0);
    var p1, p2 := Pass(k, InstLeaf(us)), Pass(k + s, InstLeaf(vs));
    var q1, q2 := Pass(k + |us| + s, InstLeaf(vs)), Pass(k, InstLeaf(InstAll(us, s, vs)));
    forall l, j: nat | Atomic(l) ensures Agree(l, j, p1, p2, q1, q2) {
      InstInstAtom(l, j, k, us, s, vs);
    }
    MapCommute(e, Always(), p1, p2, q1, q2);
  }

  /** Batched substitution is iterated substitution. */
  lemma {:induction false} InstSplit(e: Expr, k: nat, us: seq<Expr>, vs: seq<Expr>)
    ensures Inst(Inst(e, k + |us|, vs), k, us) == Inst(e, k, us + vs)
  {
    AlwaysLeaves(e, 0);
    var p1, p2, q := Pass(k + |us|, InstLeaf(vs)), Pass(k, InstLeaf(us)), Pass(k, InstLeaf(us + vs));
    forall l, j: nat | Atomic(l) ensures Fuses(l, j, p1, p2, q) {
      if l.BVar? && k + j + |us| <= l.idx < k + j + |us| + |vs| {
        InstLiftCancel(vs[l.idx - (k + j + |us|)], 0, k + j + |us|, k + j, us);
      }
    }
    MapFuse(e, Always(), p1, p2, q);
  }

  // ---------------------------------------------------------------- abstraction

  function MkFVars(xs: seq<Name>): (r: seq<Expr>)
    ensures |r| == |xs|
  {
    seq(|xs|, i requires 0 <= i < |xs| => FVar(xs[i]))
  }

  ghost predicate Distinct(xs: seq<Name>) {
    forall i, j :: 0 <= i < j < |xs| ==> xs[i] != xs[j]
  }

  lemma {:induction false} DistinctLastIndex(xs: seq<Name>, i: nat)
    requires Distinct(xs) && i < |xs|
    ensures LastIndex(xs, xs[i]) == Some(i)
  {
  }

  /** Where an index of the instantiated range goes and comes back from. */
  lemma {:induction false} OpenCloseIndex(i: nat, j: nat, k: nat, xs: seq<Name>)
    requires Distinct(xs) && k + j <= i < k + j + |xs|
    ensures var x := InstAt(BVar(i), k + j, Reverse(MkFVars(xs)));
      x == FVar(xs[|xs| - 1 - (i - (k + j))]) && AbstractAt(x, k + j, xs) == BVar(i)
  {
    var n := |xs| - 1 - (i - (k + j));
    DistinctLastIndex(xs, n);
    assert Reverse(MkFVars(xs))[i - (k + j)] == FVar(xs[n]);
  }

  lemma {:induction false} OpenCloseAtom(l: Expr, j: nat, k: nat, xs: seq<Name>)
    requires Distinct(xs) && Atomic(l) && Avoiding(k + |xs|, xs)(l, j)
    ensures Fuses(l, j, Pass(k, InstLeaf(Reverse(MkFVars(xs)))), Pass(k, AbstractLeaf(xs)), Pass(0, Id()))
  {
    hide Distinct, LastIndex, Reverse, MkFVars;
    if l.BVar? && l.idx >= k + j {
      OpenCloseIndex(l.idx, j, k, xs);
    } else if l.FVar? {
      NotListed(xs, l.fvar);
    }
  }

  lemma {:induction false} NotListed(xs: seq<Name>, x: Name)
    requires x !in xs
    ensures LastIndex(xs, x).None?
  {
  }

  /** Closing what was opened with fresh distinct variables gives the body back. */
  lemma {:induction false} OpenClose(e: Expr, k: nat, xs: seq<Name>)
    requires Distinct(xs) && forall x :: x in xs ==> x !in FVars(e)
    requires LooseRange(e) <= k + |xs|
    ensures Abstract(Inst(e, k, Reverse(MkFVars(xs))), k, xs) == e
  {
    var ok := Avoiding(k + |xs|, xs);
    RangeLeaves(e, 0, k + |xs|, xs);
    var p1, p2, q := Pass(k, InstLeaf(Reverse(MkFVars(xs)))), Pass(k, AbstractLeaf(xs)), Pass(0, Id());
    forall l, j: nat | Atomic(l) && ok(l, j) ensures Fuses(l, j, p1, p2, q) { OpenCloseAtom(l, j, k, xs); }
    MapFuse(e, ok, p1, p2, q);
    MapIdentity(e, 0);
  }

  /** Opening what was closed gives the term back. */
  lemma {:induction false} CloseOpen(e: Expr, k: nat, xs: seq<Name>)
    requires LooseRange(e) <= k
    ensures Inst(Abstract(e, k, xs), k, Reverse(MkFVars(xs))) == e
  {
    RangeLeaves(e, 0, k, []);
    var p1, p2, q := Pass(k, AbstractLeaf(xs)), Pass(k, InstLeaf(Reverse(MkFVars(xs)))), Pass(0, Id());
    forall l, j: nat | Atomic(l) && InRange(k)(l, j) ensures Fuses(l, j, p1, p2, q) { }
    MapFuse(e, InRange(k), p1, p2, q);
    MapIdentity(e, 0);
  }
}
