/** Structural equality of shared terms with an optimistic cache of visited pairs
    (kernel/expr_eq_fn.cpp). */
module ExprEq {
  import opened Names
  import opened Exprs
  import opened ExprGraph

  /** Equality with or without binder names and infos. */
  predicate Equal(binderInfo: bool, a: Expr, b: Expr) {
    if binderInfo then a == b else Same(a, b)
  }

  /** The constructor of an expression. */
  function Kind(e: Expr): nat {
    match e
    case BVar(_) => 0
    case FVar(_) => 1
    case MVar(_) => 2
    case Sort(_) => 3
    case Const(_, _) => 4
    case App(_, _) => 5
    case Lambda(_, _, _) => 6
    case Pi(_, _, _) => 7
    case Let(_, _, _, _, _) => 8
    case Lit(_) => 9
    case MData(_, _) => 10
    case Proj(_, _, _) => 11
  }

  lemma {:induction false} KindOfErasure(a: Expr, b: Expr)
    requires Same(a, b)
    ensures Kind(a) == Kind(b)
  {
    assert Kind(Erase(a)) == Kind(a) && Kind(Erase(b)) == Kind(b);
  }

  /** Running out of stack is an exception. */
  datatype Result = StackSpace | Answer(value: bool)

  class EqFn {
    const g: Graph
    const compareBinderInfo: bool
    const hash: Expr -> nat
    var cache: set<(nat, nat)>
    var maxStackDepth: nat

    constructor (g: Graph, compareBinderInfo: bool, hash: Expr -> nat)
      requires GraphOk(g)
      ensures this.g == g && this.compareBinderInfo == compareBinderInfo && this.hash == hash && cache == {}
    {
      this.g, this.compareBinderInfo, this.hash, this.cache, this.maxStackDepth := g, compareBinderInfo, hash, {}, 0;
    }

    ghost predicate Valid() {
      GraphOk(g) && forall x, y :: Equal(compareBinderInfo, x, y) ==> hash(x) == hash(y)
    }

    ghost predicate Eq(a: nat, b: nat)
      requires GraphOk(g)
    {
      a < |g| && b < |g| && Equal(compareBinderInfo, Term(g, a), Term(g, b))
    }

    /** Pairs whose left node comes before `n` are equal; later ones are still being compared. */
    ghost predicate SettledBelow(pairs: set<(nat, nat)>, n: nat)
      requires GraphOk(g)
    {
      forall key :: key in pairs && key.0 < n ==> Eq(key.0, key.1)
    }

    /** Only equal pairs before `n` were added. */
    ghost predicate Grown(was: set<(nat, nat)>, now: set<(nat, nat)>, n: nat)
      requires GraphOk(g)
    {
      was <= now && forall key :: key in now && key !in was ==> key.0 < n && Eq(key.0, key.1)
    }

    method CheckCache(a: nat, b: nat) returns (hit: bool)
      modifies this`cache
      ensures hit ==> (a, b) in old(cache) && cache == old(cache)
      ensures !hit ==> cache == old(cache) || cache == old(cache) + {(a, b)}
    {
      var shared: bool := *;
      if !shared {
        return false;
      }
      if (a, b) in cache {
        return true;
      }
      cache := cache + {(a, b)};
      hit := false;
    }

    predicate CheckSystem(depth: nat)
      reads this`maxStackDepth
    {
      !(depth > maxStackDepth && maxStackDepth > 0)
    }

    /** The answer is exact although a pair is taken for equal from the moment it is entered: any
        difference found later makes every comparison in progress fail. */
    method Apply(a: nat, b: nat, depth: nat, root: bool) returns (r: Result)
      requires Valid() && a < |g| && b < |g| && SettledBelow(cache, a + 1)
      modifies this
      ensures r.Answer? ==> (r.value <==> Eq(a, b))
      ensures r == Answer(true) ==> Grown(old(cache), cache, a + 1)
      decreases a, 2
    {
      var ta, tb := Term(g, a), Term(g, b);
      assert NodeOk(g[a], a) && NodeOk(g[b], b);
      if a == b {
        return Answer(true);
      }
      if hash(ta) != hash(tb) {
        return Answer(false);
      }
      if Kind(ta) != Kind(tb) {
        if Same(ta, tb) { KindOfErasure(ta, tb); }
        return Answer(false);
      }
      if g[a].NAtom? && !ta.Const? {
        return Answer(ta == tb);
      }
      if root {
        var available: nat :| true;
        maxStackDepth := available;
      } else {
        var hit := CheckCache(a, b);
        if hit {
          assert Eq(a, b);
          return Answer(true);
        }
      }
      r := Children(a, b, depth + 1);
    }

    /** Nodes of the same kind, compared part by part. */
    method Children(a: nat, b: nat, depth: nat) returns (r: Result)
      requires Valid() && a < |g| && b < |g| && SettledBelow(cache, a) && Kind(Term(g, a)) == Kind(Term(g, b))
      modifies this
      ensures r.Answer? ==> (r.value <==> Eq(a, b))
      ensures r == Answer(true) ==> Grown(old(cache), cache, a)
      decreases a, 1
    {
      assert NodeOk(g[a], a) && NodeOk(g[b], b);
      match g[a]
      case NAtom(e) => r := Answer(e == g[b].e);
      case NMData(m, x) =>
        r := Apply(x, g[b].inner, depth, false);
        if r == Answer(true) {
          r := Answer(m == g[b].data);
        }
      case NProj(n, i, x) =>
        r := Apply(x, g[b].struct, depth, false);
        if r == Answer(true) {
          r := Answer(n == g[b].sname && i == g[b].pidx);
        }
      case NApp(_, _) => r := Spine(a, b, depth);
      case NLambda(n, d, t) => r := Binding(a, b, depth, d, g[b].domain, t, g[b].body, n, g[b].binder);
      case NPi(n, d, t) => r := Binding(a, b, depth, d, g[b].domain, t, g[b].body, n, g[b].binder);
      case NLet(_, _, _, _, _) => r := LetParts(a, b, depth);
    }

    method Binding(ghost a: nat, ghost b: nat, depth: nat, d: nat, d': nat, t: nat, t': nat, n: Binder, n': Binder)
      returns (r: Result)
      requires Valid() && a < |g| && b < |g| && SettledBelow(cache, a)
      requires (g[a] == NLambda(n, d, t) && g[b] == NLambda(n', d', t')) || (g[a] == NPi(n, d, t) && g[b] == NPi(n', d', t'))
      modifies this
      ensures r.Answer? ==> (r.value <==> Eq(a, b))
      ensures r == Answer(true) ==> Grown(old(cache), cache, a)
      decreases a, 0
    {
      assert NodeOk(g[a], a) && NodeOk(g[b], b);
      if !CheckSystem(depth) {
        return StackSpace;
      }
      r := Apply(d, d', depth, false);
      if r == Answer(true) {
        r := Apply(t, t', depth, false);
        if r == Answer(true) {
          r := Answer(!compareBinderInfo || n == n');
        }
      }
    }

    method LetParts(a: nat, b: nat, depth: nat) returns (r: Result)
      requires Valid() && a < |g| && b < |g| && SettledBelow(cache, a) && g[a].NLet? && g[b].NLet?
      modifies this
      ensures r.Answer? ==> (r.value <==> Eq(a, b))
      ensures r == Answer(true) ==> Grown(old(cache), cache, a)
      decreases a, 0
    {
      assert NodeOk(g[a], a) && NodeOk(g[b], b);
      if !CheckSystem(depth) {
        return StackSpace;
      }
      r := Apply(g[a].letType, g[b].letType, depth, false);
      if r == Answer(true) {
        r := Apply(g[a].letValue, g[b].letValue, depth, false);
        if r == Answer(true) {
          r := Apply(g[a].letBody, g[b].letBody, depth, false);
          if r == Answer(true) {
            r := Answer(g[a].nondep == g[b].nondep && (!compareBinderInfo || g[a].letName == g[b].letName));
          }
        }
      }
    }

    /** Applications: the arguments from the last to the first, then the heads. */
    method Spine(a: nat, b: nat, depth: nat) returns (r: Result)
      requires Valid() && a < |g| && b < |g| && SettledBelow(cache, a) && g[a].NApp? && g[b].NApp?
      modifies this
      ensures r.Answer? ==> (r.value <==> Eq(a, b))
      ensures r == Answer(true) ==> Grown(old(cache), cache, a)
      decreases a, 0
    {
      assert NodeOk(g[a], a) && NodeOk(g[b], b);
      if !CheckSystem(depth) {
        return StackSpace;
      }
      r := Apply(g[a].arg, g[b].arg, depth, false);
      if r != Answer(true) {
        return;
      }
      var x: nat, y: nat := g[a].fn, g[b].fn;
      while g[x].NApp?
        invariant x < a && y < b && Valid()
        invariant Eq(a, b) <==> Eq(x, y)
        invariant Grown(old(cache), cache, a)
        decreases x
      {
        assert NodeOk(g[x], x) && NodeOk(g[y], y);
        if !g[y].NApp? {
          if Same(Term(g, x), Term(g, y)) { KindOfErasure(Term(g, x), Term(g, y)); }
          return Answer(false);
        }
        r := Apply(g[x].arg, g[y].arg, depth, false);
        if r != Answer(true) {
          return;
        }
        x, y := g[x].fn, g[y].fn;
      }
      r := Apply(x, y, depth, false);
    }
  }

  /** `is_equal` and `is_bi_equal`: structural equality of the unfolded terms. */
  method IsEqual(g: Graph, a: nat, b: nat, compareBinderInfo: bool, hash: Expr -> nat) returns (r: Result)
    requires GraphOk(g) && a < |g| && b < |g|
    requires forall x, y :: Equal(compareBinderInfo, x, y) ==> hash(x) == hash(y)
    ensures r.Answer? ==> (r.value <==> Equal(compareBinderInfo, Term(g, a), Term(g, b)))
  {
    var eq := new EqFn(g, compareBinderInfo, hash);
    r := eq.Apply(a, b, 0, true);
  }
}
