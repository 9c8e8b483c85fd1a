/** Instantiating metavariables while rewriting the context (kernel/instantiate_mvars.cpp):
    assignments are replaced by their instantiated values as they are met, results are cached, and
    still every result is that of plain recursion against the context of the start. */
module InstantiateMVars {
  import opened Names
  import opened Prelude
  import opened Exprs
  import opened BetaZeta
  import opened MVarContexts
  import opened MVarFacts
  import L = Levels

  /** The caches are keyed by node address in the program, and the saved assignments keep those
      addresses from being reused; here a lookup may find or miss any expression seen before. */
  class Instantiator {
    var assign: map<Name, Expr>
    var lassign: map<Name, L.Level>
    const delayed: map<Name, Delayed>
    var normalized: set<Name>
    var cache: map<Expr, Expr>
    var lcache: map<L.Level, (L.Level, bool)>
    /** The context at the start and a witness that it is acyclic. */
    ghost const start: Context
    ghost const rk: Ranking

    ghost predicate LEntryOk(m: Name)
      reads this`lassign
    {
      && LevelsAcyclic(start, rk) && m in start.lassign && m in lassign
      && (lassign[m] == start.lassign[m] || lassign[m] == LFull(start, rk, start.lassign[m]))
    }

    /** A stored level result, and whether it was the argument itself. */
    ghost predicate LCached(l: L.Level)
      reads this`lcache
    {
      && LevelsAcyclic(start, rk) && l in lcache
      && lcache[l].0 == LFull(start, rk, l) && (lcache[l].1 <==> lcache[l].0 == l)
    }

    ghost predicate LevelsValid()
      reads this`lassign, this`lcache
    {
      && Acyclic(start, rk) && delayed == start.delayed && lassign.Keys == start.lassign.Keys
      && (forall m :: m in lassign ==> LEntryOk(m))
      && (forall l :: l in lcache ==> LCached(l))
    }

    /** Assignments of rank below `b` are either untouched or normalized. */
    ghost predicate EntryOk(b: nat, m: Name)
      reads this`assign, this`normalized
    {
      && Acyclic(start, rk) && m in start.assign && m in assign
      && (m !in normalized ==> assign[m] == start.assign[m])
      && (m in normalized && rk.expr(m) < b ==> assign[m] == Full(start, rk, start.assign[m]))
    }

    ghost predicate Cached(e: Expr)
      reads this`cache
    {
      Acyclic(start, rk) && e in cache && cache[e] == Full(start, rk, e)
    }

    ghost predicate Valid(b: nat)
      reads this
    {
      && LevelsValid() && assign.Keys == start.assign.Keys
      && (forall m :: m in assign ==> EntryOk(b, m))
      && (forall e :: e in cache ==> Cached(e))
    }

    constructor (c: Context, ghost rk: Ranking)
      requires Acyclic(c, rk)
      ensures start == c && this.rk == rk
      ensures assign == c.assign && lassign == c.lassign && normalized == {}
      ensures forall b :: Valid(b)
    {
      assign, lassign, delayed := c.assign, c.lassign, c.delayed;
      normalized, cache, lcache := {}, map[], map[];
      start, this.rk := c, rk;
    }

    // ---------------------------------------------------------------- levels

    method SaveLevel(l: L.Level, r: L.Level, same: bool, shared: bool)
      requires LevelsValid() && r == LFull(start, rk, l) && (same <==> r == l)
      modifies this`lcache
      ensures LevelsValid()
    {
      if shared && l !in lcache {
        lcache := lcache[l := (r, same)];
        assert forall k :: k in lcache ==> k == l || k in old(lcache);
        assert forall k :: k in old(lcache) ==> old(LCached(k));
      }
    }

    method AssignLevel(m: Name, r: L.Level)
      requires LevelsValid() && m in lassign && r == LFull(start, rk, start.lassign[m])
      modifies this`lassign
      ensures LevelsValid()
    {
      lassign := lassign[m := r];
      assert forall k :: k in lassign && k != m ==> old(LEntryOk(k));
    }

    /** `same` says that the result is the argument object itself. */
    method VisitLevel(l: L.Level) returns (r: L.Level, same: bool)
      requires LevelsValid()
      modifies this`lassign, this`lcache
      ensures LevelsValid() && r == LFull(start, rk, l) && (same <==> r == l)
      decreases LRankOf(rk, l), l, 1
    {
      if !LevelHasMVar(l) {
        NoMVarLevel(start, rk, l);
        return l, true;
      }
      var shared: bool := *;
      if shared && l in lcache {
        assert LCached(l);
        return lcache[l].0, lcache[l].1;
      }
      match l
      case Succ(a) =>
        var a', s := VisitLevel(a);
        r, same := (if s then l else L.Succ(a')), s;
        SaveLevel(l, r, same, shared);
      case Max(a, b) =>
        r, same := VisitPair(l, a, b);
        SaveLevel(l, r, same, shared);
      case IMax(a, b) =>
        r, same := VisitPair(l, a, b);
        SaveLevel(l, r, same, shared);
      case MVar(m) =>
        if m !in lassign {
          return l, true;
        }
        r := VisitAssigned(m);
        same := false;
        LFullSame(start, rk, l);
    }

    method VisitPair(l: L.Level, a: L.Level, b: L.Level) returns (r: L.Level, same: bool)
      requires LevelsValid() && (l == L.Max(a, b) || l == L.IMax(a, b))
      modifies this`lassign, this`lcache
      ensures LevelsValid() && r == LFull(start, rk, l) && (same <==> r == l)
      decreases LRankOf(rk, l), l, 0
    {
      var a', s := VisitLevel(a);
      var b', t := VisitLevel(b);
      same := s && t;
      if same {
        r := l;
      } else if l.Max? {
        r := L.MkMax(a', b');
      } else {
        r := L.MkIMax(a', b');
      }
      LFullSame(start, rk, l);
      LFullSame(start, rk, a);
      LFullSame(start, rk, b);
    }

    method VisitAssigned(m: Name) returns (r: L.Level)
      requires LevelsValid() && m in lassign
      modifies this`lassign, this`lcache
      ensures LevelsValid() && r == LFull(start, rk, L.MVar(m))
      decreases LRankOf(rk, L.MVar(m)), L.MVar(m), 0
    {
      var a := lassign[m];
      assert LEntryOk(m);
      LFullRank(start, rk, start.lassign[m]);
      LFullSettled(start, rk, start.lassign[m]);
      if !LevelHasMVar(a) {
        NoMVarLevel(start, rk, a);
        return a;
      }
      var same;
      r, same := VisitLevel(a);
      if !same {
        AssignLevel(m, r);
      }
    }

    method VisitLevels(ls: seq<L.Level>) returns (r: seq<L.Level>)
      requires LevelsValid()
      modifies this`lassign, this`lcache
      ensures LevelsValid() && r == LFullAll(start, rk, ls)
    {
      r := [];
      for i := 0 to |ls|
        invariant LevelsValid() && r == LFullAll(start, rk, ls)[..i]
      {
        var l, same := VisitLevel(ls[i]);
        r := r + [l];
      }
    }

    // ---------------------------------------------------------------- expressions

    /** Assignments of rank `b` and above are as in `a0`, `n0`. */
    ghost predicate Above(b: nat, a0: map<Name, Expr>, n0: set<Name>)
      reads this`assign, this`normalized
    {
      forall m :: m in a0 && rk.expr(m) >= b ==>
        m in assign && assign[m] == a0[m] && (m in normalized <==> m in n0)
    }

    method SaveExpr(e: Expr, r: Expr, shared: bool, ghost b: nat)
      requires Valid(b) && r == Full(start, rk, e)
      modifies this`cache
      ensures Valid(b)
    {
      if shared && e !in cache {
        cache := cache[e := r];
        assert forall k :: k in cache ==> k == e || k in old(cache);
        assert forall k :: k in old(cache) ==> old(Cached(k));
      }
    }

    method AssignExpr(m: Name, r: Expr, ghost b: nat)
      requires Valid(rk.expr(m)) && m in assign && m in normalized && r == Full(start, rk, start.assign[m])
      requires rk.expr(m) < b && forall k :: k in assign && k != m ==> EntryOk(b, k)
      modifies this`assign
      ensures Valid(b) && assign == old(assign)[m := r]
    {
      assign := assign[m := r];
      assert forall k :: k in assign && k != m ==> old(EntryOk(b, k));
    }

    /** Instantiate an assignment met for the first time and store the result.  The variable is
        marked before its assignment is visited. */
    method Normalize(m: Name, ghost b: nat) returns (r: Expr)
      requires Valid(b) && rk.expr(m) < b && m in assign && m !in normalized
      modifies this
      ensures Valid(b) && Above(b, old(assign), old(normalized))
      ensures r == Full(start, rk, start.assign[m])
      decreases b, 0, 0
    {
      hide Full, RankOf;
      var a := assign[m];
      assert EntryOk(b, m);
      normalized := normalized + {m};
      assert forall k :: k in assign ==> old(EntryOk(b, k));
      r := Visit(a, rk.expr(m));
      var isEqp: bool :| isEqp ==> a == r;
      if !isEqp {
        AssignExpr(m, r, b);
      }
    }

    /** The instantiated assignment of `m`, stored in the context on the way. */
    method GetAssignment(m: Name, ghost b: nat) returns (r: Option<Expr>)
      requires Valid(b) && rk.expr(m) < b
      modifies this
      ensures Valid(b) && Above(b, old(assign), old(normalized))
      ensures r == if m in start.assign then Some(Full(start, rk, start.assign[m])) else None
      decreases b, 0, 1
    {
      if m !in assign {
        return None;
      }
      var a := assign[m];
      assert EntryOk(b, m);
      if !HasMVar(a) || m in normalized {
        if m !in normalized { NoMVars(start, rk, a); }
        return Some(a);
      }
      var v := Normalize(m, b);
      r := Some(v);
    }

    /** Visit the arguments of a spine, last argument first. */
    method VisitArgs(e: Expr, ghost b: nat) returns (rev: seq<Expr>)
      requires Valid(b) && RankOf(rk, e) <= b
      modifies this
      ensures Valid(b) && Above(b, old(assign), old(normalized)) && rev == FullRevArgs(start, rk, e)
      decreases b, Size(e), 0
    {
      assert Acyclic(start, rk);
      hide Valid, Acyclic, Full;
      rev := [];
      var curr := e;
      while curr.App?
        invariant Valid(b) && Above(b, old(assign), old(normalized))
        invariant rev + FullRevArgs(start, rk, curr) == FullRevArgs(start, rk, e)
        invariant RankOf(rk, curr) <= b && Size(curr) <= Size(e)
        decreases curr
      {
        var a := Visit(curr.arg, b);
        assert rev + FullRevArgs(start, rk, curr) == rev + [a] + FullRevArgs(start, rk, curr.fn);
        rev := rev + [a];
        curr := curr.fn;
      }
    }

    method VisitApp(e: Expr, ghost b: nat) returns (r: Expr)
      requires Valid(b) && RankOf(rk, e) <= b && e.App?
      modifies this
      ensures Valid(b) && Above(b, old(assign), old(normalized)) && r == Full(start, rk, e)
      decreases b, Size(e), 1
    {
      var f := AppFn(e);
      HeadMeasure(rk, e);
      if !f.MVar? {
        var rev := VisitArgs(e, b);
        var g := Visit(f, b);
        return MkRevApp(g, rev);
      }
      var g := GetAssignment(f.mvar, b);
      if g.Some? {
        var rev := VisitArgs(e, b);
        return ApplyBetaZeta(g.value, rev);
      }
      if f.mvar !in delayed || |delayed[f.mvar].fvars| > |AppArgs(e)| {
        var rev := VisitArgs(e, b);
        return MkRevApp(f, rev);
      }
      var d := delayed[f.mvar];
      var val := GetAssignment(d.pending, b);
      var rev := VisitArgs(e, b);
      if val.None? || HasExprMVar(val.value) {
        r := MkRevApp(f, rev);
      } else {
        r := Resolve(d.fvars, val.value, rev);
      }
    }

    method Visit(e: Expr, ghost b: nat) returns (r: Expr)
      requires Valid(b) && RankOf(rk, e) <= b
      modifies this
      ensures Valid(b) && Above(b, old(assign), old(normalized)) && r == Full(start, rk, e)
      decreases b, Size(e), 3
    {
      if !HasMVar(e) {
        NoMVars(start, rk, e);
        return e;
      }
      var shared: bool := *;
      if shared && e in cache {
        assert Cached(e);
        return cache[e];
      }
      if e.MVar? {
        var a := GetAssignment(e.mvar, b);
        return if a.Some? then a.value else e;
      }
      r := VisitCompound(e, b);
      SaveExpr(e, r, shared, b);
    }

    method VisitCompound(e: Expr, ghost b: nat) returns (r: Expr)
      requires Valid(b) && RankOf(rk, e) <= b && !e.MVar?
      modifies this
      ensures Valid(b) && Above(b, old(assign), old(normalized)) && r == Full(start, rk, e)
      decreases b, Size(e), 2
    {
      match e
      case Sort(l) =>
        var l', _ := VisitLevel(l);
        r := Sort(l');
      case Const(n, ls) =>
        var ls' := VisitLevels(ls);
        r := Const(n, ls');
      case App(_, _) =>
        r := VisitApp(e, b);
      case Lambda(n, t, x) =>
        var t' := Visit(t, b);
        var x' := Visit(x, b);
        r := Lambda(n, t', x');
      case Pi(n, t, x) =>
        var t' := Visit(t, b);
        var x' := Visit(x, b);
        r := Pi(n, t', x');
      case Let(n, t, v, x, nd) =>
        var t' := Visit(t, b);
        var v' := Visit(v, b);
        var x' := Visit(x, b);
        r := Let(n, t', v', x', nd);
      case MData(d, x) =>
        var x' := Visit(x, b);
        r := MData(d, x');
      case Proj(s, i, x) =>
        var x' := Visit(x, b);
        r := Proj(s, i, x');
      case _ => r := e;
    }
  }

  /** `instantiateExprMVars`: the result is that of plain recursion, and every assignment of the
      new context is the old one or its instantiation. */
  method InstantiateExprMVars(c: Context, e: Expr, ghost rk: Ranking) returns (c': Context, r: Expr)
    requires Acyclic(c, rk)
    ensures r == Full(c, rk, e)
    ensures Rewrites(c, rk, c')
  {
    var fn := new Instantiator(c, rk);
    ghost var b := RankOf(rk, e);
    assert fn.Valid(b);
    r := fn.Visit(e, b);
    c' := Context(fn.assign, fn.lassign, c.delayed);
    forall m | m in c.assign ensures ExprEntry(c, rk, c', m) { assert fn.EntryOk(b, m); }
    forall m | m in c.lassign ensures LevelEntry(c, rk, c', m) { assert fn.LEntryOk(m); }
  }

  /** `instantiateLevelMVars`. */
  method InstantiateLevelMVars(c: Context, l: L.Level, ghost rk: Ranking) returns (c': Context, r: L.Level)
    requires Acyclic(c, rk)
    ensures r == LFull(c, rk, l)
    ensures Rewrites(c, rk, c') && c'.assign == c.assign
  {
    var fn := new Instantiator(c, rk);
    assert fn.Valid(0);
    var same;
    r, same := fn.VisitLevel(l);
    c' := Context(c.assign, fn.lassign, c.delayed);
    forall m | m in c.lassign ensures LevelEntry(c, rk, c', m) { assert fn.LEntryOk(m); }
  }
}
