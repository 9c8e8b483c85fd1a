/** The kernel's equivalence manager (kernel/equiv_manager.cpp): a union-find over expressions
    that falls back to structural comparison and records what it learns. */
module EquivManagers {
  import opened Names
  import opened Exprs
  import opened ExprFacts
  import opened Congruence
  import opened UnionFind

  type Pairs = set<(Expr, Expr)>

  ghost function PairRel(pairs: Pairs): Rel {
    (a: Expr, b: Expr) => (a, b) in pairs
  }

  /** Every link stays inside the congruence. */
  ghost predicate LinksConv(R: Rel, ns: seq<Node>, keys: seq<Expr>)
    requires Forest(ns) && |keys| == |ns|
  {
    forall i: nat :: i < |ns| ==> LinkOk(ns, i) && Conv(R, keys[i], keys[ns[i].parent])
  }

  lemma {:induction false} RootConv(R: Rel, ns: seq<Node>, keys: seq<Expr>, i: nat)
    requires Forest(ns) && |keys| == |ns| && i < |ns|
    requires LinksConv(R, ns, keys)
    ensures Conv(R, keys[i], keys[Root(ns, i)])
    decreases MaxRank(ns) - ns[i].rank
  {
    assert LinkOk(ns, i);
    if ns[i].parent == i {
      ConvRefl(R, keys[i], keys[i]);
    } else {
      RootConv(R, ns, keys, ns[i].parent);
      ConvTrans(R, keys[i], keys[ns[i].parent], keys[Root(ns, i)]);
    }
  }

  ghost predicate RootKept(ns: seq<Node>, ns2: seq<Node>, i: nat)
    requires Forest(ns) && Forest(ns2) && |ns| <= |ns2| && i < |ns|
  {
    Root(ns2, i) == Root(ns2, Root(ns, i))
  }

  /** Every class of `ns` lies inside one class of `ns2`. */
  ghost predicate Coarser(ns: seq<Node>, ns2: seq<Node>)
    requires Forest(ns) && Forest(ns2)
  {
    && |ns| <= |ns2|
    && forall i: nat :: i < |ns| ==> RootKept(ns, ns2, i)
  }

  /** The classes of `ns2` are those of `ns` with the classes of `n1` and `n2` united. */
  ghost predicate United(ns: seq<Node>, ns2: seq<Node>, n1: nat, n2: nat)
    requires Forest(ns) && Forest(ns2) && |ns2| == |ns| && n1 < |ns| && n2 < |ns|
  {
    forall i: nat, j: nat :: i < |ns| && j < |ns| ==>
      (Root(ns2, i) == Root(ns2, j) <==>
        (Root(ns, i) == Root(ns, j)
         || (Root(ns, i) == Root(ns, n1) && Root(ns, j) == Root(ns, n2))
         || (Root(ns, i) == Root(ns, n2) && Root(ns, j) == Root(ns, n1))))
  }

  lemma {:induction false} UnitedCoarser(ns: seq<Node>, ns2: seq<Node>, n1: nat, n2: nat)
    requires Forest(ns) && Forest(ns2) && |ns2| == |ns| && n1 < |ns| && n2 < |ns|
    requires United(ns, ns2, n1, n2)
    ensures Coarser(ns, ns2)
  {
    forall i: nat | i < |ns| ensures RootKept(ns, ns2, i) {
      assert Root(ns, Root(ns, i)) == Root(ns, i);
    }
  }

  lemma {:induction false} CoarserTrans(ns: seq<Node>, ns2: seq<Node>, ns3: seq<Node>)
    requires Forest(ns) && Forest(ns2) && Forest(ns3) && Coarser(ns, ns2) && Coarser(ns2, ns3)
    ensures Coarser(ns, ns3)
  {
    forall i: nat | i < |ns| ensures RootKept(ns, ns3, i) {
      assert RootKept(ns, ns2, i) && RootKept(ns2, ns3, i) && RootKept(ns2, ns3, Root(ns, i));
    }
  }

  lemma {:induction false} CoarserRefl(ns: seq<Node>)
    requires Forest(ns)
    ensures Coarser(ns, ns)
  {
    forall i: nat | i < |ns| ensures RootKept(ns, ns, i) {
      assert Root(ns, Root(ns, i)) == Root(ns, i);
    }
  }

  lemma {:induction false} LinkedUnites(ns: seq<Node>, ns2: seq<Node>, c: nat, p: nat, n1: nat, n2: nat)
    requires Forest(ns) && Forest(ns2) && Linked(ns, ns2, c, p) && n1 < |ns| && n2 < |ns|
    requires (Root(ns, n1) == c && Root(ns, n2) == p) || (Root(ns, n1) == p && Root(ns, n2) == c)
    ensures United(ns, ns2, n1, n2)
  {
    forall i: nat | i < |ns| ensures Root(ns2, i) == if Root(ns, i) == c then p else Root(ns, i) {
      LinkedRoot(ns, ns2, c, p, i);
    }
  }

  /** The nodes and the expression table describe each other, and links stay inside the congruence. */
  ghost predicate Consistent(R: Rel, ns: seq<Node>, toNode: map<Expr, nat>, keys: seq<Expr>) {
    && Forest(ns) && Heavy(ns) && |keys| == |ns|
    && (forall e :: e in toNode ==> toNode[e] < |ns| && keys[toNode[e]] == e && Erase(e) == e)
    && (forall i :: 0 <= i < |ns| ==> keys[i] in toNode && toNode[keys[i]] == i)
    && LinksConv(R, ns, keys)
  }

  lemma {:induction false} LinkedConsistent(R: Rel, ns: seq<Node>, ns2: seq<Node>, toNode: map<Expr, nat>, keys: seq<Expr>, c: nat, p: nat)
    requires Consistent(R, ns, toNode, keys) && Linked(ns, ns2, c, p)
    requires Conv(R, keys[c], keys[p])
    requires ns2[p].rank == ns[p].rank || (ns[c].rank == ns[p].rank && ns2[p].rank == ns[p].rank + 1)
    ensures Consistent(R, ns2, toNode, keys)
  {
    LinkedForest(ns, ns2, c, p);
    LinkedHeavy(ns, ns2, c, p);
    forall i: nat | i < |ns2| ensures LinkOk(ns2, i) && Conv(R, keys[i], keys[ns2[i].parent]) {
      assert LinkOk(ns, i);
      if i == c { } else if i == p { ConvRefl(R, keys[p], keys[p]); } else { assert ns2[i] == ns[i]; }
    }
  }

  lemma {:induction false} PushConsistent(R: Rel, ns: seq<Node>, toNode: map<Expr, nat>, keys: seq<Expr>, key: Expr)
    requires Consistent(R, ns, toNode, keys) && key !in toNode && Erase(key) == key
    ensures Consistent(R, ns + [Node(|ns|, 0)], toNode[key := |ns|], keys + [key])
    ensures Coarser(ns, ns + [Node(|ns|, 0)])
  {
    var ns2, keys2 := ns + [Node(|ns|, 0)], keys + [key];
    PushHeavy(ns);
    forall i: nat | i < |ns| ensures Root(ns2, i) == Root(ns, i) { PushRoot(ns, i); }
    forall i: nat | i < |ns2| ensures LinkOk(ns2, i) && Conv(R, keys2[i], keys2[ns2[i].parent]) {
      assert i < |ns| ==> LinkOk(ns, i);
      if i == |ns| { ConvRefl(R, key, key); } else {
        assert ns2[i] == ns[i] && keys2[i] == keys[i] && keys2[ns[i].parent] == keys[ns[i].parent];
      }
    }
    forall i | 0 <= i < |ns2| ensures keys2[i] in toNode[key := |ns|] && toNode[key := |ns|][keys2[i]] == i {
      if i < |ns| { assert keys2[i] == keys[i]; }
    }
  }

  /** Roots of nodes whose expressions are congruent are congruent. */
  lemma {:induction false} RootsConv(R: Rel, ns: seq<Node>, toNode: map<Expr, nat>, keys: seq<Expr>, n1: nat, n2: nat)
    requires Consistent(R, ns, toNode, keys) && n1 < |ns| && n2 < |ns| && Conv(R, keys[n1], keys[n2])
    ensures Conv(R, keys[Root(ns, n1)], keys[Root(ns, n2)])
    ensures Conv(R, keys[Root(ns, n2)], keys[Root(ns, n1)])
  {
    var r1, r2 := Root(ns, n1), Root(ns, n2);
    RootConv(R, ns, keys, n1);
    RootConv(R, ns, keys, n2);
    ConvSymm(R, keys[n1], keys[r1]);
    ConvTrans(R, keys[r1], keys[n1], keys[n2]);
    ConvTrans(R, keys[r1], keys[n2], keys[r2]);
    ConvSymm(R, keys[r1], keys[r2]);
  }

  /** The leaf cases of the structural comparison. */
  predicate SameAtom(a: Expr, b: Expr) {
    match (a, b)
    case (Const(n, ls), Const(m, ks)) => n == m && ls == ks
    case (MVar(n), MVar(m)) => n == m
    case (FVar(n), FVar(m)) => n == m
    case (Sort(l), Sort(k)) => l == k
    case (Lit(l), Lit(k)) => l == k
    case _ => false
  }

  // ---------------------------------------------------------------- what is accepted

  /** The classes at some moment, and whether hash codes are compared first. */
  datatype Classes = Classes(nodes: seq<Node>, toNode: map<Expr, nat>, useHash: bool, hash: Expr -> nat)

  ghost predicate OneClass(c: Classes, a: Expr, b: Expr)
    requires Forest(c.nodes)
  {
    && Erase(a) in c.toNode && Erase(b) in c.toNode && c.toNode[Erase(a)] < |c.nodes| && c.toNode[Erase(b)] < |c.nodes|
    && Root(c.nodes, c.toNode[Erase(a)]) == Root(c.nodes, c.toNode[Erase(b)])
  }

  /** Equal, or in one class, or of the same shape with such parts. */
  ghost predicate Matched(c: Classes, a: Expr, b: Expr)
    requires Forest(c.nodes)
    decreases a, 1
  {
    Same(a, b) || (!(a.BVar? && b.BVar?) && (c.useHash ==> c.hash(a) == c.hash(b)) && (OneClass(c, a, b) || PartsMatched(c, a, b)))
  }

  ghost predicate PartsMatched(c: Classes, a: Expr, b: Expr)
    requires Forest(c.nodes)
    decreases a, 0
  {
    if a.App? && b.App? then Matched(c, a.fn, b.fn) && Matched(c, a.arg, b.arg)
    else if (a.Lambda? && b.Lambda?) || (a.Pi? && b.Pi?) then Matched(c, a.domain, b.domain) && Matched(c, a.body, b.body)
    else if a.Let? && b.Let? then
      Matched(c, a.letType, b.letType) && Matched(c, a.letValue, b.letValue) && Matched(c, a.letBody, b.letBody)
    else if a.MData? && b.MData? then Matched(c, a.inner, b.inner)
    else if a.Proj? && b.Proj? then Matched(c, a.struct, b.struct) && a.pidx == b.pidx
    else SameAtom(a, b)
  }

  /** Classes only unite and expressions keep their nodes. */
  ghost predicate ClassesGrow(c: Classes, d: Classes)
    requires Forest(c.nodes) && Forest(d.nodes)
  {
    && Coarser(c.nodes, d.nodes) && d.useHash == c.useHash && d.hash == c.hash
    && forall e :: e in c.toNode ==> e in d.toNode && d.toNode[e] == c.toNode[e]
  }

  lemma {:induction false} ClassesTrans(c: Classes, d: Classes, e: Classes)
    requires Forest(c.nodes) && Forest(d.nodes) && Forest(e.nodes) && ClassesGrow(c, d) && ClassesGrow(d, e)
    ensures ClassesGrow(c, e)
  {
    CoarserTrans(c.nodes, d.nodes, e.nodes);
  }

  lemma {:induction false} HashAside(c: Classes, d: Classes, withHash: bool)
    requires Forest(c.nodes) && Forest(d.nodes) && ClassesGrow(c.(useHash := withHash), d)
    ensures ClassesGrow(c, d.(useHash := c.useHash))
  {
  }

  lemma {:induction false} ClassesSame(c: Classes)
    requires Forest(c.nodes)
    ensures ClassesGrow(c, c)
  {
    CoarserRefl(c.nodes);
  }

  lemma {:induction false} MatchedGrows(c: Classes, d: Classes, a: Expr, b: Expr)
    requires Forest(c.nodes) && Forest(d.nodes) && ClassesGrow(c, d) && Matched(c, a, b)
    ensures Matched(d, a, b)
    decreases a, 1
  {
    hide Same, OneClass, PartsMatched;
    if OneClass(c, a, b) { OneClassGrows(c, d, a, b); }
    if PartsMatched(c, a, b) { PartsGrow(c, d, a, b); }
  }

  lemma {:induction false} PartsGrow(c: Classes, d: Classes, a: Expr, b: Expr)
    requires Forest(c.nodes) && Forest(d.nodes) && ClassesGrow(c, d) && PartsMatched(c, a, b)
    ensures PartsMatched(d, a, b)
    decreases a, 0
  {
    hide Matched, SameAtom, ClassesGrow;
    if a.App? && b.App? {
      MatchedGrows(c, d, a.fn, b.fn); MatchedGrows(c, d, a.arg, b.arg);
    } else if (a.Lambda? && b.Lambda?) || (a.Pi? && b.Pi?) {
      MatchedGrows(c, d, a.domain, b.domain); MatchedGrows(c, d, a.body, b.body);
    } else if a.Let? && b.Let? {
      MatchedGrows(c, d, a.letType, b.letType); MatchedGrows(c, d, a.letValue, b.letValue);
      MatchedGrows(c, d, a.letBody, b.letBody);
    } else if a.MData? && b.MData? {
      MatchedGrows(c, d, a.inner, b.inner);
    } else if a.Proj? && b.Proj? {
      MatchedGrows(c, d, a.struct, b.struct);
    }
  }

  lemma {:induction false} OneClassGrows(c: Classes, d: Classes, a: Expr, b: Expr)
    requires Forest(c.nodes) && Forest(d.nodes) && ClassesGrow(c, d) && OneClass(c, a, b)
    ensures OneClass(d, a, b)
  {
    assert RootKept(c.nodes, d.nodes, c.toNode[Erase(a)]) && RootKept(c.nodes, d.nodes, c.toNode[Erase(b)]);
  }

  class EquivManager {
    var nodes: seq<Node>
    /** The map from expressions to nodes; its keys are compared with kernel equality. */
    var toNode: map<Expr, nat>
    var useHash: bool
    const hash: Expr -> nat
    /** The expression each node was created for. */
    ghost var keys: seq<Expr>
    /** Every pair ever given to `add_equiv`. */
    ghost var pairs: Pairs

    ghost predicate HashOk() {
      forall a, b :: Same(a, b) ==> hash(a) == hash(b)
    }

    ghost predicate Valid()
      reads this
    {
      HashOk() && Consistent(PairRel(pairs), nodes, toNode, keys)
    }

    ghost function View(): Classes
      reads this
    {
      Classes(nodes, toNode, useHash, hash)
    }

    /** Both expressions have a node, and the nodes have the same root. */
    ghost predicate SameClass(a: Expr, b: Expr)
      requires Valid()
      reads this
    {
      && Erase(a) in toNode && Erase(b) in toNode
      && Root(nodes, toNode[Erase(a)]) == Root(nodes, toNode[Erase(b)])
    }

    /** Expressions with the same root lie in the congruence generated by the added pairs. */
    lemma {:induction false} SameClassSound(a: Expr, b: Expr)
      requires Valid() && SameClass(a, b)
      ensures Conv(PairRel(pairs), a, b)
    {
      var R := PairRel(pairs);
      var i, j := toNode[Erase(a)], toNode[Erase(b)];
      EraseFacts(a);
      EraseFacts(b);
      RootConv(R, nodes, keys, i);
      RootConv(R, nodes, keys, j);
      ConvSymm(R, keys[j], keys[Root(nodes, j)]);
      ConvTrans(R, keys[i], keys[Root(nodes, i)], keys[j]);
      ConvRefl(R, a, keys[i]);
      ConvRefl(R, keys[j], b);
      ConvTrans(R, a, keys[i], keys[j]);
      ConvTrans(R, a, keys[j], b);
    }

    constructor (hash: Expr -> nat)
      requires forall a, b :: Same(a, b) ==> hash(a) == hash(b)
      ensures Valid() && pairs == {} && nodes == [] && this.hash == hash
    {
      nodes, toNode, useHash, keys, pairs := [], map[], false, [], {};
      this.hash := hash;
    }

    method Find(n: nat) returns (r: nat)
      requires Valid() && n < |nodes|
      ensures r == Root(nodes, n) && IsRoot(nodes, r)
    {
      r := n;
      while true
        invariant r < |nodes| && Root(nodes, r) == Root(nodes, n)
        decreases MaxRank(nodes) - nodes[r].rank
      {
        assert LinkOk(nodes, r);
        var p := nodes[r].parent;
        if p == r {
          return;
        }
        r := p;
      }
    }

    method Merge(n1: nat, n2: nat)
      requires Valid() && n1 < |nodes| && n2 < |nodes|
      requires Conv(PairRel(pairs), keys[n1], keys[n2])
      modifies this`nodes
      ensures Valid() && |nodes| == old(|nodes|) && United(old(nodes), nodes, n1, n2)
    {
      var r1 := Find(n1);
      var r2 := Find(n2);
      ghost var ns, R := nodes, PairRel(pairs);
      if r1 != r2 {
        RootsConv(R, ns, toNode, keys, n1, n2);
        ghost var c, p;
        if nodes[r1].rank < nodes[r2].rank {
          nodes := nodes[r1 := nodes[r1].(parent := r2)];
          c, p := r1, r2;
        } else if nodes[r1].rank > nodes[r2].rank {
          nodes := nodes[r2 := nodes[r2].(parent := r1)];
          c, p := r2, r1;
        } else {
          nodes := nodes[r2 := nodes[r2].(parent := r1)];
          nodes := nodes[r1 := nodes[r1].(rank := nodes[r1].rank + 1)];
          c, p := r2, r1;
        }
        assert Linked(ns, nodes, c, p);
        LinkedConsistent(R, ns, nodes, toNode, keys, c, p);
        LinkedUnites(ns, nodes, c, p, n1, n2);
      }
    }

    /** Classes only grow: node numbers stay, and nodes with one root keep one root. */
    ghost predicate Grows(c: Classes, ks: seq<Expr>)
      requires Forest(c.nodes) && Valid()
      reads this
    {
      ClassesGrow(c, View()) && ks <= keys
    }

    /** `mk_node` for the erased expression `key`. */
    method MkNode(key: Expr) returns (r: nat)
      requires Valid() && key !in toNode && Erase(key) == key
      modifies this`nodes, this`toNode, this`keys
      ensures Valid() && r == old(|nodes|) && |nodes| == r + 1
      ensures toNode == old(toNode)[key := r] && keys == old(keys) + [key]
      ensures Coarser(old(nodes), nodes)
    {
      PushConsistent(PairRel(pairs), nodes, toNode, keys, key);
      r := |nodes|;
      nodes := nodes + [Node(r, 0)];
      toNode := toNode[key := r];
      keys := keys + [key];
    }

    method ToNode(e: Expr) returns (r: nat)
      requires Valid()
      modifies this`nodes, this`toNode, this`keys
      ensures Valid() && r < |nodes| && Erase(e) in toNode && toNode[Erase(e)] == r
      ensures Grows(old(View()), old(keys))
      ensures Erase(e) in old(toNode) ==> nodes == old(nodes) && toNode == old(toNode)
    {
      var key := Erase(e);
      if key in toNode {
        r := toNode[key];
      } else {
        EraseFacts(e);
        r := MkNode(key);
      }
    }

    /** The root of the node of `e`, creating the node if needed. */
    method RootOf(e: Expr) returns (r: nat)
      requires Valid()
      modifies this`nodes, this`toNode, this`keys
      ensures Valid() && Grows(old(View()), old(keys))
      ensures Erase(e) in toNode && r == Root(nodes, toNode[Erase(e)])
      ensures Conv(PairRel(pairs), e, keys[r])
      ensures Erase(e) in old(toNode) ==> nodes == old(nodes) && toNode == old(toNode)
    {
      ghost var R := PairRel(pairs);
      var n := ToNode(e);
      r := Find(n);
      RootConv(R, nodes, keys, n);
      EraseFacts(e);
      ConvRefl(R, e, keys[n]);
      ConvTrans(R, e, keys[n], keys[r]);
    }

    /** Two comparisons joined by `&&`; both left-hand sides are parts of `whole`. */
    method CompareBoth(ghost whole: Expr, a1: Expr, b1: Expr, a2: Expr, b2: Expr) returns (result: bool)
      requires Valid() && a1 < whole && a2 < whole
      modifies this`nodes, this`toNode, this`keys
      ensures Valid() && Grows(old(View()), old(keys))
      ensures result ==> Conv(PairRel(pairs), a1, b1) && Conv(PairRel(pairs), a2, b2)
      ensures Matched(old(View()), a1, b1) && Matched(old(View()), a2, b2) ==> result
      decreases whole, 0
    {
      hide Conv, Matched, ClassesGrow, Consistent, Valid, Forest;
      ValidForest();
      ghost var c := View();
      result := IsEquivCore(a1, b1);
      if result {
        ValidForest();
        ghost var d := View();
        if Matched(c, a2, b2) { MatchedGrows(c, d, a2, b2); }
        result := IsEquivCore(a2, b2);
        ValidForest();
        ClassesTrans(c, d, View());
      }
    }

    /** The structural comparison inside `is_equiv_core`. */
    method CompareStructure(a: Expr, b: Expr) returns (result: bool)
      requires Valid()
      modifies this`nodes, this`toNode, this`keys
      ensures Valid() && Grows(old(View()), old(keys))
      ensures result ==> Conv(PairRel(pairs), a, b)
      ensures PartsMatched(old(View()), a, b) ==> result
      decreases a, 1
    {
      hide Matched, ClassesGrow, Consistent, Conv;
      ValidForest();
      ghost var R, c := PairRel(pairs), View();
      if a.App? && b.App? {
        result := CompareBoth(a, a.fn, b.fn, a.arg, b.arg);
        if result { ConvApp(R, a, b); }
      } else if (a.Lambda? && b.Lambda?) || (a.Pi? && b.Pi?) {
        result := CompareBoth(a, a.domain, b.domain, a.body, b.body);
        if result { ConvBinding(R, a, b); }
      } else if a.Let? && b.Let? {
        result := CompareBoth(a, a.letType, b.letType, a.letValue, b.letValue);
        if result {
          ValidForest();
          ghost var d := View();
          if Matched(c, a.letBody, b.letBody) { MatchedGrows(c, d, a.letBody, b.letBody); }
          result := IsEquivCore(a.letBody, b.letBody);
          ValidForest();
          ClassesTrans(c, d, View());
        }
        if result { ConvLet(R, a, b); }
      } else if a.MData? && b.MData? {
        result := IsEquivCore(a.inner, b.inner);
        if result { ConvMData(R, a, b); }
      } else if a.Proj? && b.Proj? {
        result := IsEquivCore(a.struct, b.struct);
        result := result && a.pidx == b.pidx;
        if result { ConvProj(R, a, b); }
      } else {
        result := SameAtom(a, b);
        ConvRefl(R, a, a);
        ClassesSame(c);
      }
    }

    /** `find(to_node(a))` followed by `find(to_node(b))`. */
    method Roots(a: Expr, b: Expr) returns (r1: nat, r2: nat)
      requires Valid()
      modifies this`nodes, this`toNode, this`keys
      ensures Valid() && Grows(old(View()), old(keys))
      ensures r1 < |nodes| && Conv(PairRel(pairs), a, keys[r1])
      ensures r2 < |nodes| && Conv(PairRel(pairs), b, keys[r2])
      ensures Same(a, b) || OneClass(old(View()), a, b) ==> r1 == r2
    {
      hide Conv, ClassesGrow, Consistent, OneClass, Erase, Root;
      ValidForest();
      ghost var c := View();
      r1 := RootOf(a);
      ValidForest();
      ghost var d, k1 := View(), keys;
      if Same(a, b) || OneClass(c, a, b) { AlreadyThere(c, a, b, r1); }
      r2 := RootOf(b);
      ValidForest();
      ClassesTrans(c, d, View());
      assert keys[r1] == k1[r1];
    }

    /** The root of `a` is that of an expression equal to `a` or in its class. */
    lemma {:induction false} AlreadyThere(c: Classes, a: Expr, b: Expr, r: nat)
      requires Valid() && Forest(c.nodes) && (Same(a, b) || OneClass(c, a, b)) && Erase(a) in toNode && r == Root(nodes, toNode[Erase(a)])
      requires Erase(a) in c.toNode ==> nodes == c.nodes && toNode == c.toNode
      ensures Erase(b) in toNode && Root(nodes, toNode[Erase(b)]) == r
    {
    }

    lemma {:induction false} ValidForest()
      requires Valid()
      ensures Forest(nodes) && |keys| == |nodes|
    {
    }

    /** The final `merge(r1, r2)` of a successful comparison. */
    method Learn(a: Expr, b: Expr, r1: nat, r2: nat)
      requires Valid() && r1 < |nodes| && r2 < |nodes|
      requires Conv(PairRel(pairs), a, keys[r1]) && Conv(PairRel(pairs), b, keys[r2]) && Conv(PairRel(pairs), a, b)
      modifies this`nodes
      ensures Valid() && Grows(old(View()), old(keys))
    {
      ghost var R, ns := PairRel(pairs), nodes;
      ConvSymm(R, a, keys[r1]);
      ConvTrans(R, keys[r1], a, b);
      ConvTrans(R, keys[r1], b, keys[r2]);
      Merge(r1, r2);
      UnitedCoarser(ns, nodes, r1, r2);
    }

    method IsEquivCore(a: Expr, b: Expr) returns (result: bool)
      requires Valid()
      modifies this`nodes, this`toNode, this`keys
      ensures Valid() && Grows(old(View()), old(keys))
      ensures result ==> Conv(PairRel(pairs), a, b)
      ensures Matched(old(View()), a, b) ==> result
      decreases a, 3
    {
      ghost var R := PairRel(pairs);
      ClassesSame(View());
      if a == b {
        var samePointer: bool := *;
        if samePointer {
          ConvRefl(R, a, b);
          return true;
        }
      }
      if useHash && hash(a) != hash(b) {
        return false;
      }
      if a.BVar? && b.BVar? {
        ConvRefl(R, a, a);
        return a.idx == b.idx;
      }
      result := CompareClasses(a, b);
    }

    /** The classes of both sides decide, or their structure. */
    method CompareClasses(a: Expr, b: Expr) returns (result: bool)
      requires Valid() && !(a.BVar? && b.BVar?)
      modifies this`nodes, this`toNode, this`keys
      ensures Valid() && Grows(old(View()), old(keys))
      ensures result ==> Conv(PairRel(pairs), a, b)
      ensures Matched(old(View()), a, b) ==> result
      decreases a, 2, 1
    {
      hide Consistent, ClassesGrow, Conv, Same, PartsMatched, OneClass, Valid, Forest;
      ghost var R := PairRel(pairs);
      ValidForest();
      ghost var c := View();
      var r1, r2 := Roots(a, b);
      ValidForest();
      if r1 == r2 {
        ConvSymm(R, b, keys[r2]);
        ConvTrans(R, a, keys[r1], b);
        return true;
      }
      ghost var d := View();
      if PartsMatched(c, a, b) { PartsGrow(c, d, a, b); }
      result := CompareAndLearn(a, b, r1, r2);
      ValidForest();
      ClassesTrans(c, d, View());
    }

    method CompareAndLearn(a: Expr, b: Expr, r1: nat, r2: nat) returns (result: bool)
      requires Valid() && r1 < |nodes| && r2 < |nodes|
      requires Conv(PairRel(pairs), a, keys[r1]) && Conv(PairRel(pairs), b, keys[r2])
      modifies this`nodes, this`toNode, this`keys
      ensures Valid() && Grows(old(View()), old(keys))
      ensures result ==> Conv(PairRel(pairs), a, b)
      ensures PartsMatched(old(View()), a, b) ==> result
      decreases a, 2, 0
    {
      hide Consistent, ClassesGrow, Conv, PartsMatched, Valid, Forest;
      ValidForest();
      ghost var d, k1 := View(), keys;
      result := CompareStructure(a, b);
      ValidForest();
      if result {
        assert keys[r1] == k1[r1] && keys[r2] == k1[r2];
        ghost var e := View();
        Learn(a, b, r1, r2);
        ValidForest();
        ClassesTrans(d, e, View());
      }
    }

    method IsEquiv(a: Expr, b: Expr, withHash: bool) returns (result: bool)
      requires Valid()
      modifies this`nodes, this`toNode, this`keys, this`useHash
      ensures Valid() && Grows(old(View()), old(keys)) && useHash == old(useHash)
      ensures result ==> Conv(PairRel(pairs), a, b)
      ensures Same(a, b) ==> result
      ensures !withHash && old(SameClass(a, b)) && !(a.BVar? && b.BVar?) ==> result
      ensures Matched(old(View()).(useHash := withHash), a, b) ==> result
    {
      hide Valid, Consistent, ClassesGrow, Conv, Matched, SameClass, Same, Forest, Erase;
      ValidForest();
      ghost var c := View();
      ClassesAccepted(a, b, withHash);
      var saved := useHash;
      SetHash(withHash);
      result := IsEquivCore(a, b);
      ValidForest();
      HashAside(c, View(), withHash);
      SetHash(saved);
      ValidForest();
    }

    method SetHash(flag: bool)
      requires Valid()
      modifies this`useHash
      ensures Valid() && View() == old(View()).(useHash := flag)
    {
      hide Consistent;
      useHash := flag;
    }

    /** Equal expressions match, and so do those of one class when hash codes are not compared. */
    lemma {:induction false} ClassesAccepted(a: Expr, b: Expr, withHash: bool)
      requires Valid()
      ensures Forest(nodes) && (Same(a, b) ==> Matched(View().(useHash := withHash), a, b))
      ensures !withHash && SameClass(a, b) && !(a.BVar? && b.BVar?) ==> Matched(View().(useHash := withHash), a, b)
    {
      hide PartsMatched, Erase, Root, LinksConv, Heavy, Forest;
      ValidForest();
    }

    method AddEquiv(a: Expr, b: Expr)
      requires Valid()
      modifies this`nodes, this`toNode, this`keys, this`pairs
      ensures Valid() && Grows(old(View()), old(keys)) && pairs == old(pairs) + {(a, b)}
      ensures SameClass(a, b)
    {
      hide Conv, Erase, Same;
      MorePairs((a, b));
      ghost var ns := nodes;
      pairs := pairs + {(a, b)};
      var n1, n2 := NodesOf(a, b);
      ConvAxiom(PairRel(pairs), a, b);
      KeysConv(a, b);
      ghost var ns1 := nodes;
      Merge(n1, n2);
      UnitedCoarser(ns1, nodes, n1, n2);
      CoarserTrans(ns, ns1, nodes);
    }

    method NodesOf(a: Expr, b: Expr) returns (n1: nat, n2: nat)
      requires Valid()
      modifies this`nodes, this`toNode, this`keys
      ensures Valid() && Grows(old(View()), old(keys))
      ensures Erase(a) in toNode && n1 == toNode[Erase(a)]
      ensures Erase(b) in toNode && n2 == toNode[Erase(b)]
    {
      ghost var ns := nodes;
      n1 := ToNode(a);
      ghost var ns1 := nodes;
      n2 := ToNode(b);
      CoarserTrans(ns, ns1, nodes);
      assert keys[n1] == Erase(a);
    }

    /** The expressions stored for two congruent expressions are congruent. */
    lemma {:induction false} KeysConv(a: Expr, b: Expr)
      requires Valid() && Conv(PairRel(pairs), a, b) && Erase(a) in toNode && Erase(b) in toNode
      ensures Conv(PairRel(pairs), keys[toNode[Erase(a)]], keys[toNode[Erase(b)]])
    {
      var R, k1, k2 := PairRel(pairs), keys[toNode[Erase(a)]], keys[toNode[Erase(b)]];
      EraseFacts(a);
      EraseFacts(b);
      ConvRefl(R, k1, a);
      ConvRefl(R, b, k2);
      ConvTrans(R, k1, a, b);
      ConvTrans(R, k1, b, k2);
    }

    /** Adding a pair keeps every link inside the (larger) congruence. */
    lemma {:induction false} MorePairs(p: (Expr, Expr))
      requires Valid()
      ensures Consistent(PairRel(pairs + {p}), nodes, toNode, keys)
    {
      var R, Q := PairRel(pairs), PairRel(pairs + {p});
      forall x, y | R(x, y) ensures Conv(Q, x, y) { ConvAxiom(Q, x, y); }
      forall i: nat | i < |nodes| ensures LinkOk(nodes, i) && Conv(Q, keys[i], keys[nodes[i].parent]) {
        assert LinkOk(nodes, i) && Conv(R, keys[i], keys[nodes[i].parent]);
        var d :| Derives(R, d, keys[i], keys[nodes[i].parent]);
        ConvMono(R, Q, d, keys[i], keys[nodes[i].parent]);
      }
    }
  }
}
