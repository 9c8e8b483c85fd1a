/** The parent/rank forest of kernel/equiv_manager.cpp, as a sequence of nodes. */
module UnionFind {
  import opened Prelude

  datatype Node = Node(parent: nat, rank: nat)

  ghost predicate LinkOk(ns: seq<Node>, i: nat)
    requires i < |ns|
  {
    ns[i].parent < |ns| && (ns[i].parent != i ==> ns[i].rank < ns[ns[i].parent].rank)
  }

  /** Every parent is a node, and ranks strictly increase along links. */
  ghost predicate Forest(ns: seq<Node>) {
    forall i: nat :: i < |ns| ==> LinkOk(ns, i)
  }

  function MaxRank(ns: seq<Node>): (m: nat)
    ensures forall i :: 0 <= i < |ns| ==> ns[i].rank <= m
  {
    if ns == [] then 0 else
      var m := MaxRank(ns[..|ns| - 1]);
      if ns[|ns| - 1].rank > m then ns[|ns| - 1].rank else m
  }

  ghost predicate IsRoot(ns: seq<Node>, i: nat) {
    i < |ns| && ns[i].parent == i
  }

  /** The root reached from `i`. */
  ghost function Root(ns: seq<Node>, i: nat): (r: nat)
    requires Forest(ns) && i < |ns|
    ensures IsRoot(ns, r)
    decreases MaxRank(ns) - ns[i].rank
  {
    assert LinkOk(ns, i);
    if ns[i].parent == i then i else Root(ns, ns[i].parent)
  }

  /** The number of links from `i` to its root. */
  ghost function Depth(ns: seq<Node>, i: nat): nat
    requires Forest(ns) && i < |ns|
    decreases MaxRank(ns) - ns[i].rank
  {
    assert LinkOk(ns, i);
    if ns[i].parent == i then 0 else 1 + Depth(ns, ns[i].parent)
  }

  lemma {:induction false} DepthBelowRank(ns: seq<Node>, i: nat)
    requires Forest(ns) && i < |ns|
    ensures Depth(ns, i) + ns[i].rank <= ns[Root(ns, i)].rank
    decreases MaxRank(ns) - ns[i].rank
  {
    assert LinkOk(ns, i);
    if ns[i].parent != i { DepthBelowRank(ns, ns[i].parent); }
  }

  lemma {:induction false} Pow2Monotone(m: nat, n: nat)
    requires m <= n
    ensures Pow2(m) <= Pow2(n)
    decreases n
  {
    if m < n { Pow2Monotone(m, n - 1); }
  }

  ghost function Members(ns: seq<Node>, r: nat): set<nat>
    requires Forest(ns)
  {
    set i: nat | i < |ns| && Root(ns, i) == r
  }

  /** A tree whose root has rank `k` has at least `2^k` nodes. */
  ghost predicate Heavy(ns: seq<Node>)
    requires Forest(ns)
  {
    forall r: nat :: IsRoot(ns, r) ==> |Members(ns, r)| >= Pow2(ns[r].rank)
  }

  lemma {:induction false} SubsetSize(s: set<nat>, n: nat)
    requires forall i :: i in s ==> i < n
    ensures |s| <= n
  {
    if n > 0 {
      var t := s - {n - 1};
      SubsetSize(t, n - 1);
      assert s <= t + {n - 1};
      assert |s| <= |t| + 1 by { if n - 1 in s { assert s == t + {n - 1}; } else { assert s == t; } }
    } else {
      assert s == {};
    }
  }

  /** `find` follows at most log2(#nodes) links. */
  lemma {:induction false} FindDepth(ns: seq<Node>, i: nat)
    requires Forest(ns) && Heavy(ns) && i < |ns|
    ensures Pow2(Depth(ns, i)) <= |ns|
  {
    var r := Root(ns, i);
    DepthBelowRank(ns, i);
    Pow2Monotone(Depth(ns, i), ns[r].rank);
    SubsetSize(Members(ns, r), |ns|);
  }

  /** `ns2` is `ns` with the root `c` hung below the root `p`, whose rank may have grown. */
  ghost predicate Linked(ns: seq<Node>, ns2: seq<Node>, c: nat, p: nat) {
    && |ns2| == |ns| && c != p && IsRoot(ns, c) && IsRoot(ns, p)
    && (forall i :: 0 <= i < |ns| && i != c && i != p ==> ns2[i] == ns[i])
    && ns2[c] == Node(p, ns[c].rank)
    && ns2[p].parent == p && ns2[p].rank >= ns[p].rank && ns2[p].rank > ns[c].rank
  }

  lemma {:induction false} LinkedForest(ns: seq<Node>, ns2: seq<Node>, c: nat, p: nat)
    requires Forest(ns) && Linked(ns, ns2, c, p)
    ensures Forest(ns2)
  {
    forall i: nat | i < |ns2| ensures LinkOk(ns2, i) {
      assert LinkOk(ns, i);
    }
  }

  lemma {:induction false} LinkedRoot(ns: seq<Node>, ns2: seq<Node>, c: nat, p: nat, i: nat)
    requires Forest(ns) && Forest(ns2) && Linked(ns, ns2, c, p) && i < |ns|
    ensures Root(ns2, i) == if Root(ns, i) == c then p else Root(ns, i)
    decreases MaxRank(ns) - ns[i].rank
  {
    assert LinkOk(ns, i);
    if i == c {
      assert Root(ns2, p) == p;
    } else if ns[i].parent != i {
      LinkedRoot(ns, ns2, c, p, ns[i].parent);
    }
  }

  lemma {:induction false} LinkedMembers(ns: seq<Node>, ns2: seq<Node>, c: nat, p: nat, r: nat)
    requires Forest(ns) && Forest(ns2) && Linked(ns, ns2, c, p) && r != c
    ensures Members(ns2, r) == if r == p then Members(ns, p) + Members(ns, c) else Members(ns, r)
  {
    forall i: nat | i < |ns| ensures Root(ns2, i) == if Root(ns, i) == c then p else Root(ns, i) {
      LinkedRoot(ns, ns2, c, p, i);
    }
  }

  lemma {:induction false} LinkedSize(ns: seq<Node>, ns2: seq<Node>, c: nat, p: nat)
    requires Forest(ns) && Forest(ns2) && Linked(ns, ns2, c, p)
    ensures |Members(ns2, p)| == |Members(ns, p)| + |Members(ns, c)|
  {
    LinkedMembers(ns, ns2, c, p, p);
    assert Members(ns, p) !! Members(ns, c);
  }

  lemma {:induction false} RankDoubles(k: nat, m: nat, n: nat)
    requires m >= Pow2(k) && n >= Pow2(k)
    ensures m + n >= Pow2(k + 1)
  {
  }

  lemma {:induction false} LinkedHeavyAt(ns: seq<Node>, ns2: seq<Node>, c: nat, p: nat)
    requires Forest(ns) && Forest(ns2) && Linked(ns, ns2, c, p)
    requires |Members(ns, p)| >= Pow2(ns[p].rank) && |Members(ns, c)| >= Pow2(ns[c].rank)
    requires ns2[p].rank == ns[p].rank || (ns[c].rank == ns[p].rank && ns2[p].rank == ns[p].rank + 1)
    ensures |Members(ns2, p)| >= Pow2(ns2[p].rank)
  {
    LinkedSize(ns, ns2, c, p);
    if ns2[p].rank != ns[p].rank {
      RankDoubles(ns[p].rank, |Members(ns, p)|, |Members(ns, c)|);
    }
  }

  /** Linking keeps the weight invariant when the new rank is justified by the two old trees. */
  lemma {:induction false} LinkedHeavy(ns: seq<Node>, ns2: seq<Node>, c: nat, p: nat)
    requires Forest(ns) && Forest(ns2) && Linked(ns, ns2, c, p) && Heavy(ns)
    requires ns2[p].rank == ns[p].rank || (ns[c].rank == ns[p].rank && ns2[p].rank == ns[p].rank + 1)
    ensures Heavy(ns2)
  {
    forall r: nat | IsRoot(ns2, r) ensures |Members(ns2, r)| >= Pow2(ns2[r].rank) {
      assert IsRoot(ns, r);
      if r == p { LinkedHeavyAt(ns, ns2, c, p); } else { LinkedMembers(ns, ns2, c, p, r); }
    }
  }

  lemma {:induction false} PushRoot(ns: seq<Node>, i: nat)
    requires Forest(ns) && i < |ns|
    ensures Forest(ns + [Node(|ns|, 0)])
    ensures Root(ns + [Node(|ns|, 0)], i) == Root(ns, i)
    decreases MaxRank(ns) - ns[i].rank
  {
    var ns2 := ns + [Node(|ns|, 0)];
    forall j: nat | j < |ns2| ensures LinkOk(ns2, j) {
      if j < |ns| { assert LinkOk(ns, j); }
    }
    assert LinkOk(ns, i);
    if ns[i].parent != i { PushRoot(ns, ns[i].parent); }
  }

  /** A new singleton class changes no other class. */
  lemma {:induction false} PushHeavy(ns: seq<Node>)
    requires Forest(ns) && Heavy(ns)
    ensures Forest(ns + [Node(|ns|, 0)]) && Heavy(ns + [Node(|ns|, 0)])
  {
    var ns2 := ns + [Node(|ns|, 0)];
    forall j: nat | j < |ns2| ensures LinkOk(ns2, j) {
      if j < |ns| { assert LinkOk(ns, j); }
    }
    forall r: nat | IsRoot(ns2, r) ensures |Members(ns2, r)| >= Pow2(ns2[r].rank) {
      forall i: nat | i < |ns| ensures Root(ns2, i) == Root(ns, i) { PushRoot(ns, i); }
      if r == |ns| {
        assert Members(ns2, r) == {r};
      } else {
        assert IsRoot(ns, r);
        assert Members(ns2, r) == Members(ns, r);
      }
    }
  }
}
