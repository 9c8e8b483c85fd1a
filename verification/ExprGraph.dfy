/** Expressions in memory: an acyclic graph of nodes. A node's address is its position, children
    are allocated before their parents, and nodes may be shared. */
module ExprGraph {
  import opened Names
  import opened Exprs

  datatype Node =
    | NAtom(e: Expr)
    | NApp(fn: nat, arg: nat)
    | NLambda(binder: Binder, domain: nat, body: nat)
    | NPi(binder: Binder, domain: nat, body: nat)
    | NLet(letName: Name, letType: nat, letValue: nat, letBody: nat, nondep: bool)
    | NMData(data: nat, inner: nat)
    | NProj(sname: Name, pidx: nat, struct: nat)

  type Graph = seq<Node>

  /** Children come before `p`. */
  predicate NodeOk(n: Node, p: nat) {
    match n
    case NAtom(e) => Atomic(e)
    case NApp(f, a) => f < p && a < p
    case NLambda(_, d, b) => d < p && b < p
    case NPi(_, d, b) => d < p && b < p
    case NLet(_, t, v, b, _) => t < p && v < p && b < p
    case NMData(_, x) => x < p
    case NProj(_, _, x) => x < p
  }

  predicate GraphOk(g: Graph) {
    forall p :: 0 <= p < |g| ==> NodeOk(g[p], p)
  }

  /** The term at address `p`, sharing forgotten. */
  function Term(g: Graph, p: nat): Expr
    requires GraphOk(g) && p < |g|
  {
    assert NodeOk(g[p], p);
    match g[p]
    case NAtom(e) => e
    case NApp(f, a) => App(Term(g, f), Term(g, a))
    case NLambda(n, d, b) => Lambda(n, Term(g, d), Term(g, b))
    case NPi(n, d, b) => Pi(n, Term(g, d), Term(g, b))
    case NLet(n, t, v, b, nd) => Let(n, Term(g, t), Term(g, v), Term(g, b), nd)
    case NMData(m, x) => MData(m, Term(g, x))
    case NProj(s, i, x) => Proj(s, i, Term(g, x))
  }
}
