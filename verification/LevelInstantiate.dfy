/** Instantiating universe parameters (kernel/level.cpp, lines 246-325) and decrementing a level
    (library/util.cpp, `dec_level`). */
module LevelInstantiate {
  import opened Names
  import opened Prelude
  import opened Levels

  predicate HasParam(l: Level) {
    match l
    case Param(_) => true
    case Succ(p) => HasParam(p)
    case Max(a, b) => HasParam(a) || HasParam(b)
    case IMax(a, b) => HasParam(a) || HasParam(b)
    case _ => false
  }

  /** The level at the first occurrence of `id` in `ps`, scanning both lists in step. */
  function Lookup(ps: seq<Name>, ls: seq<Level>, id: Name): Option<Level> {
    if ps == [] || ls == [] then None
    else if ps[0] == id then Some(ls[0])
    else Lookup(ps[1..], ls[1..], id)
  }

  /** `instantiate` through `replace_level_fn`.  `keep` says on which nodes the pointer test of
      `update_succ`/`update_max` finds both children unchanged; when it does, the node itself is
      returned, otherwise the node is rebuilt with the simplifying constructors. */
  function Instantiate(l: Level, ps: seq<Name>, ls: seq<Level>, keep: Level -> bool): Level {
    if !HasParam(l) then l
    else match l
      case Param(id) => var r := Lookup(ps, ls, id); if r.Some? then r.value else l
      case Succ(p) => Succ(Instantiate(p, ps, ls, keep))
      case Max(a, b) =>
        var (a', b') := (Instantiate(a, ps, ls, keep), Instantiate(b, ps, ls, keep));
        if keep(l) && a' == a && b' == b then l else MkMax(a', b')
      case IMax(a, b) =>
        var (a', b') := (Instantiate(a, ps, ls, keep), Instantiate(b, ps, ls, keep));
        if keep(l) && a' == a && b' == b then l else MkIMax(a', b')
      case _ => l
  }

  /** The assignment that gives each instantiated parameter the value of its level. */
  function Extend(A: Assignment, ps: seq<Name>, ls: seq<Level>): Assignment {
    A.(param := (id: Name) => ParamValue(A, ps, ls, id))
  }

  function ParamValue(A: Assignment, ps: seq<Name>, ls: seq<Level>, id: Name): nat {
    match Lookup(ps, ls, id)
    case Some(l) => Eval(l, A)
    case None => A.param(id)
  }

  lemma {:induction false} NoParamEval(l: Level, A: Assignment, B: Assignment)
    requires !HasParam(l) && A.mvar == B.mvar
    ensures Eval(l, A) == Eval(l, B)
  {
    match l
    case Succ(p) => NoParamEval(p, A, B);
    case Max(a, b) => NoParamEval(a, A, B); NoParamEval(b, A, B);
    case IMax(a, b) => NoParamEval(a, A, B); NoParamEval(b, A, B);
    case _ =>
  }

  /** Substitution lemma: instantiating and then evaluating is evaluating under the extended
      assignment, whatever sharing the pointer tests see. */
  lemma {:induction false} InstantiateMeaning(
      l: Level, ps: seq<Name>, ls: seq<Level>, keep: Level -> bool, A: Assignment)
    ensures Eval(Instantiate(l, ps, ls, keep), A) == Eval(l, Extend(A, ps, ls))
  {
    var B := Extend(A, ps, ls);
    if !HasParam(l) {
      NoParamEval(l, A, B);
    } else {
      match l
      case Succ(p) => InstantiateMeaning(p, ps, ls, keep, A);
      case Max(a, b) =>
        InstantiateMeaning(a, ps, ls, keep, A);
        InstantiateMeaning(b, ps, ls, keep, A);
        EvalMkMax(Instantiate(a, ps, ls, keep), Instantiate(b, ps, ls, keep), A);
      case IMax(a, b) =>
        InstantiateMeaning(a, ps, ls, keep, A);
        InstantiateMeaning(b, ps, ls, keep, A);
        EvalMkIMax(Instantiate(a, ps, ls, keep), Instantiate(b, ps, ls, keep), A);
      case _ =>
    }
  }

  function DecLevel(l: Level): Option<Level> {
    match l
    case Succ(p) => Some(p)
    case Max(a, b) =>
      var (a', b') := (DecLevel(a), DecLevel(b));
      if a'.Some? && b'.Some? then Some(MkMax(a'.value, b'.value)) else None
    case IMax(a, b) =>
      var (a', b') := (DecLevel(a), DecLevel(b));
      if a'.Some? && b'.Some? then Some(MkMax(a'.value, b'.value)) else None
    case _ => None
  }

  /** `dec_level` returns the predecessor at every assignment; the plain `mk_max` in its imax case
      is right because a decremented right-hand side is never zero. */
  lemma {:induction false} DecLevelMeaning(l: Level, A: Assignment)
    requires DecLevel(l).Some?
    ensures Eval(l, A) == Eval(DecLevel(l).value, A) + 1
  {
    match l
    case Succ(_) =>
    case Max(a, b) =>
      DecLevelMeaning(a, A);
      DecLevelMeaning(b, A);
      EvalMkMax(DecLevel(a).value, DecLevel(b).value, A);
    case IMax(a, b) =>
      DecLevelMeaning(a, A);
      DecLevelMeaning(b, A);
      EvalMkMax(DecLevel(a).value, DecLevel(b).value, A);
  }

  /** No argument of nested `max` and `imax` is zero under some assignment. */
  ghost predicate PartsPositive(l: Level) {
    match l
    case Max(a, b) => PartsPositive(a) && PartsPositive(b)
    case IMax(a, b) => PartsPositive(a) && PartsPositive(b)
    case _ => forall A :: Eval(l, A) > 0
  }

  /** `dec_level` answers exactly then. */
  lemma {:induction false} DecLevelIff(l: Level)
    ensures DecLevel(l).Some? <==> PartsPositive(l)
  {
    match l
    case Max(a, b) => DecLevelIff(a); DecLevelIff(b);
    case IMax(a, b) => DecLevelIff(a); DecLevelIff(b);
    case Succ(_) =>
    case _ => assert Eval(l, Assignment(n => 0, n => 0)) == 0;
  }
}
