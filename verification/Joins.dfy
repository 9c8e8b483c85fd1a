/** Pairs of terms on which a comparison may not answer no: head steps on either side lead to the
    same term, to one rigid head with such arguments, or to bindings with such parts. */
module Joins {
  import opened Names
  import opened Prelude
  import opened Exprs
  import opened DeBruijn
  import opened ExprFacts
  import opened Congruence
  import opened Conversion
  import opened ConversionFacts
  import opened HeadPaths
  import opened Resting
  import opened Literals
  import L = Levels
  import LN = LevelNormalizer

  // ---------------------------------------------------------------- steps and heads

  /** The head constant unfolds, in only one way whatever the pointer tests inside its levels say. */
  ghost predicate Unfolds(env: Environment, t: Expr, r: Expr) {
    && Unfoldable(env, t) && Ordinary(env, AppFn(t).name)
    && forall v :: DeltaStep(env, AppFn(t), v) ==> r == MkApp(v, AppArgs(t))
  }

  /** A contraction, or with `delta` also the unfolding of a head that has none. */
  ghost predicate Steps(sc: Scope, delta: bool, t: Expr, r: Expr) {
    Contract(sc.lctx, t) == Some(r) || (delta && Contract(sc.lctx, t).None? && Unfolds(sc.env, t, r))
  }

  predicate LevelsAgree(ls: seq<L.Level>, ks: seq<L.Level>) {
    |ls| == |ks| && forall i :: 0 <= i < |ls| ==> LN.NormalForm(ls[i]) == LN.NormalForm(ks[i])
  }

  predicate HeadsAgree(h: Expr, g: Expr) {
    h == g || (h.Const? && g.Const? && h.name == g.name && LevelsAgree(h.levels, g.levels))
  }

  /** Nothing left to do at the head. */
  ghost predicate Finished(sc: Scope, delta: bool, t: Expr) {
    var h := AppFn(t);
    Contract(sc.lctx, t).None? && (h.Proj? ==> Frozen(sc, h)) && (delta && h.Const? ==> Ordinary(sc.env, h.name) && h.name !in sc.env.defs)
  }

  // ---------------------------------------------------------------- the relation

  datatype Join =
    | JSame
    | JSort
    | JLeft(mid: Expr, next: Join)
    | JRight(mid: Expr, next: Join)
    | JSpine(head: Join, args: seq<Join>)
    | JBind(dom: Join, body: Join)
    | JZero
    | JSucc(pred: Join)
    | JNum

  predicate BothBind(t: Expr, s: Expr) {
    (t.Lambda? && s.Lambda?) || (t.Pi? && s.Pi?)
  }

  /** `j` shows that steps on both sides lead to a common form. */
  ghost predicate Meets(sc: Scope, delta: bool, j: Join, t: Expr, s: Expr)
    decreases j, 0
  {
    match j
    case JSame => Same(t, s) && Finished(sc, delta, t)
    case JSort => t.Sort? && s.Sort? && LN.NormalForm(t.level) == LN.NormalForm(s.level)
    case JLeft(m, j1) => Steps(sc, delta, t, m) && Meets(sc, delta, j1, m, s)
    case JRight(m, j1) => Steps(sc, delta, s, m) && Meets(sc, delta, j1, t, m)
    case JSpine(jh, js) =>
      && HeadsMeet(sc, jh, AppFn(t), AppFn(s))
      && |AppArgs(t)| == |AppArgs(s)| == |js|
      && forall i :: 0 <= i < |js| ==> JoinedBy(sc, js[i], AppArgs(t)[i], AppArgs(s)[i])
    case JBind(jd, jb) => BothBind(t, s) && JoinedBy(sc, jd, t.domain, s.domain) && JoinedBy(sc, jb, t.body, s.body)
    case JZero => !delta && IsNatZero(t) && IsNatZero(s)
    case JSucc(j1) =>
      !delta && IsNatSucc(t).Some? && IsNatSucc(s).Some? && JoinedBy(sc, j1, IsNatSucc(t).value, IsNatSucc(s).value)
    case JNum => !delta && NumbersMeet(sc.env, sc.lctx, t, s)
  }

  /** The same rigid head, or the same field of structures that are joined and have no such field. */
  ghost predicate HeadsMeet(sc: Scope, j: Join, h: Expr, g: Expr)
    decreases j, 2
  {
    || (RigidHead(sc, h) && RigidHead(sc, g) && HeadsAgree(h, g))
    || (Frozen(sc, h) && Frozen(sc, g) && h.pidx == g.pidx && JoinedBy(sc, j, h.struct, g.struct))
  }

  ghost predicate JoinedBy(sc: Scope, j: Join, t: Expr, s: Expr)
    decreases j, 1
  {
    Same(t, s) || Meets(sc, false, j, t, s) || Meets(sc, true, j, t, s)
  }

  lemma {:induction false} JoinedCases(sc: Scope, j: Join, t: Expr, s: Expr)
    ensures JoinedBy(sc, j, t, s) <==> Same(t, s) || Meets(sc, false, j, t, s) || Meets(sc, true, j, t, s)
  {
    hide Meets, Same;
  }

  /** Equal, or brought together by contractions alone, or by contractions and unfoldings. */
  ghost predicate Joined(sc: Scope, t: Expr, s: Expr) {
    exists j :: JoinedBy(sc, j, t, s)
  }

  ghost predicate HeadsJoined(sc: Scope, h: Expr, g: Expr) {
    || (RigidHead(sc, h) && RigidHead(sc, g) && HeadsAgree(h, g))
    || (Frozen(sc, h) && Frozen(sc, g) && h.pidx == g.pidx && Joined(sc, h.struct, g.struct))
  }

  ghost predicate SpinesJoined(sc: Scope, t: Expr, s: Expr) {
    && HeadsJoined(sc, AppFn(t), AppFn(s))
    && |AppArgs(t)| == |AppArgs(s)|
    && forall i :: 0 <= i < |AppArgs(t)| ==> Joined(sc, AppArgs(t)[i], AppArgs(s)[i])
  }

  lemma {:induction false} SameJoined(sc: Scope, t: Expr, s: Expr)
    requires Same(t, s)
    ensures Joined(sc, t, s)
  {
    assert JoinedBy(sc, JSame, t, s);
  }

  lemma {:induction false} MeetsJoined(sc: Scope, delta: bool, j: Join, t: Expr, s: Expr)
    requires Meets(sc, delta, j, t, s)
    ensures Joined(sc, t, s)
  {
    assert JoinedBy(sc, j, t, s);
  }

  // ---------------------------------------------------------------- binder names do not matter

  lemma {:induction false} SameMkApp(f: Expr, xs: seq<Expr>, ys: seq<Expr>)
    requires |xs| == |ys| && forall i :: 0 <= i < |xs| ==> Same(xs[i], ys[i])
    ensures Same(MkApp(f, xs), MkApp(f, ys))
    decreases |xs|
  {
    if xs != [] { SameMkApp(f, xs[..|xs| - 1], ys[..|ys| - 1]); }
  }

  /** A step of a term is a step of every term that differs only in binder names. */
  lemma {:induction false} StepsSame(sc: Scope, delta: bool, t: Expr, r: Expr, t': Expr) returns (r': Expr)
    requires Steps(sc, delta, t, r) && Same(t, t')
    ensures Steps(sc, delta, t', r') && Same(r, r')
  {
    ContractSame(sc.lctx, t, t');
    if Contract(sc.lctx, t) == Some(r) {
      r' := Contract(sc.lctx, t').value;
    } else {
      SameHead(t, t');
      var h := AppFn(t);
      var keep: L.Level -> bool := _ => true;
      var v := InstLParams(sc.env.defs[h.name].value, sc.env.defs[h.name].lparams, h.levels, keep);
      DeltaIntro(sc.env, h, keep);
      r' := MkApp(v, AppArgs(t'));
      SameMkApp(v, AppArgs(t), AppArgs(t'));
      forall u | DeltaStep(sc.env, h, u) ensures r' == MkApp(u, AppArgs(t')) { UnfoldOnce(sc.env, t, r, u, v, AppArgs(t')); }
    }
  }

  /** The value does not depend on the arguments. */
  lemma {:induction false} UnfoldOnce(env: Environment, t: Expr, r: Expr, u: Expr, v: Expr, args: seq<Expr>)
    requires Unfolds(env, t, r) && DeltaStep(env, AppFn(t), u) && DeltaStep(env, AppFn(t), v)
    ensures MkApp(u, args) == MkApp(v, args)
  {
    assert MkApp(u, AppArgs(t)) == MkApp(v, AppArgs(t));
    MkAppHead(u, v, AppArgs(t));
  }

  lemma {:induction false} MkAppHead(u: Expr, v: Expr, args: seq<Expr>)
    requires MkApp(u, args) == MkApp(v, args)
    ensures u == v
    decreases |args|
  {
    if args != [] { MkAppHead(u, v, args[..|args| - 1]); }
  }

  /** Steps are determined. */
  lemma {:induction false} StepsUnique(sc: Scope, delta: bool, t: Expr, r: Expr, r': Expr)
    requires Steps(sc, delta, t, r) && Steps(sc, delta, t, r')
    ensures r == r'
  {
    if Contract(sc.lctx, t).None? {
      var h := AppFn(t);
      var keep: L.Level -> bool := _ => true;
      DeltaIntro(sc.env, h, keep);
      assert r == MkApp(InstLParams(sc.env.defs[h.name].value, sc.env.defs[h.name].lparams, h.levels, keep), AppArgs(t));
    }
  }

  lemma {:induction false} FinishedSame(sc: Scope, delta: bool, t: Expr, t': Expr)
    requires Same(t, t')
    ensures Finished(sc, delta, t) <==> Finished(sc, delta, t')
  {
    hide Rests;
    ContractSame(sc.lctx, t, t');
    SameHead(t, t');
    FrozenSame(sc, AppFn(t), AppFn(t'));
  }

  lemma {:induction false} FrozenSame(sc: Scope, h: Expr, g: Expr)
    requires Same(h, g)
    ensures (h.Proj? <==> g.Proj?) && (Frozen(sc, h) <==> Frozen(sc, g))
  {
    hide Rests;
    if h.Proj? && Rests(sc, h) { RestsSame(sc, h, g); }
    if h.Proj? && Rests(sc, g) { RestsSame(sc, g, h); }
  }

  lemma {:induction false} JoinedBySame(sc: Scope, j: Join, t: Expr, s: Expr, t': Expr, s': Expr) returns (j': Join)
    requires JoinedBy(sc, j, t, s) && Same(t, t') && Same(s, s')
    ensures JoinedBy(sc, j', t', s')
    decreases j, 2
  {
    hide Meets, JoinedBy, Same;
    JoinedCases(sc, j, t, s);
    if Same(t, s) {
      SameSquare(t, s, t', s');
      j' := JSame;
    } else if Meets(sc, false, j, t, s) {
      j' := MeetsSame(sc, false, j, t, s, t', s');
    } else {
      j' := MeetsSame(sc, true, j, t, s, t', s');
    }
    JoinedCases(sc, j', t', s');
  }

  lemma {:induction false} SameSymm(t: Expr, s: Expr)
    requires Same(t, s)
    ensures Same(s, t)
  {
  }

  lemma {:induction false} SameSquare(t: Expr, s: Expr, t': Expr, s': Expr)
    requires Same(t, s) && Same(t, t') && Same(s, s')
    ensures Same(t', s')
  {
  }

  lemma {:induction false} SameShape(t: Expr, t': Expr)
    requires Same(t, t')
    ensures (t.Sort? || IsNatZero(t)) ==> t' == t
    ensures (t.Lambda? <==> t'.Lambda?) && (t.Pi? <==> t'.Pi?)
    ensures t.Lambda? || t.Pi? ==> Same(t.domain, t'.domain) && Same(t.body, t'.body)
  {
  }

  lemma {:induction false} MeetsSame(sc: Scope, delta: bool, j: Join, t: Expr, s: Expr, t': Expr, s': Expr) returns (j': Join)
    requires Meets(sc, delta, j, t, s) && Same(t, t') && Same(s, s')
    ensures Meets(sc, delta, j', t', s')
    decreases j, 1
  {
    hide Steps, JoinedBy, Finished, RigidHead, HeadsAgree, NumbersMeet, LN.NormalForm;
    match j {
      case JSame =>
        FinishedSame(sc, delta, t, t');
        j' := JSame;
      case JSort =>
        SameShape(t, t');
        SameShape(s, s');
        j' := JSort;
      case JLeft(m, j1) =>
        var m' := StepsSame(sc, delta, t, m, t');
        var k := MeetsSame(sc, delta, j1, m, s, m', s');
        j' := JLeft(m', k);
      case JRight(m, j1) =>
        var m' := StepsSame(sc, delta, s, m, s');
        var k := MeetsSame(sc, delta, j1, t, m, t', m');
        j' := JRight(m', k);
      case JSpine(_, _) => j' := SpineSame(sc, delta, j, t, s, t', s');
      case JBind(jd, jb) =>
        SameShape(t, t');
        SameShape(s, s');
        var kd := JoinedBySame(sc, jd, t.domain, s.domain, t'.domain, s'.domain);
        var kb := JoinedBySame(sc, jb, t.body, s.body, t'.body, s'.body);
        j' := JBind(kd, kb);
      case JZero =>
        SameShape(t, t');
        SameShape(s, s');
        j' := JZero;
      case JSucc(j1) =>
        SuccSame(t, t');
        SuccSame(s, s');
        var k := JoinedBySame(sc, j1, IsNatSucc(t).value, IsNatSucc(s).value, IsNatSucc(t').value, IsNatSucc(s').value);
        j' := JSucc(k);
      case JNum =>
        NumbersSame(sc.env, sc.lctx, t, s, t', s');
        j' := JNum;
    }
  }

  lemma {:induction false} SpineSame(sc: Scope, delta: bool, j: Join, t: Expr, s: Expr, t': Expr, s': Expr) returns (j': Join)
    requires j.JSpine? && Meets(sc, delta, j, t, s) && Same(t, t') && Same(s, s')
    ensures Meets(sc, delta, j', t', s')
    decreases j, 0
  {
    hide Steps, JoinedBy, Finished, RigidHead, HeadsAgree, HeadsMeet;
    SameHead(t, t');
    SameHead(s, s');
    var kh := HeadsMeetSame(sc, j.head, AppFn(t), AppFn(s), AppFn(t'), AppFn(s'));
    var ks, js := [], j.args;
    for i := 0 to |js|
      invariant |ks| == i && forall m :: 0 <= m < i ==> JoinedBy(sc, ks[m], AppArgs(t')[m], AppArgs(s')[m])
    {
      var k := JoinedBySame(sc, js[i], AppArgs(t)[i], AppArgs(s)[i], AppArgs(t')[i], AppArgs(s')[i]);
      ks := ks + [k];
    }
    j' := JSpine(kh, ks);
  }

  lemma {:induction false} HeadsMeetSame(sc: Scope, j: Join, h: Expr, g: Expr, h': Expr, g': Expr) returns (j': Join)
    requires HeadsMeet(sc, j, h, g) && Same(h, h') && Same(g, g')
    ensures HeadsMeet(sc, j', h', g')
    decreases j, 3
  {
    hide JoinedBy, HeadsAgree, Rests;
    if RigidHead(sc, h) && RigidHead(sc, g) && HeadsAgree(h, g) {
      SameRigid(sc, h, h');
      SameRigid(sc, g, g');
      j' := j;
    } else {
      FrozenSame(sc, h, h');
      FrozenSame(sc, g, g');
      assert Same(h.struct, h'.struct) && Same(g.struct, g'.struct);
      j' := JoinedBySame(sc, j, h.struct, g.struct, h'.struct, g'.struct);
    }
  }

  lemma {:induction false} SuccSame(t: Expr, t': Expr)
    requires Same(t, t') && IsNatSucc(t).Some?
    ensures IsNatSucc(t').Some? && Same(IsNatSucc(t).value, IsNatSucc(t').value)
  {
    if t.App? { assert Same(t.fn, t'.fn) && Same(t.arg, t'.arg); }
  }

  lemma {:induction false} SameRigid(sc: Scope, h: Expr, g: Expr)
    requires Same(h, g) && RigidHead(sc, h)
    ensures h == g
  {
  }

  // ---------------------------------------------------------------- both sides

  lemma {:induction false} HeadsSymm(h: Expr, g: Expr)
    requires HeadsAgree(h, g)
    ensures HeadsAgree(g, h)
  {
    if h != g {
      forall i | 0 <= i < |h.levels| ensures LN.NormalForm(g.levels[i]) == LN.NormalForm(h.levels[i]) {
        assert LN.NormalForm(h.levels[i]) == LN.NormalForm(g.levels[i]);
      }
    }
  }

  lemma {:induction false} JoinedBySymm(sc: Scope, j: Join, t: Expr, s: Expr) returns (j': Join)
    requires JoinedBy(sc, j, t, s)
    ensures JoinedBy(sc, j', s, t)
    decreases j, 2
  {
    hide Meets, JoinedBy, Same;
    JoinedCases(sc, j, t, s);
    if Same(t, s) {
      SameSymm(t, s);
      j' := JSame;
    } else if Meets(sc, false, j, t, s) {
      j' := MeetsSymm(sc, false, j, t, s);
    } else {
      j' := MeetsSymm(sc, true, j, t, s);
    }
    JoinedCases(sc, j', s, t);
  }

  lemma {:induction false} MeetsSymm(sc: Scope, delta: bool, j: Join, t: Expr, s: Expr) returns (j': Join)
    requires Meets(sc, delta, j, t, s)
    ensures Meets(sc, delta, j', s, t)
    decreases j, 1
  {
    hide Steps, JoinedBy, Finished, RigidHead, HeadsAgree;
    match j {
      case JSame =>
        FinishedSame(sc, delta, t, s);
        j' := JSame;
      case JSort => j' := JSort;
      case JLeft(m, j1) =>
        var k := MeetsSymm(sc, delta, j1, m, s);
        j' := JRight(m, k);
      case JRight(m, j1) =>
        var k := MeetsSymm(sc, delta, j1, t, m);
        j' := JLeft(m, k);
      case JSpine(_, _) => j' := SpineSymm(sc, delta, j, t, s);
      case JBind(jd, jb) =>
        var kd := JoinedBySymm(sc, jd, t.domain, s.domain);
        var kb := JoinedBySymm(sc, jb, t.body, s.body);
        j' := JBind(kd, kb);
      case JZero => j' := JZero;
      case JSucc(j1) =>
        var k := JoinedBySymm(sc, j1, IsNatSucc(t).value, IsNatSucc(s).value);
        j' := JSucc(k);
      case JNum =>
        NumbersSymm(sc.env, sc.lctx, t, s);
        j' := JNum;
    }
  }

  lemma {:induction false} SpineSymm(sc: Scope, delta: bool, j: Join, t: Expr, s: Expr) returns (j': Join)
    requires j.JSpine? && Meets(sc, delta, j, t, s)
    ensures Meets(sc, delta, j', s, t)
    decreases j, 0
  {
    hide JoinedBy, HeadsMeet, Finished, Steps;
    var kh := HeadsMeetSymm(sc, j.head, AppFn(t), AppFn(s));
    var ks, js := [], j.args;
    for i := 0 to |js|
      invariant |ks| == i && forall m :: 0 <= m < i ==> JoinedBy(sc, ks[m], AppArgs(s)[m], AppArgs(t)[m])
    {
      var k := JoinedBySymm(sc, js[i], AppArgs(t)[i], AppArgs(s)[i]);
      ks := ks + [k];
    }
    j' := JSpine(kh, ks);
  }

  lemma {:induction false} HeadsMeetSymm(sc: Scope, j: Join, h: Expr, g: Expr) returns (j': Join)
    requires HeadsMeet(sc, j, h, g)
    ensures HeadsMeet(sc, j', g, h)
    decreases j, 3
  {
    hide JoinedBy, HeadsAgree, RigidHead, Rests;
    if RigidHead(sc, h) && RigidHead(sc, g) && HeadsAgree(h, g) {
      HeadsSymm(h, g);
      j' := j;
    } else {
      j' := JoinedBySymm(sc, j, h.struct, g.struct);
    }
  }

  // ---------------------------------------------------------------- closed under steps

  lemma {:induction false} RestFinished(sc: Scope, t: Expr)
    requires Rests(sc, AppFn(t))
    ensures Contract(sc.lctx, t).None? && Finished(sc, true, t) && Finished(sc, false, t)
  {
    hide Rests;
    RestStops(sc, t);
    RestsCases(sc, AppFn(t));
  }

  lemma {:induction false} HeadsRest(sc: Scope, j: Join, h: Expr, g: Expr)
    requires HeadsMeet(sc, j, h, g)
    ensures Rests(sc, h) && Rests(sc, g)
  {
    hide JoinedBy, Rests;
    if RigidHead(sc, h) && RigidHead(sc, g) {
      RigidRests(sc, h);
      RigidRests(sc, g);
    }
  }

  lemma {:induction false} NoStep(sc: Scope, delta: bool, t: Expr, r: Expr)
    requires Finished(sc, delta, t)
    ensures !Steps(sc, delta, t, r)
  {
  }

  lemma {:induction false} BindFinished(sc: Scope, delta: bool, t: Expr)
    requires t.Lambda? || t.Pi? || t.Sort? || t.Lit?
    ensures Finished(sc, delta, t)
  {
  }

  lemma {:induction false} PlainStep(sc: Scope, t: Expr, r: Expr)
    requires Steps(sc, false, t, r)
    ensures Contract(sc.lctx, t) == Some(r)
  {
  }

  lemma {:induction false} NumberNoStep(sc: Scope, t: Expr, r: Expr)
    requires IsNatSucc(t).Some? || IsNatZero(t)
    ensures !Steps(sc, false, t, r)
  {
    SuccStops(sc.lctx, t);
  }

  /** A step on the left keeps the pair. */
  lemma {:induction false} MeetsStep(sc: Scope, delta: bool, j: Join, t: Expr, s: Expr, t1: Expr) returns (j': Join)
    requires Meets(sc, delta, j, t, s) && Steps(sc, delta, t, t1)
    ensures Meets(sc, delta, j', t1, s)
    decreases j
  {
    hide Steps, JoinedBy, Finished, RigidHead, HeadsAgree;
    match j {
      case JSame => NoStep(sc, delta, t, t1);
      case JSort => BindFinished(sc, delta, t); NoStep(sc, delta, t, t1);
      case JLeft(m, j1) =>
        StepsUnique(sc, delta, t, t1, m);
        j' := j1;
      case JRight(m, j1) =>
        var k := MeetsStep(sc, delta, j1, t, m, t1);
        j' := JRight(m, k);
      case JSpine(jh, _) => HeadsRest(sc, jh, AppFn(t), AppFn(s)); RestFinished(sc, t); NoStep(sc, delta, t, t1);
      case JBind(_, _) => BindFinished(sc, delta, t); NoStep(sc, delta, t, t1);
      case JZero => NumberNoStep(sc, t, t1);
      case JSucc(_) => NumberNoStep(sc, t, t1);
      case JNum =>
        PlainStep(sc, t, t1);
        NumbersStep(sc.env, sc.lctx, t, s, t1);
        j' := JNum;
    }
  }

  lemma {:induction false} MeetsPath(sc: Scope, delta: bool, j: Join, t: Expr, s: Expr, n: nat, u: Expr) returns (j': Join)
    requires Meets(sc, delta, j, t, s) && Path(sc.lctx, n, t, u)
    ensures Meets(sc, delta, j', u, s)
    decreases n
  {
    hide Meets, Erase, Unfolds;
    if n == 0 {
      j' := MeetsSame(sc, delta, j, t, s, u, s);
    } else {
      var m := Contract(sc.lctx, t).value;
      var k := MeetsStep(sc, delta, j, t, s, m);
      j' := MeetsPath(sc, delta, k, m, s, n - 1, u);
    }
  }

  /** A constant that can be unfolded is one that unfolds in one way. */
  ghost predicate GoodHead(sc: Scope, t: Expr) {
    var h := AppFn(t);
    (h.Proj? ==> Frozen(sc, h)) && (h.Const? ==> Ordinary(sc.env, h.name) && (h.name in sc.env.defs ==> exists r :: Unfolds(sc.env, t, r)))
  }

  /** What is at the head of a term without contractions. */
  lemma {:induction false} MeetsHead(sc: Scope, delta: bool, j: Join, t: Expr, s: Expr)
    requires Meets(sc, delta, j, t, s) && Contract(sc.lctx, t).None?
    ensures (AppFn(t).Proj? ==> Frozen(sc, AppFn(t))) && (delta ==> GoodHead(sc, t))
    decreases j
  {
    hide JoinedBy, HeadsAgree;
    match j
    case JSpine(jh, _) => HeadsRest(sc, jh, AppFn(t), AppFn(s)); RestsCases(sc, AppFn(t));
    case JRight(m, j1) => MeetsHead(sc, delta, j1, t, m);
    case JZero => SuccStops(sc.lctx, t);
    case JSucc(_) => SuccStops(sc.lctx, t);
    case JNum => NumbersHead(sc.env, sc.lctx, t, s);
    case _ =>
  }

  /** Every term that contractions lead to may take the place of the left side. */
  lemma {:induction false} MeetsLands(sc: Scope, delta: bool, j: Join, t: Expr, s: Expr, r: Expr) returns (j': Join)
    requires Meets(sc, delta, j, t, s) && Lands(sc, t, r)
    ensures Meets(sc, delta, j', r, s)
  {
    hide Path, Meets;
    if MeetsProj(sc, t) {
      var n: nat, u :| Path(sc.lctx, n, t, u) && AppFn(u).Proj? && !Frozen(sc, AppFn(u));
      j' := MeetsPath(sc, delta, j, t, s, n, u);
      ProjStops(sc.lctx, u);
      MeetsHead(sc, delta, j', u, s);
    } else {
      var n: nat :| Path(sc.lctx, n, t, r);
      j' := MeetsPath(sc, delta, j, t, s, n, r);
    }
  }

  /** Both sides may go on. */
  lemma {:induction false} JoinedLands(sc: Scope, t: Expr, s: Expr, t': Expr, s': Expr)
    requires Joined(sc, t, s) && Lands(sc, t, t') && Lands(sc, s, s') && !Same(t, s)
    ensures Joined(sc, t', s')
  {
    hide JoinedBy, Lands, Same;
    var j :| JoinedBy(sc, j, t, s);
    JoinedByLands(sc, j, t, s, t', s');
  }

  lemma {:induction false} JoinedGoesOn(sc: Scope, t: Expr, s: Expr, t': Expr, s': Expr)
    requires Joined(sc, t, s) && Lands(sc, t, t') && Lands(sc, s, s') && !Easy(t, s)
    ensures Joined(sc, t', s')
  {
    hide Joined, Lands;
    JoinedLands(sc, t, s, t', s');
  }

  lemma {:induction false} JoinedByLands(sc: Scope, j: Join, t: Expr, s: Expr, t': Expr, s': Expr)
    requires JoinedBy(sc, j, t, s) && Lands(sc, t, t') && Lands(sc, s, s') && !Same(t, s)
    ensures Joined(sc, t', s')
  {
    hide Meets, Lands, Joined, Same;
    var delta := !Meets(sc, false, j, t, s);
    var k := MeetsBoth(sc, delta, j, t, s, t', s');
    MeetsJoined(sc, delta, k, t', s');
  }

  lemma {:induction false} MeetsBoth(sc: Scope, delta: bool, j: Join, t: Expr, s: Expr, t': Expr, s': Expr) returns (k: Join)
    requires Meets(sc, delta, j, t, s) && Lands(sc, t, t') && Lands(sc, s, s')
    ensures Meets(sc, delta, k, t', s')
  {
    hide Meets, Lands;
    k := MeetsLands(sc, delta, j, t, s, t');
    k := MeetsSymm(sc, delta, k, t', s);
    k := MeetsLands(sc, delta, k, s, t', s');
    k := MeetsSymm(sc, delta, k, s', t');
  }

  // ---------------------------------------------------------------- reading the relation

  /** Bindings that are joined have joined parts. */
  lemma {:induction false} JoinedBindings(sc: Scope, t: Expr, s: Expr)
    requires Joined(sc, t, s) && BothBind(t, s)
    ensures Joined(sc, t.domain, s.domain) && Joined(sc, t.body, s.body)
  {
    hide Meets, JoinedBy;
    var j :| JoinedBy(sc, j, t, s);
    JoinedCases(sc, j, t, s);
    if Same(t, s) {
      assert Same(t.domain, s.domain) && Same(t.body, s.body);
      SameJoined(sc, t.domain, s.domain);
      SameJoined(sc, t.body, s.body);
    } else {
      MeetBindings(sc, !Meets(sc, false, j, t, s), j, t, s);
    }
  }

  lemma {:induction false} MeetBindings(sc: Scope, delta: bool, j: Join, t: Expr, s: Expr)
    requires Meets(sc, delta, j, t, s) && BothBind(t, s) && !Same(t, s)
    ensures Joined(sc, t.domain, s.domain) && Joined(sc, t.body, s.body)
  {
    hide JoinedBy, HeadsAgree;
    BindFinished(sc, delta, t);
    BindFinished(sc, delta, s);
    match j
    case JLeft(m, _) => NoStep(sc, delta, t, m);
    case JRight(m, _) => NoStep(sc, delta, s, m);
    case JNum => BindNumbers(sc, t, s);
    case _ =>
  }

  /** Bindings, sorts and different literals are not numbers with one value. */
  lemma {:induction false} BindNumbers(sc: Scope, t: Expr, s: Expr)
    requires NumbersMeet(sc.env, sc.lctx, t, s) && Contract(sc.lctx, t).None?
    ensures !t.Lambda? && !t.Pi? && !t.Sort? && (t.Lit? && s.Lit? ==> t == s)
  {
    NumbersHead(sc.env, sc.lctx, t, s);
    if t.Lit? && s.Lit? { ValuesMeet(sc.env, sc.lctx, t, s); }
  }

  lemma {:induction false} LiteralsEqual(sc: Scope, j: Join, n: nat, m: nat)
    requires JoinedBy(sc, j, NatLitExpr(n), NatLitExpr(m))
    ensures n == m
    decreases j
  {
    hide Meets;
    var t, s := NatLitExpr(n), NatLitExpr(m);
    if !Same(t, s) { MeetLiterals(sc, !Meets(sc, false, j, t, s), j, n, m); }
  }

  lemma {:induction false} MeetLiterals(sc: Scope, delta: bool, j: Join, n: nat, m: nat)
    requires Meets(sc, delta, j, NatLitExpr(n), NatLitExpr(m))
    ensures n == m
    decreases j, 0
  {
    hide JoinedBy, HeadsAgree;
    var t, s := NatLitExpr(n), NatLitExpr(m);
    BindFinished(sc, delta, t);
    BindFinished(sc, delta, s);
    match j
    case JLeft(u, _) => NoStep(sc, delta, t, u);
    case JRight(u, _) => NoStep(sc, delta, s, u);
    case JSucc(j1) => LiteralsEqual(sc, j1, n - 1, m - 1);
    case JNum => BindNumbers(sc, t, s);
    case _ =>
  }

  /** Sorts and literals that are joined are equal, but for levels with one normal form. */
  lemma {:induction false} JoinedAtoms(sc: Scope, t: Expr, s: Expr)
    requires Joined(sc, t, s) && ((t.Sort? && s.Sort?) || (t.Lit? && s.Lit?))
    ensures t == s || (t.Sort? && LN.NormalForm(t.level) == LN.NormalForm(s.level))
  {
    hide Meets, JoinedBy;
    var j :| JoinedBy(sc, j, t, s);
    JoinedCases(sc, j, t, s);
    if !Same(t, s) { MeetAtoms(sc, !Meets(sc, false, j, t, s), j, t, s); }
  }

  lemma {:induction false} MeetAtoms(sc: Scope, delta: bool, j: Join, t: Expr, s: Expr)
    requires Meets(sc, delta, j, t, s) && ((t.Sort? && s.Sort?) || (t.Lit? && s.Lit?)) && !Same(t, s)
    ensures t.Sort? && LN.NormalForm(t.level) == LN.NormalForm(s.level)
  {
    hide JoinedBy, HeadsAgree;
    BindFinished(sc, delta, t);
    BindFinished(sc, delta, s);
    match j
    case JLeft(m, _) => NoStep(sc, delta, t, m);
    case JRight(m, _) => NoStep(sc, delta, s, m);
    case JNum => BindNumbers(sc, t, s);
    case JSucc(j1) => LiteralsEqual(sc, j1, t.lit.n - 1, s.lit.n - 1);
    case _ =>
  }

  /** A pair that the easy tests decide. */
  predicate Easy(t: Expr, s: Expr) {
    Same(t, s) || BothBind(t, s) || (t.Sort? && s.Sort?)
  }

  predicate Unclear(sc: Scope, t: Expr, s: Expr) {
    Contract(sc.lctx, t).None? && Contract(sc.lctx, s).None? && !Easy(t, s)
  }

  /** Joined by unfolding, or two spines already. */
  ghost predicate Unfinished(sc: Scope, t: Expr, s: Expr) {
    Unclear(sc, t, s) && exists j :: Meets(sc, true, j, t, s)
  }

  /** Two numbers, or successors of terms that are joined. */
  ghost predicate Numeric(sc: Scope, t: Expr, s: Expr) {
    Unclear(sc, t, s) && (NumbersMeet(sc.env, sc.lctx, t, s) || ZeroOrSucc(sc, t, s))
  }

  ghost predicate ZeroOrSucc(sc: Scope, t: Expr, s: Expr) {
    || (IsNatZero(t) && IsNatZero(s))
    || (IsNatSucc(t).Some? && IsNatSucc(s).Some? && Joined(sc, IsNatSucc(t).value, IsNatSucc(s).value))
  }

  /** Closed arithmetic with one value, where the syntax does not tell. */
  ghost predicate Arithmetic(sc: Scope, t: Expr, s: Expr) {
    && NumbersMeet(sc.env, sc.lctx, t, s) && Contract(sc.lctx, t).None? && Contract(sc.lctx, s).None?
    && t != s && !(IsNatZero(t) && IsNatZero(s))
  }

  lemma {:induction false} NumbersJoined(sc: Scope, t: Expr, s: Expr)
    requires NumbersMeet(sc.env, sc.lctx, t, s)
    ensures Joined(sc, t, s)
  {
    assert Meets(sc, false, JNum, t, s);
    MeetsJoined(sc, false, JNum, t, s);
  }

  lemma {:induction false} JoinedUnfinished(sc: Scope, t: Expr, s: Expr)
    requires Joined(sc, t, s) && Unclear(sc, t, s)
    ensures Unfinished(sc, t, s) || Numeric(sc, t, s)
  {
    hide Meets, JoinedBy, Unclear, NumbersMeet, ZeroOrSucc;
    var j :| JoinedBy(sc, j, t, s);
    JoinedCases(sc, j, t, s);
    assert !Same(t, s) by { UnclearSame(sc, t, s); }
    if !Meets(sc, true, j, t, s) { ContractedSpines(sc, j, t, s); }
  }

  lemma {:induction false} UnclearSame(sc: Scope, t: Expr, s: Expr)
    requires Unclear(sc, t, s)
    ensures !Same(t, s)
  {
  }

  /** Without contractions left only spines and numbers are joined by contractions alone. */
  lemma {:induction false} ContractedSpines(sc: Scope, j: Join, t: Expr, s: Expr)
    requires Meets(sc, false, j, t, s) && Unclear(sc, t, s)
    ensures Meets(sc, true, j, t, s) || NumbersMeet(sc.env, sc.lctx, t, s) || ZeroOrSucc(sc, t, s)
  {
    hide JoinedBy, HeadsAgree, RigidHead, NumbersMeet;
  }

  /** When nothing can be unfolded either, the pair is two spines. */
  lemma {:induction false} FinalSpines(sc: Scope, t: Expr, s: Expr)
    requires Unfinished(sc, t, s) && !Unfoldable(sc.env, t) && !Unfoldable(sc.env, s)
    ensures SpinesJoined(sc, t, s)
  {
    hide Meets, Unclear;
    var j :| Meets(sc, true, j, t, s);
    MeetSpines(sc, j, t, s);
  }

  lemma {:induction false} MeetSpines(sc: Scope, j: Join, t: Expr, s: Expr)
    requires Meets(sc, true, j, t, s) && Unclear(sc, t, s) && !Unfoldable(sc.env, t) && !Unfoldable(sc.env, s)
    ensures SpinesJoined(sc, t, s)
  {
    hide JoinedBy, HeadsAgree, RigidHead, HeadsMeet, HeadsJoined;
    match j
    case JSpine(jh, _) => HeadsSound(sc, jh, AppFn(t), AppFn(s));
    case _ =>
  }

  /** A head to unfold is one that unfolds in one way. */
  lemma {:induction false} UnfinishedHeads(sc: Scope, t: Expr, s: Expr)
    requires Unfinished(sc, t, s)
    ensures GoodHead(sc, t) && GoodHead(sc, s)
  {
    hide Meets, GoodHead;
    var j :| Meets(sc, true, j, t, s);
    MeetsHead(sc, true, j, t, s);
    var k := MeetsSymm(sc, true, j, t, s);
    MeetsHead(sc, true, k, s, t);
  }

  /** `t'` is `t`, or what contractions make of the unfolding of `t`. */
  ghost predicate Advances(sc: Scope, t: Expr, t': Expr) {
    t' == t || (Contract(sc.lctx, t').None? && exists m :: Unfolds(sc.env, t, m) && Lands(sc, m, t'))
  }

  lemma {:induction false} MeetsAdvance(sc: Scope, j: Join, t: Expr, s: Expr, t': Expr) returns (j': Join)
    requires Meets(sc, true, j, t, s) && Contract(sc.lctx, t).None? && Advances(sc, t, t')
    ensures Meets(sc, true, j', t', s)
  {
    hide Meets, Lands, Unfolds;
    if t' == t {
      j' := j;
    } else {
      var m :| Unfolds(sc.env, t, m) && Lands(sc, m, t');
      j' := MeetsStep(sc, true, j, t, s, m);
      j' := MeetsLands(sc, true, j', m, s, t');
    }
  }

  /** Unfolding either side keeps the pair. */
  lemma {:induction false} UnfinishedAdvance(sc: Scope, t: Expr, s: Expr, t': Expr, s': Expr)
    requires Unfinished(sc, t, s) && Advances(sc, t, t') && Advances(sc, s, s')
    ensures exists j :: Meets(sc, true, j, t', s')
    ensures Joined(sc, t', s') && Contract(sc.lctx, t').None? && Contract(sc.lctx, s').None?
  {
    hide Meets, Lands, Unfolds, Joined;
    var j :| Meets(sc, true, j, t, s);
    j := MeetsAdvance(sc, j, t, s, t');
    j := MeetsSymm(sc, true, j, t', s);
    j := MeetsAdvance(sc, j, s, t', s');
    j := MeetsSymm(sc, true, j, s', t');
    MeetsJoined(sc, true, j, t', s');
  }

  lemma {:induction false} JoinedSameBoth(sc: Scope, t: Expr, s: Expr, t': Expr, s': Expr)
    requires Joined(sc, t, s) && Same(t, t') && Same(s, s')
    ensures Joined(sc, t', s')
  {
    hide JoinedBy, Same;
    var j :| JoinedBy(sc, j, t, s);
    var k := JoinedBySame(sc, j, t, s, t', s');
  }

  lemma {:induction false} SpinesMeet(sc: Scope, t: Expr, s: Expr)
    requires SpinesJoined(sc, t, s)
    ensures Joined(sc, t, s)
  {
    hide JoinedBy, HeadsJoined, HeadsMeet;
    var jh := HeadsFound(sc, AppFn(t), AppFn(s));
    var js := [];
    for i := 0 to |AppArgs(t)|
      invariant |js| == i && forall m :: 0 <= m < i ==> JoinedBy(sc, js[m], AppArgs(t)[m], AppArgs(s)[m])
    {
      var j :| JoinedBy(sc, j, AppArgs(t)[i], AppArgs(s)[i]);
      js := js + [j];
    }
    assert Meets(sc, false, JSpine(jh, js), t, s);
    MeetsJoined(sc, false, JSpine(jh, js), t, s);
  }

  lemma {:induction false} HeadsFound(sc: Scope, h: Expr, g: Expr) returns (j: Join)
    requires HeadsJoined(sc, h, g)
    ensures HeadsMeet(sc, j, h, g)
  {
    hide JoinedBy, HeadsAgree, RigidHead, Rests;
    if RigidHead(sc, h) && RigidHead(sc, g) && HeadsAgree(h, g) {
      j := JSame;
    } else {
      j :| JoinedBy(sc, j, h.struct, g.struct);
    }
  }

  lemma {:induction false} HeadsSound(sc: Scope, j: Join, h: Expr, g: Expr)
    requires HeadsMeet(sc, j, h, g)
    ensures HeadsJoined(sc, h, g)
  {
    hide JoinedBy, HeadsAgree, RigidHead, Rests;
  }

  // ---------------------------------------------------------------- local contexts

  lemma {:induction false} JoinedByCtx(env: Environment, a: LocalCtx, b: LocalCtx, j: Join, t: Expr, s: Expr)
    requires SameLets(a, b) && JoinedBy(Scope(env, a), j, t, s)
    ensures JoinedBy(Scope(env, b), j, t, s)
    decreases j, 1
  {
    hide Meets, JoinedBy, Same, SameLets;
    JoinedCases(Scope(env, a), j, t, s);
    if Same(t, s) {
    } else if Meets(Scope(env, a), false, j, t, s) {
      MeetsCtx(env, a, b, false, j, t, s);
    } else {
      MeetsCtx(env, a, b, true, j, t, s);
    }
    JoinedCases(Scope(env, b), j, t, s);
  }

  lemma {:induction false} MeetsCtx(env: Environment, a: LocalCtx, b: LocalCtx, delta: bool, j: Join, t: Expr, s: Expr)
    requires SameLets(a, b) && Meets(Scope(env, a), delta, j, t, s)
    ensures Meets(Scope(env, b), delta, j, t, s)
    decreases j, 0
  {
    hide JoinedBy, HeadsAgree, Unfolds, HeadsMeet, Finished;
    var x, y := Scope(env, a), Scope(env, b);
    ContractCtx(a, b, t);
    ContractCtx(a, b, s);
    match j
    case JSame => FinishedCtx(env, a, b, delta, t);
    case JSort =>
    case JLeft(m, j1) => MeetsCtx(env, a, b, delta, j1, m, s);
    case JRight(m, j1) => MeetsCtx(env, a, b, delta, j1, t, m);
    case JSpine(jh, js) =>
      HeadsMeetCtx(env, a, b, jh, AppFn(t), AppFn(s));
      forall i | 0 <= i < |js| ensures JoinedBy(y, js[i], AppArgs(t)[i], AppArgs(s)[i]) {
        JoinedByCtx(env, a, b, js[i], AppArgs(t)[i], AppArgs(s)[i]);
      }
    case JBind(jd, jb) =>
      JoinedByCtx(env, a, b, jd, t.domain, s.domain);
      JoinedByCtx(env, a, b, jb, t.body, s.body);
    case JZero =>
    case JSucc(j1) => JoinedByCtx(env, a, b, j1, IsNatSucc(t).value, IsNatSucc(s).value);
    case JNum => NumbersCtx(env, a, b, t, s);
  }

  lemma {:induction false} FinishedCtx(env: Environment, a: LocalCtx, b: LocalCtx, delta: bool, t: Expr)
    requires SameLets(a, b) && Finished(Scope(env, a), delta, t)
    ensures Finished(Scope(env, b), delta, t)
  {
    hide Rests;
    ContractCtx(a, b, t);
    if AppFn(t).Proj? { RestsCtx(env, a, b, AppFn(t)); }
  }

  lemma {:induction false} HeadsMeetCtx(env: Environment, a: LocalCtx, b: LocalCtx, j: Join, h: Expr, g: Expr)
    requires SameLets(a, b) && HeadsMeet(Scope(env, a), j, h, g)
    ensures HeadsMeet(Scope(env, b), j, h, g)
    decreases j, 3
  {
    hide JoinedBy, HeadsAgree, Rests;
    if !(RigidHead(Scope(env, a), h) && RigidHead(Scope(env, a), g) && HeadsAgree(h, g)) {
      RestsCtx(env, a, b, h);
      RestsCtx(env, a, b, g);
      JoinedByCtx(env, a, b, j, h.struct, g.struct);
    }
  }

  lemma {:induction false} JoinedCtx(env: Environment, a: LocalCtx, b: LocalCtx, t: Expr, s: Expr)
    requires SameLets(a, b) && Joined(Scope(env, a), t, s)
    ensures Joined(Scope(env, b), t, s)
  {
    hide JoinedBy, SameLets;
    var j :| JoinedBy(Scope(env, a), j, t, s);
    JoinedByCtx(env, a, b, j, t, s);
  }

  // ---------------------------------------------------------------- opening a binder

  ghost predicate ClosedLets(lctx: LocalCtx) {
    forall y :: LetBound(lctx, y) ==> LooseRange(lctx[y].value.value) == 0
  }

  /** A variable without a value may stand for index `k`. */
  lemma {:induction false} ContractOpen(lctx: LocalCtx, e: Expr, k: nat, x: Name)
    requires ClosedLets(lctx) && !LetBound(lctx, x)
    ensures Contract(lctx, Inst(e, k, [FVar(x)])) ==
      match Contract(lctx, e) case Some(r) => Some(Inst(r, k, [FVar(x)])) case None => None
  {
    var us := [FVar(x)];
    match e
    case App(f, a) =>
      if f.Lambda? {
        OpenInst(f.body, a, k, us);
        assert Inst(f, k, us).Lambda? && Inst(f, k, us).body == Inst(f.body, k + 1, us);
        assert Inst(e, k, us) == App(Inst(f, k, us), Inst(a, k, us));
      } else {
        ContractOpen(lctx, f, k, x);
        OpenLambda(f, k, x);
      }
    case Let(_, _, v, b, _) => OpenInst(b, v, k, us);
    case FVar(y) => if LetBound(lctx, y) { NoLoose(lctx[y].value.value, k, 0, us); }
    case BVar(i) => if i == k { assert Lift(FVar(x), 0, k) == FVar(x); }
    case _ =>
  }

  lemma {:induction false} OpenInst(b: Expr, a: Expr, k: nat, us: seq<Expr>)
    ensures Inst(Inst(b, 0, [a]), k, us) == Inst(Inst(b, k + 1, us), 0, [Inst(a, k, us)])
  {
    InstInst(b, 0, [a], k, us);
    assert InstAll([a], k, us) == [Inst(a, k, us)];
  }

  lemma {:induction false} OpenLambda(f: Expr, k: nat, x: Name)
    requires !f.Lambda?
    ensures !Inst(f, k, [FVar(x)]).Lambda?
  {
    if f.BVar? && f.idx == k { assert Lift(FVar(x), 0, k) == FVar(x); }
  }

  function OpenAll(es: seq<Expr>, k: nat, x: Name): (r: seq<Expr>)
    ensures |r| == |es|
  {
    seq(|es|, i requires 0 <= i < |es| => Inst(es[i], k, [FVar(x)]))
  }

  lemma {:induction false} OpenSpine(e: Expr, k: nat, x: Name)
    ensures AppFn(Inst(e, k, [FVar(x)])) == Inst(AppFn(e), k, [FVar(x)])
    ensures AppArgs(Inst(e, k, [FVar(x)])) == OpenAll(AppArgs(e), k, x)
  {
    if e.App? {
      OpenSpine(e.fn, k, x);
    } else if e.BVar? && e.idx == k {
      assert Lift(FVar(x), 0, k) == FVar(x);
    }
  }

  lemma {:induction false} OpenMkApp(f: Expr, args: seq<Expr>, k: nat, x: Name)
    ensures Inst(MkApp(f, args), k, [FVar(x)]) == MkApp(Inst(f, k, [FVar(x)]), OpenAll(args, k, x))
    decreases |args|
  {
    if args != [] {
      var n := |args| - 1;
      OpenMkApp(f, args[..n], k, x);
      assert OpenAll(args, k, x)[..n] == OpenAll(args[..n], k, x);
    }
  }

  lemma {:induction false} UnfoldsOpen(env: Environment, t: Expr, r: Expr, k: nat, x: Name)
    requires EnvOk(env) && Unfolds(env, t, r)
    ensures Unfolds(env, Inst(t, k, [FVar(x)]), Inst(r, k, [FVar(x)]))
  {
    OpenSpine(t, k, x);
    var u := Inst(t, k, [FVar(x)]);
    forall v | DeltaStep(env, AppFn(u), v) ensures Inst(r, k, [FVar(x)]) == MkApp(v, AppArgs(u)) {
      DeltaScoped(env, AppFn(u), v);
      NoLoose(v, k, 0, [FVar(x)]);
      OpenMkApp(v, AppArgs(t), k, x);
    }
  }

  lemma {:induction false} StepsOpen(sc: Scope, delta: bool, t: Expr, r: Expr, k: nat, x: Name)
    requires EnvOk(sc.env) && ClosedLets(sc.lctx) && !LetBound(sc.lctx, x) && Steps(sc, delta, t, r)
    ensures Steps(sc, delta, Inst(t, k, [FVar(x)]), Inst(r, k, [FVar(x)]))
  {
    hide Unfolds, Inst, EnvOk;
    ContractOpen(sc.lctx, t, k, x);
    if Contract(sc.lctx, t).None? { UnfoldsOpen(sc.env, t, r, k, x); }
  }

  /** What is at the head stays at the head, but for the index. */
  lemma {:induction false} HeadOpen(sc: Scope, h: Expr, k: nat, x: Name)
    requires !LetBound(sc.lctx, x)
    ensures var g := Inst(h, k, [FVar(x)]);
      && (RigidHead(sc, h) ==> RigidHead(sc, g)) && (h.Const? || g.Const? ==> g == h) && (h.Proj? <==> g.Proj?)
  {
    if h.BVar? && h.idx == k { assert Lift(FVar(x), 0, k) == FVar(x); }
  }

  lemma {:induction false} FinishedOpen(sc: Scope, delta: bool, t: Expr, k: nat, x: Name)
    requires ClosedLets(sc.lctx) && !LetBound(sc.lctx, x) && Finished(sc, delta, t)
    ensures Finished(sc, delta, Inst(t, k, [FVar(x)]))
  {
    hide Inst, RigidHead, Rests;
    ContractOpen(sc.lctx, t, k, x);
    OpenSpine(t, k, x);
    HeadOpen(sc, AppFn(t), k, x);
    if AppFn(t).Proj? { RestsOpen(sc, AppFn(t), k, x); }
  }

  lemma {:induction false} PathOpen(lctx: LocalCtx, n: nat, e: Expr, r: Expr, k: nat, x: Name)
    requires ClosedLets(lctx) && !LetBound(lctx, x) && Path(lctx, n, e, r)
    ensures Path(lctx, n, Inst(e, k, [FVar(x)]), Inst(r, k, [FVar(x)]))
    decreases n
  {
    hide Inst, Same, ClosedLets;
    if n == 0 {
      OpenSame(e, r, k, x);
    } else {
      ContractOpen(lctx, e, k, x);
      PathOpen(lctx, n - 1, Contract(lctx, e).value, r, k, x);
    }
  }

  lemma {:induction false} HasFieldOpen(env: Environment, v: Expr, idx: nat, k: nat, x: Name)
    requires !HasField(env, v, idx)
    ensures !HasField(env, Inst(v, k, [FVar(x)]), idx)
  {
    hide Inst;
    OpenSpine(v, k, x);
    HeadOpen(Scope(env, map[]), AppFn(v), k, x);
  }

  lemma {:induction false} RestsAtOpen(d: nat, sc: Scope, h: Expr, k: nat, x: Name)
    requires ClosedLets(sc.lctx) && !LetBound(sc.lctx, x) && RestsAt(d, sc, h)
    ensures RestsAt(d, sc, Inst(h, k, [FVar(x)]))
    decreases d
  {
    hide Path, HasField, ClosedLets;
    HeadOpen(sc, h, k, x);
    if !RigidHead(sc, h) {
      var n: nat, v :| Path(sc.lctx, n, h.struct, v) && HoldsAt(d - 1, sc, h.pidx, v);
      PathOpen(sc.lctx, n, h.struct, v, k, x);
      OpenSpine(v, k, x);
      RestsAtOpen(d - 1, sc, AppFn(v), k, x);
      HasFieldOpen(sc.env, v, h.pidx, k, x);
      assert HoldsAt(d - 1, sc, h.pidx, Inst(v, k, [FVar(x)]));
    }
  }

  lemma {:induction false} RestsOpen(sc: Scope, h: Expr, k: nat, x: Name)
    requires ClosedLets(sc.lctx) && !LetBound(sc.lctx, x) && Rests(sc, h)
    ensures Rests(sc, Inst(h, k, [FVar(x)]))
  {
    var d: nat :| RestsAt(d, sc, h);
    RestsAtOpen(d, sc, h, k, x);
  }

  lemma {:induction false} JoinedByOpen(sc: Scope, j: Join, t: Expr, s: Expr, k: nat, x: Name) returns (j': Join)
    requires EnvOk(sc.env) && ClosedLets(sc.lctx) && !LetBound(sc.lctx, x) && JoinedBy(sc, j, t, s)
    ensures JoinedBy(sc, j', Inst(t, k, [FVar(x)]), Inst(s, k, [FVar(x)]))
    decreases j, 2
  {
    hide Meets, JoinedBy, Same, Inst, EnvOk, ClosedLets;
    JoinedCases(sc, j, t, s);
    if Same(t, s) {
      OpenSame(t, s, k, x);
      j' := j;
    } else if Meets(sc, false, j, t, s) {
      j' := MeetsOpen(sc, false, j, t, s, k, x);
    } else {
      j' := MeetsOpen(sc, true, j, t, s, k, x);
    }
    JoinedCases(sc, j', Inst(t, k, [FVar(x)]), Inst(s, k, [FVar(x)]));
  }

  lemma {:induction false} OpenSame(t: Expr, s: Expr, k: nat, x: Name)
    requires Same(t, s)
    ensures Same(Inst(t, k, [FVar(x)]), Inst(s, k, [FVar(x)]))
  {
    EraseInst(t, k, [FVar(x)]);
    EraseInst(s, k, [FVar(x)]);
  }

  lemma {:induction false} SuccOpen(t: Expr, k: nat, x: Name)
    requires IsNatSucc(t).Some?
    ensures IsNatSucc(Inst(t, k, [FVar(x)])) == Some(Inst(IsNatSucc(t).value, k, [FVar(x)]))
  {
    if t.App? { assert Inst(t.fn, k, [FVar(x)]) == t.fn; }
  }

  lemma {:induction false} NumbersOpen(env: Environment, lctx: LocalCtx, t: Expr, s: Expr, k: nat, x: Name)
    requires NumbersMeet(env, lctx, t, s)
    ensures Inst(t, k, [FVar(x)]) == t && Inst(s, k, [FVar(x)]) == s
  {
    hide Evaluates;
    NoLoose(t, k, 0, [FVar(x)]);
    NoLoose(s, k, 0, [FVar(x)]);
  }

  lemma {:induction false} MeetsOpen(sc: Scope, delta: bool, j: Join, t: Expr, s: Expr, k: nat, x: Name) returns (j': Join)
    requires EnvOk(sc.env) && ClosedLets(sc.lctx) && !LetBound(sc.lctx, x) && Meets(sc, delta, j, t, s)
    ensures Meets(sc, delta, j', Inst(t, k, [FVar(x)]), Inst(s, k, [FVar(x)]))
    decreases j, 1
  {
    hide Steps, JoinedBy, Finished, RigidHead, HeadsAgree, EnvOk, ClosedLets;
    var us := [FVar(x)];
    match j {
      case JSame =>
        OpenSame(t, s, k, x);
        FinishedOpen(sc, delta, t, k, x);
        j' := JSame;
      case JSort => j' := JSort;
      case JLeft(m, j1) =>
        StepsOpen(sc, delta, t, m, k, x);
        var i := MeetsOpen(sc, delta, j1, m, s, k, x);
        j' := JLeft(Inst(m, k, us), i);
      case JRight(m, j1) =>
        StepsOpen(sc, delta, s, m, k, x);
        var i := MeetsOpen(sc, delta, j1, t, m, k, x);
        j' := JRight(Inst(m, k, us), i);
      case JSpine(_, _) => j' := SpineOpen(sc, delta, j, t, s, k, x);
      case JBind(jd, jb) =>
        var kd := JoinedByOpen(sc, jd, t.domain, s.domain, k, x);
        var kb := JoinedByOpen(sc, jb, t.body, s.body, k + 1, x);
        j' := JBind(kd, kb);
      case JZero => j' := JZero;
      case JSucc(j1) =>
        SuccOpen(t, k, x);
        SuccOpen(s, k, x);
        var i := JoinedByOpen(sc, j1, IsNatSucc(t).value, IsNatSucc(s).value, k, x);
        j' := JSucc(i);
      case JNum =>
        NumbersOpen(sc.env, sc.lctx, t, s, k, x);
        j' := JNum;
    }
  }

  lemma {:induction false} SpineOpen(sc: Scope, delta: bool, j: Join, t: Expr, s: Expr, k: nat, x: Name) returns (j': Join)
    requires EnvOk(sc.env) && ClosedLets(sc.lctx) && !LetBound(sc.lctx, x) && j.JSpine? && Meets(sc, delta, j, t, s)
    ensures Meets(sc, delta, j', Inst(t, k, [FVar(x)]), Inst(s, k, [FVar(x)]))
    decreases j, 0
  {
    hide Steps, JoinedBy, Finished, EnvOk, ClosedLets, Inst, HeadsMeet;
    OpenSpine(t, k, x);
    OpenSpine(s, k, x);
    var kh := HeadsMeetOpen(sc, j.head, AppFn(t), AppFn(s), k, x);
    var ks, js := [], j.args;
    var xs, ys := OpenAll(AppArgs(t), k, x), OpenAll(AppArgs(s), k, x);
    for i := 0 to |js|
      invariant |ks| == i && forall m :: 0 <= m < i ==> JoinedBy(sc, ks[m], xs[m], ys[m])
    {
      var n := JoinedByOpen(sc, js[i], AppArgs(t)[i], AppArgs(s)[i], k, x);
      ks := ks + [n];
    }
    j' := JSpine(kh, ks);
  }

  lemma {:induction false} HeadsMeetOpen(sc: Scope, j: Join, h: Expr, g: Expr, k: nat, x: Name) returns (j': Join)
    requires EnvOk(sc.env) && ClosedLets(sc.lctx) && !LetBound(sc.lctx, x) && HeadsMeet(sc, j, h, g)
    ensures HeadsMeet(sc, j', Inst(h, k, [FVar(x)]), Inst(g, k, [FVar(x)]))
    decreases j, 3
  {
    hide JoinedBy, EnvOk, ClosedLets, Rests;
    if RigidHead(sc, h) && RigidHead(sc, g) && HeadsAgree(h, g) {
      HeadOpen(sc, h, k, x);
      HeadOpen(sc, g, k, x);
      j' := j;
    } else {
      RestsOpen(sc, h, k, x);
      RestsOpen(sc, g, k, x);
      j' := JoinedByOpen(sc, j, h.struct, g.struct, k, x);
    }
  }

  /** Joined bodies, opened with a variable that has no value, are joined. */
  lemma {:induction false} JoinedOpen(sc: Scope, t: Expr, s: Expr, x: Name)
    requires EnvOk(sc.env) && ClosedLets(sc.lctx) && !LetBound(sc.lctx, x) && Joined(sc, t, s)
    ensures Joined(sc, Inst(t, 0, [FVar(x)]), Inst(s, 0, [FVar(x)]))
  {
    hide JoinedBy, Inst, EnvOk, ClosedLets;
    var j :| JoinedBy(sc, j, t, s);
    var k := JoinedByOpen(sc, j, t, s, 0, x);
  }
}
