/** Levels without `imax`: the order test answers exactly the question it is asked, and the normal
    form is canonical (kernel/level.cpp, lines 405-529). */
module LevelComplete {
  import opened Names
  import opened Levels
  import opened LevelNormalizer

  predicate IMaxFree(l: Level) {
    match l
    case Succ(p) => IMaxFree(p)
    case Max(a, b) => IMaxFree(a) && IMaxFree(b)
    case IMax(_, _) => false
    case _ => true
  }

  ghost predicate AlwaysGeq(l1: Level, l2: Level) {
    forall A :: Eval(l1, A) >= Eval(l2, A)
  }

  predicate IsVariable(y: Level) {
    y.Param? || y.MVar?
  }

  // ---------------------------------------------------------------- two telling assignments

  function Zeroes(): Assignment {
    Assignment(n => 0, n => 0)
  }

  /** `N` for one variable, 0 for the others. */
  function Peak(y: Level, N: nat): Assignment {
    Assignment(n => if y == Param(n) then N else 0, n => if y == MVar(n) then N else 0)
  }

  lemma {:induction false} EvalLeast(l: Level, A: Assignment)
    requires IMaxFree(l)
    ensures Eval(l, A) >= Eval(l, Zeroes())
  {
    match l
    case Succ(p) => EvalLeast(p, A);
    case Max(a, b) => EvalLeast(a, A); EvalLeast(b, A);
    case _ =>
  }

  /** `is_not_zero` answers true exactly on levels that are positive under every assignment. */
  lemma {:induction false} IsNotZeroExact(l: Level)
    ensures IsNotZero(l) <==> forall A :: Eval(l, A) > 0
  {
    if IsNotZero(l) {
      forall A ensures Eval(l, A) > 0 { IsNotZeroSound(l, A); }
    } else {
      ZeroSomewhere(l);
      assert Eval(l, Zeroes()) == 0;
    }
  }

  lemma {:induction false} ZeroSomewhere(l: Level)
    requires !IsNotZero(l)
    ensures Eval(l, Zeroes()) == 0
  {
    match l
    case Max(a, b) => ZeroSomewhere(a); ZeroSomewhere(b);
    case IMax(_, b) => ZeroSomewhere(b);
    case _ =>
  }

  /** The largest offset of an occurrence of `y`, -1 without one. */
  function Rise(l: Level, y: Level): (r: int)
    ensures r >= -1
  {
    match l
    case Succ(p) => if Rise(p, y) >= 0 then Rise(p, y) + 1 else -1
    case Max(a, b) => if Rise(a, y) >= Rise(b, y) then Rise(a, y) else Rise(b, y)
    case _ => if l == y then 0 else -1
  }

  lemma {:induction false} RiseBelow(l: Level, y: Level, A: Assignment)
    requires IMaxFree(l) && IsVariable(y) && Rise(l, y) >= 0
    ensures Eval(l, A) >= Eval(y, A) + Rise(l, y)
  {
    match l
    case Succ(p) => RiseBelow(p, y, A);
    case Max(a, b) => if Rise(a, y) >= Rise(b, y) { RiseBelow(a, y, A); } else { RiseBelow(b, y, A); }
    case _ =>
  }

  lemma {:induction false} RiseAtPeak(l: Level, y: Level, N: nat)
    requires IMaxFree(l) && IsVariable(y) && N >= Size(l)
    ensures if Rise(l, y) >= 0 then Eval(l, Peak(y, N)) == N + Rise(l, y) else Eval(l, Peak(y, N)) < Size(l)
  {
    match l
    case Succ(p) => RiseAtPeak(p, y, N);
    case Max(a, b) => RiseAtPeak(a, y, N); RiseAtPeak(b, y, N);
    case _ =>
  }

  /** What is at least `y` with offset `j` everywhere has an occurrence of `y` with that offset. */
  lemma {:induction false} RiseFromGeq(l: Level, y: Level, j: nat)
    requires IMaxFree(l) && IsVariable(y) && AlwaysGeq(l, AddSucc(y, j))
    ensures Rise(l, y) >= j
  {
    var A := Peak(y, Size(l));
    assert Eval(l, A) >= Eval(AddSucc(y, j), A);
    AddSuccFacts(y, j, A);
    RiseAtPeak(l, y, Size(l));
  }

  lemma {:induction false} GeqFromRise(l: Level, y: Level, j: nat)
    requires IMaxFree(l) && IsVariable(y) && Rise(l, y) >= j
    ensures AlwaysGeq(l, AddSucc(y, j))
  {
    forall A ensures Eval(l, A) >= Eval(AddSucc(y, j), A) {
      RiseBelow(l, y, A);
      AddSuccFacts(y, j, A);
    }
  }

  // ---------------------------------------------------------------- normal forms are flat

  predicate Atomic(l: Level) {
    Base(l).Zero? || IsVariable(Base(l))
  }

  /** Nested maxima of variables and zero with offsets. */
  predicate Flat(l: Level) {
    if l.Max? then Flat(l.lhs) && Flat(l.rhs) else Atomic(l)
  }

  ghost predicate AllAtomic(s: seq<Level>) {
    forall x :: x in s ==> Atomic(x)
  }

  lemma {:induction false} FlatArgs(l: Level)
    requires Flat(l)
    ensures AllAtomic(MaxArgs(l))
  {
    if l.Max? {
      FlatArgs(l.lhs);
      FlatArgs(l.rhs);
    }
  }

  lemma {:induction false} FlatFree(l: Level)
    requires Flat(l)
    ensures IMaxFree(l)
  {
    if l.Max? {
      FlatFree(l.lhs);
      FlatFree(l.rhs);
    } else {
      AtomicFree(l);
    }
  }

  lemma {:induction false} AtomicFree(l: Level)
    requires Atomic(l)
    ensures IMaxFree(l)
  {
    if l.Succ? { AtomicFree(l.pred); }
  }

  lemma {:induction false} BaseFree(l: Level)
    requires IMaxFree(l)
    ensures IMaxFree(Base(l))
  {
    if l.Succ? { BaseFree(l.pred); }
  }

  lemma {:induction false} ArgsFree(l: Level)
    requires IMaxFree(l)
    ensures forall x :: x in MaxArgs(l) ==> IMaxFree(x)
  {
    if l.Max? {
      ArgsFree(l.lhs);
      ArgsFree(l.rhs);
    }
  }

  lemma {:induction false} DedupFrom1(prev: Level, rest: seq<Level>)
    ensures forall x :: x in DedupFrom(prev, rest) ==> x == prev || x in rest
    decreases |rest|
  {
    if rest != [] {
      if Base(prev) == Base(rest[0]) {
        DedupFrom1(if Offset(prev) < Offset(rest[0]) then rest[0] else prev, rest[1..]);
      } else {
        DedupFrom1(rest[0], rest[1..]);
      }
    }
  }

  lemma {:induction false} PrunedFrom(args: seq<Level>, x: Level)
    requires args != [] && x in Prune(Sort(args))
    ensures x in args
  {
    hide StartIndex, Sort, DedupFrom;
    var s := Sort(args);
    DedupFrom1(s[StartIndex(s)], s[StartIndex(s) + 1..]);
    SortMember(args, x);
  }

  lemma {:induction false} SortMember(args: seq<Level>, x: Level)
    ensures x in Sort(args) ==> x in args
  {
    hide Sort;
    assert x in Sort(args) ==> x in multiset(Sort(args));
  }

  lemma {:induction false} FlatMax(args: seq<Level>)
    requires args != [] && AllAtomic(args)
    ensures Flat(MkMaxAll(args))
  {
    assert args[0] in args;
    if |args| > 1 { FlatMax(args[1..]); }
  }

  lemma {:induction false} FlatSucc(l: Level, k: nat)
    requires Atomic(l)
    ensures Atomic(AddSucc(l, k))
  {
    AddSuccFacts(l, k, Zeroes());
  }

  /** Offsets are pushed to the variables. */
  lemma {:induction false} NormalFlat(l: Level)
    requires IMaxFree(l)
    ensures Flat(NormalForm(l))
    decreases Size(l), 0
  {
    var r := Base(l);
    BaseFree(l);
    if r.Max? {
      MaxArgsSmaller(r);
      ArgsFree(r);
      ArgsAtomic(MaxArgs(r));
      var args := Prune(Sort(NormalArgs(MaxArgs(r))));
      forall x | x in SuccAll(args, Offset(l)) ensures Atomic(x) {
        var i :| 0 <= i < |args| && x == SuccAll(args, Offset(l))[i];
        PrunedFrom(NormalArgs(MaxArgs(r)), args[i]);
        FlatSucc(args[i], Offset(l));
      }
      FlatMax(SuccAll(args, Offset(l)));
    }
  }

  lemma {:induction false} ArgsAtomic(todo: seq<Level>)
    requires forall x :: x in todo ==> IMaxFree(x)
    ensures AllAtomic(NormalArgs(todo))
    decreases SizeSum(todo), 1 + |todo|
  {
    if todo != [] {
      NormalFlat(todo[0]);
      FlatArgs(NormalForm(todo[0]));
      ArgsAtomic(todo[1..]);
    }
  }

  // ---------------------------------------------------------------- is_geq answers its question

  /** An argument of a maximum that is at least `l2` everywhere. */
  lemma {:induction false} OneSideGeq(l1: Level, l2: Level)
    requires IMaxFree(l1) && l1.Max? && Atomic(l2) && AlwaysGeq(l1, l2)
    ensures AlwaysGeq(l1.lhs, l2) || AlwaysGeq(l1.rhs, l2)
  {
    var y, j := Base(l2), Offset(l2);
    OffsetFacts(l2, Zeroes());
    if y.Zero? {
      assert Eval(l1, Zeroes()) >= Eval(l2, Zeroes());
      var a := if Eval(l1.lhs, Zeroes()) >= Eval(l1.rhs, Zeroes()) then l1.lhs else l1.rhs;
      forall A ensures Eval(a, A) >= Eval(l2, A) {
        EvalLeast(a, A);
        OffsetFacts(l2, A);
      }
    } else {
      RiseFromGeq(l1, y, j);
      if Rise(l1.lhs, y) >= j { GeqFromRise(l1.lhs, y, j); } else { GeqFromRise(l1.rhs, y, j); }
    }
  }

  /** Between variables with offsets only the offsets matter. */
  lemma {:induction false} AtomicGeq(l1: Level, l2: Level)
    requires Atomic(l1) && Atomic(l2) && AlwaysGeq(l1, l2)
    ensures Offset(l1) >= Offset(l2) && (Base(l1) == Base(l2) || Base(l2).Zero?)
  {
    assert Eval(l1, Zeroes()) >= Eval(l2, Zeroes());
    OffsetFacts(l1, Zeroes());
    OffsetFacts(l2, Zeroes());
    if IsVariable(Base(l2)) {
      AtomicFree(l1);
      RiseFromGeq(l1, Base(l2), Offset(l2));
      AtomicRise(l1, Base(l2));
    }
  }

  lemma {:induction false} AtomicRise(l: Level, y: Level)
    requires Atomic(l) && IsVariable(y)
    ensures Rise(l, y) == if Base(l) == y then Offset(l) else -1
  {
    if l.Succ? { AtomicRise(l.pred, y); }
  }

  lemma {:induction false} CoreComplete(l1: Level, l2: Level)
    requires Flat(l1) && Flat(l2) && AlwaysGeq(l1, l2)
    ensures IsGeqCore(l1, l2)
    decreases Nodes(l1) + Nodes(l2), Offset(l1) + Offset(l2), 0
  {
    FlatFree(l1);
    FlatFree(l2);
    if l1 == l2 || l2.Zero? {
    } else if l2.Max? {
      forall A ensures Eval(l1, A) >= Eval(l2.lhs, A) && Eval(l1, A) >= Eval(l2.rhs, A) {
        assert Eval(l1, A) >= Eval(l2, A);
      }
      IsGeqComplete(l1, l2.lhs);
      IsGeqComplete(l1, l2.rhs);
    } else if l1.Max? {
      OneSideGeq(l1, l2);
      if AlwaysGeq(l1.lhs, l2) { IsGeqComplete(l1.lhs, l2); } else { IsGeqComplete(l1.rhs, l2); }
    } else {
      AtomicGeq(l1, l2);
      assert !l1.IMax? && !l2.IMax?;
    }
  }

  lemma {:induction false} IsGeqComplete(l1: Level, l2: Level)
    requires IMaxFree(l1) && IMaxFree(l2) && AlwaysGeq(l1, l2)
    ensures IsGeq(l1, l2)
    decreases Nodes(l1) + Nodes(l2), Offset(l1) + Offset(l2), 1
  {
    NormalFormNodes(l1);
    NormalFormNodes(l2);
    NormalFlat(l1);
    NormalFlat(l2);
    forall A ensures Eval(NormalForm(l1), A) >= Eval(NormalForm(l2), A) {
      assert Eval(l1, A) >= Eval(l2, A);
      NormalFormMeaning(l1, A);
      NormalFormMeaning(l2, A);
    }
    CoreComplete(NormalForm(l1), NormalForm(l2));
  }

  /** Without `imax` the order test is right both ways. */
  lemma {:induction false} IsGeqExact(l1: Level, l2: Level)
    requires IMaxFree(l1) && IMaxFree(l2)
    ensures IsGeq(l1, l2) <==> AlwaysGeq(l1, l2)
  {
    if IsGeq(l1, l2) {
      forall A ensures Eval(l1, A) >= Eval(l2, A) { IsGeqSound(l1, l2, A); }
    } else if AlwaysGeq(l1, l2) {
      IsGeqComplete(l1, l2);
    }
  }

  /** With `imax` it may miss some: a successor is above what it is the successor of. */
  lemma {:induction false} IMaxIncomplete(u: Name, v: Name)
    requires u != v
    ensures var l := IMax(Param(u), Param(v)); AlwaysGeq(Succ(l), l) && !IsGeq(Succ(l), l)
  {
    var l := IMax(Param(u), Param(v));
    assert NormalForm(l) == l && NormalForm(Succ(l)) == Succ(l) by {
      assert NormalForm(Param(u)) == Param(u) && NormalForm(Param(v)) == Param(v);
      assert AddSucc(l, 0) == l && AddSucc(l, 1) == Succ(l);
    }
    assert !IsGeq(Succ(l), Param(u)) by {
      assert NormalForm(Param(u)) == Param(u);
      assert !IsGeqCore(Succ(l), Param(u));
    }
  }

  // ---------------------------------------------------------------- normal forms are canonical

  ghost predicate Chain(s: seq<Level>) {
    forall i, j :: 0 <= i < j < |s| ==> IsNormLt(Base(s[i]), Base(s[j]))
  }

  /** One argument for each base, in order; a number comes first and only above all offsets. */
  ghost predicate Canonical(s: seq<Level>) {
    && s != [] && AllAtomic(s) && Chain(s)
    && (Base(s[0]).Zero? ==> forall i :: 0 < i < |s| ==> Offset(s[i]) < Offset(s[0]))
  }

  /** The arguments of the normal form. */
  function NormalList(l: Level): (s: seq<Level>)
    ensures s != [] && (IMaxFree(l) ==> MkMaxAll(s) == NormalForm(l))
  {
    if Base(l).Max? then SuccAll(Prune(Sort(NormalArgs(MaxArgs(Base(l))))), Offset(l))
    else if IMaxFree(l) then BaseFree(l); [l]
    else [l]
  }

  lemma {:induction false} BaseOrder(a: Level, b: Level)
    requires Atomic(a) && Atomic(b) && Base(a) != Base(b)
    ensures IsNormLt(a, b) <==> IsNormLt(Base(a), Base(b))
  {
    BaseBase(a);
    BaseBase(b);
  }

  lemma {:induction false} BaseBase(l: Level)
    ensures Base(Base(l)) == Base(l) && Offset(Base(l)) == 0
  {
  }

  /** Arguments in order, one for each base after duplicates are dropped. */
  lemma {:induction false} DedupChain(prev: Level, rest: seq<Level>)
    requires AllAtomic([prev] + rest) && Sorted([prev] + rest)
    ensures Chain(DedupFrom(prev, rest)) && Base(DedupFrom(prev, rest)[0]) == Base(prev)
    decreases |rest|
  {
    var all := [prev] + rest;
    if rest != [] {
      assert all[1] == rest[0] && all[1..] == [rest[0]] + rest[1..];
      if Base(prev) == Base(rest[0]) {
        var p := if Offset(prev) < Offset(rest[0]) then rest[0] else prev;
        SkipSecond(all, p);
        DedupChain(p, rest[1..]);
      } else {
        assert Sorted([rest[0]] + rest[1..]) by { SuffixSorted(all); }
        DedupChain(rest[0], rest[1..]);
        assert !IsNormLt(all[1], all[0]);
        NormLtConnected(prev, rest[0]);
        BaseOrder(prev, rest[0]);
        ChainCons(prev, DedupFrom(rest[0], rest[1..]));
      }
    }
  }

  lemma {:induction false} SuffixSorted(all: seq<Level>)
    requires |all| > 0 && Sorted(all)
    ensures Sorted(all[1..])
  {
    forall i, j | 0 <= i < j < |all| - 1 ensures !IsNormLt(all[1..][j], all[1..][i]) {
      assert !IsNormLt(all[j + 1], all[i + 1]);
    }
  }

  lemma {:induction false} SkipSecond(all: seq<Level>, p: Level)
    requires |all| >= 2 && AllAtomic(all) && Sorted(all) && (p == all[0] || p == all[1])
    ensures AllAtomic([p] + all[2..]) && Sorted([p] + all[2..])
  {
    var r := [p] + all[2..];
    forall i, j | 0 <= i < j < |r| ensures !IsNormLt(r[j], r[i]) {
      var k := if i > 0 then i + 1 else if p == all[0] then 0 else 1;
      assert r[i] == all[k] && r[j] == all[j + 1];
    }
  }

  lemma {:induction false} ChainCons(x: Level, s: seq<Level>)
    requires s != [] && Chain(s) && IsNormLt(Base(x), Base(s[0]))
    ensures Chain([x] + s)
  {
    var r := [x] + s;
    forall i, j | 0 <= i < j < |r| ensures IsNormLt(Base(r[i]), Base(r[j])) {
      assert r[j] == s[j - 1];
      if i == 0 && j > 1 {
        assert IsNormLt(Base(s[0]), Base(s[j - 1]));
        NormLtTransitive(Base(x), Base(s[0]), Base(s[j - 1]));
      }
    }
  }

  lemma {:induction false} PruneCanonical(s: seq<Level>)
    requires s != [] && Sorted(s) && AllAtomic(s)
    ensures Canonical(Prune(s))
  {
    hide IsNormLt;
    var i := StartIndex(s);
    var tail := s[i..];
    assert tail == [s[i]] + s[i + 1..];
    forall a, b | 0 <= a < b < |tail| ensures !IsNormLt(tail[b], tail[a]) { assert !IsNormLt(s[i + b], s[i + a]); }
    forall x | x in tail ensures Atomic(x) { assert x in s; }
    DedupChain(s[i], s[i + 1..]);
    DedupFrom1(s[i], s[i + 1..]);
    var r := Prune(s);
    forall x | x in r ensures Atomic(x) { assert x in tail; }
    if Base(r[0]).Zero? { OffsetsBelow(s); }
  }

  /** Pruning starts at a number only when that is above all offsets behind it. */
  lemma {:induction false} StartsAbove(s: seq<Level>)
    requires s != [] && Base(s[StartIndex(s)]).Zero?
    ensures forall j :: StartIndex(s) < j < |s| ==> Offset(s[j]) < Offset(s[StartIndex(s)]) && !Base(s[StartIndex(s) + 1]).Zero?
  {
    var n, i := LeadingExplicit(s), StartIndex(s);
    OffsetFacts(s[i], Zeroes());
    if n < |s| { OffsetFacts(s[n], Zeroes()); }
  }

  lemma {:induction false} DedupBelow(x: Level, rest: seq<Level>)
    requires rest != [] && Base(x) != Base(rest[0]) && forall j :: 0 <= j < |rest| ==> Offset(rest[j]) < Offset(x)
    ensures forall k :: 0 < k < |DedupFrom(x, rest)| ==> Offset(DedupFrom(x, rest)[k]) < Offset(x)
    ensures DedupFrom(x, rest)[0] == x
  {
    var r := DedupFrom(rest[0], rest[1..]);
    DedupFrom1(rest[0], rest[1..]);
    forall k | 0 < k < |DedupFrom(x, rest)| ensures Offset(DedupFrom(x, rest)[k]) < Offset(x) { assert r[k - 1] in r; }
  }

  /** A number stays only above all offsets. */
  lemma {:induction false} OffsetsBelow(s: seq<Level>)
    requires s != [] && Base(s[StartIndex(s)]).Zero?
    ensures forall i :: 0 < i < |Prune(s)| ==> Offset(Prune(s)[i]) < Offset(Prune(s)[0])
  {
    hide DedupFrom, StartIndex;
    var i := StartIndex(s);
    StartsAbove(s);
    if i + 1 < |s| { DedupBelow(s[i], s[i + 1..]); }
  }

  lemma {:induction false} SuccCanonical(s: seq<Level>, k: nat)
    requires Canonical(s)
    ensures Canonical(SuccAll(s, k))
  {
    hide IsNormLt;
    var r := SuccAll(s, k);
    forall i | 0 <= i < |s| ensures Base(r[i]) == Base(s[i]) && Offset(r[i]) == Offset(s[i]) + k { AddSuccFacts(s[i], k, Zeroes()); }
    forall x | x in r ensures Atomic(x) {
      var i :| 0 <= i < |r| && r[i] == x;
      assert s[i] in s;
    }
  }

  lemma {:induction false} NormalListCanonical(l: Level)
    requires IMaxFree(l)
    ensures Canonical(NormalList(l))
  {
    BaseFree(l);
    var r := Base(l);
    if r.Max? {
      ArgsFree(r);
      ArgsAtomic(MaxArgs(r));
      var args := NormalArgs(MaxArgs(r));
      SortSorted(args);
      forall x | x in Sort(args) ensures Atomic(x) { SortMember(args, x); }
      PruneCanonical(Sort(args));
      SuccCanonical(Prune(Sort(args)), Offset(l));
    }
  }

  // ---------------------------------------------------------------- canonical lists are unique

  function MaxOf(s: seq<Level>): Level
    requires s != []
  {
    if |s| == 1 then s[0] else Max(s[0], MaxOf(s[1..]))
  }

  lemma {:induction false} MaxOfFacts(s: seq<Level>)
    requires s != [] && AllAtomic(s)
    ensures IMaxFree(MaxOf(s)) && forall A :: Eval(MaxOf(s), A) == EvalAll(s, A)
  {
    assert s[0] in s;
    AtomicFree(s[0]);
    if |s| > 1 { MaxOfFacts(s[1..]); } else { assert s[1..] == []; }
  }

  /** The variable with the largest offset is one of the arguments. */
  lemma {:induction false} RiseInList(s: seq<Level>, y: Level)
    requires s != [] && AllAtomic(s) && IsVariable(y) && Rise(MaxOf(s), y) >= 0
    ensures exists x :: x in s && Base(x) == y && Offset(x) == Rise(MaxOf(s), y)
  {
    assert s[0] in s;
    AtomicRise(s[0], y);
    if |s| > 1 && Rise(MaxOf(s[1..]), y) > Rise(s[0], y) {
      RiseInList(s[1..], y);
      var x :| x in s[1..] && Base(x) == y && Offset(x) == Rise(MaxOf(s[1..]), y);
      assert x in s;
    }
  }

  ghost predicate SameValue(s: seq<Level>, t: seq<Level>) {
    forall A :: EvalAll(s, A) == EvalAll(t, A)
  }

  /** A variable with an offset occurs in both, with an offset at least as large. */
  lemma {:induction false} VariableFound(s: seq<Level>, t: seq<Level>, x: Level) returns (z: Level)
    requires t != [] && AllAtomic(t) && SameValue(s, t) && x in s && IsVariable(Base(x))
    ensures z in t && Base(z) == Base(x) && Offset(z) >= Offset(x)
  {
    var y, j := Base(x), Offset(x);
    MaxOfFacts(t);
    forall A ensures Eval(MaxOf(t), A) >= Eval(AddSucc(y, j), A) {
      EvalAllBound(s, A);
      assert EvalAll(s, A) == EvalAll(t, A);
      OffsetFacts(x, A);
    }
    RiseFromGeq(MaxOf(t), y, j);
    RiseInList(t, y);
    z :| z in t && Base(z) == y && Offset(z) == Rise(MaxOf(t), y);
  }

  lemma {:induction false} OneForBase(s: seq<Level>, x: Level, z: Level)
    requires Chain(s) && x in s && z in s && Base(x) == Base(z)
    ensures x == z
  {
    var i :| 0 <= i < |s| && s[i] == x;
    var j :| 0 <= j < |s| && s[j] == z;
    if i < j { NormLtAsymmetric(Base(x), Base(z)); } else if j < i { NormLtAsymmetric(Base(z), Base(x)); }
  }

  lemma {:induction false} VariableShared(s: seq<Level>, t: seq<Level>, x: Level)
    requires Canonical(s) && Canonical(t) && SameValue(s, t) && x in s && IsVariable(Base(x))
    ensures x in t
  {
    hide IsNormLt;
    var z := VariableFound(s, t, x);
    var w := VariableFound(t, s, z);
    OneForBase(s, x, w);
    BaseOffsetInjective(x, z);
  }

  lemma {:induction false} NumberShared(s: seq<Level>, t: seq<Level>, x: Level)
    requires Canonical(s) && Canonical(t) && SameValue(s, t) && x in s && Base(x).Zero?
    ensures x in t
  {
    hide IsNormLt, EvalAll, Chain;
    assert x == s[0] by { ZeroFirst(s, x); }
    forall i | 0 <= i < |s| ensures Eval(s[i], Zeroes()) == Offset(s[i]) <= Offset(x) { assert s[i] in s; OffsetFacts(s[i], Zeroes()); }
    EvalAllBound(s, Zeroes());
    EvalAllBound(t, Zeroes());
    assert EvalAll(s, Zeroes()) == EvalAll(t, Zeroes());
    var k :| 0 <= k < |t| && Eval(t[k], Zeroes()) == EvalAll(t, Zeroes());
    OffsetFacts(t[k], Zeroes());
    assert t[k] in t;
    if IsVariable(Base(t[k])) {
      SameValueSymm(s, t);
      VariableShared(t, s, t[k]);
      VariableBelow(s, t[k]);
    } else {
      BaseOffsetInjective(x, t[k]);
    }
  }

  lemma {:induction false} VariableBelow(s: seq<Level>, x: Level)
    requires Canonical(s) && Base(s[0]).Zero? && x in s && !Base(x).Zero?
    ensures Offset(x) < Offset(s[0])
  {
  }

  lemma {:induction false} SameValueSymm(s: seq<Level>, t: seq<Level>)
    requires SameValue(s, t)
    ensures SameValue(t, s)
  {
  }

  lemma {:induction false} ZeroFirst(s: seq<Level>, x: Level)
    requires s != [] && Chain(s) && x in s && Base(x).Zero?
    ensures x == s[0]
  {
    forall i | 0 < i < |s| ensures !Base(s[i]).Zero? { assert IsNormLt(Base(s[0]), Base(s[i])); }
  }

  lemma {:induction false} ChainOnce(s: seq<Level>, x: Level)
    requires Chain(s)
    ensures multiset(s)[x] == if x in s then 1 else 0
  {
    if s != [] {
      assert s == [s[0]] + s[1..];
      forall i, j | 0 <= i < j < |s| - 1 ensures IsNormLt(Base(s[1..][i]), Base(s[1..][j])) { assert IsNormLt(Base(s[i + 1]), Base(s[j + 1])); }
      ChainOnce(s[1..], x);
      forall i | 0 <= i < |s| - 1 ensures s[1..][i] != s[0] { assert IsNormLt(Base(s[0]), Base(s[i + 1])); }
    }
  }

  lemma {:induction false} ChainSorted(s: seq<Level>)
    requires Chain(s) && AllAtomic(s)
    ensures Sorted(s)
  {
    forall i, j | 0 <= i < j < |s| ensures !IsNormLt(s[j], s[i]) {
      assert s[i] in s && s[j] in s && IsNormLt(Base(s[i]), Base(s[j]));
      NormLtAsymmetric(Base(s[i]), Base(s[j]));
      BaseOrder(s[j], s[i]);
    }
  }

  lemma {:induction false} CanonicalUnique(s: seq<Level>, t: seq<Level>)
    requires Canonical(s) && Canonical(t) && SameValue(s, t)
    ensures s == t
  {
    hide IsNormLt, SameValue;
    SameValueSymm(s, t);
    forall x ensures multiset(s)[x] == multiset(t)[x] {
      ChainOnce(s, x);
      ChainOnce(t, x);
      if x in s { if IsVariable(Base(x)) { VariableShared(s, t, x); } else { NumberShared(s, t, x); } }
      if x in t { if IsVariable(Base(x)) { VariableShared(t, s, x); } else { NumberShared(t, s, x); } }
    }
    ChainSorted(s);
    ChainSorted(t);
    SortUnique(s, t);
  }

  /** Without `imax` levels are reported equivalent exactly when they have the same value under
      every assignment. */
  lemma {:induction false} IsEquivalentExact(l1: Level, l2: Level)
    requires IMaxFree(l1) && IMaxFree(l2)
    ensures IsEquivalent(l1, l2) <==> SameMeaning(l1, l2)
  {
    if IsEquivalent(l1, l2) {
      IsEquivalentSound(l1, l2);
    } else if SameMeaning(l1, l2) {
      NormalListCanonical(l1);
      NormalListCanonical(l2);
      forall A ensures EvalAll(NormalList(l1), A) == EvalAll(NormalList(l2), A) {
        NormalListMeaning(l1, A);
        NormalListMeaning(l2, A);
      }
      CanonicalUnique(NormalList(l1), NormalList(l2));
    }
  }

  lemma {:induction false} NormalListMeaning(l: Level, A: Assignment)
    requires IMaxFree(l)
    ensures EvalAll(NormalList(l), A) == Eval(l, A)
  {
    EvalMkMaxAll(NormalList(l), A);
    NormalFormMeaning(l, A);
  }
}
