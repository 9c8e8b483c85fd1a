/** The level normaliser and the tests built on it (kernel/level.cpp, lines 405-529). */
module LevelNormalizer {
  import opened Levels

  // ---------------------------------------------------------------- arguments of nested max

  function SizeSum(s: seq<Level>): nat {
    if s == [] then 0 else Size(s[0]) + SizeSum(s[1..])
  }

  /** The value of `max` over a list; 0 for the empty list. */
  function EvalAll(s: seq<Level>, A: Assignment): nat {
    if s == [] then 0 else MaxNat(Eval(s[0], A), EvalAll(s[1..], A))
  }

  /** The arguments of nested `max`, left to right. */
  function MaxArgs(l: Level): (s: seq<Level>)
    ensures |s| >= 1
    ensures l.Max? ==> |s| >= 2
  {
    if l.Max? then MaxArgs(l.lhs) + MaxArgs(l.rhs) else [l]
  }

  lemma {:induction false} SizeSumConcat(s: seq<Level>, t: seq<Level>)
    ensures SizeSum(s + t) == SizeSum(s) + SizeSum(t)
  {
    if s == [] { assert s + t == t; } else {
      SizeSumConcat(s[1..], t);
      assert (s + t)[1..] == s[1..] + t;
    }
  }

  lemma {:induction false} EvalAllConcat(s: seq<Level>, t: seq<Level>, A: Assignment)
    ensures EvalAll(s + t, A) == MaxNat(EvalAll(s, A), EvalAll(t, A))
  {
    if s == [] { assert s + t == t; } else {
      EvalAllConcat(s[1..], t, A);
      assert (s + t)[1..] == s[1..] + t;
    }
  }

  lemma {:induction false} MaxArgsSmaller(l: Level)
    ensures SizeSum(MaxArgs(l)) <= Size(l)
    ensures l.Max? ==> SizeSum(MaxArgs(l)) < Size(l)
  {
    if l.Max? {
      MaxArgsSmaller(l.lhs);
      MaxArgsSmaller(l.rhs);
      SizeSumConcat(MaxArgs(l.lhs), MaxArgs(l.rhs));
    }
  }

  lemma {:induction false} EvalMaxArgs(l: Level, A: Assignment)
    ensures EvalAll(MaxArgs(l), A) == Eval(l, A)
  {
    if l.Max? {
      EvalMaxArgs(l.lhs, A);
      EvalMaxArgs(l.rhs, A);
      EvalAllConcat(MaxArgs(l.lhs), MaxArgs(l.rhs), A);
    }
  }

  lemma {:induction false} EvalAllBound(s: seq<Level>, A: Assignment)
    ensures forall i :: 0 <= i < |s| ==> Eval(s[i], A) <= EvalAll(s, A)
    ensures s != [] ==> exists i :: 0 <= i < |s| && Eval(s[i], A) == EvalAll(s, A)
  {
    if s != [] {
      EvalAllBound(s[1..], A);
      assert forall i :: 1 <= i < |s| ==> s[i] == s[1..][i - 1];
      if EvalAll(s[1..], A) > Eval(s[0], A) {
        var i :| 0 <= i < |s[1..]| && Eval(s[1..][i], A) == EvalAll(s[1..], A);
        assert Eval(s[i + 1], A) == EvalAll(s, A);
      } else {
        assert Eval(s[0], A) == EvalAll(s, A);
      }
    }
  }

  /** The value only depends on the multiset of arguments, so sorting them is harmless. */
  lemma {:induction false} EvalAllPermutation(s: seq<Level>, t: seq<Level>, A: Assignment)
    requires multiset(s) == multiset(t)
    ensures EvalAll(s, A) == EvalAll(t, A)
  {
    EvalAllBound(s, A);
    EvalAllBound(t, A);
    assert |s| == |multiset(s)| == |t|;
    if s != [] {
      var i :| 0 <= i < |s| && Eval(s[i], A) == EvalAll(s, A);
      var j :| 0 <= j < |t| && Eval(t[j], A) == EvalAll(t, A);
      assert s[i] in multiset(t) && t[j] in multiset(s);
      var i' :| 0 <= i' < |t| && t[i'] == s[i];
      var j' :| 0 <= j' < |s| && s[j'] == t[j];
    }
  }

  // ---------------------------------------------------------------- sorting

  ghost predicate Sorted(s: seq<Level>) {
    forall i, j :: 0 <= i < j < |s| ==> !IsNormLt(s[j], s[i])
  }

  function Insert(x: Level, s: seq<Level>): (r: seq<Level>)
    ensures multiset(r) == multiset(s) + multiset{x}
    ensures |r| == |s| + 1
  {
    if s == [] || !IsNormLt(s[0], x) then
      assert multiset([x] + s) == multiset(s) + multiset{x};
      [x] + s
    else
      assert s == [s[0]] + s[1..];
      [s[0]] + Insert(x, s[1..])
  }

  /** A sorted permutation of the arguments; `SortUnique` shows there is only one. */
  function Sort(s: seq<Level>): (r: seq<Level>)
    ensures multiset(r) == multiset(s)
    ensures |r| == |s|
  {
    if s == [] then [] else
      assert s == [s[0]] + s[1..];
      Insert(s[0], Sort(s[1..]))
  }

  lemma {:induction false} NormLeTransitive(a: Level, b: Level, c: Level)
    requires !IsNormLt(b, a) && !IsNormLt(c, b)
    ensures !IsNormLt(c, a)
  {
    NormLtConnected(a, b);
    if IsNormLt(c, a) && IsNormLt(a, b) { NormLtTransitive(c, a, b); }
  }

  lemma {:induction false} SortedCons(h: Level, t: seq<Level>)
    requires Sorted(t) && forall y :: y in t ==> !IsNormLt(y, h)
    ensures Sorted([h] + t)
  {
    var r := [h] + t;
    forall i, j | 0 <= i < j < |r| ensures !IsNormLt(r[j], r[i]) {
      assert r[j] == t[j - 1];
      if i > 0 { assert r[i] == t[i - 1]; }
    }
  }

  lemma {:induction false} InsertSorted(x: Level, s: seq<Level>)
    requires Sorted(s)
    ensures Sorted(Insert(x, s))
  {
    if s == [] {
    } else if !IsNormLt(s[0], x) {
      forall y | y in s ensures !IsNormLt(y, x) {
        var k :| 0 <= k < |s| && s[k] == y;
        if k > 0 { NormLeTransitive(x, s[0], y); }
      }
      SortedCons(x, s);
    } else {
      InsertSorted(x, s[1..]);
      forall y | y in Insert(x, s[1..]) ensures !IsNormLt(y, s[0]) {
        assert y in multiset(Insert(x, s[1..]));
        if y == x {
          NormLtAsymmetric(s[0], x);
        } else {
          assert y in multiset(s[1..]);
          var k :| 0 <= k < |s[1..]| && s[1..][k] == y;
          assert s[k + 1] == y;
        }
      }
      SortedCons(s[0], Insert(x, s[1..]));
    }
  }

  lemma {:induction false} SortSorted(s: seq<Level>)
    ensures Sorted(Sort(s))
  {
    if s != [] {
      SortSorted(s[1..]);
      InsertSorted(s[0], Sort(s[1..]));
    }
  }

  lemma {:induction false} SortedHeadUnique(s: seq<Level>, t: seq<Level>)
    requires s != [] && Sorted(s) && Sorted(t) && multiset(s) == multiset(t)
    ensures t != [] && s[0] == t[0]
  {
    assert |t| == |multiset(s)| == |s|;
    assert s[0] in multiset(t) && t[0] in multiset(s);
    var i :| 0 <= i < |t| && t[i] == s[0];
    var j :| 0 <= j < |s| && s[j] == t[0];
    NormLtConnected(s[0], t[0]);
  }

  /** Because `is_norm_lt` is a total order, whatever `std::sort` returns is `Sort(s)`. */
  lemma {:induction false} SortUnique(s: seq<Level>, t: seq<Level>)
    requires Sorted(s) && Sorted(t) && multiset(s) == multiset(t)
    ensures s == t
  {
    assert |s| == |multiset(s)| == |t|;
    if s != [] {
      SortedHeadUnique(s, t);
      assert s == [s[0]] + s[1..] && t == [s[0]] + t[1..];
      assert multiset(s[1..]) == multiset(s) - multiset{s[0]};
      assert multiset(t[1..]) == multiset(s) - multiset{s[0]};
      assert Sorted(s[1..]) && Sorted(t[1..]);
      SortUnique(s[1..], t[1..]);
    }
  }

  // ---------------------------------------------------------------- the normaliser

  /** How many leading arguments are explicit levels. */
  function LeadingExplicit(args: seq<Level>): (n: nat)
    ensures n <= |args|
    ensures forall i :: 0 <= i < n ==> IsExplicit(args[i])
    ensures n < |args| ==> !IsExplicit(args[n])
  {
    if args == [] || !IsExplicit(args[0]) then 0 else 1 + LeadingExplicit(args[1..])
  }

  /** Where pruning starts: at the largest explicit level, or after it when some later
      argument has at least its offset. */
  function StartIndex(args: seq<Level>): (i: nat)
    requires args != []
    ensures i < |args|
  {
    var n := LeadingExplicit(args);
    if n == 0 then 0
    else if exists j :: n <= j < |args| && Offset(args[j]) >= Offset(args[n - 1]) then n
    else n - 1
  }

  /** Of consecutive arguments with one base, keep one with the largest offset. */
  function DedupFrom(prev: Level, rest: seq<Level>): (r: seq<Level>)
    ensures 1 <= |r| <= 1 + |rest|
    decreases |rest|
  {
    if rest == [] then [prev]
    else if Base(prev) == Base(rest[0]) then
      DedupFrom(if Offset(prev) < Offset(rest[0]) then rest[0] else prev, rest[1..])
    else [prev] + DedupFrom(rest[0], rest[1..])
  }

  function Prune(args: seq<Level>): (r: seq<Level>)
    requires args != []
    ensures 1 <= |r| <= |args|
  {
    var i := StartIndex(args);
    DedupFrom(args[i], args[i + 1..])
  }

  function SuccAll(s: seq<Level>, k: nat): (r: seq<Level>)
    ensures |r| == |s|
  {
    seq(|s|, i requires 0 <= i < |s| => AddSucc(s[i], k))
  }

  function MkMaxAll(args: seq<Level>): Level
    requires args != []
  {
    if |args| == 1 then args[0] else MkMax(args[0], MkMaxAll(args[1..]))
  }

  /** What `normalize` returns. */
  function NormalForm(l: Level): Level
    decreases Size(l), 0
  {
    var r := Base(l);
    match r
    case IMax(a, b) => AddSucc(MkIMax(NormalForm(a), NormalForm(b)), Offset(l))
    case Max(_, _) =>
      MaxArgsSmaller(r);
      var args := NormalArgs(MaxArgs(r));
      MkMaxAll(SuccAll(Prune(Sort(args)), Offset(l)))
    case _ => l
  }

  /** The flattened arguments of the normal forms of `todo`. */
  function NormalArgs(todo: seq<Level>): (r: seq<Level>)
    ensures |r| >= |todo|
    decreases SizeSum(todo), 1 + |todo|
  {
    if todo == [] then []
    else MaxArgs(NormalForm(todo[0])) + NormalArgs(todo[1..])
  }

  method PushMaxArgs(l: Level, buf: seq<Level>) returns (r: seq<Level>)
    ensures r == buf + MaxArgs(l)
    decreases l
  {
    if l.Max? {
      r := PushMaxArgs(l.lhs, buf);
      r := PushMaxArgs(l.rhs, r);
    } else {
      r := buf + [l];
    }
  }

  method MkMaxBuffer(args: seq<Level>) returns (r: Level)
    requires args != []
    ensures r == MkMaxAll(args)
  {
    var nargs := |args|;
    if nargs == 1 {
      return args[0];
    }
    r := MkMax(args[nargs - 2], args[nargs - 1]);
    var i := nargs - 2;
    while i > 0
      invariant 0 <= i <= nargs - 2
      invariant r == MkMaxAll(args[i..])
    {
      i := i - 1;
      r := MkMax(args[i], r);
    }
    assert args[0..] == args;
  }

  method FindStart(args: seq<Level>) returns (i: nat)
    requires args != []
    ensures i == StartIndex(args)
  {
    i := 0;
    if IsExplicit(args[i]) {
      while i + 1 < |args| && IsExplicit(args[i + 1])
        invariant i < |args| && IsExplicit(args[i])
        invariant LeadingExplicit(args) == i + LeadingExplicit(args[i..])
      {
        i := i + 1;
      }
      assert LeadingExplicit(args) == i + 1;
      var _, k := ToOffset(args[i]);
      var j := i + 1;
      while j < |args|
        invariant i < j <= |args|
        invariant forall m :: i < m < j ==> Offset(args[m]) < k
      {
        var _, kj := ToOffset(args[j]);
        if kj >= k {
          break;
        }
        j := j + 1;
      }
      if j < |args| {
        i := i + 1;
      }
    }
  }

  method Dedup(args: seq<Level>, start: nat) returns (rargs: seq<Level>)
    requires start < |args|
    ensures rargs == DedupFrom(args[start], args[start + 1..])
  {
    var i := start;
    rargs := [args[i]];
    var prevBase, prevOffset := ToOffset(args[i]);
    i := i + 1;
    while i < |args|
      invariant start < i <= |args| && rargs != []
      invariant prevBase == Base(rargs[|rargs| - 1]) && prevOffset == Offset(rargs[|rargs| - 1])
      invariant rargs[..|rargs| - 1] + DedupFrom(rargs[|rargs| - 1], args[i..])
             == DedupFrom(args[start], args[start + 1..])
      decreases |args| - i
    {
      var currBase, currOffset := ToOffset(args[i]);
      assert args[i..][1..] == args[i + 1..];
      if prevBase == currBase {
        if prevOffset < currOffset {
          prevBase, prevOffset := currBase, currOffset;
          rargs := rargs[..|rargs| - 1];
          rargs := rargs + [args[i]];
        }
      } else {
        prevBase, prevOffset := currBase, currOffset;
        assert rargs[..|rargs| - 1] + ([rargs[|rargs| - 1]] + DedupFrom(args[i], args[i + 1..]))
            == rargs + DedupFrom(args[i], args[i + 1..]);
        rargs := rargs + [args[i]];
      }
      i := i + 1;
    }
  }

  lemma {:induction false} SizeSumBound(s: seq<Level>, i: nat)
    requires i < |s|
    ensures Size(s[i]) <= SizeSum(s)
  {
    if i > 0 { SizeSumBound(s[1..], i - 1); }
  }

  /** `std::sort` with `is_norm_lt`: some sorted permutation. */
  method SortArgs(args: seq<Level>) returns (r: seq<Level>)
    ensures Sorted(r) && multiset(r) == multiset(args)
  {
    r := Sort(args);
    SortSorted(args);
  }

  method AddOffset(args: seq<Level>, k: nat) returns (r: seq<Level>)
    ensures r == SuccAll(args, k)
  {
    r := args;
    for m := 0 to |r|
      invariant |r| == |args|
      invariant forall n :: 0 <= n < m ==> r[n] == AddSucc(args[n], k)
      invariant forall n :: m <= n < |r| ==> r[n] == args[n]
    {
      var a := MkSuccTimes(r[m], k);
      r := r[m := a];
    }
  }

  lemma {:induction false} NormalArgsStep(todo: seq<Level>, t: nat, done: seq<Level>)
    requires t < |todo|
    ensures done + NormalArgs(todo[t..]) == done + MaxArgs(NormalForm(todo[t])) + NormalArgs(todo[t + 1..])
  {
    assert todo[t..][0] == todo[t] && todo[t..][1..] == todo[t + 1..];
  }

  method NormalizeArgs(todo: seq<Level>) returns (args: seq<Level>)
    ensures args == NormalArgs(todo)
    decreases SizeSum(todo), 1
  {
    args := [];
    for t := 0 to |todo|
      invariant args + NormalArgs(todo[t..]) == NormalArgs(todo)
    {
      SizeSumBound(todo, t);
      var a := Normalize(todo[t]);
      NormalArgsStep(todo, t, args);
      args := PushMaxArgs(a, args);
    }
  }

  method Normalize(l: Level) returns (res: Level)
    ensures res == NormalForm(l)
    decreases Size(l), 0
  {
    var r, k := ToOffset(l);
    match r
    case IMax(a, b) =>
      var l1 := Normalize(a);
      var l2 := Normalize(b);
      res := MkSuccTimes(MkIMax(l1, l2), k);
    case Max(_, _) =>
      var todo := PushMaxArgs(r, []);
      assert todo == MaxArgs(r);
      MaxArgsSmaller(r);
      var args := NormalizeArgs(todo);
      res := NormalizeMax(args, k);
    case _ =>
      res := l;
  }

  /** The part of `normalize` from the sort on. */
  method NormalizeMax(args: seq<Level>, k: nat) returns (res: Level)
    requires args != []
    ensures res == MkMaxAll(SuccAll(Prune(Sort(args)), k))
  {
    var sorted := SortArgs(args);
    SortSorted(args);
    SortUnique(sorted, Sort(args));
    var i := FindStart(sorted);
    var rargs := Dedup(sorted, i);
    rargs := AddOffset(rargs, k);
    res := MkMaxBuffer(rargs);
  }

  // ---------------------------------------------------------------- normalize preserves meaning

  lemma {:induction false} EvalSuccAll(s: seq<Level>, k: nat, A: Assignment)
    requires s != []
    ensures EvalAll(SuccAll(s, k), A) == EvalAll(s, A) + k
  {
    AddSuccFacts(s[0], k, A);
    assert SuccAll(s, k)[1..] == SuccAll(s[1..], k);
    if |s| > 1 { EvalSuccAll(s[1..], k, A); }
  }

  lemma {:induction false} EvalMkMaxAll(args: seq<Level>, A: Assignment)
    requires args != []
    ensures Eval(MkMaxAll(args), A) == EvalAll(args, A)
  {
    if |args| > 1 {
      EvalMkMaxAll(args[1..], A);
      EvalMkMax(args[0], MkMaxAll(args[1..]), A);
    }
  }

  lemma {:induction false} EvalDedup(prev: Level, rest: seq<Level>, A: Assignment)
    ensures EvalAll(DedupFrom(prev, rest), A) == MaxNat(Eval(prev, A), EvalAll(rest, A))
    decreases |rest|
  {
    if rest != [] {
      if Base(prev) == Base(rest[0]) {
        OffsetFacts(prev, A);
        OffsetFacts(rest[0], A);
        EvalDedup(if Offset(prev) < Offset(rest[0]) then rest[0] else prev, rest[1..], A);
      } else {
        EvalDedup(rest[0], rest[1..], A);
        assert DedupFrom(prev, rest)[1..] == DedupFrom(rest[0], rest[1..]);
      }
    }
  }

  /** A leading explicit argument is worth at most the last leading explicit one, and that is
      worth at most the argument pruning starts from or one that subsumes it. */
  lemma {:induction false} DroppedBound(args: seq<Level>, i: nat, A: Assignment)
    requires args != [] && Sorted(args) && i < StartIndex(args)
    ensures exists j :: StartIndex(args) <= j < |args| && Eval(args[i], A) <= Eval(args[j], A)
  {
    var n, s := LeadingExplicit(args), StartIndex(args);
    OffsetFacts(args[i], A);
    OffsetFacts(args[n - 1], A);
    assert i < n - 1 ==> !IsNormLt(args[n - 1], args[i]);
    if s == n {
      var j :| n <= j < |args| && Offset(args[j]) >= Offset(args[n - 1]);
      OffsetFacts(args[j], A);
    } else {
      assert s == n - 1;
    }
  }

  /** Dropping every argument before the start index loses nothing: they are explicit and below
      the one kept, or below a later argument that subsumes it. */
  lemma {:induction false} EvalFromStart(args: seq<Level>, A: Assignment)
    requires args != [] && Sorted(args)
    ensures EvalAll(args[StartIndex(args)..], A) == EvalAll(args, A)
  {
    hide Eval, Sorted, EvalAll;
    var s := StartIndex(args);
    var rest := args[s..];
    EvalAllBound(rest, A);
    forall i | 0 <= i < s ensures Eval(args[i], A) <= EvalAll(rest, A) {
      DroppedBound(args, i, A);
      var j :| s <= j < |args| && Eval(args[i], A) <= Eval(args[j], A);
      assert rest[j - s] == args[j];
    }
    EvalAllBound(args[..s], A);
    EvalAllConcat(args[..s], rest, A);
    assert args[..s] + rest == args;
  }

  lemma {:induction false} EvalPrune(args: seq<Level>, A: Assignment)
    requires args != [] && Sorted(args)
    ensures EvalAll(Prune(args), A) == EvalAll(args, A)
  {
    var i := StartIndex(args);
    EvalFromStart(args, A);
    EvalDedup(args[i], args[i + 1..], A);
    assert args[i..][1..] == args[i + 1..];
  }

  /** `normalize` preserves the meaning of every level under every assignment. */
  lemma {:induction false} NormalFormMeaning(l: Level, A: Assignment)
    ensures Eval(NormalForm(l), A) == Eval(l, A)
    decreases Size(l), 0
  {
    OffsetFacts(l, A);
    var r := Base(l);
    match r
    case IMax(a, b) =>
      NormalFormMeaning(a, A);
      NormalFormMeaning(b, A);
      EvalMkIMax(NormalForm(a), NormalForm(b), A);
      AddSuccFacts(MkIMax(NormalForm(a), NormalForm(b)), Offset(l), A);
    case Max(_, _) =>
      MaxArgsSmaller(r);
      NormalArgsMeaning(MaxArgs(r), A);
      EvalMaxArgs(r, A);
      var args := NormalArgs(MaxArgs(r));
      SortSorted(args);
      EvalAllPermutation(args, Sort(args), A);
      EvalPrune(Sort(args), A);
      EvalSuccAll(Prune(Sort(args)), Offset(l), A);
      EvalMkMaxAll(SuccAll(Prune(Sort(args)), Offset(l)), A);
    case _ =>
  }

  lemma {:induction false} NormalArgsMeaning(todo: seq<Level>, A: Assignment)
    ensures EvalAll(NormalArgs(todo), A) == EvalAll(todo, A)
    decreases SizeSum(todo), 1 + |todo|
  {
    if todo != [] {
      NormalFormMeaning(todo[0], A);
      NormalArgsMeaning(todo[1..], A);
      EvalMaxArgs(NormalForm(todo[0]), A);
      EvalAllConcat(MaxArgs(NormalForm(todo[0])), NormalArgs(todo[1..]), A);
    }
  }

  function IsEquivalent(l1: Level, l2: Level): bool {
    l1 == l2 || NormalForm(l1) == NormalForm(l2)
  }

  /** Levels the kernel calls equivalent have the same value under every assignment. */
  lemma {:induction false} IsEquivalentSound(l1: Level, l2: Level)
    requires IsEquivalent(l1, l2)
    ensures SameMeaning(l1, l2)
  {
    forall A ensures Eval(l1, A) == Eval(l2, A) {
      NormalFormMeaning(l1, A);
      NormalFormMeaning(l2, A);
    }
  }

  // ---------------------------------------------------------------- normalize does not grow

  /** The number of `max` and `imax` nodes. */
  function Nodes(l: Level): nat {
    match l
    case Succ(p) => Nodes(p)
    case Max(a, b) => 1 + Nodes(a) + Nodes(b)
    case IMax(a, b) => 1 + Nodes(a) + Nodes(b)
    case _ => 0
  }

  function Weight(s: seq<Level>): nat {
    if s == [] then 0 else Nodes(s[0]) + 1 + Weight(s[1..])
  }

  lemma {:induction false} WeightConcat(s: seq<Level>, t: seq<Level>)
    ensures Weight(s + t) == Weight(s) + Weight(t)
  {
    if s == [] { assert s + t == t; } else {
      WeightConcat(s[1..], t);
      assert (s + t)[1..] == s[1..] + t;
    }
  }

  lemma {:induction false} NodesBase(l: Level)
    ensures Nodes(Base(l)) == Nodes(l)
  {
    if l.Succ? { NodesBase(l.pred); }
  }

  lemma {:induction false} NodesAddSucc(l: Level, k: nat)
    ensures Nodes(AddSucc(l, k)) == Nodes(l)
  {
    if k > 0 { NodesAddSucc(l, k - 1); }
  }

  lemma {:induction false} WeightMaxArgs(l: Level)
    ensures Weight(MaxArgs(l)) == Nodes(l) + 1
  {
    if l.Max? {
      WeightMaxArgs(l.lhs);
      WeightMaxArgs(l.rhs);
      WeightConcat(MaxArgs(l.lhs), MaxArgs(l.rhs));
    }
  }

  lemma {:induction false} WeightInsert(x: Level, s: seq<Level>)
    ensures Weight(Insert(x, s)) == Nodes(x) + 1 + Weight(s)
  {
    if s != [] && IsNormLt(s[0], x) { WeightInsert(x, s[1..]); }
  }

  lemma {:induction false} WeightSort(s: seq<Level>)
    ensures Weight(Sort(s)) == Weight(s)
  {
    if s != [] {
      WeightSort(s[1..]);
      WeightInsert(s[0], Sort(s[1..]));
    }
  }

  lemma {:induction false} WeightAtLeast(s: seq<Level>)
    ensures Weight(s) >= |s|
  {
    if s != [] { WeightAtLeast(s[1..]); }
  }

  lemma {:induction false} WeightDedup(prev: Level, rest: seq<Level>)
    ensures Weight(DedupFrom(prev, rest)) + (1 + |rest| - |DedupFrom(prev, rest)|)
         <= Nodes(prev) + 1 + Weight(rest)
    decreases |rest|
  {
    if rest != [] {
      if Base(prev) == Base(rest[0]) {
        NodesBase(prev);
        NodesBase(rest[0]);
        WeightDedup(if Offset(prev) < Offset(rest[0]) then rest[0] else prev, rest[1..]);
      } else {
        WeightDedup(rest[0], rest[1..]);
        assert DedupFrom(prev, rest)[1..] == DedupFrom(rest[0], rest[1..]);
      }
    }
  }

  /** Each argument dropped takes at least one unit of weight with it. */
  lemma {:induction false} WeightPrune(args: seq<Level>)
    requires args != []
    ensures Weight(Prune(args)) + (|args| - |Prune(args)|) <= Weight(args)
  {
    var i := StartIndex(args);
    assert args == args[..i] + args[i..] && args[i..][1..] == args[i + 1..];
    WeightConcat(args[..i], args[i..]);
    WeightAtLeast(args[..i]);
    WeightDedup(args[i], args[i + 1..]);
  }

  lemma {:induction false} WeightSuccAll(s: seq<Level>, k: nat)
    ensures Weight(SuccAll(s, k)) == Weight(s)
  {
    if s != [] {
      NodesAddSucc(s[0], k);
      assert SuccAll(s, k)[1..] == SuccAll(s[1..], k);
      WeightSuccAll(s[1..], k);
    }
  }

  lemma {:induction false} NodesMkMax(l1: Level, l2: Level)
    ensures Nodes(MkMax(l1, l2)) <= 1 + Nodes(l1) + Nodes(l2)
    ensures Nodes(MkMax(l1, l2)) == 1 + Nodes(l1) + Nodes(l2) ==> MkMax(l1, l2).Max?
  {
  }

  lemma {:induction false} NodesMkMaxAll(args: seq<Level>)
    requires args != []
    ensures Nodes(MkMaxAll(args)) + 1 <= Weight(args)
    ensures |args| >= 2 && Nodes(MkMaxAll(args)) + 1 == Weight(args) ==> MkMaxAll(args).Max?
  {
    if |args| > 1 {
      NodesMkMaxAll(args[1..]);
      NodesMkMax(args[0], MkMaxAll(args[1..]));
    }
  }

  lemma {:induction false} NodesMkIMax(l1: Level, l2: Level, k: nat)
    ensures Nodes(AddSucc(MkIMax(l1, l2), k)) <= 1 + Nodes(l1) + Nodes(l2)
    ensures Nodes(AddSucc(MkIMax(l1, l2), k)) == 1 + Nodes(l1) + Nodes(l2) ==>
              Offset(AddSucc(MkIMax(l1, l2), k)) == k
  {
    NodesMkMax(l1, l2);
    NodesAddSucc(MkIMax(l1, l2), k);
    AddSuccFacts(MkIMax(l1, l2), k, Assignment(n => 0, n => 0));
  }

  lemma {:induction false} NodesMkMaxSorted(args: seq<Level>, k: nat)
    requires |args| >= 2
    ensures Nodes(MkMaxAll(SuccAll(Prune(Sort(args)), k))) + 1 <= Weight(args)
    ensures Nodes(MkMaxAll(SuccAll(Prune(Sort(args)), k))) + 1 == Weight(args) ==>
              Offset(MkMaxAll(SuccAll(Prune(Sort(args)), k))) == 0
  {
    WeightSort(args);
    WeightPrune(Sort(args));
    WeightSuccAll(Prune(Sort(args)), k);
    NodesMkMaxAll(SuccAll(Prune(Sort(args)), k));
  }

  /** `normalize` never adds a `max`/`imax` node; if it keeps their number, the outer succ
      offset does not grow. */
  lemma {:induction false} NormalFormNodes(l: Level)
    ensures Nodes(NormalForm(l)) <= Nodes(l)
    ensures Nodes(NormalForm(l)) == Nodes(l) ==> Offset(NormalForm(l)) <= Offset(l)
    decreases Size(l), 0
  {
    NodesBase(l);
    var r := Base(l);
    if r.IMax? {
      NormalFormNodes(r.lhs);
      NormalFormNodes(r.rhs);
      NodesMkIMax(NormalForm(r.lhs), NormalForm(r.rhs), Offset(l));
    } else if r.Max? {
      MaxArgsSmaller(r);
      NormalArgsWeight(MaxArgs(r));
      WeightMaxArgs(r);
      NodesMkMaxSorted(NormalArgs(MaxArgs(r)), Offset(l));
    }
  }

  lemma {:induction false} NormalArgsWeight(todo: seq<Level>)
    ensures Weight(NormalArgs(todo)) <= Weight(todo)
    decreases SizeSum(todo), 1 + |todo|
  {
    if todo != [] {
      NormalFormNodes(todo[0]);
      NormalArgsWeight(todo[1..]);
      WeightMaxArgs(NormalForm(todo[0]));
      WeightConcat(MaxArgs(NormalForm(todo[0])), NormalArgs(todo[1..]));
    }
  }

  // ---------------------------------------------------------------- is_geq

  function IsGeqCore(l1: Level, l2: Level): bool
    decreases Nodes(l1) + Nodes(l2), Offset(l1) + Offset(l2), 0
  {
    NodesBase(l1); NodesBase(l2);
    if l1 == l2 || l2.Zero? then true
    else if l2.Max? then IsGeq(l1, l2.lhs) && IsGeq(l1, l2.rhs)
    else if l1.Max? && (IsGeq(l1.lhs, l2) || IsGeq(l1.rhs, l2)) then true
    else if l2.IMax? then IsGeq(l1, l2.lhs) && IsGeq(l1, l2.rhs)
    else if l1.IMax? then IsGeq(l1.rhs, l2)
    else if Base(l1) == Base(l2) || Base(l2).Zero? then Offset(l1) >= Offset(l2)
    else if Offset(l1) == Offset(l2) && Offset(l1) > 0 then IsGeq(Base(l1), Base(l2))
    else false
  }

  /** Terminates although every call normalizes again: `NormalFormNodes` is the reason. */
  function IsGeq(l1: Level, l2: Level): bool
    decreases Nodes(l1) + Nodes(l2), Offset(l1) + Offset(l2), 1
  {
    NormalFormNodes(l1); NormalFormNodes(l2);
    IsGeqCore(NormalForm(l1), NormalForm(l2))
  }

  lemma {:induction false} IsGeqCoreSound(l1: Level, l2: Level, A: Assignment)
    requires IsGeqCore(l1, l2)
    ensures Eval(l1, A) >= Eval(l2, A)
    decreases Nodes(l1) + Nodes(l2), Offset(l1) + Offset(l2), 0
  {
    NodesBase(l1); NodesBase(l2);
    if l1 == l2 || l2.Zero? {
    } else if l2.Max? || l2.IMax? {
      if l1.Max? && IsGeq(l1.lhs, l2) && l2.IMax? { IsGeqSound(l1.lhs, l2, A); }
      else if l1.Max? && IsGeq(l1.rhs, l2) && l2.IMax? { IsGeqSound(l1.rhs, l2, A); }
      else { IsGeqSound(l1, l2.lhs, A); IsGeqSound(l1, l2.rhs, A); }
    } else if l1.Max? && IsGeq(l1.lhs, l2) { IsGeqSound(l1.lhs, l2, A);
    } else if l1.Max? && IsGeq(l1.rhs, l2) { IsGeqSound(l1.rhs, l2, A);
    } else if l1.IMax? {
      IsGeqSound(l1.rhs, l2, A);
    } else {
      OffsetFacts(l1, A);
      OffsetFacts(l2, A);
      if Base(l1) != Base(l2) && !Base(l2).Zero? { IsGeqSound(Base(l1), Base(l2), A); }
    }
  }

  /** `is_geq` answering true is right for every assignment. */
  lemma {:induction false} IsGeqSound(l1: Level, l2: Level, A: Assignment)
    requires IsGeq(l1, l2)
    ensures Eval(l1, A) >= Eval(l2, A)
    decreases Nodes(l1) + Nodes(l2), Offset(l1) + Offset(l2), 1
  {
    NormalFormNodes(l1); NormalFormNodes(l2);
    IsGeqCoreSound(NormalForm(l1), NormalForm(l2), A);
    NormalFormMeaning(l1, A);
    NormalFormMeaning(l2, A);
  }
}
