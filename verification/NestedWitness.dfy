/** A declaration whose constructor types are not restored with their binder names
    (kernel/inductive.cpp, lines 972-991): elimination and restoration are run on it. */
module NestedWitness {
  import opened Names
  import opened Prelude
  import opened Exprs
  import opened DeBruijn
  import opened ExprFacts
  import opened CheckerState
  import opened HeadPaths
  import opened Telescope
  import opened NestedTerms
  import opened NestedSpec
  import opened NestedInverse
  import opened NestedElim
  import opened NestedKeys
  import opened NestedRun
  import L = Levels

  function Type(): Expr { Sort(L.Succ(L.Zero)) }

  function Named(s: string): Binder { Binder([Str(s)], Default) }

  function LName(): Name { [Str("L")] }

  function TName(): Name { [Str("T")] }

  /** `(Type -> Type) -> Type`. */
  function LType(): Expr { Pi(Named("f"), Pi(Named("a"), Type(), Type()), Type()) }

  /** `L : (Type -> Type) -> Type`, an inductive type with one parameter and no constructor. */
  function LEnv(): Env { map[LName() := Inductive(LType(), [], 1, [LName()], [])] }

  /** `L (fun b : Type => T)`. */
  function Occurrence(b: string): Expr {
    App(Const(LName(), []), Lambda(Named(b), Type(), Const(TName(), [])))
  }

  /** `L (fun x : Type => T) -> L (fun y : Type => T) -> T`. */
  function MkType(): Expr {
    Pi(Named("p"), Occurrence("x"), Pi(Named("q"), Occurrence("y"), Const(TName(), [])))
  }

  /** `T : Type` with the constructor `T.mk`. */
  function TDecl(): seq<IndType> {
    [IndType(TName(), Type(), [Ctor([Str("T"), Str("mk")], MkType())])]
  }

  function TSetting(): Setting { Setting(LEnv(), {TName()}, [], []) }

  // ---------------------------------------------------------------- an input of the kernel

  lemma {:induction false} PlainNames()
    ensures !Reserved(LName()) && !Reserved(TName()) && LName() != TName()
  {
    assert |NESTED| == 7 && |"L"| == 1 && |"T"| == 1 && "L"[0] != "T"[0];
    assert LName()[0].text != TName()[0].text;
  }

  lemma {:induction false} LEnvOk()
    ensures EnvOk(LEnv())
  {
    PlainNames();
    var env, l := LEnv(), LName();
    assert Clean(Type());
    assert Clean(LType().domain);
    assert Clean(LType()) && HasPis(LType(), 1);
    assert env[l].all == [l] && env[l].ctors == [];
    assert MemberOk(env, 1, l);
    assert TypeOk(env, l);
  }

  lemma {:induction false} OccurrenceClean(b: string)
    ensures Clean(Occurrence(b))
  {
    PlainNames();
    var t := Occurrence(b);
    assert Clean(t.arg.domain) && Clean(t.arg.body) && Clean(t.fn);
    assert Clean(t.arg);
  }

  lemma {:induction false} TDeclOk()
    ensures SourcesOk(TDecl()) && TypeNames(TDecl()) == {TName()}
  {
    hide Occurrence;
    PlainNames();
    OccurrenceClean("x");
    OccurrenceClean("y");
    var d := TDecl()[0];
    var c := d.ctors[0];
    assert Clean(Const(TName(), []));
    assert Clean(MkType().body);
    assert Clean(MkType());
    assert forall x :: x in d.ctors ==> x == c;
    assert SourceOk(d);
    assert forall t :: t in TDecl() <==> t == d;
  }

  // ---------------------------------------------------------------- its nested types

  lemma {:induction false} OccurrenceSpine(b: string)
    ensures AppFn(Occurrence(b)) == Const(LName(), []) && AppArgs(Occurrence(b)) == [Occurrence(b).arg]
    ensures MkApp(Const(LName(), []), [Occurrence(b).arg]) == Occurrence(b)
  {
    var t := Occurrence(b);
    assert AppArgs(t.fn) == [];
    var args := [t.arg];
    assert args[..0] == [];
  }

  lemma {:induction false} ArgumentFacts(b: string)
    ensures Mentions(Occurrence(b).arg, {TName()}) && LooseRange(Occurrence(b).arg) == 0
  {
    var body := Occurrence(b).arg.body;
    assert Mentions(body, {TName()}) && LooseRange(body) == 0;
  }

  lemma {:induction false} OccurrenceNested(b: string)
    ensures var t := Occurrence(b);
      InductiveApp(LEnv(), t) && ParamArgs(LEnv(), t) == [t.arg] && Applied(LEnv(), t) == t
    ensures Nested(LEnv(), {TName()}, Occurrence(b)) && !AnyLoose(ParamArgs(LEnv(), Occurrence(b)))
  {
    OccurrenceSpine(b);
    ArgumentFacts(b);
    var t, args := Occurrence(b), [Occurrence(b).arg];
    hide Mentions, LooseRange, MkApp, AppFn, AppArgs;
    assert args[..1] == args;
    assert t.arg in args;
    assert LName() in LEnv();
  }

  lemma {:induction false} OccurrenceKey(b: string)
    ensures InductiveApp(LEnv(), Occurrence(b)) && Key(TSetting(), [], Occurrence(b)) == Occurrence(b)
    ensures Keys(TSetting(), [], Occurrence(b)) == {Occurrence(b)} && NoLooseParams(TSetting(), Occurrence(b))
  {
    OccurrenceNested(b);
    RenameSelf(Occurrence(b), []);
  }

  lemma {:induction false} MkOpened(a: nat)
    ensures Opened(MkType(), FreshFrom(a, 0)) == MkType()
  {
    hide MkType;
    assert MkFVars(FreshFrom(a, 0)) == [];
    InstRevNone(MkType());
  }

  lemma {:induction false} MkKeys()
    ensures CtorKeys(TSetting(), MkType()) == {Occurrence("x"), Occurrence("y")}
    ensures NoLooseParams(TSetting(), MkType())
  {
    hide Occurrence, Nested, Key, Opened;
    var t, st := MkType(), TSetting();
    MkOpened(0);
    assert FreshFrom(0, 0) == [];
    OccurrenceKey("x");
    OccurrenceKey("y");
    NotApp(t);
    NotApp(t.body);
    NotApp(Const(TName(), []));
    assert Keys(st, [], t.body) == {Occurrence("y")};
  }

  lemma {:induction false} NotApp(e: Expr)
    requires !e.App?
    ensures !Nested(LEnv(), {TName()}, e)
  {
  }

  lemma {:induction false} TDeclKeys()
    ensures DeclKeys(TSetting(), TDecl()) == {Occurrence("x"), Occurrence("y")}
  {
    hide Occurrence, CtorKeys;
    MkKeys();
    var d, st := TDecl()[0], TSetting();
    assert d.ctors[..0] == [] && TDecl()[..0] == [];
    assert CtorsKeys(st, d.ctors) == {} + CtorKeys(st, MkType());
    assert DeclKeys(st, TDecl()) == {} + CtorsKeys(st, d.ctors);
  }

  lemma {:induction false} OccurrencesDiffer()
    ensures Occurrence("x") != Occurrence("y")
  {
    assert "x"[0] != "y"[0];
    assert Str("x").text != Str("y").text;
    assert Named("x").name[0] != Named("y").name[0];
    assert Occurrence("x").arg.binder != Occurrence("y").arg.binder;
  }

  /** The two occurrences are one nested type for the kernel. */
  lemma {:induction false} OccurrenceMembers(b: string)
    ensures Members(LEnv(), Occurrence(b)) == [LName()] && Regrouped(Occurrence(b), LName()) == Occurrence(b)
    ensures Same(Occurrence(b), Occurrence("y"))
  {
    RegroupedSpine(Occurrence(b), LName());
    assert AppFn(Occurrence(b)) == Const(LName(), []);
  }

  lemma {:induction false} NotConsistent()
    ensures !Consistent(LEnv(), DeclKeys(TSetting(), TDecl()))
  {
    hide Occurrence;
    TDeclKeys();
    OccurrenceMembers("x");
    OccurrencesDiffer();
    var ks := DeclKeys(TSetting(), TDecl());
    var x, y := Occurrence("x"), Occurrence("y");
    assert x in ks && y in ks;
    assert LName() in Members(LEnv(), x);
    assert !KeysAgree(LEnv(), x, y);
  }

  // ---------------------------------------------------------------- the run

  /** Copies of `L` have no constructors, so they bring no nested types. */
  lemma {:induction false} NoMoreKeys(sources: seq<IndType>, i: nat)
    requires TDecl() <= sources && AllCopies(LEnv(), sources, 1) && 1 <= i <= |sources|
    ensures DeclKeys(TSetting(), sources[..i]) == DeclKeys(TSetting(), TDecl())
    ensures forall t :: t in sources[..i] ==> t == TDecl()[0] || t.ctors == []
  {
    hide DeclKeys;
    if i == 1 {
      assert sources[..1] == TDecl();
    } else {
      NoMoreKeys(sources, i - 1);
      DeclKeysSnoc(TSetting(), sources, i - 1);
      assert CopiesSome(LEnv(), sources[i - 1]);
      assert sources[..i] == sources[..i - 1] + [sources[i - 1]];
      assert sources[i - 1].ctors == [];
    }
  }

  lemma {:induction false} OneEntry(tbl: Table)
    requires Grouped(LEnv(), tbl) && AddedFor(LEnv(), [], tbl, DeclKeys(TSetting(), TDecl()))
    ensures |tbl| <= 1
  {
    if |tbl| > 1 {
      EntrySame(tbl[0].0);
      EntrySame(tbl[1].0);
    }
  }

  lemma {:induction false} EntrySame(e: Expr)
    requires FromSome(LEnv(), DeclKeys(TSetting(), TDecl()), e)
    ensures Same(e, Occurrence("y"))
  {
    hide Occurrence, Same, Regrouped, Members;
    TDeclKeys();
    OccurrenceMembers("x");
    OccurrenceMembers("y");
    var k, j :| k in DeclKeys(TSetting(), TDecl()) && IsMember(LEnv(), k, j, e);
    assert k == Occurrence("x") || k == Occurrence("y");
    assert j == LName();
  }

  lemma {:induction false} MkAccepted()
    ensures !Rejected(TSetting(), 0, MkType())
  {
    hide Occurrence;
    MkKeys();
    var st := TSetting();
    forall a: nat ensures !RejectedAt(st, 0, a, MkType()) { MkOpened(a); }
  }

  lemma {:induction false} NothingRejected(sources: seq<IndType>)
    requires TDecl() <= sources && AllCopies(LEnv(), sources, 1)
    ensures !Rejects(TSetting(), 0, sources)
  {
    NoMoreKeys(sources, |sources|);
    MkAccepted();
    hide MkType, Rejected;
    assert sources[..|sources|] == sources;
    forall t, c | t in sources ensures !RejectedIn(TSetting(), 0, t, c) {
      if t == TDecl()[0] { assert forall x :: x in t.ctors ==> x.typ == MkType(); }
    }
  }

  /** `T.mk` is accepted, and restored with the binder name `x` in both places. */
  method BinderNamesAreLost() returns (res: Outcome, restored: seq<IndType>)
    ensures EnvOk(LEnv()) && SourcesOk(TDecl())
    ensures res == Finished && SameTypes(TDecl(), restored) && restored != TDecl()
    ensures !ConsistentNames(LEnv(), [], 0, TDecl())
  {
    hide EnvOk, SourcesOk, DeclKeys, Consistent, Rejects, AllCopies, Grouped, AddedFor, QueueOk, Settled;
    LEnvOk();
    TDeclOk();
    NotConsistent();
    var fn := new Eliminator(LEnv(), [], 0, TDecl());
    res := fn.Run(2);
    assert FreshFrom(0, 0) == [];
    ghost var sources := fn.sources;
    NoMoreKeys(sources, |sources|);
    assert sources[..|sources|] == sources;
    NothingRejected(sources);
    if res.OutOfFuel? { OneEntry(fn.nestedAux); }
    restored := RestoreDeclared(fn, TDecl());
  }
}
