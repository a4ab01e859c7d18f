/**
 The sample sources embedded in the repository's programs, written out as
 the trees the parser gives for them, and what each analysis yields on them.
 Positions are `token.Pos` values of a one-file set (byte offset plus one);
 lines count from the newline that opens each embedded string.
 */
module Fixtures {
  import opened Ast
  import opened Inspect
  import opened LoopDefer
  import opened DeclCount
  import opened Metrics
  import opened Listing

  // ---------------------------------------------------------------------
  // try1/main.go

  /** The embedded file: an import, two `var` groups, two `const` groups and `main`. */
  const CountSample := File("example.go", [
    GenDecl(IMPORT, [ImportSpec("\"fmt\"")]),
    GenDecl(VAR, [ValueSpec(["msg"], [])]),
    GenDecl(VAR, [ValueSpec(["a", "b", "c"], [])]),
    GenDecl(CONST, [ValueSpec(["Pi"], [])]),
    GenDecl(CONST, [ValueSpec(["x", "y"], [])]),
    // main's body: an assignment, a short variable declaration and a call
    FuncDecl("main", false, Some([Other([]), Other([]), Other([])]), 110, 190, 11, 15)
  ])

  /**
   Four variables and three constants: every name of `var a, b, c int` and
   `const x, y = 1, 2` counts; the import and the short variable
   declaration inside `main` count for neither.
   */
  lemma CountSampleResult()
    ensures DeclaredNames(CountSample.decls, VAR) == ["msg", "a", "b", "c"]
    ensures DeclaredNames(CountSample.decls, CONST) == ["Pi", "x", "y"]
    ensures CountVarsAndConsts(CountSample) == Counts(4, 3)
  {
  }

  /** `var a, b, c int; const x, y = 1, 2` yields three variables and two constants. */
  lemma MultiNameSpecs()
    ensures Tally([GenDecl(VAR, [ValueSpec(["a", "b", "c"], [])]),
                   GenDecl(CONST, [ValueSpec(["x", "y"], [])])]) == Counts(3, 2)
  {
  }

  // ---------------------------------------------------------------------
  // private/main.go

  const PrivateSample := File("sample.go", [
    FuncDecl("ExportedFunc", false, Some([]), 18, 40, 4, 4),
    FuncDecl("internalFunc", false, Some([]), 41, 63, 5, 5),
    FuncDecl("anotherInternal", false, Some([]), 64, 89, 6, 6),
    GenDecl(TYPE, [TypeSpec("MyType")]),
    FuncDecl("MethodFunc", true, Some([]), 113, 144, 10, 10)
  ])

  /** The exported function, the type and the method are left out. */
  lemma PrivateSampleResult()
    ensures PrivateFuncs(PrivateSample.decls) == ["internalFunc", "anotherInternal"]
  {
    var ds := PrivateSample.decls;
    assert PrivateFuncs(ds[4..]) == [];
    assert PrivateFuncs(ds[3..]) == [];
    assert IsExported("ExportedFunc") && !IsExported("internalFunc") && !IsExported("anotherInternal");
    assert PrivateFuncs(ds[2..]) == ["anotherInternal"];
    assert PrivateFuncs(ds[1..]) == ["internalFunc", "anotherInternal"];
  }

  // ---------------------------------------------------------------------
  // method/main.go

  const MethodSample := File("example.go", [
    GenDecl(IMPORT, [ImportSpec("\"fmt\"")]),
    FuncDecl("init", false, Some([Other([])]), 36, 78, 6, 8),
    FuncDecl("init", false, Some([Other([])]), 82, 124, 10, 12),
    FuncDecl("_", false, Some([Other([])]), 128, 175, 14, 16),
    FuncDecl("Hello", false, Some([Other([])]), 181, 244, 18, 20),
    FuncDecl("main", false, Some([Other([])]), 248, 283, 22, 24)
  ])

  /** Both `init` functions are listed, and `_`, `Hello` and `main` alike. */
  lemma MethodSampleResult()
    ensures PackageFuncs(MethodSample.decls) == ["init", "init", "_", "Hello", "main"]
  {
  }

  // ---------------------------------------------------------------------
  // scale/main.go

  const ScaleSample := File("src.go", [
    GenDecl(IMPORT, [ImportSpec("\"fmt\"")]),
    FuncDecl("shortFunc", false, Some([Other([])]), 46, 88, 7, 9),
    FuncDecl("mediumFunc", false, Some([Other([]), Other([]), Other([])]), 115, 202, 12, 16),
    FuncDecl("longFunc", false, Some([For([Other([])]), Other([])]), 220, 306, 19, 24)
  ])

  /**
   The three functions, largest first; the loop in `longFunc` counts as one
   statement.
   */
  function ShortInfo(): FuncInfo { FuncInfo("shortFunc", "src.go", 7, 3, 42, 1) }
  function MediumInfo(): FuncInfo { FuncInfo("mediumFunc", "src.go", 12, 5, 87, 3) }
  function LongInfo(): FuncInfo { FuncInfo("longFunc", "src.go", 19, 6, 86, 2) }

  /** Collection keeps declaration order and skips the import. */
  lemma ScaleSampleCollected()
    ensures Collect("src.go", ScaleSample.decls) == [ShortInfo(), MediumInfo(), LongInfo()]
  {
    var ds := ScaleSample.decls;
    assert Collect("src.go", ds[3..]) == [LongInfo()];
    assert Collect("src.go", ds[2..]) == [MediumInfo(), LongInfo()];
    assert Collect("src.go", ds[1..]) == [ShortInfo(), MediumInfo(), LongInfo()];
  }

  lemma SortSampleTail()
    ensures SortBySize([MediumInfo(), LongInfo()]) == [LongInfo(), MediumInfo()]
  {
    var medium, long := MediumInfo(), LongInfo();
    assert [medium, long][1..] == [long];
    assert SortBySize([long]) == [long] by {
      assert [long][1..] == [];
    }
    assert Insert(medium, []) == [medium];
    assert Insert(medium, [long]) == [long, medium];
  }

  lemma SortSample()
    ensures SortBySize([ShortInfo(), MediumInfo(), LongInfo()]) == [LongInfo(), MediumInfo(), ShortInfo()]
  {
    var short, medium, long := ShortInfo(), MediumInfo(), LongInfo();
    SortSampleTail();
    assert [short, medium, long][1..] == [medium, long];
    assert Insert(short, [medium]) == [medium, short] by {
      assert Insert(short, []) == [short];
    }
    assert Insert(short, [long, medium]) == [long, medium, short] by {
      assert [long, medium][1..] == [medium];
    }
  }

  lemma ScaleSampleResult()
    ensures FunctionSizes(ScaleSample) == [LongInfo(), MediumInfo(), ShortInfo()]
  {
    ScaleSampleCollected();
    SortSample();
  }

  /**
   Whatever order the sort picks for the collected entries (see
   `ScaleSampleCollected`), the line spans come out as 6, 5, 3.
   */
  lemma ScaleSampleSpans(r: seq<FuncInfo>)
    requires SortedBySize(r) && multiset(r) == multiset([ShortInfo(), MediumInfo(), LongInfo()])
    ensures LineSizes(r) == [6, 5, 3]
  {
    var sorted := [LongInfo(), MediumInfo(), ShortInfo()];
    assert multiset(r) == multiset(sorted);
    assert LineSizes(sorted) == [6, 5, 3] by {
      var ls := LineSizes(sorted);
      assert |ls| == 3 && ls[0] == 6 && ls[1] == 5 && ls[2] == 3;
    }
    SortedSizesDetermined(r, sorted);
  }

  function Sized(name: string, lines: nat): FuncInfo {
    FuncInfo(name, "f.go", 1, lines, 0, 0)
  }

  /** Line spans 3, 7, 1 come out as 7, 3, 1. */
  lemma SortExample()
    ensures LineSizes(SortBySize([Sized("a", 3), Sized("b", 7), Sized("c", 1)])) == [7, 3, 1]
  {
  }

  // ---------------------------------------------------------------------
  // Loop-defer scenarios (analysis/main.go)

  function InMain(body: seq<Stmt>): File {
    File("a.go", [FuncDecl("main", false, Some(body), 1, 100, 1, 10)])
  }

  lemma WalkOne(s: Stmt)
    ensures WalkList([s]) == Walk(s)
  {
    assert [s][1..] == [];
  }

  lemma InMainWalk(body: seq<Stmt>)
    ensures FileDiagnostics(InMain(body)) == VisitAll(WalkList(body))
  {
    assert Roots(InMain(body).decls) == body + Roots([]);
    assert body + [] == body;
  }

  /**
   A loop whose body is a call then a `defer` yields exactly one diagnostic,
   at the defer.
   */
  lemma DirectDeferScenario()
    ensures FileDiagnostics(InMain([For([Other([]), Defer(40, [])])])) == [Diagnostic(40, Message)]
  {
    var loop := For([Other([]), Defer(40, [])]);
    InMainWalk([loop]);
    assert WalkList([loop]) == [loop, Other([]), Defer(40, [])];
    assert DirectDefers(loop.body) == [40];
    assert Visit(loop) == [Diagnostic(40, Message)];
  }

  /** The same defer wrapped in an `if` inside the loop yields no diagnostic. */
  lemma WrappedDeferScenario()
    ensures FileDiagnostics(InMain([For([Other([]), Nest(IfStmt, [Defer(40, [])])])])) == []
  {
    var loop := For([Other([]), Nest(IfStmt, [Defer(40, [])])]);
    InMainWalk([loop]);
    assert WalkList([loop]) == [loop, Other([]), Nest(IfStmt, [Defer(40, [])]), Defer(40, [])];
    assert DirectDefers(loop.body) == [];
    NoDirectDeferNoDiagnostics(WalkList([loop]));
  }

  /** A labelled defer is a labelled statement, not a direct defer of the loop. */
  lemma LabeledDeferScenario()
    ensures FileDiagnostics(InMain([Range([Nest(LabeledStmt, [Defer(40, [])])])])) == []
  {
    var loop := Range([Nest(LabeledStmt, [Defer(40, [])])]);
    InMainWalk([loop]);
    assert WalkList([loop]) == [loop, Nest(LabeledStmt, [Defer(40, [])]), Defer(40, [])];
    assert DirectDefers(loop.body) == [];
    NoDirectDeferNoDiagnostics(WalkList([loop]));
  }

  /** A defer directly in an inner loop is reported once, by the inner loop. */
  lemma InnerLoopScenario()
    ensures FileDiagnostics(InMain([For([Range([Defer(70, [])])])])) == [Diagnostic(70, Message)]
  {
    var d := Defer(70, []);
    var inner := Range([d]);
    var outer := For([inner]);
    WalkOne(d);
    WalkOne(inner);
    WalkOne(outer);
    assert Walk(inner) == [inner, d];
    assert Walk(outer) == [outer, inner, d];
    InMainWalk([outer]);
    assert DirectDefers([inner]) == [];
    assert Visit(outer) == [];
    assert DirectDefers([d]) == [70];
    assert Diagnose([70]) == [Diagnostic(70, Message)];
    assert Visit(inner) == [Diagnostic(70, Message)];
    assert VisitAll([outer, inner, d]) == Visit(outer) + VisitAll([inner, d]);
  }

  /**
   Diagnostics follow the loops in pre-order and, within one loop, its body
   order; so they need not follow source order.
   */
  lemma ReportOrderScenario()
    ensures Positions(FileDiagnostics(InMain([For([Defer(10, []), For([Defer(20, [])]), Defer(30, [])])]))) ==
      [10, 30, 20]
  {
    var d1, d2, d3 := Defer(10, []), Defer(20, []), Defer(30, []);
    var inner := For([d2]);
    var outer := For([d1, inner, d3]);
    WalkOne(d2);
    assert Walk(inner) == [inner, d2];
    assert WalkList([d3]) == [d3];
    assert WalkList([inner, d3]) == [inner, d2, d3];
    assert WalkList(outer.body) == [d1, inner, d2, d3];
    assert Walk(outer) == [outer, d1, inner, d2, d3];
    WalkOne(outer);
    InMainWalk([outer]);
    assert DirectDefers([d3]) == [30];
    assert DirectDefers([inner, d3]) == [30];
    assert DirectDefers(outer.body) == [10, 30];
    assert Visit(outer) == [Diagnostic(10, Message), Diagnostic(30, Message)];
    assert Visit(inner) == [Diagnostic(20, Message)];
    assert VisitAll([d3]) == [];
    assert VisitAll([d2, d3]) == [];
    assert VisitAll([inner, d2, d3]) == Visit(inner);
    assert VisitAll([d1, inner, d2, d3]) == Visit(inner);
    assert VisitAll([outer, d1, inner, d2, d3]) == Visit(outer) + Visit(inner);
  }

  /** A defer inside a function literal is not a direct element of the enclosing loop. */
  lemma FuncLitInLoopScenario()
    ensures FileDiagnostics(InMain([For([Other([Nest(FuncLit, [Defer(50, [])])])])])) == []
  {
    var lit := Nest(FuncLit, [Defer(50, [])]);
    var loop := For([Other([lit])]);
    assert DirectDefers(loop.body) == [];
    InMainWalk([loop]);
    forall n | n in WalkList([loop]) && n.IsLoop()
      ensures DirectDefers(n.body) == []
    {
      WalkOne(loop);
      WalkOne(lit);
      WalkOne(Other([lit]));
      WalkOne(Defer(50, []));
      assert WalkList([loop]) == [loop, Other([lit]), lit, Defer(50, [])];
    }
    NoDirectDeferNoDiagnostics(WalkList([loop]));
  }

  /** Descent continues into function literals: a loop inside one is checked. */
  lemma LoopInFuncLitScenario()
    ensures FileDiagnostics(InMain([Other([Nest(FuncLit, [For([Defer(50, [])])])])])) == [Diagnostic(50, Message)]
  {
    var d := Defer(50, []);
    var loop := For([d]);
    var lit := Nest(FuncLit, [loop]);
    var stmt := Other([lit]);
    WalkOne(d);
    WalkOne(loop);
    WalkOne(lit);
    WalkOne(stmt);
    assert Walk(loop) == [loop, d];
    assert Walk(lit) == [lit, loop, d];
    assert Walk(stmt) == [stmt, lit, loop, d];
    InMainWalk([stmt]);
    assert DirectDefers([d]) == [50];
    assert Diagnose([50]) == [Diagnostic(50, Message)];
    assert Visit(loop) == [Diagnostic(50, Message)];
    assert VisitAll([stmt, lit, loop, d]) == VisitAll([lit, loop, d]) == VisitAll([loop, d]);
  }

  /** A loop in a function literal of a package-level `var` is checked too. */
  lemma PackageVarScenario()
    ensures FileDiagnostics(File("a.go", [
      GenDecl(VAR, [ValueSpec(["f"], [Nest(FuncLit, [Range([Defer(60, [])])])])])
    ])) == [Diagnostic(60, Message)]
  {
    var d := Defer(60, []);
    var loop := Range([d]);
    var lit := Nest(FuncLit, [loop]);
    var decls := [GenDecl(VAR, [ValueSpec(["f"], [lit])])];
    assert SpecRoots(decls[0].specs) == [lit];
    assert Roots(decls) == [lit];
    WalkOne(d);
    WalkOne(loop);
    WalkOne(lit);
    assert Walk(loop) == [loop, d];
    assert Walk(lit) == [lit, loop, d];
    assert DirectDefers([d]) == [60];
    assert Diagnose([60]) == [Diagnostic(60, Message)];
    assert Visit(loop) == [Diagnostic(60, Message)];
    assert VisitAll([lit, loop, d]) == VisitAll([loop, d]);
  }
}
