# Go syntax-tree analyses, modelled in Dafny

The repository is five small Go programs. Each one parses Go source with
`go/parser` and then runs a small, pure analysis over the syntax tree. This
project models those analyses over a closed stand-in for the tree and proves
what they compute:

- **Function-size metrics** (`scale`). Every package function that has a body
  gets an entry with its line span, byte span and number of direct
  statements. The entries are then sorted by line span, largest first.
- **Variable and constant counting** (`try`, `try1`). The names bound by the
  top-level `var` and `const` groups are counted. Both copies of the loop are
  proved to return the same counts.
- **The `fordefer` analyzer** (`analysis`). A full pre-order walk, like
  `ast.Inspect`, visits every `for` and `range` loop. Each `defer` statement
  that is a direct element of a loop body gets one diagnostic. `defer` is the
  construct described in section "Defer statements" of The Go Programming
  Language Specification.
- **Function listings** (`method`, `private`). These list the functions that
  have no receiver, in declaration order. The `private` program keeps only the
  names that are not exported, in the sense of section "Exported identifiers"
  of the Go specification.

Files:

- `ast.dfy` (module `Ast`): the tree and `IsExported`.
- `inspect.dfy` (module `Inspect`): the pre-order walk.
- `loopdefer.dfy` (module `LoopDefer`): the `fordefer` analyzer.
- `declcount.dfy` (module `DeclCount`): variable and constant counting.
- `metrics.dfy` (module `Metrics`): function-size metrics and the sort.
- `listing.dfy` (module `Listing`): the two function listings.
- `fixtures.dfy` (module `Fixtures`): the sample sources embedded in the
  programs, written out as trees, plus scenarios for the loop rule.

How the tree is represented:

- A statement is one of these:
  - `For(body)` or `Range(body)`, holding `Body.List`.
  - `Defer(pos, lits)`.
  - `Nest(kind, children)`, for if, block, switch, select, case and
    communication clauses, labelled statements and function literals.
  - `Other(lits)`.
- `lits` holds the function literals that occur inside a statement's
  expressions. The walk reaches into them just as `ast.Inspect` does.
- The parts of a statement that `ast.Walk` visits before its body are a
  loop's init, condition, post or range expression, an `if`/`switch`
  header, a case clause's expressions and a select clause's communication.
  Function literals in those parts are carried as one leading `Other(lits)`
  child, so they are walked in `ast.Walk`'s order.
  `LoopDefer.HeaderCarrierInert` shows that this child changes no
  diagnostic.
- The roots of a file's walk are the function bodies and the function
  literals of top-level `var`/`const` specs, in declaration order. A value
  spec's `lits` lists the literals in its type, such as a constant array
  length, ahead of those in its values, as `ast.Walk` visits the type
  first.
- Positions are `token.Pos` values, carried on the nodes as naturals. Line
  numbers come already resolved.

Three points a reader might expect to work differently, and what the code does:

- The size report is ordered with `sort.Slice`, which is not stable. The
  contract therefore promises a permutation whose line spans never increase.
  It does not promise stable order among ties. `Metrics.SortedSizesDetermined`
  shows that the line-span column is determined anyway.
- The two listings do not check for a body. A receiver-less function
  declaration without a body is still listed. Only the size metrics skip
  body-less declarations.
- Diagnostics come in the pre-order of the enclosing loops, and within one
  loop in body order. They are therefore not sorted by the position of the
  `defer` statements: a direct defer of an inner loop is reported after the
  outer loop's later defers (`Fixtures.ReportOrderScenario`).

## Model

| member | source | states |
|---|---|---|
| `Ast.ExportedExamples` | private/main.go:47 | `Hello` is exported; `internalFunc`, `_` and the empty name are not |
| `Ast.IsExported` | private/main.go:47 | definition of `ast.IsExported`: a non-empty name whose first character is an upper-case letter; characterised by `Ast.ExportedExamples` |
| `Inspect.Walk` | analysis/main.go:20 | the pre-order of `ast.Inspect` below one statement: the statement comes first; it reaches every node below the statement (`Inspect.WalkClosed`) and nothing else (`Inspect.WalkSound`) |
| `Inspect.WalkList` | analysis/main.go:20 | the walks of a statement list one after the other, at least one node per listed statement; characterised by `Inspect.WalkListVisitsElements`, `Inspect.WalkListConcat` and `Inspect.WalkListLength` |
| `LoopDefer.Visit` | analysis/main.go:20-41 | definition of the visitor closure: a `for` or `range` node reports its direct defers, any other node nothing; characterised by `LoopDefer.VisitAllCharacterized` |
| `LoopDefer.HeaderCarrierInert` | analysis/main.go:22-40 | function literals carried before a loop body are never direct defers of that body, report nothing themselves, and are still walked |
| `LoopDefer.FileDiagnostics` | analysis/main.go:20-42 | definition of `ast.Inspect(file, visitor)`; characterised by `LoopDefer.FileDiagnosticsCharacterized` and `LoopDefer.FileReportsEachLoopChildDeferOnce` |
| `LoopDefer.AllDiagnostics` | analysis/main.go:19-43 | definition of the loop over `pass.Files`; characterised by `LoopDefer.AllDiagnosticsSnoc` |
| `Metrics.IsMeasured` | scale/main.go:62-70 | definition of the filter: a function declaration with a body and no receiver; characterised by `Metrics.CollectMembers` |
| `Metrics.Measure` | scale/main.go:72-85 | definition of one entry; characterised by `Metrics.MeasureFigures` |
| `Listing.IsPackageFunc` | method/main.go:47-49 | definition of the filter: a function declaration without a receiver; characterised by `Listing.ListingMembers` and `Listing.ListingOfOne` |
| `Inspect.WalkClosed` | analysis/main.go:20-41 | the visitor never prunes: every statement one level below a reached statement is reached too |
| `Inspect.WalkListClosed` | analysis/main.go:20-41 | the same closure for a list of roots |
| `Inspect.WalkSound` | analysis/main.go:20 | the walk reaches only its root and nodes in the walks of the root's children |
| `Inspect.WalkListSound` | analysis/main.go:20 | every node reached by walking a list lies in the walk of one listed statement |
| `Inspect.WalkListVisitsElements` | analysis/main.go:19-20 | every root statement of a file is visited |
| `Inspect.WalkListConcat` | analysis/main.go:20 | walking consecutive statement lists visits one list, then the other |
| `Inspect.WalkListLength` | scale/main.go:76 | a full walk reaches at least as many nodes as the list holds statements, and exactly as many iff no listed statement has nodes below it |
| `LoopDefer.Run` | analysis/main.go:17-45 | the error is always nil; the diagnostics are those of each file in turn, all with the fixed message |
| `LoopDefer.DirectDefers` | analysis/main.go:24-27 | definition of the `Body.List` scan for `*ast.DeferStmt` (the same scan as lines 34-37); characterised by `LoopDefer.DirectDefersMembers` |
| `LoopDefer.VisitAll` | analysis/main.go:20-42 | definition of the visitor applied along a walk; characterised by `LoopDefer.VisitAllCharacterized` and `LoopDefer.VisitAllConcat` |
| `LoopDefer.SpecRoots` | analysis/main.go:20 | definition of `ast.Walk`'s descent into the function literals of a general declaration's value specs; characterised by `Fixtures.PackageVarScenario` |
| `LoopDefer.DeclRoots` | analysis/main.go:20 | definition of `ast.Walk`'s descent into one declaration: a function's body, or the specs of a general declaration; characterised by `Fixtures.InMainWalk` and `Fixtures.PackageVarScenario` |
| `LoopDefer.Roots` | analysis/main.go:20 | definition of `ast.Walk`'s descent from `*ast.File` through `f.Decls` in order; characterised by `LoopDefer.FileDiagnosticsCharacterized` |
| `LoopDefer.Diagnose` | analysis/main.go:26 | one diagnostic per position, at that position, with the fixed message |
| `LoopDefer.DirectDefersMembers` | analysis/main.go:24-25 | a position is selected iff some direct element of the body is a `defer` at that position |
| `LoopDefer.VisitAllCharacterized` | analysis/main.go:20-41 | over any node sequence, a diagnostic is produced iff it has the fixed message and some `for`/`range` node has a direct defer at its position |
| `LoopDefer.FileDiagnosticsCharacterized` | analysis/main.go:22-38 | over a file, a diagnostic is produced iff some loop the walk reaches has a direct body element that is a `defer` at that position |
| `LoopDefer.NoLoopNoDiagnostics` | analysis/main.go:17-44 | with no loop there are no diagnostics |
| `LoopDefer.NoDirectDeferNoDiagnostics` | analysis/main.go:17-44 | with no loop body holding a direct defer there are no diagnostics |
| `LoopDefer.MessageFixed` | analysis/main.go:26 | every diagnostic carries the same message |
| `LoopDefer.ReportsMatchLoopChildren` | analysis/main.go:20-42 | as multisets, the reported positions (plus the list's own direct defers when it is a loop body) are the defers whose parent is a loop |
| `LoopDefer.FileReportsEachLoopChildDeferOnce` | analysis/main.go:20-42 | each defer whose parent is a loop is reported exactly once and nothing else is reported, including a direct defer of an inner loop |
| `LoopDefer.AllDiagnosticsSnoc` | analysis/main.go:19 | the diagnostics of one more file are appended after the earlier files' |
| `LoopDefer.VisitAllConcat` | analysis/main.go:20 | visiting consecutive node sequences yields their diagnostics in order |
| `DeclCount.ConstDeclsInFile` | try/main.go:13-37 | the counts equal the number of names bound by top-level `var` and `const` groups |
| `DeclCount.CountVarsAndConsts` | try1/main.go:11-34 | the same counts as `ConstDeclsInFile`, starting from zero, so the two copies agree |
| `DeclCount.CountFrom` | try1/main.go:12-32 | continuing from any counters adds exactly the reference counts of the remaining declarations |
| `DeclCount.CountSpecs` | try1/main.go:19-30 | a `var` group's specs add their names to the variable count only, a `const` group's to the constant count only |
| `DeclCount.TallyStep` | try/main.go:14-34 | a function declaration, `import` or `type` group changes neither count; a `var` group adds its value-spec names to the variable count only; a `const` group does the same for the constant count |
| `DeclCount.TallyConcat` | try/main.go:13-36 | the counts add up over concatenated declaration lists |
| `DeclCount.TallyMonotone` | try/main.go:13-36 | appending declarations never lowers either count |
| `DeclCount.SpecNamesSnoc` | try/main.go:23-27 | one more value spec adds all its names, and a non-value spec adds none |
| `DeclCount.DeclaredNamesConcat` | try/main.go:14 | the names declared by concatenated lists are concatenated in order |
| `Metrics.MeasureFigures` | scale/main.go:72-85 | an entry's name, file and line come from the declaration's start; line span and byte span are the end−start differences; the line span is ≥ 1 and the byte span ≥ 0 for well-placed positions; the statement count is `len(Body.List)`, the number of direct statements, and falls short of the walk's node count exactly when some direct statement has nodes below it |
| `Metrics.Collect` | scale/main.go:61-86 | at most one entry per declaration |
| `Metrics.CollectMembers` | scale/main.go:61-70 | every entry comes from a function with a body and no receiver, and every such function has its entry |
| `Metrics.CollectSnoc` | scale/main.go:61-86 | entries keep declaration order: one more declaration appends its entry if measured and nothing otherwise |
| `Metrics.CollectConcat` | scale/main.go:61 | collection distributes over concatenated declaration lists |
| `Metrics.SortedCons` | scale/main.go:89-91 | an entry whose line span is at least every span of a sorted list can go in front of it |
| `Metrics.InsertBound` | scale/main.go:89-91 | when the new entry is smaller than the head, everything after the head stays bounded by the head's span |
| `Metrics.Insert` | scale/main.go:89-91 | inserting into a list sorted by line span, largest first, keeps it sorted and adds exactly the one entry |
| `Metrics.SortBySize` | scale/main.go:89-91 | the result is a permutation of the input, with line spans non-increasing |
| `Metrics.FunctionSizes` | scale/main.go:61-91 | the report is a permutation of the collected entries, with line spans non-increasing |
| `Metrics.SortedSizesDetermined` | scale/main.go:89-91 | any two orderings meeting the sort's contract have the same line-span column |
| `Metrics.LineSizesPermute` | scale/main.go:89-91 | permuting entries permutes their line spans |
| `Metrics.SortedIntsUnique` | scale/main.go:89-91 | two non-increasing sequences with the same elements are equal |
| `Listing.PackageFuncs` | method/main.go:46-53 | at most one name per declaration |
| `Listing.PrivateFuncs` | private/main.go:35-51 | at most one name per declaration |
| `Listing.ListingMembers` | private/main.go:35-51 | a name is listed iff some receiver-less function declaration has it, and for the private listing iff it is also unexported |
| `Listing.PackageFuncsConcat` | method/main.go:46-53 | the package listing distributes over concatenation |
| `Listing.PrivateFuncsConcat` | private/main.go:35-51 | the private listing distributes over concatenation |
| `Listing.ListingOfOne` | private/main.go:36-47 | one declaration contributes its name exactly once if it is a receiver-less function, with or without a body, and otherwise nothing; the private listing also drops exported names |
| `Listing.PrivateIsUnexportedPackage` | private/main.go:47 | the private listing is the package listing with exported names removed, keeping order and duplicates |
| `Listing.Unexported` | private/main.go:47 | keeps exactly the names that are not exported |
| `Fixtures.CountSampleResult` | try1/main.go:38-66 | the embedded file declares variables msg, a, b, c and constants Pi, x, y, so the counts are 4 and 3; the import and `name := "Gopher"` count for neither |
| `Fixtures.MultiNameSpecs` | try1/main.go:44-46 | `var a, b, c int; const x, y = 1, 2` gives 3 variables and 2 constants |
| `Fixtures.PrivateSampleResult` | private/main.go:12-51 | the listing is exactly internalFunc, anotherInternal |
| `Fixtures.MethodSampleResult` | method/main.go:12-53 | the listing is exactly init, init, _, Hello, main |
| `Fixtures.ScaleSampleCollected` | scale/main.go:13-86 | the entries are shortFunc, mediumFunc, longFunc with their spans and statement counts; the import is skipped |
| `Fixtures.SortSampleTail` | scale/main.go:89-91 | mediumFunc and longFunc sort as longFunc, mediumFunc |
| `Fixtures.SortSample` | scale/main.go:89-91 | the three sample entries sort as longFunc, mediumFunc, shortFunc |
| `Fixtures.ScaleSampleResult` | scale/main.go:13-91 | the report is longFunc (6 lines), mediumFunc (5), shortFunc (3) |
| `Fixtures.ScaleSampleSpans` | scale/main.go:89-91 | every ordering allowed by the sort's contract has line spans 6, 5, 3 |
| `Fixtures.SortExample` | scale/main.go:89-91 | line spans 3, 7, 1 are reported as 7, 3, 1 |
| `Fixtures.InMainWalk` | analysis/main.go:19-20 | a file with one function is checked by walking that function's body |
| `Fixtures.DirectDeferScenario` | analysis/main.go:22-28 | a loop with a call and then a direct defer yields exactly one diagnostic, at the defer |
| `Fixtures.WrappedDeferScenario` | analysis/main.go:24-25 | the same defer inside an `if` in the loop yields none |
| `Fixtures.LabeledDeferScenario` | analysis/main.go:34-35 | a labelled defer in a `range` body is not a direct defer and yields none |
| `Fixtures.InnerLoopScenario` | analysis/main.go:29 | a direct defer of an inner loop is reported once |
| `Fixtures.ReportOrderScenario` | analysis/main.go:20-38 | diagnostics come loop by loop in pre-order, so positions 10, 30, 20 come in that order |
| `Fixtures.FuncLitInLoopScenario` | analysis/main.go:24-25 | a defer in a function literal inside a loop is not reported |
| `Fixtures.LoopInFuncLitScenario` | analysis/main.go:39-41 | descent continues into function literals, so a loop inside one is checked |
| `Fixtures.PackageVarScenario` | analysis/main.go:20 | a loop in a function literal of a package-level `var` is checked |
| `Fixtures.WalkOne` | analysis/main.go:20 | walking a one-statement list is walking that statement |

## Left out

- Parsing with `parser.ParseFile` / `parser.ParseDir`. The model starts from a built tree. A parse error means no analysis is run.
- Position resolution by `token.FileSet`. Offsets and line numbers are given on the nodes, and the file name comes from the file.
- `unicode.IsUpper` behind `ast.IsExported`. `Ast.IsExported` recognises only the ASCII letters `A`–`Z`.
- JSON encoding and all printing (`json.MarshalIndent`, `fmt.Print*`).
- try/main.go `main`: `os.Getwd`, `filepath`, and the iteration over the `pkgs` and `pkg.Files` maps, whose order Go does not fix.
- `singlechecker.Main` and the `analysis.Analyzer`/`analysis.Pass` plumbing. `pass.Reportf` becomes appending a diagnostic, and the unused first result of `run` is not modelled.
- Function literals inside type expressions are not in the tree. These are a `type` spec's type, and a function's receiver and signature, for example a constant array length `[unsafe.Sizeof(func() { … })]int`. `ast.Inspect` walks them, so a loop inside such a literal would be checked by the program but is not reached by the model's walk. A `var`/`const` spec's own type is covered: its literals lead that spec's `lits`.
- Tree nodes the loop rule only passes through without reporting (identifiers, expressions, the body `BlockStmt` node of a loop) are not separate nodes. Leaving them out changes no diagnostic and no order.
- Go's fixed-width `int`: counts and spans are unbounded integers. Overflow would need more than 2^63 declarations or bytes.
- `Metrics.SortBySize`: the contract does not fix the order among equal line spans, because `sort.Slice` does not.
- `Listing.PackageFuncs`: its own ensures gives only a length bound. Membership, order and duplicates are stated by `Listing.ListingMembers`, `Listing.PackageFuncsConcat` and `Listing.ListingOfOne`.
- `Listing.PrivateFuncs`: the same, with `Listing.PrivateIsUnexportedPackage` and `Listing.PrivateFuncsConcat` as well. It returns names only. The position that private/main.go:48-49 prints next to each name is not part of the result, because it needs the `token.FileSet`.
- `Metrics.Collect`: its own ensures gives only a length bound. What the entries are is stated by `Metrics.CollectMembers`, `Metrics.CollectSnoc` and `Metrics.MeasureFigures`.
