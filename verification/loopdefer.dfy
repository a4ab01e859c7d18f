/**
 The `fordefer` analyzer: for every `for` and `range` loop reached by a full
 pre-order walk of each file, one diagnostic per `defer` statement that is a
 direct element of the loop's body. This is the deferred call of section
 "Defer statements" of The Go Programming Language Specification, which runs
 when the surrounding function returns rather than once per iteration.
 */
module LoopDefer {
  import opened Ast
  import opened Inspect

  /** The one message every diagnostic carries. */
  const Message: string := "defer文が検出されました"

  /** What `pass.Reportf` receives: a position and a message. */
  datatype Diagnostic = Diagnostic(pos: nat, msg: string)

  /** Positions of the `defer` statements that are direct elements of `ss`, in order. */
  function DirectDefers(ss: seq<Stmt>): seq<nat> {
    if ss == [] then []
    else (if ss[0].Defer? then [ss[0].pos] else []) + DirectDefers(ss[1..])
  }

  function Positions(ds: seq<Diagnostic>): (ps: seq<nat>)
    ensures |ps| == |ds|
    ensures forall i | 0 <= i < |ds| :: ps[i] == ds[i].pos
  {
    seq(|ds|, i requires 0 <= i < |ds| => ds[i].pos)
  }

  /** One diagnostic with the fixed message at each given position. */
  function Diagnose(ps: seq<nat>): (ds: seq<Diagnostic>)
    ensures Positions(ds) == ps
    ensures forall d | d in ds :: d.msg == Message
  {
    if ps == [] then [] else [Diagnostic(ps[0], Message)] + Diagnose(ps[1..])
  }

  /**
   The visitor handed to `ast.Inspect`: a `for` or `range` node reports the
   direct `defer` elements of its body; every other node reports nothing.
   Descent always continues, so the visitor needs no continuation result.
   */
  function Visit(n: Stmt): seq<Diagnostic> {
    match n
    case For(body) => Diagnose(DirectDefers(body))
    case Range(body) => Diagnose(DirectDefers(body))
    case _ => []
  }

  /** The visitor applied to each node in turn, reports in node order. */
  function VisitAll(nodes: seq<Stmt>): seq<Diagnostic> {
    if nodes == [] then [] else Visit(nodes[0]) + VisitAll(nodes[1..])
  }

  /** The statement roots of top-level specs: the function literals of each value spec. */
  function SpecRoots(specs: seq<Spec>): seq<Stmt> {
    if specs == [] then []
    else (if specs[0].ValueSpec? then specs[0].lits else []) + SpecRoots(specs[1..])
  }

  function DeclRoots(d: Decl): seq<Stmt> {
    match d
    case FuncDecl(_, _, body, _, _, _, _) => if body.Some? then body.value else []
    case GenDecl(_, specs) => SpecRoots(specs)
  }

  /** The statement roots of a file, in declaration order. */
  function Roots(decls: seq<Decl>): seq<Stmt> {
    if decls == [] then [] else DeclRoots(decls[0]) + Roots(decls[1..])
  }

  /** `ast.Inspect(file, visitor)` with the rule's visitor. */
  function FileDiagnostics(f: File): seq<Diagnostic> {
    VisitAll(WalkList(Roots(f.decls)))
  }

  /** Diagnostics of all files, file after file. */
  function AllDiagnostics(files: seq<File>): seq<Diagnostic> {
    if files == [] then [] else FileDiagnostics(files[0]) + AllDiagnostics(files[1..])
  }

  lemma {:induction false} AllDiagnosticsSnoc(files: seq<File>, f: File)
    ensures AllDiagnostics(files + [f]) == AllDiagnostics(files) + FileDiagnostics(f)
    decreases files
  {
    if files == [] {
      assert [f][1..] == [];
    } else {
      assert (files + [f])[1..] == files[1..] + [f];
      AllDiagnosticsSnoc(files[1..], f);
    }
  }

  /**
   `run`: each file of the pass in turn, each diagnostic appended as
   `pass.Reportf` is called; the result and the error are both nil.
   */
  method Run(files: seq<File>) returns (diags: seq<Diagnostic>, err: Option<string>)
    ensures err == None
    ensures diags == AllDiagnostics(files)
    ensures forall d | d in diags :: d.msg == Message
  {
    diags := [];
    var i := 0;
    while i < |files|
      invariant 0 <= i <= |files|
      invariant diags == AllDiagnostics(files[..i])
      invariant forall d | d in diags :: d.msg == Message
    {
      assert files[..i + 1] == files[..i] + [files[i]];
      AllDiagnosticsSnoc(files[..i], files[i]);
      MessageFixed(WalkList(Roots(files[i].decls)));
      diags := diags + FileDiagnostics(files[i]);
      i := i + 1;
    }
    assert files[..i] == files;
    err := None;
  }

  // ---------------------------------------------------------------------
  // Properties of the rule

  lemma {:induction false} VisitAllConcat(a: seq<Stmt>, b: seq<Stmt>)
    ensures VisitAll(a + b) == VisitAll(a) + VisitAll(b)
    decreases a
  {
    if a == [] {
      assert a + b == b;
    } else {
      assert (a + b)[0] == a[0];
      assert (a + b)[1..] == a[1..] + b;
      VisitAllConcat(a[1..], b);
    }
  }

  /**
   Function literals in the parts of a statement that come before its body
   (a loop's init, condition, post or range expression, an `if`/`switch`
   header, a case clause's expressions, a select clause's communication) are
   carried as one leading `Other(lits)` child. `ast.Walk` visits those parts
   before the body, so the walk order is kept. The carrier is never a direct
   `defer` of the body and reports nothing itself. Its literals are walked,
   so a loop inside one of them is checked.
   */
  lemma HeaderCarrierInert(lits: seq<Stmt>, body: seq<Stmt>)
    ensures DirectDefers([Other(lits)] + body) == DirectDefers(body)
    ensures Visit(For([Other(lits)] + body)) == Visit(For(body))
    ensures Visit(Range([Other(lits)] + body)) == Visit(Range(body))
    ensures VisitAll(Walk(Other(lits))) == VisitAll(WalkList(lits))
  {
    assert ([Other(lits)] + body)[1..] == body;
    WalkUnfold(Other(lits));
    VisitAllConcat([Other(lits)], WalkList(lits));
  }

  lemma PositionsConcat(a: seq<Diagnostic>, b: seq<Diagnostic>)
    ensures Positions(a + b) == Positions(a) + Positions(b)
  {
  }

  /** A position is among the direct defers exactly when a direct element is a defer there. */
  lemma {:induction false} DirectDefersMembers(ss: seq<Stmt>, p: nat)
    ensures p in DirectDefers(ss) <==> exists i | 0 <= i < |ss| :: ss[i].Defer? && ss[i].pos == p
    decreases ss
  {
    if ss != [] {
      DirectDefersMembers(ss[1..], p);
      if exists i | 0 <= i < |ss| :: ss[i].Defer? && ss[i].pos == p {
        var i :| 0 <= i < |ss| && ss[i].Defer? && ss[i].pos == p;
        if i > 0 {
          assert ss[1..][i - 1] == ss[i];
        }
      }
      if exists i | 0 <= i < |ss[1..]| :: ss[1..][i].Defer? && ss[1..][i].pos == p {
        var i :| 0 <= i < |ss[1..]| && ss[1..][i].Defer? && ss[1..][i].pos == p;
        assert ss[i + 1] == ss[1..][i];
      }
    }
  }

  /** Every diagnostic carries the same fixed message. */
  lemma {:induction false} MessageFixed(nodes: seq<Stmt>)
    ensures forall d | d in VisitAll(nodes) :: d.msg == Message
    decreases nodes
  {
    if nodes != [] {
      MessageFixed(nodes[1..]);
    }
  }

  /**
   Soundness and completeness of the visitor over any node sequence: a
   diagnostic is produced exactly when some loop node among them has a
   direct `defer` element at that position, and it carries the fixed message.
   */
  lemma {:induction false} VisitAllCharacterized(nodes: seq<Stmt>, d: Diagnostic)
    ensures d in VisitAll(nodes) <==>
      d.msg == Message &&
      exists n | n in nodes :: n.IsLoop() && d.pos in DirectDefers(n.body)
    decreases nodes
  {
    if nodes != [] {
      VisitAllCharacterized(nodes[1..], d);
      var n0 := nodes[0];
      assert d in Visit(n0) <==> d.msg == Message && n0.IsLoop() && d.pos in DirectDefers(n0.body) by {
        if n0.IsLoop() {
          var ps := DirectDefers(n0.body);
          var ds := Diagnose(ps);
          assert Visit(n0) == ds;
          if d in ds {
            var k :| 0 <= k < |ds| && ds[k] == d;
            assert Positions(ds)[k] == ps[k];
          }
          if d.msg == Message && d.pos in ps {
            var k :| 0 <= k < |ps| && ps[k] == d.pos;
            assert Positions(ds)[k] == ds[k].pos;
            assert ds[k] == d;
          }
        }
      }
      if exists n | n in nodes[1..] :: n.IsLoop() && d.pos in DirectDefers(n.body) {
        var n :| n in nodes[1..] && n.IsLoop() && d.pos in DirectDefers(n.body);
        assert n in nodes;
      }
      if exists n | n in nodes :: n.IsLoop() && d.pos in DirectDefers(n.body) {
        var n :| n in nodes && n.IsLoop() && d.pos in DirectDefers(n.body);
        if n != n0 {
          assert n in nodes[1..];
        }
      }
    }
  }

  /**
   The rule over a file: a diagnostic is reported exactly when some `for` or
   `range` loop of the file has a `defer` at that position as a direct
   element of its body. A defer reachable only through an inner if, block,
   switch, label or function literal is not reported on behalf of the loop.
   */
  lemma FileDiagnosticsCharacterized(f: File, d: Diagnostic)
    ensures d in FileDiagnostics(f) <==>
      d.msg == Message &&
      exists n | n in WalkList(Roots(f.decls)) ::
        n.IsLoop() && exists i | 0 <= i < |n.body| :: n.body[i].Defer? && n.body[i].pos == d.pos
  {
    var nodes := WalkList(Roots(f.decls));
    VisitAllCharacterized(nodes, d);
    forall n | n in nodes && n.IsLoop()
      ensures d.pos in DirectDefers(n.body) <==>
        exists i | 0 <= i < |n.body| :: n.body[i].Defer? && n.body[i].pos == d.pos
    {
      DirectDefersMembers(n.body, d.pos);
    }
  }

  /** With no loop among the nodes there is no diagnostic. */
  lemma NoLoopNoDiagnostics(nodes: seq<Stmt>)
    requires forall n | n in nodes :: !n.IsLoop()
    ensures VisitAll(nodes) == []
  {
    if VisitAll(nodes) != [] {
      var d := VisitAll(nodes)[0];
      VisitAllCharacterized(nodes, d);
    }
  }

  /** With no loop body holding a direct defer there is no diagnostic. */
  lemma NoDirectDeferNoDiagnostics(nodes: seq<Stmt>)
    requires forall n | n in nodes && n.IsLoop() :: DirectDefers(n.body) == []
    ensures VisitAll(nodes) == []
  {
    if VisitAll(nodes) != [] {
      var d := VisitAll(nodes)[0];
      VisitAllCharacterized(nodes, d);
    }
  }

  // ---------------------------------------------------------------------
  // An independent account: defers whose parent is a loop

  /**
   Positions of the `defer` statements in `ss` and below whose parent is a
   `for` or `range` loop, in pre-order of the defers themselves;
   `underLoop` says whether the elements of `ss` are a loop body.
   */
  function LoopChildDefers(ss: seq<Stmt>, underLoop: bool): seq<nat>
    decreases ss, 0
  {
    if ss == [] then []
    else LoopChildDefersOf(ss[0], underLoop) + LoopChildDefers(ss[1..], underLoop)
  }

  function LoopChildDefersOf(s: Stmt, underLoop: bool): seq<nat>
    decreases s, 1
  {
    match s
    case For(body) => LoopChildDefers(body, true)
    case Range(body) => LoopChildDefers(body, true)
    case Defer(p, lits) => (if underLoop then [p] else []) + LoopChildDefers(lits, false)
    case Nest(_, children) => LoopChildDefers(children, false)
    case Other(lits) => LoopChildDefers(lits, false)
  }

  lemma {:induction false} ReportsMatchLoopChildren(ss: seq<Stmt>, underLoop: bool)
    ensures multiset(Positions(VisitAll(WalkList(ss)))) +
            (if underLoop then multiset(DirectDefers(ss)) else multiset{}) ==
            multiset(LoopChildDefers(ss, underLoop))
    decreases ss, 0
  {
    if ss != [] {
      ReportsMatchLoopChildrenOf(ss[0], underLoop);
      ReportsMatchLoopChildren(ss[1..], underLoop);
      VisitAllConcat(Walk(ss[0]), WalkList(ss[1..]));
      PositionsConcat(VisitAll(Walk(ss[0])), VisitAll(WalkList(ss[1..])));
    }
  }

  lemma {:induction false} ReportsMatchLoopChildrenOf(s: Stmt, underLoop: bool)
    ensures multiset(Positions(VisitAll(Walk(s)))) +
            (if underLoop && s.Defer? then multiset{s.pos} else multiset{}) ==
            multiset(LoopChildDefersOf(s, underLoop))
    decreases s, 1
  {
    var below := WalkList(Children(s));
    WalkUnfold(s);
    VisitAllConcat([s], below);
    PositionsConcat(Visit(s), VisitAll(below));
    match s
    case For(body) =>
      ReportsMatchLoopChildren(body, true);
    case Range(body) =>
      ReportsMatchLoopChildren(body, true);
    case Defer(p, lits) =>
      ReportsMatchLoopChildren(lits, false);
    case Nest(_, children) =>
      ReportsMatchLoopChildren(children, false);
    case Other(lits) =>
      ReportsMatchLoopChildren(lits, false);
  }

  /**
   Each `defer` whose parent is a loop is reported exactly once, by that
   loop, and nothing else is reported: the reported positions are, as a
   multiset, the positions of the loop-child defers of the file. An inner
   loop's direct defer is therefore reported once, not again for the outer
   loop that the walk passes through first.
   */
  lemma FileReportsEachLoopChildDeferOnce(f: File)
    ensures multiset(Positions(FileDiagnostics(f))) == multiset(LoopChildDefers(Roots(f.decls), false))
  {
    ReportsMatchLoopChildren(Roots(f.decls), false);
  }
}
