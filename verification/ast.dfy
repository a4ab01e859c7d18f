/**
 The syntax tree the analyses walk over: a closed stand-in for the parts of
 Go's `go/ast` package that the five analyses read. The parser that builds it
 and the file set that resolves positions are external; positions and line
 numbers are carried on the nodes as plain naturals.
 */
module Ast {

  datatype Option<T> = None | Some(value: T)

  /** The keyword of a general declaration (`token.IMPORT`, ..., `token.VAR`). */
  datatype Token = IMPORT | CONST | TYPE | VAR

  /** Statement kinds the analyses only ever descend through. */
  datatype NestKind =
    | IfStmt        // children: the then-block's statements, then the else part
    | BlockStmt
    | SwitchStmt    // children: its case clauses
    | TypeSwitchStmt
    | SelectStmt    // children: its communication clauses
    | CaseClause
    | CommClause
    | LabeledStmt   // child: the labelled statement
    | FuncLit       // children: the statements of a function literal's body

  /**
   A statement. `For` and `Range` hold the statements of their body block
   (`Body.List`); `lits` holds the function literals (as `Nest(FuncLit, _)`
   nodes) that occur inside a statement's expressions, so that a traversal
   reaches them as `ast.Inspect` does.
   */
  datatype Stmt =
    | For(body: seq<Stmt>)
    | Range(body: seq<Stmt>)
    | Defer(pos: nat, lits: seq<Stmt>)
    | Nest(kind: NestKind, children: seq<Stmt>)
    | Other(lits: seq<Stmt>)
  {
    predicate IsLoop() {
      For? || Range?
    }
  }

  /** A spec of a general declaration. */
  datatype Spec =
    | ValueSpec(names: seq<string>, lits: seq<Stmt>)  // lits: function literals in the type, then in the values
    | ImportSpec(path: string)
    | TypeSpec(name: string)

  /**
   A top-level declaration. `pos`/`end` are the declaration's `token.Pos`
   values and `startLine`/`endLine` the lines the file set resolves them to;
   `body` is `None` for a declaration without a body.
   */
  datatype Decl =
    | FuncDecl(name: string, hasRecv: bool, body: Option<seq<Stmt>>,
               pos: nat, end: nat, startLine: nat, endLine: nat)
    | GenDecl(tok: Token, specs: seq<Spec>)

  /** A parsed file: its name and its top-level declarations `f.Decls`. */
  datatype File = File(name: string, decls: seq<Decl>)

  predicate IsUpperAscii(c: char) {
    'A' <= c <= 'Z'
  }

  /**
   `ast.IsExported`: a name is exported when its first character is an
   upper-case letter. Only ASCII upper-case letters are recognised.
   */
  predicate IsExported(name: string) {
    |name| > 0 && IsUpperAscii(name[0])
  }

  lemma ExportedExamples()
    ensures IsExported("Hello")
    ensures !IsExported("internalFunc")
    ensures !IsExported("_")
    ensures !IsExported("")
  {
  }
}
