/**
 Counting the identifiers declared by the top-level `var` and `const`
 groups of a file. The repository carries the same loop twice:
 `constDeclsInFile` and `countVarsAndConsts`. The first is modelled as the
 loop it is, the second as a left fold, and both are proved to return the
 counts of one declarative reference, so they agree on every file.
 */
module DeclCount {
  import opened Ast

  datatype Counts = Counts(vars: nat, consts: nat)

  /** Names bound by the value specs in `specs`, in order; other specs bind none here. */
  function SpecNames(specs: seq<Spec>): seq<string> {
    if specs == [] then []
    else (if specs[0].ValueSpec? then specs[0].names else []) + SpecNames(specs[1..])
  }

  /** Names a top-level declaration binds with keyword `tok`. */
  function DeclNames(d: Decl, tok: Token): seq<string> {
    match d
    case FuncDecl(_, _, _, _, _, _, _) => []
    case GenDecl(t, specs) => if t == tok then SpecNames(specs) else []
  }

  /** The reference: every name the top-level `tok` groups of `decls` bind, in source order. */
  function DeclaredNames(decls: seq<Decl>, tok: Token): seq<string> {
    if decls == [] then [] else DeclNames(decls[0], tok) + DeclaredNames(decls[1..], tok)
  }

  /** The counts the reference implies: how many `var` and `const` names there are. */
  function Tally(decls: seq<Decl>): Counts {
    Counts(|DeclaredNames(decls, VAR)|, |DeclaredNames(decls, CONST)|)
  }

  lemma {:induction false} SpecNamesSnoc(specs: seq<Spec>, s: Spec)
    ensures SpecNames(specs + [s]) == SpecNames(specs) + (if s.ValueSpec? then s.names else [])
    decreases specs
  {
    if specs == [] {
      assert [s][1..] == [];
    } else {
      assert (specs + [s])[1..] == specs[1..] + [s];
      SpecNamesSnoc(specs[1..], s);
    }
  }

  lemma {:induction false} DeclaredNamesConcat(a: seq<Decl>, b: seq<Decl>, tok: Token)
    ensures DeclaredNames(a + b, tok) == DeclaredNames(a, tok) + DeclaredNames(b, tok)
    decreases a
  {
    if a == [] {
      assert a + b == b;
    } else {
      assert (a + b)[1..] == a[1..] + b;
      DeclaredNamesConcat(a[1..], b, tok);
    }
  }

  /** The counts add up over concatenated declaration lists. */
  lemma TallyConcat(a: seq<Decl>, b: seq<Decl>)
    ensures Tally(a + b) == Counts(Tally(a).vars + Tally(b).vars, Tally(a).consts + Tally(b).consts)
  {
    DeclaredNamesConcat(a, b, VAR);
    DeclaredNamesConcat(a, b, CONST);
  }

  /** Appending declarations never lowers either count. */
  lemma TallyMonotone(a: seq<Decl>, b: seq<Decl>)
    ensures Tally(a).vars <= Tally(a + b).vars && Tally(a).consts <= Tally(a + b).consts
  {
    TallyConcat(a, b);
  }

  /**
   What one more top-level declaration does to the counts: a function
   declaration (whatever its body declares) and an `import` or `type` group
   change neither; a `var` group adds the names of its value specs to the
   variable count only, a `const` group to the constant count only.
   */
  lemma TallyStep(decls: seq<Decl>, d: Decl)
    ensures d.FuncDecl? ==> Tally(decls + [d]) == Tally(decls)
    ensures d.GenDecl? && (d.tok == IMPORT || d.tok == TYPE) ==> Tally(decls + [d]) == Tally(decls)
    ensures d.GenDecl? && d.tok == VAR ==>
      Tally(decls + [d]) == Counts(Tally(decls).vars + |SpecNames(d.specs)|, Tally(decls).consts)
    ensures d.GenDecl? && d.tok == CONST ==>
      Tally(decls + [d]) == Counts(Tally(decls).vars, Tally(decls).consts + |SpecNames(d.specs)|)
  {
    DeclaredNamesConcat(decls, [d], VAR);
    DeclaredNamesConcat(decls, [d], CONST);
    assert [d][1..] == [];
  }

  /**
   try/main.go `constDeclsInFile`: the nested loops over `f.Decls` and each
   general declaration's specs, adding `len(vs.Names)` to the counter that
   the declaration's keyword selects.
   */
  method ConstDeclsInFile(f: File) returns (varCount: nat, constCount: nat)
    ensures varCount == |DeclaredNames(f.decls, VAR)|
    ensures constCount == |DeclaredNames(f.decls, CONST)|
  {
    varCount, constCount := 0, 0;
    var i := 0;
    while i < |f.decls|
      invariant 0 <= i <= |f.decls|
      invariant Counts(varCount, constCount) == Tally(f.decls[..i])
    {
      var decl := f.decls[i];
      assert f.decls[..i + 1] == f.decls[..i] + [decl];
      TallyStep(f.decls[..i], decl);
      if decl.GenDecl? {
        var tok := decl.tok;
        var specs := decl.specs;
        if tok == VAR || tok == CONST {
          var j := 0;
          while j < |specs|
            invariant 0 <= j <= |specs|
            invariant tok == VAR ==>
              Counts(varCount, constCount) ==
              Counts(Tally(f.decls[..i]).vars + |SpecNames(specs[..j])|, Tally(f.decls[..i]).consts)
            invariant tok == CONST ==>
              Counts(varCount, constCount) ==
              Counts(Tally(f.decls[..i]).vars, Tally(f.decls[..i]).consts + |SpecNames(specs[..j])|)
          {
            assert specs[..j + 1] == specs[..j] + [specs[j]];
            SpecNamesSnoc(specs[..j], specs[j]);
            if specs[j].ValueSpec? {
              if tok == VAR {
                varCount := varCount + |specs[j].names|;
              } else {
                constCount := constCount + |specs[j].names|;
              }
            }
            j := j + 1;
          }
          assert specs[..j] == specs;
        }
      }
      i := i + 1;
    }
    assert f.decls[..i] == f.decls;
  }

  /** The counters a spec list adds for keyword `tok`, starting from `acc`. */
  function CountSpecs(specs: seq<Spec>, tok: Token, acc: Counts): (r: Counts)
    ensures tok == VAR ==> r == Counts(acc.vars + |SpecNames(specs)|, acc.consts)
    ensures tok == CONST ==> r == Counts(acc.vars, acc.consts + |SpecNames(specs)|)
    decreases specs
  {
    if specs == [] then acc
    else
      var next :=
        if !specs[0].ValueSpec? then acc
        else if tok == VAR then Counts(acc.vars + |specs[0].names|, acc.consts)
        else if tok == CONST then Counts(acc.vars, acc.consts + |specs[0].names|)
        else acc;
      CountSpecs(specs[1..], tok, next)
  }

  /** The declaration loop of `countVarsAndConsts`, continuing from counters `acc`. */
  function CountFrom(decls: seq<Decl>, acc: Counts): (r: Counts)
    ensures r == Counts(acc.vars + Tally(decls).vars, acc.consts + Tally(decls).consts)
    decreases decls
  {
    if decls == [] then acc
    else
      var next :=
        match decls[0]
        case FuncDecl(_, _, _, _, _, _, _) => acc
        case GenDecl(tok, specs) =>
          if tok == VAR || tok == CONST then CountSpecs(specs, tok, acc) else acc;
      CountFrom(decls[1..], next)
  }

  /**
   try1/main.go `countVarsAndConsts`: both counters start at zero. It
   returns the reference counts, as `ConstDeclsInFile` does, so the two
   copies agree on every file.
   */
  function CountVarsAndConsts(f: File): (r: Counts)
    ensures r.vars == |DeclaredNames(f.decls, VAR)|
    ensures r.consts == |DeclaredNames(f.decls, CONST)|
  {
    CountFrom(f.decls, Counts(0, 0))
  }
}
