/**
 Listing the package functions of a file: every top-level function
 declaration without a receiver, in declaration order (method/main.go), and
 the subset of those whose names are not exported (private/main.go).
 Neither listing looks at the body or removes duplicate names.
 */
module Listing {
  import opened Ast

  predicate IsPackageFunc(d: Decl) {
    d.FuncDecl? && !d.hasRecv
  }

  /** method/main.go: the names of the receiver-less function declarations. */
  function PackageFuncs(decls: seq<Decl>): (names: seq<string>)
    ensures |names| <= |decls|
    decreases decls
  {
    if decls == [] then []
    else (if IsPackageFunc(decls[0]) then [decls[0].name] else []) + PackageFuncs(decls[1..])
  }

  /** private/main.go: the names of the receiver-less, unexported function declarations. */
  function PrivateFuncs(decls: seq<Decl>): (names: seq<string>)
    ensures |names| <= |decls|
    decreases decls
  {
    if decls == [] then []
    else
      var d := decls[0];
      (if d.FuncDecl? && !d.hasRecv && !IsExported(d.name) then [d.name] else []) + PrivateFuncs(decls[1..])
  }

  /**
   A name is in the package listing exactly when some function declaration
   without a receiver has that name, and in the private listing exactly when
   moreover the name is not exported.
   */
  lemma {:induction false} ListingMembers(decls: seq<Decl>, n: string)
    ensures n in PackageFuncs(decls) <==> exists d | d in decls :: IsPackageFunc(d) && d.name == n
    ensures n in PrivateFuncs(decls) <==>
      exists d | d in decls :: IsPackageFunc(d) && d.name == n && !IsExported(n)
    decreases decls
  {
    if decls != [] {
      ListingMembers(decls[1..], n);
      assert forall d | d in decls :: d == decls[0] || d in decls[1..];
    }
  }

  /** Keeps the names that are not exported, in order. */
  function Unexported(names: seq<string>): (r: seq<string>)
    ensures forall n :: n in r <==> n in names && !IsExported(n)
  {
    if names == [] then []
    else (if IsExported(names[0]) then [] else [names[0]]) + Unexported(names[1..])
  }

  /**
   The listings follow declaration order: a listing of concatenated
   declaration lists is the concatenation of their listings.
   */
  lemma {:induction false} PackageFuncsConcat(a: seq<Decl>, b: seq<Decl>)
    ensures PackageFuncs(a + b) == PackageFuncs(a) + PackageFuncs(b)
    decreases a
  {
    if a == [] {
      assert a + b == b;
    } else {
      assert (a + b)[0] == a[0];
      assert (a + b)[1..] == a[1..] + b;
      PackageFuncsConcat(a[1..], b);
    }
  }

  lemma {:induction false} PrivateFuncsConcat(a: seq<Decl>, b: seq<Decl>)
    ensures PrivateFuncs(a + b) == PrivateFuncs(a) + PrivateFuncs(b)
    decreases a
  {
    if a == [] {
      assert a + b == b;
    } else {
      assert (a + b)[0] == a[0];
      assert (a + b)[1..] == a[1..] + b;
      PrivateFuncsConcat(a[1..], b);
    }
  }

  /**
   What a single declaration contributes: its name exactly once when it is
   a function without a receiver (whatever its name and whether or not it
   has a body), nothing when it is a general declaration or a method; the
   private listing further drops exported names.
   */
  lemma ListingOfOne(d: Decl)
    ensures PackageFuncs([d]) == (if IsPackageFunc(d) then [d.name] else [])
    ensures PrivateFuncs([d]) == (if IsPackageFunc(d) && !IsExported(d.name) then [d.name] else [])
  {
    assert [d][1..] == [];
  }

  /**
   The private listing is the package listing with the exported names
   taken out, order and duplicates kept.
   */
  lemma {:induction false} PrivateIsUnexportedPackage(decls: seq<Decl>)
    ensures PrivateFuncs(decls) == Unexported(PackageFuncs(decls))
    decreases decls
  {
    if decls != [] {
      PrivateIsUnexportedPackage(decls[1..]);
      var rest := PackageFuncs(decls[1..]);
      if IsPackageFunc(decls[0]) {
        var names := [decls[0].name] + rest;
        assert PackageFuncs(decls) == names;
        assert names[0] == decls[0].name && names[1..] == rest;
      } else {
        assert PackageFuncs(decls) == rest;
      }
    }
  }
}
