/**
 Function-size metrics: for each package function with a body, its line
 span, byte span and number of direct statements, then the list ordered by
 line span, largest first.
 */
module Metrics {
  import opened Ast
  import opened Inspect

  /** `FuncInfo`: one function's name, location and three size figures. */
  datatype FuncInfo = FuncInfo(name: string, file: string, line: nat,
                               lineSize: int, byteSize: int, stmtSize: nat)

  /** A declaration gets an entry when it is a function with a body and no receiver. */
  predicate IsMeasured(d: Decl) {
    d.FuncDecl? && d.body.Some? && !d.hasRecv
  }

  /** What the file set guarantees of a declaration's positions. */
  predicate WellPlaced(d: Decl)
    requires d.FuncDecl?
  {
    d.startLine <= d.endLine && d.pos <= d.end
  }

  /** The entry for one measured declaration of the file named `file`. */
  function Measure(file: string, d: Decl): FuncInfo
    requires IsMeasured(d)
  {
    FuncInfo(d.name, file, d.startLine,
             d.endLine - d.startLine + 1, d.end - d.pos, |d.body.value|)
  }

  /**
   The figures of an entry: named and located by the declaration's start,
   a line span of at least one and a non-negative byte span for a
   well-placed declaration, and a statement count that is the number of
   direct statements of the body. It sees only those: it never exceeds the
   number of nodes a full walk of the body reaches, and equals it exactly
   when no direct statement has nodes below it.
   */
  lemma MeasureFigures(file: string, d: Decl)
    requires IsMeasured(d)
    ensures Measure(file, d).name == d.name && Measure(file, d).file == file
    ensures Measure(file, d).line == d.startLine
    ensures WellPlaced(d) ==> Measure(file, d).lineSize >= 1 && Measure(file, d).byteSize >= 0
    ensures Measure(file, d).lineSize - 1 == d.endLine - d.startLine
    ensures Measure(file, d).byteSize + d.pos == d.end
    ensures Measure(file, d).stmtSize == |d.body.value|
    ensures Measure(file, d).stmtSize <= |WalkList(d.body.value)|
    ensures Measure(file, d).stmtSize == |WalkList(d.body.value)| <==>
      forall i | 0 <= i < |d.body.value| :: Children(d.body.value[i]) == []
  {
    WalkListLength(d.body.value);
  }

  /** The collection loop: one entry per measured declaration, in declaration order. */
  function Collect(file: string, decls: seq<Decl>): (r: seq<FuncInfo>)
    ensures |r| <= |decls|
    decreases decls
  {
    if decls == [] then []
    else if IsMeasured(decls[0]) then [Measure(file, decls[0])] + Collect(file, decls[1..])
    else Collect(file, decls[1..])
  }

  /**
   Every entry comes from a function declaration with a body and no
   receiver, and every such declaration has its entry: declarations of
   other kinds, body-less functions and methods contribute nothing.
   */
  lemma {:induction false} CollectMembers(file: string, decls: seq<Decl>)
    ensures forall e | e in Collect(file, decls) ::
      exists d | d in decls :: IsMeasured(d) && e == Measure(file, d)
    ensures forall d | d in decls && IsMeasured(d) :: Measure(file, d) in Collect(file, decls)
    decreases decls
  {
    if decls != [] {
      CollectMembers(file, decls[1..]);
      assert forall d | d in decls[1..] :: d in decls;
      assert forall d | d in decls :: d == decls[0] || d in decls[1..];
    }
  }

  lemma {:induction false} CollectConcat(file: string, a: seq<Decl>, b: seq<Decl>)
    ensures Collect(file, a + b) == Collect(file, a) + Collect(file, b)
    decreases a
  {
    if a == [] {
      assert a + b == b;
    } else {
      assert (a + b)[0] == a[0];
      assert (a + b)[1..] == a[1..] + b;
      CollectConcat(file, a[1..], b);
    }
  }

  /** Entries keep declaration order: appending a declaration appends at most its entry. */
  lemma CollectSnoc(file: string, decls: seq<Decl>, d: Decl)
    ensures IsMeasured(d) ==> Collect(file, decls + [d]) == Collect(file, decls) + [Measure(file, d)]
    ensures !IsMeasured(d) ==> Collect(file, decls + [d]) == Collect(file, decls)
  {
    CollectConcat(file, decls, [d]);
    assert [d][1..] == [];
  }

  // ---------------------------------------------------------------------
  // Ordering by line span

  predicate SortedBySize(fs: seq<FuncInfo>) {
    forall i, j | 0 <= i < j < |fs| :: fs[i].lineSize >= fs[j].lineSize
  }

  lemma SortedCons(h: FuncInfo, rest: seq<FuncInfo>)
    requires SortedBySize(rest)
    requires forall e | e in rest :: e.lineSize <= h.lineSize
    ensures SortedBySize([h] + rest)
  {
    var r := [h] + rest;
    forall i, j | 0 <= i < j < |r|
      ensures r[i].lineSize >= r[j].lineSize
    {
      assert r[j] == rest[j - 1];
      if i > 0 {
        assert r[i] == rest[i - 1];
      } else {
        assert rest[j - 1] in rest;
      }
    }
  }

  lemma InsertBound(x: FuncInfo, fs: seq<FuncInfo>, rest: seq<FuncInfo>)
    requires fs != [] && SortedBySize(fs) && x.lineSize < fs[0].lineSize
    requires multiset(rest) == multiset(fs[1..]) + multiset{x}
    ensures forall e | e in rest :: e.lineSize <= fs[0].lineSize
  {
    forall e | e in rest
      ensures e.lineSize <= fs[0].lineSize
    {
      assert e in multiset(rest);
      if e != x {
        assert e in multiset(fs[1..]);
        var k :| 0 <= k < |fs[1..]| && fs[1..][k] == e;
        assert fs[k + 1] == e;
      }
    }
  }

  function Insert(x: FuncInfo, fs: seq<FuncInfo>): (r: seq<FuncInfo>)
    requires SortedBySize(fs)
    ensures SortedBySize(r)
    ensures multiset(r) == multiset(fs) + multiset{x}
    decreases fs
  {
    if fs == [] then [x]
    else if x.lineSize >= fs[0].lineSize then
      SortedCons(x, fs);
      [x] + fs
    else
      assert SortedBySize(fs[1..]);
      var rest := Insert(x, fs[1..]);
      InsertBound(x, fs, rest);
      SortedCons(fs[0], rest);
      assert fs == [fs[0]] + fs[1..];
      [fs[0]] + rest
  }

  /**
   `sort.Slice` with `LineSize > LineSize`: a permutation of the entries
   whose line spans never increase. The order among equal spans is not
   part of the contract, since `sort.Slice` is not stable.
   */
  function SortBySize(fs: seq<FuncInfo>): (r: seq<FuncInfo>)
    ensures SortedBySize(r)
    ensures multiset(r) == multiset(fs)
    decreases fs
  {
    if fs == [] then []
    else
      assert fs == [fs[0]] + fs[1..];
      Insert(fs[0], SortBySize(fs[1..]))
  }

  /** The whole report: collected entries of a file, largest line span first. */
  function FunctionSizes(f: File): (r: seq<FuncInfo>)
    ensures SortedBySize(r)
    ensures multiset(r) == multiset(Collect(f.name, f.decls))
  {
    SortBySize(Collect(f.name, f.decls))
  }

  function LineSizes(fs: seq<FuncInfo>): (ks: seq<int>)
    ensures |ks| == |fs|
    ensures forall i | 0 <= i < |fs| :: ks[i] == fs[i].lineSize
  {
    seq(|fs|, i requires 0 <= i < |fs| => fs[i].lineSize)
  }

  lemma MultisetDropHead<T>(a: seq<T>)
    requires a != []
    ensures multiset(a[1..]) == multiset(a) - multiset{a[0]}
  {
    assert a == [a[0]] + a[1..];
  }

  lemma MultisetDropAt<T>(a: seq<T>, k: nat)
    requires k < |a|
    ensures multiset(a[..k] + a[k + 1..]) == multiset(a) - multiset{a[k]}
  {
    assert a == a[..k] + [a[k]] + a[k + 1..];
  }

  lemma LineSizesDropAt(a: seq<FuncInfo>, k: nat)
    requires k < |a|
    ensures LineSizes(a[..k] + a[k + 1..]) == LineSizes(a)[..k] + LineSizes(a)[k + 1..]
  {
  }

  lemma MultisetRebuild<T>(a: seq<T>, b: seq<T>, k: nat)
    requires a != [] && k < |b| && a[0] == b[k]
    requires multiset(a[1..]) == multiset(b[..k] + b[k + 1..])
    ensures multiset(a) == multiset(b)
  {
    assert a == [a[0]] + a[1..];
    assert b == b[..k] + [b[k]] + b[k + 1..];
  }

  lemma {:induction false} LineSizesPermute(a: seq<FuncInfo>, b: seq<FuncInfo>)
    requires multiset(a) == multiset(b)
    ensures multiset(LineSizes(a)) == multiset(LineSizes(b))
    decreases |a|
  {
    if a != [] {
      assert a[0] in multiset(b);
      var k :| 0 <= k < |b| && b[k] == a[0];
      var b' := b[..k] + b[k + 1..];
      assert multiset(a[1..]) == multiset(b') by {
        MultisetDropHead(a);
        MultisetDropAt(b, k);
      }
      LineSizesPermute(a[1..], b');
      var la, lb := LineSizes(a), LineSizes(b);
      assert LineSizes(b') == lb[..k] + lb[k + 1..] by {
        LineSizesDropAt(b, k);
      }
      assert LineSizes(a[1..]) == la[1..];
      MultisetRebuild(la, lb, k);
    }
  }

  predicate NonIncreasing(a: seq<int>) {
    forall i, j | 0 <= i < j < |a| :: a[i] >= a[j]
  }

  lemma {:induction false} SortedIntsUnique(a: seq<int>, b: seq<int>)
    requires NonIncreasing(a) && NonIncreasing(b)
    requires multiset(a) == multiset(b)
    ensures a == b
    decreases |a|
  {
    if a == [] {
      assert |multiset(b)| == 0;
    } else {
      assert a[0] in multiset(b);
      var k :| 0 <= k < |b| && b[k] == a[0];
      assert b[0] in multiset(a);
      var l :| 0 <= l < |a| && a[l] == b[0];
      assert a[0] == b[0];
      MultisetDropHead(a);
      MultisetDropHead(b);
      SortedIntsUnique(a[1..], b[1..]);
      assert a == [a[0]] + a[1..];
      assert b == [b[0]] + b[1..];
    }
  }

  /**
   Although ties may come out in any order, the line-span column of the
   sorted report is fully determined: any two orderings that satisfy the
   sort's contract list the same spans.
   */
  lemma SortedSizesDetermined(a: seq<FuncInfo>, b: seq<FuncInfo>)
    requires SortedBySize(a) && SortedBySize(b)
    requires multiset(a) == multiset(b)
    ensures LineSizes(a) == LineSizes(b)
  {
    LineSizesPermute(a, b);
    SortedIntsUnique(LineSizes(a), LineSizes(b));
  }
}
