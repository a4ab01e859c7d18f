/**
 The tree walker: the pre-order, depth-first order in which `ast.Inspect`
 reaches the statements of a file when its visitor never prunes.
 */
module Inspect {
  import opened Ast

  /** The statements one level below `s`, in source order. */
  function Children(s: Stmt): seq<Stmt> {
    match s
    case For(body) => body
    case Range(body) => body
    case Defer(_, lits) => lits
    case Nest(_, children) => children
    case Other(lits) => lits
  }

  /** `s` followed by every statement below it, in pre-order. */
  function Walk(s: Stmt): (nodes: seq<Stmt>)
    ensures |nodes| >= 1 && nodes[0] == s
    decreases s, 1
  {
    match s
    case For(body) => [s] + WalkList(body)
    case Range(body) => [s] + WalkList(body)
    case Defer(_, lits) => [s] + WalkList(lits)
    case Nest(_, children) => [s] + WalkList(children)
    case Other(lits) => [s] + WalkList(lits)
  }

  /** The pre-order walks of a statement list, one after the other. */
  function WalkList(ss: seq<Stmt>): (nodes: seq<Stmt>)
    ensures |nodes| >= |ss|
    decreases ss, 0
  {
    if ss == [] then [] else Walk(ss[0]) + WalkList(ss[1..])
  }

  lemma WalkUnfold(s: Stmt)
    ensures Walk(s) == [s] + WalkList(Children(s))
  {
  }

  lemma {:induction false} WalkListConcat(a: seq<Stmt>, b: seq<Stmt>)
    ensures WalkList(a + b) == WalkList(a) + WalkList(b)
    decreases a
  {
    if a == [] {
      assert a + b == b;
    } else {
      assert (a + b)[0] == a[0];
      assert (a + b)[1..] == a[1..] + b;
      WalkListConcat(a[1..], b);
    }
  }

  /** Every element of a list is itself reached by the walk of the list. */
  lemma {:induction false} WalkListVisitsElements(ss: seq<Stmt>, i: nat)
    requires i < |ss|
    ensures ss[i] in WalkList(ss)
    decreases ss
  {
    if i > 0 {
      WalkListVisitsElements(ss[1..], i - 1);
    }
  }

  /**
   The walk of a list is longer than the list exactly when some listed
   statement has nodes below it (statements, function literals or header
   carriers).
   */
  lemma {:induction false} WalkListLength(ss: seq<Stmt>)
    ensures |WalkList(ss)| >= |ss|
    ensures |WalkList(ss)| == |ss| <==> forall i | 0 <= i < |ss| :: Children(ss[i]) == []
    decreases ss
  {
    if ss != [] {
      WalkListLength(ss[1..]);
      WalkUnfold(ss[0]);
      var c := Children(ss[0]);
      assert |WalkList(c)| >= |c|;
      if forall i | 0 <= i < |ss| :: Children(ss[i]) == [] {
        assert forall i | 0 <= i < |ss[1..]| :: Children(ss[1..][i]) == [] by {
          forall i | 0 <= i < |ss[1..]| ensures Children(ss[1..][i]) == [] {
            assert ss[1..][i] == ss[i + 1];
          }
        }
      } else {
        var k :| 0 <= k < |ss| && Children(ss[k]) != [];
        if k > 0 {
          assert ss[1..][k - 1] == ss[k];
        }
      }
    }
  }

  /**
   No pruning: whatever the walk reaches, it also reaches every statement
   one level below it.
   */
  lemma {:induction false} WalkClosed(s: Stmt, n: Stmt, c: Stmt)
    requires n in Walk(s) && c in Children(n)
    ensures c in Walk(s)
    decreases s, 1
  {
    WalkUnfold(s);
    if n == s {
      var i :| 0 <= i < |Children(s)| && Children(s)[i] == c;
      WalkListVisitsElements(Children(s), i);
    } else {
      assert n in WalkList(Children(s));
      match s
      case For(body) => WalkListClosed(body, n, c);
      case Range(body) => WalkListClosed(body, n, c);
      case Defer(_, lits) => WalkListClosed(lits, n, c);
      case Nest(_, children) => WalkListClosed(children, n, c);
      case Other(lits) => WalkListClosed(lits, n, c);
    }
  }

  lemma {:induction false} WalkListClosed(ss: seq<Stmt>, n: Stmt, c: Stmt)
    requires n in WalkList(ss) && c in Children(n)
    ensures c in WalkList(ss)
    decreases ss, 0
  {
    if n in Walk(ss[0]) {
      WalkClosed(ss[0], n, c);
    } else {
      WalkListClosed(ss[1..], n, c);
    }
  }

  /**
   Nothing else is reached: every node of a walk is its root or lies in the
   walk of one of the root's children.
   */
  lemma WalkSound(s: Stmt, n: Stmt)
    requires n in Walk(s)
    ensures n == s || exists c | c in Children(s) :: n in Walk(c)
  {
    WalkUnfold(s);
    if n != s {
      assert n in WalkList(Children(s));
      WalkListSound(Children(s), n);
    }
  }

  /** Every node of the walk of a list lies in the walk of one listed statement. */
  lemma {:induction false} WalkListSound(ss: seq<Stmt>, n: Stmt)
    requires n in WalkList(ss)
    ensures exists c | c in ss :: n in Walk(c)
    decreases ss
  {
    if n in Walk(ss[0]) {
      assert ss[0] in ss;
    } else {
      WalkListSound(ss[1..], n);
      var c :| c in ss[1..] && n in Walk(c);
      assert c in ss;
    }
  }
}
