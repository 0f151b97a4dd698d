/**
  The visitor of rule S1612 as a function: a depth-first, pre-order walk in
  which every lambda is first judged (at most one issue, anchored at its
  arrow) and then descended into, and every other node only has its children
  walked in source order. `Walk` is proved equal to an independent reading:
  list all nodes in pre-order, keep the lambdas that qualify.
 */
module Traversal {
  import opened Syntax
  import opened Detector

  /** What the rule hands to the reporting sink: an anchor token and a message. */
  datatype Issue = Issue(anchor: NodeId, message: string)

  /** The issues one node yields when it is visited itself (its children aside). */
  function NodeIssues(t: Tree, idx: UsageIndex, msg: string): seq<Issue>
  {
    if t.Lambda? && ReportsLambda(t, idx) then [Issue(t.arrow, msg)] else []
  }

  /** The issues a scan of `t` reports, in the order it reports them. */
  function Walk(t: Tree, idx: UsageIndex, msg: string): seq<Issue>
    decreases t
  {
    match t
    case Lambda(_, _, _, body) => NodeIssues(t, idx, msg) + Walk(body, idx, msg)
    case Block(_, stmts) => WalkSeq(stmts, idx, msg)
    case ExprStmt(_, e) => Walk(e, idx, msg)
    case Return(_, v) => if v.Some? then Walk(v.value, idx, msg) else []
    case MethodInv(_, sel, args) => Walk(sel, idx, msg) + WalkSeq(args, idx, msg)
    case NewClass(_, args, cb) =>
      WalkSeq(args, idx, msg) + (if cb.Some? then WalkSeq(cb.value.members, idx, msg) else [])
    case Ident(_, _) => []
    case Other(_, kids) => WalkSeq(kids, idx, msg)
  }

  function WalkSeq(ts: seq<Tree>, idx: UsageIndex, msg: string): seq<Issue>
    decreases ts
  {
    if |ts| == 0 then [] else WalkSeq(ts[..|ts| - 1], idx, msg) + Walk(ts[|ts| - 1], idx, msg)
  }

  /** Every node of `t`, `t` itself first, then its subtrees in source order. */
  function PreOrder(t: Tree): (r: seq<Tree>)
    ensures |r| > 0 && r[0] == t
    decreases t
  {
    [t] +
    match t
    case Lambda(_, _, _, body) => PreOrder(body)
    case Block(_, stmts) => PreOrderSeq(stmts)
    case ExprStmt(_, e) => PreOrder(e)
    case Return(_, v) => if v.Some? then PreOrder(v.value) else []
    case MethodInv(_, sel, args) => PreOrder(sel) + PreOrderSeq(args)
    case NewClass(_, args, cb) => PreOrderSeq(args) + (if cb.Some? then PreOrderSeq(cb.value.members) else [])
    case Ident(_, _) => []
    case Other(_, kids) => PreOrderSeq(kids)
  }

  function PreOrderSeq(ts: seq<Tree>): seq<Tree>
    decreases ts
  {
    if |ts| == 0 then [] else PreOrderSeq(ts[..|ts| - 1]) + PreOrder(ts[|ts| - 1])
  }

  /** The issues of a list of nodes, each judged on its own, in list order. */
  function Reports(ns: seq<Tree>, idx: UsageIndex, msg: string): seq<Issue>
  {
    if |ns| == 0 then [] else NodeIssues(ns[0], idx, msg) + Reports(ns[1..], idx, msg)
  }

  /** How many lambdas a list of nodes holds. */
  function LambdaCount(ns: seq<Tree>): nat
  {
    if |ns| == 0 then 0 else (if ns[0].Lambda? then 1 else 0) + LambdaCount(ns[1..])
  }

  /** How many lambdas of a list of nodes qualify for an issue. */
  function QualifyingCount(ns: seq<Tree>, idx: UsageIndex): nat
  {
    if |ns| == 0 then 0
    else (if ns[0].Lambda? && ReportsLambda(ns[0], idx) then 1 else 0) + QualifyingCount(ns[1..], idx)
  }

  lemma {:induction false} ReportsAppend(a: seq<Tree>, b: seq<Tree>, idx: UsageIndex, msg: string)
    ensures Reports(a + b, idx, msg) == Reports(a, idx, msg) + Reports(b, idx, msg)
  {
    if |a| > 0 {
      assert (a + b)[1..] == a[1..] + b;
      ReportsAppend(a[1..], b, idx, msg);
    } else {
      assert a + b == b;
    }
  }

  /** The visitor reports exactly the qualifying lambdas of the tree, in pre-order. */
  lemma {:induction false} WalkIsPreOrderReports(t: Tree, idx: UsageIndex, msg: string)
    ensures Walk(t, idx, msg) == Reports(PreOrder(t), idx, msg)
    decreases t
  {
    var rest := PreOrder(t)[1..];
    assert PreOrder(t) == [t] + rest;
    ReportsAppend([t], rest, idx, msg);
    assert Reports([t], idx, msg) == NodeIssues(t, idx, msg);
    match t
    case Lambda(_, _, _, body) =>
      WalkIsPreOrderReports(body, idx, msg);
    case Block(_, stmts) =>
      WalkSeqIsPreOrderReports(stmts, idx, msg);
    case ExprStmt(_, e) =>
      WalkIsPreOrderReports(e, idx, msg);
    case Return(_, v) =>
      if v.Some? { WalkIsPreOrderReports(v.value, idx, msg); }
    case MethodInv(_, sel, args) =>
      WalkIsPreOrderReports(sel, idx, msg);
      WalkSeqIsPreOrderReports(args, idx, msg);
      ReportsAppend(PreOrder(sel), PreOrderSeq(args), idx, msg);
    case NewClass(_, args, cb) =>
      WalkSeqIsPreOrderReports(args, idx, msg);
      if cb.Some? {
        WalkSeqIsPreOrderReports(cb.value.members, idx, msg);
        ReportsAppend(PreOrderSeq(args), PreOrderSeq(cb.value.members), idx, msg);
      } else {
        assert rest == PreOrderSeq(args);
      }
    case Ident(_, _) =>
    case Other(_, kids) =>
      WalkSeqIsPreOrderReports(kids, idx, msg);
  }

  lemma {:induction false} WalkSeqIsPreOrderReports(ts: seq<Tree>, idx: UsageIndex, msg: string)
    ensures WalkSeq(ts, idx, msg) == Reports(PreOrderSeq(ts), idx, msg)
    decreases ts
  {
    if |ts| > 0 {
      var n := |ts| - 1;
      WalkSeqIsPreOrderReports(ts[..n], idx, msg);
      WalkIsPreOrderReports(ts[n], idx, msg);
      ReportsAppend(PreOrderSeq(ts[..n]), PreOrder(ts[n]), idx, msg);
    }
  }

  /** Each lambda yields at most one issue. */
  lemma {:induction false} ReportsAtMostOnePerLambda(ns: seq<Tree>, idx: UsageIndex, msg: string)
    ensures |Reports(ns, idx, msg)| <= LambdaCount(ns)
  {
    if |ns| > 0 {
      ReportsAtMostOnePerLambda(ns[1..], idx, msg);
    }
  }

  /** A list of nodes yields exactly one issue per qualifying lambda. */
  lemma {:induction false} ReportsCountQualifying(ns: seq<Tree>, idx: UsageIndex, msg: string)
    ensures |Reports(ns, idx, msg)| == QualifyingCount(ns, idx)
  {
    if |ns| > 0 {
      ReportsCountQualifying(ns[1..], idx, msg);
    }
  }

  /** `i` is the issue of some qualifying lambda of `ns`. */
  ghost predicate IssueOfQualifyingLambda(i: Issue, ns: seq<Tree>, idx: UsageIndex, msg: string)
  {
    exists n :: n in ns && n.Lambda? && ReportsLambda(n, idx) && i == Issue(n.arrow, msg)
  }

  /** Every issue is anchored at the arrow of a qualifying lambda of the list. */
  lemma {:induction false} ReportedAreQualifyingLambdas(ns: seq<Tree>, idx: UsageIndex, msg: string, k: nat)
    requires k < |Reports(ns, idx, msg)|
    ensures IssueOfQualifyingLambda(Reports(ns, idx, msg)[k], ns, idx, msg)
  {
    var own := NodeIssues(ns[0], idx, msg);
    if k < |own| {
      assert ns[0] in ns;
    } else {
      ReportedAreQualifyingLambdas(ns[1..], idx, msg, k - |own|);
      var n :| n in ns[1..] && n.Lambda? && ReportsLambda(n, idx) &&
               Reports(ns[1..], idx, msg)[k - |own|] == Issue(n.arrow, msg);
      assert n in ns;
      assert Reports(ns, idx, msg)[k] == Issue(n.arrow, msg);
    }
  }

  /** Every qualifying lambda of the list yields an issue at its arrow. */
  lemma {:induction false} QualifyingLambdasAreReported(ns: seq<Tree>, idx: UsageIndex, msg: string, n: Tree)
    requires n in ns && n.Lambda? && ReportsLambda(n, idx)
    ensures Issue(n.arrow, msg) in Reports(ns, idx, msg)
  {
    if ns[0] != n {
      QualifyingLambdasAreReported(ns[1..], idx, msg, n);
    }
  }

  /**
    A scan of a tree reports one issue per qualifying lambda in it and nothing
    else: as many issues as qualifying lambdas (so at most one per lambda),
    each at the arrow of a qualifying lambda, and every qualifying lambda,
    however deeply nested, gets its issue.
   */
  lemma WalkReportsExactlyQualifyingLambdas(t: Tree, idx: UsageIndex, msg: string)
    ensures |Walk(t, idx, msg)| == QualifyingCount(PreOrder(t), idx)
    ensures |Walk(t, idx, msg)| <= LambdaCount(PreOrder(t))
    ensures forall k :: 0 <= k < |Walk(t, idx, msg)| ==>
              IssueOfQualifyingLambda(Walk(t, idx, msg)[k], PreOrder(t), idx, msg)
    ensures forall n :: n in PreOrder(t) && n.Lambda? && ReportsLambda(n, idx) ==>
              Issue(n.arrow, msg) in Walk(t, idx, msg)
  {
    WalkIsPreOrderReports(t, idx, msg);
    ReportsCountQualifying(PreOrder(t), idx, msg);
    ReportsAtMostOnePerLambda(PreOrder(t), idx, msg);
    forall k | 0 <= k < |Walk(t, idx, msg)|
      ensures IssueOfQualifyingLambda(Walk(t, idx, msg)[k], PreOrder(t), idx, msg)
    {
      ReportedAreQualifyingLambdas(PreOrder(t), idx, msg, k);
    }
    forall n | n in PreOrder(t) && n.Lambda? && ReportsLambda(n, idx)
      ensures Issue(n.arrow, msg) in Walk(t, idx, msg)
    {
      QualifyingLambdasAreReported(PreOrder(t), idx, msg, n);
    }
  }

  /**
    Visiting a lambda judges it and then always scans its body: the issues of
    the lambdas nested in the body follow, whatever the verdict on the outer one.
   */
  lemma LambdaVisitDescends(t: Tree, idx: UsageIndex, msg: string)
    requires t.Lambda?
    ensures |NodeIssues(t, idx, msg)| <= 1
    ensures Walk(t, idx, msg)[|NodeIssues(t, idx, msg)|..] == Walk(t.body, idx, msg)
    ensures ReportsLambda(t, idx) <==> |Walk(t, idx, msg)| == |Walk(t.body, idx, msg)| + 1
  {
  }
}
