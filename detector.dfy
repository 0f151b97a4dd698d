/**
  The decision of rule S1612: can this lambda be replaced by a method or
  constructor reference? The predicates follow the static helpers of
  ReplaceLambdaByMethodRefCheck one for one; the lemmas state what a match
  implies and which shapes never match.
 */
module Detector {
  import opened Syntax

  /** A method invocation or a `new` expression. */
  predicate IsCall(t: Tree)
  {
    t.MethodInv? || t.NewClass?
  }

  /**
    Every argument forwards the parameter at the same position: the call has
    as many arguments as the lambda has parameters, and for each position `i`
    the parameter has exactly one usage, which is the very node at argument `i`.
   */
  predicate ForwardsParams(args: seq<Tree>, params: seq<Param>, idx: UsageIndex)
  {
    |args| == |params| &&
    forall i :: 0 <= i < |args| ==> Usages(idx, params[i]) == [args[i].id]
  }

  /** `isMethodInvocation`: `tree` is present and is a call that forwards the lambda's parameters. */
  predicate IsMethodInvocation(tree: Option<Tree>, lambda: Tree, idx: UsageIndex)
    requires lambda.Lambda?
  {
    if tree.Some? && IsCall(tree.value) then
      if tree.value.NewClass? && tree.value.classBody.Some? then false
      else ForwardsParams(tree.value.args, lambda.params, idx)
    else false
  }

  predicate IsSingleMethodInvocationUsingLambdaParamAsArg(lambda: Tree, idx: UsageIndex)
    requires lambda.Lambda?
  {
    IsMethodInvocation(Some(lambda.body), lambda, idx)
  }

  predicate IsBlockWithOneStatement(t: Tree)
  {
    t.Block? && |t.stmts| == 1
  }

  predicate IsExpressionStatementInvokingMethod(statement: Tree, lambda: Tree, idx: UsageIndex)
    requires lambda.Lambda?
  {
    statement.ExprStmt? && IsMethodInvocation(Some(statement.expr), lambda, idx)
  }

  predicate IsReturnStatementInvokingMethod(statement: Tree, lambda: Tree, idx: UsageIndex)
    requires lambda.Lambda?
  {
    statement.Return? && IsMethodInvocation(statement.value, lambda, idx)
  }

  predicate IsBodyBlockInvokingMethod(lambda: Tree, idx: UsageIndex)
    requires lambda.Lambda?
  {
    if IsBlockWithOneStatement(lambda.body) then
      var statement := lambda.body.stmts[0];
      IsExpressionStatementInvokingMethod(statement, lambda, idx) ||
      IsReturnStatementInvokingMethod(statement, lambda, idx)
    else false
  }

  /** The condition under which `visitLambdaExpression` reports the lambda. */
  predicate ReportsLambda(lambda: Tree, idx: UsageIndex)
    requires lambda.Lambda?
  {
    IsSingleMethodInvocationUsingLambdaParamAsArg(lambda, idx) || IsBodyBlockInvokingMethod(lambda, idx)
  }

  // ---------------------------------------------------------------------------
  // A declarative reading of the same decision

  /**
    `c` is the one call a lambda body performs: the body itself, or the only
    statement of a block body, either evaluated or returned.
   */
  predicate SoleCall(body: Tree, c: Tree)
  {
    body == c ||
    (body.Block? && |body.stmts| == 1 &&
     ((body.stmts[0].ExprStmt? && body.stmts[0].expr == c) ||
      (body.stmts[0].Return? && body.stmts[0].value == Some(c))))
  }

  /**
    The sole usage of each parameter, in parameter order; `None` as soon as
    some parameter is used zero times or more than once.
   */
  function SoleUsages(params: seq<Param>, idx: UsageIndex): (r: Option<seq<NodeId>>)
    ensures r.Some? ==> |r.value| == |params|
    decreases |params|
  {
    if |params| == 0 then Some([])
    else
      var u := Usages(idx, params[0]);
      if |u| != 1 then None
      else
        match SoleUsages(params[1..], idx)
        case None => None
        case Some(rest) => Some([u[0]] + rest)
  }

  /** The identities of a call's argument nodes, in order. */
  function ArgIds(args: seq<Tree>): (r: seq<NodeId>)
    ensures |r| == |args|
  {
    if |args| == 0 then [] else [args[0].id] + ArgIds(args[1..])
  }

  /** Entry `i` of the sole usages is the one usage of parameter `i`. */
  lemma {:induction false} SoleUsagesAt(params: seq<Param>, idx: UsageIndex, i: nat)
    requires SoleUsages(params, idx).Some? && i < |params|
    ensures Usages(idx, params[i]) == [SoleUsages(params, idx).value[i]]
    decreases |params|
  {
    if i > 0 {
      SoleUsagesAt(params[1..], idx, i - 1);
    }
  }

  /** Entry `i` of the argument ids is the id of argument `i`. */
  lemma {:induction false} ArgIdsAt(args: seq<Tree>, i: nat)
    requires i < |args|
    ensures ArgIds(args)[i] == args[i].id
    decreases |args|
  {
    if i > 0 {
      ArgIdsAt(args[1..], i - 1);
    }
  }

  /** Sole usages exist exactly when every parameter is used exactly once. */
  lemma {:induction false} SoleUsagesSomeIff(params: seq<Param>, idx: UsageIndex)
    ensures SoleUsages(params, idx).Some? <==>
            forall i :: 0 <= i < |params| ==> |Usages(idx, params[i])| == 1
    decreases |params|
  {
    if |params| > 0 {
      SoleUsagesSomeIff(params[1..], idx);
      if forall i :: 0 <= i < |params| ==> |Usages(idx, params[i])| == 1 {
        assert |Usages(idx, params[0])| == 1;
        forall i | 0 <= i < |params| - 1
          ensures |Usages(idx, params[1..][i])| == 1
        {
          assert params[1..][i] == params[i + 1];
        }
      }
      if SoleUsages(params, idx).Some? {
        forall i | 0 <= i < |params|
          ensures |Usages(idx, params[i])| == 1
        {
          SoleUsagesAt(params, idx, i);
        }
      }
    }
  }

  /**
    A lambda is replaceable by a reference when its body performs one call, a
    method invocation or a `new` without anonymous class, whose argument list
    is exactly the parameters' sole usages, in order.
   */
  ghost predicate Replaceable(lambda: Tree, idx: UsageIndex)
    requires lambda.Lambda?
  {
    exists c :: SoleCall(lambda.body, c) &&
      IsCall(c) && !(c.NewClass? && c.classBody.Some?) &&
      SoleUsages(lambda.params, idx) == Some(ArgIds(c.args))
  }

  // ---------------------------------------------------------------------------
  // Lemmas

  /** Positional forwarding makes the parameters' sole usages exactly the argument ids. */
  lemma {:induction false} ForwardsParamsGivesSoleUsages(args: seq<Tree>, params: seq<Param>, idx: UsageIndex)
    requires ForwardsParams(args, params, idx)
    ensures SoleUsages(params, idx) == Some(ArgIds(args))
    decreases |params|
  {
    if |params| > 0 {
      assert ForwardsParams(args[1..], params[1..], idx) by {
        forall i | 0 <= i < |args| - 1
          ensures Usages(idx, params[1..][i]) == [args[1..][i].id]
        {
          assert Usages(idx, params[i + 1]) == [args[i + 1].id];
        }
      }
      ForwardsParamsGivesSoleUsages(args[1..], params[1..], idx);
      assert Usages(idx, params[0]) == [args[0].id];
    }
  }

  /** Positional forwarding, read as a whole: the argument ids are the parameters' sole usages. */
  lemma ForwardsParamsIffSoleUsages(args: seq<Tree>, params: seq<Param>, idx: UsageIndex)
    ensures ForwardsParams(args, params, idx) <==> SoleUsages(params, idx) == Some(ArgIds(args))
  {
    if ForwardsParams(args, params, idx) {
      ForwardsParamsGivesSoleUsages(args, params, idx);
    }
    if SoleUsages(params, idx) == Some(ArgIds(args)) {
      forall i | 0 <= i < |args|
        ensures Usages(idx, params[i]) == [args[i].id]
      {
        SoleUsagesAt(params, idx, i);
        ArgIdsAt(args, i);
      }
    }
  }

  /** The rule's decision agrees with the declarative reading, in both directions. */
  lemma ReportsIffReplaceable(lambda: Tree, idx: UsageIndex)
    requires lambda.Lambda?
    ensures ReportsLambda(lambda, idx) <==> Replaceable(lambda, idx)
  {
    var body := lambda.body;
    if ReportsLambda(lambda, idx) {
      var c := if IsSingleMethodInvocationUsingLambdaParamAsArg(lambda, idx) then body
               else if body.stmts[0].ExprStmt? && IsMethodInvocation(Some(body.stmts[0].expr), lambda, idx)
               then body.stmts[0].expr
               else body.stmts[0].value.value;
      ForwardsParamsIffSoleUsages(c.args, lambda.params, idx);
      assert SoleCall(body, c);
    }
    if Replaceable(lambda, idx) {
      var c :| SoleCall(body, c) &&
        IsCall(c) && !(c.NewClass? && c.classBody.Some?) &&
        SoleUsages(lambda.params, idx) == Some(ArgIds(c.args));
      ForwardsParamsIffSoleUsages(c.args, lambda.params, idx);
      assert IsMethodInvocation(Some(c), lambda, idx);
    }
  }

  /** A reported lambda's call has exactly as many arguments as the lambda has parameters. */
  lemma ReportRequiresArity(lambda: Tree, idx: UsageIndex)
    requires lambda.Lambda? && ReportsLambda(lambda, idx)
    ensures exists c :: SoleCall(lambda.body, c) && IsCall(c) && |c.args| == |lambda.params|
  {
  }

  /** A `new` expression with an anonymous class never qualifies, whatever its arguments. */
  lemma AnonymousClassNeverReported(lambda: Tree, idx: UsageIndex, c: Tree)
    requires lambda.Lambda? && SoleCall(lambda.body, c)
    requires c.NewClass? && c.classBody.Some?
    ensures !ReportsLambda(lambda, idx)
  {
  }

  /** A parameter without exactly one usage makes the lambda ineligible. */
  lemma UsageCountNotOneRejected(lambda: Tree, idx: UsageIndex, i: nat)
    requires lambda.Lambda? && i < |lambda.params|
    requires |Usages(idx, lambda.params[i])| != 1
    ensures !ReportsLambda(lambda, idx)
  {
  }

  /** A body block with no statement or with several statements never qualifies. */
  lemma BlockWithoutOneStatementRejected(lambda: Tree, idx: UsageIndex)
    requires lambda.Lambda? && lambda.body.Block? && |lambda.body.stmts| != 1
    ensures !ReportsLambda(lambda, idx)
  {
  }

  /**
    A single statement qualifies only as an expression statement or a return
    statement; a bare `return;` has no expression and never qualifies.
   */
  lemma OtherSingleStatementRejected(lambda: Tree, idx: UsageIndex)
    requires lambda.Lambda? && IsBlockWithOneStatement(lambda.body)
    requires var s := lambda.body.stmts[0]; !s.ExprStmt? && !(s.Return? && s.value.Some?)
    ensures !ReportsLambda(lambda, idx)
  {
  }

  /** An expression body that is not a call (an identifier, a nested lambda, ...) never qualifies. */
  lemma NonCallExpressionBodyRejected(lambda: Tree, idx: UsageIndex)
    requires lambda.Lambda? && !IsCall(lambda.body) && !lambda.body.Block?
    ensures !ReportsLambda(lambda, idx)
  {
  }

  /** With no parameters, a call with no arguments qualifies: `() -> new Foo()`, `() -> run()`. */
  lemma NullaryCallReported(lambda: Tree, idx: UsageIndex, c: Tree)
    requires lambda.Lambda? && lambda.params == [] && SoleCall(lambda.body, c)
    requires IsCall(c) && !(c.NewClass? && c.classBody.Some?) && c.args == []
    ensures ReportsLambda(lambda, idx)
  {
  }

  // ---------------------------------------------------------------------------
  // With the usage index the semantic model builds

  /** The index lists, for every parameter, the identifiers in the lambda body that refer to it. */
  predicate Resolved(lambda: Tree, idx: UsageIndex)
    requires lambda.Lambda?
  {
    forall i :: 0 <= i < |lambda.params| ==>
      Usages(idx, lambda.params[i]) == Refs(lambda.body, lambda.params[i].symbol)
  }

  /** `x -> f(x)`: one parameter forwarded to the call and used nowhere else is reported. */
  lemma SingleForwardedParameterReported(lambda: Tree, idx: UsageIndex, p: Param, c: NodeId, sel: Tree, u: NodeId)
    requires lambda.Lambda? && lambda.params == [p]
    requires lambda.body == MethodInv(c, sel, [Ident(u, Some(p.symbol))])
    requires Refs(sel, p.symbol) == []
    requires Resolved(lambda, idx)
    ensures ReportsLambda(lambda, idx)
  {
    var args := [Ident(u, Some(p.symbol))];
    assert args[..0] == [];
    assert RefsSeq(args, p.symbol) == [u];
    assert Usages(idx, lambda.params[0]) == [u];
  }

  /** `(a, b) -> f(b, a)`: swapped forwarding is not reported. */
  lemma SwappedForwardingRejected(lambda: Tree, idx: UsageIndex, a: Param, b: Param,
                                  c: NodeId, sel: Tree, ua: NodeId, ub: NodeId)
    requires lambda.Lambda? && lambda.params == [a, b] && a.symbol != b.symbol
    requires lambda.body == MethodInv(c, sel, [Ident(ub, Some(b.symbol)), Ident(ua, Some(a.symbol))])
    requires ua != ub
    requires Resolved(lambda, idx)
    ensures !ReportsLambda(lambda, idx)
  {
    var args := [Ident(ub, Some(b.symbol)), Ident(ua, Some(a.symbol))];
    assert args[..1][..0] == [];
    assert args[..1] == [args[0]];
    assert RefsSeq(args[..1], a.symbol) == [];
    assert Refs(args[1], a.symbol) == [ua];
    assert RefsSeq(args, a.symbol) == [ua];
    assert Usages(idx, lambda.params[0]) == Refs(sel, a.symbol) + [ua];
  }

  /** The identifiers a lambda body holds are those of the one call it performs. */
  lemma RefsOfSoleCall(body: Tree, c: Tree, s: SymbolId)
    requires SoleCall(body, c)
    ensures Refs(body, s) == Refs(c, s)
  {
    if body != c {
      var st := body.stmts[0];
      assert body.stmts[..|body.stmts| - 1] == [];
      assert RefsSeq(body.stmts, s) == Refs(st, s);
    }
  }

  /**
    A parameter that two arguments of the lambda's call refer to
    (`(x, y) -> f(x, x)`, `(x, y) -> { return f(x, x); }`) has at least two
    usages, so the lambda is not reported.
   */
  lemma DuplicatedArgumentRejected(lambda: Tree, idx: UsageIndex, c: Tree, k: nat, i: nat, j: nat)
    requires lambda.Lambda? && k < |lambda.params| && Resolved(lambda, idx)
    requires SoleCall(lambda.body, c) && IsCall(c) && i < j < |c.args|
    requires c.args[i].Ident? && c.args[i].ref == Some(lambda.params[k].symbol)
    requires c.args[j].Ident? && c.args[j].ref == Some(lambda.params[k].symbol)
    ensures !ReportsLambda(lambda, idx)
  {
    var s := lambda.params[k].symbol;
    TwoReferringArgumentsCounted(c.args, i, j, s);
    assert c.args[..|c.args|] == c.args;
    RefsOfSoleCall(lambda.body, c, s);
    assert |Refs(c, s)| >= |RefsSeq(c.args, s)|;
    UsageCountNotOneRejected(lambda, idx, k);
  }

  /**
    A parameter forwarded as an argument and also used in the call's method
    select (`x -> x.foo(x)`) has at least two usages, so the lambda is not
    reported.
   */
  lemma ArgumentAlsoInSelectRejected(lambda: Tree, idx: UsageIndex, c: Tree, k: nat, j: nat)
    requires lambda.Lambda? && k < |lambda.params| && Resolved(lambda, idx)
    requires SoleCall(lambda.body, c) && c.MethodInv? && j < |c.args|
    requires c.args[j].Ident? && c.args[j].ref == Some(lambda.params[k].symbol)
    requires Refs(c.methodSelect, lambda.params[k].symbol) != []
    ensures !ReportsLambda(lambda, idx)
  {
    var s := lambda.params[k].symbol;
    ReferringArgumentCounted(c.args, j, s);
    assert c.args[..|c.args|] == c.args;
    RefsOfSoleCall(lambda.body, c, s);
    assert |Refs(c, s)| >= 2;
    UsageCountNotOneRejected(lambda, idx, k);
  }
}
