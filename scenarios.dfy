/**
  Concrete lambdas and what the rule reports for each. Node ids are chosen
  by hand; the usage index is the one the semantic model would build.
 */
module Scenarios {
  import opened Syntax
  import opened Detector
  import opened Traversal

  /** `System.out` as a method-select receiver; it refers to no lambda parameter. */
  function SystemOut(id: NodeId): Tree
  {
    Other(id, [Ident(id + 1, None), Ident(id + 2, None)])
  }

  /** `s -> System.out.println(s)`: one issue, at the arrow. */
  lemma PrintlnReported(msg: string)
    ensures Walk(Lambda(1, [Param(2, 100)], 3, MethodInv(4, SystemOut(5), [Ident(9, Some(100))])),
                 map[100 := [9]], msg) == [Issue(3, msg)]
  {
  }

  /** `() -> new Foo()`: zero parameters and zero arguments, one issue. */
  lemma NullaryConstructorReported(msg: string)
    ensures Walk(Lambda(1, [], 2, NewClass(3, [], None)), map[], msg) == [Issue(2, msg)]
  {
  }

  /** `s -> { log(s); return process(s); }`: two statements, no issue. */
  lemma TwoStatementBlockNotReported(msg: string)
    ensures Walk(Lambda(1, [Param(2, 100)], 3,
                   Block(4, [ExprStmt(5, MethodInv(6, Ident(7, None), [Ident(8, Some(100))])),
                             Return(9, Some(MethodInv(10, Ident(11, None), [Ident(12, Some(100))])))])),
                 map[100 := [8, 12]], msg) == []
  {
  }

  /** `(x, y) -> new Pair(x, y) { }`: an anonymous class, no issue. */
  lemma AnonymousPairNotReported(msg: string)
    ensures Walk(Lambda(1, [Param(2, 100), Param(3, 101)], 4,
                   NewClass(5, [Ident(6, Some(100)), Ident(7, Some(101))], Some(ClassBody([])))),
                 map[100 := [6], 101 := [7]], msg) == []
  {
  }

  /** `x -> f(y -> g(y))`: the outer lambda does not use `x`; the nested one is reported on its own. */
  lemma NestedLambdaReportedAlone(msg: string)
    ensures Walk(Lambda(1, [Param(2, 100)], 3,
                   MethodInv(4, Ident(5, None),
                     [Lambda(6, [Param(7, 101)], 8, MethodInv(9, Ident(10, None), [Ident(11, Some(101))]))])),
                 map[100 := [], 101 := [11]], msg) == [Issue(8, msg)]
  {
  }
}
