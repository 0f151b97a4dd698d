# Rule S1612: replace a lambda by a method reference

A Dafny model of the SonarQube Java rule S1612, `ReplaceLambdaByMethodRefCheck`.
The rule visits every lambda of a Java file. It reports a lambda when the lambda only
forwards its parameters, in order and untouched, to one method invocation or one
`new` expression. Such a lambda could be written as a method or constructor
reference (`s -> System.out.println(s)` becomes `System.out::println`).

The model has five modules:

- `Syntax` (`syntax.dfy`) defines the tree. It has the node kinds the rule looks at
  (lambda, block, expression statement, `return`, method invocation, `new`,
  identifier) and one `Other` kind for every other node. Each node has a `NodeId`.
  Java compares tree nodes by object identity, so the model compares them by id.
  The semantic model's usage index is a map from a symbol to the ids of the
  identifiers that use it. `Refs` collects those ids from a tree.
- `Detector` (`detector.dfy`) has one predicate for each static helper of the
  rule. It also has a declarative reading of the decision (`Replaceable`): the
  body performs one call, and the call's argument ids are exactly the parameters'
  sole usages, in order. Lemmas connect the two readings and state the
  properties of the decision.
- `Traversal` (`traversal.dfy`) states the visitor as a function, `Walk`. `Walk`
  is proved equal to an independent reading: list every node in pre-order, then
  keep the issue of each qualifying lambda.
- `Check` (`check.dfy`) holds the classes. `ScannerContext` is the file's
  context, and its `issues` field is the reporting sink.
  `ReplaceLambdaByMethodRefCheck` stores the context in its `context` field and
  walks the tree with recursive methods. Those methods are proved to report
  exactly `Walk`'s issues. `AnalyzeFile` is the analyzer's Java-version gate.
- `Scenarios` (`scenarios.dfy`) works through concrete lambdas.

## Model

| member | source | states |
|---|---|---|
| `Check.AnalyzeFile` | java-checks/src/main/java/org/sonar/java/checks/ReplaceLambdaByMethodRefCheck.java:49-51 | The rule runs on a file only when the Java version is Java 8 compatible. Otherwise no issue is added and the context field is left alone. |
| `Check.ReplaceLambdaByMethodRefCheck.ScanFile` | java-checks/src/main/java/org/sonar/java/checks/ReplaceLambdaByMethodRefCheck.java:54-59 | The context field always becomes the given context. The tree is scanned only when a semantic model is present. The sink then gains exactly `Walk`'s issues, in order, and nothing otherwise. |
| `Check.ReplaceLambdaByMethodRefCheck.Scan` | java-checks/src/main/java/org/sonar/java/checks/ReplaceLambdaByMethodRefCheck.java:57 | Scanning any node appends exactly that node's `Walk` issues to the sink. Lambdas go to `VisitLambdaExpression`; every other node has its children scanned in source order. |
| `Check.ReplaceLambdaByMethodRefCheck.ScanAll` | java-checks/src/main/java/org/sonar/java/checks/ReplaceLambdaByMethodRefCheck.java:66 | Scanning a list of children appends their issues in list order. The loop invariant says the prefix scanned so far has been reported. |
| `Check.ReplaceLambdaByMethodRefCheck.VisitLambdaExpression` | java-checks/src/main/java/org/sonar/java/checks/ReplaceLambdaByMethodRefCheck.java:62-67 | A qualifying lambda gets one issue at its arrow token. The body is scanned afterwards in every case. |
| `Check.ScannerContext.ReportIssue` | java-checks/src/main/java/org/sonar/java/checks/ReplaceLambdaByMethodRefCheck.java:64 | Reporting appends one (anchor, message) issue to the sink and changes nothing else. |
| `Check.Message` | java-checks/src/main/java/org/sonar/java/checks/ReplaceLambdaByMethodRefCheck.java:64 | The message is the fixed text followed by the Java version's compatibility note. |
| `Detector.IsMethodInvocation` | java-checks/src/main/java/org/sonar/java/checks/ReplaceLambdaByMethodRefCheck.java:94-112 | The tree is present and is a method invocation, or a `new` without an anonymous class body. Its arguments forward the lambda's parameters positionally (`ForwardsParams`). |
| `Detector.ForwardsParams` | java-checks/src/main/java/org/sonar/java/checks/ReplaceLambdaByMethodRefCheck.java:105-109 | The argument count equals the parameter count. For each position `i`, parameter `i`'s usage list is exactly the one node at argument `i`. |
| `Detector.IsSingleMethodInvocationUsingLambdaParamAsArg` | java-checks/src/main/java/org/sonar/java/checks/ReplaceLambdaByMethodRefCheck.java:69-71 | The lambda body itself is a qualifying call. |
| `Detector.IsBodyBlockInvokingMethod` | java-checks/src/main/java/org/sonar/java/checks/ReplaceLambdaByMethodRefCheck.java:73-80 | The body is a block with one statement, and that statement is a qualifying expression statement or return statement. |
| `Detector.IsBlockWithOneStatement` | java-checks/src/main/java/org/sonar/java/checks/ReplaceLambdaByMethodRefCheck.java:82-84 | The node is a block holding exactly one statement. |
| `Detector.IsExpressionStatementInvokingMethod` | java-checks/src/main/java/org/sonar/java/checks/ReplaceLambdaByMethodRefCheck.java:86-88 | The statement is an expression statement whose expression is a qualifying call. |
| `Detector.IsReturnStatementInvokingMethod` | java-checks/src/main/java/org/sonar/java/checks/ReplaceLambdaByMethodRefCheck.java:90-92 | The statement is a `return` whose expression is present and is a qualifying call. |
| `Detector.ReportsLambda` | java-checks/src/main/java/org/sonar/java/checks/ReplaceLambdaByMethodRefCheck.java:63 | The lambda is reported when either body form qualifies. |
| `Check.ReplaceLambdaByMethodRefCheck.IsCompatibleWithJavaVersion` | java-checks/src/main/java/org/sonar/java/checks/ReplaceLambdaByMethodRefCheck.java:49-51 | The rule is compatible exactly with Java-8-compatible versions. |
| `Traversal.Walk` | java-checks/src/main/java/org/sonar/java/checks/ReplaceLambdaByMethodRefCheck.java:62-67 | The issues of a scan: a lambda yields its own issue, when it qualifies, followed by its body's issues. Every other node yields its children's issues in source order. |
| `Detector.SoleUsages` | java-checks/src/main/java/org/sonar/java/checks/ReplaceLambdaByMethodRefCheck.java:106-108 | When the result is present, it has one entry per parameter. |
| `Detector.SoleUsagesSomeIff` | java-checks/src/main/java/org/sonar/java/checks/ReplaceLambdaByMethodRefCheck.java:106-108 | The result is present exactly when every parameter has exactly one usage (both directions). |
| `Detector.SoleUsagesAt` | java-checks/src/main/java/org/sonar/java/checks/ReplaceLambdaByMethodRefCheck.java:107-108 | Entry `i` of that result is parameter `i`'s one and only usage. |
| `Detector.ArgIdsAt` | java-checks/src/main/java/org/sonar/java/checks/ReplaceLambdaByMethodRefCheck.java:108 | Entry `i` of the argument id list is the identity of argument `i`. |
| `Detector.ForwardsParamsGivesSoleUsages` | java-checks/src/main/java/org/sonar/java/checks/ReplaceLambdaByMethodRefCheck.java:105-109 | When the per-index check passes, the parameters' sole usages are exactly the call's argument ids. |
| `Detector.ForwardsParamsIffSoleUsages` | java-checks/src/main/java/org/sonar/java/checks/ReplaceLambdaByMethodRefCheck.java:105-109 | The source's per-index check of arity and usages holds exactly when the call's argument ids equal the list of the parameters' sole usages. |
| `Detector.ReportsIffReplaceable` | java-checks/src/main/java/org/sonar/java/checks/ReplaceLambdaByMethodRefCheck.java:63-112 | The reporting condition holds exactly when the body performs one call and that call qualifies. The call must be the body itself, or the expression of a block's only statement (evaluated or returned). It must have no anonymous class, and its argument ids must be the parameters' sole usages in order. Both directions are proved. |
| `Detector.ReportRequiresArity` | java-checks/src/main/java/org/sonar/java/checks/ReplaceLambdaByMethodRefCheck.java:105 | A reported lambda's call has as many arguments as the lambda has parameters. |
| `Detector.AnonymousClassNeverReported` | java-checks/src/main/java/org/sonar/java/checks/ReplaceLambdaByMethodRefCheck.java:97-100 | A `new` with an anonymous class body is never reported, whatever its arguments. |
| `Detector.UsageCountNotOneRejected` | java-checks/src/main/java/org/sonar/java/checks/ReplaceLambdaByMethodRefCheck.java:107-108 | A parameter with zero usages, or with two or more, prevents the report. |
| `Detector.BlockWithoutOneStatementRejected` | java-checks/src/main/java/org/sonar/java/checks/ReplaceLambdaByMethodRefCheck.java:73-84 | An empty block body never qualifies, and neither does a block of two or more statements. |
| `Detector.OtherSingleStatementRejected` | java-checks/src/main/java/org/sonar/java/checks/ReplaceLambdaByMethodRefCheck.java:86-95 | A single statement that is neither an expression statement nor a `return` with an expression never qualifies. A bare `return;` is one such statement. |
| `Detector.NonCallExpressionBodyRejected` | java-checks/src/main/java/org/sonar/java/checks/ReplaceLambdaByMethodRefCheck.java:94-95 | An expression body that is not a method invocation or a `new` expression never qualifies. |
| `Detector.NullaryCallReported` | java-checks/src/main/java/org/sonar/java/checks/ReplaceLambdaByMethodRefCheck.java:105-106 | With zero parameters, a call with zero arguments and no anonymous class qualifies, because the per-index check is vacuous. |
| `Detector.SingleForwardedParameterReported` | java-checks/src/main/java/org/sonar/java/checks/ReplaceLambdaByMethodRefCheck.java:69-71 | `x -> f(x)` is reported when `x` appears nowhere else. The usage index is the one resolved from the body. |
| `Detector.SwappedForwardingRejected` | java-checks/src/main/java/org/sonar/java/checks/ReplaceLambdaByMethodRefCheck.java:105-109 | `(a, b) -> f(b, a)` is not reported. |
| `Detector.DuplicatedArgumentRejected` | java-checks/src/main/java/org/sonar/java/checks/ReplaceLambdaByMethodRefCheck.java:107-108 | A parameter passed as two different arguments of the lambda's one call has two usages, so the lambda is not reported. This holds whether the call is the body, an expression statement or a returned value. |
| `Detector.ArgumentAlsoInSelectRejected` | java-checks/src/main/java/org/sonar/java/checks/ReplaceLambdaByMethodRefCheck.java:107-108 | A parameter forwarded as an argument and also used in the call's method select (`x -> x.foo(x)`) has two usages, so the lambda is not reported. Any other second use in the body is covered by `UsageCountNotOneRejected` under `Resolved`. |
| `Detector.RefsOfSoleCall` | java-checks/src/main/java/org/sonar/java/checks/ReplaceLambdaByMethodRefCheck.java:73-92 | The identifiers a lambda body refers to are exactly those of the one call it performs, in any of the three body positions. |
| `Traversal.WalkIsPreOrderReports` | java-checks/src/main/java/org/sonar/java/checks/ReplaceLambdaByMethodRefCheck.java:62-67 | The visitor's issues are the qualifying lambdas' issues, taken over all nodes in pre-order. |
| `Traversal.WalkSeqIsPreOrderReports` | java-checks/src/main/java/org/sonar/java/checks/ReplaceLambdaByMethodRefCheck.java:66 | The same holds for a list of children scanned in order. |
| `Traversal.ReportsAppend` | java-checks/src/main/java/org/sonar/java/checks/ReplaceLambdaByMethodRefCheck.java:62-67 | The issues of two node lists in sequence are the first list's issues followed by the second list's. |
| `Traversal.ReportsAtMostOnePerLambda` | java-checks/src/main/java/org/sonar/java/checks/ReplaceLambdaByMethodRefCheck.java:63-65 | A list of nodes yields at most one issue per lambda it contains. |
| `Traversal.ReportedAreQualifyingLambdas` | java-checks/src/main/java/org/sonar/java/checks/ReplaceLambdaByMethodRefCheck.java:63-64 | Every issue sits at the arrow of a qualifying lambda in the list. |
| `Traversal.QualifyingLambdasAreReported` | java-checks/src/main/java/org/sonar/java/checks/ReplaceLambdaByMethodRefCheck.java:63-64 | Every qualifying lambda in the list gets an issue at its arrow. |
| `Traversal.WalkReportsExactlyQualifyingLambdas` | java-checks/src/main/java/org/sonar/java/checks/ReplaceLambdaByMethodRefCheck.java:62-67 | A scan gives exactly as many issues as there are qualifying lambdas, so at most one per lambda. Every issue belongs to a qualifying lambda. Every qualifying lambda, however deeply nested, is reported. |
| `Traversal.ReportsCountQualifying` | java-checks/src/main/java/org/sonar/java/checks/ReplaceLambdaByMethodRefCheck.java:63-65 | A list of nodes yields exactly one issue per qualifying lambda it contains. |
| `Traversal.LambdaVisitDescends` | java-checks/src/main/java/org/sonar/java/checks/ReplaceLambdaByMethodRefCheck.java:62-67 | Visiting a lambda yields at most one issue of its own. The body's issues follow in every case, so nested lambdas are judged independently of the outer one. |
| `Scenarios.PrintlnReported` | java-checks/src/main/java/org/sonar/java/checks/ReplaceLambdaByMethodRefCheck.java:62-67 | `s -> System.out.println(s)` yields one issue, at its arrow. |
| `Scenarios.NullaryConstructorReported` | java-checks/src/main/java/org/sonar/java/checks/ReplaceLambdaByMethodRefCheck.java:97-106 | `() -> new Foo()` yields one issue. |
| `Scenarios.TwoStatementBlockNotReported` | java-checks/src/main/java/org/sonar/java/checks/ReplaceLambdaByMethodRefCheck.java:73-84 | `s -> { log(s); return process(s); }` yields no issue. |
| `Scenarios.AnonymousPairNotReported` | java-checks/src/main/java/org/sonar/java/checks/ReplaceLambdaByMethodRefCheck.java:97-100 | `(x, y) -> new Pair(x, y) { }` yields no issue. |
| `Scenarios.NestedLambdaReportedAlone` | java-checks/src/main/java/org/sonar/java/checks/ReplaceLambdaByMethodRefCheck.java:66 | In `x -> f(y -> g(y))`, the outer lambda does not use `x` and is not reported. The inner lambda is reported. |

## Left out

- `StatementExpressionListTreeImpl`: it only builds a parser list node and has no behaviour of its own.
- Semantic resolution: the usage index is an input. The detector lemmas hold for any index. The tree-level lemmas (`SingleForwardedParameterReported`, `SwappedForwardingRejected`, `DuplicatedArgumentRejected`) assume `Resolved`, meaning that each parameter's usages are exactly the identifiers in the lambda body that refer to it. A symbol that the index does not list is treated as having no usages.
- `JavaVersion`: how the version is detected, and the text of its compatibility note, come from library code that is not part of this model. The version is reduced to a boolean (`java8Compatible`) and an opaque note string.
- `AnalyzeFile`: the analyzer that calls `isCompatibleWithJavaVersion` before `scanFile` is not part of this model. `AnalyzeFile` stands for that call.
- The traversal skeleton: `BaseTreeVisitor` is not part of this model. `Scan` and `ScanAll` give the default behaviour for the node kinds modelled: visit every child in source order.
- Parameter declarations: their types, annotations and modifiers are not walked.
- Other node kinds: every other kind is an `Other` node with only children.
- Parts of a `new` expression: the enclosing expression, the type and the type arguments are not represented.
- The first argument of `reportIssue` is the rule object itself. It is not kept in an issue.
- The rule's scan of a file is a function of the tree, the usage index and the version. Two scans of the same file therefore report the same issues in the same order. No separate member states this.
- Missing usage list: the rule reads `symbol().usages()` directly. A symbol the index does not list is therefore treated as having no usages, and no error is raised.
- Node ids: ids are assumed distinct within a tree, as Java object identity guarantees. Nothing in the model enforces this. With a repeated id, a non-identifier argument could equal a usage and be accepted where Java would reject it.
- Failure: the source has no error path of its own. A cast to the wrong kind cannot happen, because the datatype's discriminators replace the casts.
