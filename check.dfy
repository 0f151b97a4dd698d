/**
  The stateful side of rule S1612: the scanner context handed to the rule for
  one file (its tree, its semantic model, its Java version and the sink the
  rule reports into) and the rule object, which keeps the context in a field
  and walks the tree as a visitor.
 */
module Check {
  import opened Syntax
  import opened Detector
  import opened Traversal

  /**
    The project's Java version, as far as the rule uses it: whether it is
    Java 8 compatible, and the compatibility note appended to every message.
   */
  datatype JavaVersion = JavaVersion(java8Compatible: bool, compatibilityMessage: string)

  const IssueText := "Replace this lambda with a method reference."

  /** The message of every issue: the fixed text followed by the version's compatibility note. */
  function Message(version: JavaVersion): (m: string)
    ensures |m| == |IssueText| + |version.compatibilityMessage|
    ensures m[..|IssueText|] == IssueText && m[|IssueText|..] == version.compatibilityMessage
  {
    IssueText + version.compatibilityMessage
  }

  /** The context of the scan of one file; `issues` is the reporting sink. */
  class ScannerContext {
    const tree: Tree
    /** The usage index of the semantic model, or `None` when the file has no semantic model. */
    const semanticModel: Option<UsageIndex>
    const javaVersion: JavaVersion
    var issues: seq<Issue>

    constructor (tree: Tree, semanticModel: Option<UsageIndex>, javaVersion: JavaVersion)
      ensures this.tree == tree && this.semanticModel == semanticModel && this.javaVersion == javaVersion
      ensures issues == []
    {
      this.tree := tree;
      this.semanticModel := semanticModel;
      this.javaVersion := javaVersion;
      issues := [];
    }

    method ReportIssue(anchor: NodeId, message: string)
      modifies this
      ensures issues == old(issues) + [Issue(anchor, message)]
    {
      issues := issues + [Issue(anchor, message)];
    }
  }

  class ReplaceLambdaByMethodRefCheck {
    var context: ScannerContext?

    constructor ()
      ensures context == null
    {
      context := null;
    }

    function IsCompatibleWithJavaVersion(version: JavaVersion): bool
    {
      version.java8Compatible
    }

    /**
      Remembers the context; scans the tree only when there is a semantic model,
      and then reports exactly the issues of `Walk`.
     */
    method ScanFile(ctx: ScannerContext)
      modifies this, ctx
      ensures context == ctx
      ensures ctx.issues == old(ctx.issues) +
        (if ctx.semanticModel.Some? then Walk(ctx.tree, ctx.semanticModel.value, Message(ctx.javaVersion)) else [])
    {
      context := ctx;
      if ctx.semanticModel.Some? {
        Scan(ctx.tree);
      }
    }

    /** Dispatches on the node kind: lambdas go to `VisitLambdaExpression`, other nodes have their children scanned. */
    method Scan(t: Tree)
      requires context != null && context.semanticModel.Some?
      modifies context
      ensures context.issues ==
        old(context.issues) + Walk(t, context.semanticModel.value, Message(context.javaVersion))
      decreases t, 1
    {
      match t
      case Lambda(_, _, _, _) => VisitLambdaExpression(t);
      case Block(_, stmts) => ScanAll(stmts);
      case ExprStmt(_, e) => Scan(e);
      case Return(_, v) => if v.Some? { Scan(v.value); }
      case MethodInv(_, sel, args) => Scan(sel); ScanAll(args);
      case NewClass(_, args, cb) =>
        ScanAll(args);
        if cb.Some? { ScanAll(cb.value.members); }
      case Ident(_, _) =>
      case Other(_, kids) => ScanAll(kids);
    }

    /** Scans a list of nodes in order. */
    method ScanAll(ts: seq<Tree>)
      requires context != null && context.semanticModel.Some?
      modifies context
      ensures context.issues ==
        old(context.issues) + WalkSeq(ts, context.semanticModel.value, Message(context.javaVersion))
      decreases ts
    {
      var idx, msg := context.semanticModel.value, Message(context.javaVersion);
      var i := 0;
      while i < |ts|
        invariant 0 <= i <= |ts|
        invariant context.issues == old(context.issues) + WalkSeq(ts[..i], idx, msg)
      {
        Scan(ts[i]);
        assert ts[..i + 1][..i] == ts[..i];
        i := i + 1;
      }
      assert ts[..i] == ts;
    }

    /** Reports the lambda at its arrow when it qualifies, then always scans its body. */
    method VisitLambdaExpression(t: Tree)
      requires t.Lambda?
      requires context != null && context.semanticModel.Some?
      modifies context
      ensures context.issues ==
        old(context.issues) + Walk(t, context.semanticModel.value, Message(context.javaVersion))
      decreases t, 0
    {
      var idx := context.semanticModel.value;
      if IsSingleMethodInvocationUsingLambdaParamAsArg(t, idx) || IsBodyBlockInvokingMethod(t, idx) {
        context.ReportIssue(t.arrow, IssueText + context.javaVersion.compatibilityMessage);
      }
      Scan(t.body);
    }
  }

  /**
    How the analyzer runs the rule on one file: only when the project's Java
    version is compatible with the rule does it hand the file to `ScanFile`.
   */
  method AnalyzeFile(check: ReplaceLambdaByMethodRefCheck, ctx: ScannerContext)
    modifies check, ctx
    ensures ctx.javaVersion.java8Compatible ==> check.context == ctx
    ensures !ctx.javaVersion.java8Compatible ==> check.context == old(check.context)
    ensures ctx.issues == old(ctx.issues) +
      (if ctx.javaVersion.java8Compatible && ctx.semanticModel.Some?
       then Walk(ctx.tree, ctx.semanticModel.value, Message(ctx.javaVersion)) else [])
  {
    if check.IsCompatibleWithJavaVersion(ctx.javaVersion) {
      check.ScanFile(ctx);
    }
  }
}
