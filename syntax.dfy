/**
  The part of the Java syntax tree that rule S1612 (replace a lambda by a
  method reference) looks at, together with the symbol/usage index the
  semantic model attaches to it.

  Every node carries a `NodeId`. Java tree nodes are compared by object
  identity, so two nodes are "the same node" exactly when their ids are equal;
  two identifiers with the same name at different places have different ids.
 */
module Syntax {

  datatype Option<+T> = None | Some(value: T)

  /** Identity of a tree node (or of a token, such as a lambda's arrow). */
  type NodeId = nat

  /** A resolved declaration that identifiers may refer to. */
  type SymbolId = nat

  /** A lambda parameter declaration and the symbol it declares. */
  datatype Param = Param(id: NodeId, symbol: SymbolId)

  /**
    The node kinds the rule distinguishes. Every other kind of node (field
    access, literal, binary expression, ...) is an `Other` node that only has
    children. A `NewClass` node's `classBody` is its anonymous class, when it
    has one.
   */
  datatype Tree =
    | Lambda(id: NodeId, params: seq<Param>, arrow: NodeId, body: Tree)
    | Block(id: NodeId, stmts: seq<Tree>)
    | ExprStmt(id: NodeId, expr: Tree)
    | Return(id: NodeId, value: Option<Tree>)
    | MethodInv(id: NodeId, methodSelect: Tree, args: seq<Tree>)
    | NewClass(id: NodeId, args: seq<Tree>, classBody: Option<ClassBody>)
    | Ident(id: NodeId, ref: Option<SymbolId>)
    | Other(id: NodeId, children: seq<Tree>)

  /** The members of an anonymous class. */
  datatype ClassBody = ClassBody(members: seq<Tree>)

  /** For each symbol, its usages: the ids of the identifiers that refer to it, in source order. */
  type UsageIndex = map<SymbolId, seq<NodeId>>

  /** The usages of a parameter's symbol; a symbol the index does not list has none. */
  function Usages(idx: UsageIndex, p: Param): seq<NodeId>
  {
    if p.symbol in idx then idx[p.symbol] else []
  }

  /** The ids of the identifiers in `t` that refer to symbol `s`, in source (pre-)order. */
  function Refs(t: Tree, s: SymbolId): seq<NodeId>
    decreases t
  {
    match t
    case Lambda(_, _, _, body) => Refs(body, s)
    case Block(_, stmts) => RefsSeq(stmts, s)
    case ExprStmt(_, e) => Refs(e, s)
    case Return(_, v) => if v.Some? then Refs(v.value, s) else []
    case MethodInv(_, sel, args) => Refs(sel, s) + RefsSeq(args, s)
    case NewClass(_, args, cb) => RefsSeq(args, s) + (if cb.Some? then RefsSeq(cb.value.members, s) else [])
    case Ident(id, r) => if r == Some(s) then [id] else []
    case Other(_, kids) => RefsSeq(kids, s)
  }

  function RefsSeq(ts: seq<Tree>, s: SymbolId): seq<NodeId>
    decreases ts
  {
    if |ts| == 0 then [] else RefsSeq(ts[..|ts| - 1], s) + Refs(ts[|ts| - 1], s)
  }

  /**
    Counting identifier references over a list of nodes: a longer prefix has
    at least as many, and each node adds its own.
   */
  lemma {:induction false} RefsSeqPrefix(ts: seq<Tree>, m: nat, n: nat, s: SymbolId)
    requires m <= n <= |ts|
    ensures |RefsSeq(ts[..m], s)| + |RefsSeq(ts[m..n], s)| == |RefsSeq(ts[..n], s)|
    decreases n
  {
    if m == n {
      assert ts[m..n] == [];
    } else {
      RefsSeqPrefix(ts, m, n - 1, s);
      assert ts[..n][..n - 1] == ts[..n - 1];
      assert ts[m..n][..n - 1 - m] == ts[m..n - 1];
      assert ts[m..n][n - 1 - m] == ts[n - 1];
    }
  }

  /** Two identifiers of a list that refer to `s` are two references to `s`. */
  lemma TwoReferringArgumentsCounted(ts: seq<Tree>, i: nat, j: nat, s: SymbolId)
    requires i < j < |ts|
    requires ts[i].Ident? && ts[i].ref == Some(s) && ts[j].Ident? && ts[j].ref == Some(s)
    ensures |RefsSeq(ts[..|ts|], s)| >= 2
  {
    RefsSeqPrefix(ts, i, i + 1, s);
    RefsSeqPrefix(ts, i + 1, j, s);
    RefsSeqPrefix(ts, j, j + 1, s);
    RefsSeqPrefix(ts, j + 1, |ts|, s);
    assert ts[i..i + 1] == [ts[i]] && ts[i..i + 1][..0] == [];
    assert ts[j..j + 1] == [ts[j]] && ts[j..j + 1][..0] == [];
  }

  /** An identifier of a list that refers to `s` is a reference to `s`. */
  lemma ReferringArgumentCounted(ts: seq<Tree>, j: nat, s: SymbolId)
    requires j < |ts| && ts[j].Ident? && ts[j].ref == Some(s)
    ensures |RefsSeq(ts[..|ts|], s)| >= 1
  {
    RefsSeqPrefix(ts, j, j + 1, s);
    RefsSeqPrefix(ts, j + 1, |ts|, s);
    assert ts[j..j + 1] == [ts[j]] && ts[j..j + 1][..0] == [];
  }
}
