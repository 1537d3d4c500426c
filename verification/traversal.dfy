/**
  The visitor's pre-order walk over a whole tree. Parent links are replaced
  by the ancestor path handed down the walk. A variable declaration is
  checked and never descended into: its bindings, initializers and accessor
  bodies are not visited.
 */
module Traversal {
  import opened Syntax
  import opened SingletonMatcher

  /** A variable declaration the visitor reaches, together with its ancestors. */
  datatype Site = Site(decl: VariableDecl, path: seq<Scope>)

  // The walk itself: violations in the order the visitor appends them.

  function WalkNode(n: Node, path: seq<Scope>): seq<nat> {
    match n
    case Variable(d) => VisitVariableDecl(d, path)
    case Nominal(kind, name, members) => WalkNodes(members, path + [TypeScope(kind, name)])
    case Container(kind, members) => WalkNodes(members, path + [ContainerScope(kind)])
    case ExpressionStatement(e) => WalkExpr(e, path)
  }

  function WalkNodes(ns: seq<Node>, path: seq<Scope>): seq<nat> {
    if ns == [] then [] else WalkNode(ns[0], path) + WalkNodes(ns[1..], path)
  }

  function WalkExpr(e: Expr, path: seq<Scope>): seq<nat> {
    match e
    case DeclReference(_) => []
    case MemberAccess(base, _) => if base.Some? then WalkExpr(base.value, path) else []
    case FunctionCall(callee, args) => WalkExpr(callee, path) + WalkExprs(args, path)
    case Closure(statements) => WalkNodes(statements, path + [ClosureScope])
    case Literal(_) => []
    case OtherExpr(subexpressions) => WalkExprs(subexpressions, path)
  }

  function WalkExprs(es: seq<Expr>, path: seq<Scope>): seq<nat> {
    if es == [] then [] else WalkExpr(es[0], path) + WalkExprs(es[1..], path)
  }

  // Reference definition: first enumerate the declarations the visitor
  // reaches, in document order, then keep the positions of those that match.

  function NodeCandidates(n: Node, path: seq<Scope>): seq<Site> {
    match n
    case Variable(d) => [Site(d, path)]
    case Nominal(kind, name, members) => NodesCandidates(members, path + [TypeScope(kind, name)])
    case Container(kind, members) => NodesCandidates(members, path + [ContainerScope(kind)])
    case ExpressionStatement(e) => ExprCandidates(e, path)
  }

  function NodesCandidates(ns: seq<Node>, path: seq<Scope>): seq<Site> {
    if ns == [] then [] else NodeCandidates(ns[0], path) + NodesCandidates(ns[1..], path)
  }

  function ExprCandidates(e: Expr, path: seq<Scope>): seq<Site> {
    match e
    case DeclReference(_) => []
    case MemberAccess(base, _) => if base.Some? then ExprCandidates(base.value, path) else []
    case FunctionCall(callee, args) => ExprCandidates(callee, path) + ExprsCandidates(args, path)
    case Closure(statements) => NodesCandidates(statements, path + [ClosureScope])
    case Literal(_) => []
    case OtherExpr(subexpressions) => ExprsCandidates(subexpressions, path)
  }

  function ExprsCandidates(es: seq<Expr>, path: seq<Scope>): seq<Site> {
    if es == [] then [] else ExprCandidates(es[0], path) + ExprsCandidates(es[1..], path)
  }

  /**
    The positions of the sites that are singletons, in order: each site
    contributes at most one position, its own, and only if it matches.
   */
  function FlaggedPositions(sites: seq<Site>): (r: seq<nat>)
    ensures |r| <= |sites|
    ensures forall p :: p in r <==>
      exists k :: 0 <= k < |sites| && IsSingletonDecl(sites[k].decl, sites[k].path) && sites[k].decl.position == p
  {
    if sites == [] then []
    else
      var rest := FlaggedPositions(sites[1..]);
      assert forall k :: 0 < k < |sites| ==> sites[k] == sites[1..][k - 1];
      VisitVariableDecl(sites[0].decl, sites[0].path) + rest
  }

  /**
    The violations reported for a file: exactly the positions of the reached
    declarations that are singletons, one per such declaration, in document
    order.
   */
  function FindViolations(root: Node): (r: seq<nat>)
    ensures r == FlaggedPositions(NodeCandidates(root, []))
    ensures |r| <= |NodeCandidates(root, [])|
    ensures forall p :: p in r <==>
      exists k :: 0 <= k < |NodeCandidates(root, [])| && IsSingletonDecl(NodeCandidates(root, [])[k].decl, NodeCandidates(root, [])[k].path)
                  && NodeCandidates(root, [])[k].decl.position == p
  {
    WalkMatchesReference(root, []);
    WalkNode(root, [])
  }

  lemma {:induction false} FlaggedPositionsAppend(a: seq<Site>, b: seq<Site>)
    ensures FlaggedPositions(a + b) == FlaggedPositions(a) + FlaggedPositions(b)
  {
    if a == [] {
      assert a + b == b;
    } else {
      assert (a + b)[1..] == a[1..] + b;
      FlaggedPositionsAppend(a[1..], b);
    }
  }

  /** The walk reports exactly the flagged positions of the reference enumeration. */
  lemma {:induction false} WalkMatchesReference(n: Node, path: seq<Scope>)
    ensures WalkNode(n, path) == FlaggedPositions(NodeCandidates(n, path))
    decreases n
  {
    match n
    case Variable(d) =>
      assert FlaggedPositions([Site(d, path)]) == VisitVariableDecl(d, path) + FlaggedPositions([]);
    case Nominal(kind, name, members) => WalkNodesMatchesReference(members, path + [TypeScope(kind, name)]);
    case Container(kind, members) => WalkNodesMatchesReference(members, path + [ContainerScope(kind)]);
    case ExpressionStatement(e) => WalkExprMatchesReference(e, path);
  }

  lemma {:induction false} WalkNodesMatchesReference(ns: seq<Node>, path: seq<Scope>)
    ensures WalkNodes(ns, path) == FlaggedPositions(NodesCandidates(ns, path))
    decreases ns
  {
    if ns != [] {
      WalkMatchesReference(ns[0], path);
      WalkNodesMatchesReference(ns[1..], path);
      FlaggedPositionsAppend(NodeCandidates(ns[0], path), NodesCandidates(ns[1..], path));
    }
  }

  lemma {:induction false} WalkExprMatchesReference(e: Expr, path: seq<Scope>)
    ensures WalkExpr(e, path) == FlaggedPositions(ExprCandidates(e, path))
    decreases e
  {
    match e
    case DeclReference(_) =>
    case MemberAccess(base, _) =>
      if base.Some? {
        WalkExprMatchesReference(base.value, path);
      }
    case FunctionCall(callee, args) =>
      WalkExprMatchesReference(callee, path);
      WalkExprsMatchesReference(args, path);
      FlaggedPositionsAppend(ExprCandidates(callee, path), ExprsCandidates(args, path));
    case Closure(statements) => WalkNodesMatchesReference(statements, path + [ClosureScope]);
    case Literal(_) =>
    case OtherExpr(subexpressions) => WalkExprsMatchesReference(subexpressions, path);
  }

  lemma {:induction false} WalkExprsMatchesReference(es: seq<Expr>, path: seq<Scope>)
    ensures WalkExprs(es, path) == FlaggedPositions(ExprsCandidates(es, path))
    decreases es
  {
    if es != [] {
      WalkExprMatchesReference(es[0], path);
      WalkExprsMatchesReference(es[1..], path);
      FlaggedPositionsAppend(ExprCandidates(es[0], path), ExprsCandidates(es[1..], path));
    }
  }
}
