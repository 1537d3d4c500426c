/**
  Properties of the whole rule: what no input can make it report, what the
  check of one declaration ignores, and the order of the reported positions.
 */
module RuleProperties {
  import opened Wrappers
  import opened Syntax
  import opened SingletonMatcher
  import opened Traversal

  /** Whether a nominal type is declared anywhere the visitor walks under `n`. */
  ghost predicate NodeDeclaresType(n: Node)
    decreases n
  {
    match n
    case Variable(_) => false
    case Nominal(_, _, _) => true
    case Container(_, members) => NodesDeclareType(members)
    case ExpressionStatement(e) => ExprDeclaresType(e)
  }

  ghost predicate NodesDeclareType(ns: seq<Node>)
    decreases ns
  {
    ns != [] && (NodeDeclaresType(ns[0]) || NodesDeclareType(ns[1..]))
  }

  ghost predicate ExprDeclaresType(e: Expr)
    decreases e
  {
    match e
    case DeclReference(_) => false
    case MemberAccess(base, _) => base.Some? && ExprDeclaresType(base.value)
    case FunctionCall(callee, args) => ExprDeclaresType(callee) || ExprsDeclareType(args)
    case Closure(statements) => NodesDeclareType(statements)
    case Literal(_) => false
    case OtherExpr(subexpressions) => ExprsDeclareType(subexpressions)
  }

  ghost predicate ExprsDeclareType(es: seq<Expr>)
    decreases es
  {
    es != [] && (ExprDeclaresType(es[0]) || ExprsDeclareType(es[1..]))
  }

  ghost predicate NoTypeScope(path: seq<Scope>) {
    forall i | 0 <= i < |path| :: !path[i].TypeScope?
  }

  /** Outside every class, struct, enum and actor nothing is reported. */
  lemma {:induction false} OutsideTypesNothingReported(n: Node, path: seq<Scope>)
    requires NoTypeScope(path) && !NodeDeclaresType(n)
    ensures WalkNode(n, path) == []
    decreases n
  {
    match n
    case Variable(d) =>
    case Nominal(_, _, _) =>
    case Container(kind, members) =>
      assert NoTypeScope(path + [ContainerScope(kind)]);
      OutsideTypesNothingReportedNodes(members, path + [ContainerScope(kind)]);
    case ExpressionStatement(e) => OutsideTypesNothingReportedExpr(e, path);
  }

  lemma {:induction false} OutsideTypesNothingReportedNodes(ns: seq<Node>, path: seq<Scope>)
    requires NoTypeScope(path) && !NodesDeclareType(ns)
    ensures WalkNodes(ns, path) == []
    decreases ns
  {
    if ns != [] {
      OutsideTypesNothingReported(ns[0], path);
      OutsideTypesNothingReportedNodes(ns[1..], path);
    }
  }

  lemma {:induction false} OutsideTypesNothingReportedExpr(e: Expr, path: seq<Scope>)
    requires NoTypeScope(path) && !ExprDeclaresType(e)
    ensures WalkExpr(e, path) == []
    decreases e
  {
    match e
    case DeclReference(_) =>
    case MemberAccess(base, _) =>
      if base.Some? {
        OutsideTypesNothingReportedExpr(base.value, path);
      }
    case FunctionCall(callee, args) =>
      OutsideTypesNothingReportedExpr(callee, path);
      OutsideTypesNothingReportedExprs(args, path);
    case Closure(statements) =>
      assert NoTypeScope(path + [ClosureScope]);
      OutsideTypesNothingReportedNodes(statements, path + [ClosureScope]);
    case Literal(_) =>
    case OtherExpr(subexpressions) => OutsideTypesNothingReportedExprs(subexpressions, path);
  }

  lemma {:induction false} OutsideTypesNothingReportedExprs(es: seq<Expr>, path: seq<Scope>)
    requires NoTypeScope(path) && !ExprsDeclareType(es)
    ensures WalkExprs(es, path) == []
    decreases es
  {
    if es != [] {
      OutsideTypesNothingReportedExpr(es[0], path);
      OutsideTypesNothingReportedExprs(es[1..], path);
    }
  }

  /** A file that declares no class, struct, enum or actor has no violations. */
  lemma FileWithoutTypesHasNoViolations(root: Node)
    requires !NodeDeclaresType(root)
    ensures FindViolations(root) == []
  {
    OutsideTypesNothingReported(root, []);
  }

  /** If no declaration the visitor reaches is `static`, nothing is reported. */
  lemma NoStaticDeclarationNoViolations(root: Node)
    requires forall k | 0 <= k < |NodeCandidates(root, [])| :: Static !in NodeCandidates(root, [])[k].decl.modifiers
    ensures FindViolations(root) == []
  {
    NothingFlaggedWithoutSingletons(NodeCandidates(root, []));
  }

  lemma {:induction false} NothingFlaggedWithoutSingletons(sites: seq<Site>)
    requires forall k | 0 <= k < |sites| :: !IsSingletonDecl(sites[k].decl, sites[k].path)
    ensures FlaggedPositions(sites) == []
  {
    if sites != [] {
      NothingFlaggedWithoutSingletons(sites[1..]);
    }
  }

  /**
    Only the modifiers, the position, and the first binding's pattern and
    initializer decide the outcome for a declaration: later bindings and
    accessor bodies are never looked at.
   */
  lemma FirstBindingDecides(d: VariableDecl, d': VariableDecl, path: seq<Scope>)
    requires d.modifiers == d'.modifiers && d.position == d'.position
    requires |d.bindings| > 0 && |d'.bindings| > 0
    requires d.bindings[0].pattern == d'.bindings[0].pattern
    requires d.bindings[0].initializer == d'.bindings[0].initializer
    ensures WalkNode(Variable(d), path) == WalkNode(Variable(d'), path)
  {
  }

  /**
    Self-construction depends only on the shape of the callee: call arguments
    and the base of a member access are ignored.
   */
  lemma InitializesIgnoresArgumentsAndBase(
    typeName: string, name: string, base: Option<Expr>, base': Option<Expr>, args: seq<Expr>, args': seq<Expr>)
    ensures Initializes(FunctionCall(DeclReference(name), args), typeName)
        == Initializes(FunctionCall(DeclReference(name), args'), typeName)
    ensures Initializes(FunctionCall(MemberAccess(base, name), args), typeName)
        == Initializes(FunctionCall(MemberAccess(base', name), args'), typeName)
    ensures Initializes(FunctionCall(DeclReference(SelfKeyword), args), typeName)
    ensures Initializes(FunctionCall(DeclReference(typeName), args), typeName)
    ensures Initializes(FunctionCall(MemberAccess(base, typeName), args), typeName)
  {
  }

  /** The three spellings of "construct the enclosing type". */
  datatype Spelling = SelfCall | NameCall | QualifiedCall

  /** The call expression written in spelling `s` for the type `typeName`. */
  function Spell(s: Spelling, typeName: string, base: Option<Expr>, args: seq<Expr>): Expr {
    match s
    case SelfCall => FunctionCall(DeclReference(SelfKeyword), args)
    case NameCall => FunctionCall(DeclReference(typeName), args)
    case QualifiedCall => FunctionCall(MemberAccess(base, typeName), args)
  }

  /** An initializer constructs `typeName` exactly when it is one of the three spellings. */
  lemma InitializesExactlySpellings(e: Expr, typeName: string)
    ensures Initializes(e, typeName) <==>
      exists s, base, args :: e == Spell(s, typeName, base, args)
  {
    if Initializes(e, typeName) {
      var callee := e.calledExpression;
      if callee.DeclReference? && callee.baseName == SelfKeyword {
        assert e == Spell(SelfCall, typeName, None, e.arguments);
      } else if callee.DeclReference? {
        assert e == Spell(NameCall, typeName, None, e.arguments);
      } else {
        assert e == Spell(QualifiedCall, typeName, callee.base, e.arguments);
      }
    }
  }

  /** The positions of a list of sites, in order. */
  function Positions(sites: seq<Site>): seq<nat> {
    seq(|sites|, k requires 0 <= k < |sites| => sites[k].decl.position)
  }

  ghost predicate StrictlyIncreasing(s: seq<nat>) {
    forall i, j | 0 <= i < j < |s| :: s[i] < s[j]
  }

  lemma {:induction false} FlaggedPositionsIncreasing(sites: seq<Site>)
    requires StrictlyIncreasing(Positions(sites))
    ensures StrictlyIncreasing(FlaggedPositions(sites))
  {
    if sites != [] {
      var tail := sites[1..];
      assert Positions(tail) == Positions(sites)[1..];
      FlaggedPositionsIncreasing(tail);
      var head := VisitVariableDecl(sites[0].decl, sites[0].path);
      var rest := FlaggedPositions(tail);
      assert FlaggedPositions(sites) == head + rest;
      forall p | p in rest
        ensures sites[0].decl.position < p
      {
        var k :| 0 <= k < |tail| && IsSingletonDecl(tail[k].decl, tail[k].path) && tail[k].decl.position == p;
        assert Positions(sites)[0] < Positions(sites)[k + 1];
      }
      if head != [] {
        forall i, j | 0 <= i < j < |head + rest|
          ensures (head + rest)[i] < (head + rest)[j]
        {
          if i == 0 {
            assert (head + rest)[j] == rest[j - 1];
            assert rest[j - 1] in rest;
          }
        }
      }
    }
  }

  /** `a` is obtained from `b` by deleting elements, keeping the order of the rest. */
  ghost predicate IsSubsequence(a: seq<nat>, b: seq<nat>)
    decreases |b|
  {
    || a == []
    || (&& b != []
        && ((a[0] == b[0] && IsSubsequence(a[1..], b[1..])) || IsSubsequence(a, b[1..])))
  }

  lemma {:induction false} FlaggedPositionsSubsequence(sites: seq<Site>)
    ensures IsSubsequence(FlaggedPositions(sites), Positions(sites))
  {
    if sites != [] {
      var tail := sites[1..];
      assert Positions(tail) == Positions(sites)[1..];
      FlaggedPositionsSubsequence(tail);
      var head := VisitVariableDecl(sites[0].decl, sites[0].path);
      var rest := FlaggedPositions(tail);
      assert FlaggedPositions(sites) == head + rest;
      assert Positions(sites) != [];
      if head != [] {
        assert (head + rest)[0] == Positions(sites)[0];
        assert (head + rest)[1..] == rest;
      } else {
        assert head + rest == rest;
      }
    }
  }

  /**
    Each reached declaration contributes at most its own position, and the
    violations keep the order in which the visitor reaches the declarations.
   */
  lemma ViolationsFollowTraversal(root: Node)
    ensures IsSubsequence(FindViolations(root), Positions(NodeCandidates(root, [])))
  {
    FlaggedPositionsSubsequence(NodeCandidates(root, []));
  }

  /**
    When the reached declarations start at increasing offsets, as they do in
    a parsed file, the violations come out in increasing offset order.
   */
  lemma ViolationsInDocumentOrder(root: Node)
    requires StrictlyIncreasing(Positions(NodeCandidates(root, [])))
    ensures StrictlyIncreasing(FindViolations(root))
  {
    FlaggedPositionsIncreasing(NodeCandidates(root, []));
  }
}
