/**
  The rule's documented examples and further concrete scenarios, each as a
  small tree with the offsets the declarations have in the source text.
 */
module Fixtures {
  import opened Wrappers
  import opened Syntax
  import opened SingletonMatcher
  import opened Traversal

  function File(members: seq<Node>): Node {
    Container(SourceFile, members)
  }

  /** A declaration with one plain-identifier binding and an initializer. */
  function Let(modifiers: seq<Modifier>, name: string, init: Expr, position: nat): VariableDecl {
    VariableDecl(modifiers, [Binding(IdentifierPattern(name), Some(init), [])], position)
  }

  /** `T()` */
  function Construct(typeName: string): Expr {
    FunctionCall(DeclReference(typeName), [])
  }

  const FileScope: seq<Scope> := [ContainerScope(SourceFile)]

  // Unfolding steps for walks over short member lists.

  lemma FileWalk(members: seq<Node>)
    ensures FindViolations(File(members)) == WalkNodes(members, FileScope)
  {
    assert [] + FileScope == FileScope;
  }

  lemma OneMember(n: Node, path: seq<Scope>)
    ensures WalkNodes([n], path) == WalkNode(n, path)
  {
  }

  lemma TwoMembers(a: Node, b: Node, path: seq<Scope>)
    ensures WalkNodes([a, b], path) == WalkNode(a, path) + WalkNode(b, path)
  {
    assert [a, b][1..] == [b];
    OneMember(b, path);
  }

  lemma OneArgument(e: Expr, path: seq<Scope>)
    ensures WalkExprs([e], path) == WalkExpr(e, path)
  {
  }

  /** A file holding one type whose only member is `d`, reported as `expected`. */
  lemma TypeWithOneDecl(kind: NominalKind, name: string, d: VariableDecl, expected: seq<nat>)
    requires VisitVariableDecl(d, FileScope + [TypeScope(kind, name)]) == expected
    ensures FindViolations(File([Nominal(kind, name, [Variable(d)])])) == expected
  {
    var path := FileScope + [TypeScope(kind, name)];
    OneMember(Variable(d), path);
    OneMember(Nominal(kind, name, [Variable(d)]), FileScope);
    FileWalk([Nominal(kind, name, [Variable(d)])]);
  }

  /** `final class Foo { let bar = Bar() }`: an instance property is not reported. */
  lemma InstancePropertyNotReported()
    ensures FindViolations(File([Nominal(ClassDecl, "Foo", [Variable(Let([], "bar", Construct("Bar"), 18))])])) == []
  {
    TypeWithOneDecl(ClassDecl, "Foo", Let([], "bar", Construct("Bar"), 18), []);
  }

  /** `final class Foo { static let shared = Foo() }`: reported at `static`, offset 18. */
  lemma SharedInstanceReported()
    ensures FindViolations(File([Nominal(ClassDecl, "Foo", [Variable(Let([Static], "shared", Construct("Foo"), 18))])]))
         == [18]
  {
    var path := FileScope + [TypeScope(ClassDecl, "Foo")];
    assert NearestTypeScope(path, 1);
    TypeWithOneDecl(ClassDecl, "Foo", Let([Static], "shared", Construct("Foo"), 18), [18]);
  }

  /** `actor Cache { static let current = Self() }`: `Self` names any enclosing type. */
  lemma SelfConstructionReported()
    ensures FindViolations(File([Nominal(ActorDecl, "Cache", [Variable(Let([Static], "current", Construct("Self"), 14))])]))
         == [14]
  {
    var path := FileScope + [TypeScope(ActorDecl, "Cache")];
    assert NearestTypeScope(path, 1);
    TypeWithOneDecl(ActorDecl, "Cache", Let([Static], "current", Construct("Self"), 14), [14]);
  }

  /** `final class Foo { static let shared = Module.Foo() }`. */
  lemma QualifiedConstructionReported()
    ensures FindViolations(File([Nominal(ClassDecl, "Foo", [Variable(
      Let([Static], "shared", FunctionCall(MemberAccess(Some(DeclReference("Module")), "Foo"), []), 18))])])) == [18]
  {
    var path := FileScope + [TypeScope(ClassDecl, "Foo")];
    assert NearestTypeScope(path, 1);
    TypeWithOneDecl(ClassDecl, "Foo",
      Let([Static], "shared", FunctionCall(MemberAccess(Some(DeclReference("Module")), "Foo"), []), 18), [18]);
  }

  /** `final class Foo { static let shared = Bar() }` constructs another type. */
  lemma OtherTypeNotReported()
    ensures FindViolations(File([Nominal(ClassDecl, "Foo", [Variable(Let([Static], "shared", Construct("Bar"), 18))])]))
         == []
  {
    var path := FileScope + [TypeScope(ClassDecl, "Foo")];
    assert NearestTypeScope(path, 1);
    assert EnclosingNominalName(path) == Some("Foo");
    assert "Bar" != "Foo" && "Bar" != SelfKeyword by {
      assert "Bar"[0] != "Foo"[0] && "Bar"[0] != SelfKeyword[0];
    }
    TypeWithOneDecl(ClassDecl, "Foo", Let([Static], "shared", Construct("Bar"), 18), []);
  }

  /** `class Foo { class var shared = Foo() }`: `class` is not `static`. */
  lemma ClassPropertyNotReported()
    ensures FindViolations(File([Nominal(ClassDecl, "Foo", [Variable(Let([Class], "shared", Construct("Foo"), 12))])]))
         == []
  {
    TypeWithOneDecl(ClassDecl, "Foo", Let([Class], "shared", Construct("Foo"), 12), []);
  }

  /** `final class Foo { static let Shared = Foo() }`: names are case-sensitive. */
  lemma NameCaseMatters()
    ensures FindViolations(File([Nominal(ClassDecl, "Foo", [Variable(Let([Static], "Shared", Construct("Foo"), 18))])]))
         == []
  {
    assert "Shared" !in BadNames by {
      assert "Shared"[0] == 'S';
    }
    TypeWithOneDecl(ClassDecl, "Foo", Let([Static], "Shared", Construct("Foo"), 18), []);
  }

  /** `enum Config { case a }; struct Module { static let instance = Module() }`: only the struct's declaration. */
  lemma OnlyTheStructReported()
    ensures FindViolations(File([
      Nominal(EnumDecl, "Config", []),
      Nominal(StructDecl, "Module", [Variable(Let([Static], "instance", Construct("Module"), 40))])])) == [40]
  {
    var d := Let([Static], "instance", Construct("Module"), 40);
    var path := FileScope + [TypeScope(StructDecl, "Module")];
    assert NearestTypeScope(path, 1);
    assert VisitVariableDecl(d, path) == [40];
    OneMember(Variable(d), path);
    TwoMembers(Nominal(EnumDecl, "Config", []), Nominal(StructDecl, "Module", [Variable(d)]), FileScope);
    FileWalk([Nominal(EnumDecl, "Config", []), Nominal(StructDecl, "Module", [Variable(d)])]);
  }

  /** `static let shared = Foo()` at file level has no enclosing type. */
  lemma FileLevelNotReported()
    ensures FindViolations(File([Variable(Let([Static], "shared", Construct("Foo"), 0))])) == []
  {
    OneMember(Variable(Let([Static], "shared", Construct("Foo"), 0)), FileScope);
    FileWalk([Variable(Let([Static], "shared", Construct("Foo"), 0))]);
  }

  /** `extension Foo { static let shared = Foo() }`: an extension is not an enclosing type. */
  lemma ExtensionNotReported()
    ensures FindViolations(File([Container(Extension("Foo"), [Variable(Let([Static], "shared", Construct("Foo"), 16))])]))
         == []
  {
    var d := Let([Static], "shared", Construct("Foo"), 16);
    var path := FileScope + [ContainerScope(Extension("Foo"))];
    assert VisitVariableDecl(d, path) == [];
    OneMember(Variable(d), path);
    OneMember(Container(Extension("Foo"), [Variable(d)]), FileScope);
    FileWalk([Container(Extension("Foo"), [Variable(d)])]);
  }

  /** `class Foo { func f() { struct Bar { static let shared = Bar() } } }`: the innermost type counts. */
  lemma NearestTypeWins()
    ensures FindViolations(File([Nominal(ClassDecl, "Foo", [Container(Function("f"),
      [Nominal(StructDecl, "Bar", [Variable(Let([Static], "shared", Construct("Bar"), 36))])])])])) == [36]
  {
    var d := Let([Static], "shared", Construct("Bar"), 36);
    var p1 := FileScope + [TypeScope(ClassDecl, "Foo")];
    var p2 := p1 + [ContainerScope(Function("f"))];
    var p3 := p2 + [TypeScope(StructDecl, "Bar")];
    assert NearestTypeScope(p3, 3);
    assert VisitVariableDecl(d, p3) == [36];
    OneMember(Variable(d), p3);
    OneMember(Nominal(StructDecl, "Bar", [Variable(d)]), p2);
    OneMember(Container(Function("f"), [Nominal(StructDecl, "Bar", [Variable(d)])]), p1);
    OneMember(Nominal(ClassDecl, "Foo", [Container(Function("f"), [Nominal(StructDecl, "Bar", [Variable(d)])])]), FileScope);
    FileWalk([Nominal(ClassDecl, "Foo", [Container(Function("f"), [Nominal(StructDecl, "Bar", [Variable(d)])])])]);
  }

  /** `final class Foo { static let shared = Foo.make() }`: a factory call is not a construction. */
  lemma FactoryCallNotReported()
    ensures FindViolations(File([Nominal(ClassDecl, "Foo", [Variable(
      Let([Static], "shared", FunctionCall(MemberAccess(Some(DeclReference("Foo")), "make"), []), 18))])])) == []
  {
    var path := FileScope + [TypeScope(ClassDecl, "Foo")];
    assert NearestTypeScope(path, 1);
    assert EnclosingNominalName(path) == Some("Foo");
    assert "make" != "Foo" by {
      assert |"make"| != |"Foo"|;
    }
    TypeWithOneDecl(ClassDecl, "Foo",
      Let([Static], "shared", FunctionCall(MemberAccess(Some(DeclReference("Foo")), "make"), []), 18), []);
  }

  /** `final class Foo { static let other = 1, shared = Foo() }`: only the first binding is read. */
  lemma LaterBindingNotInspected()
    ensures FindViolations(File([Nominal(ClassDecl, "Foo", [Variable(VariableDecl([Static], [
      Binding(IdentifierPattern("other"), Some(Literal("1")), []),
      Binding(IdentifierPattern("shared"), Some(Construct("Foo")), [])], 18))])])) == []
  {
    assert "other" !in BadNames by {
      assert "other"[0] == 'o';
    }
    TypeWithOneDecl(ClassDecl, "Foo", VariableDecl([Static], [
      Binding(IdentifierPattern("other"), Some(Literal("1")), []),
      Binding(IdentifierPattern("shared"), Some(Construct("Foo")), [])], 18), []);
  }

  /**
    `class Foo { static let make = { class Bar { static let shared = Bar() }; return 0 }() }`:
    nothing inside a variable declaration is visited.
   */
  lemma NestedInVariableNotVisited()
    ensures FindViolations(File([Nominal(ClassDecl, "Foo", [Variable(Let([Static], "make",
      FunctionCall(Closure([Nominal(ClassDecl, "Bar", [Variable(Let([Static], "shared", Construct("Bar"), 44))]),
        ExpressionStatement(Literal("0"))]), []),
      12))])])) == []
  {
    assert "make" !in BadNames by {
      assert "make"[0] == 'm';
    }
    TypeWithOneDecl(ClassDecl, "Foo", Let([Static], "make",
      FunctionCall(Closure([Nominal(ClassDecl, "Bar", [Variable(Let([Static], "shared", Construct("Bar"), 44))]),
        ExpressionStatement(Literal("0"))]), []),
      12), []);
  }

  /**
    `class Foo { func f() { run { class Bar { static let shared = Bar() } } } }`:
    declarations inside closures elsewhere are visited.
   */
  lemma ClosureInStatementVisited()
    ensures FindViolations(File([Nominal(ClassDecl, "Foo", [Container(Function("f"), [ExpressionStatement(
      FunctionCall(DeclReference("run"), [Closure([Nominal(ClassDecl, "Bar",
        [Variable(Let([Static], "shared", Construct("Bar"), 41))])])]))])])])) == [41]
  {
    var d := Let([Static], "shared", Construct("Bar"), 41);
    var inner := Nominal(ClassDecl, "Bar", [Variable(d)]);
    var call := FunctionCall(DeclReference("run"), [Closure([inner])]);
    var p1 := FileScope + [TypeScope(ClassDecl, "Foo")];
    var p2 := p1 + [ContainerScope(Function("f"))];
    var p3 := p2 + [ClosureScope];
    var p4 := p3 + [TypeScope(ClassDecl, "Bar")];
    assert NearestTypeScope(p4, 4);
    assert VisitVariableDecl(d, p4) == [41];
    OneMember(Variable(d), p4);
    OneMember(inner, p3);
    OneArgument(Closure([inner]), p2);
    assert WalkExpr(call, p2) == [41];
    OneMember(ExpressionStatement(call), p2);
    OneMember(Container(Function("f"), [ExpressionStatement(call)]), p1);
    OneMember(Nominal(ClassDecl, "Foo", [Container(Function("f"), [ExpressionStatement(call)])]), FileScope);
    FileWalk([Nominal(ClassDecl, "Foo", [Container(Function("f"), [ExpressionStatement(call)])])]);
  }
}
