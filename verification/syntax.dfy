/**
  An abstract Swift syntax tree covering only the node kinds the singleton
  rule inspects or walks through. Everything else a real tree holds (types,
  attributes, trivia, generic clauses, ...) is dropped.
 */
module Syntax {
  import opened Wrappers

  /** Declaration modifier keywords. `static` and `class` are distinct keywords. */
  datatype Modifier =
    | Static
    | Class
    | Final
    | Lazy
    | Override
    | Private
    | Fileprivate
    | Internal
    | Public
    | Open
    | Nonisolated

  /** The pattern a binding introduces: `shared`, `(a, b)` or `_`. */
  datatype Pattern =
    | IdentifierPattern(identifier: string)
    | TuplePattern(elements: seq<Pattern>)
    | WildcardPattern

  /**
    Expressions. A `Closure` holds statements, so declarations can sit
    inside expressions; `OtherExpr` is any remaining expression kind
    (operators, tuples, `try`, ...) with its direct subexpressions.
   */
  datatype Expr =
    | DeclReference(baseName: string)
    | MemberAccess(base: Option<Expr>, declName: string)
    | FunctionCall(calledExpression: Expr, arguments: seq<Expr>)
    | Closure(statements: seq<Node>)
    | Literal(text: string)
    | OtherExpr(subexpressions: seq<Expr>)

  /** One `pattern = initializer` binding, with the body of any accessor block. */
  datatype Binding = Binding(pattern: Pattern, initializer: Option<Expr>, accessors: seq<Node>)

  /**
    A `let`/`var` declaration. `position` is the offset of its first token
    after leading trivia.
   */
  datatype VariableDecl = VariableDecl(modifiers: seq<Modifier>, bindings: seq<Binding>, position: nat)

  /** The four nominal type declarations the rule recognises as enclosing types. */
  datatype NominalKind = ClassDecl | StructDecl | EnumDecl | ActorDecl

  /** Every other node that can hold declarations. */
  datatype ContainerKind =
    | SourceFile
    | Extension(extendedType: string)
    | Protocol(name: string)
    | Function(name: string)
    | CodeBlock

  datatype Node =
    | Variable(decl: VariableDecl)
    | Nominal(kind: NominalKind, name: string, members: seq<Node>)
    | Container(container: ContainerKind, members: seq<Node>)
    | ExpressionStatement(expr: Expr)

  /** One entry of a node's ancestor chain, outermost first. */
  datatype Scope =
    | TypeScope(kind: NominalKind, name: string)
    | ContainerScope(container: ContainerKind)
    | ClosureScope
}
