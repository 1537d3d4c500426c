# Discourage Singletons rule — a Dafny model

This project models SwiftLint's opt-in lint rule `discouraged_no_singletons`.
The rule walks a Swift syntax tree and reports every `static` property that
looks like a singleton accessor. A variable declaration is reported when four
checks pass, in this order, stopping at the first that fails:

1. its modifiers contain the `static` keyword;
2. its first binding is a plain identifier from the fixed list `shared`,
   `sharedInstance`, `default`, `standard`, `current`, `instance`;
3. it has an enclosing `class`, `struct`, `enum` or `actor`, namely the
   nearest one among its ancestors;
4. its initializer is a call that constructs that type: `Self()`, `Foo()` or
   `X.Foo()`.

A reported declaration yields its own start offset, the position of its
first token after leading trivia. The visitor never descends into a variable
declaration, so nothing nested inside one is examined.

Layout:

- `wrappers.dfy`: `Option`.
- `syntax.dfy`: an abstract syntax tree holding only the node kinds the rule
  inspects or walks through. These are variable declarations, the four
  nominal type declarations, other containers (source file, extension,
  protocol, function, code block), expression statements and expressions
  (references, member accesses, calls, closures, literals, other).
- `matcher.dfy` (`SingletonMatcher`): the name list, the enclosing-type
  lookup, the self-construction test and the check of one declaration. It
  also holds `IsSingletonDecl`, a declarative statement of the four
  conditions.
- `traversal.dfy` (`Traversal`): the pre-order walk. Swift's parent links
  are replaced by the list of ancestors handed down the walk. A reference
  definition first lists every declaration the visitor reaches, with its
  ancestors (`NodeCandidates`), then keeps the matching ones
  (`FlaggedPositions`). A lemma proves the walk equal to that reference.
- `properties.dfy` (`RuleProperties`): properties of the whole rule.
- `fixtures.dfy` (`Fixtures`): the rule's two documented examples and
  further concrete scenarios.

Running the rule twice on the same tree gives the same output, because every
operation here is a pure function.

The code checks only the `static` keyword, so `class var shared = Foo()` is
not reported. A broader reading would also accept other type-level
modifiers. This model follows the code.

## Model

| member | source | states |
|---|---|---|
| SingletonMatcher.EnclosingNominalName | Source/SwiftLintBuiltInRules/Rules/Lint/DiscouragedNoSingletonsRule.swift:63-73 | The result is absent exactly when no ancestor is a class, struct, enum or actor. Otherwise it is the name of the innermost such ancestor. Extensions, protocols, functions and closures are passed over. |
| SingletonMatcher.Initializes | Source/SwiftLintBuiltInRules/Rules/Lint/DiscouragedNoSingletonsRule.swift:78-103 | Only a function call can construct the type. A bare-reference callee is accepted exactly when its text is `Self` or the type name. A member-access callee is accepted exactly when its final name is the type name. Every other callee is rejected. |
| SingletonMatcher.VisitVariableDecl | Source/SwiftLintBuiltInRules/Rules/Lint/DiscouragedNoSingletonsRule.swift:28-54 | A declaration yields nothing or exactly its own position. It yields the position exactly when all four conditions of `IsSingletonDecl` hold. It yields nothing when it is not static, when its first binding is not an identifier from the list, when it has no enclosing type, or when it has no initializer or a non-call initializer. |
| Traversal.FlaggedPositions | Source/SwiftLintBuiltInRules/Rules/Lint/DiscouragedNoSingletonsRule.swift:52-53 | Each reached declaration contributes at most one violation. A position is reported exactly when some reached declaration at that position is a singleton. |
| Traversal.FindViolations | Source/SwiftLintBuiltInRules/Rules/Lint/DiscouragedNoSingletonsRule.swift:32-54 | The violations for a file equal the positions of the singleton declarations among those the visitor reaches, in document order. There are never more violations than reached declarations. |
| Traversal.WalkMatchesReference | Source/SwiftLintBuiltInRules/Rules/Lint/DiscouragedNoSingletonsRule.swift:32-54 | The recursive walk, which skips the children of every variable declaration, equals the reference. The reference lists the reached declarations first and then filters them. |
| RuleProperties.NoStaticDeclarationNoViolations | Source/SwiftLintBuiltInRules/Rules/Lint/DiscouragedNoSingletonsRule.swift:33-36 | If no reached declaration carries `static`, the file has no violations, whatever the names and initializers. |
| RuleProperties.OutsideTypesNothingReported | Source/SwiftLintBuiltInRules/Rules/Lint/DiscouragedNoSingletonsRule.swift:63-73 | A subtree with no nominal type declaration reports nothing, when walked under ancestors that contain no type either. |
| RuleProperties.FileWithoutTypesHasNoViolations | Source/SwiftLintBuiltInRules/Rules/Lint/DiscouragedNoSingletonsRule.swift:46-50 | A file that declares no class, struct, enum or actor has no violations. |
| RuleProperties.FirstBindingDecides | Source/SwiftLintBuiltInRules/Rules/Lint/DiscouragedNoSingletonsRule.swift:39-48 | Two declarations with the same modifiers, position, first-binding pattern and first-binding initializer give the same outcome. Later bindings and accessor bodies are never looked at. |
| RuleProperties.InitializesIgnoresArgumentsAndBase | Source/SwiftLintBuiltInRules/Rules/Lint/DiscouragedNoSingletonsRule.swift:81-100 | Call arguments and the base of a member access never change the outcome. `Self()`, `T()` and `X.T()` always construct `T`. |
| RuleProperties.InitializesExactlySpellings | Source/SwiftLintBuiltInRules/Rules/Lint/DiscouragedNoSingletonsRule.swift:77-102 | An expression constructs `T` if and only if it is one of the three spellings `Self(...)`, `T(...)` or `base.T(...)`. |
| RuleProperties.ViolationsFollowTraversal | Source/SwiftLintBuiltInRules/Rules/Lint/DiscouragedNoSingletonsRule.swift:52-53 | For every file, the violations are a subsequence of the positions of the reached declarations: each declaration contributes at most its own position, in the order the visitor reaches it. |
| RuleProperties.ViolationsInDocumentOrder | Source/SwiftLintBuiltInRules/Rules/Lint/DiscouragedNoSingletonsRule.swift:52-53 | If the reached declarations start at increasing offsets, the violations are reported at strictly increasing offsets. |
| Fixtures.InstancePropertyNotReported | Source/SwiftLintBuiltInRules/Rules/Lint/DiscouragedNoSingletonsRule.swift:16 | `final class Foo { let bar = Bar() }` has no violation. |
| Fixtures.SharedInstanceReported | Source/SwiftLintBuiltInRules/Rules/Lint/DiscouragedNoSingletonsRule.swift:19 | `final class Foo { static let shared = Foo() }` has exactly one violation, at the `static` keyword. |
| Fixtures.SelfConstructionReported | Source/SwiftLintBuiltInRules/Rules/Lint/DiscouragedNoSingletonsRule.swift:81-86 | `actor Cache { static let current = Self() }` is reported: `Self` is accepted whatever the enclosing type is called. |
| Fixtures.QualifiedConstructionReported | Source/SwiftLintBuiltInRules/Rules/Lint/DiscouragedNoSingletonsRule.swift:95-100 | `static let shared = Module.Foo()` inside `class Foo` is reported. |
| Fixtures.OtherTypeNotReported | Source/SwiftLintBuiltInRules/Rules/Lint/DiscouragedNoSingletonsRule.swift:88-102 | `static let shared = Bar()` inside `class Foo` is not reported. |
| Fixtures.ClassPropertyNotReported | Source/SwiftLintBuiltInRules/Rules/Lint/DiscouragedNoSingletonsRule.swift:34 | `class var shared = Foo()` is not reported, because `class` is not `static`. |
| Fixtures.NameCaseMatters | Source/SwiftLintBuiltInRules/Rules/Lint/DiscouragedNoSingletonsRule.swift:28-30 | `static let Shared = Foo()` is not reported, because name matching is case-sensitive. |
| Fixtures.OnlyTheStructReported | Source/SwiftLintBuiltInRules/Rules/Lint/DiscouragedNoSingletonsRule.swift:63-73 | In `enum Config { case a }; struct Module { static let instance = Module() }` only the struct's declaration is reported. |
| Fixtures.FileLevelNotReported | Source/SwiftLintBuiltInRules/Rules/Lint/DiscouragedNoSingletonsRule.swift:72 | `static let shared = Foo()` at file level is not reported. |
| Fixtures.ExtensionNotReported | Source/SwiftLintBuiltInRules/Rules/Lint/DiscouragedNoSingletonsRule.swift:66-70 | `extension Foo { static let shared = Foo() }` is not reported, because an extension is not an enclosing type. |
| Fixtures.NearestTypeWins | Source/SwiftLintBuiltInRules/Rules/Lint/DiscouragedNoSingletonsRule.swift:64-70 | A struct declared inside a method of a class is the enclosing type of its own members. |
| Fixtures.FactoryCallNotReported | Source/SwiftLintBuiltInRules/Rules/Lint/DiscouragedNoSingletonsRule.swift:96-102 | `static let shared = Foo.make()` is not reported. |
| Fixtures.LaterBindingNotInspected | Source/SwiftLintBuiltInRules/Rules/Lint/DiscouragedNoSingletonsRule.swift:40 | `static let other = 1, shared = Foo()` is not reported, because only the first binding is read. |
| Fixtures.NestedInVariableNotVisited | Source/SwiftLintBuiltInRules/Rules/Lint/DiscouragedNoSingletonsRule.swift:53 | A singleton class declared inside a closure that initializes another property is not reported. |
| Fixtures.ClosureInStatementVisited | Source/SwiftLintBuiltInRules/Rules/Lint/DiscouragedNoSingletonsRule.swift:32 | A singleton class declared inside a closure passed to a call in a method body is reported. |

## Left out

- Parsing Swift source into a tree is done by the SwiftSyntax library, which is not part of this model. The tree here is an abstract datatype holding only the node kinds the rule looks at or walks through. Members that hold no declarations, such as enum cases and typealiases, are omitted from the tree. Expression kinds other than references, member accesses, calls, closures and literals appear as `OtherExpr`. Bodies the visitor walks that are not functions, such as `init`, `deinit` and subscript bodies, are written as `Container(Function(..))` or `Container(CodeBlock)`; the parent walk passes over all of them alike.
- Parent links become the ancestor list passed down the walk. The intermediate member-block nodes between a type and its members are not represented, because the parent walk passes over them anyway.
- The `@SwiftSyntaxRule` macro, the `ViolationsSyntaxVisitor` base class and rule registration are not modelled. The walk is written out as a recursive pre-order traversal.
- `SeverityConfiguration` and the identifier, name, description and kind metadata are not modelled. They do not affect which declarations are reported. The two documented examples appear as fixtures.
- Positions are opaque natural numbers carried on each declaration. They are not computed from file offsets and trivia.
- Turning positions into reported diagnostics is left to the caller.
- Names are compared as sequences of characters. Swift's `String` equality uses Unicode canonical equivalence, which is not modelled.
- RuleProperties.ViolationsInDocumentOrder: assumes the reached declarations start at increasing offsets, as in a parsed file. The model does not derive that ordering from the tree; RuleProperties.ViolationsFollowTraversal states the order without that premise.
