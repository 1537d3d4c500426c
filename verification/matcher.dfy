/**
  The per-declaration logic of the singleton rule: the fixed name list, the
  lookup of the enclosing nominal type, the self-construction test, and the
  four-stage check applied to each variable declaration.
 */
module SingletonMatcher {
  import opened Wrappers
  import opened Syntax

  /** Property names that suggest a singleton accessor (exact, case-sensitive). */
  const BadNames: set<string> := {"shared", "sharedInstance", "default", "standard", "current", "instance"}

  /** The keyword that names the current type whatever it is called. */
  const SelfKeyword: string := "Self"

  /** `i` indexes the innermost class, struct, enum or actor on the ancestor path. */
  ghost predicate NearestTypeScope(path: seq<Scope>, i: int) {
    && 0 <= i < |path|
    && path[i].TypeScope?
    && forall j | i < j < |path| :: !path[j].TypeScope?
  }

  /**
    Walks the ancestors from the innermost outwards and returns the name of
    the first nominal type declaration; extensions, protocols, functions,
    closures and other containers are passed over.
   */
  function EnclosingNominalName(path: seq<Scope>): (r: Option<string>)
    ensures r.None? <==> forall i | 0 <= i < |path| :: !path[i].TypeScope?
    ensures r.Some? <==> exists i :: NearestTypeScope(path, i)
    ensures forall i :: NearestTypeScope(path, i) ==> r == Some(path[i].name)
  {
    if |path| == 0 then None
    else if path[|path| - 1].TypeScope? then
      assert NearestTypeScope(path, |path| - 1);
      Some(path[|path| - 1].name)
    else
      var inner := path[..|path| - 1];
      assert forall i :: NearestTypeScope(path, i) <==> NearestTypeScope(inner, i);
      EnclosingNominalName(inner)
  }

  /**
    Whether `e` constructs the type called `typeName`: a call whose callee is
    `Self`, the bare type name, or a member access ending in the type name.
   */
  function Initializes(e: Expr, typeName: string): (r: bool)
    ensures r ==> e.FunctionCall?
    ensures e.FunctionCall? && e.calledExpression.DeclReference? ==>
      (r <==> e.calledExpression.baseName == SelfKeyword || e.calledExpression.baseName == typeName)
    ensures e.FunctionCall? && e.calledExpression.MemberAccess? ==>
      (r <==> e.calledExpression.declName == typeName)
    ensures e.FunctionCall? && !e.calledExpression.DeclReference? && !e.calledExpression.MemberAccess? ==> !r
  {
    match e
    case FunctionCall(callee, _) =>
      if callee.DeclReference? && callee.baseName == SelfKeyword then true
      else if callee.DeclReference? && callee.baseName == typeName then true
      else if callee.MemberAccess? && callee.declName == typeName then true
      else false
    case _ => false
  }

  /**
    What makes a declaration a singleton, stated as one conjunction: static,
    first binding a plain identifier from the name list, an enclosing nominal
    type, and an initializer that constructs that type.
   */
  ghost predicate IsSingletonDecl(d: VariableDecl, path: seq<Scope>) {
    && Static in d.modifiers
    && |d.bindings| > 0
    && d.bindings[0].pattern.IdentifierPattern?
    && d.bindings[0].pattern.identifier in BadNames
    && d.bindings[0].initializer.Some?
    && exists i :: NearestTypeScope(path, i) && Initializes(d.bindings[0].initializer.value, path[i].name)
  }

  /**
    The visitor's check of one variable declaration with ancestors `path`:
    the violations it appends, at most the declaration's own position.
   */
  function VisitVariableDecl(d: VariableDecl, path: seq<Scope>): (r: seq<nat>)
    ensures r == [] || r == [d.position]
    ensures r != [] <==> IsSingletonDecl(d, path)
    ensures Static !in d.modifiers ==> r == []
    ensures |d.bindings| == 0 || !d.bindings[0].pattern.IdentifierPattern? ==> r == []
    ensures (|d.bindings| > 0 && d.bindings[0].pattern.IdentifierPattern?
             && d.bindings[0].pattern.identifier !in BadNames) ==> r == []
    ensures (forall i | 0 <= i < |path| :: !path[i].TypeScope?) ==> r == []
    ensures (|d.bindings| > 0 && (d.bindings[0].initializer.None? || !d.bindings[0].initializer.value.FunctionCall?))
            ==> r == []
  {
    if Static !in d.modifiers then []
    else if |d.bindings| == 0 then []
    else
      var binding := d.bindings[0];
      if !binding.pattern.IdentifierPattern? || binding.pattern.identifier !in BadNames then []
      else
        match EnclosingNominalName(path)
        case None => []
        case Some(typeName) =>
          if binding.initializer.None? || !Initializes(binding.initializer.value, typeName) then []
          else [d.position]
  }
}
