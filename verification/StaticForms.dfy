/** When the constant folder of ast_utils.ts has a value at all: exactly when evaluation meets nothing but
    the forms it supports. */
module StaticForms {
  import opened Options
  import opened StaticValue

  /** Every part of the expression that evaluation comes to, from this state of the program on, is of a
      supported form; of a sequence only the last expression counts. */
  ghost predicate Static(s: Semantics, e: Expr, world: World)
    decreases e
  {
    match e
    case Missing => false
    case Literal(_) => true
    case Identifier(name) => name == "undefined" || name == "NaN" || name == "Infinity"
    case Wrapped(expression) => Static(s, expression, world)
    case Unary(operator, argument) =>
      operator in {"-", "+", "~", "!", "typeof", "void"} && Static(s, argument, world)
    case Binary(operator, left, right) =>
      operator in {"==", "!=", "===", "!==", "<", "<=", ">", ">=", "<<", ">>", ">>>", "+", "-", "*", "/", "%", "**",
                   "|", "&", "^"}
      && Static(s, left, world) && Eval(s, left, world).Some? && Static(s, right, Eval(s, left, world).value.world)
    case Logical(operator, left, right) =>
      Static(s, left, world)
      && (match Eval(s, left, world)
          case None => false
          case Some(first) =>
            || (operator == "&&" && first.value.tree in FALSY)
            || (operator == "||" && first.value.tree !in FALSY)
            || (operator == "??" && first.value.tree != Plain(Undefined) && first.value.tree != Plain(Null))
            || Static(s, right, first.world))
    case Conditional(test, consequent, alternate) =>
      Static(s, test, world)
      && (match Eval(s, test, world)
          case None => false
          case Some(tested) =>
            if tested.value.tree in FALSY then Static(s, alternate, tested.world)
            else Static(s, consequent, tested.world))
    case ArrayLiteral(elements) => ElementsStatic(s, elements, world)
    case ObjectLiteral(properties) => PropertiesStatic(s, properties, world)
    case Sequence(expressions) => LastStatic(s, expressions, world)
    case Template(_, parts) => PartsStatic(s, parts, world)
    case Other(_) => false
  }

  ghost predicate ElementsStatic(s: Semantics, elements: Elements, world: World)
    decreases elements
  {
    match elements
    case NoElements => true
    case Omitted(rest) => ElementsStatic(s, rest, world)
    case SpreadElement(_) => false
    case Element(item, rest) =>
      Static(s, item, world) && Eval(s, item, world).Some?
      && ElementsStatic(s, rest, Eval(s, item, world).value.world)
  }

  /** Only objects and arrays may be spread. */
  ghost predicate PropertiesStatic(s: Semantics, properties: Properties, world: World)
    decreases properties
  {
    match properties
    case NoProperties => true
    case SpreadProperty(argument, rest) =>
      Static(s, argument, world) && Eval(s, argument, world).Some?
      && !Eval(s, argument, world).value.value.tree.Plain?
      && PropertiesStatic(s, rest, Eval(s, argument, world).value.world)
    case Accessor(_) => false
    case Property(key, value, rest) =>
      (key.Computed? ==> Static(s, key.expression, world)) && EvalKey(s, key, world).Some?
      && var middle := EvalKey(s, key, world).value.1;
         Static(s, value, middle) && Eval(s, value, middle).Some?
         && PropertiesStatic(s, rest, Eval(s, value, middle).value.world)
  }

  ghost predicate LastStatic(s: Semantics, expressions: Exprs, world: World)
    decreases expressions
  {
    match expressions
    case NoExprs => false
    case MoreExprs(first, rest) =>
      if rest.NoExprs? then Static(s, first, world)
      else Eval(s, first, world).Some? && LastStatic(s, rest, Eval(s, first, world).value.world)
  }

  ghost predicate PartsStatic(s: Semantics, parts: Parts, world: World)
    decreases parts
  {
    match parts
    case NoParts => true
    case Part(expression, _, rest) =>
      Static(s, expression, world) && Eval(s, expression, world).Some?
      && PartsStatic(s, rest, Eval(s, expression, world).value.world)
  }

  lemma {:induction false} SpreadIsNotStatic(s: Semantics, elements: Elements, world: World)
    requires HasSpread(elements)
    ensures !ElementsStatic(s, elements, world)
    decreases elements
  {
    match elements
    case NoElements =>
    case Omitted(rest) => SpreadIsNotStatic(s, rest, world);
    case SpreadElement(_) =>
    case Element(item, rest) =>
      if Eval(s, item, world).Some? { SpreadIsNotStatic(s, rest, Eval(s, item, world).value.world); }
  }

  lemma {:induction false} AccessorIsNotStatic(s: Semantics, properties: Properties, world: World)
    requires HasAccessor(properties)
    ensures !PropertiesStatic(s, properties, world)
    decreases properties
  {
    match properties
    case NoProperties =>
    case SpreadProperty(argument, rest) =>
      if Eval(s, argument, world).Some? { AccessorIsNotStatic(s, rest, Eval(s, argument, world).value.world); }
    case Accessor(_) =>
    case Property(key, value, rest) =>
      if EvalKey(s, key, world).Some? {
        var middle := EvalKey(s, key, world).value.1;
        if Eval(s, value, middle).Some? { AccessorIsNotStatic(s, rest, Eval(s, value, middle).value.world); }
      }
  }

  /** Where evaluation completes normally, there is a static value if and only if every part it comes to
      is of a supported form. */
  lemma {:induction false} FoldsStaticForms(s: Semantics, e: Expr, next: nat, world: World)
    requires Unshadowed(s) && NoHoles(e) && Eval(s, e, world).Some?
    ensures Fold(s, e, next).Some? <==> Static(s, e, world)
    decreases e
  {
    hide ApplyUnary, ApplyBinary, UnaryResult, BinaryResult, Truthy, ShortCircuits, HasSpread, HasAccessor;
    match e
    case Wrapped(expression) => FoldsStaticForms(s, expression, next, world);
    case Unary(_, _) => UnaryFolds(s, e, next, world);
    case Binary(_, _, _) => BinaryFolds(s, e, next, world);
    case Logical(_, _, _) => LogicalFolds(s, e, next, world);
    case Conditional(_, _, _) => ConditionalFolds(s, e, next, world);
    case ArrayLiteral(elements) =>
      if HasSpread(elements) {
        SpreadIsNotStatic(s, elements, world);
        if FoldElements(s, elements, next).Some? { FoldedHasNoSpread(s, elements, next); }
      } else {
        ElementsFold(s, elements, next, world);
      }
    case ObjectLiteral(properties) =>
      if HasAccessor(properties) {
        AccessorIsNotStatic(s, properties, world);
        if FoldProperties(s, properties, map[], next).Some? { FoldedHasNoAccessor(s, properties, map[], next); }
      } else {
        PropertiesFold(s, properties, map[], next, world);
      }
    case Sequence(expressions) => LastFolds(s, expressions, next, world);
    case Template(_, parts) => PartsFold(s, parts, next, world);
    case _ =>
  }

  lemma {:induction false} LogicalFolds(s: Semantics, e: Expr, next: nat, world: World)
    requires e.Logical? && Unshadowed(s) && NoHoles(e) && Eval(s, e, world).Some?
    ensures Fold(s, e, next).Some? <==> Static(s, e, world)
    decreases e, 0
  {
    hide Truthy, ShortCircuits;
    FoldsStaticForms(s, e.left, next, world);
    if Fold(s, e.left, next).Some? {
      FoldIsSound(s, e.left, next, world);
      var first, first' := Fold(s, e.left, next).value, Eval(s, e.left, world).value;
      TestsAgree(e.operator, first.value, first'.value);
      if !ShortCircuits(e.operator, first.value) {
        FoldsStaticForms(s, e.right, first.next, first'.world);
      }
    }
  }

  lemma {:induction false} ConditionalFolds(s: Semantics, e: Expr, next: nat, world: World)
    requires e.Conditional? && Unshadowed(s) && NoHoles(e) && Eval(s, e, world).Some?
    ensures Fold(s, e, next).Some? <==> Static(s, e, world)
    decreases e, 0
  {
    hide Truthy;
    FoldsStaticForms(s, e.test, next, world);
    if Fold(s, e.test, next).Some? {
      FoldIsSound(s, e.test, next, world);
      var tested, tested' := Fold(s, e.test, next).value, Eval(s, e.test, world).value;
      TestsAgree("", tested.value, tested'.value);
      FoldsStaticForms(s, if Truthy(tested.value) then e.consequent else e.alternate, tested.next, tested'.world);
    }
  }

  lemma UnaryTable(s: Semantics, operator: string, argument: Value)
    ensures ApplyUnary(s, operator, argument).Some? ==> operator in {"-", "+", "~", "!", "typeof", "void"}
  {
  }

  lemma {:induction false} UnaryFolds(s: Semantics, e: Expr, next: nat, world: World)
    requires e.Unary? && Unshadowed(s) && NoHoles(e) && Eval(s, e, world).Some?
    ensures Fold(s, e, next).Some? <==> Static(s, e, world)
    decreases e, 0
  {
    hide ApplyUnary, UnaryResult;
    if e.operator in {"-", "+", "~", "!", "typeof", "void"} {
      FoldsStaticForms(s, e.argument, next, world);
      if Fold(s, e.argument, next).Some? {
        FoldIsSound(s, e.argument, next, world);
        UnaryAgrees(s, e.operator, Fold(s, e.argument, next).value.value, Eval(s, e.argument, world).value.value);
      }
    } else if Fold(s, e.argument, next).Some? {
      UnaryTable(s, e.operator, Fold(s, e.argument, next).value.value);
    }
  }

  lemma {:induction false} BinaryFolds(s: Semantics, e: Expr, next: nat, world: World)
    requires e.Binary? && Unshadowed(s) && NoHoles(e) && Eval(s, e, world).Some?
    ensures Fold(s, e, next).Some? <==> Static(s, e, world)
    decreases e, 0
  {
    hide ApplyBinary, BinaryResult;
    if e.operator in BINARY_OPERATORS {
      FoldsStaticForms(s, e.left, next, world);
      if Fold(s, e.left, next).Some? {
        FoldIsSound(s, e.left, next, world);
        var first, first' := Fold(s, e.left, next).value, Eval(s, e.left, world).value;
        FoldsStaticForms(s, e.right, first.next, first'.world);
        if Fold(s, e.right, first.next).Some? {
          FoldIsSound(s, e.right, first.next, first'.world);
          var second, second' := Fold(s, e.right, first.next).value, Eval(s, e.right, first'.world).value;
          BinaryAgrees(s, e.operator, first.value, second.value, first'.value, second'.value);
        }
      }
    }
  }

  lemma {:induction false} ElementsFold(s: Semantics, elements: Elements, next: nat, world: World)
    requires Unshadowed(s) && NoneOmitted(elements) && EvalElements(s, elements, world).Some?
    ensures FoldElements(s, elements, next).Some? <==> ElementsStatic(s, elements, world)
    decreases elements
  {
    if elements.Element? {
      FoldsStaticForms(s, elements.item, next, world);
      if Fold(s, elements.item, next).Some? {
        ElementsFold(s, elements.rest, Fold(s, elements.item, next).value.next,
                     Eval(s, elements.item, world).value.world);
      }
    }
  }

  lemma SameFields(s: Semantics, value: Value, value': Value)
    requires value.tree == value'.tree
    ensures OwnFields(s, value) == OwnFields(s, value')
  {
  }

  lemma {:induction false} PropertiesFold(s: Semantics, properties: Properties, fields: map<string, Tree>, next: nat,
                                          world: World)
    requires Unshadowed(s) && PropertiesNoHoles(properties) && EvalProperties(s, properties, fields, world).Some?
    ensures FoldProperties(s, properties, fields, next).Some? <==> PropertiesStatic(s, properties, world)
    decreases properties
  {
    hide OwnFields;
    match properties
    case SpreadProperty(argument, rest) =>
      FoldsStaticForms(s, argument, next, world);
      if Fold(s, argument, next).Some? {
        FoldIsSound(s, argument, next, world);
        var folded, done := Fold(s, argument, next).value, Eval(s, argument, world).value;
        SameFields(s, folded.value, done.value);
        PropertiesFold(s, rest, fields + OwnFields(s, folded.value), folded.next, done.world);
      }
    case Property(key, value, rest) =>
      KeyFolds(s, key, next, world);
      if FoldKey(s, key, next).Some? {
        KeyIsSound(s, key, next, world);
        var (name, middle) := FoldKey(s, key, next).value;
        var (_, middle') := EvalKey(s, key, world).value;
        FoldsStaticForms(s, value, middle, middle');
        if Fold(s, value, middle).Some? {
          FoldIsSound(s, value, middle, middle');
          var folded, done := Fold(s, value, middle).value, Eval(s, value, middle').value;
          PropertiesFold(s, rest, fields[name := folded.value.tree], folded.next, done.world);
        }
      }
    case _ =>
  }

  lemma {:induction false} KeyFolds(s: Semantics, key: Key, next: nat, world: World)
    requires Unshadowed(s) && (key.Computed? ==> NoHoles(key.expression)) && EvalKey(s, key, world).Some?
    ensures FoldKey(s, key, next).Some? <==> (key.Computed? ==> Static(s, key.expression, world))
    decreases key
  {
    if key.Computed? {
      FoldsStaticForms(s, key.expression, next, world);
      if Fold(s, key.expression, next).Some? {
        FoldIsSound(s, key.expression, next, world);
      }
    }
  }

  lemma {:induction false} LastFolds(s: Semantics, expressions: Exprs, next: nat, world: World)
    requires Unshadowed(s) && ExprsNoHoles(expressions) && EvalLast(s, expressions, world).Some?
    ensures FoldLast(s, expressions, next).Some? <==> LastStatic(s, expressions, world)
    decreases expressions
  {
    var first, rest := expressions.first, expressions.rest;
    if rest.NoExprs? {
      FoldsStaticForms(s, first, next, world);
    } else {
      LastFolds(s, rest, next, Eval(s, first, world).value.world);
    }
  }

  lemma {:induction false} PartsFold(s: Semantics, parts: Parts, next: nat, world: World)
    requires Unshadowed(s) && PartsNoHoles(parts) && EvalParts(s, parts, world).Some?
    ensures FoldParts(s, parts, next).Some? <==> PartsStatic(s, parts, world)
    decreases parts
  {
    if parts.Part? {
      FoldsStaticForms(s, parts.expression, next, world);
      if Fold(s, parts.expression, next).Some? {
        FoldIsSound(s, parts.expression, next, world);
        PartsFold(s, parts.rest, Fold(s, parts.expression, next).value.next,
                  Eval(s, parts.expression, world).value.world);
      }
    }
  }
}
