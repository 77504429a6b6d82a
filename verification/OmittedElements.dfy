/** Omitted array elements, where the folder of ast_utils.ts goes wrong: it makes them `undefined`, and
    evaluation leaves a hole.  A static value is right exactly when no omitted element is in a
    position that becomes part of it. */
module OmittedElements {
  import opened Options
  import opened StaticValue
  import RequestKey

  // ---- the condition ----

  /** No omitted element becomes part of the value.  Which branch of a conditional or logical expression
      is the value is decided as the folder decides it. */
  predicate Clean(s: Semantics, e: Expr, next: nat)
    decreases e
  {
    match e
    case Wrapped(expression) => Clean(s, expression, next)
    case Logical(operator, left, right) =>
      (match Fold(s, left, next)
       case None => true
       case Some(first) =>
         if ShortCircuits(operator, first.value) then Clean(s, left, next) else Clean(s, right, first.next))
    case Conditional(test, consequent, alternate) =>
      (match Fold(s, test, next)
       case None => true
       case Some(tested) =>
         if Truthy(tested.value) then Clean(s, consequent, tested.next) else Clean(s, alternate, tested.next))
    case ArrayLiteral(elements) => ElementsClean(s, elements, next)
    case ObjectLiteral(properties) => PropertiesClean(s, properties, next)
    case Sequence(expressions) => LastClean(s, expressions, next)
    case _ => true
  }

  predicate ElementsClean(s: Semantics, elements: Elements, next: nat)
    decreases elements
  {
    match elements
    case NoElements => true
    case Omitted(_) => false
    case SpreadElement(_) => true
    case Element(item, rest) =>
      Clean(s, item, next)
      && match Fold(s, item, next)
         case None => true
         case Some(folded) => ElementsClean(s, rest, folded.next)
  }

  predicate PropertiesClean(s: Semantics, properties: Properties, next: nat)
    decreases properties
  {
    match properties
    case NoProperties => true
    case SpreadProperty(argument, rest) =>
      Clean(s, argument, next)
      && (match Fold(s, argument, next)
          case None => true
          case Some(folded) => PropertiesClean(s, rest, folded.next))
    case Accessor(_) => true
    case Property(key, value, rest) =>
      match FoldKey(s, key, next)
      case None => true
      case Some((_, middle)) =>
        Clean(s, value, middle)
        && match Fold(s, value, middle)
           case None => true
           case Some(folded) => PropertiesClean(s, rest, folded.next)
  }

  predicate LastClean(s: Semantics, expressions: Exprs, next: nat)
    decreases expressions
  {
    match expressions
    case NoExprs => true
    case MoreExprs(first, NoExprs) => Clean(s, first, next)
    case MoreExprs(_, rest) => LastClean(s, rest, next)
  }

  // ---- the expressions it is exact for ----

  /** Operands that operators look into omit nothing, and no object literal writes a field twice.
      Identity, negation, `typeof`, `void` and the tests of conditional and logical expressions do
      not look into arrays. */
  predicate Regular(s: Semantics, e: Expr, next: nat)
    decreases e
  {
    match e
    case Wrapped(expression) => Regular(s, expression, next)
    case Unary(operator, argument) =>
      if operator in UNARY_ARITHMETIC then NoHoles(argument) else Regular(s, argument, next)
    case Binary(operator, left, right) =>
      if operator == "===" || operator == "!==" then
        Regular(s, left, next)
        && (match Fold(s, left, next)
            case None => true
            case Some(first) => Regular(s, right, first.next))
      else NoHoles(left) && NoHoles(right)
    case Logical(operator, left, right) =>
      Regular(s, left, next)
      && (match Fold(s, left, next)
          case None => true
          case Some(first) => ShortCircuits(operator, first.value) || Regular(s, right, first.next))
    case Conditional(test, consequent, alternate) =>
      Regular(s, test, next)
      && (match Fold(s, test, next)
          case None => true
          case Some(tested) =>
            if Truthy(tested.value) then Regular(s, consequent, tested.next) else Regular(s, alternate, tested.next))
    case ArrayLiteral(elements) => ElementsRegular(s, elements, next)
    case ObjectLiteral(properties) => PropertiesNoHoles(properties) || PropertiesRegular(s, properties, {}, next)
    case Sequence(expressions) => LastRegular(s, expressions, next)
    case Template(_, parts) => PartsNoHoles(parts)
    case _ => true
  }

  predicate ElementsRegular(s: Semantics, elements: Elements, next: nat)
    decreases elements
  {
    match elements
    case NoElements => true
    case Omitted(rest) => ElementsRegular(s, rest, next)
    case SpreadElement(_) => true
    case Element(item, rest) =>
      Regular(s, item, next)
      && match Fold(s, item, next)
         case None => true
         case Some(folded) => ElementsRegular(s, rest, folded.next)
  }

  /** No field is in `written`, nor written twice. */
  predicate PropertiesRegular(s: Semantics, properties: Properties, written: set<string>, next: nat)
    decreases properties
  {
    match properties
    case NoProperties => true
    case SpreadProperty(argument, rest) =>
      Regular(s, argument, next)
      && (match Fold(s, argument, next)
          case None => true
          case Some(folded) =>
            OwnFields(s, folded.value).Keys !! written
            && PropertiesRegular(s, rest, written + OwnFields(s, folded.value).Keys, folded.next))
    case Accessor(_) => true
    case Property(key, value, rest) =>
      (key.Computed? ==> NoHoles(key.expression))
      && match FoldKey(s, key, next)
         case None => true
         case Some((name, middle)) =>
           name !in written && Regular(s, value, middle)
           && match Fold(s, value, middle)
              case None => true
              case Some(folded) => PropertiesRegular(s, rest, written + {name}, folded.next)
  }

  predicate LastRegular(s: Semantics, expressions: Exprs, next: nat)
    decreases expressions
  {
    match expressions
    case NoExprs => true
    case MoreExprs(first, NoExprs) => Regular(s, first, next)
    case MoreExprs(_, rest) => LastRegular(s, rest, next)
  }

  // ---- what an omitted element cannot change ----

  /** The shape of a folded value is that of the evaluated one: only inside arrays and fields may they differ. */
  predicate Resembles(folded: Tree, done: Tree) {
    match (folded, done)
    case (ArrayTree(items), ArrayTree(items')) =>
      |items| == |items'| && forall i :: 0 <= i < |items| ==> items[i].Filled?
    case (ObjectTree(fields), ObjectTree(fields')) => fields'.Keys <= fields.Keys
    case _ => folded == done && folded.Plain?
  }

  predicate AgreesInShape(next: nat, folded: Folded, world: World, done: Completed) {
    && Resembles(folded.value.tree, done.value.tree)
    && next <= folded.next && world.next <= done.world.next
    && (IsObject(folded.value) ==>
        next <= folded.value.id < folded.next && world.next <= done.value.id < done.world.next)
  }

  lemma TestsResemble(operator: string, value: Value, value': Value)
    requires Resembles(value.tree, value'.tree)
    ensures Truthy(value) <==> value'.tree !in FALSY
    ensures ShortCircuits(operator, value)
            <==> (operator == "&&" && value'.tree in FALSY) || (operator == "||" && value'.tree !in FALSY)
                 || (operator == "??" && value'.tree != Plain(Undefined) && value'.tree != Plain(Null))
    ensures TypeOf(value) == TypeName(value'.tree) && IsObject(value) == IsObject(value')
    ensures value.tree.Plain? ==> value.tree == value'.tree
  {
  }

  lemma UnaryResembles(s: Semantics, operator: string, argument: Value, argument': Value)
    requires operator !in UNARY_ARITHMETIC && Resembles(argument.tree, argument'.tree)
    ensures ApplyUnary(s, operator, argument) == UnaryResult(s, operator, argument')
    ensures ApplyUnary(s, operator, argument).Some? ==>
              ApplyUnary(s, operator, argument).value.tree.Plain? && operator in {"!", "typeof", "void"}
  {
    TestsResemble("", argument, argument');
  }

  lemma IdentityResembles(s: Semantics, operator: string, left: Value, right: Value, left': Value, right': Value)
    requires operator == "===" || operator == "!=="
    requires Resembles(left.tree, left'.tree) && Resembles(right.tree, right'.tree)
    requires IsObject(left) && IsObject(right) ==> left.id != right.id && left'.id != right'.id
    ensures ApplyBinary(s, operator, left, right) == BinaryResult(s, operator, left', right')
    ensures ApplyBinary(s, operator, left, right).Some? ==> ApplyBinary(s, operator, left, right).value.tree.Plain?
  {
  }

  // Fields of a spread array.

  lemma {:induction false} ItemKeys(items: seq<Slot>, key: string)
    ensures key in ItemFields(items)
            <==> exists i :: 0 <= i < |items| && items[i].Filled? && key == RequestKey.Digits(i)
  {
    if items != [] {
      var last := |items| - 1;
      ItemKeys(items[..last], key);
      assert forall i :: 0 <= i < last ==> items[..last][i] == items[i];
    }
  }

  lemma DigitsAreDistinct(i: nat, j: nat)
    ensures RequestKey.Digits(i) == RequestKey.Digits(j) ==> i == j
  {
    RequestKey.DigitsReadBack(i);
    RequestKey.DigitsReadBack(j);
  }

  /** Every element is copied under its index. */
  lemma {:induction false} ItemValues(items: seq<Slot>, i: nat)
    requires i < |items| && items[i].Filled?
    ensures RequestKey.Digits(i) in ItemFields(items) && ItemFields(items)[RequestKey.Digits(i)] == items[i].tree
    decreases |items|
  {
    var last := |items| - 1;
    if i < last {
      ItemValues(items[..last], i);
      DigitsAreDistinct(i, last);
    }
  }

  /** The last key is not one of the earlier ones. */
  lemma LastKeyIsNew(items: seq<Slot>)
    ensures RequestKey.Digits(|items|) !in ItemFields(items)
  {
    ItemKeys(items, RequestKey.Digits(|items|));
    forall i | 0 <= i < |items|
      ensures RequestKey.Digits(i) != RequestKey.Digits(|items|)
    {
      DigitsAreDistinct(i, |items|);
    }
  }

  lemma WriteExactly(fields: map<string, Tree>, fields': map<string, Tree>, key: string, tree: Tree, tree': Tree)
    requires key !in fields && key !in fields'
    ensures fields[key := tree] == fields'[key := tree'] <==> fields == fields' && tree == tree'
  {
    var all, all' := fields[key := tree], fields'[key := tree'];
    if all == all' {
      assert fields == all - {key} && fields' == all' - {key};
      assert all[key] == all'[key];
    }
  }

  /** Spreading tells a hole from `undefined`. */
  lemma {:induction false} ItemFieldsExactly(folded: seq<Slot>, done: seq<Slot>)
    requires |folded| == |done| && forall i :: 0 <= i < |folded| ==> folded[i].Filled?
    ensures ItemFields(done).Keys <= ItemFields(folded).Keys
    ensures ItemFields(folded) == ItemFields(done) <==> folded == done
  {
    if folded != [] {
      var last := |folded| - 1;
      var left, right := folded[..last], done[..last];
      ItemFieldsExactly(left, right);
      LastKeyIsNew(left);
      LastKeyIsNew(right);
      assert folded == left + [folded[last]] && done == right + [done[last]];
      var key := RequestKey.Digits(last);
      assert ItemFields(folded) == ItemFields(left)[key := folded[last].tree];
      if done[last].Filled? {
        WriteExactly(ItemFields(left), ItemFields(right), key, folded[last].tree, done[last].tree);
      } else {
        assert key in ItemFields(folded) && key !in ItemFields(done);
      }
    }
  }

  lemma MergeExactly(fields: map<string, Tree>, fields': map<string, Tree>, more: map<string, Tree>,
                     more': map<string, Tree>)
    requires more.Keys !! fields.Keys && fields'.Keys <= fields.Keys && more'.Keys <= more.Keys
    ensures fields + more == fields' + more' <==> fields == fields' && more == more'
    ensures (fields' + more').Keys <= (fields + more).Keys
  {
    var all, all' := fields + more, fields' + more';
    if all == all' {
      assert fields == all - more.Keys && fields' == all' - more.Keys;
      assert more == all - fields.Keys && more' == all' - fields.Keys;
    }
  }

  lemma SpreadExactly(s: Semantics, value: Value, value': Value)
    requires IsObject(value) && Resembles(value.tree, value'.tree)
    ensures OwnFields(s, value').Keys <= OwnFields(s, value).Keys
    ensures OwnFields(s, value) == OwnFields(s, value') <==> value.tree == value'.tree
  {
    if value.tree.ArrayTree? {
      ItemFieldsExactly(value.tree.items, value'.tree.items);
    }
  }

  // ---- exactness ----

  /** Sound expressions are clean. */
  lemma {:induction false} SoundIsClean(s: Semantics, e: Expr, next: nat)
    requires NoHoles(e)
    ensures Clean(s, e, next)
    decreases e
  {
    match e
    case Wrapped(expression) => SoundIsClean(s, expression, next);
    case Logical(operator, left, right) =>
      SoundIsClean(s, left, next);
      if Fold(s, left, next).Some? { SoundIsClean(s, right, Fold(s, left, next).value.next); }
    case Conditional(test, consequent, alternate) =>
      if Fold(s, test, next).Some? {
        SoundIsClean(s, consequent, Fold(s, test, next).value.next);
        SoundIsClean(s, alternate, Fold(s, test, next).value.next);
      }
    case ArrayLiteral(elements) => SoundElementsAreClean(s, elements, next);
    case ObjectLiteral(properties) => SoundPropertiesAreClean(s, properties, next);
    case Sequence(expressions) => SoundLastIsClean(s, expressions, next);
    case _ =>
  }

  lemma {:induction false} SoundElementsAreClean(s: Semantics, elements: Elements, next: nat)
    requires NoneOmitted(elements)
    ensures ElementsClean(s, elements, next)
    decreases elements
  {
    if elements.Element? {
      SoundIsClean(s, elements.item, next);
      if Fold(s, elements.item, next).Some? {
        SoundElementsAreClean(s, elements.rest, Fold(s, elements.item, next).value.next);
      }
    }
  }

  lemma {:induction false} SoundPropertiesAreClean(s: Semantics, properties: Properties, next: nat)
    requires PropertiesNoHoles(properties)
    ensures PropertiesClean(s, properties, next)
    decreases properties
  {
    match properties
    case SpreadProperty(argument, rest) =>
      SoundIsClean(s, argument, next);
      if Fold(s, argument, next).Some? { SoundPropertiesAreClean(s, rest, Fold(s, argument, next).value.next); }
    case Property(key, value, rest) =>
      if FoldKey(s, key, next).Some? {
        var (_, middle) := FoldKey(s, key, next).value;
        SoundIsClean(s, value, middle);
        if Fold(s, value, middle).Some? { SoundPropertiesAreClean(s, rest, Fold(s, value, middle).value.next); }
      }
    case _ =>
  }

  lemma {:induction false} SoundLastIsClean(s: Semantics, expressions: Exprs, next: nat)
    requires ExprsNoHoles(expressions)
    ensures LastClean(s, expressions, next)
    decreases expressions
  {
    if expressions.MoreExprs? {
      if expressions.rest.NoExprs? {
        SoundIsClean(s, expressions.first, next);
      } else {
        SoundLastIsClean(s, expressions.rest, next);
      }
    }
  }

  lemma UnaryIsPlain(s: Semantics, operator: string, argument: Value)
    ensures ApplyUnary(s, operator, argument).Some? ==> ApplyUnary(s, operator, argument).value.tree.Plain?
  {
  }

  lemma BinaryIsPlain(s: Semantics, operator: string, left: Value, right: Value)
    requires operator in BINARY_OPERATORS
    ensures ApplyBinary(s, operator, left, right).Some? ==> ApplyBinary(s, operator, left, right).value.tree.Plain?
  {
  }

  /** Folded arrays have no holes. */
  lemma {:induction false} FoldedItemsAreFilled(s: Semantics, elements: Elements, next: nat)
    requires FoldElements(s, elements, next).Some?
    ensures var items := FoldElements(s, elements, next).value.0; forall i :: 0 <= i < |items| ==> items[i].Filled?
    decreases elements
  {
    match elements
    case NoElements =>
    case Omitted(rest) => FoldedItemsAreFilled(s, rest, next);
    case Element(item, rest) => FoldedItemsAreFilled(s, rest, Fold(s, item, next).value.next);
  }

  /** The kinds of expression that hold no operand, or only operands that omit nothing. */
  lemma NothingOmitted(s: Semantics, e: Expr, next: nat, world: World)
    requires Unshadowed(s) && Regular(s, e, next) && Fold(s, e, next).Some? && Eval(s, e, world).Some?
    requires e.Literal? || e.Identifier? || e.Template?
    ensures Fold(s, e, next).value.value.tree == Eval(s, e, world).value.value.tree
    ensures AgreesInShape(next, Fold(s, e, next).value, world, Eval(s, e, world).value)
  {
    FoldIsSound(s, e, next, world);
  }

  lemma ArraysResemble(s: Semantics, elements: Elements, next: nat, world: World)
    requires FoldElements(s, elements, next).Some? && EvalElements(s, elements, world).Some?
    requires |FoldElements(s, elements, next).value.0| == |EvalElements(s, elements, world).value.0|
    ensures Resembles(ArrayTree(FoldElements(s, elements, next).value.0),
                      ArrayTree(EvalElements(s, elements, world).value.0))
  {
    hide FoldElements, EvalElements;
    FoldedItemsAreFilled(s, elements, next);
  }

  /** A static value is the value evaluation gives if and only if no omitted element becomes part of it. */
  lemma {:induction false} FoldsExactly(s: Semantics, e: Expr, next: nat, world: World)
    requires Unshadowed(s) && Regular(s, e, next) && Fold(s, e, next).Some? && Eval(s, e, world).Some?
    ensures Fold(s, e, next).value.value.tree == Eval(s, e, world).value.value.tree <==> Clean(s, e, next)
    ensures AgreesInShape(next, Fold(s, e, next).value, world, Eval(s, e, world).value)
    decreases e
  {
    hide ApplyUnary, ApplyBinary, UnaryResult, BinaryResult, Truthy, ShortCircuits, Constant, Resembles, NoHoles;
    match e
    case Wrapped(expression) => FoldsExactly(s, expression, next, world);
    case Unary(operator, argument) => UnaryFoldsExactly(s, e, next, world);
    case Binary(operator, left, right) => BinaryFoldsExactly(s, e, next, world);
    case Logical(_, _, _) => LogicalFoldsExactly(s, e, next, world);
    case Conditional(_, _, _) => ConditionalFoldsExactly(s, e, next, world);
    case ArrayLiteral(elements) => ArrayFoldsExactly(s, elements, next, world);
    case ObjectLiteral(properties) => ObjectFoldsExactly(s, properties, next, world);
    case Sequence(expressions) => LastFoldsExactly(s, expressions, next, world);
    case _ => NothingOmitted(s, e, next, world);
  }

  lemma {:induction false} LogicalFoldsExactly(s: Semantics, e: Expr, next: nat, world: World)
    requires e.Logical? && Unshadowed(s) && Regular(s, e, next) && Fold(s, e, next).Some? && Eval(s, e, world).Some?
    ensures Fold(s, e, next).value.value.tree == Eval(s, e, world).value.value.tree <==> Clean(s, e, next)
    ensures AgreesInShape(next, Fold(s, e, next).value, world, Eval(s, e, world).value)
    decreases e, 0
  {
    hide Truthy, ShortCircuits, Resembles, NoHoles;
    FoldsExactly(s, e.left, next, world);
    var first, first' := Fold(s, e.left, next).value, Eval(s, e.left, world).value;
    TestsResemble(e.operator, first.value, first'.value);
    if !ShortCircuits(e.operator, first.value) {
      FoldsExactly(s, e.right, first.next, first'.world);
    }
  }

  lemma {:induction false} ConditionalFoldsExactly(s: Semantics, e: Expr, next: nat, world: World)
    requires e.Conditional? && Unshadowed(s) && Regular(s, e, next) && Fold(s, e, next).Some?
             && Eval(s, e, world).Some?
    ensures Fold(s, e, next).value.value.tree == Eval(s, e, world).value.value.tree <==> Clean(s, e, next)
    ensures AgreesInShape(next, Fold(s, e, next).value, world, Eval(s, e, world).value)
    decreases e, 0
  {
    hide Truthy, ShortCircuits, Resembles, NoHoles;
    FoldsExactly(s, e.test, next, world);
    var tested, tested' := Fold(s, e.test, next).value, Eval(s, e.test, world).value;
    TestsResemble("", tested.value, tested'.value);
    FoldsExactly(s, if Truthy(tested.value) then e.consequent else e.alternate, tested.next, tested'.world);
  }

  lemma {:induction false} UnaryFoldsExactly(s: Semantics, e: Expr, next: nat, world: World)
    requires e.Unary? && Unshadowed(s) && Regular(s, e, next) && Fold(s, e, next).Some? && Eval(s, e, world).Some?
    ensures Fold(s, e, next).value.value.tree == Eval(s, e, world).value.value.tree
    ensures AgreesInShape(next, Fold(s, e, next).value, world, Eval(s, e, world).value)
    decreases e, 0
  {
    hide ApplyUnary, UnaryResult;
    var folded := Fold(s, e.argument, next).value;
    UnaryIsKnown(s, e.operator, folded.value);
    UnaryIsPlain(s, e.operator, folded.value);
    if e.operator in UNARY_ARITHMETIC {
      FoldIsSound(s, e, next, world);
    } else {
      FoldsExactly(s, e.argument, next, world);
      UnaryResembles(s, e.operator, folded.value, Eval(s, e.argument, world).value.value);
    }
  }

  lemma {:induction false} BinaryFoldsExactly(s: Semantics, e: Expr, next: nat, world: World)
    requires e.Binary? && Unshadowed(s) && Regular(s, e, next) && Fold(s, e, next).Some? && Eval(s, e, world).Some?
    ensures Fold(s, e, next).value.value.tree == Eval(s, e, world).value.value.tree
    ensures AgreesInShape(next, Fold(s, e, next).value, world, Eval(s, e, world).value)
    decreases e, 0
  {
    hide ApplyBinary, BinaryResult;
    var first := Fold(s, e.left, next).value;
    var second := Fold(s, e.right, first.next).value;
    BinaryIsPlain(s, e.operator, first.value, second.value);
    if e.operator == "===" || e.operator == "!==" {
      FoldsExactly(s, e.left, next, world);
      var first' := Eval(s, e.left, world).value;
      FoldsExactly(s, e.right, first.next, first'.world);
      var second' := Eval(s, e.right, first'.world).value;
      TestsResemble("", first.value, first'.value);
      TestsResemble("", second.value, second'.value);
      IdentityResembles(s, e.operator, first.value, second.value, first'.value, second'.value);
    } else {
      FoldIsSound(s, e, next, world);
    }
  }

  lemma {:induction false} ElementsFoldExactly(s: Semantics, elements: Elements, next: nat, world: World)
    requires Unshadowed(s) && ElementsRegular(s, elements, next)
    requires FoldElements(s, elements, next).Some? && EvalElements(s, elements, world).Some?
    ensures FoldElements(s, elements, next).value.0 == EvalElements(s, elements, world).value.0
            <==> ElementsClean(s, elements, next)
    ensures |FoldElements(s, elements, next).value.0| == |EvalElements(s, elements, world).value.0|
    ensures next <= FoldElements(s, elements, next).value.1
            && world.next <= EvalElements(s, elements, world).value.1.next
    decreases elements, 0
  {
    match elements
    case NoElements =>
    case Omitted(rest) =>
      ElementsFoldExactly(s, rest, next, world);
      assert FoldElements(s, elements, next).value.0[0] == Filled(Plain(Undefined));
      assert EvalElements(s, elements, world).value.0[0] == Hole;
    case Element(item, rest) =>
      FoldsExactly(s, item, next, world);
      var folded, done := Fold(s, item, next).value, Eval(s, item, world).value;
      ElementsFoldExactly(s, rest, folded.next, done.world);
      var left, right := FoldElements(s, rest, folded.next).value.0, EvalElements(s, rest, done.world).value.0;
      assert ([Filled(folded.value.tree)] + left)[1..] == left && ([Filled(done.value.tree)] + right)[1..] == right;
  }

  lemma {:induction false} ArrayFoldsExactly(s: Semantics, elements: Elements, next: nat, world: World)
    requires Unshadowed(s) && ElementsRegular(s, elements, next)
    requires Fold(s, ArrayLiteral(elements), next).Some? && Eval(s, ArrayLiteral(elements), world).Some?
    ensures Fold(s, ArrayLiteral(elements), next).value.value.tree
            == Eval(s, ArrayLiteral(elements), world).value.value.tree
            <==> ElementsClean(s, elements, next)
    ensures AgreesInShape(next, Fold(s, ArrayLiteral(elements), next).value,
                          world, Eval(s, ArrayLiteral(elements), world).value)
    decreases elements, 1
  {
    hide Resembles;
    FoldedHasNoSpread(s, elements, next);
    ElementsFoldExactly(s, elements, next, world);
    ArraysResemble(s, elements, next, world);
  }

  lemma {:induction false} ObjectFoldsExactly(s: Semantics, properties: Properties, next: nat, world: World)
    requires Unshadowed(s) && Regular(s, ObjectLiteral(properties), next)
    requires Fold(s, ObjectLiteral(properties), next).Some? && Eval(s, ObjectLiteral(properties), world).Some?
    ensures Fold(s, ObjectLiteral(properties), next).value.value.tree
            == Eval(s, ObjectLiteral(properties), world).value.value.tree
            <==> PropertiesClean(s, properties, next)
    ensures AgreesInShape(next, Fold(s, ObjectLiteral(properties), next).value,
                          world, Eval(s, ObjectLiteral(properties), world).value)
    decreases properties, 1
  {
    FoldedHasNoAccessor(s, properties, map[], next);
    if PropertiesNoHoles(properties) {
      FoldIsSound(s, ObjectLiteral(properties), next, world);
      SoundPropertiesAreClean(s, properties, next);
    } else {
      var none: map<string, Tree> := map[];
      assert none.Keys == {};
      PropertiesFoldExactly(s, properties, none, none, next, world);
    }
  }

  lemma {:induction false} PropertiesFoldExactly(s: Semantics, properties: Properties, fields: map<string, Tree>,
                                                 fields': map<string, Tree>, next: nat, world: World)
    requires Unshadowed(s) && PropertiesRegular(s, properties, fields.Keys, next) && fields'.Keys <= fields.Keys
    requires FoldProperties(s, properties, fields, next).Some? && EvalProperties(s, properties, fields', world).Some?
    ensures FoldProperties(s, properties, fields, next).value.0 == EvalProperties(s, properties, fields', world).value.0
            <==> fields == fields' && PropertiesClean(s, properties, next)
    ensures EvalProperties(s, properties, fields', world).value.0.Keys
            <= FoldProperties(s, properties, fields, next).value.0.Keys
    ensures next <= FoldProperties(s, properties, fields, next).value.1
    ensures world.next <= EvalProperties(s, properties, fields', world).value.1.next
    decreases properties, 0
  {
    hide OwnFields, Resembles, Regular, Clean, NoHoles, FoldKey, EvalKey, Fold, Eval;
    match properties
    case NoProperties =>
    case SpreadProperty(argument, rest) =>
      FoldsExactly(s, argument, next, world);
      var folded, done := Fold(s, argument, next).value, Eval(s, argument, world).value;
      SpreadExactly(s, folded.value, done.value);
      var more, more' := OwnFields(s, folded.value), OwnFields(s, done.value);
      MergeExactly(fields, fields', more, more');
      assert (fields + more).Keys == fields.Keys + more.Keys;
      PropertiesFoldExactly(s, rest, fields + more, fields' + more', folded.next, done.world);
    case Property(key, value, rest) =>
      KeyIsSound(s, key, next, world);
      var (name, middle) := FoldKey(s, key, next).value;
      var (_, middle') := EvalKey(s, key, world).value;
      FoldsExactly(s, value, middle, middle');
      var folded, done := Fold(s, value, middle).value, Eval(s, value, middle').value;
      WriteExactly(fields, fields', name, folded.value.tree, done.value.tree);
      var more, more' := fields[name := folded.value.tree], fields'[name := done.value.tree];
      assert more.Keys == fields.Keys + {name} && more'.Keys == fields'.Keys + {name};
      PropertiesFoldExactly(s, rest, more, more', folded.next, done.world);
  }

  lemma {:induction false} LastFoldsExactly(s: Semantics, expressions: Exprs, next: nat, world: World)
    requires Unshadowed(s) && LastRegular(s, expressions, next)
    requires FoldLast(s, expressions, next).Some? && EvalLast(s, expressions, world).Some?
    ensures FoldLast(s, expressions, next).value.value.tree == EvalLast(s, expressions, world).value.value.tree
            <==> LastClean(s, expressions, next)
    ensures AgreesInShape(next, FoldLast(s, expressions, next).value, world, EvalLast(s, expressions, world).value)
    decreases expressions
  {
    var first, rest := expressions.first, expressions.rest;
    if rest.NoExprs? {
      FoldsExactly(s, first, next, world);
    } else {
      WorldGrows(s, first, world);
      LastFoldsExactly(s, rest, next, Eval(s, first, world).value.world);
    }
  }

  /** An array literal that omits its one element, folded and evaluated. */
  lemma OmittedItems(s: Semantics, world: World)
    ensures FoldElements(s, Omitted(NoElements), 0) == Some(([Filled(Plain(Undefined))], 0))
    ensures EvalElements(s, Omitted(NoElements), world) == Some(([Hole], world))
  {
    var none: seq<Slot> := [];
    assert FoldElements(s, NoElements, 0) == Some((none, 0));
    assert EvalElements(s, NoElements, world) == Some((none, world));
    assert [Filled(Plain(Undefined))] + none == [Filled(Plain(Undefined))] && [Hole] + none == [Hole];
  }

  /** Its fields, when it is spread. */
  lemma OmittedFields()
    ensures ItemFields([Filled(Plain(Undefined))]) == map["0" := Plain(Undefined)] && ItemFields([Hole]) == map[]
  {
    var folded, done := [Filled(Plain(Undefined))], [Hole];
    assert folded[..0] == [] && done[..0] == [];
    assert RequestKey.Digits(0) == "0";
  }

  /** `[,]` folds to an array with an element, and `{...[,]}` to an object with a field; evaluation
      gives neither. */
  lemma OmittedElementIsUnsound(s: Semantics, world: World)
    ensures var e := ArrayLiteral(Omitted(NoElements));
            && Fold(s, e, 0).value.value.tree == ArrayTree([Filled(Plain(Undefined))])
            && Eval(s, e, world).value.value.tree == ArrayTree([Hole])
    ensures var e := ObjectLiteral(SpreadProperty(ArrayLiteral(Omitted(NoElements)), NoProperties));
            && Fold(s, e, 0).value.value.tree == ObjectTree(map["0" := Plain(Undefined)])
            && Eval(s, e, world).value.value.tree == ObjectTree(map[])
  {
    hide FoldElements, EvalElements, ItemFields;
    OmittedItems(s, world);
    OmittedFields();
    var spread := SpreadProperty(ArrayLiteral(Omitted(NoElements)), NoProperties);
    var folded: map<string, Tree>, done: map<string, Tree> := map["0" := Plain(Undefined)], map[];
    assert map[] + folded == folded && map[] + done == done;
    assert FoldProperties(s, spread, map[], 0).value.0 == folded;
    assert EvalProperties(s, spread, map[], world).value.0 == done;
  }
}
