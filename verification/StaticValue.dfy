/** The constant folder `getStaticValue` of ast_utils.ts, against an evaluator for the same expressions.
    Arithmetic, conversion to text and comparison of unlike values are operators both sides share. */
module StaticValue {
  import opened Options
  import RequestKey

  // ---- values ----

  datatype Double = NaN | Infinite(negative: bool) | NegativeZero | Finite(value: real)

  datatype Primitive = Undefined | Null | Bool(value: bool) | Number(double: Double) | Text(text: string)

  /** What a value looks like: a primitive, an array with its holes, or an object with its own fields. */
  datatype Tree =
    | Plain(primitive: Primitive)
    | ArrayTree(items: seq<Slot>)
    | ObjectTree(fields: map<string, Tree>)

  datatype Slot = Hole | Filled(tree: Tree)

  /** A value; `id` is the identity of an object and means nothing for a primitive. */
  datatype Value = Value(tree: Tree, id: nat)

  predicate IsObject(value: Value) {
    !value.tree.Plain?
  }

  function Simple(primitive: Primitive): Value {
    Value(Plain(primitive), 0)
  }

  predicate IsZero(double: Double) {
    double == NegativeZero || double == Finite(0.0)
  }

  predicate Truthy(value: Value) {
    match value.tree
    case Plain(Undefined) => false
    case Plain(Null) => false
    case Plain(Bool(b)) => b
    case Plain(Number(d)) => d != NaN && !IsZero(d)
    case Plain(Text(t)) => t != ""
    case _ => true
  }

  predicate Nullish(value: Value) {
    value.tree == Plain(Undefined) || value.tree == Plain(Null)
  }

  function TypeOf(value: Value): string {
    match value.tree
    case Plain(Undefined) => "undefined"
    case Plain(Bool(_)) => "boolean"
    case Plain(Number(_)) => "number"
    case Plain(Text(_)) => "string"
    case _ => "object"
  }

  /** `===`: objects by identity, numbers up to the sign of zero and never for NaN. */
  predicate StrictlyEqual(a: Value, b: Value) {
    if IsObject(a) || IsObject(b) then IsObject(a) && IsObject(b) && a.id == b.id
    else
      match (a.tree.primitive, b.tree.primitive)
      case (Number(x), Number(y)) => x != NaN && (x == y || (IsZero(x) && IsZero(y)))
      case (x, y) => x == y
  }

  // ---- expressions ----

  /** Expressions, as far as the folder tells them apart; `Missing` is a child the tree lacks, and
      `Wrapped` a chain, an `as` expression, a type assertion or a non-null assertion. */
  datatype Expr =
    | Missing
    | Literal(primitive: Primitive)
    | Identifier(name: string)
    | Wrapped(expression: Expr)
    | Unary(operator: string, argument: Expr)
    | Binary(operator: string, left: Expr, right: Expr)
    | Logical(operator: string, left: Expr, right: Expr)
    | Conditional(test: Expr, consequent: Expr, alternate: Expr)
    | ArrayLiteral(elements: Elements)
    | ObjectLiteral(properties: Properties)
    | Sequence(expressions: Exprs)
    | Template(head: string, parts: Parts)
    | Other(node: nat)

  datatype Exprs = NoExprs | MoreExprs(first: Expr, rest: Exprs)

  datatype Elements =
    | NoElements
    | Omitted(rest: Elements)
    | SpreadElement(rest: Elements)
    | Element(item: Expr, rest: Elements)

  datatype Properties =
    | NoProperties
    | SpreadProperty(argument: Expr, rest: Properties)
    | Accessor(rest: Properties)
    | Property(key: Key, value: Expr, rest: Properties)

  datatype Key = Named(name: string) | LiteralKey(primitive: Primitive) | Computed(expression: Expr)

  /** A substitution of a template and the text behind it. */
  datatype Parts = NoParts | Part(expression: Expr, text: string, rest: Parts)

  // ---- what folder and evaluator share ----

  /** The state of the program: `next` is the identity of the next object. */
  datatype World = World(state: int, next: nat)

  datatype Completed = Completed(value: Value, world: World)

  /** Operators on what values look like, where `None` is a thrown exception; and everything the folder
      does not look into: variables and the remaining expressions. */
  datatype Semantics = Semantics(
    arithmetic: (string, Tree) -> Option<Primitive>,
    binary: (string, Tree, Tree) -> Option<Primitive>,
    text: Tree -> Option<string>,
    spread: Primitive -> map<string, Tree>,
    variable: (string, World) -> Option<Value>,
    other: (Expr, World) -> Option<Completed>
  )

  const UNARY_ARITHMETIC: set<string> := {"-", "+", "~"}
  const BINARY_OPERATORS: set<string> :=
    {"==", "!=", "===", "!==", "<", "<=", ">", ">=", "<<", ">>", ">>>", "+", "-", "*", "/", "%", "**", "|", "&", "^"}

  function ApplyUnary(s: Semantics, operator: string, argument: Value): Option<Value> {
    if operator in UNARY_ARITHMETIC then
      match s.arithmetic(operator, argument.tree)
      case None => None
      case Some(result) => Some(Simple(result))
    else if operator == "!" then Some(Simple(Bool(!Truthy(argument))))
    else if operator == "typeof" then Some(Simple(Text(TypeOf(argument))))
    else if operator == "void" then Some(Simple(Undefined))
    else None
  }

  /** `==` goes by identity between objects and is one of the shared operators otherwise. */
  function LooselyEqual(s: Semantics, a: Value, b: Value): Option<bool> {
    if IsObject(a) && IsObject(b) then Some(a.id == b.id)
    else
      match s.binary("==", a.tree, b.tree)
      case Some(Bool(equal)) => Some(equal)
      case _ => None
  }

  function Negate(equal: Option<bool>, negated: bool): Option<Value> {
    match equal
    case None => None
    case Some(b) => Some(Simple(Bool(b != negated)))
  }

  function ApplyBinary(s: Semantics, operator: string, left: Value, right: Value): Option<Value>
    requires operator in BINARY_OPERATORS
  {
    if operator == "===" then Negate(Some(StrictlyEqual(left, right)), false)
    else if operator == "!==" then Negate(Some(StrictlyEqual(left, right)), true)
    else if operator == "==" then Negate(LooselyEqual(s, left, right), false)
    else if operator == "!=" then Negate(LooselyEqual(s, left, right), true)
    else
      match s.binary(operator, left.tree, right.tree)
      case None => None
      case Some(result) => Some(Simple(result))
  }

  /** Whether `left` decides a logical expression. */
  predicate ShortCircuits(operator: string, left: Value) {
    (operator == "&&" && !Truthy(left)) || (operator == "||" && Truthy(left)) || (operator == "??" && !Nullish(left))
  }

  /** The own enumerable fields `Object.assign` copies from an array: none for a hole. */
  function ItemFields(items: seq<Slot>): map<string, Tree> {
    if items == [] then map[]
    else
      var last := |items| - 1;
      var fields := ItemFields(items[..last]);
      if items[last].Hole? then fields else fields[RequestKey.Digits(last) := items[last].tree]
  }

  function OwnFields(s: Semantics, value: Value): map<string, Tree> {
    match value.tree
    case Plain(primitive) => s.spread(primitive)
    case ArrayTree(items) => ItemFields(items)
    case ObjectTree(fields) => fields
  }

  // ---- the folder ----

  /** A static value and the identity of the folder's next object. */
  datatype Folded = Folded(value: Value, next: nat)

  function Constant(name: string): Option<Primitive> {
    if name == "Infinity" then Some(Number(Infinite(false)))
    else if name == "NaN" then Some(Number(NaN))
    else if name == "undefined" then Some(Undefined)
    else None
  }

  function Fold(s: Semantics, e: Expr, next: nat): Option<Folded>
    decreases e
  {
    match e
    case Missing => None
    case Literal(primitive) => Some(Folded(Simple(primitive), next))
    case Identifier(name) =>
      (match Constant(name)
       case None => None
       case Some(primitive) => Some(Folded(Simple(primitive), next)))
    case Wrapped(expression) => Fold(s, expression, next)
    case Unary(operator, argument) =>
      (match Fold(s, argument, next)
       case None => None
       case Some(folded) =>
         match ApplyUnary(s, operator, folded.value)
         case None => None
         case Some(value) => Some(Folded(value, folded.next)))
    case Binary(operator, left, right) =>
      (match Fold(s, left, next)
       case None => None
       case Some(first) =>
         match Fold(s, right, first.next)
         case None => None
         case Some(second) =>
           if operator !in BINARY_OPERATORS then None
           else
             match ApplyBinary(s, operator, first.value, second.value)
             case None => None
             case Some(value) => Some(Folded(value, second.next)))
    case Logical(operator, left, right) =>
      (match Fold(s, left, next)
       case None => None
       case Some(first) => if ShortCircuits(operator, first.value) then Some(first) else Fold(s, right, first.next))
    case Conditional(test, consequent, alternate) =>
      (match Fold(s, test, next)
       case None => None
       case Some(tested) =>
         if Truthy(tested.value) then Fold(s, consequent, tested.next) else Fold(s, alternate, tested.next))
    case ArrayLiteral(elements) =>
      (match FoldElements(s, elements, next)
       case None => None
       case Some((items, after)) => Some(Folded(Value(ArrayTree(items), after), after + 1)))
    case ObjectLiteral(properties) =>
      (match FoldProperties(s, properties, map[], next)
       case None => None
       case Some((fields, after)) => Some(Folded(Value(ObjectTree(fields), after), after + 1)))
    case Sequence(expressions) => FoldLast(s, expressions, next)
    case Template(head, parts) =>
      (match FoldParts(s, parts, next)
       case None => None
       case Some((text, after)) => Some(Folded(Simple(Text(head + text)), after)))
    case Other(_) => None
  }

  /** Omitted elements become `undefined`. */
  function FoldElements(s: Semantics, elements: Elements, next: nat): Option<(seq<Slot>, nat)>
    decreases elements
  {
    match elements
    case NoElements => Some(([], next))
    case Omitted(rest) =>
      (match FoldElements(s, rest, next)
       case None => None
       case Some((items, after)) => Some(([Filled(Plain(Undefined))] + items, after)))
    case SpreadElement(_) => None
    case Element(item, rest) =>
      match Fold(s, item, next)
      case None => None
      case Some(folded) =>
        match FoldElements(s, rest, folded.next)
        case None => None
        case Some((items, after)) => Some(([Filled(folded.value.tree)] + items, after))
  }

  function FoldKey(s: Semantics, key: Key, next: nat): Option<(string, nat)>
    decreases key
  {
    match key
    case Named(name) => Some((name, next))
    case LiteralKey(primitive) =>
      (match s.text(Plain(primitive))
       case None => None
       case Some(name) => Some((name, next)))
    case Computed(expression) =>
      match Fold(s, expression, next)
      case None => None
      case Some(folded) =>
        match s.text(folded.value.tree)
        case None => None
        case Some(name) => Some((name, folded.next))
  }

  function FoldProperties(s: Semantics, properties: Properties, fields: map<string, Tree>, next: nat)
    : Option<(map<string, Tree>, nat)>
    decreases properties
  {
    match properties
    case NoProperties => Some((fields, next))
    case SpreadProperty(argument, rest) =>
      (match Fold(s, argument, next)
       case None => None
       case Some(folded) =>
         if !IsObject(folded.value) then None
         else FoldProperties(s, rest, fields + OwnFields(s, folded.value), folded.next))
    case Accessor(_) => None
    case Property(key, value, rest) =>
      match FoldKey(s, key, next)
      case None => None
      case Some((name, middle)) =>
        match Fold(s, value, middle)
        case None => None
        case Some(folded) => FoldProperties(s, rest, fields[name := folded.value.tree], folded.next)
  }

  /** Only the last expression of a sequence is folded. */
  function FoldLast(s: Semantics, expressions: Exprs, next: nat): Option<Folded>
    decreases expressions
  {
    match expressions
    case NoExprs => None
    case MoreExprs(first, NoExprs) => Fold(s, first, next)
    case MoreExprs(_, rest) => FoldLast(s, rest, next)
  }

  function FoldParts(s: Semantics, parts: Parts, next: nat): Option<(string, nat)>
    decreases parts
  {
    match parts
    case NoParts => Some(("", next))
    case Part(expression, text, rest) =>
      match Fold(s, expression, next)
      case None => None
      case Some(folded) =>
        match s.text(folded.value.tree)
        case None => None
        case Some(shown) =>
          match FoldParts(s, rest, folded.next)
          case None => None
          case Some((tail, after)) => Some((shown + text + tail, after))
  }

  // ---- the evaluator's own operators: sections 7.1.2, 7.2.13, 7.2.14, 13.5.3 and 13.5.7 of ECMA-262 ----

  /** The values that convert to false. */
  const FALSY: set<Tree> :=
    {Plain(Undefined), Plain(Null), Plain(Bool(false)), Plain(Number(NaN)), Plain(Number(NegativeZero)),
     Plain(Number(Finite(0.0))), Plain(Text(""))}

  function TypeName(tree: Tree): string {
    match tree
    case Plain(Undefined) => "undefined"
    case Plain(Null) => "object"
    case Plain(Bool(_)) => "boolean"
    case Plain(Number(_)) => "number"
    case Plain(Text(_)) => "string"
    case ArrayTree(_) => "object"
    case ObjectTree(_) => "object"
  }

  function UnaryResult(s: Semantics, operator: string, operand: Value): Option<Value> {
    if operator == "!" then Some(Value(Plain(Bool(operand.tree in FALSY)), 0))
    else if operator == "typeof" then Some(Value(Plain(Text(TypeName(operand.tree))), 0))
    else if operator == "void" then Some(Value(Plain(Undefined), 0))
    else if operator == "-" || operator == "+" || operator == "~" then
      match s.arithmetic(operator, operand.tree)
      case None => None
      case Some(result) => Some(Value(Plain(result), 0))
    else None
  }

  /** Strict equality: NaN equals nothing, the zeros equal each other, objects only themselves. */
  predicate Identical(a: Value, b: Value) {
    match (a.tree, b.tree)
    case (Plain(Number(x)), Plain(Number(y))) =>
      x != NaN && y != NaN
      && (x == y || (x in {NegativeZero, Finite(0.0)} && y in {NegativeZero, Finite(0.0)}))
    case (Plain(x), Plain(y)) => x == y
    case (Plain(_), _) => false
    case (_, Plain(_)) => false
    case _ => a.id == b.id
  }

  function BinaryResult(s: Semantics, operator: string, left: Value, right: Value): Option<Value> {
    if operator == "===" then Some(Value(Plain(Bool(Identical(left, right))), 0))
    else if operator == "!==" then Some(Value(Plain(Bool(!Identical(left, right))), 0))
    else if operator == "==" || operator == "!=" then
      if !left.tree.Plain? && !right.tree.Plain? then
        Some(Value(Plain(Bool((left.id == right.id) == (operator == "=="))), 0))
      else
        match s.binary("==", left.tree, right.tree)
        case Some(Bool(equal)) => Some(Value(Plain(Bool(equal == (operator == "=="))), 0))
        case _ => None
    else
      match s.binary(operator, left.tree, right.tree)
      case None => None
      case Some(result) => Some(Value(Plain(result), 0))
  }

  // ---- the evaluator: sections 13.2, 13.5, 13.13, 13.14 and 13.16 of ECMA-262 ----

  /** Anything else runs as the semantics say; it allocates no identity twice. */
  function Run(s: Semantics, e: Expr, world: World): Option<Completed> {
    match s.other(e, world)
    case None => None
    case Some(done) =>
      Some(Completed(done.value,
                     World(done.world.state, if done.world.next < world.next then world.next else done.world.next)))
  }

  predicate HasSpread(elements: Elements) {
    match elements
    case NoElements => false
    case Omitted(rest) => HasSpread(rest)
    case SpreadElement(_) => true
    case Element(_, rest) => HasSpread(rest)
  }

  predicate HasAccessor(properties: Properties) {
    match properties
    case NoProperties => false
    case SpreadProperty(_, rest) => HasAccessor(rest)
    case Accessor(_) => true
    case Property(_, _, rest) => HasAccessor(rest)
  }

  /** Evaluating an expression; `None` is an abrupt completion. */
  function Eval(s: Semantics, e: Expr, world: World): Option<Completed>
    decreases e
  {
    match e
    case Missing => None
    case Literal(primitive) => Some(Completed(Simple(primitive), world))
    case Identifier(name) =>
      (match s.variable(name, world)
       case None => None
       case Some(value) => Some(Completed(value, world)))
    case Wrapped(expression) => Eval(s, expression, world)
    case Unary(operator, argument) =>
      if operator !in {"-", "+", "~", "!", "typeof", "void"} then Run(s, e, world)
      else
        (match Eval(s, argument, world)
         case None => None
         case Some(done) =>
           match UnaryResult(s, operator, done.value)
           case None => None
           case Some(value) => Some(Completed(value, done.world)))
    case Binary(operator, left, right) =>
      if operator !in BINARY_OPERATORS then Run(s, e, world)
      else
        (match Eval(s, left, world)
         case None => None
         case Some(first) =>
           match Eval(s, right, first.world)
           case None => None
           case Some(second) =>
             match BinaryResult(s, operator, first.value, second.value)
             case None => None
             case Some(value) => Some(Completed(value, second.world)))
    case Logical(operator, left, right) =>
      (match Eval(s, left, world)
       case None => None
       case Some(first) =>
         if operator == "&&" then if first.value.tree in FALSY then Some(first) else Eval(s, right, first.world)
         else if operator == "||" then if first.value.tree in FALSY then Eval(s, right, first.world) else Some(first)
         else if operator == "??" then
           if first.value.tree == Plain(Undefined) || first.value.tree == Plain(Null)
           then Eval(s, right, first.world) else Some(first)
         else Eval(s, right, first.world))
    case Conditional(test, consequent, alternate) =>
      (match Eval(s, test, world)
       case None => None
       case Some(tested) =>
         if tested.value.tree in FALSY then Eval(s, alternate, tested.world)
         else Eval(s, consequent, tested.world))
    case ArrayLiteral(elements) =>
      if HasSpread(elements) then Run(s, e, world)
      else
        (match EvalElements(s, elements, world)
         case None => None
         case Some((items, after)) =>
           Some(Completed(Value(ArrayTree(items), after.next), after.(next := after.next + 1))))
    case ObjectLiteral(properties) =>
      if HasAccessor(properties) then Run(s, e, world)
      else
        (match EvalProperties(s, properties, map[], world)
         case None => None
         case Some((fields, after)) =>
           Some(Completed(Value(ObjectTree(fields), after.next), after.(next := after.next + 1))))
    case Sequence(expressions) => EvalLast(s, expressions, world)
    case Template(head, parts) =>
      (match EvalParts(s, parts, world)
       case None => None
       case Some((text, after)) => Some(Completed(Simple(Text(head + text)), after)))
    case Other(_) => Run(s, e, world)
  }

  /** Omitted elements are holes. */
  function EvalElements(s: Semantics, elements: Elements, world: World): Option<(seq<Slot>, World)>
    decreases elements
  {
    match elements
    case NoElements => Some(([], world))
    case Omitted(rest) =>
      (match EvalElements(s, rest, world)
       case None => None
       case Some((items, after)) => Some(([Hole] + items, after)))
    case SpreadElement(_) => None
    case Element(item, rest) =>
      match Eval(s, item, world)
      case None => None
      case Some(done) =>
        match EvalElements(s, rest, done.world)
        case None => None
        case Some((items, after)) => Some(([Filled(done.value.tree)] + items, after))
  }

  function EvalKey(s: Semantics, key: Key, world: World): Option<(string, World)>
    decreases key
  {
    match key
    case Named(name) => Some((name, world))
    case LiteralKey(primitive) =>
      (match s.text(Plain(primitive))
       case None => None
       case Some(name) => Some((name, world)))
    case Computed(expression) =>
      match Eval(s, expression, world)
      case None => None
      case Some(done) =>
        match s.text(done.value.tree)
        case None => None
        case Some(name) => Some((name, done.world))
  }

  function EvalProperties(s: Semantics, properties: Properties, fields: map<string, Tree>, world: World)
    : Option<(map<string, Tree>, World)>
    decreases properties
  {
    match properties
    case NoProperties => Some((fields, world))
    case SpreadProperty(argument, rest) =>
      (match Eval(s, argument, world)
       case None => None
       case Some(done) => EvalProperties(s, rest, fields + OwnFields(s, done.value), done.world))
    case Accessor(_) => None
    case Property(key, value, rest) =>
      match EvalKey(s, key, world)
      case None => None
      case Some((name, middle)) =>
        match Eval(s, value, middle)
        case None => None
        case Some(done) => EvalProperties(s, rest, fields[name := done.value.tree], done.world)
  }

  /** Every expression of a sequence is evaluated, and the last gives the value. */
  function EvalLast(s: Semantics, expressions: Exprs, world: World): Option<Completed>
    decreases expressions
  {
    match expressions
    case NoExprs => None
    case MoreExprs(first, rest) =>
      match Eval(s, first, world)
      case None => None
      case Some(done) => if rest.NoExprs? then Some(done) else EvalLast(s, rest, done.world)
  }

  function EvalParts(s: Semantics, parts: Parts, world: World): Option<(string, World)>
    decreases parts
  {
    match parts
    case NoParts => Some(("", world))
    case Part(expression, text, rest) =>
      match Eval(s, expression, world)
      case None => None
      case Some(done) =>
        match s.text(done.value.tree)
        case None => None
        case Some(shown) =>
          match EvalParts(s, rest, done.world)
          case None => None
          case Some((tail, after)) => Some((shown + text + tail, after))
  }

  // ---- identities are never handed out twice ----

  lemma {:induction false} WorldGrows(s: Semantics, e: Expr, world: World)
    ensures Eval(s, e, world).Some? ==> world.next <= Eval(s, e, world).value.world.next
    decreases e
  {
    match e
    case Wrapped(expression) => WorldGrows(s, expression, world);
    case Unary(_, argument) => WorldGrows(s, argument, world);
    case Binary(_, left, right) =>
      WorldGrows(s, left, world);
      if Eval(s, left, world).Some? { WorldGrows(s, right, Eval(s, left, world).value.world); }
    case Logical(_, left, right) =>
      WorldGrows(s, left, world);
      if Eval(s, left, world).Some? { WorldGrows(s, right, Eval(s, left, world).value.world); }
    case Conditional(test, consequent, alternate) =>
      WorldGrows(s, test, world);
      if Eval(s, test, world).Some? {
        WorldGrows(s, consequent, Eval(s, test, world).value.world);
        WorldGrows(s, alternate, Eval(s, test, world).value.world);
      }
    case ArrayLiteral(elements) => ElementsGrow(s, elements, world);
    case ObjectLiteral(properties) => PropertiesGrow(s, properties, map[], world);
    case Sequence(expressions) => LastGrows(s, expressions, world);
    case Template(_, parts) => PartsGrow(s, parts, world);
    case _ =>
  }

  lemma {:induction false} ElementsGrow(s: Semantics, elements: Elements, world: World)
    ensures EvalElements(s, elements, world).Some? ==> world.next <= EvalElements(s, elements, world).value.1.next
    decreases elements
  {
    match elements
    case Omitted(rest) => ElementsGrow(s, rest, world);
    case Element(item, rest) =>
      WorldGrows(s, item, world);
      if Eval(s, item, world).Some? { ElementsGrow(s, rest, Eval(s, item, world).value.world); }
    case _ =>
  }

  lemma {:induction false} PropertiesGrow(s: Semantics, properties: Properties, fields: map<string, Tree>, world: World)
    ensures EvalProperties(s, properties, fields, world).Some? ==>
              world.next <= EvalProperties(s, properties, fields, world).value.1.next
    decreases properties
  {
    match properties
    case SpreadProperty(argument, rest) =>
      WorldGrows(s, argument, world);
      if Eval(s, argument, world).Some? {
        var done := Eval(s, argument, world).value;
        PropertiesGrow(s, rest, fields + OwnFields(s, done.value), done.world);
      }
    case Property(key, value, rest) =>
      if key.Computed? { WorldGrows(s, key.expression, world); }
      if EvalKey(s, key, world).Some? {
        var (name, middle) := EvalKey(s, key, world).value;
        WorldGrows(s, value, middle);
        if Eval(s, value, middle).Some? {
          var done := Eval(s, value, middle).value;
          PropertiesGrow(s, rest, fields[name := done.value.tree], done.world);
        }
      }
    case _ =>
  }

  lemma {:induction false} LastGrows(s: Semantics, expressions: Exprs, world: World)
    ensures EvalLast(s, expressions, world).Some? ==> world.next <= EvalLast(s, expressions, world).value.world.next
    decreases expressions
  {
    if expressions.MoreExprs? {
      WorldGrows(s, expressions.first, world);
      if Eval(s, expressions.first, world).Some? {
        LastGrows(s, expressions.rest, Eval(s, expressions.first, world).value.world);
      }
    }
  }

  lemma {:induction false} PartsGrow(s: Semantics, parts: Parts, world: World)
    ensures EvalParts(s, parts, world).Some? ==> world.next <= EvalParts(s, parts, world).value.1.next
    decreases parts
  {
    if parts.Part? {
      WorldGrows(s, parts.expression, world);
      if Eval(s, parts.expression, world).Some? {
        PartsGrow(s, parts.rest, Eval(s, parts.expression, world).value.world);
      }
    }
  }

  // ---- soundness ----

  /** No environment of the program rebinds the three names. */
  ghost predicate Unshadowed(s: Semantics) {
    forall world ::
      && s.variable("undefined", world) == Some(Value(Plain(Undefined), 0))
      && s.variable("NaN", world) == Some(Value(Plain(Number(NaN)), 0))
      && s.variable("Infinity", world) == Some(Value(Plain(Number(Infinite(false))), 0))
  }

  /** No array literal of the expression omits an element. */
  predicate NoHoles(e: Expr)
    decreases e
  {
    match e
    case Wrapped(expression) => NoHoles(expression)
    case Unary(_, argument) => NoHoles(argument)
    case Binary(_, left, right) => NoHoles(left) && NoHoles(right)
    case Logical(_, left, right) => NoHoles(left) && NoHoles(right)
    case Conditional(test, consequent, alternate) => NoHoles(test) && NoHoles(consequent) && NoHoles(alternate)
    case ArrayLiteral(elements) => NoneOmitted(elements)
    case ObjectLiteral(properties) => PropertiesNoHoles(properties)
    case Sequence(expressions) => ExprsNoHoles(expressions)
    case Template(_, parts) => PartsNoHoles(parts)
    case _ => true
  }

  predicate NoneOmitted(elements: Elements)
    decreases elements
  {
    match elements
    case NoElements => true
    case Omitted(_) => false
    case SpreadElement(rest) => NoneOmitted(rest)
    case Element(item, rest) => NoHoles(item) && NoneOmitted(rest)
  }

  predicate PropertiesNoHoles(properties: Properties)
    decreases properties
  {
    match properties
    case NoProperties => true
    case SpreadProperty(argument, rest) => NoHoles(argument) && PropertiesNoHoles(rest)
    case Accessor(rest) => PropertiesNoHoles(rest)
    case Property(key, value, rest) =>
      (key.Computed? ==> NoHoles(key.expression)) && NoHoles(value) && PropertiesNoHoles(rest)
  }

  predicate ExprsNoHoles(expressions: Exprs)
    decreases expressions
  {
    match expressions
    case NoExprs => true
    case MoreExprs(first, rest) => NoHoles(first) && ExprsNoHoles(rest)
  }

  predicate PartsNoHoles(parts: Parts)
    decreases parts
  {
    match parts
    case NoParts => true
    case Part(expression, _, rest) => NoHoles(expression) && PartsNoHoles(rest)
  }

  /** Both sides look alike, and an object on either side was made by this very expression. */
  predicate Agrees(next: nat, folded: Folded, world: World, done: Completed) {
    && folded.value.tree == done.value.tree
    && next <= folded.next && world.next <= done.world.next
    && (IsObject(folded.value) ==>
        next <= folded.value.id < folded.next && world.next <= done.value.id < done.world.next)
  }

  /** Operators cannot tell the two sides apart: objects from different expressions are never the same. */
  lemma BinaryAgrees(s: Semantics, operator: string, left: Value, right: Value, left': Value, right': Value)
    requires operator in BINARY_OPERATORS && left.tree == left'.tree && right.tree == right'.tree
    requires IsObject(left) && IsObject(right) ==> left.id != right.id && left'.id != right'.id
    ensures ApplyBinary(s, operator, left, right) == BinaryResult(s, operator, left', right')
    ensures ApplyBinary(s, operator, left, right).Some? ==> !IsObject(ApplyBinary(s, operator, left, right).value)
  {
  }

  lemma UnaryAgrees(s: Semantics, operator: string, argument: Value, argument': Value)
    requires argument.tree == argument'.tree
    ensures ApplyUnary(s, operator, argument) == UnaryResult(s, operator, argument')
    ensures ApplyUnary(s, operator, argument).Some? ==>
              !IsObject(ApplyUnary(s, operator, argument).value)
  {
  }

  lemma UnaryIsKnown(s: Semantics, operator: string, argument: Value)
    requires ApplyUnary(s, operator, argument).Some?
    ensures operator in UNARY_ARITHMETIC || operator in {"!", "typeof", "void"}
  {
  }

  lemma TestsAgree(operator: string, value: Value, value': Value)
    requires value.tree == value'.tree
    ensures Truthy(value) <==> value'.tree !in FALSY
    ensures ShortCircuits(operator, value)
            <==> (operator == "&&" && value'.tree in FALSY) || (operator == "||" && value'.tree !in FALSY)
                 || (operator == "??" && value'.tree != Plain(Undefined) && value'.tree != Plain(Null))
  {
  }

  lemma {:induction false} FoldedHasNoSpread(s: Semantics, elements: Elements, next: nat)
    requires FoldElements(s, elements, next).Some?
    ensures !HasSpread(elements)
    decreases elements
  {
    match elements
    case NoElements =>
    case Omitted(rest) => FoldedHasNoSpread(s, rest, next);
    case Element(item, rest) => FoldedHasNoSpread(s, rest, Fold(s, item, next).value.next);
  }

  lemma {:induction false} FoldedHasNoAccessor(s: Semantics, properties: Properties, fields: map<string, Tree>,
                                               next: nat)
    requires FoldProperties(s, properties, fields, next).Some?
    ensures !HasAccessor(properties)
    decreases properties
  {
    match properties
    case NoProperties =>
    case SpreadProperty(argument, rest) =>
      var folded := Fold(s, argument, next).value;
      FoldedHasNoAccessor(s, rest, fields + OwnFields(s, folded.value), folded.next);
    case Property(key, value, rest) =>
      var (name, middle) := FoldKey(s, key, next).value;
      var folded := Fold(s, value, middle).value;
      FoldedHasNoAccessor(s, rest, fields[name := folded.value.tree], folded.next);
  }

  /** Constant folding is sound: a static value is what evaluation gives, if it completes normally. */
  lemma {:induction false} FoldIsSound(s: Semantics, e: Expr, next: nat, world: World)
    requires Unshadowed(s) && NoHoles(e) && Fold(s, e, next).Some? && Eval(s, e, world).Some?
    ensures Agrees(next, Fold(s, e, next).value, world, Eval(s, e, world).value)
    decreases e
  {
    hide ApplyUnary, ApplyBinary, UnaryResult, BinaryResult, Truthy, ShortCircuits, HasSpread, HasAccessor;
    match e
    case Identifier(_) => assert s.variable("undefined", world) == Some(Value(Plain(Undefined), 0));
    case Wrapped(expression) => FoldIsSound(s, expression, next, world);
    case Unary(operator, argument) =>
      var folded := Fold(s, argument, next).value;
      UnaryIsKnown(s, operator, folded.value);
      FoldIsSound(s, argument, next, world);
      UnaryAgrees(s, operator, folded.value, Eval(s, argument, world).value.value);
    case Binary(_, _, _) => BinaryIsSound(s, e, next, world);
    case Logical(_, _, _) => LogicalIsSound(s, e, next, world);
    case Conditional(_, _, _) => ConditionalIsSound(s, e, next, world);
    case ArrayLiteral(elements) =>
      FoldedHasNoSpread(s, elements, next);
      ElementsAreSound(s, elements, next, world);
    case ObjectLiteral(properties) =>
      FoldedHasNoAccessor(s, properties, map[], next);
      PropertiesAreSound(s, properties, map[], next, world);
    case Sequence(expressions) => LastIsSound(s, expressions, next, world);
    case Template(head, parts) => PartsAreSound(s, parts, next, world);
    case _ =>
  }

  lemma {:induction false} LogicalIsSound(s: Semantics, e: Expr, next: nat, world: World)
    requires e.Logical? && Unshadowed(s) && NoHoles(e) && Fold(s, e, next).Some? && Eval(s, e, world).Some?
    ensures Agrees(next, Fold(s, e, next).value, world, Eval(s, e, world).value)
    decreases e, 0
  {
    hide Truthy, ShortCircuits;
    FoldIsSound(s, e.left, next, world);
    var first, first' := Fold(s, e.left, next).value, Eval(s, e.left, world).value;
    TestsAgree(e.operator, first.value, first'.value);
    if !ShortCircuits(e.operator, first.value) {
      FoldIsSound(s, e.right, first.next, first'.world);
    }
  }

  lemma {:induction false} ConditionalIsSound(s: Semantics, e: Expr, next: nat, world: World)
    requires e.Conditional? && Unshadowed(s) && NoHoles(e) && Fold(s, e, next).Some? && Eval(s, e, world).Some?
    ensures Agrees(next, Fold(s, e, next).value, world, Eval(s, e, world).value)
    decreases e, 0
  {
    hide Truthy;
    FoldIsSound(s, e.test, next, world);
    var tested, tested' := Fold(s, e.test, next).value, Eval(s, e.test, world).value;
    TestsAgree("", tested.value, tested'.value);
    FoldIsSound(s, if Truthy(tested.value) then e.consequent else e.alternate, tested.next, tested'.world);
  }

  lemma {:induction false} BinaryIsSound(s: Semantics, e: Expr, next: nat, world: World)
    requires e.Binary? && Unshadowed(s) && NoHoles(e) && Fold(s, e, next).Some? && Eval(s, e, world).Some?
    ensures Agrees(next, Fold(s, e, next).value, world, Eval(s, e, world).value)
    decreases e, 0
  {
    hide ApplyBinary, BinaryResult;
    FoldIsSound(s, e.left, next, world);
    var first, first' := Fold(s, e.left, next).value, Eval(s, e.left, world).value;
    FoldIsSound(s, e.right, first.next, first'.world);
    var second, second' := Fold(s, e.right, first.next).value, Eval(s, e.right, first'.world).value;
    BinaryAgrees(s, e.operator, first.value, second.value, first'.value, second'.value);
  }

  lemma {:induction false} ElementsAreSound(s: Semantics, elements: Elements, next: nat, world: World)
    requires Unshadowed(s) && NoneOmitted(elements)
    requires FoldElements(s, elements, next).Some? && EvalElements(s, elements, world).Some?
    ensures FoldElements(s, elements, next).value.0 == EvalElements(s, elements, world).value.0
    ensures next <= FoldElements(s, elements, next).value.1
            && world.next <= EvalElements(s, elements, world).value.1.next
    decreases elements
  {
    if elements.Element? {
      FoldIsSound(s, elements.item, next, world);
      ElementsAreSound(s, elements.rest, Fold(s, elements.item, next).value.next,
                       Eval(s, elements.item, world).value.world);
    }
  }

  lemma {:induction false} PropertiesAreSound(s: Semantics, properties: Properties, fields: map<string, Tree>,
                                              next: nat, world: World)
    requires Unshadowed(s) && PropertiesNoHoles(properties)
    requires FoldProperties(s, properties, fields, next).Some? && EvalProperties(s, properties, fields, world).Some?
    ensures FoldProperties(s, properties, fields, next).value.0 == EvalProperties(s, properties, fields, world).value.0
    ensures next <= FoldProperties(s, properties, fields, next).value.1
    ensures world.next <= EvalProperties(s, properties, fields, world).value.1.next
    decreases properties
  {
    match properties
    case SpreadProperty(argument, rest) =>
      FoldIsSound(s, argument, next, world);
      var folded, done := Fold(s, argument, next).value, Eval(s, argument, world).value;
      PropertiesAreSound(s, rest, fields + OwnFields(s, folded.value), folded.next, done.world);
    case Property(key, value, rest) =>
      KeyIsSound(s, key, next, world);
      var (name, middle) := FoldKey(s, key, next).value;
      var (_, middle') := EvalKey(s, key, world).value;
      FoldIsSound(s, value, middle, middle');
      var folded, done := Fold(s, value, middle).value, Eval(s, value, middle').value;
      PropertiesAreSound(s, rest, fields[name := folded.value.tree], folded.next, done.world);
    case _ =>
  }

  lemma {:induction false} KeyIsSound(s: Semantics, key: Key, next: nat, world: World)
    requires Unshadowed(s) && (key.Computed? ==> NoHoles(key.expression))
    requires FoldKey(s, key, next).Some? && EvalKey(s, key, world).Some?
    ensures FoldKey(s, key, next).value.0 == EvalKey(s, key, world).value.0
    ensures next <= FoldKey(s, key, next).value.1 && world.next <= EvalKey(s, key, world).value.1.next
    decreases key
  {
    if key.Computed? {
      FoldIsSound(s, key.expression, next, world);
    }
  }

  lemma {:induction false} LastIsSound(s: Semantics, expressions: Exprs, next: nat, world: World)
    requires Unshadowed(s) && ExprsNoHoles(expressions)
    requires FoldLast(s, expressions, next).Some? && EvalLast(s, expressions, world).Some?
    ensures Agrees(next, FoldLast(s, expressions, next).value, world, EvalLast(s, expressions, world).value)
    decreases expressions
  {
    var first, rest := expressions.first, expressions.rest;
    if rest.NoExprs? {
      FoldIsSound(s, first, next, world);
    } else {
      WorldGrows(s, first, world);
      LastIsSound(s, rest, next, Eval(s, first, world).value.world);
    }
  }

  lemma {:induction false} PartsAreSound(s: Semantics, parts: Parts, next: nat, world: World)
    requires Unshadowed(s) && PartsNoHoles(parts)
    requires FoldParts(s, parts, next).Some? && EvalParts(s, parts, world).Some?
    ensures FoldParts(s, parts, next).value.0 == EvalParts(s, parts, world).value.0
    ensures next <= FoldParts(s, parts, next).value.1 && world.next <= EvalParts(s, parts, world).value.1.next
    decreases parts
  {
    if parts.Part? {
      FoldIsSound(s, parts.expression, next, world);
      PartsAreSound(s, parts.rest, Fold(s, parts.expression, next).value.next,
                    Eval(s, parts.expression, world).value.world);
    }
  }
}
