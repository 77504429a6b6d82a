/** The programs the `ReferenceTracker` of ast_utils.ts walks, and the moves by which a value travels
    through one: member accesses, assignments, patterns and aliases. */
module ValueMoves {
  import opened Options
  import opened Ast
  import opened Traces

  // ---- programs ----

  /** A use of a variable; `isRead` and `isWrite` are what its methods answer, if it has them. */
  datatype Reference = Reference(identifier: Option<Id>, isRead: Option<bool>, isWrite: Option<bool>)

  datatype Variable = Variable(defs: nat, references: seq<Reference>)

  type VariableId = nat

  /** A program: its nodes, the variables of its scopes, the variables of the global scope, what
      `findVariable` and `getPropertyName` answer, and how deep and how high its finitely many nodes are. */
  datatype Program = Program(
    heap: Heap,
    variables: map<VariableId, Variable>,
    globals: map<string, VariableId>,
    variableOf: Id -> Option<VariableId>,
    propertyName: Id -> Option<string>,
    depth: map<Id, nat>,
    height: map<Id, nat>
  )

  function Parent(heap: Heap, id: Id): Option<Id>
    requires id in heap
  {
    ChildNode(heap, heap[id], "parent")
  }

  /** Parents are less deep, pattern parts are less high, and variables are known. */
  ghost predicate WellFormed(p: Program) {
    && p.depth.Keys == p.heap.Keys && p.height.Keys == p.heap.Keys
    && (forall id :: id in p.heap && Parent(p.heap, id).Some? ==> p.depth[Parent(p.heap, id).value] < p.depth[id])
    && (forall id :: id in p.heap && ChildNode(p.heap, p.heap[id], "left").Some? ==>
          p.height[ChildNode(p.heap, p.heap[id], "left").value] < p.height[id])
    && (forall id :: id in p.heap && ChildNode(p.heap, p.heap[id], "value").Some? ==>
          p.height[ChildNode(p.heap, p.heap[id], "value").value] < p.height[id])
    && (forall id, field :: id in p.heap && field in ArrayField(p.heap[id], "properties") ==>
          field.Ref? && field.id in p.heap ==> p.height[field.id] < p.height[id])
    && (forall key :: key in p.globals ==> p.globals[key] in p.variables)
    && (forall id :: p.variableOf(id).Some? ==> p.variableOf(id).value in p.variables)
    && (forall v, i :: v in p.variables && 0 <= i < |p.variables[v].references| ==>
          p.variables[v].references[i].identifier.Some? ==> p.variables[v].references[i].identifier.value in p.heap)
  }

  predicate IsModifiedGlobal(p: Program, variable: Option<VariableId>)
    requires variable.Some? ==> variable.value in p.variables
  {
    || variable.None?
    || p.variables[variable.value].defs != 0
    || exists i :: 0 <= i < |p.variables[variable.value].references|
                   && p.variables[variable.value].references[i].isWrite == Some(true)
  }

  function GlobalNamed(p: Program, key: string): Option<VariableId> {
    if key in p.globals then Some(p.globals[key]) else None
  }

  predicate IsRef(field: Field, id: Id) {
    field == Ref(id)
  }

  predicate IsPassThrough(p: Program, id: Id)
    requires id in p.heap
  {
    match Parent(p.heap, id)
    case None => false
    case Some(parent) =>
      var node := p.heap[parent];
      if HasType(node, "ConditionalExpression") then
        IsRef(Get(node, "consequent"), id) || IsRef(Get(node, "alternate"), id)
      else if HasType(node, "SequenceExpression") then
        var expressions := ArrayField(node, "expressions");
        expressions != [] && IsRef(expressions[|expressions| - 1], id)
      else
        HasType(node, "LogicalExpression") || HasType(node, "ChainExpression") || HasType(node, "TSAsExpression")
        || HasType(node, "TSSatisfiesExpression") || HasType(node, "TSTypeAssertion")
        || HasType(node, "TSNonNullExpression")
        || HasType(node, "TSInstantiationExpression")
  }

  // ---- what is found ----

  /** The node fits the kind of reference. */
  predicate Fits(p: Program, node: Id, kind: Kind) {
    node in p.heap
    && match kind
       case Read => true
       case Call => HasType(p.heap[node], "CallExpression")
       case Construct => HasType(p.heap[node], "NewExpression")
  }

  /** The reference carries what the root trace map holds at its path under its kind. */
  ghost predicate Correct(p: Program, root: Trace, f: Found) {
    && At(root, f.path).Some? && Slot(At(root, f.path).value, f.kind) == Some(f.info)
    && Fits(p, f.node, f.kind)
  }

  function Depth(p: Program, id: Id): nat {
    if id in p.depth then p.depth[id] else 0
  }

  function PatternHeight(p: Program, pattern: Option<Id>): nat {
    if pattern.Some? && pattern.value in p.height then p.height[pattern.value] + 1 else 0
  }

  lemma ParentIsShallower(p: Program, id: Id)
    requires WellFormed(p) && id in p.heap
    ensures Parent(p.heap, id).Some? ==>
              Parent(p.heap, id).value in p.heap && Depth(p, Parent(p.heap, id).value) < Depth(p, id)
  {
  }

  /** The outermost expression whose value is the node's. */
  function Climb(p: Program, id: Id): (top: Id)
    requires WellFormed(p) && id in p.heap
    ensures top in p.heap && p.depth[top] <= p.depth[id]
    decreases p.depth[id]
  {
    if IsPassThrough(p, id) then Climb(p, Parent(p.heap, id).value) else id
  }

  lemma ClimbIsShallow(p: Program, id: Id)
    requires WellFormed(p) && id in p.heap
    ensures Depth(p, Climb(p, id)) <= Depth(p, id)
  {
  }

  lemma PropertyIsLower(p: Program, pattern: Id, index: nat)
    requires WellFormed(p) && pattern in p.heap && index < |ArrayField(p.heap[pattern], "properties")|
    ensures var property := ArrayField(p.heap[pattern], "properties")[index];
            property.Ref? && property.id in p.heap ==>
              PatternHeight(p, Some(property.id)) < PatternHeight(p, Some(pattern))
  {
    hide ArrayField;
    assert ArrayField(p.heap[pattern], "properties")[index] in ArrayField(p.heap[pattern], "properties");
  }

  lemma LeftIsLower(p: Program, pattern: Id)
    requires WellFormed(p) && pattern in p.heap
    ensures PatternHeight(p, ChildNode(p.heap, p.heap[pattern], "left")) < PatternHeight(p, Some(pattern))
  {
  }

  lemma ValueIsLower(p: Program, property: Id)
    requires WellFormed(p) && property in p.heap
    ensures PatternHeight(p, ChildNode(p.heap, p.heap[property], "value")) < PatternHeight(p, Some(property))
  {
  }

  lemma IsSomeGlobal(p: Program, variable: Option<VariableId>)
    requires variable.Some? ==> variable.value in p.variables
    requires !IsModifiedGlobal(p, variable)
    ensures variable.Some?
  {
  }

  lemma GlobalKnown(p: Program, key: string)
    requires WellFormed(p)
    ensures GlobalNamed(p, key).Some? ==> GlobalNamed(p, key).value in p.variables
  {
  }

  lemma IdentifierKnown(p: Program, variable: VariableId, i: nat)
    requires WellFormed(p) && variable in p.variables && i < |p.variables[variable].references|
    ensures var identifier := p.variables[variable].references[i].identifier;
            identifier.Some? ==> identifier.value in p.heap
  {
  }

  /** `key` names an unmodified global to follow. */
  predicate Follows(p: Program, key: string)
    requires WellFormed(p)
  {
    GlobalKnown(p, key);
    !IsModifiedGlobal(p, GlobalNamed(p, key))
  }

  /** `path` leads from `start` to `end`, each node passing its value on to the next, its parent. */
  ghost predicate PassesOn(p: Program, path: seq<Id>, start: Id, end: Id) {
    && path != [] && path[0] == start && path[|path| - 1] == end
    && forall i :: 0 <= i < |path| - 1 ==>
         path[i] in p.heap && IsPassThrough(p, path[i]) && Parent(p.heap, path[i]) == Some(path[i + 1])
  }

  lemma RestPassesOn(p: Program, path: seq<Id>, start: Id, end: Id)
    requires PassesOn(p, path, start, end) && |path| > 1
    ensures PassesOn(p, path[1..], path[1], end)
  {
    hide IsPassThrough;
    var rest := path[1..];
    forall i | 0 <= i < |rest| - 1
      ensures rest[i] in p.heap && IsPassThrough(p, rest[i]) && Parent(p.heap, rest[i]) == Some(rest[i + 1])
    {
      var k := i + 1;
      assert rest[i] == path[k] && rest[i + 1] == path[k + 1];
    }
  }

  /** There is only one place where passing on can end. */
  lemma {:induction false} PassedOnByClimb(p: Program, path: seq<Id>, start: Id, end: Id)
    requires WellFormed(p) && start in p.heap && PassesOn(p, path, start, end)
    requires end in p.heap && !IsPassThrough(p, end)
    ensures Climb(p, start) == end
    decreases |path|
  {
    hide WellFormed, IsPassThrough;
    if |path| > 1 {
      assert Parent(p.heap, path[0]) == Some(path[0 + 1]);
      ParentIsShallower(p, path[0]);
      RestPassesOn(p, path, start, end);
      PassedOnByClimb(p, path[1..], path[1], end);
    }
  }

  // ---- how a value travels ----

  /** Where a value is: at an expression, at a pattern it is stored into, or in a variable. */
  datatype Place = AtNode(node: Id) | AtPattern(pattern: Option<Id>) | AtVariable(variable: VariableId)

  ghost predicate Known(p: Program, place: Place) {
    match place
    case AtNode(id) => id in p.heap
    case AtPattern(pattern) => pattern.Some? ==> pattern.value in p.heap
    case AtVariable(variable) => variable in p.variables
  }

  /** One move of a value: it is selected from, invoked, passed on by an assignment expression, stored
      into a pattern, stored into the pattern under a default, taken apart by property `index`, stored
      into a variable, or read back by reference `index` of a variable. */
  datatype Move = Select | Invoke | Assign | Store | Default | Destructure(index: nat) | Enter | Use(index: nat)

  /** Where a move leads in the program, whatever names are looked for: `key` is the property a
      selection or a pattern property takes, and `at` the node that takes it. */
  datatype Hop = Hop(place: Place, key: Option<string>, at: Id)

  /** Taking property `key`; a property without a known name leads nowhere. */
  function TakeKey(key: Option<string>, at: Id, place: Place): Option<Hop> {
    if key.None? || key.value == "" then None else Some(Hop(place, key, at))
  }

  /** What a move makes of the value of expression `top` under its parent. */
  function HopUp(p: Program, top: Id, parent: Id, move: Move): (hop: Option<Hop>)
    requires parent in p.heap
    ensures hop.Some? ==> Known(p, hop.value.place)
  {
    var record := p.heap[parent];
    match move
    case Select =>
      if HasType(record, "MemberExpression") && IsRef(Get(record, "object"), top)
      then TakeKey(p.propertyName(parent), parent, AtNode(parent)) else None
    case Assign =>
      if HasType(record, "AssignmentExpression") && IsRef(Get(record, "right"), top)
      then Some(Hop(AtNode(parent), None, parent)) else None
    case Store =>
      if (HasType(record, "AssignmentExpression") || HasType(record, "AssignmentPattern"))
         && IsRef(Get(record, "right"), top)
      then Some(Hop(AtPattern(ChildNode(p.heap, record, "left")), None, parent))
      else if HasType(record, "VariableDeclarator") && IsRef(Get(record, "init"), top)
      then Some(Hop(AtPattern(ChildNode(p.heap, record, "id")), None, parent))
      else None
    case _ => None
  }

  function HopApart(p: Program, property: Id): (hop: Option<Hop>)
    requires property in p.heap
    ensures hop.Some? ==> Known(p, hop.value.place)
  {
    TakeKey(p.propertyName(property), property, AtPattern(ChildNode(p.heap, p.heap[property], "value")))
  }

  function HopInto(p: Program, pattern: Id, move: Move): (hop: Option<Hop>)
    requires WellFormed(p) && pattern in p.heap
    ensures hop.Some? ==> Known(p, hop.value.place)
  {
    var record := p.heap[pattern];
    match move
    case Enter =>
      if HasType(record, "Identifier") && p.variableOf(pattern).Some?
      then Some(Hop(AtVariable(p.variableOf(pattern).value), None, pattern)) else None
    case Default =>
      if HasType(record, "AssignmentPattern")
      then Some(Hop(AtPattern(ChildNode(p.heap, record, "left")), None, pattern)) else None
    case Destructure(index) =>
      var properties := ArrayField(record, "properties");
      if HasType(record, "ObjectPattern") && index < |properties|
         && properties[index].Ref? && properties[index].id in p.heap
      then HopApart(p, properties[index].id) else None
    case _ => None
  }

  predicate IsUse(reference: Reference) {
    reference.isRead != Some(false) && reference.identifier.Some?
  }

  /** A move in the program. */
  function Step(p: Program, place: Place, move: Move): (hop: Option<Hop>)
    requires WellFormed(p) && Known(p, place)
    ensures hop.Some? ==> Known(p, hop.value.place)
  {
    match place
    case AtNode(id) =>
      var top := Climb(p, id);
      var parent := Parent(p.heap, top);
      if parent.Some? then HopUp(p, top, parent.value, move) else None
    case AtPattern(pattern) => if pattern.Some? then HopInto(p, pattern.value, move) else None
    case AtVariable(variable) =>
      var references := p.variables[variable].references;
      if move.Use? && move.index < |references| && IsUse(references[move.index])
      then
        var identifier := references[move.index].identifier.value;
        Some(Hop(AtNode(identifier), None, identifier))
      else None
  }

  // ---- how the walk follows it ----

  /** A place, the path of names that led there, and the trace map that is left to follow. */
  datatype Spot = Spot(place: Place, path: seq<string>, trace: Trace)

  /** The spot after a move, and the reference reported on the way. */
  datatype Arrival = Arrival(spot: Spot, report: Option<Found>)

  /** A move is followed if the trace map holds the property it takes. */
  function Arrive(spot: Spot, hop: Hop): Option<Arrival> {
    match hop.key
    case None => Some(Arrival(spot.(place := hop.place), None))
    case Some(key) =>
      match TraceElement(spot.trace, key)
      case None => None
      case Some(next) =>
        var path := spot.path + [key];
        Some(Arrival(Spot(hop.place, path, next),
                     if next.read.Some? then Some(Found(hop.at, path, Read, next.read.value)) else None))
  }

  function Invoked(p: Program, parent: Id): Option<Kind>
    requires parent in p.heap
  {
    if HasType(p.heap[parent], "CallExpression") then Some(Call)
    else if HasType(p.heap[parent], "NewExpression") then Some(Construct)
    else None
  }

  /** A call or construction of the value is reported, and leads nowhere. */
  function Invocation(p: Program, spot: Spot, top: Id, parent: Id): Option<Arrival>
    requires parent in p.heap
  {
    var kind := Invoked(p, parent);
    if kind.Some? && IsRef(Get(p.heap[parent], "callee"), top) && Slot(spot.trace, kind.value).Some?
    then Some(Arrival(spot.(place := AtPattern(None)),
                      Some(Found(parent, spot.path, kind.value, Slot(spot.trace, kind.value).value))))
    else None
  }

  function Advance(p: Program, spot: Spot, move: Move): (arrival: Option<Arrival>)
    requires WellFormed(p) && Known(p, spot.place)
    ensures arrival.Some? ==> Known(p, arrival.value.spot.place)
  {
    if move.Invoke? then
      match spot.place
      case AtNode(id) =>
        var top := Climb(p, id);
        var parent := Parent(p.heap, top);
        if parent.Some? then Invocation(p, spot, top, parent.value) else None
      case _ => None
    else
      match Step(p, spot.place, move)
      case None => None
      case Some(hop) => Arrive(spot, hop)
  }

  // ---- which moves there are ----

  /** Every type of parent offers its own moves. */
  lemma MovesUp(p: Program, spot: Spot, top: Id, parent: Id)
    requires WellFormed(p) && Known(p, spot.place) && spot.place.AtNode?
    requires top == Climb(p, spot.place.node) && Parent(p.heap, top) == Some(parent)
    ensures var record := p.heap[parent];
            forall move :: Advance(p, spot, move).Some? ==>
              match move
              case Select => HasType(record, "MemberExpression") && IsRef(Get(record, "object"), top)
              case Invoke => HasType(record, "CallExpression") || HasType(record, "NewExpression")
              case Assign => HasType(record, "AssignmentExpression") && IsRef(Get(record, "right"), top)
              case Store =>
                ((HasType(record, "AssignmentExpression") || HasType(record, "AssignmentPattern"))
                 && IsRef(Get(record, "right"), top))
                || (HasType(record, "VariableDeclarator") && IsRef(Get(record, "init"), top))
              case _ => false
    ensures var record := p.heap[parent];
            IsRef(Get(record, "right"), top)
            && (HasType(record, "AssignmentExpression") || HasType(record, "AssignmentPattern")) ==>
              Advance(p, spot, Store)
              == Some(Arrival(spot.(place := AtPattern(ChildNode(p.heap, record, "left"))), None))
    ensures var record := p.heap[parent];
            IsRef(Get(record, "right"), top) && HasType(record, "AssignmentExpression") ==>
              Advance(p, spot, Assign) == Some(Arrival(spot.(place := AtNode(parent)), None))
    ensures var record := p.heap[parent];
            IsRef(Get(record, "init"), top) && HasType(record, "VariableDeclarator") ==>
              Advance(p, spot, Store) == Some(Arrival(spot.(place := AtPattern(ChildNode(p.heap, record, "id"))), None))
  {
    hide Get, TakeKey, WellFormed, Climb, TraceElement;
  }

  lemma NoParentNoMoves(p: Program, spot: Spot)
    requires WellFormed(p) && Known(p, spot.place) && spot.place.AtNode?
    requires Parent(p.heap, Climb(p, spot.place.node)).None?
    ensures forall move :: Advance(p, spot, move).None?
  {
    hide WellFormed, Climb;
  }

  lemma NoPatternNoMoves(p: Program, spot: Spot)
    requires WellFormed(p) && spot.place == AtPattern(None)
    ensures forall move :: Advance(p, spot, move).None?
  {
    hide WellFormed;
  }

  /** What there is at a member expression. */
  lemma SelectMoves(p: Program, spot: Spot, top: Id, parent: Id)
    requires WellFormed(p) && Known(p, spot.place) && spot.place.AtNode?
    requires top == Climb(p, spot.place.node) && Parent(p.heap, top) == Some(parent)
    requires HasType(p.heap[parent], "MemberExpression") && IsRef(Get(p.heap[parent], "object"), top)
    ensures Advance(p, spot, Select)
            == match TakeKey(p.propertyName(parent), parent, AtNode(parent))
               case None => None
               case Some(hop) => Arrive(spot, hop)
  {
    hide Get, TakeKey, Arrive, WellFormed, Climb;
  }

  /** What there is at a property of an object pattern. */
  lemma DestructureMoves(p: Program, spot: Spot, pattern: Id, index: nat, property: Id)
    requires WellFormed(p) && spot.place == AtPattern(Some(pattern)) && pattern in p.heap && property in p.heap
    requires HasType(p.heap[pattern], "ObjectPattern") && index < |ArrayField(p.heap[pattern], "properties")|
    requires ArrayField(p.heap[pattern], "properties")[index] == Ref(property)
    ensures Advance(p, spot, Destructure(index))
            == match TakeKey(p.propertyName(property), property,
                             AtPattern(ChildNode(p.heap, p.heap[property], "value")))
               case None => None
               case Some(hop) => Arrive(spot, hop)
  {
    hide ArrayField, TakeKey, Arrive, WellFormed;
  }

  lemma KeylessArrives(spot: Spot)
    ensures forall place, at :: Arrive(spot, Hop(place, None, at)) == Some(Arrival(spot.(place := place), None))
  {
  }

  lemma MovesInto(p: Program, spot: Spot, pattern: Id)
    requires WellFormed(p) && spot.place == AtPattern(Some(pattern)) && pattern in p.heap
    ensures var record := p.heap[pattern];
            forall move :: Advance(p, spot, move).Some? ==>
              match move
              case Enter => HasType(record, "Identifier") && p.variableOf(pattern).Some?
              case Default => HasType(record, "AssignmentPattern")
              case Destructure(index) => HasType(record, "ObjectPattern") && index < |ArrayField(record, "properties")|
              case _ => false
    ensures var record := p.heap[pattern];
            HasType(record, "Identifier") && p.variableOf(pattern).Some? ==>
              Advance(p, spot, Enter) == Some(Arrival(spot.(place := AtVariable(p.variableOf(pattern).value)), None))
              && p.variableOf(pattern).value in p.variables
    ensures var record := p.heap[pattern];
            HasType(record, "AssignmentPattern") ==>
              Advance(p, spot, Default)
              == Some(Arrival(spot.(place := AtPattern(ChildNode(p.heap, record, "left"))), None))
    ensures var record := p.heap[pattern];
            HasType(record, "ObjectPattern") ==>
              forall i: nat :: i < |ArrayField(record, "properties")|
                && !(ArrayField(record, "properties")[i].Ref? && ArrayField(record, "properties")[i].id in p.heap)
                ==> Advance(p, spot, Destructure(i)).None?
  {
    hide ArrayField, HopApart, Arrive;
    KeylessArrives(spot);
  }

  lemma UseMoves(p: Program, spot: Spot, variable: VariableId, i: nat)
    requires WellFormed(p) && spot.place == AtVariable(variable) && variable in p.variables
    requires i < |p.variables[variable].references| && IsUse(p.variables[variable].references[i])
    ensures Advance(p, spot, Use(i))
            == Some(Arrival(spot.(place := AtNode(p.variables[variable].references[i].identifier.value)), None))
  {
  }

  /** From a variable only its references lead on. */
  lemma UsesAreMoves(p: Program, spot: Spot)
    requires WellFormed(p) && spot.place.AtVariable? && Known(p, spot.place)
    ensures forall move :: Advance(p, spot, move).Some? ==>
              move.Use? && move.index < |p.variables[spot.place.variable].references|
              && IsUse(p.variables[spot.place.variable].references[move.index])
  {
    hide WellFormed, IsUse;
  }

  /** The variables entered so far, once a value is inside the place. */
  function Inside(entered: set<VariableId>, place: Place): set<VariableId> {
    if place.AtVariable? then entered + {place.variable} else entered
  }

  /** `moves` carry the value of `spot` to the report `f`, through no variable of `entered` and
      through no variable twice. */
  ghost predicate Carries(p: Program, entered: set<VariableId>, spot: Spot, moves: seq<Move>, f: Found)
    requires WellFormed(p) && Known(p, spot.place)
    decreases |moves|
  {
    && moves != [] && !(spot.place.AtVariable? && spot.place.variable in entered)
    && Advance(p, spot, moves[0]).Some?
    && var arrival := Advance(p, spot, moves[0]).value;
       if |moves| == 1 then arrival.report == Some(f)
       else Carries(p, Inside(entered, spot.place), arrival.spot, moves[1..], f)
  }

  /** The walk from `spot` has `f` to report. */
  ghost predicate Reports(p: Program, entered: set<VariableId>, spot: Spot, f: Found)
    requires WellFormed(p) && Known(p, spot.place)
  {
    exists moves :: Carries(p, entered, spot, moves, f)
  }

  /** It reports `f` on or after the move. */
  ghost predicate Via(p: Program, entered: set<VariableId>, spot: Spot, move: Move, f: Found)
    requires WellFormed(p) && Known(p, spot.place)
  {
    && !(spot.place.AtVariable? && spot.place.variable in entered)
    && Advance(p, spot, move).Some?
    && var arrival := Advance(p, spot, move).value;
       arrival.report == Some(f) || Reports(p, Inside(entered, spot.place), arrival.spot, f)
  }

  lemma ReportsVia(p: Program, entered: set<VariableId>, spot: Spot, f: Found)
    requires WellFormed(p) && Known(p, spot.place)
    ensures Reports(p, entered, spot, f) <==> exists move :: Via(p, entered, spot, move, f)
  {
    hide WellFormed, Known, Advance;
    if Reports(p, entered, spot, f) {
      var moves :| Carries(p, entered, spot, moves, f);
      var arrival := Advance(p, spot, moves[0]).value;
      if |moves| > 1 {
        assert Carries(p, Inside(entered, spot.place), arrival.spot, moves[1..], f);
      }
      assert Via(p, entered, spot, moves[0], f);
    }
    if move :| Via(p, entered, spot, move, f) {
      var arrival := Advance(p, spot, move).value;
      if arrival.report == Some(f) {
        assert Carries(p, entered, spot, [move], f);
      } else {
        var moves :| Carries(p, Inside(entered, spot.place), arrival.spot, moves, f);
        assert ([move] + moves)[1..] == moves;
        assert Carries(p, entered, spot, [move] + moves, f);
      }
    }
  }

  /** The references found are exactly those the walk from `spot` has to report. */
  ghost predicate Exactly(p: Program, entered: set<VariableId>, spot: Spot, found: seq<Found>)
    requires WellFormed(p) && Known(p, spot.place)
  {
    forall f :: f in found <==> Reports(p, entered, spot, f)
  }

  ghost predicate ExactlyVia(p: Program, entered: set<VariableId>, spot: Spot, move: Move, found: seq<Found>)
    requires WellFormed(p) && Known(p, spot.place)
  {
    forall f :: f in found <==> Via(p, entered, spot, move, f)
  }

  lemma NoMoves(p: Program, entered: set<VariableId>, spot: Spot)
    requires WellFormed(p) && Known(p, spot.place)
    requires (spot.place.AtVariable? && spot.place.variable in entered) || forall move :: Advance(p, spot, move).None?
    ensures Exactly(p, entered, spot, [])
  {
    hide WellFormed, Known, Advance;
    forall f
      ensures !Reports(p, entered, spot, f)
    {
      ReportsVia(p, entered, spot, f);
    }
  }

  lemma OneMove(p: Program, entered: set<VariableId>, spot: Spot, move: Move, found: seq<Found>)
    requires WellFormed(p) && Known(p, spot.place)
    requires forall other :: other != move ==> Advance(p, spot, other).None?
    requires ExactlyVia(p, entered, spot, move, found)
    ensures Exactly(p, entered, spot, found)
  {
    hide WellFormed, Known, Advance;
    forall f
      ensures f in found <==> Reports(p, entered, spot, f)
    {
      ReportsVia(p, entered, spot, f);
    }
  }

  lemma TwoMoves(p: Program, entered: set<VariableId>, spot: Spot, a: Move, b: Move, foundA: seq<Found>,
                 foundB: seq<Found>)
    requires WellFormed(p) && Known(p, spot.place)
    requires forall other :: other != a && other != b ==> Advance(p, spot, other).None?
    requires ExactlyVia(p, entered, spot, a, foundA) && ExactlyVia(p, entered, spot, b, foundB)
    ensures Exactly(p, entered, spot, foundA + foundB)
  {
    hide WellFormed, Known, Advance;
    forall f
      ensures f in foundA + foundB <==> Reports(p, entered, spot, f)
    {
      ReportsVia(p, entered, spot, f);
    }
  }

  /** What a move finds: its own report and everything from where it arrives. */
  lemma MoveFinds(p: Program, entered: set<VariableId>, spot: Spot, move: Move, below: seq<Found>, found: seq<Found>)
    requires WellFormed(p) && Known(p, spot.place) && !(spot.place.AtVariable? && spot.place.variable in entered)
    requires Advance(p, spot, move).Some?
    requires Exactly(p, Inside(entered, spot.place), Advance(p, spot, move).value.spot, below)
    requires var report := Advance(p, spot, move).value.report;
             found == (if report.Some? then [report.value] else []) + below
    ensures ExactlyVia(p, entered, spot, move, found)
  {
    hide WellFormed, Known, Advance, Reports;
  }

  lemma MoveFindsNothing(p: Program, entered: set<VariableId>, spot: Spot, move: Move)
    requires WellFormed(p) && Known(p, spot.place) && Advance(p, spot, move).None?
    ensures ExactlyVia(p, entered, spot, move, [])
  {
    hide WellFormed, Known, Advance, Reports;
  }

  lemma HopIsKnown(p: Program, place: Place, move: Move)
    requires WellFormed(p) && Known(p, place) && Step(p, place, move).Some?
    ensures Step(p, place, move).value.at in p.heap
  {
    hide WellFormed, Get, Climb, ArrayField, Parent;
    match place
    case AtNode(id) => ParentIsShallower(p, Climb(p, id));
    case AtPattern(_) =>
    case AtVariable(variable) => IdentifierKnown(p, variable, move.index);
  }

  lemma AdvanceIsCorrect(p: Program, root: Trace, spot: Spot, move: Move)
    requires WellFormed(p) && Known(p, spot.place) && At(root, spot.path) == Some(spot.trace)
    requires Advance(p, spot, move).Some?
    ensures var arrival := Advance(p, spot, move).value;
            && At(root, arrival.spot.path) == Some(arrival.spot.trace)
            && (arrival.report.Some? ==> Correct(p, root, arrival.report.value))
  {
    hide WellFormed, At, TraceElement, Get, Climb, Step;
    if !move.Invoke? {
      var hop := Step(p, spot.place, move).value;
      HopIsKnown(p, spot.place, move);
      if hop.key.Some? {
        AtKey(root, spot.path, spot.trace, hop.key.value);
      }
    }
  }

  /** Whatever the walk reports carries the info of the trace map at its path, if the walk started at
      a spot of that map. */
  lemma {:induction false} CarriesCorrectly(p: Program, root: Trace, entered: set<VariableId>, spot: Spot,
                                            moves: seq<Move>, f: Found)
    requires WellFormed(p) && Known(p, spot.place) && At(root, spot.path) == Some(spot.trace)
    requires Carries(p, entered, spot, moves, f)
    ensures Correct(p, root, f)
    decreases |moves|
  {
    hide WellFormed, At, Correct;
    AdvanceIsCorrect(p, root, spot, moves[0]);
    if |moves| > 1 {
      CarriesCorrectly(p, root, Inside(entered, spot.place), Advance(p, spot, moves[0]).value.spot, moves[1..], f);
    }
  }

  /** What there is to find at a call or construction. */
  lemma InvocationFinds(p: Program, entered: set<VariableId>, spot: Spot, top: Id, parent: Id, kind: Kind,
                        found: seq<Found>)
    requires WellFormed(p) && spot.place.AtNode? && Known(p, spot.place)
    requires top == Climb(p, spot.place.node) && Parent(p.heap, top) == Some(parent)
    requires Invoked(p, parent) == Some(kind)
    requires found == if IsRef(Get(p.heap[parent], "callee"), top) && Slot(spot.trace, kind).Some?
                      then [Found(parent, spot.path, kind, Slot(spot.trace, kind).value)] else []
    ensures ExactlyVia(p, entered, spot, Invoke, found)
  {
    hide WellFormed, Get, Climb;
    if found == [] {
      MoveFindsNothing(p, entered, spot, Invoke);
    } else {
      var nowhere := spot.(place := AtPattern(None));
      NoPatternNoMoves(p, nowhere);
      NoMoves(p, entered, nowhere);
      MoveFinds(p, entered, spot, Invoke, [], found);
    }
  }
}
