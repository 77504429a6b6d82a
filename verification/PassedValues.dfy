/** Which expressions have the value of one of their parts: a small evaluator of the forms that hand a
    value on, and the test of the `ReferenceTracker` of ast_utils.ts measured against it. */
module PassedValues {
  import opened Options
  import opened Ast
  import opened ValueMoves

  /** A value, as far as the short-circuit operators look at it. */
  datatype Look = Nullish | Falsy | Truthy

  datatype Value = Value(tag: nat, look: Look)

  /** An optional chain, and the forms of TypeScript that add types to a value. */
  predicate IsWrapper(node: Node) {
    node.type_.Some? && node.type_.value in {"ChainExpression", "TSAsExpression", "TSSatisfiesExpression",
                                             "TSTypeAssertion", "TSNonNullExpression", "TSInstantiationExpression"}
  }

  /** The value of an expression whose parts have the values `values`; `None` for the forms that make a
      value of their own. */
  function ValueOf(node: Node, values: Id -> Value): Option<Value> {
    if node.type_ == Some("ConditionalExpression") then
      match (Get(node, "test"), Get(node, "consequent"), Get(node, "alternate"))
      case (Ref(test), Ref(consequent), Ref(alternate)) =>
        Some(if values(test).look.Truthy? then values(consequent) else values(alternate))
      case _ => None
    else if node.type_ == Some("LogicalExpression") then
      match (Get(node, "left"), Get(node, "right"), Get(node, "operator"))
      case (Ref(left), Ref(right), Text(operator)) =>
        if operator == "&&" then Some(if values(left).look.Truthy? then values(right) else values(left))
        else if operator == "||" then Some(if values(left).look.Truthy? then values(left) else values(right))
        else if operator == "??" then Some(if values(left).look.Nullish? then values(right) else values(left))
        else None
      case _ => None
    else if node.type_ == Some("SequenceExpression") then
      match Get(node, "expressions")
      case List(items) =>
        if items != [] && items[|items| - 1].Ref? then Some(values(items[|items| - 1].id)) else None
      case _ => None
    else if IsWrapper(node) then
      match Get(node, "expression")
      case Ref(inner) => Some(values(inner))
      case _ => None
    else None
  }

  /** The parts of an expression that have values. */
  ghost predicate IsOperand(node: Node, id: Id) {
    if node.type_ == Some("ConditionalExpression") then
      Get(node, "test") == Ref(id) || Get(node, "consequent") == Ref(id) || Get(node, "alternate") == Ref(id)
    else if node.type_ == Some("LogicalExpression") then Get(node, "left") == Ref(id) || Get(node, "right") == Ref(id)
    else if node.type_ == Some("SequenceExpression") then
      Get(node, "expressions").List? && Ref(id) in Get(node, "expressions").items
    else if IsWrapper(node) then Get(node, "expression") == Ref(id)
    else true
  }

  /** The node is as the grammar makes it: all its parts are there, and no two are the same node. */
  ghost predicate WellShaped(node: Node) {
    if node.type_ == Some("ConditionalExpression") then
      && Get(node, "test").Ref? && Get(node, "consequent").Ref? && Get(node, "alternate").Ref?
      && Get(node, "test") != Get(node, "consequent") && Get(node, "test") != Get(node, "alternate")
    else if node.type_ == Some("LogicalExpression") then
      && Get(node, "left").Ref? && Get(node, "right").Ref? && Get(node, "left") != Get(node, "right")
      && Get(node, "operator") in {Text("&&"), Text("||"), Text("??")}
    else if node.type_ == Some("SequenceExpression") then
      Get(node, "expressions").List?
      && forall item :: item in Get(node, "expressions").items ==> item.Ref?
    else IsWrapper(node) ==> Get(node, "expression").Ref?
  }

  /** The expression has the value of `id` under `values`, and `id` is the only node with that value. */
  ghost predicate HasValueOf(node: Node, id: Id, values: Id -> Value) {
    ValueOf(node, values) == Some(values(id)) && forall other: Id :: other != id ==> values(other) != values(id)
  }

  /** The value of the expression can be the value of `id`. */
  ghost predicate CanHaveValueOf(node: Node, id: Id) {
    exists values :: HasValueOf(node, id, values)
  }

  function Alone(id: Id, look: Look, others: Look): Id -> Value {
    (x: Id) => if x == id then Value(1, look) else Value(0, others)
  }

  lemma ConditionalPasses(node: Node, id: Id)
    requires node.type_ == Some("ConditionalExpression") && WellShaped(node)
    ensures CanHaveValueOf(node, id) <==> Get(node, "consequent") == Ref(id) || Get(node, "alternate") == Ref(id)
  {
    hide Get;
    if Get(node, "consequent") == Ref(id) {
      assert HasValueOf(node, id, Alone(id, Truthy, Truthy));
    } else if Get(node, "alternate") == Ref(id) {
      assert HasValueOf(node, id, Alone(id, Truthy, Falsy));
    }
  }

  lemma LogicalPasses(node: Node, id: Id)
    requires node.type_ == Some("LogicalExpression") && WellShaped(node)
    ensures CanHaveValueOf(node, id) <==> Get(node, "left") == Ref(id) || Get(node, "right") == Ref(id)
  {
    hide Get;
    if Get(node, "left") == Ref(id) {
      var look := if Get(node, "operator") == Text("||") then Truthy else Falsy;
      assert HasValueOf(node, id, Alone(id, look, Truthy));
    } else if Get(node, "right") == Ref(id) {
      var others := if Get(node, "operator") == Text("&&") then Truthy else Nullish;
      assert HasValueOf(node, id, Alone(id, Truthy, others));
    }
  }

  lemma SequencePasses(node: Node, id: Id)
    requires node.type_ == Some("SequenceExpression") && WellShaped(node)
    ensures CanHaveValueOf(node, id)
            <==> Get(node, "expressions").items != []
                 && Get(node, "expressions").items[|Get(node, "expressions").items| - 1] == Ref(id)
  {
    hide Get;
    var items := Get(node, "expressions").items;
    if items != [] {
      assert items[|items| - 1] in items;
      if items[|items| - 1] == Ref(id) {
        assert HasValueOf(node, id, Alone(id, Truthy, Truthy));
      }
    }
  }

  lemma WrapperPasses(node: Node, id: Id)
    requires IsWrapper(node) && WellShaped(node)
    ensures CanHaveValueOf(node, id) <==> Get(node, "expression") == Ref(id)
  {
    hide Get;
    if Get(node, "expression") == Ref(id) {
      assert HasValueOf(node, id, Alone(id, Truthy, Truthy));
    }
  }

  /** The tracker takes a value for the value of the parent exactly when it can be that: of the parts
      that have values, those and no others.  A part that has none, like the type in `x as T`, passes
      where the tracker looks at the parent's type only. */
  lemma PassesExactly(p: Program, id: Id, parent: Id)
    requires id in p.heap && Parent(p.heap, id) == Some(parent) && WellShaped(p.heap[parent])
    ensures IsOperand(p.heap[parent], id) ==> (IsPassThrough(p, id) <==> CanHaveValueOf(p.heap[parent], id))
    ensures !IsOperand(p.heap[parent], id) ==>
              !CanHaveValueOf(p.heap[parent], id)
              && (IsPassThrough(p, id) <==> p.heap[parent].type_ == Some("LogicalExpression")
                                            || IsWrapper(p.heap[parent]))
  {
    hide Get;
    var node := p.heap[parent];
    if node.type_ == Some("ConditionalExpression") {
      ConditionalPasses(node, id);
    } else if node.type_ == Some("LogicalExpression") {
      LogicalPasses(node, id);
    } else if node.type_ == Some("SequenceExpression") {
      SequencePasses(node, id);
    } else if IsWrapper(node) {
      WrapperPasses(node, id);
    }
  }

  /** `parent` stands for `child` in the walk: either branch of a conditional, the last of a sequence,
      anything in a logical expression or a wrapper, and nothing else. */
  ghost predicate StandsFor(heap: Heap, child: Id, parent: Id) {
    && child in heap && parent in heap && Get(heap[child], "parent") == Ref(parent)
    && (var node := heap[parent];
        || (node.type_ == Some("ConditionalExpression")
            && (Get(node, "consequent") == Ref(child) || Get(node, "alternate") == Ref(child)))
        || node.type_ == Some("LogicalExpression")
        || (exists before :: node.type_ == Some("SequenceExpression")
              && Get(node, "expressions") == List(before + [Ref(child)]))
        || (node.type_.Some?
            && node.type_.value in {"ChainExpression", "TSAsExpression", "TSSatisfiesExpression", "TSTypeAssertion",
                                    "TSNonNullExpression", "TSInstantiationExpression"}))
  }

  lemma PassThroughStands(p: Program, id: Id)
    requires id in p.heap
    ensures IsPassThrough(p, id) ==>
              Parent(p.heap, id).Some? && StandsFor(p.heap, id, Parent(p.heap, id).value)
    ensures forall parent: Id :: StandsFor(p.heap, id, parent) ==> IsPassThrough(p, id)
  {
    hide Get;
    if IsPassThrough(p, id) {
      var node := p.heap[Parent(p.heap, id).value];
      if node.type_ == Some("SequenceExpression") {
        var items := ArrayField(node, "expressions");
        assert items == items[..|items| - 1] + [Ref(id)];
      }
    }
    forall parent: Id | StandsFor(p.heap, id, parent)
      ensures IsPassThrough(p, id)
    {
      assert Parent(p.heap, id) == Some(parent);
    }
  }

  /** A chain of nodes, each standing for the one before it. */
  ghost predicate Stands(heap: Heap, path: seq<Id>, start: Id, end: Id) {
    && path != [] && path[0] == start && path[|path| - 1] == end
    && forall i :: 0 <= i < |path| - 1 ==> StandsFor(heap, path[i], path[i + 1])
  }

  lemma PassedOnStands(p: Program, path: seq<Id>, start: Id, end: Id)
    requires PassesOn(p, path, start, end)
    ensures Stands(p.heap, path, start, end)
  {
    hide IsPassThrough, StandsFor;
    forall i | 0 <= i < |path| - 1
      ensures StandsFor(p.heap, path[i], path[i + 1])
    {
      PassThroughStands(p, path[i]);
      assert Parent(p.heap, path[i]) == Some(path[i + 1]);
    }
  }
}
