/** What the side-effect search goes through and what it looks for, said in the fields of the nodes. */
module SideEffectLaws {
  import opened Options
  import opened Ast
  import opened Paths
  import opened SideEffects

  /** The node has `value` under `key`, and no other field of that name. */
  ghost predicate Has(node: Node, key: string, value: Field) {
    exists i :: 0 <= i < |node.fields| && node.fields[i] == (key, value)
      && forall k :: 0 <= k < i ==> node.fields[k].0 != key
  }

  lemma {:induction false} LookupIsField(fields: seq<(string, Field)>, key: string)
    ensures (exists i :: 0 <= i < |fields| && fields[i].0 == key) ==>
              exists i :: 0 <= i < |fields| && fields[i] == (key, Lookup(fields, key))
                && forall k :: 0 <= k < i ==> fields[k].0 != key
    ensures (forall i :: 0 <= i < |fields| ==> fields[i].0 != key) ==> Lookup(fields, key) == Opaque
    decreases |fields|
  {
    if fields != [] {
      if fields[0].0 == key {
        assert fields[0] == (key, Lookup(fields, key));
      } else {
        LookupIsField(fields[1..], key);
        if i :| 0 <= i < |fields| && fields[i].0 == key {
          assert fields[1..][i - 1].0 == key;
          var k :| 0 <= k < |fields[1..]| && fields[1..][k] == (key, Lookup(fields[1..], key))
            && forall j :: 0 <= j < k ==> fields[1..][j].0 != key;
          assert fields[k + 1] == (key, Lookup(fields, key));
          forall j | 0 <= j < k + 1
            ensures fields[j].0 != key
          {
            if j > 0 {
              assert fields[j] == fields[1..][j - 1];
            }
          }
        }
        if forall i :: 0 <= i < |fields| ==> fields[i].0 != key {
          forall i | 0 <= i < |fields[1..]|
            ensures fields[1..][i].0 != key
          {
            assert fields[1..][i] == fields[i + 1];
          }
        }
      }
    }
  }

  lemma GetIs(node: Node, key: string, value: Field)
    requires value != Opaque
    ensures Get(node, key) == value <==> Has(node, key, value)
  {
    LookupIsField(node.fields, key);
    if Has(node, key, value) {
      var i :| 0 <= i < |node.fields| && node.fields[i] == (key, value)
        && forall k :: 0 <= k < i ==> node.fields[k].0 != key;
      assert node.fields[i].0 == key;
      var j :| 0 <= j < |node.fields| && node.fields[j] == (key, Get(node, key))
        && forall k :: 0 <= k < j ==> node.fields[k].0 != key;
      assert i == j;
    }
    if Get(node, key) == value {
      if forall i :: 0 <= i < |node.fields| ==> node.fields[i].0 != key {
        assert false;
      }
      assert Has(node, key, value);
    }
  }

  /** `key` leads to children: one of those configured for the type of the node or, if none are, one of
      its own fields but five. */
  ghost predicate LeadsDown(node: Node, visitorKeys: VisitorKeys, key: string) {
    if node.type_.Some? && node.type_.value != "" && visitorKeys.Some? && node.type_.value in visitorKeys.value
    then key in visitorKeys.value[node.type_.value]
    else
      && (exists i :: 0 <= i < |node.fields| && node.fields[i].0 == key)
      && key != "comments" && key != "loc" && key != "parent" && key != "range" && key != "tokens"
  }

  /** `child` is a node in a field, or in the array of a field, that leads down from `id`; nothing leads
      down from arrow functions and function expressions. */
  ghost predicate ChildOf(heap: Heap, visitorKeys: VisitorKeys, id: Id, child: Id) {
    && id in heap && child in heap && heap[child].type_.Some?
    && heap[id].type_ != Some("ArrowFunctionExpression") && heap[id].type_ != Some("FunctionExpression")
    && exists key ::
         LeadsDown(heap[id], visitorKeys, key)
         && (Has(heap[id], key, Ref(child))
             || exists items :: Has(heap[id], key, List(items)) && Ref(child) in items)
  }

  lemma {:induction false} SkipsFive(keys: seq<string>, key: string)
    ensures key in WithoutSkipped(keys)
            <==> key in keys && key != "comments" && key != "loc" && key != "parent" && key != "range"
                 && key != "tokens"
  {
    if keys != [] {
      SkipsFive(keys[1..], key);
      assert keys == [keys[0]] + keys[1..];
    }
  }

  lemma KeysLeadDown(node: Node, visitorKeys: VisitorKeys, key: string)
    ensures key in AstChildKeys(node, visitorKeys) <==> LeadsDown(node, visitorKeys, key)
  {
    SkipsFive(Keys(node.fields), key);
    if key in Keys(node.fields) {
      var i :| 0 <= i < |Keys(node.fields)| && Keys(node.fields)[i] == key;
      assert node.fields[i].0 == key;
    }
    if i :| 0 <= i < |node.fields| && node.fields[i].0 == key {
      assert Keys(node.fields)[i] == key;
    }
  }

  lemma FieldHolds(heap: Heap, node: Node, key: string, child: Id)
    ensures child in NodesOf(heap, Get(node, key))
            <==> child in heap && heap[child].type_.Some?
                 && (Has(node, key, Ref(child)) || exists items :: Has(node, key, List(items)) && Ref(child) in items)
  {
    hide Get, Has;
    var value := Get(node, key);
    GetIs(node, key, Ref(child));
    if value.List? {
      GetIs(node, key, value);
      assert child in NodesIn(heap, value.items)
          <==> child in heap && heap[child].type_.Some? && Ref(child) in value.items;
    }
    forall items
      ensures Has(node, key, List(items)) <==> value == List(items)
    {
      GetIs(node, key, List(items));
    }
  }

  /** The search goes down to exactly these. */
  lemma ChildrenExactly(heap: Heap, visitorKeys: VisitorKeys, id: Id, child: Id)
    ensures child in Children(heap, visitorKeys)(id) <==> ChildOf(heap, visitorKeys, id, child)
  {
    hide AstChildKeys, NodesOf, Has, LeadsDown;
    if id in heap && !IsFunctionNode(heap[id]) {
      forall key
        ensures key in AstChildKeys(heap[id], visitorKeys) <==> LeadsDown(heap[id], visitorKeys, key)
        ensures child in NodesOf(heap, Get(heap[id], key))
                <==> child in heap && heap[child].type_.Some?
                     && (Has(heap[id], key, Ref(child))
                         || exists items :: Has(heap[id], key, List(items)) && Ref(child) in items)
      {
        KeysLeadDown(heap[id], visitorKeys, key);
        FieldHolds(heap, heap[id], key, child);
      }
    }
  }

  // ---- the effects ----

  /** The operand under `key` is a literal. */
  ghost predicate LiteralOperand(heap: Heap, node: Node, key: string) {
    exists operand: Id :: Has(node, key, Ref(operand)) && operand in heap && heap[operand].type_ == Some("Literal")
  }

  /** An operator that converts its operands, or a computed name that is converted, with an operand whose
      conversion can run code of the program. */
  ghost predicate Converts(heap: Heap, node: Node) {
    || (node.type_ == Some("BinaryExpression")
        && (exists operator ::
              && Has(node, "operator", Text(operator))
              && operator in {"==", "!=", "<", "<=", ">", ">=", "<<", ">>", ">>>", "+", "-", "*", "/", "%", "|", "^",
                              "&", "in"})
        && (!LiteralOperand(heap, node, "left") || !LiteralOperand(heap, node, "right")))
    || (node.type_ == Some("MemberExpression") && Has(node, "computed", Flag(true))
        && !LiteralOperand(heap, node, "property"))
    || ((node.type_ == Some("MethodDefinition") || node.type_ == Some("Property")
         || node.type_ == Some("PropertyDefinition")) && Has(node, "computed", Flag(true))
        && !LiteralOperand(heap, node, "key"))
    || (node.type_ == Some("UnaryExpression")
        && (exists operator :: Has(node, "operator", Text(operator)) && operator in {"-", "+", "!", "~"})
        && !LiteralOperand(heap, node, "argument"))
  }

  /** What counts as a side effect. */
  ghost predicate Acts(heap: Heap, options: SearchOptions, id: Id) {
    && id in heap && heap[id].type_.Some?
    && var node := heap[id];
       || node.type_.value in {"AssignmentExpression", "AwaitExpression", "CallExpression", "ImportExpression",
                               "NewExpression", "UpdateExpression", "YieldExpression"}
       || (node.type_.value == "UnaryExpression" && Has(node, "operator", Text("delete")))
       || (options.considerGetters && node.type_.value == "MemberExpression")
       || (options.considerImplicitTypeConversion && Converts(heap, node))
  }

  lemma OperandIs(heap: Heap, node: Node, key: string)
    ensures ChildType(heap, node, key) == Some("Literal") <==> LiteralOperand(heap, node, key)
  {
    hide Get, Has;
    forall operand: Id
      ensures Get(node, key) == Ref(operand) <==> Has(node, key, Ref(operand))
    {
      GetIs(node, key, Ref(operand));
    }
    if ChildType(heap, node, key) == Some("Literal") {
      assert Has(node, key, Ref(Get(node, key).id));
    }
  }

  lemma OperatorIs(node: Node, operators: set<string>)
    ensures HasOperator(node, operators)
            <==> exists operator :: Has(node, "operator", Text(operator)) && operator in operators
  {
    hide Get, Has;
    forall operator
      ensures Get(node, "operator") == Text(operator) <==> Has(node, "operator", Text(operator))
    {
      GetIs(node, "operator", Text(operator));
    }
    if HasOperator(node, operators) {
      assert Has(node, "operator", Text(Get(node, "operator").text));
    }
  }

  lemma ConversionIs(heap: Heap, node: Node, options: SearchOptions)
    ensures IsImplicitTypeConversion(heap, node, options)
            <==> options.considerImplicitTypeConversion && Converts(heap, node)
  {
    hide Get, Has, ChildType, LiteralOperand, HasOperator;
    OperatorIs(node, TYPE_CONVERSION_BINARY_OPS);
    OperatorIs(node, TYPE_CONVERSION_UNARY_OPS);
    OperandIs(heap, node, "left");
    OperandIs(heap, node, "right");
    OperandIs(heap, node, "property");
    OperandIs(heap, node, "key");
    OperandIs(heap, node, "argument");
    GetIs(node, "computed", Flag(true));
  }

  lemma ConversionNeedsType(heap: Heap, node: Node)
    ensures Converts(heap, node) ==> node.type_.Some?
  {
  }

  lemma EffectExactly(heap: Heap, options: SearchOptions, id: Id)
    requires id in heap
    ensures IsEffect(heap, options, id) <==> Acts(heap, options, id)
  {
    hide Get, Has, IsImplicitTypeConversion, Converts;
    ConversionIs(heap, heap[id], options);
    ConversionNeedsType(heap, heap[id]);
    GetIs(heap[id], "operator", Text("delete"));
  }

  /** `path` goes down from `start` to a side effect. */
  ghost predicate LeadsToEffect(heap: Heap, visitorKeys: VisitorKeys, options: SearchOptions, start: Id,
                                path: seq<Id>) {
    && path != [] && path[0] == start && Acts(heap, options, path[|path| - 1])
    && forall i :: 0 <= i < |path| - 1 ==> ChildOf(heap, visitorKeys, path[i], path[i + 1])
  }

  lemma ActsInside(heap: Heap, options: SearchOptions, id: Id)
    ensures Acts(heap, options, id) ==> id in heap
  {
  }

  /** The search answers yes exactly when there is such a path. */
  lemma EffectReachedExactly(heap: Heap, visitorKeys: VisitorKeys, options: SearchOptions, start: Id)
    ensures ReachesEffect(heap, visitorKeys, options, start)
            <==> exists path :: LeadsToEffect(heap, visitorKeys, options, start, path)
  {
    hide ChildOf, Acts, Next, IsEffect;
    var children := Children(heap, visitorKeys);
    forall id: Id, child: Id
      ensures child in children(id) <==> ChildOf(heap, visitorKeys, id, child)
    {
      ChildrenExactly(heap, visitorKeys, id, child);
    }
    if ReachesEffect(heap, visitorKeys, options, start) {
      var end :| Reaches(children, start, end) && end in heap && IsEffect(heap, options, end);
      var path :| IsPath(children, path, start, end);
      EffectExactly(heap, options, end);
      assert LeadsToEffect(heap, visitorKeys, options, start, path);
    }
    if path :| LeadsToEffect(heap, visitorKeys, options, start, path) {
      var end := path[|path| - 1];
      ActsInside(heap, options, end);
      EffectExactly(heap, options, end);
      assert IsPath(children, path, start, end);
    }
  }
}
