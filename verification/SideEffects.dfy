/** `hasSideEffect` of ast_utils.ts: a search over a graph of nodes that may be shared or cyclic. */
module SideEffects {
  import opened Options
  import opened Ast
  import opened Paths

  datatype SearchOptions = SearchOptions(considerGetters: bool, considerImplicitTypeConversion: bool)

  /** `sourceCode.visitorKeys`, when there are any. */
  type VisitorKeys = Option<map<string, seq<string>>>

  const TYPE_CONVERSION_BINARY_OPS: set<string> :=
    {"==", "!=", "<", "<=", ">", ">=", "<<", ">>", ">>>", "+", "-", "*", "/", "%", "|", "^", "&", "in"}
  const TYPE_CONVERSION_UNARY_OPS: set<string> := {"-", "+", "!", "~"}
  const SKIPPED_CHILD_KEYS: set<string> := {"comments", "loc", "parent", "range", "tokens"}

  predicate IsSideEffectNode(node: Node) {
    || HasType(node, "AssignmentExpression") || HasType(node, "AwaitExpression") || HasType(node, "CallExpression")
    || HasType(node, "ImportExpression") || HasType(node, "NewExpression") || HasType(node, "UpdateExpression")
    || HasType(node, "YieldExpression")
    || (HasType(node, "UnaryExpression") && StringField(node, "operator") == Some("delete"))
  }

  predicate HasOperator(node: Node, operators: set<string>) {
    StringField(node, "operator").Some? && StringField(node, "operator").value in operators
  }

  predicate IsImplicitTypeConversion(heap: Heap, node: Node, options: SearchOptions) {
    if !options.considerImplicitTypeConversion then false
    else if HasType(node, "BinaryExpression") && HasOperator(node, TYPE_CONVERSION_BINARY_OPS) then
      ChildType(heap, node, "left") != Some("Literal") || ChildType(heap, node, "right") != Some("Literal")
    else if (HasType(node, "MemberExpression") || HasType(node, "MethodDefinition") || HasType(node, "Property")
             || HasType(node, "PropertyDefinition")) && IsComputed(node) then
      ChildType(heap, node, if HasType(node, "MemberExpression") then "property" else "key") != Some("Literal")
    else
      HasType(node, "UnaryExpression") && HasOperator(node, TYPE_CONVERSION_UNARY_OPS)
      && ChildType(heap, node, "argument") != Some("Literal")
  }

  predicate IsFunctionNode(node: Node) {
    HasType(node, "ArrowFunctionExpression") || HasType(node, "FunctionExpression")
  }

  /** `Object.keys(node).filter(…)`. */
  function WithoutSkipped(keys: seq<string>): seq<string> {
    if keys == [] then []
    else (if keys[0] in SKIPPED_CHILD_KEYS then [] else [keys[0]]) + WithoutSkipped(keys[1..])
  }

  function AstChildKeys(node: Node, visitorKeys: VisitorKeys): seq<string> {
    if node.type_.Some? && node.type_.value != "" && visitorKeys.Some? && node.type_.value in visitorKeys.value
    then visitorKeys.value[node.type_.value]
    else WithoutSkipped(Keys(node.fields))
  }

  // ---- what the search is about ----

  /** The nodes of an array field; anything else in it, nested arrays too, is passed over. */
  function NodesIn(heap: Heap, items: seq<Field>): set<Id> {
    set item | item in items && IsAstNode(heap, item) :: item.id
  }

  /** The nodes a field holds: itself, or the nodes of its array. */
  function NodesOf(heap: Heap, field: Field): set<Id> {
    match field
    case Ref(id) => if IsAstNode(heap, field) then {id} else {}
    case List(items) => NodesIn(heap, items)
    case _ => {}
  }

  /** The children the search descends to: none below an arrow function or function expression. */
  function Next(heap: Heap, visitorKeys: VisitorKeys, id: Id): set<Id>
    requires id in heap
  {
    if IsFunctionNode(heap[id]) then {}
    else
      set key, child | key in AstChildKeys(heap[id], visitorKeys) && child in NodesOf(heap, Get(heap[id], key)) :: child
  }

  /** A side-effect node under the options. */
  predicate IsEffect(heap: Heap, options: SearchOptions, id: Id)
    requires id in heap
  {
    || IsSideEffectNode(heap[id])
    || IsImplicitTypeConversion(heap, heap[id], options)
    || (options.considerGetters && HasType(heap[id], "MemberExpression"))
  }

  function Children(heap: Heap, visitorKeys: VisitorKeys): Id -> set<Id> {
    (id: Id) => if id in heap then Next(heap, visitorKeys, id) else {}
  }

  /** Some side-effect node can be reached from `start` through child keys, below no function expression. */
  ghost predicate ReachesEffect(heap: Heap, visitorKeys: VisitorKeys, options: SearchOptions, start: Id) {
    exists end :: Reaches(Children(heap, visitorKeys), start, end) && end in heap && IsEffect(heap, options, end)
  }

  lemma EffectReachesItself(heap: Heap, visitorKeys: VisitorKeys, options: SearchOptions, id: Id)
    requires id in heap && IsEffect(heap, options, id)
    ensures ReachesEffect(heap, visitorKeys, options, id)
  {
    ReachesItself(Children(heap, visitorKeys), id);
  }

  lemma EffectReachedThrough(heap: Heap, visitorKeys: VisitorKeys, options: SearchOptions, id: Id, child: Id)
    requires id in heap && child in Next(heap, visitorKeys, id) && ReachesEffect(heap, visitorKeys, options, child)
    ensures ReachesEffect(heap, visitorKeys, options, id)
  {
    hide Next, IsEffect, Reaches;
    var children := Children(heap, visitorKeys);
    var end :| Reaches(children, child, end) && end in heap && IsEffect(heap, options, end);
    ReachesThrough(children, id, child, end);
  }

  // ---- a search that found nothing ----

  /** `id` has no effect itself and all its children are in `seen`. */
  ghost predicate Cleared(heap: Heap, visitorKeys: VisitorKeys, options: SearchOptions, id: Id, seen: set<Id>) {
    id in heap && !IsEffect(heap, options, id) && Next(heap, visitorKeys, id) <= seen
  }

  /** Between `before` and `after` every newly seen node but `except` was cleared. */
  ghost predicate Explored(heap: Heap, visitorKeys: VisitorKeys, options: SearchOptions, before: set<Id>,
                           after: set<Id>, except: set<Id>) {
    before <= after && forall id :: id in after && id !in before && id !in except ==>
                                      Cleared(heap, visitorKeys, options, id, after)
  }

  lemma ExploredTwice(heap: Heap, visitorKeys: VisitorKeys, options: SearchOptions, first: set<Id>, second: set<Id>,
                      third: set<Id>, except: set<Id>)
    requires Explored(heap, visitorKeys, options, first, second, except)
    requires Explored(heap, visitorKeys, options, second, third, {})
    ensures Explored(heap, visitorKeys, options, first, third, except)
  {
    hide IsEffect, Next;
  }

  lemma ClearedMeansNothing(heap: Heap, visitorKeys: VisitorKeys, options: SearchOptions, seen: set<Id>, start: Id)
    requires start in seen && forall id :: id in seen ==> Cleared(heap, visitorKeys, options, id, seen)
    ensures !ReachesEffect(heap, visitorKeys, options, start)
  {
    hide IsEffect, Next, Reaches;
    var children := Children(heap, visitorKeys);
    forall end | Reaches(children, start, end)
      ensures Cleared(heap, visitorKeys, options, end, seen)
    {
      ReachesInside(children, seen, start, end);
    }
  }

  /** The search state of `hasSideEffectNode`. */
  class Search {
    const heap: Heap
    const visitorKeys: VisitorKeys
    const options: SearchOptions
    var seen: set<Id>

    constructor (heap: Heap, visitorKeys: VisitorKeys, options: SearchOptions)
      ensures this.heap == heap && this.visitorKeys == visitorKeys && this.options == options && seen == {}
    {
      this.heap, this.visitorKeys, this.options := heap, visitorKeys, options;
      seen := {};
    }

    method HasSideEffectNode(id: Id) returns (found: bool)
      requires id in heap && seen <= heap.Keys
      modifies this`seen
      ensures seen <= heap.Keys
      ensures found ==> ReachesEffect(heap, visitorKeys, options, id)
      ensures !found ==> id in seen && Explored(heap, visitorKeys, options, old(seen), seen, {})
      decreases heap.Keys - seen, 0
    {
      hide ReachesEffect;
      if id in seen {
        return false;
      }
      var node := heap[id];
      seen := seen + {id};
      if IsSideEffectNode(node) {
        EffectReachesItself(heap, visitorKeys, options, id);
        return true;
      }
      if IsFunctionNode(node) {
        FunctionIsCleared(id);
        return false;
      }
      if IsImplicitTypeConversion(heap, node, options)
         || (options.considerGetters && HasType(node, "MemberExpression")) {
        EffectReachesItself(heap, visitorKeys, options, id);
        return true;
      }
      hide Explored, Next, NodesOf, IsEffect;
      var keys := AstChildKeys(node, visitorKeys);
      StartsExplored(old(seen), id);
      for i := 0 to |keys|
        invariant id in seen && seen <= heap.Keys
        invariant Explored(heap, visitorKeys, options, old(seen), seen, {id})
        invariant forall k :: 0 <= k < i ==> NodesOf(heap, Get(node, keys[k])) <= seen
      {
        ghost var before := seen;
        found := FieldHasSideEffect(Get(node, keys[i]));
        if found {
          ChildReaches(id, keys[i]);
          return;
        }
        ExploredGrows(before, seen);
        ExploredTwice(heap, visitorKeys, options, old(seen), before, seen, {id});
      }
      AllKeysCleared(id, old(seen), seen);
      return false;
    }

    /** The two tests on the value of one child key. */
    method FieldHasSideEffect(field: Field) returns (found: bool)
      requires seen <= heap.Keys
      modifies this`seen
      ensures seen <= heap.Keys
      ensures found ==>
                exists child :: child in NodesOf(heap, field) && ReachesEffect(heap, visitorKeys, options, child)
      ensures !found ==> NodesOf(heap, field) <= seen && Explored(heap, visitorKeys, options, old(seen), seen, {})
      decreases heap.Keys - seen, 2
    {
      hide ReachesEffect, IsEffect, Next;
      if IsAstNode(heap, field) {
        found := HasSideEffectNode(field.id);
      } else if field.List? {
        found := SomeHasSideEffect(field.items);
      } else {
        found := false;
      }
    }

    /** `value.some((item) => …)`. */
    method SomeHasSideEffect(items: seq<Field>) returns (found: bool)
      requires seen <= heap.Keys
      modifies this`seen
      ensures seen <= heap.Keys
      ensures found ==>
                exists child :: child in NodesIn(heap, items) && ReachesEffect(heap, visitorKeys, options, child)
      ensures !found ==> NodesIn(heap, items) <= seen && Explored(heap, visitorKeys, options, old(seen), seen, {})
      decreases heap.Keys - seen, 1
    {
      hide ReachesEffect, IsEffect, Next;
      StartsEmpty(seen);
      hide Explored;
      for i := 0 to |items|
        invariant seen <= heap.Keys && old(seen) <= seen
        invariant Explored(heap, visitorKeys, options, old(seen), seen, {})
        invariant forall k :: 0 <= k < i && IsAstNode(heap, items[k]) ==> items[k].id in seen
      {
        if IsAstNode(heap, items[i]) {
          ghost var before := seen;
          found := HasSideEffectNode(items[i].id);
          if found {
            assert items[i].id in NodesIn(heap, items);
            return;
          }
          ExploredGrows(before, seen);
          ExploredTwice(heap, visitorKeys, options, old(seen), before, seen, {});
        }
      }
      return false;
    }

    lemma StartsEmpty(before: set<Id>)
      ensures Explored(heap, visitorKeys, options, before, before, {})
    {
    }

    lemma StartsExplored(before: set<Id>, id: Id)
      ensures Explored(heap, visitorKeys, options, before, before + {id}, {id})
    {
    }

    lemma ExploredGrows(before: set<Id>, after: set<Id>)
      requires Explored(heap, visitorKeys, options, before, after, {})
      ensures before <= after
    {
    }

    lemma FunctionIsCleared(id: Id)
      requires id in heap && IsFunctionNode(heap[id]) && !IsSideEffectNode(heap[id])
      ensures forall seen :: Cleared(heap, visitorKeys, options, id, seen)
    {
    }

    lemma ChildReaches(id: Id, key: string)
      requires id in heap && !IsFunctionNode(heap[id]) && key in AstChildKeys(heap[id], visitorKeys)
      requires exists child :: child in NodesOf(heap, Get(heap[id], key))
                 && ReachesEffect(heap, visitorKeys, options, child)
      ensures ReachesEffect(heap, visitorKeys, options, id)
    {
      hide ReachesEffect, NodesOf;
      var child :| child in NodesOf(heap, Get(heap[id], key)) && ReachesEffect(heap, visitorKeys, options, child);
      EffectReachedThrough(heap, visitorKeys, options, id, child);
    }

    lemma AllKeysCleared(id: Id, before: set<Id>, after: set<Id>)
      requires id in heap && !IsFunctionNode(heap[id]) && !IsEffect(heap, options, id)
      requires Explored(heap, visitorKeys, options, before, after, {id})
      requires var keys := AstChildKeys(heap[id], visitorKeys);
               forall k :: 0 <= k < |keys| ==> NodesOf(heap, Get(heap[id], keys[k])) <= after
      ensures Explored(heap, visitorKeys, options, before, after, {})
    {
      hide NodesOf, IsEffect, AstChildKeys;
    }
  }

  /** The answer is yes exactly when a side-effect node can be reached from the node through child
      keys without passing below an arrow function or function expression. */
  method HasSideEffect(heap: Heap, id: Option<Id>, visitorKeys: VisitorKeys, options: SearchOptions)
    returns (found: bool)
    requires id.Some? ==> id.value in heap
    ensures found <==> id.Some? && ReachesEffect(heap, visitorKeys, options, id.value)
  {
    hide ReachesEffect, IsEffect, Next;
    if id.None? {
      return false;
    }
    var search := new Search(heap, visitorKeys, options);
    found := search.HasSideEffectNode(id.value);
    if !found {
      ClearedMeansNothing(heap, visitorKeys, options, search.seen, id.value);
    }
  }
}
