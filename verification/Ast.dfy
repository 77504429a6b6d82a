/** The ESTree nodes the lint helpers walk: JavaScript records on a heap, which may share children and
    point back to their parents. */
module Ast {
  import opened Options

  type Id = nat

  /** A field of a record, as far as the walks look at it. */
  datatype Field =
    | Ref(id: Id)
    | List(items: seq<Field>)
    | Text(text: string)
    | Flag(value: bool)
    | Opaque

  /** A record; `type_` is its `type` field when that is a string. */
  datatype Node = Node(type_: Option<string>, fields: seq<(string, Field)>)

  type Heap = map<Id, Node>

  function Keys(fields: seq<(string, Field)>): seq<string> {
    seq(|fields|, i requires 0 <= i < |fields| => fields[i].0)
  }

  function Lookup(fields: seq<(string, Field)>, key: string): Field {
    if fields == [] then Opaque
    else if fields[0].0 == key then fields[0].1
    else Lookup(fields[1..], key)
  }

  /** `node[key]`. */
  function Get(node: Node, key: string): Field {
    Lookup(node.fields, key)
  }

  predicate HasType(node: Node, name: string) {
    node.type_ == Some(name)
  }

  /** `isAstNode`: a record whose `type` is a string. */
  predicate IsAstNode(heap: Heap, field: Field) {
    field.Ref? && field.id in heap && heap[field.id].type_.Some?
  }

  /** `childNode`. */
  function ChildNode(heap: Heap, node: Node, key: string): Option<Id> {
    if IsAstNode(heap, Get(node, key)) then Some(Get(node, key).id) else None
  }

  /** `arrayField`. */
  function ArrayField(node: Node, key: string): seq<Field> {
    match Get(node, key)
    case List(items) => items
    case _ => []
  }

  /** `stringField`. */
  function StringField(node: Node, key: string): Option<string> {
    match Get(node, key)
    case Text(text) => Some(text)
    case _ => None
  }

  /** `isComputedProperty`. */
  predicate IsComputed(node: Node) {
    Get(node, "computed") == Flag(true)
  }

  /** The type of `node[key]` when that is a node. */
  function ChildType(heap: Heap, node: Node, key: string): Option<string> {
    match ChildNode(heap, node, key)
    case Some(id) => heap[id].type_
    case None => None
  }
}
