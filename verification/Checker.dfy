/** The vocabulary of the batch planner: queries, requests, responses, and what a query means when a
    type checker is asked directly. */
module Checker {
  import opened Options
  import opened RequestKey

  /** JSON values as JavaScript sees them; `Undefined` is an absent property or array slot. */
  datatype Json =
    | Undefined
    | Null
    | Bool(value: bool)
    | Num(number: int)
    | Str(text: string)
    | Arr(elements: seq<Json>)
    | Obj(fields: map<string, Json>)

  /** `x ?? null`. */
  function Nullish(x: Json): Json {
    if x == Undefined then Null else x
  }

  /** `x[i]`. */
  function Slot(elements: seq<Json>, i: nat): Json {
    if i < |elements| then elements[i] else Undefined
  }

  datatype Scope = Scope(snapshot: string, project: string)

  datatype Ask =
    | TypeAtPosition(file: string, position: int)
    | TypesAtPositions(file: string, positions: seq<int>)
    | SymbolAtPosition(file: string, position: int)
    | SymbolsAtPositions(file: string, positions: seq<int>)
    | TypeOfSymbol(symbol: string)
    | TypesOfSymbols(symbols: seq<string>)
    | SymbolOfType(typeId: string)
    | DeclaredTypeOfSymbol(symbol: string)
    | AliasedSymbol(symbol: string)
    | ImmediateAliasedSymbol(symbol: string)
    | ExportsOfModule(symbol: string)
    | PropertyOfType(typeId: string, name: string)
    | TypeArguments(typeId: string, objectFlags: Option<bv32>)
    | ConstraintOfType(typeId: string)
    | IsTypeAssignableTo(source: string, target: string)
    | TypeToString(typeId: string, location: Option<string>, flags: Option<int>)

  datatype Query = Query(key: string, ask: Ask)

  const OBJECT_FLAGS_REFERENCE: bv32 := 1 << 2
  const OBJECT_FLAGS_MAPPED: bv32 := 1 << 5

  predicate HasNoArguments(objectFlags: Option<bv32>) {
    objectFlags.Some? && objectFlags.value & (OBJECT_FLAGS_REFERENCE | OBJECT_FLAGS_MAPPED) == 0
  }

  function Kind(ask: Ask): string {
    match ask
    case TypeAtPosition(_, _) => "typeAtPosition"
    case TypesAtPositions(_, _) => "typesAtPositions"
    case SymbolAtPosition(_, _) => "symbolAtPosition"
    case SymbolsAtPositions(_, _) => "symbolsAtPositions"
    case TypeOfSymbol(_) => "typeOfSymbol"
    case TypesOfSymbols(_) => "typesOfSymbols"
    case SymbolOfType(_) => "symbolOfType"
    case DeclaredTypeOfSymbol(_) => "declaredTypeOfSymbol"
    case AliasedSymbol(_) => "aliasedSymbol"
    case ImmediateAliasedSymbol(_) => "immediateAliasedSymbol"
    case ExportsOfModule(_) => "exportsOfModule"
    case PropertyOfType(_, _) => "propertyOfType"
    case TypeArguments(_, _) => "typeArguments"
    case ConstraintOfType(_) => "constraintOfType"
    case IsTypeAssignableTo(_, _) => "isTypeAssignableTo"
    case TypeToString(_, _, _) => "typeToString"
  }

  datatype Params =
    | DirectParams(fields: Fields)
    | PositionParams(scope: Scope, file: string, positions: seq<int>)
    | SymbolParams(scope: Scope, symbols: seq<string>)

  datatype Request = Request(method_: string, params: Params)

  datatype Response = Response(method_: string, result: Json, error: Option<string>)

  /** `if (response.error)`: an empty string is no error. */
  predicate HasError(response: Response) {
    response.error.Some? && response.error.value != ""
  }

  /** One resolved query. */
  datatype Item =
    | Answered(key: string, kind: string, result: Json)
    | Failed(key: string, kind: string, error: string)

  // ---- the checker behind the requests ----

  /** A pure checker, one function per endpoint. */
  datatype Oracle = Oracle(
    typeAt: (string, int) -> Json,
    symbolAt: (string, int) -> Json,
    typeOf: string -> Json,
    symbolOfType: string -> Json,
    declaredType: string -> Json,
    aliased: string -> Json,
    immediateAliased: string -> Json,
    exports: string -> Json,
    property: (string, string) -> Json,
    typeArguments: string -> Json,
    constraint: string -> Json,
    assignable: (string, string) -> Json,
    rendered: (string, Option<string>, Option<int>) -> Json
  )

  function ArrayOf(result: Json): Json {
    if result == Undefined || result == Null then Arr([]) else result
  }

  /** What a query asks for, said without any request: each position or symbol by itself. */
  function Meaning(checker: Oracle, ask: Ask): Json {
    match ask
    case TypeAtPosition(file, position) => Nullish(checker.typeAt(file, position))
    case TypesAtPositions(file, positions) =>
      Arr(seq(|positions|, i requires 0 <= i < |positions| => Nullish(checker.typeAt(file, positions[i]))))
    case SymbolAtPosition(file, position) => Nullish(checker.symbolAt(file, position))
    case SymbolsAtPositions(file, positions) =>
      Arr(seq(|positions|, i requires 0 <= i < |positions| => Nullish(checker.symbolAt(file, positions[i]))))
    case TypeOfSymbol(symbol) => Nullish(checker.typeOf(symbol))
    case TypesOfSymbols(symbols) =>
      Arr(seq(|symbols|, i requires 0 <= i < |symbols| => Nullish(checker.typeOf(symbols[i]))))
    case SymbolOfType(typeId) => Nullish(checker.symbolOfType(typeId))
    case DeclaredTypeOfSymbol(symbol) => Nullish(checker.declaredType(symbol))
    case AliasedSymbol(symbol) => Nullish(checker.aliased(symbol))
    case ImmediateAliasedSymbol(symbol) => Nullish(checker.immediateAliased(symbol))
    case ExportsOfModule(symbol) => ArrayOf(checker.exports(symbol))
    case PropertyOfType(typeId, name) => Nullish(checker.property(typeId, name))
    case TypeArguments(typeId, objectFlags) =>
      if HasNoArguments(objectFlags) then Arr([]) else ArrayOf(checker.typeArguments(typeId))
    case ConstraintOfType(typeId) => Nullish(checker.constraint(typeId))
    case IsTypeAssignableTo(source, target) => Nullish(checker.assignable(source, target))
    case TypeToString(typeId, location, flags) => Nullish(checker.rendered(typeId, location, flags))
  }

  // ---- an error-free server for that checker ----

  function Field(fields: Fields, name: string): Option<Scalar> {
    if fields == [] then None
    else if fields[0].0 == name then Some(fields[0].1)
    else Field(fields[1..], name)
  }

  function TextField(fields: Fields, name: string): Option<string> {
    match Field(fields, name)
    case Some(Text(text)) => Some(text)
    case _ => None
  }

  function NumberField(fields: Fields, name: string): Option<int> {
    match Field(fields, name)
    case Some(Number(number)) => Some(number)
    case _ => None
  }

  function Required(fields: Fields, name: string): string {
    match TextField(fields, name)
    case Some(text) => text
    case None => ""
  }

  function Endpoint(checker: Oracle, method_: string, fields: Fields): Option<Json> {
    if method_ == "getSymbolOfType" then Some(checker.symbolOfType(Required(fields, "type")))
    else if method_ == "getDeclaredTypeOfSymbol" then Some(checker.declaredType(Required(fields, "symbol")))
    else if method_ == "getAliasedSymbol" then Some(checker.aliased(Required(fields, "symbol")))
    else if method_ == "getImmediateAliasedSymbol" then Some(checker.immediateAliased(Required(fields, "symbol")))
    else if method_ == "getExportsOfModule" then Some(checker.exports(Required(fields, "symbol")))
    else if method_ == "getPropertyOfType" then
      Some(checker.property(Required(fields, "type"), Required(fields, "name")))
    else if method_ == "getTypeArguments" then Some(checker.typeArguments(Required(fields, "type")))
    else if method_ == "getConstraintOfType" then Some(checker.constraint(Required(fields, "type")))
    else if method_ == "isTypeAssignableTo" then
      Some(checker.assignable(Required(fields, "source"), Required(fields, "target")))
    else if method_ == "typeToString" then
      Some(checker.rendered(Required(fields, "type"), TextField(fields, "location"), NumberField(fields, "flags")))
    else None
  }

  function Reply(request: Request, result: Option<Json>): Response {
    match result
    case Some(json) => Response(request.method_, json, None)
    case None => Response(request.method_, Undefined, Some("bad request"))
  }

  /** Positional and symbol endpoints answer pointwise; a request for another scope or an unknown
      method is refused. */
  function Serve(checker: Oracle, scope: Scope, request: Request): Response {
    match request.params
    case DirectParams(fields) =>
      Reply(request,
            if TextField(fields, "snapshot") == Some(scope.snapshot)
               && TextField(fields, "project") == Some(scope.project)
            then Endpoint(checker, request.method_, fields) else None)
    case PositionParams(asked, file, positions) =>
      Reply(request,
            if asked != scope then None
            else if request.method_ == "getTypesAtPositions" then
              Some(Arr(seq(|positions|, i requires 0 <= i < |positions| => checker.typeAt(file, positions[i]))))
            else if request.method_ == "getSymbolsAtPositions" then
              Some(Arr(seq(|positions|, i requires 0 <= i < |positions| => checker.symbolAt(file, positions[i]))))
            else None)
    case SymbolParams(asked, symbols) =>
      Reply(request,
            if asked == scope && request.method_ == "getTypesOfSymbols" then
              Some(Arr(seq(|symbols|, i requires 0 <= i < |symbols| => checker.typeOf(symbols[i]))))
            else None)
  }
}
