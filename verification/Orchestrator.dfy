/** `planCheckerBatch` of orchestrator.ts: N queries are rewritten into a few coalesced requests, and
    each answer is routed back to the queries that wanted it. */
module Orchestrator {
  import opened Options
  import opened RequestKey
  import opened Checker
  import opened BatchGroups

  // ---- who answers a query ----

  /** What a query is answered by: itself, a direct request, or one of the three kinds of group. */
  datatype Owner =
    | Locally
    | Directly(method_: string, fields: Fields)
    | InTypes(file: string)
    | InSymbols(file: string)
    | InSymbolTypes

  function Scoped(scope: Scope, entries: seq<(string, Option<Scalar>)>): Fields {
    OmitUndefined([("snapshot", Some(Text(scope.snapshot))), ("project", Some(Text(scope.project)))] + entries)
  }

  function Named(name: string, value: string): (string, Option<Scalar>) {
    (name, Some(Text(value)))
  }

  function OwnerOf(scope: Scope, ask: Ask): Owner {
    match ask
    case TypeAtPosition(file, _) => InTypes(file)
    case TypesAtPositions(file, positions) => if positions == [] then Locally else InTypes(file)
    case SymbolAtPosition(file, _) => InSymbols(file)
    case SymbolsAtPositions(file, positions) => if positions == [] then Locally else InSymbols(file)
    case TypeOfSymbol(_) => InSymbolTypes
    case TypesOfSymbols(symbols) => if symbols == [] then Locally else InSymbolTypes
    case SymbolOfType(typeId) => Directly("getSymbolOfType", Scoped(scope, [Named("type", typeId)]))
    case DeclaredTypeOfSymbol(symbol) => Directly("getDeclaredTypeOfSymbol", Scoped(scope, [Named("symbol", symbol)]))
    case AliasedSymbol(symbol) => Directly("getAliasedSymbol", Scoped(scope, [Named("symbol", symbol)]))
    case ImmediateAliasedSymbol(symbol) =>
      Directly("getImmediateAliasedSymbol", Scoped(scope, [Named("symbol", symbol)]))
    case ExportsOfModule(symbol) => Directly("getExportsOfModule", Scoped(scope, [Named("symbol", symbol)]))
    case PropertyOfType(typeId, name) =>
      Directly("getPropertyOfType", Scoped(scope, [Named("type", typeId), Named("name", name)]))
    case TypeArguments(typeId, objectFlags) =>
      if HasNoArguments(objectFlags) then Locally
      else Directly("getTypeArguments", Scoped(scope, [Named("type", typeId)]))
    case ConstraintOfType(typeId) => Directly("getConstraintOfType", Scoped(scope, [Named("type", typeId)]))
    case IsTypeAssignableTo(source, target) =>
      Directly("isTypeAssignableTo", Scoped(scope, [Named("source", source), Named("target", target)]))
    case TypeToString(typeId, location, flags) =>
      Directly("typeToString",
               Scoped(scope, [Named("type", typeId),
                              ("location", if location.Some? then Some(Text(location.value)) else None),
                              ("flags", if flags.Some? then Some(Number(flags.value)) else None)]))
  }

  function PositionsOf(ask: Ask): seq<int> {
    match ask
    case TypeAtPosition(_, position) => [position]
    case TypesAtPositions(_, positions) => positions
    case SymbolAtPosition(_, position) => [position]
    case SymbolsAtPositions(_, positions) => positions
    case _ => []
  }

  function SymbolsOf(ask: Ask): seq<string> {
    match ask
    case TypeOfSymbol(symbol) => [symbol]
    case TypesOfSymbols(symbols) => symbols
    case _ => []
  }

  predicate IsSingle(ask: Ask) {
    ask.TypeAtPosition? || ask.SymbolAtPosition? || ask.TypeOfSymbol?
  }

  predicate WantsArray(ask: Ask) {
    ask.ExportsOfModule? || ask.TypeArguments?
  }

  /** The queries among the first `n` with a given owner, in order. */
  function Indices(scope: Scope, queries: seq<Query>, owner: Owner, n: nat): (r: seq<nat>)
    requires n <= |queries|
    ensures forall i :: 0 <= i < |r| ==> r[i] < n
    ensures forall i, k :: 0 <= i < k < |r| ==> r[i] < r[k]
  {
    if n == 0 then []
    else
      Indices(scope, queries, owner, n - 1)
      + if OwnerOf(scope, queries[n - 1].ask) == owner then [n - 1] else []
  }

  lemma {:induction false} IndicesAre(scope: Scope, queries: seq<Query>, owner: Owner, n: nat)
    requires n <= |queries|
    ensures forall j: nat :: j in Indices(scope, queries, owner, n)
              <==> j < n && OwnerOf(scope, queries[j].ask) == owner
  {
    hide OwnerOf;
    if n > 0 {
      IndicesAre(scope, queries, owner, n - 1);
    }
  }

  // ---- routes ----

  datatype Route =
    | DirectRoute(query: Query, queryIndex: nat, wantsArray: bool)
    | PositionsRoute(method_: string, positions: seq<int>, positionRoutes: seq<GroupRoute<int>>)
    | SymbolsRoute(symbols: seq<string>, symbolRoutes: seq<GroupRoute<string>>)

  ghost predicate DirectRoutes(queries: seq<Query>, routes: seq<Route>, indices: seq<nat>) {
    |routes| == |indices|
    && forall i :: 0 <= i < |routes| ==>
         indices[i] < |queries|
         && routes[i] == DirectRoute(queries[indices[i]], indices[i], WantsArray(queries[indices[i]].ask))
  }

  ghost predicate GroupRoutes<T>(queries: seq<Query>, routes: seq<GroupRoute<T>>, indices: seq<nat>,
                                 wants: Ask -> seq<T>) {
    |routes| == |indices|
    && forall i :: 0 <= i < |routes| ==>
         indices[i] < |queries|
         && routes[i] == GroupRoute(queries[indices[i]], indices[i], wants(queries[indices[i]].ask),
                                    IsSingle(queries[indices[i]].ask))
  }

  ghost predicate GroupServes<T(!new)>(queries: seq<Query>, group: Group<T>, indices: seq<nat>, wants: Ask -> seq<T>) {
    WellFormed(group) && GroupRoutes(queries, group.routes, indices, wants)
  }

  ghost predicate ServesPositions(scope: Scope, queries: seq<Query>, method_: string, file: string, indices: seq<nat>,
                                  request: Request, routes: seq<Route>) {
    exists group: Group<int> ::
      GroupServes(queries, group, indices, PositionsOf)
      && request == Request(method_, PositionParams(scope, file, group.members))
      && routes == [PositionsRoute(method_, group.members, group.routes)]
  }

  /** Request and routes are the ones for `owner`, where `indices` are the queries it owns. */
  ghost predicate Serves(scope: Scope, queries: seq<Query>, owner: Owner, indices: seq<nat>, request: Request,
                         routes: seq<Route>) {
    match owner
    case Locally => false
    case Directly(method_, fields) =>
      request == Request(method_, DirectParams(fields)) && DirectRoutes(queries, routes, indices)
    case InTypes(file) => ServesPositions(scope, queries, "getTypesAtPositions", file, indices, request, routes)
    case InSymbols(file) => ServesPositions(scope, queries, "getSymbolsAtPositions", file, indices, request, routes)
    case InSymbolTypes =>
      exists group: Group<string> ::
        GroupServes(queries, group, indices, SymbolsOf)
        && request == Request("getTypesOfSymbols", SymbolParams(scope, group.members))
        && routes == [SymbolsRoute(group.members, group.routes)]
  }

  // ---- the plan ----

  /** A finished plan: every query is answered locally or owned by exactly one request, no two
      requests have the same owner, every request is needed, and there are no more requests than
      queries. */
  ghost predicate Planned(scope: Scope, queries: seq<Query>, owners: seq<Owner>, requests: seq<Request>,
                          requestRoutes: seq<seq<Route>>) {
    && |owners| == |requests| == |requestRoutes| <= |queries|
    && NoDuplicates(owners)
    && (forall r :: 0 <= r < |owners| ==>
          Indices(scope, queries, owners[r], |queries|) != []
          && Serves(scope, queries, owners[r], Indices(scope, queries, owners[r], |queries|), requests[r],
                    requestRoutes[r]))
    && (forall j :: 0 <= j < |queries| ==>
          OwnerOf(scope, queries[j].ask) == Locally || OwnerOf(scope, queries[j].ask) in owners)
  }

  /** The owner a request was made for can be read off its method and parameters. */
  function RequestOwner(request: Request): Owner {
    match request.params
    case DirectParams(fields) => Directly(request.method_, fields)
    case PositionParams(_, file, _) =>
      if request.method_ == "getTypesAtPositions" then InTypes(file) else InSymbols(file)
    case SymbolParams(_, _) => InSymbolTypes
  }

  lemma OwnerFromRequest(scope: Scope, queries: seq<Query>, owner: Owner, indices: seq<nat>, request: Request,
                         routes: seq<Route>)
    requires Serves(scope, queries, owner, indices, request, routes)
    ensures RequestOwner(request) == owner
  {
  }

  /** Planner economy: no two planned requests are the same call. */
  lemma NoRequestTwice(scope: Scope, queries: seq<Query>, owners: seq<Owner>, requests: seq<Request>,
                       requestRoutes: seq<seq<Route>>)
    requires Planned(scope, queries, owners, requests, requestRoutes)
    ensures NoDuplicates(requests)
    ensures |requests| <= |queries|
    ensures forall i, j, file, xs, ys :: 0 <= i < j < |requests|
              && requests[i].params == PositionParams(scope, file, xs)
              && requests[j].params == PositionParams(scope, file, ys)
              ==> requests[i].method_ != requests[j].method_
  {
    forall i, j | 0 <= i < j < |requests|
      ensures requests[i] != requests[j]
    {
      assert owners[i] != owners[j];
      OwnerFromRequest(scope, queries, owners[i], Indices(scope, queries, owners[i], |queries|), requests[i],
                       requestRoutes[i]);
      OwnerFromRequest(scope, queries, owners[j], Indices(scope, queries, owners[j], |queries|), requests[j],
                       requestRoutes[j]);
    }
    forall i, j, file, xs, ys | 0 <= i < j < |requests|
      && requests[i].params == PositionParams(scope, file, xs) && requests[j].params == PositionParams(scope, file, ys)
      ensures requests[i].method_ != requests[j].method_
    {
      assert owners[i] != owners[j];
      OwnerFromRequest(scope, queries, owners[i], Indices(scope, queries, owners[i], |queries|), requests[i],
                       requestRoutes[i]);
      OwnerFromRequest(scope, queries, owners[j], Indices(scope, queries, owners[j], |queries|), requests[j],
                       requestRoutes[j]);
    }
  }

  // ---- what a response makes of a query ----

  /** The result of a query from its request's response.  It depends on nothing else. */
  function Answer(query: Query, request: Request, response: Response): Item {
    match request.params
    case DirectParams(_) =>
      if HasError(response) then Failed(query.key, Kind(query.ask), response.error.value)
      else
        Answered(query.key, Kind(query.ask),
                 if WantsArray(query.ask) then ArrayOf(response.result) else Nullish(response.result))
    case PositionParams(_, _, positions) =>
      Outcome(request.method_, positions, response, query, PositionsOf(query.ask), IsSingle(query.ask))
    case SymbolParams(_, symbols) =>
      Outcome(request.method_, symbols, response, query, SymbolsOf(query.ask), IsSingle(query.ask))
  }

  function LocalItem(query: Query): Item {
    Answered(query.key, Kind(query.ask), Arr([]))
  }

  function Fallback(query: Query): Item {
    Failed(query.key, Kind(query.ask), "checker batch query did not produce a result")
  }
}
