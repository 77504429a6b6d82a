/** What `resolveCheckerBatch` does, said in the values themselves: what is sent for a query, what the
    checker's value becomes, and what an error, a wrong list or a missing slot becomes. */
module BatchLaws {
  import opened Options
  import opened RequestKey
  import opened Checker
  import opened BatchGroups
  import opened Orchestrator
  import opened CheckerBatch

  // ---- what is sent ----

  /** The queries answered without any request: empty lists, and type arguments of a type whose flags
      are known and have neither the reference bit nor the mapped bit. */
  lemma LocalExactly(scope: Scope, ask: Ask)
    ensures OwnerOf(scope, ask) == Locally
            <==> match ask
                 case TypesAtPositions(_, positions) => |positions| == 0
                 case SymbolsAtPositions(_, positions) => |positions| == 0
                 case TypesOfSymbols(symbols) => |symbols| == 0
                 case TypeArguments(_, objectFlags) =>
                   objectFlags.Some? && objectFlags.value & 4 == 0 && objectFlags.value & 32 == 0
                 case _ => false
  {
    hide Scoped;
    if ask.TypeArguments? && ask.objectFlags.Some? {
      var flags := ask.objectFlags.value;
      assert flags & ((1 << 2) | (1 << 5)) == 0 <==> flags & 4 == 0 && flags & 32 == 0;
    }
  }

  lemma ScopedIs(scope: Scope, entries: seq<(string, Option<Scalar>)>)
    ensures Scoped(scope, entries)
            == [("snapshot", Text(scope.snapshot)), ("project", Text(scope.project))] + OmitUndefined(entries)
  {
    var first := ("snapshot", Some(Text(scope.snapshot)));
    var second := ("project", Some(Text(scope.project)));
    var all := [first, second] + entries;
    assert all[1..] == [second] + entries && all[1..][1..] == entries;
    assert OmitUndefined(all[1..]) == [("project", Text(scope.project))] + OmitUndefined(entries);
  }

  lemma OmitOne(name: string, value: Option<Scalar>, rest: seq<(string, Option<Scalar>)>)
    ensures OmitUndefined([(name, value)] + rest)
            == (if value.Some? then [(name, value.value)] else []) + OmitUndefined(rest)
  {
    assert ([(name, value)] + rest)[1..] == rest;
  }

  lemma OmitNothing(name: string, value: Scalar)
    ensures OmitUndefined([(name, Some(value))]) == [(name, value)]
  {
    OmitOne(name, Some(value), []);
    assert [(name, Some(value))] + [] == [(name, Some(value))];
  }

  lemma OmitNone(name: string, value: Scalar, other: string, also: Scalar)
    ensures OmitUndefined([(name, Some(value)), (other, Some(also))]) == [(name, value), (other, also)]
  {
    OmitOne(name, Some(value), [(other, Some(also))]);
    OmitNothing(other, also);
    assert [(name, Some(value))] + [(other, Some(also))] == [(name, Some(value)), (other, Some(also))];
  }

  lemma RenderedOmits(typeId: string, location: Option<string>, flags: Option<int>)
    ensures OmitUndefined([Named("type", typeId),
                           ("location", if location.Some? then Some(Text(location.value)) else None),
                           ("flags", if flags.Some? then Some(Number(flags.value)) else None)])
            == [("type", Text(typeId))]
               + (if location.Some? then [("location", Text(location.value))] else [])
               + (if flags.Some? then [("flags", Number(flags.value))] else [])
  {
    var place := if location.Some? then Some(Text(location.value)) else None;
    var bits := if flags.Some? then Some(Number(flags.value)) else None;
    OmitOne("type", Some(Text(typeId)), [("location", place), ("flags", bits)]);
    assert [Named("type", typeId)] + [("location", place), ("flags", bits)]
        == [Named("type", typeId), ("location", place), ("flags", bits)];
    OmitOne("location", place, [("flags", bits)]);
    assert [("location", place)] + [("flags", bits)] == [("location", place), ("flags", bits)];
    OmitOne("flags", bits, []);
    assert [("flags", bits)] + [] == [("flags", bits)];
    assert OmitUndefined([]) == [];
  }

  /** The direct request of a query, name by name. */
  lemma DirectIs(scope: Scope, ask: Ask)
    requires OwnerOf(scope, ask).Directly?
    ensures var method_ := OwnerOf(scope, ask).method_;
            var fields := OwnerOf(scope, ask).fields;
            var both := [("snapshot", Text(scope.snapshot)), ("project", Text(scope.project))];
            match ask
            case SymbolOfType(t) => method_ == "getSymbolOfType" && fields == both + [("type", Text(t))]
            case DeclaredTypeOfSymbol(s) =>
              method_ == "getDeclaredTypeOfSymbol" && fields == both + [("symbol", Text(s))]
            case AliasedSymbol(s) => method_ == "getAliasedSymbol" && fields == both + [("symbol", Text(s))]
            case ImmediateAliasedSymbol(s) =>
              method_ == "getImmediateAliasedSymbol" && fields == both + [("symbol", Text(s))]
            case ExportsOfModule(s) => method_ == "getExportsOfModule" && fields == both + [("symbol", Text(s))]
            case PropertyOfType(t, name) =>
              method_ == "getPropertyOfType" && fields == both + [("type", Text(t)), ("name", Text(name))]
            case TypeArguments(t, _) => method_ == "getTypeArguments" && fields == both + [("type", Text(t))]
            case ConstraintOfType(t) => method_ == "getConstraintOfType" && fields == both + [("type", Text(t))]
            case IsTypeAssignableTo(source, target) =>
              method_ == "isTypeAssignableTo"
              && fields == both + [("source", Text(source)), ("target", Text(target))]
            case TypeToString(t, location, flags) =>
              method_ == "typeToString"
              && fields == both + ([("type", Text(t))]
                                   + (if location.Some? then [("location", Text(location.value))] else [])
                                   + (if flags.Some? then [("flags", Number(flags.value))] else []))
            case _ => false
  {
    hide Scoped, OmitUndefined;
    match ask
    case SymbolOfType(t) => ScopedIs(scope, [Named("type", t)]); OmitNothing("type", Text(t));
    case TypeArguments(t, _) => ScopedIs(scope, [Named("type", t)]); OmitNothing("type", Text(t));
    case ConstraintOfType(t) => ScopedIs(scope, [Named("type", t)]); OmitNothing("type", Text(t));
    case DeclaredTypeOfSymbol(s) => ScopedIs(scope, [Named("symbol", s)]); OmitNothing("symbol", Text(s));
    case AliasedSymbol(s) => ScopedIs(scope, [Named("symbol", s)]); OmitNothing("symbol", Text(s));
    case ImmediateAliasedSymbol(s) => ScopedIs(scope, [Named("symbol", s)]); OmitNothing("symbol", Text(s));
    case ExportsOfModule(s) => ScopedIs(scope, [Named("symbol", s)]); OmitNothing("symbol", Text(s));
    case PropertyOfType(t, name) =>
      ScopedIs(scope, [Named("type", t), Named("name", name)]);
      OmitNone("type", Text(t), "name", Text(name));
    case IsTypeAssignableTo(source, target) =>
      ScopedIs(scope, [Named("source", source), Named("target", target)]);
      OmitNone("source", Text(source), "target", Text(target));
    case TypeToString(t, location, flags) =>
      RenderedOmits(t, location, flags);
      ScopedIs(scope, [Named("type", t),
                       ("location", if location.Some? then Some(Text(location.value)) else None),
                       ("flags", if flags.Some? then Some(Number(flags.value)) else None)]);
    case _ =>
  }

  /** The places of a file some query of the list asks types, or symbols, for. */
  ghost predicate AsksAt(queries: seq<Query>, symbols: bool, file: string, position: int) {
    exists j :: 0 <= j < |queries|
      && match queries[j].ask
         case TypeAtPosition(f, p) => !symbols && f == file && p == position
         case TypesAtPositions(f, ps) => !symbols && f == file && position in ps
         case SymbolAtPosition(f, p) => symbols && f == file && p == position
         case SymbolsAtPositions(f, ps) => symbols && f == file && position in ps
         case _ => false
  }

  ghost predicate AsksOf(queries: seq<Query>, symbol: string) {
    exists j :: 0 <= j < |queries|
      && match queries[j].ask
         case TypeOfSymbol(s) => s == symbol
         case TypesOfSymbols(ss) => symbol in ss
         case _ => false
  }

  lemma MembersAreWanted<T(!new)>(queries: seq<Query>, group: Group<T>, indices: seq<nat>, wants: Ask -> seq<T>, x: T)
    requires GroupServes(queries, group, indices, wants)
    ensures x in group.members
            <==> exists i :: 0 <= i < |indices| && indices[i] < |queries| && x in wants(queries[indices[i]].ask)
  {
    if x in group.members {
      var r :| 0 <= r < |group.routes| && x in group.routes[r].wanted;
      assert indices[r] < |queries|;
    }
    if i :| 0 <= i < |indices| && indices[i] < |queries| && x in wants(queries[indices[i]].ask) {
      assert x in group.routes[i].wanted;
    }
  }

  lemma PositionsAsked(scope: Scope, queries: seq<Query>, symbols: bool, file: string, group: Group<int>, x: int)
    requires var owner := if symbols then InSymbols(file) else InTypes(file);
             GroupServes(queries, group, Indices(scope, queries, owner, |queries|), PositionsOf)
    ensures x in group.members <==> AsksAt(queries, symbols, file, x)
  {
    hide GroupServes, Indices, Scoped;
    var owner := if symbols then InSymbols(file) else InTypes(file);
    var indices := Indices(scope, queries, owner, |queries|);
    IndicesAre(scope, queries, owner, |queries|);
    MembersAreWanted(queries, group, indices, PositionsOf, x);
    if i :| 0 <= i < |indices| && indices[i] < |queries| && x in PositionsOf(queries[indices[i]].ask) {
      assert indices[i] in indices;
      assert AsksAt(queries, symbols, file, x);
    }
    if AsksAt(queries, symbols, file, x) {
      var j :| 0 <= j < |queries|
               && match queries[j].ask
                  case TypeAtPosition(f, p) => !symbols && f == file && p == x
                  case TypesAtPositions(f, ps) => !symbols && f == file && x in ps
                  case SymbolAtPosition(f, p) => symbols && f == file && p == x
                  case SymbolsAtPositions(f, ps) => symbols && f == file && x in ps
                  case _ => false;
      assert j in indices;
      assert x in PositionsOf(queries[j].ask);
    }
  }

  lemma SymbolsAsked(scope: Scope, queries: seq<Query>, group: Group<string>, x: string)
    requires GroupServes(queries, group, Indices(scope, queries, InSymbolTypes, |queries|), SymbolsOf)
    ensures x in group.members <==> AsksOf(queries, x)
  {
    hide GroupServes, Indices, Scoped;
    var indices := Indices(scope, queries, InSymbolTypes, |queries|);
    IndicesAre(scope, queries, InSymbolTypes, |queries|);
    MembersAreWanted(queries, group, indices, SymbolsOf, x);
    if i :| 0 <= i < |indices| && indices[i] < |queries| && x in SymbolsOf(queries[indices[i]].ask) {
      assert indices[i] in indices;
      assert AsksOf(queries, x);
    }
    if AsksOf(queries, x) {
      var j :| 0 <= j < |queries|
               && match queries[j].ask
                  case TypeOfSymbol(s) => s == x
                  case TypesOfSymbols(ss) => x in ss
                  case _ => false;
      assert j in indices;
      assert x in SymbolsOf(queries[j].ask);
    }
  }

  /** A shared request asks, under the right method, for exactly what the queries it is for want, each
      position or symbol once. */
  ghost predicate SharedRequestIs(scope: Scope, queries: seq<Query>, ask: Ask, request: Request) {
    match request.params
    case DirectParams(_) => false
    case PositionParams(sent, file, positions) =>
      && sent == scope
      && (forall a, b :: 0 <= a < b < |positions| ==> positions[a] != positions[b])
      && (match ask
          case TypeAtPosition(f, _) => request.method_ == "getTypesAtPositions" && f == file
          case TypesAtPositions(f, _) => request.method_ == "getTypesAtPositions" && f == file
          case SymbolAtPosition(f, _) => request.method_ == "getSymbolsAtPositions" && f == file
          case SymbolsAtPositions(f, _) => request.method_ == "getSymbolsAtPositions" && f == file
          case _ => false)
      && (forall x :: x in positions
            <==> AsksAt(queries, ask.SymbolAtPosition? || ask.SymbolsAtPositions?, file, x))
    case SymbolParams(sent, symbols) =>
      && sent == scope && request.method_ == "getTypesOfSymbols" && (ask.TypeOfSymbol? || ask.TypesOfSymbols?)
      && (forall a, b :: 0 <= a < b < |symbols| ==> symbols[a] != symbols[b])
      && (forall x :: x in symbols <==> AsksOf(queries, x))
  }

  lemma OwnerMatches(scope: Scope, ask: Ask)
    ensures match OwnerOf(scope, ask)
            case InTypes(file) => (ask.TypeAtPosition? || ask.TypesAtPositions?) && ask.file == file
            case InSymbols(file) => (ask.SymbolAtPosition? || ask.SymbolsAtPositions?) && ask.file == file
            case InSymbolTypes => ask.TypeOfSymbol? || ask.TypesOfSymbols?
            case _ => true
  {
    hide Scoped;
  }

  lemma SharedIs(scope: Scope, queries: seq<Query>, owner: Owner, request: Request, routes: seq<Route>, j: nat)
    requires j < |queries| && OwnerOf(scope, queries[j].ask) == owner && !owner.Directly? && !owner.Locally?
    requires Serves(scope, queries, owner, Indices(scope, queries, owner, |queries|), request, routes)
    ensures SharedRequestIs(scope, queries, queries[j].ask, request)
  {
    hide OwnerOf, Indices, AsksAt, AsksOf;
    OwnerMatches(scope, queries[j].ask);
    var indices := Indices(scope, queries, owner, |queries|);
    match owner
    case InTypes(file) =>
      var group: Group<int> :| GroupServes(queries, group, indices, PositionsOf)
                               && request == Request("getTypesAtPositions", PositionParams(scope, file, group.members));
      forall x ensures x in group.members <==> AsksAt(queries, false, file, x) {
        PositionsAsked(scope, queries, false, file, group, x);
      }
    case InSymbols(file) =>
      var group: Group<int> :| GroupServes(queries, group, indices, PositionsOf)
                               && request == Request("getSymbolsAtPositions",
                                                     PositionParams(scope, file, group.members));
      forall x ensures x in group.members <==> AsksAt(queries, true, file, x) {
        PositionsAsked(scope, queries, true, file, group, x);
      }
    case InSymbolTypes =>
      var group: Group<string> :| GroupServes(queries, group, indices, SymbolsOf)
                               && request == Request("getTypesOfSymbols", SymbolParams(scope, group.members));
      forall x ensures x in group.members <==> AsksOf(queries, x) {
        SymbolsAsked(scope, queries, group, x);
      }
  }

  /** What is sent for a query that is not answered locally. */
  lemma SentFor(scope: Scope, queries: seq<Query>, owners: seq<Owner>, requests: seq<Request>,
                routes: seq<seq<Route>>, j: nat)
    requires Planned(scope, queries, owners, requests, routes) && j < |queries|
    requires OwnerOf(scope, queries[j].ask) != Locally
    ensures exists r :: 0 <= r < |requests| && owners[r] == OwnerOf(scope, queries[j].ask)
              && if owners[r].Directly? then requests[r] == Request(owners[r].method_, DirectParams(owners[r].fields))
                 else SharedRequestIs(scope, queries, queries[j].ask, requests[r])
  {
    hide OwnerOf, Indices, GroupServes, SharedRequestIs;
    var owner := OwnerOf(scope, queries[j].ask);
    var r :| 0 <= r < |owners| && owners[r] == owner;
    if !owner.Directly? {
      SharedIs(scope, queries, owner, requests[r], routes[r], j);
    }
  }

  // ---- what the reply says ----

  /** One item of the reply: a method and an error only where they are strings, and no error where it is
      empty. */
  ghost predicate ItemIsRead(item: Json, response: Response) {
    match item
    case Arr(_) => response == Response("", Undefined, None)
    case Obj(fields) =>
      && response.method_ == (if "method" in fields && fields["method"].Str? then fields["method"].text else "")
      && response.result == (if "result" in fields then fields["result"] else Undefined)
      && (match response.error
          case Some(error) => error != "" && "error" in fields && fields["error"] == Str(error)
          case None => "error" !in fields || !fields["error"].Str? || fields["error"].text == "")
    case _ => false
  }

  lemma NormalizeItemReads(item: Json)
    requires item.Arr? || item.Obj?
    ensures ItemIsRead(item, NormalizeItem(item))
  {
  }

  ghost predicate ItemsAreRead(items: seq<Json>, expected: nat, result: Result<seq<Response>, BatchError>) {
    if |items| != expected then result == Err(WrongCount(|items|, expected))
    else
      match result
      case Ok(responses) =>
        |responses| == |items| && forall i :: 0 <= i < |items| ==> ItemIsRead(items[i], responses[i])
      case Err(error) =>
        error.NotAnObject? && error.index < |items| && !items[error.index].Arr? && !items[error.index].Obj?
        && forall k :: 0 <= k < error.index ==> items[k].Arr? || items[k].Obj?
  }

  lemma ItemsRead(items: seq<Json>)
    ensures ItemsAreRead(items, |items|, NormalizeItems(items, 0))
  {
    hide NormalizeItem, NormalizeItems, ItemIsRead;
    ItemsNormalize(items, 0);
    forall i | 0 <= i < |items| && IsObject(items[i])
      ensures ItemIsRead(items[i], NormalizeItem(items[i]))
    {
      NormalizeItemReads(items[i]);
    }
  }

  /** What the transport's reply is taken for: nothing is sent for no requests, what it throws is passed
      on, and a reply counts only as an object whose `responses` is a list of as many objects. */
  lemma ReplyIsRead(callJson: Transport, requests: seq<Request>)
    ensures requests == [] ==> BatchCheckerRequests(callJson, requests) == Ok([])
    ensures requests != [] ==>
              match callJson(requests)
              case Err(message) => BatchCheckerRequests(callJson, requests) == Err(Thrown(message))
              case Ok(reply) =>
                match reply
                case Arr(_) => BatchCheckerRequests(callJson, requests) == Err(MalformedList)
                case Obj(fields) =>
                  if "responses" !in fields || !fields["responses"].Arr? then
                    BatchCheckerRequests(callJson, requests) == Err(MalformedList)
                  else
                    ItemsAreRead(fields["responses"].elements, |requests|, BatchCheckerRequests(callJson, requests))
                case _ => BatchCheckerRequests(callJson, requests) == Err(MalformedResponse)
  {
    hide NormalizeItems, ItemIsRead;
    if requests != [] && callJson(requests).Ok? && ListIn(callJson(requests).value).Some? {
      ItemsRead(ListIn(callJson(requests).value).value);
    }
  }

  // ---- what comes back ----

  /** A single query: the value the checker gives for it, under its own key and kind, and `null` only
      where the checker gives nothing. */
  lemma SingleAnswer(checker: Oracle, callJson: Transport, scope: Scope, queries: seq<Query>, owners: seq<Owner>,
                     requests: seq<Request>, routes: seq<seq<Route>>, result: Result<seq<Item>, BatchError>, j: nat)
    requires Honest(callJson, checker, scope) && Planned(scope, queries, owners, requests, routes)
    requires Resolved(callJson, scope, queries, owners, requests, result) && j < |queries|
    requires !queries[j].ask.TypesAtPositions? && !queries[j].ask.SymbolsAtPositions?
    requires !queries[j].ask.TypesOfSymbols? && !queries[j].ask.ExportsOfModule? && !queries[j].ask.TypeArguments?
    ensures result.Ok? && |result.value| == |queries|
    ensures var (kind, given) :=
              match queries[j].ask
              case TypeAtPosition(file, position) => ("typeAtPosition", checker.typeAt(file, position))
              case SymbolAtPosition(file, position) => ("symbolAtPosition", checker.symbolAt(file, position))
              case TypeOfSymbol(symbol) => ("typeOfSymbol", checker.typeOf(symbol))
              case SymbolOfType(typeId) => ("symbolOfType", checker.symbolOfType(typeId))
              case DeclaredTypeOfSymbol(symbol) => ("declaredTypeOfSymbol", checker.declaredType(symbol))
              case AliasedSymbol(symbol) => ("aliasedSymbol", checker.aliased(symbol))
              case ImmediateAliasedSymbol(symbol) => ("immediateAliasedSymbol", checker.immediateAliased(symbol))
              case PropertyOfType(typeId, name) => ("propertyOfType", checker.property(typeId, name))
              case ConstraintOfType(typeId) => ("constraintOfType", checker.constraint(typeId))
              case IsTypeAssignableTo(source, target) => ("isTypeAssignableTo", checker.assignable(source, target))
              case TypeToString(typeId, location, flags) =>
                ("typeToString", checker.rendered(typeId, location, flags));
            result.value[j] == Answered(queries[j].key, kind, if given == Undefined then Null else given)
  {
    hide Planned, Resolved, Honest;
    BatchingPreservesMeaning(checker, callJson, scope, queries, owners, requests, routes, result);
  }

  /** A list query: a list of as many values, the one at each place being what the checker gives for
      that place alone; `null` only where it gives nothing. */
  lemma ListAnswer(checker: Oracle, callJson: Transport, scope: Scope, queries: seq<Query>, owners: seq<Owner>,
                   requests: seq<Request>, routes: seq<seq<Route>>, result: Result<seq<Item>, BatchError>, j: nat)
    requires Honest(callJson, checker, scope) && Planned(scope, queries, owners, requests, routes)
    requires Resolved(callJson, scope, queries, owners, requests, result) && j < |queries|
    ensures result.Ok? && |result.value| == |queries|
    ensures match queries[j].ask
            case TypesAtPositions(file, positions) =>
              exists got: seq<Json> :: |got| == |positions|
                && result.value[j] == Answered(queries[j].key, "typesAtPositions", Arr(got))
                && forall i :: 0 <= i < |positions| ==>
                     var given := checker.typeAt(file, positions[i]);
                     got[i] == if given == Undefined then Null else given
            case SymbolsAtPositions(file, positions) =>
              exists got: seq<Json> :: |got| == |positions|
                && result.value[j] == Answered(queries[j].key, "symbolsAtPositions", Arr(got))
                && forall i :: 0 <= i < |positions| ==>
                     var given := checker.symbolAt(file, positions[i]);
                     got[i] == if given == Undefined then Null else given
            case TypesOfSymbols(symbols) =>
              exists got: seq<Json> :: |got| == |symbols|
                && result.value[j] == Answered(queries[j].key, "typesOfSymbols", Arr(got))
                && forall i :: 0 <= i < |symbols| ==>
                     var given := checker.typeOf(symbols[i]);
                     got[i] == if given == Undefined then Null else given
            case _ => true
  {
    hide Planned, Resolved, Honest;
    BatchingPreservesMeaning(checker, callJson, scope, queries, owners, requests, routes, result);
    var meaning := Meaning(checker, queries[j].ask);
    assert meaning.Arr? ==> result.value[j] == Answered(queries[j].key, Kind(queries[j].ask), Arr(meaning.elements));
  }

  /** The two queries for lists the checker makes itself: its list, an empty one for nothing and for
      `null`, and for type arguments also where the flags rule them out. */
  lemma CollectionAnswer(checker: Oracle, callJson: Transport, scope: Scope, queries: seq<Query>, owners: seq<Owner>,
                         requests: seq<Request>, routes: seq<seq<Route>>, result: Result<seq<Item>, BatchError>,
                         j: nat)
    requires Honest(callJson, checker, scope) && Planned(scope, queries, owners, requests, routes)
    requires Resolved(callJson, scope, queries, owners, requests, result) && j < |queries|
    ensures result.Ok? && |result.value| == |queries|
    ensures match queries[j].ask
            case ExportsOfModule(symbol) =>
              var given := checker.exports(symbol);
              result.value[j] == Answered(queries[j].key, "exportsOfModule",
                                          if given == Undefined || given == Null then Arr([]) else given)
            case TypeArguments(typeId, objectFlags) =>
              var given := checker.typeArguments(typeId);
              var none := objectFlags.Some? && objectFlags.value & 4 == 0 && objectFlags.value & 32 == 0;
              result.value[j] == Answered(queries[j].key, "typeArguments",
                                          if none || given == Undefined || given == Null then Arr([]) else given)
            case _ => true
  {
    hide Planned, Resolved, Honest;
    BatchingPreservesMeaning(checker, callJson, scope, queries, owners, requests, routes, result);
    LocalExactly(scope, queries[j].ask);
  }

  /** Queries answered locally have the empty list, whatever the transport does; when there are no
      others, nothing is sent and nothing can fail. */
  lemma LocalAnswer(callJson: Transport, scope: Scope, queries: seq<Query>, owners: seq<Owner>,
                    requests: seq<Request>, routes: seq<seq<Route>>, result: Result<seq<Item>, BatchError>)
    requires Planned(scope, queries, owners, requests, routes)
    requires Resolved(callJson, scope, queries, owners, requests, result)
    ensures requests == [] <==> forall j :: 0 <= j < |queries| ==> OwnerOf(scope, queries[j].ask) == Locally
    ensures requests == [] ==> result.Ok?
    ensures result.Ok? ==>
              |result.value| == |queries|
              && forall j :: 0 <= j < |queries| && OwnerOf(scope, queries[j].ask) == Locally ==>
                   result.value[j] == Answered(queries[j].key, Kind(queries[j].ask), Arr([]))
  {
    hide OwnerOf, Answer, Serves, NormalizeCheckerBatchResponses;
    if requests != [] {
      var indices := Indices(scope, queries, owners[0], |queries|);
      IndicesAre(scope, queries, owners[0], |queries|);
      assert indices[0] in indices;
      assert OwnerOf(scope, queries[indices[0]].ask) == owners[0];
      BatchPlan.OwnersAreNotLocal(scope, queries, owners, requests, routes);
    }
  }

  /** The item of a query is made from the response to its own request. */
  lemma OwnedItem(callJson: Transport, scope: Scope, queries: seq<Query>, owners: seq<Owner>, requests: seq<Request>,
                  routes: seq<seq<Route>>, responses: seq<Response>, result: Result<seq<Item>, BatchError>, r: nat,
                  j: nat)
    requires Planned(scope, queries, owners, requests, routes)
    requires Resolved(callJson, scope, queries, owners, requests, result)
    requires BatchCheckerRequests(callJson, requests) == Ok(responses)
    requires r < |owners| && j < |queries| && OwnerOf(scope, queries[j].ask) == owners[r]
    ensures result.Ok? && |result.value| == |queries| && |responses| == |requests|
    ensures result.value[j] == Answer(queries[j], requests[r], responses[r])
  {
    hide OwnerOf, Answer, Serves, Indices, BatchCheckerRequests;
    BatchPlan.OwnersAreNotLocal(scope, queries, owners, requests, routes);
    IndexOfUnique(owners, r);
  }

  /** An error in a response is the error of every query the request is for. */
  lemma ErrorReachesAll(callJson: Transport, scope: Scope, queries: seq<Query>, owners: seq<Owner>,
                        requests: seq<Request>, routes: seq<seq<Route>>, responses: seq<Response>,
                        result: Result<seq<Item>, BatchError>, r: nat, error: string)
    requires Planned(scope, queries, owners, requests, routes)
    requires Resolved(callJson, scope, queries, owners, requests, result)
    requires BatchCheckerRequests(callJson, requests) == Ok(responses)
    requires r < |owners| && |responses| == |requests| && responses[r].error == Some(error) && error != ""
    ensures result.Ok? && |result.value| == |queries|
    ensures forall j :: 0 <= j < |queries| && OwnerOf(scope, queries[j].ask) == owners[r] ==>
              result.value[j] == Failed(queries[j].key, Kind(queries[j].ask), error)
  {
    hide OwnerOf, Planned, BatchCheckerRequests, ItemFor;
    forall j | 0 <= j < |queries| && OwnerOf(scope, queries[j].ask) == owners[r]
      ensures result.value[j] == Failed(queries[j].key, Kind(queries[j].ask), error)
    {
      OwnedItem(callJson, scope, queries, owners, requests, routes, responses, result, r, j);
    }
  }

  /** Without an error a direct result is passed on, with `null` for nothing, and the empty list for
      nothing and for `null` where a list is asked for. */
  lemma DirectIsPassedOn(callJson: Transport, scope: Scope, queries: seq<Query>, owners: seq<Owner>,
                         requests: seq<Request>, routes: seq<seq<Route>>, responses: seq<Response>,
                         result: Result<seq<Item>, BatchError>, r: nat, j: nat)
    requires Planned(scope, queries, owners, requests, routes)
    requires Resolved(callJson, scope, queries, owners, requests, result)
    requires BatchCheckerRequests(callJson, requests) == Ok(responses) && |responses| == |requests|
    requires r < |owners| && j < |queries| && OwnerOf(scope, queries[j].ask) == owners[r] && owners[r].Directly?
    requires responses[r].error.None? || responses[r].error.value == ""
    ensures result.Ok? && |result.value| == |queries|
    ensures var lists := queries[j].ask.ExportsOfModule? || queries[j].ask.TypeArguments?;
            var given := match responses[r].result
                         case Undefined => if lists then Arr([]) else Null
                         case Null => if lists then Arr([]) else Null
                         case other => other;
            result.value[j] == Answered(queries[j].key, Kind(queries[j].ask), given)
  {
    hide OwnerOf, BatchCheckerRequests, ItemFor, Kind;
    assert requests[r].params.DirectParams?;
    hide Planned;
    OwnedItem(callJson, scope, queries, owners, requests, routes, responses, result, r, j);
  }

  /** Reading a shared list: whatever is not a list is complained about; a query's value is the element
      in the slot its position or symbol has in the request, `null` where the slot is missing or empty. */
  lemma SharedOutcome<T(!new)>(method_: string, members: seq<T>, response: Response, query: Query, wanted: seq<T>,
                               single: bool, i: nat, place: nat)
    requires response.error.None? || response.error.value == ""
    requires forall a, b :: 0 <= a < b < |members| ==> members[a] != members[b]
    requires i < |wanted| && place < |members| && members[place] == wanted[i] && (single ==> i == 0)
    ensures var item := Outcome(method_, members, response, query, wanted, single);
            match response.result
            case Arr(elements) =>
              var given := if place < |elements| && elements[place] != Undefined then elements[place] else Null;
              item.Answered? && item.key == query.key && item.kind == Kind(query.ask)
              && if single then item.result == given
                 else item.result.Arr? && |item.result.elements| == |wanted| && item.result.elements[i] == given
            case _ => item == Failed(query.key, Kind(query.ask), method_ + " returned a non-array result")
  {
    hide Kind;
    IndexOfUnique(members, place);
  }

  /** Number `i` of what the query asks for stands at `place` of the request. */
  ghost predicate AskedAt(ask: Ask, request: Request, i: nat, place: nat) {
    match request.params
    case DirectParams(_) => false
    case PositionParams(_, _, positions) =>
      place < |positions|
      && (match ask
          case TypeAtPosition(_, position) => i == 0 && positions[place] == position
          case SymbolAtPosition(_, position) => i == 0 && positions[place] == position
          case TypesAtPositions(_, asked) => i < |asked| && positions[place] == asked[i]
          case SymbolsAtPositions(_, asked) => i < |asked| && positions[place] == asked[i]
          case _ => false)
    case SymbolParams(_, symbols) =>
      place < |symbols|
      && (match ask
          case TypeOfSymbol(symbol) => i == 0 && symbols[place] == symbol
          case TypesOfSymbols(asked) => i < |asked| && symbols[place] == asked[i]
          case _ => false)
  }

  /** The item has, as its value or as number `i` of its list, what stands at `place` of the response's
      list, `null` where that is missing or empty; or it complains that there is no list. */
  ghost predicate ReadFrom(item: Item, query: Query, request: Request, response: Response, i: nat, place: nat) {
    match response.result
    case Arr(elements) =>
      var given := if place < |elements| && elements[place] != Undefined then elements[place] else Null;
      && item.Answered? && item.key == query.key && item.kind == Kind(query.ask)
      && if query.ask.TypeAtPosition? || query.ask.SymbolAtPosition? || query.ask.TypeOfSymbol?
         then item.result == given
         else item.result.Arr? && i < |item.result.elements| && item.result.elements[i] == given
    case _ => item == Failed(query.key, Kind(query.ask), request.method_ + " returned a non-array result")
  }

  lemma AnswerIsRead(scope: Scope, queries: seq<Query>, query: Query, request: Request, response: Response, i: nat,
                     place: nat)
    requires SharedRequestIs(scope, queries, query.ask, request) && AskedAt(query.ask, request, i, place)
    requires response.error.None? || response.error.value == ""
    ensures ReadFrom(Answer(query, request, response), query, request, response, i, place)
  {
    hide Kind, Outcome, AsksAt, AsksOf;
    match request.params
    case PositionParams(_, _, positions) =>
      SharedOutcome(request.method_, positions, response, query, PositionsOf(query.ask), IsSingle(query.ask), i, place);
    case SymbolParams(_, symbols) =>
      SharedOutcome(request.method_, symbols, response, query, SymbolsOf(query.ask), IsSingle(query.ask), i, place);
  }

  lemma NotAlone(scope: Scope, queries: seq<Query>, owners: seq<Owner>, requests: seq<Request>,
                 routes: seq<seq<Route>>, r: nat, ask: Ask, i: nat, place: nat)
    requires Planned(scope, queries, owners, requests, routes) && r < |owners|
    requires AskedAt(ask, requests[r], i, place)
    ensures !owners[r].Directly? && !owners[r].Locally?
  {
    hide Indices, GroupServes;
  }

  /** Without an error, a shared response gives every query for each position or symbol what is in that
      position's or symbol's own slot. */
  lemma SharedIsReadBySlot(callJson: Transport, scope: Scope, queries: seq<Query>, owners: seq<Owner>,
                           requests: seq<Request>, routes: seq<seq<Route>>, responses: seq<Response>,
                           result: Result<seq<Item>, BatchError>, r: nat, j: nat, i: nat, place: nat)
    requires Planned(scope, queries, owners, requests, routes)
    requires Resolved(callJson, scope, queries, owners, requests, result)
    requires BatchCheckerRequests(callJson, requests) == Ok(responses) && |responses| == |requests|
    requires r < |owners| && j < |queries| && OwnerOf(scope, queries[j].ask) == owners[r]
    requires responses[r].error.None? || responses[r].error.value == ""
    requires AskedAt(queries[j].ask, requests[r], i, place)
    ensures result.Ok? && |result.value| == |queries|
    ensures ReadFrom(result.value[j], queries[j], requests[r], responses[r], i, place)
  {
    hide OwnerOf, BatchCheckerRequests, ItemFor, Kind, Resolved, AskedAt, ReadFrom, SharedRequestIs, Answer, Serves;
    OwnedItem(callJson, scope, queries, owners, requests, routes, responses, result, r, j);
    NotAlone(scope, queries, owners, requests, routes, r, queries[j].ask, i, place);
    SharedIs(scope, queries, owners[r], requests[r], routes[r], j);
    AnswerIsRead(scope, queries, queries[j], requests[r], responses[r], i, place);
  }
}
