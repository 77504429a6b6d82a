/** checker_batch.ts and the whole of `resolveCheckerBatch`: one transport call, its reply checked and
    unpacked, and every query answered as if it had been asked by itself. */
module CheckerBatch {
  import opened Options
  import opened RequestKey
  import opened Checker
  import opened BatchGroups
  import opened Orchestrator
  import opened BatchPlan

  // ---- the reply of batchRequests ----

  datatype BatchError =
    | Thrown(message: string)
    | MalformedResponse
    | MalformedList
    | WrongCount(received: nat, expected: nat)
    | NotAnObject(index: nat)

  /** `typeof x === "object" && x !== null`. */
  predicate IsObject(x: Json) {
    x.Arr? || x.Obj?
  }

  /** `x.name` of an object; arrays have none of the names asked for here. */
  function Property(x: Json, name: string): Json
    requires IsObject(x)
  {
    if x.Obj? && name in x.fields then x.fields[name] else Undefined
  }

  function NormalizeItem(item: Json): Response
    requires IsObject(item)
  {
    var method_ := Property(item, "method");
    var error := Property(item, "error");
    Response(if method_.Str? then method_.text else "",
             Property(item, "result"),
             if error.Str? && error.text != "" then Some(error.text) else None)
  }

  function NormalizeItems(items: seq<Json>, index: nat): Result<seq<Response>, BatchError>
    requires index <= |items|
    decreases |items| - index
  {
    if index == |items| then Ok([])
    else if !IsObject(items[index]) then Err(NotAnObject(index))
    else
      match NormalizeItems(items, index + 1)
      case Ok(rest) => Ok([NormalizeItem(items[index])] + rest)
      case Err(error) => Err(error)
  }

  function NormalizeCheckerBatchResponses(response: Json, expectedLength: nat): Result<seq<Response>, BatchError> {
    if !IsObject(response) then Err(MalformedResponse)
    else
      var responses := Property(response, "responses");
      if !responses.Arr? then Err(MalformedList)
      else if |responses.elements| != expectedLength then Err(WrongCount(|responses.elements|, expectedLength))
      else NormalizeItems(responses.elements, 0)
  }

  /** The transport: `callJson("batchRequests", …)`, which may throw. */
  type Transport = seq<Request> -> Result<Json, string>

  function BatchCheckerRequests(callJson: Transport, requests: seq<Request>): Result<seq<Response>, BatchError> {
    if requests == [] then Ok([])
    else
      match callJson(requests)
      case Err(message) => Err(Thrown(message))
      case Ok(response) => NormalizeCheckerBatchResponses(response, |requests|)
  }

  lemma {:induction false} ItemsNormalize(items: seq<Json>, index: nat)
    requires index <= |items|
    ensures match NormalizeItems(items, index)
            case Ok(responses) =>
              |responses| == |items| - index
              && forall i :: index <= i < |items| ==>
                IsObject(items[i]) && responses[i - index] == NormalizeItem(items[i])
            case Err(error) =>
              error.NotAnObject? && index <= error.index < |items| && !IsObject(items[error.index])
              && forall i :: index <= i < error.index ==> IsObject(items[i])
    decreases |items| - index
  {
    hide NormalizeItem, IsObject;
    if index < |items| {
      ItemsNormalize(items, index + 1);
    }
  }

  /** The list a reply holds, when it holds one. */
  function ListIn(response: Json): Option<seq<Json>> {
    if IsObject(response) && Property(response, "responses").Arr? then Some(Property(response, "responses").elements)
    else None
  }

  /** A reply is accepted exactly when it is an object holding a list of as many objects as requests;
      then there is one response per request.  Otherwise the error says which of the four demands
      failed, and names the first item that is no object. */
  lemma AcceptedExactly(response: Json, expected: nat)
    ensures match NormalizeCheckerBatchResponses(response, expected)
            case Ok(responses) =>
              ListIn(response).Some? && |ListIn(response).value| == expected == |responses|
              && forall i :: 0 <= i < expected ==>
                   IsObject(ListIn(response).value[i]) && responses[i] == NormalizeItem(ListIn(response).value[i])
            case Err(MalformedResponse) => !IsObject(response)
            case Err(MalformedList) => IsObject(response) && ListIn(response).None?
            case Err(WrongCount(received, wanted)) =>
              ListIn(response).Some? && received == |ListIn(response).value| != expected == wanted
            case Err(NotAnObject(index)) =>
              ListIn(response).Some? && index < |ListIn(response).value| == expected
              && !IsObject(ListIn(response).value[index])
              && forall i :: 0 <= i < index ==> IsObject(ListIn(response).value[i])
            case Err(Thrown(_)) => false
  {
    hide NormalizeItem, NormalizeItems, Property, IsObject;
    if ListIn(response).Some? && |ListIn(response).value| == expected {
      ItemsNormalize(ListIn(response).value, 0);
    }
  }

  // ---- a transport that hands over what the server said ----

  function Packed(response: Response): Json {
    Obj(map["method" := Str(response.method_)]
        + (if response.result == Undefined then map[] else map["result" := response.result])
        + (if response.error.None? then map[] else map["error" := Str(response.error.value)]))
  }

  function PackedReply(responses: seq<Response>): Json {
    Obj(map["responses" := Arr(seq(|responses|, i requires 0 <= i < |responses| => Packed(responses[i])))])
  }

  lemma PackedNormalizes(response: Response)
    requires response.error != Some("")
    ensures NormalizeItem(Packed(response)) == response
  {
  }

  lemma PackedIsObject(response: Response)
    ensures IsObject(Packed(response))
  {
  }

  /** Unpacking a packed reply gives back the responses. */
  lemma PackRoundTrip(responses: seq<Response>)
    requires forall i :: 0 <= i < |responses| ==> responses[i].error != Some("")
    ensures NormalizeCheckerBatchResponses(PackedReply(responses), |responses|) == Ok(responses)
  {
    hide NormalizeItem, Packed;
    var result := NormalizeCheckerBatchResponses(PackedReply(responses), |responses|);
    AcceptedExactly(PackedReply(responses), |responses|);
    forall i | 0 <= i < |responses|
      ensures IsObject(Packed(responses[i])) && NormalizeItem(Packed(responses[i])) == responses[i]
    {
      PackedIsObject(responses[i]);
      PackedNormalizes(responses[i]);
    }
    assert result.Ok? && result.value == responses;
  }

  function ServeAll(checker: Oracle, scope: Scope, requests: seq<Request>): (responses: seq<Response>)
    ensures |responses| == |requests|
    ensures forall i :: 0 <= i < |requests| ==> responses[i] == Serve(checker, scope, requests[i])
  {
    seq(|requests|, i requires 0 <= i < |requests| => Serve(checker, scope, requests[i]))
  }

  /** The transport reaches an error-free server for `checker`. */
  ghost predicate Honest(callJson: Transport, checker: Oracle, scope: Scope) {
    forall requests: seq<Request> :: callJson(requests) == Ok(PackedReply(ServeAll(checker, scope, requests)))
  }

  lemma NoEmptyError(checker: Oracle, scope: Scope, request: Request)
    ensures Serve(checker, scope, request).error != Some("")
  {
    hide Endpoint, TextField;
  }

  lemma HonestBatch(callJson: Transport, checker: Oracle, scope: Scope, requests: seq<Request>)
    requires Honest(callJson, checker, scope)
    ensures BatchCheckerRequests(callJson, requests) == Ok(ServeAll(checker, scope, requests))
  {
    hide Serve, PackedReply, NormalizeCheckerBatchResponses;
    var responses := ServeAll(checker, scope, requests);
    forall i | 0 <= i < |responses|
      ensures responses[i].error != Some("")
    {
      NoEmptyError(checker, scope, requests[i]);
    }
    PackRoundTrip(responses);
  }

  // ---- a shared request answers each of its queries ----

  /** The field of a parameter list before its undefined entries are dropped. */
  function Entry(entries: seq<(string, Option<Scalar>)>, name: string): Option<Scalar> {
    if entries == [] then None
    else if entries[0].0 == name && entries[0].1.Some? then entries[0].1
    else Entry(entries[1..], name)
  }

  lemma {:induction false} FieldIsEntry(entries: seq<(string, Option<Scalar>)>, name: string)
    ensures Field(OmitUndefined(entries), name) == Entry(entries, name)
  {
    if entries != [] {
      FieldIsEntry(entries[1..], name);
      var rest := OmitUndefined(entries[1..]);
      assert entries[0].1.Some? ==> ([(entries[0].0, entries[0].1.value)] + rest)[1..] == rest;
    }
  }

  lemma ScopedFields(scope: Scope, entries: seq<(string, Option<Scalar>)>, name: string)
    ensures TextField(Scoped(scope, entries), "snapshot") == Some(scope.snapshot)
    ensures TextField(Scoped(scope, entries), "project") == Some(scope.project)
    ensures name != "snapshot" && name != "project" ==> Field(Scoped(scope, entries), name) == Entry(entries, name)
  {
    var first := ("snapshot", Some(Text(scope.snapshot)));
    var second := ("project", Some(Text(scope.project)));
    var all := [first, second] + entries;
    assert all[1..] == [second] + entries && all[1..][1..] == entries;
    FieldIsEntry(all, "snapshot");
    FieldIsEntry(all, "project");
    FieldIsEntry(all, name);
    assert Entry(all[1..], "project") == Some(Text(scope.project));
  }

  lemma RenderedEntries(typeId: string, location: Option<string>, flags: Option<int>)
    ensures var entries :=
              [Named("type", typeId), ("location", if location.Some? then Some(Text(location.value)) else None),
                            ("flags", if flags.Some? then Some(Number(flags.value)) else None)];
            && Entry(entries, "type") == Some(Text(typeId))
            && Entry(entries, "location") == (if location.Some? then Some(Text(location.value)) else None)
            && Entry(entries, "flags") == (if flags.Some? then Some(Number(flags.value)) else None)
  {
    var second := ("location", if location.Some? then Some(Text(location.value)) else None);
    var third := ("flags", if flags.Some? then Some(Number(flags.value)) else None);
    var entries := [Named("type", typeId), second, third];
    assert entries[1..] == [second, third] && entries[1..][1..] == [third] && entries[1..][1..][1..] == [];
    assert Entry([third], "flags") == third.1 && Entry([third], "location") == None;
    assert Entry(entries[1..], "flags") == Entry([third], "flags");
  }

  /** What an endpoint answers is the meaning of the query. */
  ghost predicate EndpointMeans(checker: Oracle, scope: Scope, ask: Ask, method_: string, fields: Fields) {
    && TextField(fields, "snapshot") == Some(scope.snapshot) && TextField(fields, "project") == Some(scope.project)
    && Endpoint(checker, method_, fields).Some?
    && Meaning(checker, ask)
       == if WantsArray(ask) then ArrayOf(Endpoint(checker, method_, fields).value)
          else Nullish(Endpoint(checker, method_, fields).value)
  }

  lemma TypeEndpointMeans(checker: Oracle, scope: Scope, ask: Ask)
    requires ask.SymbolOfType? || ask.TypeArguments? || ask.ConstraintOfType?
    ensures OwnerOf(scope, ask).Directly? ==>
              EndpointMeans(checker, scope, ask, OwnerOf(scope, ask).method_, OwnerOf(scope, ask).fields)
  {
    hide Scoped, Field, ArrayOf, Nullish;
    ScopedFields(scope, [Named("type", ask.typeId)], "type");
  }

  lemma SymbolEndpointMeans(checker: Oracle, scope: Scope, ask: Ask)
    requires ask.DeclaredTypeOfSymbol? || ask.AliasedSymbol? || ask.ImmediateAliasedSymbol? || ask.ExportsOfModule?
    ensures EndpointMeans(checker, scope, ask, OwnerOf(scope, ask).method_, OwnerOf(scope, ask).fields)
  {
    hide Scoped, Field, ArrayOf, Nullish;
    ScopedFields(scope, [Named("symbol", ask.symbol)], "symbol");
  }

  lemma PropertyEndpointMeans(checker: Oracle, scope: Scope, ask: Ask)
    requires ask.PropertyOfType?
    ensures EndpointMeans(checker, scope, ask, OwnerOf(scope, ask).method_, OwnerOf(scope, ask).fields)
  {
    hide Scoped, Field, Nullish;
    var entries := [Named("type", ask.typeId), Named("name", ask.name)];
    ScopedFields(scope, entries, "type");
    ScopedFields(scope, entries, "name");
  }

  lemma AssignableEndpointMeans(checker: Oracle, scope: Scope, ask: Ask)
    requires ask.IsTypeAssignableTo?
    ensures EndpointMeans(checker, scope, ask, OwnerOf(scope, ask).method_, OwnerOf(scope, ask).fields)
  {
    hide Scoped, Field, Nullish;
    var entries := [Named("source", ask.source), Named("target", ask.target)];
    ScopedFields(scope, entries, "source");
    ScopedFields(scope, entries, "target");
  }

  lemma RenderedFields(scope: Scope, typeId: string, location: Option<string>, flags: Option<int>)
    ensures var fields := OwnerOf(scope, TypeToString(typeId, location, flags)).fields;
            && TextField(fields, "snapshot") == Some(scope.snapshot)
            && TextField(fields, "project") == Some(scope.project)
            && Required(fields, "type") == typeId && TextField(fields, "location") == location
            && NumberField(fields, "flags") == flags
  {
    hide Scoped, Field, Entry;
    var entries := [Named("type", typeId), ("location", if location.Some? then Some(Text(location.value)) else None),
                    ("flags", if flags.Some? then Some(Number(flags.value)) else None)];
    RenderedEntries(typeId, location, flags);
    ScopedFields(scope, entries, "type");
    ScopedFields(scope, entries, "location");
    ScopedFields(scope, entries, "flags");
  }

  lemma RenderedEndpointMeans(checker: Oracle, scope: Scope, ask: Ask)
    requires ask.TypeToString?
    ensures EndpointMeans(checker, scope, ask, OwnerOf(scope, ask).method_, OwnerOf(scope, ask).fields)
  {
    hide Scoped, TextField, NumberField, Required, Nullish;
    RenderedFields(scope, ask.typeId, ask.location, ask.flags);
  }

  lemma EndpointAnswers(checker: Oracle, scope: Scope, ask: Ask, method_: string, fields: Fields)
    requires OwnerOf(scope, ask) == Directly(method_, fields)
    ensures EndpointMeans(checker, scope, ask, method_, fields)
  {
    hide Scoped, EndpointMeans;
    match ask
    case SymbolOfType(_) => TypeEndpointMeans(checker, scope, ask);
    case TypeArguments(_, _) => TypeEndpointMeans(checker, scope, ask);
    case ConstraintOfType(_) => TypeEndpointMeans(checker, scope, ask);
    case PropertyOfType(_, _) => PropertyEndpointMeans(checker, scope, ask);
    case IsTypeAssignableTo(_, _) => AssignableEndpointMeans(checker, scope, ask);
    case TypeToString(_, _, _) => RenderedEndpointMeans(checker, scope, ask);
    case DeclaredTypeOfSymbol(_) => SymbolEndpointMeans(checker, scope, ask);
    case AliasedSymbol(_) => SymbolEndpointMeans(checker, scope, ask);
    case ImmediateAliasedSymbol(_) => SymbolEndpointMeans(checker, scope, ask);
    case ExportsOfModule(_) => SymbolEndpointMeans(checker, scope, ask);
    case _ =>
  }

  /** The answer handed back for `x` is the one its own position or symbol gets. */
  lemma MemberAnswer<T(!new)>(members: seq<T>, elements: seq<Json>, x: T)
    requires x in members && |elements| == |members|
    ensures exists i :: 0 <= i < |members| && members[i] == x && AnswerFor(members, elements, x) == Nullish(elements[i])
  {
    var i := IndexOf(members, x);
    assert members[i] == x;
  }

  ghost predicate Among<T(!new)>(wanted: seq<T>, members: seq<T>) {
    forall x :: x in wanted ==> x in members
  }

  /** A pointwise answer to the members of a group gives each waiting query what it asked for. */
  lemma PickedPointwise<T(!new)>(members: seq<T>, elements: seq<Json>, wanted: seq<T>, answer: T -> Json)
    requires |elements| == |members| && forall i :: 0 <= i < |members| ==> elements[i] == answer(members[i])
    requires Among(wanted, members)
    ensures wanted != [] ==> Picked(members, elements, wanted, true) == Nullish(answer(wanted[0]))
    ensures Picked(members, elements, wanted, false)
            == Arr(seq(|wanted|, i requires 0 <= i < |wanted| => Nullish(answer(wanted[i]))))
  {
    hide AnswerFor, Nullish;
    forall i | 0 <= i < |wanted|
      ensures AnswerFor(members, elements, wanted[i]) == Nullish(answer(wanted[i]))
    {
      assert wanted[i] in wanted;
      MemberAnswer(members, elements, wanted[i]);
    }
  }

  lemma WantedIsMember<T(!new)>(queries: seq<Query>, group: Group<T>, indices: seq<nat>, wants: Ask -> seq<T>, j: nat)
    requires GroupServes(queries, group, indices, wants) && j in indices
    ensures j < |queries| && Among(wants(queries[j].ask), group.members)
  {
    var i :| 0 <= i < |indices| && indices[i] == j;
    assert group.routes[i].wanted == wants(queries[j].ask);
  }

  lemma DirectAnswer(checker: Oracle, scope: Scope, query: Query, method_: string, fields: Fields)
    requires OwnerOf(scope, query.ask) == Directly(method_, fields)
    ensures var request := Request(method_, DirectParams(fields));
            Answer(query, request, Serve(checker, scope, request))
            == Answered(query.key, Kind(query.ask), Meaning(checker, query.ask))
  {
    hide OwnerOf, Endpoint, Kind, Meaning, TextField, ArrayOf, Nullish;
    EndpointAnswers(checker, scope, query.ask, method_, fields);
  }

  lemma TypesAnswer(checker: Oracle, scope: Scope, query: Query, file: string, members: seq<int>)
    requires OwnerOf(scope, query.ask) == InTypes(file) && Among(PositionsOf(query.ask), members)
    ensures var request := Request("getTypesAtPositions", PositionParams(scope, file, members));
            Answer(query, request, Serve(checker, scope, request))
            == Answered(query.key, Kind(query.ask), Meaning(checker, query.ask))
  {
    hide Scoped, Kind, Picked;
    var answer: int -> Json := position => checker.typeAt(file, position);
    var elements := seq(|members|, i requires 0 <= i < |members| => checker.typeAt(file, members[i]));
    assert forall i :: 0 <= i < |members| ==> elements[i] == answer(members[i]);
    PickedPointwise(members, elements, PositionsOf(query.ask), answer);
  }

  lemma SymbolsAnswer(checker: Oracle, scope: Scope, query: Query, file: string, members: seq<int>)
    requires OwnerOf(scope, query.ask) == InSymbols(file) && Among(PositionsOf(query.ask), members)
    ensures var request := Request("getSymbolsAtPositions", PositionParams(scope, file, members));
            Answer(query, request, Serve(checker, scope, request))
            == Answered(query.key, Kind(query.ask), Meaning(checker, query.ask))
  {
    hide Scoped, Kind, Picked;
    var answer: int -> Json := position => checker.symbolAt(file, position);
    var elements := seq(|members|, i requires 0 <= i < |members| => checker.symbolAt(file, members[i]));
    assert forall i :: 0 <= i < |members| ==> elements[i] == answer(members[i]);
    PickedPointwise(members, elements, PositionsOf(query.ask), answer);
  }

  lemma SymbolTypesAnswer(checker: Oracle, scope: Scope, query: Query, members: seq<string>)
    requires OwnerOf(scope, query.ask) == InSymbolTypes && Among(SymbolsOf(query.ask), members)
    ensures var request := Request("getTypesOfSymbols", SymbolParams(scope, members));
            Answer(query, request, Serve(checker, scope, request))
            == Answered(query.key, Kind(query.ask), Meaning(checker, query.ask))
  {
    hide Scoped, Kind, Picked;
    var elements := seq(|members|, i requires 0 <= i < |members| => checker.typeOf(members[i]));
    PickedPointwise(members, elements, SymbolsOf(query.ask), checker.typeOf);
  }

  /** The server's response to a query's request means the query, however many others share it. */
  lemma SharedAnswer(checker: Oracle, scope: Scope, queries: seq<Query>, owner: Owner, request: Request,
                     routes: seq<Route>, j: nat)
    requires j < |queries| && OwnerOf(scope, queries[j].ask) == owner
    requires Serves(scope, queries, owner, Indices(scope, queries, owner, |queries|), request, routes)
    ensures Answer(queries[j], request, Serve(checker, scope, request))
            == Answered(queries[j].key, Kind(queries[j].ask), Meaning(checker, queries[j].ask))
  {
    hide Indices, Scoped, Kind, GroupServes, Picked, Meaning, Serve;
    var indices := Indices(scope, queries, owner, |queries|);
    var ask := queries[j].ask;
    IndicesAre(scope, queries, owner, |queries|);
    match owner
    case Directly(method_, fields) => DirectAnswer(checker, scope, queries[j], method_, fields);
    case InTypes(file) =>
      var group: Group<int> :| GroupServes(queries, group, indices, PositionsOf)
                               && request == Request("getTypesAtPositions", PositionParams(scope, file, group.members));
      WantedIsMember(queries, group, indices, PositionsOf, j);
      TypesAnswer(checker, scope, queries[j], file, group.members);
    case InSymbols(file) =>
      var group: Group<int> :| GroupServes(queries, group, indices, PositionsOf)
                               && request == Request("getSymbolsAtPositions",
                                                     PositionParams(scope, file, group.members));
      WantedIsMember(queries, group, indices, PositionsOf, j);
      SymbolsAnswer(checker, scope, queries[j], file, group.members);
    case InSymbolTypes =>
      var group: Group<string> :| GroupServes(queries, group, indices, SymbolsOf)
                               && request == Request("getTypesOfSymbols", SymbolParams(scope, group.members));
      WantedIsMember(queries, group, indices, SymbolsOf, j);
      SymbolTypesAnswer(checker, scope, queries[j], group.members);
  }

  // ---- the whole call ----

  /** What one query gets from the responses: nothing but its own request's response matters. */
  function ItemFor(scope: Scope, query: Query, owners: seq<Owner>, requests: seq<Request>,
                   responses: seq<Response>): Item
    requires |owners| == |requests|
  {
    var owner := OwnerOf(scope, query.ask);
    if owner == Locally then LocalItem(query)
    else
      var r := IndexOf(owners, owner);
      if r < |owners| && r < |responses| then Answer(query, requests[r], responses[r]) else Fallback(query)
  }

  lemma ItemIsFor(scope: Scope, query: Query, owners: seq<Owner>, requests: seq<Request>, responses: seq<Response>,
                  item: Item)
    requires |owners| == |requests| && NoDuplicates(owners)
    requires OwnerOf(scope, query.ask) == Locally || OwnerOf(scope, query.ask) in owners
    requires ItemIs(scope, query, owners, requests, responses, item)
    ensures item == ItemFor(scope, query, owners, requests, responses)
  {
    hide OwnerOf, Answer;
  }

  /** Failure confinement: the queries that do not belong to request `r` get the same item whatever
      response `r` was; those that do get what that response alone makes of them. */
  lemma FailureIsConfined(scope: Scope, queries: seq<Query>, owners: seq<Owner>, requests: seq<Request>,
                          routes: seq<seq<Route>>, responses: seq<Response>, r: nat, other: Response, j: nat)
    requires Planned(scope, queries, owners, requests, routes) && |responses| == |requests|
    requires r < |requests| && j < |queries|
    ensures var changed := ItemFor(scope, queries[j], owners, requests, responses[r := other]);
            if OwnerOf(scope, queries[j].ask) == owners[r] then changed == Answer(queries[j], requests[r], other)
            else changed == ItemFor(scope, queries[j], owners, requests, responses)
  {
    hide OwnerOf, Serves, Answer, Indices;
    OwnersAreNotLocal(scope, queries, owners, requests, routes);
    IndexOfUnique(owners, r);
  }

  /** With one response per request nobody falls back: a query is local or has exactly one request. */
  lemma FallbackIsUnreachable(scope: Scope, queries: seq<Query>, owners: seq<Owner>, requests: seq<Request>,
                              routes: seq<seq<Route>>, responses: seq<Response>, j: nat)
    requires Planned(scope, queries, owners, requests, routes) && |responses| == |requests| && j < |queries|
    ensures var owner := OwnerOf(scope, queries[j].ask);
            var item := ItemFor(scope, queries[j], owners, requests, responses);
            (owner == Locally && owner !in owners && item == LocalItem(queries[j]))
            || exists r :: 0 <= r < |owners| && owners[r] == owner
                 && item == Answer(queries[j], requests[r], responses[r])
                           && forall q :: 0 <= q < |owners| && owners[q] == owner ==> q == r
  {
    hide OwnerOf, Serves, Answer, Indices;
    OwnersAreNotLocal(scope, queries, owners, requests, routes);
    var owner := OwnerOf(scope, queries[j].ask);
    if owner != Locally {
      var r := IndexOf(owners, owner);
      assert owners[r] == owner;
    }
  }

  lemma LocalMeans(checker: Oracle, scope: Scope, ask: Ask)
    requires OwnerOf(scope, ask) == Locally
    ensures Meaning(checker, ask) == Arr([])
  {
    hide Scoped;
  }

  /** Batching preserves meaning, for one query of a plan whose requests the server answered. */
  lemma PlanMeans(checker: Oracle, scope: Scope, queries: seq<Query>, owners: seq<Owner>, requests: seq<Request>,
                  routes: seq<seq<Route>>, j: nat)
    requires Planned(scope, queries, owners, requests, routes) && j < |queries|
    ensures ItemFor(scope, queries[j], owners, requests, ServeAll(checker, scope, requests))
            == Answered(queries[j].key, Kind(queries[j].ask), Meaning(checker, queries[j].ask))
  {
    hide Serves, Answer, Indices, Kind, Meaning, Serve, OwnerOf;
    var owner := OwnerOf(scope, queries[j].ask);
    if owner == Locally {
      LocalMeans(checker, scope, queries[j].ask);
    } else {
      var r := IndexOf(owners, owner);
      SharedAnswer(checker, scope, queries, owner, requests[r], routes[r], j);
    }
  }

  /** What `resolveCheckerBatch` returns, given the plan it made. */
  ghost predicate Resolved(callJson: Transport, scope: Scope, queries: seq<Query>, owners: seq<Owner>,
                           requests: seq<Request>, result: Result<seq<Item>, BatchError>)
    requires |owners| == |requests|
  {
    match BatchCheckerRequests(callJson, requests)
    case Err(error) => result == Err(error)
    case Ok(responses) =>
      |responses| == |requests| && result.Ok? && |result.value| == |queries|
      && forall j :: 0 <= j < |queries| ==> result.value[j] == ItemFor(scope, queries[j], owners, requests, responses)
  }

  lemma OneResponseEach(callJson: Transport, requests: seq<Request>)
    ensures BatchCheckerRequests(callJson, requests).Ok? ==>
              |BatchCheckerRequests(callJson, requests).value| == |requests|
  {
    hide NormalizeCheckerBatchResponses;
    if requests != [] && callJson(requests).Ok? {
      AcceptedExactly(callJson(requests).value, |requests|);
    }
  }

  function Meanings(checker: Oracle, queries: seq<Query>): seq<Item> {
    seq(|queries|, j requires 0 <= j < |queries| =>
      Answered(queries[j].key, Kind(queries[j].ask), Meaning(checker, queries[j].ask)))
  }

  /** With an honest transport every query of any list gets the answer it would get by itself. */
  lemma BatchingPreservesMeaning(checker: Oracle, callJson: Transport, scope: Scope, queries: seq<Query>,
                                 owners: seq<Owner>, requests: seq<Request>, routes: seq<seq<Route>>,
                                 result: Result<seq<Item>, BatchError>)
    requires Honest(callJson, checker, scope) && Planned(scope, queries, owners, requests, routes)
    requires Resolved(callJson, scope, queries, owners, requests, result)
    ensures result == Ok(Meanings(checker, queries))
  {
    hide ItemFor, Meaning, Kind, Planned, BatchCheckerRequests;
    HonestBatch(callJson, checker, scope, requests);
    forall j | 0 <= j < |queries|
      ensures result.value[j] == Answered(queries[j].key, Kind(queries[j].ask), Meaning(checker, queries[j].ask))
    {
      PlanMeans(checker, scope, queries, owners, requests, routes, j);
    }
    assert result.value == Meanings(checker, queries);
  }

  lemma ItemsAre(scope: Scope, queries: seq<Query>, owners: seq<Owner>, requests: seq<Request>, routes: seq<seq<Route>>,
                 responses: seq<Response>, items: seq<Item>)
    requires Planned(scope, queries, owners, requests, routes) && |items| == |queries|
    requires forall j :: 0 <= j < |queries| ==> ItemIs(scope, queries[j], owners, requests, responses, items[j])
    ensures forall j :: 0 <= j < |queries| ==> items[j] == ItemFor(scope, queries[j], owners, requests, responses)
  {
    hide OwnerOf, Serves, Indices, ItemIs, ItemFor;
    forall j | 0 <= j < |queries|
      ensures items[j] == ItemFor(scope, queries[j], owners, requests, responses)
    {
      ItemIsFor(scope, queries[j], owners, requests, responses, items[j]);
    }
  }

  /** `resolveCheckerBatch`, against any transport; `checker` is whatever the transport may be honest about. */
  method ResolveCheckerBatch(callJson: Transport, scope: Scope, queries: seq<Query>, ghost checker: Oracle)
    returns (result: Result<seq<Item>, BatchError>, ghost owners: seq<Owner>, ghost requests: seq<Request>,
             ghost routes: seq<seq<Route>>)
    ensures Planned(scope, queries, owners, requests, routes)
    ensures Resolved(callJson, scope, queries, owners, requests, result)
    ensures Honest(callJson, checker, scope) ==> result == Ok(Meanings(checker, queries))
  {
    hide Planner.Sorted, OwnerOf, Serves, ItemFor, LocalsOk, Meanings, NormalizeCheckerBatchResponses, ItemIs, Honest,
         Indices;
    var plan := new Planner(scope, queries);
    plan.PlanCheckerBatch();
    owners, requests, routes := plan.owners, plan.requests, plan.requestRoutes;
    OneResponseEach(callJson, requests);
    var items;
    if plan.requests == [] {
      items := plan.Resolve([]);
      result := Ok(items);
      ItemsAre(scope, queries, owners, requests, routes, [], items);
    } else {
      match BatchCheckerRequests(callJson, plan.requests) {
        case Err(error) => result := Err(error);
        case Ok(responses) =>
          items := plan.Resolve(responses);
          result := Ok(items);
          ItemsAre(scope, queries, owners, requests, routes, responses, items);
      }
    }
    if Honest(callJson, checker, scope) {
      BatchingPreservesMeaning(checker, callJson, scope, queries, owners, requests, routes, result);
    }
  }
}
