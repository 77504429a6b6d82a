/** The mutable planner: building the plan query by query, flushing the groups, and resolving it. */
module BatchPlan {
  import opened Options
  import opened RequestKey
  import opened Checker
  import opened BatchGroups
  import opened Orchestrator

  // ---- what holds after the first `n` queries ----

  ghost predicate LocalsOk(scope: Scope, queries: seq<Query>, results: Results, n: nat) {
    |results| == |queries|
    && forall j :: 0 <= j < |queries| ==>
         results[j] == if j < n && OwnerOf(scope, queries[j].ask) == Locally then Some(LocalItem(queries[j])) else None
  }

  function OwnerKey(owner: Owner): string
    requires owner.Directly?
  {
    Key(owner.method_, owner.fields)
  }

  ghost predicate SeveralServed(scope: Scope, queries: seq<Query>, owners: seq<Owner>, requests: seq<Request>,
                                routes: seq<seq<Route>>, n: nat) {
    && n <= |queries| && |owners| == |requests| == |routes| && NoDuplicates(owners)
    && forall r :: 0 <= r < |owners| ==>
         Indices(scope, queries, owners[r], n) != []
         && Serves(scope, queries, owners[r], Indices(scope, queries, owners[r], n), requests[r], routes[r])
  }

  ghost predicate IndexOk(owners: seq<Owner>, indexes: map<string, nat>) {
    && (forall r :: 0 <= r < |owners| ==> owners[r].Directly? && '\0' !in owners[r].method_)
    && (forall r :: 0 <= r < |owners| ==> OwnerKey(owners[r]) in indexes && indexes[OwnerKey(owners[r])] == r)
    && (forall key :: key in indexes ==> indexes[key] < |owners| && OwnerKey(owners[indexes[key]]) == key)
  }

  ghost predicate DirectsCovered(scope: Scope, queries: seq<Query>, owners: seq<Owner>, n: nat) {
    forall j :: 0 <= j < n <= |queries| && OwnerOf(scope, queries[j].ask).Directly? ==>
      OwnerOf(scope, queries[j].ask) in owners
  }

  function PositionOwner(symbols: bool, file: string): Owner {
    if symbols then InSymbols(file) else InTypes(file)
  }

  /** The first of the queries that belongs to the file's group, `n` if none does. */
  ghost function FirstUse(scope: Scope, queries: seq<Query>, symbols: bool, file: string, n: nat): (first: nat)
    requires n <= |queries|
    ensures first <= n
  {
    var indices := Indices(scope, queries, PositionOwner(symbols, file), n);
    if indices == [] then n else indices[0]
  }

  /** The files stand in the order in which the queries first name them. */
  ghost predicate InOrderOfUse(scope: Scope, queries: seq<Query>, symbols: bool, order: seq<string>, n: nat)
    requires n <= |queries|
  {
    forall a, b :: 0 <= a < b < |order| ==>
      FirstUse(scope, queries, symbols, order[a], n) < FirstUse(scope, queries, symbols, order[b], n)
  }

  /** Every group serves the queries of its file. */
  ghost predicate EachServes(scope: Scope, queries: seq<Query>, symbols: bool, groups: map<string, Group<int>>, n: nat)
    requires n <= |queries|
  {
    forall file :: file in groups ==>
      Indices(scope, queries, PositionOwner(symbols, file), n) != []
      && GroupServes(queries, groups[file], Indices(scope, queries, PositionOwner(symbols, file), n), PositionsOf)
  }

  ghost predicate EachHasGroup(scope: Scope, queries: seq<Query>, symbols: bool, groups: map<string, Group<int>>,
                               n: nat)
    requires n <= |queries|
  {
    forall j, file :: 0 <= j < n && OwnerOf(scope, queries[j].ask) == PositionOwner(symbols, file) ==> file in groups
  }

  ghost predicate GroupsOk(scope: Scope, queries: seq<Query>, symbols: bool, order: seq<string>,
                           groups: map<string, Group<int>>, n: nat) {
    && n <= |queries| && NoDuplicates(order) && (forall file :: file in groups <==> file in order)
    && InOrderOfUse(scope, queries, symbols, order, n)
    && EachServes(scope, queries, symbols, groups, n)
    && EachHasGroup(scope, queries, symbols, groups, n)
  }

  ghost predicate SymbolTypesOk(scope: Scope, queries: seq<Query>, group: Group<string>, n: nat) {
    && n <= |queries|
    && GroupServes(queries, group, Indices(scope, queries, InSymbolTypes, n), SymbolsOf)
    && (group.members == [] <==> Indices(scope, queries, InSymbolTypes, n) == [])
  }

  // ---- one more query, for the parts it does not touch ----

  lemma HasMember(indices: seq<nat>)
    ensures indices == [] || exists j: nat :: j in indices
  {
    if indices != [] {
      assert indices[0] in indices;
    }
  }

  lemma IndicesStep(scope: Scope, queries: seq<Query>, owner: Owner, n: nat)
    requires n < |queries|
    ensures Indices(scope, queries, owner, n + 1)
            == if OwnerOf(scope, queries[n].ask) == owner then Indices(scope, queries, owner, n) + [n]
               else Indices(scope, queries, owner, n)
  {
  }

  lemma OthersServed(scope: Scope, queries: seq<Query>, owners: seq<Owner>, requests: seq<Request>,
                     routes: seq<seq<Route>>, n: nat)
    requires n < |queries| && SeveralServed(scope, queries, owners, requests, routes, n)
    requires OwnerOf(scope, queries[n].ask) !in owners
    ensures SeveralServed(scope, queries, owners, requests, routes, n + 1)
  {
    hide Serves, OwnerOf;
    forall r | 0 <= r < |owners|
      ensures Indices(scope, queries, owners[r], n + 1) == Indices(scope, queries, owners[r], n)
    {
      assert owners[r] in owners;
      IndicesStep(scope, queries, owners[r], n);
    }
  }

  lemma FirstUseStep(scope: Scope, queries: seq<Query>, symbols: bool, file: string, n: nat)
    requires n < |queries|
    ensures FirstUse(scope, queries, symbols, file, n + 1)
            == if Indices(scope, queries, PositionOwner(symbols, file), n) != []
               then FirstUse(scope, queries, symbols, file, n)
               else if OwnerOf(scope, queries[n].ask) == PositionOwner(symbols, file) then n else n + 1
  {
    hide OwnerOf;
    IndicesStep(scope, queries, PositionOwner(symbols, file), n);
  }

  lemma FirstUseIsUsed(scope: Scope, queries: seq<Query>, symbols: bool, file: string, n: nat)
    requires n <= |queries| && Indices(scope, queries, PositionOwner(symbols, file), n) != []
    ensures FirstUse(scope, queries, symbols, file, n) < n
  {
    hide OwnerOf;
  }

  /** One more query keeps the order. */
  lemma OrderStays(scope: Scope, queries: seq<Query>, symbols: bool, order: seq<string>, n: nat)
    requires n < |queries| && InOrderOfUse(scope, queries, symbols, order, n)
    requires forall a :: 0 <= a < |order| ==> Indices(scope, queries, PositionOwner(symbols, order[a]), n) != []
    ensures InOrderOfUse(scope, queries, symbols, order, n + 1)
    ensures forall a :: 0 <= a < |order| ==> FirstUse(scope, queries, symbols, order[a], n + 1) < n
  {
    hide OwnerOf, Indices, FirstUse;
    forall a | 0 <= a < |order|
      ensures FirstUse(scope, queries, symbols, order[a], n + 1) == FirstUse(scope, queries, symbols, order[a], n)
      ensures FirstUse(scope, queries, symbols, order[a], n) < n
    {
      FirstUseStep(scope, queries, symbols, order[a], n);
      FirstUseIsUsed(scope, queries, symbols, order[a], n);
    }
  }

  lemma GroupsHaveQueries(scope: Scope, queries: seq<Query>, symbols: bool, order: seq<string>,
                          groups: map<string, Group<int>>, n: nat)
    requires GroupsOk(scope, queries, symbols, order, groups, n)
    ensures forall a :: 0 <= a < |order| ==> Indices(scope, queries, PositionOwner(symbols, order[a]), n) != []
  {
    hide OwnerOf, GroupServes, Indices, InOrderOfUse;
    forall a | 0 <= a < |order|
      ensures order[a] in groups
    {
    }
  }

  lemma OtherGroups(scope: Scope, queries: seq<Query>, symbols: bool, order: seq<string>,
                    groups: map<string, Group<int>>, n: nat)
    requires n < |queries| && GroupsOk(scope, queries, symbols, order, groups, n)
    requires forall file :: OwnerOf(scope, queries[n].ask) != PositionOwner(symbols, file)
    ensures GroupsOk(scope, queries, symbols, order, groups, n + 1)
  {
    hide GroupServes, OwnerOf, Indices, InOrderOfUse;
    GroupsHaveQueries(scope, queries, symbols, order, groups, n);
    OrderStays(scope, queries, symbols, order, n);
    forall file
      ensures Indices(scope, queries, PositionOwner(symbols, file), n + 1)
              == Indices(scope, queries, PositionOwner(symbols, file), n)
    {
      IndicesStep(scope, queries, PositionOwner(symbols, file), n);
    }
  }

  /** A file the query is the first to name goes to the end. */
  lemma OrderGrows(scope: Scope, queries: seq<Query>, symbols: bool, order: seq<string>, n: nat, file: string)
    requires n < |queries| && InOrderOfUse(scope, queries, symbols, order, n)
    requires forall a :: 0 <= a < |order| ==> Indices(scope, queries, PositionOwner(symbols, order[a]), n) != []
    requires OwnerOf(scope, queries[n].ask) == PositionOwner(symbols, file)
    requires Indices(scope, queries, PositionOwner(symbols, file), n) == []
    ensures InOrderOfUse(scope, queries, symbols, order + [file], n + 1)
  {
    hide OwnerOf, Indices, FirstUse;
    OrderStays(scope, queries, symbols, order, n);
    FirstUseStep(scope, queries, symbols, file, n);
  }

  // ---- direct requests ----

  /** No method name holds the character that separates it from the parameters in a key. */
  lemma MethodsArePlain()
    ensures '\0' !in "getSymbolOfType" && '\0' !in "getDeclaredTypeOfSymbol" && '\0' !in "getAliasedSymbol"
    ensures '\0' !in "getImmediateAliasedSymbol" && '\0' !in "getExportsOfModule"
  {
  }

  lemma OtherMethodsArePlain()
    ensures '\0' !in "getPropertyOfType" && '\0' !in "getTypeArguments" && '\0' !in "getConstraintOfType"
    ensures '\0' !in "isTypeAssignableTo" && '\0' !in "typeToString"
  {
  }

  lemma DirectOwnersArePlain(scope: Scope, ask: Ask)
    ensures OwnerOf(scope, ask).Directly? ==> '\0' !in OwnerOf(scope, ask).method_
  {
    hide Scoped;
    MethodsArePlain();
    OtherMethodsArePlain();
  }

  /** The key finds the request of the same owner, and nothing else. */
  lemma KeyFindsOwner(owners: seq<Owner>, indexes: map<string, nat>, owner: Owner)
    requires IndexOk(owners, indexes) && owner.Directly? && '\0' !in owner.method_
    ensures OwnerKey(owner) in indexes <==> owner in owners
    ensures OwnerKey(owner) in indexes ==>
              indexes[OwnerKey(owner)] < |owners| && owners[indexes[OwnerKey(owner)]] == owner
  {
    hide Key;
    if OwnerKey(owner) in indexes {
      var found := owners[indexes[OwnerKey(owner)]];
      KeyDeterminesRequest(owner.method_, owner.fields, found.method_, found.fields);
    }
    if owner in owners {
      var r :| 0 <= r < |owners| && owners[r] == owner;
    }
  }

  lemma RouteAdded(scope: Scope, queries: seq<Query>, owner: Owner, n: nat, request: Request, routes: seq<Route>)
    requires n < |queries| && OwnerOf(scope, queries[n].ask) == owner && owner.Directly?
    requires if Indices(scope, queries, owner, n) == []
             then request == Request(owner.method_, DirectParams(owner.fields)) && routes == []
             else Serves(scope, queries, owner, Indices(scope, queries, owner, n), request, routes)
    ensures Indices(scope, queries, owner, n + 1) != []
    ensures Serves(scope, queries, owner, Indices(scope, queries, owner, n + 1), request,
                   routes + [DirectRoute(queries[n], n, WantsArray(queries[n].ask))])
  {
    hide OwnerOf, Indices;
    IndicesStep(scope, queries, owner, n);
  }

  lemma NotYetOwned(scope: Scope, queries: seq<Query>, owners: seq<Owner>, owner: Owner, n: nat)
    requires n <= |queries| && DirectsCovered(scope, queries, owners, n) && owner.Directly? && owner !in owners
    ensures Indices(scope, queries, owner, n) == []
  {
    hide OwnerOf;
    IndicesAre(scope, queries, owner, n);
    HasMember(Indices(scope, queries, owner, n));
  }

  lemma OwnersStay(scope: Scope, queries: seq<Query>, owners: seq<Owner>, n: nat, r: nat)
    requires n < |queries| && r < |owners| && owners[r] != OwnerOf(scope, queries[n].ask)
    ensures Indices(scope, queries, owners[r], n + 1) == Indices(scope, queries, owners[r], n)
  {
    IndicesStep(scope, queries, owners[r], n);
  }

  /** Another query shares the request of owner `at`. */
  lemma ShareRequest(scope: Scope, queries: seq<Query>, owners: seq<Owner>, requests: seq<Request>,
                     routes: seq<seq<Route>>, n: nat, at: nat)
    requires n < |queries| && SeveralServed(scope, queries, owners, requests, routes, n)
    requires at < |owners| && owners[at] == OwnerOf(scope, queries[n].ask) && owners[at].Directly?
    ensures SeveralServed(scope, queries, owners, requests,
                          routes[at := routes[at] + [DirectRoute(queries[n], n, WantsArray(queries[n].ask))]], n + 1)
  {
    hide Serves, OwnerOf;
    RouteAdded(scope, queries, owners[at], n, requests[at], routes[at]);
    forall r | 0 <= r < |owners| && r != at
      ensures Indices(scope, queries, owners[r], n + 1) == Indices(scope, queries, owners[r], n)
    {
      OwnersStay(scope, queries, owners, n, r);
    }
  }

  lemma AppendServed(scope: Scope, queries: seq<Query>, owners: seq<Owner>, requests: seq<Request>,
                     routes: seq<seq<Route>>, n: nat, owner: Owner, request: Request, added: seq<Route>)
    requires SeveralServed(scope, queries, owners, requests, routes, n) && owner !in owners
    requires Indices(scope, queries, owner, n) != []
    requires Serves(scope, queries, owner, Indices(scope, queries, owner, n), request, added)
    ensures SeveralServed(scope, queries, owners + [owner], requests + [request], routes + [added], n)
  {
    hide Serves, OwnerOf;
  }

  lemma NewRequest(scope: Scope, queries: seq<Query>, owners: seq<Owner>, requests: seq<Request>,
                   routes: seq<seq<Route>>, n: nat, owner: Owner, request: Request, route: Route)
    requires n < |queries| && SeveralServed(scope, queries, owners, requests, routes, n)
    requires DirectsCovered(scope, queries, owners, n) && owner.Directly? && owner !in owners
    requires owner == OwnerOf(scope, queries[n].ask) && request == Request(owner.method_, DirectParams(owner.fields))
    requires route == DirectRoute(queries[n], n, WantsArray(queries[n].ask))
    ensures SeveralServed(scope, queries, owners + [owner], requests + [request], routes + [[route]], n + 1)
  {
    hide OwnerOf, Serves, SeveralServed, DirectsCovered, Indices;
    NotYetOwned(scope, queries, owners, owner, n);
    OthersServed(scope, queries, owners, requests, routes, n);
    RouteAdded(scope, queries, owner, n, request, []);
    assert [] + [route] == [route];
    AppendServed(scope, queries, owners, requests, routes, n + 1, owner, request, [route]);
  }

  lemma CoverageStays(scope: Scope, queries: seq<Query>, owners: seq<Owner>, more: seq<Owner>, n: nat)
    requires n < |queries| && DirectsCovered(scope, queries, owners, n)
    requires owners <= more && OwnerOf(scope, queries[n].ask) in more
    ensures DirectsCovered(scope, queries, more, n + 1)
  {
    hide OwnerOf;
  }

  // ---- group queries ----

  lemma GroupGrows<T(!new)>(scope: Scope, queries: seq<Query>, owner: Owner, n: nat, group: Group<T>, grown: Group<T>,
                            wants: Ask -> seq<T>)
    requires n < |queries| && OwnerOf(scope, queries[n].ask) == owner
    requires GroupServes(queries, group, Indices(scope, queries, owner, n), wants) && WellFormed(grown)
    requires grown.routes == group.routes + [GroupRoute(queries[n], n, wants(queries[n].ask), IsSingle(queries[n].ask))]
    ensures GroupServes(queries, grown, Indices(scope, queries, owner, n + 1), wants)
    ensures Indices(scope, queries, owner, n + 1) != []
  {
    hide OwnerOf, WellFormed;
    IndicesStep(scope, queries, owner, n);
  }

  lemma EmptyServes<T(!new)>(queries: seq<Query>, wants: Ask -> seq<T>)
    ensures GroupServes(queries, EmptyGroup<T>(), [], wants)
  {
  }

  lemma NoGroupYet(scope: Scope, queries: seq<Query>, symbols: bool, order: seq<string>,
                   groups: map<string, Group<int>>, n: nat, file: string)
    requires GroupsOk(scope, queries, symbols, order, groups, n) && file !in groups
    ensures Indices(scope, queries, PositionOwner(symbols, file), n) == []
  {
    hide OwnerOf, GroupServes;
    var owner := PositionOwner(symbols, file);
    IndicesAre(scope, queries, owner, n);
    HasMember(Indices(scope, queries, owner, n));
  }

  lemma GrownServes(scope: Scope, queries: seq<Query>, symbols: bool, groups: map<string, Group<int>>, n: nat,
                    file: string, grown: Group<int>)
    requires n < |queries| && EachServes(scope, queries, symbols, groups, n)
    requires OwnerOf(scope, queries[n].ask) == PositionOwner(symbols, file)
    requires GroupServes(queries, grown, Indices(scope, queries, PositionOwner(symbols, file), n + 1), PositionsOf)
    requires Indices(scope, queries, PositionOwner(symbols, file), n + 1) != []
    ensures EachServes(scope, queries, symbols, groups[file := grown], n + 1)
  {
    hide OwnerOf, GroupServes, Indices;
    forall other | other in groups && other != file
      ensures Indices(scope, queries, PositionOwner(symbols, other), n + 1)
              == Indices(scope, queries, PositionOwner(symbols, other), n)
    {
      IndicesStep(scope, queries, PositionOwner(symbols, other), n);
    }
  }

  lemma GrownHasGroup(scope: Scope, queries: seq<Query>, symbols: bool, groups: map<string, Group<int>>, n: nat,
                      file: string, grown: Group<int>)
    requires n < |queries| && EachHasGroup(scope, queries, symbols, groups, n)
    requires OwnerOf(scope, queries[n].ask) == PositionOwner(symbols, file)
    ensures EachHasGroup(scope, queries, symbols, groups[file := grown], n + 1)
  {
    hide OwnerOf;
  }

  lemma FileGroupGrows(scope: Scope, queries: seq<Query>, symbols: bool, order: seq<string>,
                       groups: map<string, Group<int>>, n: nat, file: string, order': seq<string>, grown: Group<int>)
    requires n < |queries| && GroupsOk(scope, queries, symbols, order, groups, n)
    requires OwnerOf(scope, queries[n].ask) == PositionOwner(symbols, file)
    requires order' == if file in groups then order else order + [file]
    requires GroupServes(queries, grown, Indices(scope, queries, PositionOwner(symbols, file), n + 1), PositionsOf)
    requires Indices(scope, queries, PositionOwner(symbols, file), n + 1) != []
    ensures GroupsOk(scope, queries, symbols, order', groups[file := grown], n + 1)
  {
    hide OwnerOf, GroupServes, InOrderOfUse, Indices, EachServes, EachHasGroup;
    GroupsHaveQueries(scope, queries, symbols, order, groups, n);
    if file in groups {
      OrderStays(scope, queries, symbols, order, n);
    } else {
      NoGroupYet(scope, queries, symbols, order, groups, n, file);
      OrderGrows(scope, queries, symbols, order, n, file);
    }
    GrownServes(scope, queries, symbols, groups, n, file, grown);
    GrownHasGroup(scope, queries, symbols, groups, n, file, grown);
  }

  lemma GroupsAre(scope: Scope, queries: seq<Query>, symbols: bool, order: seq<string>, groups: map<string, Group<int>>,
                  n: nat)
    requires GroupsOk(scope, queries, symbols, order, groups, n)
    ensures forall file :: file in groups ==>
              GroupServes(queries, groups[file], Indices(scope, queries, PositionOwner(symbols, file), n), PositionsOf)
              && WellFormed(groups[file])
  {
    hide OwnerOf, Indices;
  }

  /** `addPositionBatchQuery`: the query joins the group of its file, made if need be; no other group
      changes, and a new file goes to the end. */
  method AddPositionBatchQuery(ghost scope: Scope, ghost queries: seq<Query>, ghost symbols: bool, order: seq<string>,
                               groups: map<string, Group<int>>, query: Query, queryIndex: nat, file: string,
                               positions: seq<int>, single: bool)
    returns (order': seq<string>, groups': map<string, Group<int>>)
    requires queryIndex < |queries| && GroupsOk(scope, queries, symbols, order, groups, queryIndex)
    requires query == queries[queryIndex] && OwnerOf(scope, query.ask) == PositionOwner(symbols, file)
    requires positions == PositionsOf(query.ask) && single == IsSingle(query.ask)
    ensures GroupsOk(scope, queries, symbols, order', groups', queryIndex + 1)
    ensures order' == (if file in groups then order else order + [file])
    ensures groups'.Keys == groups.Keys + {file} && forall other :: other in groups && other != file ==>
                                                      groups'[other] == groups[other]
    ensures file in groups ==> groups[file].routes <= groups'[file].routes
  {
    hide OwnerOf, WellFormed, GroupsOk, GroupServes, IsSingle, PositionsOf, Indices;
    GroupsAre(scope, queries, symbols, order, groups, queryIndex);
    order', groups' := order, groups;
    if file !in groups {
      NoGroupYet(scope, queries, symbols, order, groups, queryIndex, file);
      EmptyServes(queries, PositionsOf);
      groups' := groups'[file := EmptyGroup()];
      order' := order' + [file];
    }
    var grown := AddToGroup(groups'[file], query, queryIndex, positions, single);
    GroupGrows(scope, queries, PositionOwner(symbols, file), queryIndex, groups'[file], grown, PositionsOf);
    FileGroupGrows(scope, queries, symbols, order, groups, queryIndex, file, order', grown);
    assert groups'[file := grown] == groups[file := grown];
    groups' := groups'[file := grown];
  }

  function PositionOwners(symbols: bool, order: seq<string>): (owners: seq<Owner>)
    ensures |owners| == |order| && forall i :: 0 <= i < |order| ==> owners[i] == PositionOwner(symbols, order[i])
  {
    seq(|order|, i requires 0 <= i < |order| => PositionOwner(symbols, order[i]))
  }

  lemma FileNotFlushed(symbols: bool, order: seq<string>, i: nat, before: seq<Owner>)
    requires i < |order| && NoDuplicates(order) && PositionOwner(symbols, order[i]) !in before
    ensures PositionOwner(symbols, order[i]) !in before + PositionOwners(symbols, order[..i])
  {
  }

  function PositionMethod(symbols: bool): string {
    if symbols then "getSymbolsAtPositions" else "getTypesAtPositions"
  }

  lemma PositionsAreServed(scope: Scope, queries: seq<Query>, symbols: bool, file: string, indices: seq<nat>,
                           request: Request, routes: seq<Route>)
    requires ServesPositions(scope, queries, PositionMethod(symbols), file, indices, request, routes)
    ensures Serves(scope, queries, PositionOwner(symbols, file), indices, request, routes)
  {
    hide ServesPositions;
  }

  lemma GroupRequestServes(scope: Scope, queries: seq<Query>, symbols: bool, order: seq<string>,
                           groups: map<string, Group<int>>, file: string, method_: string)
    requires GroupsOk(scope, queries, symbols, order, groups, |queries|) && file in groups
    requires method_ == PositionMethod(symbols)
    ensures var owner := PositionOwner(symbols, file);
            Indices(scope, queries, owner, |queries|) != []
            && Serves(scope, queries, owner, Indices(scope, queries, owner, |queries|),
                      Request(method_, PositionParams(scope, file, groups[file].members)),
                      [PositionsRoute(method_, groups[file].members, groups[file].routes)])
  {
    hide OwnerOf, GroupServes, Indices, NoDuplicates, Serves, PositionMethod;
    var indices := Indices(scope, queries, PositionOwner(symbols, file), |queries|);
    var request := Request(method_, PositionParams(scope, file, groups[file].members));
    var routes := [PositionsRoute(method_, groups[file].members, groups[file].routes)];
    assert ServesPositions(scope, queries, method_, file, indices, request, routes);
    PositionsAreServed(scope, queries, symbols, file, indices, request, routes);
  }

  lemma OrderIsGroups(scope: Scope, queries: seq<Query>, symbols: bool, order: seq<string>,
                      groups: map<string, Group<int>>)
    requires GroupsOk(scope, queries, symbols, order, groups, |queries|)
    ensures NoDuplicates(order) && forall i :: 0 <= i < |order| ==> order[i] in groups
  {
    hide OwnerOf, GroupServes;
  }

  lemma DirectIsOwner(scope: Scope, queries: seq<Query>, owners: seq<Owner>, n: nat, j: nat)
    requires DirectsCovered(scope, queries, owners, n) && j < n <= |queries| && OwnerOf(scope, queries[j].ask).Directly?
    ensures OwnerOf(scope, queries[j].ask) in owners
  {
    hide OwnerOf;
  }

  lemma GroupIsOwner(scope: Scope, queries: seq<Query>, symbols: bool, order: seq<string>,
                     groups: map<string, Group<int>>, j: nat, file: string)
    requires GroupsOk(scope, queries, symbols, order, groups, |queries|) && j < |queries|
    requires OwnerOf(scope, queries[j].ask) == PositionOwner(symbols, file)
    ensures PositionOwner(symbols, file) in PositionOwners(symbols, order)
  {
    hide OwnerOf, GroupServes;
    var i :| 0 <= i < |order| && order[i] == file;
    assert PositionOwners(symbols, order)[i] == PositionOwner(symbols, file);
  }

  // ---- resolving ----

  /** The item of one query: what its own request's response makes of it. */
  ghost predicate ItemIs(scope: Scope, query: Query, owners: seq<Owner>, requests: seq<Request>,
                         responses: seq<Response>, item: Item)
    requires |owners| == |requests|
  {
    && (OwnerOf(scope, query.ask) == Locally ==> item == LocalItem(query))
    && (forall r :: 0 <= r < |owners| && owners[r] == OwnerOf(scope, query.ask) ==>
          item == if r < |responses| then Answer(query, requests[r], responses[r]) else Fallback(query))
  }

  /** The results when the first `n` responses have been delivered. */
  ghost predicate Filled(scope: Scope, queries: seq<Query>, owners: seq<Owner>, requests: seq<Request>,
                         responses: seq<Response>, n: nat, results: Results)
    requires |owners| == |requests| && n <= |responses|
  {
    |results| == |queries|
    && forall j :: 0 <= j < |queries| ==>
         && (OwnerOf(scope, queries[j].ask) == Locally ==> results[j] == Some(LocalItem(queries[j])))
         && (forall r :: 0 <= r < |owners| && owners[r] == OwnerOf(scope, queries[j].ask) ==>
               results[j] == if r < n then Some(Answer(queries[j], requests[r], responses[r])) else None)
  }

  lemma OwnersAreNotLocal(scope: Scope, queries: seq<Query>, owners: seq<Owner>, requests: seq<Request>,
                          routes: seq<seq<Route>>)
    requires Planned(scope, queries, owners, requests, routes)
    ensures Locally !in owners
  {
    hide OwnerOf;
  }

  lemma LocalsFilled(scope: Scope, queries: seq<Query>, owners: seq<Owner>, requests: seq<Request>,
                     responses: seq<Response>, results: Results)
    requires |owners| == |requests| && LocalsOk(scope, queries, results, |queries|)
    requires Locally !in owners
    ensures Filled(scope, queries, owners, requests, responses, 0, results)
  {
    hide OwnerOf;
  }

  lemma DeliveredFills(scope: Scope, queries: seq<Query>, owners: seq<Owner>, requests: seq<Request>,
                       responses: seq<Response>, n: nat, before: Results, results: Results)
    requires |owners| == |requests| && n < |responses| && n < |owners|
    requires NoDuplicates(owners) && owners[n] != Locally
    requires Filled(scope, queries, owners, requests, responses, n, before) && |results| == |queries|
    requires forall j :: 0 <= j < |queries| ==>
               results[j] == if OwnerOf(scope, queries[j].ask) == owners[n]
                             then Some(Answer(queries[j], requests[n], responses[n]))
                             else before[j]
    ensures Filled(scope, queries, owners, requests, responses, n + 1, results)
  {
    hide OwnerOf, Answer;
  }

  lemma BeyondFills(scope: Scope, queries: seq<Query>, owners: seq<Owner>, requests: seq<Request>,
                    responses: seq<Response>, n: nat, results: Results)
    requires |owners| == |requests| <= n < |responses|
    requires Filled(scope, queries, owners, requests, responses, n, results)
    ensures Filled(scope, queries, owners, requests, responses, n + 1, results)
  {
    hide OwnerOf, Answer;
  }

  lemma FilledIs(scope: Scope, queries: seq<Query>, owners: seq<Owner>, requests: seq<Request>,
                 responses: seq<Response>, results: Results, items: seq<Item>)
    requires |owners| == |requests| && Filled(scope, queries, owners, requests, responses, |responses|, results)
    requires |items| == |queries|
    requires forall j :: 0 <= j < |queries| ==>
               items[j] == if results[j].Some? then results[j].value else Fallback(queries[j])
    ensures forall j :: 0 <= j < |queries| ==> ItemIs(scope, queries[j], owners, requests, responses, items[j])
  {
    hide OwnerOf, Answer;
  }

  /** `setResponseResult`. */
  function SetResponseResult(query: Query, response: Response, wantsArray: bool): Item {
    if HasError(response) then Failed(query.key, Kind(query.ask), response.error.value)
    else Answered(query.key, Kind(query.ask), if wantsArray then ArrayOf(response.result) else Nullish(response.result))
  }

  ghost predicate Ascending(indices: seq<nat>) {
    forall i, k :: 0 <= i < k < |indices| ==> indices[i] < indices[k]
  }

  /** The queries `indices` are what `route` of this request writes. */
  ghost predicate RouteServes(queries: seq<Query>, request: Request, indices: seq<nat>, route: Route) {
    match route
    case DirectRoute(query, queryIndex, wantsArray) =>
      request.params.DirectParams? && indices == [queryIndex] && queryIndex < |queries| && query == queries[queryIndex]
      && wantsArray == WantsArray(query.ask)
    case PositionsRoute(method_, positions, routes) =>
      request.method_ == method_ && request.params.PositionParams? && request.params.positions == positions
      && NoDuplicates(positions) && Ascending(indices) && GroupRoutes(queries, routes, indices, PositionsOf)
      && forall i :: 0 <= i < |indices| ==> indices[i] < |queries| && !queries[indices[i]].ask.TypeOfSymbol?
    case SymbolsRoute(symbols, routes) =>
      request.method_ == "getTypesOfSymbols" && request.params.SymbolParams? && request.params.symbols == symbols
      && NoDuplicates(symbols) && Ascending(indices) && GroupRoutes(queries, routes, indices, SymbolsOf)
      && forall i :: 0 <= i < |indices| ==>
           indices[i] < |queries| && !queries[indices[i]].ask.TypeAtPosition?
           && !queries[indices[i]].ask.SymbolAtPosition?
  }

  /** What the first `n` of `total` routes write, and what route `n` writes. */
  function ReachedBy(indices: seq<nat>, n: nat, direct: bool): seq<nat>
    requires direct ==> n <= |indices|
  {
    if direct then indices[..n] else if n == 0 then [] else indices
  }

  ghost predicate Written(queries: seq<Query>, request: Request, response: Response, indices: seq<nat>, before: Results,
                          results: Results) {
    |results| == |before| == |queries|
    && forall j: nat :: j < |queries| ==>
         results[j] == if j in indices then Some(Answer(queries[j], request, response)) else before[j]
  }

  lemma GroupServed(scope: Scope, queries: seq<Query>, owner: Owner, indices: seq<nat>, request: Request,
                    routes: seq<Route>)
    requires Serves(scope, queries, owner, indices, request, routes) && !owner.Directly?
    ensures |routes| == 1
    ensures owner.InSymbolTypes? ==>
              routes[0].SymbolsRoute? && request == Request("getTypesOfSymbols", SymbolParams(scope, routes[0].symbols))
              && NoDuplicates(routes[0].symbols) && GroupRoutes(queries, routes[0].symbolRoutes, indices, SymbolsOf)
    ensures !owner.InSymbolTypes? ==>
              routes[0].PositionsRoute?
              && request == Request(routes[0].method_, PositionParams(scope, owner.file, routes[0].positions))
              && NoDuplicates(routes[0].positions)
              && GroupRoutes(queries, routes[0].positionRoutes, indices, PositionsOf)
  {
    hide GroupRoutes;
  }

  lemma RouteServesPart(scope: Scope, queries: seq<Query>, owner: Owner, request: Request, routes: seq<Route>, n: nat)
    requires n < |routes|
    requires Serves(scope, queries, owner, Indices(scope, queries, owner, |queries|), request, routes)
    ensures var indices := Indices(scope, queries, owner, |queries|);
            if owner.Directly? then |routes| == |indices| && RouteServes(queries, request, [indices[n]], routes[n])
            else |routes| == 1 && RouteServes(queries, request, indices, routes[n])
  {
    hide WellFormed, Scoped, Indices;
    IndicesAre(scope, queries, owner, |queries|);
    if !owner.Directly? {
      forall i | 0 <= i < |Indices(scope, queries, owner, |queries|)|
        ensures OwnerOf(scope, queries[Indices(scope, queries, owner, |queries|)[i]].ask) == owner
      {
        assert Indices(scope, queries, owner, |queries|)[i] in Indices(scope, queries, owner, |queries|);
      }
      GroupServed(scope, queries, owner, Indices(scope, queries, owner, |queries|), request, routes);
    }
  }

  lemma GroupRoutesAscend<T(!new)>(queries: seq<Query>, routes: seq<GroupRoute<T>>, indices: seq<nat>,
                                   wants: Ask -> seq<T>)
    requires GroupRoutes(queries, routes, indices, wants) && Ascending(indices)
    requires forall i :: 0 <= i < |indices| ==>
               indices[i] < |queries| && (IsSingle(queries[indices[i]].ask) ==> wants(queries[indices[i]].ask) != [])
    ensures forall r :: 0 <= r < |routes| ==>
              routes[r].queryIndex < |queries| && (routes[r].single ==> routes[r].wanted != [])
    ensures forall q, r :: 0 <= q < r < |routes| ==> routes[q].queryIndex < routes[r].queryIndex
  {
  }

  lemma GroupRoutesWrite<T(!new)>(queries: seq<Query>, request: Request, routes: seq<GroupRoute<T>>, indices: seq<nat>,
                                  response: Response, before: Results, results: Results, members: seq<T>,
                                  wants: Ask -> seq<T>)
    requires GroupRoutes(queries, routes, indices, wants) && |results| == |before| == |queries|
    requires forall r :: 0 <= r < |routes| ==>
               routes[r].queryIndex < |queries| && results[routes[r].queryIndex]
               == Some(Outcome(request.method_, members, response, routes[r].query, routes[r].wanted, routes[r].single))
    requires forall j: nat :: j < |before| && !Routed(routes, j) ==> results[j] == before[j]
    requires forall query: Query :: Answer(query, request, response)
               == Outcome(request.method_, members, response, query, wants(query.ask), IsSingle(query.ask))
    ensures Written(queries, request, response, indices, before, results)
  {
    hide Outcome, Answer, IsSingle;
    assert forall r :: 0 <= r < |routes| ==> routes[r].queryIndex == indices[r] && indices[r] in indices;
    forall j: nat | j < |queries|
      ensures results[j] == if j in indices then Some(Answer(queries[j], request, response)) else before[j]
    {
      if j in indices {
        var r :| 0 <= r < |indices| && indices[r] == j;
        assert routes[r].queryIndex == j;
      }
    }
  }

  /** One route, run on the response of its request. */
  method RunRoute(ghost queries: seq<Query>, ghost request: Request, ghost indices: seq<nat>, route: Route,
                  response: Response, results: Results)
    returns (updated: Results)
    requires |results| == |queries| && RouteServes(queries, request, indices, route)
    ensures Written(queries, request, response, indices, results, updated)
  {
    hide Outcome, GroupRoutes;
    match route {
      case DirectRoute(query, queryIndex, wantsArray) =>
        updated := results[queryIndex := Some(SetResponseResult(query, response, wantsArray))];
      case PositionsRoute(method_, positions, routes) =>
        GroupRoutesAscend(queries, routes, indices, PositionsOf);
        updated := RunGroup(results, method_, positions, routes, -1, response);
        GroupRoutesWrite(queries, request, routes, indices, response, results, updated, positions, PositionsOf);
      case SymbolsRoute(symbols, routes) =>
        GroupRoutesAscend(queries, routes, indices, SymbolsOf);
        updated := RunGroup(results, "getTypesOfSymbols", symbols, routes, "", response);
        GroupRoutesWrite(queries, request, routes, indices, response, results, updated, symbols, SymbolsOf);
    }
  }

  lemma RouteCount(scope: Scope, queries: seq<Query>, owner: Owner, indices: seq<nat>, request: Request,
                   routes: seq<Route>)
    requires Serves(scope, queries, owner, indices, request, routes)
    ensures |routes| == if owner.Directly? then |indices| else 1
  {
    hide GroupServes;
  }

  lemma NothingWritten(queries: seq<Query>, request: Request, response: Response, results: Results)
    requires |results| == |queries|
    ensures Written(queries, request, response, [], results, results)
  {
  }

  lemma WrittenMore(queries: seq<Query>, request: Request, response: Response, reached: seq<nat>, part: seq<nat>,
                    all: seq<nat>, first: Results, before: Results, results: Results)
    requires Written(queries, request, response, reached, first, before) && |before| == |queries|
    requires Written(queries, request, response, part, before, results)
    requires forall j: nat :: j in all <==> j in reached || j in part
    ensures |results| == |queries| && Written(queries, request, response, all, first, results)
  {
    hide Answer;
  }

  lemma WrittenByOwner(scope: Scope, queries: seq<Query>, owner: Owner, request: Request, response: Response,
                       before: Results, results: Results)
    requires Written(queries, request, response, Indices(scope, queries, owner, |queries|), before, results)
    ensures forall j :: 0 <= j < |queries| ==>
              results[j] == if OwnerOf(scope, queries[j].ask) == owner
                            then Some(Answer(queries[j], request, response))
                            else before[j]
  {
    hide OwnerOf, Answer, Indices;
    IndicesAre(scope, queries, owner, |queries|);
  }

  /** All routes of one request: each query its owner owns gets its answer, no other result changes. */
  method Deliver(ghost scope: Scope, ghost queries: seq<Query>, ghost owner: Owner, ghost request: Request,
                 routes: seq<Route>, response: Response, results: Results)
    returns (updated: Results)
    requires |results| == |queries|
    requires Serves(scope, queries, owner, Indices(scope, queries, owner, |queries|), request, routes)
    ensures |updated| == |queries|
    ensures forall j :: 0 <= j < |queries| ==>
              updated[j] == if OwnerOf(scope, queries[j].ask) == owner
                            then Some(Answer(queries[j], request, response))
                            else results[j]
  {
    hide OwnerOf, Serves, Answer, RouteServes, Indices, Written;
    ghost var indices := Indices(scope, queries, owner, |queries|);
    RouteCount(scope, queries, owner, indices, request, routes);
    updated := results;
    NothingWritten(queries, request, response, results);
    for n := 0 to |routes|
      invariant |updated| == |queries|
      invariant Written(queries, request, response, ReachedBy(indices, n, owner.Directly?), results, updated)
    {
      ghost var part := if owner.Directly? then [indices[n]] else indices;
      RouteServesPart(scope, queries, owner, request, routes, n);
      ghost var before := updated;
      updated := RunRoute(queries, request, part, routes[n], response, updated);
      WrittenMore(queries, request, response, ReachedBy(indices, n, owner.Directly?), part,
                  ReachedBy(indices, n + 1, owner.Directly?), results, before, updated);
    }
    assert indices[..|indices|] == indices;
    WrittenByOwner(scope, queries, owner, request, response, results, updated);
  }

  lemma IndexGrows(owners: seq<Owner>, indexes: map<string, nat>, owner: Owner)
    requires IndexOk(owners, indexes) && owner.Directly? && '\0' !in owner.method_ && OwnerKey(owner) !in indexes
    ensures IndexOk(owners + [owner], indexes[OwnerKey(owner) := |owners|])
  {
    hide Key;
  }

  // ---- the parts a query leaves alone ----

  lemma LocalsUntouched(scope: Scope, queries: seq<Query>, results: Results, n: nat)
    requires n < |queries| && LocalsOk(scope, queries, results, n) && OwnerOf(scope, queries[n].ask) != Locally
    ensures LocalsOk(scope, queries, results, n + 1)
  {
    hide OwnerOf;
  }

  lemma DirectsUntouched(scope: Scope, queries: seq<Query>, owners: seq<Owner>, requests: seq<Request>,
                         routes: seq<seq<Route>>, indexes: map<string, nat>, n: nat)
    requires n < |queries| && SeveralServed(scope, queries, owners, requests, routes, n) && IndexOk(owners, indexes)
    requires DirectsCovered(scope, queries, owners, n) && !OwnerOf(scope, queries[n].ask).Directly?
    ensures SeveralServed(scope, queries, owners, requests, routes, n + 1)
            && DirectsCovered(scope, queries, owners, n + 1)
  {
    hide OwnerOf, Serves, Key;
    OthersServed(scope, queries, owners, requests, routes, n);
  }

  lemma SymbolTypesUntouched(scope: Scope, queries: seq<Query>, group: Group<string>, n: nat)
    requires n < |queries| && SymbolTypesOk(scope, queries, group, n) && OwnerOf(scope, queries[n].ask) != InSymbolTypes
    ensures SymbolTypesOk(scope, queries, group, n + 1)
  {
    hide OwnerOf, GroupServes;
    IndicesStep(scope, queries, InSymbolTypes, n);
  }

  // ---- the planner ----

  class Planner {
    const scope: Scope
    const queries: seq<Query>
    var results: Results
    var requests: seq<Request>
    var requestRoutes: seq<seq<Route>>
    var directRequestIndexes: map<string, nat>
    var typeOrder: seq<string>
    var typeGroups: map<string, Group<int>>
    var symbolOrder: seq<string>
    var symbolGroups: map<string, Group<int>>
    var symbolTypeGroup: Group<string>
    ghost var owners: seq<Owner>

    /** The first `n` queries have been sorted in. */
    ghost predicate Sorted(n: nat)
      reads this
    {
      && n <= |queries|
      && LocalsOk(scope, queries, results, n)
      && SeveralServed(scope, queries, owners, requests, requestRoutes, n)
      && IndexOk(owners, directRequestIndexes)
      && DirectsCovered(scope, queries, owners, n)
      && GroupsOk(scope, queries, false, typeOrder, typeGroups, n)
      && GroupsOk(scope, queries, true, symbolOrder, symbolGroups, n)
      && SymbolTypesOk(scope, queries, symbolTypeGroup, n)
      && |requests| + |typeOrder| + |symbolOrder| + (if symbolTypeGroup.members == [] then 0 else 1) <= n
    }

    constructor (scope: Scope, queries: seq<Query>)
      ensures this.scope == scope && this.queries == queries
      ensures Sorted(0)
    {
      this.scope, this.queries := scope, queries;
      results := seq(|queries|, _ => None);
      requests, requestRoutes, directRequestIndexes, owners := [], [], map[], [];
      typeOrder, typeGroups, symbolOrder, symbolGroups := [], map[], [], map[];
      symbolTypeGroup := EmptyGroup();
    }

    /** `addDirectRequest`: reuses the request with the same key, or adds one. */
    method AddDirectRequest(query: Query, queryIndex: nat, method_: string, params: seq<(string, Option<Scalar>)>,
                            wantsArray: bool)
      requires queryIndex < |queries| && Sorted(queryIndex) && query == queries[queryIndex]
      requires OwnerOf(scope, query.ask) == Directly(method_, OmitUndefined(params))
               && wantsArray == WantsArray(query.ask)
      modifies this`requests, this`requestRoutes, this`directRequestIndexes, this`owners
      ensures Sorted(queryIndex + 1)
    {
      hide OwnerOf, Serves, GroupServes, Key, OmitUndefined, DirectsCovered, LocalsOk, GroupsOk, SymbolTypesOk;
      var compactParams := OmitUndefined(params);
      var requestKey := Key(method_, compactParams);
      var route := DirectRoute(query, queryIndex, wantsArray);
      ghost var owner := Directly(method_, compactParams);
      DirectOwnersArePlain(scope, query.ask);
      KeyFindsOwner(owners, directRequestIndexes, owner);
      LocalsUntouched(scope, queries, results, queryIndex);
      OtherGroups(scope, queries, false, typeOrder, typeGroups, queryIndex);
      OtherGroups(scope, queries, true, symbolOrder, symbolGroups, queryIndex);
      SymbolTypesUntouched(scope, queries, symbolTypeGroup, queryIndex);
      if requestKey in directRequestIndexes {
        var existing := directRequestIndexes[requestKey];
        ShareRequest(scope, queries, owners, requests, requestRoutes, queryIndex, existing);
        CoverageStays(scope, queries, owners, owners, queryIndex);
        requestRoutes := requestRoutes[existing := requestRoutes[existing] + [route]];
      } else {
        var request := Request(method_, DirectParams(compactParams));
        NewRequest(scope, queries, owners, requests, requestRoutes, queryIndex, owner, request, route);
        IndexGrows(owners, directRequestIndexes, owner);
        CoverageStays(scope, queries, owners, owners + [owner], queryIndex);
        directRequestIndexes := directRequestIndexes[requestKey := |requests|];
        requests := requests + [request];
        requestRoutes := requestRoutes + [[route]];
        owners := owners + [owner];
      }
    }

    /** A query that needs no request. */
    method AnswerLocally(query: Query, queryIndex: nat)
      requires queryIndex < |queries| && Sorted(queryIndex) && query == queries[queryIndex]
      requires OwnerOf(scope, query.ask) == Locally
      modifies this`results
      ensures Sorted(queryIndex + 1)
    {
      hide OwnerOf, Serves, GroupServes, Key;
      DirectsUntouched(scope, queries, owners, requests, requestRoutes, directRequestIndexes, queryIndex);
      OtherGroups(scope, queries, false, typeOrder, typeGroups, queryIndex);
      OtherGroups(scope, queries, true, symbolOrder, symbolGroups, queryIndex);
      SymbolTypesUntouched(scope, queries, symbolTypeGroup, queryIndex);
      results := results[queryIndex := Some(Answered(query.key, Kind(query.ask), Arr([])))];
    }

    method AddTypePositions(query: Query, queryIndex: nat, file: string, positions: seq<int>, single: bool)
      requires queryIndex < |queries| && Sorted(queryIndex) && query == queries[queryIndex]
      requires OwnerOf(scope, query.ask) == InTypes(file)
      requires positions == PositionsOf(query.ask) && single == IsSingle(query.ask)
      modifies this`typeOrder, this`typeGroups
      ensures Sorted(queryIndex + 1)
    {
      hide OwnerOf, Serves, GroupServes, Key, Indices, InOrderOfUse, EachServes, EachHasGroup, IsSingle, PositionsOf;
      LocalsUntouched(scope, queries, results, queryIndex);
      DirectsUntouched(scope, queries, owners, requests, requestRoutes, directRequestIndexes, queryIndex);
      OtherGroups(scope, queries, true, symbolOrder, symbolGroups, queryIndex);
      SymbolTypesUntouched(scope, queries, symbolTypeGroup, queryIndex);
      typeOrder, typeGroups :=
        AddPositionBatchQuery(scope, queries, false, typeOrder, typeGroups, query, queryIndex, file, positions, single);
    }

    method AddSymbolPositions(query: Query, queryIndex: nat, file: string, positions: seq<int>, single: bool)
      requires queryIndex < |queries| && Sorted(queryIndex) && query == queries[queryIndex]
      requires OwnerOf(scope, query.ask) == InSymbols(file)
      requires positions == PositionsOf(query.ask) && single == IsSingle(query.ask)
      modifies this`symbolOrder, this`symbolGroups
      ensures Sorted(queryIndex + 1)
    {
      hide OwnerOf, Serves, GroupServes, Key, Indices, InOrderOfUse, EachServes, EachHasGroup, IsSingle, PositionsOf;
      LocalsUntouched(scope, queries, results, queryIndex);
      DirectsUntouched(scope, queries, owners, requests, requestRoutes, directRequestIndexes, queryIndex);
      OtherGroups(scope, queries, false, typeOrder, typeGroups, queryIndex);
      SymbolTypesUntouched(scope, queries, symbolTypeGroup, queryIndex);
      symbolOrder, symbolGroups :=
        AddPositionBatchQuery(scope, queries, true, symbolOrder, symbolGroups, query, queryIndex, file, positions,
                              single);
    }

    method AddSymbolTypes(query: Query, queryIndex: nat, symbols: seq<string>, single: bool)
      requires queryIndex < |queries| && Sorted(queryIndex) && query == queries[queryIndex]
      requires OwnerOf(scope, query.ask) == InSymbolTypes && symbols != []
      requires symbols == SymbolsOf(query.ask) && single == IsSingle(query.ask)
      modifies this`symbolTypeGroup
      ensures Sorted(queryIndex + 1)
    {
      hide OwnerOf, Serves, Key, WellFormed;
      LocalsUntouched(scope, queries, results, queryIndex);
      DirectsUntouched(scope, queries, owners, requests, requestRoutes, directRequestIndexes, queryIndex);
      OtherGroups(scope, queries, false, typeOrder, typeGroups, queryIndex);
      OtherGroups(scope, queries, true, symbolOrder, symbolGroups, queryIndex);
      var grown := AddToGroup(symbolTypeGroup, query, queryIndex, symbols, single);
      GroupGrows(scope, queries, InSymbolTypes, queryIndex, symbolTypeGroup, grown, SymbolsOf);
      symbolTypeGroup := grown;
    }

    /** The switch over the query kinds. */
    method PlanQuery(queryIndex: nat)
      requires queryIndex < |queries| && Sorted(queryIndex)
      modifies this
      ensures Sorted(queryIndex + 1)
    {
      hide Sorted, OmitUndefined;
      var query := queries[queryIndex];
      var scoped := [("snapshot", Some(Text(scope.snapshot))), ("project", Some(Text(scope.project)))];
      match query.ask {
        case TypeAtPosition(file, position) => AddTypePositions(query, queryIndex, file, [position], true);
        case TypesAtPositions(file, positions) =>
          if positions == [] {
            AnswerLocally(query, queryIndex);
          } else {
            AddTypePositions(query, queryIndex, file, positions, false);
          }
        case SymbolAtPosition(file, position) => AddSymbolPositions(query, queryIndex, file, [position], true);
        case SymbolsAtPositions(file, positions) =>
          if positions == [] {
            AnswerLocally(query, queryIndex);
          } else {
            AddSymbolPositions(query, queryIndex, file, positions, false);
          }
        case TypeOfSymbol(symbol) => AddSymbolTypes(query, queryIndex, [symbol], true);
        case TypesOfSymbols(symbols) =>
          if symbols == [] {
            AnswerLocally(query, queryIndex);
          } else {
            AddSymbolTypes(query, queryIndex, symbols, false);
          }
        case SymbolOfType(typeId) =>
          AddDirectRequest(query, queryIndex, "getSymbolOfType", scoped + [("type", Some(Text(typeId)))], false);
        case DeclaredTypeOfSymbol(symbol) =>
          AddDirectRequest(query, queryIndex, "getDeclaredTypeOfSymbol", scoped + [("symbol", Some(Text(symbol)))],
                           false);
        case AliasedSymbol(symbol) =>
          AddDirectRequest(query, queryIndex, "getAliasedSymbol", scoped + [("symbol", Some(Text(symbol)))], false);
        case ImmediateAliasedSymbol(symbol) =>
          AddDirectRequest(query, queryIndex, "getImmediateAliasedSymbol", scoped + [("symbol", Some(Text(symbol)))],
                           false);
        case ExportsOfModule(symbol) =>
          AddDirectRequest(query, queryIndex, "getExportsOfModule", scoped + [("symbol", Some(Text(symbol)))], true);
        case PropertyOfType(typeId, name) =>
          AddDirectRequest(query, queryIndex, "getPropertyOfType",
                           scoped + [("type", Some(Text(typeId))), ("name", Some(Text(name)))], false);
        case TypeArguments(typeId, objectFlags) =>
          if HasNoArguments(objectFlags) {
            AnswerLocally(query, queryIndex);
          } else {
            AddDirectRequest(query, queryIndex, "getTypeArguments", scoped + [("type", Some(Text(typeId)))], true);
          }
        case ConstraintOfType(typeId) =>
          AddDirectRequest(query, queryIndex, "getConstraintOfType", scoped + [("type", Some(Text(typeId)))], false);
        case IsTypeAssignableTo(source, target) =>
          AddDirectRequest(query, queryIndex, "isTypeAssignableTo",
                           scoped + [("source", Some(Text(source))), ("target", Some(Text(target)))], false);
        case TypeToString(typeId, location, flags) =>
          AddDirectRequest(query, queryIndex, "typeToString",
                           scoped + [("type", Some(Text(typeId))),
                                     ("location", if location.Some? then Some(Text(location.value)) else None),
                                     ("flags", if flags.Some? then Some(Number(flags.value)) else None)], false);
      }
    }

    /** `flushPositionBatchGroups`: one request for each file that has a group. */
    method FlushPositionBatchGroups(ghost symbols: bool, order: seq<string>, groups: map<string, Group<int>>,
                                    method_: string)
      requires GroupsOk(scope, queries, symbols, order, groups, |queries|)
      requires SeveralServed(scope, queries, owners, requests, requestRoutes, |queries|)
      requires forall file :: PositionOwner(symbols, file) !in owners
      requires method_ == PositionMethod(symbols)
      modifies this`requests, this`requestRoutes, this`owners
      ensures SeveralServed(scope, queries, owners, requests, requestRoutes, |queries|)
      ensures owners == old(owners) + PositionOwners(symbols, order)
    {
      hide OwnerOf, Serves, GroupServes, SeveralServed, GroupsOk, PositionMethod, Indices;
      OrderIsGroups(scope, queries, symbols, order, groups);
      for i := 0 to |order|
        invariant SeveralServed(scope, queries, owners, requests, requestRoutes, |queries|)
        invariant owners == old(owners) + PositionOwners(symbols, order[..i])
      {
        var group := groups[order[i]];
        var request := Request(method_, PositionParams(scope, order[i], group.members));
        var route := PositionsRoute(method_, group.members, group.routes);
        FileNotFlushed(symbols, order, i, old(owners));
        GroupRequestServes(scope, queries, symbols, order, groups, order[i], method_);
        AppendServed(scope, queries, owners, requests, requestRoutes, |queries|, PositionOwner(symbols, order[i]),
                     request, [route]);
        requests := requests + [request];
        requestRoutes := requestRoutes + [[route]];
        owners := owners + [PositionOwner(symbols, order[i])];
        assert order[..i + 1] == order[..i] + [order[i]];
      }
      assert order[..|order|] == order;
    }

    /** `flushSymbolTypeBatchGroup`. */
    method FlushSymbolTypeBatchGroup()
      requires SymbolTypesOk(scope, queries, symbolTypeGroup, |queries|)
      requires SeveralServed(scope, queries, owners, requests, requestRoutes, |queries|)
      requires InSymbolTypes !in owners
      modifies this`requests, this`requestRoutes, this`owners
      ensures SeveralServed(scope, queries, owners, requests, requestRoutes, |queries|)
      ensures owners == old(owners) + if symbolTypeGroup.members == [] then [] else [InSymbolTypes]
    {
      hide OwnerOf, GroupServes, SeveralServed;
      if symbolTypeGroup.members == [] {
        return;
      }
      var request := Request("getTypesOfSymbols", SymbolParams(scope, symbolTypeGroup.members));
      var route := SymbolsRoute(symbolTypeGroup.members, symbolTypeGroup.routes);
      AppendServed(scope, queries, owners, requests, requestRoutes, |queries|, InSymbolTypes, request, [route]);
      requests := requests + [request];
      requestRoutes := requestRoutes + [[route]];
      owners := owners + [InSymbolTypes];
    }

    /** `planCheckerBatch`: sort every query in, then flush the groups. */
    method PlanCheckerBatch()
      requires Sorted(0)
      modifies this
      ensures Planned(scope, queries, owners, requests, requestRoutes)
      ensures LocalsOk(scope, queries, results, |queries|)
    {
      hide OwnerOf, Serves, GroupServes, SeveralServed, GroupsOk, SymbolTypesOk, LocalsOk, DirectsCovered;
      SortQueries();
      ghost var direct := owners;
      SortedIsDirect();
      FlushPositionBatchGroups(false, typeOrder, typeGroups, "getTypesAtPositions");
      FlushPositionBatchGroups(true, symbolOrder, symbolGroups, "getSymbolsAtPositions");
      FlushSymbolTypeBatchGroup();
      FlushedIsPlanned(direct);
    }

    method SortQueries()
      requires Sorted(0)
      modifies this
      ensures Sorted(|queries|)
    {
      hide Sorted;
      for i := 0 to |queries|
        invariant Sorted(i)
      {
        PlanQuery(i);
      }
    }

    lemma SortedIsDirect()
      requires Sorted(|queries|)
      ensures |owners| == |requests| && forall owner :: owner in owners ==> owner.Directly?
    {
      hide OwnerOf, Serves, GroupServes, GroupsOk, SymbolTypesOk, LocalsOk, DirectsCovered;
    }

    lemma FlushedIsPlanned(direct: seq<Owner>)
      requires SeveralServed(scope, queries, owners, requests, requestRoutes, |queries|)
      requires DirectsCovered(scope, queries, direct, |queries|)
      requires GroupsOk(scope, queries, false, typeOrder, typeGroups, |queries|)
      requires GroupsOk(scope, queries, true, symbolOrder, symbolGroups, |queries|)
      requires SymbolTypesOk(scope, queries, symbolTypeGroup, |queries|)
      requires |direct| + |typeOrder| + |symbolOrder| + (if symbolTypeGroup.members == [] then 0 else 1) <= |queries|
      requires owners == direct + PositionOwners(false, typeOrder) + PositionOwners(true, symbolOrder)
                         + if symbolTypeGroup.members == [] then [] else [InSymbolTypes]
      ensures Planned(scope, queries, owners, requests, requestRoutes)
    {
      hide OwnerOf, Serves, GroupServes, GroupsOk, DirectsCovered;
      forall j | 0 <= j < |queries|
        ensures OwnerOf(scope, queries[j].ask) == Locally || OwnerOf(scope, queries[j].ask) in owners
      {
        var owner := OwnerOf(scope, queries[j].ask);
        match owner
        case Locally =>
        case Directly(_, _) => DirectIsOwner(scope, queries, direct, |queries|, j);
        case InTypes(file) => GroupIsOwner(scope, queries, false, typeOrder, typeGroups, j, file);
        case InSymbols(file) => GroupIsOwner(scope, queries, true, symbolOrder, symbolGroups, j, file);
        case InSymbolTypes =>
          IndicesAre(scope, queries, InSymbolTypes, |queries|);
          assert j in Indices(scope, queries, InSymbolTypes, |queries|);
      }
    }

    /** `resolve` of a plan that is resolved for the first time: a query with its own owner gets what
        its request's response makes of it, and nothing else can reach it. */
    method Resolve(responses: seq<Response>) returns (items: seq<Item>)
      requires Planned(scope, queries, owners, requests, requestRoutes)
      requires LocalsOk(scope, queries, results, |queries|)
      modifies this`results
      ensures |items| == |queries|
      ensures forall j :: 0 <= j < |queries| ==> ItemIs(scope, queries[j], owners, requests, responses, items[j])
    {
      hide OwnerOf, Serves, GroupServes, LocalsOk;
      OwnersAreNotLocal(scope, queries, owners, requests, requestRoutes);
      LocalsFilled(scope, queries, owners, requests, responses, results);
      hide Filled;
      for i := 0 to |responses|
        invariant |results| == |queries|
        invariant Filled(scope, queries, owners, requests, responses, i, results)
      {
        if i < |requestRoutes| {
          ghost var before := results;
          IndicesAre(scope, queries, owners[i], |queries|);
          results := Deliver(scope, queries, owners[i], requests[i], requestRoutes[i], responses[i], results);
          DeliveredFills(scope, queries, owners, requests, responses, i, before, results);
        } else {
          BeyondFills(scope, queries, owners, requests, responses, i, results);
        }
      }
      var found := results;
      items := seq(|queries|, j requires 0 <= j < |queries| && |found| == |queries| =>
        if found[j].Some? then found[j].value else Fallback(queries[j]));
      FilledIs(scope, queries, owners, requests, responses, results, items);
    }
  }
}
