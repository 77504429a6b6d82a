/** Groups of the batch planner: queries that share one positional or symbol request, and how the
    positional answer is handed back to each of them. */
module BatchGroups {
  import opened Options
  import opened Checker

  /** A query waiting in a group for the answers to `wanted`. */
  datatype GroupRoute<T> = GroupRoute(query: Query, queryIndex: nat, wanted: seq<T>, single: bool)

  datatype Group<!T(==)> = Group(members: seq<T>, memberSet: set<T>, routes: seq<GroupRoute<T>>)

  predicate NoDuplicates<T(==, !new)>(xs: seq<T>) {
    forall i, j :: 0 <= i < j < |xs| ==> xs[i] != xs[j]
  }

  ghost predicate WellFormed<T(!new)>(group: Group<T>) {
    && NoDuplicates(group.members)
    && (forall x :: x in group.memberSet <==> x in group.members)
    && (forall r :: 0 <= r < |group.routes| ==> forall x :: x in group.routes[r].wanted ==> x in group.members)
    && (forall x :: x in group.members ==> exists r :: 0 <= r < |group.routes| && x in group.routes[r].wanted)
  }

  function EmptyGroup<T(==)>(): Group<T> {
    Group([], {}, [])
  }

  lemma Grown<T(!new)>(group: Group<T>, grown: Group<T>, wanted: seq<T>)
    requires WellFormed(group) && NoDuplicates(grown.members)
    requires forall x :: x in grown.memberSet <==> x in grown.members
    requires forall x :: x in grown.members <==> x in group.members || x in wanted
    requires |grown.routes| == |group.routes| + 1 && grown.routes[..|group.routes|] == group.routes
    requires grown.routes[|group.routes|].wanted == wanted
    ensures WellFormed(grown)
  {
    forall r, x | 0 <= r < |grown.routes| && x in grown.routes[r].wanted
      ensures x in grown.members
    {
      if r < |group.routes| {
        assert grown.routes[r] == group.routes[r];
      }
    }
    forall x | x in grown.members
      ensures exists r :: 0 <= r < |grown.routes| && x in grown.routes[r].wanted
    {
      if x in group.members {
        var r :| 0 <= r < |group.routes| && x in group.routes[r].wanted;
        assert grown.routes[..|group.routes|][r] == group.routes[r];
        assert x in grown.routes[r].wanted;
      } else {
        assert x in grown.routes[|group.routes|].wanted;
      }
    }
  }

  /** `addPositionBatchQuery` / `addSymbolTypeBatchQuery` on the group they have found: the list of
      members stays duplicate-free and is exactly what the routes want. */
  method AddToGroup<T(==, !new)>(group: Group<T>, query: Query, queryIndex: nat, wanted: seq<T>, single: bool)
    returns (grown: Group<T>)
    requires WellFormed(group)
    ensures WellFormed(grown)
    ensures grown.routes == group.routes + [GroupRoute(query, queryIndex, wanted, single)]
    ensures wanted != [] ==> grown.members != []
    ensures |group.members| <= |grown.members|
  {
    var members, memberSet := group.members, group.memberSet;
    for i := 0 to |wanted|
      invariant NoDuplicates(members) && |group.members| <= |members|
      invariant forall x :: x in memberSet <==> x in members
      invariant forall x :: x in members <==> x in group.members || x in wanted[..i]
    {
      if wanted[i] !in memberSet {
        memberSet := memberSet + {wanted[i]};
        members := members + [wanted[i]];
      }
      assert wanted[..i + 1] == wanted[..i] + [wanted[i]];
    }
    assert wanted[..|wanted|] == wanted;
    grown := Group(members, memberSet, group.routes + [GroupRoute(query, queryIndex, wanted, single)]);
    Grown(group, grown, wanted);
    assert wanted != [] ==> wanted[0] in members;
  }

  // ---- reading a positional answer ----

  function IndexOf<T(==)>(xs: seq<T>, x: T): (i: nat)
    ensures i <= |xs| && (i < |xs| ==> xs[i] == x) && (i < |xs| <==> x in xs)
  {
    if xs == [] then 0 else if xs[0] == x then 0 else 1 + IndexOf(xs[1..], x)
  }

  /** The answer for member `x`, where answers come in the order of the members. */
  function AnswerFor<T(==)>(members: seq<T>, elements: seq<Json>, x: T): Json {
    if x in members then Nullish(Slot(elements, IndexOf(members, x))) else Null
  }

  /** What a query that wants `wanted` gets out of the group's answer. */
  function Picked<T(==)>(members: seq<T>, elements: seq<Json>, wanted: seq<T>, single: bool): Json {
    if single then if wanted == [] then Null else AnswerFor(members, elements, wanted[0])
    else Arr(seq(|wanted|, i requires 0 <= i < |wanted| => AnswerFor(members, elements, wanted[i])))
  }

  lemma {:induction false} IndexOfUnique<T(!new)>(xs: seq<T>, i: nat)
    requires NoDuplicates(xs) && i < |xs|
    ensures IndexOf(xs, xs[i]) == i
  {
    if i > 0 {
      assert xs[0] != xs[i] && xs[1..][i - 1] == xs[i];
      assert NoDuplicates(xs[1..]);
      IndexOfUnique(xs[1..], i - 1);
    }
  }

  /** `byPosition` / `bySymbol`. */
  method ByMember<T(==, !new)>(members: seq<T>, elements: seq<Json>) returns (answers: map<T, Json>)
    requires NoDuplicates(members)
    ensures forall x :: x in answers <==> x in members
    ensures forall x :: x in answers ==> answers[x] == AnswerFor(members, elements, x)
  {
    answers := map[];
    for i := 0 to |members|
      invariant forall x :: x in answers <==> x in members[..i]
      invariant forall x :: x in answers ==> answers[x] == AnswerFor(members, elements, x)
    {
      IndexOfUnique(members, i);
      assert members[..i + 1] == members[..i] + [members[i]];
      answers := answers[members[i] := Nullish(Slot(elements, i))];
    }
    assert members[..|members|] == members;
  }

  type Results = seq<Option<Item>>

  /** The outcome of one route, given what the whole group answered. */
  function Outcome<T(==)>(method_: string, members: seq<T>, response: Response, query: Query, wanted: seq<T>,
                          single: bool): Item {
    if HasError(response) then Failed(query.key, Kind(query.ask), response.error.value)
    else if !response.result.Arr? then Failed(query.key, Kind(query.ask), method_ + " returned a non-array result")
    else Answered(query.key, Kind(query.ask), Picked(members, response.result.elements, wanted, single))
  }

  ghost predicate Routed<T>(routes: seq<GroupRoute<T>>, j: nat) {
    exists r :: 0 <= r < |routes| && routes[r].queryIndex == j
  }

  /** `answers.get(x) ?? null`. */
  function Get<T>(answers: map<T, Json>, x: T): Json {
    if x in answers then Nullish(answers[x]) else Null
  }

  function GetAnswers<T>(answers: map<T, Json>, wanted: seq<T>, single: bool, missing: T): Json {
    if single then Get(answers, if wanted == [] then missing else wanted[0])
    else Arr(seq(|wanted|, i requires 0 <= i < |wanted| => Get(answers, wanted[i])))
  }

  lemma PickedIs<T(!new)>(members: seq<T>, elements: seq<Json>, answers: map<T, Json>, wanted: seq<T>, single: bool,
                          missing: T)
    requires forall x :: x in answers <==> x in members
    requires forall x :: x in answers ==> answers[x] == AnswerFor(members, elements, x)
    requires single ==> wanted != []
    ensures GetAnswers(answers, wanted, single, missing) == Picked(members, elements, wanted, single)
  {
    forall x
      ensures Get(answers, x) == AnswerFor(members, elements, x)
    {
    }
  }

  /** The closure pushed by the two flush functions: every waiting query gets its own part of the
      answer, the error, or the complaint about a non-array; nobody else is touched.  `missing`
      stands for the `?? -1` and `?? ""` behind a single route's first member. */
  method RunGroup<T(==, !new)>(results: Results, method_: string, members: seq<T>, routes: seq<GroupRoute<T>>,
                               missing: T, response: Response)
    returns (updated: Results)
    requires NoDuplicates(members)
    requires forall r :: 0 <= r < |routes| ==>
               routes[r].queryIndex < |results| && (routes[r].single ==> routes[r].wanted != [])
    requires forall q, r :: 0 <= q < r < |routes| ==> routes[q].queryIndex < routes[r].queryIndex
    ensures |updated| == |results|
    ensures forall r :: 0 <= r < |routes| ==>
              updated[routes[r].queryIndex]
              == Some(Outcome(method_, members, response, routes[r].query, routes[r].wanted, routes[r].single))
    ensures forall j: nat :: j < |results| && !Routed(routes, j) ==> updated[j] == results[j]
  {
    updated := results;
    var answers: map<T, Json> := map[];
    if !HasError(response) && response.result.Arr? {
      answers := ByMember(members, response.result.elements);
    }
    for n := 0 to |routes|
      invariant |updated| == |results|
      invariant forall r :: 0 <= r < n ==>
                  updated[routes[r].queryIndex]
                  == Some(Outcome(method_, members, response, routes[r].query, routes[r].wanted, routes[r].single))
      invariant forall j: nat :: j < |results| && !Routed(routes, j) ==> updated[j] == results[j]
    {
      var route := routes[n];
      assert Routed(routes, route.queryIndex);
      var item: Item;
      if HasError(response) {
        item := Failed(route.query.key, Kind(route.query.ask), response.error.value);
      } else if !response.result.Arr? {
        item := Failed(route.query.key, Kind(route.query.ask), method_ + " returned a non-array result");
      } else {
        var result := GetAnswers(answers, route.wanted, route.single, missing);
        PickedIs(members, response.result.elements, answers, route.wanted, route.single, missing);
        item := Answered(route.query.key, Kind(route.query.ask), result);
      }
      updated := updated[route.queryIndex := Some(item)];
    }
  }
}
