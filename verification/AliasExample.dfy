/** The smallest program that makes the `ReferenceTracker` lose a reference: `let a = foo; a = a.bar; a.baz`. */
module AliasExample {
  import opened Options
  import opened Ast
  import opened Traces
  import opened ValueMoves
  import opened ReferenceTracker
  import opened AliasCycles

  /** `let a = foo; a = a.bar; a.baz`, with `foo` a global. */
  function Example(): Program {
    var heap := map[
      0 := Node(Some("VariableDeclarator"), [("id", Ref(1)), ("init", Ref(2))]),
      1 := Node(Some("Identifier"), [("parent", Ref(0))]),
      2 := Node(Some("Identifier"), [("parent", Ref(0))]),
      3 := Node(Some("AssignmentExpression"), [("left", Ref(4)), ("right", Ref(5))]),
      4 := Node(Some("Identifier"), [("parent", Ref(3))]),
      5 := Node(Some("MemberExpression"), [("object", Ref(6)), ("parent", Ref(3))]),
      6 := Node(Some("Identifier"), [("parent", Ref(5))]),
      7 := Node(Some("MemberExpression"), [("object", Ref(8))]),
      8 := Node(Some("Identifier"), [("parent", Ref(7))])
    ];
    Program(
      heap,
      map[0 := Variable(0, [Reference(Some(2), Some(true), Some(false))]),
          1 := Variable(1, [Reference(Some(6), Some(true), Some(false)), Reference(Some(8), Some(true), Some(false))])],
      map["foo" := 0],
      (id: Id) => if id == 1 || id == 4 then Some(1) else None,
      (id: Id) => if id == 5 then Some("bar") else if id == 7 then Some("baz") else None,
      map[0 := 0, 1 := 1, 2 := 1, 3 := 0, 4 := 1, 5 := 1, 6 := 2, 7 := 0, 8 := 1],
      map[0 := 0, 1 := 0, 2 := 0, 3 := 1, 4 := 0, 5 := 0, 6 := 0, 7 := 0, 8 := 0]
    )
  }

  /** A read of `foo.bar.baz` is looked for. */
  function ExampleTrace(): Trace {
    Trace(None, None, None, [("foo", Some(Line(["bar", "baz"], "found")))])
  }

  lemma ExampleFields(id: Id)
    requires id < 9
    ensures id in Example().heap
    ensures var node := Example().heap[id];
            && Get(node, "parent") == (if id == 1 || id == 2 then Ref(0) else if id == 4 || id == 5 then Ref(3)
                                       else if id == 6 then Ref(5) else if id == 8 then Ref(7) else Opaque)
            && Get(node, "left") == (if id == 3 then Ref(4) else Opaque)
            && Get(node, "right") == (if id == 3 then Ref(5) else Opaque)
            && Get(node, "id") == (if id == 0 then Ref(1) else Opaque)
            && Get(node, "init") == (if id == 0 then Ref(2) else Opaque)
            && Get(node, "object") == (if id == 5 then Ref(6) else if id == 7 then Ref(8) else Opaque)
            && Get(node, "value") == Opaque && Get(node, "properties") == Opaque
            && node.type_ == Some(if id == 0 then "VariableDeclarator" else if id == 3 then "AssignmentExpression"
                                  else if id == 5 || id == 7 then "MemberExpression" else "Identifier")
  {
  }

  lemma ExampleNodes()
    ensures forall id :: id in Example().heap <==> 0 <= id < 9
    ensures Example().depth.Keys == Example().heap.Keys && Example().height.Keys == Example().heap.Keys
  {
  }

  /** Parents and pattern parts. */
  lemma ExampleParents(id: Id)
    requires id < 9
    ensures id in Example().heap
    ensures var heap := Example().heap;
            && Parent(heap, id) == (if id == 1 || id == 2 then Some(0) else if id == 4 || id == 5 then Some(3)
                                    else if id == 6 then Some(5) else if id == 8 then Some(7) else None)
            && ChildNode(heap, heap[id], "left") == (if id == 3 then Some(4) else None)
            && ChildNode(heap, heap[id], "id") == (if id == 0 then Some(1) else None)
            && ChildNode(heap, heap[id], "value") == None && ArrayField(heap[id], "properties") == []
  {
    hide Get, Example;
    ExampleFields(id);
    forall other: Id | other < 9
      ensures other in Example().heap && IsAstNode(Example().heap, Ref(other))
    {
      ExampleFields(other);
    }
  }

  lemma ExampleTables()
    ensures var p := Example();
            && p.globals == map["foo" := 0] && p.variables.Keys == {0, 1}
            && p.variables[0] == Variable(0, [Reference(Some(2), Some(true), Some(false))])
            && p.variables[1] == Variable(1, [Reference(Some(6), Some(true), Some(false)),
                                              Reference(Some(8), Some(true), Some(false))])
            && (forall id :: p.variableOf(id) == if id == 1 || id == 4 then Some(1) else None)
            && p.propertyName(5) == Some("bar") && p.propertyName(7) == Some("baz")
  {
  }

  lemma ExampleMeasures(id: Id)
    requires id < 9
    ensures var p := Example();
            && id in p.depth && id in p.height
            && p.depth[id] == (if id == 0 || id == 3 || id == 7 then 0 else if id == 6 then 2 else 1)
            && p.height[id] == if id == 3 then 1 else 0
  {
  }

  lemma ExampleIsOrdered(id: Id)
    requires id < 9
    ensures var p := Example();
            && p.depth.Keys == p.heap.Keys && p.height.Keys == p.heap.Keys && id in p.heap
            && (Parent(p.heap, id).Some? ==>
                  Parent(p.heap, id).value in p.heap && p.depth[Parent(p.heap, id).value] < p.depth[id])
            && (var left := ChildNode(p.heap, p.heap[id], "left");
                left.Some? ==> left.value in p.heap && p.height[left.value] < p.height[id])
            && ChildNode(p.heap, p.heap[id], "value").None? && ArrayField(p.heap[id], "properties") == []
  {
    hide Example, Parent, ChildNode, ArrayField;
    ExampleNodes();
    ExampleParents(id);
    forall other: Id | other < 9
      ensures other in Example().heap && other in Example().depth && other in Example().height
      ensures Example().depth[other]
              == (if other == 0 || other == 3 || other == 7 then 0 else if other == 6 then 2 else 1)
      ensures Example().height[other] == if other == 3 then 1 else 0
    {
      ExampleMeasures(other);
    }
  }

  lemma ExampleIsWellFormed()
    ensures WellFormed(Example())
  {
    hide Example, Parent, ChildNode, ArrayField;
    ExampleNodes();
    ExampleTables();
    ExampleIsOrdered(0);
    var p := Example();
    forall id | id in p.heap
      ensures Parent(p.heap, id).Some? ==>
                Parent(p.heap, id).value in p.heap && p.depth[Parent(p.heap, id).value] < p.depth[id]
      ensures var left := ChildNode(p.heap, p.heap[id], "left");
              left.Some? ==> left.value in p.heap && p.height[left.value] < p.height[id]
      ensures ChildNode(p.heap, p.heap[id], "value").None? && ArrayField(p.heap[id], "properties") == []
    {
      ExampleIsOrdered(id);
    }
  }

  lemma ExampleClimb(id: Id)
    requires id < 9
    ensures WellFormed(Example()) && id in Example().heap
    ensures Climb(Example(), id) == id
  {
    hide Example, Get, ArrayField, Parent, WellFormed;
    ExampleIsWellFormed();
    ExampleParents(id);
    if Parent(Example().heap, id).Some? {
      ExampleFields(Parent(Example().heap, id).value);
    }
  }

  // ---- every move there is ----

  /** The places a value can be in. */
  predicate ExamplePlace(place: Place) {
    match place
    case AtNode(id) => id < 9
    case AtPattern(pattern) => pattern == Some(1) || pattern == Some(4)
    case AtVariable(variable) => variable < 2
  }

  function ExampleHop(place: Place, move: Move): (hop: Option<Hop>)
    ensures hop.Some? ==> ExamplePlace(hop.value.place)
  {
    match (place, move)
    case (AtVariable(v), Use(i)) =>
      if v == 0 && i == 0 then Some(Hop(AtNode(2), None, 2))
      else if v == 1 && i == 0 then Some(Hop(AtNode(6), None, 6))
      else if v == 1 && i == 1 then Some(Hop(AtNode(8), None, 8))
      else None
    case (AtNode(id), Store) =>
      if id == 2 then Some(Hop(AtPattern(Some(1)), None, 0))
      else if id == 5 then Some(Hop(AtPattern(Some(4)), None, 3))
      else None
    case (AtNode(id), Assign) => if id == 5 then Some(Hop(AtNode(3), None, 3)) else None
    case (AtNode(id), Select) =>
      if id == 6 then Some(Hop(AtNode(5), Some("bar"), 5))
      else if id == 8 then Some(Hop(AtNode(7), Some("baz"), 7))
      else None
    case (AtPattern(Some(id)), Enter) => if id == 1 || id == 4 then Some(Hop(AtVariable(1), None, id)) else None
    case _ => None
  }

  lemma ExampleUp(id: Id, move: Move)
    requires id < 9
    ensures WellFormed(Example()) && id in Example().heap
    ensures Step(Example(), AtNode(id), move) == ExampleHop(AtNode(id), move)
  {
    hide Example, Get, ArrayField, ChildNode, Parent, Climb, WellFormed;
    ExampleTables();
    ExampleClimb(id);
    ExampleParents(id);
    var parent := Parent(Example().heap, id);
    if parent.Some? {
      ExampleFields(parent.value);
      ExampleParents(parent.value);
    }
  }

  lemma ExampleInto(id: Id, move: Move)
    requires id == 1 || id == 4
    ensures WellFormed(Example()) && id in Example().heap
    ensures Step(Example(), AtPattern(Some(id)), move) == ExampleHop(AtPattern(Some(id)), move)
  {
    hide Example, Get, ArrayField, ChildNode, WellFormed;
    ExampleIsWellFormed();
    ExampleTables();
    ExampleFields(id);
  }

  lemma ExampleSteps(place: Place, move: Move)
    requires ExamplePlace(place)
    ensures WellFormed(Example()) && Known(Example(), place)
    ensures Step(Example(), place, move) == ExampleHop(place, move)
  {
    hide Example, HopUp, HopInto, Parent, Climb, WellFormed;
    match place
    case AtNode(id) => ExampleUp(id, move);
    case AtPattern(Some(id)) => ExampleInto(id, move);
    case AtVariable(_) =>
      ExampleIsWellFormed();
      ExampleTables();
  }

  lemma NothingInvoked(spot: Spot)
    requires ExamplePlace(spot.place)
    ensures WellFormed(Example()) && Known(Example(), spot.place)
    ensures Advance(Example(), spot, Invoke).None?
  {
    hide Example, Parent, Get, WellFormed, Climb;
    ExampleSteps(spot.place, Invoke);
    if spot.place.AtNode? {
      var id := spot.place.node;
      ExampleClimb(id);
      ExampleParents(id);
      var parent := Parent(Example().heap, id);
      if parent.Some? {
        ExampleFields(parent.value);
      }
    }
  }

  /** The walk, read off the table. */
  function ExampleAdvance(spot: Spot, move: Move): (arrival: Option<Arrival>)
    ensures arrival.Some? ==> ExamplePlace(arrival.value.spot.place)
  {
    match ExampleHop(spot.place, move)
    case None => None
    case Some(hop) => Arrive(spot, hop)
  }

  lemma ExampleAdvances(spot: Spot, move: Move)
    requires ExamplePlace(spot.place)
    ensures WellFormed(Example()) && Known(Example(), spot.place)
    ensures Advance(Example(), spot, move) == ExampleAdvance(spot, move)
  {
    hide Example, Step, WellFormed, Arrive;
    ExampleSteps(spot.place, move);
    if move.Invoke? {
      NothingInvoked(spot);
    }
  }

  // ---- the lost reference can be derived ----

  /** The traces on the way: all of it, what is left after `bar`, and what is left after `baz`. */
  lemma ExampleTraces(info: string)
    ensures var all, tail, end := Line(["bar", "baz"], info), Line(["baz"], info), Line([], info);
            && all.read.None? && tail.read.None? && end.read == Some(info)
            && TraceElement(all, "bar") == Some(tail) && TraceElement(all, "baz").None?
            && TraceElement(tail, "baz") == Some(end)
  {
    hide Line;
    assert "bar"[2] != "baz"[2];
    assert ["bar"] + ["baz"] == ["bar", "baz"] && ["baz"] + [] == ["baz"];
    LineEntry("bar", ["baz"], info);
    LineEntry("baz", [], info);
    LineEnd(info);
  }

  const LOST: Found := Found(7, ["foo", "bar", "baz"], Read, "found")

  /** From `spot` the moves lead to the lost read, by the table. */
  predicate Loses(spot: Spot, moves: seq<Move>)
    decreases |moves|
  {
    && moves != [] && ExampleAdvance(spot, moves[0]).Some?
    && var arrival := ExampleAdvance(spot, moves[0]).value;
       if |moves| == 1 then arrival.report == Some(LOST) else Loses(arrival.spot, moves[1..])
  }

  lemma {:induction false} LosesFreely(spot: Spot, moves: seq<Move>)
    requires ExamplePlace(spot.place) && Loses(spot, moves)
    ensures WellFormed(Example()) && Known(Example(), spot.place)
    ensures FreelyCarries(Example(), spot, moves, LOST)
    decreases |moves|
  {
    hide Example, WellFormed, Known, Advance, ExampleAdvance, ExamplePlace;
    ExampleAdvances(spot, moves[0]);
    if |moves| > 1 {
      LosesFreely(ExampleAdvance(spot, moves[0]).value.spot, moves[1..]);
    }
  }

  /** One more move in front. */
  lemma LosesBefore(spot: Spot, move: Move, next: Spot, rest: seq<Move>)
    requires ExampleAdvance(spot, move).Some? && ExampleAdvance(spot, move).value.spot == next && Loses(next, rest)
    ensures Loses(spot, [move] + rest)
  {
    assert ([move] + rest)[1..] == rest;
  }

  lemma LosesFromAlias(tail: Trace) returns (moves: seq<Move>)
    requires TraceElement(tail, "baz") == Some(Line([], "found"))
    ensures Loses(Spot(AtVariable(1), ["foo", "bar"], tail), moves)
  {
    hide TraceElement, Line;
    LineEnd("found");
    assert ["foo", "bar"] + ["baz"] == ["foo", "bar", "baz"];
    var last := Spot(AtNode(8), ["foo", "bar"], tail);
    assert Loses(last, [Select]);
    LosesBefore(Spot(AtVariable(1), ["foo", "bar"], tail), Use(1), last, [Select]);
    moves := [Use(1)] + [Select];
  }

  lemma LosesFromSelf(all: Trace, tail: Trace) returns (moves: seq<Move>)
    requires TraceElement(all, "bar") == Some(tail) && TraceElement(tail, "baz") == Some(Line([], "found"))
    ensures Loses(Spot(AtVariable(1), ["foo"], all), moves)
  {
    hide TraceElement, Line, Loses;
    var path := ["foo", "bar"];
    assert ["foo"] + ["bar"] == path;
    moves := LosesFromAlias(tail);
    LosesBefore(Spot(AtPattern(Some(4)), path, tail), Enter, Spot(AtVariable(1), path, tail), moves);
    moves := [Enter] + moves;
    LosesBefore(Spot(AtNode(5), path, tail), Store, Spot(AtPattern(Some(4)), path, tail), moves);
    moves := [Store] + moves;
    LosesBefore(Spot(AtNode(6), ["foo"], all), Select, Spot(AtNode(5), path, tail), moves);
    moves := [Select] + moves;
    LosesBefore(Spot(AtVariable(1), ["foo"], all), Use(0), Spot(AtNode(6), ["foo"], all), moves);
    moves := [Use(0)] + moves;
  }

  lemma LosesFromGlobal(all: Trace, tail: Trace) returns (moves: seq<Move>)
    requires TraceElement(all, "bar") == Some(tail) && TraceElement(tail, "baz") == Some(Line([], "found"))
    ensures Loses(Spot(AtVariable(0), ["foo"], all), moves)
  {
    hide TraceElement, Line, Loses;
    moves := LosesFromSelf(all, tail);
    LosesBefore(Spot(AtPattern(Some(1)), ["foo"], all), Enter, Spot(AtVariable(1), ["foo"], all), moves);
    moves := [Enter] + moves;
    LosesBefore(Spot(AtNode(2), ["foo"], all), Store, Spot(AtPattern(Some(1)), ["foo"], all), moves);
    moves := [Store] + moves;
    LosesBefore(Spot(AtVariable(0), ["foo"], all), Use(0), Spot(AtNode(2), ["foo"], all), moves);
    moves := [Use(0)] + moves;
  }

  lemma LostIsDerived()
    ensures WellFormed(Example()) && Known(Example(), AtVariable(0))
    ensures FreelyReports(Example(), Spot(AtVariable(0), ["foo"], Line(["bar", "baz"], "found")), LOST)
  {
    hide Example, Line, WellFormed, Loses, TraceElement, FreelyCarries;
    var all, tail := Line(["bar", "baz"], "found"), Line(["baz"], "found");
    ExampleTraces("found");
    var moves := LosesFromGlobal(all, tail);
    LosesFreely(Spot(AtVariable(0), ["foo"], all), moves);
  }

  // ---- and is not found ----

  /** Where the walk gets: to `foo.bar` only inside the alias. */
  predicate CutOff(entered: set<VariableId>, spot: Spot) {
    || (spot.trace == Line(["bar", "baz"], "found")
        && (spot.place == AtVariable(0) || spot.place == AtNode(2) || spot.place == AtPattern(Some(1))
            || spot.place == AtVariable(1) || (1 in entered && (spot.place == AtNode(6) || spot.place == AtNode(8)))))
    || (spot.trace == Line(["baz"], "found") && 1 in entered
        && (spot.place == AtNode(5) || spot.place == AtNode(3) || spot.place == AtPattern(Some(4))
            || spot.place == AtVariable(1)))
  }

  lemma CutOffIsPlace(entered: set<VariableId>, spot: Spot)
    ensures CutOff(entered, spot) ==> ExamplePlace(spot.place)
  {
  }

  lemma StaysCutOff(entered: set<VariableId>, spot: Spot, move: Move)
    requires CutOff(entered, spot) && !(spot.place.AtVariable? && spot.place.variable in entered)
    ensures ExampleAdvance(spot, move).Some? ==>
              var arrival := ExampleAdvance(spot, move).value;
              arrival.report.None? && CutOff(Inside(entered, spot.place), arrival.spot)
  {
    hide Line, TraceElement;
    ExampleTraces("found");
  }

  lemma {:induction false} NothingCarried(entered: set<VariableId>, spot: Spot, moves: seq<Move>, f: Found)
    requires CutOff(entered, spot)
    ensures WellFormed(Example()) && Known(Example(), spot.place)
    ensures !Carries(Example(), entered, spot, moves, f)
    decreases |moves|
  {
    hide Example, Advance, ExampleAdvance, WellFormed, Known, CutOff, ExamplePlace;
    CutOffIsPlace(entered, spot);
    ExampleAdvances(spot, Invoke);
    if moves != [] && !(spot.place.AtVariable? && spot.place.variable in entered) {
      ExampleAdvances(spot, moves[0]);
      StaysCutOff(entered, spot, moves[0]);
      if |moves| > 1 && ExampleAdvance(spot, moves[0]).Some? {
        NothingCarried(Inside(entered, spot.place), ExampleAdvance(spot, moves[0]).value.spot, moves[1..], f);
      }
    }
  }

  lemma NothingReported(f: Found)
    ensures WellFormed(Example()) && Known(Example(), AtVariable(0))
    ensures !Reports(Example(), {}, Spot(AtVariable(0), ["foo"], Line(["bar", "baz"], "found")), f)
  {
    hide Example, WellFormed, Carries;
    ExampleSteps(AtVariable(0), Invoke);
    var spot := Spot(AtVariable(0), ["foo"], Line(["bar", "baz"], "found"));
    forall moves
      ensures !Carries(Example(), {}, spot, moves, f)
    {
      NothingCarried({}, spot, moves, f);
    }
  }

  lemma FooIsFollowed()
    ensures WellFormed(Example()) && Follows(Example(), "foo") && "foo" in Example().globals
    ensures forall path, trace :: GlobalSpot(Example(), "foo", path, trace) == Spot(AtVariable(0), path, trace)
    ensures forall key :: key != "foo" ==> !Follows(Example(), key)
  {
    hide Example, WellFormed;
    ExampleIsWellFormed();
    ExampleTables();
  }

  /** In `let a = foo; a = a.bar; a.baz` the read of `foo.bar.baz` at `a.baz` can be derived, and the walk
      does not find it. */
  lemma AliasedReadIsLost(t: Tracker)
    requires t.program == Example() && "foo" !in t.globalObjectNames
    ensures WellFormed(t.program)
    ensures Derivable(t, ExampleTrace(), LOST) && !t.Finds({}, ExampleTrace(), LOST)
  {
    hide Example, WellFormed, Follows, FreelyReports, Reports, Line, GlobalSpot, Tracker.EntryFinds,
         Tracker.ObjectFinds;
    LostIsDerived();
    FooIsFollowed();
    NothingReported(LOST);
    var trace, all := ExampleTrace(), Line(["bar", "baz"], "found");
    assert TraceElement(trace, "foo") == Some(all);
    ExampleTraces("found");
    assert DerivableFromEntry(t.program, trace, 0, LOST);
    forall i: nat
      ensures !t.EntryFinds({}, trace, i, LOST) && !t.ObjectFinds({}, trace, i, LOST)
    {
      EntryFindsAre(t, trace, i, LOST);
      ObjectFindsAre(t, trace, i, LOST);
    }
  }
}
