/** When the walk of the `ReferenceTracker` misses something.  It enters no variable twice on one
    chain, so a chain that comes back to a variable under a longer path is cut off.  That loses
    references exactly for the programs in which a value can come back longer. */
module AliasCycles {
  import opened Options
  import opened Ast
  import opened Traces
  import opened ValueMoves
  import opened ReferenceTracker

  // ---- derivability without the stack rule ----

  /** `moves` carry the value of `spot` to the report `f`, through whatever variables. */
  ghost predicate FreelyCarries(p: Program, spot: Spot, moves: seq<Move>, f: Found)
    requires WellFormed(p) && Known(p, spot.place)
    decreases |moves|
  {
    && moves != [] && Advance(p, spot, moves[0]).Some?
    && var arrival := Advance(p, spot, moves[0]).value;
       if |moves| == 1 then arrival.report == Some(f) else FreelyCarries(p, arrival.spot, moves[1..], f)
  }

  ghost predicate FreelyReports(p: Program, spot: Spot, f: Found)
    requires WellFormed(p) && Known(p, spot.place)
  {
    exists moves :: FreelyCarries(p, spot, moves, f)
  }

  /** `f` is a plain read of the variable of `spot`. */
  ghost predicate ReadHere(p: Program, spot: Spot, f: Found)
    requires WellFormed(p) && Known(p, spot.place) && spot.place.AtVariable?
  {
    var references := p.variables[spot.place.variable].references;
    spot.trace.read.Some?
    && exists i :: 0 <= i < |references| && IsUse(references[i])
                   && f == Found(references[i].identifier.value, spot.path, Read, spot.trace.read.value)
  }

  /** The spot a global variable is followed from. */
  function GlobalSpot(p: Program, key: string, path: seq<string>, trace: Trace): (spot: Spot)
    requires WellFormed(p) && Follows(p, key)
    ensures spot.place.AtVariable? && Known(p, spot.place)
  {
    GlobalKnown(p, key);
    Spot(AtVariable(p.globals[key]), path, trace)
  }

  /** `f` is a use of an unmodified global that the trace map names. */
  ghost predicate DerivableFromEntry(p: Program, trace: Trace, i: nat, f: Found)
    requires WellFormed(p)
  {
    && i < |trace.entries|
    && var key := trace.entries[i].0;
       Follows(p, key) && TraceElement(trace, key).Some?
       && var spot := GlobalSpot(p, key, [key], TraceElement(trace, key).value);
          ReadHere(p, spot, f) || FreelyReports(p, spot, f)
  }

  /** `f` is a use of a property of a global object. */
  ghost predicate DerivableFromObject(p: Program, names: seq<string>, trace: Trace, i: nat, f: Found)
    requires WellFormed(p)
  {
    i < |names| && Follows(p, names[i]) && FreelyReports(p, GlobalSpot(p, names[i], [], trace), f)
  }

  /** Everything that can be derived, whatever the walk finds. */
  ghost predicate Derivable(t: Tracker, trace: Trace, f: Found)
    requires WellFormed(t.program)
  {
    || (exists i: nat :: DerivableFromEntry(t.program, trace, i, f))
    || (exists i: nat :: DerivableFromObject(t.program, t.globalObjectNames, trace, i, f))
  }

  // ---- alias cycles ----

  /** Where moves lead in the program, and the properties they take on the way. */
  datatype Journey = Journey(place: Place, names: seq<string>)

  function Names(hop: Hop): seq<string> {
    match hop.key
    case None => []
    case Some(key) => [key]
  }

  function Travel(p: Program, place: Place, moves: seq<Move>): (journey: Option<Journey>)
    requires WellFormed(p) && Known(p, place)
    ensures journey.Some? ==> Known(p, journey.value.place)
    decreases |moves|
  {
    if moves == [] then Some(Journey(place, []))
    else
      match Step(p, place, moves[0])
      case None => None
      case Some(hop) =>
        match Travel(p, hop.place, moves[1..])
        case None => None
        case Some(rest) => Some(Journey(rest.place, Names(hop) + rest.names))
  }

  /** From `place` a value reaches a variable, and from there it comes back with more names. */
  ghost predicate Grows(p: Program, place: Place, prefix: seq<Move>, variable: VariableId, cycle: seq<Move>)
    requires WellFormed(p) && Known(p, place)
  {
    && Travel(p, place, prefix).Some? && Travel(p, place, prefix).value.place == AtVariable(variable)
    && var again := Travel(p, AtVariable(variable), cycle);
       again.Some? && again.value.place == AtVariable(variable) && again.value.names != []
  }

  ghost predicate NoGrowth(p: Program, place: Place)
    requires WellFormed(p) && Known(p, place)
  {
    forall prefix, variable, cycle :: !Grows(p, place, prefix, variable, cycle)
  }

  ghost predicate GrowsFromGlobal(p: Program, key: string, prefix: seq<Move>, variable: VariableId, cycle: seq<Move>)
    requires WellFormed(p)
  {
    Follows(p, key) && (GlobalKnown(p, key); Grows(p, AtVariable(p.globals[key]), prefix, variable, cycle))
  }

  /** The program has an alias cycle, reached from an unmodified global, that takes a property. */
  ghost predicate HasGrowingCycle(p: Program)
    requires WellFormed(p)
  {
    exists key, prefix, variable, cycle :: GrowsFromGlobal(p, key, prefix, variable, cycle)
  }

  lemma OneName(p: Program, place: Place, move: Move)
    requires WellFormed(p) && Known(p, place) && Step(p, place, move).Some?
    ensures Step(p, place, move).value.key.Some? <==> move.Select? || move.Destructure?
  {
    hide WellFormed, Climb, Get;
  }

  /** The moves that take a property are selections and destructurings. */
  lemma {:induction false} NamesAreTaken(p: Program, place: Place, moves: seq<Move>)
    requires WellFormed(p) && Known(p, place) && Travel(p, place, moves).Some?
    ensures Travel(p, place, moves).value.names != []
            <==> exists i :: 0 <= i < |moves| && (moves[i].Select? || moves[i].Destructure?)
    decreases |moves|
  {
    hide WellFormed, Known, Step;
    if moves != [] {
      var hop := Step(p, place, moves[0]).value;
      OneName(p, place, moves[0]);
      NamesAreTaken(p, hop.place, moves[1..]);
      assert moves == [moves[0]] + moves[1..];
    }
  }

  /** Following a move keeps path and trace map in step with the names taken. */
  lemma AdvanceIsStep(p: Program, spot: Spot, move: Move)
    requires WellFormed(p) && Known(p, spot.place) && !move.Invoke?
    ensures Advance(p, spot, move).Some?
            <==> Step(p, spot.place, move).Some? && At(spot.trace, Names(Step(p, spot.place, move).value)).Some?
    ensures Advance(p, spot, move).Some? ==>
              var hop, arrival := Step(p, spot.place, move).value, Advance(p, spot, move).value;
              && arrival.spot.place == hop.place && arrival.spot.path == spot.path + Names(hop)
              && At(spot.trace, Names(hop)) == Some(arrival.spot.trace)
              && (hop.key.Some? && arrival.spot.trace.read.Some? ==>
                    arrival.report == Some(Found(hop.at, arrival.spot.path, Read, arrival.spot.trace.read.value)))
  {
    hide WellFormed, Step, TraceElement;
    var step := Step(p, spot.place, move);
    RootIsAt(spot.trace);
    if step.Some? && step.value.key.Some? {
      RootKey(spot.trace, step.value.key.value);
    }
  }

  lemma StepIsNoInvocation(p: Program, place: Place, move: Move)
    requires WellFormed(p) && Known(p, place) && Step(p, place, move).Some?
    ensures !move.Invoke?
  {
    hide WellFormed, Climb, Get;
  }

  /** Who invokes a value ends its chain. */
  lemma InvokeEnds(p: Program, spot: Spot, moves: seq<Move>, f: Found)
    requires WellFormed(p) && Known(p, spot.place) && FreelyCarries(p, spot, moves, f) && |moves| > 1
    ensures !moves[0].Invoke?
  {
    hide WellFormed, Climb;
    if moves[0].Invoke? {
      NoPatternNoMoves(p, Advance(p, spot, moves[0]).value.spot);
    }
  }

  // ---- no growing cycle: nothing is missed ----

  /** The chain is at `variable` before one of its moves. */
  ghost predicate Meets(p: Program, spot: Spot, moves: seq<Move>, variable: VariableId)
    requires WellFormed(p) && Known(p, spot.place)
    decreases |moves|
  {
    || spot.place == AtVariable(variable)
    || (|moves| > 1 && Advance(p, spot, moves[0]).Some?
        && Meets(p, Advance(p, spot, moves[0]).value.spot, moves[1..], variable))
  }

  /** Cuts a chain where it is at `variable`. */
  lemma {:induction false} CutAt(p: Program, spot: Spot, moves: seq<Move>, variable: VariableId, f: Found)
    returns (i: nat, later: Spot)
    requires WellFormed(p) && Known(p, spot.place) && FreelyCarries(p, spot, moves, f)
             && Meets(p, spot, moves, variable)
    ensures i < |moves| && later.place == AtVariable(variable) && Known(p, later.place)
    ensures FreelyCarries(p, later, moves[i..], f)
    ensures forall w :: Meets(p, later, moves[i..], w) ==> Meets(p, spot, moves, w)
    ensures var journey := Travel(p, spot.place, moves[..i]);
            && journey.Some? && journey.value.place == AtVariable(variable)
            && later.path == spot.path + journey.value.names
            && At(spot.trace, journey.value.names) == Some(later.trace)
    decreases |moves|
  {
    hide WellFormed, Known, Advance, Step, At;
    if spot.place == AtVariable(variable) {
      i, later := 0, spot;
      RootIsAt(spot.trace);
      assert moves[0..] == moves && moves[..0] == [] && spot.path + [] == spot.path;
    } else {
      InvokeEnds(p, spot, moves, f);
      AdvanceIsStep(p, spot, moves[0]);
      var next := Advance(p, spot, moves[0]).value.spot;
      var rest := moves[1..];
      i, later := CutAt(p, next, rest, variable, f);
      var journey := Travel(p, next.place, rest[..i]).value;
      var hop := Step(p, spot.place, moves[0]).value;
      AtConcat(spot.trace, Names(hop), journey.names);
      assert spot.path + (Names(hop) + journey.names) == next.path + journey.names;
      assert moves[..i + 1][1..] == rest[..i] && rest[i..] == moves[i + 1..];
      i := i + 1;
    }
  }

  lemma NoGrowthAfter(p: Program, place: Place, move: Move)
    requires WellFormed(p) && Known(p, place) && NoGrowth(p, place) && Step(p, place, move).Some?
    ensures NoGrowth(p, Step(p, place, move).value.place)
  {
    hide WellFormed, Known, Step;
    var next := Step(p, place, move).value.place;
    forall prefix, variable, cycle
      ensures !Grows(p, next, prefix, variable, cycle)
    {
      assert ([move] + prefix)[1..] == prefix;
      assert Grows(p, next, prefix, variable, cycle) ==> Grows(p, place, [move] + prefix, variable, cycle);
    }
  }

  lemma ComesBackTheSame(p: Program, spot: Spot, moves: seq<Move>, i: nat, later: Spot)
    requires WellFormed(p) && Known(p, spot.place) && NoGrowth(p, spot.place) && spot.place.AtVariable?
    requires |moves| > 1 && i < |moves| - 1 && !moves[0].Invoke? && Advance(p, spot, moves[0]).Some?
    requires var next := Advance(p, spot, moves[0]).value.spot;
             var journey := Travel(p, next.place, moves[1..][..i]);
             && journey.Some? && journey.value.place == spot.place == later.place
             && later.path == next.path + journey.value.names
             && At(next.trace, journey.value.names) == Some(later.trace)
    ensures later == spot
  {
    hide WellFormed, Known, Advance, Step, At;
    AdvanceIsStep(p, spot, moves[0]);
    var next := Advance(p, spot, moves[0]).value.spot;
    var journey := Travel(p, next.place, moves[1..][..i]).value;
    var cycle := moves[..i + 1];
    assert cycle[1..] == moves[1..][..i];
    assert Travel(p, spot.place, []).value.place == spot.place;
    assert !Grows(p, spot.place, [], spot.place.variable, cycle);
    assert journey.names == [] && next.path == spot.path;
    RootIsAt(next.trace);
    RootIsAt(spot.trace);
  }

  /** Without growth a chain that comes back to a variable comes back to the same spot, and can be cut
      short; so whatever can be derived is found. */
  lemma {:induction false} DerivedIsFound(p: Program, entered: set<VariableId>, spot: Spot, moves: seq<Move>, f: Found)
    requires WellFormed(p) && Known(p, spot.place) && NoGrowth(p, spot.place) && FreelyCarries(p, spot, moves, f)
    requires forall v :: v in entered ==> !Meets(p, spot, moves, v)
    ensures Reports(p, entered, spot, f)
    decreases |moves|
  {
    hide WellFormed, Known, Advance, Step, At, NoGrowth, Reports;
    var arrival := Advance(p, spot, moves[0]).value;
    if |moves| > 1 {
      InvokeEnds(p, spot, moves, f);
      AdvanceIsStep(p, spot, moves[0]);
      var next, rest := arrival.spot, moves[1..];
      if spot.place.AtVariable? && Meets(p, next, rest, spot.place.variable) {
        var i, later := CutAt(p, next, rest, spot.place.variable, f);
        ComesBackTheSame(p, spot, moves, i, later);
        DerivedIsFound(p, entered, spot, rest[i..], f);
        return;
      }
      NoGrowthAfter(p, spot.place, moves[0]);
      DerivedIsFound(p, Inside(entered, spot.place), next, rest, f);
    }
    assert Via(p, entered, spot, moves[0], f);
    ReportsVia(p, entered, spot, f);
  }

  lemma {:induction false} FoundIsDerived(p: Program, entered: set<VariableId>, spot: Spot, moves: seq<Move>, f: Found)
    requires WellFormed(p) && Known(p, spot.place) && Carries(p, entered, spot, moves, f)
    ensures FreelyCarries(p, spot, moves, f)
    decreases |moves|
  {
    hide WellFormed, Known, Advance;
    if |moves| > 1 {
      FoundIsDerived(p, Inside(entered, spot.place), Advance(p, spot, moves[0]).value.spot, moves[1..], f);
    }
  }

  // ---- a growing cycle: something is missed ----

  ghost function Largest(m: map<Id, nat>): (largest: nat)
    ensures forall id :: id in m ==> m[id] <= largest
  {
    if m == map[] then 0
    else
      var id :| id in m;
      var rest := Largest(m - {id});
      assert forall other :: other in m && other != id ==> other in m - {id} && m[other] == (m - {id})[other];
      if m[id] > rest then m[id] else rest
  }

  /** More than any chain can do between two variables. */
  ghost function Span(p: Program): nat {
    Largest(p.depth) + Largest(p.height) + 3
  }

  function Times(n: nat, span: nat): nat {
    n * span
  }

  /** A bound on the moves left from a place, when no variable is entered twice. */
  ghost function Room(p: Program, entered: set<VariableId>, place: Place): nat {
    Times(|p.variables.Keys - entered|, Span(p))
    + match place
      case AtNode(id) => Depth(p, id) + Largest(p.height) + 2
      case AtPattern(pattern) => PatternHeight(p, pattern)
      case AtVariable(_) => 0
  }

  lemma PlacesAreSmall(p: Program, place: Place)
    requires WellFormed(p) && Known(p, place)
    ensures place.AtNode? ==> Depth(p, place.node) <= Largest(p.depth)
    ensures place.AtPattern? ==> PatternHeight(p, place.pattern) <= Largest(p.height) + 1
    ensures place.AtPattern? && place.pattern.Some? ==> PatternHeight(p, place.pattern) > 0
  {
  }

  lemma OneMore(n: nat, span: nat)
    ensures Times(n + 1, span) == Times(n, span) + span
  {
  }

  lemma OneLess(p: Program, entered: set<VariableId>, variable: VariableId)
    requires variable in p.variables && variable !in entered
    ensures Times(|p.variables.Keys - entered|, Span(p))
            == Times(|p.variables.Keys - (entered + {variable})|, Span(p)) + Span(p)
    ensures Span(p) == Largest(p.depth) + Largest(p.height) + 3
  {
    hide Times, Largest;
    var before, after := p.variables.Keys - entered, p.variables.Keys - (entered + {variable});
    assert before == after + {variable};
    assert |before| == |after| + 1;
    OneMore(|after|, Span(p));
  }

  /** Every move uses up some room. */
  lemma StepUpShrinks(p: Program, entered: set<VariableId>, id: Id, move: Move)
    requires WellFormed(p) && id in p.heap && Step(p, AtNode(id), move).Some?
    ensures Room(p, entered, Step(p, AtNode(id), move).value.place) < Room(p, entered, AtNode(id))
  {
    hide WellFormed, Get, Climb, Largest, Span, Times;
    PlacesAreSmall(p, AtNode(id));
    PlacesAreSmall(p, Step(p, AtNode(id), move).value.place);
    ParentIsShallower(p, Climb(p, id));
    ClimbIsShallow(p, id);
  }

  lemma StepShrinks(p: Program, entered: set<VariableId>, place: Place, move: Move)
    requires WellFormed(p) && Known(p, place) && Step(p, place, move).Some?
    requires !(place.AtVariable? && place.variable in entered)
    ensures Room(p, Inside(entered, place), Step(p, place, move).value.place) < Room(p, entered, place)
  {
    hide WellFormed, Get, ArrayField, Largest, Span, Times;
    var next := Step(p, place, move).value.place;
    PlacesAreSmall(p, place);
    PlacesAreSmall(p, next);
    match place
    case AtNode(id) => StepUpShrinks(p, entered, id, move);
    case AtPattern(Some(pattern)) =>
      LeftIsLower(p, pattern);
      if move.Destructure? {
        PropertyIsLower(p, pattern, move.index);
        ValueIsLower(p, ArrayField(p.heap[pattern], "properties")[move.index].id);
      }
    case AtVariable(variable) => OneLess(p, entered, variable);
  }

  lemma InvokedAtPath(p: Program, spot: Spot, moves: seq<Move>, f: Found)
    requires WellFormed(p) && Known(p, spot.place) && FreelyCarries(p, spot, moves, f) && moves[0].Invoke?
    ensures f.path == spot.path
  {
    hide WellFormed, Climb;
    if |moves| > 1 {
      InvokeEnds(p, spot, moves, f);
    }
  }

  lemma ReportedAtPath(p: Program, spot: Spot, move: Move)
    requires WellFormed(p) && Known(p, spot.place) && !move.Invoke? && Advance(p, spot, move).Some?
    ensures var arrival := Advance(p, spot, move).value;
            arrival.report.Some? ==> arrival.report.value.path == arrival.spot.path
  {
    hide WellFormed, Step;
  }

  /** A chain that enters no variable twice takes only so many properties. */
  lemma {:induction false} CarriesIsShort(p: Program, entered: set<VariableId>, spot: Spot, moves: seq<Move>, f: Found)
    requires WellFormed(p) && Known(p, spot.place) && Carries(p, entered, spot, moves, f)
    ensures |f.path| <= |spot.path| + Room(p, entered, spot.place)
    decreases |moves|
  {
    hide WellFormed, Known, Advance, Step, At, Room;
    if moves[0].Invoke? {
      FoundIsDerived(p, entered, spot, moves, f);
      InvokedAtPath(p, spot, moves, f);
    } else {
      AdvanceIsStep(p, spot, moves[0]);
      StepShrinks(p, entered, spot.place, moves[0]);
      var arrival := Advance(p, spot, moves[0]).value;
      if |moves| > 1 {
        CarriesIsShort(p, Inside(entered, spot.place), arrival.spot, moves[1..], f);
      } else {
        ReportedAtPath(p, spot, moves[0]);
      }
    }
  }

  lemma {:induction false} TravelConcat(p: Program, place: Place, first: seq<Move>, second: seq<Move>)
    requires WellFormed(p) && Known(p, place) && Travel(p, place, first).Some?
    requires Travel(p, Travel(p, place, first).value.place, second).Some?
    ensures var a := Travel(p, place, first).value; var b := Travel(p, a.place, second).value;
            Travel(p, place, first + second) == Some(Journey(b.place, a.names + b.names))
    decreases |first|
  {
    hide WellFormed, Known, Step;
    if first == [] {
      var names := Travel(p, place, second).value.names;
      assert first + second == second && [] + names == names;
    } else {
      var hop := Step(p, place, first[0]).value;
      TravelConcat(p, hop.place, first[1..], second);
      var a := Travel(p, hop.place, first[1..]).value;
      var b := Travel(p, a.place, second).value;
      assert (first + second)[1..] == first[1..] + second;
      assert Names(hop) + (a.names + b.names) == (Names(hop) + a.names) + b.names;
    }
  }

  function Repeat(cycle: seq<Move>, n: nat): seq<Move> {
    if n == 0 then [] else cycle + Repeat(cycle, n - 1)
  }

  /** Going round `n` times takes at least `n` properties. */
  lemma {:induction false} RoundAndRound(p: Program, variable: VariableId, cycle: seq<Move>, n: nat)
    requires WellFormed(p) && variable in p.variables && Grows(p, AtVariable(variable), [], variable, cycle)
    ensures var journey := Travel(p, AtVariable(variable), Repeat(cycle, n));
            journey.Some? && journey.value.place == AtVariable(variable) && |journey.value.names| >= n
  {
    hide WellFormed, Step;
    if n > 0 {
      RoundAndRound(p, variable, cycle, n - 1);
      TravelConcat(p, AtVariable(variable), cycle, Repeat(cycle, n - 1));
    }
  }

  /** The trace map that looks for one path of names only. */
  function Line(names: seq<string>, info: string): Trace {
    if names == [] then Trace(Some(info), None, None, [])
    else Trace(None, None, None, [(names[0], Some(Line(names[1..], info)))])
  }

  lemma {:induction false} LineIsAt(names: seq<string>, info: string)
    ensures At(Line(names, info), names) == Some(Line([], info))
  {
    if names != [] {
      LineIsAt(names[1..], info);
      assert TraceElement(Line(names, info), names[0]) == Some(Line(names[1..], info));
    }
  }

  lemma LineEnd(info: string)
    ensures Line([], info) == Trace(Some(info), None, None, [])
  {
  }

  lemma LineEntry(name: string, names: seq<string>, info: string)
    ensures Line([name] + names, info).read.None?
    ensures TraceElement(Line([name] + names, info), name) == Some(Line(names, info))
    ensures forall other :: other != name ==> TraceElement(Line([name] + names, info), other).None?
  {
    assert ([name] + names)[1..] == names;
    var entries := Line([name] + names, info).entries;
    forall other | other != name
      ensures Entry(entries, other).None?
    {
      assert entries[1..] == [];
    }
  }

  lemma AtPrefix(trace: Trace, first: seq<string>, second: seq<string>)
    requires At(trace, first + second).Some? && |first| <= 1
    ensures At(trace, first).Some? && At(At(trace, first).value, second) == At(trace, first + second)
  {
    if first != [] {
      assert (first + second)[1..] == second;
      RootKey(trace, first[0]);
      assert first == [first[0]];
    } else {
      assert first + second == second;
    }
  }

  /** A journey that takes properties ends in a report, if the trace map asks for it there. */
  lemma {:induction false} JourneyReports(p: Program, spot: Spot, moves: seq<Move>, info: string)
    returns (used: seq<Move>, node: Id)
    requires WellFormed(p) && Known(p, spot.place) && Travel(p, spot.place, moves).Some?
    requires var names := Travel(p, spot.place, moves).value.names;
             names != [] && At(spot.trace, names).Some? && At(spot.trace, names).value.read == Some(info)
    ensures FreelyCarries(p, spot, used, Found(node, spot.path + Travel(p, spot.place, moves).value.names, Read, info))
    decreases |moves|
  {
    hide WellFormed, Known, Advance, Step, At;
    var hop := Step(p, spot.place, moves[0]).value;
    var rest := Travel(p, hop.place, moves[1..]).value;
    StepIsNoInvocation(p, spot.place, moves[0]);
    AtPrefix(spot.trace, Names(hop), rest.names);
    AdvanceIsStep(p, spot, moves[0]);
    var next := Advance(p, spot, moves[0]).value.spot;
    if rest.names == [] {
      RootIsAt(next.trace);
      assert Names(hop) + [] == Names(hop);
      used, node := [moves[0]], hop.at;
    } else {
      used, node := JourneyReports(p, next, moves[1..], info);
      assert spot.path + (Names(hop) + rest.names) == next.path + rest.names;
      assert ([moves[0]] + used)[1..] == used;
      used := [moves[0]] + used;
    }
  }

  // ---- the whole walk ----

  /** What the references of a variable lead to is its plain reads and what the walk reports. */
  lemma UsesAre(t: Tracker, spot: Spot, shouldReport: bool, f: Found)
    requires WellFormed(t.program) && Known(t.program, spot.place) && spot.place.AtVariable?
    ensures (exists k: nat :: t.UseFinds({}, spot, shouldReport, k, f))
            <==> (shouldReport && ReadHere(t.program, spot, f)) || Reports(t.program, {}, spot, f)
  {
    hide WellFormed, Advance, Reports;
    UsesAreMoves(t.program, spot);
    ReportsVia(t.program, {}, spot, f);
    if move :| Via(t.program, {}, spot, move, f) {
      assert t.UseFinds({}, spot, shouldReport, move.index, f);
    }
    if shouldReport && ReadHere(t.program, spot, f) {
      var references := t.program.variables[spot.place.variable].references;
      var i :| 0 <= i < |references| && IsUse(references[i])
               && f == Found(references[i].identifier.value, spot.path, Read, spot.trace.read.value);
      assert t.UseFinds({}, spot, shouldReport, i, f);
    }
  }

  lemma GlobalIsNamed(p: Program, key: string)
    requires WellFormed(p) && Follows(p, key)
    ensures key in p.globals && GlobalNamed(p, key) == Some(p.globals[key]) && p.globals[key] in p.variables
  {
    GlobalKnown(p, key);
    IsSomeGlobal(p, GlobalNamed(p, key));
  }

  /** What the walk finds of an entry of the trace map. */
  lemma EntryFindsAre(t: Tracker, trace: Trace, i: nat, f: Found)
    requires WellFormed(t.program)
    ensures t.EntryFinds({}, trace, i, f)
            <==> i < |trace.entries| && Follows(t.program, trace.entries[i].0)
                 && TraceElement(trace, trace.entries[i].0).Some?
                 && var key := trace.entries[i].0;
                    var spot := GlobalSpot(t.program, key, [key], TraceElement(trace, key).value);
                    ReadHere(t.program, spot, f) || Reports(t.program, {}, spot, f)
  {
    hide WellFormed, Reports, ReadHere, Tracker.UseFinds, IsModifiedGlobal, TraceElement;
    if i < |trace.entries| && Follows(t.program, trace.entries[i].0) && TraceElement(trace, trace.entries[i].0).Some? {
      var key := trace.entries[i].0;
      GlobalIsNamed(t.program, key);
      UsesAre(t, GlobalSpot(t.program, key, [key], TraceElement(trace, key).value), true, f);
    }
  }

  lemma ObjectFindsAre(t: Tracker, trace: Trace, i: nat, f: Found)
    requires WellFormed(t.program)
    ensures t.ObjectFinds({}, trace, i, f)
            <==> i < |t.globalObjectNames| && Follows(t.program, t.globalObjectNames[i])
                 && Reports(t.program, {}, GlobalSpot(t.program, t.globalObjectNames[i], [], trace), f)
  {
    hide WellFormed, Reports, ReadHere, Tracker.UseFinds, IsModifiedGlobal;
    if i < |t.globalObjectNames| && Follows(t.program, t.globalObjectNames[i]) {
      var key := t.globalObjectNames[i];
      GlobalIsNamed(t.program, key);
      UsesAre(t, GlobalSpot(t.program, key, [], trace), false, f);
    }
  }

  /** The walk from one spot finds whatever can be derived there, if no value can come back longer. */
  lemma ReportsAreDerived(p: Program, spot: Spot, f: Found)
    requires WellFormed(p) && Known(p, spot.place)
    ensures Reports(p, {}, spot, f) ==> FreelyReports(p, spot, f)
    ensures NoGrowth(p, spot.place) && FreelyReports(p, spot, f) ==> Reports(p, {}, spot, f)
  {
    hide WellFormed, Known, NoGrowth, Carries, FreelyCarries;
    if Reports(p, {}, spot, f) {
      var moves :| Carries(p, {}, spot, moves, f);
      FoundIsDerived(p, {}, spot, moves, f);
    }
    if NoGrowth(p, spot.place) && FreelyReports(p, spot, f) {
      var moves :| FreelyCarries(p, spot, moves, f);
      DerivedIsFound(p, {}, spot, moves, f);
    }
  }

  lemma GlobalsDoNotGrow(p: Program, key: string, path: seq<string>, trace: Trace)
    requires WellFormed(p) && Follows(p, key) && !HasGrowingCycle(p)
    ensures NoGrowth(p, GlobalSpot(p, key, path, trace).place)
  {
    hide Follows, Grows, WellFormed;
    GlobalIsNamed(p, key);
    forall prefix, variable, cycle
      ensures !Grows(p, AtVariable(p.globals[key]), prefix, variable, cycle)
    {
      assert !GrowsFromGlobal(p, key, prefix, variable, cycle);
    }
  }

  /** Only what can be derived is found, and all of it unless the program has a growing alias cycle. */
  lemma FoundExactly(t: Tracker, trace: Trace, f: Found)
    requires WellFormed(t.program)
    ensures t.Finds({}, trace, f) ==> Derivable(t, trace, f)
    ensures !HasGrowingCycle(t.program) && Derivable(t, trace, f) ==> t.Finds({}, trace, f)
  {
    hide WellFormed, Reports, FreelyReports, ReadHere, HasGrowingCycle, Follows, TraceElement, NoGrowth,
         Tracker.EntryFinds, Tracker.ObjectFinds;
    var p := t.program;
    forall i: nat
      ensures t.EntryFinds({}, trace, i, f) ==> DerivableFromEntry(p, trace, i, f)
      ensures !HasGrowingCycle(p) && DerivableFromEntry(p, trace, i, f) ==> t.EntryFinds({}, trace, i, f)
    {
      EntryFindsAre(t, trace, i, f);
      if i < |trace.entries| && Follows(p, trace.entries[i].0) && TraceElement(trace, trace.entries[i].0).Some? {
        var key := trace.entries[i].0;
        ReportsAreDerived(p, GlobalSpot(p, key, [key], TraceElement(trace, key).value), f);
        if !HasGrowingCycle(p) {
          GlobalsDoNotGrow(p, key, [key], TraceElement(trace, key).value);
        }
      }
    }
    forall i: nat
      ensures t.ObjectFinds({}, trace, i, f) ==> DerivableFromObject(p, t.globalObjectNames, trace, i, f)
      ensures !HasGrowingCycle(p) && DerivableFromObject(p, t.globalObjectNames, trace, i, f) ==>
                t.ObjectFinds({}, trace, i, f)
    {
      ObjectFindsAre(t, trace, i, f);
      if i < |t.globalObjectNames| && Follows(p, t.globalObjectNames[i]) {
        var key := t.globalObjectNames[i];
        ReportsAreDerived(p, GlobalSpot(p, key, [], trace), f);
        if !HasGrowingCycle(p) {
          GlobalsDoNotGrow(p, key, [], trace);
        }
      }
    }
  }

  lemma PlainReadAtPath(p: Program, spot: Spot, f: Found)
    requires WellFormed(p) && Known(p, spot.place) && spot.place.AtVariable?
    ensures ReadHere(p, spot, f) ==> f.path == spot.path
  {
    hide WellFormed;
  }

  lemma ShortFrom(p: Program, spot: Spot, f: Found)
    requires WellFormed(p) && Known(p, spot.place) && spot.place.AtVariable?
    requires ReadHere(p, spot, f) || Reports(p, {}, spot, f)
    ensures |f.path| <= |spot.path| + Times(|p.variables|, Span(p))
  {
    hide WellFormed, Carries, Span, Times, ReadHere;
    PlainReadAtPath(p, spot, f);
    assert p.variables.Keys - {} == p.variables.Keys;
    if Reports(p, {}, spot, f) {
      var moves :| Carries(p, {}, spot, moves, f);
      CarriesIsShort(p, {}, spot, moves, f);
    }
  }

  /** The paths the walk finds are bounded by the program, whatever the trace map. */
  lemma FoundPathsAreShort(t: Tracker, trace: Trace, f: Found)
    requires WellFormed(t.program) && t.Finds({}, trace, f)
    ensures |f.path| <= 1 + Times(|t.program.variables|, Span(t.program))
  {
    hide WellFormed, ReadHere, Follows, TraceElement, Tracker.EntryFinds, Tracker.ObjectFinds, Carries, Span, Times;
    var p := t.program;
    assert p.variables.Keys - {} == p.variables.Keys;
    if i: nat :| t.EntryFinds({}, trace, i, f) {
      EntryFindsAre(t, trace, i, f);
      var key := trace.entries[i].0;
      ShortFrom(p, GlobalSpot(p, key, [key], TraceElement(trace, key).value), f);
    } else {
      var i: nat :| t.ObjectFinds({}, trace, i, f);
      ObjectFindsAre(t, trace, i, f);
      ShortFrom(p, GlobalSpot(p, t.globalObjectNames[i], [], trace), f);
    }
  }

  lemma NowhereToGo(p: Program, place: Place)
    requires WellFormed(p) && Known(p, place)
    ensures Travel(p, place, []) == Some(Journey(place, []))
  {
  }

  lemma LongJourney(p: Program, key: string, prefix: seq<Move>, variable: VariableId, cycle: seq<Move>, n: nat)
    returns (moves: seq<Move>, names: seq<string>)
    requires WellFormed(p) && GrowsFromGlobal(p, key, prefix, variable, cycle)
    ensures key in p.globals && p.globals[key] in p.variables && |names| > n
    ensures var journey := Travel(p, AtVariable(p.globals[key]), moves); journey.Some? && journey.value.names == names
  {
    hide WellFormed, Follows, Travel;
    GlobalIsNamed(p, key);
    var start := AtVariable(p.globals[key]);
    NowhereToGo(p, AtVariable(variable));
    RoundAndRound(p, variable, cycle, n + 1);
    TravelConcat(p, start, prefix, Repeat(cycle, n + 1));
    moves := prefix + Repeat(cycle, n + 1);
    names := Travel(p, start, moves).value.names;
  }

  /** A growing alias cycle makes the walk miss something, for some trace map. */
  lemma GrowthLosesReferences(t: Tracker) returns (trace: Trace, f: Found)
    requires WellFormed(t.program) && HasGrowingCycle(t.program)
    ensures Derivable(t, trace, f) && !t.Finds({}, trace, f)
  {
    hide WellFormed, Follows, Grows, Travel, Tracker.Finds, FreelyCarries, ReadHere, Span, Times;
    var p := t.program;
    var key, prefix, variable, cycle :| GrowsFromGlobal(p, key, prefix, variable, cycle);
    GlobalIsNamed(p, key);
    var bound := 1 + Times(|p.variables|, Span(p));
    var moves, names := LongJourney(p, key, prefix, variable, cycle, bound);
    var next := Line(names, "info");
    trace := Trace(None, None, None, [(key, Some(next))]);
    var spot := GlobalSpot(p, key, [key], next);
    LineIsAt(names, "info");
    var used, node := JourneyReports(p, spot, moves, "info");
    f := Found(node, [key] + names, Read, "info");
    assert FreelyReports(p, spot, f);
    assert TraceElement(trace, key) == Some(next);
    assert DerivableFromEntry(p, trace, 0, f);
    if t.Finds({}, trace, f) {
      FoundPathsAreShort(t, trace, f);
    }
  }

  /** The walk finds everything that can be derived, for every trace map, if and only if the program has
      no alias cycle that takes a property. */
  lemma CompleteExactly(t: Tracker)
    requires WellFormed(t.program)
    ensures (forall trace, f :: Derivable(t, trace, f) ==> t.Finds({}, trace, f)) <==> !HasGrowingCycle(t.program)
  {
    hide WellFormed, HasGrowingCycle, Derivable, Tracker.Finds;
    if HasGrowingCycle(t.program) {
      var trace, f := GrowthLosesReferences(t);
      assert Derivable(t, trace, f) && !t.Finds({}, trace, f);
    } else {
      forall trace, f | Derivable(t, trace, f)
        ensures t.Finds({}, trace, f)
      {
        FoundExactly(t, trace, f);
      }
    }
  }
}
