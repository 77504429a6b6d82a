/** What the `ReferenceTracker` of ast_utils.ts finds, said in the syntax tree, the scopes and the trace
    map themselves. */
module TrackerLaws {
  import opened Options
  import opened Ast
  import opened Traces
  import opened ValueMoves
  import opened ReferenceTracker
  import opened PassedValues

  /** The trace map holds `next` under `key`. */
  ghost predicate Holds(trace: Trace, key: string, next: Trace) {
    exists i :: 0 <= i < |trace.entries| && trace.entries[i] == (key, Some(next))
  }

  /** No name stands twice in the trace map. */
  ghost predicate Distinct(trace: Trace) {
    forall i, k :: 0 <= i < k < |trace.entries| ==> trace.entries[i].0 != trace.entries[k].0
  }

  lemma {:induction false} EntryIs(entries: seq<(string, Option<Trace>)>, i: nat)
    requires i < |entries|
    requires forall i, k :: 0 <= i < k < |entries| ==> entries[i].0 != entries[k].0
    ensures Entry(entries, entries[i].0) == entries[i].1
    decreases |entries|
  {
    if i > 0 {
      assert entries[1..][i - 1] == entries[i];
      EntryIs(entries[1..], i - 1);
    }
  }

  lemma {:induction false} EntryIsHeld(entries: seq<(string, Option<Trace>)>, key: string)
    ensures Entry(entries, key).Some? ==>
              exists i :: 0 <= i < |entries| && entries[i] == (key, Entry(entries, key))
    decreases |entries|
  {
    if entries != [] && entries[0].0 != key && Entry(entries, key).Some? {
      EntryIsHeld(entries[1..], key);
      var i :| 0 <= i < |entries[1..]| && entries[1..][i] == (key, Entry(entries, key));
      assert entries[i + 1] == (key, Entry(entries, key));
    } else if entries != [] && entries[0].0 == key {
      assert entries[0] == (key, Entry(entries, key));
    }
  }

  lemma HeldIsElement(trace: Trace, key: string, next: Trace)
    requires Distinct(trace) && Holds(trace, key, next)
    ensures TraceElement(trace, key) == Some(next)
  {
    var i :| 0 <= i < |trace.entries| && trace.entries[i] == (key, Some(next));
    EntryIs(trace.entries, i);
  }

  lemma ElementIsHeld(trace: Trace, key: string)
    ensures TraceElement(trace, key).Some? ==> Holds(trace, key, TraceElement(trace, key).value)
  {
    EntryIsHeld(trace.entries, key);
  }

  // ---- from the trace map ----

  /** `maps` are the trace maps from `trace` along the names of `path`. */
  ghost predicate Along(trace: Trace, path: seq<string>, maps: seq<Trace>) {
    && |maps| == |path| + 1 && maps[0] == trace
    && forall i :: 0 <= i < |path| ==> Holds(maps[i], path[i], maps[i + 1])
  }

  lemma {:induction false} AtIsAlong(trace: Trace, path: seq<string>)
    requires At(trace, path).Some?
    ensures exists maps: seq<Trace> :: Along(trace, path, maps) && maps[|path|] == At(trace, path).value
    decreases |path|
  {
    hide Holds;
    if path == [] {
      assert Along(trace, path, [trace]);
    } else {
      var next := TraceElement(trace, path[0]).value;
      ElementIsHeld(trace, path[0]);
      AtIsAlong(next, path[1..]);
      var rest :| Along(next, path[1..], rest) && rest[|path[1..]|] == At(next, path[1..]).value;
      var maps := [trace] + rest;
      forall i | 0 <= i < |path|
        ensures Holds(maps[i], path[i], maps[i + 1])
      {
        if i > 0 {
          assert path[i] == path[1..][i - 1] && maps[i] == rest[i - 1] && maps[i + 1] == rest[i];
        }
      }
      assert Along(trace, path, maps);
    }
  }

  /** Whatever is found carries what the trace map stores at the end of its path: for a read what is
      stored for reads, for a call, at a call, what is stored for calls, and so for constructions. */
  lemma FoundSays(tracker: Tracker, entered: set<VariableId>, trace: Trace, f: Found)
    requires WellFormed(tracker.program) && tracker.Finds(entered, trace, f)
    ensures exists maps: seq<Trace> :: Along(trace, f.path, maps)
              && match f.kind
                 case Read => maps[|f.path|].read == Some(f.info)
                 case Call =>
                   maps[|f.path|].call == Some(f.info) && f.node in tracker.program.heap
                   && tracker.program.heap[f.node].type_ == Some("CallExpression")
                 case Construct =>
                   maps[|f.path|].construct == Some(f.info) && f.node in tracker.program.heap
                   && tracker.program.heap[f.node].type_ == Some("NewExpression")
  {
    hide WellFormed, Along, At, tracker.Finds;
    tracker.FoundIsCorrect(entered, trace, f);
    AtIsAlong(trace, f.path);
  }

  // ---- from the scopes ----

  /** A variable of the global scope that the program neither declares nor writes. */
  ghost predicate Untouched(p: Program, key: string) {
    && key in p.globals && p.globals[key] in p.variables
    && p.variables[p.globals[key]].defs == 0
    && forall reference :: reference in p.variables[p.globals[key]].references ==> reference.isWrite != Some(true)
  }

  lemma UntouchedIsFollowed(p: Program, key: string)
    requires WellFormed(p)
    ensures Follows(p, key) <==> Untouched(p, key)
    ensures Untouched(p, key) ==> GlobalNamed(p, key) == Some(p.globals[key])
  {
    GlobalKnown(p, key);
    if key in p.globals {
      var references := p.variables[p.globals[key]].references;
      if reference :| reference in references && reference.isWrite == Some(true) {
        var i :| 0 <= i < |references| && references[i] == reference;
        assert references[i].isWrite == Some(true);
      }
    }
  }

  /** A use that reads, as far as the scopes know. */
  ghost predicate ReadAt(variable: Variable, node: Id) {
    exists reference :: reference in variable.references
                        && reference.identifier == Some(node) && reference.isRead != Some(false)
  }

  lemma StartIsRead(tracker: Tracker, entered: set<VariableId>, spot: Spot, shouldReport: bool, f: Found)
    requires WellFormed(tracker.program) && spot.place.AtVariable? && Known(tracker.program, spot.place)
    requires exists k: nat :: tracker.UseFinds(entered, spot, shouldReport, k, f)
    ensures exists start: Id :: ReadAt(tracker.program.variables[spot.place.variable], start)
  {
    hide WellFormed, Via;
    var k: nat :| tracker.UseFinds(entered, spot, shouldReport, k, f);
    var references := tracker.program.variables[spot.place.variable].references;
    assert references[k] in references;
    assert ReadAt(tracker.program.variables[spot.place.variable], references[k].identifier.value);
  }

  /** Every finding starts at an untouched global that the trace map or the global object names list,
      at a node where that global is read. */
  lemma FoundStarts(tracker: Tracker, entered: set<VariableId>, trace: Trace, f: Found)
    requires WellFormed(tracker.program) && tracker.Finds(entered, trace, f)
    ensures exists key, start: Id ::
              && Untouched(tracker.program, key) && tracker.program.globals[key] !in entered
              && ReadAt(tracker.program.variables[tracker.program.globals[key]], start)
              && (key in tracker.globalObjectNames || exists next :: Holds(trace, key, next))
  {
    hide WellFormed, Untouched, tracker.UseFinds, IsUse, Follows, TraceElement, Holds;
    if i: nat :| tracker.EntryFinds(entered, trace, i, f) {
      var key := trace.entries[i].0;
      UntouchedIsFollowed(tracker.program, key);
      GlobalKnown(tracker.program, key);
      ElementIsHeld(trace, key);
      var spot := Spot(AtVariable(tracker.program.globals[key]), [key], TraceElement(trace, key).value);
      StartIsRead(tracker, entered, spot, true, f);
    } else {
      var i: nat :| tracker.ObjectFinds(entered, trace, i, f);
      var key := tracker.globalObjectNames[i];
      UntouchedIsFollowed(tracker.program, key);
      GlobalKnown(tracker.program, key);
      StartIsRead(tracker, entered, Spot(AtVariable(tracker.program.globals[key]), [], trace), false, f);
    }
  }

  /** Every read of an untouched global the trace map has a read for is found. */
  lemma ReadIsFound(tracker: Tracker, entered: set<VariableId>, trace: Trace, key: string, next: Trace, node: Id)
    requires WellFormed(tracker.program) && Distinct(trace) && Holds(trace, key, next)
    requires Untouched(tracker.program, key) && tracker.program.globals[key] !in entered
    requires ReadAt(tracker.program.variables[tracker.program.globals[key]], node) && next.read.Some?
    ensures tracker.Finds(entered, trace, Found(node, [key], Read, next.read.value))
  {
    hide WellFormed, Untouched, Via, Follows, TraceElement;
    var f := Found(node, [key], Read, next.read.value);
    UntouchedIsFollowed(tracker.program, key);
    HeldIsElement(trace, key, next);
    GlobalKnown(tracker.program, key);
    var spot := Spot(AtVariable(tracker.program.globals[key]), [key], next);
    var references := tracker.program.variables[tracker.program.globals[key]].references;
    var reference :| reference in references && reference.identifier == Some(node) && reference.isRead != Some(false);
    var k: nat :| k < |references| && references[k] == reference;
    assert tracker.UseFinds(entered, spot, true, k, f);
    var i :| 0 <= i < |trace.entries| && trace.entries[i] == (key, Some(next));
    assert tracker.EntryFinds(entered, trace, i, f);
  }

  /** So is everything a read of an untouched global leads to. */
  lemma LedToIsFound(tracker: Tracker, entered: set<VariableId>, trace: Trace, key: string, next: Trace, node: Id,
                     f: Found)
    requires WellFormed(tracker.program) && Distinct(trace) && Holds(trace, key, next)
    requires Untouched(tracker.program, key) && tracker.program.globals[key] !in entered
    requires ReadAt(tracker.program.variables[tracker.program.globals[key]], node) && node in tracker.program.heap
    requires Reports(tracker.program, entered + {tracker.program.globals[key]}, Spot(AtNode(node), [key], next), f)
    ensures tracker.Finds(entered, trace, f)
  {
    hide WellFormed, Untouched, Follows, TraceElement, Reports;
    UntouchedIsFollowed(tracker.program, key);
    HeldIsElement(trace, key, next);
    GlobalKnown(tracker.program, key);
    var spot := Spot(AtVariable(tracker.program.globals[key]), [key], next);
    var references := tracker.program.variables[tracker.program.globals[key]].references;
    var reference :| reference in references && reference.identifier == Some(node) && reference.isRead != Some(false);
    var k: nat :| k < |references| && references[k] == reference;
    UseMoves(tracker.program, spot, tracker.program.globals[key], k);
    assert Via(tracker.program, entered, spot, Use(k), f);
    assert tracker.UseFinds(entered, spot, true, k, f);
    var i :| 0 <= i < |trace.entries| && trace.entries[i] == (key, Some(next));
    assert tracker.EntryFinds(entered, trace, i, f);
  }

  /** And everything a read of an untouched global object leads to, under the whole trace map. */
  lemma LedToFromObject(tracker: Tracker, entered: set<VariableId>, trace: Trace, key: string, node: Id, f: Found)
    requires WellFormed(tracker.program) && key in tracker.globalObjectNames
    requires Untouched(tracker.program, key) && tracker.program.globals[key] !in entered
    requires ReadAt(tracker.program.variables[tracker.program.globals[key]], node) && node in tracker.program.heap
    requires Reports(tracker.program, entered + {tracker.program.globals[key]}, Spot(AtNode(node), [], trace), f)
    ensures tracker.Finds(entered, trace, f)
  {
    hide WellFormed, Untouched, Follows, Reports;
    UntouchedIsFollowed(tracker.program, key);
    GlobalKnown(tracker.program, key);
    var spot := Spot(AtVariable(tracker.program.globals[key]), [], trace);
    var references := tracker.program.variables[tracker.program.globals[key]].references;
    var reference :| reference in references && reference.identifier == Some(node) && reference.isRead != Some(false);
    var k: nat :| k < |references| && references[k] == reference;
    UseMoves(tracker.program, spot, tracker.program.globals[key], k);
    assert Via(tracker.program, entered, spot, Use(k), f);
    assert tracker.UseFinds(entered, spot, false, k, f);
    var i :| 0 <= i < |tracker.globalObjectNames| && tracker.globalObjectNames[i] == key;
    assert tracker.ObjectFinds(entered, trace, i, f);
  }

  lemma ReportedRead(p: Program, spot: Spot, move: Move)
    requires WellFormed(p) && Known(p, spot.place) && Advance(p, spot, move).Some?
    ensures var report := Advance(p, spot, move).value.report;
            report.Some? && report.value.kind.Read? ==> report.value.path != []
  {
    hide WellFormed, Climb, Get, TraceElement, Step;
  }

  lemma {:induction false} ReadsGoDown(p: Program, entered: set<VariableId>, spot: Spot, moves: seq<Move>, f: Found)
    requires WellFormed(p) && Known(p, spot.place) && Carries(p, entered, spot, moves, f) && f.kind.Read?
    ensures f.path != []
    decreases |moves|
  {
    hide WellFormed, Climb, Get, TraceElement;
    if |moves| > 1 {
      ReadsGoDown(p, Inside(entered, spot.place), Advance(p, spot, moves[0]).value.spot, moves[1..], f);
    } else {
      ReportedRead(p, spot, moves[0]);
    }
  }

  lemma UsesReadBelow(tracker: Tracker, entered: set<VariableId>, spot: Spot, shouldReport: bool, f: Found)
    requires WellFormed(tracker.program) && spot.place.AtVariable? && Known(tracker.program, spot.place)
    requires exists k: nat :: tracker.UseFinds(entered, spot, shouldReport, k, f)
    requires f.kind.Read? && (shouldReport ==> spot.path != [])
    ensures f.path != []
  {
    hide WellFormed, Advance;
    var k: nat :| tracker.UseFinds(entered, spot, shouldReport, k, f);
    if Via(tracker.program, entered, spot, Use(k), f) {
      ReportsVia(tracker.program, entered, spot, f);
      var moves :| Carries(tracker.program, entered, spot, moves, f);
      ReadsGoDown(tracker.program, entered, spot, moves, f);
    }
  }

  /** A read is never reported of a global object itself, only of what its names lead to. */
  lemma ReadsHavePaths(tracker: Tracker, entered: set<VariableId>, trace: Trace, f: Found)
    requires WellFormed(tracker.program) && tracker.Finds(entered, trace, f) && f.kind.Read?
    ensures f.path != []
  {
    hide WellFormed, TraceElement, tracker.UseFinds;
    if i: nat :| tracker.EntryFinds(entered, trace, i, f) {
      var key := trace.entries[i].0;
      GlobalKnown(tracker.program, key);
      IsSomeGlobal(tracker.program, GlobalNamed(tracker.program, key));
      var spot := Spot(AtVariable(GlobalNamed(tracker.program, key).value), [key], TraceElement(trace, key).value);
      UsesReadBelow(tracker, entered, spot, true, f);
    } else {
      var i: nat :| tracker.ObjectFinds(entered, trace, i, f);
      var key := tracker.globalObjectNames[i];
      GlobalKnown(tracker.program, key);
      IsSomeGlobal(tracker.program, GlobalNamed(tracker.program, key));
      var spot := Spot(AtVariable(GlobalNamed(tracker.program, key).value), [], trace);
      UsesReadBelow(tracker, entered, spot, false, f);
    }
  }

  // ---- from the syntax tree ----

  /** The node's own parent, which does not merely stand for it. */
  ghost predicate Under(p: Program, node: Id, parent: Id) {
    && node in p.heap && parent in p.heap && p.heap[parent].type_.Some?
    && Get(p.heap[node], "parent") == Ref(parent) && forall above: Id :: !StandsFor(p.heap, node, above)
  }

  lemma UnderIsTop(p: Program, node: Id, parent: Id)
    requires WellFormed(p) && Under(p, node, parent)
    ensures Climb(p, node) == node && Parent(p.heap, node) == Some(parent)
  {
    hide WellFormed, StandsFor;
    PassThroughStands(p, node);
  }

  lemma SameTop(p: Program, child: Id, parent: Id)
    requires WellFormed(p) && StandsFor(p.heap, child, parent)
    ensures child in p.heap && parent in p.heap && Climb(p, child) == Climb(p, parent)
  {
    hide WellFormed, IsPassThrough;
    PassThroughStands(p, child);
    assert Parent(p.heap, child) == Some(parent);
  }

  lemma SameAdvance(p: Program, child: Id, parent: Id, path: seq<string>, trace: Trace, move: Move)
    requires WellFormed(p) && child in p.heap && parent in p.heap && Climb(p, child) == Climb(p, parent)
    ensures Advance(p, Spot(AtNode(child), path, trace), move) == Advance(p, Spot(AtNode(parent), path, trace), move)
  {
    hide WellFormed, Climb, HopUp, Parent, Slot, TraceElement, Get;
  }

  /** A value a parent stands for leads to what the parent leads to. */
  lemma StandsForLeads(p: Program, entered: set<VariableId>, child: Id, parent: Id, path: seq<string>, trace: Trace,
                       f: Found)
    requires WellFormed(p) && StandsFor(p.heap, child, parent)
    ensures Reports(p, entered, Spot(AtNode(child), path, trace), f)
            <==> Reports(p, entered, Spot(AtNode(parent), path, trace), f)
  {
    hide WellFormed, StandsFor, Reports, Climb, HopUp, Invocation, Arrive;
    var lower := Spot(AtNode(child), path, trace);
    var upper := Spot(AtNode(parent), path, trace);
    SameTop(p, child, parent);
    forall move
      ensures Advance(p, lower, move) == Advance(p, upper, move)
    {
      SameAdvance(p, child, parent, path, trace, move);
    }
    hide Advance;
    ReportsVia(p, entered, lower, f);
    ReportsVia(p, entered, upper, f);
    if move :| Via(p, entered, lower, move, f) {
      assert Via(p, entered, upper, move, f);
    }
    if move :| Via(p, entered, upper, move, f) {
      assert Via(p, entered, lower, move, f);
    }
  }

  lemma OnlyMove(p: Program, entered: set<VariableId>, spot: Spot, move: Move)
    requires WellFormed(p) && Known(p, spot.place) && !spot.place.AtVariable? && Advance(p, spot, move).Some?
    requires forall other :: other != move ==> Advance(p, spot, other).None?
    ensures var arrival := Advance(p, spot, move).value;
            forall f :: Reports(p, entered, spot, f)
              <==> arrival.report == Some(f) || Reports(p, entered, arrival.spot, f)
  {
    hide WellFormed, Known, Advance, Reports;
    forall f
      ensures var arrival := Advance(p, spot, move).value;
              Reports(p, entered, spot, f) <==> arrival.report == Some(f) || Reports(p, entered, arrival.spot, f)
    {
      ReportsVia(p, entered, spot, f);
      assert Via(p, entered, spot, move, f)
          <==> Advance(p, spot, move).value.report == Some(f)
               || Reports(p, entered, Advance(p, spot, move).value.spot, f);
    }
  }

  /** A property of the value that the trace map has a read for is found where it is taken, and what the
      property leads to is found. */
  lemma MemberIsFound(p: Program, entered: set<VariableId>, node: Id, parent: Id, path: seq<string>, trace: Trace,
                      key: string, next: Trace)
    requires WellFormed(p) && Under(p, node, parent) && Distinct(trace) && Holds(trace, key, next)
    requires p.heap[parent].type_ == Some("MemberExpression") && Get(p.heap[parent], "object") == Ref(node)
    requires p.propertyName(parent) == Some(key) && key != ""
    ensures forall f :: Reports(p, entered, Spot(AtNode(node), path, trace), f)
              <==> (next.read.Some? && f == Found(parent, path + [key], Read, next.read.value))
                   || Reports(p, entered, Spot(AtNode(parent), path + [key], next), f)
  {
    hide WellFormed, StandsFor, Reports, Climb, TraceElement, Get, Holds, Distinct;
    var spot := Spot(AtNode(node), path, trace);
    UnderIsTop(p, node, parent);
    HeldIsElement(trace, key, next);
    SelectMoves(p, spot, node, parent);
    MovesUp(p, spot, node, parent);
    hide Advance;
    OnlyMove(p, entered, spot, Select);
  }

  /** A call or a construction of the value is all there is to find there, and it is found if the trace
      map has one. */
  lemma InvocationIsFound(p: Program, entered: set<VariableId>, node: Id, parent: Id, path: seq<string>, trace: Trace)
    requires WellFormed(p) && Under(p, node, parent)
    requires p.heap[parent].type_ == Some("CallExpression") || p.heap[parent].type_ == Some("NewExpression")
    ensures forall f :: Reports(p, entered, Spot(AtNode(node), path, trace), f)
              <==> Get(p.heap[parent], "callee") == Ref(node)
                   && if p.heap[parent].type_ == Some("CallExpression")
                      then trace.call.Some? && f == Found(parent, path, Call, trace.call.value)
                      else trace.construct.Some? && f == Found(parent, path, Construct, trace.construct.value)
  {
    hide WellFormed, StandsFor, Climb, Get;
    var spot := Spot(AtNode(node), path, trace);
    UnderIsTop(p, node, parent);
    var kind := if HasType(p.heap[parent], "CallExpression") then Call else Construct;
    var found := if IsRef(Get(p.heap[parent], "callee"), node) && Slot(trace, kind).Some?
                 then [Found(parent, path, kind, Slot(trace, kind).value)] else [];
    MovesUp(p, spot, node, parent);
    InvocationFinds(p, entered, spot, node, parent, kind, found);
    hide Advance, Reports;
    OneMove(p, entered, spot, Invoke, found);
  }
}
