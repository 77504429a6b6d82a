/** The `ReferenceTracker` of ast_utils.ts: it follows the values of global variables against a map of
    the names to look for. */
module ReferenceTracker {
  import opened Options
  import opened Ast
  import opened Traces
  import opened ValueMoves
  import opened PassedValues

  class Tracker {
    const program: Program
    const globalObjectNames: seq<string>
    var variableStack: seq<VariableId>

    constructor (program: Program, globalObjectNames: Option<seq<string>>)
      ensures this.program == program && variableStack == []
      ensures this.globalObjectNames
              == if globalObjectNames.Some? then globalObjectNames.value else ["global", "globalThis", "self", "window"]
    {
      this.program := program;
      this.globalObjectNames :=
        if globalObjectNames.Some? then globalObjectNames.value else ["global", "globalThis", "self", "window"];
      variableStack := [];
    }

    ghost function Entered(): set<VariableId>
      reads this
    {
      set v | v in variableStack
    }

    /** The variables that are not on the stack; entering one leaves fewer. */
    ghost function Free(): set<VariableId>
      reads this
    {
      program.variables.Keys - Entered()
    }

    /** What reference `i` of a variable leads to, its own report included. */
    ghost predicate UseFinds(entered: set<VariableId>, spot: Spot, shouldReport: bool, i: nat, f: Found)
      requires WellFormed(program) && spot.place.AtVariable? && spot.place.variable in program.variables
    {
      var references := program.variables[spot.place.variable].references;
      && i < |references| && IsUse(references[i])
      && ((shouldReport && spot.trace.read.Some?
           && f == Found(references[i].identifier.value, spot.path, Read, spot.trace.read.value))
          || Via(program, entered, spot, Use(i), f))
    }

    method IterateVariableReferences(variable: VariableId, path: seq<string>, trace: Trace, shouldReport: bool)
      returns (found: seq<Found>)
      requires WellFormed(program) && variable in program.variables
      modifies this`variableStack
      ensures variableStack == old(variableStack)
      ensures forall f :: f in found <==>
                variable !in Entered()
                && exists i: nat :: UseFinds(Entered(), Spot(AtVariable(variable), path, trace), shouldReport, i, f)
      decreases Free(), 0, 0, 0
    {
      hide WellFormed, Advance, Via, Exactly, UseFinds;
      found := [];
      if variable in variableStack {
        return;
      }
      ghost var entered, free := Entered(), Free();
      ghost var spot := Spot(AtVariable(variable), path, trace);
      variableStack := variableStack + [variable];
      assert Entered() == Inside(entered, AtVariable(variable));
      assert variable in free && variable !in Free() && Free() <= free;
      var references := program.variables[variable].references;
      for i := 0 to |references|
        invariant variableStack == old(variableStack) + [variable]
        invariant forall f :: f in found <==> exists k :: 0 <= k < i && UseFinds(entered, spot, shouldReport, k, f)
      {
        var more: seq<Found> := [];
        if IsUse(references[i]) {
          var node := references[i].identifier.value;
          IdentifierKnown(program, variable, i);
          if shouldReport && trace.read.Some? {
            more := [Found(node, path, Read, trace.read.value)];
          }
          var below := IteratePropertyReferences(node, path, trace);
          UseMoves(program, spot, variable, i);
          MoveFinds(program, entered, spot, Use(i), below, below);
          more := more + below;
          UseFound(entered, spot, shouldReport, i, below, more);
        } else {
          UseUnread(entered, spot, shouldReport, i);
        }
        OneMoreUse(entered, spot, shouldReport, i, found, more);
        found := found + more;
      }
      UsesAreReferences(entered, spot, shouldReport);
      variableStack := variableStack[..|variableStack| - 1];
      assert variableStack == old(variableStack) && Entered() == entered;
    }

    lemma UseFound(entered: set<VariableId>, spot: Spot, shouldReport: bool, i: nat, below: seq<Found>,
                   more: seq<Found>)
      requires WellFormed(program) && spot.place.AtVariable? && spot.place.variable in program.variables
      requires i < |program.variables[spot.place.variable].references|
      requires var reference := program.variables[spot.place.variable].references[i];
               IsUse(reference) && ExactlyVia(program, entered, spot, Use(i), below)
               && more == (if shouldReport && spot.trace.read.Some?
                           then [Found(reference.identifier.value, spot.path, Read, spot.trace.read.value)] else [])
                           + below
      ensures forall f :: f in more <==> UseFinds(entered, spot, shouldReport, i, f)
    {
      hide Via;
    }

    lemma UseUnread(entered: set<VariableId>, spot: Spot, shouldReport: bool, i: nat)
      requires WellFormed(program) && spot.place.AtVariable? && spot.place.variable in program.variables
      requires i < |program.variables[spot.place.variable].references|
      requires !IsUse(program.variables[spot.place.variable].references[i])
      ensures forall f :: !UseFinds(entered, spot, shouldReport, i, f)
    {
    }

    lemma UsesAreReferences(entered: set<VariableId>, spot: Spot, shouldReport: bool)
      requires WellFormed(program) && spot.place.AtVariable? && spot.place.variable in program.variables
      ensures forall i: nat, f :: UseFinds(entered, spot, shouldReport, i, f) ==>
                i < |program.variables[spot.place.variable].references|
    {
    }

    lemma OneMoreUse(entered: set<VariableId>, spot: Spot, shouldReport: bool, i: nat, found: seq<Found>,
                     more: seq<Found>)
      requires WellFormed(program) && spot.place.AtVariable? && spot.place.variable in program.variables
      requires forall f :: f in found <==> exists k :: 0 <= k < i && UseFinds(entered, spot, shouldReport, k, f)
      requires forall f :: f in more <==> UseFinds(entered, spot, shouldReport, i, f)
      ensures forall f :: f in found + more
                <==> exists k :: 0 <= k < i + 1 && UseFinds(entered, spot, shouldReport, k, f)
    {
      hide UseFinds;
    }

    method IteratePropertyReferences(rootNode: Id, path: seq<string>, trace: Trace) returns (found: seq<Found>)
      requires WellFormed(program) && rootNode in program.heap
      modifies this`variableStack
      ensures variableStack == old(variableStack)
      ensures Exactly(program, Entered(), Spot(AtNode(rootNode), path, trace), found)
      decreases Free(), 2, Depth(program, rootNode), 1
    {
      hide Exactly, ExactlyVia, WellFormed, Get, Advance, Climb, ChildNode, Parent, Slot;
      ghost var spot := Spot(AtNode(rootNode), path, trace);
      ghost var entered := Entered();
      found := [];
      var node := ClimbLoop(rootNode);
      var parent := Parent(program.heap, node);
      if parent.None? {
        NoParentNoMoves(program, spot);
        NoMoves(program, entered, spot);
        return;
      }
      ParentIsShallower(program, node);
      ClimbIsShallow(program, rootNode);
      var up := parent.value;
      var record := program.heap[up];
      MovesUp(program, spot, node, up);
      if HasType(record, "MemberExpression") {
        if IsRef(Get(record, "object"), node) {
          found := AtMember(rootNode, node, up, path, trace);
          OneMove(program, entered, spot, Select, found);
        } else {
          NoMoves(program, entered, spot);
        }
      } else if HasType(record, "CallExpression") || HasType(record, "NewExpression") {
        var kind := if HasType(record, "CallExpression") then Call else Construct;
        found := [];
        if IsRef(Get(record, "callee"), node) && Slot(trace, kind).Some? {
          found := [Found(up, path, kind, Slot(trace, kind).value)];
        }
        InvocationFinds(program, entered, spot, node, up, kind, found);
        OneMove(program, entered, spot, Invoke, found);
      } else if HasType(record, "AssignmentExpression") {
        if IsRef(Get(record, "right"), node) {
          var stored := IterateLhsReferences(ChildNode(program.heap, record, "left"), path, trace);
          MoveFinds(program, entered, spot, Store, stored, stored);
          var passed := IteratePropertyReferences(up, path, trace);
          MoveFinds(program, entered, spot, Assign, passed, passed);
          TwoMoves(program, entered, spot, Store, Assign, stored, passed);
          found := stored + passed;
        } else {
          NoMoves(program, entered, spot);
        }
      } else if HasType(record, "AssignmentPattern") {
        if IsRef(Get(record, "right"), node) {
          found := IterateLhsReferences(ChildNode(program.heap, record, "left"), path, trace);
          MoveFinds(program, entered, spot, Store, found, found);
          OneMove(program, entered, spot, Store, found);
        } else {
          NoMoves(program, entered, spot);
        }
      } else if HasType(record, "VariableDeclarator") && IsRef(Get(record, "init"), node) {
        found := IterateLhsReferences(ChildNode(program.heap, record, "id"), path, trace);
        MoveFinds(program, entered, spot, Store, found, found);
        OneMove(program, entered, spot, Store, found);
      } else {
        NoMoves(program, entered, spot);
      }
    }

    /** The loop over pass-through parents ends at the outermost expression with the value of the node:
        the node passes it on from parent to parent, and there it is passed on no further. */
    method ClimbLoop(rootNode: Id) returns (node: Id)
      requires WellFormed(program) && rootNode in program.heap
      ensures exists path :: Stands(program.heap, path, rootNode, node)
      ensures forall parent: Id :: !StandsFor(program.heap, node, parent)
      ensures node in program.heap && !IsPassThrough(program, node)
      ensures exists path :: PassesOn(program, path, rootNode, node)
      ensures node == Climb(program, rootNode)
    {
      hide WellFormed, StandsFor;
      node := rootNode;
      ghost var path := [rootNode];
      while IsPassThrough(program, node)
        invariant node in program.heap && PassesOn(program, path, rootNode, node)
        decreases Depth(program, node)
      {
        ParentIsShallower(program, node);
        var parent := Parent(program.heap, node);
        if parent.Some? {
          node := parent.value;
          path := path + [node];
        }
      }
      PassedOnByClimb(program, path, rootNode, node);
      PassedOnStands(program, path, rootNode, node);
      PassThroughStands(program, node);
    }

    method AtMember(ghost start: Id, ghost node: Id, up: Id, path: seq<string>, trace: Trace)
      returns (found: seq<Found>)
      requires WellFormed(program) && start in program.heap
      requires node == Climb(program, start) && Parent(program.heap, node) == Some(up)
      requires HasType(program.heap[up], "MemberExpression") && IsRef(Get(program.heap[up], "object"), node)
      requires Depth(program, up) < Depth(program, start)
      modifies this`variableStack
      ensures variableStack == old(variableStack)
      ensures ExactlyVia(program, Entered(), Spot(AtNode(start), path, trace), Select, found)
      decreases Free(), 2, Depth(program, start), 0
    {
      hide Exactly, ExactlyVia, WellFormed, Get, TraceElement, Advance, Climb;
      ghost var spot := Spot(AtNode(start), path, trace);
      SelectMoves(program, spot, node, up);
      found := [];
      var key := program.propertyName(up);
      var next := if key.Some? then TraceElement(trace, key.value) else None;
      if key.None? || key.value == "" || next.None? {
        MoveFindsNothing(program, Entered(), spot, Select);
        return;
      }
      var nextPath := path + [key.value];
      if next.value.read.Some? {
        found := [Found(up, nextPath, Read, next.value.read.value)];
      }
      var below := IteratePropertyReferences(up, nextPath, next.value);
      found := found + below;
      MoveFinds(program, Entered(), spot, Select, below, found);
    }

    method IterateLhsReferences(patternNode: Option<Id>, path: seq<string>, trace: Trace) returns (found: seq<Found>)
      requires WellFormed(program) && (patternNode.Some? ==> patternNode.value in program.heap)
      modifies this`variableStack
      ensures variableStack == old(variableStack)
      ensures Exactly(program, Entered(), Spot(AtPattern(patternNode), path, trace), found)
      decreases Free(), 1, PatternHeight(program, patternNode), 1
    {
      hide Exactly, ExactlyVia, Get, ArrayField, Advance, WellFormed, Via;
      ghost var spot := Spot(AtPattern(patternNode), path, trace);
      ghost var entered := Entered();
      found := [];
      if patternNode.None? {
        NoPatternNoMoves(program, spot);
        NoMoves(program, entered, spot);
        return;
      }
      var pattern := patternNode.value;
      var record := program.heap[pattern];
      MovesInto(program, spot, pattern);
      if HasType(record, "Identifier") {
        var variable := program.variableOf(pattern);
        if variable.Some? {
          found := IterateVariableReferences(variable.value, path, trace, false);
          UsesOfVariable(entered, Spot(AtVariable(variable.value), path, trace), found);
          MoveFinds(program, entered, spot, Enter, found, found);
          OneMove(program, entered, spot, Enter, found);
        } else {
          NoMoves(program, entered, spot);
        }
      } else if HasType(record, "ObjectPattern") {
        var properties := ArrayField(record, "properties");
        for i := 0 to |properties|
          invariant variableStack == old(variableStack)
          invariant forall f :: f in found <==> exists k :: 0 <= k < i && Via(program, entered, spot, Destructure(k), f)
        {
          var more: seq<Found> := [];
          if properties[i].Ref? && properties[i].id in program.heap {
            PropertyIsLower(program, pattern, i);
            more := AtProperty(pattern, i, properties[i].id, path, trace);
          } else {
            MoveFindsNothing(program, entered, spot, Destructure(i));
          }
          OneMoreProperty(entered, spot, i, found, more);
          found := found + more;
        }
        AllProperties(entered, spot, |properties|, found);
      } else if HasType(record, "AssignmentPattern") {
        LeftIsLower(program, pattern);
        found := IterateLhsReferences(ChildNode(program.heap, record, "left"), path, trace);
        MoveFinds(program, entered, spot, Default, found, found);
        OneMove(program, entered, spot, Default, found);
      } else {
        NoMoves(program, entered, spot);
      }
    }

    lemma OneMoreProperty(entered: set<VariableId>, spot: Spot, i: nat, found: seq<Found>, more: seq<Found>)
      requires WellFormed(program) && Known(program, spot.place)
      requires forall f :: f in found <==> exists k :: 0 <= k < i && Via(program, entered, spot, Destructure(k), f)
      requires ExactlyVia(program, entered, spot, Destructure(i), more)
      ensures forall f :: f in found + more
                <==> exists k :: 0 <= k < i + 1 && Via(program, entered, spot, Destructure(k), f)
    {
      hide Via, WellFormed, Known;
    }

    lemma AllProperties(entered: set<VariableId>, spot: Spot, count: nat, found: seq<Found>)
      requires WellFormed(program) && Known(program, spot.place) && spot.place.AtPattern?
      requires forall f :: f in found <==> exists k :: 0 <= k < count && Via(program, entered, spot, Destructure(k), f)
      requires forall move :: Advance(program, spot, move).Some? ==> move.Destructure? && move.index < count
      ensures Exactly(program, entered, spot, found)
    {
      hide WellFormed, Known, Advance;
      forall f
        ensures f in found <==> Reports(program, entered, spot, f)
      {
        ReportsVia(program, entered, spot, f);
      }
    }

    lemma UsesOfVariable(entered: set<VariableId>, spot: Spot, found: seq<Found>)
      requires WellFormed(program) && spot.place.AtVariable? && Known(program, spot.place)
      requires forall f :: f in found <==>
                 spot.place.variable !in entered && exists i: nat :: UseFinds(entered, spot, false, i, f)
      ensures Exactly(program, entered, spot, found)
    {
      hide WellFormed, Advance;
      UsesAreMoves(program, spot);
      forall f
        ensures f in found <==> Reports(program, entered, spot, f)
      {
        ReportsVia(program, entered, spot, f);
        if move :| Via(program, entered, spot, move, f) {
          assert UseFinds(entered, spot, false, move.index, f);
        }
      }
    }

    /** One property of an object pattern. */
    method AtProperty(ghost pattern: Id, ghost index: nat, property: Id, path: seq<string>, trace: Trace)
      returns (found: seq<Found>)
      requires WellFormed(program) && pattern in program.heap && property in program.heap
      requires HasType(program.heap[pattern], "ObjectPattern")
               && index < |ArrayField(program.heap[pattern], "properties")|
      requires ArrayField(program.heap[pattern], "properties")[index] == Ref(property)
      requires PatternHeight(program, Some(property)) < PatternHeight(program, Some(pattern))
      modifies this`variableStack
      ensures variableStack == old(variableStack)
      ensures ExactlyVia(program, Entered(), Spot(AtPattern(Some(pattern)), path, trace), Destructure(index), found)
      decreases Free(), 1, PatternHeight(program, Some(pattern)), 0
    {
      hide Exactly, ExactlyVia, Get, TraceElement, ArrayField, WellFormed, Advance;
      ghost var spot := Spot(AtPattern(Some(pattern)), path, trace);
      DestructureMoves(program, spot, pattern, index, property);
      found := [];
      var key := program.propertyName(property);
      var next := if key.Some? then TraceElement(trace, key.value) else None;
      if key.None? || key.value == "" || next.None? {
        MoveFindsNothing(program, Entered(), spot, Destructure(index));
        return;
      }
      var nextPath := path + [key.value];
      if next.value.read.Some? {
        found := [Found(property, nextPath, Read, next.value.read.value)];
      }
      ValueIsLower(program, property);
      var below := IterateLhsReferences(ChildNode(program.heap, program.heap[property], "value"), nextPath, next.value);
      found := found + below;
      MoveFinds(program, Entered(), spot, Destructure(index), below, found);
    }

    /** What entry `i` of the trace map finds: the uses of that global variable. */
    ghost predicate EntryFinds(entered: set<VariableId>, trace: Trace, i: nat, f: Found)
      requires WellFormed(program)
    {
      && i < |trace.entries|
      && var key := trace.entries[i].0;
         Follows(program, key) && TraceElement(trace, key).Some?
         && (GlobalKnown(program, key);
             GlobalNamed(program, key).value !in entered
             && var spot := Spot(AtVariable(GlobalNamed(program, key).value), [key], TraceElement(trace, key).value);
                exists k: nat :: UseFinds(entered, spot, true, k, f))
    }

    /** What a global object finds: the uses of its properties. */
    ghost predicate ObjectFinds(entered: set<VariableId>, trace: Trace, i: nat, f: Found)
      requires WellFormed(program)
    {
      && i < |globalObjectNames|
      && var key := globalObjectNames[i];
         Follows(program, key)
         && (GlobalKnown(program, key);
             GlobalNamed(program, key).value !in entered
             && var spot := Spot(AtVariable(GlobalNamed(program, key).value), [], trace);
                exists k: nat :: UseFinds(entered, spot, false, k, f))
    }

    ghost predicate Finds(entered: set<VariableId>, trace: Trace, f: Found)
      requires WellFormed(program)
    {
      (exists i: nat :: EntryFinds(entered, trace, i, f)) || (exists i: nat :: ObjectFinds(entered, trace, i, f))
    }

    /** `iterateGlobalReferences` finds exactly the uses of the unmodified globals it is asked for. */
    method IterateGlobalReferences(trace: Trace) returns (found: seq<Found>)
      requires WellFormed(program)
      modifies this`variableStack
      ensures variableStack == old(variableStack)
      ensures forall f :: f in found <==> Finds(Entered(), trace, f)
    {
      hide WellFormed, TraceElement, UseFinds, EntryFinds, ObjectFinds, IsModifiedGlobal;
      ghost var entered := Entered();
      found := [];
      for i := 0 to |trace.entries|
        invariant variableStack == old(variableStack) && Entered() == entered
        invariant forall f :: f in found <==> exists k :: 0 <= k < i && EntryFinds(entered, trace, k, f)
      {
        var key := trace.entries[i].0;
        var next := TraceElement(trace, key);
        var variable := GlobalNamed(program, key);
        GlobalKnown(program, key);
        var more: seq<Found> := [];
        if next.Some? && !IsModifiedGlobal(program, variable) {
          IsSomeGlobal(program, variable);
          more := IterateVariableReferences(variable.value, [key], next.value, true);
        }
        EntryFound(entered, trace, i, more);
        OneMoreEntry(entered, trace, i, found, more);
        found := found + more;
      }
      ghost var byEntries := found;
      EntriesAreFew(entered, trace);
      for i := 0 to |globalObjectNames|
        invariant variableStack == old(variableStack) && Entered() == entered
        invariant forall f :: f in found
                    <==> f in byEntries || exists k :: 0 <= k < i && ObjectFinds(entered, trace, k, f)
      {
        var key := globalObjectNames[i];
        var variable := GlobalNamed(program, key);
        GlobalKnown(program, key);
        var more: seq<Found> := [];
        if !IsModifiedGlobal(program, variable) {
          IsSomeGlobal(program, variable);
          more := IterateVariableReferences(variable.value, [], trace, false);
        }
        ObjectFound(entered, trace, i, more);
        OneMoreObject(entered, trace, i, byEntries, found, more);
        found := found + more;
      }
    }

    lemma EntryFound(entered: set<VariableId>, trace: Trace, i: nat, more: seq<Found>)
      requires WellFormed(program) && i < |trace.entries|
      requires var key := trace.entries[i].0;
               if TraceElement(trace, key).Some? && Follows(program, key) then
                 var spot := Spot(AtVariable(GlobalNamed(program, key).value), [key], TraceElement(trace, key).value);
                 forall f :: f in more <==>
                   GlobalNamed(program, key).value !in entered && exists k: nat :: UseFinds(entered, spot, true, k, f)
               else more == []
      ensures forall f :: f in more <==> EntryFinds(entered, trace, i, f)
    {
      hide TraceElement, UseFinds, IsModifiedGlobal;
    }

    lemma ObjectFound(entered: set<VariableId>, trace: Trace, i: nat, more: seq<Found>)
      requires WellFormed(program) && i < |globalObjectNames|
      requires var key := globalObjectNames[i];
               if Follows(program, key) then
                 forall f :: f in more <==>
                   GlobalNamed(program, key).value !in entered
                   && exists k: nat :: UseFinds(entered, Spot(AtVariable(GlobalNamed(program, key).value), [], trace),
                                                false, k, f)
               else more == []
      ensures forall f :: f in more <==> ObjectFinds(entered, trace, i, f)
    {
      hide UseFinds, IsModifiedGlobal;
    }

    lemma OneMoreEntry(entered: set<VariableId>, trace: Trace, i: nat, found: seq<Found>, more: seq<Found>)
      requires WellFormed(program)
      requires forall f :: f in found <==> exists k :: 0 <= k < i && EntryFinds(entered, trace, k, f)
      requires forall f :: f in more <==> EntryFinds(entered, trace, i, f)
      ensures forall f :: f in found + more <==> exists k :: 0 <= k < i + 1 && EntryFinds(entered, trace, k, f)
    {
      hide EntryFinds;
    }

    lemma OneMoreObject(entered: set<VariableId>, trace: Trace, i: nat, first: seq<Found>, found: seq<Found>,
                        more: seq<Found>)
      requires WellFormed(program)
      requires forall f :: f in found <==> f in first || exists k :: 0 <= k < i && ObjectFinds(entered, trace, k, f)
      requires forall f :: f in more <==> ObjectFinds(entered, trace, i, f)
      ensures forall f :: f in found + more
                <==> f in first || exists k :: 0 <= k < i + 1 && ObjectFinds(entered, trace, k, f)
    {
      hide ObjectFinds;
    }

    lemma EntriesAreFew(entered: set<VariableId>, trace: Trace)
      requires WellFormed(program)
      ensures forall i: nat, f :: EntryFinds(entered, trace, i, f) ==> i < |trace.entries|
      ensures forall i: nat, f :: ObjectFinds(entered, trace, i, f) ==> i < |globalObjectNames|
    {
    }

    /** Every reference found carries the info stored in the trace map at its path, under its type. */
    lemma FoundIsCorrect(entered: set<VariableId>, trace: Trace, f: Found)
      requires WellFormed(program)
      requires Finds(entered, trace, f)
      ensures Correct(program, trace, f)
    {
      hide WellFormed, UseFinds, At, Correct, IsModifiedGlobal, TraceElement;
      if i: nat :| EntryFinds(entered, trace, i, f) {
        var key := trace.entries[i].0;
        GlobalKnown(program, key);
        IsSomeGlobal(program, GlobalNamed(program, key));
        var spot := Spot(AtVariable(GlobalNamed(program, key).value), [key], TraceElement(trace, key).value);
        var k: nat :| UseFinds(entered, spot, true, k, f);
        RootKey(trace, key);
        UseIsCorrect(entered, trace, spot, true, k, f);
      } else {
        var i: nat :| ObjectFinds(entered, trace, i, f);
        var key := globalObjectNames[i];
        GlobalKnown(program, key);
        IsSomeGlobal(program, GlobalNamed(program, key));
        var spot := Spot(AtVariable(GlobalNamed(program, key).value), [], trace);
        var k: nat :| UseFinds(entered, spot, false, k, f);
        RootIsAt(trace);
        UseIsCorrect(entered, trace, spot, false, k, f);
      }
    }

    lemma UseIsCorrect(entered: set<VariableId>, root: Trace, spot: Spot, shouldReport: bool, i: nat, f: Found)
      requires WellFormed(program) && spot.place.AtVariable? && spot.place.variable in program.variables
      requires At(root, spot.path) == Some(spot.trace) && UseFinds(entered, spot, shouldReport, i, f)
      ensures Correct(program, root, f)
    {
      hide WellFormed, Advance, At;
      IdentifierKnown(program, spot.place.variable, i);
      if Via(program, entered, spot, Use(i), f) {
        ReportsVia(program, entered, spot, f);
        var moves :| Carries(program, entered, spot, moves, f);
        CarriesCorrectly(program, root, entered, spot, moves, f);
      }
    }
  }
}
