/** `getInnermostScope` and `findVariable` of ast_utils.ts on a tree of lexical scopes. */
module Scopes {
  import opened Options

  type Id = nat

  datatype Range = Range(start: int, end: int)

  /** `range` is the range of the scope's block, when it has one. */
  datatype Scope = Scope(range: Option<Range>, childScopes: seq<Id>, variables: map<string, nat>, upper: Option<Id>)

  /** Scopes by identifier, with a height that falls from every scope to its children. */
  datatype Tree = Tree(scopes: map<Id, Scope>, height: map<Id, nat>, top: nat)

  predicate Contains(range: Option<Range>, location: int) {
    range.Some? && range.value.start <= location < range.value.end
  }

  predicate Inside(inner: Option<Range>, outer: Option<Range>) {
    inner.Some? ==> outer.Some? && outer.value.start <= inner.value.start && inner.value.end <= outer.value.end
  }

  predicate Disjoint(a: Option<Range>, b: Option<Range>) {
    a.Some? && b.Some? ==> a.value.end <= b.value.start || b.value.end <= a.value.start || a.value.start >= a.value.end
                           || b.value.start >= b.value.end
  }

  /** The links are those of a tree: every child is a scope that points back and lies lower, and an
      upper scope lists its child. */
  ghost predicate Linked(t: Tree) {
    && t.height.Keys == t.scopes.Keys
    && (forall id :: id in t.scopes ==> t.height[id] <= t.top)
    && (forall id, i :: id in t.scopes && 0 <= i < |t.scopes[id].childScopes| ==>
          var child := t.scopes[id].childScopes[i];
          child in t.scopes && t.height[child] < t.height[id] && t.scopes[child].upper == Some(id))
    && (forall id :: id in t.scopes && t.scopes[id].upper.Some? ==>
          t.scopes[id].upper.value in t.scopes && id in t.scopes[t.scopes[id].upper.value].childScopes)
  }

  /** Children of a scope under `start` lie inside it, siblings are disjoint. */
  ghost predicate WellNested(t: Tree, start: Id)
    requires Linked(t)
  {
    && (forall id, i :: id in t.scopes && id != start && 0 <= i < |t.scopes[id].childScopes| ==>
          Inside(t.scopes[t.scopes[id].childScopes[i]].range, t.scopes[id].range))
    && (forall id, i, j :: id in t.scopes && 0 <= i < j < |t.scopes[id].childScopes| ==>
          Disjoint(t.scopes[t.scopes[id].childScopes[i]].range, t.scopes[t.scopes[id].childScopes[j]].range))
  }

  // ---- enclosing scopes ----

  /** The scope and everything above it, innermost first. */
  ghost function Enclosing(t: Tree, id: Id): (chain: seq<Id>)
    requires Linked(t) && id in t.scopes
    ensures chain != [] && chain[0] == id
    ensures forall k :: 0 <= k < |chain| ==> chain[k] in t.scopes && t.height[id] <= t.height[chain[k]]
    decreases t.top - t.height[id]
  {
    match t.scopes[id].upper
    case None => [id]
    case Some(upper) => [id] + Enclosing(t, upper)
  }

  /** From every scope the chain goes on to its upper scope, and it ends where there is none. */
  lemma {:induction false} ChainGoesUp(t: Tree, id: Id, k: nat)
    requires Linked(t) && id in t.scopes && k < |Enclosing(t, id)|
    ensures t.scopes[Enclosing(t, id)[k]].upper
            == if k + 1 < |Enclosing(t, id)| then Some(Enclosing(t, id)[k + 1]) else None
    decreases k
  {
    if k > 0 {
      ChainGoesUp(t, t.scopes[id].upper.value, k - 1);
    }
  }

  /** `outer` is `inner` or encloses it. */
  ghost predicate Encloses(t: Tree, outer: Id, inner: Id)
    requires Linked(t) && inner in t.scopes
  {
    outer in Enclosing(t, inner)
  }

  lemma {:induction false} EnclosesTransitively(t: Tree, a: Id, b: Id, c: Id)
    requires Linked(t) && c in t.scopes && b in t.scopes && Encloses(t, a, b) && Encloses(t, b, c)
    ensures Encloses(t, a, c)
    decreases t.top - t.height[c]
  {
    if b != c {
      EnclosesTransitively(t, a, b, t.scopes[c].upper.value);
    }
  }

  lemma HigherOutside(t: Tree, outer: Id, inner: Id)
    requires Linked(t) && inner in t.scopes && Encloses(t, outer, inner)
    ensures outer in t.scopes && (outer == inner || t.height[inner] < t.height[outer])
  {
    if outer != inner {
      var k :| 0 <= k < |Enclosing(t, inner)| && Enclosing(t, inner)[k] == outer;
      var upper := t.scopes[inner].upper.value;
      assert Enclosing(t, upper)[k - 1] == outer;
    }
  }

  lemma EnclosesBothWays(t: Tree, a: Id, b: Id)
    requires Linked(t) && a in t.scopes && b in t.scopes && Encloses(t, a, b) && Encloses(t, b, a)
    ensures a == b
  {
    HigherOutside(t, a, b);
    HigherOutside(t, b, a);
  }

  /** Below a scope one of its children leads on. */
  lemma {:induction false} EnclosesThroughChild(t: Tree, outer: Id, inner: Id) returns (i: nat)
    requires Linked(t) && inner in t.scopes && Encloses(t, outer, inner) && outer != inner
    ensures outer in t.scopes && i < |t.scopes[outer].childScopes| && Encloses(t, t.scopes[outer].childScopes[i], inner)
    decreases t.top - t.height[inner]
  {
    var upper := t.scopes[inner].upper.value;
    if outer == upper {
      i :| 0 <= i < |t.scopes[outer].childScopes| && t.scopes[outer].childScopes[i] == inner;
    } else {
      i := EnclosesThroughChild(t, outer, upper);
      assert Enclosing(t, inner) == [inner] + Enclosing(t, upper);
    }
  }

  /** Scopes around a scope that contains the location contain it too, below `start`. */
  lemma {:induction false} ContainedOutside(t: Tree, start: Id, outer: Id, inner: Id, location: int)
    requires Linked(t) && WellNested(t, start) && inner in t.scopes && outer in t.scopes && outer != start
    requires Encloses(t, start, outer) && Encloses(t, outer, inner) && Contains(t.scopes[inner].range, location)
    ensures Contains(t.scopes[outer].range, location)
    decreases t.top - t.height[inner]
  {
    if outer != inner {
      var upper := t.scopes[inner].upper.value;
      var i :| 0 <= i < |t.scopes[upper].childScopes| && t.scopes[upper].childScopes[i] == inner;
      if upper == start {
        HigherOutside(t, outer, start);
        HigherOutside(t, start, outer);
      }
      assert Inside(t.scopes[t.scopes[upper].childScopes[i]].range, t.scopes[upper].range);
      ContainedOutside(t, start, outer, upper, location);
    }
  }

  // ---- the innermost scope ----

  /** The scope's block starts at or before the location and ends behind it. */
  ghost predicate Covers(t: Tree, id: Id, location: int) {
    id in t.scopes
    && exists start: int, end: int ::
         t.scopes[id].range == Some(Range(start, end)) && start <= location && location < end
  }

  lemma CoversContaining(t: Tree, location: int)
    ensures forall id :: id in t.scopes ==> (Covers(t, id, location) <==> Contains(t.scopes[id].range, location))
  {
    forall id | id in t.scopes
      ensures Covers(t, id, location) <==> Contains(t.scopes[id].range, location)
    {
      var range := t.scopes[id].range;
      if Contains(range, location) {
        assert range == Some(Range(range.value.start, range.value.end));
      }
    }
  }

  /** `id` is the deepest scope at the location: it is `start` or covers the location, and every scope
      under `start` that covers the location encloses it. */
  ghost predicate IsInnermost(t: Tree, start: Id, location: int, id: Id)
    requires Linked(t) && start in t.scopes
  {
    && id in t.scopes && Encloses(t, start, id) && (id == start || Covers(t, id, location))
    && forall d :: d in t.scopes && Encloses(t, start, d) && Covers(t, d, location) ==>
         Encloses(t, d, id) || d == start
  }

  lemma InnermostIsUnique(t: Tree, start: Id, location: int, a: Id, b: Id)
    requires Linked(t) && start in t.scopes && IsInnermost(t, start, location, a) && IsInnermost(t, start, location, b)
    ensures a == b
  {
    hide Covers;
    if a != start && b != start {
      EnclosesBothWays(t, a, b);
    } else if a != start {
      EnclosesBothWays(t, start, a);
    } else if b != start {
      EnclosesBothWays(t, start, b);
    }
  }

  /** The first child, from `index` on, that contains the location. */
  function FirstAt(t: Tree, children: seq<Id>, location: int, index: nat): (found: Option<nat>)
    requires index <= |children| && forall i :: 0 <= i < |children| ==> children[i] in t.scopes
    ensures found.Some? ==>
              index <= found.value < |children| && Contains(t.scopes[children[found.value]].range, location)
    ensures found.Some? ==>
              forall i :: index <= i < found.value ==> !Contains(t.scopes[children[i]].range, location)
    ensures found.None? ==> forall i :: index <= i < |children| ==> !Contains(t.scopes[children[i]].range, location)
    decreases |children| - index
  {
    if index == |children| then None
    else if Contains(t.scopes[children[index]].range, location) then Some(index)
    else FirstAt(t, children, location, index + 1)
  }

  /** Where the loops end up on any tree: down through the first children that contain the location. */
  function Descent(t: Tree, id: Id, location: int): (end: Id)
    requires Linked(t) && id in t.scopes
    ensures end in t.scopes
    decreases t.height[id]
  {
    match FirstAt(t, t.scopes[id].childScopes, location, 0)
    case None => id
    case Some(i) => Descent(t, t.scopes[id].childScopes[i], location)
  }

  method GetInnermostScope(t: Tree, initialScope: Option<Id>, range: Option<Range>) returns (scope: Option<Id>)
    requires Linked(t) && (initialScope.Some? ==> initialScope.value in t.scopes)
    ensures scope == if initialScope.Some? && range.Some? then Some(Descent(t, initialScope.value, range.value.start))
                     else initialScope
  {
    if initialScope.None? {
      return None;
    }
    if range.None? {
      return initialScope;
    }
    var start, location := initialScope.value, range.value.start;
    var current := start;
    var found := true;
    while found
      invariant current in t.scopes
      invariant Descent(t, start, location) == if found then Descent(t, current, location) else current
      decreases t.height[current], if found then 1 else 0
    {
      found := false;
      var children := t.scopes[current].childScopes;
      var index: nat := 0;
      while index < |children| && !found
        invariant index <= |children|
        invariant FirstAt(t, children, location, 0)
                  == if found then Some(index - 1) else FirstAt(t, children, location, index)
        invariant found ==> 0 < index
      {
        found := Contains(t.scopes[children[index]].range, location);
        index := index + 1;
      }
      if found {
        current := children[index - 1];
      }
    }
    return Some(current);
  }

  lemma SiblingsAreApart(t: Tree, start: Id, id: Id, i: nat, j: nat, location: int)
    requires Linked(t) && WellNested(t, start) && id in t.scopes
    requires i < |t.scopes[id].childScopes| && j < |t.scopes[id].childScopes|
    ensures var a, b := t.scopes[t.scopes[id].childScopes[i]].range, t.scopes[t.scopes[id].childScopes[j]].range;
            Contains(a, location) && Contains(b, location) ==> i == j
  {
    var a, b := t.scopes[t.scopes[id].childScopes[i]].range, t.scopes[t.scopes[id].childScopes[j]].range;
    if i < j {
      assert Disjoint(a, b);
    } else if j < i {
      assert Disjoint(b, a);
    }
  }

  lemma ChildIsEnclosed(t: Tree, id: Id, index: nat)
    requires Linked(t) && id in t.scopes && index < |t.scopes[id].childScopes|
    ensures t.scopes[id].childScopes[index] in t.scopes && Encloses(t, id, t.scopes[id].childScopes[index])
  {
    var child := t.scopes[id].childScopes[index];
    assert Enclosing(t, child) == [child] + Enclosing(t, id);
    assert Enclosing(t, id)[0] == id;
  }

  lemma ThroughTheSameChild(t: Tree, start: Id, current: Id, index: nat, d: Id, location: int) returns (i: nat)
    requires Linked(t) && start in t.scopes && WellNested(t, start) && current in t.scopes
             && Encloses(t, start, current)
    requires index < |t.scopes[current].childScopes|
    requires Contains(t.scopes[t.scopes[current].childScopes[index]].range, location)
    requires d in t.scopes && Encloses(t, current, d) && d != current && Contains(t.scopes[d].range, location)
    ensures i == index && Encloses(t, t.scopes[current].childScopes[i], d)
  {
    hide Enclosing;
    i := EnclosesThroughChild(t, current, d);
    var via := t.scopes[current].childScopes[i];
    ChildIsEnclosed(t, current, i);
    EnclosesTransitively(t, start, current, via);
    HigherOutside(t, start, current);
    ContainedOutside(t, start, via, d, location);
    SiblingsAreApart(t, start, current, i, index, location);
  }

  /** Every scope at the location that lies under the current one lies under the child that was found. */
  lemma Descend(t: Tree, start: Id, current: Id, index: nat, location: int)
    requires Linked(t) && start in t.scopes && WellNested(t, start) && current in t.scopes
             && Encloses(t, start, current)
    requires index < |t.scopes[current].childScopes|
    requires Contains(t.scopes[t.scopes[current].childScopes[index]].range, location)
    requires forall d :: d in t.scopes && Encloses(t, start, d) && Contains(t.scopes[d].range, location) ==>
                           Encloses(t, d, current) || Encloses(t, current, d)
    ensures var child := t.scopes[current].childScopes[index];
            && Encloses(t, start, child)
            && forall d :: d in t.scopes && Encloses(t, start, d) && Contains(t.scopes[d].range, location) ==>
                             Encloses(t, d, child) || Encloses(t, child, d)
  {
    hide Enclosing;
    var child := t.scopes[current].childScopes[index];
    ChildIsEnclosed(t, current, index);
    EnclosesTransitively(t, start, current, child);
    forall d | d in t.scopes && Encloses(t, start, d) && Contains(t.scopes[d].range, location)
      ensures Encloses(t, d, child) || Encloses(t, child, d)
    {
      if Encloses(t, d, current) {
        EnclosesTransitively(t, d, current, child);
      } else {
        var i := ThroughTheSameChild(t, start, current, index, d, location);
      }
    }
  }

  lemma StartsInnermost(t: Tree, start: Id)
    requires Linked(t) && start in t.scopes
    ensures Encloses(t, start, start)
  {
  }

  lemma Deepest(t: Tree, start: Id, current: Id, location: int)
    requires Linked(t) && start in t.scopes && WellNested(t, start) && current in t.scopes
             && Encloses(t, start, current)
    requires current == start || Contains(t.scopes[current].range, location)
    requires forall d :: d in t.scopes && Encloses(t, start, d) && Contains(t.scopes[d].range, location) ==>
                           Encloses(t, d, current) || Encloses(t, current, d)
    requires forall i :: 0 <= i < |t.scopes[current].childScopes| ==>
                           !Contains(t.scopes[t.scopes[current].childScopes[i]].range, location)
    ensures IsInnermost(t, start, location, current)
  {
    hide Enclosing, Covers;
    CoversContaining(t, location);
    forall d | d in t.scopes && Encloses(t, start, d) && Contains(t.scopes[d].range, location)
      ensures Encloses(t, d, current)
    {
      if !Encloses(t, d, current) {
        StartsInnermost(t, current);
        var i := EnclosesThroughChild(t, current, d);
        var via := t.scopes[current].childScopes[i];
        ChildIsEnclosed(t, current, i);
        EnclosesTransitively(t, start, current, via);
        HigherOutside(t, start, current);
        ContainedOutside(t, start, via, d, location);
        assert false;
      }
    }
  }

  lemma {:induction false} DescendFrom(t: Tree, start: Id, current: Id, location: int)
    requires Linked(t) && start in t.scopes && WellNested(t, start) && current in t.scopes
             && Encloses(t, start, current)
    requires current == start || Contains(t.scopes[current].range, location)
    requires forall d :: d in t.scopes && Encloses(t, start, d) && Contains(t.scopes[d].range, location) ==>
                           Encloses(t, d, current) || Encloses(t, current, d)
    ensures IsInnermost(t, start, location, Descent(t, current, location))
    decreases t.height[current]
  {
    hide WellNested, Enclosing, IsInnermost;
    var children := t.scopes[current].childScopes;
    match FirstAt(t, children, location, 0)
    case None => Deepest(t, start, current, location);
    case Some(i) =>
      Descend(t, start, current, i, location);
      DescendFrom(t, start, children[i], location);
  }

  /** On a well-nested tree that is the innermost scope. */
  lemma DescentIsInnermost(t: Tree, start: Id, location: int)
    requires Linked(t) && start in t.scopes && WellNested(t, start)
    ensures IsInnermost(t, start, location, Descent(t, start, location))
  {
    hide WellNested, Enclosing;
    StartsInnermost(t, start);
    DescendFrom(t, start, start, location);
  }

  // ---- the variable a name stands for ----

  /** `result` is the binding of `name` in the nearest scope that encloses `inner` and declares it. */
  ghost predicate IsNearestBinding(t: Tree, inner: Id, name: string, result: Option<nat>)
    requires Linked(t) && inner in t.scopes
  {
    var chain := Enclosing(t, inner);
    match result
    case None => forall k :: 0 <= k < |chain| ==> name !in t.scopes[chain[k]].variables
    case Some(variable) =>
      exists k :: 0 <= k < |chain| && name in t.scopes[chain[k]].variables
        && t.scopes[chain[k]].variables[name] == variable
                  && forall j :: 0 <= j < k ==> name !in t.scopes[chain[j]].variables
  }

  /** A name given as a string, or the name and range of a node. */
  datatype NameOrNode = ByName(text: string) | ByNode(name: Option<string>, range: Option<Range>)

  function NameOf(nameOrNode: NameOrNode): string {
    match nameOrNode
    case ByName(text) => text
    case ByNode(name, _) => if name.Some? then name.value else ""
  }

  /** The scope the search for a name starts from. */
  function StartOf(t: Tree, initialScope: Id, nameOrNode: NameOrNode): (inner: Id)
    requires Linked(t) && initialScope in t.scopes
    ensures inner in t.scopes
  {
    match nameOrNode
    case ByNode(_, Some(range)) => Descent(t, initialScope, range.start)
    case _ => initialScope
  }

  lemma ChainStep(t: Tree, inner: Id, passed: nat, id: Id)
    requires Linked(t) && inner in t.scopes && id in t.scopes && passed <= |Enclosing(t, inner)|
    requires Enclosing(t, inner)[passed..] == Enclosing(t, id)
    ensures passed < |Enclosing(t, inner)| && Enclosing(t, inner)[passed] == id
    ensures match t.scopes[id].upper
            case None => passed + 1 == |Enclosing(t, inner)|
            case Some(upper) => upper in t.scopes && Enclosing(t, inner)[passed + 1..] == Enclosing(t, upper)
  {
    var chain := Enclosing(t, id);
    assert Enclosing(t, inner)[passed..][0] == id;
    assert chain[1..] == Enclosing(t, inner)[passed + 1..];
  }

  lemma WholeChain(t: Tree, inner: Id)
    requires Linked(t) && inner in t.scopes
    ensures Enclosing(t, inner)[0..] == Enclosing(t, inner)
  {
  }

  lemma NearestAt(t: Tree, inner: Id, name: string, passed: nat)
    requires Linked(t) && inner in t.scopes && passed <= |Enclosing(t, inner)|
    requires forall j :: 0 <= j < passed ==> name !in t.scopes[Enclosing(t, inner)[j]].variables
    ensures passed == |Enclosing(t, inner)| ==> IsNearestBinding(t, inner, name, None)
    ensures passed < |Enclosing(t, inner)| ==>
              var variables := t.scopes[Enclosing(t, inner)[passed]].variables;
              name in variables ==> IsNearestBinding(t, inner, name, Some(variables[name]))
  {
  }

  method FindVariable(t: Tree, initialScope: Option<Id>, nameOrNode: NameOrNode) returns (result: Option<nat>)
    requires Linked(t) && (initialScope.Some? ==> initialScope.value in t.scopes)
    ensures nameOrNode.ByName? ==>
              if initialScope.None? || nameOrNode.text == "" then result == None
              else IsNearestBinding(t, initialScope.value, nameOrNode.text, result)
    ensures nameOrNode.ByNode? ==>
              if initialScope.None? || nameOrNode.name.None? || nameOrNode.name.value == "" then result == None
              else
                var start := if nameOrNode.range.None? then initialScope.value
                             else Descent(t, initialScope.value, nameOrNode.range.value.start);
                IsNearestBinding(t, start, nameOrNode.name.value, result)
  {
    hide Descent, IsNearestBinding, Enclosing;
    if initialScope.None? {
      return None;
    }
    var name := NameOf(nameOrNode);
    if name == "" {
      return None;
    }
    var scope := initialScope;
    if nameOrNode.ByNode? {
      scope := GetInnermostScope(t, initialScope, nameOrNode.range);
    }
    ghost var inner := StartOf(t, initialScope.value, nameOrNode);
    ghost var passed: nat := 0;
    WholeChain(t, inner);
    while scope.Some?
      invariant passed <= |Enclosing(t, inner)|
      invariant scope.Some? ==> scope.value in t.scopes && Enclosing(t, inner)[passed..] == Enclosing(t, scope.value)
      invariant scope.None? ==> passed == |Enclosing(t, inner)|
      invariant forall j :: 0 <= j < passed ==> name !in t.scopes[Enclosing(t, inner)[j]].variables
      decreases |Enclosing(t, inner)| - passed
    {
      ChainStep(t, inner, passed, scope.value);
      if name in t.scopes[scope.value].variables {
        NearestAt(t, inner, name, passed);
        result := Some(t.scopes[scope.value].variables[name]);
        return;
      }
      scope := t.scopes[scope.value].upper;
      passed := passed + 1;
    }
    NearestAt(t, inner, name, passed);
    return None;
  }

  /** The scopes searched, from the initial one down, are that one and exactly those that contain the
      location. */
  lemma EnclosingAreContaining(t: Tree, start: Id, location: int, d: Id)
    requires Linked(t) && start in t.scopes && WellNested(t, start) && d in t.scopes && Encloses(t, start, d)
    ensures Encloses(t, d, Descent(t, start, location)) <==> d == start || Covers(t, d, location)
  {
    hide WellNested, Enclosing, Descent, Covers;
    CoversContaining(t, location);
    DescentIsInnermost(t, start, location);
    var inner := Descent(t, start, location);
    if d != start && Encloses(t, d, inner) {
      if inner == start {
        EnclosesBothWays(t, d, start);
      }
      ContainedOutside(t, start, d, inner, location);
    }
  }
}
