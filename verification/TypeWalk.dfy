/** `implementedTypesFromTypeAndBases` of checker.ts: the explicit-stack walk over the base types of a
    type, against the recursive depth-first search it stands for. */
module TypeWalk {
  import opened Paths

  /** A type handle; several handles may carry the same identifier. */
  datatype CorsaType = CorsaType(id: string, symbol: string)

  type Types = seq<CorsaType>

  /** What the checker answers, by type identifier, over the finitely many types of a program. */
  datatype Hierarchy = Hierarchy(universe: set<string>, bases: string -> Types, own: string -> Types)

  function Ids(types: Types): set<string> {
    set t | t in types :: t.id
  }

  ghost predicate Closed(h: Hierarchy) {
    forall id :: id in h.universe ==> Ids(h.bases(id)) <= h.universe
  }

  // ---- the recursive search ----

  /** The types a recursive search visits, in preorder: a type seen before is skipped, any other is
      visited and then its bases are searched from left to right. */
  function Preorder(h: Hierarchy, types: Types, seen: set<string>): (visited: Types)
    requires Closed(h) && Ids(types) <= h.universe && seen <= h.universe
    ensures Ids(visited) <= h.universe
    decreases h.universe - seen, |types|
  {
    if types == [] then []
    else
      assert types[0] in types && Ids(types[1..]) <= Ids(types);
      if types[0].id in seen then Preorder(h, types[1..], seen)
      else
        var id := types[0].id;
        var below := Preorder(h, h.bases(id), seen + {id});
        [types[0]] + below + Preorder(h, types[1..], seen + {id} + Ids(below))
  }

  lemma IdsConcat(a: Types, b: Types)
    ensures Ids(a + b) == Ids(a) + Ids(b)
  {
  }

  /** A new type, what lies below it, and the rest of the list. */
  lemma PreorderHead(h: Hierarchy, first: CorsaType, rest: Types, seen: set<string>)
    requires Closed(h) && first.id in h.universe && Ids(rest) <= h.universe && seen <= h.universe && first.id !in seen
    ensures Ids([first] + rest) <= h.universe && Ids(h.bases(first.id)) <= h.universe
    ensures var below := Preorder(h, h.bases(first.id), seen + {first.id});
            && seen + {first.id} + Ids(below) <= h.universe
            && Preorder(h, [first] + rest, seen)
               == [first] + (below + Preorder(h, rest, seen + {first.id} + Ids(below)))
  {
    IdsConcat([first], rest);
    assert ([first] + rest)[1..] == rest;
  }

  /** A type seen before is skipped. */
  lemma PreorderSkip(h: Hierarchy, first: CorsaType, rest: Types, seen: set<string>)
    requires Closed(h) && Ids(rest) <= h.universe && seen <= h.universe && first.id in seen
    ensures Ids([first] + rest) <= h.universe
    ensures Preorder(h, [first] + rest, seen) == Preorder(h, rest, seen)
  {
    IdsConcat([first], rest);
    assert ([first] + rest)[1..] == rest;
  }

  lemma OneId(t: CorsaType)
    ensures Ids([t]) == {t.id}
  {
  }

  lemma Assoc(x: Types, y: Types, z: Types)
    ensures (x + y) + z == x + (y + z) && [] + z == z
  {
  }

  lemma NothingToSearch(h: Hierarchy, seen: set<string>)
    requires Closed(h) && seen <= h.universe
    ensures Ids([]) == {} && Preorder(h, [], seen) == []
  {
  }

  /** Searching two lists one after the other is searching their concatenation. */
  lemma {:induction false} PreorderConcat(h: Hierarchy, a: Types, b: Types, seen: set<string>)
    requires Closed(h) && Ids(a) <= h.universe && Ids(b) <= h.universe && seen <= h.universe
    ensures Ids(a + b) <= h.universe
    ensures Preorder(h, a + b, seen) == Preorder(h, a, seen) + Preorder(h, b, seen + Ids(Preorder(h, a, seen)))
    decreases h.universe - seen, |a|
  {
    hide Preorder, Ids;
    IdsConcat(a, b);
    if a == [] {
      NothingToSearch(h, seen);
      assert a + b == b && seen + {} == seen;
    } else {
      var first, rest := a[0], a[1..];
      assert a == [first] + rest && a + b == [first] + (rest + b);
      IdsConcat([first], rest);
      OneId(first);
      if first.id in seen {
        PreorderConcat(h, rest, b, seen);
        PreorderSkip(h, first, rest, seen);
        PreorderSkip(h, first, rest + b, seen);
      } else {
        PreorderHead(h, first, rest, seen);
        var below := Preorder(h, h.bases(first.id), seen + {first.id});
        var after := seen + {first.id} + Ids(below);
        var right := Preorder(h, rest, after);
        PreorderConcat(h, rest, b, after);
        PreorderHead(h, first, rest + b, seen);
        IdsConcat([first], below + right);
        IdsConcat(below, right);
        assert seen + Ids([first] + (below + right)) == after + Ids(right);
        var last := Preorder(h, b, after + Ids(right));
        Assoc(below, right, last);
        Assoc([first], below + right, last);
      }
    }
  }

  /** The types whose identifiers have not been seen. */
  function Unseen(types: Types, seen: set<string>): (r: Types)
    ensures Ids(r) <= Ids(types)
  {
    if types == [] then []
    else
      assert types == [types[0]] + types[1..];
      IdsConcat([types[0]], types[1..]);
      IdsConcat([types[0]], Unseen(types[1..], seen));
      if types[0].id in seen then Unseen(types[1..], seen) else [types[0]] + Unseen(types[1..], seen)
  }

  /** Leaving out types seen already changes nothing. */
  lemma {:induction false} PreorderUnseen(h: Hierarchy, types: Types, seen: set<string>, later: set<string>)
    requires Closed(h) && Ids(types) <= h.universe && seen <= later <= h.universe
    ensures Preorder(h, Unseen(types, seen), later) == Preorder(h, types, later)
    decreases |types|
  {
    if types != [] {
      assert types[0] in types && Ids(types[1..]) <= Ids(types);
      var rest := Unseen(types[1..], seen);
      assert ([types[0]] + rest)[1..] == rest;
      IdsConcat([types[0]], rest);
      if types[0].id in later {
        PreorderUnseen(h, types[1..], seen, later);
      } else {
        var below := Preorder(h, h.bases(types[0].id), later + {types[0].id});
        PreorderUnseen(h, types[1..], seen, later + {types[0].id} + Ids(below));
        assert Unseen(types, seen) == [types[0]] + rest;
      }
    }
  }

  /** One turn of the loop, on the list still to be searched. */
  lemma VisitStep(h: Hierarchy, current: CorsaType, rest: Types, seen: set<string>)
    requires Closed(h) && current.id in h.universe && Ids(rest) <= h.universe && seen <= h.universe
    requires current.id !in seen
    ensures Ids([current] + rest) <= h.universe
    ensures Ids(Unseen(h.bases(current.id), seen + {current.id}) + rest) <= h.universe
    ensures Preorder(h, [current] + rest, seen)
            == [current] + Preorder(h, Unseen(h.bases(current.id), seen + {current.id}) + rest, seen + {current.id})
  {
    hide Unseen, Preorder, Ids;
    var next := seen + {current.id};
    var bases := h.bases(current.id);
    PreorderHead(h, current, rest, seen);
    IdsConcat(Unseen(bases, next), rest);
    PreorderConcat(h, Unseen(bases, next), rest, next);
    PreorderUnseen(h, bases, next, next);
  }

  // ---- what the recursive search reaches ----

  /** The bases of a type, by identifier. */
  function BaseIds(h: Hierarchy): string -> set<string> {
    (id: string) => Ids(h.bases(id))
  }

  lemma {:induction false} VisitedAreReached(h: Hierarchy, types: Types, seen: set<string>, t: CorsaType)
    requires Closed(h) && Ids(types) <= h.universe && seen <= h.universe
    requires t in Preorder(h, types, seen)
    ensures exists s :: s in types && Reaches(BaseIds(h), s.id, t.id)
    decreases h.universe - seen, |types|
  {
    assert types[0] in types && Ids(types[1..]) <= Ids(types);
    if types[0].id in seen {
      VisitedAreReached(h, types[1..], seen, t);
    } else {
      var id := types[0].id;
      var below := Preorder(h, h.bases(id), seen + {id});
      if t == types[0] {
        ReachesItself(BaseIds(h), id);
      } else if t in below {
        VisitedAreReached(h, h.bases(id), seen + {id}, t);
        var base :| base in h.bases(id) && Reaches(BaseIds(h), base.id, t.id);
        ReachesThrough(BaseIds(h), id, base.id, t.id);
      } else {
        VisitedAreReached(h, types[1..], seen + {id} + Ids(below), t);
      }
    }
  }

  /** Nobody visited has a base that is neither visited nor seen before. */
  lemma {:induction false} VisitedAreClosed(h: Hierarchy, types: Types, seen: set<string>)
    requires Closed(h) && Ids(types) <= h.universe && seen <= h.universe
    ensures var visited := Preorder(h, types, seen);
            && Ids(types) <= seen + Ids(visited)
            && forall t :: t in visited ==> Ids(h.bases(t.id)) <= seen + Ids(visited)
    decreases h.universe - seen, |types|
  {
    if types != [] {
      assert types == [types[0]] + types[1..];
      IdsConcat([types[0]], types[1..]);
      if types[0].id in seen {
        VisitedAreClosed(h, types[1..], seen);
      } else {
        var id := types[0].id;
        var below := Preorder(h, h.bases(id), seen + {id});
        var after := seen + {id} + Ids(below);
        var right := Preorder(h, types[1..], after);
        VisitedAreClosed(h, h.bases(id), seen + {id});
        VisitedAreClosed(h, types[1..], after);
        IdsConcat([types[0]] + below, right);
        IdsConcat([types[0]], below);
      }
    }
  }

  lemma DistinctParts(first: CorsaType, below: Types, right: Types)
    requires forall i, j :: 0 <= i < j < |below| ==> below[i].id != below[j].id
    requires forall i, j :: 0 <= i < j < |right| ==> right[i].id != right[j].id
    requires first.id !in Ids(below) && Ids(right) !! {first.id} + Ids(below)
    ensures var all := [first] + below + right;
            forall i, j :: 0 <= i < j < |all| ==> all[i].id != all[j].id
  {
    var all := [first] + below + right;
    forall i, j | 0 <= i < j < |all|
      ensures all[i].id != all[j].id
    {
      assert 0 < i <= |below| ==> all[i] == below[i - 1] && all[i].id in Ids(below);
      assert 0 < j <= |below| ==> all[j] == below[j - 1] && all[j].id in Ids(below);
      assert i > |below| ==> all[i] == right[i - |below| - 1] && all[i].id in Ids(right);
      assert j > |below| ==> all[j] == right[j - |below| - 1] && all[j].id in Ids(right);
    }
  }

  /** No identifier is visited twice, and none that was seen before. */
  lemma {:induction false} VisitedOnce(h: Hierarchy, types: Types, seen: set<string>)
    requires Closed(h) && Ids(types) <= h.universe && seen <= h.universe
    ensures var visited := Preorder(h, types, seen);
            && Ids(visited) !! seen
            && forall i, j :: 0 <= i < j < |visited| ==> visited[i].id != visited[j].id
    decreases h.universe - seen, |types|
  {
    if types != [] {
      assert types[0] in types && Ids(types[1..]) <= Ids(types);
      if types[0].id in seen {
        VisitedOnce(h, types[1..], seen);
      } else {
        var id := types[0].id;
        var below := Preorder(h, h.bases(id), seen + {id});
        var right := Preorder(h, types[1..], seen + {id} + Ids(below));
        VisitedOnce(h, h.bases(id), seen + {id});
        VisitedOnce(h, types[1..], seen + {id} + Ids(below));
        DistinctParts(types[0], below, right);
        IdsConcat([types[0]] + below, right);
        IdsConcat([types[0]], below);
      }
    }
  }

  /** The walk from `root` visits exactly the types reachable through bases, each once. */
  lemma WalkReachesExactly(h: Hierarchy, root: CorsaType, id: string)
    requires Closed(h) && root.id in h.universe
    ensures Ids([root]) <= h.universe
    ensures id in Ids(Preorder(h, [root], {})) <==> Reaches(BaseIds(h), root.id, id)
  {
    var visited := Preorder(h, [root], {});
    VisitedAreClosed(h, [root], {});
    if id in Ids(visited) {
      var t :| t in visited && t.id == id;
      VisitedAreReached(h, [root], {}, t);
    }
    if Reaches(BaseIds(h), root.id, id) {
      assert root in [root];
      ReachesInside(BaseIds(h), Ids(visited), root.id, id);
    }
  }

  // ---- the implemented types ----

  /** The first of every identifier that is not in `seen`, in order. */
  function Firsts(types: Types, seen: set<string>): Types {
    if types == [] then []
    else if types[0].id in seen then Firsts(types[1..], seen)
    else [types[0]] + Firsts(types[1..], seen + {types[0].id})
  }

  /** The implements clauses of the visited types, one after the other. */
  function Owns(h: Hierarchy, visited: Types): Types {
    if visited == [] then [] else h.own(visited[0].id) + Owns(h, visited[1..])
  }

  /** What the walk is for. */
  function Implemented(h: Hierarchy, root: CorsaType): Types
    requires Closed(h) && root.id in h.universe
  {
    assert Ids([root]) <= h.universe;
    Firsts(Owns(h, Preorder(h, [root], {})), {})
  }

  lemma FirstsHead(first: CorsaType, rest: Types, seen: set<string>)
    ensures Firsts([first] + rest, seen)
            == if first.id in seen then Firsts(rest, seen) else [first] + Firsts(rest, seen + {first.id})
    ensures Ids([first] + rest) == {first.id} + Ids(rest)
  {
    assert ([first] + rest)[1..] == rest;
    IdsConcat([first], rest);
    OneId(first);
  }

  lemma NothingOwned(seen: set<string>)
    ensures Firsts([], seen) == [] && Ids([]) == {}
  {
  }

  lemma {:induction false} FirstsConcat(a: Types, b: Types, seen: set<string>)
    ensures Firsts(a + b, seen) == Firsts(a, seen) + Firsts(b, seen + Ids(a))
    decreases |a|
  {
    hide Firsts, Ids;
    if a == [] {
      NothingOwned(seen);
      assert a + b == b && seen + {} == seen;
    } else {
      var first, rest := a[0], a[1..];
      assert a == [first] + rest && a + b == [first] + (rest + b);
      FirstsHead(first, rest, seen);
      FirstsHead(first, rest + b, seen);
      var later := if first.id in seen then seen else seen + {first.id};
      FirstsConcat(rest, b, later);
      assert later + Ids(rest) == seen + Ids(a);
      Assoc([first], Firsts(rest, later), Firsts(b, seen + Ids(a)));
    }
  }

  /** Where an identifier first occurs, `|types|` if it does not. */
  function FirstIndex(types: Types, id: string): (i: nat)
    ensures i <= |types| && (i < |types| ==> types[i].id == id)
    ensures forall k :: 0 <= k < i ==> types[k].id != id
  {
    if types == [] || types[0].id == id then 0 else 1 + FirstIndex(types[1..], id)
  }

  /** Every type is the first of its identifier, and they stand in the order of these first occurrences. */
  ghost predicate InFirstOrder(types: Types, firsts: Types) {
    && (forall i :: 0 <= i < |firsts| ==>
          FirstIndex(types, firsts[i].id) < |types| && firsts[i] == types[FirstIndex(types, firsts[i].id)])
    && (forall i, j :: 0 <= i < j < |firsts| ==> FirstIndex(types, firsts[i].id) < FirstIndex(types, firsts[j].id))
  }

  lemma SkipFirst(types: Types, firsts: Types)
    requires types != [] && InFirstOrder(types[1..], firsts) && types[0].id !in Ids(firsts)
    ensures InFirstOrder(types, firsts)
  {
    forall i | 0 <= i < |firsts|
      ensures FirstIndex(types, firsts[i].id) == 1 + FirstIndex(types[1..], firsts[i].id)
    {
      assert firsts[i].id in Ids(firsts);
    }
  }

  lemma TakeFirst(types: Types, firsts: Types)
    requires types != [] && InFirstOrder(types, firsts) && types[0].id !in Ids(firsts)
    ensures InFirstOrder(types, [types[0]] + firsts)
  {
    forall i | 0 <= i < |firsts|
      ensures FirstIndex(types, firsts[i].id) > 0
    {
      assert firsts[i].id in Ids(firsts);
    }
  }

  lemma NoFirsts()
    ensures Ids([]) == {} && InFirstOrder([], [])
  {
  }

  /** Each new identifier exactly once, represented by its first type, in the order in which the
      identifiers first occur. */
  lemma {:induction false} FirstsAre(types: Types, seen: set<string>)
    ensures Ids(Firsts(types, seen)) == Ids(types) - seen
    ensures InFirstOrder(types, Firsts(types, seen))
    decreases |types|
  {
    hide Ids, FirstIndex, InFirstOrder;
    if types == [] {
      NoFirsts();
    } else {
      IdsConcat([types[0]], types[1..]);
      OneId(types[0]);
      assert types == [types[0]] + types[1..];
      var later := if types[0].id in seen then seen else seen + {types[0].id};
      var firsts := Firsts(types[1..], later);
      FirstsAre(types[1..], later);
      SkipFirst(types, firsts);
      if types[0].id !in seen {
        IdsConcat([types[0]], firsts);
        TakeFirst(types, firsts);
      }
    }
  }

  /** Hence no identifier is there twice. */
  lemma FirstsAreDistinct(types: Types, seen: set<string>)
    ensures var firsts := Firsts(types, seen); forall i, j :: 0 <= i < j < |firsts| ==> firsts[i].id != firsts[j].id
  {
    hide Firsts, Ids, FirstIndex;
    FirstsAre(types, seen);
  }

  lemma {:induction false} OwnsAre(h: Hierarchy, visited: Types, id: string)
    ensures id in Ids(Owns(h, visited)) <==> exists t :: t in visited && id in Ids(h.own(t.id))
  {
    if visited != [] {
      OwnsAre(h, visited[1..], id);
      assert visited == [visited[0]] + visited[1..];
      IdsConcat(h.own(visited[0].id), Owns(h, visited[1..]));
    }
  }

  lemma {:induction false} OwnsGrow(h: Hierarchy, visited: Types, current: CorsaType)
    ensures Owns(h, visited + [current]) == Owns(h, visited) + h.own(current.id)
  {
    if visited == [] {
      assert visited + [current] == [current];
      assert [current][1..] == [];
    } else {
      OwnsGrow(h, visited[1..], current);
      assert (visited + [current])[1..] == visited[1..] + [current];
    }
  }

  /** An identifier is in the result exactly when some type reachable from the root implements it, and
      no identifier is in the result twice. */
  lemma ImplementedExactly(h: Hierarchy, root: CorsaType, id: string)
    requires Closed(h) && root.id in h.universe
    ensures id in Ids(Implemented(h, root)) <==> exists at :: Reaches(BaseIds(h), root.id, at) && id in Ids(h.own(at))
    ensures var result := Implemented(h, root); forall i, j :: 0 <= i < j < |result| ==> result[i].id != result[j].id
  {
    assert Ids([root]) <= h.universe;
    var visited := Preorder(h, [root], {});
    FirstsAre(Owns(h, visited), {});
    FirstsAreDistinct(Owns(h, visited), {});
    OwnsAre(h, visited, id);
    if exists t :: t in visited && id in Ids(h.own(t.id)) {
      var t :| t in visited && id in Ids(h.own(t.id));
      WalkReachesExactly(h, root, t.id);
    }
    if at :| Reaches(BaseIds(h), root.id, at) && id in Ids(h.own(at)) {
      WalkReachesExactly(h, root, at);
      var t :| t in visited && t.id == at;
    }
  }

  // ---- the order of the result ----

  /** Entry `place` of the clause of visited type number `owner`, counted through all clauses. */
  function Rank(h: Hierarchy, visited: Types, owner: nat, place: nat): nat
    requires owner <= |visited|
  {
    |Owns(h, visited[..owner])| + place
  }

  lemma {:induction false} OwnsConcat(h: Hierarchy, a: Types, b: Types)
    ensures Owns(h, a + b) == Owns(h, a) + Owns(h, b)
    decreases |a|
  {
    if a == [] {
      assert a + b == b;
    } else {
      OwnsConcat(h, a[1..], b);
      assert (a + b)[1..] == a[1..] + b;
    }
  }

  lemma OwnsFrom(h: Hierarchy, visited: Types, owner: nat)
    requires owner < |visited|
    ensures Owns(h, visited) == Owns(h, visited[..owner]) + (h.own(visited[owner].id) + Owns(h, visited[owner + 1..]))
    ensures Owns(h, visited[..owner + 1]) == Owns(h, visited[..owner]) + h.own(visited[owner].id)
  {
    assert visited == visited[..owner] + visited[owner..];
    OwnsConcat(h, visited[..owner], visited[owner..]);
    assert visited[owner..][1..] == visited[owner + 1..];
    OwnsGrow(h, visited[..owner], visited[owner]);
    assert visited[..owner + 1] == visited[..owner] + [visited[owner]];
  }

  /** An entry stands at its rank, and ranks grow with the visits. */
  lemma RankIs(h: Hierarchy, visited: Types, owner: nat, place: nat)
    requires owner < |visited| && place < |h.own(visited[owner].id)|
    ensures Rank(h, visited, owner, place) < |Owns(h, visited)|
    ensures Owns(h, visited)[Rank(h, visited, owner, place)] == h.own(visited[owner].id)[place]
    ensures Rank(h, visited, owner, place) < |Owns(h, visited[..owner + 1])|
  {
    hide Owns;
    OwnsFrom(h, visited, owner);
  }

  lemma {:induction false} RanksGrow(h: Hierarchy, visited: Types, i: nat, j: nat)
    requires i <= j <= |visited|
    ensures |Owns(h, visited[..i])| <= |Owns(h, visited[..j])|
    decreases j
  {
    hide Owns;
    if i < j {
      RanksGrow(h, visited, i, j - 1);
      OwnsFrom(h, visited, j - 1);
    }
  }

  lemma {:induction false} RankFound(h: Hierarchy, visited: Types, n: nat) returns (owner: nat, place: nat)
    requires n < |Owns(h, visited)|
    ensures owner < |visited| && place < |h.own(visited[owner].id)| && n == Rank(h, visited, owner, place)
    decreases |visited|
  {
    var last: nat := |visited| - 1;
    assert visited[..last + 1] == visited;
    OwnsFrom(h, visited, last);
    if n >= |Owns(h, visited[..last])| {
      owner, place := last, n - |Owns(h, visited[..last])|;
    } else {
      owner, place := RankFound(h, visited[..last], n);
      assert visited[..last][..owner] == visited[..owner];
    }
  }

  /** The identifier is first named by entry `place` of the clause of visited type number `owner`. */
  ghost predicate FirstNamed(h: Hierarchy, visited: Types, id: string, owner: nat, place: nat) {
    && owner < |visited| && place < |h.own(visited[owner].id)| && h.own(visited[owner].id)[place].id == id
    && forall other: nat, k: nat ::
         other < |visited| && k < |h.own(visited[other].id)| && h.own(visited[other].id)[k].id == id ==>
           owner < other || (owner == other && place <= k)
  }

  lemma FirstNamedIsFirst(h: Hierarchy, visited: Types, id: string, owner: nat, place: nat)
    requires FirstNamed(h, visited, id, owner, place)
    ensures Rank(h, visited, owner, place) == FirstIndex(Owns(h, visited), id) < |Owns(h, visited)|
  {
    hide Owns;
    RankIs(h, visited, owner, place);
    var n := FirstIndex(Owns(h, visited), id);
    if n < Rank(h, visited, owner, place) {
      var other, k := RankFound(h, visited, n);
      RankIs(h, visited, other, k);
      if owner < other {
        RanksGrow(h, visited, owner + 1, other);
      }
    }
  }

  lemma FirstIsNamed(h: Hierarchy, visited: Types, id: string) returns (owner: nat, place: nat)
    requires FirstIndex(Owns(h, visited), id) < |Owns(h, visited)|
    ensures FirstNamed(h, visited, id, owner, place)
    ensures Rank(h, visited, owner, place) == FirstIndex(Owns(h, visited), id)
  {
    hide Owns;
    owner, place := RankFound(h, visited, FirstIndex(Owns(h, visited), id));
    RankIs(h, visited, owner, place);
    forall other: nat, k: nat |
      other < |visited| && k < |h.own(visited[other].id)| && h.own(visited[other].id)[k].id == id
      ensures owner < other || (owner == other && place <= k)
    {
      RankIs(h, visited, other, k);
      if other < owner {
        RanksGrow(h, visited, other + 1, owner);
      }
    }
  }

  /** That entry is `t`. */
  ghost predicate NamedBy(h: Hierarchy, visited: Types, t: CorsaType, owner: nat, place: nat) {
    FirstNamed(h, visited, t.id, owner, place) && h.own(visited[owner].id)[place] == t
  }

  ghost predicate IsNamed(h: Hierarchy, visited: Types, t: CorsaType) {
    exists owner: nat, place: nat :: NamedBy(h, visited, t, owner, place)
  }

  lemma NamedEntry(h: Hierarchy, visited: Types, id: string, owner: nat, place: nat)
    requires FirstNamed(h, visited, id, owner, place)
    ensures owner < |visited| && place < |h.own(visited[owner].id)|
    ensures FirstIndex(Owns(h, visited), id) < |Owns(h, visited)|
    ensures Owns(h, visited)[FirstIndex(Owns(h, visited), id)] == h.own(visited[owner].id)[place]
  {
    hide Owns, FirstIndex;
    RankIs(h, visited, owner, place);
    FirstNamedIsFirst(h, visited, id, owner, place);
  }

  lemma EarlierNamed(h: Hierarchy, visited: Types, id: string, owner: nat, place: nat, later: string, other: nat,
                     k: nat)
    requires FirstNamed(h, visited, id, owner, place) && FirstNamed(h, visited, later, other, k)
    requires FirstIndex(Owns(h, visited), id) < FirstIndex(Owns(h, visited), later)
    ensures owner < other || (owner == other && place < k)
  {
    hide Owns, FirstIndex;
    FirstNamedIsFirst(h, visited, id, owner, place);
    FirstNamedIsFirst(h, visited, later, other, k);
    if other < owner {
      RankIs(h, visited, other, k);
      RanksGrow(h, visited, other + 1, owner);
    }
  }

  /** Each type of the result is the entry that first names its identifier, and the results stand in the
      order of these entries: by the visit of the type whose clause it is, then by place in the clause. */
  lemma ImplementedInOrder(h: Hierarchy, root: CorsaType)
    requires Closed(h) && root.id in h.universe
    ensures Ids([root]) <= h.universe
    ensures var visited, result := Preorder(h, [root], {}), Implemented(h, root);
            && (forall t :: t in result ==> IsNamed(h, visited, t))
            && (forall i, j, owner: nat, place: nat, other: nat, k: nat ::
                  0 <= i < j < |result| && NamedBy(h, visited, result[i], owner, place)
                  && NamedBy(h, visited, result[j], other, k) ==>
                    owner < other || (owner == other && place < k))
  {
    hide Owns, FirstIndex, Firsts, FirstNamed, Preorder, Rank;
    assert Ids([root]) <= h.universe;
    var visited, result := Preorder(h, [root], {}), Implemented(h, root);
    FirstsAre(Owns(h, visited), {});
    forall t | t in result
      ensures IsNamed(h, visited, t)
    {
      var i :| 0 <= i < |result| && result[i] == t;
      var owner, place := FirstIsNamed(h, visited, result[i].id);
      NamedEntry(h, visited, result[i].id, owner, place);
      assert NamedBy(h, visited, result[i], owner, place);
    }
    forall i, j, owner: nat, place: nat, other: nat, k: nat |
      0 <= i < j < |result| && NamedBy(h, visited, result[i], owner, place)
      && NamedBy(h, visited, result[j], other, k)
      ensures owner < other || (owner == other && place < k)
    {
      EarlierNamed(h, visited, result[i].id, owner, place, result[j].id, other, k);
    }
  }

  // ---- the loop ----

  function Reverse(types: Types): (r: Types)
    ensures Ids(r) == Ids(types)
  {
    if types == [] then []
    else
      assert types == [types[0]] + types[1..];
      IdsConcat([types[0]], types[1..]);
      IdsConcat(Reverse(types[1..]), [types[0]]);
      Reverse(types[1..]) + [types[0]]
  }

  lemma {:induction false} ReversePush(types: Types, t: CorsaType)
    ensures Reverse(types + [t]) == [t] + Reverse(types)
  {
    if types == [] {
      assert types + [t] == [t] && [t][1..] == [];
    } else {
      ReversePush(types[1..], t);
      assert (types + [t])[1..] == types[1..] + [t];
    }
  }

  lemma WalkStarts(h: Hierarchy, root: CorsaType)
    requires root.id in h.universe
    ensures Reverse([root]) == [root] && Owns(h, []) == [] && Ids([root]) <= h.universe && Firsts([], {}) == []
            && Ids([]) == {}
    ensures forall visited: Types :: [] + visited == visited
  {
    assert [root][1..] == [];
  }

  lemma WalkEnds(h: Hierarchy, visited: Types, seen: set<string>)
    requires Closed(h) && seen <= h.universe
    ensures Reverse([]) == [] && Preorder(h, [], seen) == [] && visited + [] == visited
  {
  }

  lemma CachedFor(h: Hierarchy, root: CorsaType)
    requires Closed(h) && root.id in h.universe
    ensures forall t: CorsaType :: t.id == root.id ==> Implemented(h, t) == Implemented(h, root)
  {
    forall t: CorsaType | t.id == root.id
      ensures Implemented(h, t) == Implemented(h, root)
    {
      assert Ids([t]) <= h.universe && Ids([root]) <= h.universe;
      assert [t][1..] == [] && [root][1..] == [];
      var below := Preorder(h, h.bases(t.id), {} + {t.id});
      assert Preorder(h, [t], {}) == [t] + below && Preorder(h, [root], {}) == [root] + below;
      assert ([t] + below)[1..] == below && ([root] + below)[1..] == below;
    }
  }

  lemma OwnStep(h: Hierarchy, visited: Types, current: CorsaType)
    ensures Firsts(Owns(h, visited + [current]), {})
            == Firsts(Owns(h, visited), {}) + Firsts(h.own(current.id), Ids(Owns(h, visited)))
    ensures Ids(Owns(h, visited + [current])) == Ids(Owns(h, visited)) + Ids(h.own(current.id))
  {
    hide Firsts, Owns, Ids;
    OwnsGrow(h, visited, current);
    FirstsConcat(Owns(h, visited), h.own(current.id), {});
    IdsConcat(Owns(h, visited), h.own(current.id));
    assert {} + Ids(Owns(h, visited)) == Ids(Owns(h, visited));
  }

  function Pop(stack: Types): (rest: Types)
    requires stack != []
    ensures Reverse(stack) == [stack[|stack| - 1]] + Reverse(rest)
    ensures Ids(rest) <= Ids(stack) && stack[|stack| - 1].id in Ids(stack) && |rest| < |stack|
  {
    var rest := stack[..|stack| - 1];
    ReversePush(rest, stack[|stack| - 1]);
    assert stack == rest + [stack[|stack| - 1]];
    rest
  }

  lemma FirstsGrow(types: Types, t: CorsaType, seen: set<string>)
    ensures Firsts(types + [t], seen) == Firsts(types, seen) + if t.id in seen + Ids(types) then [] else [t]
    ensures Ids(types + [t]) == Ids(types) + {t.id}
  {
    FirstsConcat(types, [t], seen);
    IdsConcat(types, [t]);
    OneId(t);
    assert [t][1..] == [];
  }

  class Session {
    const hierarchy: Hierarchy
    var implementedTypesById: map<string, Types>

    /** Whatever is cached is what the walk would compute. */
    ghost predicate Valid()
      reads this
    {
      && Closed(hierarchy)
      && forall t: CorsaType :: t.id in implementedTypesById ==>
           t.id in hierarchy.universe && implementedTypesById[t.id] == Implemented(hierarchy, t)
    }

    constructor (hierarchy: Hierarchy)
      requires Closed(hierarchy)
      ensures Valid() && this.hierarchy == hierarchy
    {
      this.hierarchy := hierarchy;
      implementedTypesById := map[];
    }

    /** The inner loop over the type's own implements clause. */
    method AddOwn(types: Types, implemented: Types, seenImplementedTypes: set<string>)
      returns (grown: Types, seen: set<string>)
      ensures grown == implemented + Firsts(types, seenImplementedTypes)
      ensures seen == seenImplementedTypes + Ids(types)
    {
      hide Firsts, Ids;
      grown, seen := implemented, seenImplementedTypes;
      NothingOwned(seenImplementedTypes);
      assert types[..0] == [];
      for index := 0 to |types|
        invariant grown == implemented + Firsts(types[..index], seenImplementedTypes)
        invariant seen == seenImplementedTypes + Ids(types[..index])
      {
        assert types[..index + 1] == types[..index] + [types[index]];
        FirstsGrow(types[..index], types[index], seenImplementedTypes);
        if types[index].id !in seen {
          seen := seen + {types[index].id};
          grown := grown + [types[index]];
        }
      }
      assert types[..|types|] == types;
    }

    /** The inner loop that pushes the bases in reverse. */
    method PushBases(bases: Types, stack: Types, seenTypes: set<string>) returns (grown: Types)
      ensures Reverse(grown) == Unseen(bases, seenTypes) + Reverse(stack)
    {
      grown := stack;
      assert bases[|bases|..] == [];
      for index := |bases| downto 0
        invariant Reverse(grown) == Unseen(bases[index..], seenTypes) + Reverse(stack)
      {
        assert bases[index..][1..] == bases[index + 1..];
        if bases[index].id !in seenTypes {
          ReversePush(grown, bases[index]);
          grown := grown + [bases[index]];
        }
      }
      assert bases[0..] == bases;
    }

    method ImplementedTypesFromTypeAndBases(root: CorsaType) returns (result: Types)
      requires Valid() && root.id in hierarchy.universe
      modifies this`implementedTypesById
      ensures Valid()
      ensures result == Implemented(hierarchy, root)
      ensures implementedTypesById == old(implementedTypesById)[root.id := result]
    {
      hide Preorder, Firsts, Owns, Reverse, Ids, Unseen;
      if root.id in implementedTypesById {
        result := implementedTypesById[root.id];
        assert implementedTypesById == implementedTypesById[root.id := result];
        return;
      }
      ghost var visited: Types := [];
      var seenTypes: set<string> := {};
      var seenImplementedTypes: set<string> := {};
      var implemented: Types := [];
      var stack := [root];
      WalkStarts(hierarchy, root);
      while stack != []
        invariant implementedTypesById == old(implementedTypesById)
        invariant seenTypes <= hierarchy.universe && Ids(stack) <= hierarchy.universe
        invariant visited + Preorder(hierarchy, Reverse(stack), seenTypes) == Preorder(hierarchy, [root], {})
        invariant implemented == Firsts(Owns(hierarchy, visited), {})
        invariant seenImplementedTypes == Ids(Owns(hierarchy, visited))
        decreases hierarchy.universe - seenTypes, |stack|
      {
        var current := stack[|stack| - 1];
        stack := Pop(stack);
        if current.id in seenTypes {
          PreorderSkip(hierarchy, current, Reverse(stack), seenTypes);
          continue;
        }
        VisitStep(hierarchy, current, Reverse(stack), seenTypes);
        seenTypes := seenTypes + {current.id};
        OwnStep(hierarchy, visited, current);
        implemented, seenImplementedTypes := AddOwn(hierarchy.own(current.id), implemented, seenImplementedTypes);
        visited := visited + [current];
        stack := PushBases(hierarchy.bases(current.id), stack, seenTypes);
      }
      WalkEnds(hierarchy, visited, seenTypes);
      CachedFor(hierarchy, root);
      implementedTypesById := implementedTypesById[root.id := implemented];
      result := implemented;
    }
  }
}
