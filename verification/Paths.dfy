/** Reachability in a graph given by its successors. */
module Paths {
  /** `path` leads from `start` to `end`, each node a successor of the one before. */
  ghost predicate IsPath<T(!new)>(next: T -> set<T>, path: seq<T>, start: T, end: T) {
    && path != [] && path[0] == start && path[|path| - 1] == end
    && forall i :: 0 <= i < |path| - 1 ==> path[i + 1] in next(path[i])
  }

  ghost predicate Reaches<T(!new)>(next: T -> set<T>, start: T, end: T) {
    exists path :: IsPath(next, path, start, end)
  }

  lemma ReachesItself<T(!new)>(next: T -> set<T>, node: T)
    ensures Reaches(next, node, node)
  {
    assert IsPath(next, [node], node, node);
  }

  lemma ReachesThrough<T(!new)>(next: T -> set<T>, start: T, middle: T, end: T)
    requires middle in next(start) && Reaches(next, middle, end)
    ensures Reaches(next, start, end)
  {
    var path :| IsPath(next, path, middle, end);
    assert IsPath(next, [start] + path, start, end);
  }

  lemma {:induction false} PathStaysInside<T(!new)>(next: T -> set<T>, inside: set<T>, path: seq<T>)
    requires path != [] && path[0] in inside
    requires forall node :: node in inside ==> next(node) <= inside
    requires forall i :: 0 <= i < |path| - 1 ==> path[i + 1] in next(path[i])
    ensures path[|path| - 1] in inside
    decreases |path|
  {
    if |path| > 1 {
      assert path[|path| - 2 + 1] in next(path[|path| - 2]);
      PathStaysInside(next, inside, path[..|path| - 1]);
    }
  }

  /** Nothing is reached outside a set closed under successors. */
  lemma ReachesInside<T(!new)>(next: T -> set<T>, inside: set<T>, start: T, end: T)
    requires start in inside && Reaches(next, start, end)
    requires forall node :: node in inside ==> next(node) <= inside
    ensures end in inside
  {
    var path :| IsPath(next, path, start, end);
    PathStaysInside(next, inside, path);
  }
}
