/** Trace maps of the `ReferenceTracker` of ast_utils.ts: the names to look for, and what to report. */
module Traces {
  import opened Options
  import opened Ast

  /** What is reported at a path, and the names to follow from there; a name may also hold something
      that is no trace map. */
  datatype Trace = Trace(read: Option<string>, call: Option<string>, construct: Option<string>,
                         entries: seq<(string, Option<Trace>)>)

  datatype Kind = Read | Call | Construct

  datatype Found = Found(node: Id, path: seq<string>, kind: Kind, info: string)

  function Entry(entries: seq<(string, Option<Trace>)>, key: string): Option<Trace> {
    if entries == [] then None
    else if entries[0].0 == key then entries[0].1
    else Entry(entries[1..], key)
  }

  /** `traceElement`. */
  function TraceElement(trace: Trace, key: string): Option<Trace> {
    Entry(trace.entries, key)
  }

  function Slot(trace: Trace, kind: Kind): Option<string> {
    match kind
    case Read => trace.read
    case Call => trace.call
    case Construct => trace.construct
  }

  /** The trace map at a path. */
  function At(trace: Trace, path: seq<string>): Option<Trace>
    decreases |path|
  {
    if path == [] then Some(trace)
    else
      match TraceElement(trace, path[0])
      case None => None
      case Some(next) => At(next, path[1..])
  }

  lemma {:induction false} AtConcat(trace: Trace, first: seq<string>, second: seq<string>)
    requires At(trace, first).Some?
    ensures At(trace, first + second) == At(At(trace, first).value, second)
    decreases |first|
  {
    if first == [] {
      assert first + second == second;
    } else {
      AtConcat(TraceElement(trace, first[0]).value, first[1..], second);
      assert (first + second)[1..] == first[1..] + second;
    }
  }

  lemma AtKey(root: Trace, path: seq<string>, trace: Trace, key: string)
    requires At(root, path) == Some(trace)
    ensures At(root, path + [key]) == TraceElement(trace, key)
  {
    AtConcat(root, path, [key]);
    var next := TraceElement(trace, key);
    assert [key][1..] == [];
    assert next.Some? ==> At(next.value, []) == next;
    assert At(trace, [key]) == next;
  }

  lemma RootIsAt(trace: Trace)
    ensures At(trace, []) == Some(trace)
  {
  }

  lemma RootKey(trace: Trace, key: string)
    ensures At(trace, [key]) == TraceElement(trace, key)
  {
    AtKey(trace, [], trace, key);
    assert [] + [key] == [key];
  }
}
