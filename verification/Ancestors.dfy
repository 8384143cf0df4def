/** `ancestors_of`: the transitive dependencies of a requirement. */
module Ancestors {
  import opened Graph
  import opened RequirementTree

  /** The dictionary of nodes by id; the last node of an id wins. */
  function ById(ns: seq<Node>): (m: map<string, Node>)
    ensures m.Keys == IdSet(ns)
  {
    if ns == [] then map[]
    else
      var n := ns[|ns| - 1];
      assert IdSet(ns) == IdSet(ns[..|ns| - 1]) + {n.id} by {
        assert forall x :: x in ns <==> x in ns[..|ns| - 1] || x == n;
      }
      ById(ns[..|ns| - 1])[n.id := n]
  }

  /** An id gets the last node that has it. */
  lemma {:induction false} ByIdIsLast(ns: seq<Node>, i: nat)
    requires i < |ns| && forall k :: i < k < |ns| ==> ns[k].id != ns[i].id
    ensures ns[i].id in ById(ns) && ById(ns)[ns[i].id] == ns[i]
  {
    if i < |ns| - 1 {
      ByIdIsLast(ns[..|ns| - 1], i);
    }
  }

  function DepsOf(byId: map<string, Node>, id: string): seq<string> {
    if id in byId then byId[id].deps else []
  }

  /** `ids`, in order, without those outside `keep`. */
  function Only(ids: seq<string>, keep: set<string>): (r: seq<string>)
    ensures forall x :: x in r <==> x in ids && x in keep
  {
    if ids == [] then []
    else Only(ids[..|ids| - 1], keep) + (if ids[|ids| - 1] in keep then [ids[|ids| - 1]] else [])
  }

  /** Each kept id is in its place: after the kept ones before it. */
  lemma {:induction false} OnlyKeepsPlaces(ids: seq<string>, keep: set<string>, j: nat)
    requires j < |ids| && ids[j] in keep
    ensures |Only(ids[..j], keep)| < |Only(ids, keep)| && Only(ids, keep)[|Only(ids[..j], keep)|] == ids[j]
  {
    var front := ids[..|ids| - 1];
    if j < |ids| - 1 {
      OnlyKeepsPlaces(front, keep, j);
      assert front[..j] == ids[..j];
    }
  }

  function KeptAt(ids: seq<string>, keep: set<string>): set<nat> {
    set i: nat | i < |ids| && ids[i] in keep
  }

  /** As many are kept as there are positions with an id to keep. */
  lemma {:induction false} OnlyLength(ids: seq<string>, keep: set<string>)
    ensures |Only(ids, keep)| == |KeptAt(ids, keep)|
  {
    if ids != [] {
      var n := |ids| - 1;
      OnlyLength(ids[..n], keep);
      if ids[n] in keep {
        assert KeptAt(ids, keep) == KeptAt(ids[..n], keep) + {n};
      } else {
        assert KeptAt(ids, keep) == KeptAt(ids[..n], keep);
      }
    }
  }

  /** Everything found or queued is reachable. */
  ghost predicate Sound(g: Edges, start: string, seen: set<string>, stack: seq<string>) {
    && (forall x :: x in seen ==> Reaches(g, start, x) && x in g && x != start)
    && (forall x :: x in stack ==> Reaches(g, start, x))
  }

  /** A dependency of something found is found, queued, unknown, or the start itself. */
  ghost predicate Covered(g: Edges, start: string, seen: set<string>, stack: seq<string>, x: string) {
    x in seen || x in stack || x !in g || x == start
  }

  ghost predicate Explored(g: Edges, start: string, seen: set<string>, stack: seq<string>) {
    forall a, b :: (a == start || a in seen) && Edge(g, a, b) ==> Covered(g, start, seen, stack, b)
  }

  /** The ids `ancestors_of` is about. */
  ghost predicate IsAncestor(g: Edges, start: string, x: string) {
    x in g && x != start && Reaches(g, start, x)
  }

  lemma {:induction false} PathStaysExplored(g: Edges, start: string, seen: set<string>, p: seq<string>, k: nat)
    requires Explored(g, start, seen, []) && IsPath(g, p) && p[0] == start && k < |p|
    requires p[k] in g
    ensures p[k] == start || p[k] in seen
  {
    if k > 0 {
      assert Edge(g, p[k - 1], p[k]);
      PathStaysExplored(g, start, seen, p, k - 1);
    }
  }

  lemma SearchIsComplete(g: Edges, start: string, seen: set<string>)
    requires Sound(g, start, seen, []) && Explored(g, start, seen, [])
    ensures forall x :: x in seen <==> IsAncestor(g, start, x)
  {
    forall x | IsAncestor(g, start, x) ensures x in seen {
      var p :| IsPathFrom(g, p, start, x);
      PathStaysExplored(g, start, seen, p, |p| - 1);
    }
  }

  lemma StackSound(g: Edges, start: string, seen: set<string>, stack: seq<string>, dep: string, more: seq<string>)
    requires Sound(g, start, seen, stack + [dep]) && dep in g && dep != start && more == g[dep]
    ensures Sound(g, start, seen + {dep}, stack + more)
  {
    assert dep in stack + [dep];
    forall x | x in more ensures Reaches(g, start, x) {
      ReachesFurther(g, start, dep, x);
    }
    forall x | x in stack + more ensures Reaches(g, start, x) {
      assert x in more || x in stack + [dep];
    }
  }

  /** The work-stack loop. */
  method Search(byId: map<string, Node>, start: string) returns (seen: set<string>)
    ensures forall x :: x in seen <==> IsAncestor(NamedEdges(byId), start, x)
  {
    ghost var g := NamedEdges(byId);
    var stack := DepsOf(byId, start);
    seen := {};
    forall x | x in stack ensures Reaches(g, start, x) {
      EdgeReaches(g, start, x);
    }
    while stack != []
      invariant Sound(g, start, seen, stack)
      invariant Explored(g, start, seen, stack)
      decreases byId.Keys - seen, |stack|
    {
      var dep := stack[|stack| - 1];
      ghost var before := stack;
      stack := stack[..|stack| - 1];
      assert before == stack + [dep];
      assert forall x :: x in before <==> x in stack || x == dep;
      if dep in seen || dep !in byId || dep == start {
        continue;
      }
      StackSound(g, start, seen, stack, dep, byId[dep].deps);
      assert dep in byId.Keys - seen && dep !in byId.Keys - (seen + {dep});
      seen := seen + {dep};
      stack := stack + byId[dep].deps;
    }
    SearchIsComplete(g, start, seen);
  }

  /** `ancestors_of`: exactly the known ids reachable by one or more dependency
      steps, without the node itself, in the given order, on any graph. */
  method AncestorsOf(nodeId: string, orderedNodes: seq<Node>) returns (ancestors: seq<string>, ghost found: set<string>)
    ensures forall x :: x in found <==> IsAncestor(NamedEdges(ById(orderedNodes)), nodeId, x)
    ensures ancestors == Only(Ids(orderedNodes), found)
    ensures forall x :: x in ancestors <==> IsAncestor(NamedEdges(ById(orderedNodes)), nodeId, x)
  {
    var byId := ById(orderedNodes);
    var seen := Search(byId, nodeId);
    ancestors, found := Only(Ids(orderedNodes), seen), seen;
    forall x | IsAncestor(NamedEdges(byId), nodeId, x) ensures x in Ids(orderedNodes) {
      var n :| n in orderedNodes && n.id == x;
      var i :| 0 <= i < |orderedNodes| && orderedNodes[i] == n;
      assert Ids(orderedNodes)[i] == x;
    }
  }
}
