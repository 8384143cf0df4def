/**
  `topo_order`: atomic requirements, dependencies first, earliest in the document
  among the ready ones; a cycle is broken by the earliest remaining node.
*/
module TopoOrder {
  import opened Graph
  import opened RequirementTree

  // ----- The selection loop -----

  predicate Ready(deps: Edges, done: set<string>, id: string) {
    id in deps ==> forall d :: d in deps[id] ==> d in done
  }

  predicate SomeReady(rem: seq<Node>, deps: Edges, done: set<string>) {
    exists i :: 0 <= i < |rem| && Ready(deps, done, rem[i].id)
  }

  /** The position of the first ready node at or after `from`, |rem| if there is none. */
  function FirstReady(rem: seq<Node>, deps: Edges, done: set<string>, from: nat): (k: nat)
    requires from <= |rem|
    ensures from <= k <= |rem|
    ensures k < |rem| ==> Ready(deps, done, rem[k].id)
    ensures forall i :: from <= i < k ==> !Ready(deps, done, rem[i].id)
    decreases |rem| - from
  {
    if from == |rem| || Ready(deps, done, rem[from].id) then from else FirstReady(rem, deps, done, from + 1)
  }

  function Pick(rem: seq<Node>, deps: Edges, done: set<string>): (k: nat)
    requires rem != []
    ensures k < |rem|
  {
    var k := FirstReady(rem, deps, done, 0);
    if k < |rem| then k else 0
  }

  function Without(rem: seq<Node>, k: nat): (r: seq<Node>)
    requires k < |rem|
    ensures |r| == |rem| - 1
  {
    rem[..k] + rem[k + 1..]
  }

  /** The order the loop produces from a given point on. */
  function OrderFrom(rem: seq<Node>, deps: Edges, done: set<string>): (r: seq<Node>)
    ensures |r| == |rem|
    decreases |rem|
  {
    if rem == [] then []
    else
      var k := Pick(rem, deps, done);
      [rem[k]] + OrderFrom(Without(rem, k), deps, done + {rem[k].id})
  }

  /** The loop's variables `ordered`, `remaining` and `done`. */
  datatype Progress = Progress(ordered: seq<Node>, remaining: seq<Node>, done: set<string>)

  /** Where the loop is heading from a given point. */
  function Outcome(p: Progress, deps: Edges): seq<Node> {
    p.ordered + OrderFrom(p.remaining, deps, p.done)
  }

  function Place(p: Progress, k: nat): Progress
    requires k < |p.remaining|
  {
    Progress(p.ordered + [p.remaining[k]], Without(p.remaining, k), p.done + {p.remaining[k].id})
  }

  lemma OutcomeKept(p: Progress, deps: Edges)
    requires p.remaining != []
    ensures Outcome(Place(p, Pick(p.remaining, deps, p.done)), deps) == Outcome(p, deps)
  {
  }

  /** The `while remaining` loop. */
  method OrderLoop(nodes: seq<Node>, deps: Edges) returns (ordered: seq<Node>)
    ensures ordered == OrderFrom(nodes, deps, {})
  {
    var done: set<string> := {};
    var remaining := nodes;
    ordered := [];
    while remaining != []
      invariant Outcome(Progress(ordered, remaining, done), deps) == OrderFrom(nodes, deps, {})
      decreases |remaining|
    {
      OutcomeKept(Progress(ordered, remaining, done), deps);
      var k := FirstReady(remaining, deps, done, 0);
      if k == |remaining| {
        k := 0;  // a cycle: fall back to document order
      }
      assert k == Pick(remaining, deps, done);
      ordered, remaining, done :=
        ordered + [remaining[k]], Without(remaining, k), done + {remaining[k].id};
    }
  }

  // ----- Every node exactly once, for any graph -----

  lemma WithoutMultiset(rem: seq<Node>, k: nat)
    requires k < |rem|
    ensures multiset(rem) == multiset{rem[k]} + multiset(Without(rem, k))
  {
    assert rem == rem[..k] + [rem[k]] + rem[k + 1..];
  }

  lemma {:induction false} OrderIsPermutation(rem: seq<Node>, deps: Edges, done: set<string>)
    ensures multiset(OrderFrom(rem, deps, done)) == multiset(rem)
    decreases |rem|
  {
    if rem != [] {
      var k := Pick(rem, deps, done);
      OrderIsPermutation(Without(rem, k), deps, done + {rem[k].id});
      WithoutMultiset(rem, k);
    }
  }

  // ----- The fallback and cycles -----

  /** Every dependency of a node still to place is placed or still to place. */
  predicate Closed(rem: seq<Node>, deps: Edges, done: set<string>) {
    forall n, d :: n in rem && n.id in deps && d in deps[n.id] ==> d in done || d in IdSet(rem)
  }

  lemma StuckHasNoWayOut(rem: seq<Node>, deps: Edges, done: set<string>)
    requires Closed(rem, deps, done) && !SomeReady(rem, deps, done)
    ensures NoWayOut(deps, IdSet(rem))
  {
    forall a | a in IdSet(rem) ensures StaysIn(deps, IdSet(rem), a) {
      var n :| n in rem && n.id == a;
      var i :| 0 <= i < |rem| && rem[i] == n;
      assert !Ready(deps, done, rem[i].id);
      var d :| d in deps[a] && d !in done;
      assert d in IdSet(rem) && Edge(deps, a, d);
    }
  }

  /** The document-order fallback fires only when the nodes not yet placed hold a
      dependency cycle. */
  lemma {:induction false} FallbackMeansCycle(rem: seq<Node>, deps: Edges, done: set<string>)
    requires rem != [] && Closed(rem, deps, done)
    requires !SomeReady(rem, deps, done)
    ensures HasCycle(deps, IdSet(rem))
  {
    StuckHasNoWayOut(rem, deps, done);
    assert rem[0].id in IdSet(rem);
    NoWayOutIsCyclic(deps, IdSet(rem));
  }

  /** Every node comes after its dependencies, those in `done` counting as placed. */
  predicate RespectsFrom(order: seq<Node>, deps: Edges, done: set<string>) {
    forall i :: 0 <= i < |order| ==> Ready(deps, done + IdSet(order[..i]), order[i].id)
  }

  predicate Respects(order: seq<Node>, deps: Edges) {
    RespectsFrom(order, deps, {})
  }

  lemma RespectsFromCons(n: Node, rest: seq<Node>, deps: Edges, done: set<string>)
    ensures RespectsFrom([n] + rest, deps, done) <==>
            Ready(deps, done, n.id) && RespectsFrom(rest, deps, done + {n.id})
  {
    var order := [n] + rest;
    assert order[..0] == [] && IdSet([]) == {};
    assert done + {} == done;
    forall i | 0 <= i < |rest| ensures done + IdSet(order[..i + 1]) == (done + {n.id}) + IdSet(rest[..i]) {
      assert order[..i + 1] == [n] + rest[..i];
      assert IdSet([n] + rest[..i]) == {n.id} + IdSet(rest[..i]);
    }
    assert order[0] == n;
    assert forall i :: 0 <= i < |rest| ==> order[i + 1] == rest[i];
    if RespectsFrom(order, deps, done) {
      assert Ready(deps, done + IdSet(order[..0]), order[0].id);
      forall i | 0 <= i < |rest| ensures Ready(deps, done + {n.id} + IdSet(rest[..i]), rest[i].id) {
        assert Ready(deps, done + IdSet(order[..i + 1]), order[i + 1].id);
      }
    }
    if Ready(deps, done, n.id) && RespectsFrom(rest, deps, done + {n.id}) {
      forall i | 0 <= i < |order| ensures Ready(deps, done + IdSet(order[..i]), order[i].id) {
        if i > 0 {
          assert Ready(deps, done + {n.id} + IdSet(rest[..i - 1]), rest[i - 1].id);
        }
      }
    }
  }

  lemma SmallerCycle(deps: Edges, s: set<string>, t: set<string>)
    requires s <= t && HasCycle(deps, s)
    ensures HasCycle(deps, t)
  {
    var p :| IsCycle(deps, p, s);
    assert IsCycle(deps, p, t);
  }

  lemma WithoutIds(rem: seq<Node>, k: nat)
    requires k < |rem|
    ensures IdSet(rem) == IdSet(Without(rem, k)) + {rem[k].id}
  {
  }

  lemma {:induction false} AcyclicOrderRespects(rem: seq<Node>, deps: Edges, done: set<string>)
    requires Closed(rem, deps, done) && !HasCycle(deps, IdSet(rem))
    ensures RespectsFrom(OrderFrom(rem, deps, done), deps, done)
    decreases |rem|
  {
    if rem != [] {
      if !SomeReady(rem, deps, done) {
        FallbackMeansCycle(rem, deps, done);
      }
      var k := Pick(rem, deps, done);
      var rest := Without(rem, k);
      WithoutIds(rem, k);
      if HasCycle(deps, IdSet(rest)) {
        SmallerCycle(deps, IdSet(rest), IdSet(rem));
      }
      AcyclicOrderRespects(rest, deps, done + {rem[k].id});
      RespectsFromCons(rem[k], OrderFrom(rest, deps, done + {rem[k].id}), deps, done);
    }
  }

  /** No order respects the dependencies along a cycle. */
  lemma {:induction false} NoOrderRespectsACycle(order: seq<Node>, deps: Edges, cycle: seq<string>)
    requires IsCycle(deps, cycle, IdSet(order))
    ensures !Respects(order, deps)
  {
    var first := FirstOnCycle(order, cycle, 0);
    var i :| 0 <= i < |cycle| && cycle[i] == order[first].id;
    var i' := if i == |cycle| - 1 then 0 else i;
    var d := cycle[i' + 1];
    assert Edge(deps, cycle[i'], d);
    forall n | n in order[..first] ensures n.id != d {
      var j :| 0 <= j < first && order[j] == n;
    }
    assert !Ready(deps, {} + IdSet(order[..first]), order[first].id);
  }

  lemma {:induction false} FirstOnCycle(order: seq<Node>, cycle: seq<string>, from: nat) returns (k: nat)
    requires from <= |order|
    requires forall j :: 0 <= j < from ==> order[j].id !in cycle
    requires cycle != [] && cycle[0] in IdSet(order)
    ensures k < |order| && order[k].id in cycle
    ensures forall j :: 0 <= j < k ==> order[j].id !in cycle
    decreases |order| - from
  {
    var n :| n in order && n.id == cycle[0];
    var i :| 0 <= i < |order| && order[i] == n;
    if from < |order| && order[from].id !in cycle {
      k := FirstOnCycle(order, cycle, from + 1);
    } else {
      k := from;
    }
  }

  /** The result respects the dependencies exactly when they have no cycle. */
  lemma {:induction false} RespectsIffAcyclic(nodes: seq<Node>, deps: Edges)
    requires Closed(nodes, deps, {})
    ensures Respects(OrderFrom(nodes, deps, {}), deps) <==> !HasCycle(deps, IdSet(nodes))
  {
    var order := OrderFrom(nodes, deps, {});
    OrderIsPermutation(nodes, deps, {});
    assert IdSet(order) == IdSet(nodes) by {
      assert forall n :: n in order <==> n in multiset(order);
      assert forall n :: n in nodes <==> n in multiset(nodes);
    }
    if HasCycle(deps, IdSet(nodes)) {
      var cycle :| IsCycle(deps, cycle, IdSet(nodes));
      NoOrderRespectsACycle(order, deps, cycle);
    } else {
      AcyclicOrderRespects(nodes, deps, {});
    }
  }

  // ----- Least among all respecting orders -----

  /** `a` is placed before `b` in the document `doc`. */
  predicate Before(doc: seq<Node>, a: Node, b: Node) {
    exists i, j :: 0 <= i < j < |doc| && doc[i] == a && doc[j] == b
  }

  /** `p` is `o`, or at the first difference `o` has the node earlier in the document. */
  predicate LexLeq(doc: seq<Node>, o: seq<Node>, p: seq<Node>) {
    o == p || exists k :: 0 <= k < |o| && k < |p| && o[..k] == p[..k] && Before(doc, o[k], p[k])
  }

  lemma BeforeWithout(rem: seq<Node>, k: nat, a: Node, b: Node)
    requires k < |rem| && Before(Without(rem, k), a, b)
    ensures Before(rem, a, b)
  {
  }

  lemma LexLeqCons(rem: seq<Node>, k: nat, o: seq<Node>, p: seq<Node>)
    requires k < |rem| && LexLeq(Without(rem, k), o, p)
    ensures LexLeq(rem, [rem[k]] + o, [rem[k]] + p)
  {
    if o != p {
      var m :| 0 <= m < |o| && m < |p| && o[..m] == p[..m] && Before(Without(rem, k), o[m], p[m]);
      BeforeWithout(rem, k, o[m], p[m]);
      var x := [rem[k]];
      assert (x + o)[..m + 1] == x + o[..m] && (x + p)[..m + 1] == x + p[..m];
      assert (x + o)[m + 1] == o[m] && (x + p)[m + 1] == p[m];
    }
  }

  /** A node that is ready now is not before the one picked. */
  lemma PickedNotLater(rem: seq<Node>, deps: Edges, done: set<string>, n: Node)
    requires n in rem && Ready(deps, done, n.id)
    ensures var k := Pick(rem, deps, done); rem[k] == n || Before(rem, rem[k], n)
  {
  }

  lemma RestMultiset(p: seq<Node>, rem: seq<Node>, k: nat)
    requires p != [] && multiset(p) == multiset(rem) && k < |rem| && rem[k] == p[0]
    ensures multiset(p[1..]) == multiset(Without(rem, k))
  {
    WithoutMultiset(rem, k);
    assert p == [p[0]] + p[1..];
    var x := multiset{p[0]};
    assert multiset(p[1..]) == (x + multiset(p[1..])) - x == multiset(p) - x;
    assert multiset(Without(rem, k)) == (x + multiset(Without(rem, k))) - x;
  }

  lemma {:induction false} OrderIsLeast(rem: seq<Node>, deps: Edges, done: set<string>, p: seq<Node>)
    requires multiset(p) == multiset(rem) && RespectsFrom(p, deps, done)
    ensures LexLeq(rem, OrderFrom(rem, deps, done), p)
    decreases |rem|
  {
    assert |p| == |multiset(p)| == |rem|;
    if rem != [] {
      assert p == [p[0]] + p[1..];
      RespectsFromCons(p[0], p[1..], deps, done);
      assert p[0] in multiset(p) && p[0] in rem;
      PickedNotLater(rem, deps, done, p[0]);
      var k := Pick(rem, deps, done);
      var rest := OrderFrom(Without(rem, k), deps, done + {rem[k].id});
      if rem[k] == p[0] {
        RestMultiset(p, rem, k);
        OrderIsLeast(Without(rem, k), deps, done + {rem[k].id}, p[1..]);
        LexLeqCons(rem, k, rest, p[1..]);
      } else {
        DiffersAtOnce(rem, [rem[k]] + rest, p);
      }
    }
  }

  lemma DiffersAtOnce(doc: seq<Node>, o: seq<Node>, p: seq<Node>)
    requires o != [] && p != [] && Before(doc, o[0], p[0])
    ensures LexLeq(doc, o, p)
  {
  }

  lemma {:induction false} DocumentOrderKept(rem: seq<Node>, deps: Edges, done: set<string>)
    requires RespectsFrom(rem, deps, done)
    ensures OrderFrom(rem, deps, done) == rem
    decreases |rem|
  {
    if rem != [] {
      assert rem == [rem[0]] + rem[1..];
      RespectsFromCons(rem[0], rem[1..], deps, done);
      assert Pick(rem, deps, done) == 0 && Without(rem, 0) == rem[1..];
      DocumentOrderKept(rem[1..], deps, done + {rem[0].id});
    }
  }

  // ----- Dependencies, folders expanded -----

  function Lookup(table: Edges, dep: string): seq<string> {
    if dep in table then table[dep] else [dep]
  }

  /** `atom` counts as a dependency of the atomic node `n`. */
  predicate Needs(n: Node, table: Edges, known: set<string>, atom: string) {
    atom in known && atom != n.id && exists dep :: dep in n.deps && atom in Lookup(table, dep)
  }

  /** `atoms` are exactly the dependencies of `n`. */
  ghost predicate AreNeedsOf(atoms: seq<string>, n: Node, table: Edges, known: set<string>) {
    forall atom :: atom in atoms <==> Needs(n, table, known, atom)
  }

  /** A name the table does not have stands for itself: below an ATOMIC node, which the table does not
      look into, one leaf depends on another that it names. */
  lemma {:induction false} UntabledNameIsItself(n: Node, a: Node, b: Node)
    requires IsAtomic(n) && a in Atomics(n) && b in Atomics(n) && b.id in a.deps && a.id != b.id && b.id != n.id
    ensures Needs(a, Table(n, map[]), IdSet(Atomics(n)), b.id)
  {
    var table := Table(n, map[]);
    assert b.id !in table;
    assert Lookup(table, b.id) == [b.id];
  }

  /** The inner loops that expand the dependencies of one node. */
  method Expand(n: Node, table: Edges, known: set<string>) returns (expanded: seq<string>)
    ensures AreNeedsOf(expanded, n, table, known)
    ensures Distinct(expanded)
  {
    expanded := [];
    for i := 0 to |n.deps|
      invariant Distinct(expanded)
      invariant forall atom :: atom in expanded <==>
          atom in known && atom != n.id && exists k :: 0 <= k < i && atom in Lookup(table, n.deps[k])
    {
      var atoms := Lookup(table, n.deps[i]);
      ghost var before := expanded;
      for j := 0 to |atoms|
        invariant Distinct(expanded)
        invariant forall atom :: atom in expanded <==>
            atom in before || (atom in known && atom != n.id && atom in atoms[..j])
      {
        if atoms[j] in known && atoms[j] != n.id && atoms[j] !in expanded {
          expanded := expanded + [atoms[j]];
        }
      }
      assert atoms[..|atoms|] == atoms;
    }
  }

  /** `deps` lists, for each id of `nodes`, what its node needs. */
  ghost predicate IsDependencyTable(deps: Edges, nodes: seq<Node>, table: Edges, known: set<string>) {
    && (forall n :: n in nodes ==> n.id in deps)
    && (forall id :: id in deps ==>
          exists n :: n in nodes && n.id == id && AreNeedsOf(deps[id], n, table, known))
  }

  /** `topo_order`. */
  method Order(tree: Node) returns (ordered: seq<Node>, ghost deps: Edges)
    ensures IsDependencyTable(deps, Atomics(tree), Table(tree, map[]), IdSet(Atomics(tree)))
    ensures ordered == OrderFrom(Atomics(tree), deps, {})
    ensures multiset(ordered) == multiset(Atomics(tree))
    ensures Respects(ordered, deps) <==> !HasCycle(deps, IdSet(Atomics(tree)))
  {
    var nodes := FlattenAtomic(tree, []);
    assert nodes == Atomics(tree);
    var _, descendants := DescendantAtomicIds(tree, map[]);
    var table := ExpandAll(nodes, descendants, IdSet(nodes));
    deps := table;
    ordered := OrderLoop(nodes, table);
    OrderPromises(tree, deps);
  }

  /** The loop that fills `deps`. */
  method ExpandAll(nodes: seq<Node>, descendants: Edges, known: set<string>) returns (table: Edges)
    ensures IsDependencyTable(table, nodes, descendants, known)
  {
    table := map[];
    for i := 0 to |nodes|
      invariant IsDependencyTable(table, nodes[..i], descendants, known)
    {
      var expanded := Expand(nodes[i], descendants, known);
      DependencyTableGrows(table, nodes[..i], descendants, known, nodes[i], expanded);
      table := table[nodes[i].id := expanded];
      assert nodes[..i + 1] == nodes[..i] + [nodes[i]];
    }
    assert nodes[..|nodes|] == nodes;
  }

  lemma DependencyTableGrows(deps: Edges, nodes: seq<Node>, table: Edges, known: set<string>, n: Node, expanded: seq<string>)
    requires IsDependencyTable(deps, nodes, table, known)
    requires AreNeedsOf(expanded, n, table, known)
    ensures IsDependencyTable(deps[n.id := expanded], nodes + [n], table, known)
  {
  }

  /** The dependencies of the nodes of a tree never leave the tree. */
  lemma DependenciesAreClosed(deps: Edges, nodes: seq<Node>, table: Edges)
    requires IsDependencyTable(deps, nodes, table, IdSet(nodes))
    ensures Closed(nodes, deps, {})
  {
  }

  /** `b` is, or lies below, a node that `a` names as a dependency. */
  predicate DependsOn(tree: Node, a: Node, b: Node) {
    a.id != b.id && exists m :: m in AllNodes(tree) && m.id in a.deps && b in Atomics(m)
  }

  lemma NeedsIsDependsOn(tree: Node, a: Node, b: Node)
    requires Tidy(AllNodes(tree)) && b in Atomics(tree)
    ensures Needs(a, Table(tree, map[]), IdSet(Atomics(tree)), b.id) <==> DependsOn(tree, a, b)
  {
    var table := Table(tree, map[]);
    TableMeaning(tree, map[]);
    AtomicsAreNodes(tree);
    forall m | m in AllNodes(tree) ensures b.id in Lookup(table, m.id) <==> b in Atomics(m) {
      LeafIsBelow(tree, m, b);
    }
    if Needs(a, table, IdSet(Atomics(tree)), b.id) {
      var dep :| dep in a.deps && b.id in Lookup(table, dep);
      assert dep in IdSet(AllNodes(tree));
      var m :| m in AllNodes(tree) && m.id == dep;
    }
  }

  /** On a tidy tree the expanded table says exactly that. */
  lemma {:induction false} ExpandedMeaning(tree: Node, deps: Edges, a: Node, b: Node)
    requires Tidy(AllNodes(tree))
    requires a in Atomics(tree) && b in Atomics(tree)
    requires IsDependencyTable(deps, Atomics(tree), Table(tree, map[]), IdSet(Atomics(tree)))
    ensures Edge(deps, a.id, b.id) <==> DependsOn(tree, a, b)
  {
    AtomicsAreNodes(tree);
    var x := NodeOfRow(deps, Atomics(tree), Table(tree, map[]), IdSet(Atomics(tree)), a);
    SameIdSameNode(AllNodes(tree), x, a);
    NeedsIsDependsOn(tree, a, b);
  }

  lemma NodeOfRow(deps: Edges, nodes: seq<Node>, table: Edges, known: set<string>, n: Node) returns (x: Node)
    requires IsDependencyTable(deps, nodes, table, known) && n in nodes
    ensures n.id in deps && x in nodes && x.id == n.id && AreNeedsOf(deps[n.id], x, table, known)
  {
    x :| x in nodes && x.id == n.id && AreNeedsOf(deps[n.id], x, table, known);
  }

  lemma SameIdSameNode(all: seq<Node>, a: Node, b: Node)
    requires Tidy(all) && a in all && b in all && a.id == b.id
    ensures a == b
  {
  }

  lemma LeafIsBelow(tree: Node, m: Node, b: Node)
    requires Tidy(AllNodes(tree)) && m in AllNodes(tree) && b in AllNodes(tree)
    ensures b.id in LeafIds(m) <==> b in Atomics(m)
  {
    SubtreeNodes(tree, m);
    LeafIdsAreAtomics(m);
    AtomicsAreNodes(m);
    if b.id in LeafIds(m) {
      var i :| 0 <= i < |LeafIds(m)| && LeafIds(m)[i] == b.id;
      assert Atomics(m)[i] in Atomics(m);
      SameIdSameNode(AllNodes(tree), Atomics(m)[i], b);
    }
    if b in Atomics(m) {
      var i :| 0 <= i < |Atomics(m)| && Atomics(m)[i] == b;
      assert LeafIds(m)[i] == b.id;
    }
  }

  /** A subtree of a tidy tree is tidy and inside it. */
  lemma {:induction false} SubtreeNodes(n: Node, m: Node)
    requires Tidy(AllNodes(n)) && m in AllNodes(n)
    ensures Tidy(AllNodes(m)) && forall x :: x in AllNodes(m) ==> x in AllNodes(n)
    decreases n, 1
  {
    TidyParts(AllNodesOf(n.children), [n]);
    if m != n {
      SubtreeNodesOf(n.children, m);
    }
  }

  lemma {:induction false} SubtreeNodesOf(ns: seq<Node>, m: Node)
    requires Tidy(AllNodesOf(ns)) && m in AllNodesOf(ns)
    ensures Tidy(AllNodes(m)) && forall x :: x in AllNodes(m) ==> x in AllNodesOf(ns)
    decreases ns, 0
  {
    TidyParts(AllNodesOf(ns[..|ns| - 1]), AllNodes(ns[|ns| - 1]));
    if m in AllNodes(ns[|ns| - 1]) {
      SubtreeNodes(ns[|ns| - 1], m);
    } else {
      SubtreeNodesOf(ns[..|ns| - 1], m);
    }
  }

  // ----- The promises of topo_order -----

  /** For every tree: each atomic node exactly once; dependencies first exactly when
      they are acyclic; a document already in dependency order is unchanged. */
  lemma {:induction false} OrderPromises(tree: Node, deps: Edges)
    requires IsDependencyTable(deps, Atomics(tree), Table(tree, map[]), IdSet(Atomics(tree)))
    ensures var doc := Atomics(tree); var order := OrderFrom(doc, deps, {});
            && multiset(order) == multiset(doc)
            && (Respects(order, deps) <==> !HasCycle(deps, IdSet(doc)))
            && (Respects(doc, deps) ==> order == doc)
  {
    var doc := Atomics(tree);
    OrderIsPermutation(doc, deps, {});
    DependenciesAreClosed(deps, doc, Table(tree, map[]));
    RespectsIffAcyclic(doc, deps);
    if Respects(doc, deps) {
      DocumentOrderKept(doc, deps, {});
    }
  }

  /** Among all orders of the document that respect the dependencies, the result is
      the least by document position. */
  lemma {:induction false} OrderIsLexicographicallyLeast(tree: Node, deps: Edges, p: seq<Node>)
    requires multiset(p) == multiset(Atomics(tree)) && Respects(p, deps)
    ensures LexLeq(Atomics(tree), OrderFrom(Atomics(tree), deps, {}), p)
  {
    OrderIsLeast(Atomics(tree), deps, {}, p);
  }

  // ----- Which nodes the fallback can place too early -----

  /** `n` is placed before one of its dependencies, those in `done` counting as placed. */
  ghost predicate MisplacedFrom(order: seq<Node>, deps: Edges, done: set<string>, n: Node) {
    exists i :: 0 <= i < |order| && order[i] == n && !Ready(deps, done + IdSet(order[..i]), order[i].id)
  }

  /** A walk from `a` inside `within` that comes back to an id it has met. */
  predicate IsLasso(deps: Edges, p: seq<string>, within: set<string>, a: string) {
    && IsPath(deps, p) && p[0] == a && p[|p| - 1] in p[..|p| - 1]
    && forall i :: 0 <= i < |p| ==> p[i] in within
  }

  /** `a` is on a cycle or depends, through any number of steps, on one. */
  ghost predicate LeadsToCycle(deps: Edges, within: set<string>, a: string) {
    exists p :: IsLasso(deps, p, within, a)
  }

  lemma MisplacedCons(x: Node, rest: seq<Node>, deps: Edges, done: set<string>, n: Node)
    ensures MisplacedFrom([x] + rest, deps, done, n) <==>
            (x == n && !Ready(deps, done, n.id)) || MisplacedFrom(rest, deps, done + {x.id}, n)
  {
    var order := [x] + rest;
    assert done + IdSet(order[..0]) == done;
    forall i | 0 <= i < |rest|
      ensures order[i + 1] == rest[i] && done + IdSet(order[..i + 1]) == (done + {x.id}) + IdSet(rest[..i]) {
      assert order[..i + 1] == [x] + rest[..i];
    }
    if MisplacedFrom(order, deps, done, n) {
      var i :| 0 <= i < |order| && order[i] == n && !Ready(deps, done + IdSet(order[..i]), order[i].id);
      assert i > 0 ==> rest[i - 1] == n && !Ready(deps, done + {x.id} + IdSet(rest[..i - 1]), rest[i - 1].id);
    }
    if MisplacedFrom(rest, deps, done + {x.id}, n) {
      var i :| 0 <= i < |rest| && rest[i] == n && !Ready(deps, done + {x.id} + IdSet(rest[..i]), rest[i].id);
      assert order[i + 1] == n && !Ready(deps, done + IdSet(order[..i + 1]), order[i + 1].id);
    }
    if x == n && !Ready(deps, done, n.id) {
      assert order[0] == n && !Ready(deps, done + IdSet(order[..0]), order[0].id);
    }
  }

  lemma SmallerLead(deps: Edges, s: set<string>, t: set<string>, a: string)
    requires s <= t && LeadsToCycle(deps, s, a)
    ensures LeadsToCycle(deps, t, a)
  {
    var p :| IsLasso(deps, p, s, a);
    assert IsLasso(deps, p, t, a);
  }

  lemma NoWayOutLeads(deps: Edges, s: set<string>, a: string)
    requires a in s && NoWayOut(deps, s)
    ensures LeadsToCycle(deps, s, a)
  {
    var p := LongWalk(deps, s, a, |s|);
    var i, j := Repeats(p, s);
    var q := p[..j + 1];
    assert q[..|q| - 1][i] == q[|q| - 1];
    assert IsLasso(deps, q, s, a);
  }

  lemma ClosedWithout(rem: seq<Node>, deps: Edges, done: set<string>, k: nat)
    requires Closed(rem, deps, done) && k < |rem|
    ensures Closed(Without(rem, k), deps, done + {rem[k].id})
  {
    WithoutIds(rem, k);
  }

  lemma {:induction false} MisplacedLeads(rem: seq<Node>, deps: Edges, done: set<string>, n: Node)
    requires Closed(rem, deps, done) && MisplacedFrom(OrderFrom(rem, deps, done), deps, done, n)
    ensures LeadsToCycle(deps, IdSet(rem), n.id)
    decreases |rem|
  {
    var k := Pick(rem, deps, done);
    var rest := Without(rem, k);
    MisplacedCons(rem[k], OrderFrom(rest, deps, done + {rem[k].id}), deps, done, n);
    if rem[k] == n && !Ready(deps, done, n.id) {
      StuckHasNoWayOut(rem, deps, done);
      NoWayOutLeads(deps, IdSet(rem), n.id);
    } else {
      WithoutIds(rem, k);
      ClosedWithout(rem, deps, done, k);
      MisplacedLeads(rest, deps, done + {rem[k].id}, n);
      SmallerLead(deps, IdSet(rest), IdSet(rem), n.id);
    }
  }

  /** The ids of a walk that comes back to itself keep one another waiting. */
  lemma LassoHasNoWayOut(deps: Edges, p: seq<string>, within: set<string>, a: string) returns (s: set<string>)
    requires IsLasso(deps, p, within, a)
    ensures a in s && NoWayOut(deps, s)
  {
    s := set x | x in p;
    forall x | x in s ensures StaysIn(deps, s, x) {
      var i :| 0 <= i < |p| && p[i] == x;
      var j :| 0 <= j < |p| - 1 && p[..|p| - 1][j] == p[|p| - 1];
      var k := if i == |p| - 1 then j else i;
      assert Edge(deps, p[k], p[k + 1]) && p[k] == x;
    }
  }

  /** Such ids are never ready, so the first node of the document, if it is one of them,
      stays first until the fallback takes it. */
  lemma {:induction false} FirstIsMisplaced(rem: seq<Node>, deps: Edges, done: set<string>, s: set<string>)
    requires rem != [] && rem[0].id in s && NoWayOut(deps, s) && s !! done
    ensures MisplacedFrom(OrderFrom(rem, deps, done), deps, done, rem[0])
    decreases |rem|
  {
    forall id | id in s ensures !Ready(deps, done, id) {
      assert StaysIn(deps, s, id);
    }
    var k := Pick(rem, deps, done);
    var rest := Without(rem, k);
    MisplacedCons(rem[k], OrderFrom(rest, deps, done + {rem[k].id}), deps, done, rem[0]);
    if k > 0 {
      assert rem[k].id !in s && rest[0] == rem[0];
      FirstIsMisplaced(rest, deps, done + {rem[k].id}, s);
    }
  }

  /** Some order of the document makes `topo_order` place `n` before one of its dependencies. */
  ghost predicate CanBeMisplaced(nodes: seq<Node>, deps: Edges, n: Node) {
    exists doc :: multiset(doc) == multiset(nodes) && MisplacedFrom(OrderFrom(doc, deps, {}), deps, {}, n)
  }

  lemma PermutedDocument(doc: seq<Node>, nodes: seq<Node>, deps: Edges)
    requires multiset(doc) == multiset(nodes) && Closed(nodes, deps, {})
    ensures IdSet(doc) == IdSet(nodes) && Closed(doc, deps, {})
  {
    assert forall n :: n in doc <==> n in multiset(doc);
    assert forall n :: n in nodes <==> n in multiset(nodes);
  }

  lemma LeadingNodeCanBeMisplaced(nodes: seq<Node>, deps: Edges, n: Node)
    requires n in nodes && LeadsToCycle(deps, IdSet(nodes), n.id)
    ensures CanBeMisplaced(nodes, deps, n)
  {
    var p :| IsLasso(deps, p, IdSet(nodes), n.id);
    var s := LassoHasNoWayOut(deps, p, IdSet(nodes), n.id);
    var k :| 0 <= k < |nodes| && nodes[k] == n;
    var doc := [n] + Without(nodes, k);
    WithoutMultiset(nodes, k);
    FirstIsMisplaced(doc, deps, {}, s);
    assert multiset(doc) == multiset(nodes);
  }

  /** A node can come before one of its dependencies if and only if it is on a cycle or leads
      to one. */
  lemma {:induction false} CanBeMisplacedIff(nodes: seq<Node>, deps: Edges, n: Node)
    requires Closed(nodes, deps, {}) && n in nodes
    ensures CanBeMisplaced(nodes, deps, n) <==> LeadsToCycle(deps, IdSet(nodes), n.id)
  {
    if CanBeMisplaced(nodes, deps, n) {
      var doc :| multiset(doc) == multiset(nodes) && MisplacedFrom(OrderFrom(doc, deps, {}), deps, {}, n);
      PermutedDocument(doc, nodes, deps);
      MisplacedLeads(doc, deps, {}, n);
    }
    if LeadsToCycle(deps, IdSet(nodes), n.id) {
      LeadingNodeCanBeMisplaced(nodes, deps, n);
    }
  }

  // ----- What the fallback does not promise -----

  const BYSTANDER := Node("C", "ATOMIC", ["A"], [])
  const LOOP := [Node("A", "ATOMIC", ["B"], []), Node("B", "ATOMIC", ["A"], [])]
  const LOOP_EDGES: Edges := map["C" := ["A"], "A" := ["B"], "B" := ["A"]]

  lemma {:induction false} LoopIsClosed(p: seq<string>, k: nat)
    requires IsPath(LOOP_EDGES, p) && p[0] == "A" && k < |p|
    ensures p[k] == "A" || p[k] == "B"
  {
    if k > 0 {
      LoopIsClosed(p, k - 1);
      assert Edge(LOOP_EDGES, p[k - 1], p[k]);
    }
  }

  /** Unlike a depth-first listing, this order may place a node before its dependency although
      the node is on no cycle: one that merely depends on a cycle and comes first. */
  lemma {:induction false} FallbackMayPlaceABystander()
    ensures OrderFrom([BYSTANDER] + LOOP, LOOP_EDGES, {})[0] == BYSTANDER
    ensures Edge(LOOP_EDGES, BYSTANDER.id, "A") && !Reaches(LOOP_EDGES, "A", BYSTANDER.id)
  {
    var doc := [BYSTANDER] + LOOP;
    forall i | 0 <= i < |doc| ensures !Ready(LOOP_EDGES, {}, doc[i].id) {
      assert doc[i] == BYSTANDER || doc[i] == LOOP[0] || doc[i] == LOOP[1];
      assert LOOP_EDGES[doc[i].id][0] in LOOP_EDGES[doc[i].id];
    }
    assert Pick(doc, LOOP_EDGES, {}) == 0;
    forall p | IsPath(LOOP_EDGES, p) && p[0] == "A" ensures p[|p| - 1] != "C" {
      LoopIsClosed(p, |p| - 1);
    }
  }
}
