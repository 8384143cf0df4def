/**
  The requirement tree, its atomic leaves in document order, and the table that
  sends every node id to the ids of the atomic nodes below it.
*/
module RequirementTree {
  import opened Graph

  /** One requirement. `kind` is its type in upper case, "" when untyped. */
  datatype Node = Node(id: string, kind: string, deps: seq<string>, children: seq<Node>)

  function Ids(ns: seq<Node>): (r: seq<string>)
    ensures |r| == |ns| && forall i :: 0 <= i < |ns| ==> r[i] == ns[i].id
  {
    seq(|ns|, i requires 0 <= i < |ns| => ns[i].id)
  }

  function IdSet(ns: seq<Node>): set<string> {
    set n | n in ns :: n.id
  }

  /** The dependency edges the nodes name themselves. */
  function NamedEdges(rows: map<string, Node>): (g: Edges)
    ensures g.Keys == rows.Keys && forall id :: id in g ==> g[id] == rows[id].deps
  {
    map id | id in rows :: rows[id].deps
  }

  /** A node that is implemented and checked on its own. */
  predicate IsAtomic(n: Node) {
    n.kind == "ATOMIC" || (n.children == [] && n.kind != "FOLDER")
  }

  // ----- The leaves of a subtree -----

  function Atomics(n: Node): seq<Node>
    decreases n, 1
  {
    (if IsAtomic(n) then [n] else []) + AtomicsOf(n.children)
  }

  function AtomicsOf(ns: seq<Node>): seq<Node>
    decreases ns, 0
  {
    if ns == [] then [] else AtomicsOf(ns[..|ns| - 1]) + Atomics(ns[|ns| - 1])
  }

  /** `flatten_atomic`, growing the list it is handed. */
  method FlattenAtomic(node: Node, out: seq<Node>) returns (grown: seq<Node>)
    ensures grown == out + Atomics(node)
    decreases node
  {
    grown := out;
    if node.kind == "ATOMIC" || (node.children == [] && node.kind != "FOLDER") {
      grown := grown + [node];
    }
    ghost var base := grown;
    for i := 0 to |node.children|
      invariant grown == base + AtomicsOf(node.children[..i])
    {
      assert node.children[..i + 1][..i] == node.children[..i];
      grown := FlattenAtomic(node.children[i], grown);
    }
    assert node.children[..|node.children|] == node.children;
  }

  /** Every node of a subtree in document order, parents first. */
  function Preorder(n: Node): seq<Node>
    decreases n, 1
  {
    [n] + PreorderOf(n.children)
  }

  function PreorderOf(ns: seq<Node>): seq<Node>
    decreases ns, 0
  {
    if ns == [] then [] else PreorderOf(ns[..|ns| - 1]) + Preorder(ns[|ns| - 1])
  }

  /** The nodes typed ATOMIC, and the others without children that are no FOLDER. */
  function Counted(ns: seq<Node>): (r: seq<Node>)
    ensures forall x :: x in r <==> x in ns && (x.kind == "ATOMIC" || (x.kind != "FOLDER" && x.children == []))
  {
    if ns == [] then []
    else
      var n := ns[|ns| - 1];
      Counted(ns[..|ns| - 1]) + (if n.kind == "ATOMIC" || (n.kind != "FOLDER" && n.children == []) then [n] else [])
  }

  lemma {:induction false} CountedConcat(a: seq<Node>, b: seq<Node>)
    ensures Counted(a + b) == Counted(a) + Counted(b)
  {
    if b == [] {
      assert a + b == a;
    } else {
      assert (a + b)[..|a + b| - 1] == a + b[..|b| - 1];
      CountedConcat(a, b[..|b| - 1]);
    }
  }

  /** The leaves are exactly those nodes, in document order: an untyped leaf counts, an empty FOLDER
      does not, and an ATOMIC node counts even with children. */
  lemma {:induction false} LeavesInDocumentOrder(n: Node)
    ensures Atomics(n) == Counted(Preorder(n))
    decreases n, 1
  {
    LeavesOfInDocumentOrder(n.children);
    CountedConcat([n], PreorderOf(n.children));
    CountedOne(n);
  }

  lemma CountedOne(n: Node)
    ensures Counted([n]) == if IsAtomic(n) then [n] else []
  {
    assert [n][..0] == [] && Counted([]) == [];
  }

  lemma {:induction false} LeavesOfInDocumentOrder(ns: seq<Node>)
    ensures AtomicsOf(ns) == Counted(PreorderOf(ns))
    decreases ns, 0
  {
    if ns != [] {
      LeavesOfInDocumentOrder(ns[..|ns| - 1]);
      LeavesInDocumentOrder(ns[|ns| - 1]);
      CountedConcat(PreorderOf(ns[..|ns| - 1]), Preorder(ns[|ns| - 1]));
    }
  }

  // ----- The descendant table -----

  function LeafIds(n: Node): seq<string>
    decreases n, 1
  {
    if IsAtomic(n) then [n.id] else LeafIdsOf(n.children)
  }

  function LeafIdsOf(ns: seq<Node>): seq<string>
    decreases ns, 0
  {
    if ns == [] then [] else LeafIdsOf(ns[..|ns| - 1]) + LeafIds(ns[|ns| - 1])
  }

  /** The table `walk` leaves behind; a later node overwrites an earlier one of the same id. */
  function Table(n: Node, before: Edges): Edges
    decreases n, 1
  {
    var t := if IsAtomic(n) then before else TableOf(n.children, before);
    if n.id == "" then t else t[n.id := LeafIds(n)]
  }

  function TableOf(ns: seq<Node>, before: Edges): Edges
    decreases ns, 0
  {
    if ns == [] then before else Table(ns[|ns| - 1], TableOf(ns[..|ns| - 1], before))
  }

  /** `walk` inside `_descendant_atomic_ids`. */
  method DescendantAtomicIds(node: Node, before: Edges)
    returns (ids: seq<string>, mapping: Edges)
    ensures ids == LeafIds(node) && mapping == Table(node, before)
    decreases node
  {
    mapping := before;
    if node.kind == "ATOMIC" || (node.children == [] && node.kind != "FOLDER") {
      ids := [node.id];
    } else {
      ids := [];
      for i := 0 to |node.children|
        invariant ids == LeafIdsOf(node.children[..i])
        invariant mapping == TableOf(node.children[..i], before)
      {
        assert node.children[..i + 1][..i] == node.children[..i];
        var more;
        more, mapping := DescendantAtomicIds(node.children[i], mapping);
        ids := ids + more;
      }
      assert node.children[..|node.children|] == node.children;
    }
    if node.id != "" {
      mapping := mapping[node.id := ids];
    }
  }

  // ----- What the table means -----

  /** Every node of a subtree, folders included. */
  function AllNodes(n: Node): seq<Node>
    decreases n, 1
  {
    AllNodesOf(n.children) + [n]
  }

  function AllNodesOf(ns: seq<Node>): seq<Node>
    decreases ns, 0
  {
    if ns == [] then [] else AllNodesOf(ns[..|ns| - 1]) + AllNodes(ns[|ns| - 1])
  }

  predicate Distinct(ids: seq<string>) {
    forall i, j :: 0 <= i < j < |ids| ==> ids[i] != ids[j]
  }

  /** Ids are present and unique, and a node typed ATOMIC has no children. */
  predicate Tidy(ns: seq<Node>) {
    && Distinct(Ids(ns))
    && forall n :: n in ns ==> n.id != "" && (n.kind == "ATOMIC" ==> n.children == [])
  }

  lemma TidyParts(a: seq<Node>, b: seq<Node>)
    requires Tidy(a + b)
    ensures Tidy(a) && Tidy(b)
    ensures forall x, y :: x in a && y in b ==> x.id != y.id
  {
    forall i, j | 0 <= i < j < |b| ensures Ids(b)[i] != Ids(b)[j] {
      assert Ids(a + b)[|a| + i] == b[i].id && Ids(a + b)[|a| + j] == b[j].id;
    }
    forall i, j | 0 <= i < j < |a| ensures Ids(a)[i] != Ids(a)[j] {
      assert Ids(a + b)[i] == a[i].id && Ids(a + b)[j] == a[j].id;
    }
    forall x, y | x in a && y in b ensures x.id != y.id {
      var i :| 0 <= i < |a| && a[i] == x;
      var j :| 0 <= j < |b| && b[j] == y;
      assert Ids(a + b)[i] == x.id && Ids(a + b)[|a| + j] == y.id;
    }
  }

  lemma IdsConcat(a: seq<Node>, b: seq<Node>)
    ensures Ids(a + b) == Ids(a) + Ids(b)
  {
  }

  /** Where no ATOMIC node has children, the two leaf listings agree. */
  lemma {:induction false} LeafIdsAreAtomics(n: Node)
    requires Tidy(AllNodes(n))
    ensures LeafIds(n) == Ids(Atomics(n))
    decreases n, 1
  {
    assert n in AllNodes(n);
    TidyParts(AllNodesOf(n.children), [n]);
    LeafIdsOfAreAtomics(n.children);
  }

  lemma {:induction false} LeafIdsOfAreAtomics(ns: seq<Node>)
    requires Tidy(AllNodesOf(ns))
    ensures LeafIdsOf(ns) == Ids(AtomicsOf(ns))
    decreases ns, 0
  {
    if ns != [] {
      TidyParts(AllNodesOf(ns[..|ns| - 1]), AllNodes(ns[|ns| - 1]));
      LeafIdsOfAreAtomics(ns[..|ns| - 1]);
      LeafIdsAreAtomics(ns[|ns| - 1]);
      IdsConcat(AtomicsOf(ns[..|ns| - 1]), Atomics(ns[|ns| - 1]));
    }
  }

  /** `t` sends exactly the ids of `ns`, on top of `before`, to the leaves below them. */
  predicate TableFor(t: Edges, ns: seq<Node>, before: Edges) {
    && t.Keys == before.Keys + IdSet(ns)
    && (forall n :: n in ns ==> n.id in t && t[n.id] == LeafIds(n))
    && (forall k :: k in before && k !in IdSet(ns) ==> k in t && t[k] == before[k])
  }

  lemma {:induction false} TableMeaning(n: Node, before: Edges)
    requires Tidy(AllNodes(n))
    ensures TableFor(Table(n, before), AllNodes(n), before)
    decreases n, 1
  {
    TidyParts(AllNodesOf(n.children), [n]);
    assert n in AllNodes(n);
    if IsAtomic(n) {
      assert n.children == [];
    } else {
      TableOfMeaning(n.children, before);
    }
    assert forall x :: x in AllNodes(n) <==> x in AllNodesOf(n.children) || x == n;
  }

  lemma {:induction false} TableOfMeaning(ns: seq<Node>, before: Edges)
    requires Tidy(AllNodesOf(ns))
    ensures TableFor(TableOf(ns, before), AllNodesOf(ns), before)
    decreases ns, 0
  {
    if ns != [] {
      var front, last := ns[..|ns| - 1], ns[|ns| - 1];
      TidyParts(AllNodesOf(front), AllNodes(last));
      TableOfMeaning(front, before);
      TableMeaning(last, TableOf(front, before));
      TableForBoth(TableOf(front, before), Table(last, TableOf(front, before)), AllNodesOf(front), AllNodes(last), before);
    }
  }

  lemma TableForBoth(t: Edges, t': Edges, a: seq<Node>, b: seq<Node>,
                     before: Edges)
    requires TableFor(t, a, before) && TableFor(t', b, t)
    requires forall x, y :: x in a && y in b ==> x.id != y.id
    ensures TableFor(t', a + b, before)
  {
  }

  lemma {:induction false} PreorderIsAllNodes(n: Node)
    ensures multiset(Preorder(n)) == multiset(AllNodes(n))
    decreases n, 1
  {
    PreorderOfIsAllNodesOf(n.children);
  }

  lemma {:induction false} PreorderOfIsAllNodesOf(ns: seq<Node>)
    ensures multiset(PreorderOf(ns)) == multiset(AllNodesOf(ns))
    decreases ns, 0
  {
    if ns != [] {
      PreorderOfIsAllNodesOf(ns[..|ns| - 1]);
      PreorderIsAllNodes(ns[|ns| - 1]);
    }
  }

  lemma {:induction false} AtomicsAreNodes(n: Node)
    ensures forall x :: x in Atomics(n) ==> x in AllNodes(n)
    decreases n, 1
  {
    AtomicsOfAreNodes(n.children);
  }

  lemma {:induction false} AtomicsOfAreNodes(ns: seq<Node>)
    ensures forall x :: x in AtomicsOf(ns) ==> x in AllNodesOf(ns)
    decreases ns, 0
  {
    if ns != [] {
      AtomicsOfAreNodes(ns[..|ns| - 1]);
      AtomicsAreNodes(ns[|ns| - 1]);
    }
  }
}
