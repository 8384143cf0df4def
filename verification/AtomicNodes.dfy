/**
  `atomic_nodes`: the non-folder requirements in the order of a depth-first visit,
  dependencies first.
*/
module AtomicNodes {
  import opened Graph
  import opened RequirementTree
  import opened Wrappers

  // ----- The dictionary of non-folder nodes -----

  /** A dictionary that remembers the order in which its keys were first set. */
  datatype Flat = Flat(keys: seq<string>, rows: map<string, Node>) {
    ghost predicate Valid() {
      && Distinct(keys)
      && (forall id :: id in keys <==> id in rows)
      && (forall id :: id in rows ==> rows[id].id == id)
    }

    function Set(n: Node): Flat {
      Flat(if n.id in rows then keys else keys + [n.id], rows[n.id := n])
    }

    lemma SetKeepsValid(n: Node)
      requires Valid()
      ensures Set(n).Valid()
    {
    }
  }

  function Collect(n: Node, before: Flat): Flat
    decreases n, 1
  {
    CollectOf(n.children, if n.kind == "FOLDER" then before else before.Set(n))
  }

  function CollectOf(ns: seq<Node>, before: Flat): Flat
    decreases ns, 0
  {
    if ns == [] then before else Collect(ns[|ns| - 1], CollectOf(ns[..|ns| - 1], before))
  }

  lemma {:induction false} CollectKeepsValid(n: Node, before: Flat)
    requires before.Valid()
    ensures Collect(n, before).Valid()
    decreases n, 1
  {
    before.SetKeepsValid(n);
    CollectOfKeepsValid(n.children, if n.kind == "FOLDER" then before else before.Set(n));
  }

  lemma {:induction false} CollectOfKeepsValid(ns: seq<Node>, before: Flat)
    requires before.Valid()
    ensures CollectOf(ns, before).Valid()
    decreases ns, 0
  {
    if ns != [] {
      CollectOfKeepsValid(ns[..|ns| - 1], before);
      CollectKeepsValid(ns[|ns| - 1], CollectOf(ns[..|ns| - 1], before));
    }
  }

  /** The dictionary holds exactly the ids of the non-folder nodes of the tree. */
  lemma {:induction false} CollectIds(n: Node, before: Flat)
    ensures Collect(n, before).rows.Keys == before.rows.Keys + set x | x in AllNodes(n) && x.kind != "FOLDER" :: x.id
    decreases n, 1
  {
    CollectOfIds(n.children, if n.kind == "FOLDER" then before else before.Set(n));
    assert forall x :: x in AllNodes(n) <==> x in AllNodesOf(n.children) || x == n;
  }

  lemma {:induction false} CollectOfIds(ns: seq<Node>, before: Flat)
    ensures CollectOf(ns, before).rows.Keys == before.rows.Keys + set x | x in AllNodesOf(ns) && x.kind != "FOLDER" :: x.id
    decreases ns, 0
  {
    if ns != [] {
      var front, last := ns[..|ns| - 1], ns[|ns| - 1];
      CollectOfIds(front, before);
      CollectIds(last, CollectOf(front, before));
      assert forall x :: x in AllNodesOf(ns) <==> x in AllNodesOf(front) || x in AllNodes(last);
    }
  }

  /** A non-folder node of a given id. */
  predicate IsRow(n: Node, id: string) {
    n.kind != "FOLDER" && n.id == id
  }

  /** The last such node of a list, -1 when there is none. */
  function LastRow(ns: seq<Node>, id: string): (i: int)
    ensures -1 <= i < |ns|
    ensures i >= 0 ==> IsRow(ns[i], id)
    ensures forall k :: i < k < |ns| ==> !IsRow(ns[k], id)
  {
    if ns == [] then -1
    else if IsRow(ns[|ns| - 1], id) then |ns| - 1
    else LastRow(ns[..|ns| - 1], id)
  }

  /** Under `id` the rows hold the last such node, and what was there before when there is none. */
  predicate HoldsLast(rows: map<string, Node>, before: map<string, Node>, ns: seq<Node>, id: string) {
    var i := LastRow(ns, id);
    if i >= 0 then id in rows && rows[id] == ns[i] else SameAt(rows, before, id)
  }

  lemma HoldsLastOfBoth(first: map<string, Node>, after: map<string, Node>, before: map<string, Node>,
                        a: seq<Node>, b: seq<Node>, id: string)
    requires HoldsLast(first, before, a, id) && HoldsLast(after, first, b, id)
    ensures HoldsLast(after, before, a + b, id)
  {
    var i, j, k := LastRow(a, id), LastRow(b, id), LastRow(a + b, id);
    if j >= 0 {
      assert (a + b)[|a| + j] == b[j];
      assert k == |a| + j;
    } else if i >= 0 {
      assert (a + b)[i] == a[i];
      assert k == i;
    }
  }

  /** The dictionary holds, for each id, the last non-folder node with it in document order. */
  lemma {:induction false} CollectHoldsLast(n: Node, before: Flat, id: string)
    ensures HoldsLast(Collect(n, before).rows, before.rows, Preorder(n), id)
    decreases n, 1
  {
    var base := if n.kind == "FOLDER" then before else before.Set(n);
    assert HoldsLast(base.rows, before.rows, [n], id);
    CollectOfHoldsLast(n.children, base, id);
    HoldsLastOfBoth(base.rows, Collect(n, before).rows, before.rows, [n], PreorderOf(n.children), id);
  }

  lemma {:induction false} CollectOfHoldsLast(ns: seq<Node>, before: Flat, id: string)
    ensures HoldsLast(CollectOf(ns, before).rows, before.rows, PreorderOf(ns), id)
    decreases ns, 0
  {
    if ns != [] {
      var front, last := ns[..|ns| - 1], ns[|ns| - 1];
      CollectOfHoldsLast(front, before, id);
      CollectHoldsLast(last, CollectOf(front, before), id);
      HoldsLastOfBoth(CollectOf(front, before).rows, CollectOf(ns, before).rows, before.rows,
                      PreorderOf(front), Preorder(last), id);
    }
  }

  /** The non-folder nodes of a list. */
  function NonFolders(ns: seq<Node>): (r: seq<Node>)
    ensures forall x :: x in r <==> x in ns && x.kind != "FOLDER"
  {
    if ns == [] then []
    else NonFolders(ns[..|ns| - 1]) + (if ns[|ns| - 1].kind == "FOLDER" then [] else [ns[|ns| - 1]])
  }

  lemma {:induction false} NonFoldersConcat(a: seq<Node>, b: seq<Node>)
    ensures NonFolders(a + b) == NonFolders(a) + NonFolders(b)
  {
    if b == [] {
      assert a + b == a;
    } else {
      assert (a + b)[..|a + b| - 1] == a + b[..|b| - 1];
      NonFoldersConcat(a, b[..|b| - 1]);
    }
  }

  lemma DistinctParts(a: seq<string>, b: seq<string>)
    requires Distinct(a + b)
    ensures Distinct(a) && forall x :: x in a ==> x !in b
  {
    assert forall i :: 0 <= i < |a| ==> (a + b)[i] == a[i];
    assert forall i :: 0 <= i < |b| ==> (a + b)[|a| + i] == b[i];
  }

  /** With distinct ids the keys come in document order. */
  lemma {:induction false} CollectKeys(n: Node, before: Flat)
    requires before.Valid() && Distinct(before.keys + Ids(NonFolders(Preorder(n))))
    ensures Collect(n, before).keys == before.keys + Ids(NonFolders(Preorder(n)))
    decreases n, 1
  {
    var base := if n.kind == "FOLDER" then before else before.Set(n);
    var own, rest := Ids(NonFolders([n])), Ids(NonFolders(PreorderOf(n.children)));
    assert [n][..0] == [] && NonFolders([]) == [];
    NonFoldersConcat([n], PreorderOf(n.children));
    IdsConcat(NonFolders([n]), NonFolders(PreorderOf(n.children)));
    assert before.keys + (own + rest) == (before.keys + own) + rest;
    DistinctParts(before.keys, own + rest);
    assert n.kind != "FOLDER" ==> own[0] == n.id && n.id in own + rest;
    assert base.keys == before.keys + own;
    before.SetKeepsValid(n);
    CollectOfKeys(n.children, base);
  }

  lemma {:induction false} CollectOfKeys(ns: seq<Node>, before: Flat)
    requires before.Valid() && Distinct(before.keys + Ids(NonFolders(PreorderOf(ns))))
    ensures CollectOf(ns, before).keys == before.keys + Ids(NonFolders(PreorderOf(ns)))
    decreases ns, 0
  {
    if ns != [] {
      var front, last := ns[..|ns| - 1], ns[|ns| - 1];
      var a, b := Ids(NonFolders(PreorderOf(front))), Ids(NonFolders(Preorder(last)));
      NonFoldersConcat(PreorderOf(front), Preorder(last));
      IdsConcat(NonFolders(PreorderOf(front)), NonFolders(Preorder(last)));
      assert before.keys + (a + b) == (before.keys + a) + b;
      DistinctParts(before.keys + a, b);
      CollectOfKeys(front, before);
      CollectOfKeepsValid(front, before);
      CollectKeys(last, CollectOf(front, before));
    } else {
      assert before.keys + [] == before.keys;
    }
  }

  /** `walk`. */
  method Walk(node: Node, before: Flat) returns (flat: Flat)
    ensures flat == Collect(node, before)
    decreases node
  {
    flat := before;
    if node.kind != "FOLDER" {
      flat := flat.Set(node);
    }
    ghost var base := flat;
    for i := 0 to |node.children|
      invariant flat == CollectOf(node.children[..i], base)
    {
      assert node.children[..i + 1][..i] == node.children[..i];
      flat := Walk(node.children[i], flat);
    }
    assert node.children[..|node.children|] == node.children;
  }

  // ----- The visit -----

  /** The node at position `i` comes after its known dependency `b`, or `b` leads back to it. */
  ghost predicate PlacedOrCyclic(g: Edges, order: seq<string>, i: nat, b: string)
    requires i < |order|
  {
    b in order[..i] || Reaches(g, b, order[i])
  }

  ghost predicate Justified(g: Edges, order: seq<string>) {
    forall i, b :: 0 <= i < |order| && Edge(g, order[i], b) && b in g ==> PlacedOrCyclic(g, order, i, b)
  }

  /** A dependency chain: each id names the next one. */
  predicate Chain(g: Edges, path: seq<string>) {
    forall i :: 0 <= i < |path| - 1 ==> Edge(g, path[i], path[i + 1])
  }

  lemma ChainReaches(g: Edges, path: seq<string>, b: string)
    requires path != [] && Chain(g, path) && b in path && Edge(g, path[|path| - 1], b)
    ensures Reaches(g, b, path[|path| - 1])
  {
    var k :| 0 <= k < |path| && path[k] == b;
    var p := if k == |path| - 1 then [b, b] else path[k..];
    forall i | 0 <= i < |p| - 1 ensures Edge(g, p[i], p[i + 1]) {
      assert k < |path| - 1 ==> Edge(g, path[k + i], path[k + i + 1]);
    }
    assert IsPathFrom(g, p, b, path[|path| - 1]);
  }

  lemma JustifiedSnoc(g: Edges, order: seq<string>, a: string)
    requires Justified(g, order)
    requires forall b :: Edge(g, a, b) && b in g ==> b in order || Reaches(g, b, a)
    ensures Justified(g, order + [a])
  {
    var longer := order + [a];
    forall i, b | 0 <= i < |longer| && Edge(g, longer[i], b) && b in g ensures PlacedOrCyclic(g, longer, i, b) {
      if i < |order| {
        assert PlacedOrCyclic(g, order, i, b);
        assert longer[..i] == order[..i];
      } else {
        assert longer[..i] == order;
      }
    }
  }

  lemma ShorterPath(g: Edges, path: seq<string>, nid: string)
    requires Distinct(path + [nid]) && Chain(g, path + [nid])
    ensures Distinct(path) && Chain(g, path) && nid !in path
    ensures forall x :: x in path + [nid] <==> x in path || x == nid
  {
    var longer := path + [nid];
    assert longer[|path|] == nid && forall i :: 0 <= i < |path| ==> longer[i] == path[i];
    forall i | 0 <= i < |path| - 1 ensures Edge(g, path[i], path[i + 1]) {
      assert Edge(g, longer[i], longer[i + 1]);
    }
  }

  /** The variables of `visit`. */
  datatype Trail = Trail(seen: set<string>, stack: set<string>, ordered: seq<string>)

  /** A visit: what the dependencies need first, left to right, then the node. */
  function Explore(flat: map<string, Node>, nid: string, t: Trail): (r: Trail)
    ensures t.stack <= r.stack
    decreases flat.Keys - t.stack, 0
  {
    if nid in t.seen || nid in t.stack || nid !in flat then t
    else
      var r := ExploreAll(flat, flat[nid].deps, t.(stack := t.stack + {nid}));
      r.(seen := r.seen + {nid}, ordered := r.ordered + [nid])
  }

  function ExploreAll(flat: map<string, Node>, ids: seq<string>, t: Trail): (r: Trail)
    ensures t.stack <= r.stack
    decreases flat.Keys - t.stack, 1, |ids|
  {
    if ids == [] then t else Explore(flat, ids[|ids| - 1], ExploreAll(flat, ids[..|ids| - 1], t))
  }

  lemma ExploreFinishes(flat: map<string, Node>, nid: string, t: Trail, r: Trail)
    requires nid in flat && nid !in t.seen && nid !in t.stack
    requires r == ExploreAll(flat, flat[nid].deps, Trail(t.seen, t.stack + {nid}, t.ordered))
    ensures Explore(flat, nid, t) == Trail(r.seen + {nid}, r.stack, r.ordered + [nid])
  {
  }

  lemma ExploreNext(flat: map<string, Node>, ids: seq<string>, i: nat, t: Trail)
    requires i < |ids|
    ensures ExploreAll(flat, ids[..i + 1], t) == Explore(flat, ids[i], ExploreAll(flat, ids[..i], t))
  {
    assert ids[..i + 1][..i] == ids[..i];
  }

  /** Dependencies are visited in the order they are named: those of a list, then those after it. */
  lemma {:induction false} ExploresLeftToRight(flat: map<string, Node>, a: seq<string>, b: seq<string>, t: Trail)
    ensures ExploreAll(flat, a + b, t) == ExploreAll(flat, b, ExploreAll(flat, a, t))
    decreases |b|
  {
    if b == [] {
      assert a + b == a;
    } else {
      assert (a + b)[..|a + b| - 1] == a + b[..|b| - 1];
      ExploresLeftToRight(flat, a, b[..|b| - 1], t);
    }
  }

  /** The outer loop: each visit starts with an empty stack. */
  function Listing(flat: map<string, Node>, keys: seq<string>): Trail {
    if keys == [] then Trail({}, {}, [])
    else Explore(flat, keys[|keys| - 1], Listing(flat, keys[..|keys| - 1]).(stack := {}))
  }

  lemma ListingNext(flat: map<string, Node>, keys: seq<string>, i: nat)
    requires i < |keys|
    ensures Listing(flat, keys[..i + 1]) == Explore(flat, keys[i], Listing(flat, keys[..i]).(stack := {}))
  {
    assert keys[..i + 1][..i] == keys[..i];
  }

  class Visitor {
    const flat: map<string, Node>
    var seen: set<string>
    var stack: set<string>
    var ordered: seq<string>

    ghost function G(): Edges {
      NamedEdges(flat)
    }

    ghost function State(): Trail
      reads this
    {
      Trail(seen, stack, ordered)
    }

    /** `path` is the chain of visits under way: what was entered and not finished. */
    ghost predicate Valid(path: seq<string>)
      reads this
    {
      && stack <= flat.Keys && seen <= flat.Keys
      && (forall x :: x in path <==> x in stack && x !in seen)
      && Distinct(path) && Chain(G(), path)
      && (forall x :: x in seen <==> x in ordered)
      && Distinct(ordered)
      && Justified(G(), ordered)
    }

    constructor (flat: map<string, Node>)
      ensures this.flat == flat && Valid([]) && State() == Trail({}, {}, [])
    {
      this.flat := flat;
      seen, stack, ordered := {}, {}, [];
    }

    /** `for nid in flat: visit(nid, set())` starts each visit with an empty stack. */
    method ClearStack()
      requires Valid([])
      modifies this`stack
      ensures Valid([]) && State() == old(State()).(stack := {})
    {
      stack := {};
    }

    /** `visit`. */
    method Visit(nid: string, ghost path: seq<string>)
      requires Valid(path)
      requires path != [] ==> Edge(G(), path[|path| - 1], nid)
      modifies this`seen, this`stack, this`ordered
      ensures Valid(path)
      ensures old(seen) <= seen && old(stack) <= stack
      ensures nid in flat ==> nid in seen || nid in path
      ensures State() == Explore(flat, nid, old(State()))
      decreases flat.Keys - stack, 0
    {
      if nid in seen || nid in stack || nid !in flat {
        return;
      }
      stack := stack + {nid};
      assert Valid(path + [nid]) by {
        assert forall x :: x in path + [nid] <==> x in path || x == nid;
      }
      VisitDependencies(nid, path);
      ExploreFinishes(flat, nid, old(State()), State());
      Finish(nid, path);
    }

    /** The loop of `visit`. */
    method VisitDependencies(nid: string, ghost path: seq<string>)
      requires nid in flat && Valid(path + [nid])
      modifies this`seen, this`stack, this`ordered
      ensures Valid(path + [nid])
      ensures old(seen) <= seen && old(stack) <= stack
      ensures forall b :: b in flat[nid].deps && b in flat ==> b in seen || b in path + [nid]
      ensures State() == ExploreAll(flat, flat[nid].deps, old(State()))
      decreases flat.Keys - stack, 1
    {
      ghost var longer := path + [nid];
      var deps := flat[nid].deps;
      for i := 0 to |deps|
        invariant Valid(longer)
        invariant old(seen) <= seen && old(stack) <= stack
        invariant forall k :: 0 <= k < i && deps[k] in flat ==> deps[k] in seen || deps[k] in longer
        invariant State() == ExploreAll(flat, deps[..i], old(State()))
      {
        assert Edge(G(), longer[|longer| - 1], deps[i]);
        ExploreNext(flat, deps, i, old(State()));
        Visit(deps[i], longer);
      }
      assert deps[..|deps|] == deps;
    }

    /** The last two lines of `visit`. */
    method Finish(nid: string, ghost path: seq<string>)
      requires Valid(path + [nid])
      requires forall b :: Edge(G(), nid, b) && b in flat ==> b in seen || b in path + [nid]
      modifies this`seen, this`ordered
      ensures Valid(path) && seen == old(seen) + {nid} && ordered == old(ordered) + [nid]
    {
      ghost var longer := path + [nid];
      assert nid in longer && nid !in seen;
      forall b | Edge(G(), nid, b) && b in G() ensures b in ordered || Reaches(G(), b, nid) {
        if b in longer {
          ChainReaches(G(), longer, b);
        }
      }
      JustifiedSnoc(G(), ordered, nid);
      ShorterPath(G(), path, nid);
      seen := seen + {nid};
      ordered := ordered + [nid];
    }
  }

  /** The outer loop: a visit from every id, in the order the ids were collected. */
  method VisitAll(flat: Flat) returns (ids: seq<string>)
    requires flat.Valid()
    ensures Distinct(ids) && Justified(NamedEdges(flat.rows), ids)
    ensures forall id :: id in ids <==> id in flat.rows
    ensures ids == Listing(flat.rows, flat.keys).ordered
  {
    var v := new Visitor(flat.rows);
    for i := 0 to |flat.keys|
      invariant fresh(v) && v.flat == flat.rows && v.Valid([])
      invariant forall k :: 0 <= k < i ==> flat.keys[k] in v.seen
      invariant v.State() == Listing(flat.rows, flat.keys[..i])
    {
      ListingNext(flat.rows, flat.keys, i);
      v.ClearStack();
      v.Visit(flat.keys[i], []);
    }
    assert flat.keys[..|flat.keys|] == flat.keys;
    ids := v.ordered;
    forall id | id in flat.rows ensures id in ids {
      assert id in flat.keys;
    }
  }

  // ----- What a visit adds, and when -----

  /** What was finished is what is listed, each once. */
  ghost predicate Coherent(t: Trail) {
    Distinct(t.ordered) && forall x :: x in t.seen <==> x in t.ordered
  }

  /** `r` comes after `t`: nothing is taken back, and what was under way in `t` is not finished by it. */
  ghost predicate Later(t: Trail, r: Trail) {
    && Coherent(r) && t.seen <= r.seen && t.stack <= r.stack && t.ordered <= r.ordered
    && forall x :: x in t.stack && x in r.seen ==> x in t.seen
  }

  lemma {:induction false} ExploreIsLater(flat: map<string, Node>, nid: string, t: Trail)
    requires Coherent(t)
    ensures Later(t, Explore(flat, nid, t))
    ensures nid in flat ==> nid in Explore(flat, nid, t).seen || nid in t.stack
    decreases flat.Keys - t.stack, 0
  {
    if nid !in t.seen && nid !in t.stack && nid in flat {
      var entered := t.(stack := t.stack + {nid});
      ExploreAllIsLater(flat, flat[nid].deps, entered);
      var r := ExploreAll(flat, flat[nid].deps, entered);
      assert nid !in r.seen;
      assert nid !in r.ordered;
    }
  }

  lemma {:induction false} ExploreAllIsLater(flat: map<string, Node>, ids: seq<string>, t: Trail)
    requires Coherent(t)
    ensures Later(t, ExploreAll(flat, ids, t))
    decreases flat.Keys - t.stack, 1, |ids|
  {
    if ids != [] {
      ExploreAllIsLater(flat, ids[..|ids| - 1], t);
      ExploreIsLater(flat, ids[|ids| - 1], ExploreAll(flat, ids[..|ids| - 1], t));
    }
  }

  /** `x` is one of the ids or one of them leads to it. */
  ghost predicate DrawnBy(g: Edges, ids: seq<string>, x: string) {
    exists d :: d in ids && (x == d || Reaches(g, d, x))
  }

  /** The listing grew by what the ids draw in only. */
  ghost predicate Grows(g: Edges, before: seq<string>, after: seq<string>, ids: seq<string>) {
    before <= after && forall k :: |before| <= k < |after| ==> DrawnBy(g, ids, after[k])
  }

  lemma GrowsFurther(g: Edges, a: seq<string>, b: seq<string>, c: seq<string>, ids: seq<string>, d: string)
    requires Grows(g, a, b, ids) && Grows(g, b, c, [d])
    ensures Grows(g, a, c, ids + [d])
  {
    forall k | |a| <= k < |c| ensures DrawnBy(g, ids + [d], c[k]) {
      if k < |b| {
        assert c[k] == b[k] && DrawnBy(g, ids, b[k]);
        var x :| x in ids && (c[k] == x || Reaches(g, x, c[k]));
        assert x in ids + [d];
      } else {
        assert DrawnBy(g, [d], c[k]) && d in ids + [d];
      }
    }
  }

  lemma DependencyDraws(g: Edges, nid: string, x: string)
    requires nid in g && DrawnBy(g, g[nid], x)
    ensures Reaches(g, nid, x)
  {
    var d :| d in g[nid] && (x == d || Reaches(g, d, x));
    EdgeReaches(g, nid, d);
    if x != d {
      var p :| IsPathFrom(g, p, d, x);
      PathThrough(g, nid, d, p, x);
    }
  }

  lemma PathThrough(g: Edges, a: string, b: string, p: seq<string>, c: string)
    requires Edge(g, a, b) && IsPathFrom(g, p, b, c)
    ensures Reaches(g, a, c)
  {
    var q := [a] + p;
    forall i | 0 <= i < |q| - 1 ensures Edge(g, q[i], q[i + 1]) {
      assert i > 0 ==> Edge(g, p[i - 1], p[i]);
    }
    assert IsPathFrom(g, q, a, c);
  }

  /** A visit adds the node and what it leads to, nothing else. */
  lemma {:induction false} ExploreGrows(flat: map<string, Node>, nid: string, t: Trail)
    ensures Grows(NamedEdges(flat), t.ordered, Explore(flat, nid, t).ordered, [nid])
    decreases flat.Keys - t.stack, 0
  {
    if nid !in t.seen && nid !in t.stack && nid in flat {
      var g, deps, entered := NamedEdges(flat), flat[nid].deps, t.(stack := t.stack + {nid});
      ExploreAllGrows(flat, deps, entered);
      var r := ExploreAll(flat, deps, entered);
      forall k | |t.ordered| <= k < |r.ordered| ensures DrawnBy(g, [nid], r.ordered[k]) {
        DependencyDraws(g, nid, r.ordered[k]);
        assert nid in [nid];
      }
      assert nid in [nid] && DrawnBy(g, [nid], nid);
    }
  }

  lemma {:induction false} ExploreAllGrows(flat: map<string, Node>, ids: seq<string>, t: Trail)
    ensures Grows(NamedEdges(flat), t.ordered, ExploreAll(flat, ids, t).ordered, ids)
    decreases flat.Keys - t.stack, 1, |ids|
  {
    if ids != [] {
      var front, d := ids[..|ids| - 1], ids[|ids| - 1];
      var r := ExploreAll(flat, front, t);
      assert ids == front + [d];
      ExploreAllGrows(flat, front, t);
      ExploreGrows(flat, d, r);
      GrowsFurther(NamedEdges(flat), t.ordered, r.ordered, Explore(flat, d, r).ordered, front, d);
    }
  }

  /** Visiting what is finished, under way or unknown changes nothing. */
  lemma {:induction false} NothingToExplore(flat: map<string, Node>, ids: seq<string>, t: Trail)
    requires forall d :: d in ids ==> d in t.seen || d in t.stack || d !in flat
    ensures ExploreAll(flat, ids, t) == t
    decreases |ids|
  {
    if ids != [] {
      assert ids[|ids| - 1] in ids && forall d :: d in ids[..|ids| - 1] ==> d in ids;
      NothingToExplore(flat, ids[..|ids| - 1], t);
    }
  }

  // ----- The whole listing -----

  /** Nothing is listed before a key but what the keys up to it draw in. */
  ghost predicate OnDemand(g: Edges, keys: seq<string>, order: seq<string>, i: nat)
    requires i < |keys|
  {
    forall k, m :: 0 <= k <= m < |order| && order[m] == keys[i] ==> DrawnBy(g, keys[..i + 1], order[k])
  }

  lemma {:induction false} ListingGrows(flat: map<string, Node>, keys: seq<string>)
    ensures Coherent(Listing(flat, keys)) && Grows(NamedEdges(flat), [], Listing(flat, keys).ordered, keys)
    ensures forall k :: 0 <= k < |keys| && keys[k] in flat ==> keys[k] in Listing(flat, keys).ordered
  {
    if keys != [] {
      var front, d := keys[..|keys| - 1], keys[|keys| - 1];
      assert keys == front + [d];
      ListingGrows(flat, front);
      var t := Listing(flat, front).(stack := {});
      ExploreIsLater(flat, d, t);
      ExploreGrows(flat, d, t);
      GrowsFurther(NamedEdges(flat), [], t.ordered, Explore(flat, d, t).ordered, front, d);
    }
  }

  lemma {:induction false} ListingIsPrefix(flat: map<string, Node>, keys: seq<string>, i: nat)
    requires i <= |keys|
    ensures Listing(flat, keys[..i]).ordered <= Listing(flat, keys).ordered
    decreases |keys|
  {
    if i == |keys| {
      assert keys[..i] == keys;
    } else {
      var front := keys[..|keys| - 1];
      assert front[..i] == keys[..i];
      ListingIsPrefix(flat, front, i);
      ExploreGrows(flat, keys[|keys| - 1], Listing(flat, front).(stack := {}));
    }
  }

  /** The listing is on demand. */
  lemma {:induction false} ListingIsOnDemand(flat: map<string, Node>, keys: seq<string>, i: nat)
    requires i < |keys| && keys[i] in flat
    ensures OnDemand(NamedEdges(flat), keys, Listing(flat, keys).ordered, i)
  {
    var early, all := Listing(flat, keys[..i + 1]).ordered, Listing(flat, keys).ordered;
    ListingGrows(flat, keys[..i + 1]);
    ListingGrows(flat, keys);
    ListingIsPrefix(flat, keys, i + 1);
    assert keys[..i + 1][i] == keys[i];
    var j :| 0 <= j < |early| && early[j] == keys[i];
    assert all[j] == keys[i];
  }

  /** The keys come after their known dependencies, or name themselves. */
  predicate InOrder(flat: Flat) {
    forall i, d :: 0 <= i < |flat.keys| && flat.keys[i] in flat.rows && d in flat.rows[flat.keys[i]].deps && d in flat.rows
                   ==> d == flat.keys[i] || d in flat.keys[..i]
  }

  /** Each known dependency of the node is among `done`, or is the node itself. */
  predicate OnlyWaitsFor(flat: map<string, Node>, nid: string, done: seq<string>)
    requires nid in flat
  {
    forall d :: d in flat[nid].deps && d in flat ==> d in done || d == nid
  }

  /** Each id is new, and waits only for those before it. */
  predicate ReadyInTurn(flat: map<string, Node>, ids: seq<string>) {
    ids == [] ||
      var front, d := ids[..|ids| - 1], ids[|ids| - 1];
      ReadyInTurn(flat, front) && d in flat && d !in front && OnlyWaitsFor(flat, d, front)
  }

  lemma {:induction false} KeysAreReadyInTurn(flat: Flat, i: nat)
    requires flat.Valid() && InOrder(flat) && i <= |flat.keys|
    ensures ReadyInTurn(flat.rows, flat.keys[..i])
  {
    if i > 0 {
      KeysAreReadyInTurn(flat, i - 1);
      assert flat.keys[..i][..i - 1] == flat.keys[..i - 1];
      assert flat.keys[i - 1] in flat.keys;
    }
  }

  /** Such ids are listed as they are. */
  lemma {:induction false} ListingKeepsOrder(flat: map<string, Node>, ids: seq<string>)
    requires ReadyInTurn(flat, ids)
    ensures Listing(flat, ids).ordered == ids
  {
    if ids != [] {
      var front, d := ids[..|ids| - 1], ids[|ids| - 1];
      ListingKeepsOrder(flat, front);
      ReadyIsListedNext(flat, front, d);
      assert ids == front + [d];
    }
  }

  lemma ReadyIsListedNext(flat: map<string, Node>, front: seq<string>, nid: string)
    requires nid in flat && nid !in front && OnlyWaitsFor(flat, nid, front) && Listing(flat, front).ordered == front
    ensures Listing(flat, front + [nid]).ordered == front + [nid]
  {
    ListingGrows(flat, front);
    assert (front + [nid])[..|front|] == front;
    ReadyIsListed(flat, nid, Listing(flat, front).(stack := {}));
  }

  lemma ReadyIsListed(flat: map<string, Node>, nid: string, t: Trail)
    requires Coherent(t) && nid in flat && nid !in t.ordered && t.stack == {} && OnlyWaitsFor(flat, nid, t.ordered)
    ensures Explore(flat, nid, t).ordered == t.ordered + [nid]
  {
    NothingToExplore(flat, flat[nid].deps, t.(stack := t.stack + {nid}));
  }

  /** A non-folder node of the tree with the id `a` names `b` as a dependency. */
  predicate Names(tree: Node, a: string, b: string) {
    exists x :: x in Preorder(tree) && IsRow(x, a) && b in x.deps
  }

  /** `a` leads to `b` by the dependencies the nodes of the tree name. */
  ghost predicate Leads(tree: Node, a: string, b: string) {
    exists p: seq<string> :: |p| >= 2 && p[0] == a && p[|p| - 1] == b
                             && forall i :: 0 <= i < |p| - 1 ==> Names(tree, p[i], p[i + 1])
  }

  /** The nodes a listing is to hold: the last non-folder node of each id. */
  predicate IsListed(tree: Node, x: Node) {
    exists i :: 0 <= i < |Preorder(tree)| && Preorder(tree)[i] == x && LastRow(Preorder(tree), x.id) == i
  }

  lemma RowsAreListed(tree: Node, x: Node)
    ensures var rows := Collect(tree, Flat([], map[])).rows;
            x.id in rows && rows[x.id] == x <==> IsListed(tree, x)
  {
    CollectHoldsLast(tree, Flat([], map[]), x.id);
  }

  lemma EdgesAreNamed(tree: Node, a: string, b: string)
    requires Edge(NamedEdges(Collect(tree, Flat([], map[])).rows), a, b)
    ensures Names(tree, a, b)
  {
    CollectHoldsLast(tree, Flat([], map[]), a);
    var x := Preorder(tree)[LastRow(Preorder(tree), a)];
    assert x in Preorder(tree) && IsRow(x, a);
  }

  lemma ReachesLeads(tree: Node, a: string, b: string)
    requires Reaches(NamedEdges(Collect(tree, Flat([], map[])).rows), a, b)
    ensures Leads(tree, a, b)
  {
    var g := NamedEdges(Collect(tree, Flat([], map[])).rows);
    var p :| IsPathFrom(g, p, a, b);
    forall i | 0 <= i < |p| - 1 ensures Names(tree, p[i], p[i + 1]) {
      EdgesAreNamed(tree, p[i], p[i + 1]);
    }
  }

  /** A node that comes before one of its own dependencies in the listing is on a cycle with it. */
  ghost predicate EarlyMeansCyclic(tree: Node, ordered: seq<Node>) {
    forall i, j :: 0 <= i < j < |ordered| && ordered[j].id in ordered[i].deps ==>
      Leads(tree, ordered[j].id, ordered[i].id)
  }

  /** The document has each non-folder id once, after the dependencies it names. */
  predicate InDependencyOrder(doc: seq<Node>) {
    && Distinct(Ids(doc))
    && forall i, j :: 0 <= i < j < |doc| ==> doc[j].id !in doc[i].deps
  }

  lemma EarlyIsCyclic(tree: Node, ordered: seq<Node>, i: nat, j: nat)
    requires i < j < |ordered| && ordered[j].id in ordered[i].deps && Distinct(Ids(ordered))
    requires forall n :: n in ordered ==> IsListed(tree, n)
    requires Justified(NamedEdges(Collect(tree, Flat([], map[])).rows), Ids(ordered))
    ensures Leads(tree, ordered[j].id, ordered[i].id)
  {
    var g := NamedEdges(Collect(tree, Flat([], map[])).rows);
    assert ordered[i] in ordered && ordered[j] in ordered;
    RowsAreListed(tree, ordered[i]);
    RowsAreListed(tree, ordered[j]);
    assert Ids(ordered)[i] == ordered[i].id && Ids(ordered)[j] == ordered[j].id;
    OutOfOrderMeansCycle(g, Ids(ordered), i, j);
    ReachesLeads(tree, ordered[j].id, ordered[i].id);
  }

  lemma DocumentIsInOrder(tree: Node)
    requires InDependencyOrder(NonFolders(Preorder(tree)))
    ensures InOrder(Collect(tree, Flat([], map[])))
    ensures Collect(tree, Flat([], map[])).keys == Ids(NonFolders(Preorder(tree)))
  {
    var doc, flat := NonFolders(Preorder(tree)), Collect(tree, Flat([], map[]));
    assert [] + Ids(doc) == Ids(doc);
    CollectKeys(tree, Flat([], map[]));
    CollectKeepsValid(tree, Flat([], map[]));
    forall i | 0 <= i < |doc| ensures doc[i].id in flat.rows && flat.rows[doc[i].id] == doc[i] {
      RowOfKey(tree, i);
    }
    KeysAreInOrder(flat, doc);
  }

  lemma KeysAreInOrder(flat: Flat, doc: seq<Node>)
    requires flat.Valid() && flat.keys == Ids(doc) && InDependencyOrder(doc)
    requires forall i :: 0 <= i < |doc| ==> doc[i].id in flat.rows && flat.rows[doc[i].id] == doc[i]
    ensures InOrder(flat)
  {
    forall i, d | 0 <= i < |flat.keys| && flat.keys[i] in flat.rows && d in flat.rows[flat.keys[i]].deps && d in flat.rows
      ensures d == flat.keys[i] || d in flat.keys[..i] {
      EarlierOrSelf(doc, i, d);
    }
  }

  lemma EarlierOrSelf(doc: seq<Node>, i: nat, d: string)
    requires InDependencyOrder(doc) && i < |doc| && d in doc[i].deps && d in Ids(doc)
    ensures d == Ids(doc)[i] || d in Ids(doc)[..i]
  {
    var j :| 0 <= j < |doc| && Ids(doc)[j] == d;
    assert doc[j].id == d && j <= i;
    if j < i {
      assert Ids(doc)[..i][j] == d;
    }
  }

  lemma RowOfKey(tree: Node, i: nat)
    requires Distinct(Ids(NonFolders(Preorder(tree)))) && i < |NonFolders(Preorder(tree))|
    ensures var n, rows := NonFolders(Preorder(tree))[i], Collect(tree, Flat([], map[])).rows;
            n.id in rows && rows[n.id] == n
  {
    var doc := NonFolders(Preorder(tree));
    var n := doc[i];
    CollectHoldsLast(tree, Flat([], map[]), n.id);
    assert n in doc;
    var k :| 0 <= k < |Preorder(tree)| && Preorder(tree)[k] == n;
    var last := Preorder(tree)[LastRow(Preorder(tree), n.id)];
    assert last in doc;
    OnlyOneOfAnId(doc, i, last);
  }

  lemma OnlyOneOfAnId(doc: seq<Node>, i: nat, n: Node)
    requires Distinct(Ids(doc)) && i < |doc| && n in doc && n.id == doc[i].id
    ensures n == doc[i]
  {
    var j :| 0 <= j < |doc| && doc[j] == n;
    assert Ids(doc)[i] == Ids(doc)[j];
  }

  /** `atomic_nodes`: the last non-folder node of each id of the tree, each once, for any dependency
      graph; one that is listed before a dependency of its own lies on a cycle with it, by the
      dependencies the tree names; and a document in dependency order is listed as it is. */
  method ListAtomicNodes(tree: Node) returns (ordered: seq<Node>)
    ensures Distinct(Ids(ordered)) && forall n :: n in ordered <==> IsListed(tree, n)
    ensures EarlyMeansCyclic(tree, ordered)
    ensures var flat := Collect(tree, Flat([], map[]));
            && Ids(ordered) == Listing(flat.rows, flat.keys).ordered
            && forall i :: 0 <= i < |flat.keys| ==> OnDemand(NamedEdges(flat.rows), flat.keys, Ids(ordered), i)
    ensures InDependencyOrder(NonFolders(Preorder(tree))) ==> ordered == NonFolders(Preorder(tree))
  {
    var flat := Walk(tree, Flat([], map[]));
    CollectKeepsValid(tree, Flat([], map[]));
    var ids := VisitAll(flat);
    ordered := RowsOf(flat.rows, ids);
    ListedRows(flat, ids);
    ListsTheTree(tree, ordered);
    ListsInOrder(tree, flat, ordered);
  }

  lemma ListsTheTree(tree: Node, ordered: seq<Node>)
    requires var rows := Collect(tree, Flat([], map[])).rows;
             && (forall n :: n in ordered <==> n.id in rows && rows[n.id] == n)
             && Distinct(Ids(ordered)) && Justified(NamedEdges(rows), Ids(ordered))
    ensures forall n :: n in ordered <==> IsListed(tree, n)
    ensures EarlyMeansCyclic(tree, ordered)
  {
    forall n ensures n in ordered <==> IsListed(tree, n) {
      RowsAreListed(tree, n);
    }
    forall i, j | 0 <= i < j < |ordered| && ordered[j].id in ordered[i].deps
      ensures Leads(tree, ordered[j].id, ordered[i].id) {
      EarlyIsCyclic(tree, ordered, i, j);
    }
  }

  lemma ListsInOrder(tree: Node, flat: Flat, ordered: seq<Node>)
    requires flat == Collect(tree, Flat([], map[])) && flat.Valid()
    requires Ids(ordered) == Listing(flat.rows, flat.keys).ordered && forall n :: n in ordered ==> IsListed(tree, n)
    ensures forall i :: 0 <= i < |flat.keys| ==> OnDemand(NamedEdges(flat.rows), flat.keys, Ids(ordered), i)
    ensures InDependencyOrder(NonFolders(Preorder(tree))) ==> ordered == NonFolders(Preorder(tree))
  {
    forall i | 0 <= i < |flat.keys| ensures OnDemand(NamedEdges(flat.rows), flat.keys, Ids(ordered), i) {
      assert flat.keys[i] in flat.keys;
      ListingIsOnDemand(flat.rows, flat.keys, i);
    }
    if InDependencyOrder(NonFolders(Preorder(tree))) {
      DocumentIsInOrder(tree);
      assert flat.keys[..|flat.keys|] == flat.keys;
      KeysAreReadyInTurn(flat, |flat.keys|);
      ListingKeepsOrder(flat.rows, flat.keys);
      RowsAreDocument(tree, ordered);
    }
  }

  lemma RowsAreDocument(tree: Node, ordered: seq<Node>)
    requires Distinct(Ids(NonFolders(Preorder(tree)))) && Ids(ordered) == Ids(NonFolders(Preorder(tree)))
    requires forall n :: n in ordered ==> IsListed(tree, n)
    ensures ordered == NonFolders(Preorder(tree))
  {
    var doc := NonFolders(Preorder(tree));
    forall i | 0 <= i < |ordered| ensures ordered[i] == doc[i] {
      assert Ids(ordered)[i] == Ids(doc)[i] && ordered[i] in ordered;
      RowOfKey(tree, i);
      RowsAreListed(tree, ordered[i]);
    }
  }

  function RowsOf(rows: map<string, Node>, ids: seq<string>): (r: seq<Node>)
    requires forall id :: id in ids ==> id in rows
    ensures |r| == |ids| && forall i :: 0 <= i < |ids| ==> r[i] == rows[ids[i]]
  {
    seq(|ids|, i requires 0 <= i < |ids| => rows[ids[i]])
  }

  lemma ListedRows(flat: Flat, ids: seq<string>)
    requires flat.Valid() && forall id :: id in ids <==> id in flat.rows
    ensures Ids(RowsOf(flat.rows, ids)) == ids
    ensures forall n :: n in RowsOf(flat.rows, ids) <==> n.id in flat.rows && flat.rows[n.id] == n
  {
    forall n: Node | n.id in flat.rows && flat.rows[n.id] == n ensures n in RowsOf(flat.rows, ids) {
      var i :| 0 <= i < |ids| && ids[i] == n.id;
      assert RowsOf(flat.rows, ids)[i] == n;
    }
  }

  /** With each id once, the listing holds exactly the non-folder nodes of the tree. */
  lemma {:induction false} DistinctIdsAreAllListed(tree: Node, x: Node)
    requires Distinct(Ids(NonFolders(Preorder(tree))))
    ensures IsListed(tree, x) <==> x in AllNodes(tree) && x.kind != "FOLDER"
  {
    PreorderIsAllNodes(tree);
    assert x in Preorder(tree) <==> x in AllNodes(tree) by {
      assert x in Preorder(tree) <==> x in multiset(Preorder(tree));
      assert x in AllNodes(tree) <==> x in multiset(AllNodes(tree));
    }
    RowsAreListed(tree, x);
    if x in Preorder(tree) && x.kind != "FOLDER" {
      var doc := NonFolders(Preorder(tree));
      var i :| 0 <= i < |doc| && doc[i] == x;
      RowOfKey(tree, i);
    }
  }

  /** Listed before a known dependency means on a cycle with it. */
  lemma {:induction false} OutOfOrderMeansCycle(g: Edges, order: seq<string>, i: nat, j: nat)
    requires Justified(g, order) && Distinct(order)
    requires i < j < |order| && Edge(g, order[i], order[j]) && order[j] in g
    ensures Reaches(g, order[j], order[i]) && Reaches(g, order[i], order[i])
  {
    assert PlacedOrCyclic(g, order, i, order[j]);
    assert order[j] !in order[..i];
    var p :| IsPathFrom(g, p, order[j], order[i]);
    var q := [order[i]] + p;
    forall k | 0 <= k < |q| - 1 ensures Edge(g, q[k], q[k + 1]) {
      assert k > 0 ==> Edge(g, p[k - 1], p[k]);
    }
    assert IsPathFrom(g, q, order[i], order[i]);
  }

  /** On an acyclic graph the listing puts every dependency first. */
  lemma {:induction false} AcyclicListingIsInOrder(g: Edges, order: seq<string>, i: nat, b: string)
    requires Justified(g, order) && Distinct(order) && forall x :: x in order <==> x in g
    requires forall x :: !Reaches(g, x, x)
    requires i < |order| && Edge(g, order[i], b) && b in g
    ensures b in order[..i]
  {
    assert b in order;
    var j :| 0 <= j < |order| && order[j] == b;
    if i < j {
      OutOfOrderMeansCycle(g, order, i, j);
    } else if i == j {
      EdgeReaches(g, b, b);
    }
    assert order[..i][j] == b;
  }
}
