/** Dependency graphs over requirement ids: paths, cycles and reachability. */
module Graph {

  /** The ids each id depends on. */
  type Edges = map<string, seq<string>>

  predicate Edge(g: Edges, a: string, b: string) {
    a in g && b in g[a]
  }

  predicate IsPath(g: Edges, p: seq<string>) {
    p != [] && forall i :: 0 <= i < |p| - 1 ==> Edge(g, p[i], p[i + 1])
  }

  /** A path of one or more steps from `a` to `b`. */
  predicate IsPathFrom(g: Edges, p: seq<string>, a: string, b: string) {
    |p| >= 2 && IsPath(g, p) && p[0] == a && p[|p| - 1] == b
  }

  ghost predicate Reaches(g: Edges, a: string, b: string) {
    exists p :: IsPathFrom(g, p, a, b)
  }

  /** A closed walk of one or more steps that stays inside `within`. */
  predicate IsCycle(g: Edges, p: seq<string>, within: set<string>) {
    |p| >= 2 && IsPath(g, p) && p[0] == p[|p| - 1] && forall i :: 0 <= i < |p| ==> p[i] in within
  }

  ghost predicate HasCycle(g: Edges, within: set<string>) {
    exists p :: IsCycle(g, p, within)
  }

  lemma EdgeReaches(g: Edges, a: string, b: string)
    requires Edge(g, a, b)
    ensures Reaches(g, a, b)
  {
    assert IsPathFrom(g, [a, b], a, b);
  }

  lemma ReachesFurther(g: Edges, a: string, b: string, c: string)
    requires Reaches(g, a, b) && Edge(g, b, c)
    ensures Reaches(g, a, c)
  {
    var p :| IsPathFrom(g, p, a, b);
    assert IsPathFrom(g, p + [c], a, c);
  }

  // ----- Pigeonhole -----

  lemma {:induction false} DistinctFits(p: seq<string>, s: set<string>)
    requires forall i :: 0 <= i < |p| ==> p[i] in s
    requires forall i, j :: 0 <= i < j < |p| ==> p[i] != p[j]
    ensures |p| <= |s|
  {
    if p != [] {
      var x := p[|p| - 1];
      DistinctFits(p[..|p| - 1], s - {x});
    }
  }

  lemma Repeats(p: seq<string>, s: set<string>) returns (i: nat, j: nat)
    requires forall k :: 0 <= k < |p| ==> p[k] in s
    requires |p| > |s|
    ensures i < j < |p| && p[i] == p[j]
  {
    if forall i, j :: 0 <= i < j < |p| ==> p[i] != p[j] {
      DistinctFits(p, s);
    }
    i, j :| 0 <= i < j < |p| && p[i] == p[j];
  }

  predicate StaysIn(g: Edges, s: set<string>, a: string) {
    exists b :: b in s && Edge(g, a, b)
  }

  /** Every member has an edge back into the set. */
  predicate NoWayOut(g: Edges, s: set<string>) {
    forall a {:trigger StaysIn(g, s, a)} :: a in s ==> StaysIn(g, s, a)
  }

  lemma {:induction false} LongWalk(g: Edges, s: set<string>, a: string, n: nat) returns (p: seq<string>)
    requires a in s && NoWayOut(g, s)
    ensures |p| == n + 1 && IsPath(g, p) && p[0] == a && forall i :: 0 <= i < |p| ==> p[i] in s
  {
    if n == 0 {
      p := [a];
    } else {
      var q := LongWalk(g, s, a, n - 1);
      assert StaysIn(g, s, q[|q| - 1]);
      var b :| b in s && Edge(g, q[|q| - 1], b);
      p := q + [b];
    }
  }

  /** A finite set in which every member depends on a member holds a cycle. */
  lemma {:induction false} NoWayOutIsCyclic(g: Edges, s: set<string>)
    requires s != {} && NoWayOut(g, s)
    ensures HasCycle(g, s)
  {
    var a :| a in s;
    var p := LongWalk(g, s, a, |s|);
    var i, j := Repeats(p, s);
    var c := p[i..j + 1];
    forall k | 0 <= k < |c| - 1 ensures Edge(g, c[k], c[k + 1]) {
      assert Edge(g, p[i + k], p[i + k + 1]);
    }
    assert IsCycle(g, c, s);
  }
}
