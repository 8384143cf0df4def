/** What each operation of the traceability store leaves in its tables, row by row. */
module TraceabilityEffects {
  import opened Traceability
  import opened Wrappers

  // ----- Text and lists -----

  predicate IsBlank(s: string) {
    forall i :: 0 <= i < |s| ==> IsSpace(s[i])
  }

  lemma {:induction false} StripLeftOf(a: string, s: string)
    requires IsBlank(a) && (s == "" || !IsSpace(s[0]))
    ensures StripLeft(a + s) == s
  {
    if a == "" {
      assert a + s == s;
    } else {
      assert (a + s)[1..] == a[1..] + s;
      StripLeftOf(a[1..], s);
    }
  }

  lemma {:induction false} StripRightOf(s: string, b: string)
    requires IsBlank(b) && (s == "" || !IsSpace(s[|s| - 1]))
    ensures StripRight(s + b) == s
  {
    if b == "" {
      assert s + b == s;
    } else {
      assert (s + b)[..|s + b| - 1] == s + b[..|b| - 1];
      StripRightOf(s, b[..|b| - 1]);
    }
  }

  /** Stripping takes off the outer blanks and nothing else. */
  lemma {:induction false} StripOf(a: string, s: string, b: string)
    requires IsBlank(a) && IsBlank(b) && Clean(s)
    ensures Strip(a + s + b) == s
  {
    if s == "" {
      assert a + s + b == (a + b) + "";
      StripLeftOf(a + b, "");
    } else {
      assert a + s + b == a + (s + b);
      StripLeftOf(a, s + b);
      StripRightOf(s, b);
    }
  }

  lemma {:induction false} DropConcat(a: seq<Scenario>, b: seq<Scenario>, id: string)
    ensures Drop(a + b, id) == Drop(a, id) + Drop(b, id)
  {
    if b == [] {
      assert a + b == a;
    } else {
      var front, x := b[..|b| - 1], b[|b| - 1];
      assert (a + b)[..|a + b| - 1] == a + front && (a + b)[|a + b| - 1] == x;
      DropConcat(a, front, id);
      var last := if IdOf(x) == id then [] else [x];
      assert Drop(a + b, id) == (Drop(a, id) + Drop(front, id)) + last;
      assert Drop(b, id) == Drop(front, id) + last;
    }
  }

  /** Dropping scenarios takes out those with the id, and leaves the others in order. */
  lemma {:induction false} DropOf(a: seq<Scenario>, x: Scenario, b: seq<Scenario>, id: string)
    ensures Drop(a + [x] + b, id) == Drop(a, id) + (if Strip(x.rawId) == id then [] else [x]) + Drop(b, id)
  {
    DropConcat(a + [x], b, id);
    DropConcat(a, [x], id);
    assert [x][..0] == [] && Drop([], id) == [];
    assert Drop([x], id) == if IdOf(x) == id then [] else [x];
  }

  /** The row of a scenario id is that of the last embedded scenario with it: its requirement, its
      steps, and its name or else the id. */
  lemma {:induction false} RowOfScenario(r: string, xs: seq<Scenario>, j: nat)
    requires j < |xs| && Strip(xs[j].rawId) != ""
    requires forall i :: j < i < |xs| ==> Strip(xs[i].rawId) != Strip(xs[j].rawId)
    ensures var k, rows, name := Strip(xs[j].rawId), RowsOf(r, xs), Strip(xs[j].name);
            k in rows && rows[k] == ScenarioRow(r, if name != "" then name else k, xs[j].steps)
  {
    if j < |xs| - 1 {
      RowOfScenario(r, xs[..|xs| - 1], j);
    }
  }

  lemma {:induction false} RowsOfDropped(r: string, xs: seq<Scenario>, id: string, j: string)
    requires j != id
    ensures SameAt(RowsOf(r, Drop(xs, id)), RowsOf(r, xs), j)
  {
    if xs != [] {
      var front, x := xs[..|xs| - 1], xs[|xs| - 1];
      RowsOfDropped(r, front, id, j);
      var kept := Drop(front, id);
      if IdOf(x) != id {
        assert (kept + [x])[..|kept|] == kept;
      } else {
        assert Drop(xs, id) == kept;
      }
    }
  }

  lemma RowsOfOneMore(r: string, xs: seq<Scenario>, x: Scenario, j: string)
    ensures SameAt(RowsOf(r, xs + [x]), if IdOf(x) == "" then RowsOf(r, xs) else RowsOf(r, xs)[IdOf(x) := RowOf(r, x)], j)
  {
    assert (xs + [x])[..|xs|] == xs;
  }

  // ----- Requirements -----

  /** Writing a requirement: its row is replaced, its scenarios have rows that name it, rows that named
      it and are no longer embedded go, and nothing else changes. */
  lemma {:induction false} RequirementIsWritten(t: Tables, q: string, xs: seq<Scenario>, info: string, r: string, k: string)
    requires Strip(q) != ""
    ensures var t', own := Apply(t, UpsertRequirement(q, xs, info)), Strip(q);
            && own in t'.reqs && t'.reqs[own] == Requirement(xs, info)
            && (r != own ==> SameAt(t'.reqs, t.reqs, r))
            && (k in Ids(xs) ==> k in t'.scens && k in RowsOf(own, xs) && t'.scens[k] == RowsOf(own, xs)[k])
            && (k !in Ids(xs) ==>
                  if k in t.scens && t.scens[k].reqId == own then k !in t'.scens else SameAt(t'.scens, t.scens, k))
            && t'.tests == t.tests
  {
    RowsOfKeys(Strip(q), xs);
  }

  /** A requirement without an id, or a scenario without one or without a requirement, is refused and
      nothing changes. */
  lemma {:induction false} BlankIdsAreRefused(t: Tables, s: string, q: string, xs: seq<Scenario>, text: string)
    ensures Strip(q) == "" ==> Apply(t, UpsertRequirement(q, xs, text)) == t
    ensures Strip(q) == "" || Strip(s) == "" ==> forall steps :: Apply(t, UpsertScenario(s, q, text, steps)) == t
  {
  }

  /** Deleting a requirement: its row, the scenario rows and the test rows that name it go, and nothing
      else changes. */
  lemma {:induction false} RequirementIsDeleted(t: Tables, q: string, r: string, k: string, x: string)
    ensures var t', own := Apply(t, DeleteRequirement(q)), Strip(q);
            && own !in t'.reqs && (r != own ==> SameAt(t'.reqs, t.reqs, r))
            && (if k in t.scens && t.scens[k].reqId == own then k !in t'.scens else SameAt(t'.scens, t.scens, k))
            && (if x in t.tests && t.tests[x] == own then x !in t'.tests else SameAt(t'.tests, t.tests, x))
  {
  }

  lemma {:induction false} VisitsOfConcat(a: seq<TreeNode>, b: seq<TreeNode>)
    ensures VisitsOf(a + b) == VisitsOf(a) + VisitsOf(b)
  {
    if b == [] {
      assert a + b == a;
    } else {
      assert (a + b)[..|a + b| - 1] == a + b[..|b| - 1];
      VisitsOfConcat(a, b[..|b| - 1]);
    }
  }

  lemma VisitsOfOne(n: TreeNode)
    ensures VisitsOf([n]) == Visits(n)
  {
    assert [n][..0] == [] && VisitsOf([]) == [];
  }

  /** The walk meets a requirement before what is below it and each child after those before it; a node
      without an id hides what is below it. */
  lemma {:induction false} VisitsMeaning(rawId: string, xs: seq<Scenario>, info: string, a: seq<TreeNode>, n: TreeNode)
    ensures Strip(rawId) == "" ==> Visits(TreeNode(rawId, xs, info, a + [n])) == []
    ensures Strip(rawId) != "" ==>
              && Visits(TreeNode(rawId, xs, info, [])) == [Visit(Strip(rawId), xs, info)]
              && Visits(TreeNode(rawId, xs, info, a + [n])) == Visits(TreeNode(rawId, xs, info, a)) + Visits(n)
  {
    VisitsOfConcat(a, [n]);
    VisitsOfOne(n);
  }

  /** Storing a tree: each requirement the walk met has the scenarios and fields of its last visit, each
      scenario id the row of its last occurrence, and no other row is left. */
  lemma {:induction false} TreeIsStored(t: Tables, tree: TreeNode, r: string, k: string)
    ensures var t', vs := Apply(t, StoreRequirementTree(tree)), Visits(tree);
            var i, j := LastOf(vs, r), LastWith(vs, k);
            && (r in t'.reqs <==> i >= 0) && (i >= 0 ==> t'.reqs[r] == Requirement(vs[i].scenarios, vs[i].info))
            && (k in t'.scens <==> j >= 0)
            && (j >= 0 ==> k in RowsOf(vs[j].r, vs[j].scenarios) && t'.scens[k] == RowsOf(vs[j].r, vs[j].scenarios)[k])
            && t'.tests == t.tests
  {
    ReqsFromLookup(Visits(tree), r);
    ScensFromLookup(Visits(tree), k);
  }

  // ----- Scenarios -----

  /** Rebuilding the rows of a stored requirement from a list that differs from its own in one id only
      changes that row only. */
  lemma RebuiltRow(t: Tables, r: string, xs: seq<Scenario>, k: string, j: string)
    requires r in t.reqs && AgreeOn(t, r) && j != k && SameAt(RowsOf(r, xs), RowsOf(r, t.reqs[r].scenarios), j)
    requires j in RowsOf(r, xs) ==> j in t.scens && t.scens[j].reqId == r
    ensures SameAt(NotNaming(t.scens, r) + RowsOf(r, xs), t.scens, j)
  {
    assert j in Naming(t.scens, r) <==> j in RowsOf(r, t.reqs[r].scenarios);
    assert j in Naming(t.scens, r) ==> Naming(t.scens, r)[j] == RowsOf(r, t.reqs[r].scenarios)[j];
  }

  lemma EmbeddedRow(t: Tables, r: string, j: string)
    requires r in t.reqs && AgreeOn(t, r) && j in RowsOf(r, t.reqs[r].scenarios)
    ensures j in t.scens && t.scens[j].reqId == r
  {
    assert j in Naming(t.scens, r);
  }

  /** Writing a scenario: its row names its requirement, which embeds it last and once if it is stored;
      no other row changes. */
  lemma {:induction false} ScenarioIsWritten(
    t: Tables, s: string, q: string, name: string, steps: seq<string>, r: string, j: string)
    requires Agree(t) && Strip(s) != "" && Strip(q) != ""
    ensures var t', k, own := Apply(t, UpsertScenario(s, q, name, steps)), Strip(s), Strip(q);
            && k in t'.scens && t'.scens[k].reqId == own && t'.scens[k].steps == steps
            && t'.scens[k].name == (if Strip(name) != "" || own !in t.reqs then Strip(name) else k)
            && (own in t.reqs ==>
                  && own in t'.reqs
                  && t'.reqs[own] == Requirement(Drop(t.reqs[own].scenarios, k) + [Scenario(k, Strip(name), steps)],
                                                 t.reqs[own].info))
            && (r != own || own !in t.reqs ==> SameAt(t'.reqs, t.reqs, r))
            && (j != k ==> SameAt(t'.scens, t.scens, j))
            && t'.tests == t.tests
  {
    var k, own := Strip(s), Strip(q);
    StripIsClean(s);
    StripIsClean(name);
    if own in t.reqs {
      var kept, x := Drop(t.reqs[own].scenarios, k), Scenario(k, Strip(name), steps);
      RowsOfOneMore(own, kept, x, k);
      if j != k {
        OtherRowStays(t, own, kept, x, k, j);
      }
    }
  }

  lemma OtherRowStays(t: Tables, own: string, kept: seq<Scenario>, x: Scenario, k: string, j: string)
    requires own in t.reqs && AgreeOn(t, own) && kept == Drop(t.reqs[own].scenarios, k) && IdOf(x) == k != "" && j != k
    ensures var scens := t.scens[k := ScenarioRow(own, x.name, x.steps)];
            SameAt(NotNaming(scens, own) + RowsOf(own, kept + [x]), t.scens, j)
  {
    RowsOfOneMore(own, kept, x, j);
    RowsOfDropped(own, t.reqs[own].scenarios, k, j);
    if j in RowsOf(own, t.reqs[own].scenarios) {
      EmbeddedRow(t, own, j);
    }
    RebuiltRow(t, own, kept + [x], k, j);
  }

  /** Deleting a scenario: the requirement that owned it, if stored, no longer embeds it under the id as
      the caller wrote it; no other requirement and no other row changes. */
  lemma {:induction false} ScenarioIsDeleted(t: Tables, s: string, r: string, j: string)
    requires Agree(t) && Normal(t)
    ensures var t', k := Apply(t, DeleteScenario(s)), Strip(s);
            var owned := k in t.scens && t.scens[k].reqId in t.reqs;
            && (owned ==>
                  var own := t.scens[k].reqId;
                  own in t'.reqs && t'.reqs[own] == Requirement(Drop(t.reqs[own].scenarios, s), t.reqs[own].info))
            && ((owned ==> r != t.scens[k].reqId) ==> SameAt(t'.reqs, t.reqs, r))
            && (j != k ==> SameAt(t'.scens, t.scens, j))
            && t'.tests == t.tests
  {
    var k := Strip(s);
    StripIsClean(s);
    if k in t.scens && t.scens[k].reqId in t.reqs && j != k {
      UnownedRowStays(t, t.scens[k].reqId, s, j);
    }
  }

  lemma UnownedRowStays(t: Tables, own: string, s: string, j: string)
    requires own in t.reqs && AgreeOn(t, own) && j != Strip(s)
    ensures var xs := Drop(t.reqs[own].scenarios, s);
            SameAt(NotNaming(t.scens - {Strip(s)}, own) + RowsOf(own, xs), t.scens, j)
  {
    var xs := Drop(t.reqs[own].scenarios, s);
    RowsOfDeleted(own, t.reqs[own].scenarios, s, j);
    if j in RowsOf(own, t.reqs[own].scenarios) {
      EmbeddedRow(t, own, j);
    }
    RebuiltRow(t, own, xs, Strip(s), j);
    OtherKeys(t.scens, own, RowsOf(own, xs), Strip(s), j);
  }

  lemma OtherKeys(scens: map<string, ScenarioRow>, own: string, rows: map<string, ScenarioRow>, k: string, j: string)
    requires j != k
    ensures SameAt(NotNaming(scens - {k}, own) + rows, NotNaming(scens, own) + rows, j)
  {
  }

  lemma RowsOfDeleted(own: string, xs: seq<Scenario>, s: string, j: string)
    requires j != Strip(s)
    ensures SameAt(RowsOf(own, Drop(xs, s)), RowsOf(own, xs), j)
  {
    if j != s {
      RowsOfDropped(own, xs, s, j);
    } else {
      NoPaddedRow(own, xs, s);
      NoPaddedRow(own, Drop(xs, s), s);
    }
  }

  /** No row is filed under an id with blanks around it. */
  lemma NoPaddedRow(r: string, xs: seq<Scenario>, s: string)
    requires s != Strip(s)
    ensures s !in RowsOf(r, xs)
  {
    if s in RowsOf(r, xs) {
      RowsAreNormal(r, xs, s);
    }
  }

  // ----- Tests -----

  /** A test row is written under its stripped id, or nothing changes. */
  lemma {:induction false} TestIsWritten(t: Tables, x: string, q: string, y: string)
    ensures var t', id, own := Apply(t, UpsertTest(x, q)), Strip(x), Strip(q);
            && t'.reqs == t.reqs && t'.scens == t.scens
            && (id != "" && own != "" && (id in t.tests ==> t.tests[id] == own) ==> id in t'.tests && t'.tests[id] == own)
            && (id == "" || own == "" || (id in t.tests && t.tests[id] != own) || y != id ==> SameAt(t'.tests, t.tests, y))
  {
  }

  /** Deleting one test, or the tests of a requirement, takes out those rows and nothing else. */
  lemma {:induction false} TestsAreDeleted(t: Tables, x: string, q: string, y: string)
    ensures var t' := Apply(t, DeleteTest(x));
            && t'.reqs == t.reqs && t'.scens == t.scens
            && (if y == Strip(x) then y !in t'.tests else SameAt(t'.tests, t.tests, y))
    ensures var t' := Apply(t, ClearDesignArtifacts(q));
            && t'.reqs == t.reqs && t'.scens == t.scens
            && (if y in t.tests && t.tests[y] == q then y !in t'.tests else SameAt(t'.tests, t.tests, y))
  {
  }
}
