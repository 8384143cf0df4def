/** The operations of the traceability store, on its tables. */
module TraceabilityStore {
  import opened Traceability

  /** A table with the row of one scenario written into it. */
  function WithRow(rows: map<string, ScenarioRow>, r: string, x: Scenario): map<string, ScenarioRow> {
    if IdOf(x) == "" then rows else rows[IdOf(x) := RowOf(r, x)]
  }

  lemma WithRowMerges(rows: map<string, ScenarioRow>, more: map<string, ScenarioRow>, r: string, x: Scenario)
    ensures WithRow(rows + more, r, x) == rows + WithRow(more, r, x)
  {
  }

  lemma RowsOfOneMore(r: string, xs: seq<Scenario>, n: nat)
    requires n < |xs|
    ensures RowsOf(r, xs[..n + 1]) == WithRow(RowsOf(r, xs[..n]), r, xs[n])
  {
    assert xs[..n + 1][..n] == xs[..n];
  }

  lemma MergeOneMore(rows: map<string, ScenarioRow>, r: string, xs: seq<Scenario>, n: nat)
    requires n < |xs|
    ensures rows + RowsOf(r, xs[..n + 1]) == WithRow(rows + RowsOf(r, xs[..n]), r, xs[n])
  {
    RowsOfOneMore(r, xs, n);
    WithRowMerges(rows, RowsOf(r, xs[..n]), r, xs[n]);
  }

  lemma VisitsOfOneMore(done: seq<Visit>, children: seq<TreeNode>, i: nat)
    requires i < |children|
    ensures done + VisitsOf(children[..i + 1]) == (done + VisitsOf(children[..i])) + Visits(children[i])
  {
    assert children[..i + 1][..i] == children[..i];
  }

  lemma VisitsOneMore(done: seq<Visit>, v: Visit)
    ensures ReqsFrom(map[], done + [v]) == ReqsFrom(map[], done)[v.r := Requirement(v.scenarios, v.info)]
    ensures ScensFrom(map[], done + [v]) == ScensFrom(map[], done) + RowsOf(v.r, v.scenarios)
  {
  }

  class Store {
    var reqs: map<string, Requirement>
    var scens: map<string, ScenarioRow>
    var tests: map<string, string>

    function Contents(): Tables
      reads this
    {
      Tables(reqs, scens, tests)
    }

    constructor ()
      ensures Contents() == EMPTY
    {
      reqs, scens, tests := map[], map[], map[];
    }

    /** Drops the scenario rows that name a requirement. */
    method DropNaming(r: string)
      modifies this`scens
      ensures scens == NotNaming(old(scens), r)
    {
      var items := scens;
      var todo := items.Keys;
      while todo != {}
        invariant todo <= items.Keys
        invariant scens == items - (set k | k in items && k !in todo && items[k].reqId == r)
        decreases |todo|
      {
        var k :| k in todo;
        if items[k].reqId == r {
          scens := scens - {k};
        }
        todo := todo - {k};
      }
    }

    /** Writes the scenario rows of embedded scenarios. */
    method WriteRows(r: string, xs: seq<Scenario>)
      modifies this`scens
      ensures scens == old(scens) + RowsOf(r, xs)
    {
      for i := 0 to |xs|
        invariant scens == old(scens) + RowsOf(r, xs[..i])
      {
        MergeOneMore(old(scens), r, xs, i);
        var id := IdOf(xs[i]);
        if id != "" {
          scens := scens[id := RowOf(r, xs[i])];
        }
      }
      assert xs[..|xs|] == xs;
    }

    /** `upsert_requirement`. */
    method UpsertRequirement(reqId: string, xs: seq<Scenario>, info: string) returns (ok: bool)
      modifies this
      ensures ok == !Rejected(old(Contents()), Op.UpsertRequirement(reqId, xs, info))
      ensures Contents() == Apply(old(Contents()), Op.UpsertRequirement(reqId, xs, info))
    {
      var r := Strip(reqId);
      if r == "" {
        return false;
      }
      reqs := reqs[r := Requirement(xs, info)];
      DropNaming(r);
      WriteRows(r, xs);
      ok := true;
    }

    /** `upsert_scenario`. */
    method UpsertScenario(scenarioId: string, reqId: string, name: string, steps: seq<string>) returns (ok: bool)
      modifies this
      ensures ok == !Rejected(old(Contents()), Op.UpsertScenario(scenarioId, reqId, name, steps))
      ensures Contents() == Apply(old(Contents()), Op.UpsertScenario(scenarioId, reqId, name, steps))
    {
      var k, r := Strip(scenarioId), Strip(reqId);
      if k == "" || r == "" {
        return false;
      }
      scens := scens[k := ScenarioRow(r, Strip(name), steps)];
      if r in reqs {
        StripIsClean(reqId);
        var xs := Drop(reqs[r].scenarios, k) + [Scenario(k, Strip(name), steps)];
        var _ := UpsertRequirement(r, xs, reqs[r].info);
      }
      ok := true;
    }

    /** `delete_scenario`. No requirement is ever stored under an empty id. */
    method DeleteScenario(scenarioId: string)
      requires "" !in reqs
      modifies this
      ensures Contents() == Apply(old(Contents()), Op.DeleteScenario(scenarioId))
    {
      var k := Strip(scenarioId);
      var before := scens;
      scens := scens - {k};
      if k in before {
        var r := Strip(before[k].reqId);
        if r in reqs {
          StripIsClean(before[k].reqId);
          var _ := UpsertRequirement(r, Drop(reqs[r].scenarios, scenarioId), reqs[r].info);
        }
      }
    }

    /** `delete_requirement`. */
    method DeleteRequirement(reqId: string)
      modifies this
      ensures Contents() == Apply(old(Contents()), Op.DeleteRequirement(reqId))
    {
      var r := Strip(reqId);
      reqs := reqs - {r};
      scens := map k | k in scens && scens[k].reqId != r :: scens[k];
      tests := map k | k in tests && tests[k] != r :: tests[k];
    }

    /** `upsert_test`: a test id may not move to another requirement. */
    method UpsertTest(testId: string, reqId: string) returns (ok: bool)
      modifies this
      ensures ok == !Rejected(old(Contents()), Op.UpsertTest(testId, reqId))
      ensures Contents() == Apply(old(Contents()), Op.UpsertTest(testId, reqId))
    {
      var x, r := Strip(testId), Strip(reqId);
      if x == "" || r == "" || (x in tests && tests[x] != r) {
        return false;
      }
      tests := tests[x := r];
      ok := true;
    }

    /** `delete_test`. */
    method DeleteTest(testId: string)
      modifies this
      ensures Contents() == Apply(old(Contents()), Op.DeleteTest(testId))
    {
      tests := tests - {Strip(testId)};
    }

    /** `clear_node_design_artifacts`, as far as it touches the tests; the id is not stripped. */
    method ClearDesignArtifacts(reqId: string)
      modifies this
      ensures Contents() == Apply(old(Contents()), Op.ClearDesignArtifacts(reqId))
    {
      tests := map k | k in tests && tests[k] != reqId :: tests[k];
    }

    /** `store_requirement_tree`. */
    method StoreRequirementTree(tree: TreeNode)
      modifies this
      ensures Contents() == Apply(old(Contents()), Op.StoreRequirementTree(tree))
    {
      reqs, scens := map[], map[];
      Walk(tree, []);
      assert [] + Visits(tree) == Visits(tree);
    }

    /** `walk`, after the visits `done`. */
    method Walk(node: TreeNode, ghost done: seq<Visit>)
      requires reqs == ReqsFrom(map[], done) && scens == ScensFrom(map[], done)
      modifies this`reqs, this`scens
      ensures reqs == ReqsFrom(map[], done + Visits(node)) && scens == ScensFrom(map[], done + Visits(node))
      decreases node
    {
      var r := Strip(node.rawId);
      if r == "" {
        assert done + Visits(node) == done;
        return;
      }
      ghost var v := Visit(r, node.scenarios, node.info);
      VisitsOneMore(done, v);
      reqs := reqs[r := Requirement(node.scenarios, node.info)];
      WriteRows(r, node.scenarios);
      WalkChildren(node.children, done + [v]);
      assert done + [v] + VisitsOf(node.children) == done + Visits(node);
    }

    /** Its loop over the children. */
    method WalkChildren(children: seq<TreeNode>, ghost done: seq<Visit>)
      requires reqs == ReqsFrom(map[], done) && scens == ScensFrom(map[], done)
      modifies this`reqs, this`scens
      ensures reqs == ReqsFrom(map[], done + VisitsOf(children)) && scens == ScensFrom(map[], done + VisitsOf(children))
      decreases children
    {
      ghost var met := done;
      assert done + VisitsOf([]) == done;
      for i := 0 to |children|
        invariant met == done + VisitsOf(children[..i])
        invariant reqs == ReqsFrom(map[], met) && scens == ScensFrom(map[], met)
      {
        VisitsOfOneMore(done, children, i);
        Walk(children[i], met);
        met := met + Visits(children[i]);
      }
      assert children[..|children|] == children;
    }
  }
}
