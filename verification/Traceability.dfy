/**
  The traceability store: a requirements table whose rows embed their scenarios, and a
  scenarios table with one row per scenario. The two must tell the same story.
*/
module Traceability {

  // ----- Values -----

  predicate IsSpace(c: char) {
    || '\t' <= c <= '\r' || '\U{1C}' <= c <= ' ' || c == '\U{85}' || c == '\U{A0}' || c == '\U{1680}'
    || '\U{2000}' <= c <= '\U{200A}' || c == '\U{2028}' || c == '\U{2029}' || c == '\U{202F}'
    || c == '\U{205F}' || c == '\U{3000}'
  }

  function StripLeft(s: string): string {
    if s != "" && IsSpace(s[0]) then StripLeft(s[1..]) else s
  }

  function StripRight(s: string): string {
    if s != "" && IsSpace(s[|s| - 1]) then StripRight(s[..|s| - 1]) else s
  }

  /** `str.strip()`. */
  function Strip(s: string): string {
    StripRight(StripLeft(s))
  }

  predicate Clean(s: string) {
    s == "" || (!IsSpace(s[0]) && !IsSpace(s[|s| - 1]))
  }

  lemma {:induction false} StripLeftEnds(s: string)
    ensures StripLeft(s) == "" || !IsSpace(StripLeft(s)[0])
  {
    if s != "" && IsSpace(s[0]) {
      StripLeftEnds(s[1..]);
    }
  }

  lemma {:induction false} StripRightEnds(s: string)
    requires s == "" || !IsSpace(s[0])
    ensures Clean(StripRight(s))
  {
    if s != "" && IsSpace(s[|s| - 1]) {
      StripRightEnds(s[..|s| - 1]);
    }
  }

  lemma {:induction false} StripIsClean(s: string)
    ensures Clean(Strip(s)) && Strip(Strip(s)) == Strip(s)
  {
    StripLeftEnds(s);
    StripRightEnds(StripLeft(s));
  }

  /** A scenario as a requirement embeds it; `rawId` is its `id`, or else its `scenario_id`. */
  datatype Scenario = Scenario(rawId: string, name: string, steps: seq<string>)

  /** A row of the requirements table; `info` stands for the fields no operation looks into. */
  datatype Requirement = Requirement(scenarios: seq<Scenario>, info: string)

  /** A row of the scenarios table. */
  datatype ScenarioRow = ScenarioRow(reqId: string, name: string, steps: seq<string>)

  /** The tables; a test row is known by the requirement it names. */
  datatype Tables = Tables(reqs: map<string, Requirement>, scens: map<string, ScenarioRow>, tests: map<string, string>)

  function IdOf(x: Scenario): string {
    Strip(x.rawId)
  }

  function RowOf(r: string, x: Scenario): ScenarioRow {
    ScenarioRow(r, if Strip(x.name) == "" then IdOf(x) else Strip(x.name), x.steps)
  }

  /** The rows that belong to embedded scenarios; a later one of the same id wins. */
  function RowsOf(r: string, xs: seq<Scenario>): (rows: map<string, ScenarioRow>)
    ensures forall k :: k in rows ==> rows[k].reqId == r && k != ""
  {
    if xs == [] then map[]
    else
      var rows, x := RowsOf(r, xs[..|xs| - 1]), xs[|xs| - 1];
      if IdOf(x) == "" then rows else rows[IdOf(x) := RowOf(r, x)]
  }

  function Ids(xs: seq<Scenario>): set<string> {
    set x | x in xs && IdOf(x) != "" :: IdOf(x)
  }

  lemma {:induction false} RowsOfKeys(r: string, xs: seq<Scenario>)
    ensures RowsOf(r, xs).Keys == Ids(xs)
  {
    if xs != [] {
      RowsOfKeys(r, xs[..|xs| - 1]);
      assert forall x :: x in xs <==> x in xs[..|xs| - 1] || x == xs[|xs| - 1];
    }
  }

  /** The rows of the scenarios table that name a requirement. */
  function Naming(scens: map<string, ScenarioRow>, r: string): map<string, ScenarioRow> {
    map k | k in scens && scens[k].reqId == r :: scens[k]
  }

  function NotNaming(scens: map<string, ScenarioRow>, r: string): map<string, ScenarioRow> {
    map k | k in scens && scens[k].reqId != r :: scens[k]
  }

  /** The scenario rows naming a stored requirement are exactly those of the scenarios it
      embeds. */
  predicate AgreeOn(t: Tables, r: string)
    requires r in t.reqs
  {
    Naming(t.scens, r) == RowsOf(r, t.reqs[r].scenarios)
  }

  predicate AgreeElsewhere(t: Tables, r: string) {
    forall q :: q in t.reqs && q != r ==> AgreeOn(t, q)
  }

  /** That holds of every stored requirement. */
  predicate Agree(t: Tables) {
    forall q :: q in t.reqs ==> AgreeOn(t, q)
  }

  /** Keys and references are stripped and not empty. */
  ghost predicate Normal(t: Tables) {
    && (forall r :: r in t.reqs ==> r != "" && Strip(r) == r)
    && (forall k :: k in t.scens ==>
          && k != "" && Strip(k) == k
          && t.scens[k].reqId != "" && Strip(t.scens[k].reqId) == t.scens[k].reqId)
  }

  // ----- Operations -----

  /** The requirement row is replaced and its scenario rows are rebuilt from it. */
  function PutRequirement(t: Tables, r: string, xs: seq<Scenario>, info: string): Tables {
    t.(reqs := t.reqs[r := Requirement(xs, info)], scens := NotNaming(t.scens, r) + RowsOf(r, xs))
  }

  function Drop(xs: seq<Scenario>, id: string): (ys: seq<Scenario>)
    ensures forall x :: x in ys <==> x in xs && IdOf(x) != id
  {
    if xs == [] then []
    else Drop(xs[..|xs| - 1], id) + (if IdOf(xs[|xs| - 1]) == id then [] else [xs[|xs| - 1]])
  }

  function PutScenario(t: Tables, k: string, r: string, name: string, steps: seq<string>): Tables {
    var t' := t.(scens := t.scens[k := ScenarioRow(r, name, steps)]);
    if r in t.reqs then
      PutRequirement(t', r, Drop(t.reqs[r].scenarios, k) + [Scenario(k, name, steps)], t.reqs[r].info)
    else t'
  }

  /** `raw` is the id as the caller wrote it: rows are looked up stripped, the embedded
      scenarios are compared with it as it is. */
  function RemoveScenario(t: Tables, raw: string): Tables {
    var k := Strip(raw);
    var t' := t.(scens := t.scens - {k});
    if k in t.scens && Strip(t.scens[k].reqId) in t.reqs then
      var r := Strip(t.scens[k].reqId);
      PutRequirement(t', r, Drop(t.reqs[r].scenarios, raw), t.reqs[r].info)
    else t'
  }

  function TestsNotOf(tests: map<string, string>, r: string): map<string, string> {
    map k | k in tests && tests[k] != r :: tests[k]
  }

  function RemoveRequirement(t: Tables, r: string): Tables {
    Tables(t.reqs - {r}, NotNaming(t.scens, r), TestsNotOf(t.tests, r))
  }

  /** A node of the requirements tree as it is stored. */
  datatype TreeNode = TreeNode(rawId: string, scenarios: seq<Scenario>, info: string, children: seq<TreeNode>)

  /** A requirement as the walk meets it. */
  datatype Visit = Visit(r: string, scenarios: seq<Scenario>, info: string)

  /** The requirements the walk meets, parents first; a node without an id hides its subtree. */
  function Visits(n: TreeNode): seq<Visit>
    decreases n, 1
  {
    if Strip(n.rawId) == "" then []
    else [Visit(Strip(n.rawId), n.scenarios, n.info)] + VisitsOf(n.children)
  }

  function VisitsOf(ns: seq<TreeNode>): seq<Visit>
    decreases ns, 0
  {
    if ns == [] then [] else VisitsOf(ns[..|ns| - 1]) + Visits(ns[|ns| - 1])
  }

  function ReqsFrom(before: map<string, Requirement>, vs: seq<Visit>): map<string, Requirement> {
    if vs == [] then before
    else
      var v := vs[|vs| - 1];
      ReqsFrom(before, vs[..|vs| - 1])[v.r := Requirement(v.scenarios, v.info)]
  }

  function ScensFrom(before: map<string, ScenarioRow>, vs: seq<Visit>): map<string, ScenarioRow> {
    if vs == [] then before
    else
      var v := vs[|vs| - 1];
      ScensFrom(before, vs[..|vs| - 1]) + RowsOf(v.r, v.scenarios)
  }

  function StoreTree(t: Tables, tree: TreeNode): Tables {
    t.(reqs := ReqsFrom(map[], Visits(tree)), scens := ScensFrom(map[], Visits(tree)))
  }

  datatype Op =
    | StoreRequirementTree(tree: TreeNode)
    | UpsertRequirement(reqId: string, scenarios: seq<Scenario>, info: string)
    | UpsertScenario(scenarioId: string, reqId: string, name: string, steps: seq<string>)
    | DeleteScenario(scenarioId: string)
    | DeleteRequirement(reqId: string)
    | UpsertTest(testId: string, reqId: string)
    | DeleteTest(testId: string)
    | ClearDesignArtifacts(reqId: string)

  /** The operation raises an error and changes nothing. */
  predicate Rejected(t: Tables, op: Op) {
    match op
    case UpsertRequirement(q, _, _) => Strip(q) == ""
    case UpsertScenario(s, q, _, _) => Strip(s) == "" || Strip(q) == ""
    case UpsertTest(x, q) =>
      Strip(x) == "" || Strip(q) == "" || (Strip(x) in t.tests && t.tests[Strip(x)] != Strip(q))
    case _ => false
  }

  function Apply(t: Tables, op: Op): Tables {
    if Rejected(t, op) then t else
    match op
    case StoreRequirementTree(tree) => StoreTree(t, tree)
    case UpsertRequirement(q, xs, info) => PutRequirement(t, Strip(q), xs, info)
    case UpsertScenario(s, q, name, steps) => PutScenario(t, Strip(s), Strip(q), Strip(name), steps)
    case DeleteScenario(s) => RemoveScenario(t, s)
    case DeleteRequirement(q) => RemoveRequirement(t, Strip(q))
    case UpsertTest(x, q) => t.(tests := t.tests[Strip(x) := Strip(q)])
    case DeleteTest(x) => t.(tests := t.tests - {Strip(x)})
    case ClearDesignArtifacts(q) => t.(tests := TestsNotOf(t.tests, q))
  }

  // ----- When the tables stay in agreement -----

  /** The scenario id belongs to another stored requirement. */
  predicate OwnedElsewhere(t: Tables, k: string, r: string) {
    k in t.scens && t.scens[k].reqId != r && t.scens[k].reqId in t.reqs
  }

  lemma OwnRows(t: Tables, r: string, xs: seq<Scenario>, info: string)
    ensures AgreeOn(PutRequirement(t, r, xs, info), r)
  {
  }

  lemma OtherRows(t: Tables, r: string, xs: seq<Scenario>, info: string, q: string)
    requires q in t.reqs && q != r && AgreeOn(t, q)
    requires forall k :: k in Ids(xs) ==> !OwnedElsewhere(t, k, r)
    ensures AgreeOn(PutRequirement(t, r, xs, info), q)
  {
    RowsOfKeys(r, xs);
    assert Naming(NotNaming(t.scens, r) + RowsOf(r, xs), q) == Naming(t.scens, q);
  }

  lemma StolenRow(t: Tables, t': Tables, k: string, q: string)
    requires q in t.reqs && q in t'.reqs && AgreeOn(t, q) && t'.reqs[q] == t.reqs[q]
    requires k in t.scens && t.scens[k].reqId == q && k in t'.scens && t'.scens[k].reqId != q
    ensures !AgreeOn(t', q)
  {
    assert k in Naming(t.scens, q) && k !in Naming(t'.scens, q);
  }

  /** Rewriting one requirement keeps the agreement exactly when it takes no scenario id
      from another stored requirement. */
  lemma {:induction false} PutRequirementAgrees(t: Tables, r: string, xs: seq<Scenario>, info: string)
    requires AgreeElsewhere(t, r)
    ensures Agree(PutRequirement(t, r, xs, info)) <==> forall k :: k in Ids(xs) ==> !OwnedElsewhere(t, k, r)
  {
    var t' := PutRequirement(t, r, xs, info);
    OwnRows(t, r, xs, info);
    if k :| k in Ids(xs) && OwnedElsewhere(t, k, r) {
      RowsOfKeys(r, xs);
      StolenRow(t, t', k, t.scens[k].reqId);
    } else {
      forall q | q in t'.reqs ensures AgreeOn(t', q) {
        if q != r {
          OtherRows(t, r, xs, info, q);
        }
      }
    }
  }

  lemma EmbeddedIdsAreOwn(t: Tables, r: string, k: string)
    requires r in t.reqs && AgreeOn(t, r) && k in Ids(t.reqs[r].scenarios)
    ensures k in t.scens && t.scens[k].reqId == r
  {
    RowsOfKeys(r, t.reqs[r].scenarios);
    assert k in Naming(t.scens, r);
  }

  /** Changing one row that names `r`, or no stored requirement, leaves the others alone. */
  lemma RowChanged(t: Tables, t1: Tables, k: string, r: string)
    requires Agree(t) && t1.reqs == t.reqs && !OwnedElsewhere(t, k, r)
    requires forall j :: j != k ==> (j in t1.scens <==> j in t.scens) && (j in t.scens ==> t1.scens[j] == t.scens[j])
    requires k in t1.scens ==> t1.scens[k].reqId == r
    ensures AgreeElsewhere(t1, r)
  {
  }

  /** Writing one scenario keeps the agreement exactly when its id does not belong to
      another stored requirement. */
  lemma {:induction false} PutScenarioAgrees(t: Tables, k: string, r: string, name: string, steps: seq<string>)
    requires Agree(t) && k != "" && Strip(k) == k
    ensures Agree(PutScenario(t, k, r, name, steps)) <==> !OwnedElsewhere(t, k, r)
  {
    var t1 := t.(scens := t.scens[k := ScenarioRow(r, name, steps)]);
    if OwnedElsewhere(t, k, r) {
      ScenarioWritten(t, k, r, name, steps);
      StolenRow(t, PutScenario(t, k, r, name, steps), k, t.scens[k].reqId);
    } else {
      RowChanged(t, t1, k, r);
      if r in t.reqs {
        var xs := Drop(t.reqs[r].scenarios, k) + [Scenario(k, name, steps)];
        forall j | j in Ids(xs) ensures !OwnedElsewhere(t1, j, r) {
          var x :| x in xs && IdOf(x) == j;
          if j != k {
            assert x in t.reqs[r].scenarios;
            EmbeddedIdsAreOwn(t, r, j);
          }
        }
        PutRequirementAgrees(t1, r, xs, t.reqs[r].info);
      }
    }
  }

  /** The row written names the requirement given. */
  lemma ScenarioWritten(t: Tables, k: string, r: string, name: string, steps: seq<string>)
    requires k != "" && Strip(k) == k
    ensures var t' := PutScenario(t, k, r, name, steps); k in t'.scens && t'.scens[k].reqId == r
  {
  }

  /** Deleting a scenario always keeps the agreement. */
  lemma {:induction false} RemoveScenarioAgrees(t: Tables, raw: string)
    requires Agree(t) && Normal(t)
    ensures Agree(RemoveScenario(t, raw))
  {
    var k := Strip(raw);
    var t1 := t.(scens := t.scens - {k});
    if k in t.scens {
      var r := t.scens[k].reqId;
      RowChanged(t, t1, k, r);
      if r in t.reqs {
        var xs := Drop(t.reqs[r].scenarios, raw);
        forall j | j in Ids(xs) ensures !OwnedElsewhere(t1, j, r) {
          var x :| x in xs && IdOf(x) == j;
          EmbeddedIdsAreOwn(t, r, j);
        }
        PutRequirementAgrees(t1, r, xs, t.reqs[r].info);
      }
    } else {
      assert t1.scens == t.scens;
    }
  }

  /** It deletes the row, except when the owner is stored and the caller wrote the id with
      blanks around it: the row is then rebuilt from the scenario left behind. */
  lemma {:induction false} DeleteScenarioDeletesIff(t: Tables, raw: string)
    requires Agree(t) && Normal(t)
    ensures var k := Strip(raw);
            k in RemoveScenario(t, raw).scens <==> k in t.scens && t.scens[k].reqId in t.reqs && raw != k
  {
    var k := Strip(raw);
    StripIsClean(raw);
    if k in t.scens && t.scens[k].reqId in t.reqs {
      var r := t.scens[k].reqId;
      var xs := t.reqs[r].scenarios;
      assert AgreeOn(t, r);
      assert k in Naming(t.scens, r);
      RowsOfKeys(r, xs);
      RowsOfKeys(r, Drop(xs, raw));
      if raw == k {
        assert k !in Ids(Drop(xs, raw));
      } else {
        var x :| x in xs && IdOf(x) == k;
        assert x in Drop(xs, raw) && k in Ids(Drop(xs, raw));
      }
    }
  }

  lemma {:induction false} RemoveRequirementAgrees(t: Tables, r: string)
    requires Agree(t)
    ensures Agree(RemoveRequirement(t, r))
    ensures Naming(RemoveRequirement(t, r).scens, r) == map[]
  {
  }

  // ----- Trees -----

  predicate DistinctVisits(vs: seq<Visit>) {
    forall i, j :: 0 <= i < j < |vs| ==> vs[i].r != vs[j].r
  }

  /** No scenario id occurs under two requirements. */
  predicate DisjointVisits(vs: seq<Visit>) {
    forall i, j :: 0 <= i < j < |vs| ==> Ids(vs[i].scenarios) !! Ids(vs[j].scenarios)
  }

  /** The last visit with a given scenario id, -1 when there is none. */
  function LastWith(vs: seq<Visit>, k: string): (i: int)
    ensures -1 <= i < |vs|
    ensures i >= 0 ==> k in Ids(vs[i].scenarios)
    ensures forall j :: i < j < |vs| ==> k !in Ids(vs[j].scenarios)
  {
    if vs == [] then -1
    else if k in Ids(vs[|vs| - 1].scenarios) then |vs| - 1
    else LastWith(vs[..|vs| - 1], k)
  }

  lemma {:induction false} ScensFromLookup(vs: seq<Visit>, k: string)
    ensures var i, scens := LastWith(vs, k), ScensFrom(map[], vs);
            && (k in scens <==> i >= 0)
            && (i >= 0 ==> k in RowsOf(vs[i].r, vs[i].scenarios) && scens[k] == RowsOf(vs[i].r, vs[i].scenarios)[k])
  {
    if vs != [] {
      ScensFromLookup(vs[..|vs| - 1], k);
      RowsOfKeys(vs[|vs| - 1].r, vs[|vs| - 1].scenarios);
    }
  }

  /** The last visit of a requirement, -1 when there is none. */
  function LastOf(vs: seq<Visit>, r: string): (i: int)
    ensures -1 <= i < |vs|
    ensures i >= 0 ==> vs[i].r == r
    ensures forall j :: i < j < |vs| ==> vs[j].r != r
  {
    if vs == [] then -1
    else if vs[|vs| - 1].r == r then |vs| - 1
    else LastOf(vs[..|vs| - 1], r)
  }

  predicate IsLast(vs: seq<Visit>, i: nat)
    requires i < |vs|
  {
    i == LastOf(vs, vs[i].r)
  }

  lemma {:induction false} ReqsFromLookup(vs: seq<Visit>, r: string)
    ensures var i, reqs := LastOf(vs, r), ReqsFrom(map[], vs);
            (r in reqs <==> i >= 0) && (i >= 0 ==> reqs[r] == Requirement(vs[i].scenarios, vs[i].info))
  {
    if vs != [] {
      ReqsFromLookup(vs[..|vs| - 1], r);
    }
  }

  /** The last visit with the scenario id is the last one of its requirement, and no other
      requirement's last visit has the id. */
  predicate Settled(vs: seq<Visit>, k: string) {
    var i := LastWith(vs, k);
    i >= 0 ==> IsLast(vs, i) && forall j :: 0 <= j < |vs| && IsLast(vs, j) && k in Ids(vs[j].scenarios) ==> j == i
  }

  ghost predicate AllSettled(vs: seq<Visit>) {
    forall k :: Settled(vs, k)
  }

  lemma VisitRow(vs: seq<Visit>, i: nat, k: string)
    requires i < |vs| && IsLast(vs, i) && Settled(vs, k)
    ensures var scens, rows := ScensFrom(map[], vs), RowsOf(vs[i].r, vs[i].scenarios);
            (k in scens && scens[k].reqId == vs[i].r <==> k in rows) && (k in rows ==> scens[k] == rows[k])
  {
    ScensFromLookup(vs, k);
    RowsOfKeys(vs[i].r, vs[i].scenarios);
  }

  lemma VisitAgrees(vs: seq<Visit>, i: nat)
    requires i < |vs| && IsLast(vs, i) && AllSettled(vs)
    ensures Naming(ScensFrom(map[], vs), vs[i].r) == RowsOf(vs[i].r, vs[i].scenarios)
  {
    var scens, rows := ScensFrom(map[], vs), RowsOf(vs[i].r, vs[i].scenarios);
    forall k ensures k in Naming(scens, vs[i].r) <==> k in rows
             ensures k in rows ==> scens[k] == rows[k]
    {
      assert Settled(vs, k);
      VisitRow(vs, i, k);
    }
  }

  lemma SettledTreeAgrees(t: Tables, tree: TreeNode)
    requires AllSettled(Visits(tree))
    ensures Agree(StoreTree(t, tree))
  {
    var vs, t' := Visits(tree), StoreTree(t, tree);
    forall r | r in t'.reqs ensures AgreeOn(t', r) {
      ReqsFromLookup(vs, r);
      VisitAgrees(vs, LastOf(vs, r));
    }
  }

  /** Where the tables agree on the requirement of visit `i`, a scenario id of its last visit
      is in a row that names it, and the other way round. */
  lemma AgreeingVisit(t: Tables, tree: TreeNode, i: nat, k: string)
    requires i < |Visits(tree)| && Agree(StoreTree(t, tree))
    ensures var vs, scens := Visits(tree), StoreTree(t, tree).scens;
            k in scens && scens[k].reqId == vs[i].r <==> k in Ids(vs[LastOf(vs, vs[i].r)].scenarios)
  {
    var vs, t' := Visits(tree), StoreTree(t, tree);
    var r := vs[i].r;
    ReqsFromLookup(vs, r);
    RowsOfKeys(r, t'.reqs[r].scenarios);
    assert AgreeOn(t', r);
    assert k in t'.scens && t'.scens[k].reqId == r <==> k in Naming(t'.scens, r);
  }

  lemma AgreeingTreeSettles(t: Tables, tree: TreeNode, k: string)
    requires Agree(StoreTree(t, tree))
    ensures Settled(Visits(tree), k)
  {
    var vs := Visits(tree);
    var i := LastWith(vs, k);
    if i >= 0 {
      ScensFromLookup(vs, k);
      AgreeingVisit(t, tree, i, k);
      forall j | 0 <= j < |vs| && IsLast(vs, j) && k in Ids(vs[j].scenarios) ensures j == i {
        AgreeingVisit(t, tree, j, k);
      }
    }
  }

  /** Storing any tree leaves the tables in agreement if and only if every scenario id is
      settled: carried last by the last visit of its requirement, and by no other's. */
  lemma {:induction false} StoreTreeAgrees(t: Tables, tree: TreeNode)
    ensures Agree(StoreTree(t, tree)) <==> AllSettled(Visits(tree))
  {
    if Agree(StoreTree(t, tree)) {
      forall k ensures Settled(Visits(tree), k) {
        AgreeingTreeSettles(t, tree, k);
      }
    }
    if AllSettled(Visits(tree)) {
      SettledTreeAgrees(t, tree);
    }
  }

  /** For a tree whose requirement ids are distinct: no scenario id occurs under two
      requirements. */
  lemma {:induction false} DistinctTreeAgrees(t: Tables, tree: TreeNode)
    requires DistinctVisits(Visits(tree))
    ensures Agree(StoreTree(t, tree)) <==> DisjointVisits(Visits(tree))
  {
    var vs := Visits(tree);
    StoreTreeAgrees(t, tree);
    assert forall i :: 0 <= i < |vs| ==> IsLast(vs, i);
    if AllSettled(vs) {
      forall i, j | 0 <= i < j < |vs| ensures Ids(vs[i].scenarios) !! Ids(vs[j].scenarios) {
        assert forall k :: k in Ids(vs[i].scenarios) && k in Ids(vs[j].scenarios) ==> Settled(vs, k);
      }
    }
  }

  // ----- Every sequence of operations -----

  /** The operation gives a scenario id of one stored requirement to another, or stores a
      tree that leaves one unsettled. */
  ghost predicate Steals(t: Tables, op: Op) {
    !Rejected(t, op) &&
    match op
    case StoreRequirementTree(tree) => !AllSettled(Visits(tree))
    case UpsertRequirement(q, xs, _) => exists k :: k in Ids(xs) && OwnedElsewhere(t, k, Strip(q))
    case UpsertScenario(s, q, _, _) => OwnedElsewhere(t, Strip(s), Strip(q))
    case _ => false
  }

  /** Test rows do not matter to the agreement. */
  lemma SameTablesAgree(t: Tables, t': Tables)
    requires t'.reqs == t.reqs && t'.scens == t.scens
    ensures Agree(t) <==> Agree(t')
  {
    assert forall q :: q in t.reqs ==> (AgreeOn(t, q) <==> AgreeOn(t', q));
  }

  lemma {:induction false} ApplyAgreesIff(t: Tables, op: Op)
    requires Agree(t) && Normal(t)
    ensures Agree(Apply(t, op)) <==> !Steals(t, op)
  {
    if !Rejected(t, op) {
      AcceptedAgreesIff(t, op);
    }
  }

  lemma AcceptedAgreesIff(t: Tables, op: Op)
    requires Agree(t) && Normal(t) && !Rejected(t, op)
    ensures Agree(Apply(t, op)) <==> !Steals(t, op)
  {
    match op
    case StoreRequirementTree(tree) => StoreTreeAgrees(t, tree);
    case UpsertRequirement(q, xs, info) => PutRequirementAgrees(t, Strip(q), xs, info);
    case UpsertScenario(s, q, name, steps) =>
      StripIsClean(s);
      PutScenarioAgrees(t, Strip(s), Strip(q), Strip(name), steps);
    case DeleteScenario(s) => RemoveScenarioAgrees(t, s);
    case DeleteRequirement(q) => RemoveRequirementAgrees(t, Strip(q));
    case _ => SameTablesAgree(t, Apply(t, op));
  }

  lemma {:induction false} VisitsAreNormal(n: TreeNode)
    ensures forall v :: v in Visits(n) ==> v.r != "" && Strip(v.r) == v.r
    decreases n, 1
  {
    StripIsClean(n.rawId);
    VisitsOfAreNormal(n.children);
  }

  lemma {:induction false} VisitsOfAreNormal(ns: seq<TreeNode>)
    ensures forall v :: v in VisitsOf(ns) ==> v.r != "" && Strip(v.r) == v.r
    decreases ns, 0
  {
    if ns != [] {
      VisitsOfAreNormal(ns[..|ns| - 1]);
      VisitsAreNormal(ns[|ns| - 1]);
    }
  }

  lemma RowsAreNormal(r: string, xs: seq<Scenario>, k: string)
    requires k in RowsOf(r, xs)
    ensures k != "" && Strip(k) == k
  {
    RowsOfKeys(r, xs);
    var x :| x in xs && IdOf(x) == k;
    StripIsClean(x.rawId);
  }

  lemma PutRequirementNormal(t: Tables, r: string, xs: seq<Scenario>, info: string)
    requires Normal(t) && r != "" && Strip(r) == r
    ensures Normal(PutRequirement(t, r, xs, info))
  {
    forall k | k in RowsOf(r, xs) ensures k != "" && Strip(k) == k {
      RowsAreNormal(r, xs, k);
    }
  }

  lemma PutScenarioNormal(t: Tables, k: string, r: string, name: string, steps: seq<string>)
    requires Normal(t) && k != "" && Strip(k) == k && r != "" && Strip(r) == r
    ensures Normal(PutScenario(t, k, r, name, steps))
  {
    var t1 := t.(scens := t.scens[k := ScenarioRow(r, name, steps)]);
    assert Normal(t1);
    if r in t.reqs {
      PutRequirementNormal(t1, r, Drop(t.reqs[r].scenarios, k) + [Scenario(k, name, steps)], t.reqs[r].info);
    }
  }

  lemma RemoveScenarioNormal(t: Tables, raw: string)
    requires Normal(t)
    ensures Normal(RemoveScenario(t, raw))
  {
    var k := Strip(raw);
    var t1 := t.(scens := t.scens - {k});
    assert Normal(t1);
    if k in t.scens && t.scens[k].reqId in t.reqs {
      var r := t.scens[k].reqId;
      PutRequirementNormal(t1, r, Drop(t.reqs[r].scenarios, raw), t.reqs[r].info);
    }
  }

  lemma StoreTreeNormal(t: Tables, tree: TreeNode)
    requires Normal(t)
    ensures Normal(StoreTree(t, tree))
  {
    var vs, t' := Visits(tree), StoreTree(t, tree);
    VisitsAreNormal(tree);
    forall r | r in t'.reqs ensures r != "" && Strip(r) == r {
      ReqsFromLookup(vs, r);
      assert vs[LastOf(vs, r)] in vs;
    }
    forall k | k in t'.scens
      ensures k != "" && Strip(k) == k && t'.scens[k].reqId != "" && Strip(t'.scens[k].reqId) == t'.scens[k].reqId
    {
      ScensFromLookup(vs, k);
      var v := vs[LastWith(vs, k)];
      assert v in vs;
      RowsAreNormal(v.r, v.scenarios, k);
    }
  }

  lemma {:induction false} ApplyKeepsNormal(t: Tables, op: Op)
    requires Normal(t)
    ensures Normal(Apply(t, op))
  {
    if !Rejected(t, op) {
      match op
      case StoreRequirementTree(tree) => StoreTreeNormal(t, tree);
      case UpsertRequirement(q, xs, info) =>
        StripIsClean(q);
        PutRequirementNormal(t, Strip(q), xs, info);
      case UpsertScenario(s, q, name, steps) =>
        StripIsClean(s);
        StripIsClean(q);
        PutScenarioNormal(t, Strip(s), Strip(q), Strip(name), steps);
      case DeleteScenario(s) => RemoveScenarioNormal(t, s);
      case _ =>
    }
  }

  const EMPTY := Tables(map[], map[], map[])

  function Run(ops: seq<Op>): Tables {
    if ops == [] then EMPTY else Apply(Run(ops[..|ops| - 1]), ops[|ops| - 1])
  }

  ghost predicate NeverSteals(ops: seq<Op>) {
    forall i :: 0 <= i < |ops| ==> !Steals(Run(ops[..i]), ops[i])
  }

  ghost predicate AgreeThroughout(ops: seq<Op>) {
    forall i :: 0 <= i <= |ops| ==> Agree(Run(ops[..i]))
  }

  lemma RunOneMore(ops: seq<Op>, i: nat)
    requires i < |ops|
    ensures Run(ops[..i + 1]) == Apply(Run(ops[..i]), ops[i])
  {
    assert ops[..i + 1][..i] == ops[..i];
  }

  lemma {:induction false} AlwaysNormal(ops: seq<Op>)
    ensures Normal(Run(ops))
  {
    if ops != [] {
      AlwaysNormal(ops[..|ops| - 1]);
      ApplyKeepsNormal(Run(ops[..|ops| - 1]), ops[|ops| - 1]);
    }
  }

  lemma {:induction false} AgreeSoFar(ops: seq<Op>, i: nat)
    requires i <= |ops| && NeverSteals(ops)
    ensures Agree(Run(ops[..i]))
  {
    if i > 0 {
      AgreeSoFar(ops, i - 1);
      AlwaysNormal(ops[..i - 1]);
      ApplyAgreesIff(Run(ops[..i - 1]), ops[i - 1]);
      RunOneMore(ops, i - 1);
    }
  }

  /** The tables agree at every point of a sequence of operations if and only if none steals. */
  lemma {:induction false} TablesAlwaysAgree(ops: seq<Op>)
    ensures AgreeThroughout(ops) <==> NeverSteals(ops)
  {
    if AgreeThroughout(ops) {
      forall i | 0 <= i < |ops| ensures !Steals(Run(ops[..i]), ops[i]) {
        AlwaysNormal(ops[..i]);
        ApplyAgreesIff(Run(ops[..i]), ops[i]);
        RunOneMore(ops, i);
      }
    }
    if NeverSteals(ops) {
      forall i | 0 <= i <= |ops| ensures Agree(Run(ops[..i])) {
        AgreeSoFar(ops, i);
      }
    }
  }

  /** The operation deletes the test row `id` of the requirement `r`. */
  predicate RemovesTest(op: Op, id: string, r: string) {
    match op
    case DeleteTest(x) => Strip(x) == id
    case DeleteRequirement(q) => Strip(q) == r
    case ClearDesignArtifacts(q) => q == r
    case _ => false
  }

  lemma ApplyKeepsTest(t: Tables, op: Op, id: string)
    requires id in t.tests
    ensures id in Apply(t, op).tests <==> !RemovesTest(op, id, t.tests[id])
    ensures id in Apply(t, op).tests ==> Apply(t, op).tests[id] == t.tests[id]
  {
  }

  ghost predicate RowStays(ops: seq<Op>, i: nat, id: string) {
    forall m :: i <= m <= |ops| ==> PresentAt(ops, m, id)
  }

  predicate PresentAt(ops: seq<Op>, m: nat, id: string)
    requires m <= |ops|
  {
    id in Run(ops[..m]).tests
  }

  predicate NoneRemoves(ops: seq<Op>, i: nat, id: string, r: string) {
    forall m :: i <= m < |ops| ==> !RemovesTest(ops[m], id, r)
  }

  /** Whatever follows, a test row stays as long as nothing deletes it, by its own id or by its
      requirement's, and as long as it stays it keeps its requirement. */
  lemma {:induction false} TestsKeepTheirOwner(ops: seq<Op>, i: nat, id: string)
    requires i <= |ops| && id in Run(ops[..i]).tests
    ensures RowStays(ops, i, id) <==> NoneRemoves(ops, i, id, Run(ops[..i]).tests[id])
    ensures RowStays(ops, i, id) ==> id in Run(ops).tests && Run(ops).tests[id] == Run(ops[..i]).tests[id]
    decreases |ops|
  {
    assert ops[..|ops|] == ops;
    assert PresentAt(ops, i, id);
    if i < |ops| {
      var front, op := ops[..|ops| - 1], ops[|ops| - 1];
      assert ops == front + [op] && front[..i] == ops[..i];
      TestsKeepTheirOwner(front, i, id);
      RowStaysSnoc(front, op, i, id);
      NoneRemovesSnoc(front, op, i, id, Run(ops[..i]).tests[id]);
      if RowStays(front, i, id) {
        ApplyKeepsTest(Run(front), op, id);
      }
    }
  }

  lemma PresentInPrefix(front: seq<Op>, op: Op, m: nat, id: string)
    requires m <= |front|
    ensures PresentAt(front + [op], m, id) <==> PresentAt(front, m, id)
  {
    assert (front + [op])[..m] == front[..m];
  }

  lemma RowStaysSnoc(front: seq<Op>, op: Op, i: nat, id: string)
    requires i <= |front|
    ensures RowStays(front + [op], i, id) <==> RowStays(front, i, id) && PresentAt(front + [op], |front| + 1, id)
  {
    var ops := front + [op];
    forall m | i <= m <= |front| ensures PresentAt(ops, m, id) <==> PresentAt(front, m, id) {
      PresentInPrefix(front, op, m, id);
    }
  }

  lemma NoneRemovesSnoc(front: seq<Op>, op: Op, i: nat, id: string, r: string)
    requires i <= |front|
    ensures NoneRemoves(front + [op], i, id, r) <==> NoneRemoves(front, i, id, r) && !RemovesTest(op, id, r)
  {
    var ops := front + [op];
    assert ops[|front|] == op && forall m :: i <= m < |front| ==> ops[m] == front[m];
  }

  /** A tree that repeats a requirement id leaves rows its table does not embed. */
  lemma {:induction false} RepeatedIdDisagrees(t: Tables)
    ensures var x := Scenario("S", "", []);
            var tree := TreeNode("R", [x], "", [TreeNode("R", [], "", [])]);
            !Agree(StoreTree(t, tree))
  {
    var x := Scenario("S", "", []);
    var leaf := TreeNode("R", [], "", []);
    var tree := TreeNode("R", [x], "", [leaf]);
    assert Strip("R") == "R" && Strip("S") == "S";
    var v, v' := Visit("R", [x], ""), Visit("R", [], "");
    assert VisitsOf([]) == [] && Visits(leaf) == [v'];
    assert [leaf][..0] == [];
    assert VisitsOf([leaf]) == [] + [v'];
    assert Visits(tree) == [v, v'];
    ScensFromLookup([v, v'], "S");
    assert x in [x] && "S" in Ids([x]);
    assert [v, v'][..1] == [v];
    assert ReqsFrom(map[], [v, v'])["R"] == Requirement([], "");
    var t' := StoreTree(t, tree);
    assert "S" in t'.scens && t'.scens["S"].reqId == "R";
    assert "S" in Naming(t'.scens, "R");
    assert !AgreeOn(t', "R");
  }
}
