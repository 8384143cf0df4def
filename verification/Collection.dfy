/** `collect_app`: which app a finished run delivers. */
module Collection {
  import opened Paths
  import opened RunDirectory
  import opened Wrappers
  import opened RunHistory

  /** One run directory: its place in path order, its files and its workspace. */
  datatype RunDirView = RunDirView(rank: nat, dir: Dir, workspace: Files)

  /** What `swap_in` copies of the chosen directory into the deliverable. */
  function SwappedIn(source: Files): Files {
    map p | p in source && |p| >= 2 && (p[0] == "frontend" || p[0] == "backend")
            && "node_modules" !in p[1..] && ".git" !in p[1..] :: source[p]
  }

  /** Swapping in a directory delivers, under `frontend` or `backend`, exactly the files with no
      installed part and no repository data on their path, as they are. */
  lemma {:induction false} SwapKeeps(source: Files, part: string, below: Path)
    requires below != []
    ensures var p := [part] + below;
            if part in {"frontend", "backend"} && "node_modules" !in below && ".git" !in below
            then SameAt(SwappedIn(source), source, p) else p !in SwappedIn(source)
  {
    assert ([part] + below)[1..] == below;
  }

  /** So all of a snapshot is delivered apart from `.git` parts. */
  lemma {:induction false} SnapshotIsDelivered(files: Files, p: Path)
    requires p in Shipped(files) && ".git" !in p[1..]
    ensures p in SwappedIn(Shipped(files)) && SwappedIn(Shipped(files))[p] == files[p]
  {
    assert p == [p[0]] + p[1..];
    SnapshotKeeps(files, p[0], p[1..]);
    SwapKeeps(Shipped(files), p[0], p[1..]);
  }

  predicate HasScoredBest(r: RunDirView) {
    r.dir.best.Some? && HasFrontend(r.dir.best.value.app)
  }

  predicate HasStampedGood(r: RunDirView) {
    r.dir.good.Some? && HasFrontend(r.dir.good.value.app)
  }

  /** Higher score first, then later path. */
  predicate BestNotAbove(a: RunDirView, b: RunDirView)
    requires HasScoredBest(a) && HasScoredBest(b)
  {
    var x, y := a.dir.best.value.passed, b.dir.best.value.passed;
    x < y || (x == y && a.rank <= b.rank)
  }

  predicate GoodNotAbove(a: RunDirView, b: RunDirView)
    requires HasStampedGood(a) && HasStampedGood(b)
  {
    var x, y := a.dir.good.value.stamp, b.dir.good.value.stamp;
    x < y || (x == y && a.rank <= b.rank)
  }

  method MaxScored(runs: seq<RunDirView>) returns (pick: int)
    ensures -1 <= pick < |runs|
    ensures pick < 0 <==> forall k :: 0 <= k < |runs| ==> !HasScoredBest(runs[k])
    ensures pick >= 0 ==> HasScoredBest(runs[pick])
    ensures pick >= 0 ==> forall k :: 0 <= k < |runs| && HasScoredBest(runs[k]) ==> BestNotAbove(runs[k], runs[pick])
  {
    pick := -1;
    for i := 0 to |runs|
      invariant -1 <= pick < i
      invariant pick < 0 <==> forall k :: 0 <= k < i ==> !HasScoredBest(runs[k])
      invariant pick >= 0 ==> HasScoredBest(runs[pick])
      invariant pick >= 0 ==> forall k :: 0 <= k < i && HasScoredBest(runs[k]) ==> BestNotAbove(runs[k], runs[pick])
    {
      if HasScoredBest(runs[i]) && (pick < 0 || BestNotAbove(runs[pick], runs[i])) {
        pick := i;
      }
    }
  }

  method MaxStamped(runs: seq<RunDirView>) returns (pick: int)
    ensures -1 <= pick < |runs|
    ensures pick < 0 <==> forall k :: 0 <= k < |runs| ==> !HasStampedGood(runs[k])
    ensures pick >= 0 ==> HasStampedGood(runs[pick])
    ensures pick >= 0 ==> forall k :: 0 <= k < |runs| && HasStampedGood(runs[k]) ==> GoodNotAbove(runs[k], runs[pick])
  {
    pick := -1;
    for i := 0 to |runs|
      invariant -1 <= pick < i
      invariant pick < 0 <==> forall k :: 0 <= k < i ==> !HasStampedGood(runs[k])
      invariant pick >= 0 ==> HasStampedGood(runs[pick])
      invariant pick >= 0 ==> forall k :: 0 <= k < i && HasStampedGood(runs[k]) ==> GoodNotAbove(runs[k], runs[pick])
    {
      if HasStampedGood(runs[i]) && (pick < 0 || GoodNotAbove(runs[pick], runs[i])) {
        pick := i;
      }
    }
  }

  predicate SomeScored(runs: seq<RunDirView>) {
    exists k :: 0 <= k < |runs| && HasScoredBest(runs[k])
  }

  predicate SomeStamped(runs: seq<RunDirView>) {
    exists k :: 0 <= k < |runs| && HasStampedGood(runs[k])
  }

  /** The best full-suite state of all run directories, else the last accepted state, else
      the newest directory's workspace. */
  predicate IsDelivery(runs: seq<RunDirView>, origin: nat, app: Files)
    requires origin < |runs|
  {
    var r := runs[origin];
    if SomeScored(runs) then
      && HasScoredBest(r) && app == SwappedIn(r.dir.best.value.app)
      && forall k :: 0 <= k < |runs| && HasScoredBest(runs[k]) ==> BestNotAbove(runs[k], r)
    else if SomeStamped(runs) then
      && HasStampedGood(r) && app == SwappedIn(r.dir.good.value.app)
      && forall k :: 0 <= k < |runs| && HasStampedGood(runs[k]) ==> GoodNotAbove(runs[k], r)
    else
      origin == |runs| - 1 && app == SwappedIn(r.workspace)
  }

  /** `collect_app`; -1 when there is no run directory. */
  method CollectApp(runs: seq<RunDirView>) returns (origin: int, app: Files)
    ensures runs == [] <==> origin < 0
    ensures -1 <= origin < |runs|
    ensures runs != [] ==> IsDelivery(runs, origin, app)
  {
    if runs == [] {
      return -1, map[];
    }
    var scored := MaxScored(runs);
    if scored >= 0 {
      return scored, SwappedIn(runs[scored].dir.best.value.app);
    }
    var stamped := MaxStamped(runs);
    if stamped >= 0 {
      return stamped, SwappedIn(runs[stamped].dir.good.value.app);
    }
    return |runs| - 1, SwappedIn(runs[|runs| - 1].workspace);
  }

  /** The run directories hold what their checks left, and every check wrote the manifests. */
  ghost predicate Histories(runs: seq<RunDirView>, hs: seq<seq<Check>>) {
    && |runs| == |hs|
    && (forall r :: 0 <= r < |runs| ==> runs[r].dir == After(hs[r]))
    && (forall r, k :: 0 <= r < |hs| && 0 <= k < |hs[r]| ==> HasFrontend(Shipped(hs[r][k].found.files)))
  }

  lemma ScoredIffChecked(runs: seq<RunDirView>, hs: seq<seq<Check>>, r: nat)
    requires Histories(runs, hs) && r < |runs|
    ensures HasScoredBest(runs[r]) <==> EarliestBest(hs[r]) >= 0
    ensures HasScoredBest(runs[r]) ==>
              var c := hs[r][EarliestBest(hs[r])];
              runs[r].dir.best.value == Best(Shipped(c.found.files), c.found.passed, c.found.rc)
  {
    BestIsEarliestBest(hs[r]);
  }

  /** If any run directory saw a full-suite check, the delivered app is the one verified by
      the earliest full-suite check reaching the highest pass count of its directory, and no
      full-suite check in any directory passed more; among directories that passed as much it
      is the last by path. */
  lemma {:induction false} DeliversTheBest(
    runs: seq<RunDirView>, hs: seq<seq<Check>>, origin: nat, app: Files, r: nat, k: nat)
    requires Histories(runs, hs) && origin < |runs| && IsDelivery(runs, origin, app)
    requires r < |hs| && k < |hs[r]| && hs[r][k].opts.best
    ensures var i := EarliestBest(hs[origin]);
            && i >= 0 && app == SwappedIn(Shipped(hs[origin][i].found.files))
            && hs[r][k].found.passed <= hs[origin][i].found.passed
            && (hs[r][k].found.passed == hs[origin][i].found.passed ==> runs[r].rank <= runs[origin].rank)
  {
    ScoredIffChecked(runs, hs, r);
    assert HasScoredBest(runs[r]);
    ScoredIffChecked(runs, hs, origin);
    assert BestNotAbove(runs[r], runs[origin]);
  }

  /** No directory saw a full-suite check. */
  ghost predicate NoFullSuite(hs: seq<seq<Check>>) {
    forall r, k :: 0 <= r < |hs| && 0 <= k < |hs[r]| ==> !hs[r][k].opts.best
  }

  lemma NotScored(runs: seq<RunDirView>, hs: seq<seq<Check>>)
    requires Histories(runs, hs) && NoFullSuite(hs)
    ensures !SomeScored(runs)
  {
    forall r | 0 <= r < |runs| ensures !HasScoredBest(runs[r]) {
      ScoredIffChecked(runs, hs, r);
    }
  }

  lemma StampedIffPassed(runs: seq<RunDirView>, hs: seq<seq<Check>>, r: nat)
    requires Histories(runs, hs) && r < |runs|
    ensures HasStampedGood(runs[r]) <==> LastPass(hs[r]) >= 0
    ensures HasStampedGood(runs[r]) ==>
              var c := hs[r][LastPass(hs[r])];
              runs[r].dir.good.value == Good(Shipped(c.found.files), c.found.now)
  {
    GoodIsLastPass(hs[r]);
  }

  /** Without a full-suite check, the delivered app is the one verified by the last passing check of its
      directory, and no directory's last passing check is later; of equally late ones it is the last
      directory by path. */
  lemma {:induction false} DeliversTheLastAccepted(
    runs: seq<RunDirView>, hs: seq<seq<Check>>, origin: nat, app: Files, r: nat)
    requires Histories(runs, hs) && origin < |runs| && IsDelivery(runs, origin, app) && NoFullSuite(hs)
    requires r < |hs| && LastPass(hs[r]) >= 0
    ensures var i, j := LastPass(hs[origin]), LastPass(hs[r]);
            && i >= 0 && app == SwappedIn(Shipped(hs[origin][i].found.files))
            && hs[r][j].found.now <= hs[origin][i].found.now
            && (hs[r][j].found.now == hs[origin][i].found.now ==> runs[r].rank <= runs[origin].rank)
  {
    NotScored(runs, hs);
    StampedIffPassed(runs, hs, r);
    assert SomeStamped(runs);
    StampedIffPassed(runs, hs, origin);
    assert GoodNotAbove(runs[r], runs[origin]);
  }

  /** Without a passing check either, it is the newest directory's workspace. */
  lemma {:induction false} DeliversTheNewest(runs: seq<RunDirView>, hs: seq<seq<Check>>, origin: nat, app: Files)
    requires Histories(runs, hs) && origin < |runs| && IsDelivery(runs, origin, app) && NoFullSuite(hs)
    requires forall r, k :: 0 <= r < |hs| && 0 <= k < |hs[r]| ==> hs[r][k].found.rc != 0
    ensures origin == |runs| - 1 && app == SwappedIn(runs[origin].workspace)
  {
    NotScored(runs, hs);
    forall r | 0 <= r < |runs| ensures !HasStampedGood(runs[r]) {
      StampedIffPassed(runs, hs, r);
    }
  }
}
