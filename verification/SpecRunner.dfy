/**
  `run_specs`: one test at a time, the seeded data restored before each of them, so
  that a test scores what the app does and not what an earlier test left behind.
*/
module SpecRunner {
  import opened Paths
  import opened Wrappers

  // ----- The app's mutable data -----

  const STORE_SUFFIXES := {".json", ".csv", ".db", ".sqlite", ".db-wal", ".db-shm", ".txt", ""}

  /** A backend data file. */
  predicate IsStore(p: Path) {
    && |p| >= 2 && p[0] == "backend" && "node_modules" !in p
    && var name := p[|p| - 1];
    && Suffix(name) in STORE_SUFFIXES
    && !("." <= name)
    && name != "package.json" && name != "package-lock.json"
  }

  /** A file of the backend, `below` being its directories, named `stem.ext`: data by its extension,
      unless it is hidden, installed, or a manifest. */
  lemma {:induction false} StoreByExtension(below: Path, stem: string, ext: string)
    requires stem != "" && ext != "" && '.' !in ext
    ensures var name := stem + "." + ext;
            IsStore(["backend"] + below + [name]) <==>
            && ext in {"json", "csv", "db", "sqlite", "db-wal", "db-shm", "txt"}
            && stem[0] != '.' && name !in {"node_modules", "package.json", "package-lock.json"} && "node_modules" !in below
  {
    var name := stem + "." + ext;
    var p := ["backend"] + below + [name];
    SuffixOfDotted(stem, ext);
    assert p[0] == "backend" && p[|p| - 1] == name;
    assert "node_modules" in p <==> "node_modules" in below || name == "node_modules";
    assert "." <= name <==> stem[0] == '.';
    StoreSuffix(ext);
  }

  lemma StoreSuffix(ext: string)
    requires ext != ""
    ensures "." + ext in STORE_SUFFIXES <==> ext in {"json", "csv", "db", "sqlite", "db-wal", "db-shm", "txt"}
  {
    assert ("." + ext)[1..] == ext;
    assert ".json"[1..] == "json" && ".csv"[1..] == "csv" && ".db"[1..] == "db" && ".sqlite"[1..] == "sqlite";
    assert ".db-wal"[1..] == "db-wal" && ".db-shm"[1..] == "db-shm" && ".txt"[1..] == "txt";
    assert "." + "json" == ".json" && "." + "csv" == ".csv" && "." + "db" == ".db" && "." + "sqlite" == ".sqlite";
    assert "." + "db-wal" == ".db-wal" && "." + "db-shm" == ".db-shm" && "." + "txt" == ".txt";
  }

  /** Without an extension it is data, unless it is hidden or installed. */
  lemma {:induction false} StoreWithoutExtension(below: Path, name: string)
    requires name != "" && '.' !in name
    ensures IsStore(["backend"] + below + [name]) <==> name != "node_modules" && "node_modules" !in below
    ensures !IsStore(["backend"] + below + ["." + name])
  {
    var p, q := ["backend"] + below + [name], ["backend"] + below + ["." + name];
    NoSuffix("", name);
    assert p[0] == "backend" && p[|p| - 1] == name && q[|q| - 1] == "." + name;
    assert "node_modules" in p <==> "node_modules" in below || name == "node_modules";
    assert name[0] in name && "package.json"[7] == '.' && "package-lock.json"[12] == '.';
  }

  /** Nothing outside the backend is data. */
  lemma {:induction false} StoresAreBackend(p: Path)
    requires IsStore(p)
    ensures |p| >= 2 && p[0] == "backend"
  {
  }

  function StorePart(files: Files): Files {
    map p | p in files && IsStore(p) :: files[p]
  }

  /** Everything else: the app's code. */
  function CodePart(files: Files): Files {
    map p | p in files && !IsStore(p) :: files[p]
  }

  function DropUnseeded(files: Files, seed: Files): Files {
    map p | p in files && (IsStore(p) ==> p in seed) :: files[p]
  }

  /** What precedes an isolated test: the seed written back, other data files deleted. */
  function Restore(files: Files, seed: Files): Files {
    DropUnseeded(files + seed, seed)
  }

  predicate IsSeed(seed: Files) {
    forall p :: p in seed ==> IsStore(p)
  }

  /** Whatever a test wrote, created or deleted, the next one finds exactly the seed. */
  lemma {:induction false} RestoreIsExact(files: Files, seed: Files)
    requires IsSeed(seed)
    ensures StorePart(Restore(files, seed)) == seed
  {
  }

  /** So as long as the code is untouched, the next test finds the whole app as it was. */
  lemma {:induction false} RestoreUndoes(files: Files, start: Files)
    requires CodePart(files) == CodePart(start)
    ensures Restore(files, StorePart(start)) == start
  {
    var r := Restore(files, StorePart(start));
    forall p ensures p in r <==> p in start {
      assert !IsStore(p) ==> (p in files <==> p in CodePart(files));
      assert !IsStore(p) ==> (p in start <==> p in CodePart(start));
    }
    forall p | p in start ensures r[p] == start[p] {
      if !IsStore(p) {
        assert CodePart(files)[p] == CodePart(start)[p];
      }
    }
  }

  /** Writing the seed back alone does that exactly when no test created a data file. */
  lemma {:induction false} WritingBackIsExactIff(files: Files, seed: Files)
    requires IsSeed(seed)
    ensures StorePart(files + seed) == seed <==> forall p :: p in files && IsStore(p) ==> p in seed
  {
  }

  class AppDir {
    var files: Files

    constructor (files: Files)
      ensures this.files == files
    {
      this.files := files;
    }

    /** `for path, data in seed.items(): path.write_bytes(data)`. */
    method WriteBack(seed: Files)
      modifies this
      ensures files == old(files) + seed
    {
      var todo := seed.Keys;
      while todo != {}
        invariant todo <= seed.Keys
        invariant files == old(files) + (seed - todo)
        decreases |todo|
      {
        var p :| p in todo;
        files := files[p := seed[p]];
        todo := todo - {p};
      }
      assert seed - {} == seed;
    }

    /** `drop_unseeded_stores`. */
    method DropUnseededStores(seed: Files)
      modifies this
      ensures files == DropUnseeded(old(files), seed)
    {
      var stores := set p | p in files && IsStore(p);
      UnlinkUnless(stores, seed);
    }

    /** Its loop, over the data files found. */
    method UnlinkUnless(stores: set<Path>, seed: Files)
      modifies this
      ensures files == old(files) - (stores - seed.Keys)
    {
      var todo := stores;
      while todo != {}
        invariant todo <= stores
        invariant files == old(files) - ((stores - todo) - seed.Keys)
        decreases |todo|
      {
        var p :| p in todo;
        if p !in seed {
          files := files - {p};
        }
        todo := todo - {p};
      }
    }
  }

  // ----- The loop -----

  /** One execution: exit code, tests passed, whether it reported a missing browser,
      and the files it leaves. */
  datatype TestRun = TestRun(rc: int, passed: nat, noBrowser: bool, after: Files)

  /** What the loop does not control: what a test does to given files with or without a
      browser, whether a browser install succeeds, whether the time budget is spent after
      so many tests, and what the rest does in one shared boot. */
  datatype World = World(
    run: (string, Files, bool) -> TestRun,
    install: nat -> bool,
    spent: nat -> bool,
    shared: (seq<string>, Files, bool) -> TestRun)

  /** The loop's variables. */
  datatype State = State(i: nat, rc: int, passed: nat, installTried: bool, browser: bool, files: Files)

  function Or(rc: int, trc: int): int {
    if rc != 0 then rc else trc
  }

  /** A failure for want of a browser that an install cures: the results are cleared. */
  predicate Resets(w: World, s: State, t: TestRun) {
    t.rc != 0 && !s.installTried && t.noBrowser && w.install(s.i)
  }

  function AfterTest(w: World, s: State, t: TestRun): State {
    if Resets(w, s, t) then State(s.i, 0, 0, true, true, t.after)
    else s.(i := s.i + 1, rc := Or(s.rc, t.rc), passed := s.passed + t.passed, files := t.after)
  }

  function OneTest(w: World, ids: seq<string>, seed: Files, s: State): State
    requires s.i < |ids|
  {
    AfterTest(w, s, w.run(ids[s.i], Restore(s.files, seed), s.browser))
  }

  /** The shared boot of the rest: the seed is written back, nothing is dropped, and
      its passes are not counted. */
  function Rest(w: World, ids: seq<string>, seed: Files, s: State): State
    requires s.i <= |ids|
  {
    var t := w.shared(ids[s.i..], s.files + seed, s.browser);
    s.(i := |ids|, rc := Or(s.rc, t.rc), files := t.after)
  }

  /** One pass of the loop; when the budget is spent the rest is run at once. */
  function Pass(w: World, ids: seq<string>, seed: Files, s: State): State
    requires s.i < |ids|
  {
    var s' := OneTest(w, ids, seed, s);
    if s'.i > s.i && s'.i < |ids| && w.spent(s'.i) then Rest(w, ids, seed, s') else s'
  }

  function Loop(w: World, ids: seq<string>, seed: Files, s: State): State
    requires s.i <= |ids|
    decreases |ids| - s.i, !s.installTried
  {
    if s.i == |ids| then s else Loop(w, ids, seed, Pass(w, ids, seed, s))
  }

  /** A whole run: the data files found at the start are the seed. */
  function RunFrom(w: World, ids: seq<string>, start: Files, browser: bool): State {
    Loop(w, ids, StorePart(start), State(0, 0, 0, false, browser, start))
  }

  /** One isolated test: the seed restored, then the test. */
  method RunIsolated(w: World, id: string, app: AppDir, seed: Files, browser: bool) returns (t: TestRun)
    modifies app
    ensures t == w.run(id, Restore(old(app.files), seed), browser) && app.files == t.after
  {
    app.WriteBack(seed);
    app.DropUnseededStores(seed);
    t := w.run(id, app.files, browser);
    app.files := t.after;
  }

  /** The rest in one boot. */
  method RunShared(w: World, ids: seq<string>, app: AppDir, seed: Files, browser: bool) returns (t: TestRun)
    modifies app
    ensures t == w.shared(ids, old(app.files) + seed, browser) && app.files == t.after
  {
    app.WriteBack(seed);
    t := w.shared(ids, app.files, browser);
    app.files := t.after;
  }

  /** The body of the loop, on its variables. */
  method RunPass(w: World, ids: seq<string>, app: AppDir, seed: Files, s: State) returns (s': State)
    requires s.i < |ids| && s.files == app.files
    modifies app
    ensures s' == Pass(w, ids, seed, s) && s'.files == app.files
  {
    var t := RunIsolated(w, ids[s.i], app, seed, s.browser);
    if t.rc != 0 && !s.installTried && t.noBrowser && w.install(s.i) {
      s' := State(s.i, 0, 0, true, true, app.files);
    } else {
      s' := State(s.i + 1, Or(s.rc, t.rc), s.passed + t.passed, s.installTried, s.browser, app.files);
      if s'.i < |ids| && w.spent(s'.i) {
        t := RunShared(w, ids[s'.i..], app, seed, s.browser);
        s' := s'.(i := |ids|, rc := Or(s'.rc, t.rc), files := app.files);
      }
    }
  }

  /** The enumerated path of `run_specs`. */
  method RunSpecs(w: World, ids: seq<string>, app: AppDir, hasBrowser: bool) returns (rc: int, passed: nat)
    modifies app
    ensures var s := RunFrom(w, ids, old(app.files), hasBrowser);
            rc == s.rc && passed == s.passed && app.files == s.files
  {
    var seed := StorePart(app.files);
    var s := State(0, 0, 0, false, hasBrowser, app.files);
    while s.i < |ids|
      invariant s.i <= |ids| && s.files == app.files
      invariant Loop(w, ids, seed, s) == RunFrom(w, ids, old(app.files), hasBrowser)
      decreases |ids| - s.i, !s.installTried
    {
      s := RunPass(w, ids, app, seed, s);
    }
    rc, passed := s.rc, s.passed;
  }

  // ----- Isolation -----

  /** A test may write, create or delete data files and nothing else. */
  ghost predicate WritesDataOnly(w: World) {
    forall id, f, b :: CodePart(w.run(id, f, b).after) == CodePart(f)
  }

  predicate NeverSpent(w: World, ids: seq<string>) {
    forall i :: 0 <= i <= |ids| ==> !w.spent(i)
  }

  /** The exit code of running each test alone on the app as it was. */
  function AloneRc(w: World, ids: seq<string>, start: Files, browser: bool): int {
    if ids == [] then 0
    else Or(w.run(ids[0], start, browser).rc, AloneRc(w, ids[1..], start, browser))
  }

  /** How many tests pass that way. */
  function AlonePassed(w: World, ids: seq<string>, start: Files, browser: bool): nat {
    if ids == [] then 0
    else w.run(ids[0], start, browser).passed + AlonePassed(w, ids[1..], start, browser)
  }

  predicate NeedsBrowser(t: TestRun) {
    t.rc != 0 && t.noBrowser
  }

  /** The reset fires at this test. */
  predicate FiresAt(w: World, ids: seq<string>, start: Files, browser: bool, i: nat)
    requires i < |ids|
  {
    NeedsBrowser(w.run(ids[i], start, browser)) && w.install(i)
  }

  /** The first test from `i` on at which the reset fires, |ids| if it never does. */
  function ResetPoint(w: World, ids: seq<string>, start: Files, browser: bool, i: nat): (r: nat)
    requires i <= |ids|
    ensures i <= r <= |ids|
    ensures r < |ids| ==> FiresAt(w, ids, start, browser, r)
    ensures forall k :: i <= k < r ==> !FiresAt(w, ids, start, browser, k)
    decreases |ids| - i
  {
    if i == |ids| || FiresAt(w, ids, start, browser, i) then i else ResetPoint(w, ids, start, browser, i + 1)
  }

  lemma AloneStep(w: World, ids: seq<string>, start: Files, browser: bool, i: nat)
    requires i < |ids|
    ensures AloneRc(w, ids[i..], start, browser) ==
            Or(w.run(ids[i], start, browser).rc, AloneRc(w, ids[i + 1..], start, browser))
    ensures AlonePassed(w, ids[i..], start, browser) ==
            w.run(ids[i], start, browser).passed + AlonePassed(w, ids[i + 1..], start, browser)
  {
  }

  /** Each pass of the loop runs its test on the app as it was at the start. */
  lemma OneTestAlone(w: World, ids: seq<string>, start: Files, s: State)
    requires WritesDataOnly(w) && CodePart(s.files) == CodePart(start) && s.i < |ids|
    ensures OneTest(w, ids, StorePart(start), s) == AfterTest(w, s, w.run(ids[s.i], start, s.browser))
    ensures CodePart(OneTest(w, ids, StorePart(start), s).files) == CodePart(start)
  {
    RestoreUndoes(s.files, start);
  }

  /** From a point where no reset lies ahead, the loop adds up the isolated outcomes. */
  lemma {:induction false} LoopWithoutReset(w: World, ids: seq<string>, start: Files, s: State)
    requires WritesDataOnly(w) && NeverSpent(w, ids) && s.i <= |ids| && CodePart(s.files) == CodePart(start)
    requires s.installTried || forall k :: s.i <= k < |ids| ==> !FiresAt(w, ids, start, s.browser, k)
    ensures var e := Loop(w, ids, StorePart(start), s);
            && e.rc == Or(s.rc, AloneRc(w, ids[s.i..], start, s.browser))
            && e.passed == s.passed + AlonePassed(w, ids[s.i..], start, s.browser)
    decreases |ids| - s.i
  {
    if s.i < |ids| {
      OneTestAlone(w, ids, start, s);
      assert s.installTried || !FiresAt(w, ids, start, s.browser, s.i);
      AloneStep(w, ids, start, s.browser, s.i);
      LoopWithoutReset(w, ids, start, OneTest(w, ids, StorePart(start), s));
    }
  }

  lemma {:induction false} LoopUpToReset(w: World, ids: seq<string>, start: Files, s: State)
    requires WritesDataOnly(w) && NeverSpent(w, ids) && s.i <= |ids| && CodePart(s.files) == CodePart(start)
    requires !s.installTried && ResetPoint(w, ids, start, s.browser, s.i) < |ids|
    ensures var e, r := Loop(w, ids, StorePart(start), s), ResetPoint(w, ids, start, s.browser, s.i);
            && e.rc == AloneRc(w, ids[r..], start, true)
            && e.passed == AlonePassed(w, ids[r..], start, true)
    decreases |ids| - s.i
  {
    OneTestAlone(w, ids, start, s);
    var s' := OneTest(w, ids, StorePart(start), s);
    if FiresAt(w, ids, start, s.browser, s.i) {
      LoopWithoutReset(w, ids, start, s');
    } else {
      LoopUpToReset(w, ids, start, s');
    }
  }

  /** The first test of `run_specs` whose result counts, and the browser state from there on. */
  function CountsFrom(w: World, ids: seq<string>, start: Files, browser: bool): (r: (nat, bool))
    ensures r.0 <= |ids|
  {
    var r := ResetPoint(w, ids, start, browser, 0);
    if r < |ids| then (r, true) else (0, browser)
  }

  /** With the budget not spent, the verdict and the total are those of running each
      test alone on the app as it was, counted from the reset on, or from the first
      test when no reset fires. */
  lemma {:induction false} RunIsIsolated(w: World, ids: seq<string>, start: Files, browser: bool)
    requires WritesDataOnly(w) && NeverSpent(w, ids)
    ensures var (r, b) := CountsFrom(w, ids, start, browser);
            && RunFrom(w, ids, start, browser).rc == AloneRc(w, ids[r..], start, b)
            && RunFrom(w, ids, start, browser).passed == AlonePassed(w, ids[r..], start, b)
  {
    var s := State(0, 0, 0, false, browser, start);
    assert ids[0..] == ids;
    if ResetPoint(w, ids, start, browser, 0) < |ids| {
      LoopUpToReset(w, ids, start, s);
    } else {
      LoopWithoutReset(w, ids, start, s);
    }
  }

  /** The budget is spent for the first time once `k` tests have been run, some being left. */
  predicate SpentAfter(w: World, ids: seq<string>, k: nat) {
    0 < k < |ids| && w.spent(k) && forall i :: 0 < i < k ==> !w.spent(i)
  }

  /** The run of the rest in one boot, on what test `k - 1` left and the seed written over it. */
  function SharedRest(w: World, ids: seq<string>, start: Files, browser: bool, k: nat): TestRun
    requires 0 < k <= |ids|
  {
    w.shared(ids[k..], w.run(ids[k - 1], start, browser).after + StorePart(start), browser)
  }

  lemma {:induction false} SpentWithoutReset(w: World, ids: seq<string>, start: Files, s: State, k: nat)
    requires WritesDataOnly(w) && CodePart(s.files) == CodePart(start)
    requires s.i < k && SpentAfter(w, ids, k)
    requires s.installTried || forall i :: s.i <= i < k ==> !FiresAt(w, ids, start, s.browser, i)
    ensures var e, t := Loop(w, ids, StorePart(start), s), SharedRest(w, ids, start, s.browser, k);
            && e.rc == Or(Or(s.rc, AloneRc(w, ids[s.i..k], start, s.browser)), t.rc)
            && e.passed == s.passed + AlonePassed(w, ids[s.i..k], start, s.browser)
            && e.files == t.after
    decreases k - s.i
  {
    OneTestAlone(w, ids, start, s);
    assert s.installTried || !FiresAt(w, ids, start, s.browser, s.i);
    var s' := OneTest(w, ids, StorePart(start), s);
    assert ids[..k][s.i..] == ids[s.i..k] && ids[..k][s.i + 1..] == ids[s.i + 1..k];
    AloneStep(w, ids[..k], start, s.browser, s.i);
    if s.i + 1 < k {
      SpentWithoutReset(w, ids, start, s', k);
    } else {
      assert ids[s.i + 1..k] == [];
      assert Loop(w, ids, StorePart(start), s) == Rest(w, ids, StorePart(start), s');
    }
  }

  lemma {:induction false} SpentUpToReset(w: World, ids: seq<string>, start: Files, s: State, k: nat)
    requires WritesDataOnly(w) && CodePart(s.files) == CodePart(start)
    requires s.i < k && SpentAfter(w, ids, k)
    requires !s.installTried && ResetPoint(w, ids, start, s.browser, s.i) < k
    ensures var e, t := Loop(w, ids, StorePart(start), s), SharedRest(w, ids, start, true, k);
            var r := ResetPoint(w, ids, start, s.browser, s.i);
            && e.rc == Or(AloneRc(w, ids[r..k], start, true), t.rc)
            && e.passed == AlonePassed(w, ids[r..k], start, true)
    decreases k - s.i
  {
    OneTestAlone(w, ids, start, s);
    var s' := OneTest(w, ids, StorePart(start), s);
    if FiresAt(w, ids, start, s.browser, s.i) {
      SpentWithoutReset(w, ids, start, s', k);
    } else {
      SpentUpToReset(w, ids, start, s', k);
    }
  }

  /** The first test that counts when the budget runs out after `k` tests, and the browser state from
      there on. */
  function SpentCountsFrom(w: World, ids: seq<string>, start: Files, browser: bool, k: nat): (r: (nat, bool))
    requires 0 < k <= |ids|
    ensures r.0 < k
  {
    var r := ResetPoint(w, ids, start, browser, 0);
    if r < k then (r, true) else (0, browser)
  }

  /** When the budget runs out after `k` tests, the total is that of those tests alone, counted from the
      reset on, and the verdict is theirs or else that of the rest, run in one boot. */
  lemma {:induction false} SpentRunIsExact(w: World, ids: seq<string>, start: Files, browser: bool, k: nat)
    requires WritesDataOnly(w) && SpentAfter(w, ids, k)
    ensures var (r, b) := SpentCountsFrom(w, ids, start, browser, k);
            var e := RunFrom(w, ids, start, browser);
            && e.rc == Or(AloneRc(w, ids[r..k], start, b), SharedRest(w, ids, start, b, k).rc)
            && e.passed == AlonePassed(w, ids[r..k], start, b)
  {
    var s := State(0, 0, 0, false, browser, start);
    if ResetPoint(w, ids, start, browser, 0) < k {
      SpentUpToReset(w, ids, start, s, k);
    } else {
      SpentWithoutReset(w, ids, start, s, k);
    }
  }

  // ----- What the reset costs -----

  predicate AllPassAlone(w: World, ids: seq<string>, start: Files, browser: bool) {
    forall id :: id in ids ==> w.run(id, start, browser).rc == 0
  }

  lemma {:induction false} AloneRcZero(w: World, ids: seq<string>, start: Files, browser: bool)
    ensures AloneRc(w, ids, start, browser) == 0 <==> AllPassAlone(w, ids, start, browser)
  {
    if ids != [] {
      AloneRcZero(w, ids[1..], start, browser);
      assert forall id :: id in ids <==> id == ids[0] || id in ids[1..];
    }
  }

  /** The exit code is that of the first test that fails. */
  lemma {:induction false} AloneRcIsFirstFailure(w: World, ids: seq<string>, start: Files, browser: bool, k: nat)
    requires k < |ids| && w.run(ids[k], start, browser).rc != 0
    requires forall i :: 0 <= i < k ==> w.run(ids[i], start, browser).rc == 0
    ensures AloneRc(w, ids, start, browser) == w.run(ids[k], start, browser).rc
  {
    if k > 0 {
      AloneRcIsFirstFailure(w, ids[1..], start, browser, k - 1);
    }
  }

  /** The total is the passes each test reports, whether the test fails or not, added up one by one. */
  lemma {:induction false} AlonePassedSplits(w: World, a: seq<string>, id: string, b: seq<string>, start: Files, browser: bool)
    ensures AlonePassed(w, a + [id] + b, start, browser) ==
            AlonePassed(w, a, start, browser) + w.run(id, start, browser).passed + AlonePassed(w, b, start, browser)
  {
    AlonePassedConcat(w, a + [id], b, start, browser);
    AlonePassedConcat(w, a, [id], start, browser);
    assert [id][1..] == [];
  }

  /** Tests that pass never clear anything, whatever they print. */
  lemma {:induction false} PassingTestsNeverReset(w: World, ids: seq<string>, start: Files, browser: bool)
    requires AllPassAlone(w, ids, start, browser)
    ensures CountsFrom(w, ids, start, browser) == (0, browser)
  {
    forall k | 0 <= k < |ids| ensures !FiresAt(w, ids, start, browser, k) {
      assert ids[k] in ids;
    }
  }

  /** So its verdict is zero if and only if those tests pass alone and the rest exits zero. */
  lemma {:induction false} SpentRunPassesIff(w: World, ids: seq<string>, start: Files, browser: bool, k: nat)
    requires WritesDataOnly(w) && SpentAfter(w, ids, k)
    ensures var (r, b) := SpentCountsFrom(w, ids, start, browser, k);
            RunFrom(w, ids, start, browser).rc == 0 <==>
            AllPassAlone(w, ids[r..k], start, b) && SharedRest(w, ids, start, b, k).rc == 0
  {
    var (r, b) := SpentCountsFrom(w, ids, start, browser, k);
    SpentRunIsExact(w, ids, start, browser, k);
    AloneRcZero(w, ids[r..k], start, b);
  }

  lemma {:induction false} AlonePassedConcat(w: World, a: seq<string>, b: seq<string>, start: Files, browser: bool)
    ensures AlonePassed(w, a + b, start, browser) ==
            AlonePassed(w, a, start, browser) + AlonePassed(w, b, start, browser)
  {
    if a == [] {
      assert a + b == b;
    } else {
      assert (a + b)[1..] == a[1..] + b;
      AlonePassedConcat(w, a[1..], b, start, browser);
    }
  }

  ghost predicate VerdictIsRight(w: World, ids: seq<string>, start: Files, browser: bool) {
    RunFrom(w, ids, start, browser).rc == 0 <==>
      AllPassAlone(w, ids, start, CountsFrom(w, ids, start, browser).1)
  }

  ghost predicate TotalIsRight(w: World, ids: seq<string>, start: Files, browser: bool) {
    RunFrom(w, ids, start, browser).passed == AlonePassed(w, ids, start, CountsFrom(w, ids, start, browser).1)
  }

  /** A run in which the results are cleared at test `r`, for good at |ids|. */
  ghost predicate ResetsAt(w: World, ids: seq<string>, start: Files, browser: bool, r: nat) {
    WritesDataOnly(w) && NeverSpent(w, ids) && ResetPoint(w, ids, start, browser, 0) == r
  }

  /** A reset at `r` never costs the verdict, whatever the tests do. */
  ghost predicate KeepsVerdict(ids: seq<string>, r: nat) {
    forall w, start, browser :: ResetsAt(w, ids, start, browser, r) ==> VerdictIsRight(w, ids, start, browser)
  }

  ghost predicate KeepsTotal(ids: seq<string>, r: nat) {
    forall w, start, browser :: ResetsAt(w, ids, start, browser, r) ==> TotalIsRight(w, ids, start, browser)
  }

  /** Every cleared test is run again. */
  predicate AllRunAgain(ids: seq<string>, r: nat)
    requires r <= |ids|
  {
    forall i :: 0 <= i < r ==> ids[i] in ids[r..]
  }

  lemma RunAgainKeepsVerdict(w: World, ids: seq<string>, start: Files, browser: bool, r: nat)
    requires r < |ids| && ResetsAt(w, ids, start, browser, r) && AllRunAgain(ids, r)
    ensures VerdictIsRight(w, ids, start, browser)
  {
    RunIsIsolated(w, ids, start, browser);
    AloneRcZero(w, ids[r..], start, true);
    assert forall id :: id in ids <==> id in ids[r..];
  }

  lemma NoResetIsRight(w: World, ids: seq<string>, start: Files, browser: bool)
    requires WritesDataOnly(w) && NeverSpent(w, ids) && CountsFrom(w, ids, start, browser).0 == 0
    ensures VerdictIsRight(w, ids, start, browser) && TotalIsRight(w, ids, start, browser)
  {
    RunIsIsolated(w, ids, start, browser);
    assert ids[0..] == ids;
    AloneRcZero(w, ids, start, CountsFrom(w, ids, start, browser).1);
  }

  /** Test `late` needs a browser, `bad` fails with or without one, and every test passes one
      assertion. An install succeeds at `r` only. */
  function LateReset(r: nat, late: string, bad: Option<string>): World {
    World((id: string, f: Files, b: bool) =>
            TestRun(if (id == late && !b) || bad == Some(id) then 1 else 0, 1, id == late, f),
          (i: nat) => i == r, (i: nat) => false, (ids: seq<string>, f: Files, b: bool) => TestRun(0, 0, false, f))
  }

  lemma LateResetResetsAt(ids: seq<string>, r: nat, bad: Option<string>)
    requires r < |ids| && bad != Some(ids[r])
    ensures ResetsAt(LateReset(r, ids[r], bad), ids, map[], false, r)
  {
    var w := LateReset(r, ids[r], bad);
    assert FiresAt(w, ids, map[], false, r);
    assert forall k :: 0 <= k < r ==> !FiresAt(w, ids, map[], false, k);
  }

  lemma LateResetLosesVerdict(ids: seq<string>, r: nat, i: nat)
    requires i < r < |ids| && ids[i] !in ids[r..]
    ensures !KeepsVerdict(ids, r)
  {
    assert ids[r] in ids[r..];
    var w := LateReset(r, ids[r], Some(ids[i]));
    LateResetResetsAt(ids, r, Some(ids[i]));
    RunIsIsolated(w, ids, map[], false);
    AloneRcZero(w, ids[r..], map[], true);
    assert ids[i] in ids && w.run(ids[i], map[], true).rc == 1;
    assert !VerdictIsRight(w, ids, map[], false);
  }

  lemma {:induction false} LateResetTotal(r: nat, late: string, ids: seq<string>)
    ensures AlonePassed(LateReset(r, late, None), ids, map[], true) == |ids|
  {
    if ids != [] {
      LateResetTotal(r, late, ids[1..]);
    }
  }

  lemma LateResetLosesTotal(ids: seq<string>, r: nat)
    requires 0 < r < |ids|
    ensures !KeepsTotal(ids, r)
  {
    var w := LateReset(r, ids[r], None);
    LateResetResetsAt(ids, r, None);
    RunIsIsolated(w, ids, map[], false);
    LateResetTotal(r, ids[r], ids);
    LateResetTotal(r, ids[r], ids[r..]);
    assert !TotalIsRight(w, ids, map[], false);
  }

  /** Whatever the tests do, a reset at `r` leaves the verdict right if and only if every test
      before `r` is listed again from `r` on, and the total right if and only if there is none
      before `r`. At |ids| there is no reset. */
  lemma {:induction false} ResetIsHarmlessIff(ids: seq<string>, r: nat)
    requires r <= |ids|
    ensures KeepsVerdict(ids, r) <==> r == |ids| || AllRunAgain(ids, r)
    ensures KeepsTotal(ids, r) <==> r == |ids| || r == 0
  {
    forall w, start, browser | ResetsAt(w, ids, start, browser, r) && (r == |ids| || r == 0)
      ensures VerdictIsRight(w, ids, start, browser) && TotalIsRight(w, ids, start, browser) {
      NoResetIsRight(w, ids, start, browser);
    }
    forall w, start, browser | ResetsAt(w, ids, start, browser, r) && r < |ids| && AllRunAgain(ids, r)
      ensures VerdictIsRight(w, ids, start, browser) {
      RunAgainKeepsVerdict(w, ids, start, browser, r);
    }
    forall i | r < |ids| && 0 <= i < r && ids[i] !in ids[r..] ensures !KeepsVerdict(ids, r) {
      LateResetLosesVerdict(ids, r, i);
    }
    if 0 < r < |ids| {
      LateResetLosesTotal(ids, r);
    }
  }

  /** The enumeration lists each test once, so any reset after the first test can cost the verdict. */
  lemma {:induction false} LateResetIsHarmful(ids: seq<string>, r: nat)
    requires r < |ids| && forall i, j :: 0 <= i < j < |ids| ==> ids[i] != ids[j]
    ensures KeepsVerdict(ids, r) <==> r == 0
  {
    ResetIsHarmlessIff(ids, r);
    assert 0 < r ==> ids[0] !in ids[r..];
  }

  /** Test `a` fails whatever happens; the others fail for want of a browser only. */
  function FirstFails(): World {
    World((id: string, f: Files, b: bool) => TestRun(if id == "a" || !b then 1 else 0, 0, id != "a" && !b, f),
          (i: nat) => true, (i: nat) => false, (ids: seq<string>, f: Files, b: bool) => TestRun(0, 0, false, f))
  }

  /** A failing first test goes unnoticed when the second one triggers the install. */
  lemma {:induction false} ResetHidesAFailure(start: Files)
    ensures var w, ids := FirstFails(), ["a", "b"];
            && WritesDataOnly(w) && NeverSpent(w, ids)
            && !AllPassAlone(w, ids, start, true)
            && RunFrom(w, ids, start, false).rc == 0
  {
    var w, ids := FirstFails(), ["a", "b"];
    assert "a" in ids && w.run("a", start, true).rc == 1;
    assert !FiresAt(w, ids, start, false, 0) && FiresAt(w, ids, start, false, 1);
    assert ResetPoint(w, ids, start, false, 0) == 1;
    RunIsIsolated(w, ids, start, false);
    assert ids[1..] == ["b"];
    AloneRcZero(w, ["b"], start, true);
  }

  // ----- Order does not matter -----

  /** No test asks for a browser, or no install succeeds, or every test asks for one and the
      first install succeeds. */
  predicate BrowserSettled(w: World, ids: seq<string>, start: Files, browser: bool) {
    || (forall id :: id in ids ==> !NeedsBrowser(w.run(id, start, browser)))
    || (forall i :: 0 <= i < |ids| ==> !w.install(i))
    || (w.install(0) && AllNeedBrowser(w, ids, start, browser))
  }

  predicate AllNeedBrowser(w: World, ids: seq<string>, start: Files, browser: bool) {
    forall id :: id in ids ==> NeedsBrowser(w.run(id, start, browser))
  }

  lemma SettledCount(w: World, ids: seq<string>, start: Files, browser: bool)
    requires BrowserSettled(w, ids, start, browser) && ids != []
    ensures CountsFrom(w, ids, start, browser) ==
            (0, browser || (w.install(0) && AllNeedBrowser(w, ids, start, browser)))
  {
    assert ids[0] in ids;
  }

  lemma SettledPermuted(w: World, ids: seq<string>, ids': seq<string>, start: Files, browser: bool)
    requires BrowserSettled(w, ids, start, browser) && multiset(ids) == multiset(ids')
    ensures BrowserSettled(w, ids', start, browser)
    ensures AllNeedBrowser(w, ids, start, browser) == AllNeedBrowser(w, ids', start, browser)
  {
    SameMembers(ids, ids');
  }

  /** Then every test counts, and whether a browser gets installed does not depend on the order. */
  lemma SettledCountsAll(w: World, ids: seq<string>, ids': seq<string>, start: Files, browser: bool)
    requires BrowserSettled(w, ids, start, browser) && multiset(ids) == multiset(ids')
    ensures CountsFrom(w, ids, start, browser) == CountsFrom(w, ids', start, browser)
    ensures CountsFrom(w, ids, start, browser).0 == 0
  {
    SameMembers(ids, ids');
    SettledPermuted(w, ids, ids', start, browser);
    if ids != [] {
      SettledCount(w, ids, start, browser);
      SettledCount(w, ids', start, browser);
    }
  }

  lemma RemovedMultiset(ids: seq<string>, i: nat)
    requires i < |ids|
    ensures multiset(ids[..i] + ids[i + 1..]) == multiset(ids) - multiset{ids[i]}
  {
    assert ids == ids[..i] + [ids[i]] + ids[i + 1..];
  }

  lemma AlonePassedRemoved(w: World, ids: seq<string>, start: Files, browser: bool, i: nat)
    requires i < |ids|
    ensures AlonePassed(w, ids, start, browser) ==
            w.run(ids[i], start, browser).passed + AlonePassed(w, ids[..i] + ids[i + 1..], start, browser)
  {
    assert ids == ids[..i] + ids[i..];
    AlonePassedConcat(w, ids[..i], ids[i..], start, browser);
    AlonePassedConcat(w, ids[..i], ids[i + 1..], start, browser);
    AloneStep(w, ids, start, browser, i);
  }

  lemma FirstMultiset(ids: seq<string>)
    requires ids != []
    ensures multiset(ids[1..]) == multiset(ids) - multiset{ids[0]}
  {
    assert ids == [ids[0]] + ids[1..];
  }

  lemma FindFirst(ids: seq<string>, ids': seq<string>) returns (i: nat)
    requires ids != [] && multiset(ids) == multiset(ids')
    ensures i < |ids'| && ids'[i] == ids[0]
    ensures multiset(ids[1..]) == multiset(ids'[..i] + ids'[i + 1..])
  {
    SameMembers(ids, ids');
    assert ids[0] in ids;
    i :| 0 <= i < |ids'| && ids'[i] == ids[0];
    FirstMultiset(ids);
    RemovedMultiset(ids', i);
  }

  lemma {:induction false} AlonePassedPermuted(w: World, ids: seq<string>, ids': seq<string>, start: Files, browser: bool)
    requires multiset(ids) == multiset(ids')
    ensures AlonePassed(w, ids, start, browser) == AlonePassed(w, ids', start, browser)
    decreases |ids|
  {
    if ids == [] {
      assert |ids'| == |multiset(ids')| == 0;
    } else {
      var i := FindFirst(ids, ids');
      AlonePassedPermuted(w, ids[1..], ids'[..i] + ids'[i + 1..], start, browser);
      AlonePassedRemoved(w, ids', start, browser, i);
    }
  }

  lemma SameMembers(ids: seq<string>, ids': seq<string>)
    requires multiset(ids) == multiset(ids')
    ensures forall id :: id in ids <==> id in ids'
    ensures |ids| == |ids'|
  {
    assert forall id :: id in ids <==> id in multiset(ids);
    assert forall id :: id in ids' <==> id in multiset(ids');
    assert |ids| == |multiset(ids)| && |ids'| == |multiset(ids')|;
  }

  /** The zero/non-zero verdict and the total do not depend on the order of the tests, when
      both orders count every test with the same browser. */
  lemma {:induction false} OrderDoesNotMatter(w: World, ids: seq<string>, ids': seq<string>, start: Files, browser: bool)
    requires WritesDataOnly(w) && NeverSpent(w, ids) && multiset(ids) == multiset(ids')
    requires CountsFrom(w, ids, start, browser) == CountsFrom(w, ids', start, browser)
    requires CountsFrom(w, ids, start, browser).0 == 0
    ensures var e, e' := RunFrom(w, ids, start, browser), RunFrom(w, ids', start, browser);
            (e.rc == 0 <==> e'.rc == 0) && e.passed == e'.passed
  {
    SameMembers(ids, ids');
    var b := CountsFrom(w, ids, start, browser).1;
    NoResetIsRight(w, ids, start, browser);
    NoResetIsRight(w, ids', start, browser);
    AlonePassedPermuted(w, ids, ids', start, b);
  }

  /** In particular when the browser is settled, a condition on the tests and not on their order. */
  lemma {:induction false} SettledOrderDoesNotMatter(w: World, ids: seq<string>, ids': seq<string>, start: Files,
                                                     browser: bool)
    requires WritesDataOnly(w) && NeverSpent(w, ids) && multiset(ids) == multiset(ids')
    requires BrowserSettled(w, ids, start, browser)
    ensures var e, e' := RunFrom(w, ids, start, browser), RunFrom(w, ids', start, browser);
            (e.rc == 0 <==> e'.rc == 0) && e.passed == e'.passed
  {
    SettledCountsAll(w, ids, ids', start, browser);
    OrderDoesNotMatter(w, ids, ids', start, browser);
  }

  // ----- Exactly when order cannot matter -----

  /** A run in which every install succeeds and exactly the tests of `needy` ask for a browser. */
  ghost predicate Asks(w: World, ids: seq<string>, start: Files, browser: bool, needy: set<string>) {
    && WritesDataOnly(w) && NeverSpent(w, ids) && (forall i :: w.install(i))
    && forall id :: id in ids ==> (NeedsBrowser(w.run(id, start, browser)) <==> id in needy)
  }

  predicate SameResult(e: State, e': State) {
    (e.rc == 0 <==> e'.rc == 0) && e.passed == e'.passed
  }

  /** Whatever the tests do besides asking for a browser, every order gives the same result. */
  ghost predicate OrderNeverMatters(ids: seq<string>, needy: set<string>) {
    forall w, ids', start, browser ::
      Asks(w, ids, start, browser, needy) && multiset(ids) == multiset(ids') ==>
        SameResult(RunFrom(w, ids, start, browser), RunFrom(w, ids', start, browser))
  }

  predicate NoneIn(ids: seq<string>, s: set<string>) {
    forall id :: id in ids ==> id !in s
  }

  predicate AllIn(ids: seq<string>, s: set<string>) {
    forall id :: id in ids ==> id in s
  }

  /** The tests in a set, or those outside it. */
  function Select(ids: seq<string>, s: set<string>, inside: bool): (r: seq<string>)
    ensures forall id :: id in r <==> id in ids && (id in s <==> inside)
  {
    if ids == [] then []
    else Select(ids[..|ids| - 1], s, inside)
         + (if ids[|ids| - 1] in s <==> inside then [ids[|ids| - 1]] else [])
  }

  lemma SelectOneMore(front: seq<string>, id: string, s: set<string>, inside: bool)
    ensures multiset(Select(front + [id], s, inside)) ==
            multiset(Select(front, s, inside)) + (if id in s <==> inside then multiset{id} else multiset{})
  {
    assert (front + [id])[..|front|] == front;
  }

  lemma AddToOne(a: multiset<string>, b: multiset<string>, all: multiset<string>, x: multiset<string>)
    requires a + b == all
    ensures (a + x) + b == all + x && a + (b + x) == all + x
  {
  }

  lemma {:induction false} SelectSplits(ids: seq<string>, s: set<string>)
    ensures multiset(Select(ids, s, true)) + multiset(Select(ids, s, false)) == multiset(ids)
  {
    if ids != [] {
      var front, id := ids[..|ids| - 1], ids[|ids| - 1];
      assert ids == front + [id];
      SelectSplits(front, s);
      SelectOneMore(front, id, s, true);
      SelectOneMore(front, id, s, false);
      AddToOne(multiset(Select(front, s, true)), multiset(Select(front, s, false)), multiset(front), multiset{id});
    }
  }

  /** The tests of `needy` fail for want of a browser only, all others whatever happens. */
  function OthersFail(needy: set<string>): World {
    World((id: string, f: Files, b: bool) => TestRun(if id in needy && b then 0 else 1, 0, id in needy, f),
          (i: nat) => true, (i: nat) => false, (ids: seq<string>, f: Files, b: bool) => TestRun(0, 0, false, f))
  }

  /** With all the failing tests before the others, the reset clears them. */
  lemma OthersFirst(bad: seq<string>, good: seq<string>, needy: set<string>)
    requires good != [] && NoneIn(bad, needy) && AllIn(good, needy)
    ensures RunFrom(OthersFail(needy), bad + good, map[], false).rc == 0
  {
    var w, ids := OthersFail(needy), bad + good;
    assert forall k :: 0 <= k < |bad| ==> ids[k] in bad;
    assert ids[|bad|] == good[0] && good[0] in good;
    assert FiresAt(w, ids, map[], false, |bad|);
    assert forall k :: 0 <= k < |bad| ==> !FiresAt(w, ids, map[], false, k);
    assert ResetPoint(w, ids, map[], false, 0) == |bad|;
    RunIsIsolated(w, ids, map[], false);
    assert ids[|bad|..] == good;
    AloneRcZero(w, good, map[], true);
  }

  lemma OthersLast(bad: seq<string>, good: seq<string>, needy: set<string>)
    requires good != [] && bad != [] && NoneIn(bad, needy) && AllIn(good, needy)
    ensures RunFrom(OthersFail(needy), good + bad, map[], false).rc != 0
  {
    var w, ids := OthersFail(needy), good + bad;
    assert ids[0] == good[0] && good[0] in good;
    assert FiresAt(w, ids, map[], false, 0);
    RunIsIsolated(w, ids, map[], false);
    assert ids[0..] == ids && bad[0] in bad && bad[0] in ids;
    AloneRcZero(w, ids, map[], true);
    assert w.run(bad[0], map[], true).rc != 0;
  }

  lemma OthersAsk(ids: seq<string>, needy: set<string>)
    ensures Asks(OthersFail(needy), ids, map[], false, needy)
  {
  }

  /** Two orders with different verdicts: one of them differs from the given order. */
  lemma TwoVerdicts(w: World, ids: seq<string>, p: seq<string>, q: seq<string>, needy: set<string>)
    requires Asks(w, ids, map[], false, needy) && multiset(p) == multiset(ids) == multiset(q)
    requires RunFrom(w, p, map[], false).rc == 0 && RunFrom(w, q, map[], false).rc != 0
    ensures !OrderNeverMatters(ids, needy)
  {
    var e := RunFrom(w, ids, map[], false);
    assert e.rc == 0 ==> !SameResult(e, RunFrom(w, q, map[], false));
    assert e.rc != 0 ==> !SameResult(e, RunFrom(w, p, map[], false));
  }

  lemma MixedOrderMatters(ids: seq<string>, needy: set<string>)
    requires !NoneIn(ids, needy) && !AllIn(ids, needy)
    ensures !OrderNeverMatters(ids, needy)
  {
    var bad, good := Select(ids, needy, false), Select(ids, needy, true);
    var a :| a in ids && a in needy;
    var b :| b in ids && b !in needy;
    assert a in good && b in bad;
    SelectSplits(ids, needy);
    OthersFirst(bad, good, needy);
    OthersLast(bad, good, needy);
    OthersAsk(ids, needy);
    TwoVerdicts(OthersFail(needy), ids, bad + good, good + bad, needy);
  }

  /** Where installs succeed, order cannot matter if and only if no test or every test asks for a
      browser. */
  lemma {:induction false} OrderNeverMattersIff(ids: seq<string>, needy: set<string>)
    ensures OrderNeverMatters(ids, needy) <==> NoneIn(ids, needy) || AllIn(ids, needy)
  {
    if NoneIn(ids, needy) || AllIn(ids, needy) {
      forall w, ids', start, browser | Asks(w, ids, start, browser, needy) && multiset(ids) == multiset(ids')
        ensures SameResult(RunFrom(w, ids, start, browser), RunFrom(w, ids', start, browser)) {
        SettledOrderDoesNotMatter(w, ids, ids', start, browser);
      }
    } else {
      MixedOrderMatters(ids, needy);
    }
  }

  // ----- What tests write does not matter -----

  predicate SameOutcome(t: TestRun, u: TestRun) {
    t.rc == u.rc && t.passed == u.passed && t.noBrowser == u.noBrowser
  }

  /** The two worlds score every test alike on the app as it was. */
  ghost predicate ScoreAlike(w: World, w': World, start: Files) {
    w.install == w'.install && forall id, b :: SameOutcome(w.run(id, start, b), w'.run(id, start, b))
  }

  /** Nor on what any test leaves in the data files: two worlds that score every test
      alike, and differ in what the tests write, give one result. */
  lemma {:induction false} WritesDoNotMatter(w: World, w': World, ids: seq<string>, start: Files, browser: bool)
    requires WritesDataOnly(w) && WritesDataOnly(w') && NeverSpent(w, ids) && NeverSpent(w', ids)
    requires ScoreAlike(w, w', start)
    ensures var e, e' := RunFrom(w, ids, start, browser), RunFrom(w', ids, start, browser);
            e.rc == e'.rc && e.passed == e'.passed
  {
    RunIsIsolated(w, ids, start, browser);
    RunIsIsolated(w', ids, start, browser);
    SameReset(w, w', ids, start, browser, 0);
    var (r, b) := CountsFrom(w, ids, start, browser);
    SameSums(w, w', ids[r..], start, b);
  }

  lemma {:induction false} SameReset(w: World, w': World, ids: seq<string>, start: Files, browser: bool, i: nat)
    requires i <= |ids| && ScoreAlike(w, w', start)
    ensures ResetPoint(w, ids, start, browser, i) == ResetPoint(w', ids, start, browser, i)
    decreases |ids| - i
  {
    if i < |ids| {
      assert SameOutcome(w.run(ids[i], start, browser), w'.run(ids[i], start, browser));
      SameReset(w, w', ids, start, browser, i + 1);
    }
  }

  lemma {:induction false} SameSums(w: World, w': World, ids: seq<string>, start: Files, browser: bool)
    requires ScoreAlike(w, w', start)
    ensures AloneRc(w, ids, start, browser) == AloneRc(w', ids, start, browser)
    ensures AlonePassed(w, ids, start, browser) == AlonePassed(w', ids, start, browser)
  {
    if ids != [] {
      assert SameOutcome(w.run(ids[0], start, browser), w'.run(ids[0], start, browser));
      SameSums(w, w', ids[1..], start, browser);
    }
  }

  // ----- Which files a test may write -----

  /** Tests change the allowed paths only. */
  ghost predicate WritesOnly(w: World, allowed: Path -> bool) {
    forall id, f, b, p :: !allowed(p) ==> SameAt(w.run(id, f, b).after, f, p)
  }

  /** The verdict and the total of a run are those of its tests alone. */
  ghost predicate IsIsolated(w: World, ids: seq<string>, start: Files, browser: bool) {
    var (r, b) := CountsFrom(w, ids, start, browser);
    && RunFrom(w, ids, start, browser).rc == AloneRc(w, ids[r..], start, b)
    && RunFrom(w, ids, start, browser).passed == AlonePassed(w, ids[r..], start, b)
  }

  /** All tests that keep to the allowed paths are isolated from one another. */
  ghost predicate Isolates(allowed: Path -> bool) {
    forall w, ids, start, browser :: WritesOnly(w, allowed) && NeverSpent(w, ids) ==> IsIsolated(w, ids, start, browser)
  }

  lemma StoresOnlyIsData(w: World, allowed: Path -> bool)
    requires WritesOnly(w, allowed) && forall p :: allowed(p) ==> IsStore(p)
    ensures WritesDataOnly(w)
  {
    forall id, f, b ensures CodePart(w.run(id, f, b).after) == CodePart(f) {
      var g := w.run(id, f, b).after;
      assert forall p :: !IsStore(p) ==> SameAt(g, f, p);
    }
  }

  /** Test `a` leaves a file at `p`, on which the others fail. */
  function LeavesFile(p: Path): World {
    World((id: string, f: Files, b: bool) =>
            TestRun(if id != "a" && p in f then 1 else 0, 0, false, if id == "a" then f[p := ""] else f),
          (i: nat) => true, (i: nat) => false, (ids: seq<string>, f: Files, b: bool) => TestRun(0, 0, false, f))
  }

  lemma LeavesFileOnly(p: Path, allowed: Path -> bool)
    requires allowed(p)
    ensures WritesOnly(LeavesFile(p), allowed)
  {
  }

  /** Any file that does not count as data survives: a test that leaves one can fail the next. */
  lemma {:induction false} OtherFilesLeak(p: Path, start: Files)
    requires !IsStore(p) && p !in start
    ensures var w, ids := LeavesFile(p), ["a", "b"];
            NeverSpent(w, ids) && AllPassAlone(w, ids, start, true) && RunFrom(w, ids, start, true).rc != 0
  {
    var w, ids, seed := LeavesFile(p), ["a", "b"], StorePart(start);
    var s0 := State(0, 0, 0, false, true, start);
    var s1 := OneTest(w, ids, seed, s0);
    assert p in s1.files && s1.i == 1 && s1.rc == 0;
    assert p in Restore(s1.files, seed);
    var s2 := OneTest(w, ids, seed, s1);
    assert s2.i == 2 && s2.rc == 1;
    UnspentStep(w, ids, seed, s0);
    UnspentStep(w, ids, seed, s1);
  }

  lemma UnspentStep(w: World, ids: seq<string>, seed: Files, s: State)
    requires NeverSpent(w, ids) && s.i < |ids|
    ensures Loop(w, ids, seed, s) == Loop(w, ids, seed, OneTest(w, ids, seed, s))
  {
  }

  lemma LeakBreaksIsolation(p: Path, allowed: Path -> bool)
    requires allowed(p) && !IsStore(p)
    ensures !Isolates(allowed)
  {
    var w, ids, start: Files := LeavesFile(p), ["a", "b"], map[];
    LeavesFileOnly(p, allowed);
    OtherFilesLeak(p, start);
    assert CountsFrom(w, ids, start, true) == (0, true);
    assert ids[0..] == ids;
    AloneRcZero(w, ids, start, true);
    assert !IsIsolated(w, ids, start, true);
  }

  /** Writing to some paths leaves the tests isolated, whatever they do there, if and only if
      all those paths are data files. */
  lemma {:induction false} IsolatesIff(allowed: Path -> bool)
    ensures Isolates(allowed) <==> forall p :: allowed(p) ==> IsStore(p)
  {
    forall w, ids, start, browser | WritesOnly(w, allowed) && NeverSpent(w, ids) && forall p :: allowed(p) ==> IsStore(p)
      ensures IsIsolated(w, ids, start, browser) {
      StoresOnlyIsData(w, allowed);
      RunIsIsolated(w, ids, start, browser);
    }
    forall p | allowed(p) && !IsStore(p) ensures !Isolates(allowed) {
      LeakBreaksIsolation(p, allowed);
    }
  }
}
