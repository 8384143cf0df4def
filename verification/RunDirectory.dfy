/**
  The run directory of one pipeline run and what a check does to it: attempt
  counters, stall records, last verdicts, the last accepted snapshot and the best
  full-suite snapshot.
*/
module RunDirectory {
  import opened Paths
  import opened Regression
  import opened Wrappers

  // ----- Snapshots -----

  const FRONTEND_MANIFEST: Path := ["frontend", "package.json"]
  const BACKEND_MANIFEST: Path := ["backend", "package.json"]

  /** The part of the workspace that a check verifies and a snapshot keeps. */
  predicate Ships(p: Path) {
    && |p| >= 2 && (p[0] == "frontend" || p[0] == "backend")
    && "node_modules" !in p[1..] && "dist" !in p[1..]
  }

  function Shipped(files: Files): Files {
    map p | p in files && Ships(p) :: files[p]
  }

  /** A check first writes the manifests the workspace lacks. */
  function WithManifests(files: Files, manifests: Files): Files {
    manifests + files
  }

  predicate AreManifests(manifests: Files) {
    manifests.Keys == {FRONTEND_MANIFEST, BACKEND_MANIFEST}
  }

  predicate HasFrontend(app: Files) {
    exists p :: p in app && p != [] && p[0] == "frontend"
  }

  // ----- State -----

  /** What a file of `.arc-attempts` holds: a number of attempts, a time, or the score of the
      last failed attempt and how often in a row it did not move. */
  datatype Note = Count(n: nat) | Since(t: real) | Stall(sig: string, n: nat)

  /** The files of `.arc-attempts`. The counter of a tag is filed under the tag itself, the
      other two under the tag with another suffix. */
  type Notes = map<string, Note>

  function FirstFile(tag: string): string {
    Stem(tag) + ".first"
  }

  function StallFile(tag: string): string {
    Stem(tag) + ".stall"
  }

  /** `.arc-good`: the app a check last accepted, and when. */
  datatype Good = Good(app: Files, stamp: real)

  /** `.arc-best`: the app of the best full-suite check so far. */
  datatype Best = Best(app: Files, passed: nat, rc: int)

  /** The files a check reads and rewrites. */
  datatype Dir = Dir(
    attempts: Notes,
    status: Status,
    good: Option<Good>,
    best: Option<Best>)

  const EMPTY := Dir(map[], map[], None, None)

  // ----- One check -----

  /** How a check is called: tag, attempt limit, run deadline, repair window, whether it
      is the full-suite check, and whether the tag is quarantined. */
  datatype Options = Options(
    tag: string, limit: int, deadline: Option<real>, window: Option<real>, best: bool, quarantined: bool)

  /** What a check finds: the workspace (manifests written), the verdict, the tests
      passed, the score ("" when the specs did not run), whether the runner itself printed
      STOP, and the time. */
  datatype Finding = Finding(files: Files, rc: int, passed: nat, score: string, printedStop: bool, now: real)

  datatype Check = Check(opts: Options, found: Finding)

  datatype Reason = AttemptsUsed(n: nat) | RunDeadline | WindowSpent | MovedNothing(n: nat)

  /** `note_attempt` runs to its end, or raises an error on a file that is not what it
      expects; either way the files it wrote stay. */
  datatype Attempt = Noted(files: Notes, why: Option<Reason>) | Crashed(files: Notes)

  /** The attempts counted so far. */
  function Counted(files: Notes, tag: string): nat {
    if tag in files && files[tag].Count? then files[tag].n else 0
  }

  /** The files once the attempt is counted and, the first time, its time written down. */
  function WithCount(files: Notes, c: Check): Notes {
    var tag := c.opts.tag;
    var files' := files[tag := Count(Counted(files, tag) + 1)];
    if FirstFile(tag) in files' then files' else files'[FirstFile(tag) := Since(c.found.now)]
  }

  /** How often in a row the score did not move. */
  function StallsAfter(files: Notes, stallFile: string, score: string): nat {
    if score != "" && stallFile in files && files[stallFile].Stall? && files[stallFile].sig == score
    then files[stallFile].n + 1 else 0
  }

  function WithStall(files: Notes, c: Check): Notes {
    var name := StallFile(c.opts.tag);
    files[name := Stall(c.found.score, StallsAfter(files, name, c.found.score))]
  }

  /** The counter does not hold a number. */
  predicate BadCounter(files: Notes, tag: string) {
    tag in files && !files[tag].Count?
  }

  /** The stall file does not hold a record; that only shows when there is a score to compare. */
  predicate BadStall(files: Notes, c: Check) {
    c.found.score != "" && StallFile(c.opts.tag) in files && !files[StallFile(c.opts.tag)].Stall?
  }

  /** The time a file stands for; a count reads as one. */
  function AsTime(note: Note): Option<real> {
    match note
    case Count(n) => Some(n as real)
    case Since(t) => Some(t)
    case Stall(_, _) => None
  }

  /** Why the repair ladder ends with attempt `n`, if it does. */
  function Reasoned(n: nat, stalls: nat, since: real, c: Check): Option<Reason> {
    if n >= c.opts.limit then Some(AttemptsUsed(n))
    else if c.opts.deadline.Some? && c.found.now >= c.opts.deadline.value then Some(RunDeadline)
    else if c.opts.window.Some? && c.found.now - since >= c.opts.window.value then Some(WindowSpent)
    else if stalls >= 2 then Some(MovedNothing(stalls))
    else None
  }

  /** One more failed attempt. */
  function NoteFailure(files: Notes, c: Check): Attempt {
    var tag := c.opts.tag;
    if BadCounter(files, tag) then Crashed(files)
    else
      var counted := WithCount(files, c);
      if BadStall(counted, c) then Crashed(counted)
      else
        Decide(WithStall(counted, c), Counted(files, tag) + 1,
               StallsAfter(counted, StallFile(tag), c.found.score), c)
  }

  /** The four limits, in the order they are tried; the window is the only one that reads a file. */
  function Decide(files: Notes, n: nat, stalls: nat, c: Check): Attempt {
    var since := if FirstFile(c.opts.tag) in files then AsTime(files[FirstFile(c.opts.tag)]) else None;
    if since.Some? then Noted(files, Reasoned(n, stalls, since.value, c))
    else if n >= c.opts.limit || (c.opts.deadline.Some? && c.found.now >= c.opts.deadline.value)
    then Noted(files, Reasoned(n, stalls, c.found.now, c))
    else Crashed(files)
  }

  /** Why the repair ladder ends with this attempt, if it does. */
  function StopReason(d: Dir, c: Check): Option<Reason> {
    var a := NoteFailure(d.attempts, c);
    if a.Noted? then a.why else None
  }

  predicate CountsAttempt(c: Check) {
    c.found.rc != 0 && !c.opts.quarantined
  }

  /** The check's output carries STOP. */
  predicate Stops(d: Dir, c: Check) {
    || c.found.printedStop
    || (c.found.rc != 0 && (c.opts.quarantined || StopReason(d, c).Some?))
  }

  function KeptBest(d: Dir, c: Check): Option<Best> {
    if c.opts.best && (d.best.Some? ==> c.found.passed > d.best.value.passed)
    then Some(Best(Shipped(c.found.files), c.found.passed, c.found.rc)) else d.best
  }

  /** The directory after one check. */
  function AfterCheck(d: Dir, c: Check): Dir {
    var d' := d.(best := KeptBest(d, c),
                 good := if c.found.rc == 0 then Some(Good(Shipped(c.found.files), c.found.now)) else d.good,
                 status := d.status[c.opts.tag := c.found.rc]);
    if CountsAttempt(c) then d'.(attempts := NoteFailure(d.attempts, c).files) else d'
  }

  class RunDir {
    var attempts: Notes
    var status: Status
    var good: Option<Good>
    var best: Option<Best>

    function Contents(): Dir
      reads this
    {
      Dir(attempts, status, good, best)
    }

    constructor ()
      ensures Contents() == EMPTY
    {
      attempts, status, good, best := map[], map[], None, None;
    }

    /** `note_attempt`; false when it raises an error. */
    method NoteAttempt(c: Check) returns (ok: bool, why: Option<Reason>)
      modifies this`attempts
      ensures attempts == NoteFailure(old(attempts), c).files && ok == NoteFailure(old(attempts), c).Noted?
      ensures why == StopReason(old(Contents()), c)
    {
      if BadCounter(attempts, c.opts.tag) {
        return false, None;  // int() of the text fails
      }
      var n := CountAttempt(c);
      if BadStall(attempts, c) {
        return false, None;  // a number has no fields
      }
      var stalls := CompareScore(c);
      ok, why := Limits(c, n, stalls);
    }

    /** Its first part: the counter and the time of the first failure. */
    method CountAttempt(c: Check) returns (n: nat)
      requires !BadCounter(attempts, c.opts.tag)
      modifies this`attempts
      ensures attempts == WithCount(old(attempts), c) && n == Counted(old(attempts), c.opts.tag) + 1
      ensures FirstFile(c.opts.tag) in attempts
    {
      var tag, first := c.opts.tag, FirstFile(c.opts.tag);
      n := if tag in attempts then attempts[tag].n + 1 else 1;
      attempts := attempts[tag := Count(n)];
      if first !in attempts {
        attempts := attempts[first := Since(c.found.now)];
      }
    }

    /** Its second part: the score against the one before. */
    method CompareScore(c: Check) returns (stalls: nat)
      requires !BadStall(attempts, c)
      modifies this`attempts
      ensures attempts == WithStall(old(attempts), c)
      ensures stalls == StallsAfter(old(attempts), StallFile(c.opts.tag), c.found.score)
      ensures old(FirstFile(c.opts.tag) in attempts) ==> FirstFile(c.opts.tag) in attempts
    {
      var stall, score := StallFile(c.opts.tag), c.found.score;
      stalls := if score != "" && stall in attempts && score == attempts[stall].sig then attempts[stall].n + 1 else 0;
      attempts := attempts[stall := Stall(score, stalls)];
    }

    /** The end of `note_attempt`. */
    method Limits(c: Check, n: nat, stalls: nat) returns (ok: bool, why: Option<Reason>)
      requires FirstFile(c.opts.tag) in attempts
      ensures var a := Decide(attempts, n, stalls, c); ok == a.Noted? && why == if a.Noted? then a.why else None
    {
      if n >= c.opts.limit {
        return true, Some(AttemptsUsed(n));
      }
      if c.opts.deadline.Some? && c.found.now >= c.opts.deadline.value {
        return true, Some(RunDeadline);
      }
      var since := AsTime(attempts[FirstFile(c.opts.tag)]);
      if since.None? {
        return false, None;  // float() of the text fails
      }
      if c.opts.window.Some? && c.found.now - since.value >= c.opts.window.value {
        return true, Some(WindowSpent);
      }
      return true, if stalls >= 2 then Some(MovedNothing(stalls)) else None;
    }

    /** `keep_best`. */
    method KeepBest(c: Check)
      requires c.opts.best
      modifies this`best
      ensures best == KeptBest(old(Contents()), c)
    {
      var prev := if best.Some? then best.value.passed else -1;
      if c.found.passed > prev {
        best := Some(Best(Shipped(c.found.files), c.found.passed, c.found.rc));
      }
    }

    /** `main` after the specs were selected and run. */
    method Record(c: Check) returns (stop: bool)
      modifies this
      ensures Contents() == AfterCheck(old(Contents()), c)
      ensures stop == Stops(old(Contents()), c)
    {
      stop := c.found.printedStop;
      if c.opts.best {
        KeepBest(c);
      }
      if c.found.rc == 0 {
        good := Some(Good(Shipped(c.found.files), c.found.now));
      }
      status := status[c.opts.tag := c.found.rc];
      if c.found.rc != 0 {
        if c.opts.quarantined {
          stop := true;
        } else {
          var _, why := NoteAttempt(c);
          stop := stop || why.Some?;
        }
      }
    }
  }

  /** `main`: select the specs, run them, record the outcome. `verify` stands for the build,
      boot and test run over the listed specs. */
  method RunCheck(dir: RunDir, opts: Options, regress: Option<SpecMap>, specs: seq<string>, verify: seq<string> -> Finding)
    returns (listed: seq<string>, stop: bool)
    modifies dir
    ensures specs <= listed
    ensures regress.None? ==> listed == specs
    ensures regress.Some? ==>
              forall s :: s in listed <==> s in specs || Rerun(Family, regress.value, opts.tag, old(dir.status), s)
    ensures regress.Some? ==>
              forall s :: NumberedCanary(regress.value, opts.tag, old(dir.status), s) ==> s in listed
    ensures dir.Contents() == AfterCheck(old(dir.Contents()), Check(opts, verify(listed)))
    ensures stop == Stops(old(dir.Contents()), Check(opts, verify(listed)))
  {
    listed := specs;
    if regress.Some? {
      listed := SelectSpecs(Family, regress.value, opts.tag, dir.status, specs);
      forall s | NumberedCanary(regress.value, opts.tag, dir.status, s) ensures s in listed {
        NumberedCanaryIsRerun(regress.value, opts.tag, dir.status, s);
      }
    }
    stop := dir.Record(Check(opts, verify(listed)));
  }

  /** Missing manifests are written, and nothing the workspace has is touched. */
  lemma {:induction false} ManifestsFillGaps(files: Files, manifests: Files, p: Path)
    ensures p in files ==> p in WithManifests(files, manifests) && WithManifests(files, manifests)[p] == files[p]
    ensures p !in files ==> SameAt(WithManifests(files, manifests), manifests, p)
  {
  }

  /** A snapshot keeps, under `frontend` or `backend`, exactly the files with no installed or built
      part on their path, as they are. */
  lemma {:induction false} SnapshotKeeps(files: Files, part: string, below: Path)
    requires below != []
    ensures var p := [part] + below;
            if part in {"frontend", "backend"} && "node_modules" !in below && "dist" !in below
            then SameAt(Shipped(files), files, p) else p !in Shipped(files)
  {
    assert ([part] + below)[1..] == below;
  }

  /** What a snapshot keeps is what the disposable copy held, and it has a frontend. */
  lemma {:induction false} SnapshotHasFrontend(files: Files, manifests: Files)
    requires AreManifests(manifests)
    ensures HasFrontend(Shipped(WithManifests(files, manifests)))
  {
    var app := Shipped(WithManifests(files, manifests));
    assert FRONTEND_MANIFEST[1..] == ["package.json"];
    assert FRONTEND_MANIFEST in app;
  }
}
