/**
  The repair ladder: the counters, first-failure times and stall records of `.arc-attempts`
  after any history of checks, and when a failure ends the ladder. All of them are files of
  one directory, so a tag can be the name of another record.
*/
module RepairLadder {
  import opened Paths
  import opened RunDirectory
  import opened RunHistory
  import opened Wrappers

  // ----- File names -----

  lemma NamesDiffer(t: string, u: string)
    ensures FirstFile(t) != StallFile(u)
  {
    var a, b := FirstFile(t), StallFile(u);
    assert a[|a| - 1] == 't' && b[|b| - 1] == 'l';
  }

  lemma SameNames(t: string, u: string)
    ensures FirstFile(t) == FirstFile(u) <==> Stem(t) == Stem(u)
    ensures StallFile(t) == StallFile(u) <==> Stem(t) == Stem(u)
  {
    assert FirstFile(t)[..|FirstFile(t)| - 6] == Stem(t) && FirstFile(u)[..|FirstFile(u)| - 6] == Stem(u);
    assert StallFile(t)[..|StallFile(t)| - 6] == Stem(t) && StallFile(u)[..|StallFile(u)| - 6] == Stem(u);
  }

  /** The counter of `t` is no other record of `u`. */
  predicate CounterApart(t: string, u: string) {
    t != FirstFile(u) && t != StallFile(u)
  }

  /** No tag is the name of a record of a tag. */
  predicate CountersApart(tags: set<string>) {
    forall t, u :: t in tags && u in tags ==> CounterApart(t, u)
  }

  /** No two tags are equal without their suffixes. */
  predicate KeysApart(tags: set<string>) {
    forall t, u :: t in tags && u in tags && Stem(t) == Stem(u) ==> t == u
  }

  /** The tags that share the first-failure time and the stall record with `t`. */
  function Sharing(tags: set<string>, t: string): set<string> {
    set u | u in tags && Stem(u) == Stem(t)
  }

  lemma {:induction false} UndottedTagsAreApart(tags: set<string>)
    requires forall t :: t in tags ==> '.' !in t
    ensures CountersApart(tags) && KeysApart(tags)
  {
    forall t, u | t in tags && u in tags ensures CounterApart(t, u) {
      assert FirstFile(u)[|Stem(u)|] == '.' && StallFile(u)[|Stem(u)|] == '.';
    }
  }

  // ----- What a history says -----

  predicate TagsIn(checks: seq<Check>, tags: set<string>) {
    forall i :: 0 <= i < |checks| ==> checks[i].opts.tag in tags
  }

  /** A counted failure of one of the tags. */
  predicate Fails(c: Check, owners: set<string>) {
    CountsAttempt(c) && c.opts.tag in owners
  }

  /** The scores of the counted failures of some tags, oldest first. */
  function Scores(checks: seq<Check>, owners: set<string>): seq<string> {
    if checks == [] then []
    else
      var c := checks[|checks| - 1];
      Scores(checks[..|checks| - 1], owners) + (if Fails(c, owners) then [c.found.score] else [])
  }

  /** The first counted failure of some tags, -1 when there is none. */
  function FirstFailure(checks: seq<Check>, owners: set<string>): (i: int)
    ensures -1 <= i < |checks|
    ensures i >= 0 ==> Fails(checks[i], owners)
    ensures forall k :: 0 <= k < |checks| && (i < 0 || k < i) ==> !Fails(checks[k], owners)
  {
    if checks == [] then -1
    else
      var front, c := checks[..|checks| - 1], checks[|checks| - 1];
      var i := FirstFailure(front, owners);
      assert forall k :: 0 <= k < |front| ==> checks[k] == front[k];
      if i >= 0 then i else if Fails(c, owners) then |checks| - 1 else -1
  }

  /** When the repair window of some tags opened. */
  function Opened(checks: seq<Check>, owners: set<string>): Option<real> {
    var i := FirstFailure(checks, owners);
    if i < 0 then None else Some(checks[i].found.now)
  }

  lemma OpenedOneMore(front: seq<Check>, c: Check, owners: set<string>)
    ensures Opened(front + [c], owners) ==
            if Opened(front, owners).Some? then Opened(front, owners)
            else if Fails(c, owners) then Some(c.found.now) else None
  {
    assert (front + [c])[..|front|] == front;
  }

  lemma ScoresOneMore(front: seq<Check>, c: Check, owners: set<string>)
    ensures Scores(front + [c], owners) == Scores(front, owners) + (if Fails(c, owners) then [c.found.score] else [])
  {
    assert (front + [c])[..|front|] == front;
  }

  // ----- What the files say -----

  predicate CounterIs(files: Notes, t: string, n: nat) {
    if n == 0 then t !in files else t in files && files[t] == Count(n)
  }

  predicate WindowIs(files: Notes, t: string, start: Option<real>) {
    if start.None? then FirstFile(t) !in files
    else FirstFile(t) in files && files[FirstFile(t)] == Since(start.value)
  }

  /** The last `n` scores are equal and the one before them is not. */
  predicate IsTrailingRun(h: seq<string>, n: nat) {
    && 1 <= n <= |h|
    && (forall i :: |h| - n <= i < |h| ==> h[i] == h[|h| - 1])
    && (n < |h| ==> h[|h| - n - 1] != h[|h| - 1])
  }

  /** The record of a list of scores: the last score, and the length of the trailing run of
      equal scores minus one, 0 when the last score is empty. */
  predicate IsStallOf(note: Note, h: seq<string>)
    requires h != []
  {
    && note.Stall? && note.sig == h[|h| - 1]
    && (if h[|h| - 1] == "" then note.n == 0 else IsTrailingRun(h, note.n + 1))
  }

  predicate StallIs(files: Notes, t: string, h: seq<string>) {
    if h == [] then StallFile(t) !in files else StallFile(t) in files && IsStallOf(files[StallFile(t)], h)
  }

  /** The three records of `t`: its counter counts its own failures, its window opened with the
      first failure of `owners`, and its stall record is about the scores of `owners`. */
  predicate RecordsIn(files: Notes, checks: seq<Check>, t: string, owners: set<string>) {
    && CounterIs(files, t, |Scores(checks, {t})|)
    && WindowIs(files, t, Opened(checks, owners))
    && StallIs(files, t, Scores(checks, owners))
  }

  /** That is so once the checks were made. */
  predicate RecordsAre(checks: seq<Check>, t: string, owners: set<string>) {
    RecordsIn(After(checks).attempts, checks, t, owners)
  }

  // ----- One attempt -----

  /** The files after an attempt that meets nothing unexpected. */
  function Written(files: Notes, c: Check): Notes {
    WithStall(WithCount(files, c), c)
  }

  lemma WrittenCounter(files: Notes, c: Check, t: string)
    requires CounterApart(t, c.opts.tag)
    ensures var g := Written(files, c);
            if c.opts.tag == t then t in g && g[t] == Count(Counted(files, t) + 1) else SameAt(g, files, t)
  {
  }

  lemma WrittenFirst(files: Notes, c: Check, t: string)
    requires CounterApart(c.opts.tag, t) && CounterApart(c.opts.tag, c.opts.tag)
    ensures var g, name := Written(files, c), FirstFile(t);
            if Stem(c.opts.tag) == Stem(t) then
              name in g && g[name] == (if name in files then files[name] else Since(c.found.now))
            else SameAt(g, files, name)
  {
    SameNames(t, c.opts.tag);
    NamesDiffer(t, c.opts.tag);
  }

  lemma WrittenStall(files: Notes, c: Check, t: string)
    requires CounterApart(c.opts.tag, t) && CounterApart(c.opts.tag, c.opts.tag)
    ensures var g, name := Written(files, c), StallFile(t);
            if Stem(c.opts.tag) == Stem(t) then
              name in g && g[name] == Stall(c.found.score, StallsAfter(files, name, c.found.score))
            else SameAt(g, files, name)
  {
    SameNames(t, c.opts.tag);
    NamesDiffer(t, c.opts.tag);
    NamesDiffer(c.opts.tag, c.opts.tag);
    NamesDiffer(c.opts.tag, t);
  }

  lemma OneMoreScore(files: Notes, g: Notes, t: string, h: seq<string>, score: string)
    requires StallIs(files, t, h) && StallFile(t) in g
    requires g[StallFile(t)] == Stall(score, StallsAfter(files, StallFile(t), score))
    ensures StallIs(g, t, h + [score])
  {
  }

  /** Where the records are in order, an attempt meets nothing unexpected. */
  lemma InOrderIsNoted(files: Notes, c: Check, n: nat, start: Option<real>, h: seq<string>)
    requires var t := c.opts.tag;
             CounterApart(t, t) && CounterIs(files, t, n) && WindowIs(files, t, start) && StallIs(files, t, h)
    ensures !BadCounter(files, c.opts.tag) && !BadStall(WithCount(files, c), c)
    ensures Counted(files, c.opts.tag) == n
    ensures var since := if start.Some? then start.value else c.found.now;
            NoteFailure(files, c) ==
            Noted(Written(files, c), Reasoned(n + 1, StallsAfter(files, StallFile(c.opts.tag), c.found.score), since, c))
  {
    var t := c.opts.tag;
    NamesDiffer(t, t);
    WrittenFirst(files, c, t);
    assert SameAt(WithCount(files, c), files, StallFile(t));
  }

  // ----- Every history -----

  lemma AttemptsAfterLast(front: seq<Check>, c: Check)
    ensures After(front + [c]).attempts ==
            if CountsAttempt(c) then NoteFailure(After(front).attempts, c).files else After(front).attempts
  {
    assert (front + [c])[..|front|] == front;
  }

  lemma {:induction false} RecordsSpeak(checks: seq<Check>, tags: set<string>, t: string)
    requires CountersApart(tags) && TagsIn(checks, tags) && t in tags
    ensures RecordsAre(checks, t, Sharing(tags, t))
  {
    if checks != [] {
      var front, c := checks[..|checks| - 1], checks[|checks| - 1];
      assert checks == front + [c] && c.opts.tag in tags;
      RecordsSpeak(front, tags, t);
      RecordsSpeak(front, tags, c.opts.tag);
      OneMoreCheck(front, c, tags, t);
    }
  }

  lemma InOrderIsWritten(front: seq<Check>, c: Check, owners: set<string>)
    requires RecordsAre(front, c.opts.tag, owners) && CounterApart(c.opts.tag, c.opts.tag) && CountsAttempt(c)
    ensures After(front + [c]).attempts == Written(After(front).attempts, c)
  {
    AttemptsAfterLast(front, c);
    InOrderIsNoted(After(front).attempts, c, |Scores(front, {c.opts.tag})|, Opened(front, owners), Scores(front, owners));
  }

  lemma FailureIsRecorded(files: Notes, front: seq<Check>, c: Check, tags: set<string>, t: string)
    requires CountersApart(tags) && t in tags && c.opts.tag in tags && CountsAttempt(c)
    requires RecordsIn(files, front, t, Sharing(tags, t))
    ensures RecordsIn(Written(files, c), front + [c], t, Sharing(tags, t))
  {
    var owners, shared := Sharing(tags, t), Stem(c.opts.tag) == Stem(t);
    var n, start, h := |Scores(front, {t})|, Opened(front, owners), Scores(front, owners);
    assert CounterApart(t, c.opts.tag) && CounterApart(c.opts.tag, t) && CounterApart(c.opts.tag, c.opts.tag);
    OneMoreFailure(files, c, t, n, start, h);
    assert |Scores(front + [c], {t})| == if c.opts.tag == t then n + 1 else n by {
      ScoresOneMore(front, c, {t});
    }
    assert Opened(front + [c], owners) == if start.None? && shared then Some(c.found.now) else start by {
      OpenedOneMore(front, c, owners);
    }
    assert Scores(front + [c], owners) == if shared then h + [c.found.score] else h by {
      ScoresOneMore(front, c, owners);
    }
  }

  lemma OtherChecksRecordNothing(files: Notes, front: seq<Check>, c: Check, t: string, owners: set<string>)
    requires !CountsAttempt(c) && RecordsIn(files, front, t, owners)
    ensures RecordsIn(files, front + [c], t, owners)
  {
    ScoresOneMore(front, c, {t});
    ScoresOneMore(front, c, owners);
    OpenedOneMore(front, c, owners);
  }

  lemma OneMoreCheck(front: seq<Check>, c: Check, tags: set<string>, t: string)
    requires CountersApart(tags) && t in tags && c.opts.tag in tags
    requires RecordsAre(front, t, Sharing(tags, t)) && RecordsAre(front, c.opts.tag, Sharing(tags, c.opts.tag))
    ensures RecordsAre(front + [c], t, Sharing(tags, t))
  {
    if CountsAttempt(c) {
      assert CounterApart(c.opts.tag, c.opts.tag);
      InOrderIsWritten(front, c, Sharing(tags, c.opts.tag));
      FailureIsRecorded(After(front).attempts, front, c, tags, t);
    } else {
      AttemptsAfterLast(front, c);
      OtherChecksRecordNothing(After(front).attempts, front, c, t, Sharing(tags, t));
    }
  }

  lemma OneMoreFailure(files: Notes, c: Check, t: string, n: nat, start: Option<real>, h: seq<string>)
    requires CounterApart(t, c.opts.tag) && CounterApart(c.opts.tag, t) && CounterApart(c.opts.tag, c.opts.tag)
    requires CounterIs(files, t, n) && WindowIs(files, t, start) && StallIs(files, t, h)
    ensures var g, shared := Written(files, c), Stem(c.opts.tag) == Stem(t);
            && CounterIs(g, t, if c.opts.tag == t then n + 1 else n)
            && WindowIs(g, t, if start.None? && shared then Some(c.found.now) else start)
            && StallIs(g, t, if shared then h + [c.found.score] else h)
  {
    WrittenCounter(files, c, t);
    WrittenFirst(files, c, t);
    WrittenStall(files, c, t);
    if Stem(c.opts.tag) == Stem(t) {
      OneMoreScore(files, Written(files, c), t, h, c.found.score);
    }
  }

  // ----- Exactly when the records can be trusted -----

  /** Whatever happens, each tag's counter is about that tag, and the other two records about
      the tags it shares them with. */
  ghost predicate RecordsPerKey(tags: set<string>) {
    forall checks, t :: TagsIn(checks, tags) && t in tags ==> RecordsAre(checks, t, Sharing(tags, t))
  }

  /** Whatever happens, all three records of a tag are about that tag alone. */
  ghost predicate RecordsPerTag(tags: set<string>) {
    forall checks, t :: TagsIn(checks, tags) && t in tags ==> RecordsAre(checks, t, {t})
  }

  /** A failure of `tag` with the score 1/2. */
  function Failure(tag: string, limit: int, window: Option<real>, now: real): Check {
    Check(Options(tag, limit, None, window, false, false), Finding(map[], 1, 0, "1/2", false, now))
  }

  lemma AfterOne(c: Check)
    requires CountsAttempt(c)
    ensures After([c]).attempts == NoteFailure(map[], c).files
  {
    assert [] + [c] == [c];
    AttemptsAfterLast([], c);
  }

  /** The first failure of all leaves a count under its tag, and something else under the name
      of its other records. */
  lemma FirstFailureWrites(c: Check, t: string)
    requires c.found.score != ""
    ensures var files := NoteFailure(map[], c).files;
            && c.opts.tag in files && files[c.opts.tag].Count?
            && (!CounterApart(t, c.opts.tag) && t != c.opts.tag ==> t in files && !files[t].Count?)
  {
    NamesDiffer(c.opts.tag, c.opts.tag);
  }

  lemma ScoresOfOne(c: Check, owners: set<string>)
    ensures Scores([c], owners) == if Fails(c, owners) then [c.found.score] else []
    ensures Opened([c], owners) == if Fails(c, owners) then Some(c.found.now) else None
  {
    assert [] + [c] == [c];
    ScoresOneMore([], c, owners);
    OpenedOneMore([], c, owners);
  }

  /** A tag that is the name of another record: one failure leaves its own records wrong. */
  lemma {:induction false} CollisionShows(t: string, u: string, owners: set<string>)
    requires !CounterApart(t, u) && t in owners
    ensures !RecordsAre([Failure(u, 9, None, 0.0)], t, owners)
  {
    var c := Failure(u, 9, None, 0.0);
    AfterOne(c);
    FirstFailureWrites(c, t);
    ScoresOfOne(c, {t});
    ScoresOfOne(c, owners);
  }

  /** Two tags that share a key: the second one's first failure already counts as a stall. */
  lemma {:induction false} SharedKeyMiscounts(t: string, u: string)
    requires t != u && Stem(t) == Stem(u) && CountersApart({t, u})
    ensures !RecordsAre([Failure(t, 9, None, 0.0), Failure(u, 9, None, 0.0)], u, {u})
  {
    var a, b := Failure(t, 9, None, 0.0), Failure(u, 9, None, 0.0);
    assert Sharing({t, u}, u) == {t, u};
    RecordsSpeak([a, b], {t, u}, u);
    ScoresOfTwo(a, b, {u});
    ScoresOfTwo(a, b, {t, u});
    SecondIsAStall(After([a, b]).attempts, u, "1/2");
  }

  lemma ScoresOfTwo(a: Check, b: Check, owners: set<string>)
    requires Fails(b, owners)
    ensures Scores([a, b], owners) == (if Fails(a, owners) then [a.found.score] else []) + [b.found.score]
  {
    assert [a, b] == [a] + [b];
    ScoresOfOne(a, owners);
    ScoresOneMore([a], b, owners);
  }

  lemma SecondIsAStall(files: Notes, u: string, score: string)
    requires score != "" && StallIs(files, u, [score, score])
    ensures !StallIs(files, u, [score])
  {
  }

  lemma PerKeyNeedsApart(tags: set<string>, t: string, u: string)
    requires t in tags && u in tags && !CounterApart(t, u)
    ensures !RecordsPerKey(tags) && !RecordsPerTag(tags)
  {
    CollisionShows(t, u, Sharing(tags, t));
    CollisionShows(t, u, {t});
    assert TagsIn([Failure(u, 9, None, 0.0)], tags);
  }

  /** The counters are per tag, and the other records per key, in all histories over a set of
      tags if and only if no tag is the name of a record of a tag. */
  lemma {:induction false} RecordsPerKeyIff(tags: set<string>)
    ensures RecordsPerKey(tags) <==> CountersApart(tags)
  {
    if CountersApart(tags) {
      forall checks, t | TagsIn(checks, tags) && t in tags ensures RecordsAre(checks, t, Sharing(tags, t)) {
        RecordsSpeak(checks, tags, t);
      }
    } else {
      var t, u :| t in tags && u in tags && !CounterApart(t, u);
      PerKeyNeedsApart(tags, t, u);
    }
  }

  lemma PerTagNeedsKeysApart(tags: set<string>, t: string, u: string)
    requires t in tags && u in tags && t != u && Stem(t) == Stem(u) && CountersApart(tags)
    ensures !RecordsPerTag(tags)
  {
    SharedKeyMiscounts(t, u);
    assert TagsIn([Failure(t, 9, None, 0.0), Failure(u, 9, None, 0.0)], tags);
  }

  /** All three are per tag if and only if, besides, no two tags share a key. */
  lemma {:induction false} RecordsPerTagIff(tags: set<string>)
    ensures RecordsPerTag(tags) <==> CountersApart(tags) && KeysApart(tags)
  {
    if t, u :| t in tags && u in tags && !CounterApart(t, u) {
      PerKeyNeedsApart(tags, t, u);
    } else if t, u :| t in tags && u in tags && t != u && Stem(t) == Stem(u) {
      PerTagNeedsKeysApart(tags, t, u);
    } else {
      forall checks, t | TagsIn(checks, tags) && t in tags ensures RecordsAre(checks, t, {t}) {
        RecordsSpeak(checks, tags, t);
        assert Sharing(tags, t) == {t};
      }
    }
  }

  // ----- A ladder that goes on has moved -----

  /** No counted failure ended its repair ladder. */
  predicate NeverStopped(checks: seq<Check>) {
    forall i :: 0 <= i < |checks| && CountsAttempt(checks[i]) ==> StopReason(After(checks[..i]), checks[i]).None?
  }

  predicate NoThreeEqual(h: seq<string>) {
    forall i :: 0 <= i && i + 2 < |h| && h[i] != "" ==> !(h[i] == h[i + 1] == h[i + 2])
  }

  /** The score equals the two before it. */
  predicate ThirdEqual(h: seq<string>, score: string) {
    score != "" && |h| >= 2 && h[|h| - 1] == score && h[|h| - 2] == score
  }

  lemma StalledIffThirdEqual(files: Notes, t: string, h: seq<string>, score: string)
    requires StallIs(files, t, h)
    ensures StallsAfter(files, StallFile(t), score) >= 2 <==> ThirdEqual(h, score)
  {
  }

  lemma NeverStoppedFront(checks: seq<Check>)
    requires checks != [] && NeverStopped(checks)
    ensures var n := |checks| - 1;
            NeverStopped(checks[..n]) && (CountsAttempt(checks[n]) ==> StopReason(After(checks[..n]), checks[n]).None?)
  {
    var front := checks[..|checks| - 1];
    forall i | 0 <= i < |front| && CountsAttempt(front[i]) ensures StopReason(After(front[..i]), front[i]).None? {
      assert front[..i] == checks[..i] && front[i] == checks[i];
    }
  }

  lemma NoThirdEqual(h: seq<string>, score: string)
    requires NoThreeEqual(h) && !ThirdEqual(h, score)
    ensures NoThreeEqual(h + [score])
  {
  }

  lemma GoingOnHasMoved(front: seq<Check>, tags: set<string>, c: Check, t: string)
    requires CountersApart(tags) && TagsIn(front, tags) && c.opts.tag in Sharing(tags, t)
    requires StopReason(After(front), c).None?
    ensures !ThirdEqual(Scores(front, Sharing(tags, t)), c.found.score)
  {
    LadderEnds(front, tags, c);
    assert Sharing(tags, c.opts.tag) == Sharing(tags, t);
  }

  /** While no attempt has ended its ladder, no key has three equal scores in a row. */
  lemma {:induction false} LadderKeepsMoving(checks: seq<Check>, tags: set<string>, t: string)
    requires CountersApart(tags) && TagsIn(checks, tags) && t in tags && NeverStopped(checks)
    ensures NoThreeEqual(Scores(checks, Sharing(tags, t)))
  {
    if checks != [] {
      var front, c := checks[..|checks| - 1], checks[|checks| - 1];
      assert checks == front + [c] && c.opts.tag in tags;
      NeverStoppedFront(checks);
      LadderKeepsMoving(front, tags, t);
      ScoresOneMore(front, c, Sharing(tags, t));
      if Fails(c, Sharing(tags, t)) {
        GoingOnHasMoved(front, tags, c, t);
        NoThirdEqual(Scores(front, Sharing(tags, t)), c.found.score);
      }
    }
  }

  // ----- When a ladder ends -----

  /** In terms of the history: the tag has used its attempts, the deadline has passed, the
      window since the first failure of `owners` is spent, or the score equals the last two
      of theirs. */
  predicate ShouldEnd(checks: seq<Check>, owners: set<string>, c: Check) {
    var start, now := Opened(checks, owners), c.found.now;
    || |Scores(checks, {c.opts.tag})| + 1 >= c.opts.limit
    || (c.opts.deadline.Some? && now >= c.opts.deadline.value)
    || (c.opts.window.Some? && now - (if start.Some? then start.value else now) >= c.opts.window.value)
    || ThirdEqual(Scores(checks, owners), c.found.score)
  }

  lemma LadderEnds(checks: seq<Check>, tags: set<string>, c: Check)
    requires CountersApart(tags) && TagsIn(checks, tags) && c.opts.tag in tags
    ensures StopReason(After(checks), c).Some? <==> ShouldEnd(checks, Sharing(tags, c.opts.tag), c)
  {
    var t, files := c.opts.tag, After(checks).attempts;
    var n, start, h := |Scores(checks, {t})|, Opened(checks, Sharing(tags, t)), Scores(checks, Sharing(tags, t));
    RecordsSpeak(checks, tags, t);
    assert CounterApart(t, t);
    InOrderIsNoted(files, c, n, start, h);
    StalledIffThirdEqual(files, t, h, c.found.score);
  }

  /** The reason given is the first limit met, in the order attempts, deadline, window, score. */
  lemma {:induction false} ReasonIsFirstMet(checks: seq<Check>, tags: set<string>, c: Check)
    requires CountersApart(tags) && TagsIn(checks, tags) && c.opts.tag in tags
    ensures var n, why := |Scores(checks, {c.opts.tag})| + 1, StopReason(After(checks), c);
            && (why == Some(AttemptsUsed(n)) <==> n >= c.opts.limit)
            && (why == Some(RunDeadline) <==>
                  n < c.opts.limit && c.opts.deadline.Some? && c.found.now >= c.opts.deadline.value)
            && (why.Some? && why.value.MovedNothing? ==>
                  ThirdEqual(Scores(checks, Sharing(tags, c.opts.tag)), c.found.score) && n < c.opts.limit)
  {
    var t, files := c.opts.tag, After(checks).attempts;
    var start, h := Opened(checks, Sharing(tags, t)), Scores(checks, Sharing(tags, t));
    RecordsSpeak(checks, tags, t);
    assert CounterApart(t, t);
    InOrderIsNoted(files, c, |Scores(checks, {t})|, start, h);
    StalledIffThirdEqual(files, t, h, c.found.score);
  }

  /** A counted failure of one of the tags, after a history over them. */
  predicate NextFailure(checks: seq<Check>, tags: set<string>, c: Check) {
    TagsIn(checks, tags) && Fails(c, tags)
  }

  ghost predicate EndsRight(checks: seq<Check>, owners: set<string>, c: Check) {
    StopReason(After(checks), c).Some? <==> ShouldEnd(checks, owners, c)
  }

  /** Whatever happens, a failure ends its ladder exactly when it should, by the failures of the
      tags that share its key. */
  ghost predicate LaddersEndPerKey(tags: set<string>) {
    forall checks, c: Check :: NextFailure(checks, tags, c) ==> EndsRight(checks, Sharing(tags, c.opts.tag), c)
  }

  /** Whatever happens, a failure ends its ladder exactly when it should, by the failures of its
      own requirement. */
  ghost predicate LaddersEndPerTag(tags: set<string>) {
    forall checks, c: Check :: NextFailure(checks, tags, c) ==> EndsRight(checks, {c.opts.tag}, c)
  }

  /** A tag that is the name of its own stall record: its check raises an error instead of
      stopping, even with the attempts used up. */
  lemma {:induction false} OwnStallFileNeverStops(t: string)
    requires t == StallFile(t)
    ensures StopReason(After([]), Failure(t, 1, None, 0.0)).None?
  {
  }

  /** A tag that is the name of its own first-failure time: the number of attempts is read as
      the time the window opened, and the window is spent at once. */
  lemma {:induction false} OwnFirstFileStopsAtOnce(t: string)
    requires t == FirstFile(t)
    ensures StopReason(After([]), Failure(t, 9, Some(10.0), 100.0)) == Some(WindowSpent)
  {
    NamesDiffer(t, t);
  }

  lemma CollisionMisleads(tags: set<string>, t: string, u: string)
    requires t in tags && u in tags && !CounterApart(t, u)
    ensures !LaddersEndPerKey(tags) && !LaddersEndPerTag(tags)
  {
    var checks, c := CollisionEndsWrong(t, u);
    assert NextFailure(checks, tags, c);
    assert !EndsRight(checks, Sharing(tags, t), c) && !EndsRight(checks, {t}, c);
  }

  lemma CollisionEndsWrong(t: string, u: string) returns (checks: seq<Check>, c: Check)
    requires !CounterApart(t, u)
    ensures TagsIn(checks, {u}) && CountsAttempt(c) && c.opts.tag == t
    ensures forall owners :: !EndsRight(checks, owners, c)
  {
    if t != u {
      var a := Failure(u, 9, None, 0.0);
      AfterOne(a);
      FirstFailureWrites(a, t);
      checks, c := [a], Failure(t, 1, None, 0.0);
    } else if t == StallFile(t) {
      OwnStallFileNeverStops(t);
      checks, c := [], Failure(t, 1, None, 0.0);
    } else {
      OwnFirstFileStopsAtOnce(t);
      checks, c := [], Failure(t, 9, Some(10.0), 100.0);
    }
  }

  /** Ladders end by the failures of their key if and only if no tag is the name of a record of a
      tag. */
  lemma {:induction false} LaddersEndPerKeyIff(tags: set<string>)
    ensures LaddersEndPerKey(tags) <==> CountersApart(tags)
  {
    if CountersApart(tags) {
      forall checks, c: Check | NextFailure(checks, tags, c) ensures EndsRight(checks, Sharing(tags, c.opts.tag), c) {
        LadderEnds(checks, tags, c);
      }
    } else {
      var t, u :| t in tags && u in tags && !CounterApart(t, u);
      CollisionMisleads(tags, t, u);
    }
  }

  /** Two tags that share a key: the second one's first failure finds the window of the first one
      spent, although it never failed before. */
  lemma {:induction false} SharedKeyStopsEarly(t: string, u: string)
    requires t != u && Stem(t) == Stem(u) && CountersApart({t, u})
    ensures var checks, c := [Failure(t, 9, None, 0.0)], Failure(u, 9, Some(10.0), 100.0);
            StopReason(After(checks), c).Some? && !ShouldEnd(checks, {u}, c)
  {
    var a, c := Failure(t, 9, None, 0.0), Failure(u, 9, Some(10.0), 100.0);
    LadderEnds([a], {t, u}, c);
    ScoresOfOne(a, {u});
    ScoresOfOne(a, Sharing({t, u}, u));
  }

  lemma SharedKeyMisleads(tags: set<string>, t: string, u: string)
    requires t in tags && u in tags && t != u && Stem(t) == Stem(u) && CountersApart(tags)
    ensures !LaddersEndPerTag(tags)
  {
    SharedKeyStopsEarly(t, u);
    var checks, c := [Failure(t, 9, None, 0.0)], Failure(u, 9, Some(10.0), 100.0);
    assert NextFailure(checks, tags, c) && !EndsRight(checks, {c.opts.tag}, c);
  }

  /** They end by the failures of their own requirement if and only if, besides, no two tags share
      a key. */
  lemma {:induction false} LaddersEndPerTagIff(tags: set<string>)
    ensures LaddersEndPerTag(tags) <==> CountersApart(tags) && KeysApart(tags)
  {
    if t, u :| t in tags && u in tags && !CounterApart(t, u) {
      CollisionMisleads(tags, t, u);
    } else if t, u :| t in tags && u in tags && t != u && Stem(t) == Stem(u) {
      SharedKeyMisleads(tags, t, u);
    } else {
      forall checks, c: Check | NextFailure(checks, tags, c) ensures EndsRight(checks, {c.opts.tag}, c) {
        LadderEnds(checks, tags, c);
        assert Sharing(tags, c.opts.tag) == {c.opts.tag};
      }
    }
  }

  // ----- When an attempt raises an error -----

  /** A scored failure of `t` meets a file that is not what it expects. */
  predicate Jams(files: Notes, t: string) {
    BadCounter(files, t) || StallFile(t) == t || (StallFile(t) in files && !files[StallFile(t)].Stall?)
  }

  /** Then it raises an error, and so does every later one. */
  lemma JammedForGood(files: Notes, c: Check)
    requires Jams(files, c.opts.tag) && c.found.score != ""
    ensures NoteFailure(files, c).Crashed? && Jams(NoteFailure(files, c).files, c.opts.tag)
  {
    NamesDiffer(c.opts.tag, c.opts.tag);
  }

  /** Otherwise it is counted. */
  lemma NotJammedIsCounted(files: Notes, c: Check)
    requires !Jams(files, c.opts.tag)
    requires FirstFile(c.opts.tag) in files ==> !files[FirstFile(c.opts.tag)].Stall?
    ensures NoteFailure(files, c).Noted?
    ensures Counted(NoteFailure(files, c).files, c.opts.tag) == Counted(files, c.opts.tag) + 1
    ensures NoteFailure(files, c).why.None? ==>
              && Counted(files, c.opts.tag) + 1 < c.opts.limit
              && (c.opts.deadline.Some? ==> c.found.now < c.opts.deadline.value)
  {
    var t := c.opts.tag;
    NamesDiffer(t, t);
    assert SameAt(WithCount(files, c), files, StallFile(t));
    assert FirstFile(t) in Written(files, c) && !Written(files, c)[FirstFile(t)].Stall?;
  }

  /** The note under a name was written by a failure of one of the tags. */
  predicate OwnedNote(name: string, note: Note, tags: set<string>) {
    match note
    case Count(_) => name in tags
    case Since(_) => exists u :: u in tags && u != name && name == FirstFile(u)
    case Stall(_, _) => exists u :: u in tags && name == StallFile(u)
  }

  predicate Owned(files: Notes, tags: set<string>) {
    forall name :: name in files ==> OwnedNote(name, files[name], tags)
  }

  /** The tags with a counted failure. */
  function Failed(checks: seq<Check>): set<string> {
    set c | c in checks && CountsAttempt(c) :: c.opts.tag
  }

  lemma WithCountOwned(files: Notes, c: Check, tags: set<string>)
    requires Owned(files, tags)
    ensures Owned(WithCount(files, c), tags + {c.opts.tag})
  {
    var g, t := WithCount(files, c), c.opts.tag;
    forall name | name in g ensures OwnedNote(name, g[name], tags + {t}) {
      assert name in files ==> OwnedNote(name, files[name], tags);
      assert t in tags + {t};
    }
  }

  lemma FailureKeepsOwned(files: Notes, c: Check, tags: set<string>)
    requires Owned(files, tags)
    ensures Owned(NoteFailure(files, c).files, tags + {c.opts.tag})
  {
    var t, counted := c.opts.tag, WithCount(files, c);
    WithCountOwned(files, c, tags);
    forall name | name in files ensures OwnedNote(name, files[name], tags + {t}) {
      assert OwnedNote(name, files[name], tags);
    }
    assert t in tags + {t};
    assert Owned(WithStall(counted, c), tags + {t});
  }

  lemma {:induction false} AlwaysOwned(checks: seq<Check>)
    ensures Owned(After(checks).attempts, Failed(checks))
  {
    if checks != [] {
      var front, c := checks[..|checks| - 1], checks[|checks| - 1];
      assert checks == front + [c];
      AlwaysOwned(front);
      AttemptsAfterLast(front, c);
      FailedOneMore(front, c);
      if CountsAttempt(c) {
        FailureKeepsOwned(After(front).attempts, c, Failed(front));
      }
    }
  }

  lemma FailedOneMore(front: seq<Check>, c: Check)
    ensures Failed(front + [c]) == Failed(front) + (if CountsAttempt(c) then {c.opts.tag} else {})
  {
    assert forall x :: x in front + [c] <==> x in front || x == c;
  }

  /** No failure of the tags can jam `t`. */
  predicate Free(tags: set<string>, t: string) {
    && t != StallFile(t)
    && forall u :: u in tags ==> u != StallFile(t) && t != StallFile(u) && (u != t ==> t != FirstFile(u))
  }

  lemma FreeIsNotJammed(files: Notes, tags: set<string>, t: string)
    requires Owned(files, tags) && Free(tags, t)
    ensures !Jams(files, t)
    ensures FirstFile(t) in files ==> !files[FirstFile(t)].Stall?
  {
    forall u | u in tags ensures StallFile(t) != FirstFile(u) && FirstFile(t) != StallFile(u) {
      NamesDiffer(u, t);
      NamesDiffer(t, u);
    }
  }
}
