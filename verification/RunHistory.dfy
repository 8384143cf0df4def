/**
  What holds at every point of every run: the history of a run directory is the
  list of checks made in it.
*/
module RunHistory {
  import opened Paths
  import opened Regression
  import opened RunDirectory
  import opened Wrappers

  function After(checks: seq<Check>): Dir {
    if checks == [] then EMPTY else AfterCheck(After(checks[..|checks| - 1]), checks[|checks| - 1])
  }

  /** What the last check did to the verdicts and snapshots. */
  lemma AfterLast(checks: seq<Check>)
    requires checks != []
    ensures var d, d', c := After(checks[..|checks| - 1]), After(checks), checks[|checks| - 1];
            && d'.status == d.status[c.opts.tag := c.found.rc]
            && d'.good == (if c.found.rc == 0 then Some(Good(Shipped(c.found.files), c.found.now)) else d.good)
            && d'.best == KeptBest(d, c)
  {
  }

  // ----- The last verdicts and the accepted snapshot -----

  /** The position of the last check of a tag, -1 when there is none. */
  function LastCheckOf(checks: seq<Check>, tag: string): (i: int)
    ensures -1 <= i < |checks|
    ensures i >= 0 ==> checks[i].opts.tag == tag
    ensures forall k :: i < k < |checks| ==> checks[k].opts.tag != tag
  {
    if checks == [] then -1
    else if checks[|checks| - 1].opts.tag == tag then |checks| - 1
    else LastCheckOf(checks[..|checks| - 1], tag)
  }

  /** The recorded verdict of a tag is that of its last check. */
  lemma {:induction false} StatusIsLastVerdict(checks: seq<Check>, tag: string)
    ensures var i, status := LastCheckOf(checks, tag), After(checks).status;
            (tag in status <==> i >= 0) && (i >= 0 ==> status[tag] == checks[i].found.rc)
  {
    if checks != [] {
      AfterLast(checks);
      StatusIsLastVerdict(checks[..|checks| - 1], tag);
    }
  }

  /** The position of the last passing check, -1 when there is none. */
  function LastPass(checks: seq<Check>): (i: int)
    ensures -1 <= i < |checks|
    ensures i >= 0 ==> checks[i].found.rc == 0
    ensures forall k :: i < k < |checks| ==> checks[k].found.rc != 0
  {
    if checks == [] then -1
    else if checks[|checks| - 1].found.rc == 0 then |checks| - 1
    else LastPass(checks[..|checks| - 1])
  }

  /** The accepted snapshot is what the last passing check verified. */
  lemma {:induction false} GoodIsLastPass(checks: seq<Check>)
    ensures var i := LastPass(checks);
            After(checks).good == if i < 0 then None else Some(Good(Shipped(checks[i].found.files), checks[i].found.now))
  {
    if checks != [] {
      AfterLast(checks);
      GoodIsLastPass(checks[..|checks| - 1]);
    }
  }

  // ----- The accepted snapshot passes everything accepted -----

  /** What a run is about: the specs of each requirement, the regression map handed to
      every requirement check, and which app passes which spec. */
  datatype Suite = Suite(specs: SpecMap, regress: SpecMap, passes: (Files, string) -> bool)

  predicate ValidSuite(x: Suite) {
    forall t :: t in x.specs ==> t in x.regress && x.regress[t] == x.specs[t]
  }

  /** A zero verdict means that every spec the check listed passed. A requirement check
      lists its own specs and those to re-run; the full-suite check lists all of them. */
  ghost predicate Honest(x: Suite, d: Dir, c: Check) {
    && (c.opts.best || c.opts.tag in x.specs)
    && (c.found.rc == 0 ==>
          var app := Shipped(c.found.files);
          if c.opts.best then forall t, s :: t in x.specs && s in x.specs[t] ==> x.passes(app, s)
          else
            && (forall s :: s in x.specs[c.opts.tag] ==> x.passes(app, s))
            && (forall s :: Rerun(Family, x.regress, c.opts.tag, d.status, s) ==> x.passes(app, s)))
  }

  /** So it is when a zero verdict means that the listed specs passed, and the list is the one
      the check selects. */
  lemma {:induction false} ListingIsHonest(x: Suite, d: Dir, c: Check, listed: seq<string>)
    requires c.opts.best ==> forall t, s :: t in x.specs && s in x.specs[t] ==> s in listed
    requires !c.opts.best ==>
               && c.opts.tag in x.specs
               && forall s :: s in listed <==> s in x.specs[c.opts.tag] || Rerun(Family, x.regress, c.opts.tag, d.status, s)
    requires c.found.rc == 0 ==> forall s :: s in listed ==> x.passes(Shipped(c.found.files), s)
    ensures Honest(x, d, c)
  {
  }

  ghost predicate HonestRun(x: Suite, checks: seq<Check>) {
    forall i :: 0 <= i < |checks| ==> Honest(x, After(checks[..i]), checks[i])
  }

  /** Every requirement whose last verdict is a pass holds in the accepted snapshot. */
  ghost predicate GoodPasses(x: Suite, d: Dir) {
    forall t :: t in x.specs && Passed(d.status, t) ==>
      d.good.Some? && forall s :: s in x.specs[t] ==> x.passes(d.good.value.app, s)
  }

  lemma {:induction false} CheckKeepsGood(x: Suite, d: Dir, c: Check)
    requires ValidSuite(x) && Honest(x, d, c) && GoodPasses(x, d)
    ensures GoodPasses(x, AfterCheck(d, c))
  {
  }

  /** At every point of every run, the app in `.arc-good` passes all the specs of every
      requirement whose recorded verdict is a pass. */
  lemma {:induction false} GoodAlwaysPasses(x: Suite, checks: seq<Check>)
    requires ValidSuite(x) && HonestRun(x, checks)
    ensures GoodPasses(x, After(checks))
  {
    if checks != [] {
      var front, n := checks[..|checks| - 1], |checks| - 1;
      forall i | 0 <= i < |front| ensures Honest(x, After(front[..i]), front[i]) {
        assert Honest(x, After(checks[..i]), checks[i]) && front[..i] == checks[..i];
      }
      GoodAlwaysPasses(x, front);
      assert Honest(x, After(checks[..n]), checks[n]);
      CheckKeepsGood(x, After(front), checks[n]);
    }
  }

  // ----- The accepted snapshot and the canaries -----

  /** A passing honest check of a requirement whose list has the first spec of `t` verified an app
      that passes it. */
  lemma CheckPassesFirstSpec(x: Suite, d: Dir, c: Check, t: string)
    requires ValidSuite(x) && Honest(x, d, c) && c.found.rc == 0 && LeadsFamily(Family, x.regress, t)
    requires if c.opts.best then t in x.specs else c.opts.tag == t || Earned(Family, x.regress, d.status, Family(t))
    ensures x.passes(Shipped(c.found.files), x.regress[t][0])
  {
    var s := x.regress[t][0];
    if !c.opts.best && c.opts.tag != t {
      LeaderRides(Family, x.regress, c.opts.tag, t);
      assert CanarySpec(Family, x.regress, c.opts.tag, d.status, s);
    } else {
      assert t in x.specs && s in x.specs[t];
    }
  }

  /** After every history, the accepted app passes the first spec of every family that had passed
      when it was accepted: a rewritten seed cannot be accepted while it breaks one. */
  lemma {:induction false} GoodPassesCanaries(x: Suite, checks: seq<Check>, t: string)
    requires ValidSuite(x) && HonestRun(x, checks) && LeadsFamily(Family, x.regress, t)
    requires var i := LastPass(checks);
             && i >= 0
             && if checks[i].opts.best then t in x.specs
                else checks[i].opts.tag == t || Earned(Family, x.regress, After(checks[..i]).status, Family(t))
    ensures After(checks).good.Some? && x.passes(After(checks).good.value.app, x.regress[t][0])
  {
    var i := LastPass(checks);
    GoodIsLastPass(checks);
    CheckPassesFirstSpec(x, After(checks[..i]), checks[i], t);
  }

  /** A suite in which nothing but one spec can fail, and it always does. */
  function OnlyFails(m: SpecMap, s: string): Suite {
    Suite(m, m, (app: Files, x: string) => x != s)
  }

  /** Not so a family that has not passed, the first requirement's included: any check that does not
      have its first spec among its own can then be honest, pass, and have an app accepted that
      breaks the spec. */
  lemma {:induction false} UnearnedCanaryMayBreak(m: SpecMap, checks: seq<Check>, c: Check, t: string)
    requires LeadsFamily(Family, m, t) && OwnFirstSpec(Family, m, t) && !Earned(Family, m, After(checks).status, Family(t))
    requires !c.opts.best && c.found.rc == 0 && c.opts.tag in m && m[t][0] !in m[c.opts.tag]
    ensures var x, d' := OnlyFails(m, m[t][0]), After(checks + [c]);
            && ValidSuite(x) && Honest(x, After(checks), c)
            && d'.good.Some? && !x.passes(d'.good.value.app, m[t][0])
  {
    FirstSpecIsListedIff(Family, m, c.opts.tag, After(checks).status, t);
    assert (checks + [c])[..|checks|] == checks;
    AfterLast(checks + [c]);
  }

  // ----- The best snapshot -----

  /** The earliest full-suite check that reaches the highest pass count, -1 when there is
      no full-suite check. */
  function EarliestBest(checks: seq<Check>): (i: int)
    ensures -1 <= i < |checks|
    ensures i >= 0 ==> checks[i].opts.best
    ensures forall k :: 0 <= k < |checks| && checks[k].opts.best ==>
              i >= 0 && checks[k].found.passed <= checks[i].found.passed
    ensures forall k :: 0 <= k < i && checks[k].opts.best ==> checks[k].found.passed < checks[i].found.passed
  {
    if checks == [] then -1
    else
      var front, c := checks[..|checks| - 1], checks[|checks| - 1];
      var i := EarliestBest(front);
      assert forall k :: 0 <= k < |front| ==> checks[k] == front[k];
      if c.opts.best && (i >= 0 ==> c.found.passed > front[i].found.passed) then |checks| - 1 else i
  }

  /** `.arc-best` holds what that check verified. */
  lemma {:induction false} BestIsEarliestBest(checks: seq<Check>)
    ensures var i := EarliestBest(checks);
            After(checks).best ==
            if i < 0 then None
            else Some(Best(Shipped(checks[i].found.files), checks[i].found.passed, checks[i].found.rc))
  {
    if checks != [] {
      AfterLast(checks);
      BestIsEarliestBest(checks[..|checks| - 1]);
    }
  }
}
