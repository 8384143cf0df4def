/**
  Where honest verdicts come from: a check whose tests were run one by one on restored data
  returns zero only if the specs it listed pass.
*/
module HonestVerdicts {
  import opened Paths
  import opened Regression
  import opened RunDirectory
  import opened RunHistory
  import SpecRunner

  /** One run of the tests of a check: the world, the enumerated tests, the built app they
      start from, and whether there is a browser. */
  datatype Execution = Execution(w: SpecRunner.World, ids: seq<string>, start: Files, browser: bool)

  /** The first test that counts, and the browser state from there on. */
  function Counting(e: Execution): (nat, bool) {
    SpecRunner.CountsFrom(e.w, e.ids, e.start, e.browser)
  }

  /** The tests kept to the data files, the budget lasted, and a reset, if any, came before
      nothing that was not run again. */
  ghost predicate Undisturbed(e: Execution) {
    && SpecRunner.WritesDataOnly(e.w) && SpecRunner.NeverSpent(e.w, e.ids)
    && SpecRunner.AllRunAgain(e.ids, Counting(e).0)
  }

  /** Every test of the spec, run alone on the app, passes. */
  predicate PassesAlone(e: Execution, tests: set<string>) {
    forall id :: id in tests ==> e.w.run(id, e.start, Counting(e).1).rc == 0
  }

  /** The specs a check lists: its own and those to re-run, or all of them. */
  ghost predicate IsListing(x: Suite, d: Dir, c: Check, listed: seq<string>) {
    if c.opts.best then forall t, s :: t in x.specs && s in x.specs[t] ==> s in listed
    else
      && c.opts.tag in x.specs
      && forall s :: s in listed <==> s in x.specs[c.opts.tag] || Rerun(Family, x.regress, c.opts.tag, d.status, s)
  }

  /** The verdict of the check is that of the execution, which has all the tests of the listed
      specs, and an app passes a spec whose tests pass alone on it. */
  ghost predicate Executes(x: Suite, c: Check, listed: seq<string>, testsOf: string -> set<string>, e: Execution) {
    && Undisturbed(e)
    && c.found.rc == SpecRunner.RunFrom(e.w, e.ids, e.start, e.browser).rc
    && (forall s, id :: s in listed && id in testsOf(s) ==> id in e.ids)
    && (forall s :: PassesAlone(e, testsOf(s)) ==> x.passes(Shipped(c.found.files), s))
  }

  lemma ZeroMeansPassed(e: Execution, id: string)
    requires Undisturbed(e) && id in e.ids && SpecRunner.RunFrom(e.w, e.ids, e.start, e.browser).rc == 0
    ensures e.w.run(id, e.start, Counting(e).1).rc == 0
  {
    var (r, b) := Counting(e);
    SpecRunner.RunIsIsolated(e.w, e.ids, e.start, e.browser);
    SpecRunner.AloneRcZero(e.w, e.ids[r..], e.start, b);
    var i :| 0 <= i < |e.ids| && e.ids[i] == id;
    if i >= r {
      assert e.ids[r..][i - r] == id;
    }
    assert id in e.ids[r..];
  }

  /** What a zero verdict rests on; a check that fails, before its tests or in them, needs no
      execution to be honest. */
  ghost predicate Accounted(
    x: Suite, d: Dir, c: Check, listed: seq<string>, testsOf: string -> set<string>, e: Execution)
  {
    && (c.opts.best || c.opts.tag in x.specs)
    && (c.found.rc == 0 ==> IsListing(x, d, c, listed) && Executes(x, c, listed, testsOf, e))
  }

  /** Such a check is honest. */
  lemma {:induction false} ExecutedCheckIsHonest(
    x: Suite, d: Dir, c: Check, listed: seq<string>, testsOf: string -> set<string>, e: Execution)
    requires Accounted(x, d, c, listed, testsOf, e)
    ensures Honest(x, d, c)
  {
    if c.found.rc == 0 {
      forall s | s in listed ensures x.passes(Shipped(c.found.files), s) {
        forall id | id in testsOf(s) ensures e.w.run(id, e.start, Counting(e).1).rc == 0 {
          ZeroMeansPassed(e, id);
        }
        assert PassesAlone(e, testsOf(s));
      }
      ListingIsHonest(x, d, c, listed);
    }
  }

  /** What each passing check of a history listed and ran. */
  ghost predicate ExecutedRun(
    x: Suite, checks: seq<Check>, listed: nat -> seq<string>, testsOf: string -> set<string>, ran: nat -> Execution)
  {
    forall i :: 0 <= i < |checks| ==> Accounted(x, After(checks[..i]), checks[i], listed(i), testsOf, ran(i))
  }

  /** So after every history whose passing checks ran their tests that way, whatever the failing
      ones did, the accepted app passes the specs of every requirement whose recorded verdict is
      a pass, with nothing assumed of the verdicts. */
  lemma {:induction false} AcceptedAppPassesItsTests(
    x: Suite, checks: seq<Check>, listed: nat -> seq<string>, testsOf: string -> set<string>, ran: nat -> Execution)
    requires ValidSuite(x) && ExecutedRun(x, checks, listed, testsOf, ran)
    ensures GoodPasses(x, After(checks))
  {
    forall i | 0 <= i < |checks| ensures Honest(x, After(checks[..i]), checks[i]) {
      ExecutedCheckIsHonest(x, After(checks[..i]), checks[i], listed(i), testsOf, ran(i));
    }
    GoodAlwaysPasses(x, checks);
  }
}
