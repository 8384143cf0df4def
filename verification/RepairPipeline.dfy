/**
  The pipeline `build_pipeline` lays out, driven by the edge rule it documents: a
  failing check without STOP goes back to its implement node, any other outcome goes
  forward; after the requirements comes the full-suite check with its own fix loop.
*/
module RepairPipeline {
  import opened Paths
  import opened Regression
  import opened RunDirectory
  import opened Wrappers
  import opened RunHistory
  import opened RepairLadder

  datatype Policy = Policy(
    repairs: nat, finalRepairs: nat, deadline: real, minNodeSeconds: real, finalReserve: real, repairWindow: real)

  /** The requirement tags in dependency order, the specs of each, the regression map,
      the policy and the quarantined tags. */
  datatype Pipeline = Pipeline(
    tags: seq<string>, specs: SpecMap, regress: SpecMap, policy: Policy, quarantine: set<string>)

  predicate ValidPipeline(p: Pipeline) {
    && (forall t :: t in p.tags ==> t in p.specs)
    && (forall t :: t in p.specs ==> t in p.regress && p.regress[t] == p.specs[t])
  }

  datatype Phase = Checking(i: nat) | CheckingAll | Done

  /** There is a full-suite check. */
  predicate HasFinal(p: Pipeline) {
    |p.tags| > 1 && exists t :: t in p.specs && p.specs[t] != []
  }

  predicate ValidPhase(p: Pipeline, ph: Phase) {
    match ph
    case Checking(i) => i < |p.tags|
    case CheckingAll => HasFinal(p)
    case Done => true
  }

  const ALL := "ALL"

  function TagOf(p: Pipeline, ph: Phase): string
    requires ValidPhase(p, ph)
  {
    if ph.Checking? then p.tags[ph.i] else ALL
  }

  /** How many checks a phase may spend. */
  function Limit(p: Pipeline, ph: Phase): nat {
    if ph.Checking? then p.policy.repairs + 1 else if ph.CheckingAll? then p.policy.finalRepairs + 1 else 0
  }

  /** `int(x)`, which cuts towards zero. */
  function Truncated(x: real): real {
    if x >= 0.0 then x.Floor as real else -((-x).Floor as real)
  }

  /** The options the check of a phase is called with. */
  function OptionsOf(p: Pipeline, ph: Phase): Options
    requires ValidPhase(p, ph)
  {
    var tag, pol := TagOf(p, ph), p.policy;
    if ph.Checking? then
      var reserve := (|p.tags| - ph.i - 1) as real * pol.minNodeSeconds + pol.finalReserve;
      Options(tag, Limit(p, ph), Some(Truncated(pol.deadline - reserve)), Some(pol.repairWindow), false, tag in p.quarantine)
    else
      Options(tag, Limit(p, ph), Some(Truncated(pol.deadline - (pol.finalReserve / 2.0).Floor as real)), None, true,
              tag in p.quarantine)
  }

  /** What one round brings: the finding of its check, and whether the scheduler's own
      retry budget is used up. */
  datatype Round = Round(found: Finding, budgetExhausted: bool)

  /** Where the run is, the checks made so far, and the phase each was made in. */
  datatype Machine = Machine(phase: Phase, checks: seq<Check>, at: seq<Phase>)

  function Next(p: Pipeline, ph: Phase): Phase {
    if ph.Checking? && ph.i + 1 < |p.tags| then Checking(ph.i + 1)
    else if ph.Checking? && HasFinal(p) then CheckingAll
    else Done
  }

  function Start(p: Pipeline): Machine {
    Machine(if p.tags == [] then Done else Checking(0), [], [])
  }

  predicate Repairs(d: Dir, c: Check, r: Round) {
    c.found.rc != 0 && !Stops(d, c) && !r.budgetExhausted
  }

  function Step(p: Pipeline, m: Machine, r: Round): Machine
    requires ValidPhase(p, m.phase)
  {
    if m.phase.Done? then m
    else
      var c := Check(OptionsOf(p, m.phase), r.found);
      Machine(if Repairs(After(m.checks), c, r) then m.phase else Next(p, m.phase), m.checks + [c], m.at + [m.phase])
  }

  /** The machine after any rounds; rounds past the end change nothing. */
  function Run(p: Pipeline, rounds: seq<Round>): (m: Machine)
    ensures ValidPhase(p, m.phase)
  {
    if rounds == [] then Start(p) else Step(p, Run(p, rounds[..|rounds| - 1]), rounds[|rounds| - 1])
  }

  // ----- The run ends -----

  /** Checks left for a tag that has used some attempts. */
  function Tries(limit: nat, used: nat): nat {
    if used >= limit then 1 else limit - used
  }

  function TriesNow(p: Pipeline, m: Machine): nat
    requires ValidPhase(p, m.phase)
  {
    if m.phase.Done? then 0 else Tries(Limit(p, m.phase), Counted(After(m.checks).attempts, TagOf(p, m.phase)))
  }

  /** Checks the requirements from `i` on and the full suite may spend. */
  function Budget(p: Pipeline, i: nat): nat
    requires i <= |p.tags|
    decreases |p.tags| - i
  {
    if i < |p.tags| then p.policy.repairs + 1 + Budget(p, i + 1)
    else if HasFinal(p) then p.policy.finalRepairs + 1 else 0
  }

  function Rest(p: Pipeline, ph: Phase): nat
    requires ValidPhase(p, ph)
  {
    if ph.Checking? then Budget(p, ph.i + 1) else 0
  }

  /** The order in which phases come. */
  function Rank(p: Pipeline, ph: Phase): nat {
    match ph
    case Checking(i) => i
    case CheckingAll => |p.tags|
    case Done => |p.tags| + 1
  }

  lemma NextRank(p: Pipeline, ph: Phase)
    requires ValidPhase(p, ph) && !ph.Done?
    ensures var q := Next(p, ph);
            && ValidPhase(p, q) && Rank(p, ph) < Rank(p, q)
            && forall x :: ValidPhase(p, x) && !x.Done? && Rank(p, x) < Rank(p, q) ==> Rank(p, x) <= Rank(p, ph)
  {
  }

  // ----- Which tags can jam -----

  predicate Repairable(p: Pipeline, i: nat)
    requires i < |p.tags|
  {
    p.tags[i] !in p.quarantine
  }

  /** A failure of requirement `j` cannot make a check of requirement `i` raise an error. */
  predicate Harmless(p: Pipeline, j: nat, i: nat)
    requires j < |p.tags| && i < |p.tags|
  {
    && p.tags[i] != StallFile(p.tags[j])
    && (j < i && p.tags[j] != p.tags[i] ==> p.tags[i] != FirstFile(p.tags[j]))
  }

  /** No tag is the name of a stall record, nor of the first-failure time of an earlier tag;
      quarantined tags leave no records. */
  predicate Unjammed(p: Pipeline) {
    forall i, j :: 0 <= i < |p.tags| && 0 <= j < |p.tags| && Repairable(p, i) && Repairable(p, j) ==> Harmless(p, j, i)
  }

  /** The tags that may have a counted failure in a phase. */
  function Seen(p: Pipeline, ph: Phase): set<string> {
    (set j | 0 <= j < |p.tags| && j <= Rank(p, ph) && Repairable(p, j) :: p.tags[j])
    + (if Rank(p, ph) >= |p.tags| then {ALL} else {})
  }

  /** Every counted failure so far was one of those. */
  predicate Tagged(p: Pipeline, m: Machine) {
    ValidPhase(p, m.phase) && Failed(m.checks) <= Seen(p, m.phase)
  }

  lemma SeenGrows(p: Pipeline, a: Phase, b: Phase)
    requires Rank(p, a) <= Rank(p, b)
    ensures Seen(p, a) <= Seen(p, b)
  {
  }

  lemma StepKeepsTagged(p: Pipeline, m: Machine, r: Round)
    requires Tagged(p, m)
    ensures Tagged(p, Step(p, m, r))
  {
    if !m.phase.Done? {
      var c := Check(OptionsOf(p, m.phase), r.found);
      FailedOneMore(m.checks, c);
      NextRank(p, m.phase);
      SeenGrows(p, m.phase, Step(p, m, r).phase);
      assert CountsAttempt(c) ==> c.opts.tag in Seen(p, m.phase);
    }
  }

  lemma {:induction false} RunIsTagged(p: Pipeline, rounds: seq<Round>)
    ensures Tagged(p, Run(p, rounds))
  {
    if rounds != [] {
      RunIsTagged(p, rounds[..|rounds| - 1]);
      StepKeepsTagged(p, Run(p, rounds[..|rounds| - 1]), rounds[|rounds| - 1]);
    }
  }

  lemma AllHasNoDot(u: string)
    ensures ALL != StallFile(u) && ALL != FirstFile(u)
  {
    assert '.' !in ALL && FirstFile(u)[|Stem(u)|] == '.' && StallFile(u)[|Stem(u)|] == '.';
  }

  lemma AllStallIsItsOwn()
    ensures StallFile(StallFile(ALL)) == StallFile(ALL)
  {
    assert LastDot(ALL) == -1;
    var name := StallFile(ALL);
    assert name == "ALL.stall" && name[3] == '.';
    assert LastDot(name) == 3;
    assert name[..3] == ALL;
  }

  lemma SeenIsFree(p: Pipeline, ph: Phase)
    requires Unjammed(p) && ValidPhase(p, ph) && !ph.Done? && TagOf(p, ph) !in p.quarantine
    ensures Free(Seen(p, ph), TagOf(p, ph))
  {
    var t := TagOf(p, ph);
    if ph.Checking? {
      assert Harmless(p, ph.i, ph.i);
      forall j | 0 <= j <= ph.i && Repairable(p, j)
        ensures p.tags[j] != StallFile(t) && t != StallFile(p.tags[j]) && (p.tags[j] != t ==> t != FirstFile(p.tags[j])) {
        assert Harmless(p, j, ph.i) && Harmless(p, ph.i, j);
      }
    } else {
      AllHasNoDot(ALL);
      AllStallIsItsOwn();
      forall u | u in Seen(p, ph)
        ensures u != StallFile(t) && t != StallFile(u) && (u != t ==> t != FirstFile(u)) {
        AllHasNoDot(u);
        if u != ALL {
          var j :| 0 <= j < |p.tags| && Repairable(p, j) && p.tags[j] == u;
          assert Harmless(p, j, j);
        }
      }
    }
  }

  // ----- Every check brings the end nearer -----

  /** A repair round uses up an attempt. */
  lemma RepairUsesAttempt(p: Pipeline, m: Machine, r: Round)
    requires Unjammed(p) && Tagged(p, m) && !m.phase.Done?
    requires Repairs(After(m.checks), Check(OptionsOf(p, m.phase), r.found), r)
    ensures TriesNow(p, Step(p, m, r)) < TriesNow(p, m)
  {
    var c, files := Check(OptionsOf(p, m.phase), r.found), After(m.checks).attempts;
    SeenIsFree(p, m.phase);
    AlwaysOwned(m.checks);
    FreeIsNotJammed(files, Failed(m.checks), c.opts.tag);
    NotJammedIsCounted(files, c);
    AttemptsAfterLast(m.checks, c);
  }

  /** Whatever happens, a check brings the end of the run nearer. */
  lemma {:induction false} StepDecreases(p: Pipeline, m: Machine, r: Round)
    requires Unjammed(p) && Tagged(p, m) && !m.phase.Done?
    ensures var m' := Step(p, m, r);
            TriesNow(p, m') + Rest(p, m'.phase) < TriesNow(p, m) + Rest(p, m.phase)
  {
    if Repairs(After(m.checks), Check(OptionsOf(p, m.phase), r.found), r) {
      RepairUsesAttempt(p, m, r);
    }
  }

  lemma {:induction false} BudgetTotal(p: Pipeline, i: nat)
    requires i <= |p.tags|
    ensures Budget(p, i) == (|p.tags| - i) * (p.policy.repairs + 1) + (if HasFinal(p) then p.policy.finalRepairs + 1 else 0)
    decreases |p.tags| - i
  {
    if i < |p.tags| {
      BudgetTotal(p, i + 1);
      var rest := |p.tags| - i - 1;
      assert (rest + 1) * (p.policy.repairs + 1) == rest * (p.policy.repairs + 1) + (p.policy.repairs + 1);
    }
  }

  lemma {:induction false} ChecksWithinBudget(p: Pipeline, rounds: seq<Round>)
    requires Unjammed(p)
    ensures var m := Run(p, rounds); |m.checks| + TriesNow(p, m) + Rest(p, m.phase) <= Budget(p, 0)
    ensures !Run(p, rounds).phase.Done? ==> |Run(p, rounds).checks| == |rounds|
  {
    if rounds == [] {
      if p.tags != [] {
        assert Budget(p, 0) == p.policy.repairs + 1 + Budget(p, 1);
      }
    } else {
      var front := rounds[..|rounds| - 1];
      ChecksWithinBudget(p, front);
      if !Run(p, front).phase.Done? {
        RunIsTagged(p, front);
        StepDecreases(p, Run(p, front), rounds[|rounds| - 1]);
      }
    }
  }

  function Bound(p: Pipeline): nat {
    |p.tags| * (p.policy.repairs + 1) + (if HasFinal(p) then p.policy.finalRepairs + 1 else 0)
  }

  /** Over any outcomes, N requirements take at most N * (repairs + 1) requirement checks
      and final_repairs + 1 full-suite checks, and by then the run has ended. */
  lemma {:induction false} RunEnds(p: Pipeline, rounds: seq<Round>)
    requires Unjammed(p)
    ensures |Run(p, rounds).checks| <= Bound(p) && (|rounds| >= Bound(p) ==> Run(p, rounds).phase.Done?)
  {
    BudgetTotal(p, 0);
    ChecksWithinBudget(p, rounds);
  }

  // ----- When a check is repaired -----

  /** The time a check must leave: what every later requirement and the full suite are to get, or for
      the full suite itself half of its own share. */
  function Reserve(p: Pipeline, ph: Phase): real {
    match ph
    case Checking(i) => (|p.tags| - i - 1) as real * p.policy.minNodeSeconds + p.policy.finalReserve
    case _ => (p.policy.finalReserve / 2.0).Floor as real
  }

  lemma OptionsAre(p: Pipeline, ph: Phase)
    requires ValidPhase(p, ph) && !ph.Done?
    ensures var o := OptionsOf(p, ph);
            && o.tag == TagOf(p, ph) && o.quarantined == (o.tag in p.quarantine)
            && o.limit == 1 + (if ph.Checking? then p.policy.repairs else p.policy.finalRepairs)
            && o.deadline == Some(Truncated(p.policy.deadline - Reserve(p, ph)))
            && o.window == (if ph.Checking? then Some(p.policy.repairWindow) else None)
  {
    var pol := p.policy;
    if ph.Checking? {
      var reserve := (|p.tags| - ph.i - 1) as real * pol.minNodeSeconds + pol.finalReserve;
      assert Reserve(p, ph) == reserve;
      assert OptionsOf(p, ph).deadline.value == Truncated(pol.deadline - reserve);
    } else {
      var reserve := (pol.finalReserve / 2.0).Floor as real;
      assert Reserve(p, ph) == reserve;
      assert OptionsOf(p, ph).deadline.value == Truncated(pol.deadline - reserve);
    }
  }

  lemma TruncatedIsBelow(x: real, y: real)
    requires x <= y && 0.0 <= y
    ensures Truncated(x) <= y
  {
    if x >= 0.0 {
      assert x.Floor as real <= x;
    } else {
      assert -x < (-x).Floor as real + 1.0;
      assert (-x).Floor >= 0;
    }
  }

  lemma RepairsMeaning(d: Dir, c: Check, r: Round)
    requires c.found == r.found
    ensures Repairs(d, c, r) <==>
            && r.found.rc != 0 && !r.found.printedStop && !r.budgetExhausted
            && !c.opts.quarantined && StopReason(d, c).None?
  {
  }

  lemma StoppedByDeadline(files: Notes, d: Dir, c: Check, tags: set<string>)
    requires d.attempts == files && Owned(files, tags) && Free(tags, c.opts.tag)
    requires c.opts.deadline.Some? && c.found.now >= c.opts.deadline.value
    ensures StopReason(d, c).Some?
  {
    FreeIsNotJammed(files, tags, c.opts.tag);
    NotJammedIsCounted(files, c);
  }

  /** Once less than that is left before the deadline, a failing check is not repaired. */
  lemma {:induction false} LateChecksAreNotRepaired(p: Pipeline, m: Machine, r: Round)
    requires Unjammed(p) && Tagged(p, m) && !m.phase.Done?
    requires r.found.now >= 0.0 && p.policy.deadline - r.found.now <= Reserve(p, m.phase)
    ensures !Repairs(After(m.checks), Check(OptionsOf(p, m.phase), r.found), r)
  {
    var c, d := Check(OptionsOf(p, m.phase), r.found), After(m.checks);
    OptionsAre(p, m.phase);
    TruncatedIsBelow(p.policy.deadline - Reserve(p, m.phase), r.found.now);
    RepairsMeaning(d, c, r);
    if c.opts.tag !in p.quarantine {
      SeenIsFree(p, m.phase);
      AlwaysOwned(m.checks);
      StoppedByDeadline(d.attempts, d, c, Failed(m.checks));
    }
  }

  function AllTags(p: Pipeline): set<string> {
    (set t | t in p.tags) + {ALL}
  }

  lemma {:induction false} RunTags(p: Pipeline, rounds: seq<Round>)
    ensures TagsIn(Run(p, rounds).checks, AllTags(p))
  {
    if rounds != [] {
      RunTags(p, rounds[..|rounds| - 1]);
    }
  }

  /** The limits of a check, in terms of the policy and of the checks made so far. */
  predicate WithinLimits(p: Pipeline, m: Machine, found: Finding)
    requires ValidPhase(p, m.phase) && !m.phase.Done?
  {
    var tag := TagOf(p, m.phase);
    var shared := Sharing(AllTags(p), tag);
    var start := Opened(m.checks, shared);
    && |Scores(m.checks, {tag})| < (if m.phase.Checking? then p.policy.repairs else p.policy.finalRepairs)
    && found.now < Truncated(p.policy.deadline - Reserve(p, m.phase))
    && (m.phase.Checking? ==>
          (if start.Some? then found.now - start.value else 0.0) < p.policy.repairWindow)
    && !ThirdEqual(Scores(m.checks, shared), found.score)
  }

  /** Where no tag is the name of a record, a check of a run goes back to its implement node if and only
      if it fails within its limits, prints no STOP of its own, is not quarantined, and the scheduler
      has retries left. */
  lemma {:induction false} RepairsIff(p: Pipeline, rounds: seq<Round>, r: Round)
    requires CountersApart(AllTags(p)) && !Run(p, rounds).phase.Done?
    ensures var m := Run(p, rounds);
            Repairs(After(m.checks), Check(OptionsOf(p, m.phase), r.found), r) <==>
            && r.found.rc != 0 && !r.found.printedStop && !r.budgetExhausted
            && TagOf(p, m.phase) !in p.quarantine && WithinLimits(p, m, r.found)
  {
    var m := Run(p, rounds);
    var c := Check(OptionsOf(p, m.phase), r.found);
    RunTags(p, rounds);
    OptionsAre(p, m.phase);
    RepairsMeaning(After(m.checks), c, r);
    LadderEnds(m.checks, AllTags(p), c);
    LimitsMeaning(p, m, c);
  }

  lemma LimitsMeaning(p: Pipeline, m: Machine, c: Check)
    requires ValidPhase(p, m.phase) && !m.phase.Done? && c.opts == OptionsOf(p, m.phase)
    ensures WithinLimits(p, m, c.found) <==> !ShouldEnd(m.checks, Sharing(AllTags(p), c.opts.tag), c)
  {
    OptionsAre(p, m.phase);
  }

  // ----- And only then -----

  ghost predicate EndsWithin(p: Pipeline, n: nat) {
    forall rounds :: |rounds| >= n ==> Run(p, rounds).phase.Done?
  }

  function Passing(): Round {
    Round(Finding(map[], 0, 0, "1/1", false, 0.0), false)
  }

  function Failing(stop: bool): Round {
    Round(Finding(map[], 1, 0, "1/2", stop, 0.0), false)
  }

  function NotesAfter(p: Pipeline, rounds: seq<Round>): Notes {
    After(Run(p, rounds).checks).attempts
  }

  lemma RunOneMore(p: Pipeline, rounds: seq<Round>, r: Round)
    ensures Run(p, rounds + [r]) == Step(p, Run(p, rounds), r)
  {
    assert (rounds + [r])[..|rounds|] == rounds;
  }

  /** A passing round, or a failing one with STOP, goes on to the next requirement. */
  lemma OneRound(p: Pipeline, rounds: seq<Round>, r: Round, i: nat)
    requires i < |p.tags| && Run(p, rounds).phase == Checking(i)
    ensures var c := Check(OptionsOf(p, Checking(i)), r.found);
            && |Run(p, rounds + [r]).checks| == |Run(p, rounds).checks| + 1
            && NotesAfter(p, rounds + [r]) ==
               (if CountsAttempt(c) then NoteFailure(NotesAfter(p, rounds), c).files else NotesAfter(p, rounds))
            && Run(p, rounds + [r]).phase ==
               (if Repairs(After(Run(p, rounds).checks), c, r) then Checking(i) else Next(p, Checking(i)))
  {
    RunOneMore(p, rounds, r);
    AttemptsAfterLast(Run(p, rounds).checks, Check(OptionsOf(p, Checking(i)), r.found));
  }

  /** Passing rounds reach any later requirement and leave the records alone. */
  lemma {:induction false} PassTo(p: Pipeline, rounds: seq<Round>, a: nat, i: nat) returns (longer: seq<Round>)
    requires a <= i < |p.tags| && Run(p, rounds).phase == Checking(a)
    ensures Run(p, longer).phase == Checking(i) && NotesAfter(p, longer) == NotesAfter(p, rounds)
    decreases i - a
  {
    if a == i {
      longer := rounds;
    } else {
      OneRound(p, rounds, Passing(), a);
      longer := PassTo(p, rounds + [Passing()], a + 1, i);
    }
  }

  /** A jammed requirement is repaired without end. */
  lemma {:induction false} JamGoesOn(p: Pipeline, rounds: seq<Round>, i: nat, n: nat) returns (longer: seq<Round>)
    requires i < |p.tags| && Repairable(p, i) && Run(p, rounds).phase == Checking(i)
    requires Jams(NotesAfter(p, rounds), p.tags[i])
    ensures |longer| >= n && Run(p, longer).phase == Checking(i)
    decreases n - |rounds|
  {
    if n <= |rounds| {
      longer := rounds;
    } else {
      var r := Failing(false);
      OneRound(p, rounds, r, i);
      JammedForGood(NotesAfter(p, rounds), Check(OptionsOf(p, Checking(i)), r.found));
      longer := JamGoesOn(p, rounds + [r], i, n);
    }
  }

  lemma FirstFailureJams(c: Check, b: string)
    requires c.found.score != "" && c.opts.tag != b
    requires !CounterApart(b, c.opts.tag) || c.opts.tag == StallFile(b)
    ensures Jams(NoteFailure(map[], c).files, b)
  {
    FirstFailureWrites(c, b);
  }

  /** A failure of requirement `a` jams requirement `b`. */
  lemma JamLater(p: Pipeline, a: nat, b: nat) returns (rounds: seq<Round>)
    requires a < b < |p.tags| && Repairable(p, a) && Repairable(p, b) && p.tags[a] != p.tags[b]
    requires !CounterApart(p.tags[b], p.tags[a]) || p.tags[a] == StallFile(p.tags[b])
    ensures Run(p, rounds).phase == Checking(b) && Jams(NotesAfter(p, rounds), p.tags[b])
  {
    assert NotesAfter(p, []) == map[];
    rounds := PassTo(p, [], 0, a);
    OneRound(p, rounds, Failing(true), a);
    FirstFailureJams(Check(OptionsOf(p, Checking(a)), Failing(true).found), p.tags[b]);
    rounds := PassTo(p, rounds + [Failing(true)], a + 1, b);
  }

  lemma JamAtOnce(p: Pipeline, i: nat) returns (rounds: seq<Round>)
    requires i < |p.tags| && p.tags[i] == StallFile(p.tags[i])
    ensures Run(p, rounds).phase == Checking(i) && Jams(NotesAfter(p, rounds), p.tags[i])
  {
    rounds := PassTo(p, [], 0, i);
  }

  /** Where a tag can jam, some run goes on for as long as one likes. */
  lemma {:induction false} JammedRunGoesOn(p: Pipeline, n: nat) returns (rounds: seq<Round>)
    requires !Unjammed(p)
    ensures |rounds| >= n && !Run(p, rounds).phase.Done?
  {
    var i, j :| 0 <= i < |p.tags| && 0 <= j < |p.tags| && Repairable(p, i) && Repairable(p, j) && !Harmless(p, j, i);
    if p.tags[i] == p.tags[j] {
      rounds := JamAtOnce(p, i);
      rounds := JamGoesOn(p, rounds, i, n);
    } else if j < i {
      rounds := JamLater(p, j, i);
      rounds := JamGoesOn(p, rounds, i, n);
    } else {
      rounds := JamLater(p, i, j);
      rounds := JamGoesOn(p, rounds, j, n);
    }
  }

  /** There is a number of rounds within which every run ends if and only if no tag can jam. */
  lemma {:induction false} RunEndsIff(p: Pipeline)
    ensures (exists n: nat :: EndsWithin(p, n)) <==> Unjammed(p)
    ensures Unjammed(p) ==> EndsWithin(p, Bound(p))
  {
    if Unjammed(p) {
      forall rounds | |rounds| >= Bound(p) ensures Run(p, rounds).phase.Done? {
        RunEnds(p, rounds);
      }
      assert EndsWithin(p, Bound(p));
    } else {
      forall n: nat ensures !EndsWithin(p, n) {
        var rounds := JammedRunGoesOn(p, n);
      }
    }
  }

  /** Tags without a dot never jam. */
  lemma {:induction false} UndottedTagsDoNotJam(p: Pipeline)
    requires forall t :: t in p.tags ==> '.' !in t
    ensures Unjammed(p)
  {
    UndottedTagsAreApart(set t | t in p.tags);
    assert forall i :: 0 <= i < |p.tags| ==> p.tags[i] in p.tags;
    forall i, j | 0 <= i < |p.tags| && 0 <= j < |p.tags| ensures Harmless(p, j, i) {
      assert CounterApart(p.tags[i], p.tags[j]);
    }
  }

  // ----- Every requirement is reached, none twice -----

  /** Checks made in a phase. */
  function Made(m: Machine, ph: Phase): nat {
    multiset(m.at)[ph]
  }

  /** Checked at least once and, where no tag can jam, within its limit. */
  predicate Entered(p: Pipeline, m: Machine, q: Phase) {
    1 <= Made(m, q) && (Unjammed(p) ==> Made(m, q) <= Limit(p, q))
  }

  /** Phases that are over were entered and kept their limit; those to come were not
      entered; the present one keeps its limit whatever its remaining attempts bring. */
  ghost predicate OnTrack(p: Pipeline, m: Machine) {
    && ValidPhase(p, m.phase)
    && (forall q :: Made(m, q) > 0 ==> ValidPhase(p, q) && !q.Done? && Rank(p, q) <= Rank(p, m.phase))
    && (forall q :: ValidPhase(p, q) && !q.Done? && Rank(p, q) < Rank(p, m.phase) ==> Entered(p, m, q))
    && (!m.phase.Done? && Unjammed(p) ==> Made(m, m.phase) + TriesNow(p, m) <= Limit(p, m.phase))
  }

  lemma SameRank(p: Pipeline, a: Phase, b: Phase)
    requires ValidPhase(p, a) && ValidPhase(p, b) && Rank(p, a) == Rank(p, b)
    ensures a == b
  {
  }

  lemma StepKeepsTrack(p: Pipeline, m: Machine, r: Round)
    requires OnTrack(p, m) && Tagged(p, m) && !m.phase.Done?
    ensures OnTrack(p, Step(p, m, r))
  {
    var m' := Step(p, m, r);
    assert forall q :: Made(m', q) == Made(m, q) + (if q == m.phase then 1 else 0);
    assert TriesNow(p, m) >= 1;
    if Repairs(After(m.checks), Check(OptionsOf(p, m.phase), r.found), r) {
      if Unjammed(p) {
        RepairUsesAttempt(p, m, r);
      }
    } else {
      NextRank(p, m.phase);
      forall q | ValidPhase(p, q) && !q.Done? && Rank(p, q) < Rank(p, m'.phase) ensures Entered(p, m', q) {
        if Rank(p, q) == Rank(p, m.phase) {
          SameRank(p, q, m.phase);
        }
      }
      assert Made(m', m'.phase) == 0;
    }
  }

  lemma {:induction false} RunStaysOnTrack(p: Pipeline, rounds: seq<Round>)
    ensures OnTrack(p, Run(p, rounds))
  {
    if rounds != [] {
      var m := Run(p, rounds[..|rounds| - 1]);
      RunStaysOnTrack(p, rounds[..|rounds| - 1]);
      RunIsTagged(p, rounds[..|rounds| - 1]);
      if !m.phase.Done? {
        StepKeepsTrack(p, m, rounds[|rounds| - 1]);
      }
    }
  }

  /** Every requirement is checked at least once by the end of every run, even if all the checks
      before it failed, and so is the full suite when there is one; where no tag can jam, each
      keeps its limit. */
  lemma {:induction false} EveryRequirementIsReached(p: Pipeline, rounds: seq<Round>, i: nat)
    requires Run(p, rounds).phase.Done? && i < |p.tags|
    ensures var m := Run(p, rounds);
            && 1 <= Made(m, Checking(i)) && (HasFinal(p) ==> 1 <= Made(m, CheckingAll))
            && (Unjammed(p) ==>
                  Made(m, Checking(i)) <= p.policy.repairs + 1 && Made(m, CheckingAll) <= p.policy.finalRepairs + 1)
  {
    RunStaysOnTrack(p, rounds);
    assert ValidPhase(p, Checking(i)) && Rank(p, Checking(i)) < Rank(p, Done);
    assert HasFinal(p) ==> ValidPhase(p, CheckingAll) && Rank(p, CheckingAll) < Rank(p, Done);
  }

  /** Each check of a run is the one of the phase it was made in: of that requirement's tag, or of the
      full suite. */
  lemma {:induction false} ChecksAreOfTheirPhase(p: Pipeline, rounds: seq<Round>, k: nat)
    requires k < |Run(p, rounds).checks|
    ensures var m := Run(p, rounds);
            && |m.at| == |m.checks|
            && (m.at[k].Checking? ==>
                  m.at[k].i < |p.tags| && m.checks[k].opts.tag == p.tags[m.at[k].i] && !m.checks[k].opts.best)
            && (!m.at[k].Checking? ==> m.at[k].CheckingAll? && m.checks[k].opts.tag == "ALL" && m.checks[k].opts.best)
  {
    if rounds != [] {
      var m := Run(p, rounds[..|rounds| - 1]);
      if k < |m.checks| {
        ChecksAreOfTheirPhase(p, rounds[..|rounds| - 1], k);
      }
      PhasesMatchChecks(p, rounds[..|rounds| - 1]);
    }
  }

  lemma {:induction false} PhasesMatchChecks(p: Pipeline, rounds: seq<Round>)
    ensures |Run(p, rounds).at| == |Run(p, rounds).checks|
  {
    if rounds != [] {
      PhasesMatchChecks(p, rounds[..|rounds| - 1]);
    }
  }

  /** The full suite is checked in a finished run if and only if there are two requirements and some
      spec. */
  lemma {:induction false} FullSuiteIsCheckedIff(p: Pipeline, rounds: seq<Round>)
    requires Run(p, rounds).phase.Done?
    ensures Made(Run(p, rounds), CheckingAll) > 0 <==> |p.tags| >= 2 && exists t :: t in p.specs && p.specs[t] != []
  {
    RunStaysOnTrack(p, rounds);
    if HasFinal(p) {
      assert ValidPhase(p, CheckingAll) && Rank(p, CheckingAll) < Rank(p, Done);
    }
  }

  // ----- The accepted snapshot, along every run -----

  /** A zero verdict of a round means that every spec its check listed passed. */
  ghost predicate SoundRound(p: Pipeline, passes: (Files, string) -> bool, m: Machine, r: Round)
    requires ValidPhase(p, m.phase)
  {
    !m.phase.Done? && r.found.rc == 0 ==>
      var app := Shipped(r.found.files);
      if m.phase.CheckingAll? then forall t, s :: t in p.specs && s in p.specs[t] ==> passes(app, s)
      else
        var tag := TagOf(p, m.phase);
        && (tag in p.specs ==> forall s :: s in p.specs[tag] ==> passes(app, s))
        && (forall s :: Rerun(Family, p.regress, tag, After(m.checks).status, s) ==> passes(app, s))
  }

  ghost predicate SoundRounds(p: Pipeline, passes: (Files, string) -> bool, rounds: seq<Round>) {
    forall i :: 0 <= i < |rounds| ==> SoundRound(p, passes, Run(p, rounds[..i]), rounds[i])
  }

  lemma {:induction false} RunIsHonest(p: Pipeline, passes: (Files, string) -> bool, rounds: seq<Round>)
    requires ValidPipeline(p) && SoundRounds(p, passes, rounds)
    ensures HonestRun(Suite(p.specs, p.regress, passes), Run(p, rounds).checks)
  {
    if rounds != [] {
      var front, n := rounds[..|rounds| - 1], |rounds| - 1;
      forall i | 0 <= i < n ensures SoundRound(p, passes, Run(p, front[..i]), front[i]) {
        assert SoundRound(p, passes, Run(p, rounds[..i]), rounds[i]) && front[..i] == rounds[..i];
      }
      RunIsHonest(p, passes, front);
      assert SoundRound(p, passes, Run(p, rounds[..n]), rounds[n]);
      var m, x := Run(p, front), Suite(p.specs, p.regress, passes);
      if !m.phase.Done? {
        var c := Check(OptionsOf(p, m.phase), rounds[n].found);
        assert Honest(x, After(m.checks), c);
        HonestOneMore(x, m.checks, c);
      }
    }
  }

  lemma HonestOneMore(x: Suite, checks: seq<Check>, c: Check)
    requires HonestRun(x, checks) && Honest(x, After(checks), c)
    ensures HonestRun(x, checks + [c])
  {
    var longer := checks + [c];
    forall i | 0 <= i < |longer| ensures Honest(x, After(longer[..i]), longer[i]) {
      if i < |checks| {
        assert longer[..i] == checks[..i];
        assert Honest(x, After(checks[..i]), checks[i]);
      } else {
        assert longer[..i] == checks;
      }
    }
  }

  /** At every point of every pipeline run, the accepted app passes all the specs of every
      requirement whose recorded verdict is a pass. */
  lemma {:induction false} AcceptedAppPasses(p: Pipeline, passes: (Files, string) -> bool, rounds: seq<Round>)
    requires ValidPipeline(p) && SoundRounds(p, passes, rounds)
    ensures GoodPasses(Suite(p.specs, p.regress, passes), After(Run(p, rounds).checks))
  {
    RunIsHonest(p, passes, rounds);
    GoodAlwaysPasses(Suite(p.specs, p.regress, passes), Run(p, rounds).checks);
  }
}
