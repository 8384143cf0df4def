/**
  The compatibility proxy's transcript normaliser, `repair_tool_sequences`: a
  chat transcript is rewritten so that every assistant message that calls tools
  is followed at once by one result per call.
*/
module TranscriptRepair {

  datatype Role = Tool | Assistant | Other(name: string)

  /** One chat message. A missing or empty `tool_call_id` is "", and so is the id
      of a call that is not an object or carries no id. */
  datatype Message = Message(role: Role, toolCallId: string, calls: seq<string>, content: string)

  const MISSING_RESULT := "[compat proxy inserted missing tool result]"

  function Placeholder(id: string): Message {
    Message(Tool, id, [], MISSING_RESULT)
  }

  // ----- What the repair computes -----

  /** The call ids a message expects results for, in call order. */
  function Expected(m: Message): seq<string> {
    if m.role == Assistant then NonEmpty(m.calls) else []
  }

  function NonEmpty(ids: seq<string>): (r: seq<string>)
    ensures "" !in r
  {
    if ids == [] then []
    else (if ids[0] == "" then [] else [ids[0]]) + NonEmpty(ids[1..])
  }

  predicate IsResultFor(m: Message, id: string) {
    m.role == Tool && m.toolCallId == id
  }

  /** The first result recorded for a call id, or the placeholder. */
  function ResultFor(ms: seq<Message>, id: string): (r: Message)
    ensures IsResultFor(r, id)
  {
    if ms == [] then Placeholder(id)
    else if IsResultFor(ms[0], id) then ms[0]
    else ResultFor(ms[1..], id)
  }

  /** A result of the input, or the placeholder where the input has none for the id. */
  predicate FromInput(r: Message, ms: seq<Message>) {
    || r in ms
    || (r == Placeholder(r.toolCallId) && forall m :: m in ms ==> !IsResultFor(m, r.toolCallId))
  }

  /** The result comes from the transcript whenever the transcript has one. */
  lemma {:induction false} ResultForSource(ms: seq<Message>, id: string)
    ensures FromInput(ResultFor(ms, id), ms)
  {
    if ms != [] && !IsResultFor(ms[0], id) {
      ResultForSource(ms[1..], id);
    }
  }

  function ResultsFor(ms: seq<Message>, ids: seq<string>): (r: seq<Message>)
    ensures |r| == |ids|
    ensures forall i :: 0 <= i < |ids| ==> r[i] == ResultFor(ms, ids[i])
  {
    seq(|ids|, i requires 0 <= i < |ids| => ResultFor(ms, ids[i]))
  }

  /** What the repair puts in place of one message. */
  function Block(m: Message, all: seq<Message>): seq<Message> {
    if m.role == Tool then [] else [m] + ResultsFor(all, Expected(m))
  }

  /** `todo` repaired, with the results drawn from the whole transcript `all`. */
  function RepairFrom(todo: seq<Message>, all: seq<Message>): seq<Message> {
    if todo == [] then []
    else Block(todo[0], all) + RepairFrom(todo[1..], all)
  }

  function Repair(ms: seq<Message>): seq<Message> {
    RepairFrom(ms, ms)
  }

  // ----- What a provider accepts -----

  /** The transcript opens with a message other than a result, followed at once by
      exactly one result per call id that message expects, in order. */
  predicate OpensWithBlock(ms: seq<Message>) {
    && ms != []
    && ms[0].role != Tool
    && var ids := Expected(ms[0]);
    && |ids| < |ms|
    && forall i :: 0 <= i < |ids| ==> IsResultFor(ms[1 + i], ids[i])
  }

  /** Each assistant call list is followed at once by exactly one result per call
      id, in order, and there are no other tool messages. */
  predicate WellFormed(ms: seq<Message>)
    decreases |ms|
  {
    ms == [] || (OpensWithBlock(ms) && WellFormed(ms[1 + |Expected(ms[0])|..]))
  }

  /** Equal call ids carry equal results. */
  predicate ResultsAgree(ms: seq<Message>) {
    forall m, m' :: m in ms && m' in ms && m.role == Tool && m'.role == Tool && m.toolCallId == m'.toolCallId
                    ==> m == m'
  }

  /** Every result in `todo` is the one recorded first in `all`, or the placeholder. */
  predicate ResultsChosen(todo: seq<Message>, all: seq<Message>) {
    forall m :: m in todo && m.role == Tool ==> m == ResultFor(all, m.toolCallId)
  }

  function NonTool(ms: seq<Message>): seq<Message> {
    if ms == [] then []
    else (if ms[0].role == Tool then [] else [ms[0]]) + NonTool(ms[1..])
  }

  // ----- Properties -----

  lemma {:induction false} NonToolConcat(a: seq<Message>, b: seq<Message>)
    ensures NonTool(a + b) == NonTool(a) + NonTool(b)
  {
    if a == [] {
      assert a + b == b;
    } else {
      assert (a + b)[1..] == a[1..] + b;
      NonToolConcat(a[1..], b);
    }
  }

  lemma {:induction false} NonToolOfResults(rs: seq<Message>)
    requires forall i :: 0 <= i < |rs| ==> rs[i].role == Tool
    ensures NonTool(rs) == []
  {
    if rs != [] {
      NonToolOfResults(rs[1..]);
    }
  }

  lemma BlockOpens(m: Message, rest: seq<Message>, all: seq<Message>)
    requires m.role != Tool
    ensures OpensWithBlock(Block(m, all) + rest)
    ensures (Block(m, all) + rest)[0] == m
    ensures (Block(m, all) + rest)[1 + |Expected(m)|..] == rest
  {
    var ids, ms := Expected(m), Block(m, all) + rest;
    forall i | 0 <= i < |ids| ensures IsResultFor(ms[1 + i], ids[i]) {
      assert ms[1 + i] == ResultFor(all, ids[i]);
    }
  }

  lemma {:induction false} RepairFromIsWellFormed(todo: seq<Message>, all: seq<Message>)
    ensures WellFormed(RepairFrom(todo, all))
  {
    if todo != [] {
      RepairFromIsWellFormed(todo[1..], all);
      if todo[0].role == Tool {
        assert RepairFrom(todo, all) == RepairFrom(todo[1..], all);
      } else {
        BlockOpens(todo[0], RepairFrom(todo[1..], all), all);
      }
    }
  }

  lemma BlockNonTool(m: Message, all: seq<Message>)
    ensures NonTool(Block(m, all)) == if m.role == Tool then [] else [m]
  {
    if m.role != Tool {
      var rs := ResultsFor(all, Expected(m));
      NonToolOfResults(rs);
      assert ([m] + rs)[1..] == rs;
    }
  }

  lemma {:induction false} RepairFromKeepsNonTool(todo: seq<Message>, all: seq<Message>)
    ensures NonTool(RepairFrom(todo, all)) == NonTool(todo)
  {
    if todo != [] {
      RepairFromKeepsNonTool(todo[1..], all);
      NonToolConcat(Block(todo[0], all), RepairFrom(todo[1..], all));
      BlockNonTool(todo[0], all);
    }
  }

  lemma {:induction false} RepairFromChoosesResults(todo: seq<Message>, all: seq<Message>)
    ensures ResultsChosen(RepairFrom(todo, all), all)
  {
    if todo != [] {
      RepairFromChoosesResults(todo[1..], all);
    }
  }

  /** The repair always yields a transcript the provider accepts, keeps every
      non-tool message in order, and takes each result either from the input (the
      first one recorded for the id) or, when the input has none, from the placeholder. */
  lemma {:induction false} RepairIsWellFormed(ms: seq<Message>)
    ensures WellFormed(Repair(ms))
    ensures NonTool(Repair(ms)) == NonTool(ms)
    ensures ResultsAgree(Repair(ms))
    ensures ResultsChosen(Repair(ms), ms)
    ensures forall m :: m in Repair(ms) && m.role == Tool ==> FromInput(m, ms)
  {
    RepairFromIsWellFormed(ms, ms);
    RepairFromKeepsNonTool(ms, ms);
    RepairFromChoosesResults(ms, ms);
    forall m | m in Repair(ms) && m.role == Tool ensures FromInput(m, ms) {
      ResultForSource(ms, m.toolCallId);
    }
  }

  // ----- Call by call -----

  /** How many of the ids are not empty. */
  function CountIds(ids: seq<string>): (n: nat)
    ensures n <= |ids|
  {
    if ids == [] then 0 else CountIds(ids[..|ids| - 1]) + (if ids[|ids| - 1] == "" then 0 else 1)
  }

  lemma {:induction false} NonEmptyConcat(a: seq<string>, b: seq<string>)
    ensures NonEmpty(a + b) == NonEmpty(a) + NonEmpty(b)
  {
    if a == [] {
      assert a + b == b;
    } else {
      assert (a + b)[1..] == a[1..] + b;
      NonEmptyConcat(a[1..], b);
    }
  }

  lemma NonEmptyOne(id: string)
    ensures NonEmpty([id]) == if id == "" then [] else [id]
  {
    assert [id][1..] == [];
  }

  lemma {:induction false} NonEmptyLength(ids: seq<string>)
    ensures |NonEmpty(ids)| == CountIds(ids)
  {
    if ids != [] {
      var front, id := ids[..|ids| - 1], ids[|ids| - 1];
      assert ids == front + [id];
      NonEmptyLength(front);
      NonEmptyConcat(front, [id]);
      NonEmptyOne(id);
    }
  }

  /** The ids kept are exactly the non-empty ones, each in its place and as often as it occurs. */
  lemma {:induction false} NonEmptyKeeps(ids: seq<string>, j: nat)
    requires j < |ids| && ids[j] != ""
    ensures CountIds(ids[..j]) < |NonEmpty(ids)| && NonEmpty(ids)[CountIds(ids[..j])] == ids[j]
    ensures "" !in ids ==> NonEmpty(ids) == ids
    ensures multiset(NonEmpty(ids))[ids[j]] == multiset(ids)[ids[j]]
  {
    var a, b := ids[..j], ids[j + 1..];
    assert ids == (a + [ids[j]]) + b;
    NonEmptyConcat(a + [ids[j]], b);
    NonEmptyConcat(a, [ids[j]]);
    NonEmptyOne(ids[j]);
    NonEmptyLength(a);
    NonEmptyIsAll(ids);
    NonEmptyCount(ids, ids[j]);
  }

  lemma {:induction false} NonEmptyIsAll(ids: seq<string>)
    ensures "" !in ids ==> NonEmpty(ids) == ids
  {
    if ids != [] {
      NonEmptyIsAll(ids[1..]);
      assert ids == [ids[0]] + ids[1..];
    }
  }

  lemma {:induction false} NonEmptyCount(ids: seq<string>, id: string)
    requires id != ""
    ensures multiset(NonEmpty(ids))[id] == multiset(ids)[id]
  {
    if ids != [] {
      var first, rest := ids[0], ids[1..];
      NonEmptyCount(rest, id);
      assert multiset(ids)[id] == multiset([first])[id] + multiset(rest)[id] by {
        assert ids == [first] + rest;
      }
      assert NonEmpty(ids) == (if first == "" then [] else [first]) + NonEmpty(rest);
    }
  }

  /** How many results a message is to be followed by. */
  function Answers(m: Message): nat {
    if m.role == Assistant then CountIds(m.calls) else 0
  }

  /** Exactly so many tool messages follow the message at `i`. */
  predicate Followed(ms: seq<Message>, i: nat)
    requires i < |ms|
  {
    var end := i + 1 + Answers(ms[i]);
    && end <= |ms|
    && (forall k :: i < k < end ==> ms[k].role == Tool)
    && (end < |ms| ==> ms[end].role != Tool)
  }

  /** The result for call `j` of the message at `i` is where it belongs. */
  predicate AnswersCall(ms: seq<Message>, i: nat, j: nat)
    requires i < |ms| && j < |ms[i].calls|
  {
    var k := i + 1 + CountIds(ms[i].calls[..j]);
    k < |ms| && IsResultFor(ms[k], ms[i].calls[j])
  }

  lemma ExpectedLength(m: Message)
    ensures |Expected(m)| == Answers(m)
  {
    NonEmptyLength(m.calls);
  }

  lemma OpeningIsFollowed(ms: seq<Message>)
    requires OpensWithBlock(ms) && WellFormed(ms[1 + |Expected(ms[0])|..])
    ensures Followed(ms, 0)
  {
    var end := 1 + |Expected(ms[0])|;
    ExpectedLength(ms[0]);
    forall k | 0 < k < end ensures ms[k].role == Tool {
      assert IsResultFor(ms[1 + (k - 1)], Expected(ms[0])[k - 1]);
    }
    if end < |ms| {
      assert ms[end..][0] == ms[end] && OpensWithBlock(ms[end..]);
    }
  }

  lemma OpeningAnswersCall(ms: seq<Message>, j: nat)
    requires OpensWithBlock(ms) && ms[0].role == Assistant && j < |ms[0].calls| && ms[0].calls[j] != ""
    ensures AnswersCall(ms, 0, j)
  {
    var ids, k := Expected(ms[0]), CountIds(ms[0].calls[..j]);
    NonEmptyKeeps(ms[0].calls, j);
    assert IsResultFor(ms[1 + k], ids[k]);
  }

  lemma FollowedLater(ms: seq<Message>, n: nat, i: nat)
    requires n <= i < |ms| && Followed(ms[n..], i - n)
    ensures Followed(ms, i)
  {
    var rest, end := ms[n..], i + 1 + Answers(ms[i]);
    assert forall k :: n <= k < |ms| ==> rest[k - n] == ms[k];
  }

  lemma AnswersCallLater(ms: seq<Message>, n: nat, i: nat, j: nat)
    requires n <= i < |ms| && j < |ms[i].calls| && AnswersCall(ms[n..], i - n, j)
    ensures AnswersCall(ms, i, j)
  {
    var k := i + 1 + CountIds(ms[i].calls[..j]);
    assert ms[n..][k - n] == ms[k];
  }

  /** The messages right after an opening one are its results. */
  lemma WithinOpening(ms: seq<Message>, i: nat)
    requires OpensWithBlock(ms) && 0 < i < 1 + |Expected(ms[0])|
    ensures ms[i].role == Tool
  {
    assert IsResultFor(ms[1 + (i - 1)], Expected(ms[0])[i - 1]);
  }

  lemma {:induction false} WellFormedIsFollowed(ms: seq<Message>, i: nat)
    requires WellFormed(ms) && i < |ms| && ms[i].role != Tool
    ensures Followed(ms, i)
    decreases |ms|
  {
    var n := 1 + |Expected(ms[0])|;
    if i == 0 {
      OpeningIsFollowed(ms);
    } else {
      LaterBlock(ms, i);
      WellFormedIsFollowed(ms[n..], i - n);
      FollowedLater(ms, n, i);
    }
  }

  lemma LaterBlock(ms: seq<Message>, i: nat)
    requires OpensWithBlock(ms) && 0 < i < |ms| && ms[i].role != Tool
    ensures i >= 1 + |Expected(ms[0])| && ms[1 + |Expected(ms[0])|..][i - 1 - |Expected(ms[0])|] == ms[i]
  {
    if i < 1 + |Expected(ms[0])| {
      WithinOpening(ms, i);
    }
  }

  lemma {:induction false} WellFormedAnswersCall(ms: seq<Message>, i: nat, j: nat)
    requires WellFormed(ms) && i < |ms| && ms[i].role == Assistant && j < |ms[i].calls| && ms[i].calls[j] != ""
    ensures AnswersCall(ms, i, j)
    decreases |ms|
  {
    var n := 1 + |Expected(ms[0])|;
    if i == 0 {
      OpeningAnswersCall(ms, j);
    } else {
      LaterBlock(ms, i);
      WellFormedAnswersCall(ms[n..], i - n, j);
      AnswersCallLater(ms, n, i, j);
    }
  }

  /** In the repaired transcript each message other than a result is followed by exactly as many
      results as it has non-empty call ids. */
  lemma {:induction false} RepairFollowsEveryMessage(ms: seq<Message>, i: nat)
    requires i < |Repair(ms)| && Repair(ms)[i].role != Tool
    ensures Followed(Repair(ms), i)
  {
    RepairIsWellFormed(ms);
    WellFormedIsFollowed(Repair(ms), i);
  }

  /** And every call with an id has its result in its place: right after the message, past those of
      the calls with an id before it. Where all calls have an id that is one result per call. */
  lemma {:induction false} RepairAnswersEveryCall(ms: seq<Message>, i: nat, j: nat)
    requires i < |Repair(ms)| && Repair(ms)[i].role == Assistant && j < |Repair(ms)[i].calls|
    requires Repair(ms)[i].calls[j] != ""
    ensures AnswersCall(Repair(ms), i, j)
    ensures var calls := Repair(ms)[i].calls;
            "" !in calls ==> Answers(Repair(ms)[i]) == |calls| && CountIds(calls[..j]) == j
  {
    RepairIsWellFormed(ms);
    WellFormedAnswersCall(Repair(ms), i, j);
    var calls := Repair(ms)[i].calls;
    if "" !in calls {
      CountsAll(calls);
      CountsAll(calls[..j]);
    }
  }

  lemma {:induction false} CountsAll(ids: seq<string>)
    requires "" !in ids
    ensures CountIds(ids) == |ids|
  {
    if ids != [] {
      assert ids[|ids| - 1] in ids;
      CountsAll(ids[..|ids| - 1]);
    }
  }

  lemma ResultForAgreeing(ms: seq<Message>, m: Message)
    requires ResultsAgree(ms) && m in ms && m.role == Tool
    ensures ResultFor(ms, m.toolCallId) == m
  {
  }

  lemma {:induction false} RepairFromSkipsResults(rs: seq<Message>, rest: seq<Message>, all: seq<Message>)
    requires forall i :: 0 <= i < |rs| ==> rs[i].role == Tool
    ensures RepairFrom(rs + rest, all) == RepairFrom(rest, all)
  {
    if rs == [] {
      assert rs + rest == rest;
    } else {
      assert (rs + rest)[1..] == rs[1..] + rest;
      RepairFromSkipsResults(rs[1..], rest, all);
    }
  }

  lemma RepairOfBlock(m: Message, rest: seq<Message>, all: seq<Message>)
    requires m.role != Tool
    ensures RepairFrom(Block(m, all) + rest, all) == Block(m, all) + RepairFrom(rest, all)
  {
    var rs := ResultsFor(all, Expected(m));
    assert (Block(m, all) + rest)[1..] == rs + rest;
    RepairFromSkipsResults(rs, rest, all);
  }

  lemma OpeningBlock(todo: seq<Message>, all: seq<Message>)
    requires OpensWithBlock(todo) && ResultsChosen(todo, all)
    ensures todo[..1 + |Expected(todo[0])|] == Block(todo[0], all)
  {
    var ids := Expected(todo[0]);
    var results := todo[1..1 + |ids|];
    forall i | 0 <= i < |ids| ensures results[i] == ResultFor(all, ids[i]) {
      assert results[i] == todo[1 + i];
      assert IsResultFor(todo[1 + i], ids[i]) && todo[1 + i] in todo;
    }
    assert results == ResultsFor(all, ids);
    assert todo[..1 + |ids|] == [todo[0]] + results;
  }

  lemma ChosenRest(todo: seq<Message>, n: nat, all: seq<Message>)
    requires n <= |todo| && ResultsChosen(todo, all)
    ensures ResultsChosen(todo[n..], all)
  {
    assert forall m :: m in todo[n..] ==> m in todo;
  }

  lemma {:induction false} WellFormedIsKept(todo: seq<Message>, all: seq<Message>)
    requires WellFormed(todo) && ResultsChosen(todo, all)
    ensures RepairFrom(todo, all) == todo
    decreases |todo|
  {
    if todo != [] {
      var n := 1 + |Expected(todo[0])|;
      var rest := todo[n..];
      OpeningBlock(todo, all);
      assert todo == Block(todo[0], all) + rest;
      RepairOfBlock(todo[0], rest, all);
      ChosenRest(todo, n, all);
      WellFormedIsKept(rest, all);
    }
  }

  /** The fixpoints of the repair are exactly the well-formed transcripts in which
      equal ids carry equal results. */
  lemma {:induction false} RepairFixpoints(ms: seq<Message>)
    ensures Repair(ms) == ms <==> WellFormed(ms) && ResultsAgree(ms)
  {
    RepairIsWellFormed(ms);
    if WellFormed(ms) && ResultsAgree(ms) {
      forall m | m in ms && m.role == Tool ensures m == ResultFor(ms, m.toolCallId) {
        ResultForAgreeing(ms, m);
      }
      WellFormedIsKept(ms, ms);
    }
  }

  lemma {:induction false} RepairIsIdempotent(ms: seq<Message>)
    ensures Repair(Repair(ms)) == Repair(ms)
  {
    RepairIsWellFormed(ms);
    RepairFixpoints(Repair(ms));
  }

  // ----- Bookkeeping -----

  function CountTool(ms: seq<Message>): nat {
    if ms == [] then 0 else (if ms[0].role == Tool then 1 else 0) + CountTool(ms[1..])
  }

  /** How many of `ids` have no recorded result. */
  function CountMissing(ids: seq<string>, known: set<string>): nat {
    if ids == [] then 0
    else CountMissing(ids[..|ids| - 1], known) + (if ids[|ids| - 1] in known then 0 else 1)
  }

  function CountInserted(todo: seq<Message>, known: set<string>): nat {
    if todo == [] then 0 else CountMissing(Expected(todo[0]), known) + CountInserted(todo[1..], known)
  }

  function RecordedIds(ms: seq<Message>): set<string> {
    set m | m in ms && m.role == Tool && m.toolCallId != "" :: m.toolCallId
  }

  lemma {:induction false} CountSplits(ms: seq<Message>)
    ensures |ms| == CountTool(ms) + |NonTool(ms)|
  {
    if ms != [] {
      CountSplits(ms[1..]);
    }
  }

  /** The ids of the tool messages, in order. */
  function ToolIds(ms: seq<Message>): (ids: seq<string>)
    ensures |ids| == CountTool(ms)
  {
    if ms == [] then [] else (if ms[0].role == Tool then [ms[0].toolCallId] else []) + ToolIds(ms[1..])
  }

  /** Every call id the transcript expects a result for, in order. */
  function AllExpected(ms: seq<Message>): seq<string> {
    if ms == [] then [] else Expected(ms[0]) + AllExpected(ms[1..])
  }

  lemma {:induction false} ToolIdsConcat(a: seq<Message>, b: seq<Message>)
    ensures ToolIds(a + b) == ToolIds(a) + ToolIds(b)
  {
    if a == [] {
      assert a + b == b;
    } else {
      assert (a + b)[1..] == a[1..] + b;
      ToolIdsConcat(a[1..], b);
    }
  }

  lemma {:induction false} ToolIdsOfResults(all: seq<Message>, ids: seq<string>)
    ensures ToolIds(ResultsFor(all, ids)) == ids
  {
    if ids != [] {
      assert ResultsFor(all, ids)[1..] == ResultsFor(all, ids[1..]);
      ToolIdsOfResults(all, ids[1..]);
    }
  }

  lemma ToolIdsOfBlock(m: Message, all: seq<Message>)
    ensures ToolIds(Block(m, all)) == Expected(m)
  {
    if m.role != Tool {
      ToolIdsConcat([m], ResultsFor(all, Expected(m)));
      ToolIdsOfResults(all, Expected(m));
    }
  }

  lemma {:induction false} RepairFromToolIds(todo: seq<Message>, all: seq<Message>)
    ensures ToolIds(RepairFrom(todo, all)) == AllExpected(todo)
  {
    if todo != [] {
      RepairFromToolIds(todo[1..], all);
      ToolIdsConcat(Block(todo[0], all), RepairFrom(todo[1..], all));
      ToolIdsOfBlock(todo[0], all);
    }
  }

  /** The output answers exactly the calls of the input, call by call, and its length is the
      number of messages kept plus the number of calls answered. */
  lemma {:induction false} RepairBalance(ms: seq<Message>)
    ensures ToolIds(Repair(ms)) == AllExpected(ms)
    ensures |Repair(ms)| == |ms| - CountTool(ms) + |AllExpected(ms)|
  {
    RepairIsWellFormed(ms);
    CountSplits(ms);
    CountSplits(Repair(ms));
    RepairFromToolIds(ms, ms);
  }

  /** Which of the calls have no result in the transcript. */
  function Unanswered(ms: seq<Message>): set<nat> {
    set i: nat | i < |AllExpected(ms)| && forall m :: m in ms ==> !IsResultFor(m, AllExpected(ms)[i])
  }

  function MissingAt(ids: seq<string>, known: set<string>): set<nat> {
    set i: nat | i < |ids| && ids[i] !in known
  }

  lemma {:induction false} CountMissingIsCardinality(ids: seq<string>, known: set<string>)
    ensures CountMissing(ids, known) == |MissingAt(ids, known)|
  {
    if ids != [] {
      var n := |ids| - 1;
      CountMissingIsCardinality(ids[..n], known);
      if ids[n] in known {
        assert MissingAt(ids, known) == MissingAt(ids[..n], known);
      } else {
        assert MissingAt(ids, known) == MissingAt(ids[..n], known) + {n};
      }
    }
  }

  lemma {:induction false} CountMissingConcat(a: seq<string>, b: seq<string>, known: set<string>)
    ensures CountMissing(a + b, known) == CountMissing(a, known) + CountMissing(b, known)
  {
    if b == [] {
      assert a + b == a;
    } else {
      assert (a + b)[..|a + b| - 1] == a + b[..|b| - 1];
      CountMissingConcat(a, b[..|b| - 1], known);
    }
  }

  lemma {:induction false} CountInsertedIsMissing(ms: seq<Message>, known: set<string>)
    ensures CountInserted(ms, known) == CountMissing(AllExpected(ms), known)
  {
    if ms != [] {
      CountInsertedIsMissing(ms[1..], known);
      CountMissingConcat(Expected(ms[0]), AllExpected(ms[1..]), known);
    }
  }

  lemma {:induction false} ExpectedAreNotEmpty(ms: seq<Message>)
    ensures "" !in AllExpected(ms)
  {
    if ms != [] {
      ExpectedAreNotEmpty(ms[1..]);
    }
  }

  /** As many results are inserted as there are calls without a result. */
  lemma {:induction false} InsertedAreUnanswered(ms: seq<Message>)
    ensures CountInserted(ms, RecordedIds(ms)) == |Unanswered(ms)|
  {
    var known, ids := RecordedIds(ms), AllExpected(ms);
    CountInsertedIsMissing(ms, known);
    CountMissingIsCardinality(ids, known);
    ExpectedAreNotEmpty(ms);
    forall i: nat | i < |ids| ensures ids[i] !in known <==> forall m :: m in ms ==> !IsResultFor(m, ids[i]) {
      assert ids[i] in ids && ids[i] != "";
    }
    assert MissingAt(ids, known) == Unanswered(ms);
  }

  // ----- The code -----

  predicate Records(m: Message, table: map<string, Message>) {
    m.role == Tool && m.toolCallId != "" && m.toolCallId !in table
  }

  /** The dictionary of first results, as the first loop builds it. */
  function ResultTable(ms: seq<Message>): map<string, Message> {
    if ms == [] then map[]
    else
      var table, m := ResultTable(ms[..|ms| - 1]), ms[|ms| - 1];
      if Records(m, table) then table[m.toolCallId := m] else table
  }

  lemma {:induction false} ResultForSnoc(ms: seq<Message>, m: Message, id: string)
    ensures ResultFor(ms + [m], id) ==
            if (exists x :: x in ms && IsResultFor(x, id)) || !IsResultFor(m, id) then ResultFor(ms, id) else m
  {
    if ms == [] {
      assert ms + [m] == [m];
    } else {
      assert (ms + [m])[0] == ms[0] && (ms + [m])[1..] == ms[1..] + [m];
      ResultForSnoc(ms[1..], m, id);
    }
  }

  /** The dictionary holds exactly the recorded ids, each with its first result. */
  lemma {:induction false} ResultTableLookup(ms: seq<Message>, id: string)
    ensures id in ResultTable(ms) <==> id != "" && exists m :: m in ms && IsResultFor(m, id)
    ensures id != "" ==> ResultFor(ms, id) == if id in ResultTable(ms) then ResultTable(ms)[id] else Placeholder(id)
  {
    if ms != [] {
      var front, m := ms[..|ms| - 1], ms[|ms| - 1];
      assert ms == front + [m];
      ResultTableLookup(front, id);
      ResultForSnoc(front, m, id);
      assert forall x :: x in ms <==> x in front || x == m;
    }
  }

  lemma TableGivesResult(ms: seq<Message>, id: string)
    requires id != ""
    ensures ResultFor(ms, id) == if id in ResultTable(ms) then ResultTable(ms)[id] else Placeholder(id)
  {
    ResultTableLookup(ms, id);
  }

  lemma ResultTableKeys(ms: seq<Message>)
    ensures ResultTable(ms).Keys == RecordedIds(ms)
  {
  }

  lemma ResultsOneMore(ms: seq<Message>, ids: seq<string>, i: nat, known: set<string>)
    requires i < |ids|
    ensures ResultsFor(ms, ids[..i + 1]) == ResultsFor(ms, ids[..i]) + [ResultFor(ms, ids[i])]
    ensures CountMissing(ids[..i + 1], known) == CountMissing(ids[..i], known) + (if ids[i] in known then 0 else 1)
  {
    assert ids[..i + 1][..i] == ids[..i];
  }

  /** The inner loop: one result, recorded or inserted, per expected id. */
  method ResultsOf(expected: seq<string>, toolResults: map<string, Message>, ghost messages: seq<Message>)
    returns (results: seq<Message>, inserted: nat)
    requires "" !in expected && toolResults == ResultTable(messages)
    ensures results == ResultsFor(messages, expected)
    ensures inserted == CountMissing(expected, toolResults.Keys)
  {
    results, inserted := [], 0;
    for i := 0 to |expected|
      invariant results == ResultsFor(messages, expected[..i])
      invariant inserted == CountMissing(expected[..i], toolResults.Keys)
    {
      var id := expected[i];
      TableGivesResult(messages, id);
      ResultsOneMore(messages, expected, i, toolResults.Keys);
      if id in toolResults {
        results := results + [toolResults[id]];
      } else {
        results := results + [Placeholder(id)];
        inserted := inserted + 1;
      }
    }
    assert expected[..|expected|] == expected;
  }

  /** One pass of the outer loop over a kept message: the message, then its results. */
  method KeepWithResults(message: Message, toolResults: map<string, Message>, ghost messages: seq<Message>)
    returns (block: seq<Message>, inserted: nat)
    requires message.role != Tool && toolResults == ResultTable(messages)
    ensures block == Block(message, messages)
    ensures inserted == CountMissing(Expected(message), toolResults.Keys)
  {
    var results;
    results, inserted := ResultsOf(Expected(message), toolResults, messages);
    block := [message] + results;
  }

  lemma Regroup(a: seq<Message>, b: seq<Message>, c: seq<Message>)
    ensures (a + b) + c == a + (b + c)
  {
  }

  lemma RepairStep(ms: seq<Message>, k: nat, all: seq<Message>, known: set<string>)
    requires k < |ms|
    ensures RepairFrom(ms[k..], all) == Block(ms[k], all) + RepairFrom(ms[k + 1..], all)
    ensures CountTool(ms[k..]) == (if ms[k].role == Tool then 1 else 0) + CountTool(ms[k + 1..])
    ensures CountInserted(ms[k..], known) == CountMissing(Expected(ms[k]), known) + CountInserted(ms[k + 1..], known)
  {
  }

  /** The second loop's three variables. */
  datatype Progress = Progress(repaired: seq<Message>, inserted: nat, dropped: nat)

  /** Their values after `k` messages. */
  function After(ms: seq<Message>, known: set<string>, k: nat): Progress
    requires k <= |ms|
  {
    if k == 0 then Progress([], 0, 0)
    else
      var p, m := After(ms, known, k - 1), ms[k - 1];
      if m.role == Tool then p.(dropped := p.dropped + 1)
      else p.(repaired := p.repaired + Block(m, ms), inserted := p.inserted + CountMissing(Expected(m), known))
  }

  lemma {:induction false} AfterRepaired(ms: seq<Message>, known: set<string>, k: nat)
    requires k <= |ms|
    ensures After(ms, known, k).repaired + RepairFrom(ms[k..], ms) == Repair(ms)
  {
    if k == 0 {
      assert ms[0..] == ms;
    } else {
      AfterRepaired(ms, known, k - 1);
      RepairStep(ms, k - 1, ms, known);
      var before, block, rest := After(ms, known, k - 1).repaired, Block(ms[k - 1], ms), RepairFrom(ms[k..], ms);
      assert After(ms, known, k).repaired == before + block;
      Regroup(before, block, rest);
    }
  }

  lemma {:induction false} AfterCounts(ms: seq<Message>, known: set<string>, k: nat)
    requires k <= |ms|
    ensures After(ms, known, k).dropped + CountTool(ms[k..]) == CountTool(ms)
    ensures After(ms, known, k).inserted + CountInserted(ms[k..], known) == CountInserted(ms, known)
  {
    if k == 0 {
      assert ms[0..] == ms;
    } else {
      AfterCounts(ms, known, k - 1);
      RepairStep(ms, k - 1, ms, known);
    }
  }

  /** The first loop: the dictionary of recorded results. */
  method RecordResults(messages: seq<Message>) returns (toolResults: map<string, Message>)
    ensures toolResults == ResultTable(messages)
  {
    toolResults := map[];
    for k := 0 to |messages|
      invariant toolResults == ResultTable(messages[..k])
    {
      var message := messages[k];
      assert messages[..k + 1][..k] == messages[..k];
      if message.role == Tool && message.toolCallId != "" && message.toolCallId !in toolResults {
        toolResults := toolResults[message.toolCallId := message];
      }
    }
    assert messages[..|messages|] == messages;
  }

  /** `repair_tool_sequences`. */
  method RepairToolSequences(messages: seq<Message>)
    returns (repaired: seq<Message>, inserted: nat, dropped: nat)
    ensures repaired == Repair(messages)
    ensures dropped == CountTool(messages)
    ensures inserted == CountInserted(messages, RecordedIds(messages))
  {
    var toolResults := RecordResults(messages);
    ghost var known := toolResults.Keys;
    repaired, inserted, dropped := [], 0, 0;
    for k := 0 to |messages|
      invariant Progress(repaired, inserted, dropped) == After(messages, known, k)
    {
      var message := messages[k];
      if message.role == Tool {
        dropped := dropped + 1;
      } else {
        var block, missing := KeepWithResults(message, toolResults, messages);
        repaired, inserted := repaired + block, inserted + missing;
      }
    }
    ResultTableKeys(messages);
    AfterRepaired(messages, known, |messages|);
    AfterCounts(messages, known, |messages|);
    assert messages[|messages|..] == [];
  }
}
