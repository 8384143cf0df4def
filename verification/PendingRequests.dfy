/**
  The WebSocket client's table of pending requests: every event that touches it, in any
  interleaving. Requests are numbered in the order they are issued.
*/
module PendingRequests {

  /** The client's fields, and what has become of the requests: `issued` gives the id of
      each, and `settles` counts the times its promise was resolved or rejected, by a response,
      a timer, a failed send or a close. */
  datatype Client = Client(
    pending: map<string, nat>,
    timers: set<nat>,
    sending: set<nat>,
    closed: bool,
    hasSocket: bool,
    issued: seq<string>,
    settles: multiset<nat>)

  const INITIAL := Client(map[], {}, {}, false, false, [], multiset{})

  datatype Event =
    | Request(id: string)             // a call of `request` that draws this id
    | Response(id: string)            // a message with this id, result or error
    | Timeout(n: nat)                 // the timer of request n fires
    | Sent(n: nat, failed: bool)      // the send callback of request n
    | SocketClosed                    // the socket's close event
    | Close                           // a call of `close`

  function Rejecting(c: Client): Client {
    c.(closed := true, pending := map[], timers := c.timers - c.pending.Values,
       settles := c.settles + multiset(c.pending.Values))
  }

  function Step(c: Client, e: Event): Client {
    match e
    case Request(id) =>
      if c.closed then c.(hasSocket := true)
      else
        var n := |c.issued|;
        c.(hasSocket := true, issued := c.issued + [id], pending := c.pending[id := n],
           timers := c.timers + {n}, sending := c.sending + {n})
    case Response(id) =>
      if id !in c.pending then c
      else
        var n := c.pending[id];
        c.(pending := c.pending - {id}, timers := c.timers - {n}, settles := c.settles + multiset{n})
    case Timeout(n) =>
      if n !in c.timers || n >= |c.issued| then c
      else c.(pending := c.pending - {c.issued[n]}, timers := c.timers - {n}, settles := c.settles + multiset{n})
    case Sent(n, failed) =>
      if n !in c.sending || n >= |c.issued| then c
      else if !failed then c.(sending := c.sending - {n})
      else c.(sending := c.sending - {n}, pending := c.pending - {c.issued[n]}, timers := c.timers - {n},
              settles := c.settles + multiset{n})
    case SocketClosed => Rejecting(c)
    case Close =>
      if !c.hasSocket then c
      else if c.closed then c.(hasSocket := false)
      else Rejecting(c).(hasSocket := false)
  }

  function Run(events: seq<Event>): Client {
    if events == [] then INITIAL else Step(Run(events[..|events| - 1]), events[|events| - 1])
  }

  // ----- What the table must say -----

  /** Each pending entry is an issued request under its own id. */
  predicate WellFormed(c: Client) {
    forall id :: id in c.pending ==> c.pending[id] < |c.issued| && c.issued[c.pending[id]] == id
  }

  predicate Unsettled(c: Client, n: nat) {
    n < |c.issued| && n !in c.settles
  }

  /** The table is exactly the issued requests that are not settled, their timers run, and
      a closed client has none pending. */
  ghost predicate Exact(c: Client) {
    && WellFormed(c)
    && (forall id :: id in c.pending ==> Unsettled(c, c.pending[id]))
    && (forall n: nat :: Unsettled(c, n) ==> c.issued[n] in c.pending && c.pending[c.issued[n]] == n)
    && (forall n: nat :: n in c.timers <==> Unsettled(c, n))
    && (forall n: nat :: n in c.settles || n in c.sending ==> n < |c.issued|)
    && (c.closed ==> c.pending == map[])
  }

  /** The event finds a request id in use for another request. */
  predicate IdClash(c: Client, e: Event) {
    match e
    case Request(id) => !c.closed && id in c.pending
    case Sent(n, failed) =>
      failed && n in c.sending && n < |c.issued| && c.issued[n] in c.pending && c.pending[c.issued[n]] != n
    case _ => false
  }

  lemma WellFormedAlways(c: Client, e: Event)
    requires WellFormed(c)
    ensures WellFormed(Step(c, e))
  {
  }

  lemma RejectingIsExact(c: Client)
    requires Exact(c)
    ensures Exact(Rejecting(c))
  {
  }

  lemma RequestIsExactIff(c: Client, id: string)
    requires Exact(c) && !c.closed
    ensures Exact(Step(c, Request(id))) <==> id !in c.pending
  {
  }

  /** Taking a pending request out of the table, its timer with it, and settling it. */
  lemma SettlingIsExact(c: Client, c': Client, n: nat)
    requires Exact(c) && Unsettled(c, n)
    requires c'.pending == c.pending - {c.issued[n]} && c'.timers == c.timers - {n}
    requires c'.issued == c.issued && c'.closed == c.closed && c'.sending <= c.sending
    requires c'.settles == c.settles + multiset{n}
    ensures Exact(c')
  {
  }

  /** The socket and the outstanding callbacks do not matter to the table. */
  lemma OtherFields(c: Client, c': Client)
    requires Exact(c) && c'.sending <= c.sending
    requires c' == c.(sending := c'.sending, hasSocket := c'.hasSocket)
    ensures Exact(c')
  {
  }

  lemma CloseIsExact(c: Client)
    requires Exact(c)
    ensures Exact(Step(c, Close))
  {
  }

  lemma SentIsExactIff(c: Client, n: nat, failed: bool)
    requires Exact(c)
    ensures Exact(Step(c, Sent(n, failed))) <==> !IdClash(c, Sent(n, failed))
  {
  }

  lemma SettledByMessageOrTimer(c: Client, e: Event)
    requires Exact(c) && (e.Response? || e.Timeout?)
    ensures Exact(Step(c, e))
  {
    if e.Response? && e.id in c.pending {
      SettlingIsExact(c, Step(c, e), c.pending[e.id]);
    } else if e.Timeout? && e.n in c.timers {
      assert Unsettled(c, e.n);
      SettlingIsExact(c, Step(c, e), e.n);
    }
  }

  /** One event keeps the table exact if and only if it meets no id clash. */
  lemma {:induction false} StepIsExactIff(c: Client, e: Event)
    requires Exact(c)
    ensures Exact(Step(c, e)) <==> !IdClash(c, e)
  {
    match e
    case Request(id) =>
      if c.closed { OtherFields(c, Step(c, e)); } else { RequestIsExactIff(c, id); }
    case Response(id) => SettledByMessageOrTimer(c, e);
    case Timeout(n) => SettledByMessageOrTimer(c, e);
    case Sent(n, failed) => SentIsExactIff(c, n, failed);
    case SocketClosed => RejectingIsExact(c);
    case Close => CloseIsExact(c);
  }

  // ----- Every interleaving -----

  predicate DistinctIds(ids: seq<string>) {
    forall i, j :: 0 <= i < j < |ids| ==> ids[i] != ids[j]
  }

  lemma IssuedGrows(c: Client, e: Event)
    ensures c.issued <= Step(c, e).issued
  {
  }

  lemma FreshIdsDoNotClash(c: Client, e: Event)
    requires Exact(c) && DistinctIds(Step(c, e).issued)
    ensures !IdClash(c, e)
  {
    var ids := Step(c, e).issued;
    assert forall i :: 0 <= i < |c.issued| ==> ids[i] == c.issued[i];
    if e.Request? && !c.closed {
      assert ids[|c.issued|] == e.id;
      assert forall i :: 0 <= i < |c.issued| ==> c.issued[i] != e.id;
    }
  }

  /** With fresh ids, in every interleaving of requests, responses, timeouts, send failures and
      closes, the pending table is exactly the issued and unsettled requests. */
  lemma {:induction false} TableIsExact(events: seq<Event>)
    requires DistinctIds(Run(events).issued)
    ensures Exact(Run(events))
  {
    if events == [] {
      assert forall n: nat :: !Unsettled(INITIAL, n);
    } else {
      var before, e := Run(events[..|events| - 1]), events[|events| - 1];
      IssuedGrows(before, e);
      assert forall i :: 0 <= i < |before.issued| ==> before.issued[i] == Run(events).issued[i];
      TableIsExact(events[..|events| - 1]);
      FreshIdsDoNotClash(before, e);
      StepIsExactIff(before, e);
    }
  }

  ghost predicate ExactThroughout(events: seq<Event>) {
    forall i :: 0 <= i <= |events| ==> Exact(Run(events[..i]))
  }

  ghost predicate NeverClashes(events: seq<Event>) {
    forall i :: 0 <= i < |events| ==> !IdClash(Run(events[..i]), events[i])
  }

  lemma InitiallyExact()
    ensures Exact(Run([]))
  {
    assert forall n: nat :: !Unsettled(INITIAL, n);
  }

  lemma RunOneMore(events: seq<Event>, i: nat)
    requires i < |events|
    ensures Run(events[..i + 1]) == Step(Run(events[..i]), events[i])
  {
    assert events[..i + 1][..i] == events[..i];
  }

  lemma {:induction false} ExactSoFar(events: seq<Event>, i: nat)
    requires i <= |events| && NeverClashes(events)
    ensures Exact(Run(events[..i]))
  {
    if i == 0 {
      InitiallyExact();
    } else {
      ExactSoFar(events, i - 1);
      StepIsExactIff(Run(events[..i - 1]), events[i - 1]);
      RunOneMore(events, i - 1);
    }
  }

  /** Ids fresh or not, the table is exact at every point of a run if and only if no event of
      the run meets an id clash. */
  lemma {:induction false} ExactThroughoutIff(events: seq<Event>)
    ensures ExactThroughout(events) <==> NeverClashes(events)
  {
    if ExactThroughout(events) {
      forall i | 0 <= i < |events| ensures !IdClash(Run(events[..i]), events[i]) {
        StepIsExactIff(Run(events[..i]), events[i]);
        RunOneMore(events, i);
      }
    }
    if NeverClashes(events) {
      forall i | 0 <= i <= |events| ensures Exact(Run(events[..i])) {
        ExactSoFar(events, i);
      }
    }
  }

  lemma {:induction false} FreshIdsNeverClash(events: seq<Event>, i: nat)
    requires DistinctIds(Run(events).issued) && i <= |events|
    ensures DistinctIds(Run(events[..i]).issued) && (i < |events| ==> !IdClash(Run(events[..i]), events[i]))
    decreases |events| - i
  {
    if i == |events| {
      assert events[..i] == events;
    } else {
      FreshIdsNeverClash(events, i + 1);
      RunOneMore(events, i);
      var c, e := Run(events[..i]), events[i];
      IssuedGrows(c, e);
      assert forall k :: 0 <= k < |c.issued| ==> c.issued[k] == Step(c, e).issued[k];
      TableIsExact(events[..i]);
      FreshIdsDoNotClash(c, e);
    }
  }

  // ----- Which events do what -----

  /** The event settles request `n`: a response with its id, its timeout, the failure of its send, or
      a close of the socket or, where there is a socket, of the client. */
  predicate Settles(c: Client, e: Event, n: nat)
    requires n < |c.issued|
  {
    match e
    case Request(_) => false
    case Response(id) => id == c.issued[n]
    case Timeout(m) => m == n
    case Sent(m, failed) => m == n && failed && n in c.sending
    case SocketClosed => true
    case Close => c.hasSocket
  }

  /** After one event a request is settled if and only if it was, or the event settles it. */
  lemma {:induction false} StepSettlesIff(c: Client, e: Event, n: nat)
    requires Exact(c) && n < |c.issued|
    ensures n in Step(c, e).settles <==> n in c.settles || Settles(c, e, n)
  {
    assert n !in c.settles ==> Unsettled(c, n);
  }

  /** What issuing does: the next number, under its id, pending with a timer and a send under way,
      unless the client is closed. */
  lemma {:induction false} RequestIssues(c: Client, id: string)
    requires Exact(c)
    ensures var c', n := Step(c, Request(id)), |c.issued|;
            if c.closed then c'.issued == c.issued && c'.pending == c.pending && c'.settles == c.settles
            else
              && c'.issued == c.issued + [id] && Unsettled(c', n) && !c'.closed && c'.hasSocket
              && id in c'.pending && c'.pending[id] == n && n in c'.timers && n in c'.sending
  {
  }

  /** The event closes the client. */
  predicate Closes(c: Client, e: Event) {
    e.SocketClosed? || (e.Close? && c.hasSocket)
  }

  /** Closing settles every request, empties the table and stops every timer. */
  lemma {:induction false} ClosingSettlesAll(c: Client, e: Event)
    requires Exact(c) && Closes(c, e)
    ensures var c' := Step(c, e);
            && c'.closed && c'.pending == map[] && c'.timers == {}
            && forall n :: 0 <= n < |c'.issued| ==> n in c'.settles
  {
    var c' := Step(c, e);
    CloseIsExact(c);
    RejectingIsExact(c);
    assert c'.issued == c.issued;
    forall n: nat | n < |c'.issued| ensures n in c'.settles {
      StepSettlesIff(c, e, n);
    }
    assert forall n: nat :: n in c'.timers ==> Unsettled(c', n);
  }

  lemma StepClosesIff(c: Client, e: Event)
    ensures Step(c, e).closed <==> c.closed || Closes(c, e)
    ensures Step(c, e).hasSocket <==> e.Request? || (c.hasSocket && !e.Close?)
  {
  }

  /** Event `i` of the run closes the client. */
  predicate ClosedAt(events: seq<Event>, i: nat) {
    i < |events| && Closes(Run(events[..i]), events[i])
  }

  /** One of the events before `i` does. */
  predicate ClosedBefore(events: seq<Event>, i: nat)
    ensures ClosedBefore(events, i) <==> exists k :: 0 <= k < i && ClosedAt(events, k)
  {
    i > 0 && (ClosedAt(events, i - 1) || ClosedBefore(events, i - 1))
  }

  lemma ClosedNext(events: seq<Event>, i: nat)
    requires i < |events|
    ensures Run(events[..i + 1]).closed <==> Run(events[..i]).closed || ClosedAt(events, i)
  {
    RunOneMore(events, i);
    StepClosesIff(Run(events[..i]), events[i]);
  }

  /** At each point of a run the client is closed if and only if an event closed it. */
  lemma {:induction false} ClosedIff(events: seq<Event>, i: nat)
    requires i <= |events|
    ensures Run(events[..i]).closed <==> ClosedBefore(events, i)
  {
    if i > 0 {
      ClosedIff(events, i - 1);
      ClosedNext(events, i - 1);
      assert ClosedBefore(events, i) <==> ClosedAt(events, i - 1) || ClosedBefore(events, i - 1);
    }
  }

  /** Event `i` of the run settles request `n`, issued before it. */
  predicate SettledAt(events: seq<Event>, i: nat, n: nat) {
    i < |events| && n < |Run(events[..i]).issued| && Settles(Run(events[..i]), events[i], n)
  }

  predicate SettledBefore(events: seq<Event>, i: nat, n: nat)
    ensures SettledBefore(events, i, n) <==> exists k :: 0 <= k < i && SettledAt(events, k, n)
  {
    i > 0 && (SettledAt(events, i - 1, n) || SettledBefore(events, i - 1, n))
  }

  lemma NewIsUnsettled(c: Client, e: Event, n: nat)
    requires Exact(c) && n >= |c.issued|
    ensures n !in Step(c, e).settles
  {
  }

  lemma SettledNext(events: seq<Event>, i: nat, n: nat)
    requires i < |events| && Exact(Run(events[..i]))
    ensures n in Run(events[..i + 1]).settles <==> n in Run(events[..i]).settles || SettledAt(events, i, n)
  {
    var c, e := Run(events[..i]), events[i];
    RunOneMore(events, i);
    if n < |c.issued| {
      StepSettlesIff(c, e, n);
    } else {
      NewIsUnsettled(c, e, n);
    }
  }

  lemma {:induction false} SettledSoFar(events: seq<Event>, i: nat, n: nat)
    requires NeverClashes(events) && i <= |events|
    ensures n in Run(events[..i]).settles <==> SettledBefore(events, i, n)
  {
    if i > 0 {
      SettledSoFar(events, i - 1, n);
      ExactSoFar(events, i - 1);
      SettledNext(events, i - 1, n);
    }
  }

  /** Over a run with fresh ids, a request is settled if and only if, after it was issued, there was a
      response with its id, its timeout, the failure of its send, or a close. */
  lemma {:induction false} SettledIff(events: seq<Event>, n: nat)
    requires DistinctIds(Run(events).issued)
    ensures n in Run(events).settles <==> SettledBefore(events, |events|, n)
  {
    forall i | 0 <= i < |events| ensures !IdClash(Run(events[..i]), events[i]) {
      FreshIdsNeverClash(events, i);
    }
    SettledSoFar(events, |events|, n);
    assert events[..|events|] == events;
  }

  // ----- How often a promise is settled -----

  ghost predicate Once(c: Client) {
    forall n: nat :: c.settles[n] <= 1
  }

  /** The send of a request that is already settled fails, and rejects it again. */
  predicate LateFailure(c: Client, e: Event) {
    e.Sent? && e.failed && e.n in c.sending && e.n < |c.issued| && e.n in c.settles
  }

  /** Each pending request has its timer, and a running timer is that of a request not yet
      settled. Unlike `Exact` this needs no fresh ids. */
  ghost predicate Timed(c: Client) {
    && WellFormed(c)
    && (forall id :: id in c.pending ==> c.pending[id] in c.timers)
    && (forall n: nat :: n in c.timers ==> Unsettled(c, n))
    && (forall n: nat :: n in c.settles || n in c.sending ==> n < |c.issued|)
  }

  /** Taking the entry and the timer of a request out and settling it once more. */
  lemma SettlingKeepsTimed(c: Client, c': Client, n: nat)
    requires Timed(c) && n < |c.issued|
    requires c'.pending == c.pending - {c.issued[n]} && c'.timers == c.timers - {n}
    requires c'.issued == c.issued && c'.sending <= c.sending && c'.settles == c.settles + multiset{n}
    ensures Timed(c')
  {
  }

  lemma RejectingKeepsTimed(c: Client)
    requires Timed(c)
    ensures Timed(Rejecting(c))
  {
  }

  lemma RequestKeepsTimed(c: Client, id: string)
    requires Timed(c)
    ensures Timed(Step(c, Request(id)))
  {
  }

  lemma ResponseKeepsTimed(c: Client, id: string)
    requires Timed(c)
    ensures Timed(Step(c, Response(id)))
  {
    if id in c.pending {
      SettlingKeepsTimed(c, Step(c, Response(id)), c.pending[id]);
    }
  }

  lemma TimeoutKeepsTimed(c: Client, n: nat)
    requires Timed(c)
    ensures Timed(Step(c, Timeout(n)))
  {
    if n in c.timers {
      SettlingKeepsTimed(c, Step(c, Timeout(n)), n);
    }
  }

  lemma SentKeepsTimed(c: Client, n: nat, failed: bool)
    requires Timed(c)
    ensures Timed(Step(c, Sent(n, failed)))
  {
    if n in c.sending && failed {
      SettlingKeepsTimed(c, Step(c, Sent(n, failed)), n);
    }
  }

  lemma StepKeepsTimed(c: Client, e: Event)
    requires Timed(c)
    ensures Timed(Step(c, e))
  {
    match e
    case Request(id) => RequestKeepsTimed(c, id);
    case Response(id) => ResponseKeepsTimed(c, id);
    case Timeout(n) => TimeoutKeepsTimed(c, n);
    case Sent(n, failed) => SentKeepsTimed(c, n, failed);
    case SocketClosed => RejectingKeepsTimed(c);
    case Close => RejectingKeepsTimed(c);
  }

  lemma {:induction false} AlwaysTimed(events: seq<Event>)
    ensures Timed(Run(events))
  {
    if events != [] {
      AlwaysTimed(events[..|events| - 1]);
      StepKeepsTimed(Run(events[..|events| - 1]), events[|events| - 1]);
    }
  }

  /** An event settles a promise a second time if and only if it is a late send failure. */
  lemma {:induction false} StepSettlesOnceIff(c: Client, e: Event)
    requires Timed(c) && Once(c)
    ensures Once(Step(c, e)) <==> !LateFailure(c, e)
  {
    var c' := Step(c, e);
    if e.Sent? && e.n in c.sending && e.failed {
      assert c'.settles[e.n] == c.settles[e.n] + 1;
    }
  }

  lemma SettlesOnlyGrow(c: Client, e: Event)
    ensures c.settles <= Step(c, e).settles
  {
  }

  ghost predicate NoLateFailure(events: seq<Event>) {
    forall i :: 0 <= i < |events| ==> !LateFailure(Run(events[..i]), events[i])
  }

  lemma NoLateFailureSnoc(front: seq<Event>, e: Event)
    ensures NoLateFailure(front + [e]) <==> NoLateFailure(front) && !LateFailure(Run(front), e)
  {
    var events := front + [e];
    assert events[..|front|] == front && events[|front|] == e;
    assert forall i :: 0 <= i < |front| ==> front[..i] == events[..i] && front[i] == events[i];
  }

  /** In every run whatever, reused ids included, each promise is settled at most once if and
      only if no send failed after its request was settled. */
  lemma {:induction false} SettledOnceIff(events: seq<Event>)
    ensures Once(Run(events)) <==> NoLateFailure(events)
  {
    if events != [] {
      var front, e := events[..|events| - 1], events[|events| - 1];
      assert events == front + [e];
      SettledOnceIff(front);
      NoLateFailureSnoc(front, e);
      AlwaysTimed(front);
      StepSettlesOnce(Run(front), e);
    }
  }

  lemma StepSettlesOnce(c: Client, e: Event)
    requires Timed(c)
    ensures Once(Step(c, e)) <==> Once(c) && !LateFailure(c, e)
  {
    SettlesOnlyGrow(c, e);
    if Once(c) {
      StepSettlesOnceIff(c, e);
    } else {
      var n: nat :| c.settles[n] > 1;
      assert Step(c, e).settles[n] > 1;
    }
  }

  /** The least such run: a timeout, then the failed send. The table stays exact. */
  lemma {:induction false} LateFailureSettlesTwice(id: string)
    ensures var c := Run([Request(id), Timeout(0), Sent(0, true)]);
            Exact(c) && c.settles[0] == 2
  {
    var events := [Request(id), Timeout(0), Sent(0, true)];
    assert events[..2] == [Request(id), Timeout(0)] && events[..2][..1] == [Request(id)] && [Request(id)][..0] == [];
    assert Run([Request(id)]) == Step(INITIAL, Request(id));
    assert Run(events[..2]) == Step(Step(INITIAL, Request(id)), Timeout(0));
    assert Run(events).issued == [id];
    TableIsExact(events);
  }

  predicate TwiceAtMost(c: Client, n: nat) {
    c.settles[n] <= 2 && (n in c.sending ==> c.settles[n] <= 1)
  }

  lemma StepKeepsTwiceAtMost(c: Client, e: Event, n: nat)
    requires Timed(c) && TwiceAtMost(c, n)
    ensures TwiceAtMost(Step(c, e), n)
  {
  }

  /** No promise is settled more than twice, since a send has one callback. */
  lemma {:induction false} SettledAtMostTwice(events: seq<Event>, n: nat)
    ensures TwiceAtMost(Run(events), n)
  {
    if events != [] {
      AlwaysTimed(events[..|events| - 1]);
      SettledAtMostTwice(events[..|events| - 1], n);
      StepKeepsTwiceAtMost(Run(events[..|events| - 1]), events[|events| - 1], n);
    }
  }

  // ----- Closing and reused ids -----

  /** Once closed, the client stays closed, issues nothing more and has nothing pending. */
  lemma {:induction false} ClosedForGood(events: seq<Event>, k: nat)
    requires k <= |events| && Run(events[..k]).closed
    ensures Run(events).closed && Run(events).pending == map[] && Run(events).issued == Run(events[..k]).issued
    decreases |events|
  {
    ClosedIsEmpty(events[..k]);
    if k == |events| {
      assert events[..k] == events;
    } else {
      var front := events[..|events| - 1];
      assert front[..k] == events[..k];
      ClosedForGood(front, k);
      ClosedStays(Run(front), events[|events| - 1]);
    }
  }

  lemma ClosedStays(c: Client, e: Event)
    requires c.closed && c.pending == map[]
    ensures var c' := Step(c, e); c'.closed && c'.pending == map[] && c'.issued == c.issued
  {
  }

  lemma {:induction false} ClosedIsEmpty(events: seq<Event>)
    ensures Run(events).closed ==> Run(events).pending == map[]
  {
    if events != [] {
      ClosedIsEmpty(events[..|events| - 1]);
    }
  }

  /** A request that draws an id still pending is lost to the table: its namesake is neither
      settled nor pending. */
  lemma {:induction false} ReusedIdIsLost(id: string)
    ensures var c := Run([Request(id), Request(id)]);
            Unsettled(c, 0) && 0 !in c.pending.Values
  {
    assert [Request(id), Request(id)][..1] == [Request(id)] && [Request(id)][..0] == [];
    var c := Run([Request(id), Request(id)]);
    assert Run([Request(id)]) == Step(INITIAL, Request(id));
    assert c.pending == map[id := 1];
  }

  // ----- The code -----

  /** The requests whose ids the rejecting loop has already met. */
  function Met(pending: map<string, nat>, todo: set<string>): set<nat> {
    set id | id in pending && id !in todo :: pending[id]
  }

  lemma MeetOne(c: Client, todo: set<string>, id: string)
    requires WellFormed(c) && id in todo && id in c.pending
    ensures Met(c.pending, todo - {id}) == Met(c.pending, todo) + {c.pending[id]}
    ensures c.pending[id] !in Met(c.pending, todo)
  {
    forall n | n in Met(c.pending, todo - {id}) ensures n in Met(c.pending, todo) + {c.pending[id]} {
      var id' :| id' in c.pending && id' !in todo - {id} && c.pending[id'] == n;
    }
    assert id !in todo - {id};
  }

  lemma AllMet(pending: map<string, nat>)
    ensures Met(pending, {}) == pending.Values
  {
  }

  lemma RejectOne(t: set<nat>, s: multiset<nat>, met: set<nat>, n: nat)
    requires n !in met
    ensures (t - met) - {n} == t - (met + {n})
    ensures s + multiset(met) + multiset{n} == s + multiset(met + {n})
  {
  }

  /** `M9WsClient`. A request's number stands for the promise its caller holds. */
  class WsClient {
    var pending: map<string, nat>
    var timers: set<nat>
    var sending: set<nat>
    var closed: bool
    var hasSocket: bool
    var issued: seq<string>
    var settles: multiset<nat>

    function Contents(): Client
      reads this
    {
      Client(pending, timers, sending, closed, hasSocket, issued, settles)
    }

    constructor ()
      ensures Contents() == INITIAL
    {
      pending, timers, sending, closed, hasSocket := map[], {}, {}, false, false;
      issued, settles := [], multiset{};
    }

    /** `request`, once its id is drawn; false when it throws instead. */
    method IssueRequest(id: string) returns (ok: bool)
      modifies this
      ensures Contents() == Step(old(Contents()), Request(id))
      ensures ok == !old(closed)
    {
      hasSocket := true;  // connects when there is no socket
      if closed {
        return false;
      }
      var n := |issued|;
      issued := issued + [id];
      timers := timers + {n};
      pending := pending[id := n];
      sending := sending + {n};
      ok := true;
    }

    /** `handleMessage` for a message with an id. */
    method HandleResponse(id: string)
      modifies this
      ensures Contents() == Step(old(Contents()), Response(id))
    {
      if id !in pending {
        return;
      }
      var n := pending[id];
      pending := pending - {id};
      timers := timers - {n};
      settles := settles + multiset{n};
    }

    /** The timer callback of a request. */
    method TimerFires(n: nat)
      requires n in timers && n < |issued|
      modifies this
      ensures Contents() == Step(old(Contents()), Timeout(n))
    {
      timers := timers - {n};
      pending := pending - {issued[n]};
      settles := settles + multiset{n};
    }

    /** The send callback of a request. */
    method SendCallback(n: nat, failed: bool)
      requires n in sending && n < |issued|
      modifies this
      ensures Contents() == Step(old(Contents()), Sent(n, failed))
    {
      sending := sending - {n};
      if failed {
        pending := pending - {issued[n]};
        timers := timers - {n};
        settles := settles + multiset{n};
      }
    }

    /** The loop that rejects everything pending, then clears the table. */
    method RejectAll()
      requires WellFormed(Contents())
      modifies this`pending, this`timers, this`settles
      ensures pending == map[] && timers == old(timers) - old(pending).Values
      ensures settles == old(settles) + multiset(old(pending).Values)
    {
      var todo := pending.Keys;
      ghost var before, met: set<nat> := Contents(), {};
      while todo != {}
        invariant todo <= pending.Keys && pending == before.pending
        invariant met == Met(before.pending, todo)
        invariant timers == old(timers) - met && settles == old(settles) + multiset(met)
        decreases |todo|
      {
        var id :| id in todo;
        MeetOne(before, todo, id);
        RejectOne(old(timers), old(settles), met, pending[id]);
        timers := timers - {pending[id]};
        settles := settles + multiset{pending[id]};
        met := met + {pending[id]};
        todo := todo - {id};
      }
      AllMet(before.pending);
      pending := map[];
    }

    /** The socket's close handler. */
    method OnSocketClose()
      requires WellFormed(Contents())
      modifies this
      ensures Contents() == Step(old(Contents()), SocketClosed)
    {
      closed := true;
      RejectAll();
    }

    /** `close`. */
    method CloseClient()
      requires WellFormed(Contents())
      modifies this
      ensures Contents() == Step(old(Contents()), Close)
    {
      if !hasSocket {
        return;
      }
      if closed {
        hasSocket := false;
        return;
      }
      hasSocket := false;
      closed := true;
      RejectAll();
    }
  }
}
