/** What a stream's trace and outcome say about its turns: which errors are reported, which are
    retried, and which ends are normal. */
module StreamOutcomes {
  import opened Wrappers
  import opened WebSocketStream

  /** The transport closed, last with this detail. */
  ghost predicate ClosedWith(events: seq<TransportEvent>, d: Detail) {
    exists i :: 0 <= i < |events| && events[i] == Closed(d) && forall j :: i < j < |events| ==> !events[j].Closed?
  }

  predicate NeverClosed(events: seq<TransportEvent>) {
    forall i :: 0 <= i < |events| ==> !events[i].Closed?
  }

  /** The error that this turn is to be retried or to fail with. */
  ghost predicate FailsWith(t: Turn, e: Error) {
    match t.settlement
    case Completes =>
      && e.CloseError?
      && (ClosedWith(t.events, e.detail) || (NeverClosed(t.events) && e.detail == Detail(1006, "", false)))
    case Rejects(x) => e == x
    case NotConstructed(x) => e == x
    case ConsumerReturns => false
  }

  /** What the default policy retries. */
  predicate Transient(e: Error) {
    || e.SocketError? || e.HeartbeatTimeout? || e.IdleTimeout?
    || (e.CloseError? && e.detail.code != 1000 && e.detail.code != 1002 && e.detail.code != 1003
        && e.detail.code != 1007 && e.detail.code != 1009)
  }

  predicate NormalClose(e: Error) {
    e.CloseError? && e.detail.code == 1000
  }

  predicate NoError(hooks: seq<Hook>) {
    forall i :: 0 <= i < |hooks| ==> !hooks[i].OnError?
  }

  /** The turn got as far as the policy: it dialled, the consumer did not return, and there was
      no abort. */
  predicate Judged(t: Turn) {
    && t.abortedAtTop.None? && t.urlError.None? && t.abortedAfterUrl.None?
    && !t.settlement.ConsumerReturns? && t.abortedAtCatch.None?
  }

  // -------------------------------------------------------------- tools

  lemma {:induction false} LastCloseIs(events: seq<TransportEvent>)
    ensures match LastClose(events)
      case Some(d) => ClosedWith(events, d)
      case None => NeverClosed(events)
  {
    if events != [] && !events[|events| - 1].Closed? {
      var init := events[..|events| - 1];
      LastCloseIs(init);
      if LastClose(init).Some? {
        var i :| 0 <= i < |init| && init[i] == Closed(LastClose(init).value) && forall j :: i < j < |init| ==> !init[j].Closed?;
        assert events[i] == init[i];
      }
    }
  }

  lemma ClosedWithOne(events: seq<TransportEvent>, d: Detail, e: Detail)
    requires ClosedWith(events, d) && ClosedWith(events, e)
    ensures d == e
  {
  }

  lemma FailsWithOne(t: Turn, e: Error)
    requires !t.settlement.ConsumerReturns?
    ensures FailsWith(t, e) <==> e == ErrorOf(t)
  {
    LastCloseIs(t.events);
    if t.settlement.Completes? && e.CloseError? && ClosedWith(t.events, e.detail) && LastClose(t.events).Some? {
      ClosedWithOne(t.events, e.detail, LastClose(t.events).value);
    }
  }

  lemma {:induction false} RetryErrorsHas(h: seq<Hook>, i: nat)
    requires i < |h| && h[i].OnReconnect?
    ensures h[i].error in RetryErrors(h)
  {
    if i < |h| - 1 { RetryErrorsHas(Init(h), i); }
  }

  /** An error is reported only of a stream that failed, and it is the one that it failed with. */
  lemma ErrorIsTheEnd(policy: Policy, turns: seq<Turn>, hooks: seq<Hook>, end: Option<Outcome>, used: nat, i: nat)
    requires Ran(policy, turns, hooks, end, used) && i < |hooks| && hooks[i].OnError?
    ensures end == Some(Failed(hooks[i].error))
  {
    EndsAfterError(hooks, i);
    if i < |hooks| - 1 {
      assert Last(hooks) == hooks[i + 1] && Last(Init(hooks)) == hooks[i];
    }
  }

  lemma TurnVerdict(policy: Policy, turns: seq<Turn>, hooks: seq<Hook>, end: Option<Outcome>, used: nat, k: nat)
    requires Ran(policy, turns, hooks, end, used) && k < used
    ensures Verdict(policy, turns[k]) == if k < used - 1 then None else end
  {
  }

  lemma NoErrorUnlessFailed(policy: Policy, turns: seq<Turn>, hooks: seq<Hook>, end: Option<Outcome>, used: nat)
    requires Ran(policy, turns, hooks, end, used) && !(end.Some? && end.value.Failed?)
    ensures NoError(hooks)
  {
    forall i | 0 <= i < |hooks| ensures !hooks[i].OnError? {
      if hooks[i].OnError? { ErrorIsTheEnd(policy, turns, hooks, end, used, i); }
    }
  }

  // --------------------------------------------------------------- laws

  /** Whatever the policy, no stream reports a normal close as an error. */
  lemma {:induction false} NormalCloseIsNoError(
      policy: Policy, turns: seq<Turn>, hooks: seq<Hook>, end: Option<Outcome>, used: nat, i: nat)
    requires Ran(policy, turns, hooks, end, used) && i < |hooks| && hooks[i].OnError?
    ensures !NormalClose(hooks[i].error)
  {
    ErrorIsTheEnd(policy, turns, hooks, end, used, i);
  }

  /** An error that is reported is that of the last turn, which nothing aborted. */
  lemma {:induction false} ErrorIsOfTheLastTurn(
      policy: Policy, turns: seq<Turn>, hooks: seq<Hook>, end: Option<Outcome>, used: nat, i: nat)
    requires Ran(policy, turns, hooks, end, used) && i < |hooks| && hooks[i].OnError?
    ensures used > 0 && Judged(turns[used - 1]) && FailsWith(turns[used - 1], hooks[i].error)
  {
    ErrorIsTheEnd(policy, turns, hooks, end, used, i);
    FailsWithOne(turns[used - 1], hooks[i].error);
  }

  /** Each turn but an ending one was retried: nothing aborted it, and the retry was announced
      with its error. */
  lemma {:induction false} RetriesAreOfTheTurns(
      policy: Policy, turns: seq<Turn>, hooks: seq<Hook>, end: Option<Outcome>, used: nat, k: nat)
    requires Ran(policy, turns, hooks, end, used) && k < |RetryErrors(hooks)|
    ensures |RetryErrors(hooks)| == if end.Some? then used - 1 else used
    ensures Judged(turns[k]) && FailsWith(turns[k], RetryErrors(hooks)[k])
  {
    TurnVerdict(policy, turns, hooks, end, used, k);
    FailsWithOne(turns[k], RetryErrors(hooks)[k]);
  }

  /** A stream that completes on a normal close ends normally under the default policy, and
      without retries; it reports that close, and no error. */
  lemma {:induction false} NormalCloseEnds(
      policy: Policy, turns: seq<Turn>, hooks: seq<Hook>, end: Option<Outcome>, used: nat, k: nat, d: Detail)
    requires Ran(policy, turns, hooks, end, used) && k < used && (policy.Default? || policy.Never?)
    requires Judged(turns[k]) && turns[k].settlement.Completes? && ClosedWith(turns[k].events, d) && d.code == 1000
    ensures end == Some(EndedNormally) && k == used - 1 && Last(hooks) == OnClose(d) && NoError(hooks)
  {
    FailsWithOne(turns[k], CloseError(d));
    TurnVerdict(policy, turns, hooks, end, used, k);
    NoErrorUnlessFailed(policy, turns, hooks, end, used);
  }

  /** Without retries there is none, and no second turn. */
  lemma {:induction false} NeverRetries(
      turns: seq<Turn>, hooks: seq<Hook>, end: Option<Outcome>, used: nat)
    requires Ran(Never, turns, hooks, end, used)
    ensures used <= 1 && forall i :: 0 <= i < |hooks| ==> !hooks[i].OnReconnect?
  {
    if used > 0 { TurnVerdict(Never, turns, hooks, end, used, 0); }
    forall i | 0 <= i < |hooks| ensures !hooks[i].OnReconnect? {
      if hooks[i].OnReconnect? { RetryErrorsHas(hooks, i); }
    }
  }

  /** The default policy retries a turn exactly if it failed transiently: of a socket, heartbeat
      or idle error, or a close outside the fatal codes. */
  lemma {:induction false} DefaultRetriesExactly(
      turns: seq<Turn>, hooks: seq<Hook>, end: Option<Outcome>, used: nat, k: nat, e: Error)
    requires Ran(Default, turns, hooks, end, used) && k < used && Judged(turns[k]) && FailsWith(turns[k], e)
    ensures Transient(e) <==> k < |RetryErrors(hooks)|
    ensures Transient(e) ==> RetryErrors(hooks)[k] == e
    ensures !Transient(e) ==> end == Some(if NormalClose(e) then EndedNormally else Failed(e))
  {
    FailsWithOne(turns[k], e);
    TurnVerdict(Default, turns, hooks, end, used, k);
  }

  /** So all retries reported are of transient failures, and all errors of others. */
  lemma {:induction false} DefaultReports(
      turns: seq<Turn>, hooks: seq<Hook>, end: Option<Outcome>, used: nat, i: nat)
    requires Ran(Default, turns, hooks, end, used) && i < |hooks|
    ensures hooks[i].OnReconnect? ==> Transient(hooks[i].error)
    ensures hooks[i].OnError? ==> !Transient(hooks[i].error)
  {
    if hooks[i].OnReconnect? {
      RetryErrorsHas(hooks, i);
      var k :| 0 <= k < |RetryErrors(hooks)| && RetryErrors(hooks)[k] == hooks[i].error;
      RetriesAreOfTheTurns(Default, turns, hooks, end, used, k);
      DefaultRetriesExactly(turns, hooks, end, used, k, hooks[i].error);
    }
    if hooks[i].OnError? {
      ErrorIsOfTheLastTurn(Default, turns, hooks, end, used, i);
      ErrorIsTheEnd(Default, turns, hooks, end, used, i);
      DefaultRetriesExactly(turns, hooks, end, used, used - 1, hooks[i].error);
    }
  }

  /** The caller's own policy decides by its answer, except that a normal close that it declines
      ends the stream normally; and what it throws ends the stream, unreported. */
  lemma {:induction false} CustomDecides(
      turns: seq<Turn>, hooks: seq<Hook>, end: Option<Outcome>, used: nat, k: nat, e: Error)
    requires Ran(Custom, turns, hooks, end, used) && k < used && Judged(turns[k]) && FailsWith(turns[k], e)
    ensures turns[k].answer.Yes? <==> k < |RetryErrors(hooks)|
    ensures turns[k].answer.No? ==> end == Some(if NormalClose(e) then EndedNormally else Failed(e))
    ensures turns[k].answer.Throws? ==> end == Some(PolicyThrew(turns[k].answer.error)) && NoError(hooks)
  {
    FailsWithOne(turns[k], e);
    TurnVerdict(Custom, turns, hooks, end, used, k);
    if turns[k].answer.Throws? { NoErrorUnlessFailed(Custom, turns, hooks, end, used); }
  }

  /** How a turn that does not get as far as the policy ends the stream. */
  ghost predicate EndsUnjudged(t: Turn, end: Outcome) {
    if t.abortedAtTop.Some? then end == Aborted(t.abortedAtTop.value)
    else if t.urlError.Some? then end == UrlFailed(t.urlError.value)
    else if t.abortedAfterUrl.Some? then end == Aborted(t.abortedAfterUrl.value)
    else if t.settlement.ConsumerReturns? then end == Returned
    else t.abortedAtCatch.Some? && end == Aborted(t.abortedAtCatch.value)
  }

  /** An abort, a failing url and a consumer that returns end the stream there, with neither an
      error nor a retry reported. */
  lemma {:induction false} UnjudgedTurnsEnd(
      policy: Policy, turns: seq<Turn>, hooks: seq<Hook>, end: Option<Outcome>, used: nat, k: nat)
    requires Ran(policy, turns, hooks, end, used) && k < used && !Judged(turns[k])
    ensures k == used - 1 && end.Some? && EndsUnjudged(turns[k], end.value)
    ensures NoError(hooks) && |RetryErrors(hooks)| == k
  {
    TurnVerdict(policy, turns, hooks, end, used, k);
    NoErrorUnlessFailed(policy, turns, hooks, end, used);
  }
}
