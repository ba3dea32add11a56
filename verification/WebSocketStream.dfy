/** The reconnect loop of `packages/ws-client/src/websocket.ts` and the hooks it fires.
    What the transports, the caller's signal, the url resolver and the policy do is given as
    a script, one entry for each turn of the loop. */
module WebSocketStream {
  import opened Wrappers

  datatype Detail = Detail(code: nat, reason: string, wasClean: bool)

  const NORMAL: nat := 1000
  const ABNORMAL_CLOSE := Detail(1006, "", false)
  const FATAL_CLOSE_CODES: set<nat> := {1000, 1002, 1003, 1007, 1009}

  datatype Error =
    | CloseError(detail: Detail)
    | SocketError | HeartbeatTimeout | IdleTimeout
    | BufferOverflow | DataModeError | ClientError
    | Foreign(id: int)

  /** `defaultShouldReconnect`: the library's own errors classify themselves. */
  predicate DefaultShouldReconnect(e: Error) {
    match e
    case CloseError(detail) => detail.code !in FATAL_CLOSE_CODES
    case SocketError | HeartbeatTimeout | IdleTimeout => true
    case _ => false
  }

  datatype Policy = Default | Never | Custom

  /** What a caller's own policy function does. */
  datatype Answer = Yes | No | Throws(error: Error)

  datatype TransportEvent = Opened | Closed(detail: Detail)

  /** How the iteration over a transport ends: it completes, it rejects, the consumer returns
      from it, or the transport could not even be constructed. */
  datatype Settlement = Completes | Rejects(error: Error) | ConsumerReturns | NotConstructed(error: Error)

  /** One turn: the signal's state at its three checks, the url, the transport and the policy. */
  datatype Turn = Turn(
    abortedAtTop: Option<Error>, urlError: Option<Error>, abortedAfterUrl: Option<Error>,
    events: seq<TransportEvent>, settlement: Settlement,
    abortedAtCatch: Option<Error>, answer: Answer)

  datatype Hook =
    | OnOpen | OnConnect | OnDisconnect
    | OnError(error: Error)
    | OnReconnect(error: Error, attempt: nat)
    | OnClose(detail: Detail)

  datatype Outcome =
    | Aborted(reason: Error) | UrlFailed(error: Error) | PolicyThrew(error: Error)
    | Failed(error: Error) | EndedNormally | Returned

  // -------------------------------------------------- what a turn amounts to

  predicate Dials(t: Turn) {
    t.abortedAtTop.None? && t.urlError.None? && t.abortedAfterUrl.None?
  }

  function LastClose(events: seq<TransportEvent>): Option<Detail> {
    if events == [] then None
    else if events[|events| - 1].Closed? then Some(events[|events| - 1].detail)
    else LastClose(events[..|events| - 1])
  }

  function OrAbnormal(d: Option<Detail>): Detail {
    if d.Some? then d.value else ABNORMAL_CLOSE
  }

  /** The error that the catch clause sees. */
  function ErrorOf(t: Turn): Error
    requires !t.settlement.ConsumerReturns?
  {
    match t.settlement
    case Completes => CloseError(OrAbnormal(LastClose(t.events)))
    case Rejects(e) => e
    case NotConstructed(e) => e
  }

  function Ask(p: Policy, t: Turn, e: Error): Answer {
    match p
    case Default => if DefaultShouldReconnect(e) then Yes else No
    case Never => No
    case Custom => t.answer
  }

  /** How the turn ends the stream, or None if another turn follows. */
  function Verdict(p: Policy, t: Turn): Option<Outcome> {
    if t.abortedAtTop.Some? then Some(Aborted(t.abortedAtTop.value))
    else if t.urlError.Some? then Some(UrlFailed(t.urlError.value))
    else if t.abortedAfterUrl.Some? then Some(Aborted(t.abortedAfterUrl.value))
    else if t.settlement.ConsumerReturns? then Some(Returned)
    else Caught(p, t, ErrorOf(t))
  }

  /** What the catch clause makes of an error. */
  function Caught(p: Policy, t: Turn, e: Error): Option<Outcome> {
    if t.abortedAtCatch.Some? then Some(Aborted(t.abortedAtCatch.value))
    else match Ask(p, t, e)
      case Throws(x) => Some(PolicyThrew(x))
      case Yes => None
      case No => if e.CloseError? && e.detail.code == NORMAL then Some(EndedNormally) else Some(Failed(e))
  }

  /** The detail reported after `n` turns: that of the last transport dialled. */
  function Reported(turns: seq<Turn>, n: nat): Option<Detail>
    requires n <= |turns|
  {
    if n == 0 then None
    else if Dials(turns[n - 1]) then LastClose(turns[n - 1].events)
    else Reported(turns, n - 1)
  }

  /** The transport contract, as far as the pairing of hooks needs it: it does not open while
      open, and is closed when its iteration settles. */
  predicate Orderly(events: seq<TransportEvent>, open: bool) {
    if events == [] then !open
    else if events[0].Opened? then !open && Orderly(events[1..], true)
    else Orderly(events[1..], false)
  }

  /** What the transport interface documents: one close, after at most one open; and nothing
      from a transport that was not constructed. */
  predicate Documented(t: Turn) {
    match |t.events|
    case 0 => t.settlement.NotConstructed?
    case 1 => !t.settlement.NotConstructed? && t.events[0].Closed?
    case 2 => !t.settlement.NotConstructed? && t.events[0].Opened? && t.events[1].Closed?
    case _ => false
  }

  lemma DocumentedIsOrderly(t: Turn)
    requires Documented(t)
    ensures Orderly(t.events, false)
    ensures !t.settlement.NotConstructed? ==> LastClose(t.events).Some?
  {
  }

  // ------------------------------------------------- the language of traces

  function Last(h: seq<Hook>): Hook
    requires h != []
  {
    h[|h| - 1]
  }

  function Init<T>(h: seq<T>): seq<T>
    requires h != []
  {
    h[..|h| - 1]
  }

  /** A connection is up: the last of the connects and disconnects is a connect. */
  predicate Up(h: seq<Hook>) {
    h != [] && (Last(h).OnConnect? || (!Last(h).OnDisconnect? && Up(Init(h))))
  }

  predicate EverConnected(h: seq<Hook>) {
    exists i :: 0 <= i < |h| && h[i].OnConnect?
  }

  /** How many retries were announced since the last connection. */
  function Retries(h: seq<Hook>): nat {
    if h == [] || Last(h).OnConnect? then 0
    else Retries(Init(h)) + if Last(h).OnReconnect? then 1 else 0
  }

  /** What may follow a trace. */
  predicate MayFollow(h: seq<Hook>, x: Hook) {
    && !(h != [] && Last(h).OnClose?)
    && (h != [] && Last(h).OnError? ==> x.OnClose?)
    && (h != [] && Last(h).OnOpen? <==> x.OnConnect? && !EverConnected(h))
    && match x
       case OnOpen => !EverConnected(h)
       case OnConnect => !Up(h)
       case OnDisconnect => Up(h)
       case OnReconnect(_, attempt) => !Up(h) && attempt == Retries(h)
       case OnError(_) => !Up(h)
       case OnClose(_) => !Up(h)
  }

  predicate WellFormed(h: seq<Hook>) {
    h == [] || (WellFormed(Init(h)) && MayFollow(Init(h), Last(h)))
  }

  function Connects(h: seq<Hook>): nat {
    if h == [] then 0 else Connects(Init(h)) + if Last(h).OnConnect? then 1 else 0
  }

  function Disconnects(h: seq<Hook>): nat {
    if h == [] then 0 else Disconnects(Init(h)) + if Last(h).OnDisconnect? then 1 else 0
  }

  function Reconnects(h: seq<Hook>): nat {
    if h == [] then 0 else Reconnects(Init(h)) + if Last(h).OnReconnect? then 1 else 0
  }

  /** The errors that retries were announced with, in order. */
  function RetryErrors(h: seq<Hook>): seq<Error> {
    if h == [] then [] else RetryErrors(Init(h)) + if Last(h).OnReconnect? then [Last(h).error] else []
  }

  lemma {:induction false} ReconnectsAreErrors(h: seq<Hook>)
    ensures Reconnects(h) == |RetryErrors(h)|
  {
    if h != [] { ReconnectsAreErrors(Init(h)); }
  }

  /** The first `n` turns failed, with these errors. */
  ghost predicate FailedTurns(turns: seq<Turn>, n: nat, errors: seq<Error>)
    requires n <= |turns|
  {
    |errors| == n && forall k :: 0 <= k < n ==> !turns[k].settlement.ConsumerReturns? && errors[k] == ErrorOf(turns[k])
  }

  lemma OneMoreFailed(turns: seq<Turn>, n: nat, errors: seq<Error>)
    requires n < |turns| && FailedTurns(turns, n, errors) && !turns[n].settlement.ConsumerReturns?
    ensures FailedTurns(turns, n + 1, errors + [ErrorOf(turns[n])])
  {
  }

  /** How often a transport opened in the first `n` turns. */
  function Opens(turns: seq<Turn>, n: nat): nat
    requires n <= |turns|
  {
    if n == 0 then 0 else Opens(turns, n - 1) + if Dials(turns[n - 1]) then OpensIn(turns[n - 1].events) else 0
  }

  function OpensIn(events: seq<TransportEvent>): nat {
    if events == [] then 0 else OpensIn(Init(events)) + if events[|events| - 1].Opened? then 1 else 0
  }

  /** Appending one hook. */
  lemma Append(h: seq<Hook>, x: Hook)
    ensures Init(h + [x]) == h && Last(h + [x]) == x
    ensures WellFormed(h + [x]) <==> WellFormed(h) && MayFollow(h, x)
    ensures Up(h + [x]) <==> x.OnConnect? || (!x.OnDisconnect? && Up(h))
    ensures EverConnected(h + [x]) <==> x.OnConnect? || EverConnected(h)
    ensures Retries(h + [x]) == if x.OnConnect? then 0 else Retries(h) + if x.OnReconnect? then 1 else 0
    ensures Connects(h + [x]) == Connects(h) + if x.OnConnect? then 1 else 0
    ensures RetryErrors(h + [x]) == RetryErrors(h) + if x.OnReconnect? then [x.error] else []
  {
    assert (h + [x])[..|h|] == h;
    if EverConnected(h) {
      var i :| 0 <= i < |h| && h[i].OnConnect?;
      assert (h + [x])[i].OnConnect?;
    }
    if x.OnConnect? { assert (h + [x])[|h|].OnConnect?; }
  }

  /** Between two turns: no connection is up, and the trace is open to anything but a
      disconnect. */
  ghost predicate Resting(h: seq<Hook>) {
    WellFormed(h) && !Up(h) && (h != [] ==> !Last(h).OnOpen? && !Last(h).OnError? && !Last(h).OnClose?)
  }

  /** A connection has just come up. */
  ghost predicate JustConnected(h: seq<Hook>) {
    WellFormed(h) && Up(h) && h != [] && Last(h).OnConnect?
  }

  /** The hooks the open callback fires. */
  function OpenHooks(first: bool): seq<Hook> {
    if first then [OnOpen, OnConnect] else [OnConnect]
  }

  lemma Connecting(h: seq<Hook>, first: bool)
    requires Resting(h) && first == !EverConnected(h)
    ensures var g := h + OpenHooks(first);
      JustConnected(g) && EverConnected(g) && Retries(g) == 0 && Connects(g) == Connects(h) + 1 && RetryErrors(g) == RetryErrors(h)
  {
    if first {
      Append(h, OnOpen);
      Append(h + [OnOpen], OnConnect);
      assert h + [OnOpen, OnConnect] == h + [OnOpen] + [OnConnect];
    } else {
      Append(h, OnConnect);
    }
  }

  lemma Disconnecting(h: seq<Hook>)
    requires JustConnected(h)
    ensures var g := h + [OnDisconnect];
      Resting(g) && EverConnected(g) == EverConnected(h) && Retries(g) == Retries(h) && Connects(g) == Connects(h) && RetryErrors(g) == RetryErrors(h)
  {
    Append(h, OnDisconnect);
  }

  lemma Retrying(h: seq<Hook>, e: Error, attempt: nat, g: seq<Hook>)
    requires Resting(h) && attempt == Retries(h) && g == h + [OnReconnect(e, attempt)]
    ensures Resting(g) && EverConnected(g) == EverConnected(h) && Retries(g) == attempt + 1
    ensures Connects(g) == Connects(h) && RetryErrors(g) == RetryErrors(h) + [e]
  {
    Append(h, OnReconnect(e, attempt));
  }

  lemma Failing(h: seq<Hook>, e: Error, g: seq<Hook>)
    requires Resting(h) && g == h + [OnError(e)]
    ensures FailedWith(g, e) && EverConnected(g) == EverConnected(h)
    ensures Connects(g) == Connects(h) && RetryErrors(g) == RetryErrors(h)
  {
    Append(h, OnError(e));
  }

  lemma EventsStep(events: seq<TransportEvent>, i: nat)
    requires i < |events|
    ensures LastClose(events[..i + 1]) == if events[i].Closed? then Some(events[i].detail) else LastClose(events[..i])
    ensures OpensIn(events[..i + 1]) == OpensIn(events[..i]) + if events[i].Opened? then 1 else 0
    ensures events[i..] == [events[i]] + events[i + 1..] && events[i..][1..] == events[i + 1..]
  {
    assert events[..i + 1][..i] == events[..i];
  }

  /** What has come of the first `i` events of a transport, since the trace was `before`. */
  ghost predicate Heard(before: seq<Hook>, events: seq<TransportEvent>, i: nat, hooks: seq<Hook>,
                        retries: nat, firstOpen: bool, isOpen: bool, closeDetail: Option<Detail>) {
    && i <= |events| && closeDetail == LastClose(events[..i])
    && Connects(hooks) == Connects(before) + OpensIn(events[..i]) && RetryErrors(hooks) == RetryErrors(before)
    && retries == Retries(hooks) && firstOpen == !EverConnected(hooks)
    && if isOpen then JustConnected(hooks) else Resting(hooks)
  }

  lemma HeardOpen(before: seq<Hook>, events: seq<TransportEvent>, i: nat, hooks: seq<Hook>,
                  retries: nat, firstOpen: bool, closeDetail: Option<Detail>)
    requires i < |events| && events[i].Opened? && Heard(before, events, i, hooks, retries, firstOpen, false, closeDetail)
    ensures Heard(before, events, i + 1, hooks + OpenHooks(firstOpen), 0, false, true, closeDetail)
  {
    EventsStep(events, i);
    Connecting(hooks, firstOpen);
  }

  lemma HeardClose(before: seq<Hook>, events: seq<TransportEvent>, i: nat, hooks: seq<Hook>,
                   retries: nat, firstOpen: bool, isOpen: bool, closeDetail: Option<Detail>)
    requires i < |events| && events[i].Closed? && Heard(before, events, i, hooks, retries, firstOpen, isOpen, closeDetail)
    ensures Heard(before, events, i + 1, hooks + if isOpen then [OnDisconnect] else [], retries, firstOpen, false, Some(events[i].detail))
  {
    EventsStep(events, i);
    if isOpen {
      Disconnecting(hooks);
    } else {
      assert hooks + [] == hooks;
    }
  }

  /** The transport's two callbacks, over all that it reports. */
  method Listen(events: seq<TransportEvent>, hooks0: seq<Hook>, retries0: nat, firstOpen0: bool)
    returns (hooks: seq<Hook>, retries: nat, firstOpen: bool, closeDetail: Option<Detail>)
    requires Resting(hooks0) && retries0 == Retries(hooks0) && firstOpen0 == !EverConnected(hooks0)
    requires Orderly(events, false)
    ensures closeDetail == LastClose(events)
    ensures Connects(hooks) == Connects(hooks0) + OpensIn(events) && RetryErrors(hooks) == RetryErrors(hooks0)
    ensures retries == Retries(hooks) && firstOpen == !EverConnected(hooks)
    ensures Resting(hooks)
  {
    hooks, retries, firstOpen := hooks0, retries0, firstOpen0;
    var isOpen := false;
    closeDetail := None;
    var i := 0;
    while i < |events|
      invariant Heard(hooks0, events, i, hooks, retries, firstOpen, isOpen, closeDetail)
      invariant Orderly(events[i..], isOpen)
    {
      assert events[i..] == [events[i]] + events[i + 1..] && events[i..][1..] == events[i + 1..];
      match events[i] {
      case Opened =>
        HeardOpen(hooks0, events, i, hooks, retries, firstOpen, closeDetail);
        ghost var after := hooks + OpenHooks(firstOpen);
        retries := 0;
        isOpen := true;
        if firstOpen {
          firstOpen := false;
          hooks := hooks + [OnOpen];
        }
        hooks := hooks + [OnConnect];
        assert hooks == after;
      case Closed(detail) =>
        HeardClose(hooks0, events, i, hooks, retries, firstOpen, isOpen, closeDetail);
        ghost var after := hooks + if isOpen then [OnDisconnect] else [];
        closeDetail := Some(detail);
        if isOpen {
          isOpen := false;
          hooks := hooks + [OnDisconnect];
        }
        assert hooks == after;
      }
      i := i + 1;
    }
    assert events[..i] == events;
  }

  /** The catch clause. */
  method Catch(policy: Policy, t: Turn, error: Error, hooks0: seq<Hook>, retries0: nat)
    returns (hooks: seq<Hook>, retries: nat, end: Option<Outcome>)
    requires Resting(hooks0) && retries0 == Retries(hooks0)
    ensures end == Caught(policy, t, error)
    ensures Connects(hooks) == Connects(hooks0) && EverConnected(hooks) == EverConnected(hooks0)
    ensures RetryErrors(hooks) == RetryErrors(hooks0) + if end.None? then [error] else []
    ensures end.None? ==> retries == Retries(hooks)
    ensures if end.Some? && end.value.Failed? then FailedWith(hooks, end.value.error) else Resting(hooks)
  {
    hooks, retries := hooks0, retries0;
    if t.abortedAtCatch.Some? {
      return hooks, retries, Some(Aborted(t.abortedAtCatch.value));
    }
    var willReconnect := Ask(policy, t, error);
    if willReconnect.Throws? {
      return hooks, retries, Some(PolicyThrew(willReconnect.error));
    }
    if willReconnect.No? && error.CloseError? && error.detail.code == NORMAL {
      return hooks, retries, Some(EndedNormally);
    }
    if willReconnect.No? {
      hooks := hooks + [OnError(error)];
      Failing(hooks0, error, hooks);
      return hooks, retries, Some(Failed(error));
    }
    hooks := hooks + [OnReconnect(error, retries)];
    Retrying(hooks0, error, retries, hooks);
    retries := retries + 1;
    end := None;
  }

  /** One turn of the loop: the checks, the transport, and the catch clause. */
  method RunTurn(policy: Policy, t: Turn, hooks0: seq<Hook>, retries0: nat, firstOpen0: bool, closeDetail0: Option<Detail>)
    returns (hooks: seq<Hook>, retries: nat, firstOpen: bool, closeDetail: Option<Detail>, end: Option<Outcome>)
    requires Resting(hooks0) && retries0 == Retries(hooks0) && firstOpen0 == !EverConnected(hooks0)
    requires Orderly(t.events, false)
    ensures end == Verdict(policy, t)
    ensures closeDetail == if Dials(t) then LastClose(t.events) else closeDetail0
    ensures Connects(hooks) == Connects(hooks0) + if Dials(t) then OpensIn(t.events) else 0
    ensures end.None? ==> !t.settlement.ConsumerReturns?
    ensures RetryErrors(hooks) == RetryErrors(hooks0) + if end.None? then [ErrorOf(t)] else []
    ensures end.None? ==> retries == Retries(hooks) && firstOpen == !EverConnected(hooks)
    ensures if end.Some? && end.value.Failed? then FailedWith(hooks, end.value.error) else Resting(hooks)
  {
    hooks, retries, firstOpen, closeDetail, end := hooks0, retries0, firstOpen0, closeDetail0, None;
    if t.abortedAtTop.Some? {
      end := Some(Aborted(t.abortedAtTop.value));
      return;
    }
    if t.urlError.Some? {
      end := Some(UrlFailed(t.urlError.value));
      return;
    }
    if t.abortedAfterUrl.Some? {
      end := Some(Aborted(t.abortedAfterUrl.value));
      return;
    }
    hooks, retries, firstOpen, closeDetail := Listen(t.events, hooks, retries, firstOpen);
    match t.settlement {
      case ConsumerReturns =>
        end := Some(Returned);
      case Completes =>
        hooks, retries, end := Catch(policy, t, CloseError(OrAbnormal(closeDetail)), hooks, retries);
      case Rejects(e) =>
        hooks, retries, end := Catch(policy, t, e, hooks, retries);
      case NotConstructed(e) =>
        hooks, retries, end := Catch(policy, t, e, hooks, retries);
    }
  }

  /** The trace of a stream that is about to end with an error reported. */
  ghost predicate FailedWith(h: seq<Hook>, e: Error) {
    WellFormed(h) && !Up(h) && h != [] && Last(h) == OnError(e)
  }

  lemma Closing(h: seq<Hook>, d: Detail)
    requires Resting(h) || (h != [] && Last(h).OnError? && FailedWith(h, Last(h).error))
    ensures var g := h + [OnClose(d)];
      WellFormed(g) && !Up(g) && Init(g) == h && Last(g) == OnClose(d) && Connects(g) == Connects(h) && RetryErrors(g) == RetryErrors(h)
  {
    Append(h, OnClose(d));
  }

  /** What has come of the first `used` turns. */
  ghost predicate Taken(policy: Policy, turns: seq<Turn>, used: nat, hooks: seq<Hook>, end: Option<Outcome>, closeDetail: Option<Detail>) {
    && used <= |turns| && (end.Some? ==> used > 0)
    && (forall k :: 0 <= k < used - 1 ==> Verdict(policy, turns[k]).None?)
    && (used > 0 ==> Verdict(policy, turns[used - 1]) == end)
    && closeDetail == Reported(turns, used)
    && Connects(hooks) == Opens(turns, used)
    && FailedTurns(turns, if end.Some? then used - 1 else used, RetryErrors(hooks))
  }

  lemma TakenNext(policy: Policy, turns: seq<Turn>, used: nat, hooks: seq<Hook>, closeDetail: Option<Detail>,
                  after: seq<Hook>, end: Option<Outcome>, detail: Option<Detail>)
    requires Taken(policy, turns, used, hooks, None, closeDetail) && used < |turns|
    requires end == Verdict(policy, turns[used]) && (end.None? ==> !turns[used].settlement.ConsumerReturns?)
    requires detail == if Dials(turns[used]) then LastClose(turns[used].events) else closeDetail
    requires Connects(after) == Connects(hooks) + if Dials(turns[used]) then OpensIn(turns[used].events) else 0
    requires RetryErrors(after) == RetryErrors(hooks) + if end.None? then [ErrorOf(turns[used])] else []
    ensures Taken(policy, turns, used + 1, after, end, detail)
  {
    if end.None? { OneMoreFailed(turns, used, RetryErrors(hooks)); }
  }

  /** The endless loop, run over as many turns as are given or as it takes to end. */
  method Loop(policy: Policy, turns: seq<Turn>)
    returns (hooks: seq<Hook>, end: Option<Outcome>, used: nat, closeDetail: Option<Detail>)
    requires forall k :: 0 <= k < |turns| ==> Orderly(turns[k].events, false)
    ensures end.None? ==> used == |turns|
    ensures Taken(policy, turns, used, hooks, end, closeDetail)
    ensures if end.Some? && end.value.Failed? then FailedWith(hooks, end.value.error) else Resting(hooks)
  {
    var retries, firstOpen := 0, true;
    hooks, end, used, closeDetail := [], None, 0, None;
    while used < |turns| && end.None?
      invariant Taken(policy, turns, used, hooks, end, closeDetail)
      invariant end.None? ==> retries == Retries(hooks) && firstOpen == !EverConnected(hooks)
      invariant if end.Some? && end.value.Failed? then FailedWith(hooks, end.value.error) else Resting(hooks)
      decreases |turns| - used
    {
      ghost var before, detail := hooks, closeDetail;
      hooks, retries, firstOpen, closeDetail, end := RunTurn(policy, turns[used], hooks, retries, firstOpen, closeDetail);
      TakenNext(policy, turns, used, before, detail, hooks, end, closeDetail);
      used := used + 1;
    }
  }

  /** A stream was run over these turns: `hooks` were fired, `used` says how many turns were
      entered, and `end` how the stream ended, if it did. */
  ghost predicate Ran(policy: Policy, turns: seq<Turn>, hooks: seq<Hook>, end: Option<Outcome>, used: nat) {
    // the first turn whose verdict is an end, ends it
    && used <= |turns| && (end.None? ==> used == |turns|) && (end.Some? ==> used > 0)
    && (forall k :: 0 <= k < used - 1 ==> Verdict(policy, turns[k]).None?)
    && (used > 0 ==> Verdict(policy, turns[used - 1]) == end)
    // the trace is in the language, and complete if the stream has ended
    && WellFormed(hooks) && !Up(hooks)
    && (end.Some? <==> hooks != [] && Last(hooks).OnClose?)
    && (end.Some? ==> Last(hooks) == OnClose(OrAbnormal(Reported(turns, used))))
    && (end.Some? ==> if end.value.Failed? then FailedWith(Init(hooks), end.value.error) else Resting(Init(hooks)))
    && (end.None? ==> Resting(hooks))
    // no connection goes unreported, and retries are reported with the errors they follow
    && Connects(hooks) == Opens(turns, used)
    && Reconnects(hooks) == (if end.Some? then used - 1 else used)
    && FailedTurns(turns, if end.Some? then used - 1 else used, RetryErrors(hooks))
  }

  /** The generator: the loop, and the one terminal hook however that ends. */
  method Websocket(policy: Policy, turns: seq<Turn>)
    returns (hooks: seq<Hook>, end: Option<Outcome>, used: nat)
    requires forall k :: 0 <= k < |turns| ==> Orderly(turns[k].events, false)
    ensures Ran(policy, turns, hooks, end, used)
  {
    var closeDetail;
    hooks, end, used, closeDetail := Loop(policy, turns);
    if end.Some? {
      Closing(hooks, OrAbnormal(closeDetail));
      hooks := hooks + [OnClose(OrAbnormal(closeDetail))];
    }
    ReconnectsAreErrors(hooks);
  }

  // ------------------------------------ what a trace of the language looks like

  lemma {:induction false} PrefixWellFormed(h: seq<Hook>, n: nat)
    requires WellFormed(h) && n <= |h|
    ensures WellFormed(h[..n])
    decreases |h|
  {
    if n < |h| {
      PrefixWellFormed(Init(h), n);
      assert Init(h)[..n] == h[..n];
    } else {
      assert h[..n] == h;
    }
  }

  lemma At(h: seq<Hook>, i: nat)
    requires WellFormed(h) && i < |h|
    ensures WellFormed(h[..i]) && MayFollow(h[..i], h[i])
  {
    PrefixWellFormed(h, i + 1);
    assert Init(h[..i + 1]) == h[..i];
  }

  /** `onOpen` comes at most once, and the next hook is then the first `onConnect`, which
      never comes without it. */
  lemma {:induction false} OpensOnceBeforeFirstConnect(h: seq<Hook>, i: nat)
    requires WellFormed(h) && i < |h|
    ensures h[i].OnOpen? ==> !EverConnected(h[..i])
    ensures h[i].OnOpen? && i + 1 < |h| ==> h[i + 1].OnConnect?
    ensures h[i].OnConnect? && !EverConnected(h[..i]) ==> i > 0 && h[i - 1].OnOpen?
    ensures forall j :: i < j < |h| && h[i].OnOpen? ==> !h[j].OnOpen?
  {
    At(h, i);
    if i + 1 < |h| {
      At(h, i + 1);
      assert Last(h[..i + 1]) == h[i];
    }
    if i > 0 { assert Last(h[..i]) == h[i - 1]; }
    forall j | i < j < |h| && h[i].OnOpen? ensures !h[j].OnOpen? {
      At(h, j);
      if j > i + 1 {
        assert h[..j][i + 1].OnConnect?;
        assert EverConnected(h[..j]);
      }
    }
  }

  /** Connects and disconnects alternate, starting with a connect: at every point there
      have been as many of either, or one more connect while a connection is up. */
  lemma {:induction false} ConnectsAndDisconnectsPair(h: seq<Hook>)
    requires WellFormed(h)
    ensures Connects(h) == Disconnects(h) + if Up(h) then 1 else 0
    ensures h != [] && Last(h).OnConnect? ==> !Up(Init(h))
    ensures h != [] && Last(h).OnDisconnect? ==> Up(Init(h))
  {
    if h != [] { ConnectsAndDisconnectsPair(Init(h)); }
  }

  /** `onClose` comes at most once, and last. */
  lemma {:induction false} ClosesOnceAndLast(h: seq<Hook>, i: nat)
    requires WellFormed(h) && i < |h| && h[i].OnClose?
    ensures i == |h| - 1
  {
    if i + 1 < |h| { At(h, i + 1); }
  }

  /** `onError` is followed by `onClose`, if by anything; and neither it nor `onReconnect`
      nor `onClose` is reported while a connection is up. */
  lemma {:induction false} EndsAfterError(h: seq<Hook>, i: nat)
    requires WellFormed(h) && i < |h|
    ensures h[i].OnError? && i + 1 < |h| ==> h[i + 1].OnClose? && i + 2 == |h|
    ensures h[i].OnError? || h[i].OnReconnect? || h[i].OnClose? ==> !Up(h[..i])
  {
    At(h, i);
    if i + 1 < |h| {
      At(h, i + 1);
      assert Last(h[..i + 1]) == h[i];
      if h[i].OnError? { ClosesOnceAndLast(h, i + 1); }
    }
  }

  /** The attempt number of an `onReconnect` is the number of `onReconnect`s since the last
      `onConnect`, if any. */
  lemma AttemptCounts(h: seq<Hook>, from: nat, i: nat)
    requires WellFormed(h) && from <= i < |h| && h[i].OnReconnect?
    requires from == 0 || h[from - 1].OnConnect?
    requires forall k :: from <= k < i ==> !h[k].OnConnect?
    ensures h[i].attempt == Reconnects(h[from..i])
  {
    At(h, i);
    RetriesSince(h, from, i);
  }

  lemma {:induction false} RetriesSince(h: seq<Hook>, from: nat, i: nat)
    requires from <= i <= |h|
    requires from == 0 || h[from - 1].OnConnect?
    requires forall k :: from <= k < i ==> !h[k].OnConnect?
    ensures Retries(h[..i]) == Reconnects(h[from..i])
  {
    if i == from {
      assert h[from..i] == [];
      if from > 0 { assert Last(h[..i]) == h[from - 1]; }
    } else {
      RetriesSince(h, from, i - 1);
      assert Init(h[..i]) == h[..i - 1] && Init(h[from..i]) == h[from..i - 1];
    }
  }

  /** The end is reported with the detail of the last transport dialled. So a stop between
      attempts reports how the last connection closed, and the abnormal close stands in only
      if the last transport dialled was never constructed, or none was dialled at all. */
  lemma {:induction false} AbnormalStandsInExactly(turns: seq<Turn>, n: nat)
    requires n <= |turns| && forall k :: 0 <= k < n ==> Documented(turns[k])
    ensures Reported(turns, n).None? <==>
      forall k :: 0 <= k < n && Dials(turns[k]) && (forall j :: k < j < n ==> !Dials(turns[j])) ==>
        turns[k].settlement.NotConstructed?
  {
    if n > 0 {
      if Dials(turns[n - 1]) {
        DocumentedIsOrderly(turns[n - 1]);
      } else {
        AbnormalStandsInExactly(turns, n - 1);
      }
    }
  }

  const GOING_AWAY := Detail(1001, "", true)

  /** A connection that closes, and a stop during the backoff that follows. */
  const DROPPED_THEN_STOPPED: seq<Turn> := [
    Turn(None, None, None, [Opened, Closed(GOING_AWAY)], Completes, None, Yes),
    Turn(Some(Foreign(0)), None, None, [], NotConstructed(SocketError), None, Yes)]

  /** The stream then ends with the abort, and reports the code of that connection, not 1006. */
  method StopInBackoff() returns (hooks: seq<Hook>, end: Option<Outcome>, used: nat)
    ensures forall k :: 0 <= k < |DROPPED_THEN_STOPPED| ==> Documented(DROPPED_THEN_STOPPED[k])
    ensures end == Some(Aborted(Foreign(0))) && used == 2
    ensures hooks != [] && Last(hooks) == OnClose(GOING_AWAY)
  {
    var turns := DROPPED_THEN_STOPPED;
    forall k | 0 <= k < |turns| ensures Documented(turns[k]) && Orderly(turns[k].events, false) {
      DocumentedIsOrderly(turns[k]);
    }
    assert Verdict(Default, turns[0]).None? && Verdict(Default, turns[1]) == Some(Aborted(Foreign(0)));
    assert Reported(turns, 1) == Some(GOING_AWAY) && Reported(turns, 2) == Some(GOING_AWAY);
    hooks, end, used := Websocket(Default, turns);
  }
}
