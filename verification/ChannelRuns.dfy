/** Every run of the receive engine: what its operations keep, and what follows for the
    messages, the backpressure hooks and the idle timeout. */
module ChannelRuns {
  import opened Wrappers
  import opened MessageChannel

  datatype Op =
    | PushOp(message: Message)
    | NextOp
    | FailOp(error: Error)
    | FinishOp
    | ReturnOp
    | TickOp

  function Step(o: Options, c: Channel, op: Op): Channel {
    match op
    case PushOp(m) => AfterPush(o, c, m)
    case NextOp => AfterNext(o, c)
    case FailOp(e) => AfterFail(c, e)
    case FinishOp => AfterFinish(c)
    case ReturnOp => AfterReturn(c)
    case TickOp => AfterTick(c)
  }

  function Run(o: Options, ops: seq<Op>): Channel {
    if ops == [] then Fresh(o) else Step(o, Run(o, ops[..|ops| - 1]), ops[|ops| - 1])
  }

  /** A text-only channel takes no binary message, and a binary-only one no text. */
  predicate Fits(o: Options, m: Message) {
    !(o.mode == TextOnly && m.Binary?) && !(o.mode == BinaryOnly && m.Text?)
  }

  /** The messages a run's pushes got accepted: those that found the channel open and
      were of an admitted kind. */
  function Accepted(o: Options, ops: seq<Op>): seq<Message> {
    if ops == [] then [] else
      var before, op := ops[..|ops| - 1], ops[|ops| - 1];
      Accepted(o, before) +
      if op.PushOp? && Run(o, before).terminal.Open? && Fits(o, op.message) then [op.message] else []
  }

  /** The messages delivered, in the order in which the pulls were settled. */
  function Delivered(replies: seq<Settled>): seq<Message> {
    if replies == [] then [] else
      var n := |replies| - 1;
      Delivered(replies[..n]) + if replies[n].reply.Value? then [replies[n].reply.message] else []
  }

  function Contents(buffer: seq<Item>): seq<Message> {
    seq(|buffer|, i requires 0 <= i < |buffer| => buffer[i].value)
  }

  function TotalBytes(buffer: seq<Item>): nat {
    if buffer == [] then 0 else buffer[0].bytes + TotalBytes(buffer[1..])
  }

  /** The consumer abandoned the iteration while the channel was open. */
  predicate Abandoned(c: Channel) {
    Abort(None, Some(NORMAL)) in c.aborts
  }

  lemma {:induction false} TotalBytesAppend(buffer: seq<Item>, item: Item)
    ensures TotalBytes(buffer + [item]) == TotalBytes(buffer) + item.bytes
  {
    if buffer != [] {
      TotalBytesAppend(buffer[1..], item);
      assert (buffer + [item])[1..] == buffer[1..] + [item];
    }
  }

  // -- what every operation keeps

  /** `bufferedBytes` is the size of what is queued, and within the hard cap. */
  ghost predicate Accounted(o: Options, c: Channel) {
    && (forall i :: 0 <= i < |c.buffer| ==> c.buffer[i].bytes == MessageBytes(c.buffer[i].value))
    && c.bufferedBytes == TotalBytes(c.buffer)
    && (o.maxBufferedBytes.Some? ==> c.bufferedBytes <= o.maxBufferedBytes.value)
  }

  /** Pulls are settled first come first served: pull `k` gets the `k`-th reply, and the
      parked ones are those without a reply. One is parked only if there is nothing to give. */
  ghost predicate Parked(c: Channel) {
    && (c.waiters != [] ==> c.buffer == [] && c.terminal.Open?)
    && c.pulls == |c.replies| + |c.waiters|
    && (forall i :: 0 <= i < |c.replies| ==> c.replies[i].pull == i)
    && (forall i :: 0 <= i < |c.waiters| ==> c.waiters[i] == |c.replies| + i)
  }

  /** Pause and resume strictly alternate, and `paused` says which of them came last. */
  ghost predicate Alternating(o: Options, c: Channel) {
    && (forall i :: 0 <= i < |c.flow| ==> c.flow[i] == if i % 2 == 0 then Pause else Resume)
    && c.paused == (|c.flow| % 2 == 1)
    && (!o.canPause ==> c.flow == [])
  }

  ghost predicate Watermarked(o: Options, c: Channel) {
    && (o.canPause && c.terminal.Open? && !c.paused ==> c.bufferedBytes <= o.highWaterMark)
    && (c.paused && !c.terminal.Failed? && !Abandoned(c) ==> 2 * c.bufferedBytes >= o.highWaterMark)
  }

  function Ending(t: Terminal): Reply
    requires !t.Open?
  {
    match t
    case Done => End
    case Failed(e) => Rejected(e)
  }

  /** After one pull has been told of the end, every later one is told the same, and
      nothing is left undelivered. */
  ghost predicate Sealed(c: Channel) {
    && (forall i :: 0 <= i < |c.replies| && !c.replies[i].reply.Value? ==>
          c.buffer == [] && !c.terminal.Open? && c.replies[i].reply == Ending(c.terminal))
    && (forall i, j :: 0 <= i < j < |c.replies| && !c.replies[i].reply.Value? ==> !c.replies[j].reply.Value?)
  }

  /** The transport is told to abort at most once, and only about an end that the channel
      decided on itself. */
  ghost predicate Terminated(o: Options, c: Channel) {
    && c.idleTimer == (o.idleTimeout && c.terminal.Open?)
    && |c.aborts| <= 1
    && (c.aborts != [] ==> c.aborts[0] == match c.terminal
         case Done => Abort(None, Some(NORMAL))
         case Failed(DataModeError(x, r)) => Abort(Some(DataModeError(x, r)), Some(UNSUPPORTED_DATA))
         case Failed(e) => Abort(Some(e), None)
         case Open => c.aborts[0])
    && (c.terminal.Open? ==> c.aborts == [])
    && (c.terminal.Failed? || Abandoned(c) ==> c.buffer == [])
  }

  ghost predicate Invariant(o: Options, c: Channel) {
    Accounted(o, c) && Parked(c) && Alternating(o, c) && Watermarked(o, c) && Sealed(c) && Terminated(o, c)
  }

  /** The channel ends: all parked pulls are settled, the queue is kept or dropped, and
      the transport may be told. */
  lemma EndKeeps(o: Options, c: Channel, t: Terminal, keep: bool, aborts: seq<Abort>)
    requires Invariant(o, c) && c.terminal.Open? && !t.Open? && (keep ==> t.Done? && aborts == [])
    requires aborts == [] || aborts == [match t
      case Done => Abort(None, Some(NORMAL))
      case Failed(DataModeError(x, r)) => Abort(Some(DataModeError(x, r)), Some(UNSUPPORTED_DATA))
      case Failed(e) => Abort(Some(e), None)]
    requires t.Done? && !keep ==> aborts != []
    ensures Invariant(o, c.(terminal := t, idleTimer := false, waiters := [],
      buffer := if keep then c.buffer else [], bufferedBytes := if keep then c.bufferedBytes else 0,
      replies := c.replies + SettleAll(c.waiters, Ending(t)), aborts := c.aborts + aborts))
  {
  }

  lemma FailKeeps(o: Options, c: Channel, e: Error)
    requires Invariant(o, c)
    ensures Invariant(o, AfterFail(c, e))
  {
    if c.terminal.Open? {
      EndKeeps(o, c, Failed(e), false, []);
      assert c.aborts + [] == c.aborts;
    }
  }

  lemma FailAndAbortKeeps(o: Options, c: Channel, e: Error)
    requires Invariant(o, c) && c.terminal.Open?
    ensures Invariant(o, FailAndAbort(c, e, if e.DataModeError? then Some(UNSUPPORTED_DATA) else None))
  {
    EndKeeps(o, c, Failed(e), false, [Abort(Some(e), if e.DataModeError? then Some(UNSUPPORTED_DATA) else None)]);
  }

  lemma FinishKeeps(o: Options, c: Channel)
    requires Invariant(o, c)
    ensures Invariant(o, AfterFinish(c))
  {
    if c.terminal.Open? {
      EndKeeps(o, c, Done, true, []);
      assert c.aborts + [] == c.aborts;
    }
  }

  lemma ReturnKeeps(o: Options, c: Channel)
    requires Invariant(o, c)
    ensures Invariant(o, AfterReturn(c))
  {
    if c.terminal.Open? { EndKeeps(o, c, Done, false, [Abort(None, Some(NORMAL))]); }
  }

  /** All of the invariant but the watermarks. */
  ghost predicate Sound(o: Options, c: Channel) {
    Accounted(o, c) && Parked(c) && Alternating(o, c) && Sealed(c) && Terminated(o, c)
  }

  lemma QueuedIsSound(o: Options, c: Channel, m: Message)
    requires Invariant(o, c) && c.terminal.Open? && c.waiters == []
    requires o.maxBufferedBytes.Some? ==> Queued(c, m).bufferedBytes <= o.maxBufferedBytes.value
    ensures Sound(o, Queued(c, m))
  {
    TotalBytesAppend(c.buffer, Item(m, MessageBytes(m)));
  }

  lemma PauseIsSound(o: Options, c: Channel)
    requires Sound(o, c) && c.terminal.Open? && o.canPause && !c.paused
    ensures Sound(o, c.(paused := true, flow := c.flow + [Pause]))
  {
  }

  lemma EnqueueKeeps(o: Options, c: Channel, m: Message)
    requires Invariant(o, c) && c.terminal.Open? && c.waiters == []
    ensures Invariant(o, Enqueue(o, c, m))
  {
    var d := Queued(c, m);
    if o.maxBufferedBytes.Some? && d.bufferedBytes > o.maxBufferedBytes.value {
      FailAndAbortKeeps(o, c, BufferOverflow(d.bufferedBytes));
    } else {
      QueuedIsSound(o, c, m);
      if o.canPause && !d.paused && d.bufferedBytes > o.highWaterMark { PauseIsSound(o, d); }
    }
  }

  lemma HandOverKeeps(o: Options, c: Channel, m: Message)
    requires Invariant(o, c) && c.waiters != []
    ensures Invariant(o, HandOver(c, m))
  {
  }

  lemma PushKeeps(o: Options, c: Channel, m: Message)
    requires Invariant(o, c)
    ensures Invariant(o, AfterPush(o, c, m))
  {
    if c.terminal.Open? {
      var d := c.(idleActive := true);
      assert Invariant(o, d);
      if !Admits(o.mode, m) {
        FailAndAbortKeeps(o, d, DataModeError(o.mode, ModeOf(m)));
      } else if c.waiters != [] {
        HandOverKeeps(o, d, m);
      } else {
        EnqueueKeeps(o, d, m);
      }
    }
  }

  lemma TakeKeepsQueue(o: Options, c: Channel)
    requires Invariant(o, c) && c.buffer != []
    ensures Accounted(o, Take(o, c)) && Alternating(o, Take(o, c)) && Watermarked(o, Take(o, c))
  {
  }

  lemma TakeKeepsOrder(o: Options, c: Channel)
    requires Invariant(o, c) && c.buffer != []
    ensures Parked(Take(o, c)) && Sealed(Take(o, c)) && Terminated(o, Take(o, c))
  {
  }

  lemma {:induction false} NextKeeps(o: Options, c: Channel)
    requires Invariant(o, c)
    ensures Invariant(o, AfterNext(o, c))
  {
    if c.buffer != [] {
      TakeKeepsQueue(o, c);
      TakeKeepsOrder(o, c);
    } else {
      EmptyNextKeepsOrder(o, c);
    }
  }

  lemma {:induction false} EmptyNextKeepsOrder(o: Options, c: Channel)
    requires Invariant(o, c) && c.buffer == []
    ensures Parked(AfterNext(o, c)) && Sealed(AfterNext(o, c)) && Terminated(o, AfterNext(o, c))
  {
    var d := AfterNext(o, c);
    if c.terminal.Open? {
      assert d == c.(pulls := c.pulls + 1, waiters := c.waiters + [c.pulls]);
    } else {
      assert d == c.(pulls := c.pulls + 1, replies := c.replies + [Settled(c.pulls, Ending(c.terminal))]);
      assert c.waiters == [];
    }
  }

  lemma {:induction false} StepKeepsInvariant(o: Options, c: Channel, op: Op)
    requires Invariant(o, c)
    ensures Invariant(o, Step(o, c, op))
  {
    match op
    case PushOp(m) => PushKeeps(o, c, m);
    case NextOp => NextKeeps(o, c);
    case FailOp(e) => FailKeeps(o, c, e);
    case FinishOp => FinishKeeps(o, c);
    case ReturnOp => ReturnKeeps(o, c);
    case TickOp =>
      if c.idleTimer && !c.paused && !c.idleActive { FailAndAbortKeeps(o, c, IdleTimeout); }
  }

  // -- what every run guarantees

  /** At every point of every run: the accounting is exact and within the cap, pulls are
      served in order and parked only for lack of anything to give, the flow hooks
      alternate, the watermarks are respected, and ends are final. */
  lemma {:induction false} EveryRun(o: Options, ops: seq<Op>)
    ensures Invariant(o, Run(o, ops))
  {
    if ops != [] {
      EveryRun(o, ops[..|ops| - 1]);
      StepKeepsInvariant(o, Run(o, ops[..|ops| - 1]), ops[|ops| - 1]);
    }
  }

  lemma {:induction false} DeliveredAppend(replies: seq<Settled>, s: Settled)
    ensures Delivered(replies + [s]) == Delivered(replies) + if s.reply.Value? then [s.reply.message] else []
  {
    assert (replies + [s])[..|replies|] == replies;
  }

  /** Replies that deliver nothing. */
  ghost predicate Silent(replies: seq<Settled>) {
    forall i :: 0 <= i < |replies| ==> !replies[i].reply.Value?
  }

  lemma {:induction false} DeliveredSilent(replies: seq<Settled>, s: Settled)
    requires !s.reply.Value?
    ensures Delivered(replies + [s]) == Delivered(replies)
  {
    DeliveredAppend(replies, s);
  }

  lemma {:induction false} DeliveredSuffix(replies: seq<Settled>, more: seq<Settled>)
    requires Silent(more)
    ensures Delivered(replies + more) == Delivered(replies)
  {
    if more == [] {
      assert replies + more == replies;
    } else {
      var init, last := more[..|more| - 1], more[|more| - 1];
      DeliveredSuffix(replies, init);
      DeliveredSilent(replies + init, last);
      assert replies + more == (replies + init) + [last];
    }
  }

  lemma {:induction false} DeliveredSettleAll(replies: seq<Settled>, waiters: seq<nat>, r: Reply)
    requires !r.Value?
    ensures Delivered(replies + SettleAll(waiters, r)) == Delivered(replies)
  {
    DeliveredSuffix(replies, SettleAll(waiters, r));
  }

  /** What was delivered and is still queued, against what was accepted. */
  ghost predicate Conserved(c: Channel, accepted: seq<Message>) {
    && Delivered(c.replies) + Contents(c.buffer) <= accepted
    && (!c.terminal.Failed? && !Abandoned(c) ==> Delivered(c.replies) + Contents(c.buffer) == accepted)
  }

  lemma {:induction false} ContentsAppend(buffer: seq<Item>, item: Item)
    ensures Contents(buffer + [item]) == Contents(buffer) + [item.value]
  {
  }

  lemma {:induction false} HandOverConserves(c: Channel, m: Message, accepted: seq<Message>)
    requires c.waiters != [] && c.buffer == [] && c.terminal.Open? && c.aborts == [] && Conserved(c, accepted)
    ensures Conserved(HandOver(c, m), accepted + [m])
  {
    DeliveredAppend(c.replies, Settled(c.waiters[0], Value(m)));
  }

  lemma {:induction false} EnqueueConserves(o: Options, c: Channel, m: Message, accepted: seq<Message>)
    requires c.waiters == [] && c.terminal.Open? && c.aborts == [] && Conserved(c, accepted)
    ensures Conserved(Enqueue(o, c, m), accepted + [m])
  {
    var d := Enqueue(o, c, m);
    var total := Delivered(c.replies) + Contents(c.buffer);
    assert total == accepted;
    if d.terminal.Failed? {
      assert d.replies == c.replies && d.buffer == [] && Contents(d.buffer) == [];
      assert Delivered(c.replies) <= total <= accepted + [m];
    } else {
      ContentsAppend(c.buffer, Item(m, MessageBytes(m)));
      assert d.replies == c.replies && d.aborts == [];
      assert Delivered(d.replies) + Contents(d.buffer) == total + [m];
    }
  }

  lemma {:induction false} PushConserves(o: Options, c: Channel, m: Message, accepted: seq<Message>)
    requires Parked(c) && Terminated(o, c) && Conserved(c, accepted)
    ensures Conserved(AfterPush(o, c, m), accepted + if c.terminal.Open? && Fits(o, m) then [m] else [])
  {
    var d := c.(idleActive := true);
    assert Conserved(d, accepted);
    if c.terminal.Open? && !Admits(o.mode, m) {
      DeliveredSettleAll(c.replies, c.waiters, Rejected(DataModeError(o.mode, ModeOf(m))));
      assert Delivered(c.replies) <= accepted;
    } else if c.terminal.Open? && c.waiters != [] {
      HandOverConserves(d, m, accepted);
    } else if c.terminal.Open? {
      EnqueueConserves(o, d, m, accepted);
    }
  }

  lemma {:induction false} TakeConserves(o: Options, c: Channel, accepted: seq<Message>)
    requires Conserved(c, accepted) && c.buffer != []
    ensures Conserved(Take(o, c), accepted)
  {
    var m := c.buffer[0].value;
    DeliveredAppend(c.replies, Settled(c.pulls, Value(m)));
    assert Contents(c.buffer) == [m] + Contents(c.buffer[1..]);
    assert Delivered(c.replies) + [m] + Contents(c.buffer[1..]) == Delivered(c.replies) + Contents(c.buffer);
  }

  lemma {:induction false} QuietConserves(c: Channel, d: Channel, accepted: seq<Message>)
    requires Conserved(c, accepted) && Delivered(d.replies) == Delivered(c.replies)
    requires d.buffer == c.buffer && d.terminal == c.terminal && d.aborts == c.aborts
    ensures Conserved(d, accepted)
  {
  }

  lemma {:induction false} EmptyNext(o: Options, c: Channel)
    requires c.buffer == []
    ensures var d := AfterNext(o, c);
      d.buffer == c.buffer && d.terminal == c.terminal && d.aborts == c.aborts
      && d.replies == if c.terminal.Open? then c.replies else c.replies + [Settled(c.pulls, Ending(c.terminal))]
  {
  }

  lemma {:induction false} NextConserves(o: Options, c: Channel, accepted: seq<Message>)
    requires Conserved(c, accepted)
    ensures Conserved(AfterNext(o, c), accepted)
  {
    if c.buffer != [] {
      TakeConserves(o, c, accepted);
    } else {
      EmptyNext(o, c);
      if !c.terminal.Open? { DeliveredSilent(c.replies, Settled(c.pulls, Ending(c.terminal))); }
      QuietConserves(c, AfterNext(o, c), accepted);
    }
  }

  lemma {:induction false} StepConserves(o: Options, c: Channel, op: Op, accepted: seq<Message>)
    requires Invariant(o, c) && Conserved(c, accepted) && !op.PushOp?
    ensures Conserved(Step(o, c, op), accepted)
  {
    match op
    case NextOp => NextConserves(o, c, accepted);
    case FailOp(e) => DeliveredSettleAll(c.replies, c.waiters, Rejected(e));
    case FinishOp => DeliveredSettleAll(c.replies, c.waiters, End);
    case ReturnOp => DeliveredSettleAll(c.replies, c.waiters, End);
    case TickOp => DeliveredSettleAll(c.replies, c.waiters, Rejected(IdleTimeout));
  }

  /** In every run the messages delivered, in the order of the pulls, are a prefix of those
      accepted; and unless a failure or the consumer discarded the queue, what is still
      queued is exactly the rest. */
  lemma {:induction false} NothingLostOrReordered(o: Options, ops: seq<Op>)
    ensures Conserved(Run(o, ops), Accepted(o, ops))
  {
    if ops != [] {
      var before, op := ops[..|ops| - 1], ops[|ops| - 1];
      NothingLostOrReordered(o, before);
      EveryRun(o, before);
      if op.PushOp? {
        PushConserves(o, Run(o, before), op.message, Accepted(o, before));
      } else {
        StepConserves(o, Run(o, before), op, Accepted(o, before));
        assert Accepted(o, before) + [] == Accepted(o, before);
      }
    }
  }

  lemma {:induction false} RunSplit(o: Options, ops: seq<Op>, op: Op)
    ensures Run(o, ops + [op]) == Step(o, Run(o, ops), op)
  {
    assert (ops + [op])[..|ops|] == ops;
  }

  lemma {:induction false} TerminalStays(o: Options, c: Channel, op: Op)
    requires !c.terminal.Open? && !c.idleTimer
    ensures var d := Step(o, c, op); d.terminal == c.terminal && d.aborts == c.aborts && d.idleTimer == c.idleTimer
  {
  }

  /** The first terminal outcome stands, whatever is done to the channel afterwards. */
  lemma {:induction false} FirstTerminalWins(o: Options, ops: seq<Op>, more: seq<Op>)
    requires !Run(o, ops).terminal.Open?
    ensures Run(o, ops + more).terminal == Run(o, ops).terminal
    ensures Run(o, ops + more).aborts == Run(o, ops).aborts
    decreases |more|
  {
    if more == [] {
      assert ops + more == ops;
    } else {
      var n := |more| - 1;
      FirstTerminalWins(o, ops, more[..n]);
      assert ops + more == ops + more[..n] + [more[n]];
      RunSplit(o, ops + more[..n], more[n]);
      assert Terminated(o, Run(o, ops + more[..n])) by { EveryRun(o, ops + more[..n]); }
      TerminalStays(o, Run(o, ops + more[..n]), more[n]);
    }
  }

  /** The consumer pulls `n` times, and nothing else happens. */
  function AfterPulls(o: Options, c: Channel, n: nat): Channel {
    if n == 0 then c else AfterNext(o, AfterPulls(o, c, n - 1))
  }

  /** One pull takes the oldest message off the queue, if there is any. */
  lemma NextDrains(o: Options, c: Channel)
    ensures var d := AfterNext(o, c);
      d.buffer == (if c.buffer == [] then [] else c.buffer[1..]) && d.terminal == c.terminal && d.aborts == c.aborts
  {
  }

  /** `d` is `c` without its `n` oldest messages. */
  ghost predicate Shortened(c: Channel, d: Channel, n: nat) {
    d.buffer == (if n <= |c.buffer| then c.buffer[n..] else []) && d.terminal == c.terminal && d.aborts == c.aborts
  }

  lemma ShortenedByNone(c: Channel)
    ensures Shortened(c, c, 0)
  {
  }

  lemma {:induction false} NextShortens(o: Options, c: Channel, d: Channel, n: nat)
    requires Shortened(c, d, n)
    ensures Shortened(c, AfterNext(o, d), n + 1)
  {
    NextDrains(o, d);
    if n < |c.buffer| {
      assert c.buffer[n..][1..] == c.buffer[n + 1..];
    }
  }

  /** Pulling `n` times takes `n` messages off the queue, if there are so many. */
  lemma {:induction false} PullsDrain(o: Options, c: Channel, n: nat)
    ensures Shortened(c, AfterPulls(o, c, n), n)
  {
    if n == 0 {
      ShortenedByNone(c);
    } else {
      PullsDrain(o, c, n - 1);
      NextShortens(o, c, AfterPulls(o, c, n - 1), n - 1);
    }
  }

  lemma {:induction false} PullsKeep(o: Options, c: Channel, accepted: seq<Message>, n: nat)
    requires Invariant(o, c) && Conserved(c, accepted)
    ensures Invariant(o, AfterPulls(o, c, n)) && Conserved(AfterPulls(o, c, n), accepted)
  {
    if n > 0 {
      PullsKeep(o, c, accepted, n - 1);
      NextKeeps(o, AfterPulls(o, c, n - 1));
      NextConserves(o, AfterPulls(o, c, n - 1), accepted);
    }
  }

  /** The next pull is replied to at once, with `r`. */
  predicate ToldNext(o: Options, c: Channel, r: Reply) {
    AfterNext(o, c).replies == c.replies + [Settled(c.pulls, r)]
  }

  /** A pull on an ended channel with nothing left is told of the end. */
  lemma {:induction false} NextTellsTheEnd(o: Options, c: Channel)
    requires c.buffer == [] && c.terminal == Done
    ensures ToldNext(o, c, End)
  {
  }

  /** Everything accepted was delivered, and the next pull is told of the end. */
  predicate AllDelivered(o: Options, c: Channel, accepted: seq<Message>) {
    Delivered(c.replies) == accepted && ToldNext(o, c, End)
  }

  lemma {:induction false} DrainedIsDelivered(o: Options, c: Channel, accepted: seq<Message>)
    requires Conserved(c, accepted) && c.buffer == [] && c.terminal == Done && c.aborts == []
    ensures AllDelivered(o, c, accepted)
  {
    NextTellsTheEnd(o, c);
    assert Contents(c.buffer) == [];
  }

  /** A clean finish loses nothing: once the consumer has pulled often enough, it has been
      given every message that was accepted, and the next pull is told of the end. */
  lemma {:induction false} FinishThenDrainDeliversAll(o: Options, ops: seq<Op>, n: nat)
    requires Run(o, ops).terminal.Open? && n >= |Run(o, ops).buffer|
    ensures AllDelivered(o, AfterPulls(o, AfterFinish(Run(o, ops)), n), Accepted(o, ops))
  {
    var c := Run(o, ops);
    EveryRun(o, ops);
    NothingLostOrReordered(o, ops);
    FinishKeeps(o, c);
    StepConserves(o, c, FinishOp, Accepted(o, ops));
    PullsKeep(o, AfterFinish(c), Accepted(o, ops), n);
    PullsDrain(o, AfterFinish(c), n);
    DrainedIsDelivered(o, AfterPulls(o, AfterFinish(c), n), Accepted(o, ops));
  }

  /** Draining always reaches onResume: a paused channel that was neither failed nor
      abandoned is resumed by the time its queue has been pulled empty. */
  lemma {:induction false} DrainingResumes(o: Options, ops: seq<Op>)
    requires o.highWaterMark > 0
    requires Run(o, ops).paused && !Run(o, ops).terminal.Failed? && !Abandoned(Run(o, ops))
    ensures Run(o, ops).buffer != []
    ensures !AfterPulls(o, Run(o, ops), |Run(o, ops).buffer|).paused
  {
    var c, n := Run(o, ops), |Run(o, ops).buffer|;
    EveryRun(o, ops);
    NothingLostOrReordered(o, ops);
    PullsKeep(o, c, Accepted(o, ops), n);
    PullsDrain(o, c, n);
  }

  lemma {:induction false} StepStaysPaused(o: Options, c: Channel, op: Op)
    requires o.highWaterMark == 0 && Accounted(o, c) && c.paused
    ensures Step(o, c, op).paused
  {
    if c.buffer != [] { assert TotalBytes(c.buffer[1..]) >= 0; }
  }

  /** With a mark of zero that fails: once paused, a channel is never resumed. */
  lemma {:induction false} ZeroMarkNeverResumes(o: Options, ops: seq<Op>, more: seq<Op>)
    requires o.highWaterMark == 0 && Run(o, ops).paused
    ensures Run(o, ops + more).paused
    decreases |more|
  {
    if more == [] {
      assert ops + more == ops;
    } else {
      var n := |more| - 1;
      ZeroMarkNeverResumes(o, ops, more[..n]);
      assert ops + more == ops + more[..n] + [more[n]];
      RunSplit(o, ops + more[..n], more[n]);
      assert Accounted(o, Run(o, ops + more[..n])) by { EveryRun(o, ops + more[..n]); }
      StepStaysPaused(o, Run(o, ops + more[..n]), more[n]);
    }
  }

  // -- the idle timeout

  ghost predicate QuietFrom(o: Options, ops: seq<Op>, i: nat) {
    i < |ops| && ops[i].TickOp? && !Run(o, ops[..i]).paused && forall j :: i < j < |ops| ==> !ops[j].PushOp?
  }

  /** Some tick found the channel unpaused, and no frame has arrived since. */
  ghost predicate QuietSinceTick(o: Options, ops: seq<Op>) {
    exists i: nat :: QuietFrom(o, ops, i)
  }

  lemma QuietFromStep(o: Options, ops: seq<Op>, op: Op, i: nat)
    ensures QuietFrom(o, ops + [op], i) <==>
      if i < |ops| then QuietFrom(o, ops, i) && !op.PushOp?
      else i == |ops| && op.TickOp? && !Run(o, ops).paused
  {
    var all := ops + [op];
    if i < |ops| {
      assert all[..i] == ops[..i] && all[i] == ops[i];
      assert all[|ops|] == op;
      assert forall j :: i < j < |ops| ==> all[j] == ops[j];
    } else if i == |ops| {
      assert all[..i] == ops;
    }
  }

  lemma QuietStep(o: Options, ops: seq<Op>, op: Op)
    ensures QuietSinceTick(o, ops + [op]) <==>
      !op.PushOp? && ((op.TickOp? && !Run(o, ops).paused) || QuietSinceTick(o, ops))
  {
    if QuietSinceTick(o, ops + [op]) {
      var i :| QuietFrom(o, ops + [op], i);
      QuietFromStep(o, ops, op, i);
    }
    QuietFromStep(o, ops, op, |ops|);
    if QuietSinceTick(o, ops) {
      var i :| QuietFrom(o, ops, i);
      QuietFromStep(o, ops, op, i);
    }
  }

  lemma IdleStep(o: Options, c: Channel, op: Op)
    requires o.idleTimeout && Terminated(o, c) && Step(o, c, op).terminal.Open?
    ensures c.terminal.Open?
    ensures Step(o, c, op).idleActive <==> op.PushOp? || (if op.TickOp? then c.paused else c.idleActive)
    ensures Step(o, c, op).paused && !op.PushOp? ==> c.paused
    ensures op.TickOp? && !c.paused ==> !Step(o, c, op).paused
    ensures op.TickOp? && !c.paused ==> c.idleActive
  {
  }

  lemma {:induction false} IdleFlag(o: Options, ops: seq<Op>)
    requires o.idleTimeout && Run(o, ops).terminal.Open?
    ensures Run(o, ops).idleActive <==> !QuietSinceTick(o, ops)
    ensures QuietSinceTick(o, ops) ==> !Run(o, ops).paused
  {
    if ops != [] {
      var before, op := ops[..|ops| - 1], ops[|ops| - 1];
      assert ops == before + [op];
      QuietStep(o, before, op);
      assert Terminated(o, Run(o, before)) by { EveryRun(o, before); }
      IdleStep(o, Run(o, before), op);
      IdleFlag(o, before);
    }
  }

  /** A tick fails an open channel exactly when a whole interval has passed since an
      unpaused tick without a single frame; being paused is never mistaken for that. */
  lemma {:induction false} IdleTimeoutExactly(o: Options, ops: seq<Op>)
    requires o.idleTimeout && Run(o, ops).terminal.Open?
    ensures Run(o, ops + [TickOp]).terminal == Failed(IdleTimeout) <==> QuietSinceTick(o, ops)
    ensures !QuietSinceTick(o, ops) ==> Run(o, ops + [TickOp]).terminal.Open?
  {
    EveryRun(o, ops);
    IdleFlag(o, ops);
    RunSplit(o, ops, TickOp);
  }
}
