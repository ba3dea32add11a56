/** How the receive engine ends, and what it takes in: on the messages, the operations and the
    replies, over every run. */
module ChannelEnds {
  import opened Wrappers
  import opened MessageChannel
  import opened ChannelRuns

  // ------------------------------------------------------------- the data mode

  /** A push on an open channel is a mode violation exactly if the message is of the kind that
      the mode excludes. */
  lemma ModeViolationExactly(o: Options, c: Channel, m: Message)
    requires c.terminal.Open?
    ensures var t := AfterPush(o, c, m).terminal;
      t.Failed? && t.error.DataModeError? <==> (o.mode == TextOnly && m.Binary?) || (o.mode == BinaryOnly && m.Text?)
  {
  }

  lemma {:induction false} AcceptedFit(o: Options, ops: seq<Op>)
    ensures forall i :: 0 <= i < |Accepted(o, ops)| ==> Fits(o, Accepted(o, ops)[i])
  {
    if ops != [] { AcceptedFit(o, ops[..|ops| - 1]); }
  }

  /** In every run, all that is delivered or queued is of the mode's kind. */
  lemma {:induction false} OnlyTheModesKind(o: Options, ops: seq<Op>)
    ensures var all := Delivered(Run(o, ops).replies) + Contents(Run(o, ops).buffer);
      forall i :: 0 <= i < |all| ==> (o.mode == TextOnly ==> all[i].Text?) && (o.mode == BinaryOnly ==> all[i].Binary?)
  {
    NothingLostOrReordered(o, ops);
    AcceptedFit(o, ops);
    var all := Delivered(Run(o, ops).replies) + Contents(Run(o, ops).buffer);
    forall i | 0 <= i < |all|
      ensures (o.mode == TextOnly ==> all[i].Text?) && (o.mode == BinaryOnly ==> all[i].Binary?)
    {
      assert all[i] == Accepted(o, ops)[i] && Fits(o, Accepted(o, ops)[i]);
    }
  }

  // ------------------------------------------------------------------ sizes

  /** Text counts two bytes a code unit, and binary its bytes. */
  function Size(m: Message): nat {
    if m.Text? then 2 * |m.chars| else |m.bytes|
  }

  function Sizes(ms: seq<Message>): nat {
    if ms == [] then 0 else Size(ms[0]) + Sizes(ms[1..])
  }

  lemma {:induction false} TotalIsSizes(buffer: seq<Item>)
    requires forall i :: 0 <= i < |buffer| ==> buffer[i].bytes == MessageBytes(buffer[i].value)
    ensures TotalBytes(buffer) == Sizes(Contents(buffer))
  {
    if buffer != [] {
      TotalIsSizes(buffer[1..]);
      assert Contents(buffer)[1..] == Contents(buffer[1..]);
    }
  }

  /** In every run, what is accounted is the size of the messages in the queue. */
  lemma {:induction false} BufferedIsSizes(o: Options, ops: seq<Op>)
    ensures Run(o, ops).bufferedBytes == Sizes(Contents(Run(o, ops).buffer))
  {
    EveryRun(o, ops);
    TotalIsSizes(Run(o, ops).buffer);
  }

  // ------------------------------------------------------------------- ends

  /** The outcome of an operation on a channel that is open after `ops`. */
  ghost function Outcome(o: Options, ops: seq<Op>, op: Op): Terminal {
    match op
    case FailOp(e) => Failed(e)
    case FinishOp => Done
    case ReturnOp => Done
    case NextOp => Open
    case TickOp => if o.idleTimeout && QuietSinceTick(o, ops) then Failed(IdleTimeout) else Open
    case PushOp(m) =>
      var total := Sizes(Contents(Run(o, ops).buffer)) + Size(m);
      if o.mode == TextOnly && m.Binary? then Failed(DataModeError(TextOnly, BinaryOnly))
      else if o.mode == BinaryOnly && m.Text? then Failed(DataModeError(BinaryOnly, TextOnly))
      else if Run(o, ops).waiters == [] && o.maxBufferedBytes.Some? && total > o.maxBufferedBytes.value then
        Failed(BufferOverflow(total))
      else Open
  }

  /** What the transport is told: nothing of a failure or an end that came from it. */
  function Told(op: Op, t: Terminal): seq<Abort> {
    if op.FailOp? || op.FinishOp? then []
    else match t
      case Open => []
      case Done => [Abort(None, Some(1000))]
      case Failed(e) => [Abort(Some(e), if e.DataModeError? then Some(1003) else None)]
  }

  lemma MisfitEnds(o: Options, c: Channel, m: Message)
    requires c.terminal.Open? && c.aborts == [] && !Fits(o, m)
    ensures var d, e := AfterPush(o, c, m), DataModeError(o.mode, if m.Text? then TextOnly else BinaryOnly);
      d.terminal == Failed(e) && d.aborts == [Abort(Some(e), Some(1003))]
  {
  }

  lemma OverflowEnds(o: Options, c: Channel, m: Message)
    requires c.terminal.Open? && c.aborts == [] && Fits(o, m)
    ensures var d, total := AfterPush(o, c, m), c.bufferedBytes + Size(m);
      if c.waiters == [] && o.maxBufferedBytes.Some? && total > o.maxBufferedBytes.value
      then d.terminal == Failed(BufferOverflow(total)) && d.aborts == [Abort(Some(BufferOverflow(total)), None)]
      else d.terminal == Open && d.aborts == []
  {
  }

  lemma PushEnds(o: Options, ops: seq<Op>, c: Channel, m: Message)
    requires c == Run(o, ops) && c.terminal.Open? && c.aborts == [] && c.bufferedBytes == Sizes(Contents(c.buffer))
    ensures var t := Outcome(o, ops, PushOp(m));
      AfterPush(o, c, m).terminal == t && AfterPush(o, c, m).aborts == Told(PushOp(m), t)
  {
    if Fits(o, m) { OverflowEnds(o, c, m); } else { MisfitEnds(o, c, m); }
  }

  lemma TickEnds(o: Options, ops: seq<Op>)
    requires Run(o, ops).terminal.Open?
    ensures AfterTick(Run(o, ops)).terminal == Outcome(o, ops, TickOp)
  {
    assert Terminated(o, Run(o, ops)) by { EveryRun(o, ops); }
    if o.idleTimeout {
      IdleTimeoutExactly(o, ops);
      RunSplit(o, ops, TickOp);
    }
  }

  lemma TickTells(c: Channel)
    requires c.terminal.Open? && c.aborts == []
    ensures AfterTick(c).aborts == Told(TickOp, AfterTick(c).terminal)
  {
  }

  /** Every operation on an open channel ends it exactly as that says, or not at all. */
  lemma {:induction false} EndsExactly(o: Options, ops: seq<Op>, op: Op)
    requires Run(o, ops).terminal.Open?
    ensures Run(o, ops + [op]).terminal == Outcome(o, ops, op)
    ensures Run(o, ops + [op]).aborts == Told(op, Outcome(o, ops, op))
  {
    var c := Run(o, ops);
    RunSplit(o, ops, op);
    assert c.aborts == [] by { EveryRun(o, ops); }
    match op
    case PushOp(m) =>
      BufferedIsSizes(o, ops);
      PushEnds(o, ops, c, m);
    case TickOp =>
      TickEnds(o, ops);
      TickTells(c);
    case _ =>
  }

  /** When a channel ends, every parked pull is told so at once; the queue is kept exactly if
      the end is a finish. */
  lemma {:induction false} EndIsTold(o: Options, ops: seq<Op>, op: Op)
    requires Run(o, ops).terminal.Open? && !Run(o, ops + [op]).terminal.Open?
    ensures var c, d := Run(o, ops), Run(o, ops + [op]);
      && |d.replies| == d.pulls == c.pulls
      && (forall k :: |c.replies| <= k < c.pulls ==> d.replies[k] == Settled(k, Ending(d.terminal)))
      && d.buffer == if op.FinishOp? then c.buffer else []
  {
    var c := Run(o, ops);
    RunSplit(o, ops, op);
    assert Parked(c) by { EveryRun(o, ops); }
    assert Parked(Run(o, ops + [op])) by { EveryRun(o, ops + [op]); }
    EndSettles(o, c, op);
  }

  lemma EndSettles(o: Options, c: Channel, op: Op)
    requires Parked(c) && c.terminal.Open? && !Step(o, c, op).terminal.Open?
    ensures var d := Step(o, c, op);
      d.replies == c.replies + SettleAll(c.waiters, Ending(d.terminal)) && d.pulls == c.pulls
      && d.buffer == if op.FinishOp? then c.buffer else []
  {
  }
}
