/** The receive engine of `packages/ws-client/src/message-channel.ts`: a byte-counted queue
    between a transport that pushes frames and one consumer that pulls them.
    The functions say what each operation does to the channel's state; the class does it
    in place, loop by loop, and is proved to do the same. */
module MessageChannel {
  import opened Wrappers

  datatype Message = Text(chars: string) | Binary(bytes: seq<bv8>)

  datatype Mode = Auto | TextOnly | BinaryOnly

  datatype Error =
    | DataModeError(expected: Mode, received: Mode)
    | BufferOverflow(bufferedBytes: int)
    | IdleTimeout
    | External(id: int)

  datatype Terminal = Open | Done | Failed(error: Error)

  /** `canPause` says that the platform passed the two backpressure hooks; an absent
      `maxBufferedBytes` is the default Infinity. */
  datatype Options = Options(
    mode: Mode, canPause: bool, highWaterMark: nat, maxBufferedBytes: Option<nat>, idleTimeout: bool)

  /** How one pull, a call of `next()`, is settled. */
  datatype Reply = Value(message: Message) | End | Rejected(error: Error)

  datatype Settled = Settled(pull: nat, reply: Reply)

  /** The backpressure hooks. */
  datatype Flow = Pause | Resume

  datatype Abort = Abort(error: Option<Error>, code: Option<nat>)

  datatype Item = Item(value: Message, bytes: nat)

  /** The closure's state, and what it has made visible: the pulls settled and the hooks
      invoked, each in order. */
  datatype Channel = Channel(
    buffer: seq<Item>, waiters: seq<nat>, bufferedBytes: int, terminal: Terminal, paused: bool,
    idleActive: bool, idleTimer: bool, pulls: nat,
    replies: seq<Settled>, flow: seq<Flow>, aborts: seq<Abort>)

  const NORMAL: nat := 1000
  const UNSUPPORTED_DATA: nat := 1003

  function MessageBytes(m: Message): nat {
    match m
    case Text(chars) => |chars| * 2
    case Binary(bytes) => |bytes|
  }

  function ModeOf(m: Message): Mode {
    if m.Text? then TextOnly else BinaryOnly
  }

  predicate Admits(mode: Mode, m: Message) {
    mode == Auto || mode == ModeOf(m)
  }

  function Fresh(o: Options): Channel {
    Channel([], [], 0, Open, false, true, o.idleTimeout, 0, [], [], [])
  }

  function SettleAll(waiters: seq<nat>, r: Reply): seq<Settled> {
    seq(|waiters|, i requires 0 <= i < |waiters| => Settled(waiters[i], r))
  }

  function AfterFail(c: Channel, e: Error): Channel {
    if !c.terminal.Open? then c else
      c.(terminal := Failed(e), idleTimer := false, buffer := [], bufferedBytes := 0, waiters := [],
         replies := c.replies + SettleAll(c.waiters, Rejected(e)))
  }

  function AfterFinish(c: Channel): Channel {
    if !c.terminal.Open? then c else
      c.(terminal := Done, idleTimer := false, waiters := [], replies := c.replies + SettleAll(c.waiters, End))
  }

  function FailAndAbort(c: Channel, e: Error, code: Option<nat>): Channel {
    var f := AfterFail(c, e);
    f.(aborts := f.aborts + [Abort(Some(e), code)])
  }

  function Drained(o: Options, c: Channel): Channel {
    if c.paused && 2 * c.bufferedBytes < o.highWaterMark
    then c.(paused := false, flow := c.flow + [Resume])
    else c
  }

  /** A message goes straight to the pull that has waited longest. */
  function HandOver(c: Channel, m: Message): Channel
    requires c.waiters != []
  {
    c.(waiters := c.waiters[1..], replies := c.replies + [Settled(c.waiters[0], Value(m))])
  }

  function Queued(c: Channel, m: Message): Channel {
    c.(buffer := c.buffer + [Item(m, MessageBytes(m))], bufferedBytes := c.bufferedBytes + MessageBytes(m))
  }

  /** A message is queued: the hard cap is checked first, then the mark. */
  function Enqueue(o: Options, c: Channel, m: Message): Channel {
    var c := Queued(c, m);
    if o.maxBufferedBytes.Some? && c.bufferedBytes > o.maxBufferedBytes.value
    then FailAndAbort(c, BufferOverflow(c.bufferedBytes), None)
    else if o.canPause && !c.paused && c.bufferedBytes > o.highWaterMark
    then c.(paused := true, flow := c.flow + [Pause])
    else c
  }

  function AfterPush(o: Options, c: Channel, m: Message): Channel {
    if !c.terminal.Open? then c else
      var c := c.(idleActive := true);
      if !Admits(o.mode, m) then FailAndAbort(c, DataModeError(o.mode, ModeOf(m)), Some(UNSUPPORTED_DATA))
      else if c.waiters != [] then HandOver(c, m)
      else Enqueue(o, c, m)
  }

  /** The oldest queued message is taken by a new pull. */
  function Take(o: Options, c: Channel): Channel
    requires c.buffer != []
  {
    var d := Drained(o, c.(pulls := c.pulls + 1, buffer := c.buffer[1..],
                           bufferedBytes := c.bufferedBytes - c.buffer[0].bytes));
    d.(replies := d.replies + [Settled(c.pulls, Value(c.buffer[0].value))])
  }

  function AfterNext(o: Options, c: Channel): Channel {
    if c.buffer != [] then Take(o, c)
    else
      var pull, c := c.pulls, c.(pulls := c.pulls + 1);
      match c.terminal
      case Done => c.(replies := c.replies + [Settled(pull, End)])
      case Failed(e) => c.(replies := c.replies + [Settled(pull, Rejected(e))])
      case Open => c.(waiters := c.waiters + [pull])
  }

  function AfterReturn(c: Channel): Channel {
    if !c.terminal.Open? then c else
      c.(terminal := Done, idleTimer := false, buffer := [], bufferedBytes := 0, waiters := [],
         replies := c.replies + SettleAll(c.waiters, End),
         aborts := c.aborts + [Abort(None, Some(NORMAL))])
  }

  /** A tick of the interval timer; there is none once the timer is cleared. */
  function AfterTick(c: Channel): Channel {
    if !c.idleTimer then c
    else if c.paused then c.(idleActive := true)
    else if !c.idleActive then FailAndAbort(c, IdleTimeout, None)
    else c.(idleActive := false)
  }

  // ------------------------------------------------------------------ in place

  class ReceiveChannel {
    const options: Options
    var buffer: seq<Item>
    var waiters: seq<nat>
    var bufferedBytes: int
    var terminal: Terminal
    var paused: bool
    var idleActive: bool
    var idleTimer: bool
    var pulls: nat
    var replies: seq<Settled>
    var flow: seq<Flow>
    var aborts: seq<Abort>

    ghost function State(): Channel
      reads this
    {
      Channel(buffer, waiters, bufferedBytes, terminal, paused, idleActive, idleTimer, pulls, replies, flow, aborts)
    }

    constructor (o: Options)
      ensures options == o && State() == Fresh(o)
    {
      options := o;
      buffer, waiters, bufferedBytes, terminal := [], [], 0, Open;
      paused, idleActive, idleTimer := false, true, o.idleTimeout;
      pulls, replies, flow, aborts := 0, [], [], [];
    }

    method Push(data: Message)
      modifies this
      ensures State() == AfterPush(options, old(State()), data)
    {
      if !terminal.Open? {
        return;
      }
      idleActive := true;
      if options.mode != Auto && options.mode != ModeOf(data) {
        var error := DataModeError(options.mode, ModeOf(data));
        Fail(error);
        aborts := aborts + [Abort(Some(error), Some(UNSUPPORTED_DATA))];
        return;
      }
      if |waiters| > 0 {
        var waiter := waiters[0];
        waiters := waiters[1..];
        replies := replies + [Settled(waiter, Value(data))];
        return;
      }
      var bytes := MessageBytes(data);
      buffer := buffer + [Item(data, bytes)];
      bufferedBytes := bufferedBytes + bytes;
      if options.maxBufferedBytes.Some? && bufferedBytes > options.maxBufferedBytes.value {
        var error := BufferOverflow(bufferedBytes);
        Fail(error);
        aborts := aborts + [Abort(Some(error), None)];
        return;
      }
      if options.canPause && !paused && bufferedBytes > options.highWaterMark {
        paused := true;
        flow := flow + [Pause];
      }
    }

    method SettleWaiters(reply: Reply)
      modifies `waiters, `replies
      ensures waiters == [] && replies == old(replies) + SettleAll(old(waiters), reply)
    {
      while |waiters| > 0
        invariant |waiters| <= |old(waiters)| && waiters == old(waiters)[|old(waiters)| - |waiters|..]
        invariant replies == old(replies) + SettleAll(old(waiters), reply)[..|old(waiters)| - |waiters|]
      {
        var waiter := waiters[0];
        waiters := waiters[1..];
        replies := replies + [Settled(waiter, reply)];
      }
    }

    method Fail(error: Error)
      modifies this
      ensures State() == AfterFail(old(State()), error)
    {
      if !terminal.Open? {
        return;
      }
      terminal := Failed(error);
      idleTimer := false;
      buffer, bufferedBytes := [], 0;
      SettleWaiters(Rejected(error));
    }

    method Finish()
      modifies this
      ensures State() == AfterFinish(old(State()))
    {
      if !terminal.Open? {
        return;
      }
      terminal := Done;
      idleTimer := false;
      SettleWaiters(End);
    }

    method AfterDrain()
      modifies this
      ensures State() == Drained(options, old(State()))
    {
      if paused && 2 * bufferedBytes < options.highWaterMark {
        paused := false;
        flow := flow + [Resume];
      }
    }

    method Next() returns (pull: nat)
      modifies this
      ensures pull == old(pulls) && State() == AfterNext(options, old(State()))
    {
      pull := pulls;
      pulls := pulls + 1;
      if |buffer| > 0 {
        var item := buffer[0];
        buffer := buffer[1..];
        bufferedBytes := bufferedBytes - item.bytes;
        AfterDrain();
        replies := replies + [Settled(pull, Value(item.value))];
        return;
      }
      match terminal
      case Done => replies := replies + [Settled(pull, End)];
      case Failed(error) => replies := replies + [Settled(pull, Rejected(error))];
      case Open => waiters := waiters + [pull];
    }

    method Return()
      modifies this
      ensures State() == AfterReturn(old(State()))
    {
      if terminal.Open? {
        terminal := Done;
        idleTimer := false;
        buffer, bufferedBytes := [], 0;
        SettleWaiters(End);
        aborts := aborts + [Abort(None, Some(NORMAL))];
      }
    }

    method IdleTick()
      requires idleTimer
      modifies this
      ensures State() == AfterTick(old(State()))
    {
      if paused {
        idleActive := true;
        return;
      }
      if !idleActive {
        Fail(IdleTimeout);
        aborts := aborts + [Abort(Some(IdleTimeout), None)];
        return;
      }
      idleActive := false;
    }
  }
}
