/** `AsyncBuffer` of `packages/common-web/src/async.ts`, with its one consumer: a queue and
    a promise that is replaced each time the consumer finds the queue empty. */
module AsyncBuffer {
  import opened Wrappers

  type Item = int
  type Fault = int

  /** Where the consumer stands: not started, awaiting a promise, suspended at a yield, or
      at its end. */
  datatype Consumer =
    | Idle
    | Awaiting(promise: nat)
    | Yielding
    | Finished(end: End)

  datatype End = Completed | Threw(fault: Fault) | Full | Abandoned

  /** Promises are numbered; `promise` is the current one, whose `resolve` the buffer holds.
      A `maxSize` of zero is no limit, as an absent one is. */
  datatype Buffer = Buffer(
    maxSize: nat, buffer: seq<Item>, promise: nat, resolved: set<nat>, closed: bool, toThrow: Option<Fault>,
    consumer: Consumer, yielded: seq<Item>)

  function Fresh(maxSize: nat): Buffer {
    Buffer(maxSize, [], 0, {}, false, None, Idle, [])
  }

  function Resolve(b: Buffer): Buffer {
    b.(resolved := b.resolved + {b.promise})
  }

  function Filled(b: Buffer, items: seq<Item>): Buffer {
    Resolve(b.(buffer := b.buffer + items))
  }

  function Shut(b: Buffer): Buffer {
    Resolve(b.(closed := true))
  }

  /** Throwing something falsy closes, and no more. */
  function Thrown(b: Buffer, fault: Option<Fault>): Buffer {
    Resolve(b.(toThrow := fault, closed := true))
  }

  /** The consumer's loop, from its top to the next await. */
  function ToAwait(b: Buffer): Buffer {
    if b.closed && b.buffer == [] then
      b.(consumer := Finished(if b.toThrow.Some? then Threw(b.toThrow.value) else Completed))
    else b.(consumer := Awaiting(b.promise))
  }

  /** The loop after the await, up to a yield or the next await. */
  function Woken(b: Buffer): Buffer {
    if b.toThrow.Some? then b.(consumer := Finished(Threw(b.toThrow.value)))
    else if b.maxSize != 0 && |b.buffer| > b.maxSize then b.(consumer := Finished(Full))
    else if b.buffer != [] then
      b.(buffer := b.buffer[1..], consumer := Yielding, yielded := b.yielded + [b.buffer[0]])
    else ToAwait(b.(promise := b.promise + 1))
  }

  class Queue {
    var maxSize: nat
    var buffer: seq<Item>
    var promise: nat
    var resolved: set<nat>
    var closed: bool
    var toThrow: Option<Fault>
    var consumer: Consumer
    var yielded: seq<Item>

    ghost function State(): Buffer
      reads this
    {
      Buffer(maxSize, buffer, promise, resolved, closed, toThrow, consumer, yielded)
    }

    constructor (maxSize: nat)
      ensures State() == Fresh(maxSize)
    {
      this.maxSize, buffer, promise, resolved := maxSize, [], 0, {};
      closed, toThrow, consumer, yielded := false, None, Idle, [];
    }

    method ResolvePromise()
      modifies `resolved
      ensures State() == Resolve(old(State()))
    {
      resolved := resolved + {promise};
    }

    method ResetPromise()
      modifies `promise
      ensures promise == old(promise) + 1
    {
      promise := promise + 1;
    }

    method Push(item: Item)
      modifies this
      ensures State() == Filled(old(State()), [item])
    {
      buffer := buffer + [item];
      ResolvePromise();
    }

    method PushMany(items: seq<Item>)
      modifies this
      ensures State() == Filled(old(State()), items)
    {
      for i := 0 to |items|
        invariant State() == old(State()).(buffer := old(buffer) + items[..i])
      {
        buffer := buffer + [items[i]];
      }
      assert items[..|items|] == items;
      ResolvePromise();
    }

    method Throw(fault: Option<Fault>)
      modifies this
      ensures State() == Thrown(old(State()), fault)
    {
      toThrow := fault;
      closed := true;
      ResolvePromise();
    }

    method Close()
      modifies this
      ensures State() == Shut(old(State()))
    {
      closed := true;
      ResolvePromise();
    }

    /** The consumer runs from the top of its loop to the next await, or to its end. */
    method Advance()
      modifies `consumer
      ensures State() == ToAwait(old(State()))
    {
      if closed && |buffer| == 0 {
        consumer := Finished(if toThrow.Some? then Threw(toThrow.value) else Completed);
        return;
      }
      consumer := Awaiting(promise);
    }

    /** The awaited promise has resolved: the consumer runs on. */
    method Wake()
      requires consumer.Awaiting? && consumer.promise in resolved
      modifies this
      ensures State() == Woken(old(State()))
    {
      if toThrow.Some? {
        consumer := Finished(Threw(toThrow.value));
        return;
      }
      if maxSize != 0 && |buffer| > maxSize {
        consumer := Finished(Full);
        return;
      }
      if |buffer| > 0 {
        var first := buffer[0];
        buffer := buffer[1..];
        consumer := Yielding;
        yielded := yielded + [first];
      } else {
        ResetPromise();
        Advance();
      }
    }
  }

  // ------------------------------------------------------------- every run

  datatype Op =
    | PushOp(items: seq<Item>)
    | CloseOp
    | ThrowOp(fault: Option<Fault>)
    | StartOp
    | WakeOp
    | ContinueOp
    | AbandonOp

  /** The consumer only moves when it can: once, from where it is, and only past a promise
      that has resolved. It may be abandoned before its first pull, and otherwise where it
      yields: while it awaits, that has to wait too. */
  predicate Enabled(b: Buffer, op: Op) {
    match op
    case StartOp => b.consumer.Idle?
    case WakeOp => b.consumer.Awaiting? && b.consumer.promise in b.resolved
    case ContinueOp => b.consumer.Yielding?
    case AbandonOp => b.consumer.Idle? || b.consumer.Yielding?
    case _ => true
  }

  function Step(b: Buffer, op: Op): Buffer {
    if !Enabled(b, op) then b else
      match op
      case PushOp(items) => Filled(b, items)
      case CloseOp => Shut(b)
      case ThrowOp(fault) => Thrown(b, fault)
      case StartOp => ToAwait(b)
      case WakeOp => Woken(b)
      case ContinueOp => ToAwait(b)
      case AbandonOp => b.(consumer := Finished(Abandoned))
  }

  function Run(maxSize: nat, ops: seq<Op>): Buffer {
    if ops == [] then Fresh(maxSize) else Step(Run(maxSize, ops[..|ops| - 1]), ops[|ops| - 1])
  }

  function Pushed(ops: seq<Op>): seq<Item> {
    if ops == [] then []
    else Pushed(ops[..|ops| - 1]) + if ops[|ops| - 1].PushOp? then ops[|ops| - 1].items else []
  }

  ghost predicate Invariant(b: Buffer) {
    && (forall p :: p in b.resolved ==> p <= b.promise)
    // whoever waits, waits for the promise that the next push resolves
    && (b.consumer.Awaiting? ==> b.consumer.promise == b.promise)
    // and there is something to wait for
    && (b.consumer.Awaiting? && (b.buffer != [] || b.closed) ==> b.promise in b.resolved)
    && (!b.consumer.Finished? && (b.buffer != [] || b.closed) ==> b.promise in b.resolved)
    && (b.consumer == Finished(Completed) ==> b.closed)
    && (b.toThrow.Some? ==> b.closed)
  }

  lemma {:induction false} InvariantHolds(maxSize: nat, ops: seq<Op>)
    ensures Invariant(Run(maxSize, ops)) && Run(maxSize, ops).maxSize == maxSize
  {
    if ops != [] { InvariantHolds(maxSize, ops[..|ops| - 1]); }
  }

  /** No wake-up is ever lost: a consumer that waits while there is an item, or while the
      buffer is closed, waits for a promise that has already resolved. */
  lemma NoLostWakeup(maxSize: nat, ops: seq<Op>)
    ensures var b := Run(maxSize, ops);
      b.consumer.Awaiting? && (b.buffer != [] || b.closed) ==> Enabled(b, WakeOp)
  {
    InvariantHolds(maxSize, ops);
  }

  /** Every push, even of nothing, resolves the promise that a waiting consumer awaits. */
  lemma {:induction false} PushWakes(maxSize: nat, ops: seq<Op>, items: seq<Item>)
    requires Run(maxSize, ops).consumer.Awaiting?
    ensures Enabled(Run(maxSize, ops + [PushOp(items)]), WakeOp)
  {
    InvariantHolds(maxSize, ops);
    assert (ops + [PushOp(items)])[..|ops|] == ops;
  }

  /** And a consumer with nothing to do does not spin: it is woken at most once in vain. */
  lemma NoBusyWaiting(maxSize: nat, ops: seq<Op>)
    ensures var b := Run(maxSize, ops);
      Enabled(b, WakeOp) && b.buffer == [] && !b.closed ==> !Enabled(Step(b, WakeOp), WakeOp)
  {
    InvariantHolds(maxSize, ops);
  }

  /** What was yielded and what is queued are exactly the pushes, in order. */
  lemma {:induction false} NothingLostOrReordered(maxSize: nat, ops: seq<Op>)
    ensures Run(maxSize, ops).yielded + Run(maxSize, ops).buffer == Pushed(ops)
  {
    if ops != [] {
      var init, op := ops[..|ops| - 1], ops[|ops| - 1];
      NothingLostOrReordered(maxSize, init);
      var b := Run(maxSize, init);
      if op.PushOp? {
        assert b.yielded + (b.buffer + op.items) == b.yielded + b.buffer + op.items;
      } else {
        assert Pushed(ops) == Pushed(init);
        if op.WakeOp? && b.buffer != [] {
          assert b.yielded + [b.buffer[0]] + b.buffer[1..] == b.yielded + b.buffer;
        }
      }
    }
  }

  /** The consumer completes only when it has been given everything pushed so far. */
  lemma {:induction false} CompletesOnlyDrained(maxSize: nat, ops: seq<Op>, op: Op)
    requires !Run(maxSize, ops).consumer.Finished? && Run(maxSize, ops + [op]).consumer == Finished(Completed)
    ensures Run(maxSize, ops + [op]).yielded == Pushed(ops + [op])
  {
    NothingLostOrReordered(maxSize, ops + [op]);
    assert (ops + [op])[..|ops|] == ops;
  }

  /** `n` rounds of the consumer alone: woken, and then asked for more. */
  function Rounds(b: Buffer, n: nat): Buffer {
    if n == 0 then b else Step(Step(Rounds(b, n - 1), WakeOp), ContinueOp)
  }

  lemma OneRound(b: Buffer)
    requires Invariant(b) && b.consumer.Awaiting? && b.toThrow.None? && b.buffer != []
    requires b.maxSize != 0 ==> |b.buffer| <= b.maxSize
    ensures var c := Step(Step(b, WakeOp), ContinueOp);
      && Invariant(c) && c.toThrow.None? && c.maxSize == b.maxSize && c.closed == b.closed
      && c.yielded == b.yielded + [b.buffer[0]] && c.buffer == b.buffer[1..]
      && if |b.buffer| == 1 && b.closed then c.consumer == Finished(Completed) else c.consumer.Awaiting?
  {
  }

  /** `c` is `b` after `n` items were taken. */
  ghost predicate CaughtUp(b: Buffer, c: Buffer, n: nat)
    requires n <= |b.buffer|
  {
    && Invariant(c) && c.toThrow.None? && c.maxSize == b.maxSize && c.closed == b.closed
    && c.yielded == b.yielded + b.buffer[..n] && c.buffer == b.buffer[n..]
    && if n > 0 && n == |b.buffer| && b.closed then c.consumer == Finished(Completed) else c.consumer.Awaiting?
  }

  lemma OneMoreRound(b: Buffer, c: Buffer, n: nat)
    requires n < |b.buffer| && CaughtUp(b, c, n) && (b.maxSize != 0 ==> |b.buffer| <= b.maxSize)
    ensures CaughtUp(b, Step(Step(c, WakeOp), ContinueOp), n + 1)
  {
    OneRound(c);
    assert b.buffer[n..][1..] == b.buffer[n + 1..];
    assert b.yielded + b.buffer[..n] + [b.buffer[n]] == b.yielded + b.buffer[..n + 1];
  }

  /** Left to itself, a waiting consumer is given everything queued, one item a round; and
      then waits again, or completes if the buffer is closed. */
  lemma {:induction false} ConsumerCatchesUp(b: Buffer, n: nat)
    requires Invariant(b) && b.consumer.Awaiting? && b.toThrow.None? && n <= |b.buffer|
    requires b.maxSize != 0 ==> |b.buffer| <= b.maxSize
    ensures CaughtUp(b, Rounds(b, n), n)
  {
    if n == 0 {
      assert b.yielded + b.buffer[..0] == b.yielded;
    } else {
      ConsumerCatchesUp(b, n - 1);
      OneMoreRound(b, Rounds(b, n - 1), n - 1);
    }
  }

  // ------------------------------------------------------------------- ends

  /** What the last throw of the run was given, if there was one. */
  function LastFault(ops: seq<Op>): Option<Fault> {
    if ops == [] then None
    else if ops[|ops| - 1].ThrowOp? then ops[|ops| - 1].fault
    else LastFault(ops[..|ops| - 1])
  }

  predicate EverClosed(ops: seq<Op>) {
    exists i :: 0 <= i < |ops| && (ops[i].CloseOp? || ops[i].ThrowOp?)
  }

  lemma {:induction false} ClosedIs(maxSize: nat, ops: seq<Op>)
    ensures Run(maxSize, ops).toThrow == LastFault(ops) && Run(maxSize, ops).closed == EverClosed(ops)
  {
    if ops != [] {
      var init, op := ops[..|ops| - 1], ops[|ops| - 1];
      ClosedIs(maxSize, init);
      if i :| 0 <= i < |init| && (init[i].CloseOp? || init[i].ThrowOp?) { assert ops[i] == init[i]; }
      if op.CloseOp? || op.ThrowOp? { assert EverClosed(ops); }
    }
  }

  /** How an operation ends the consumer: by a fault exactly if the last throw gave one, over the
      limit only without one, and by completion only if closed and given everything. */
  lemma {:induction false} EndsRightly(maxSize: nat, ops: seq<Op>, op: Op)
    requires !Run(maxSize, ops).consumer.Finished? && Run(maxSize, ops + [op]).consumer.Finished?
    ensures match Run(maxSize, ops + [op]).consumer.end
      case Threw(fault) => LastFault(ops) == Some(fault)
      case Full => LastFault(ops) == None && 0 < maxSize < |Run(maxSize, ops).buffer|
      case Completed => LastFault(ops) == None && EverClosed(ops) && Run(maxSize, ops + [op]).yielded == Pushed(ops)
      case Abandoned => op.AbandonOp?
  {
    ClosedIs(maxSize, ops);
    InvariantHolds(maxSize, ops);
    NothingLostOrReordered(maxSize, ops);
    assert (ops + [op])[..|ops|] == ops;
  }

  /** The consumer's next move, if it has one. */
  function GoOn(b: Buffer): Buffer {
    match b.consumer
    case Idle => Step(b, StartOp)
    case Yielding => Step(b, ContinueOp)
    case Awaiting(_) => Step(b, WakeOp)
    case Finished(_) => b
  }

  /** A fault that is thrown reaches the consumer, wherever it stands, in at most two moves and
      before any other item. */
  lemma {:induction false} FaultArrives(maxSize: nat, ops: seq<Op>, fault: Fault)
    requires !Run(maxSize, ops).consumer.Finished?
    ensures var b := Run(maxSize, ops + [ThrowOp(Some(fault))]);
      GoOn(GoOn(b)).consumer == Finished(Threw(fault)) && GoOn(GoOn(b)).yielded == Run(maxSize, ops).yielded
  {
    assert (ops + [ThrowOp(Some(fault))])[..|ops|] == ops;
    InvariantHolds(maxSize, ops + [ThrowOp(Some(fault))]);
  }

  /** A buffer over its limit fails the consumer, unless a fault is to be thrown. */
  lemma {:induction false} OverLimitFails(maxSize: nat, ops: seq<Op>)
    requires var b := Run(maxSize, ops); !b.consumer.Finished? && 0 < maxSize < |b.buffer| && LastFault(ops) == None
    ensures var b := Run(maxSize, ops);
      GoOn(GoOn(b)).consumer == Finished(Full) && GoOn(GoOn(b)).yielded == b.yielded
  {
    ClosedIs(maxSize, ops);
    InvariantHolds(maxSize, ops);
  }

  /** A closed and empty buffer completes the consumer, if no fault was given. */
  lemma {:induction false} ClosedCompletes(maxSize: nat, ops: seq<Op>)
    requires var b := Run(maxSize, ops); !b.consumer.Finished? && b.buffer == []
    requires EverClosed(ops) && LastFault(ops) == None
    ensures GoOn(GoOn(Run(maxSize, ops))).consumer == Finished(Completed)
  {
    ClosedIs(maxSize, ops);
    InvariantHolds(maxSize, ops);
  }
}
