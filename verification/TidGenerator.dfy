/** The generator of `packages/common-web/src/tid.ts`, over every run of calls under every
    clock. */
module TidGenerator {
  import opened Wrappers
  import opened Tid

  /** The module's state: the latest clock reading used, how often a reading was used
      again, and the clock identifier once drawn. */
  datatype Clock = Clock(lastTimestamp: nat, timestampCount: nat, clockid: Option<nat>)

  const START := Clock(0, 0, None)

  function Advance(g: Clock, now: nat, draw: nat): Clock {
    var time := if now > g.lastTimestamp then now else g.lastTimestamp;
    Clock(time, if time == g.lastTimestamp then g.timestampCount + 1 else g.timestampCount,
          if g.clockid.None? then Some(draw) else g.clockid)
  }

  function Stamp(g: Clock): nat {
    g.lastTimestamp * 1000 + g.timestampCount
  }

  /** What a call answers, once it has advanced the clock to `g`. */
  function Answer(g: Clock, prev: Option<Tid>): Result<Tid, TidError>
    requires g.clockid.Some?
    requires prev.Some? ==> |prev.value.str| == TID_LEN
  {
    var tid := FromTime(Stamp(g), g.clockid.value);
    if tid.Err? || prev.None? || NewerThan(tid.value, prev.value) then tid
    else FromTime(Timestamp(prev.value) + 1, g.clockid.value)
  }

  class Generator {
    var lastTimestamp: nat
    var timestampCount: nat
    var clockid: Option<nat>

    function State(): Clock
      reads this
    {
      Clock(lastTimestamp, timestampCount, clockid)
    }

    constructor ()
      ensures State() == START
    {
      lastTimestamp, timestampCount, clockid := 0, 0, None;
    }

    /** `TID.next(prev)`, with the clock's reading and the random draw given. Any thirteen
        characters can be a predecessor. */
    method Next(now: nat, draw: nat, prev: Option<Tid>) returns (r: Result<Tid, TidError>)
      requires draw < 32
      requires prev.Some? ==> |prev.value.str| == TID_LEN
      modifies this
      ensures State() == Advance(old(State()), now, draw)
      ensures r == Answer(State(), prev)
    {
      var time := if now > lastTimestamp then now else lastTimestamp;
      if time == lastTimestamp {
        timestampCount := timestampCount + 1;
      }
      lastTimestamp := time;
      var timestamp := time * 1000 + timestampCount;
      if clockid.None? {
        clockid := Some(draw);
      }
      assert State() == Advance(old(State()), now, draw) && timestamp == Stamp(State());
      var tid := FromTime(timestamp, clockid.value);
      if tid.Err? {
        return tid;
      }
      if prev.None? || NewerThan(tid.value, prev.value) {
        return tid;
      }
      return FromTime(Timestamp(prev.value) + 1, clockid.value);
    }
  }

  datatype Call = Call(now: nat, draw: nat, prev: Option<Tid>)

  ghost predicate Proper(calls: seq<Call>) {
    forall i :: 0 <= i < |calls| ==> calls[i].draw < 32 && (calls[i].prev.Some? ==> |calls[i].prev.value.str| == TID_LEN)
  }

  /** The clock after the first `n` calls. */
  function ClockAfter(calls: seq<Call>, n: nat): (g: Clock)
    requires n <= |calls|
    ensures n > 0 ==> g.clockid.Some?
  {
    if n == 0 then START else Advance(ClockAfter(calls, n - 1), calls[n - 1].now, calls[n - 1].draw)
  }

  function ResultOf(calls: seq<Call>, i: nat): Result<Tid, TidError>
    requires i < |calls| && Proper(calls)
  {
    Answer(ClockAfter(calls, i + 1), calls[i].prev)
  }

  lemma {:induction false} ClockIncreases(calls: seq<Call>, i: nat, j: nat)
    requires 0 < i < j <= |calls| && Proper(calls)
    ensures Stamp(ClockAfter(calls, i)) < Stamp(ClockAfter(calls, j))
    ensures ClockAfter(calls, i).clockid == ClockAfter(calls, j).clockid
  {
    if i < j - 1 { ClockIncreases(calls, i, j - 1); }
  }

  lemma {:induction false} ClockidSmall(calls: seq<Call>, i: nat)
    requires 0 < i <= |calls| && Proper(calls)
    ensures ClockAfter(calls, i).clockid.value < 32
  {
    if i > 1 { ClockidSmall(calls, i - 1); }
  }

  /** The clock's own TID is newer than `prev`. */
  predicate Past(g: Clock, prev: Tid)
    requires g.clockid.Some? && g.clockid.value < 1024
  {
    InRange(Stamp(g)) && NewerThan(Make(Stamp(g), g.clockid.value), prev)
  }

  /** Of a predecessor over the alphabet: the clock is ahead of its timestamp, or as far and of
      a higher identifier. */
  lemma PastExactly(g: Clock, prev: Tid)
    requires g.clockid.Some? && g.clockid.value < 1024 && WellFormed(prev)
    ensures Past(g, prev) <==>
      && InRange(Stamp(g))
      && (Stamp(g) > Timestamp(prev) || (Stamp(g) == Timestamp(prev) && g.clockid.value > Clockid(prev)))
  {
    if InRange(Stamp(g)) { CompareIsLexicographic(Make(Stamp(g), g.clockid.value), prev); }
  }

  /** The timestamp a call answers with. */
  function AnswerStamp(g: Clock, prev: Option<Tid>): int
    requires g.clockid.Some? && g.clockid.value < 1024
    requires prev.Some? ==> |prev.value.str| == TID_LEN
  {
    if prev.None? || Past(g, prev.value) then Stamp(g) else Timestamp(prev.value) + 1
  }

  lemma FromTimeMakes(timestamp: int, clockid: nat)
    requires clockid < 1024
    ensures FromTime(timestamp, clockid) == Err(Endless) <==> timestamp < 0
    ensures FromTime(timestamp, clockid).Ok? <==> InRange(timestamp)
    ensures InRange(timestamp) ==> FromTime(timestamp, clockid) == Ok(Make(timestamp, clockid))
  {
    if timestamp >= 0 { FromTimeShort(timestamp, clockid); }
  }

  /** A call answers the clock's own TID if it has no predecessor or the clock is past it, and
      else the predecessor's successor; it fails exactly if the clock or that is out of range,
      and it does not return exactly if there is no successor. */
  lemma {:induction false} AnswerExactly(g: Clock, prev: Option<Tid>)
    requires g.clockid.Some? && g.clockid.value < 1024
    requires prev.Some? ==> |prev.value.str| == TID_LEN
    ensures Answer(g, prev).Ok? <==> InRange(Stamp(g)) && InRange(AnswerStamp(g, prev))
    ensures Answer(g, prev).Ok? ==> Answer(g, prev).value == Make(AnswerStamp(g, prev), g.clockid.value)
    ensures Answer(g, prev) == Err(Endless) <==> InRange(Stamp(g)) && AnswerStamp(g, prev) < 0
  {
    FromTimeMakes(Stamp(g), g.clockid.value);
    FromTimeMakes(AnswerStamp(g, prev), g.clockid.value);
  }

  // -- successors

  predicate AllLast(s: string) {
    forall i :: 0 <= i < |s| ==> s[i] == 'z'
  }

  /** The code of the next number, of the same length, comes after `s`: if `s` is over the
      alphabet, or has a first foreign character that comes before all digits and after
      which there are only last digits. */
  predicate Steps(s: string) {
    if s == "" then true
    else if IsDigit(s[0]) then Steps(s[1..])
    else s[0] < '2' && AllLast(s[1..])
  }

  lemma {:induction false} DigitsStep(s: string)
    requires AllDigits(s)
    ensures Steps(s)
  {
    if s != "" { DigitsStep(s[1..]); }
  }

  /** No string stands for more than the code of last digits only. */
  lemma {:induction false} DecodeMost(s: string)
    ensures Decode(s) < Pow32(|s|)
    ensures Decode(s) == Pow32(|s|) - 1 <==> AllLast(s)
  {
    if s != "" {
      var init, last := s[..|s| - 1], s[|s| - 1];
      DecodeMost(init);
      assert forall i :: 0 <= i < |init| ==> init[i] == s[i];
      assert AllLast(s) <==> AllLast(init) && last == 'z';
      assert Value(last) <= 31 && (Value(last) == 31 <==> last == 'z');
    }
  }

  lemma {:induction false} StepsBound(s: string)
    requires Steps(s)
    ensures Decode(s) >= -1
  {
    if s != "" {
      var u := s[1..];
      assert s == [s[0]] + u;
      DecodePrepend(s[0], u);
      if IsDigit(s[0]) {
        StepsBound(u);
        assert Value(s[0]) * Pow32(|u|) >= 0;
      } else {
        DecodeMost(u);
      }
    }
  }

  lemma {:induction false} LastSteps(s: string)
    requires AllLast(s)
    ensures Steps(s) && AllDigits(s)
  {
    if s != "" { LastSteps(s[1..]); }
  }

  /** Leading digits of a number and of its successor, when the rest of the number is `x`. */
  lemma Carry(a: int, b: int, p: int, x: int, y: int)
    requires a * p + x + 1 == b * p + y && 0 <= y < p && x < p
    ensures x == p - 1 ==> b == a + 1 && y == 0
    ensures 0 <= x + 1 < p ==> b == a && y == x + 1
    ensures x + 1 < 0 ==> b < a
  {
    if x == p - 1 {
      assert (a + 1) * p + 0 == b * p + y;
      PlaceValue(a + 1, b, p, 0, y);
    } else if 0 <= x + 1 {
      PlaceValue(a, b, p, x + 1, y);
    } else {
      Scaled(a, b, p);
    }
  }

  lemma Scaled(a: int, b: int, p: int)
    ensures a <= b && p >= 0 ==> a * p <= b * p
  {
  }

  /** A string and the code of its successor, by their first characters and what follows. */
  lemma SuccessorParts(s: string, e: string)
    requires s != "" && |s| == |e| && AllDigits(e) && Decode(e) == Decode(s) + 1
    ensures var p, x, y := Pow32(|s| - 1), Decode(s[1..]), Decode(e[1..]);
      Value(e[0]) * p + y == Value(s[0]) * p + x + 1 && 0 <= y < p && x < p && (x == p - 1 <==> AllLast(s[1..]))
  {
    assert s == [s[0]] + s[1..] && e == [e[0]] + e[1..];
    DecodePrepend(s[0], s[1..]);
    DecodePrepend(e[0], e[1..]);
    DecodeBound(e[1..]);
    DecodeMost(s[1..]);
  }

  lemma DigitSuccessor(s: string, e: string)
    requires s != "" && |s| == |e| && AllDigits(e) && Decode(e) == Decode(s) + 1 && IsDigit(s[0])
    requires Decode(e[1..]) == Decode(s[1..]) + 1 ==> (Less(s[1..], e[1..]) <==> Steps(s[1..]))
    ensures s[0] < e[0] || (s[0] == e[0] && Less(s[1..], e[1..])) <==> Steps(s[1..])
  {
    var u, v := s[1..], e[1..];
    SuccessorParts(s, e);
    DigitOrder(s[0], e[0]);
    Carry(Value(s[0]), Value(e[0]), Pow32(|u|), Decode(u), Decode(v));
    if AllLast(u) { LastSteps(u); }
    if Steps(u) { StepsBound(u); }
  }

  lemma ForeignSuccessor(s: string, e: string)
    requires s != "" && |s| == |e| && AllDigits(e) && Decode(e) == Decode(s) + 1 && !IsDigit(s[0])
    ensures e[0] == '2' && AllLast(s[1..])
  {
    SuccessorParts(s, e);
    Carry(-1, Value(e[0]), Pow32(|s| - 1), Decode(s[1..]), Decode(e[1..]));
  }

  lemma SuccessorOrderStep(s: string, e: string)
    requires s != "" && |s| == |e| && AllDigits(e) && Decode(e) == Decode(s) + 1
    requires Decode(e[1..]) == Decode(s[1..]) + 1 ==> (Less(s[1..], e[1..]) <==> Steps(s[1..]))
    ensures Less(s, e) <==> Steps(s)
  {
    if IsDigit(s[0]) {
      DigitSuccessor(s, e);
    } else {
      ForeignSuccessor(s, e);
    }
  }

  lemma {:induction false} SuccessorOrder(s: string, e: string)
    requires |s| == |e| && AllDigits(e) && Decode(e) == Decode(s) + 1
    ensures Less(s, e) <==> Steps(s)
  {
    if s != "" {
      if Decode(e[1..]) == Decode(s[1..]) + 1 { SuccessorOrder(s[1..], e[1..]); }
      SuccessorOrderStep(s, e);
    }
  }

  lemma {:induction false} LessAppend(s: string, e: string, x: string, y: string)
    requires |s| == |e| && s != e
    ensures Less(s + x, e + y) <==> Less(s, e)
  {
    assert (s + x)[1..] == s[1..] + x && (e + y)[1..] == e[1..] + y;
    assert s == [s[0]] + s[1..] && e == [e[0]] + e[1..];
    if s[0] == e[0] { LessAppend(s[1..], e[1..], x, y); }
  }

  lemma SuccessorIsNewer(prev: Tid, clockid: nat)
    requires clockid < 1024 && |prev.str| == TID_LEN && InRange(Timestamp(prev) + 1)
    ensures NewerThan(Make(Timestamp(prev) + 1, clockid), prev) <==> Steps(prev.str[..11])
  {
    var t := Make(Timestamp(prev) + 1, clockid);
    var s, e := prev.str[..11], t.str[..11];
    assert prev.str == s + prev.str[11..] && t.str == e + t.str[11..];
    SuccessorOrder(s, e);
    LessAppend(s, e, prev.str[11..], t.str[11..]);
    LessAppend(e, s, t.str[11..], prev.str[11..]);
  }

  /** A call with a predecessor answers a TID strictly newer than it, whenever that is over the
      alphabet; and of any other one exactly if the clock is past it or its code steps. */
  lemma {:induction false} AnswerIsNewer(g: Clock, prev: Tid)
    requires g.clockid.Some? && g.clockid.value < 1024 && |prev.str| == TID_LEN && Answer(g, Some(prev)).Ok?
    ensures WellFormed(Answer(g, Some(prev)).value)
    ensures NewerThan(Answer(g, Some(prev)).value, prev) <==> Past(g, prev) || Steps(prev.str[..11])
    ensures WellFormed(prev) ==> NewerThan(Answer(g, Some(prev)).value, prev)
  {
    AnswerExactly(g, Some(prev));
    if !Past(g, prev) { SuccessorIsNewer(prev, g.clockid.value); }
    if WellFormed(prev) { DigitsStep(prev.str[..11]); }
  }

  predicate Tildes(s: string) {
    forall i :: 0 <= i < |s| ==> s[i] == '~'
  }

  /** Thirteen tildes are a predecessor that the constructor accepts and that has no successor:
      the call hangs. */
  lemma {:induction false} ForeignPredecessorHangs(g: Clock, s: string)
    requires g.clockid.Some? && g.clockid.value < 1024 && InRange(Stamp(g)) && |s| == TID_LEN && Tildes(s)
    ensures New(s) == Ok(Tid(s)) && Answer(g, Some(Tid(s))) == Err(Endless)
  {
    TildesAreKept(s);
    TildesDecode(s[..11]);
    assert IsDigit(Make(Stamp(g), g.clockid.value).str[0]);
    AnswerExactly(g, Some(Tid(s)));
  }

  /** A digit, a foreign character past all digits, and nine more digits. */
  function Tilded(d: char, w: string): string {
    [d, '~'] + w
  }

  lemma TildeInside(d: char, w: string)
    requires Value(d) >= 2 && |w| == 9 && AllDigits(w)
    ensures InRange(Decode(Tilded(d, w)) + 1) && !Steps(Tilded(d, w))
    ensures Decode(Tilded(d, w)) + 1 <= Value(d) * MIN_TIMESTAMP
  {
    var s, u := Tilded(d, w), ['~'] + w;
    assert s == [d] + u && s[1..] == u && u[1..] == w;
    DecodePrepend(d, u);
    DecodePrepend('~', w);
    DecodeBound(w);
    Powers();
    assert Pow32(10) == 32 * Pow32(9);
  }

  lemma TildeIsLater(s: string, t: string)
    requires |s| >= 2 && |t| >= 2 && AllDigits(s) && s[0] <= t[0] && t[1] == '~'
    ensures !Less(t, s)
  {
    assert IsDigit(s[1]) && s[1] <= 'z';
    assert s[1..][0] == s[1] && t[1..][0] == t[1];
    assert !Less(t[1..], s[1..]);
  }

  lemma FirstDigitCounts(t: Tid)
    requires WellFormed(t)
    ensures IsDigit(t.str[0]) && Value(t.str[0]) * MIN_TIMESTAMP <= Timestamp(t)
  {
    var e := t.str[..11];
    assert e == [e[0]] + e[1..] && e[0] == t.str[0];
    DecodePrepend(e[0], e[1..]);
    DecodeBound(e[1..]);
    assert Pow32(10) == MIN_TIMESTAMP by { Powers(); }
  }

  lemma FirstDigitBounds(t: Tid, d: char)
    requires WellFormed(t) && IsDigit(d) && Timestamp(t) < (Value(d) + 1) * MIN_TIMESTAMP
    ensures t.str[0] <= d
  {
    FirstDigitCounts(t);
    Scaled(Value(d) + 1, Value(t.str[0]), MIN_TIMESTAMP);
    DigitOrder(d, t.str[0]);
  }

  /** A family of predecessors whose successor exists and is not newer, under every clock that
      is not yet as far as they are. With `d` up to 'b' all of it is below 2^53, and with 'z'
      there is no clock that far. */
  lemma {:induction false} ForeignPredecessorAnswersOlder(g: Clock, prev: Tid, d: char, w: string, c: string)
    requires g.clockid.Some? && g.clockid.value < 1024 && InRange(Stamp(g))
    requires Value(d) >= 2 && |w| == 9 && AllDigits(w) && |c| == 2 && prev == Tid(Tilded(d, w) + c)
    requires Stamp(g) < (Value(d) + 1) * MIN_TIMESTAMP
    ensures Answer(g, Some(prev)).Ok? && !NewerThan(Answer(g, Some(prev)).value, prev)
    ensures Timestamp(Answer(g, Some(prev)).value) <= Value(d) * MIN_TIMESTAMP
  {
    assert prev.str[..11] == Tilded(d, w);
    TildeInside(d, w);
    var t := Make(Stamp(g), g.clockid.value);
    FirstDigitBounds(t, d);
    TildeIsLater(t.str, prev.str);
    AnswerExactly(g, Some(prev));
    AnswerIsNewer(g, prev);
  }

  lemma {:induction false} TildesAreKept(s: string)
    requires Tildes(s)
    ensures Dedash(s) == s
  {
    if s != "" {
      TildesAreKept(s[1..]);
      assert s == [s[0]] + s[1..];
    }
  }

  lemma {:induction false} TildesDecode(s: string)
    requires Tildes(s)
    ensures |s| >= 2 ==> Decode(s) < -1
    ensures Decode(s) <= if s == "" then 0 else -1
  {
    if s != "" { TildesDecode(s[..|s| - 1]); }
  }

  // -- runs

  lemma {:induction false} StampsOf(calls: seq<Call>, i: nat)
    requires i < |calls| && Proper(calls) && ResultOf(calls, i).Ok?
    ensures var g, t := ClockAfter(calls, i + 1), ResultOf(calls, i).value;
      g.clockid.value < 32 && WellFormed(t) && Timestamp(t) == AnswerStamp(g, calls[i].prev) && Clockid(t) == g.clockid.value
  {
    ClockidSmall(calls, i + 1);
    AnswerExactly(ClockAfter(calls, i + 1), calls[i].prev);
  }

  lemma NewerByTimestamp(a: Tid, b: Tid)
    requires WellFormed(a) && WellFormed(b) && Clockid(a) == Clockid(b)
    ensures NewerThan(a, b) <==> Timestamp(a) > Timestamp(b)
  {
    CompareIsLexicographic(a, b);
  }

  /** The highest reading of the clock in the first `n` calls. */
  function Highest(calls: seq<Call>, n: nat): nat
    requires n <= |calls|
  {
    if n == 0 then 0
    else if calls[n - 1].now > Highest(calls, n - 1) then calls[n - 1].now
    else Highest(calls, n - 1)
  }

  /** How many of the first `n` calls found no higher reading than those before. */
  function Stalled(calls: seq<Call>, n: nat): nat
    requires n <= |calls|
  {
    if n == 0 then 0
    else Stalled(calls, n - 1) + if calls[n - 1].now > Highest(calls, n - 1) then 0 else 1
  }

  lemma {:induction false} ClockIs(calls: seq<Call>, n: nat)
    requires n <= |calls|
    ensures ClockAfter(calls, n) == Clock(Highest(calls, n), Stalled(calls, n), if n == 0 then None else Some(calls[0].draw))
  {
    if n > 0 { ClockIs(calls, n - 1); }
  }

  /** What an answer carries: the draw of the run's first call; and, without a predecessor, the
      highest reading so far in microseconds, and one for each call that did not raise it. */
  lemma {:induction false} AnswerCarries(calls: seq<Call>, i: nat)
    requires Proper(calls) && i < |calls| && ResultOf(calls, i).Ok?
    ensures WellFormed(ResultOf(calls, i).value) && Clockid(ResultOf(calls, i).value) == calls[0].draw
    ensures calls[i].prev.None? ==>
      Timestamp(ResultOf(calls, i).value) == 1000 * Highest(calls, i + 1) + Stalled(calls, i + 1)
  {
    ClockIs(calls, i + 1);
    StampsOf(calls, i);
  }

  /** And with a predecessor over the alphabet, that too if it is newer, and else the
      predecessor's timestamp and one. */
  lemma {:induction false} AnswerToCarries(calls: seq<Call>, i: nat, prev: Tid)
    requires Proper(calls) && i < |calls| && ResultOf(calls, i).Ok? && calls[i].prev == Some(prev) && WellFormed(prev)
    ensures var own := 1000 * Highest(calls, i + 1) + Stalled(calls, i + 1);
      Timestamp(ResultOf(calls, i).value) ==
        if own > Timestamp(prev) || (own == Timestamp(prev) && calls[0].draw > Clockid(prev)) then own
        else Timestamp(prev) + 1
  {
    ClockIs(calls, i + 1);
    StampsOf(calls, i);
    AnswerExactly(ClockAfter(calls, i + 1), calls[i].prev);
    PastExactly(ClockAfter(calls, i + 1), prev);
  }

  /** Of two calls of a run, the later one's TID is newer exactly if it answers with the higher
      timestamp: the clock identifier stays the same. */
  lemma {:induction false} LaterIsNewerExactly(calls: seq<Call>, i: nat, j: nat)
    requires Proper(calls) && i < j < |calls| && ResultOf(calls, i).Ok? && ResultOf(calls, j).Ok?
    ensures ClockAfter(calls, i + 1).clockid.value < 32 && ClockAfter(calls, j + 1).clockid.value < 32
    ensures NewerThan(ResultOf(calls, j).value, ResultOf(calls, i).value) <==>
      AnswerStamp(ClockAfter(calls, i + 1), calls[i].prev) < AnswerStamp(ClockAfter(calls, j + 1), calls[j].prev)
  {
    assert ClockAfter(calls, i + 1).clockid == ClockAfter(calls, j + 1).clockid by { ClockIncreases(calls, i + 1, j + 1); }
    StampsOf(calls, i);
    StampsOf(calls, j);
    NewerByTimestamp(ResultOf(calls, j).value, ResultOf(calls, i).value);
  }

  /** However the clock jumps or stalls, and whatever other calls come between, calls
      without a predecessor answer strictly increasing TIDs. */
  lemma {:induction false} FreshTidsIncrease(calls: seq<Call>, i: nat, j: nat)
    requires Proper(calls) && i < j < |calls| && calls[i].prev.None? && calls[j].prev.None?
    requires ResultOf(calls, i).Ok? && ResultOf(calls, j).Ok?
    ensures NewerThan(ResultOf(calls, j).value, ResultOf(calls, i).value)
  {
    LaterIsNewerExactly(calls, i, j);
    ClockIncreases(calls, i + 1, j + 1);
  }

  /** The two kinds of call do not mix: a call that was pushed past a predecessor in the
      clock's future leaves the clock where it was. A later call without a predecessor is
      newer than it exactly when the clock has passed that predecessor in the meantime. */
  lemma {:induction false} NewerThanPushedExactly(calls: seq<Call>, i: nat, j: nat)
    requires Proper(calls) && i < j < |calls| && calls[i].prev.Some? && calls[j].prev.None?
    requires ResultOf(calls, i).Ok? && ResultOf(calls, j).Ok?
    ensures ClockAfter(calls, i + 1).clockid.value < 32
    ensures NewerThan(ResultOf(calls, j).value, ResultOf(calls, i).value) <==>
      Past(ClockAfter(calls, i + 1), calls[i].prev.value)
      || Timestamp(calls[i].prev.value) + 1 < Stamp(ClockAfter(calls, j + 1))
  {
    var g, h := ClockAfter(calls, i + 1), ClockAfter(calls, j + 1);
    assert Stamp(g) < Stamp(h) by { ClockIncreases(calls, i + 1, j + 1); }
    LaterIsNewerExactly(calls, i, j);
  }

  const NOON: nat := 1_700_000_000_000
  const AHEAD: Tid := Make(1000 * NOON + 1_000_000, 0)
  const PUSHED: seq<Call> := [Call(NOON, 0, Some(AHEAD)), Call(NOON + 1, 0, None)]

  lemma PushedClocks()
    ensures ClockAfter(PUSHED, 1) == Clock(NOON, 0, Some(0)) && ClockAfter(PUSHED, 2) == Clock(NOON + 1, 0, Some(0))
  {
  }

  /** Two calls of a fresh generator that go backwards: a predecessor one second ahead of the
      clock, and then none, a millisecond later. */
  lemma {:induction false} PushedThenOlder()
    ensures Proper(PUSHED) && ResultOf(PUSHED, 0).Ok? && ResultOf(PUSHED, 1).Ok?
    ensures !NewerThan(ResultOf(PUSHED, 1).value, ResultOf(PUSHED, 0).value)
  {
    PushedClocks();
    PastExactly(ClockAfter(PUSHED, 1), AHEAD);
    AnswerExactly(ClockAfter(PUSHED, 1), Some(AHEAD));
    AnswerExactly(ClockAfter(PUSHED, 2), None);
    NewerThanPushedExactly(PUSHED, 0, 1);
  }

  /** Call `at[k]` of the run answers `tids[k]`. */
  predicate Answers(calls: seq<Call>, at: seq<nat>, tids: seq<Tid>, k: nat)
    requires k < |at| == |tids| && Proper(calls)
  {
    at[k] < |calls| && ResultOf(calls, at[k]) == Ok(tids[k])
  }

  /** Call `at[k]` comes after the one before, and is given its answer. */
  predicate Linked(calls: seq<Call>, at: seq<nat>, tids: seq<Tid>, k: nat)
    requires 0 < k < |at| == |tids|
  {
    at[k - 1] < at[k] < |calls| && calls[at[k]].prev == Some(tids[k - 1])
  }

  /** Calls `at` of a run answer `tids`, each given the answer of the one before, as the
      revisions of one repository are. Other calls may come between. */
  ghost predicate Chained(calls: seq<Call>, at: seq<nat>, tids: seq<Tid>) {
    && Proper(calls) && |tids| == |at|
    && (forall k: nat :: k < |at| ==> Answers(calls, at, tids, k))
    && (forall k: nat :: 0 < k < |at| ==> Linked(calls, at, tids, k))
  }

  /** Both are TIDs, and `t` is strictly newer. */
  predicate Follows(t: Tid, prev: Tid) {
    WellFormed(prev) && WellFormed(t) && NewerThan(t, prev)
  }

  lemma ChainStep(calls: seq<Call>, at: seq<nat>, tids: seq<Tid>, k: nat)
    requires Chained(calls, at, tids) && 0 < k < |at|
    ensures Follows(tids[k], tids[k - 1])
  {
    var i, j := at[k - 1], at[k];
    assert Answers(calls, at, tids, k - 1) && Answers(calls, at, tids, k) && Linked(calls, at, tids, k);
    StampsOf(calls, i);
    ClockidSmall(calls, j + 1);
    AnswerIsNewer(ClockAfter(calls, j + 1), tids[k - 1]);
  }

  lemma FollowsNumerically(t: Tid, prev: Tid)
    requires WellFormed(t) && WellFormed(prev)
    ensures Follows(t, prev) <==> Decode(t.str) > Decode(prev.str)
  {
    OrderIsNumeric(prev.str, t.str);
  }

  lemma {:induction false} StepsIncrease(numbers: seq<int>, i: nat, j: nat)
    requires i < j < |numbers| && forall k :: 0 < k < |numbers| ==> numbers[k - 1] < numbers[k]
    ensures numbers[i] < numbers[j]
    decreases j
  {
    assert numbers[j - 1] < numbers[j];
    if i < j - 1 { StepsIncrease(numbers, i, j - 1); }
  }

  lemma Numbers(calls: seq<Call>, at: seq<nat>, tids: seq<Tid>) returns (numbers: seq<int>)
    requires Chained(calls, at, tids)
    ensures |numbers| == |tids| && forall k :: 0 <= k < |tids| ==> WellFormed(tids[k]) && numbers[k] == Decode(tids[k].str)
    ensures forall k :: 0 < k < |numbers| ==> numbers[k - 1] < numbers[k]
  {
    numbers := seq(|tids|, k requires 0 <= k < |tids| => Decode(tids[k].str));
    forall k | 0 <= k < |tids| ensures WellFormed(tids[k]) {
      assert Answers(calls, at, tids, k);
      StampsOf(calls, at[k]);
    }
    forall k | 0 < k < |numbers| ensures numbers[k - 1] < numbers[k] {
      ChainStep(calls, at, tids, k);
      FollowsNumerically(tids[k], tids[k - 1]);
    }
  }

  /** Chained answers strictly increase, under every clock and whatever calls come between. */
  lemma {:induction false} ChainedTidsIncrease(calls: seq<Call>, at: seq<nat>, tids: seq<Tid>, i: nat, j: nat)
    requires Chained(calls, at, tids) && i < j < |at|
    ensures Follows(tids[j], tids[i])
  {
    var numbers := Numbers(calls, at, tids);
    StepsIncrease(numbers, i, j);
    FollowsNumerically(tids[j], tids[i]);
  }
}
