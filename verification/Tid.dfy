/** TIDs of `packages/common-web/src/tid.ts`: a sortable base-32 text for a microsecond
    timestamp and a clock identifier. */
module Tid {
  import opened Wrappers
  import opened Regex
  import Split

  // ------------------------------------------------- the sortable alphabet

  const S32: string := "234567abcdefghijklmnopqrstuvwxyz"

  /** `S32_CHAR.charAt(d)`, by ranges. */
  function Digit(d: int): (c: char)
    requires 0 <= d < 32
    ensures Value(c) == d
  {
    if d < 6 then '2' + d as char else 'a' + (d - 6) as char
  }

  /** `S32_CHAR.indexOf(c)`: -1 for a foreign character. */
  function Value(c: char): int {
    if '2' <= c <= '7' then c as int - '2' as int
    else if 'a' <= c <= 'z' then c as int - 'a' as int + 6
    else -1
  }

  predicate IsDigit(c: char) {
    Value(c) >= 0
  }

  predicate AllDigits(s: string) {
    forall i :: 0 <= i < |s| ==> IsDigit(s[i])
  }

  /** The ranges are the alphabet's. */
  lemma Alphabet()
    ensures |S32| == 32
    ensures forall d :: 0 <= d < 32 ==> S32[d] == Digit(d)
    ensures forall c, d :: 0 <= d < 32 ==> (S32[d] == c <==> Value(c) == d)
  {
    forall d | 0 <= d < 32 ensures S32[d] == Digit(d) {
      if d < 8 { } else if d < 16 { } else if d < 24 { } else { }
    }
  }

  function Encode(i: nat): string {
    if i == 0 then "" else Encode(i / 32) + [Digit(i % 32)]
  }

  function Decode(s: string): int {
    if s == "" then 0 else Decode(s[..|s| - 1]) * 32 + Value(s[|s| - 1])
  }

  /** For the numbers on which the loop ends. */
  method S32Encode(n: nat) returns (s: string)
    ensures s == Encode(n)
  {
    Alphabet();
    s := "";
    var i := n;
    while i != 0
      invariant Encode(n) == Encode(i) + s
    {
      var c := i % 32;
      i := i / 32;
      s := [S32[c]] + s;
    }
  }

  method S32Decode(s: string) returns (i: int)
    ensures i == Decode(s)
  {
    Alphabet();
    i := 0;
    var k := 0;
    while k < |s|
      invariant 0 <= k <= |s| && i == Decode(s[..k])
    {
      assert s[..k + 1][..k] == s[..k];
      i := i * 32 + Value(s[k]);
      k := k + 1;
    }
    assert s[..k] == s;
  }

  /** The number that the encoding loop holds after `n` turns. */
  function Turns(i: int, n: nat): int {
    if n == 0 then i else Turns(i, n - 1) / 32
  }

  lemma {:induction false} TurnsOfNegative(i: int, n: nat)
    requires i < 0
    ensures Turns(i, n) < 0
  {
    if n > 0 { TurnsOfNegative(i, n - 1); }
  }

  lemma {:induction false} TurnsOfNatural(i: nat, n: nat)
    ensures 0 <= Turns(i, n) <= if n < i then i - n else 0
  {
    if n > 0 { TurnsOfNatural(i, n - 1); }
  }

  /** The loop runs until its number is zero: that never happens to a negative one, since
      rounding down stops at -1, and always to any other. */
  lemma {:induction false} EncodeEndsExactly(i: int)
    ensures (exists n: nat :: Turns(i, n) == 0) <==> i >= 0
  {
    if i >= 0 {
      TurnsOfNatural(i, i);
      assert Turns(i, i) == 0;
    } else {
      forall n: nat ensures Turns(i, n) != 0 { TurnsOfNegative(i, n); }
    }
  }

  function Pow32(k: nat): nat {
    if k == 0 then 1 else 32 * Pow32(k - 1)
  }

  lemma {:induction false} DecodeEncode(i: nat)
    ensures Decode(Encode(i)) == i && AllDigits(Encode(i))
  {
    if i != 0 { DecodeEncode(i / 32); }
  }

  /** A number takes `k` digits exactly when it has that magnitude. */
  lemma {:induction false} EncodeLength(i: nat, k: nat)
    requires k >= 1
    ensures |Encode(i)| == k <==> Pow32(k - 1) <= i < Pow32(k)
    ensures |Encode(i)| == 0 <==> i == 0
  {
    if i != 0 {
      if k == 1 {
        EncodeLength(i / 32, 1);
      } else {
        EncodeLength(i / 32, k - 1);
      }
    }
  }

  lemma {:induction false} DecodeBound(s: string)
    requires AllDigits(s)
    ensures 0 <= Decode(s) < Pow32(|s|)
  {
    if s != "" { DecodeBound(s[..|s| - 1]); }
  }

  lemma Scale(a: int, p: int, x: int, v: int)
    ensures (a * p + x) * 32 + v == a * (32 * p) + (x * 32 + v)
  {
  }

  /** Codes are positional. */
  lemma {:induction false} DecodeConcat(s: string, t: string)
    ensures Decode(s + t) == Decode(s) * Pow32(|t|) + Decode(t)
  {
    if t == "" {
      assert s + t == s;
    } else {
      var init, last := t[..|t| - 1], t[|t| - 1];
      DecodeConcat(s, init);
      var u := s + t;
      assert u[..|u| - 1] == s + init && u[|u| - 1] == last;
      Scale(Decode(s), Pow32(|init|), Decode(init), Value(last));
    }
  }

  lemma DecodeOne(c: char)
    ensures Decode([c]) == Value(c)
  {
    assert [c][..0] == "";
  }

  /** A leading digit counts by its place. */
  lemma {:induction false} DecodePrepend(c: char, s: string)
    ensures Decode([c] + s) == Value(c) * Pow32(|s|) + Decode(s)
  {
    DecodeConcat([c], s);
    assert Decode([c]) == Value(c) by { DecodeOne(c); }
  }

  /** JavaScript's `<` on strings. */
  predicate Less(s: string, t: string) {
    if t == "" then false
    else if s == "" then true
    else s[0] < t[0] || (s[0] == t[0] && Less(s[1..], t[1..]))
  }

  lemma DigitOrder(c: char, d: char)
    requires IsDigit(c) && IsDigit(d)
    ensures c < d <==> Value(c) < Value(d)
    ensures c == d <==> Value(c) == Value(d)
  {
  }

  lemma {:induction false} PlaceValue(a: int, b: int, p: int, x: int, y: int)
    requires 0 <= x < p && 0 <= y < p
    ensures a * p + x < b * p + y <==> a < b || (a == b && x < y)
    ensures a * p + x == b * p + y <==> a == b && x == y
  {
    if a < b {
      assert (a + 1) * p <= b * p;
    } else if b < a {
      assert (b + 1) * p <= a * p;
    }
  }

  /** On codes of equal length, string order is numeric order. */
  lemma {:induction false} OrderIsNumeric(s: string, t: string)
    requires |s| == |t| && AllDigits(s) && AllDigits(t)
    ensures Less(s, t) <==> Decode(s) < Decode(t)
    ensures s == t <==> Decode(s) == Decode(t)
  {
    if s != "" {
      var u, v := s[1..], t[1..];
      OrderIsNumeric(u, v);
      assert s == [s[0]] + u && t == [t[0]] + v;
      DecodePrepend(s[0], u);
      DecodePrepend(t[0], v);
      DecodeBound(u);
      DecodeBound(v);
      DigitOrder(s[0], t[0]);
      PlaceValue(Value(s[0]), Value(t[0]), Pow32(|u|), Decode(u), Decode(v));
    }
  }

  /** A code starts with a zero ('2') exactly when it is below its length's magnitude. */
  lemma LeadingDigit(s: string)
    requires s != "" && AllDigits(s)
    ensures s[0] != '2' <==> Decode(s) >= Pow32(|s| - 1)
  {
    assert s == [s[0]] + s[1..];
    DecodePrepend(s[0], s[1..]);
    DecodeBound(s[1..]);
    PlaceValue(Value(s[0]), 1, Pow32(|s| - 1), Decode(s[1..]), 0);
  }

  /** The code of a number is the one without leading zeros. */
  lemma {:induction false} EncodeDecode(s: string)
    requires AllDigits(s)
    ensures Decode(s) >= 0 && (Encode(Decode(s)) == s <==> s == "" || s[0] != '2')
  {
    DecodeBound(s);
    if s != "" {
      var code := Encode(Decode(s));
      DecodeEncode(Decode(s));
      EncodeLength(Decode(s), |s|);
      LeadingDigit(s);
      if |code| == |s| { OrderIsNumeric(s, code); }
    }
  }

  // ------------------------------------------------------------------ TIDs

  const TID_LEN: nat := 13

  datatype Tid = Tid(str: string)

  /** `Endless` is no error that is thrown: the call does not return. */
  datatype TidError = PoorlyFormatted(length: nat) | Endless

  /** `str.replaceAll('-', '')`. */
  function Dedash(str: string): string {
    if str == "" then "" else (if str[0] == '-' then "" else [str[0]]) + Dedash(str[1..])
  }

  /** `new TID(str)`. */
  function New(str: string): Result<Tid, TidError> {
    if |Dedash(str)| == TID_LEN then Ok(Tid(Dedash(str))) else Err(PoorlyFormatted(|Dedash(str)|))
  }

  /** `s.padStart(2, '2')`. */
  function Pad(s: string): string {
    if |s| == 0 then "22" else if |s| == 1 then "2" + s else s
  }

  /** Encoding a negative number does not end. */
  function FromTime(timestamp: int, clockid: int): Result<Tid, TidError> {
    if timestamp < 0 || clockid < 0 then Err(Endless) else New(Encode(timestamp) + Pad(Encode(clockid)))
  }

  function Timestamp(t: Tid): int
    requires |t.str| == TID_LEN
  {
    Decode(t.str[..11])
  }

  function Clockid(t: Tid): int
    requires |t.str| == TID_LEN
  {
    Decode(t.str[11..13])
  }

  function CompareTo(a: Tid, b: Tid): int {
    if Less(b.str, a.str) then 1 else if Less(a.str, b.str) then -1 else 0
  }

  predicate NewerThan(a: Tid, b: Tid) {
    CompareTo(a, b) > 0
  }

  /** `formatted()`. */
  function Formatted(t: Tid): string
    requires |t.str| == TID_LEN
  {
    t.str[..4] + "-" + t.str[4..7] + "-" + t.str[7..11] + "-" + t.str[11..13]
  }

  lemma DedashCons(c: char, t: string)
    ensures Dedash([c] + t) == (if c == '-' then "" else [c]) + Dedash(t)
  {
    assert ([c] + t)[1..] == t;
  }

  lemma {:induction false} DedashConcat(s: string, t: string)
    ensures Dedash(s + t) == Dedash(s) + Dedash(t)
  {
    if s == "" {
      assert s + t == t;
    } else {
      var c, u := s[0], s[1..];
      DedashConcat(u, t);
      DedashCons(c, u + t);
      DedashCons(c, u);
      assert s == [c] + u && s + t == [c] + (u + t);
      assert (if c == '-' then "" else [c]) + (Dedash(u) + Dedash(t)) == (if c == '-' then "" else [c]) + Dedash(u) + Dedash(t);
    }
  }

  lemma {:induction false} DedashNone(s: string)
    requires '-' !in s
    ensures Dedash(s) == s
  {
    if s != "" { DedashNone(s[1..]); }
  }

  lemma {:induction false} DedashCounts(s: string)
    ensures |Dedash(s)| == |s| - multiset(s)['-'] && '-' !in Dedash(s)
  {
    if s != "" {
      DedashCounts(s[1..]);
      assert s == [s[0]] + s[1..];
    }
  }

  /** A text is a TID exactly if it has thirteen characters besides hyphens, and else the error
      says how many. */
  lemma {:induction false} NewExactly(str: string)
    ensures var n := |str| - multiset(str)['-'];
      match New(str)
      case Ok(t) => n == 13 && '-' !in t.str && |t.str| == 13
      case Err(e) => n != 13 && e == PoorlyFormatted(n)
  {
    DedashCounts(str);
  }

  /** Hyphens anywhere make no difference. */
  lemma {:induction false} HyphenIsIgnored(s: string, t: string)
    ensures New(s + "-" + t) == New(s + t)
  {
    DedashConcat(s + "-", t);
    DedashConcat(s, "-");
    DedashConcat(s, t);
    assert Dedash("-") == "" by { assert "-"[1..] == ""; }
    assert Dedash(s) + "" == Dedash(s);
  }

  /** So a TID is read back from its formatted text. */
  lemma {:induction false} FormattedReads(t: Tid)
    requires |t.str| == TID_LEN && '-' !in t.str
    ensures New(Formatted(t)) == Ok(t)
  {
    var a, b, c, d := t.str[..4], t.str[4..7], t.str[7..11], t.str[11..13];
    HyphenIsIgnored(a, b + "-" + c + "-" + d);
    HyphenIsIgnored(a + b, c + "-" + d);
    HyphenIsIgnored(a + b + c, d);
    assert Formatted(t) == a + "-" + (b + "-" + c + "-" + d);
    assert a + (b + "-" + c + "-" + d) == a + b + "-" + (c + "-" + d);
    assert a + b + (c + "-" + d) == a + b + c + "-" + d;
    assert t.str == a + b + c + d;
    DedashNone(t.str);
  }

  /** Thirteen characters of the alphabet. */
  predicate WellFormed(t: Tid) {
    |t.str| == TID_LEN && AllDigits(t.str)
  }

  const MIN_TIMESTAMP: nat := 0x4_0000_0000_0000
  const MAX_TIMESTAMP: nat := 0x80_0000_0000_0000

  /** The eleven-character timestamps: 2^50 up to 2^55 microseconds. */
  predicate InRange(timestamp: int) {
    MIN_TIMESTAMP <= timestamp < MAX_TIMESTAMP
  }

  lemma Powers()
    ensures Pow32(1) == 32 && Pow32(2) == 1024 && Pow32(10) == MIN_TIMESTAMP && Pow32(11) == MAX_TIMESTAMP
  {
    assert Pow32(5) == 0x200_0000;
    assert Pow32(8) == 0x200_0000 * 0x8000;
  }

  lemma {:induction false} DedashDigits(s: string)
    requires AllDigits(s)
    ensures Dedash(s) == s
  {
    if s != "" {
      DedashDigits(s[1..]);
      assert s == [s[0]] + s[1..];
    }
  }

  lemma PadDigits(clockid: nat)
    requires clockid < 1024
    ensures var c := Pad(Encode(clockid)); |c| == 2 && AllDigits(c) && Decode(c) == clockid
  {
    var e := Encode(clockid);
    Powers();
    EncodeLength(clockid, 1);
    EncodeLength(clockid, 2);
    DecodeEncode(clockid);
    if |e| == 0 {
      assert Decode("22") == 0 by { assert "22"[..1] == "2" && "2"[..0] == ""; }
    } else if |e| == 1 {
      assert "2" + e == ['2'] + e;
      DecodePrepend('2', e);
    }
  }

  lemma CodeDigits(timestamp: nat, clockid: nat)
    requires clockid < 1024
    ensures Dedash(Encode(timestamp) + Pad(Encode(clockid))) == Encode(timestamp) + Pad(Encode(clockid))
  {
    DecodeEncode(timestamp);
    PadDigits(clockid);
    DedashDigits(Encode(timestamp) + Pad(Encode(clockid)));
  }

  /** A timestamp and a clock identifier of two characters make a TID exactly when the timestamp
      takes eleven, and are read back from it. */
  lemma FromTimeShort(timestamp: nat, clockid: nat)
    requires clockid < 1024
    ensures FromTime(timestamp, clockid).Ok? <==> InRange(timestamp)
    ensures InRange(timestamp) ==>
      var t := FromTime(timestamp, clockid).value;
      WellFormed(t) && t.str[0] != '2' && Timestamp(t) == timestamp && Clockid(t) == clockid
  {
    var e, c := Encode(timestamp), Pad(Encode(clockid));
    CodeDigits(timestamp, clockid);
    RangeIsEleven(timestamp);
    PadDigits(clockid);
    if InRange(timestamp) {
      ReadBack(e, c);
      LeadingDigit(e);
    }
  }

  lemma LongClockid(clockid: nat)
    requires clockid >= 1024
    ensures var c := Encode(clockid); |c| >= 3 && Pad(c) == c && AllDigits(c) && c[0] != '2'
  {
    var c := Encode(clockid);
    Powers();
    EncodeLength(clockid, 1);
    EncodeLength(clockid, 2);
    DecodeEncode(clockid);
    EncodeDecode(c);
  }

  lemma OverlongReads(e: string, c: string)
    requires |e| + |c| == TID_LEN && |c| >= 3 && AllDigits(e) && AllDigits(c) && c[0] != '2'
    ensures WellFormed(Tid(e + c)) && Timestamp(Tid(e + c)) != Decode(e)
  {
    var h := c[..|c| - 2];
    assert (e + c)[..11] == e + h;
    ShiftedIsMore(e, h);
  }

  lemma {:induction false} PowPositive(k: nat)
    ensures Pow32(k) >= 1
  {
    if k > 0 { PowPositive(k - 1); }
  }

  lemma ShiftedIsMore(e: string, h: string)
    requires AllDigits(e) && AllDigits(h) && h != "" && h[0] != '2'
    ensures Decode(e + h) > Decode(e)
  {
    DecodeConcat(e, h);
    assert Decode(h) >= 1 by {
      LeadingDigit(h);
      PowPositive(|h| - 1);
    }
    assert Decode(e) >= 0 by { DecodeBound(e); }
    assert Pow32(|h|) >= 1 by { PowPositive(|h|); }
    Shifted(Decode(e), Pow32(|h|), Decode(h));
  }

  lemma Shifted(a: int, p: int, x: int)
    requires a >= 0 && p >= 1 && x >= 1
    ensures a * p + x > a
  {
    assert a * (p - 1) >= 0;
  }

  /** A longer clock identifier leaves fewer characters for the timestamp, and then that is not
      read back. */
  lemma FromTimeLong(timestamp: nat, clockid: nat)
    requires clockid >= 1024
    ensures FromTime(timestamp, clockid).Ok? <==> |Encode(timestamp)| + |Encode(clockid)| == TID_LEN
    ensures FromTime(timestamp, clockid).Ok? ==>
      var t := FromTime(timestamp, clockid).value; WellFormed(t) && Timestamp(t) != timestamp
  {
    var e, c := Encode(timestamp), Encode(clockid);
    DecodeEncode(timestamp);
    LongClockid(clockid);
    DedashDigits(e + c);
    if |e| + |c| == TID_LEN { OverlongReads(e, c); }
  }

  /** All of `fromTime`: it makes a TID exactly of natural numbers whose codes take thirteen
      characters, and both are read back exactly if the clock identifier takes two of them. */
  lemma {:induction false} FromTimeRoundTrip(timestamp: int, clockid: int)
    ensures FromTime(timestamp, clockid).Ok? <==>
      0 <= timestamp && 0 <= clockid && if clockid < 1024 then InRange(timestamp) else |Encode(timestamp)| + |Encode(clockid)| == TID_LEN
    ensures FromTime(timestamp, clockid).Ok? ==>
      var t := FromTime(timestamp, clockid).value;
      WellFormed(t) && (Timestamp(t) == timestamp && Clockid(t) == clockid <==> clockid < 1024)
  {
    if 0 <= timestamp && 0 <= clockid < 1024 {
      FromTimeShort(timestamp, clockid);
    } else if 0 <= timestamp && 0 <= clockid {
      FromTimeLong(timestamp, clockid);
    }
  }

  lemma RangeIsEleven(timestamp: nat)
    ensures |Encode(timestamp)| == 11 <==> InRange(timestamp)
    ensures AllDigits(Encode(timestamp)) && Decode(Encode(timestamp)) == timestamp
    ensures InRange(timestamp) ==> timestamp >= Pow32(10)
  {
    Powers();
    EncodeLength(timestamp, 11);
    DecodeEncode(timestamp);
  }

  lemma ReadBack(e: string, c: string)
    requires |e| == 11 && |c| == 2 && AllDigits(e) && AllDigits(c)
    ensures WellFormed(Tid(e + c)) && Timestamp(Tid(e + c)) == Decode(e) && Clockid(Tid(e + c)) == Decode(c)
  {
    assert (e + c)[..11] == e && (e + c)[11..13] == c;
  }

  /** The TID of an in-range timestamp. */
  function Make(timestamp: nat, clockid: nat): (t: Tid)
    requires InRange(timestamp) && clockid < 1024
    ensures FromTime(timestamp, clockid) == Ok(t)
    ensures WellFormed(t) && t.str[0] != '2' && Timestamp(t) == timestamp && Clockid(t) == clockid
  {
    FromTimeShort(timestamp, clockid);
    FromTime(timestamp, clockid).value
  }

  /** Conversely a TID is rebuilt from its two parts exactly when its timestamp takes all
      eleven characters. */
  lemma ToFromTime(t: Tid)
    requires WellFormed(t)
    ensures Timestamp(t) >= 0 && 0 <= Clockid(t) < 1024
    ensures FromTime(Timestamp(t), Clockid(t)) == Ok(t) <==> t.str[0] != '2'
  {
    var e, c := t.str[..11], t.str[11..13];
    Powers();
    DecodeBound(e);
    DecodeBound(c);
    assert t.str == e + c;
    FromTimeShort(Timestamp(t), Clockid(t));
    LeadingDigit(e);
    if InRange(Timestamp(t)) {
      var u := FromTime(Timestamp(t), Clockid(t)).value;
      OrderIsNumeric(u.str[..11], e);
      OrderIsNumeric(u.str[11..13], c);
      assert u.str == u.str[..11] + u.str[11..13];
    }
  }

  /** Comparison is by timestamp, then by clock identifier. */
  lemma CompareIsLexicographic(a: Tid, b: Tid)
    requires WellFormed(a) && WellFormed(b)
    ensures NewerThan(a, b) <==>
      Timestamp(a) > Timestamp(b) || (Timestamp(a) == Timestamp(b) && Clockid(a) > Clockid(b))
    ensures CompareTo(a, b) == 0 <==> a == b
    ensures CompareTo(a, b) == -CompareTo(b, a)
  {
    assert a.str == a.str[..11] + a.str[11..13] && b.str == b.str[..11] + b.str[11..13];
    DecodeConcat(a.str[..11], a.str[11..13]);
    DecodeConcat(b.str[..11], b.str[11..13]);
    DecodeBound(a.str[11..13]);
    DecodeBound(b.str[11..13]);
    OrderIsNumeric(a.str, b.str);
    OrderIsNumeric(b.str, a.str);
    PlaceValue(Timestamp(a), Timestamp(b), Pow32(2), Clockid(a), Clockid(b));
    PlaceValue(Timestamp(b), Timestamp(a), Pow32(2), Clockid(b), Clockid(a));
  }

  // ---------------------------------------------- the syntax of valid TIDs

  const ANY: set<char> := set c: char | c in S32
  const FIRST: set<char> := set c: char | c in "234567abcdefghij"

  /** `/^[234567abcdefghij][234567abcdefghijklmnopqrstuvwxyz]{12}$/` */
  const TID_REGEX: Regex := Seq(Chars(FIRST), Repeat(Chars(ANY), 12, 12))

  ghost predicate IsValidTid(s: string) {
    |s| == TID_LEN && Matches(TID_REGEX, s)
  }

  lemma FirstChars(c: char)
    ensures c in FIRST <==> 0 <= Value(c) < 16
    ensures c in ANY <==> IsDigit(c)
  {
    Alphabet();
    var first := "234567abcdefghij";
    assert first == S32[..16];
    if c in first {
      var d :| 0 <= d < 16 && first[d] == c;
      assert S32[d] == c;
    }
    if 0 <= Value(c) < 16 { assert first[Value(c)] == S32[Value(c)]; }
    if IsDigit(c) { assert S32[Value(c)] == c; }
  }

  lemma AllAny(s: string)
    ensures AllIn(s, ANY) <==> AllDigits(s)
  {
    forall i | 0 <= i < |s| ensures s[i] in ANY <==> IsDigit(s[i]) { FirstChars(s[i]); }
  }

  lemma TidRegexShape(x: char, y: string)
    ensures Matches(TID_REGEX, [x] + y) <==> x in FIRST && |y| == 12 && AllIn(y, ANY)
  {
    var s := [x] + y;
    if Matches(TID_REGEX, s) {
      var u, v := Split.SeqCut(Chars(FIRST), Repeat(Chars(ANY), 12, 12), s);
      RepeatChars(ANY, 12, 12, v);
      assert s[0] == u[0] == x && s[1..] == v == y;
    }
    if x in FIRST && |y| == 12 && AllIn(y, ANY) {
      RepeatChars(ANY, 12, 12, y);
      Split.SeqJoin(Chars(FIRST), Repeat(Chars(ANY), 12, 12), [x], y);
    }
  }

  lemma TidRegexMatches(s: string)
    requires |s| == TID_LEN
    ensures Matches(TID_REGEX, s) <==> Value(s[0]) < 16 && AllDigits(s)
  {
    var y := s[1..];
    assert s == [s[0]] + y;
    TidRegexShape(s[0], y);
    FirstChars(s[0]);
    AllAny(y);
    assert AllDigits(s) <==> IsDigit(s[0]) && AllDigits(y) by {
      assert forall i :: 1 <= i < |s| ==> s[i] == y[i - 1];
    }
  }

  /** The TIDs of timestamps below 2^54 are syntactically valid, and no others are. */
  lemma ValidExactlyBelow(timestamp: nat, clockid: nat)
    requires clockid < 1024 && InRange(timestamp)
    ensures IsValidTid(Make(timestamp, clockid).str) <==> timestamp < 0x40_0000_0000_0000
  {
    var t := Make(timestamp, clockid);
    var e := t.str[..11];
    TidRegexMatches(t.str);
    Powers();
    assert e == [e[0]] + e[1..];
    DecodePrepend(e[0], e[1..]);
    DecodeBound(e[1..]);
    PlaceValue(Value(e[0]), 16, Pow32(10), Decode(e[1..]), 0);
  }
}
