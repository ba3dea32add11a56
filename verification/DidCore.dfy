/** The hand-written DID scanner of `packages/did/src/did.ts`, against the ABNF in its
    documentation, and against the DID validator of `packages/syntax`. */
module DidCore {
  import opened Wrappers
  import opened Regex
  import opened Split
  import Syntax

  const METHOD_CHAR: set<char> := Syntax.LOWER + Syntax.DIGIT
  const PLAIN: set<char> := Syntax.ALNUM + {'.', '-', '_'}
  const HEXDIG: set<char> := Syntax.DIGIT + set c: char | 'A' <= c <= 'F'

  // ------------------------------------------------------------ the grammar

  const IDCHAR: Regex := Alt(Chars(PLAIN), Seq(Lit('%'), Seq(Chars(HEXDIG), Chars(HEXDIG))))
  const SECTION: Regex := Seq(Star(IDCHAR), Lit(':'))

  /** method-specific-id = *( *idchar ":" ) 1*idchar */
  const MSID: Regex := Seq(Star(SECTION), Plus(IDCHAR))

  const DID: Regex := Seq(Word("did:"), Seq(Plus(Chars(METHOD_CHAR)), Seq(Lit(':'), MSID)))

  // ------------------------------------------------------------ the scanner

  datatype DidError =
    | BadRange | EmptyMethod | MethodCharacter(position: int) | EmptyMsid | EndsWithColon
    | PercentCharacter(position: int) | PercentIncomplete(position: int) | Disallowed(position: int)
    | DidTooLong | DidPrefix | MissingColon

  /** `input.charCodeAt(i)`, which is NaN outside the string. */
  function CharCodeAt(input: string, i: int): Option<char> {
    if 0 <= i < |input| then Some(input[i]) else None
  }

  /** `c < low || c > high`, which is false of NaN. */
  predicate Outside(c: Option<char>, low: char, high: char) {
    c.Some? && (c.value < low || c.value > high)
  }

  predicate NotHex(c: Option<char>) {
    Outside(c, '0', '9') && Outside(c, 'A', 'F')
  }

  function Clip(s: string, start: int, end: int): string
    requires start <= end <= |s| && 0 <= end
  {
    s[if start < 0 then 0 else start..end]
  }

  /** Checks the characters in `[start, end)`. A negative `start` is let through, and the
      positions before the string pass every test. */
  method AssertDidMethod(input: string, start: int, end: int) returns (error: Option<DidError>)
    ensures error == Some(BadRange) <==> end < start || end > |input|
    ensures error == Some(EmptyMethod) <==> end == start && end <= |input|
    ensures error.None? <==> start < end <= |input| && (end <= 0 || AllIn(Clip(input, start, end), METHOD_CHAR))
    ensures error.Some? ==> error.value.BadRange? || error.value.EmptyMethod? || error.value.MethodCharacter?
    ensures error.Some? && error.value.MethodCharacter? ==>
      var i := error.value.position;
      0 <= i && start <= i < end && input[i] !in METHOD_CHAR && forall k :: 0 <= k && start <= k < i ==> input[k] in METHOD_CHAR
  {
    if end < start || end > |input| {
      return Some(BadRange);
    }
    if end == start {
      return Some(EmptyMethod);
    }
    var i := start;
    while i < end
      invariant start <= i <= end
      invariant forall k :: start <= k < i && 0 <= k ==> input[k] in METHOD_CHAR
    {
      var c := CharCodeAt(input, i);
      if Outside(c, 'a', 'z') && Outside(c, '0', '9') {
        assert end > 0 ==> Clip(input, start, end)[i - if start < 0 then 0 else start] == input[i];
        return Some(MethodCharacter(i));
      }
      i := i + 1;
    }
    return None;
  }

  /** The method-specific-id grammar as a scan: plain characters, colons that are not last,
      and percent signs with two upper-case hex digits. */
  predicate Units(s: string) {
    if s == "" then true
    else if s[0] in PLAIN then Units(s[1..])
    else if s[0] == ':' then s[1..] != "" && Units(s[1..])
    else s[0] == '%' && |s| >= 3 && s[1] in HEXDIG && s[2] in HEXDIG && Units(s[3..])
  }

  /** What is left of the range `[i, end)` scans; there is nothing to scan before the string. */
  predicate Scans(input: string, i: int, end: int)
    requires i <= end <= |input|
  {
    end <= 0 || Units(Clip(input, i, end))
  }

  lemma ScansPlain(input: string, i: int, end: int)
    requires i < end <= |input| && (i < 0 || input[i] in PLAIN)
    ensures Scans(input, i, end) <==> Scans(input, i + 1, end)
  {
    if i >= 0 { assert Clip(input, i, end)[1..] == Clip(input, i + 1, end); }
  }

  lemma ScansColon(input: string, i: int, end: int)
    requires 0 <= i < end <= |input| && input[i] == ':'
    ensures Scans(input, i, end) <==> i + 1 < end && Scans(input, i + 1, end)
  {
    assert Clip(input, i, end)[1..] == Clip(input, i + 1, end);
  }

  lemma ScansPercent(input: string, i: int, end: int)
    requires 0 <= i < end <= |input| && input[i] == '%'
    ensures Scans(input, i, end) <==>
      i + 2 < end && input[i + 1] in HEXDIG && input[i + 2] in HEXDIG && Scans(input, i + 3, end)
  {
    if i + 2 < end { assert Clip(input, i, end)[3..] == Clip(input, i + 3, end); }
  }

  /** The same on character codes, as the look-ahead tests them. */
  lemma ScansEscape(input: string, i: int, end: int)
    requires 0 <= i < end <= |input| && input[i] == '%'
    ensures Scans(input, i, end) <==>
      i + 2 < end && !NotHex(CharCodeAt(input, i + 1)) && !NotHex(CharCodeAt(input, i + 2)) && Scans(input, i + 3, end)
  {
    ScansPercent(input, i, end);
  }

  lemma ScansNothingElse(input: string, i: int, end: int)
    requires 0 <= i < end <= |input| && input[i] !in PLAIN && input[i] != ':' && input[i] != '%'
    ensures !Scans(input, i, end)
  {
  }

  /** What is wrong where an error points to. */
  predicate RightComplaint(input: string, start: int, end: int, e: DidError) {
    match e
    case BadRange => end < start || end > |input|
    case EmptyMsid => start == end
    case EndsWithColon => 0 < end <= |input| && input[end - 1] == ':'
    case Disallowed(i) => 0 <= i < |input| && start <= i < end && input[i] !in PLAIN + {':', '%'}
    case PercentIncomplete(i) => 0 <= i < |input| && start <= i < end <= i + 2 && input[i] == '%'
    case PercentCharacter(i) =>
      && NotHex(CharCodeAt(input, i))
      && ((start < i && CharCodeAt(input, i - 1) == Some('%')) || (start < i - 1 && CharCodeAt(input, i - 2) == Some('%')))
    case _ => false
  }

  lemma EscapeComplaint(input: string, start: int, end: int, i: int, at: int)
    requires 0 <= i < |input| && start <= i < end && input[i] == '%' && i < at <= i + 2
    ensures NotHex(CharCodeAt(input, at)) ==> RightComplaint(input, start, end, PercentCharacter(at))
    ensures end <= i + 2 ==> RightComplaint(input, start, end, PercentIncomplete(i))
  {
  }

  method AssertDidMsid(input: string, start: int, end: int) returns (error: Option<DidError>)
    ensures error == Some(BadRange) <==> end < start || end > |input|
    ensures error == Some(EmptyMsid) <==> end == start && end <= |input|
    ensures error.None? <==> start < end <= |input| && Scans(input, start, end)
    ensures error.Some? ==> RightComplaint(input, start, end, error.value)
  {
    if end < start || end > |input| {
      return Some(BadRange);
    }
    if end == start {
      return Some(EmptyMsid);
    }
    var i := start;
    while i < end
      invariant start <= i <= end
      invariant Scans(input, start, end) <==> Scans(input, i, end)
    {
      var c := CharCodeAt(input, i);
      if Outside(c, 'a', 'z') && Outside(c, 'A', 'Z') && Outside(c, '0', '9')
         && c != Some('.') && c != Some('-') && c != Some('_') {
        if c == Some(':') {
          ScansColon(input, i, end);
          if i == end - 1 {
            return Some(EndsWithColon);
          }
          i := i + 1;
          continue;
        }
        if c == Some('%') {
          ScansEscape(input, i, end);
          EscapeComplaint(input, start, end, i, i + 1);
          EscapeComplaint(input, start, end, i, i + 2);
          i := i + 1;
          c := CharCodeAt(input, i);
          if NotHex(c) {
            return Some(PercentCharacter(i));
          }
          i := i + 1;
          c := CharCodeAt(input, i);
          if NotHex(c) {
            return Some(PercentCharacter(i));
          }
          if i >= end {
            return Some(PercentIncomplete(i - 2));
          }
          i := i + 1;
          continue;
        }
        ScansNothingElse(input, i, end);
        return Some(Disallowed(i));
      }
      ScansPlain(input, i, end);
      i := i + 1;
    }
    return None;
  }

  /** `input.indexOf(':', from)`, or None for -1. */
  method IndexOfColon(input: string, from: nat) returns (at: Option<nat>)
    ensures at.None? ==> forall k :: from <= k < |input| ==> input[k] != ':'
    ensures at.Some? ==> from <= at.value < |input| && input[at.value] == ':'
    ensures at.Some? ==> forall k :: from <= k < at.value ==> input[k] != ':'
  {
    var i := from;
    while i < |input|
      invariant from <= i
      invariant forall k :: from <= k < i && k < |input| ==> input[k] != ':'
    {
      if input[i] == ':' {
        return Some(i);
      }
      i := i + 1;
    }
    return None;
  }

  /** Accepts exactly the strings of at most 2048 characters that the ABNF derives. */
  method AssertDid(input: string) returns (error: Option<DidError>)
    ensures error.None? <==> |input| <= 2048 && Matches(DID, input)
    ensures error != Some(BadRange)
    ensures error == Some(DidTooLong) <==> |input| > 2048
    ensures error == Some(DidPrefix) <==> |input| <= 2048 && !("did:" <= input)
    ensures error == Some(MissingColon) <==> |input| <= 2048 && "did:" <= input && forall k :: 4 <= k < |input| ==> input[k] != ':'
  {
    if |input| > 2048 {
      return Some(DidTooLong);
    }
    if Matches(DID, input) { MatchHasColons(input); }
    if !("did:" <= input) {
      return Some(DidPrefix);
    }
    var idSep := IndexOfColon(input, 4);
    if idSep.None? {
      return Some(MissingColon);
    }
    var at := idSep.value;
    MatchesAt(input, at);
    assert at > 4 ==> Clip(input, 4, at) == input[4..at];
    assert Clip(input, at + 1, |input|) == input[at + 1..];
    error := AssertDidMethod(input, 4, at);
    if error.Some? {
      return;
    }
    error := AssertDidMsid(input, at + 1, |input|);
  }

  // ---------------------------------------------- the scanner and the grammar

  /** A DID cut at the colons around its method. */
  ghost predicate Cut(s: string, m: string, r: string) {
    s == "did:" + m + [':'] + r && m != "" && AllIn(m, METHOD_CHAR) && r != "" && Units(r)
  }

  lemma IdcharUnit(u: string, t: string)
    requires Matches(IDCHAR, u) && Units(t)
    ensures u != "" && Units(u + t)
  {
    if u !in Lang(Chars(PLAIN)) {
      var p, h := SeqCut(Lit('%'), Seq(Chars(HEXDIG), Chars(HEXDIG)), u);
      LitLang('%');
      var x, y := SeqCut(Chars(HEXDIG), Chars(HEXDIG), h);
      assert u == ['%', x[0], y[0]];
      assert (u + t)[3..] == t;
    } else {
      assert (u + t)[1..] == t;
    }
  }

  lemma {:induction false} IdcharsUnits(n: nat, w: string, t: string)
    requires w in Power(Lang(IDCHAR), n) && Units(t)
    ensures Units(w + t) && (n > 0 ==> w != "")
  {
    if n == 0 {
      assert w + t == t;
    } else {
      var x, y := CatSplit(Lang(IDCHAR), Power(Lang(IDCHAR), n - 1), w);
      IdcharsUnits(n - 1, y, t);
      IdcharUnit(x, y + t);
      assert w + t == x + (y + t);
    }
  }

  lemma SectionUnits(w: string, t: string)
    requires Matches(SECTION, w) && t != "" && Units(t)
    ensures Units(w + t)
  {
    var x, y := SeqCut(Star(IDCHAR), Lit(':'), w);
    assert y == [':'] by { LitLang(':'); }
    var n := StarPower(IDCHAR, x);
    var rest := [':'] + t;
    assert rest[1..] == t;
    IdcharsUnits(n, x, rest);
    assert w + t == x + rest;
  }

  lemma StarPower(r: Regex, s: string) returns (n: nat)
    requires Matches(Star(r), s)
    ensures s in Power(Lang(r), n)
  {
    n :| s in Power(Lang(r), n);
  }

  /** Words of `a` may stand before anything that scans. */
  ghost predicate Prefixes(a: Language) {
    forall x, t :: x in a && t != "" && Units(t) ==> Units(x + t)
  }

  lemma SectionsPrefix()
    ensures Prefixes(Lang(SECTION))
  {
    forall x, t | x in Lang(SECTION) && t != "" && Units(t) ensures Units(x + t) {
      assert Matches(SECTION, x);
      SectionUnits(x, t);
    }
  }

  lemma {:induction false} PowersPrefix(a: Language, n: nat, w: string, t: string)
    requires Prefixes(a) && w in Power(a, n) && t != "" && Units(t)
    ensures Units(w + t)
  {
    if n == 0 {
      assert w + t == t;
    } else {
      var x, y := CatSplit(a, Power(a, n - 1), w);
      PowersPrefix(a, n - 1, y, t);
      assert w + t == x + (y + t);
    }
  }

  lemma MsidUnits(s: string)
    requires Matches(MSID, s)
    ensures s != "" && Units(s)
  {
    var w, t := SeqCut(Star(SECTION), Plus(IDCHAR), s);
    var n := PlusPower(IDCHAR, t);
    IdcharsUnits(n, t, "");
    assert t + "" == t;
    var k: nat :| w in Power(Lang(SECTION), k);
    SectionsPrefix();
    PowersPrefix(Lang(SECTION), k, w, t);
  }

  lemma StarEmpty(r: Regex)
    ensures Matches(Star(r), "")
  {
    assert "" in Power(Lang(r), 0);
  }

  lemma StarPrepend(r: Regex, x: string, y: string)
    requires Matches(r, x) && Matches(Star(r), y)
    ensures Matches(Star(r), x + y)
  {
    var n: nat :| y in Power(Lang(r), n);
    CatJoin(Lang(r), Power(Lang(r), n), x, y);
    assert x + y in Power(Lang(r), n + 1);
  }

  lemma MsidOfIdchars(s: string)
    requires Matches(Plus(IDCHAR), s)
    ensures Matches(MSID, s)
  {
    StarEmpty(SECTION);
    SeqJoin(Star(SECTION), Plus(IDCHAR), "", s);
    assert s == "" + s;
  }

  lemma IdcharsPrepend(u: string, t: string)
    requires Matches(IDCHAR, u) && (t == "" || Matches(Plus(IDCHAR), t))
    ensures Matches(Plus(IDCHAR), u + t)
  {
    StarEmpty(IDCHAR);
    if t != "" {
      var x, y := SeqCut(IDCHAR, Star(IDCHAR), t);
      StarPrepend(IDCHAR, x, y);
    }
    SeqJoin(IDCHAR, Star(IDCHAR), u, t);
  }

  lemma SectionsPrepend(u: string, w: string, n: nat)
    requires Matches(IDCHAR, u) && n > 0 && w in Power(Lang(SECTION), n)
    ensures Matches(Star(SECTION), u + w)
  {
    var x, y := CatSplit(Lang(SECTION), Power(Lang(SECTION), n - 1), w);
    assert Matches(Star(SECTION), y);
    SectionPrepend(u, x);
    StarPrepend(SECTION, u + x, y);
    assert u + w == u + x + y;
  }

  lemma MsidPrependToIdchars(u: string, t: string)
    requires Matches(IDCHAR, u) && Matches(Plus(IDCHAR), t)
    ensures Matches(MSID, u + t)
  {
    IdcharsPrepend(u, t);
    MsidOfIdchars(u + t);
  }

  lemma MsidPrependToSections(u: string, w: string, n: nat, t: string)
    requires Matches(IDCHAR, u) && n > 0 && w in Power(Lang(SECTION), n) && Matches(Plus(IDCHAR), t)
    ensures Matches(MSID, u + (w + t))
  {
    SectionsPrepend(u, w, n);
    SeqJoin(Star(SECTION), Plus(IDCHAR), u + w, t);
    assert u + (w + t) == u + w + t;
  }

  /** An idchar before a method-specific-id, or alone, is a method-specific-id. */
  lemma MsidPrependIdchar(u: string, s: string)
    requires Matches(IDCHAR, u) && (s == "" || Matches(MSID, s))
    ensures Matches(MSID, u + s)
  {
    if s == "" {
      IdcharsPrepend(u, "");
      MsidOfIdchars(u + s);
    } else {
      var w, t := SeqCut(Star(SECTION), Plus(IDCHAR), s);
      var n := StarPower(SECTION, w);
      if n == 0 {
        assert s == t;
        MsidPrependToIdchars(u, t);
      } else {
        MsidPrependToSections(u, w, n, t);
      }
    }
  }

  lemma SectionPrepend(u: string, x: string)
    requires Matches(IDCHAR, u) && Matches(SECTION, x)
    ensures Matches(SECTION, u + x)
  {
    var ids, colon := SeqCut(Star(IDCHAR), Lit(':'), x);
    StarPrepend(IDCHAR, u, ids);
    SeqJoin(Star(IDCHAR), Lit(':'), u + ids, colon);
    assert u + x == u + ids + colon;
  }

  lemma MsidPrependColon(s: string)
    requires Matches(MSID, s)
    ensures Matches(MSID, [':'] + s)
  {
    var w, t := SeqCut(Star(SECTION), Plus(IDCHAR), s);
    LitLang(':');
    StarEmpty(IDCHAR);
    SeqJoin(Star(IDCHAR), Lit(':'), "", [':']);
    assert "" + [':'] == [':'];
    StarPrepend(SECTION, [':'], w);
    SeqJoin(Star(SECTION), Plus(IDCHAR), [':'] + w, t);
    assert [':'] + s == [':'] + w + t;
  }

  lemma {:induction false} UnitsMsid(s: string)
    requires s != "" && Units(s)
    ensures Matches(MSID, s)
    decreases |s|
  {
    if s[0] in PLAIN {
      if s[1..] != "" { UnitsMsid(s[1..]); }
      assert Matches(IDCHAR, s[..1]);
      MsidPrependIdchar(s[..1], s[1..]);
      assert s == s[..1] + s[1..];
    } else if s[0] == ':' {
      UnitsMsid(s[1..]);
      MsidPrependColon(s[1..]);
      assert s == [':'] + s[1..];
    } else {
      if s[3..] != "" { UnitsMsid(s[3..]); }
      LitLang('%');
      SeqJoin(Chars(HEXDIG), Chars(HEXDIG), s[1..2], s[2..3]);
      SeqJoin(Lit('%'), Seq(Chars(HEXDIG), Chars(HEXDIG)), s[..1], s[1..2] + s[2..3]);
      assert Matches(IDCHAR, s[..1] + (s[1..2] + s[2..3]));
      assert s[..1] + (s[1..2] + s[2..3]) == s[..3];
      MsidPrependIdchar(s[..3], s[3..]);
      assert s == s[..3] + s[3..];
    }
  }

  /** The scan accepts exactly the non-empty strings that `method-specific-id` derives. */
  lemma ScanIsGrammar(s: string)
    ensures Matches(MSID, s) <==> s != "" && Units(s)
  {
    if Matches(MSID, s) { MsidUnits(s); }
    if s != "" && Units(s) { UnitsMsid(s); }
  }

  lemma MatchCut(s: string) returns (m: string, r: string)
    requires Matches(DID, s)
    ensures Cut(s, m, r)
  {
    var w, c;
    w, m, c, r := SeqCutFour(Word("did:"), Plus(Chars(METHOD_CHAR)), Lit(':'), MSID, s);
    assert w == "did:" by { WordMatches("did:", w); }
    assert c == [':'] by { LitLang(':'); }
    Syntax.PlusChars(METHOD_CHAR, m);
    ScanIsGrammar(r);
  }

  lemma MatchHasColons(s: string)
    requires Matches(DID, s)
    ensures "did:" <= s && exists k :: 4 <= k < |s| && s[k] == ':'
  {
    var m, r := MatchCut(s);
    assert s[4 + |m|] == ':';
  }

  lemma PrefixMatch(t: string)
    requires Matches(Seq(Plus(Chars(METHOD_CHAR)), Seq(Lit(':'), MSID)), t)
    ensures Matches(DID, "did:" + t)
  {
    WordMatches("did:", "did:");
    SeqJoin(Word("did:"), Seq(Plus(Chars(METHOD_CHAR)), Seq(Lit(':'), MSID)), "did:", t);
  }

  lemma CutMatch(s: string, m: string, r: string)
    requires Cut(s, m, r)
    ensures Matches(DID, s)
  {
    assert Matches(Plus(Chars(METHOD_CHAR)), m) by { Syntax.PlusChars(METHOD_CHAR, m); }
    assert Matches(Lit(':'), [':']) by { LitLang(':'); }
    assert Matches(MSID, r) by { ScanIsGrammar(r); }
    SeqJoinThree(Plus(Chars(METHOD_CHAR)), Lit(':'), MSID, m, [':'], r);
    PrefixMatch(m + ([':'] + r));
    assert s == "did:" + (m + ([':'] + r));
  }

  /** With the first colon after the prefix at `at`, the grammar is about what surrounds it. */
  lemma MatchesAt(s: string, at: nat)
    requires "did:" <= s && 4 <= at < |s| && s[at] == ':' && forall k :: 4 <= k < at ==> s[k] != ':'
    ensures Matches(DID, s) <==>
      at > 4 && AllIn(s[4..at], METHOD_CHAR) && at + 1 < |s| && Units(s[at + 1..])
  {
    if Matches(DID, s) {
      var m, r := MatchCut(s);
      assert s[4 + |m|] == ':' && forall k :: 0 <= k < |m| ==> s[4 + k] == m[k];
      assert at == 4 + |m|;
      assert s[4..at] == m && s[at + 1..] == r;
    }
    if at > 4 && AllIn(s[4..at], METHOD_CHAR) && at + 1 < |s| && Units(s[at + 1..]) {
      assert s == "did:" + s[4..at] + [':'] + s[at + 1..];
      CutMatch(s, s[4..at], s[at + 1..]);
    }
  }

  // ------------------------------------------- against the other DID validator

  /** Every percent sign starts an escape of two upper-case hex digits. */
  predicate Escaped(s: string) {
    forall i :: 0 <= i < |s| && s[i] == '%' ==> i + 2 < |s| && s[i + 1] in HEXDIG && s[i + 2] in HEXDIG
  }

  lemma {:induction false} UnitsAre(s: string)
    ensures s != "" && Units(s) <==>
      s != "" && AllIn(s, Syntax.DID_CHAR) && s[|s| - 1] != ':' && Escaped(s)
    decreases |s|
  {
    if |s| > 1 {
      var t := s[1..];
      UnitsAre(t);
      assert s == [s[0]] + t && s[|s| - 1] == t[|t| - 1];
      AllInCons(s[0], t, Syntax.DID_CHAR);
      assert Escaped(s) <==> Escaped(t) && (s[0] == '%' ==> |s| >= 3 && s[1] in HEXDIG && s[2] in HEXDIG) by {
        assert forall i :: 0 <= i < |t| ==> t[i] == s[i + 1];
        assert forall i :: 1 <= i < |s| ==> s[i] == t[i - 1];
      }
      if s[0] == '%' && |s| >= 3 && s[1] in HEXDIG && s[2] in HEXDIG {
        assert t[1..] == s[2..] && s[2..][1..] == s[3..];
        assert Units(t) <==> Units(s[2..]);
        assert Units(s[2..]) <==> Units(s[3..]);
      }
    } else if |s| == 1 {
      assert s[1..] == "";
    }
  }

  /** The part between the first two colons has no digit. */
  predicate LettersOnly(s: string) {
    |SplitOn(s, ':')| > 1 && AllIn(SplitOn(s, ':')[1], Syntax.LOWER)
  }

  lemma EscapedPrefix(m: string, r: string)
    requires '%' !in m
    ensures Escaped("did:" + m + [':'] + r) <==> Escaped(r)
  {
    var s, n := "did:" + m + [':'] + r, 5 + |m|;
    assert forall i :: 0 <= i < n ==> s[i] != '%';
    assert forall i :: 0 <= i < |r| ==> s[n + i] == r[i];
    if Escaped(r) {
      forall i | 0 <= i < |s| && s[i] == '%' ensures i + 2 < |s| && s[i + 1] in HEXDIG && s[i + 2] in HEXDIG {
        assert r[i - n] == '%';
      }
    }
    if Escaped(s) {
      forall i | 0 <= i < |r| && r[i] == '%' ensures i + 2 < |r| && r[i + 1] in HEXDIG && r[i + 2] in HEXDIG {
        assert s[n + i] == '%';
      }
    }
  }

  /** The two packages' DIDs differ in exactly two rules: this one demands that percent
      signs be escapes, the other one that the method have no digit. */
  lemma ValidatorsDiffer(s: string)
    requires |s| <= 2048
    ensures Syntax.IsValidDidRegex(s) && Escaped(s) <==> Matches(DID, s) && LettersOnly(s)
  {
    if Syntax.IsValidDidRegex(s) && Escaped(s) {
      var m, r := Syntax.DidRegexCut(s);
      EscapedPrefix(m, r);
      UnitsAre(r);
      Syntax.DidCutParts(s, m, r);
      CutMatch(s, m, r);
    }
    if Matches(DID, s) && LettersOnly(s) {
      var m, r := MatchCut(s);
      EscapedPrefix(m, r);
      UnitsAre(r);
      Syntax.DidCutParts(s, m, r);
      assert r[|r| - 1] != '%';
      Syntax.DidCutRegex(s, m, r);
    }
  }

  const UNESCAPED := "did:web:a%zz"

  lemma UnescapedCut()
    ensures Syntax.DidCut(UNESCAPED, "web", "a%zz") && |UNESCAPED| <= 2048
  {
    assert UNESCAPED == "did:" + "web" + [':'] + "a%zz";
  }

  lemma UnescapedLetters()
    ensures LettersOnly(UNESCAPED)
  {
    UnescapedCut();
    Syntax.DidCutParts(UNESCAPED, "web", "a%zz");
    assert SplitOn(UNESCAPED, ':')[1] == "web";
  }

  lemma UnescapedSign()
    ensures !Escaped(UNESCAPED)
  {
    var s := UNESCAPED;
    assert s[9] == '%' && s[10] == 'z';
  }

  /** A percent sign that starts no escape: the other validator accepts it, the grammar does not. */
  lemma {:induction false} UnescapedPercentAccepted()
    ensures Syntax.EnsureValidDid(UNESCAPED).None? && Syntax.IsValidDidRegex(UNESCAPED)
    ensures !Matches(DID, UNESCAPED)
  {
    var s := UNESCAPED;
    assert Syntax.EnsureValidDid(s).None? && |s| <= 2048 by {
      UnescapedCut();
      Syntax.DidCutPasses(s, "web", "a%zz");
    }
    Syntax.DidValidatorsAgree(s);
    UnescapedLetters();
    UnescapedSign();
    ValidatorsDiffer(s);
  }
}
