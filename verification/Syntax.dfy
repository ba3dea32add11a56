/** The identifier validators of `packages/syntax`: NSIDs, handles and DIDs, each in a
    step-by-step form and in a regular-expression form. */
module Syntax {
  import opened Wrappers
  import opened Regex
  import opened Split

  const LOWER: set<char> := set c: char | 'a' <= c <= 'z'
  const UPPER: set<char> := set c: char | 'A' <= c <= 'Z'
  const DIGIT: set<char> := set c: char | '0' <= c <= '9'
  const ALPHA: set<char> := LOWER + UPPER
  const ALNUM: set<char> := ALPHA + DIGIT
  const LABEL: set<char> := ALNUM + {'-'}

  // ---------------------------------------------------------------- labels

  /** `first(?:[a-zA-Z0-9-]{0,61}[a-zA-Z0-9])?` */
  function LabelRegex(first: set<char>): Regex {
    Seq(Chars(first), Opt(LABEL_TAIL))
  }

  /** A label of 1 to 63 characters that starts with one of `first` and has no hyphen at
      its edges. */
  ghost predicate IsLabel(first: set<char>, s: string) {
    1 <= |s| <= 63 && s[0] in first && AllIn(s, LABEL) && s[0] != '-' && s[|s| - 1] != '-'
  }

  const LABEL_TAIL: Regex := Seq(Repeat(Chars(LABEL), 0, 61), Chars(ALNUM))

  lemma LabelTailMatches(t: string)
    ensures Matches(LABEL_TAIL, t) <==> 1 <= |t| <= 62 && AllIn(t, LABEL) && t[|t| - 1] in ALNUM
  {
    if Matches(LABEL_TAIL, t) {
      var m, z := SeqCut(Repeat(Chars(LABEL), 0, 61), Chars(ALNUM), t);
      RepeatChars(LABEL, 0, 61, m);
      assert t[|t| - 1] == z[0];
    }
    if 1 <= |t| <= 62 && AllIn(t, LABEL) && t[|t| - 1] in ALNUM {
      var m, z := t[..|t| - 1], [t[|t| - 1]];
      RepeatChars(LABEL, 0, 61, m);
      SeqJoin(Repeat(Chars(LABEL), 0, 61), Chars(ALNUM), m, z);
      assert t == m + z;
    }
  }

  lemma LabelMatches(first: set<char>, s: string)
    requires first <= ALNUM
    ensures Matches(LabelRegex(first), s) <==> IsLabel(first, s)
  {
    if Matches(LabelRegex(first), s) {
      var x, y := SeqCut(Chars(first), Opt(LABEL_TAIL), s);
      MatchesOpt(LABEL_TAIL, y);
      LabelTailMatches(y);
      assert s == [s[0]] + y;
      if y != "" { assert s[|s| - 1] == y[|y| - 1]; }
    }
    if IsLabel(first, s) {
      var x, y := [s[0]], s[1..];
      assert s == x + y;
      if y != "" { assert y[|y| - 1] == s[|s| - 1]; }
      MatchesOpt(LABEL_TAIL, y);
      LabelTailMatches(y);
      SeqJoin(Chars(first), Opt(LABEL_TAIL), x, y);
    }
  }

  lemma LabelsFree(first: set<char>)
    requires first <= ALNUM
    ensures SeparatorFree(Lang(LabelRegex(first)), '.')
  {
    forall s | s in Lang(LabelRegex(first)) ensures '.' !in s {
      assert Matches(LabelRegex(first), s);
      LabelMatches(first, s);
    }
  }

  ghost predicate AllLabels(first: set<char>, parts: seq<string>) {
    forall k :: 0 <= k < |parts| ==> IsLabel(first, parts[k])
  }

  lemma LabelPartsMatch(first: set<char>, s: string)
    requires first <= ALNUM
    ensures AllParts(s, '.', Lang(LabelRegex(first))) <==> AllLabels(first, SplitOn(s, '.'))
  {
    var parts := SplitOn(s, '.');
    if AllParts(s, '.', Lang(LabelRegex(first))) {
      forall k | 0 <= k < |parts| ensures IsLabel(first, parts[k]) { LabelMatches(first, parts[k]); }
    }
    if AllLabels(first, parts) {
      forall k | 0 <= k < |parts| ensures parts[k] in Lang(LabelRegex(first)) { LabelMatches(first, parts[k]); }
    }
  }

  // ----------------------------------------------------------------- NSIDs

  datatype NsidError =
    | NsidTooLong | NsidCharacters | NsidTooFewParts | NsidPartEmpty | NsidPartTooLong
    | NsidPartHyphen | NsidFirstDigit | NsidName

  predicate StartsWithNumber(v: string) {
    v != "" && v[0] in DIGIT
  }

  predicate StartsWithHyphen(v: string) {
    v != "" && v[0] == '-'
  }

  predicate EndsWithHyphen(v: string) {
    v != "" && v[|v| - 1] == '-'
  }

  /** Right for a `v` known to be of letters, digits and hyphens. */
  predicate IsValidIdentifier(v: string) {
    !StartsWithNumber(v) && '-' !in v
  }

  /** The loop over the segments: the first complaint, if any. */
  function CheckSegments(segments: seq<string>): Option<NsidError> {
    if segments == [] then None
    else
      var l := segments[0];
      if |l| < 1 then Some(NsidPartEmpty)
      else if |l| > 63 then Some(NsidPartTooLong)
      else if StartsWithHyphen(l) || EndsWithHyphen(l) then Some(NsidPartHyphen)
      else CheckSegments(segments[1..])
  }

  /** The checks after the split. */
  function ValidateSegments(segments: seq<string>): Result<seq<string>, NsidError> {
    if |segments| < 3 then Err(NsidTooFewParts)
    else if CheckSegments(segments).Some? then Err(CheckSegments(segments).value)
    else if StartsWithNumber(segments[0]) then Err(NsidFirstDigit)
    else if !IsValidIdentifier(segments[|segments| - 1]) then Err(NsidName)
    else Ok(segments)
  }

  function ValidateNsid(input: string): Result<seq<string>, NsidError> {
    if |input| > 253 + 1 + 63 then Err(NsidTooLong)
    else if !AllIn(input, LABEL + {'.'}) then Err(NsidCharacters)
    else ValidateSegments(SplitOn(input, '.'))
  }

  const NSID_NAME: Regex := Seq(Chars(ALPHA), Opt(Repeat(Chars(ALNUM), 0, 62)))

  ghost predicate ValidateNsidRegex(value: string) {
    |value| <= 253 + 1 + 63 && |value| >= 5 && Matches(NSID_REGEX, value)
  }

  /** A final segment: a letter, then letters and digits. */
  ghost predicate IsName(s: string) {
    1 <= |s| <= 63 && s[0] in ALPHA && AllIn(s, ALNUM)
  }

  lemma NameMatches(s: string)
    ensures Matches(NSID_NAME, s) <==> IsName(s)
  {
    var tail := Repeat(Chars(ALNUM), 0, 62);
    MatchesSeq(Chars(ALPHA), Opt(tail), s);
    if Matches(NSID_NAME, s) {
      var x, y := CatSplit(Lang(Chars(ALPHA)), Lang(Opt(tail)), s);
      MatchesOpt(tail, y);
      RepeatChars(ALNUM, 0, 62, y);
    }
    if IsName(s) {
      RepeatChars(ALNUM, 0, 62, s[1..]);
      MatchesOpt(tail, s[1..]);
      CatJoin(Lang(Chars(ALPHA)), Lang(Opt(tail)), s[..1], s[1..]);
      assert s == s[..1] + s[1..];
    }
  }

  /** The grammar on the parts: a label that starts with a letter, at least one label, and
      a name. */
  ghost predicate NsidParts(parts: seq<string>) {
    && |parts| >= 3
    && IsLabel(ALPHA, parts[0])
    && (forall k :: 1 <= k < |parts| - 1 ==> IsLabel(ALNUM, parts[k]))
    && IsName(parts[|parts| - 1])
  }

  lemma {:induction false} CheckSegmentsPasses(segments: seq<string>)
    ensures CheckSegments(segments).None? <==>
      forall k :: 0 <= k < |segments| ==>
        1 <= |segments[k]| <= 63 && !StartsWithHyphen(segments[k]) && !EndsWithHyphen(segments[k])
  {
    if segments != [] {
      CheckSegmentsPasses(segments[1..]);
      assert forall k :: 1 <= k < |segments| ==> segments[k] == segments[1..][k - 1];
    }
  }

  lemma PartEdges(first: set<char>, l: string)
    ensures IsLabel(first, l) <==>
      AllIn(l, LABEL) && 1 <= |l| <= 63 && !StartsWithHyphen(l) && !EndsWithHyphen(l) && l[0] in first
  {
  }

  lemma NameEdges(l: string)
    requires AllIn(l, LABEL) && 1 <= |l| <= 63
    ensures IsName(l) <==> !StartsWithHyphen(l) && !EndsWithHyphen(l) && IsValidIdentifier(l)
  {
  }

  lemma PartsPassChecks(parts: seq<string>)
    requires NsidParts(parts)
    ensures PartsIn(parts, LABEL) && CheckSegments(parts).None?
    ensures !StartsWithNumber(parts[0]) && IsValidIdentifier(parts[|parts| - 1])
  {
    forall k | 0 <= k < |parts|
      ensures AllIn(parts[k], LABEL) && 1 <= |parts[k]| <= 63 && !StartsWithHyphen(parts[k]) && !EndsWithHyphen(parts[k])
    {
      if k == |parts| - 1 { assert IsName(parts[k]); } else { assert IsLabel(if k == 0 then ALPHA else ALNUM, parts[k]); }
    }
    CheckSegmentsPasses(parts);
    NameEdges(parts[|parts| - 1]);
    PartEdges(ALPHA, parts[0]);
  }

  lemma ChecksGiveParts(parts: seq<string>)
    requires |parts| >= 3 && PartsIn(parts, LABEL) && CheckSegments(parts).None?
    requires !StartsWithNumber(parts[0]) && IsValidIdentifier(parts[|parts| - 1])
    ensures NsidParts(parts)
  {
    CheckSegmentsPasses(parts);
    forall k | 1 <= k < |parts| - 1 ensures IsLabel(ALNUM, parts[k]) {
      PartEdges(ALNUM, parts[k]);
    }
    assert AllIn(parts[0], LABEL) && AllIn(parts[|parts| - 1], LABEL);
    PartEdges(ALPHA, parts[0]);
    NameEdges(parts[|parts| - 1]);
  }

  lemma ValidatedSegments(parts: seq<string>)
    ensures PartsIn(parts, LABEL) && ValidateSegments(parts).Ok? <==> NsidParts(parts)
    ensures ValidateSegments(parts).Ok? ==> ValidateSegments(parts).value == parts
  {
    if NsidParts(parts) { PartsPassChecks(parts); }
    if PartsIn(parts, LABEL) && ValidateSegments(parts).Ok? { ChecksGiveParts(parts); }
  }

  lemma {:induction false} ValidatedParts(input: string)
    requires |input| <= 253 + 1 + 63
    ensures ValidateNsid(input).Ok? <==> NsidParts(SplitOn(input, '.'))
    ensures ValidateNsid(input).Ok? ==> ValidateNsid(input).value == SplitOn(input, '.')
  {
    PartsAllIn(input, '.', LABEL);
    ValidatedSegments(SplitOn(input, '.'));
  }

  /** A string cut into its first part, its last part, and what is between them. */
  ghost predicate Cut(s: string, f: string, m: string, n: string) {
    s == f + ['.'] + (m + ['.'] + n) && SplitOn(s, '.') == [f] + SplitOn(m, '.') + [n]
  }

  lemma CutEdges(s: string) returns (f: string, m: string, n: string)
    requires |SplitOn(s, '.')| >= 3
    ensures Cut(s, f, m, n)
  {
    var parts := SplitOn(s, '.');
    var rest;
    f, rest := SplitCut(s, '.', 1);
    m, n := SplitCut(rest, '.', |parts| - 2);
    JoinSplit(f, '.');
    JoinSplit(n, '.');
    assert SplitOn(f, '.') == [f] && SplitOn(n, '.') == [n];
  }

  lemma CutJoined(f: string, m: string, n: string)
    requires '.' !in f && '.' !in n
    ensures Cut(f + ['.'] + (m + ['.'] + n), f, m, n)
  {
    SplitFree(f, '.');
    SplitFree(n, '.');
    SplitConcat(m, n, '.');
    SplitConcat(f, m + ['.'] + n, '.');
  }

  const NSID_MIDDLE: Regex := Plus(Seq(Lit('.'), LabelRegex(ALNUM)))

  const NSID_REGEX: Regex := Seq(LabelRegex(ALPHA), Seq(NSID_MIDDLE, Seq(Lit('.'), NSID_NAME)))

  lemma MiddleMatches(m: string)
    ensures Matches(NSID_MIDDLE, ['.'] + m) <==> AllLabels(ALNUM, SplitOn(m, '.'))
  {
    LabelsFree(ALNUM);
    PlusLed('.', LabelRegex(ALNUM), ['.'] + m);
    assert (['.'] + m)[1..] == m;
    LabelPartsMatch(ALNUM, m);
  }

  lemma LastMatches(n: string)
    ensures Matches(Seq(Lit('.'), NSID_NAME), ['.'] + n) <==> IsName(n)
  {
    MatchesSeq(Lit('.'), NSID_NAME, ['.'] + n);
    LitLang('.');
    LedOnce(Lang(NSID_NAME), '.', ['.'] + n);
    assert (['.'] + n)[1..] == n;
    NameMatches(n);
  }

  lemma LedMatch(body: Regex, s: string) returns (t: string)
    requires Matches(Seq(Lit('.'), body), s)
    ensures s == ['.'] + t
  {
    MatchesSeq(Lit('.'), body, s);
    LitLang('.');
    LedOnce(Lang(body), '.', s);
    t := s[1..];
  }

  lemma MiddleLed(s: string) returns (t: string)
    requires Matches(NSID_MIDDLE, s)
    ensures s == ['.'] + t
  {
    LabelsFree(ALNUM);
    PlusLed('.', LabelRegex(ALNUM), s);
    t := s[1..];
  }

  /** The regular expression, read off as a grammar on the cut string. */
  lemma RegexCut(s: string) returns (f: string, m: string, n: string)
    requires Matches(NSID_REGEX, s)
    ensures s == f + ['.'] + (m + ['.'] + n) && IsLabel(ALPHA, f) && IsName(n) && Matches(NSID_MIDDLE, ['.'] + m)
  {
    var last := Seq(Lit('.'), NSID_NAME);
    var rest, dm, dn;
    f, rest := SeqCut(LabelRegex(ALPHA), Seq(NSID_MIDDLE, last), s);
    dm, dn := SeqCut(NSID_MIDDLE, last, rest);
    m := MiddleLed(dm);
    n := LedMatch(NSID_NAME, dn);
    assert IsName(n) by { LastMatches(n); }
    assert IsLabel(ALPHA, f) by { LabelMatches(ALPHA, f); }
    assert f + (['.'] + m + (['.'] + n)) == f + ['.'] + (m + ['.'] + n);
  }

  lemma CutRegex(f: string, m: string, n: string)
    requires IsLabel(ALPHA, f) && IsName(n) && Matches(NSID_MIDDLE, ['.'] + m)
    ensures Matches(NSID_REGEX, f + ['.'] + (m + ['.'] + n))
  {
    LastMatches(n);
    LabelMatches(ALPHA, f);
    SeqJoinThree(LabelRegex(ALPHA), NSID_MIDDLE, Seq(Lit('.'), NSID_NAME), f, ['.'] + m, ['.'] + n);
    assert f + ['.'] + (m + ['.'] + n) == f + (['.'] + m + (['.'] + n));
  }

  lemma CutParts(s: string, f: string, m: string, n: string)
    requires Cut(s, f, m, n)
    ensures NsidParts(SplitOn(s, '.')) <==> IsLabel(ALPHA, f) && IsName(n) && Matches(NSID_MIDDLE, ['.'] + m)
  {
    MiddleMatches(m);
    var parts, mid := SplitOn(s, '.'), SplitOn(m, '.');
    assert |parts| == |mid| + 2 && parts[0] == f && parts[|parts| - 1] == n;
    assert forall k :: 0 <= k < |mid| ==> parts[k + 1] == mid[k];
    assert forall k :: 1 <= k < |parts| - 1 ==> parts[k] == mid[k - 1];
  }

  lemma RegexParts(s: string)
    ensures Matches(NSID_REGEX, s) <==> NsidParts(SplitOn(s, '.'))
  {
    if Matches(NSID_REGEX, s) {
      var f, m, n := RegexCut(s);
      CutJoined(f, m, n);
      CutParts(s, f, m, n);
    }
    if NsidParts(SplitOn(s, '.')) {
      var f, m, n := CutEdges(s);
      CutParts(s, f, m, n);
      CutRegex(f, m, n);
    }
  }

  /** The fast length check turns no valid NSID away. */
  lemma {:induction false} LongEnough(s: string)
    requires NsidParts(SplitOn(s, '.'))
    ensures |s| >= 5
  {
    var f, m, n := CutEdges(s);
    CutParts(s, f, m, n);
    MiddleMatches(m);
    assert IsLabel(ALNUM, SplitOn(m, '.')[0]);
  }

  /** Both NSID validators accept the same strings, and the detailed one returns the parts. */
  lemma NsidValidatorsAgree(s: string)
    ensures ValidateNsid(s).Ok? <==> ValidateNsidRegex(s)
    ensures ValidateNsid(s).Ok? ==> ValidateNsid(s).value == SplitOn(s, '.') && NsidParts(SplitOn(s, '.'))
  {
    RegexParts(s);
    if |s| <= 253 + 1 + 63 {
      ValidatedParts(s);
      if NsidParts(SplitOn(s, '.')) { LongEnough(s); }
    }
  }

  /** What is wrong with a segment. */
  predicate Faulty(l: string, e: NsidError) {
    match e
    case NsidPartEmpty => l == ""
    case NsidPartTooLong => |l| > 63
    case NsidPartHyphen => 1 <= |l| <= 63 && (l[0] == '-' || l[|l| - 1] == '-')
    case _ => false
  }

  predicate Faultless(l: string) {
    1 <= |l| <= 63 && l[0] != '-' && l[|l| - 1] != '-'
  }

  /** Segment `i` is the first one with a fault. */
  ghost predicate FirstFault(segments: seq<string>, i: nat, e: NsidError) {
    i < |segments| && Faulty(segments[i], e) && forall k :: 0 <= k < i ==> Faultless(segments[k])
  }

  ghost predicate FirstFaultIs(segments: seq<string>, e: NsidError) {
    exists i: nat :: FirstFault(segments, i, e)
  }

  lemma FaultLater(segments: seq<string>, e: NsidError)
    requires segments != [] && Faultless(segments[0]) && FirstFaultIs(segments[1..], e)
    ensures FirstFaultIs(segments, e)
  {
    var i: nat :| FirstFault(segments[1..], i, e);
    assert forall k :: 1 <= k < |segments| ==> segments[k] == segments[1..][k - 1];
    assert FirstFault(segments, i + 1, e);
  }

  lemma FaultFirst(segments: seq<string>, e: NsidError)
    requires segments != [] && Faulty(segments[0], e)
    ensures FirstFaultIs(segments, e)
  {
    var first: nat := 0;
    assert FirstFault(segments, first, e);
  }

  lemma {:induction false} CheckSegmentsFindsFirst(segments: seq<string>)
    ensures CheckSegments(segments).None? ==> forall k :: 0 <= k < |segments| ==> Faultless(segments[k])
    ensures CheckSegments(segments).Some? ==> FirstFaultIs(segments, CheckSegments(segments).value)
  {
    if segments != [] {
      var rest := segments[1..];
      CheckSegmentsFindsFirst(rest);
      assert forall k :: 1 <= k < |segments| ==> segments[k] == rest[k - 1];
      if !Faultless(segments[0]) {
        FaultFirst(segments, CheckSegments(segments).value);
      } else if CheckSegments(rest).Some? {
        FaultLater(segments, CheckSegments(rest).value);
      }
    }
  }

  /** The detailed validator names the first thing that is wrong, in the order of its checks. */
  lemma {:induction false} NsidErrorIsTheFirst(s: string)
    requires ValidateNsid(s).Err?
    ensures var segments := SplitOn(s, '.');
      match ValidateNsid(s).error
      case NsidTooLong => |s| > 317
      case NsidCharacters => |s| <= 317 && exists i :: 0 <= i < |s| && s[i] !in LABEL && s[i] != '.'
      case NsidTooFewParts => |s| <= 317 && AllIn(s, LABEL + {'.'}) && |segments| < 3
      case NsidFirstDigit => (forall k :: 0 <= k < |segments| ==> Faultless(segments[k])) && segments[0][0] in DIGIT
      case NsidName =>
        && (forall k :: 0 <= k < |segments| ==> Faultless(segments[k])) && segments[0][0] !in DIGIT
        && (segments[|segments| - 1][0] in DIGIT || '-' in segments[|segments| - 1])
      case e => |segments| >= 3 && FirstFaultIs(segments, e)
  {
    CheckSegmentsFindsFirst(SplitOn(s, '.'));
  }

  /** `NSID.create(authority, name)`, on the text of the two. */
  function Create(authority: string, name: string): string {
    Join(Reverse(SplitOn(authority, '.')) + [name], '.')
  }

  /** The `authority` getter: all parts but the last, in domain order. */
  function Authority(segments: seq<string>): string
    requires segments != []
  {
    Join(Reverse(segments[..|segments| - 1]), '.')
  }

  function Reverse(parts: seq<string>): seq<string> {
    seq(|parts|, i requires 0 <= i < |parts| => parts[|parts| - 1 - i])
  }

  /** An NSID is rebuilt from its authority and name. */
  lemma CreateFromAuthorityAndName(s: string)
    requires ValidateNsid(s).Ok?
    ensures var segments := ValidateNsid(s).value;
      Create(Authority(segments), segments[|segments| - 1]) == s
  {
    NsidValidatorsAgree(s);
    var parts := SplitOn(s, '.');
    var domain := Reverse(parts[..|parts| - 1]);
    PartsFree(s, '.');
    SplitJoin(domain, '.');
    assert Reverse(domain) == parts[..|parts| - 1];
    assert parts[..|parts| - 1] + [parts[|parts| - 1]] == parts;
    JoinSplit(s, '.');
  }

  // --------------------------------------------------------------- handles

  datatype HandleError =
    | HandleCharacters | HandleTooLong | HandleTooFewParts | HandlePartEmpty | HandlePartTooLong
    | HandlePartHyphen | HandleTld

  /** What the loop says about label `l`, the last one or not. */
  function CheckLabel(l: string, last: bool): Option<HandleError> {
    if |l| < 1 then Some(HandlePartEmpty)
    else if |l| > 63 then Some(HandlePartTooLong)
    else if EndsWithHyphen(l) || StartsWithHyphen(l) then Some(HandlePartHyphen)
    else if last && l[0] !in ALPHA then Some(HandleTld)
    else None
  }

  method EnsureValidHandle(input: string) returns (error: Option<HandleError>)
    ensures error.None? <==> IsValidHandleRegex(input)
    ensures error == Some(HandleCharacters) <==> !AllIn(input, LABEL + {'.'})
    ensures error == Some(HandleTooLong) ==> |input| > 253
    ensures error == Some(HandleTooFewParts) ==> '.' !in input
    ensures error.Some? && (error.value.HandlePartEmpty? || error.value.HandlePartTooLong? || error.value.HandlePartHyphen? || error.value.HandleTld?) ==>
      var labels := SplitOn(input, '.');
      exists i :: 0 <= i < |labels| && CheckLabel(labels[i], i + 1 == |labels|) == error
        && forall k :: 0 <= k < i ==> CheckLabel(labels[k], false).None?
  {
    HandleRegexParts(input);
    if !AllIn(input, LABEL + {'.'}) {
      if Matches(HANDLE_REGEX, input) { HandlePartsIn(input); }
      return Some(HandleCharacters);
    }
    if |input| > 253 {
      return Some(HandleTooLong);
    }
    var labels := SplitOn(input, '.');
    if |labels| < 2 {
      if '.' in input { OnePartFree(input); }
      return Some(HandleTooFewParts);
    }
    var i := 0;
    while i < |labels|
      invariant 0 <= i <= |labels|
      invariant forall k :: 0 <= k < i ==> CheckLabel(labels[k], k + 1 == |labels|).None?
    {
      var l := labels[i];
      if |l| < 1 {
        return Some(HandlePartEmpty);
      }
      if |l| > 63 {
        return Some(HandlePartTooLong);
      }
      if EndsWithHyphen(l) || StartsWithHyphen(l) {
        return Some(HandlePartHyphen);
      }
      if i + 1 == |labels| && l[0] !in ALPHA {
        return Some(HandleTld);
      }
      i := i + 1;
    }
    PassingLabels(input);
    return None;
  }

  /** `isValidHandle`, and the condition under which `ensureValidHandleRegex` returns. */
  ghost predicate IsValidHandleRegex(input: string) {
    |input| <= 253 && Matches(HANDLE_REGEX, input)
  }

  /** The grammar on the labels: at least two, the last of which starts with a letter. */
  ghost predicate HandleParts(parts: seq<string>) {
    |parts| >= 2 && AllLabels(ALNUM, parts[..|parts| - 1]) && IsLabel(ALPHA, parts[|parts| - 1])
  }

  const HANDLE_DOMAINS: Regex := Plus(Seq(LabelRegex(ALNUM), Lit('.')))

  const HANDLE_REGEX: Regex := Seq(HANDLE_DOMAINS, LabelRegex(ALPHA))

  lemma DomainsMatch(x: string)
    ensures Matches(HANDLE_DOMAINS, x + ['.']) <==> AllLabels(ALNUM, SplitOn(x, '.'))
  {
    LabelsFree(ALNUM);
    PlusTrailed(LabelRegex(ALNUM), '.', x + ['.']);
    assert (x + ['.'])[..|x|] == x;
    LabelPartsMatch(ALNUM, x);
  }

  lemma DomainsEnd(d: string) returns (x: string)
    requires Matches(HANDLE_DOMAINS, d)
    ensures d == x + ['.']
  {
    LabelsFree(ALNUM);
    PlusTrailed(LabelRegex(ALNUM), '.', d);
    x := d[..|d| - 1];
  }

  lemma HandleRegexParts(s: string)
    ensures Matches(HANDLE_REGEX, s) <==> HandleParts(SplitOn(s, '.'))
  {
    var parts := SplitOn(s, '.');
    if Matches(HANDLE_REGEX, s) {
      var d, tld := SeqCut(HANDLE_DOMAINS, LabelRegex(ALPHA), s);
      var x := DomainsEnd(d);
      DomainsMatch(x);
      LabelMatches(ALPHA, tld);
      SplitFree(tld, '.');
      SplitConcat(x, tld, '.');
      assert parts[..|parts| - 1] == SplitOn(x, '.');
    }
    if HandleParts(parts) {
      var x, tld := SplitCut(s, '.', |parts| - 1);
      JoinSplit(tld, '.');
      assert SplitOn(tld, '.')[0] == tld == parts[|parts| - 1];
      DomainsMatch(x);
      LabelMatches(ALPHA, tld);
      SeqJoin(HANDLE_DOMAINS, LabelRegex(ALPHA), x + ['.'], tld);
    }
  }

  lemma HandlePartsIn(s: string)
    requires HandleParts(SplitOn(s, '.'))
    ensures AllIn(s, LABEL + {'.'})
  {
    var parts := SplitOn(s, '.');
    forall k | 0 <= k < |parts| ensures AllIn(parts[k], LABEL) {
      if k < |parts| - 1 { assert IsLabel(ALNUM, parts[..|parts| - 1][k]); }
    }
    PartsAllIn(s, '.', LABEL);
  }

  lemma OnePartFree(s: string)
    requires |SplitOn(s, '.')| < 2
    ensures '.' !in s
  {
    PartsFree(s, '.');
    JoinSplit(s, '.');
  }

  /** Labels that pass the loop's checks, over the right characters, are the grammar's. */
  lemma PassingLabels(s: string)
    requires AllIn(s, LABEL + {'.'})
    ensures var parts := SplitOn(s, '.');
      |parts| >= 2 && (forall k :: 0 <= k < |parts| ==> CheckLabel(parts[k], k + 1 == |parts|).None?) <==> HandleParts(parts)
  {
    var parts := SplitOn(s, '.');
    PartsAllIn(s, '.', LABEL);
    forall k | 0 <= k < |parts|
      ensures CheckLabel(parts[k], k + 1 == |parts|).None? <==> IsLabel(if k + 1 == |parts| then ALPHA else ALNUM, parts[k])
    {
      PartEdges(if k + 1 == |parts| then ALPHA else ALNUM, parts[k]);
    }
    if HandleParts(parts) {
      forall k | 0 <= k < |parts| - 1 ensures IsLabel(ALNUM, parts[k]) { assert IsLabel(ALNUM, parts[..|parts| - 1][k]); }
    }
  }

  // ------------------------------------------------------------------ DIDs

  const DID_CHAR: set<char> := ALNUM + {'.', '_', ':', '%', '-'}
  const DID_LAST: set<char> := ALNUM + {'.', '_', '-'}

  datatype DidError = DidPrefix | DidTooLong | DidEnd | DidCharacters | DidTooFewParts | DidMethod

  /** `ensureValidDid`: the error thrown, if any. */
  function EnsureValidDid(input: string): Option<DidError> {
    if !("did:" <= input) then Some(DidPrefix)
    else if |input| > 2048 then Some(DidTooLong)
    else if input[|input| - 1] == ':' || input[|input| - 1] == '%' then Some(DidEnd)
    else if !AllIn(input, DID_CHAR) then Some(DidCharacters)
    else
      var parts := SplitOn(input, ':');
      if |parts| < 3 then Some(DidTooFewParts)
      else if parts[1] == "" || !AllIn(parts[1], LOWER) then Some(DidMethod)
      else None
  }

  /** The validator names the first thing that is wrong, in the order of its checks. */
  lemma {:induction false} DidErrorIsTheFirst(s: string)
    requires EnsureValidDid(s).Some?
    ensures var parts := SplitOn(s, ':');
      match EnsureValidDid(s).value
      case DidPrefix => !("did:" <= s)
      case DidTooLong => "did:" <= s && |s| > 2048
      case DidEnd => "did:" <= s && |s| <= 2048 && (s[|s| - 1] == ':' || s[|s| - 1] == '%')
      case DidCharacters => "did:" <= s && exists i :: 0 <= i < |s| && s[i] !in DID_CHAR
      case DidTooFewParts => "did:" <= s && AllIn(s, DID_CHAR) && |parts| < 3
      case DidMethod => |parts| >= 3 && (parts[1] == "" || exists i :: 0 <= i < |parts[1]| && !('a' <= parts[1][i] <= 'z'))
  {
  }

  const DID_TAIL: Regex := Seq(Star(Chars(DID_CHAR)), Chars(DID_LAST))

  const DID_REGEX: Regex := Seq(Word("did:"), Seq(Plus(Chars(LOWER)), Seq(Lit(':'), DID_TAIL)))

  /** `isValidDid`, and the condition under which `ensureValidDidRegex` returns. */
  ghost predicate IsValidDidRegex(input: string) {
    |input| <= 2048 && Matches(DID_REGEX, input)
  }

  lemma PlusChars(allowed: set<char>, s: string)
    ensures Matches(Plus(Chars(allowed)), s) <==> s != "" && AllIn(s, allowed)
  {
    if Matches(Plus(Chars(allowed)), s) {
      var x, y := SeqCut(Chars(allowed), Star(Chars(allowed)), s);
      StarChars(allowed, y);
    }
    if s != "" && AllIn(s, allowed) {
      StarChars(allowed, s[1..]);
      SeqJoin(Chars(allowed), Star(Chars(allowed)), s[..1], s[1..]);
      assert s == s[..1] + s[1..];
    }
  }

  lemma TailMatches(s: string)
    ensures Matches(DID_TAIL, s) <==> s != "" && AllIn(s, DID_CHAR) && s[|s| - 1] != ':' && s[|s| - 1] != '%'
  {
    if Matches(DID_TAIL, s) {
      var x, y := SeqCut(Star(Chars(DID_CHAR)), Chars(DID_LAST), s);
      StarChars(DID_CHAR, x);
      assert s[|s| - 1] == y[0];
    }
    if s != "" && AllIn(s, DID_CHAR) && s[|s| - 1] != ':' && s[|s| - 1] != '%' {
      var x, y := s[..|s| - 1], s[|s| - 1..];
      StarChars(DID_CHAR, x);
      assert y == [s[|s| - 1]] && s == x + y;
      SeqJoin(Star(Chars(DID_CHAR)), Chars(DID_LAST), x, y);
    }
  }

  /** A DID cut at its first two colons. */
  ghost predicate DidCut(s: string, method_: string, rest: string) {
    && s == "did:" + method_ + [':'] + rest
    && method_ != "" && AllIn(method_, LOWER)
    && rest != "" && AllIn(rest, DID_CHAR) && rest[|rest| - 1] != ':' && rest[|rest| - 1] != '%'
  }

  lemma DidRegexCut(s: string) returns (method_: string, rest: string)
    requires Matches(DID_REGEX, s)
    ensures DidCut(s, method_, rest)
  {
    var w, c;
    w, method_, c, rest := SeqCutFour(Word("did:"), Plus(Chars(LOWER)), Lit(':'), DID_TAIL, s);
    assert w == "did:" by { WordMatches("did:", w); }
    assert c == [':'] by { LitLang(':'); }
    PlusChars(LOWER, method_);
    TailMatches(rest);
  }

  lemma DidCutRegex(s: string, method_: string, rest: string)
    requires DidCut(s, method_, rest)
    ensures Matches(DID_REGEX, s)
  {
    WordMatches("did:", "did:");
    PlusChars(LOWER, method_);
    LitLang(':');
    TailMatches(rest);
    SeqJoinThree(Plus(Chars(LOWER)), Lit(':'), DID_TAIL, method_, [':'], rest);
    SeqJoin(Word("did:"), Seq(Plus(Chars(LOWER)), Seq(Lit(':'), DID_TAIL)), "did:", method_ + ([':'] + rest));
    assert s == "did:" + (method_ + ([':'] + rest));
  }

  lemma DidCutParts(s: string, m: string, rest: string)
    requires s == "did:" + m + [':'] + rest && ':' !in m
    ensures SplitOn(s, ':') == ["did"] + ([m] + SplitOn(rest, ':'))
  {
    assert s == "did" + [':'] + (m + [':'] + rest);
    SplitFree("did", ':');
    SplitFree(m, ':');
    SplitConcat(m, rest, ':');
    SplitConcat("did", m + [':'] + rest, ':');
  }

  lemma DidCutPasses(s: string, method_: string, rest: string)
    requires DidCut(s, method_, rest) && |s| <= 2048
    ensures EnsureValidDid(s).None?
  {
    DidCutParts(s, method_, rest);
  }

  /** A string of at least three parts, cut at the first two separators. */
  lemma CutTwice(s: string, sep: char) returns (p: string, q: string, rest: string)
    requires |SplitOn(s, sep)| >= 3
    ensures s == p + [sep] + (q + [sep] + rest) && sep !in p && q == SplitOn(s, sep)[1]
  {
    var parts := SplitOn(s, sep);
    var t;
    p, t := SplitCut(s, sep, 1);
    q, rest := SplitCut(t, sep, 1);
    JoinSplit(p, sep);
    JoinSplit(q, sep);
    PartsFree(s, sep);
    assert SplitOn(p, sep)[0] == p == parts[0] && SplitOn(q, sep)[0] == q == parts[1];
  }

  lemma PassingDidCut(s: string) returns (method_: string, rest: string)
    requires EnsureValidDid(s).None?
    ensures DidCut(s, method_, rest)
  {
    var p;
    p, method_, rest := CutTwice(s, ':');
    DidPrefixPart(p, method_ + [':'] + rest);
    assert s == "did:" + method_ + [':'] + rest;
    assert s[4 + |method_|] == ':';
    assert rest != "" && s[|s| - 1] == rest[|rest| - 1];
    forall i | 0 <= i < |rest| ensures rest[i] in DID_CHAR { assert rest[i] == s[|s| - |rest| + i]; }
  }

  lemma DidPrefixPart(p: string, t: string)
    requires "did:" <= p + [':'] + t && ':' !in p
    ensures p == "did"
  {
    var s := p + [':'] + t;
    assert s[..4] == "did:" && s[|p|] == ':';
    assert s[0] == 'd' && s[1] == 'i' && s[2] == 'd' && s[3] == ':';
    assert forall i :: 0 <= i < |p| ==> s[i] == p[i];
    assert p == s[..3];
  }

  /** Both DID validators accept the same strings. */
  lemma DidValidatorsAgree(s: string)
    ensures EnsureValidDid(s).None? <==> IsValidDidRegex(s)
  {
    if EnsureValidDid(s).None? {
      var m, r := PassingDidCut(s);
      DidCutRegex(s, m, r);
    }
    if IsValidDidRegex(s) {
      var m, r := DidRegexCut(s);
      DidCutPasses(s, m, r);
    }
  }
}
