/** `String.prototype.split` on a single character, and languages of separated lists. */
module Split {
  import opened Regex

  function Prepend(c: char, parts: seq<string>, sep: char): seq<string>
    requires parts != []
  {
    if c == sep then [""] + parts else [[c] + parts[0]] + parts[1..]
  }

  /** `s.split(sep)`: the parts between separators, empty ones included. */
  function SplitOn(s: string, sep: char): (parts: seq<string>)
    ensures parts != []
  {
    if s == "" then [""] else Prepend(s[0], SplitOn(s[1..], sep), sep)
  }

  /** `parts.join(sep)`. */
  function Join(parts: seq<string>, sep: char): string {
    if parts == [] then "" else if |parts| == 1 then parts[0] else parts[0] + [sep] + Join(parts[1..], sep)
  }

  lemma SplitStep(c: char, t: string, sep: char)
    ensures SplitOn([c] + t, sep) == Prepend(c, SplitOn(t, sep), sep)
  {
    assert ([c] + t)[1..] == t;
  }

  lemma PrependConcat(c: char, p: seq<string>, q: seq<string>, sep: char)
    requires p != []
    ensures Prepend(c, p + q, sep) == Prepend(c, p, sep) + q
  {
    assert (p + q)[1..] == p[1..] + q;
  }

  lemma {:induction false} SplitConcat(x: string, y: string, sep: char)
    ensures SplitOn(x + [sep] + y, sep) == SplitOn(x, sep) + SplitOn(y, sep)
  {
    if x == "" {
      assert x + [sep] + y == [sep] + y;
      SplitStep(sep, y, sep);
    } else {
      var t := x[1..];
      calc {
        SplitOn(x + [sep] + y, sep);
        { assert x + [sep] + y == [x[0]] + (t + [sep] + y); SplitStep(x[0], t + [sep] + y, sep); }
        Prepend(x[0], SplitOn(t + [sep] + y, sep), sep);
        { SplitConcat(t, y, sep); }
        Prepend(x[0], SplitOn(t, sep) + SplitOn(y, sep), sep);
        { PrependConcat(x[0], SplitOn(t, sep), SplitOn(y, sep), sep); }
        Prepend(x[0], SplitOn(t, sep), sep) + SplitOn(y, sep);
        { assert x == [x[0]] + t; SplitStep(x[0], t, sep); }
        SplitOn(x, sep) + SplitOn(y, sep);
      }
    }
  }

  lemma {:induction false} SplitFree(x: string, sep: char)
    requires sep !in x
    ensures SplitOn(x, sep) == [x]
  {
    if x != "" {
      SplitFree(x[1..], sep);
      assert [x[0]] + x[1..] == x;
    }
  }

  /** No part contains the separator. */
  lemma {:induction false} PartsFree(s: string, sep: char)
    ensures forall k :: 0 <= k < |SplitOn(s, sep)| ==> sep !in SplitOn(s, sep)[k]
  {
    if s != "" { PartsFree(s[1..], sep); }
  }

  lemma AllInCons(c: char, t: string, allowed: set<char>)
    ensures AllIn([c] + t, allowed) <==> c in allowed && AllIn(t, allowed)
  {
    assert forall i :: 0 <= i < |t| ==> ([c] + t)[i + 1] == t[i];
    if AllIn([c] + t, allowed) { assert ([c] + t)[0] == c; }
  }

  ghost predicate PartsIn(parts: seq<string>, allowed: set<char>) {
    forall k :: 0 <= k < |parts| ==> AllIn(parts[k], allowed)
  }

  lemma PartsInConcat(p: seq<string>, q: seq<string>, allowed: set<char>)
    ensures PartsIn(p + q, allowed) <==> PartsIn(p, allowed) && PartsIn(q, allowed)
  {
    if PartsIn(p + q, allowed) {
      forall k | 0 <= k < |p| ensures AllIn(p[k], allowed) { assert p[k] == (p + q)[k]; }
      forall k | 0 <= k < |q| ensures AllIn(q[k], allowed) { assert q[k] == (p + q)[|p| + k]; }
    }
  }

  /** A string is over an alphabet with the separator exactly when its parts are over the alphabet. */
  lemma {:induction false} PartsAllIn(s: string, sep: char, allowed: set<char>)
    requires sep !in allowed
    ensures AllIn(s, allowed + {sep}) <==> PartsIn(SplitOn(s, sep), allowed)
  {
    if s != "" {
      var rest, parts := SplitOn(s[1..], sep), SplitOn(s, sep);
      PartsAllIn(s[1..], sep, allowed);
      assert s == [s[0]] + s[1..];
      AllInCons(s[0], s[1..], allowed + {sep});
      AllInCons(s[0], rest[0], allowed);
      if s[0] == sep {
        assert parts == [""] + rest;
        PartsInConcat([""], rest, allowed);
      } else {
        var head, tail := [s[0]] + rest[0], rest[1..];
        assert parts == [head] + tail && rest == [rest[0]] + tail;
        PartsInConcat([head], tail, allowed);
        PartsInConcat([rest[0]], tail, allowed);
        assert PartsIn([head], allowed) <==> AllIn([head][0], allowed);
        assert PartsIn([rest[0]], allowed) <==> AllIn([rest[0]][0], allowed);
      }
    }
  }

  /** Splitting then joining gives the string back. */
  lemma {:induction false} JoinSplit(s: string, sep: char)
    ensures Join(SplitOn(s, sep), sep) == s
  {
    if s != "" {
      JoinSplit(s[1..], sep);
      assert [s[0]] + s[1..] == s;
      var rest := SplitOn(s[1..], sep);
      if s[0] == sep {
        assert ([""] + rest)[1..] == rest;
      } else if |rest| > 1 {
        assert ([[s[0]] + rest[0]] + rest[1..])[1..] == rest[1..];
      }
    }
  }

  /** Joining then splitting gives the parts back, if none contains the separator. */
  lemma {:induction false} SplitJoin(parts: seq<string>, sep: char)
    requires parts != [] && forall k :: 0 <= k < |parts| ==> sep !in parts[k]
    ensures SplitOn(Join(parts, sep), sep) == parts
  {
    SplitFree(parts[0], sep);
    if |parts| > 1 {
      SplitJoin(parts[1..], sep);
      SplitConcat(parts[0], Join(parts[1..], sep), sep);
    }
  }

  lemma {:induction false} SplitJoins(p: seq<string>, q: seq<string>, sep: char)
    requires p != [] && forall k :: 0 <= k < |p| ==> sep !in p[k]
    requires q != [] && forall k :: 0 <= k < |q| ==> sep !in q[k]
    ensures SplitOn(Join(p, sep), sep) == p && SplitOn(Join(q, sep), sep) == q
    ensures SplitOn(Join(p, sep) + [sep] + Join(q, sep), sep) == p + q
  {
    SplitJoin(p, sep);
    SplitJoin(q, sep);
    SplitConcat(Join(p, sep), Join(q, sep), sep);
  }

  /** A string can be cut at the separator before its `k`-th part. */
  lemma SplitCut(s: string, sep: char, k: nat) returns (x: string, y: string)
    requires 1 <= k < |SplitOn(s, sep)|
    ensures s == x + [sep] + y
    ensures SplitOn(x, sep) == SplitOn(s, sep)[..k] && SplitOn(y, sep) == SplitOn(s, sep)[k..]
  {
    var parts := SplitOn(s, sep);
    PartsFree(s, sep);
    SplitJoins(parts[..k], parts[k..], sep);
    x, y := Join(parts[..k], sep), Join(parts[k..], sep);
    assert parts[..k] + parts[k..] == parts;
    SplitInjective(s, x + [sep] + y, sep);
  }

  lemma SplitInjective(s: string, t: string, sep: char)
    requires SplitOn(s, sep) == SplitOn(t, sep)
    ensures s == t
  {
    JoinSplit(s, sep);
    JoinSplit(t, sep);
  }

  ghost predicate SeparatorFree(a: Language, sep: char) {
    forall s :: s in a ==> sep !in s
  }

  ghost predicate AllParts(s: string, sep: char, a: Language) {
    forall k :: 0 <= k < |SplitOn(s, sep)| ==> SplitOn(s, sep)[k] in a
  }

  /** A separator followed by a word of `a`. */
  ghost function Led(sep: char, a: Language): Language {
    Cat(iset{[sep]}, a)
  }

  /** A word of `a` followed by a separator. */
  ghost function Trailed(a: Language, sep: char): Language {
    Cat(a, iset{[sep]})
  }

  lemma LedOnce(a: Language, sep: char, s: string)
    ensures s in Led(sep, a) <==> |s| > 0 && s[0] == sep && s[1..] in a
  {
    if s in Led(sep, a) {
      var j :| 0 <= j <= |s| && s[..j] == [sep] && s[j..] in a;
      assert j == 1 && s[0] == s[..j][0];
    }
    if |s| > 0 && s[0] == sep {
      assert s[..1] == [sep];
    }
  }

  lemma TrailedOnce(a: Language, sep: char, s: string)
    ensures s in Trailed(a, sep) <==> |s| > 0 && s[|s| - 1] == sep && s[..|s| - 1] in a
  {
    if s in Trailed(a, sep) {
      var j :| 0 <= j <= |s| && s[..j] in a && s[j..] == [sep];
      assert j == |s| - 1 && s[|s| - 1] == s[j..][0];
    }
    if |s| > 0 && s[|s| - 1] == sep {
      assert s[|s| - 1..] == [sep];
    }
  }

  lemma PowerOne(a: Language, s: string)
    ensures s in Power(a, 1) <==> s in a
  {
    assert Power(a, 0) == iset{""};
    if s in Power(a, 1) {
      var i :| 0 <= i <= |s| && s[..i] in a && s[i..] in Power(a, 0);
      assert i == |s| && s[..i] == s;
    }
    if s in a {
      assert s[..|s|] == s && s[|s|..] == "";
    }
  }

  ghost predicate Parted(s: string, sep: char, n: nat, a: Language) {
    |SplitOn(s, sep)| == n && AllParts(s, sep, a)
  }

  lemma PartedOne(s: string, sep: char, a: Language)
    requires SeparatorFree(a, sep)
    ensures Parted(s, sep, 1, a) <==> s in a
  {
    if s in a { SplitFree(s, sep); }
    JoinSplit(s, sep);
    if Parted(s, sep, 1, a) {
      assert SplitOn(s, sep)[0] == s;
    }
  }

  lemma PartedConcat(x: string, y: string, sep: char, n: nat, a: Language)
    requires SeparatorFree(a, sep) && x in a && Parted(y, sep, n, a)
    ensures Parted(x + [sep] + y, sep, n + 1, a)
  {
    SplitFree(x, sep);
    SplitConcat(x, y, sep);
  }

  lemma PartedCut(s: string, sep: char, n: nat, a: Language) returns (x: string, y: string)
    requires n >= 1 && Parted(s, sep, n + 1, a)
    ensures s == x + [sep] + y && x in a && Parted(y, sep, n, a)
  {
    x, y := SplitCut(s, sep, 1);
    JoinSplit(x, sep);
    assert SplitOn(s, sep)[0] == x;
    assert forall k :: 0 <= k < |SplitOn(y, sep)| ==> SplitOn(y, sep)[k] == SplitOn(s, sep)[k + 1];
  }

  lemma CatSplit(a: Language, b: Language, s: string) returns (x: string, y: string)
    requires s in Cat(a, b)
    ensures s == x + y && x in a && y in b
  {
    var i :| 0 <= i <= |s| && s[..i] in a && s[i..] in b;
    x, y := s[..i], s[i..];
  }

  lemma CatJoin(a: Language, b: Language, x: string, y: string)
    requires x in a && y in b
    ensures x + y in Cat(a, b)
  {
    assert (x + y)[..|x|] == x && (x + y)[|x|..] == y;
  }

  lemma {:induction false} LedPowerParted(a: Language, sep: char, n: nat, s: string)
    requires SeparatorFree(a, sep) && n >= 1 && s in Power(Led(sep, a), n)
    ensures |s| > 0 && s[0] == sep && Parted(s[1..], sep, n, a)
  {
    if n == 1 {
      PowerOne(Led(sep, a), s);
      LedOnce(a, sep, s);
      PartedOne(s[1..], sep, a);
    } else {
      var x, y := CatSplit(Led(sep, a), Power(Led(sep, a), n - 1), s);
      LedOnce(a, sep, x);
      LedPowerParted(a, sep, n - 1, y);
      PartedConcat(x[1..], y[1..], sep, n - 1, a);
      assert s[1..] == x[1..] + [sep] + y[1..];
    }
  }

  lemma LedPrepend(a: Language, sep: char, n: nat, x: string, y: string)
    requires x in a && [sep] + y in Power(Led(sep, a), n)
    ensures [sep] + (x + [sep] + y) in Power(Led(sep, a), n + 1)
  {
    CatJoin(iset{[sep]}, a, [sep], x);
    CatJoin(Led(sep, a), Power(Led(sep, a), n), [sep] + x, [sep] + y);
    assert [sep] + (x + [sep] + y) == [sep] + x + ([sep] + y);
  }

  lemma LedAlone(a: Language, sep: char, s: string)
    requires s in a
    ensures [sep] + s in Power(Led(sep, a), 1)
  {
    CatJoin(iset{[sep]}, a, [sep], s);
    PowerOne(Led(sep, a), [sep] + s);
  }

  lemma {:induction false} PartedLedPower(a: Language, sep: char, n: nat, s: string)
    requires SeparatorFree(a, sep) && n >= 1 && Parted(s, sep, n, a)
    ensures [sep] + s in Power(Led(sep, a), n)
  {
    if n == 1 {
      PartedOne(s, sep, a);
      LedAlone(a, sep, s);
    } else {
      var x, y := PartedCut(s, sep, n - 1, a);
      PartedLedPower(a, sep, n - 1, y);
      LedPrepend(a, sep, n - 1, x, y);
    }
  }

  /** `n` words, each led by a separator, are a separator and a list of `n` parts. */
  lemma LedPower(a: Language, sep: char, n: nat, s: string)
    requires SeparatorFree(a, sep) && n >= 1
    ensures s in Power(Led(sep, a), n) <==> |s| > 0 && s[0] == sep && Parted(s[1..], sep, n, a)
  {
    if s in Power(Led(sep, a), n) { LedPowerParted(a, sep, n, s); }
    if |s| > 0 && s[0] == sep && Parted(s[1..], sep, n, a) {
      PartedLedPower(a, sep, n, s[1..]);
      assert s == [sep] + s[1..];
    }
  }

  lemma {:induction false} TrailedPowerParted(a: Language, sep: char, n: nat, s: string)
    requires SeparatorFree(a, sep) && n >= 1 && s in Power(Trailed(a, sep), n)
    ensures |s| > 0 && s[|s| - 1] == sep && Parted(s[..|s| - 1], sep, n, a)
  {
    if n == 1 {
      PowerOne(Trailed(a, sep), s);
      TrailedOnce(a, sep, s);
      PartedOne(s[..|s| - 1], sep, a);
    } else {
      var x, y := CatSplit(Trailed(a, sep), Power(Trailed(a, sep), n - 1), s);
      TrailedOnce(a, sep, x);
      TrailedPowerParted(a, sep, n - 1, y);
      PartedConcat(x[..|x| - 1], y[..|y| - 1], sep, n - 1, a);
      assert s[..|s| - 1] == x[..|x| - 1] + [sep] + y[..|y| - 1];
    }
  }

  lemma {:induction false} PartedTrailedPower(a: Language, sep: char, n: nat, s: string)
    requires SeparatorFree(a, sep) && n >= 1 && Parted(s, sep, n, a)
    ensures s + [sep] in Power(Trailed(a, sep), n)
  {
    assert (s + [sep])[..|s|] == s;
    if n == 1 {
      PowerOne(Trailed(a, sep), s + [sep]);
      TrailedOnce(a, sep, s + [sep]);
      PartedOne(s, sep, a);
    } else {
      var x, y := PartedCut(s, sep, n - 1, a);
      assert (x + [sep])[..|x|] == x;
      TrailedOnce(a, sep, x + [sep]);
      PartedTrailedPower(a, sep, n - 1, y);
      CatJoin(Trailed(a, sep), Power(Trailed(a, sep), n - 1), x + [sep], y + [sep]);
      assert s + [sep] == x + [sep] + (y + [sep]);
    }
  }

  /** `n` words, each followed by a separator, are a list of `n` parts and a separator. */
  lemma TrailedPower(a: Language, sep: char, n: nat, s: string)
    requires SeparatorFree(a, sep) && n >= 1
    ensures s in Power(Trailed(a, sep), n) <==> |s| > 0 && s[|s| - 1] == sep && Parted(s[..|s| - 1], sep, n, a)
  {
    if s in Power(Trailed(a, sep), n) { TrailedPowerParted(a, sep, n, s); }
    if |s| > 0 && s[|s| - 1] == sep && Parted(s[..|s| - 1], sep, n, a) {
      PartedTrailedPower(a, sep, n, s[..|s| - 1]);
      assert s == s[..|s| - 1] + [sep];
    }
  }

  lemma LitLang(c: char)
    ensures Lang(Lit(c)) == iset{[c]}
  {
    forall s ensures s in Lang(Lit(c)) <==> s == [c] {
    }
  }

  lemma PlusPower(r: Regex, s: string) returns (n: nat)
    requires Matches(Plus(r), s)
    ensures n >= 1 && s in Power(Lang(r), n)
  {
    MatchesSeq(r, Star(r), s);
    var x, y := CatSplit(Lang(r), Lang(Star(r)), s);
    var k: nat :| y in Power(Lang(r), k);
    CatJoin(Lang(r), Power(Lang(r), k), x, y);
    n := k + 1;
  }

  lemma PowerPlus(r: Regex, n: nat, s: string)
    requires n >= 1 && s in Power(Lang(r), n)
    ensures Matches(Plus(r), s)
  {
    var x, y := CatSplit(Lang(r), Power(Lang(r), n - 1), s);
    assert Matches(Star(r), y);
    CatJoin(Lang(r), Lang(Star(r)), x, y);
    MatchesSeq(r, Star(r), s);
  }

  /** `(?:<sep>body)+` matches a separator and a list of at least one part. */
  lemma PlusLed(sep: char, body: Regex, s: string)
    requires SeparatorFree(Lang(body), sep)
    ensures Matches(Plus(Seq(Lit(sep), body)), s) <==>
      |s| > 0 && s[0] == sep && AllParts(s[1..], sep, Lang(body))
  {
    LitLang(sep);
    assert Lang(Seq(Lit(sep), body)) == Led(sep, Lang(body));
    if Matches(Plus(Seq(Lit(sep), body)), s) {
      var n := PlusPower(Seq(Lit(sep), body), s);
      LedPower(Lang(body), sep, n, s);
    }
    if |s| > 0 && s[0] == sep && AllParts(s[1..], sep, Lang(body)) {
      var n := |SplitOn(s[1..], sep)|;
      LedPower(Lang(body), sep, n, s);
      PowerPlus(Seq(Lit(sep), body), n, s);
    }
  }

  /** `(?:body<sep>)+` matches a list of at least one part and a separator. */
  lemma PlusTrailed(body: Regex, sep: char, s: string)
    requires SeparatorFree(Lang(body), sep)
    ensures Matches(Plus(Seq(body, Lit(sep))), s) <==>
      |s| > 0 && s[|s| - 1] == sep && AllParts(s[..|s| - 1], sep, Lang(body))
  {
    LitLang(sep);
    assert Lang(Seq(body, Lit(sep))) == Trailed(Lang(body), sep);
    if Matches(Plus(Seq(body, Lit(sep))), s) {
      var n := PlusPower(Seq(body, Lit(sep)), s);
      TrailedPower(Lang(body), sep, n, s);
    }
    if |s| > 0 && s[|s| - 1] == sep && AllParts(s[..|s| - 1], sep, Lang(body)) {
      var n := |SplitOn(s[..|s| - 1], sep)|;
      TrailedPower(Lang(body), sep, n, s);
      PowerPlus(Seq(body, Lit(sep)), n, s);
    }
  }

  lemma {:induction false} WordMatches(w: string, s: string)
    ensures Matches(Word(w), s) <==> s == w
  {
    if w != "" {
      MatchesSeq(Lit(w[0]), Word(w[1..]), s);
      LitLang(w[0]);
      if Matches(Word(w), s) {
        var x, y := CatSplit(Lang(Lit(w[0])), Lang(Word(w[1..])), s);
        WordMatches(w[1..], y);
      }
      if s == w {
        WordMatches(w[1..], w[1..]);
        CatJoin(Lang(Lit(w[0])), Lang(Word(w[1..])), [w[0]], w[1..]);
        assert w == [w[0]] + w[1..];
      }
    }
  }

  /** A sequence of two expressions, on a string that is given cut. */
  lemma SeqJoin(a: Regex, b: Regex, x: string, y: string)
    requires Matches(a, x) && Matches(b, y)
    ensures Matches(Seq(a, b), x + y)
  {
    MatchesSeq(a, b, x + y);
    CatJoin(Lang(a), Lang(b), x, y);
  }

  lemma SeqCut(a: Regex, b: Regex, s: string) returns (x: string, y: string)
    requires Matches(Seq(a, b), s)
    ensures s == x + y && Matches(a, x) && Matches(b, y)
  {
    MatchesSeq(a, b, s);
    x, y := CatSplit(Lang(a), Lang(b), s);
  }

  lemma SeqJoinThree(a: Regex, b: Regex, c: Regex, x: string, y: string, z: string)
    requires Matches(a, x) && Matches(b, y) && Matches(c, z)
    ensures Matches(Seq(a, Seq(b, c)), x + (y + z))
  {
    SeqJoin(b, c, y, z);
    SeqJoin(a, Seq(b, c), x, y + z);
  }

  lemma SeqCutFour(a: Regex, b: Regex, c: Regex, d: Regex, s: string)
    returns (w: string, x: string, y: string, z: string)
    requires Matches(Seq(a, Seq(b, Seq(c, d))), s)
    ensures s == w + (x + (y + z)) && Matches(a, w) && Matches(b, x) && Matches(c, y) && Matches(d, z)
  {
    var t, u;
    w, t := SeqCut(a, Seq(b, Seq(c, d)), s);
    x, u := SeqCut(b, Seq(c, d), t);
    y, z := SeqCut(c, d, u);
  }
}
