/** Regular expressions as the syntax validators write them, and the strings they match
    in full, that is, anchored at both ends. */
module Regex {

  datatype Regex =
    | Empty
    | Chars(allowed: set<char>)
    | Seq(first: Regex, second: Regex)
    | Alt(left: Regex, right: Regex)
    | Repeat(body: Regex, least: nat, most: nat)
    | Star(body: Regex)

  type Language = iset<string>

  function Lit(c: char): Regex { Chars({c}) }

  /** The regular expression of one literal string. */
  function Word(w: string): Regex {
    if w == "" then Empty else Seq(Lit(w[0]), Word(w[1..]))
  }

  function Opt(r: Regex): Regex { Alt(Empty, r) }

  function Plus(r: Regex): Regex { Seq(r, Star(r)) }

  ghost function Cat(a: Language, b: Language): Language {
    iset s: string | exists i :: 0 <= i <= |s| && s[..i] in a && s[i..] in b
  }

  ghost function Power(a: Language, n: nat): Language {
    if n == 0 then iset{""} else Cat(a, Power(a, n - 1))
  }

  ghost predicate InSomePower(a: Language, least: nat, most: nat, s: string) {
    exists n: nat :: least <= n <= most && s in Power(a, n)
  }

  ghost predicate InAnyPower(a: Language, s: string) {
    exists n: nat :: s in Power(a, n)
  }

  ghost function Lang(r: Regex): Language {
    match r
    case Empty => iset{""}
    case Chars(allowed) => iset s: string | |s| == 1 && s[0] in allowed
    case Seq(a, b) => Cat(Lang(a), Lang(b))
    case Alt(a, b) => Lang(a) + Lang(b)
    case Repeat(a, least, most) => iset s: string | InSomePower(Lang(a), least, most, s)
    case Star(a) => iset s: string | InAnyPower(Lang(a), s)
  }

  /** Whether `s`, as a whole, matches `r`. */
  ghost predicate Matches(r: Regex, s: string) {
    s in Lang(r)
  }

  lemma MatchesSeq(a: Regex, b: Regex, s: string)
    ensures Matches(Seq(a, b), s) <==> s in Cat(Lang(a), Lang(b))
  {
  }

  lemma MatchesOpt(r: Regex, s: string)
    ensures Matches(Opt(r), s) <==> s == "" || Matches(r, s)
  {
    assert Lang(Empty) == iset{""};
    assert Lang(Alt(Empty, r)) == Lang(Empty) + Lang(r);
  }

  predicate AllIn(s: string, allowed: set<char>) {
    forall i :: 0 <= i < |s| ==> s[i] in allowed
  }

  lemma {:induction false} CharsPower(allowed: set<char>, n: nat, s: string)
    ensures s in Power(Lang(Chars(allowed)), n) <==> |s| == n && AllIn(s, allowed)
  {
    var a := Lang(Chars(allowed));
    if n > 0 {
      if s in Power(a, n) {
        var i :| 0 <= i <= |s| && s[..i] in a && s[i..] in Power(a, n - 1);
        CharsPower(allowed, n - 1, s[1..]);
        assert s == [s[0]] + s[1..] && s[0] == s[..i][0];
      }
      if |s| == n && AllIn(s, allowed) {
        CharsPower(allowed, n - 1, s[1..]);
        assert s[..1] in a;
      }
    }
  }

  /** A bounded repetition of a character class matches by length and characters alone. */
  lemma RepeatChars(allowed: set<char>, least: nat, most: nat, s: string)
    ensures Matches(Repeat(Chars(allowed), least, most), s) <==> least <= |s| <= most && AllIn(s, allowed)
  {
    CharsPower(allowed, |s|, s);
    if Matches(Repeat(Chars(allowed), least, most), s) {
      var n: nat :| least <= n <= most && s in Power(Lang(Chars(allowed)), n);
      CharsPower(allowed, n, s);
    }
  }

  lemma StarChars(allowed: set<char>, s: string)
    ensures Matches(Star(Chars(allowed)), s) <==> AllIn(s, allowed)
  {
    CharsPower(allowed, |s|, s);
    if Matches(Star(Chars(allowed)), s) {
      var n: nat :| s in Power(Lang(Chars(allowed)), n);
      CharsPower(allowed, n, s);
    }
  }
}
