/** The two string operations the program applies to user input:
    `str.lower()` and `str.title()`, restricted to ASCII letters. */
module Text {

  predicate IsUpper(c: char) { 'A' <= c <= 'Z' }

  predicate IsLower(c: char) { 'a' <= c <= 'z' }

  predicate IsLetter(c: char) { IsUpper(c) || IsLower(c) }

  /** No upper-case letter anywhere in `s`. */
  predicate NoUpper(s: string) { forall i :: 0 <= i < |s| ==> !IsUpper(s[i]) }

  function LowerChar(c: char): char
  {
    if IsUpper(c) then (c as int + 32) as char else c
  }

  function UpperChar(c: char): char
  {
    if IsLower(c) then (c as int - 32) as char else c
  }

  /** `s.lower()`: every upper-case letter replaced by its lower-case form. */
  function Lower(s: string): string
  {
    seq(|s|, i requires 0 <= i < |s| => LowerChar(s[i]))
  }

  /** `s` spells `t` with any mixture of upper and lower case. */
  predicate SameUpToCase(s: string, t: string)
  {
    |s| == |t| && forall i :: 0 <= i < |s| ==> s[i] == t[i] || s[i] == UpperChar(t[i])
  }

  /** Lower-casing leaves no upper-case letter and is idempotent. */
  lemma LowerNormalises(s: string)
    ensures NoUpper(Lower(s))
    ensures Lower(Lower(s)) == Lower(s)
  {
  }

  /** The answers that lower-case to a given lower-case word are exactly its
      case variants: case-insensitive comparison, both directions. */
  lemma LowerIsCaseInsensitiveMatch(s: string, t: string)
    requires NoUpper(t)
    ensures Lower(s) == t <==> SameUpToCase(s, t)
  {
    if Lower(s) == t {
      forall i | 0 <= i < |s| ensures s[i] == t[i] || s[i] == UpperChar(t[i]) {
        assert Lower(s)[i] == LowerChar(s[i]);
      }
    }
    if SameUpToCase(s, t) {
      forall i | 0 <= i < |s| ensures Lower(s)[i] == t[i] {
        assert !IsUpper(t[i]);
      }
    }
  }

  /** `str.title()` scanning from a position whose predecessor was
      (`prevCased`) or was not a letter: a letter that follows a letter is
      lower-cased, any other letter is upper-cased, other characters are
      kept. */
  function TitleFrom(s: string, prevCased: bool): (r: string)
    ensures |r| == |s|
  {
    if s == [] then []
    else
      var c := s[0];
      var d := if !IsLetter(c) then c else if prevCased then LowerChar(c) else UpperChar(c);
      [d] + TitleFrom(s[1..], IsLetter(c))
  }

  /** `s.title()`. */
  function Title(s: string): string
  {
    TitleFrom(s, false)
  }

  /** Title-casing changes case only: lower-casing undoes it. */
  lemma {:induction false} LowerTitleFrom(s: string, prevCased: bool)
    ensures Lower(TitleFrom(s, prevCased)) == Lower(s)
  {
    if s != [] {
      LowerTitleFrom(s[1..], IsLetter(s[0]));
      var c := s[0];
      var d := if !IsLetter(c) then c else if prevCased then LowerChar(c) else UpperChar(c);
      assert TitleFrom(s, prevCased) == [d] + TitleFrom(s[1..], IsLetter(c));
      assert LowerChar(d) == LowerChar(c);
      assert Lower(s) == [LowerChar(c)] + Lower(s[1..]);
      assert Lower([d] + TitleFrom(s[1..], IsLetter(c))) == [LowerChar(d)] + Lower(TitleFrom(s[1..], IsLetter(c)));
    }
  }

  lemma LowerTitle(s: string)
    ensures Lower(Title(s)) == Lower(s)
  {
    LowerTitleFrom(s, false);
  }

  /** A lower-case word: non-empty, letters a-z only. */
  predicate IsLowerWord(w: string) { |w| > 0 && forall i :: 0 <= i < |w| ==> IsLower(w[i]) }

  lemma {:induction false} TitleFromKeepsLowerTail(w: string)
    requires forall i :: 0 <= i < |w| ==> IsLower(w[i])
    ensures TitleFrom(w, true) == w
  {
    if w != [] {
      TitleFromKeepsLowerTail(w[1..]);
    }
  }

  /** `"march".title() == "March"`: title-casing a lower-case word
      capitalises its first letter and keeps the rest. */
  lemma TitleOfLowerWord(w: string)
    requires IsLowerWord(w)
    ensures Title(w) == [UpperChar(w[0])] + w[1..]
    ensures IsUpper(Title(w)[0]) && Lower(Title(w)) == w
  {
    TitleFromKeepsLowerTail(w[1..]);
    LowerTitle(w);
    assert Lower(w) == w;
  }

  /** Python's `a < b` on strings: lexicographic by code point, a proper
      prefix coming first. pandas sorts the tied values of `mode()` by it. */
  function LexLess(a: string, b: string): bool
  {
    if b == [] then false
    else if a == [] then true
    else if a[0] != b[0] then a[0] < b[0]
    else LexLess(a[1..], b[1..])
  }

  lemma {:induction false} LexLessIrreflexive(a: string)
    ensures !LexLess(a, a)
  {
    if a != [] {
      LexLessIrreflexive(a[1..]);
    }
  }

  lemma {:induction false} LexLessTransitive(a: string, b: string, c: string)
    requires LexLess(a, b) && LexLess(b, c)
    ensures LexLess(a, c)
  {
    if a != [] && a[0] == b[0] && b[0] == c[0] {
      LexLessTransitive(a[1..], b[1..], c[1..]);
    }
  }

  /** Any two different strings are ordered one way or the other. */
  lemma {:induction false} LexLessTotal(a: string, b: string)
    requires a != b
    ensures LexLess(a, b) || LexLess(b, a)
  {
    if a != [] && b != [] && a[0] == b[0] {
      assert a == [a[0]] + a[1..] && b == [b[0]] + b[1..];
      LexLessTotal(a[1..], b[1..]);
    }
  }
}
