/** The string operations the waitlist code applies to user input:
    `String.prototype.trim`, `toLowerCase`, `toUpperCase`, and the
    normalisation `trim().toLowerCase()` used for every stored email. */
module Strings {

  /** The characters that `String.prototype.trim` removes and that the
      regular-expression class `\s` matches: the ECMAScript WhiteSpace and
      LineTerminator code points. */
  predicate IsWhitespace(c: char)
    ensures IsWhitespace(c) ==> c != '@' && c != '.'
    ensures IsWhitespace(c) ==> !IsAsciiUpper(c) && !IsAsciiLower(c)
  {
    || c == '\t' || c == '\n' || c == '\U{000B}' || c == '\U{000C}' || c == '\r'
    || c == ' ' || c == '\U{00A0}' || c == '\U{1680}'
    || ('\U{2000}' <= c <= '\U{200A}')
    || c == '\U{2028}' || c == '\U{2029}' || c == '\U{202F}' || c == '\U{205F}'
    || c == '\U{3000}' || c == '\U{FEFF}'
  }

  predicate NoWhitespace(s: string) {
    forall k | 0 <= k < |s| :: !IsWhitespace(s[k])
  }

  /** Neither end of the string is whitespace. */
  predicate Trimmed(s: string) {
    s == [] || (!IsWhitespace(s[0]) && !IsWhitespace(s[|s| - 1]))
  }

  /** The number of whitespace characters `s` starts with. */
  function LeadingSpace(s: string): (n: nat)
    ensures n <= |s|
    ensures n == |s| || !IsWhitespace(s[n])
    ensures forall k | 0 <= k < n :: IsWhitespace(s[k])
  {
    if s != [] && IsWhitespace(s[0]) then 1 + LeadingSpace(s[1..]) else 0
  }

  /** The number of whitespace characters `s` ends with. */
  function TrailingSpace(s: string): (n: nat)
    ensures n <= |s|
    ensures n == |s| || !IsWhitespace(s[|s| - 1 - n])
    ensures forall k | |s| - n <= k < |s| :: IsWhitespace(s[k])
  {
    if s != [] && IsWhitespace(s[|s| - 1]) then 1 + TrailingSpace(s[..|s| - 1]) else 0
  }

  /** `String.prototype.trim`: the leading and the trailing whitespace
      removed; what is left neither begins nor ends with whitespace. */
  function Trim(s: string): (r: string)
    ensures |r| <= |s|
    ensures Trimmed(r)
  {
    var t := s[LeadingSpace(s)..];
    t[..|t| - TrailingSpace(t)]
  }

  /** The trim is the piece of `s` left after removing a whitespace prefix
      and a whitespace suffix. */
  lemma TrimIsInnerPiece(s: string)
    ensures exists a, b | 0 <= a <= b <= |s| ::
              && Trim(s) == s[a..b]
              && (forall k | 0 <= k < a :: IsWhitespace(s[k]))
              && (forall k | b <= k < |s| :: IsWhitespace(s[k]))
  {
    var a := LeadingSpace(s);
    var t := s[a..];
    var b := a + |t| - TrailingSpace(t);
    assert Trim(s) == s[a..b];
    forall k | b <= k < |s| ensures IsWhitespace(s[k]) {
      assert s[k] == t[k - a];
    }
  }

  /** Trimming keeps a string that already has no whitespace at its ends. */
  lemma TrimKeepsTrimmed(s: string)
    requires Trimmed(s)
    ensures Trim(s) == s
  {
  }

  lemma TrimIdempotent(s: string)
    ensures Trim(Trim(s)) == Trim(s)
  {
    TrimKeepsTrimmed(Trim(s));
  }

  /** A string without any whitespace is its own trim. */
  lemma TrimNoWhitespace(s: string)
    requires NoWhitespace(s)
    ensures Trim(s) == s
  {
    TrimKeepsTrimmed(s);
  }

  lemma NoWhitespaceNoLineBreak(s: string)
    requires NoWhitespace(s)
    ensures '\n' !in s && '\r' !in s
  {
  }

  /** Trimming a string that is entirely whitespace gives the empty string. */
  lemma TrimAllWhitespace(s: string)
    requires forall k | 0 <= k < |s| :: IsWhitespace(s[k])
    ensures Trim(s) == ""
  {
  }

  predicate IsAsciiUpper(c: char) { 'A' <= c <= 'Z' }

  predicate IsAsciiLower(c: char) { 'a' <= c <= 'z' }

  /** `toLowerCase` on one character, for the ASCII letters. */
  function LowerChar(c: char): (r: char)
    ensures IsAsciiUpper(c) ==> IsAsciiLower(r) && r as int == c as int + 32
    ensures !IsAsciiUpper(c) ==> r == c
  {
    if IsAsciiUpper(c) then (c as int + 32) as char else c
  }

  /** `toUpperCase` on one character, for the ASCII letters. */
  function UpperChar(c: char): (r: char)
    ensures IsAsciiLower(c) ==> IsAsciiUpper(r) && LowerChar(r) == c
    ensures !IsAsciiLower(c) ==> r == c
  {
    if IsAsciiLower(c) then (c as int - 32) as char else c
  }

  function ToLower(s: string): (r: string)
    ensures |r| == |s|
    ensures forall k | 0 <= k < |s| :: r[k] == LowerChar(s[k])
  {
    seq(|s|, k requires 0 <= k < |s| => LowerChar(s[k]))
  }

  /** Case mapping never turns whitespace into something else, or the
      reverse, and never produces an upper-case letter. */
  lemma LowerCharFacts(c: char)
    ensures IsWhitespace(LowerChar(c)) <==> IsWhitespace(c)
    ensures !IsAsciiUpper(LowerChar(c))
    ensures LowerChar(LowerChar(c)) == LowerChar(c)
    ensures UpperChar(LowerChar(c)) == UpperChar(c)
    ensures c == '@' || c == '.' ==> LowerChar(c) == c
  {
  }

  lemma ToLowerIdempotent(s: string)
    ensures ToLower(ToLower(s)) == ToLower(s)
  {
    forall k | 0 <= k < |s| ensures ToLower(ToLower(s))[k] == ToLower(s)[k] {
      LowerCharFacts(s[k]);
    }
  }

  lemma ToLowerKeepsTrimmed(s: string)
    requires Trimmed(s)
    ensures Trimmed(ToLower(s))
  {
    if s != [] {
      LowerCharFacts(s[0]);
      LowerCharFacts(s[|s| - 1]);
    }
  }

  lemma ToLowerKeepsNoWhitespace(s: string)
    requires NoWhitespace(s)
    ensures NoWhitespace(ToLower(s))
  {
    forall k | 0 <= k < |s| ensures !IsWhitespace(ToLower(s)[k]) {
      LowerCharFacts(s[k]);
    }
  }

  /** `s.trim().toLowerCase()`: the form in which every email is compared,
      validated, stored and mailed. */
  function Normalize(s: string): (r: string)
    ensures |r| <= |s|
    ensures Trimmed(r)
  {
    ToLowerKeepsTrimmed(Trim(s));
    ToLower(Trim(s))
  }

  /** A string is normalised when normalising it changes nothing. */
  predicate IsNormalized(s: string) {
    Normalize(s) == s
  }

  /** Normalising twice is normalising once, so the output of Normalize
      is always normalised. */
  lemma NormalizeIdempotent(s: string)
    ensures IsNormalized(Normalize(s))
  {
    var t := Trim(s);
    ToLowerKeepsTrimmed(t);
    TrimKeepsTrimmed(ToLower(t));
    ToLowerIdempotent(t);
  }

  /** The two spellings of the same address used as an example of
      normalisation denote one signup. */
  lemma NormalizeExample()
    ensures Normalize(" User@Example.COM ") == "user@example.com"
  {
    TrimExample();
    LowerExample();
  }

  lemma TrimExample()
    ensures Trim(" User@Example.COM ") == "User@Example.COM"
  {
    var s := " User@Example.COM ";
    var inner := "User@Example.COM";
    assert LeadingSpace(s[1..]) == 0;
    assert LeadingSpace(s) == 1;
    assert s[1..] == inner + " ";
    assert (inner + " ")[..|inner|] == inner;
    assert TrailingSpace((inner + " ")[..|inner|]) == 0;
    assert TrailingSpace(inner + " ") == 1;
  }

  lemma LowerExample()
    ensures ToLower("User@Example.COM") == "user@example.com"
  {
  }
}
