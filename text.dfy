/**
  The pieces of JavaScript's string library that the validators rely on: `String.prototype.trim`,
  the `\s` / `\S` regular-expression classes, the character classes `[A-Z]`, `[a-z]`, `[0-9]`,
  `[a-zA-Z0-9_]` and the password "special character" class, the e-mail pattern
  `^\S+@\S+\.\S+$`, and `Array.prototype.join`.
 */
module Text {

  /** The characters that `trim` strips and `\s` matches: the WhiteSpace and LineTerminator
      code points of ECMAScript (sections 12.2 and 12.3 of ECMA-262). */
  predicate IsWhitespace(c: char) {
    c == ' ' || c == '\t' || c == '\n' || c == '\U{B}' || c == '\U{C}' || c == '\r'
    || c == '\U{A0}' || c == '\U{1680}' || ('\U{2000}' <= c <= '\U{200A}')
    || c == '\U{2028}' || c == '\U{2029}' || c == '\U{202F}' || c == '\U{205F}'
    || c == '\U{3000}' || c == '\U{FEFF}'
  }

  /** Every character of `s` matches `\S`. */
  predicate NoWhitespace(s: string) {
    forall i | 0 <= i < |s| :: !IsWhitespace(s[i])
  }

  /** Every character of `s` is whitespace (the empty string included). */
  predicate IsBlank(s: string) {
    forall i | 0 <= i < |s| :: IsWhitespace(s[i])
  }

  /** `s` with its leading whitespace removed. */
  function TrimStart(s: string): (r: string)
    ensures |r| <= |s| && r == s[|s| - |r|..]
    ensures r == [] || !IsWhitespace(r[0])
    ensures IsBlank(s[..|s| - |r|])
  {
    if |s| > 0 && IsWhitespace(s[0]) then
      var r := TrimStart(s[1..]);
      assert s[..|s| - |r|] == [s[0]] + s[1..][..|s| - 1 - |r|];
      r
    else
      s
  }

  /** `s` with its trailing whitespace removed. */
  function TrimEnd(s: string): (r: string)
    ensures |r| <= |s| && r == s[..|r|]
    ensures r == [] || !IsWhitespace(r[|r| - 1])
    ensures IsBlank(s[|r|..])
  {
    if |s| > 0 && IsWhitespace(s[|s| - 1]) then
      var r := TrimEnd(s[..|s| - 1]);
      assert s[|r|..] == s[..|s| - 1][|r|..] + [s[|s| - 1]];
      r
    else
      s
  }

  /** `String.prototype.trim`: whitespace removed at both ends. */
  function Trim(s: string): (r: string)
    ensures r == [] || (!IsWhitespace(r[0]) && !IsWhitespace(r[|r| - 1]))
  {
    TrimEnd(TrimStart(s))
  }

  /** `!s.trim()` holds exactly for the strings made of whitespace only. */
  lemma TrimEmptyIffBlank(s: string)
    ensures Trim(s) == [] <==> IsBlank(s)
  {
    var t := TrimStart(s);
    var k := |s| - |t|;
    if t == [] {
      assert s == s[..k];
    } else {
      assert !IsWhitespace(t[0]);
      assert s[k] == t[0];
    }
  }

  /** Trimming a string without whitespace gives the string back. */
  lemma TrimNoWhitespace(s: string)
    requires NoWhitespace(s)
    ensures Trim(s) == s
  {
    var t := TrimStart(s);
    assert t == s;
  }

  /** Trimming twice is trimming once. */
  lemma TrimIdempotent(s: string)
    ensures Trim(Trim(s)) == Trim(s)
  {
    var r := Trim(s);
    if r != [] {
      assert TrimStart(r) == r;
    }
  }

  /** The index of the first `c` in `s` at or after position `from`, or `|s|` if there is none. */
  function IndexOf(s: string, c: char, from: nat): (k: nat)
    ensures k <= |s|
    ensures k < |s| ==> from <= k && s[k] == c
    ensures forall i | from <= i < k :: s[i] != c
    decreases |s| - from
  {
    if from >= |s| then |s|
    else if s[from] == c then from
    else IndexOf(s, c, from + 1)
  }

  /** The language of the regular expression `^\S+@\S+\.\S+$`: no whitespace anywhere, a
      non-empty part, an `@`, a non-empty part, a `.`, and a non-empty part. */
  ghost predicate EmailPattern(s: string) {
    && NoWhitespace(s)
    && exists at, dot | 0 < at && at + 1 < dot && dot + 1 < |s| :: s[at] == '@' && s[dot] == '.'
  }

  /** A direct matcher for `^\S+@\S+\.\S+$`: take the first `@` after the first character and
      look for a `.` that leaves at least one character on either side. */
  predicate MatchesEmailRegex(s: string)
    ensures MatchesEmailRegex(s) ==> NoWhitespace(s) && 5 <= |s|
  {
    && NoWhitespace(s)
    && var at := IndexOf(s, '@', 1);
       at < |s| && IndexOf(s, '.', at + 2) + 1 < |s|
  }

  /** The matcher accepts exactly the language of the regular expression. */
  lemma MatchesEmailRegexIsPattern(s: string)
    ensures MatchesEmailRegex(s) <==> EmailPattern(s)
  {
    var at := IndexOf(s, '@', 1);
    if MatchesEmailRegex(s) {
      var dot := IndexOf(s, '.', at + 2);
      assert s[at] == '@' && s[dot] == '.';
    }
    if EmailPattern(s) {
      var at', dot' :| 0 < at' && at' + 1 < dot' && dot' + 1 < |s| && s[at'] == '@' && s[dot'] == '.';
      assert at <= at';
      var dot := IndexOf(s, '.', at + 2);
      assert dot <= dot';
    }
  }

  /** An accepted e-mail address contains no whitespace. */
  lemma EmailHasNoWhitespace(s: string)
    requires MatchesEmailRegex(s)
    ensures NoWhitespace(s) && !IsBlank(s) && Trim(s) == s
  {
    TrimNoWhitespace(s);
    assert s[0] == s[0];
  }

  /** `[A-Z]` */
  predicate IsAsciiUpper(c: char) { 'A' <= c <= 'Z' }

  /** `[a-z]` */
  predicate IsAsciiLower(c: char) { 'a' <= c <= 'z' }

  /** `[0-9]` */
  predicate IsAsciiDigit(c: char) { '0' <= c <= '9' }

  /** `[a-zA-Z0-9_]` */
  predicate IsWordChar(c: char) {
    IsAsciiUpper(c) || IsAsciiLower(c) || IsAsciiDigit(c) || c == '_'
  }

  /** The password class `[!@#$%^&*()_+\-=\[\]{};':"\\|,.<>\?]`. As code points it is the
      four runs `!` to `.`, `:` to `@`, `[` to `_` and `{` to `}`; '/', '`' and '~' lie
      between the runs and are not in the class. */
  predicate IsPasswordSpecial(c: char) {
    ('!' <= c <= '.') || (':' <= c <= '@') || ('[' <= c <= '_') || ('{' <= c <= '}')
  }

  /** `/[A-Z]/.test(s)` */
  predicate HasUpper(s: string) { exists i | 0 <= i < |s| :: IsAsciiUpper(s[i]) }

  /** `/[a-z]/.test(s)` */
  predicate HasLower(s: string) { exists i | 0 <= i < |s| :: IsAsciiLower(s[i]) }

  /** `/[0-9]/.test(s)` */
  predicate HasDigit(s: string) { exists i | 0 <= i < |s| :: IsAsciiDigit(s[i]) }

  /** `/[!@#...?]/.test(s)` */
  predicate HasSpecial(s: string) { exists i | 0 <= i < |s| :: IsPasswordSpecial(s[i]) }

  /** `/^[a-zA-Z0-9_]+$/.test(s)` */
  predicate IsWord(s: string) {
    |s| > 0 && forall i | 0 <= i < |s| :: IsWordChar(s[i])
  }

  /** `parts.join(sep)` */
  function Join(parts: seq<string>, sep: string): (r: string)
    ensures parts == [] ==> r == ""
    ensures |parts| == 1 ==> r == parts[0]
  {
    if |parts| == 0 then ""
    else if |parts| == 1 then parts[0]
    else parts[0] + sep + Join(parts[1..], sep)
  }

  /** Joining builds the text left to right: one more part adds the separator and that part at
      the end, so `Join([a, b, c], ", ")` is `a + ", " + b + ", " + c`. */
  lemma {:induction false} JoinAppend(parts: seq<string>, x: string, sep: string)
    requires |parts| >= 1
    ensures Join(parts + [x], sep) == Join(parts, sep) + sep + x
  {
    if |parts| == 1 {
      assert (parts + [x])[1..] == [x];
    } else {
      assert (parts + [x])[1..] == parts[1..] + [x];
      JoinAppend(parts[1..], x, sep);
    }
  }

  /** The length of the joined text: every part, and one separator between each two. */
  lemma {:induction false} JoinLength(parts: seq<string>, sep: string)
    requires |parts| >= 1
    ensures |Join(parts, sep)| == SumLengths(parts) + (|parts| - 1) * |sep|
  {
    if |parts| > 1 {
      JoinLength(parts[1..], sep);
    }
  }

  function SumLengths(parts: seq<string>): nat {
    if parts == [] then 0 else |parts[0]| + SumLengths(parts[1..])
  }
}
