/**
 * The string operations the application relies on: `str.strip()`,
 * `str.join`, `str.upper()` and `str.lower()`, restricted to the characters
 * the application's own texts use. `ReplaceBreaks` is not used by the
 * application: it is the reference against which the speech text is shown
 * to be the HTML text with each `<br>` replaced by a space.
 */
module Text {

  /**
   * The two notions of whitespace in play: `str.isspace()`, which
   * `str.strip()` removes, and the narrower set `int()` skips around a
   * number, which leaves out the ASCII separators U+001C to U+001F.
   */
  datatype Spaces = StrSpaces | IntSpaces

  /** Whether `c` is whitespace in the sense `ws`. */
  predicate IsSpaceOf(ws: Spaces, c: char) {
    || c == ' ' || c == '\t' || c == '\n' || c == '\r'
    || c == '\U{0B}' || c == '\U{0C}'
    || (ws == StrSpaces && '\U{1C}' <= c <= '\U{1F}')
    || c == '\U{85}' || c == '\U{A0}' || c == '\U{1680}'
    || ('\U{2000}' <= c <= '\U{200A}')
    || c == '\U{2028}' || c == '\U{2029}' || c == '\U{202F}'
    || c == '\U{205F}' || c == '\U{3000}'
  }

  /** Python's `str.isspace()` for one character (the Unicode whitespace set). */
  predicate IsSpace(c: char) {
    IsSpaceOf(StrSpaces, c)
  }

  /** The number of whitespace characters `s` starts with. */
  function LeadingSpaces(ws: Spaces, s: string): (n: nat)
    ensures n <= |s|
    ensures forall k :: 0 <= k < n ==> IsSpaceOf(ws, s[k])
    ensures n < |s| ==> !IsSpaceOf(ws, s[n])
  {
    if |s| > 0 && IsSpaceOf(ws, s[0]) then 1 + LeadingSpaces(ws, s[1..]) else 0
  }

  /** Removes the leading whitespace of `s`. */
  function TrimStart(ws: Spaces, s: string): (r: string)
    ensures r == s[LeadingSpaces(ws, s)..]
    ensures r != [] ==> !IsSpaceOf(ws, r[0])
  {
    s[LeadingSpaces(ws, s)..]
  }

  /** Removes the trailing whitespace of `s`. */
  function TrimEnd(ws: Spaces, s: string): (r: string)
    ensures |r| <= |s| && r == s[..|r|]
    ensures forall i :: |r| <= i < |s| ==> IsSpaceOf(ws, s[i])
    ensures r != [] ==> !IsSpaceOf(ws, r[|r| - 1])
  {
    if |s| > 0 && IsSpaceOf(ws, s[|s| - 1]) then TrimEnd(ws, s[..|s| - 1]) else s
  }

  /**
   * `s` with every leading and trailing whitespace character in the sense
   * `ws` removed; the middle of `s` is kept as it is.
   */
  function StripOf(ws: Spaces, s: string): (r: string)
    ensures var i := LeadingSpaces(ws, s);
            i + |r| <= |s| && r == s[i..i + |r|]
            && forall k :: i + |r| <= k < |s| ==> IsSpaceOf(ws, s[k])
    ensures r != [] ==> !IsSpaceOf(ws, r[0]) && !IsSpaceOf(ws, r[|r| - 1])
  {
    var t := TrimStart(ws, s);
    var r := TrimEnd(ws, t);
    var i := LeadingSpaces(ws, s);
    assert r == s[i..i + |r|];
    r
  }

  /** `s.strip()`. */
  function Strip(s: string): (r: string)
    ensures var i := LeadingSpaces(StrSpaces, s);
            i + |r| <= |s| && r == s[i..i + |r|]
            && forall k :: i + |r| <= k < |s| ==> IsSpace(s[k])
    ensures r != [] ==> !IsSpace(r[0]) && !IsSpace(r[|r| - 1])
  {
    StripOf(StrSpaces, s)
  }

  /** A string that neither starts nor ends with whitespace is its own strip. */
  lemma StripUnpadded(ws: Spaces, s: string)
    requires s != [] ==> !IsSpaceOf(ws, s[0]) && !IsSpaceOf(ws, s[|s| - 1])
    ensures StripOf(ws, s) == s
  {
  }

  /** Stripping twice is stripping once. */
  lemma StripIdempotent(ws: Spaces, s: string)
    ensures StripOf(ws, StripOf(ws, s)) == StripOf(ws, s)
  {
    StripUnpadded(ws, StripOf(ws, s));
  }

  /** `sep.join(lines)`. */
  function Join(sep: string, lines: seq<string>): string
  {
    if |lines| == 0 then ""
    else if |lines| == 1 then lines[0]
    else lines[0] + sep + Join(sep, lines[1..])
  }

  /** The HTML line-break marker that separates the status lines. */
  const Break: string := "<br>"

  /** `s.replace("<br>", " ")`: every line-break marker, scanned left to right, becomes one space. */
  function ReplaceBreaks(s: string): string
    decreases |s|
  {
    if |s| == 0 then ""
    else if |s| >= 4 && s[..4] == Break then " " + ReplaceBreaks(s[4..])
    else [s[0]] + ReplaceBreaks(s[1..])
  }

  /** No character of `s` opens an HTML tag. */
  predicate NoTag(s: string) {
    '<' !in s
  }

  /** A prefix without `<` passes through `ReplaceBreaks` untouched. */
  lemma {:induction false} ReplaceBreaksUntagged(a: string, t: string)
    requires NoTag(a)
    ensures ReplaceBreaks(a + t) == a + ReplaceBreaks(t)
    decreases |a|
  {
    if |a| > 0 {
      assert (a + t)[0] == a[0];
      assert (a + t)[1..] == a[1..] + t;
      ReplaceBreaksUntagged(a[1..], t);
      assert [a[0]] + a[1..] == a;
    } else {
      assert a + t == t;
    }
  }

  /**
   * Joining lines with `<br>` and then replacing every `<br>` by a space is
   * joining them with a space, as long as no line contains a `<`.
   */
  lemma {:induction false} ReplaceBreaksOfJoin(lines: seq<string>)
    requires forall i :: 0 <= i < |lines| ==> NoTag(lines[i])
    ensures ReplaceBreaks(Join(Break, lines)) == Join(" ", lines)
    decreases |lines|
  {
    if |lines| == 0 {
    } else if |lines| == 1 {
      ReplaceBreaksUntagged(lines[0], "");
      assert lines[0] + "" == lines[0];
    } else {
      var rest := Join(Break, lines[1..]);
      assert lines[0] + Break + rest == lines[0] + (Break + rest);
      ReplaceBreaksUntagged(lines[0], Break + rest);
      assert (Break + rest)[..4] == Break;
      assert (Break + rest)[4..] == rest;
      ReplaceBreaksOfJoin(lines[1..]);
    }
  }

  /** `c.upper()` for ASCII letters and the Latin letters of Montenegrin; every other character is unchanged. */
  function UpperChar(c: char): (u: char)
    ensures 'a' <= c <= 'z' ==> u as int == c as int - 32
    ensures !IsLowerLetter(c) ==> u == c
  {
    if 'a' <= c <= 'z' then (c as int - 32) as char
    else if c == 'č' then 'Č'
    else if c == 'ć' then 'Ć'
    else if c == 'š' then 'Š'
    else if c == 'ž' then 'Ž'
    else if c == 'đ' then 'Đ'
    else c
  }

  /** `c.lower()` for the same alphabet as `UpperChar`. */
  function LowerChar(c: char): (l: char)
    ensures 'A' <= c <= 'Z' ==> l as int == c as int + 32
    ensures !IsUpperLetter(c) ==> l == c
  {
    if 'A' <= c <= 'Z' then (c as int + 32) as char
    else if c == 'Č' then 'č'
    else if c == 'Ć' then 'ć'
    else if c == 'Š' then 'š'
    else if c == 'Ž' then 'ž'
    else if c == 'Đ' then 'đ'
    else c
  }

  predicate IsLowerLetter(c: char) {
    ('a' <= c <= 'z') || c == 'č' || c == 'ć' || c == 'š' || c == 'ž' || c == 'đ'
  }

  predicate IsUpperLetter(c: char) {
    ('A' <= c <= 'Z') || c == 'Č' || c == 'Ć' || c == 'Š' || c == 'Ž' || c == 'Đ'
  }

  /** Upper-casing and lower-casing are inverse on the letters they move. */
  lemma CaseRoundTrip(c: char)
    ensures IsLowerLetter(c) ==> IsUpperLetter(UpperChar(c)) && LowerChar(UpperChar(c)) == c
    ensures IsUpperLetter(c) ==> IsLowerLetter(LowerChar(c)) && UpperChar(LowerChar(c)) == c
  {
  }

  /** `s.upper()`, character by character. */
  function Upper(s: string): (r: string)
    ensures |r| == |s|
    ensures forall i :: 0 <= i < |s| ==> r[i] == UpperChar(s[i])
  {
    if |s| == 0 then "" else [UpperChar(s[0])] + Upper(s[1..])
  }

  /** `s.lower()`, character by character. */
  function Lower(s: string): (r: string)
    ensures |r| == |s|
    ensures forall i :: 0 <= i < |s| ==> r[i] == LowerChar(s[i])
  {
    if |s| == 0 then "" else [LowerChar(s[0])] + Lower(s[1..])
  }

  /** `Upper(s)` is `t` when `t` is `s` upper-cased character by character. */
  lemma UpperIs(s: string, t: string)
    requires |s| == |t|
    requires forall i :: 0 <= i < |s| ==> UpperChar(s[i]) == t[i]
    ensures Upper(s) == t
  {
  }

  /** `Lower(s)` is `t` when `t` is `s` lower-cased character by character. */
  lemma LowerIs(s: string, t: string)
    requires |s| == |t|
    requires forall i :: 0 <= i < |s| ==> LowerChar(s[i]) == t[i]
    ensures Lower(s) == t
  {
  }

  /** Upper-casing an upper-cased text changes nothing. */
  lemma UpperIdempotent(s: string)
    ensures Upper(Upper(s)) == Upper(s)
  {
    assert forall i :: 0 <= i < |s| ==> UpperChar(UpperChar(s[i])) == UpperChar(s[i]);
  }
}
