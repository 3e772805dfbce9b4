/**
 * Whole numbers as decimal text: `str(int(h))` for the hour labels and the
 * subset of Python's `int(x)` that the admin form handler relies on.
 */
module Numbers {
  import opened Wrappers
  import Text

  predicate IsDigit(c: char) {
    '0' <= c <= '9'
  }

  predicate AllDigits(s: string) {
    forall i :: 0 <= i < |s| ==> IsDigit(s[i])
  }

  function DigitChar(d: int): (c: char)
    requires 0 <= d < 10
    ensures IsDigit(c) && c as int - '0' as int == d
  {
    ('0' as int + d) as char
  }

  /** The number a string of decimal digits denotes, most significant digit first. */
  function DigitsValue(s: string): nat
    requires AllDigits(s)
  {
    if |s| == 0 then 0
    else DigitsValue(s[..|s| - 1]) * 10 + (s[|s| - 1] as int - '0' as int)
  }

  function Pow10(k: nat): (p: nat)
    ensures p >= 1
  {
    if k == 0 then 1 else 10 * Pow10(k - 1)
  }

  lemma {:induction false} Pow10Monotone(j: nat, k: nat)
    requires j <= k
    ensures Pow10(j) <= Pow10(k)
    decreases k - j
  {
    if j < k {
      Pow10Monotone(j, k - 1);
    }
  }

  /** The spelling `str()` gives a natural number: digits only, no leading zero. */
  predicate Canonical(s: string) {
    |s| >= 1 && AllDigits(s) && (|s| > 1 ==> s[0] != '0')
  }

  /** A string of `k` digits denotes less than 10^k, and at least 10^(k-1) when it has no leading zero. */
  lemma {:induction false} DigitsValueBounds(s: string)
    requires AllDigits(s)
    ensures DigitsValue(s) < Pow10(|s|)
    ensures |s| >= 1 && s[0] != '0' ==> DigitsValue(s) >= Pow10(|s| - 1)
  {
    if |s| > 0 {
      var p := s[..|s| - 1];
      DigitsValueBounds(p);
      if |s| >= 2 && s[0] != '0' {
        assert p[0] == s[0];
      }
    }
  }

  /** A canonical spelling is no longer than another canonical spelling of the same number. */
  lemma CanonicalSameLength(a: string, b: string)
    requires Canonical(a) && Canonical(b)
    requires DigitsValue(a) == DigitsValue(b)
    ensures |a| <= |b|
  {
    DigitsValueBounds(a);
    DigitsValueBounds(b);
    if |a| > 1 {
      Pow10Reflects(|a| - 1, |b|);
    }
  }

  /** Powers of ten are ordered as their exponents. */
  lemma Pow10Reflects(j: nat, k: nat)
    ensures Pow10(j) < Pow10(k) ==> j < k
  {
    if k <= j {
      Pow10Monotone(k, j);
    }
  }

  /** Two canonical spellings of the same number are the same string. */
  lemma {:induction false} CanonicalUnique(a: string, b: string)
    requires Canonical(a) && Canonical(b)
    requires DigitsValue(a) == DigitsValue(b)
    ensures a == b
    decreases |a|
  {
    CanonicalSameLength(a, b);
    CanonicalSameLength(b, a);
    var n := |a|;
    var pa, pb := a[..n - 1], b[..n - 1];
    assert a[n - 1] == b[n - 1];
    if n > 1 {
      assert pa[0] == a[0] && pb[0] == b[0];
      CanonicalUnique(pa, pb);
      assert a == pa + [a[n - 1]];
      assert b == pb + [b[n - 1]];
    }
  }

  /** `str(n)` for a natural number. */
  function NatToString(n: nat): (r: string)
    ensures Canonical(r)
    ensures DigitsValue(r) == n
  {
    if n < 10 then [DigitChar(n)]
    else
      var r := NatToString(n / 10) + [DigitChar(n % 10)];
      assert r[..|r| - 1] == NatToString(n / 10);
      r
  }

  /** `str(i)` for a Python int: a minus sign before the digits of a negative number. */
  function IntToString(i: int): (r: string)
    ensures |r| >= 1
    ensures i < 0 <==> r[0] == '-'
    ensures i >= 0 ==> Canonical(r) && DigitsValue(r) == i
    ensures i < 0 ==> Canonical(r[1..]) && r[1] != '0' && DigitsValue(r[1..]) == -i
  {
    if i < 0 then "-" + NatToString(-i) else NatToString(i)
  }

  /** `IntToString(i)` is the only canonical decimal spelling of `i`. */
  lemma IntToStringUnique(i: int, s: string)
    requires || (i >= 0 && Canonical(s) && DigitsValue(s) == i)
             || (i < 0 && |s| >= 2 && s[0] == '-' && Canonical(s[1..]) && DigitsValue(s[1..]) == -i)
    ensures IntToString(i) == s
  {
    var r := IntToString(i);
    if i >= 0 {
      CanonicalUnique(r, s);
    } else {
      CanonicalUnique(r[1..], s[1..]);
      assert r == [r[0]] + r[1..] && s == [s[0]] + s[1..];
    }
  }

  /**
   * The digit part Python's `int()` accepts in base 10: ASCII digits, where a
   * single underscore may stand between two digits.
   */
  predicate IsDigitGroups(s: string) {
    && |s| > 0 && IsDigit(s[0]) && IsDigit(s[|s| - 1])
    && (forall i :: 0 <= i < |s| ==> IsDigit(s[i]) || s[i] == '_')
    && (forall i :: 0 <= i < |s| - 1 ==> s[i] == '_' ==> s[i + 1] != '_')
  }

  /** `s` with its underscores taken out: the other characters, in their order. */
  function RemoveUnderscores(s: string): (r: string)
    ensures |r| <= |s| && '_' !in r
  {
    if |s| == 0 then ""
    else
      var rest := RemoveUnderscores(s[1..]);
      (if s[0] == '_' then "" else [s[0]]) + rest
  }

  /** Digits and underscores leave digits; plain digits are left as they are. */
  lemma {:induction false} RemoveUnderscoresDigits(s: string)
    ensures (forall i :: 0 <= i < |s| ==> IsDigit(s[i]) || s[i] == '_') ==> AllDigits(RemoveUnderscores(s))
    ensures AllDigits(s) ==> RemoveUnderscores(s) == s
    decreases |s|
  {
    if |s| > 0 {
      RemoveUnderscoresDigits(s[1..]);
      assert s == [s[0]] + s[1..];
    }
  }

  /** Taking out underscores keeps every other character, as often as it occurs. */
  lemma {:induction false} RemoveUnderscoresKeeps(s: string)
    ensures multiset(RemoveUnderscores(s)) == multiset(s)['_' := 0]
    decreases |s|
  {
    if |s| > 0 {
      RemoveUnderscoresKeeps(s[1..]);
      assert s == [s[0]] + s[1..];
      assert multiset(s) == multiset([s[0]]) + multiset(s[1..]);
    }
  }

  /** Taking out underscores commutes with concatenation. */
  lemma {:induction false} RemoveUnderscoresAppend(a: string, b: string)
    ensures RemoveUnderscores(a + b) == RemoveUnderscores(a) + RemoveUnderscores(b)
    decreases |a|
  {
    if |a| == 0 {
      assert a + b == b;
    } else {
      RemoveUnderscoresAppend(a[1..], b);
      RemoveUnderscoresAppendStep(a, b);
    }
  }

  /** The inductive step of `RemoveUnderscoresAppend`: from the tail of `a` to `a`. */
  lemma RemoveUnderscoresAppendStep(a: string, b: string)
    requires |a| > 0
    requires RemoveUnderscores(a[1..] + b) == RemoveUnderscores(a[1..]) + RemoveUnderscores(b)
    ensures RemoveUnderscores(a + b) == RemoveUnderscores(a) + RemoveUnderscores(b)
  {
    var t := a[1..];
    SplitHead(a, b);
    RemoveUnderscoresCons(a[0], t + b);
    RemoveUnderscoresCons(a[0], t);
    AppendAssoc(if a[0] == '_' then "" else [a[0]], RemoveUnderscores(t), RemoveUnderscores(b));
  }

  /** Taking out the underscores of a text with a given first character. */
  lemma RemoveUnderscoresCons(c: char, t: string)
    ensures RemoveUnderscores([c] + t) == (if c == '_' then "" else [c]) + RemoveUnderscores(t)
  {
    assert ([c] + t)[0] == c;
    assert ([c] + t)[1..] == t;
  }

  /** A non-empty `a` is its first character followed by the rest, also inside `a + b`. */
  lemma SplitHead(a: string, b: string)
    requires |a| > 0
    ensures a == [a[0]] + a[1..] && a + b == [a[0]] + (a[1..] + b)
  {
  }

  /** Concatenation is associative. */
  lemma AppendAssoc<T>(x: seq<T>, y: seq<T>, z: seq<T>)
    ensures x + (y + z) == (x + y) + z
  {
  }

  /** The value of the digit part, or None when `s` is not one. */
  function ParseDigitGroups(s: string): (r: Option<nat>)
    ensures r.Some? <==> IsDigitGroups(s)
    ensures AllDigits(s) && |s| > 0 ==> r == Some(DigitsValue(s))
  {
    RemoveUnderscoresDigits(s);
    if IsDigitGroups(s) then Some(DigitsValue(RemoveUnderscores(s))) else None
  }

  /**
   * `int(x)` on a string `x`: surrounding whitespace in the sense of `int()`
   * is ignored, an optional `+` or `-` sign comes first, the digit part
   * follows; anything else is a `ValueError`, modelled as None.
   */
  function ParseInt(x: string): (r: Option<int>)
    ensures var t := Text.StripOf(Text.IntSpaces, x);
            r.Some? <==> (IsDigitGroups(t) || (|t| > 0 && (t[0] == '+' || t[0] == '-') && IsDigitGroups(t[1..])))
    ensures var t := Text.StripOf(Text.IntSpaces, x);
            |t| > 0 && AllDigits(t) ==> r == Some(DigitsValue(t))
    ensures var t := Text.StripOf(Text.IntSpaces, x);
            |t| > 1 && t[0] == '-' && AllDigits(t[1..]) ==> r == Some(-(DigitsValue(t[1..]) as int))
    ensures r.Some? && Text.StripOf(Text.IntSpaces, x)[0] == '-' ==> r.value <= 0
    ensures r.Some? && Text.StripOf(Text.IntSpaces, x)[0] != '-' ==> r.value >= 0
  {
    var t := Text.StripOf(Text.IntSpaces, x);
    if |t| > 0 && (t[0] == '+' || t[0] == '-') then
      match ParseDigitGroups(t[1..])
      case None => None
      case Some(n) => Some(if t[0] == '-' then -(n as int) else n as int)
    else
      match ParseDigitGroups(t)
      case None => None
      case Some(n) => Some(n)
  }

  /** Digit groups stand for themselves under `int()`: they carry no padding. */
  lemma DigitGroupsUnpadded(s: string)
    requires IsDigitGroups(s)
    ensures Text.StripOf(Text.IntSpaces, s) == s
  {
    Text.StripUnpadded(Text.IntSpaces, s);
  }

  /** A `+` sign changes nothing. */
  lemma ParseIntPlus(s: string)
    requires IsDigitGroups(s)
    ensures ParseInt("+" + s) == ParseInt(s)
  {
    DigitGroupsUnpadded(s);
    Text.StripUnpadded(Text.IntSpaces, "+" + s);
    assert ("+" + s)[1..] == s;
  }

  /** A `-` sign negates. */
  lemma ParseIntMinus(s: string)
    requires IsDigitGroups(s)
    ensures ParseInt(s).Some?
    ensures ParseInt("-" + s) == Some(-ParseInt(s).value)
  {
    DigitGroupsUnpadded(s);
    Text.StripUnpadded(Text.IntSpaces, "-" + s);
    assert ("-" + s)[1..] == s;
  }

  /** Unsigned digit groups read as the digits they hold. */
  lemma ParseIntGroups(s: string)
    requires IsDigitGroups(s)
    ensures AllDigits(RemoveUnderscores(s))
    ensures ParseInt(s) == Some(DigitsValue(RemoveUnderscores(s)) as int)
  {
    RemoveUnderscoresDigits(s);
    DigitGroupsUnpadded(s);
  }

  /** Two digit groups make digit groups, joined directly or by one underscore. */
  lemma DigitGroupsJoin(a: string, b: string)
    requires IsDigitGroups(a) && IsDigitGroups(b)
    ensures IsDigitGroups(a + "_" + b) && IsDigitGroups(a + b)
  {
    var s, t := a + "_" + b, a + b;
    assert forall i :: 0 <= i < |s| ==> s[i] == (if i < |a| then a[i] else if i == |a| then '_' else b[i - |a| - 1]);
    assert forall i :: 0 <= i < |t| ==> t[i] == (if i < |a| then a[i] else b[i - |a|]);
  }

  /** Taking out the underscores of `a_b` gives those of `ab`. */
  lemma RemoveUnderscoresJoin(a: string, b: string)
    ensures RemoveUnderscores(a + "_" + b) == RemoveUnderscores(a + b)
  {
    assert a + "_" + b == a + ("_" + b);
    RemoveUnderscoresAppend(a, "_" + b);
    RemoveUnderscoresAppend("_", b);
    RemoveUnderscoresAppend(a, b);
    assert RemoveUnderscores("_") == "";
    assert RemoveUnderscores("_" + b) == RemoveUnderscores(b);
  }

  /** An underscore between two digit groups does not change the value. */
  lemma ParseIntUnderscore(a: string, b: string)
    requires IsDigitGroups(a) && IsDigitGroups(b)
    ensures ParseInt(a + "_" + b) == ParseInt(a + b)
  {
    DigitGroupsJoin(a, b);
    ParseIntGroups(a + "_" + b);
    ParseIntGroups(a + b);
    RemoveUnderscoresJoin(a, b);
  }

  /** Reading back the decimal text of any whole number gives that number. */
  lemma {:induction false} ParseIntOfIntToString(i: int)
    ensures ParseInt(IntToString(i)) == Some(i)
  {
    var s := IntToString(i);
    assert !Text.IsSpaceOf(Text.IntSpaces, s[0]) && !Text.IsSpaceOf(Text.IntSpaces, s[|s| - 1]);
    Text.StripUnpadded(Text.IntSpaces, s);
    if i < 0 {
      var d := NatToString(-i);
      assert s[1..] == d;
    }
  }

  /** Surrounding whitespace in the sense of `int()` does not change what `int()` reads. */
  lemma ParseIntIgnoresPadding(x: string)
    ensures ParseInt(Text.StripOf(Text.IntSpaces, x)) == ParseInt(x)
  {
    Text.StripIdempotent(Text.IntSpaces, x);
  }

  /**
   * U+001C is whitespace to `str.strip()` but not to `int()`: stripping
   * removes it, while `int()` rejects a number it precedes.
   */
  lemma SeparatorIsNotIntPadding()
    ensures Text.Strip("\U{1C}9") == "9"
    ensures ParseInt("\U{1C}9") == None
  {
    assert Text.LeadingSpaces(Text.StrSpaces, "\U{1C}9") == 1;
    assert Text.LeadingSpaces(Text.IntSpaces, "\U{1C}9") == 0;
    Text.StripUnpadded(Text.IntSpaces, "\U{1C}9");
  }
}
