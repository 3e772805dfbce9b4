/**
 * The admin side of the override store: normalising a submitted form into
 * a stored value, writing it under the stripped date, and deleting a date.
 */
module Admin {
  import opened Wrappers
  import Text
  import Numbers
  import opened Schedule

  /**
   * A submitted admin form: the `datum` text, whether the `neradni` checkbox
   * is present, and the `start` and `end` fields, None when absent.
   */
  datatype Form = Form(datum: string, neradni: bool, start: Option<string>, end: Option<string>)

  /** `to_int_or_none(x)`: a missing field or a text `int()` rejects gives None. */
  function ToIntOrNone(x: Option<string>): (r: Option<int>)
    ensures x.None? ==> r.None?
    ensures x == Some("") ==> r.None?
    ensures x.Some? ==> r == Numbers.ParseInt(x.value)
    ensures forall i: int {:trigger Numbers.IntToString(i)} :: x == Some(Numbers.IntToString(i)) ==> r == Some(i)
  {
    forall i: int ensures Numbers.ParseInt(Numbers.IntToString(i)) == Some(i) {
      Numbers.ParseIntOfIntToString(i);
    }
    match x
    case None => None
    case Some(s) => Numbers.ParseInt(s)
  }

  /**
   * The value stored for a form: `[None, None]` when the day is marked
   * non-working or either hour does not parse, both parsed hours otherwise.
   */
  function Normalise(f: Form): (v: OverrideValue)
    ensures v.Pair?
    ensures v.first.Some? <==> v.second.Some?
    ensures v.first.Some? <==> !f.neradni && ToIntOrNone(f.start).Some? && ToIntOrNone(f.end).Some?
    ensures v.first.Some? ==> v == Pair(ToIntOrNone(f.start), ToIntOrNone(f.end))
  {
    if f.neradni then Pair(None, None)
    else
      var start := ToIntOrNone(f.start);
      var end := ToIntOrNone(f.end);
      if start.None? || end.None? then Pair(None, None) else Pair(start, end)
  }

  /** The date key a form is stored under. */
  function DateKey(f: Form): (k: string)
    ensures var i := Text.LeadingSpaces(Text.StrSpaces, f.datum);
            i + |k| <= |f.datum| && k == f.datum[i..i + |k|]
            && forall j :: i + |k| <= j < |f.datum| ==> Text.IsSpace(f.datum[j])
    ensures k != [] ==> !Text.IsSpace(k[0]) && !Text.IsSpace(k[|k| - 1])
    ensures |k| <= |f.datum|
  {
    Text.Strip(f.datum)
  }

  /** A form submission: the normalised value replaces the entry of the stripped date, and nothing else changes. */
  function Submit(store: Store, f: Form): (r: Store)
    ensures r.Keys == store.Keys + {DateKey(f)}
    ensures r[DateKey(f)] == Normalise(f)
    ensures forall k :: k in store && k != DateKey(f) ==> r[k] == store[k]
  {
    store[DateKey(f) := Normalise(f)]
  }

  /** `obrisi(datum)`: removes the entry of `key` when there is one, and leaves the store as it is otherwise. */
  function Delete(store: Store, key: string): (r: Store)
    ensures r.Keys == store.Keys - {key}
    ensures forall k :: k in r ==> r[k] == store[k]
    ensures key !in store ==> r == store
  {
    if key in store then store - {key} else store
  }

  /** Submitting the same form twice leaves the store as submitting it once. */
  lemma SubmitIdempotent(store: Store, f: Form)
    ensures Submit(Submit(store, f), f) == Submit(store, f)
  {
  }

  /** Deleting the date a submission wrote undoes a submission for a new date. */
  lemma DeleteUndoesSubmit(store: Store, f: Form)
    requires DateKey(f) !in store
    ensures Delete(Submit(store, f), DateKey(f)) == store
  {
  }

  /**
   * After a submission, its date is open exactly when the form carried two
   * parsable hours and no non-working mark, and then with those hours, on
   * every weekday; otherwise its date is closed.
   */
  lemma SubmitThenResolve(d: Weekday, store: Store, f: Form)
    ensures var e := EffectiveFor(d, Submit(store, f), DateKey(f));
            if !f.neradni && ToIntOrNone(f.start).Some? && ToIntOrNone(f.end).Some?
            then e == Open(ToIntOrNone(f.start).value, ToIntOrNone(f.end).value)
            else e == Closed
  {
  }

  /** A submission changes no other date's effective schedule. */
  lemma SubmitKeepsOtherDates(d: Weekday, store: Store, f: Form, date: string)
    requires date != DateKey(f)
    ensures EffectiveFor(d, Submit(store, f), date) == EffectiveFor(d, store, date)
  {
  }

  /** A non-working-day submission for 2024-12-25 closes that day. */
  lemma ChristmasClosed(d: Weekday, store: Store, start: Option<string>, end: Option<string>)
    ensures var r := Submit(store, Form("2024-12-25", true, start, end));
            "2024-12-25" in r && r["2024-12-25"] == Pair(None, None)
    ensures EffectiveFor(d, Submit(store, Form("2024-12-25", true, start, end)), "2024-12-25") == Closed
  {
    Text.StripUnpadded(Text.StrSpaces, "2024-12-25");
  }

  /** An empty start field with an end of 18 is stored as a closed day, not as half an interval. */
  lemma EmptyStartClosed()
    ensures Normalise(Form(" 2024-05-20 ", false, Some(""), Some("18"))) == Pair(None, None)
  {
  }

  /** Texts outside the grammar give None. */
  lemma FieldRejected()
    ensures ToIntOrNone(Some("abc")) == None
    ensures ToIntOrNone(Some("9h")) == None
  {
    Text.StripUnpadded(Text.IntSpaces, "abc");
    Text.StripUnpadded(Text.IntSpaces, "9h");
  }

  /** Padding, a sign and a leading zero are read as `int()` reads them. */
  lemma FieldPaddedSigned()
    ensures ToIntOrNone(Some(" +09 ")) == Some(9)
  {
    PaddedSignedParse();
  }

  /** `int(" +09 ")` is 9: the padding goes, then the sign, then the leading zero. */
  lemma PaddedSignedParse()
    ensures Numbers.ParseInt(" +09 ") == Some(9)
  {
    PaddedStrip();
    Numbers.ParseIntIgnoresPadding(" +09 ");
    assert Numbers.ParseInt(" +09 ") == Numbers.ParseInt("+09");
    SignedLeadingZero();
  }

  /** `int("+09")` is 9. */
  lemma SignedLeadingZero()
    ensures Numbers.ParseInt("+09") == Some(9)
  {
    ZeroNineGroups();
    Numbers.ParseIntPlus("09");
    SignedZeroNine();
    LeadingZero();
  }

  /** "09" is a digit part. */
  lemma ZeroNineGroups()
    ensures Numbers.IsDigitGroups("09")
  {
    assert Numbers.AllDigits("09");
  }

  /** "+09" is "09" with its sign. */
  lemma SignedZeroNine()
    ensures "+" + "09" == "+09"
  {
  }

  /** `int()` strips the surrounding spaces of " +09 ". */
  lemma PaddedStrip()
    ensures Text.StripOf(Text.IntSpaces, " +09 ") == "+09"
  {
    assert Text.LeadingSpaces(Text.IntSpaces, " +09 ") == 1;
  }

  /** A leading zero is allowed and does not change the value. */
  lemma LeadingZero()
    ensures Numbers.ParseInt("09") == Some(9)
  {
    Text.StripUnpadded(Text.IntSpaces, "09");
    assert Numbers.DigitsValue("09") == 9 by {
      assert "09"[..1] == "0";
    }
  }

  /** An underscore between digits is read as `int()` reads it. */
  lemma FieldUnderscore()
    ensures ToIntOrNone(Some("1_0")) == Some(10)
  {
    OneUnderscoreZero();
    Ten();
  }

  /** `int("1_0")` reads "1" and "0" as one digit part. */
  lemma OneUnderscoreZero()
    ensures Numbers.ParseInt("1_0") == Numbers.ParseInt("10")
  {
    Numbers.ParseIntUnderscore("1", "0");
    OneZeroParts();
  }

  /** "1_0" and "10" are "1" and "0" with and without an underscore between them. */
  lemma OneZeroParts()
    ensures "1" + "_" + "0" == "1_0" && "1" + "0" == "10"
  {
  }

  /** "10" reads as ten. */
  lemma Ten()
    ensures Numbers.ParseInt("10") == Some(10)
  {
    Text.StripUnpadded(Text.IntSpaces, "10");
    assert Numbers.DigitsValue("10") == 10 by {
      assert "10"[..1] == "1";
    }
  }

  /** Hours 9 and 12 typed in are stored as the interval [9, 12]. */
  lemma TypedHoursStored()
    ensures Normalise(Form("2024-05-19", false, Some("9"), Some("12"))) == Pair(Some(9), Some(12))
  {
    assert Numbers.IntToString(9) == "9";
    assert Numbers.IntToString(12) == "12" by {
      assert Numbers.NatToString(1) == "1";
      assert Numbers.NatToString(2) == "2";
    }
  }
}
