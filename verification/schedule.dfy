/**
 * Today's effective opening hours: the weekly default of the weekday,
 * replaced by the date override when the override is a two-element list.
 */
module Schedule {
  import opened Wrappers
  import Text

  /** `datetime.weekday()`: 0 is Monday, 6 is Sunday. */
  type Weekday = d: int | 0 <= d < 7

  /** One day's opening interval in whole hours, end hour exclusive. */
  datatype Hours = Hours(start: int, end: int)

  /** The full weekday names, indexed by `Weekday`. */
  const DayNames: seq<string> :=
    ["Ponedjeljak", "Utorak", "Srijeda", "Četvrtak", "Petak", "Subota", "Nedjelja"]

  /** The weekly default schedule, keyed by lower-case weekday name; Sunday has none. */
  const WeeklyHours: map<string, Option<Hours>> := map[
    "ponedjeljak" := Some(Hours(10, 20)),
    "utorak" := Some(Hours(10, 20)),
    "srijeda" := Some(Hours(10, 20)),
    "četvrtak" := Some(Hours(10, 20)),
    "petak" := Some(Hours(10, 20)),
    "subota" := Some(Hours(10, 14)),
    "nedjelja" := None
  ]

  /**
   * The JSON value stored for a date: a two-element list whose elements are
   * whole hours or `null`, or any other JSON value.
   */
  datatype OverrideValue = Pair(first: Option<int>, second: Option<int>) | Other

  /** The override store: date string to stored value. */
  type Store = map<string, OverrideValue>

  /** The possibly unset opening and closing hour the status is computed from. */
  datatype Bounds = Bounds(start: Option<int>, end: Option<int>)

  /** What the bounds amount to: closed for the day, or an opening interval. */
  datatype Effective = Closed | Open(start: int, end: int)

  /** The default for a weekday: its lower-cased name looked up in the weekly table. */
  function WeekdayDefault(d: Weekday): (r: Option<Hours>)
    ensures r.None? <==> d == 6
    ensures d < 5 ==> r == Some(Hours(10, 20))
    ensures d == 5 ==> r == Some(Hours(10, 14))
  {
    var key := Text.Lower(DayNames[d]);
    WeeklyHoursEntries(d);
    if key in WeeklyHours then WeeklyHours[key] else None
  }

  /**
   * Looking up a weekday's lower-cased name always finds an entry of the
   * weekly table; Sunday's entry is empty.
   */
  lemma WeeklyHoursEntries(d: Weekday)
    ensures Text.Lower(DayNames[d]) in WeeklyHours
    ensures WeeklyHours[Text.Lower(DayNames[d])] ==
              (if d == 6 then None else if d == 5 then Some(Hours(10, 14)) else Some(Hours(10, 20)))
  {
    if d == 0 {
      Entry0();
    } else if d == 1 {
      Entry1();
    } else if d == 2 {
      Entry2();
    } else if d == 3 {
      Entry3();
    } else if d == 4 {
      Entry4();
    } else if d == 5 {
      Entry5();
    } else {
      Entry6();
    }
  }

  // The weekday entries one at a time: one proof for all seven at once is too costly.
  lemma Entry0()
    ensures Text.Lower(DayNames[0]) in WeeklyHours && WeeklyHours[Text.Lower(DayNames[0])] == Some(Hours(10, 20))
  {
    assert DayNames[0] == "Ponedjeljak";
    MondayLowered();
    assert "ponedjeljak" in WeeklyHours && WeeklyHours["ponedjeljak"] == Some(Hours(10, 20));
  }

  /** Monday's name lower-cased, on its own: it is the longest name. */
  lemma MondayLowered()
    ensures Text.Lower("Ponedjeljak") == "ponedjeljak"
  {
    Text.LowerIs("Ponedjeljak", "ponedjeljak");
  }

  lemma Entry1()
    ensures Text.Lower(DayNames[1]) in WeeklyHours && WeeklyHours[Text.Lower(DayNames[1])] == Some(Hours(10, 20))
  {
    assert DayNames[1] == "Utorak";
    Text.LowerIs("Utorak", "utorak");
    assert "utorak" in WeeklyHours && WeeklyHours["utorak"] == Some(Hours(10, 20));
  }

  lemma Entry2()
    ensures Text.Lower(DayNames[2]) in WeeklyHours && WeeklyHours[Text.Lower(DayNames[2])] == Some(Hours(10, 20))
  {
    assert DayNames[2] == "Srijeda";
    Text.LowerIs("Srijeda", "srijeda");
    assert "srijeda" in WeeklyHours && WeeklyHours["srijeda"] == Some(Hours(10, 20));
  }

  lemma Entry3()
    ensures Text.Lower(DayNames[3]) in WeeklyHours && WeeklyHours[Text.Lower(DayNames[3])] == Some(Hours(10, 20))
  {
    assert DayNames[3] == "Četvrtak";
    Text.LowerIs("Četvrtak", "četvrtak");
    assert "četvrtak" in WeeklyHours && WeeklyHours["četvrtak"] == Some(Hours(10, 20));
  }

  lemma Entry4()
    ensures Text.Lower(DayNames[4]) in WeeklyHours && WeeklyHours[Text.Lower(DayNames[4])] == Some(Hours(10, 20))
  {
    assert DayNames[4] == "Petak";
    Text.LowerIs("Petak", "petak");
    assert "petak" in WeeklyHours && WeeklyHours["petak"] == Some(Hours(10, 20));
  }

  lemma Entry5()
    ensures Text.Lower(DayNames[5]) in WeeklyHours && WeeklyHours[Text.Lower(DayNames[5])] == Some(Hours(10, 14))
  {
    assert DayNames[5] == "Subota";
    Text.LowerIs("Subota", "subota");
    assert "subota" in WeeklyHours && WeeklyHours["subota"] == Some(Hours(10, 14));
  }

  lemma Entry6()
    ensures Text.Lower(DayNames[6]) in WeeklyHours && WeeklyHours[Text.Lower(DayNames[6])] == None
  {
    assert DayNames[6] == "Nedjelja";
    Text.LowerIs("Nedjelja", "nedjelja");
    assert "nedjelja" in WeeklyHours && WeeklyHours["nedjelja"] == None;
  }

  /** The bounds the weekly default gives on its own: both unset on Sunday, both set on every other day. */
  function DefaultBounds(d: Weekday): (b: Bounds)
    ensures b.start.None? <==> d == 6
    ensures b.end.None? <==> d == 6
    ensures d < 5 ==> b == Bounds(Some(10), Some(20))
    ensures d == 5 ==> b == Bounds(Some(10), Some(14))
  {
    match WeekdayDefault(d)
    case None => Bounds(None, None)
    case Some(h) => Bounds(Some(h.start), Some(h.end))
  }

  /**
   * The bounds the home page works with on weekday `d` and date `date`: a
   * two-element list stored for the date replaces both bounds, element for
   * element; no override, or any other stored value, keeps the default.
   */
  function Resolve(d: Weekday, store: Store, date: string): Bounds
  {
    if date in store && store[date].Pair? then Bounds(store[date].first, store[date].second)
    else DefaultBounds(d)
  }

  /** Closed when either bound is unset, otherwise the interval they span. */
  function ToEffective(b: Bounds): Effective
  {
    if b.start.None? || b.end.None? then Closed else Open(b.start.value, b.end.value)
  }

  /** The effective schedule for weekday `d` and date `date`. */
  function EffectiveFor(d: Weekday, store: Store, date: string): Effective {
    ToEffective(Resolve(d, store, date))
  }

  /** A list with both hours set forces exactly those hours, whatever the weekday, Sunday included. */
  lemma FullOverrideWins(d: Weekday, store: Store, date: string, s: int, e: int)
    requires date in store && store[date] == Pair(Some(s), Some(e))
    ensures EffectiveFor(d, store, date) == Open(s, e)
  {
  }

  /** A list with an unset hour closes the day, whatever the weekday default. */
  lemma PartialOverrideCloses(d: Weekday, store: Store, date: string)
    requires date in store && store[date].Pair?
    requires store[date].first.None? || store[date].second.None?
    ensures EffectiveFor(d, store, date) == Closed
  {
  }

  /** Without an applicable override the weekly default is in force; Sunday is then closed. */
  lemma DefaultStands(d: Weekday, store: Store, date: string)
    requires date !in store || store[date].Other?
    ensures EffectiveFor(d, store, date) == (if d == 6 then Closed else Open(WeekdayDefault(d).value.start, WeekdayDefault(d).value.end))
    ensures d == 6 ==> EffectiveFor(d, store, date) == Closed
  {
  }

  /** The shop is scheduled to open on a day exactly when one of the two sources gives both hours. */
  lemma OpenExactly(d: Weekday, store: Store, date: string, s: int, e: int)
    ensures EffectiveFor(d, store, date) == Open(s, e) <==>
            (date in store && store[date] == Pair(Some(s), Some(e)))
            || ((date !in store || store[date].Other?) && WeekdayDefault(d) == Some(Hours(s, e)))
  {
  }
}
