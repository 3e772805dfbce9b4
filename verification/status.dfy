/**
 * The home page status: whether the office is open at the current time,
 * and the HTML, speech and banner texts and the icon that report it.
 */
module Status {
  import opened Wrappers
  import Text
  import Numbers
  import opened Schedule

  type Hour = h: int | 0 <= h < 24
  type Minute = m: int | 0 <= m < 60

  /** The wall-clock time of the request in the office's timezone. */
  datatype Clock = Clock(hour: Hour, minute: Minute)

  /** The open test in whole minutes: from the opening hour up to, not including, the closing hour. */
  predicate OpenAt(start: int, end: int, c: Clock) {
    start * 60 <= c.hour * 60 + c.minute < end * 60
  }

  /** The open test as written on fractional hours: `start <= hour + minute / 60 < end`. */
  ghost predicate OpenAtFractional(start: int, end: int, c: Clock) {
    start as real <= c.hour as real + c.minute as real / 60.0 < end as real
  }

  /** For whole-hour bounds the test in minutes is the fractional test. */
  lemma OpenAtIsFractional(start: int, end: int, c: Clock)
    ensures OpenAt(start, end, c) <==> OpenAtFractional(start, end, c)
  {
    var t := c.hour as real + c.minute as real / 60.0;
    assert t * 60.0 == (c.hour * 60 + c.minute) as real;
  }

  /** The closing hour itself is outside the interval, the opening hour inside it. */
  lemma OpenBoundaries(start: int, end: int)
    ensures 0 <= end < 24 ==> !OpenAt(start, end, Clock(end, 0))
    ensures 0 <= start < 24 ==> (OpenAt(start, end, Clock(start, 0)) <==> start < end)
  {
  }

  const NonWorkingDay: string := "Danas je neradni dan."
  const OpenLine: string := "Ordinacija je trenutno otvorena."
  const ClosedLine: string := "Ordinacija je trenutno zatvorena."
  const HoursPrefix: string := "Danas je radno vrijeme od "
  const HoursMiddle: string := " do "
  const HoursSuffix: string := " časova."
  const OpenIcon: string := "open.png"
  const ClosedIcon: string := "close1.png"

  /** The fixed texts contain no `<`. */
  lemma FixedTextsUntagged()
    ensures Text.NoTag(OpenLine) && Text.NoTag(ClosedLine) && Text.NoTag(NonWorkingDay)
    ensures Text.NoTag(HoursPrefix) && Text.NoTag(HoursMiddle) && Text.NoTag(HoursSuffix)
  {
  }

  /** `sat_label(h)` on a whole hour: its decimal text. */
  function HourLabel(h: int): (r: string)
    ensures h >= 0 ==> Numbers.Canonical(r) && Numbers.DigitsValue(r) == h
    ensures h < 0 ==> |r| >= 2 && r[0] == '-' && Numbers.Canonical(r[1..]) && Numbers.DigitsValue(r[1..]) == -h
    ensures r != [] && Text.NoTag(r)
  {
    var r := Numbers.IntToString(h);
    assert forall i :: 0 <= i < |r| ==> r[i] == '-' || Numbers.IsDigit(r[i]);
    r
  }

  /** An hour label reads back, under `int()`, as the hour it labels. */
  lemma HourLabelReadsBack(h: int)
    ensures Numbers.ParseInt(HourLabel(h)) == Some(h)
  {
    Numbers.ParseIntOfIntToString(h);
  }

  /** The label is the one decimal spelling of the hour: any other canonical spelling is the same string. */
  lemma HourLabelIsDecimal(h: int, s: string)
    requires || (h >= 0 && Numbers.Canonical(s) && Numbers.DigitsValue(s) == h)
             || (h < 0 && |s| >= 2 && s[0] == '-' && Numbers.Canonical(s[1..]) && Numbers.DigitsValue(s[1..]) == -h)
    ensures HourLabel(h) == s
  {
    Numbers.IntToStringUnique(h, s);
  }

  /** The second status line, naming today's hours. */
  function HoursLine(start: int, end: int): (r: string)
    ensures Text.NoTag(r)
  {
    var a, b := HourLabel(start), HourLabel(end);
    FixedTextsUntagged();
    HoursPrefix + a + HoursMiddle + b + HoursSuffix
  }

  /** The two status lines of an open-interval day. */
  function StatusLines(start: int, end: int, c: Clock): (lines: seq<string>)
    ensures |lines| == 2
    ensures forall i :: 0 <= i < |lines| ==> Text.NoTag(lines[i])
  {
    FixedTextsUntagged();
    var first := if OpenAt(start, end, c) then OpenLine else ClosedLine;
    var second := HoursLine(start, end);
    [first, second]
  }

  /** What the home page shows. */
  datatype Message = Message(html: string, tts: string, banner: string, icon: string)

  /**
   * The status for the resolved bounds at time `c`. A missing bound gives
   * the non-working-day sentence; otherwise the two status lines, joined
   * with `<br>` for HTML and with a space for speech.
   */
  function Format(b: Bounds, c: Clock): (m: Message)
    ensures m.icon == OpenIcon <==> (ToEffective(b).Open? && OpenAt(ToEffective(b).start, ToEffective(b).end, c))
    ensures m.icon == OpenIcon || m.icon == ClosedIcon
    ensures ToEffective(b).Closed? ==> m.html == NonWorkingDay && m.tts == NonWorkingDay
    ensures m.tts == Text.ReplaceBreaks(m.html)
    ensures m.banner == Text.Upper(m.html)
  {
    if b.start.None? || b.end.None? then
      Text.ReplaceBreaksUntagged(NonWorkingDay, "");
      assert NonWorkingDay + "" == NonWorkingDay;
      var html := NonWorkingDay;
      Message(html, NonWorkingDay, Text.Upper(html), ClosedIcon)
    else
      var lines := StatusLines(b.start.value, b.end.value, c);
      var html := Text.Join(Text.Break, lines);
      Text.ReplaceBreaksOfJoin(lines);
      Message(html, Text.Join(" ", lines), Text.Upper(html),
              if OpenAt(b.start.value, b.end.value, c) then OpenIcon else ClosedIcon)
  }

  /** The home page for weekday `d`, date `date` and time `c`, with the stored overrides. */
  function Index(d: Weekday, store: Store, date: string, c: Clock): (m: Message)
    ensures var e := EffectiveFor(d, store, date);
            m.icon == OpenIcon <==> e.Open? && OpenAt(e.start, e.end, c)
    ensures EffectiveFor(d, store, date).Closed? ==> m.html == NonWorkingDay
  {
    Format(Resolve(d, store, date), c)
  }

  /** On an open-interval day the HTML is the open-or-closed line, a break, and the hours line; the speech text has a space instead. */
  lemma OpenDayText(s: int, e: int, c: Clock)
    ensures var first := if OpenAt(s, e, c) then OpenLine else ClosedLine;
            && Format(Bounds(Some(s), Some(e)), c).html == first + Text.Break + HoursLine(s, e)
            && Format(Bounds(Some(s), Some(e)), c).tts == first + " " + HoursLine(s, e)
  {
    var lines := StatusLines(s, e, c);
    assert lines[1..] == [HoursLine(s, e)];
    assert Text.Join(Text.Break, lines[1..]) == HoursLine(s, e);
    assert Text.Join(" ", lines[1..]) == HoursLine(s, e);
  }

  /** The hours line does not depend on the time of day: only the first line and the icon do. */
  lemma HoursLineIndependentOfClock(s: int, e: int, c1: Clock, c2: Clock)
    ensures StatusLines(s, e, c1)[1] == StatusLines(s, e, c2)[1]
    ensures OpenAt(s, e, c1) == OpenAt(s, e, c2) ==> Format(Bounds(Some(s), Some(e)), c1) == Format(Bounds(Some(s), Some(e)), c2)
  {
  }

  /** `sat_label(10)` is "10". */
  lemma HourLabelTen()
    ensures HourLabel(10) == "10"
  {
    assert Numbers.NatToString(1) == "1";
    assert Numbers.NatToString(0) == "0";
  }

  /** The closed-day banner. */
  lemma NonWorkingBanner(d: Weekday, store: Store, date: string, c: Clock)
    requires EffectiveFor(d, store, date).Closed?
    ensures Index(d, store, date, c).banner == "DANAS JE NERADNI DAN."
    ensures Index(d, store, date, c).icon == ClosedIcon
  {
    var m := Format(Resolve(d, store, date), c);
    assert m.html == NonWorkingDay;
    UpperNonWorkingDay();
  }

  lemma UpperNonWorkingDay()
    ensures Text.Upper(NonWorkingDay) == "DANAS JE NERADNI DAN."
  {
    Text.UpperIs("Danas je neradni dan.", "DANAS JE NERADNI DAN.");
  }

  /** The hours line of a Monday-to-Friday default day. */
  lemma WeekdayHoursLine()
    ensures HoursLine(10, 20) == "Danas je radno vrijeme od 10 do 20 časova."
  {
    HourLabelTen();
    assert HourLabel(20) == "20" by {
      assert Numbers.NatToString(2) == "2";
      assert Numbers.NatToString(0) == "0";
    }
  }

  /** A Wednesday with no overrides, at 14:00 and at 21:00. */
  lemma WednesdayScenarios()
    ensures Index(2, map[], "2024-05-15", Clock(14, 0)).icon == OpenIcon
    ensures Index(2, map[], "2024-05-15", Clock(14, 0)).html ==
              OpenLine + "<br>" + "Danas je radno vrijeme od 10 do 20 časova."
    ensures Index(2, map[], "2024-05-15", Clock(21, 0)).icon == ClosedIcon
    ensures Index(2, map[], "2024-05-15", Clock(21, 0)).tts ==
              ClosedLine + " " + "Danas je radno vrijeme od 10 do 20 časova."
  {
    var b := Resolve(2, map[], "2024-05-15");
    assert b == Bounds(Some(10), Some(20));
    WeekdayHoursLine();
    OpenDayText(10, 20, Clock(14, 0));
    OpenDayText(10, 20, Clock(21, 0));
  }

  /** A Sunday forced open by the override `[9, 12]`. */
  lemma SundayOverrideScenario()
    ensures EffectiveFor(6, map["2024-05-19" := Pair(Some(9), Some(12))], "2024-05-19") == Open(9, 12)
    ensures Index(6, map["2024-05-19" := Pair(Some(9), Some(12))], "2024-05-19", Clock(10, 30)).icon == OpenIcon
    ensures Index(6, map[], "2024-05-19", Clock(10, 30)).icon == ClosedIcon
  {
  }
}
