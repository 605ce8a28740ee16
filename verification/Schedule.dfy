/** Weekly schedules: windows of the week, some running over midnight. Days run from Monday (0) to
    Sunday (6). */
module Schedule {
  import opened Wrappers
  import opened Text

  const DAY := 1440
  const WEEK := 10080

  // Days and times of day.

  /** Go's `%`, which truncates toward zero. */
  function Rem(a: int, b: int): int
    requires b > 0
  {
    if a >= 0 then a % b else -((-a) % b)
  }

  function NormalDay(d: int): int {
    Rem(Rem(d, 7) + 7, 7)
  }

  lemma NormalDayIsModulo(d: int)
    ensures NormalDay(d) == d % 7
  {
  }

  /** The days, wrapped into the week. */
  function NormalDays(days: seq<int>): (normal: seq<int>)
    ensures |normal| == |days| && forall i :: 0 <= i < |days| ==> normal[i] == days[i] % 7
  {
    seq(|days|, i requires 0 <= i < |days| => days[i] % 7)
  }

  method NormalizeDays(days: seq<int>) returns (out: seq<int>)
    ensures out == NormalDays(days)
  {
    out := [];
    for i := 0 to |days|
      invariant |out| == i && forall k :: 0 <= k < i ==> out[k] == days[k] % 7
    {
      NormalDayIsModulo(days[i]);
      out := out + [NormalDay(days[i])];
    }
  }

  /** The day is among `days`, modulo the week. */
  ghost predicate Lists(days: seq<int>, day: int) {
    exists d :: d in days && d % 7 == day
  }

  method ContainsDay(days: seq<int>, weekday: int) returns (found: bool)
    ensures found <==> Lists(days, weekday)
  {
    var normal := NormalizeDays(days);
    for i := 0 to |normal|
      invariant forall k :: 0 <= k < i ==> days[k] % 7 != weekday
    {
      if normal[i] == weekday {
        assert days[i] in days;
        return true;
      }
    }
    return false;
  }

  datatype Time = Time(hour: nat, minute: nat) {
    predicate Valid() { hour < 24 && minute < 60 }
    function Minutes(): nat { hour * 60 + minute }
  }

  /** Both halves of `HH:MM`, numbers in range; signs and missing zeros are let through. */
  function ParseTime(v: string): (t: Option<Time>)
    ensures t.Some? ==> t.value.Valid()
  {
    var (hh, mm) := Cut(v, ':');
    if ':' !in v || Atoi(hh).None? || Atoi(mm).None? then None
    else
      var h, m := Atoi(hh).value, Atoi(mm).value;
      if h < 0 || h > 23 || m < 0 || m > 59 then None else Some(Time(h, m))
  }

  function Digit(d: nat): char
    requires d < 10
  {
    "0123456789"[d]
  }

  function TwoDigits(n: nat): string
    requires n < 100
  {
    [Digit(n / 10), Digit(n % 10)]
  }

  function FormatTime(t: Time): string
    requires t.Valid()
  {
    TwoDigits(t.hour) + ":" + TwoDigits(t.minute)
  }

  lemma DigitIsItself(d: nat)
    requires d < 10
    ensures IsDigit(Digit(d)) && Digit(d) as nat - '0' as nat == d && Digit(d) != ':'
  {
  }

  lemma TwoDigitsRead(n: nat)
    requires n < 100
    ensures Atoi(TwoDigits(n)) == Some(n) && ':' !in TwoDigits(n)
  {
    DigitIsItself(n / 10);
    DigitIsItself(n % 10);
    var s := TwoDigits(n);
    assert s[..1] == [s[0]] && s[..1][..0] == "";
    assert DecimalValue("") == 0;
    assert DecimalValue(s[..1]) == n / 10;
    assert DecimalValue(s) == n;
  }

  /** A formatted time is read back as itself. */
  lemma FormatThenParse(t: Time)
    requires t.Valid()
    ensures ParseTime(FormatTime(t)) == Some(t)
  {
    TwoDigitsRead(t.hour);
    TwoDigitsRead(t.minute);
    hide Atoi, TwoDigits;
    var v := FormatTime(t);
    var hh := TwoDigits(t.hour);
    assert v[|hh|] == ':' && forall k :: 0 <= k < |hh| ==> v[k] == hh[k];
    assert FirstOf(v, ":", 0) == |hh|;
    assert v[..|hh|] == hh && v[|hh| + 1..] == TwoDigits(t.minute);
  }

  /** The two numbers of a text that holds a ':'; one that cannot be read counts as zero. */
  function SplitTime(v: string): (int, int)
    requires ':' in v
  {
    var (hh, mm) := Cut(v, ':');
    (if Atoi(hh).Some? then Atoi(hh).value else 0, if Atoi(mm).Some? then Atoi(mm).value else 0)
  }

  lemma FormatThenSplit(t: Time)
    requires t.Valid()
    ensures ':' in FormatTime(t) && SplitTime(FormatTime(t)) == (t.hour as int, t.minute as int)
  {
    FormatThenParse(t);
    hide Atoi, FormatTime;
  }

  // Windows.

  /** No day list means every day. */
  datatype Window = Window(days: Option<seq<int>>, start: string, end: string)

  const EVERY_DAY := [0, 1, 2, 3, 4, 5, 6]

  const MIDNIGHT := "00:00"
  const LAST_MINUTE := "23:59"

  /** The minute of the day a text stands for; one that cannot be read counts as the default. */
  function MinuteOf(v: string, default: nat): nat {
    if ParseTime(v).Some? then ParseTime(v).value.Minutes() else default
  }

  function StartOf(w: Window): nat { MinuteOf(w.start, 0) }
  function EndOf(w: Window): nat { MinuteOf(w.end, 23 * 60 + 59) }

  function Days(w: Window): seq<int> {
    if w.days.Some? then w.days.value else EVERY_DAY
  }

  ghost predicate HasDay(w: Window, day: int) {
    Lists(Days(w), day)
  }

  /** How many minutes after its start the window is still open; one that ends before it starts
      runs into the next day. */
  function Length(w: Window): nat {
    EndOf(w) - StartOf(w) + if EndOf(w) < StartOf(w) then DAY else 0
  }

  /** The minute of the week lies, modulo the week, in the closed interval that begins at the start
      minute of one of the window's days. */
  ghost predicate Covers(w: Window, minute: int) {
    exists day :: CoversFrom(w, day, minute)
  }

  ghost predicate CoversFrom(w: Window, day: int, minute: int) {
    0 <= day < 7 && HasDay(w, day) && InInterval(minute, day * DAY + StartOf(w), Length(w))
  }

  /** Modulo the week, `minute` is at most `length` minutes after `begin`. */
  predicate InInterval(minute: int, begin: int, length: nat) {
    (minute - begin) % WEEK <= length
  }

  /** A moment, with the weekday as Go counts it: Sunday is 0. */
  datatype Moment = Moment(weekday: nat, hour: nat, minute: nat) {
    predicate Valid() { weekday < 7 && hour < 24 && minute < 60 }
    function Day(): nat { (weekday + 6) % 7 }
    function MinuteOfDay(): nat { hour * 60 + minute }
    function MinuteOfWeek(): nat { Day() * DAY + MinuteOfDay() }
  }

  lemma MinuteBound(v: string, default: nat)
    requires default < DAY
    ensures MinuteOf(v, default) < DAY
  {
  }

  /** The code's test, for a window that starts on `day`. */
  predicate IsOpenOn(day: nat, start: nat, end: nat, today: nat, hm: nat) {
    if start <= end then day == today && start <= hm <= end
    else (day == today && start <= hm) || (day == (today + 6) % 7 && hm <= end)
  }

  /** Within one week, a window that starts on `day` is open on that day from its start on, and, if
      it runs over midnight, on the next day up to its end. */
  lemma OpenOn(day: nat, start: nat, end: nat, today: nat, hm: nat)
    requires day < 7 && today < 7 && start < DAY && end < DAY && hm < DAY
    ensures InInterval(today * DAY + hm, day * DAY + start, end - start + (if end < start then DAY else 0)) <==>
            IsOpenOn(day, start, end, today, hm)
  {
    var x := today * DAY + hm - (day * DAY + start);
    if x >= 0 {
      assert x % WEEK == x;
    } else {
      assert x % WEEK == x + WEEK;
    }
  }

  /** What the code tests is the modular interval: the window's own day after its start, or, for a
      window that runs over midnight, the morning after. */
  lemma CoversIsTwoDays(w: Window, today: nat, hm: nat)
    requires today < 7 && hm < DAY
    ensures Covers(w, today * DAY + hm) <==>
      || (HasDay(w, today) && IsOpenOn(today, StartOf(w), EndOf(w), today, hm))
      || (HasDay(w, (today + 6) % 7) && IsOpenOn((today + 6) % 7, StartOf(w), EndOf(w), today, hm))
  {
    hide HasDay, StartOf, EndOf, IsOpenOn, CoversFrom;
    CoversOnDay(w, today, today, hm);
    CoversOnDay(w, (today + 6) % 7, today, hm);
    if Covers(w, today * DAY + hm) {
      var day :| CoversFrom(w, day, today * DAY + hm);
      DayInWeek(w, day, today * DAY + hm);
      CoversOnDay(w, day, today, hm);
    }
  }

  lemma CoversOnDay(w: Window, day: nat, today: nat, hm: nat)
    requires day < 7 && today < 7 && hm < DAY
    ensures CoversFrom(w, day, today * DAY + hm) <==> HasDay(w, day) && IsOpenOn(day, StartOf(w), EndOf(w), today, hm)
    ensures IsOpenOn(day, StartOf(w), EndOf(w), today, hm) ==> day == today || day == (today + 6) % 7
  {
    hide InInterval, HasDay, MinuteOf;
    MinuteBound(w.start, 0);
    MinuteBound(w.end, 23 * 60 + 59);
    OpenOn(day, StartOf(w), EndOf(w), today, hm);
  }

  lemma DayInWeek(w: Window, day: int, minute: int)
    requires CoversFrom(w, day, minute)
    ensures 0 <= day < 7
  {
  }

  function OrDefault(v: string, default: string): string {
    if v == "" then default else v
  }

  method IsActiveAt(enabled: bool, windows: seq<Window>, now: Moment) returns (active: bool)
    requires now.Valid()
    ensures active <==> !enabled || windows == [] || exists w :: w in windows && Covers(w, now.MinuteOfWeek())
  {
    if !enabled || |windows| == 0 {
      return true;
    }
    for i := 0 to |windows|
      invariant forall w :: w in windows[..i] ==> !Covers(w, now.MinuteOfWeek())
    {
      hide Covers;
      assert windows[i] in windows && windows[..i + 1] == windows[..i] + [windows[i]];
      active := IsOpen(windows[i], now);
      if active {
        return;
      }
    }
    assert windows[..|windows|] == windows;
    return false;
  }

  /** One window, tested as the code does. */
  method IsOpen(w: Window, now: Moment) returns (open: bool)
    requires now.Valid()
    ensures open <==> Covers(w, now.MinuteOfWeek())
  {
    var weekday := (now.weekday + 6) % 7;
    var hm := now.hour * 60 + now.minute;
    assert now.MinuteOfWeek() == weekday * DAY + hm;
    CoversIsTwoDays(w, weekday, hm);
    hide Covers, HasDay, IsOpenOn, StartOf, EndOf, Moment.MinuteOfWeek, Moment.Valid;
    var startMin := StartMinute(w);
    var endMin := EndMinute(w);
    open := IsOpenAt(w, weekday, hm, startMin, endMin);
  }

  method StartMinute(w: Window) returns (m: nat)
    ensures m == StartOf(w)
  {
    hide MinuteOf, MIDNIGHT, LAST_MINUTE, IsDefault;
    DefaultsAreNormal();
    m := ReadMinute(w.start, MIDNIGHT, Time(0, 0));
  }

  method EndMinute(w: Window) returns (m: nat)
    ensures m == EndOf(w)
  {
    hide MinuteOf, MIDNIGHT, LAST_MINUTE, IsDefault;
    DefaultsAreNormal();
    m := ReadMinute(w.end, LAST_MINUTE, Time(23, 59));
  }

  /** Read a time, fall back on the default when it is empty or cannot be read, write it out
      normally, and split that into its numbers. */
  method ReadMinute(v: string, default: string, ghost t: Time) returns (m: nat)
    requires IsDefault(default, t)
    ensures m == MinuteOf(v, t.Minutes())
  {
    hide ParseTime, FormatTime, SplitTime;
    DefaultTime(v, default, t, t.Minutes());
    var parsed := ParseTime(OrDefault(v, default));
    FormatThenSplit(if parsed.Some? then parsed.value else t);
    var text := if parsed.Some? then FormatTime(parsed.value) else default;
    var (hour, minute) := SplitTime(text);
    m := hour * 60 + minute;
  }

  method IsOpenAt(w: Window, weekday: nat, hm: nat, startMin: nat, endMin: nat) returns (open: bool)
    requires weekday < 7
    ensures open <==>
      || (HasDay(w, weekday) && IsOpenOn(weekday, startMin, endMin, weekday, hm))
      || (HasDay(w, (weekday + 6) % 7) && IsOpenOn((weekday + 6) % 7, startMin, endMin, weekday, hm))
  {
    hide Lists;
    var days := if w.days.Some? then w.days.value else EVERY_DAY;
    var today := ContainsDay(days, weekday);
    if startMin <= endMin {
      return today && hm >= startMin && hm <= endMin;
    }
    if today && hm >= startMin {
      return true;
    }
    var yesterday := ContainsDay(days, (weekday + 6) % 7);
    return yesterday && hm <= endMin;
  }

  /** A default time reads as itself and as the minute the code falls back to. */
  predicate IsDefault(v: string, t: Time) {
    t.Valid() && ParseTime(v) == Some(t) && FormatTime(t) == v
  }

  lemma DefaultsAreNormal()
    ensures IsDefault(MIDNIGHT, Time(0, 0)) && IsDefault(LAST_MINUTE, Time(23, 59))
  {
    assert FormatTime(Time(0, 0)) == "00:00" && FormatTime(Time(23, 59)) == "23:59";
    FormatThenParse(Time(0, 0));
    FormatThenParse(Time(23, 59));
  }

  /** Reading the default for an empty text is reading the empty text with that default. */
  lemma DefaultTime(v: string, default: string, t: Time, n: nat)
    requires IsDefault(default, t) && n == t.Minutes()
    ensures MinuteOf(OrDefault(v, default), n) == MinuteOf(v, n)
  {
    if v == "" {
      assert ParseTime(v) == None;
    }
  }

  // Normalizing.

  function NormalTime(v: string, default: string): string {
    if ParseTime(v).Some? then FormatTime(ParseTime(v).value) else if v == "" then default else v
  }

  function Normalized(w: Window): Window {
    Window(Some(if w.days.Some? then NormalDays(w.days.value) else EVERY_DAY),
           NormalTime(w.start, MIDNIGHT), NormalTime(w.end, LAST_MINUTE))
  }

  class TimeWindow {
    var days: Option<seq<int>>
    var start: string
    var end: string

    function View(): Window
      reads this
    {
      Window(days, start, end)
    }

    constructor (days: Option<seq<int>>, start: string, end: string)
      ensures View() == Window(days, start, end)
    {
      this.days, this.start, this.end := days, start, end;
    }

    /** Wrap the days and pad the times; a time that cannot be read is left as it is. */
    method Normalize()
      modifies this
      ensures View() == Normalized(old(View()))
    {
      hide ParseTime, FormatTime, NormalDays;
      if days.None? {
        days := Some(EVERY_DAY);
      } else {
        var wrapped := NormalizeDays(days.value);
        days := Some(wrapped);
      }
      if ParseTime(start).Some? {
        start := FormatTime(ParseTime(start).value);
      } else if start == "" {
        start := MIDNIGHT;
      }
      if ParseTime(end).Some? {
        end := FormatTime(ParseTime(end).value);
      } else if end == "" {
        end := LAST_MINUTE;
      }
    }
  }

  lemma NormalTimeTwice(v: string, default: string, t: Time, n: nat)
    requires IsDefault(default, t) && n == t.Minutes()
    ensures NormalTime(NormalTime(v, default), default) == NormalTime(v, default)
    ensures MinuteOf(NormalTime(v, default), n) == MinuteOf(v, n)
  {
    if ParseTime(v).Some? {
      FormatThenParse(ParseTime(v).value);
    }
  }

  lemma NormalTimes(w: Window)
    ensures NormalTime(NormalTime(w.start, MIDNIGHT), MIDNIGHT) == NormalTime(w.start, MIDNIGHT)
    ensures NormalTime(NormalTime(w.end, LAST_MINUTE), LAST_MINUTE) == NormalTime(w.end, LAST_MINUTE)
    ensures StartOf(Normalized(w)) == StartOf(w) && EndOf(Normalized(w)) == EndOf(w)
  {
    hide IsDefault, NormalTime, MinuteOf, MIDNIGHT, LAST_MINUTE;
    DefaultsAreNormal();
    NormalTimeTwice(w.start, MIDNIGHT, Time(0, 0), 0);
    NormalTimeTwice(w.end, LAST_MINUTE, Time(23, 59), 23 * 60 + 59);
  }

  /** Normalizing twice is normalizing once. */
  lemma NormalizeIsIdempotent(w: Window)
    ensures Normalized(Normalized(w)) == Normalized(w)
  {
    hide NormalTime, MIDNIGHT, LAST_MINUTE;
    NormalTimes(w);
    var days := Normalized(w).days.value;
    assert NormalDays(days) == days;
  }

  /** Normalizing never changes when a window is open. */
  lemma NormalizeKeepsAnswer(w: Window, minute: int)
    ensures Covers(Normalized(w), minute) <==> Covers(w, minute)
  {
    hide HasDay, Normalized, StartOf, EndOf, InInterval, CoversFrom;
    forall day ensures CoversFrom(Normalized(w), day, minute) <==> CoversFrom(w, day, minute) {
      NormalizeKeepsCover(w, day, minute);
    }
  }

  lemma NormalizeKeepsCover(w: Window, day: int, minute: int)
    ensures CoversFrom(Normalized(w), day, minute) <==> CoversFrom(w, day, minute)
  {
    hide HasDay, Normalized, StartOf, EndOf, InInterval;
    NormalTimes(w);
    NormalizeKeepsDay(w, day);
  }

  lemma NormalizeKeepsDay(w: Window, day: int)
    ensures HasDay(Normalized(w), day) <==> HasDay(w, day)
  {
    hide NormalTime, MIDNIGHT, LAST_MINUTE;
    var days, normal := Days(w), Days(Normalized(w));
    if d :| d in days && d % 7 == day {
      var i :| 0 <= i < |days| && days[i] == d;
      assert normal[i] in normal && normal[i] % 7 == day;
    }
    if d :| d in normal && d % 7 == day {
      var i :| 0 <= i < |normal| && normal[i] == d;
      assert days[i] in days && days[i] % 7 == day;
    }
  }
}
