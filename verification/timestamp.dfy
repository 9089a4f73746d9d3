/** `pd.to_datetime(text, format='%d/%b/%Y:%H:%M:%S %z')` on one cell: a
    single fixed-format parse into a wall-clock instant that keeps its UTC
    offset. The accepted forms follow the regular expressions the standard
    library's strptime builds for each directive (1- or 2-digit numeric
    fields, month abbreviations compared without regard to case, any run of
    whitespace for the space), followed by the calendar checks of
    `datetime.date` and the bound `datetime.timezone` puts on an offset. */
module Timestamp {
  import opened Wrappers
  import opened Chars
  import opened Decimal

  /** A point in time as written in the log: local date and time and the
      offset from UTC in minutes (east positive). */
  datatype Instant = Instant(year: int, month: int, day: int, hour: int, minute: int, second: int, offset: int)

  predicate IsLeapYear(y: int) {
    y % 4 == 0 && (y % 100 != 0 || y % 400 == 0)
  }

  function DaysInMonth(y: int, m: int): (n: int)
    requires 1 <= m <= 12
    ensures 28 <= n <= 31
  {
    if m == 2 then (if IsLeapYear(y) then 29 else 28)
    else if m == 4 || m == 6 || m == 9 || m == 11 then 30
    else 31
  }

  /** The instants a timezone-aware `datetime` can hold. */
  ghost predicate ValidInstant(t: Instant) {
    && 1 <= t.year <= 9999
    && 1 <= t.month <= 12
    && 1 <= t.day <= DaysInMonth(t.year, t.month)
    && 0 <= t.hour <= 23 && 0 <= t.minute <= 59 && 0 <= t.second <= 59
    && -1440 < t.offset < 1440
  }

  /** A parsed piece and the text after it. */
  datatype Step<+T> = Step(value: T, rest: string)

  /** `%b` in the English locale. */
  const MonthNames: seq<string> :=
    ["Jan", "Feb", "Mar", "Apr", "May", "Jun", "Jul", "Aug", "Sep", "Oct", "Nov", "Dec"]

  function Lower(c: char): char {
    if 'A' <= c <= 'Z' then (c as int + 32) as char else c
  }

  predicate SameIgnoringCase(a: string, b: string) {
    |a| == |b| && forall i :: 0 <= i < |a| ==> Lower(a[i]) == Lower(b[i])
  }

  // ---------------------------------------------------------------------------
  // The texts each directive accepts
  // ---------------------------------------------------------------------------

  /** `%H`, `%M`, `%S`: one or two digits whose value is `v`. */
  ghost predicate NumberText(f: string, v: int) {
    (|f| == 1 || |f| == 2) && IsDigits(f) && DecimalValue(f) == v
  }

  /** `%d`: one or two digits, or a space and one digit. */
  ghost predicate DayText(f: string, v: int) {
    || NumberText(f, v)
    || (|f| == 2 && f[0] == ' ' && IsDigit(f[1]) && DigitValue(f[1]) == v)
  }

  /** `%b`: the abbreviation of month `v`, in any case. */
  ghost predicate MonthText(f: string, v: int) {
    1 <= v <= 12 && SameIgnoringCase(f, MonthNames[v - 1])
  }

  /** `%Y`: exactly four digits. */
  ghost predicate YearText(f: string, v: int) {
    |f| == 4 && IsDigits(f) && DecimalValue(f) == v
  }

  /** The space of the format, which strptime turns into `\s+`. */
  ghost predicate GapText(f: string) {
    |f| > 0 && forall i :: 0 <= i < |f| ==> IsSpace(f[i])
  }

  /** `%z` as `[+-]HH:?MM` with `MM` below 60, for an offset of `v` minutes. */
  ghost predicate ZoneText(f: string, v: int) {
    && (|f| == 5 || (|f| == 6 && f[3] == ':'))
    && (f[0] == '+' || f[0] == '-')
    && IsDigit(f[1]) && IsDigit(f[2]) && '0' <= f[|f| - 2] <= '5' && IsDigit(f[|f| - 1])
    && var minutes := 60 * (10 * DigitValue(f[1]) + DigitValue(f[2])) + 10 * DigitValue(f[|f| - 2]) + DigitValue(f[|f| - 1]);
       v == if f[0] == '-' then -minutes else minutes
  }

  /** The texts of the fields of one timestamp cell, in the order of the format. */
  datatype Pieces = Pieces(day: string, month: string, year: string, hour: string, minute: string,
                           second: string, gap: string, zone: string)

  /** The cell made of these pieces and the literals `/`, `/`, `:`, `:`, `:`. */
  function Join(p: Pieces): string {
    p.day + ("/" + (p.month + ("/" + (p.year + (":" + (p.hour + (":" + (p.minute + (":" +
    (p.second + (p.gap + p.zone)))))))))))
  }

  /** Each piece is a text its directive accepts for the matching field of `t`. */
  ghost predicate Renders(p: Pieces, t: Instant) {
    && DayText(p.day, t.day) && MonthText(p.month, t.month) && YearText(p.year, t.year)
    && NumberText(p.hour, t.hour) && NumberText(p.minute, t.minute) && NumberText(p.second, t.second)
    && GapText(p.gap) && ZoneText(p.zone, t.offset)
  }

  // ---------------------------------------------------------------------------
  // One directive at a time
  // ---------------------------------------------------------------------------

  /** A literal character of the format. */
  function Lit(s: string, c: char): (r: Option<string>)
    ensures r.Some? <==> |s| > 0 && s[0] == c
    ensures r.Some? ==> r.value == s[1..]
  {
    if |s| > 0 && s[0] == c then Some(s[1..]) else None
  }

  /** A numeric field of one or two digits with its value in `lo..hi`
      (`%H` is `2[0-3]|[0-1]\d|\d`, `%M` is `[0-5]\d|\d`, ...). Every field is
      followed by a literal that is not a digit, so when two digits are present
      the one-digit alternative can never complete the match. */
  function Small(s: string, lo: nat, hi: nat): (r: Option<Step<nat>>)
    requires 9 <= hi <= 99
    ensures r.Some? ==> lo <= r.value.value <= hi && |r.value.rest| < |s|
    ensures (|s| >= 2 && IsDigits(s[..2]) && lo <= DecimalValue(s[..2]) <= hi) ==>
              r == Some(Step(DecimalValue(s[..2]), s[2..]))
    ensures (|s| >= 1 && IsDigit(s[0]) && (|s| == 1 || !IsDigit(s[1])) && lo <= DigitValue(s[0]) <= hi) ==>
              r == Some(Step(DigitValue(s[0]), s[1..]))
  {
    if |s| >= 2 && IsDigit(s[0]) && IsDigit(s[1]) then
      ValueOfTwoDigits(s[..2]);
      var v := 10 * DigitValue(s[0]) + DigitValue(s[1]);
      if lo <= v <= hi then Some(Step(v, s[2..])) else None
    else if |s| >= 1 && IsDigit(s[0]) && lo <= DigitValue(s[0]) then
      Some(Step(DigitValue(s[0]), s[1..]))
    else None
  }

  /** `%d`: `3[01]|[12]\d|0[1-9]|[1-9]| [1-9]`. */
  function Day(s: string): (r: Option<Step<nat>>)
    ensures r.Some? ==> 1 <= r.value.value <= 31 && |r.value.rest| < |s|
    ensures (|s| >= 2 && s[0] == ' ' && IsDigit(s[1]) && 1 <= DigitValue(s[1])) ==>
              r == Some(Step(DigitValue(s[1]), s[2..]))
    ensures |s| >= 1 && IsDigit(s[0]) ==> r == Small(s, 1, 31)
  {
    if |s| >= 2 && s[0] == ' ' then
      if IsDigit(s[1]) && 1 <= DigitValue(s[1]) then Some(Step(DigitValue(s[1]), s[2..])) else None
    else Small(s, 1, 31)
  }

  /** The first month from `k` on whose abbreviation is `name`, ignoring case. */
  function FindMonth(name: string, k: nat): (r: Option<nat>)
    requires k <= 12
    ensures r.Some? ==> k < r.value <= 12 && SameIgnoringCase(name, MonthNames[r.value - 1])
    ensures r.None? ==> forall j :: k <= j < 12 ==> !SameIgnoringCase(name, MonthNames[j])
    decreases 12 - k
  {
    if k == 12 then None
    else if SameIgnoringCase(name, MonthNames[k]) then Some(k + 1)
    else FindMonth(name, k + 1)
  }

  /** `%b`: a three-letter English month abbreviation in any case. */
  function Month(s: string): (r: Option<Step<nat>>)
    ensures r.Some? ==> 1 <= r.value.value <= 12 && |s| >= 3 && r.value.rest == s[3..]
    ensures r.Some? ==> MonthText(s[..3], r.value.value)
    ensures forall m :: |s| >= 3 && MonthText(s[..3], m) ==> r == Some(Step(m, s[3..]))
  {
    if |s| >= 3 then
      FindMonthOfText(s[..3]);
      match FindMonth(s[..3], 0)
      case Some(m) => Some(Step(m, s[3..]))
      case None => None
    else None
  }

  /** `%Y`: exactly four digits. */
  function Year(s: string): (r: Option<Step<nat>>)
    ensures r.Some? ==> r.value.value <= 9999 && |s| >= 4 && r.value.rest == s[4..]
    ensures r.Some? <==> |s| >= 4 && IsDigits(s[..4])
  {
    if |s| >= 4 && IsDigit(s[0]) && IsDigit(s[1]) && IsDigit(s[2]) && IsDigit(s[3]) then
      Some(Step(100 * (10 * DigitValue(s[0]) + DigitValue(s[1])) + (10 * DigitValue(s[2]) + DigitValue(s[3])), s[4..]))
    else None
  }

  /** The space of the format: strptime turns it into `\s+`, which takes the
      whole run of whitespace. */
  function Spaces(s: string): (r: Option<string>)
    ensures r.Some? <==> |s| > 0 && IsSpace(s[0])
    ensures r.Some? ==> |r.value| < |s| && r.value == s[RunEnd(s, 0, Space)..]
  {
    var n := RunEnd(s, 0, Space);
    assert n > 0 ==> InClass(s[0], Space);
    if n > 0 then Some(s[n..]) else None
  }

  /** `%z` as `[+-]HH:?MM`, ending the text, with `MM` in 00..59 and the whole
      offset under 24 hours (the bound `datetime.timezone` enforces). */
  function Offset(s: string): (r: Option<int>)
    ensures r.Some? ==> -1440 < r.value < 1440 && ZoneText(s, r.value)
    ensures forall v :: ZoneText(s, v) && -1440 < v < 1440 ==> r == Some(v)
  {
    if |s| >= 5 && (s[0] == '+' || s[0] == '-') && IsDigit(s[1]) && IsDigit(s[2]) then
      var mm := if s[3] == ':' then s[4..] else s[3..];
      if |mm| == 2 && '0' <= mm[0] <= '5' && IsDigit(mm[1]) then
        var hours := 10 * DigitValue(s[1]) + DigitValue(s[2]);
        var minutes := 10 * DigitValue(mm[0]) + DigitValue(mm[1]);
        if hours <= 23 then
          Some(if s[0] == '-' then -(60 * hours + minutes) else 60 * hours + minutes)
        else None
      else None
    else None
  }

  /** The fields of `%d/%b/%Y`. */
  datatype Date = Date(day: nat, month: nat, year: nat)

  /** The fields of `%H:%M:%S %z`, the offset in minutes. */
  datatype Clock = Clock(hour: nat, minute: nat, second: nat, offset: int)

  /** `%d/%b` at the start of the text; the year is left 0. */
  function DayAndMonth(s: string): (r: Option<Step<Date>>)
    ensures r.Some? ==> var d := r.value.value; 1 <= d.day <= 31 && 1 <= d.month <= 12 && d.year == 0
  {
    var day :- Day(s);
    var s1 :- Lit(day.rest, '/');
    var month :- Month(s1);
    Some(Step(Date(day.value, month.value, 0), month.rest))
  }

  /** `%d/%b/%Y` at the start of the text. */
  function DatePart(s: string): (r: Option<Step<Date>>)
    ensures r.Some? ==> var d := r.value.value; 1 <= d.day <= 31 && 1 <= d.month <= 12 && d.year <= 9999
  {
    var dm :- DayAndMonth(s);
    var s2 :- Lit(dm.rest, '/');
    var year :- Year(s2);
    Some(Step(dm.value.(year := year.value), year.rest))
  }

  /** `%H:%M:%S` at the start of the text. */
  function TimeOfDay(s: string): (r: Option<Step<Clock>>)
    ensures r.Some? ==> var c := r.value.value; c.hour <= 23 && c.minute <= 59 && c.second <= 59 && c.offset == 0
  {
    var hour :- Small(s, 0, 23);
    var s4 :- Lit(hour.rest, ':');
    var minute :- Small(s4, 0, 59);
    var s5 :- Lit(minute.rest, ':');
    var second :- Small(s5, 0, 59);
    Some(Step(Clock(hour.value, minute.value, second.value, 0), second.rest))
  }

  /** The space of the format and `%z`, which must end the text. */
  function Zone(s: string): (r: Option<int>)
    ensures r.Some? ==> -1440 < r.value < 1440
  {
    var s6 :- Spaces(s);
    Offset(s6)
  }

  /** `%H:%M:%S %z`, which must end the text. */
  function ClockPart(s: string): (r: Option<Clock>)
    ensures r.Some? ==> var c := r.value; c.hour <= 23 && c.minute <= 59 && c.second <= 59 && -1440 < c.offset < 1440
  {
    var time :- TimeOfDay(s);
    var offset :- Zone(time.rest);
    Some(time.value.(offset := offset))
  }

  /** One cell of the `to_datetime` conversion: the whole text must match the
      format, and the result must be a real date. */
  function ParseTimestamp(s: string): (r: Option<Instant>)
    ensures r.Some? ==> ValidInstant(r.value)
  {
    var date :- DatePart(s);
    var s3 :- Lit(date.rest, ':');
    var c :- ClockPart(s3);
    var d := date.value;
    if 1 <= d.year && d.day <= DaysInMonth(d.year, d.month) then
      Some(Instant(d.year, d.month, d.day, c.hour, c.minute, c.second, c.offset))
    else None
  }

  /** A cell of the converted column: pandas' missing value, or an instant. */
  datatype Stamp = NaT | At(instant: Instant)

  /** The strings pandas' strptime reads as a missing value instead of parsing. */
  const NatStrings: set<string> := {"", "NaT", "nat", "NAT", "nan", "NaN", "NAN"}

  /** `pd.to_datetime` on one cell: a missing-value string becomes `NaT`, any
      other text must parse. */
  function ToDatetime(s: string): (r: Option<Stamp>)
    ensures r == Some(NaT) <==> s in NatStrings
    ensures forall t :: r == Some(At(t)) <==> ParseTimestamp(s) == Some(t)
    ensures r.None? <==> s !in NatStrings && ParseTimestamp(s).None?
  {
    if s in NatStrings then
      NatStringsAreNoDates(s);
      Some(NaT)
    else
      match ParseTimestamp(s)
      case Some(t) => Some(At(t))
      case None => None
  }

  // ---------------------------------------------------------------------------
  // What each directive consumes
  // ---------------------------------------------------------------------------

  /** What `Small` consumes is a one- or two-digit field with the value it reports. */
  lemma SmallSound(s: string, lo: nat, hi: nat) returns (f: string)
    requires 9 <= hi <= 99 && Small(s, lo, hi).Some?
    ensures s == f + Small(s, lo, hi).value.rest && NumberText(f, Small(s, lo, hi).value.value)
  {
    if |s| >= 2 && IsDigit(s[0]) && IsDigit(s[1]) {
      f := s[..2];
      ValueOfTwoDigits(f);
      assert s == f + s[2..];
    } else {
      f := s[..1];
      ValueOfOneDigit(f);
      assert s == f + s[1..];
    }
  }

  /** What `Day` consumes is `dd`, `d` or ` d` for the day it reports. */
  lemma DaySound(s: string) returns (f: string)
    requires Day(s).Some?
    ensures s == f + Day(s).value.rest && DayText(f, Day(s).value.value)
  {
    if |s| >= 2 && s[0] == ' ' {
      f := s[..2];
      assert s == f + s[2..];
    } else {
      f := SmallSound(s, 1, 31);
    }
  }

  /** What `Year` consumes is four digits with the value it reports. */
  lemma YearSound(s: string)
    requires Year(s).Some?
    ensures YearText(s[..4], Year(s).value.value) && s == s[..4] + Year(s).value.rest
  {
    ValueOfFourDigits(s[..4]);
  }

  /** The first four digits are the year, whatever follows. */
  lemma YearComplete(s: string)
    requires |s| >= 4 && IsDigits(s[..4])
    ensures Year(s) == Some(Step(DecimalValue(s[..4]), s[4..]))
  {
    ValueOfFourDigits(s[..4]);
  }

  /** `Spaces` consumes a whole run of whitespace: what is left does not start
      with whitespace. */
  lemma SpacesSound(s: string) returns (g: string)
    requires Spaces(s).Some?
    ensures var rest := Spaces(s).value;
            s == g + rest && GapText(g) && (rest == [] || !IsSpace(rest[0]))
  {
    var n := RunEnd(s, 0, Space);
    g := s[..n];
    assert s[..n] + s[n..] == s;
    forall i | 0 <= i < n
      ensures IsSpace(s[..n][i])
    {
      assert InClass(s[i], Space);
    }
    if n < |s| {
      assert !InClass(s[n], Space);
    }
  }

  /** A one- or two-digit field in range, followed by a non-digit, is read whole. */
  lemma SmallOfText(f: string, v: nat, rest: string, lo: nat, hi: nat)
    requires 9 <= hi <= 99 && lo <= v <= hi && NumberText(f, v)
    requires |rest| > 0 && !IsDigit(rest[0])
    ensures Small(f + rest, lo, hi) == Some(Step(v, rest))
  {
    var s := f + rest;
    if |f| == 2 {
      assert s[..2] == f && s[2..] == rest;
    } else {
      ValueOfOneDigit(f);
      assert s[0] == f[0] && s[1] == rest[0] && s[1..] == rest;
    }
  }

  /** Each form `%d` accepts, followed by the `/` of the format, is read whole. */
  lemma DayOfText(f: string, v: nat, rest: string)
    requires 1 <= v <= 31 && DayText(f, v)
    requires |rest| > 0 && !IsDigit(rest[0])
    ensures Day(f + rest) == Some(Step(v, rest))
  {
    var s := f + rest;
    if NumberText(f, v) {
      assert s[0] == f[0];
      SmallOfText(f, v, rest, 1, 31);
    } else {
      assert s[0] == ' ' && s[1] == f[1] && s[2..] == rest;
    }
  }

  /** A month abbreviation in any case is read as its month. */
  lemma MonthOfText(f: string, m: nat, rest: string)
    requires MonthText(f, m)
    ensures Month(f + rest) == Some(Step(m, rest))
  {
    var s := f + rest;
    assert s[..3] == f && s[3..] == rest;
  }

  /** Four digits are read as the year they spell. */
  lemma YearOfText(f: string, v: nat, rest: string)
    requires YearText(f, v)
    ensures Year(f + rest) == Some(Step(v, rest))
  {
    var s := f + rest;
    assert s[..4] == f && s[4..] == rest;
    YearComplete(s);
  }

  /** A run of whitespace followed by a non-space is consumed whole. */
  lemma SpacesOfText(g: string, rest: string)
    requires GapText(g) && |rest| > 0 && !IsSpace(rest[0])
    ensures Spaces(g + rest) == Some(rest)
  {
    var s := g + rest;
    forall k | 0 <= k < |g|
      ensures InClass(s[k], Space)
    {
      assert s[k] == g[k];
    }
    assert s[|g|] == rest[0];
    RunEndIsForced(s, 0, |g|, Space);
    assert s[|g|..] == rest;
  }

  /** What `DayAndMonth` consumes is the texts of its two fields and the `/`. */
  lemma DayAndMonthSound(s: string) returns (d: string, m: string)
    requires DayAndMonth(s).Some?
    ensures var st := DayAndMonth(s).value;
            && s == d + ("/" + (m + st.rest))
            && DayText(d, st.value.day) && MonthText(m, st.value.month)
  {
    var day := Day(s).value;
    d := DaySound(s);
    var s1 := day.rest[1..];
    var month := Month(s1).value;
    m := s1[..3];
    assert day.rest == "/" + s1;
    assert s1 == m + month.rest;
  }

  /** What `DatePart` consumes is the texts of its three fields and the two `/`. */
  lemma DatePartSound(s: string) returns (d: string, m: string, y: string)
    requires DatePart(s).Some?
    ensures var st := DatePart(s).value;
            && s == d + ("/" + (m + ("/" + (y + st.rest))))
            && DayText(d, st.value.day) && MonthText(m, st.value.month) && YearText(y, st.value.year)
  {
    var dm := DayAndMonth(s).value;
    d, m := DayAndMonthSound(s);
    var s2 := dm.rest[1..];
    YearSound(s2);
    y := s2[..4];
    assert dm.rest == "/" + s2;
  }

  /** What `TimeOfDay` consumes is the texts of its fields and the two `:`. */
  lemma TimeOfDaySound(s: string) returns (h: string, mi: string, se: string)
    requires TimeOfDay(s).Some?
    ensures var st := TimeOfDay(s).value;
            && s == h + (":" + (mi + (":" + (se + st.rest))))
            && NumberText(h, st.value.hour) && NumberText(mi, st.value.minute) && NumberText(se, st.value.second)
  {
    var hour := Small(s, 0, 23).value;
    h := SmallSound(s, 0, 23);
    var s4 := hour.rest[1..];
    var minute := Small(s4, 0, 59).value;
    mi := SmallSound(s4, 0, 59);
    var s5 := minute.rest[1..];
    se := SmallSound(s5, 0, 59);
    assert minute.rest == ":" + s5;
    assert hour.rest == ":" + s4;
  }

  /** What `Zone` consumes is whitespace and then the text of the offset, to the end. */
  lemma ZoneSound(s: string) returns (g: string, z: string)
    requires Zone(s).Some?
    ensures s == g + z && GapText(g) && ZoneText(z, Zone(s).value)
  {
    z := Spaces(s).value;
    g := SpacesSound(s);
  }

  /** What `ClockPart` consumes is the texts of its fields, the two `:`, the
      whitespace and the offset. */
  lemma ClockPartSound(s: string) returns (h: string, mi: string, se: string, g: string, z: string)
    requires ClockPart(s).Some?
    ensures var c := ClockPart(s).value;
            && s == h + (":" + (mi + (":" + (se + (g + z)))))
            && NumberText(h, c.hour) && NumberText(mi, c.minute) && NumberText(se, c.second)
            && GapText(g) && ZoneText(z, c.offset)
  {
    var time := TimeOfDay(s).value;
    h, mi, se := TimeOfDaySound(s);
    g, z := ZoneSound(time.rest);
  }

  /** The texts of a day and a month, joined by `/`, are read as that day
      and month. */
  lemma DayAndMonthOfText(d: string, m: string, rest: string, date: Date)
    requires 1 <= date.day <= 31 && DayText(d, date.day) && MonthText(m, date.month)
    ensures DayAndMonth(d + ("/" + (m + rest))) == Some(Step(Date(date.day, date.month, 0), rest))
  {
    DayOfText(d, date.day, "/" + (m + rest));
    LitOf('/', m + rest);
    MonthOfText(m, date.month, rest);
  }

  /** The texts of a day, a month and a year, joined by `/`, are read as that
      date. */
  lemma DatePartOfText(d: string, m: string, y: string, rest: string, date: Date)
    requires 1 <= date.day <= 31 && DayText(d, date.day) && MonthText(m, date.month) && YearText(y, date.year)
    ensures DatePart(d + ("/" + (m + ("/" + (y + rest))))) == Some(Step(date, rest))
  {
    DayAndMonthOfText(d, m, "/" + (y + rest), date);
    LitOf('/', y + rest);
    YearOfText(y, date.year, rest);
  }

  /** The texts of the clock fields and of an offset are read as that clock. */
  lemma ClockPartOfText(h: string, mi: string, se: string, g: string, z: string, c: Clock)
    requires c.hour <= 23 && c.minute <= 59 && c.second <= 59 && -1440 < c.offset < 1440
    requires NumberText(h, c.hour) && NumberText(mi, c.minute) && NumberText(se, c.second)
    requires GapText(g) && ZoneText(z, c.offset)
    ensures ClockPart(h + (":" + (mi + (":" + (se + (g + z)))))) == Some(c)
  {
    var r6 := g + z;
    var r4 := ":" + (se + r6);
    var q3 := ":" + (mi + r4);
    SmallOfText(h, c.hour, q3, 0, 23);
    LitOf(':', mi + r4);
    SmallOfText(mi, c.minute, r4, 0, 59);
    LitOf(':', se + r6);
    assert r6[0] == g[0];
    SmallOfText(se, c.second, r6, 0, 59);
    assert TimeOfDay(h + q3) == Some(Step(c.(offset := 0), r6));
    SpacesOfText(g, z);
  }

  /** Every accepted cell is made of pieces that render the instant it gives. */
  lemma ParseTimestampSound(s: string)
    requires ParseTimestamp(s).Some?
    ensures exists p :: Join(p) == s && Renders(p, ParseTimestamp(s).value)
  {
    var date := DatePart(s).value;
    var d, m, y := DatePartSound(s);
    var s3 := date.rest[1..];
    var h, mi, se, g, z := ClockPartSound(s3);
    assert date.rest == ":" + s3;
    var p := Pieces(d, m, y, h, mi, se, g, z);
    assert Join(p) == s;
    assert Renders(p, ParseTimestamp(s).value);
  }

  /** Every cell made of pieces that render a valid instant is accepted, and
      gives that instant. */
  lemma ParseTimestampComplete(p: Pieces, t: Instant)
    requires Renders(p, t) && ValidInstant(t)
    ensures ParseTimestamp(Join(p)) == Some(t)
  {
    var clock := p.hour + (":" + (p.minute + (":" + (p.second + (p.gap + p.zone)))));
    assert Join(p) == p.day + ("/" + (p.month + ("/" + (p.year + (":" + clock)))));
    DatePartOfText(p.day, p.month, p.year, ":" + clock, Date(t.day, t.month, t.year));
    LitOf(':', clock);
    ClockPartOfText(p.hour, p.minute, p.second, p.gap, p.zone, Clock(t.hour, t.minute, t.second, t.offset));
  }

  /** `to_datetime` with this format accepts a cell exactly when it is made of
      the texts the directives accept for a valid instant, and then gives that
      instant with its offset. */
  lemma ParseTimestampExactly(s: string, t: Instant)
    ensures ParseTimestamp(s) == Some(t) <==> ValidInstant(t) && exists p :: Join(p) == s && Renders(p, t)
  {
    if ParseTimestamp(s) == Some(t) {
      ParseTimestampSound(s);
    }
    if ValidInstant(t) && exists p :: Join(p) == s && Renders(p, t) {
      var p :| Join(p) == s && Renders(p, t);
      ParseTimestampComplete(p, t);
    }
  }

  // ---------------------------------------------------------------------------
  // The inverse: the text a server writes for an instant
  // ---------------------------------------------------------------------------

  function Pad2(v: nat): (t: string)
    requires v <= 99
  {
    [DigitChar(v / 10), DigitChar(v % 10)]
  }

  function Pad4(v: nat): (t: string)
    requires v <= 9999
  {
    Pad2(v / 100) + Pad2(v % 100)
  }

  function OffsetText(o: int): string
    requires -1440 < o < 1440
  {
    var a := if o < 0 then -o else o;
    (if o < 0 then "-" else "+") + Pad2(a / 60) + Pad2(a % 60)
  }

  /** Each field fits its directive; the day need not exist in its month. */
  ghost predicate FieldsInRange(t: Instant) {
    && 0 <= t.year <= 9999
    && 1 <= t.month <= 12
    && 1 <= t.day <= 31
    && 0 <= t.hour <= 23 && 0 <= t.minute <= 59 && 0 <= t.second <= 59
    && -1440 < t.offset < 1440
  }

  /** `strftime('%d/%b/%Y:%H:%M:%S %z')`. */
  function FormatTimestamp(t: Instant): string
    requires FieldsInRange(t)
  {
    Pad2(t.day) + ("/" + (MonthNames[t.month - 1] + ("/" + (Pad4(t.year) + (":" + ClockText(t))))))
  }

  /** The `%H:%M:%S %z` part of `FormatTimestamp`. */
  function ClockText(t: Instant): string
    requires FieldsInRange(t)
  {
    Pad2(t.hour) + (":" + (Pad2(t.minute) + (":" + (Pad2(t.second) + (" " + OffsetText(t.offset))))))
  }

  // ---------------------------------------------------------------------------

  lemma SmallOfPad2(v: nat, rest: string, lo: nat, hi: nat)
    requires 9 <= hi <= 99 && lo <= v <= hi
    ensures Small(Pad2(v) + rest, lo, hi) == Some(Step(v, rest))
  {
    var s := Pad2(v) + rest;
    assert s[2..] == rest;
  }

  lemma DayOfPad2(v: nat, rest: string)
    requires 1 <= v <= 31
    ensures Day(Pad2(v) + rest) == Some(Step(v, rest))
  {
    SmallOfPad2(v, rest, 1, 31);
  }

  lemma YearOfPad4(v: nat, rest: string)
    requires v <= 9999
    ensures Year(Pad4(v) + rest) == Some(Step(v, rest))
  {
    var s := Pad4(v) + rest;
    assert s[4..] == rest;
    assert s[..4] == Pad2(v / 100) + Pad2(v % 100);
  }

  lemma LitOf(c: char, rest: string)
    ensures Lit([c] + rest, c) == Some(rest)
  {
    assert ([c] + rest)[1..] == rest;
  }

  /** No two month abbreviations are equal ignoring case. */
  lemma MonthNamesDiffer(i: nat, j: nat)
    requires i < 12 && j < 12 && i != j
    ensures !SameIgnoringCase(MonthNames[i], MonthNames[j])
  {
    var a, b := MonthNames[i], MonthNames[j];
    assert Lower(a[0]) != Lower(b[0]) || Lower(a[1]) != Lower(b[1]) || Lower(a[2]) != Lower(b[2]);
  }

  /** A name that is the abbreviation of month `m` in some case is found as `m`. */
  lemma FindMonthOfText(name: string)
    ensures forall m :: MonthText(name, m) ==> FindMonth(name, 0) == Some(m)
  {
    forall m | MonthText(name, m)
      ensures FindMonth(name, 0) == Some(m)
    {
      var found := FindMonth(name, 0);
      assert found.Some?;
      if found.value != m {
        SameIgnoringCaseSymmetric(name, MonthNames[m - 1]);
        SameIgnoringCaseTransitive(MonthNames[m - 1], name, MonthNames[found.value - 1]);
        MonthNamesDiffer(m - 1, found.value - 1);
      }
    }
  }

  lemma SameIgnoringCaseSymmetric(a: string, b: string)
    requires SameIgnoringCase(a, b)
    ensures SameIgnoringCase(b, a)
  {
  }

  lemma SameIgnoringCaseTransitive(a: string, b: string, c: string)
    requires SameIgnoringCase(a, b) && SameIgnoringCase(b, c)
    ensures SameIgnoringCase(a, c)
  {
  }

  /** None of the missing-value strings is a timestamp: each is empty or
      starts with a letter, where `%d` needs a digit or a space. */
  lemma NatStringsAreNoDates(s: string)
    requires s in NatStrings
    ensures ParseTimestamp(s) == None
  {
    assert s == "" || s[0] == 'N' || s[0] == 'n';
  }

  lemma MonthOfName(m: nat, rest: string)
    requires 1 <= m <= 12
    ensures Month(MonthNames[m - 1] + rest) == Some(Step(m, rest))
  {
    var name := MonthNames[m - 1];
    var s := name + rest;
    assert s[..3] == name;
    assert s[3..] == rest;
    assert SameIgnoringCase(name, MonthNames[m - 1]);
    var found := FindMonth(name, 0);
    if found.value != m {
      MonthNamesDiffer(m - 1, found.value - 1);
    }
  }

  lemma SpacesOfOne(rest: string)
    requires |rest| > 0 && !IsSpace(rest[0])
    ensures Spaces(" " + rest) == Some(rest)
  {
    var s := " " + rest;
    assert RunEnd(s, 1, Space) == 1;
    assert s[1..] == rest;
  }

  lemma OffsetOfText(o: int)
    requires -1440 < o < 1440
    ensures Offset(OffsetText(o)) == Some(o)
  {
    var a := if o < 0 then -o else o;
    var s := OffsetText(o);
    assert s[3..] == Pad2(a % 60);
  }

  /** Text in the format is accepted exactly when it names a real date, and
      then it gives back every field, offset included. */
  lemma ParseFormatted(t: Instant)
    requires FieldsInRange(t)
    ensures ParseTimestamp(FormatTimestamp(t))
         == if 1 <= t.year && t.day <= DaysInMonth(t.year, t.month) then Some(t) else None
  {
    FormattedDate(t);
    FormattedClock(t);
  }

  /** The date of a written instant is read back with the clock text after it. */
  lemma FormattedDate(t: Instant)
    requires FieldsInRange(t)
    ensures DatePart(FormatTimestamp(t)) == Some(Step(Date(t.day, t.month, t.year), ":" + ClockText(t)))
  {
    var d, m, y, rest := Pad2(t.day), MonthNames[t.month - 1], Pad4(t.year), ":" + ClockText(t);
    Pad2Text(t.day);
    Pad4Text(t.year);
    assert MonthText(m, t.month);
    DatePartOfText(d, m, y, rest, Date(t.day, t.month, t.year));
    assert FormatTimestamp(t) == d + ("/" + (m + ("/" + (y + rest))));
  }

  /** The clock of a written instant is read back, offset included. */
  lemma FormattedClock(t: Instant)
    requires FieldsInRange(t)
    ensures ClockPart(ClockText(t)) == Some(Clock(t.hour, t.minute, t.second, t.offset))
  {
    Pad2Text(t.hour);
    Pad2Text(t.minute);
    Pad2Text(t.second);
    OffsetTextZone(t.offset);
    ClockPartOfText(Pad2(t.hour), Pad2(t.minute), Pad2(t.second), " ", OffsetText(t.offset),
                    Clock(t.hour, t.minute, t.second, t.offset));
  }

  /** A field written with two digits is a text `%H`, `%M`, `%S` and `%d` accept. */
  lemma Pad2Text(v: nat)
    requires v <= 99
    ensures NumberText(Pad2(v), v)
  {
    ValueOfTwoDigits(Pad2(v));
  }

  /** A year written with four digits is a text `%Y` accepts. */
  lemma Pad4Text(v: nat)
    requires v <= 9999
    ensures YearText(Pad4(v), v)
  {
    var t := Pad4(v);
    assert t[0] == DigitChar(v / 100 / 10) && t[1] == DigitChar(v / 100 % 10);
    assert t[2] == DigitChar(v % 100 / 10) && t[3] == DigitChar(v % 100 % 10);
    ValueOfFourDigits(t);
  }

  /** A written offset is a text `%z` accepts for the same number of minutes. */
  lemma OffsetTextZone(o: int)
    requires -1440 < o < 1440
    ensures ZoneText(OffsetText(o), o)
  {
    var a := if o < 0 then -o else o;
    var t := OffsetText(o);
    assert t[1] == DigitChar(a / 60 / 10) && t[2] == DigitChar(a / 60 % 10);
    assert t[3] == DigitChar(a % 60 / 10) && t[4] == DigitChar(a % 60 % 10);
  }

  /** Parsing what the server writes for an instant gives back that instant. */
  lemma ParseFormatTimestamp(t: Instant)
    requires ValidInstant(t)
    ensures ParseTimestamp(FormatTimestamp(t)) == Some(t)
  {
    ParseFormatted(t);
  }

  /** The example line's timestamp. */
  lemma ExampleTimestamp()
    ensures ParseTimestamp("10/Oct/2023:13:55:36 -0700") == Some(Instant(2023, 10, 10, 13, 55, 36, -420))
  {
    var t := Instant(2023, 10, 10, 13, 55, 36, -420);
    ExampleText(t);
    ParseFormatTimestamp(t);
  }

  lemma ExampleText(t: Instant)
    requires t == Instant(2023, 10, 10, 13, 55, 36, -420)
    ensures FieldsInRange(t) && FormatTimestamp(t) == "10/Oct/2023:13:55:36 -0700"
  {
    assert Pad2(10) == "10" && Pad2(13) == "13" && Pad2(55) == "55" && Pad2(36) == "36";
    assert Pad4(2023) == "2023" by {
      assert Pad2(20) == "20" && Pad2(23) == "23";
    }
    assert OffsetText(-420) == "-0700" by {
      assert Pad2(7) == "07" && Pad2(0) == "00";
    }
    var full := "10" + ("/" + ("Oct" + ("/" + ("2023" + (":" + ("13" + (":" + ("55" + (":" + ("36" + (" " + "-0700")))))))))));
    assert MonthNames[t.month - 1] == "Oct";
    assert FormatTimestamp(t) == full;
    ExampleLiteral();
  }

  lemma ExampleLiteral()
    ensures "10" + ("/" + ("Oct" + ("/" + ("2023" + (":" + ("13" + (":" + ("55" + (":" + ("36" + (" " + "-0700")))))))))))
         == "10/Oct/2023:13:55:36 -0700"
  {
  }

  /** A cell in another shape the format accepts: a space-padded day, a month
      in mixed case, one-digit clock fields, a tab in the gap and a colon in
      the offset. */
  lemma LooseExample()
    ensures ParseTimestamp(" 5/oCT/2023:1:2:3 \t+07:30") == Some(Instant(2023, 10, 5, 1, 2, 3, 450))
  {
    var p := Pieces(" 5", "oCT", "2023", "1", "2", "3", " \t", "+07:30");
    var t := Instant(2023, 10, 5, 1, 2, 3, 450);
    LoosePieces(p, t);
    ParseTimestampComplete(p, t);
    LooseLiteral();
  }

  lemma LoosePieces(p: Pieces, t: Instant)
    requires p == Pieces(" 5", "oCT", "2023", "1", "2", "3", " \t", "+07:30")
    requires t == Instant(2023, 10, 5, 1, 2, 3, 450)
    ensures Renders(p, t) && ValidInstant(t)
  {
    LooseDate(p.day, p.month, p.year);
    LooseClock(p.hour, p.minute, p.second, p.gap, p.zone);
  }

  lemma LooseDate(d: string, m: string, y: string)
    requires d == " 5" && m == "oCT" && y == "2023"
    ensures DayText(d, 5) && MonthText(m, 10) && YearText(y, 2023)
  {
    ValueOfFourDigits(y);
    assert SameIgnoringCase(m, MonthNames[9]);
  }

  lemma LooseClock(h: string, mi: string, se: string, g: string, z: string)
    requires h == "1" && mi == "2" && se == "3" && g == " \t" && z == "+07:30"
    ensures NumberText(h, 1) && NumberText(mi, 2) && NumberText(se, 3) && GapText(g) && ZoneText(z, 450)
  {
    ValueOfOneDigit(h);
    ValueOfOneDigit(mi);
    ValueOfOneDigit(se);
  }

  lemma LooseLiteral()
    ensures " 5" + ("/" + ("oCT" + ("/" + ("2023" + (":" + ("1" + (":" + ("2" + (":" + ("3" + (" \t" + "+07:30")))))))))))
         == " 5/oCT/2023:1:2:3 \t+07:30"
  {
  }

  /** Text that names no month is refused by `%b`. */
  lemma NotAMonth(s: string)
    requires |s| >= 3
    requires forall j :: 0 <= j < 12 ==> !SameIgnoringCase(s[..3], MonthNames[j])
    ensures Month(s) == None
  {
  }

  /** Text whose month field is no English month abbreviation is refused,
      whatever the other fields hold. */
  lemma UnknownMonthRejected(day: nat, name: string, rest: string)
    requires 1 <= day <= 31
    requires |name| == 3 && forall j :: 0 <= j < 12 ==> !SameIgnoringCase(name, MonthNames[j])
    ensures ParseTimestamp(Pad2(day) + ("/" + (name + rest))) == None
  {
    var p1 := "/" + (name + rest);
    DayOfPad2(day, p1);
    LitOf('/', name + rest);
    var p2 := name + rest;
    assert p2[..3] == name;
    NotAMonth(p2);
  }

  /** "Foo", the month of the rejected example, is no month abbreviation in any case. */
  lemma FooIsNoMonth()
    ensures forall j :: 0 <= j < 12 ==> !SameIgnoringCase("Foo", MonthNames[j])
  {
    var name := "Foo";
    forall j | 0 <= j < 12
      ensures !SameIgnoringCase(name, MonthNames[j])
    {
      var b := MonthNames[j];
      assert Lower(name[0]) != Lower(b[0]) || Lower(name[1]) != Lower(b[1]);
    }
  }

  /** The 29th of February is a date in leap years only. */
  lemma LeapDay(year: nat)
    requires 1 <= year <= 9999
    ensures ParseTimestamp(FormatTimestamp(Instant(year, 2, 29, 0, 0, 0, 0))).Some? <==> IsLeapYear(year)
  {
    ParseFormatted(Instant(year, 2, 29, 0, 0, 0, 0));
  }
}
