/** The reminder time format `%Y-%m-%d %H:%M`: parsing the two command
    arguments the way `datetime.strptime` does, and formatting a time back
    the way `strftime` does. A parse that fails stands for `ValueError`. */
module Timestamps {
  import opened Options
  import opened Text

  /** A `datetime` with zero seconds: the only kind the format produces. */
  datatype DateTime = DateTime(year: int, month: int, day: int, hour: int, minute: int)

  predicate IsLeapYear(year: int)
  {
    year % 4 == 0 && (year % 100 != 0 || year % 400 == 0)
  }

  function DaysInMonth(year: int, month: int): (n: int)
    requires 1 <= month <= 12
    ensures 28 <= n <= 31
    ensures month == 2 ==> (n == 29 <==> IsLeapYear(year))
  {
    if month == 2 then (if IsLeapYear(year) then 29 else 28)
    else if month == 4 || month == 6 || month == 9 || month == 11 then 30
    else 31
  }

  /** A real calendar minute inside `datetime`'s year range 1..9999. */
  predicate Valid(t: DateTime)
  {
    && 1 <= t.year <= 9999
    && 1 <= t.month <= 12
    && 1 <= t.day <= DaysInMonth(t.year, t.month)
    && 0 <= t.hour <= 23
    && 0 <= t.minute <= 59
  }

  /** `token` is one of the spellings `%m`, `%d`, `%H` or `%M` accepts for
      `n`: one or two ASCII digits whose value is `n` (`7` and `07` alike). */
  predicate Spells(token: string, n: int)
  {
    1 <= |token| <= 2 && AllDigits(token) && DigitsValue(token) == n
  }

  /** One of the directives `%m`, `%d`, `%H`, `%M`: one or two ASCII digits
      whose value lies in `lo..hi` (the alternatives of `_strptime`'s
      patterns, e.g. `1[0-2]|0[1-9]|[1-9]` for the month, are exactly the
      one- and two-digit spellings of 1..12). */
  function NumberField(token: string, lo: int, hi: int): (r: Option<int>)
    ensures r.Some? ==> Spells(token, r.value) && lo <= r.value <= hi
    ensures (exists n :: lo <= n <= hi && Spells(token, n)) ==> r.Some?
  {
    if 1 <= |token| <= 2 && AllDigits(token) && lo <= DigitsValue(token) <= hi
    then Some(DigitsValue(token))
    else None
  }

  /** `strptime(date + " " + time, "%Y-%m-%d %H:%M")`: the date token must be
      four digits, `-`, month, `-`, day and nothing more; the time token hour,
      `:`, minute. The pattern admits days up to 31; the `datetime`
      constructor then rejects year 0 and a day past the end of the month.
      An accepted time is a real minute, and each of its fields is the value
      the user typed in that position. */
  function Parse(date: string, time: string): (r: Option<DateTime>)
    ensures r.Some? ==> Valid(r.value)
    ensures r.Some? ==>
      var ds := Split(date, '-');
      var ts := Split(time, ':');
      && |ds| == 3 && |ts| == 2
      && |ds[0]| == 4 && AllDigits(ds[0]) && DigitsValue(ds[0]) == r.value.year
      && Spells(ds[1], r.value.month) && Spells(ds[2], r.value.day)
      && Spells(ts[0], r.value.hour) && Spells(ts[1], r.value.minute)
  {
    var ds := Split(date, '-');
    var ts := Split(time, ':');
    if |ds| != 3 || |ts| != 2 || |ds[0]| != 4 || !AllDigits(ds[0]) then None
    else
      var year := DigitsValue(ds[0]);
      var month := NumberField(ds[1], 1, 12);
      var day := NumberField(ds[2], 1, 31);
      var hour := NumberField(ts[0], 0, 23);
      var minute := NumberField(ts[1], 0, 59);
      if month.None? || day.None? || hour.None? || minute.None? then None
      else if year < 1 || day.value > DaysInMonth(year, month.value) then None
      else Some(DateTime(year, month.value, day.value, hour.value, minute.value))
  }

  /** `strftime("%Y-%m-%d")`. */
  function FormatDate(t: DateTime): string
    requires Valid(t)
  {
    Join([Pad(t.year, 4), Pad(t.month, 2), Pad(t.day, 2)], '-')
  }

  /** `strftime("%H:%M")`. */
  function FormatTime(t: DateTime): string
    requires Valid(t)
  {
    Join([Pad(t.hour, 2), Pad(t.minute, 2)], ':')
  }

  /** `strftime("%Y-%m-%d %H:%M")`, as shown in a reminder message. */
  function Format(t: DateTime): (s: string)
    requires Valid(t)
  {
    FormatDate(t) + " " + FormatTime(t)
  }

  /** Every spelling of a valid time is accepted, and as that time: a four-digit
      year and the month, day, hour and minute each written with one or two
      digits. */
  lemma ParseSpelling(x: DateTime, m: string, d: string, h: string, mi: string)
    requires Valid(x)
    requires Spells(m, x.month) && Spells(d, x.day) && Spells(h, x.hour) && Spells(mi, x.minute)
    ensures Parse(Join([Pad(x.year, 4), m, d], '-'), Join([h, mi], ':')) == Some(x)
  {
    var ds := [Pad(x.year, 4), m, d];
    var ts := [h, mi];
    forall i | 0 <= i < |ds| ensures '-' !in ds[i] {
      DigitsExclude(ds[i], '-');
    }
    forall i | 0 <= i < |ts| ensures ':' !in ts[i] {
      DigitsExclude(ts[i], ':');
    }
    SplitJoin(ds, '-');
    SplitJoin(ts, ':');
    assert Pow10(4) == 10000;
    PadValue(x.year, 4);
  }

  /** A zero-padded two-digit field is one of the spellings of its value. */
  lemma PadSpells(n: int)
    requires 0 <= n < 100
    ensures Spells(Pad(n, 2), n)
  {
    assert Pow10(2) == 100;
    PadValue(n, 2);
  }

  /** Formatting a valid time and parsing it again gives the same time. */
  lemma ParseFormat(t: DateTime)
    requires Valid(t)
    ensures Parse(FormatDate(t), FormatTime(t)) == Some(t)
  {
    PadSpells(t.month);
    PadSpells(t.day);
    PadSpells(t.hour);
    PadSpells(t.minute);
    ParseSpelling(t, Pad(t.month, 2), Pad(t.day, 2), Pad(t.hour, 2), Pad(t.minute, 2));
  }

  /** The two-digit spelling of a one- or two-digit field: a single digit
      gets a leading zero. */
  function Padded(token: string): string
  {
    if |token| == 1 then ['0'] + token else token
  }

  /** `Pad(n, 2)` is the two-digit spelling of every token that spells `n`. */
  lemma PaddedSpelling(token: string, n: int)
    requires Spells(token, n)
    ensures Pad(n, 2) == Padded(token)
  {
    PadDigits(token);
    if |token| == 1 {
      assert Pad(n, 2) == Pad(n / 10, 1) + Pad(n, 1);
    }
  }

  /** Parsing and then formatting gives back what the user typed with each
      one-digit field zero-padded. */
  lemma FormatParsed(date: string, time: string, t: DateTime)
    requires Parse(date, time) == Some(t)
    ensures
      var ds := Split(date, '-');
      FormatDate(t) == Join([ds[0], Padded(ds[1]), Padded(ds[2])], '-')
    ensures
      var ts := Split(time, ':');
      FormatTime(t) == Join([Padded(ts[0]), Padded(ts[1])], ':')
  {
    var ds := Split(date, '-');
    var ts := Split(time, ':');
    PadDigits(ds[0]);
    PaddedSpelling(ds[1], t.month);
    PaddedSpelling(ds[2], t.day);
    PaddedSpelling(ts[0], t.hour);
    PaddedSpelling(ts[1], t.minute);
  }

  /** An input typed with every field zero-padded is shown back unchanged. */
  lemma FormatParsedUnchanged(date: string, time: string, t: DateTime)
    requires Parse(date, time) == Some(t)
    requires |Split(date, '-')[1]| == 2 && |Split(date, '-')[2]| == 2
    requires |Split(time, ':')[0]| == 2 && |Split(time, ':')[1]| == 2
    ensures FormatDate(t) == date && FormatTime(t) == time
  {
    var ds := Split(date, '-');
    var ts := Split(time, ':');
    FormatParsed(date, time, t);
    JoinSplit(date, '-');
    JoinSplit(time, ':');
    assert ds == [ds[0], ds[1], ds[2]];
    assert ts == [ts[0], ts[1]];
  }
}
