/** ft_time_format: the IMF-fixdate of section 7.1.1.1 of RFC 7231. */
module Fixdate {
  import opened Text
  import opened Calendar

  const DAYS: seq<string> := ["Sun", "Mon", "Tue", "Wed", "Thu", "Fri", "Sat"]
  const MONTHS: seq<string> := ["Jan", "Feb", "Mar", "Apr", "May", "Jun", "Jul", "Aug", "Sep", "Oct", "Nov", "Dec"]

  /** 1 January 1970 was a Thursday. */
  function Weekday(u: Utc): (w: nat)
    requires 1 <= u.month <= 12
    ensures w < 7
  {
    (DayCount(u) + 4) % 7
  }

  /** Zero-padded to two digits. */
  function Two(n: nat): string {
    (if n < 10 then "0" else "") + PrintDecimal(n)
  }

  function Format(u: Utc): string
    requires ValidDate(u) && ValidTime(u)
  {
    Date(u) + PrintDecimal(u.year) + Time(u)
  }

  /** Everything before the year, and everything behind it. */
  function Date(u: Utc): string
    requires ValidDate(u)
  {
    DAYS[Weekday(u)] + ", " + Two(u.day) + " " + MONTHS[u.month - 1] + " "
  }

  function Time(u: Utc): string
    requires ValidTime(u)
  {
    " " + Two(u.hour) + ":" + Two(u.minute) + ":" + Two(u.second) + " GMT"
  }

  /** The text for an epoch; a failed stat gives the empty string. */
  method FtTimeFormat(stat: Option<int>) returns (text: string)
    requires stat.Some? ==> stat.value >= 0
    ensures stat.None? ==> text == ""
    ensures stat.Some? ==>
      exists u :: ValidDate(u) && ValidTime(u) && Epoch(u) == stat.value && text == Format(u)
    ensures stat.Some? ==> (|text| == 29 <==> stat.value < 253402300800)
    ensures stat.Some? && |text| == 29 ==> Read(text) == stat
  {
    if stat.None? {
      return "";
    }
    var epoch := stat.value;
    var dayOfWeek := Remainder(Quotient(epoch, 86400) + 4, 7);
    var u := EpochToUTC(epoch);
    WeekdayOf(u);
    hide PrintDecimal;
    text := DAYS[dayOfWeek] + ", " + Two(u.day) + " " + MONTHS[u.month - 1] + " ";
    text := text + PrintDecimal(u.year);
    text := text + (" " + Two(u.hour) + ":" + Two(u.minute) + ":" + Two(u.second) + " GMT");
    assert text == Format(u);
    FormatThenRead(u);
    LastFourDigitYear(u);
  }

  lemma LastFourDigitYear(u: Utc)
    requires ValidDate(u) && ValidTime(u)
    ensures u.year <= 9999 <==> Epoch(u) < 253402300800
  {
    DayInYear(u);
    assert DaysBeforeYear(10000) == 2932897;
    if u.year < 10000 {
      YearsIncrease(u.year, 10000);
    } else if 10000 < u.year {
      YearsIncrease(10000, u.year);
    }
  }

  lemma WeekdayOf(u: Utc)
    requires ValidDate(u) && ValidTime(u)
    ensures Quotient(Epoch(u), 86400) == DayCount(u) >= 0
    ensures Remainder(DayCount(u) + 4, 7) == Weekday(u)
  {
    DayInYear(u);
    if 1970 < u.year {
      YearsIncrease(1970, u.year);
    }
  }

  function IndexOf(names: seq<string>, name: string): (r: Option<nat>)
    ensures r.Some? ==> r.value < |names| && names[r.value] == name
    ensures r.None? ==> name !in names
  {
    if names == [] then None
    else if names[0] == name then Some(0)
    else
      var r := IndexOf(names[1..], name);
      if r.None? then None else Some(r.value + 1)
  }

  /** A decimal number in a field of the text. */
  function Field(text: string, from: nat, to: nat): Option<nat>
    requires from <= to <= |text|
  {
    if forall i :: from <= i < to ==> IsDecimal(text[i]) then
      assert forall i :: 0 <= i < to - from ==> text[from..to][i] == text[from + i];
      Some(DecimalValue(text[from..to]))
    else None
  }

  /** A reader of IMF-fixdate that knows nothing of the printer: fixed columns, checked names, checked weekday. */
  function Read(text: string): Option<int> {
    if |text| != 29 then None
    else
      var weekday, month := IndexOf(DAYS, text[..3]), IndexOf(MONTHS, text[8..11]);
      var day, year := Field(text, 5, 7), Field(text, 12, 16);
      var hour, minute, second := Field(text, 17, 19), Field(text, 20, 22), Field(text, 23, 25);
      if weekday.None? || month.None? || day.None? || year.None? || hour.None? || minute.None? || second.None?
         || text[3..5] != ", " || text[7] != ' ' || text[11] != ' ' || text[16] != ' ' || text[19] != ':'
         || text[22] != ':' || text[25..] != " GMT" then None
      else
        var u := Utc(year.value, month.value + 1, day.value, hour.value, minute.value, second.value);
        if u.month <= 12 && ValidDate(u) && ValidTime(u) && Weekday(u) == weekday.value then Some(Epoch(u)) else None
  }

  lemma TwoDigits(n: nat)
    requires n < 100
    ensures |Two(n)| == 2 && forall i :: 0 <= i < 2 ==> IsDecimal(Two(n)[i])
    ensures DecimalValue(Two(n)) == n
  {
    var s := Two(n);
    PrintThenReadDecimal(n);
    if n < 10 {
      assert s == "0" + PrintDecimal(n) == ['0', '0' + n as char];
      assert s[..1] == ['0'];
      assert ['0'][..0] == "";
    } else {
      assert PrintDecimal(n) == PrintDecimal(n / 10) + ['0' + (n % 10) as char];
      assert s == PrintDecimal(n);
    }
  }

  lemma YearDigits(year: nat)
    requires 1000 <= year
    ensures |PrintDecimal(year)| == 4 <==> year <= 9999
    ensures DecimalValue(PrintDecimal(year)) == year
  {
    PrintThenReadDecimal(year);
    assert |PrintDecimal(year / 1000)| == 1 <==> year / 1000 < 10;
    assert |PrintDecimal(year)| == 1 + |PrintDecimal(year / 10)| == 2 + |PrintDecimal(year / 10 / 10)|
                                == 3 + |PrintDecimal(year / 10 / 10 / 10)|;
    assert year / 10 / 10 / 10 < 10 <==> year <= 9999;
  }

  lemma FieldIs(text: string, from: nat, to: nat, digits: string)
    requires from <= to <= |text| && text[from..to] == digits
    requires forall i :: 0 <= i < |digits| ==> IsDecimal(digits[i])
    ensures Field(text, from, to) == Some(DecimalValue(digits))
  {
    forall i | from <= i < to ensures IsDecimal(text[i]) {
      assert text[i] == text[from..to][i - from];
    }
  }

  /** A three-letter name as a number. */
  function Code(name: string): int {
    if |name| == 3 then 0x10000 * (name[0] as int) + 0x100 * (name[1] as int) + name[2] as int else 0
  }

  const DAY_CODES := [0x53756e, 0x4d6f6e, 0x547565, 0x576564, 0x546875, 0x467269, 0x536174]
  const MONTH_CODES := [0x4a616e, 0x466562, 0x4d6172, 0x417072, 0x4d6179, 0x4a756e,
                        0x4a756c, 0x417567, 0x536570, 0x4f6374, 0x4e6f76, 0x446563]

  lemma DayCodes(w: nat)
    requires w < 7
    ensures |DAYS[w]| == 3 && Code(DAYS[w]) == DAY_CODES[w]
  {
  }

  lemma MonthCodes(m: nat)
    requires m < 12
    ensures |MONTHS[m]| == 3 && Code(MONTHS[m]) == MONTH_CODES[m]
  {
  }

  lemma IndexByCode(names: seq<string>, codes: seq<int>, i: nat)
    requires |names| == |codes| && forall k :: 0 <= k < |names| ==> Code(names[k]) == codes[k]
    requires i < |names| && forall k :: 0 <= k < |codes| && k != i ==> codes[k] != codes[i]
    ensures IndexOf(names, names[i]) == Some(i)
  {
    assert names[i] in names;
  }

  lemma NamesAreDistinct(w: nat, m: nat)
    requires w < 7 && m < 12
    ensures |DAYS[w]| == 3 && IndexOf(DAYS, DAYS[w]) == Some(w)
    ensures |MONTHS[m]| == 3 && IndexOf(MONTHS, MONTHS[m]) == Some(m)
  {
    forall k | 0 <= k < 7 ensures Code(DAYS[k]) == DAY_CODES[k] {
      DayCodes(k);
    }
    forall k | 0 <= k < 12 ensures Code(MONTHS[k]) == MONTH_CODES[k] {
      MonthCodes(k);
    }
    DayCodes(w);
    MonthCodes(m);
    IndexByCode(DAYS, DAY_CODES, w);
    IndexByCode(MONTHS, MONTH_CODES, m);
  }

  /** The columns of the text. */
  lemma Columns(day: string, dd: string, month: string, year: string, hh: string, mm: string, ss: string)
    requires |day| == 3 && |dd| == 2 && |month| == 3 && |year| == 4 && |hh| == 2 && |mm| == 2 && |ss| == 2
    ensures var t := day + ", " + dd + " " + month + " " + year + (" " + hh + ":" + mm + ":" + ss + " GMT");
      && |t| == 29 && t[..3] == day && t[3..5] == ", " && t[5..7] == dd && t[7] == ' ' && t[8..11] == month
          && t[11] == ' '
      && t[12..16] == year && t[16] == ' ' && t[17..19] == hh && t[19] == ':' && t[20..22] == mm && t[22] == ':'
      && t[23..25] == ss && t[25..] == " GMT"
  {
  }

  /** Up to the year 9999 the text has 29 characters and reads back as the epoch; from 10000 on it is longer. */
  lemma FormatThenRead(u: Utc)
    requires ValidDate(u) && ValidTime(u)
    ensures |Format(u)| == 29 <==> u.year <= 9999
    ensures u.year <= 9999 ==> Read(Format(u)) == Some(Epoch(u))
  {
    TwoDigits(u.day);
    TwoDigits(u.hour);
    TwoDigits(u.minute);
    TwoDigits(u.second);
    YearDigits(u.year);
    NamesAreDistinct(Weekday(u), u.month - 1);
    if u.year <= 9999 {
      var t := Format(u);
      Columns(DAYS[Weekday(u)], Two(u.day), MONTHS[u.month - 1], PrintDecimal(u.year), Two(u.hour), Two(u.minute),
          Two(u.second));
      FieldIs(t, 5, 7, Two(u.day));
      FieldIs(t, 12, 16, PrintDecimal(u.year));
      FieldIs(t, 17, 19, Two(u.hour));
      FieldIs(t, 20, 22, Two(u.minute));
      FieldIs(t, 23, 25, Two(u.second));
    }
  }

  /** Four hundred years are 146097 days, a whole number of weeks: the text changes in the year alone. */
  lemma Periodic(u: Utc, v: Utc)
    requires ValidDate(u) && ValidTime(u) && ValidDate(v) && ValidTime(v)
    requires Epoch(v) == Epoch(u) + 86400 * 146097
    ensures v == u.(year := u.year + 400)
    ensures Date(v) == Date(u) && Time(v) == Time(u)
  {
    var w := u.(year := u.year + 400);
    FourCenturies(u.year);
    assert DayCount(w) == DayCount(u) + 146097;
    EpochInjective(v, w);
    WholeWeeks(DayCount(u) + 4);
  }

  lemma WholeWeeks(n: int)
    ensures (n + 146097) % 7 == n % 7
  {
  }

  lemma FourCenturies(year: int)
    ensures DaysBeforeYear(year + 400) == DaysBeforeYear(year) + 146097
    ensures (year + 400) % 4 == year % 4 && (year + 400) % 100 == year % 100 && (year + 400) % 400 == year % 400
  {
  }

  /** The names stand in their order. */
  lemma DaysInOrder(day: nat)
    requires day < 7
    ensures DAYS[day] == "SunMonTueWedThuFriSat"[3 * day..3 * day + 3]
  {
  }

  lemma MonthsInOrder(month: nat)
    requires month < 6
    ensures MONTHS[month] == "JanFebMarAprMayJun"[3 * month..3 * month + 3]
    ensures MONTHS[month + 6] == "JulAugSepOctNovDec"[3 * month..3 * month + 3]
  {
  }

  /** The example of section 7.1.1.1 of RFC 7231. */
  lemma RfcExample()
    ensures var u := Utc(1994, 11, 6, 8, 49, 37);
      ValidDate(u) && ValidTime(u) && Epoch(u) == 784111777 && Format(u) == "Sun, 06 Nov 1994 08:49:37 GMT"
  {
    var u := Utc(1994, 11, 6, 8, 49, 37);
    ExampleNumbers();
    assert DayCount(u) == 9075;
    hide DayCount, PrintDecimal;
    assert Date(u) == "Sun, 06 Nov ";
    assert Time(u) == " 08:49:37 GMT";
  }

  lemma ExampleNumbers()
    ensures PrintDecimal(1994) == "1994" && PrintDecimal(6) == "6" && PrintDecimal(8) == "8"
    ensures PrintDecimal(49) == "49" && PrintDecimal(37) == "37"
  {
    assert PrintDecimal(19) == "19";
    assert PrintDecimal(199) == PrintDecimal(19) + "9" == "199";
    assert PrintDecimal(1994) == PrintDecimal(199) + "4" == "1994";
  }
}
