/** Timestamps: the profile of the RFC 3339 `date-time` (section 5.6) with upper-case `T` and `Z`, at
    most nine fraction digits, and a real calendar date; kept with the instant it names. */
module Timestamp {
  import opened Common
  import Calendar

  const NANOS_PER_SEC: int := 1_000_000_000
  const SECONDS_PER_DAY: int := 86_400

  datatype Stamp = Stamp(text: string, unixNanos: int)

  // ---- decimal digits --------------------------------------------------------------------------

  predicate IsDigit(c: char) {
    '0' <= c <= '9'
  }

  predicate AllDigits(s: string) {
    forall i :: 0 <= i < |s| ==> IsDigit(s[i])
  }

  function Value(s: string): (v: int)
    requires AllDigits(s)
    ensures 0 <= v < Pow10(|s|)
  {
    if s == "" then 0 else Value(s[..|s| - 1]) * 10 + (s[|s| - 1] as int - '0' as int)
  }

  function Pow10(n: nat): (p: int)
    ensures p > 0
  {
    if n == 0 then 1 else 10 * Pow10(n - 1)
  }

  lemma PowersOfTen()
    ensures Pow10(0) == 1 && Pow10(2) == 100 && Pow10(3) == 1000 && Pow10(4) == 10_000
    ensures Pow10(6) == 1_000_000 && Pow10(9) == NANOS_PER_SEC
  {
    assert Pow10(1) == 10;
    assert Pow10(3) == 1000;
    assert Pow10(5) == 100_000;
    assert Pow10(7) == 10_000_000;
  }

  /** The number a non-empty run of digits writes. */
  function Digits(s: string): Option<int> {
    if s == "" || !AllDigits(s) then None else Some(Value(s))
  }

  function Digit(d: int): (c: char)
    requires 0 <= d < 10
    ensures IsDigit(c) && c as int - '0' as int == d
  {
    "0123456789"[d]
  }

  /** `n` in decimal, padded with zeros to `width` digits. */
  function Pad(n: int, width: nat): (s: string)
    requires 0 <= n < Pow10(width)
    ensures |s| == width && AllDigits(s)
  {
    if width == 0 then "" else Pad(n / 10, width - 1) + [Digit(n % 10)]
  }

  lemma {:induction false} ValueOfPad(n: int, width: nat)
    requires 0 <= n < Pow10(width)
    ensures Value(Pad(n, width)) == n
  {
    if width > 0 {
      ValueOfPad(n / 10, width - 1);
      assert Pad(n, width)[..width - 1] == Pad(n / 10, width - 1);
    }
  }

  lemma {:induction false} PadOfValue(s: string)
    requires AllDigits(s)
    ensures Pad(Value(s), |s|) == s
  {
    if s != "" {
      var front := s[..|s| - 1];
      PadOfValue(front);
      assert Value(s) / 10 == Value(front) && Value(s) % 10 == s[|s| - 1] as int - '0' as int;
      assert s == front + [s[|s| - 1]];
    }
  }

  // ---- the form --------------------------------------------------------------------------------

  /** What a timestamp's text says. */
  datatype Fields = Fields(date: Calendar.Date, hour: int, minute: int, second: int, nanos: int)

  predicate ValidFields(f: Fields) {
    && 0 <= f.date.year <= 9999 && Calendar.Valid(f.date)
    && 0 <= f.hour <= 23 && 0 <= f.minute <= 59 && 0 <= f.second <= 59
    && 0 <= f.nanos < NANOS_PER_SEC
  }

  /** The fraction, from the `.` to before the `Z`, in nanoseconds. */
  function Fraction(s: string): Option<int> {
    if s == "" then Some(0)
    else if s[0] == '.' && 1 <= |s| - 1 <= 9 && Digits(s[1..]).Some? then
      Some(Digits(s[1..]).value * Pow10(9 - (|s| - 1)))
    else None
  }

  /** The fields of a text whose separators are in place. */
  function Read(s: string): Option<Fields> {
    if |s| < 20 || s[4] != '-' || s[7] != '-' || s[10] != 'T' || s[13] != ':' || s[16] != ':' || s[|s| - 1] != 'Z'
    then None
    else
      var (y, mo, d) := (Digits(s[0..4]), Digits(s[5..7]), Digits(s[8..10]));
      var (h, mi, sec) := (Digits(s[11..13]), Digits(s[14..16]), Digits(s[17..19]));
      var f := Fraction(s[19..|s| - 1]);
      if y.None? || mo.None? || d.None? || h.None? || mi.None? || sec.None? || f.None? then None
      else Some(Fields(Calendar.Date(y.value, mo.value, d.value), h.value, mi.value, sec.value, f.value))
  }

  function InstantOf(day: int, hour: int, minute: int, second: int, nanos: int): int {
    (day * SECONDS_PER_DAY + (hour * 3600 + minute * 60 + second)) * NANOS_PER_SEC + nanos
  }

  function Instant(f: Fields): int {
    InstantOf(Calendar.DayNumber(f.date), f.hour, f.minute, f.second, f.nanos)
  }

  function Parse(s: string): Option<Stamp> {
    var r := Read(s);
    if r.None? then None
    else
      var f := r.value;
      if !(1 <= f.date.month <= 12) || f.hour > 23 || f.minute > 59 || f.second > 59 || f.date.day < 1
         || f.date.day > Calendar.DaysInMonth(f.date.year, f.date.month)
      then None
      else Some(Stamp(s, Instant(f)))
  }

  /** A fraction and its point; a text may do without both. */
  function Tail(fraction: string): string {
    if fraction == "" then "" else "." + fraction
  }

  function Join(y: string, mo: string, d: string, h: string, mi: string, sec: string, fraction: string): string {
    y + "-" + mo + "-" + d + "T" + h + ":" + mi + ":" + sec + Tail(fraction) + "Z"
  }

  function Write(f: Fields, fraction: string): string
    requires ValidFields(f) && AllDigits(fraction)
  {
    PowersOfTen();
    Join(Pad(f.date.year, 4), Pad(f.date.month, 2), Pad(f.date.day, 2),
         Pad(f.hour, 2), Pad(f.minute, 2), Pad(f.second, 2), fraction)
  }

  /** The fields of an instant `ns` nanoseconds after second `secs`. */
  function FieldsAt(secs: int, ns: int): Fields {
    var sod := secs % SECONDS_PER_DAY;
    Fields(Calendar.CivilFromDays(secs / SECONDS_PER_DAY), sod / 3600, sod / 60 % 60, sod % 60, ns)
  }

  /** Whether the form can write the year. */
  predicate Writable(secs: int) {
    0 <= Calendar.CivilFromDays(secs / SECONDS_PER_DAY).year < 10_000
  }

  lemma TimeOfDay(secs: int, ns: int)
    ensures var sod := secs % SECONDS_PER_DAY;
            && 0 <= sod / 3600 <= 23
            && InstantOf(secs / SECONDS_PER_DAY, sod / 3600, sod / 60 % 60, sod % 60, ns) == secs * NANOS_PER_SEC + ns
  {
    var sod := secs % SECONDS_PER_DAY;
    assert sod / 3600 * 3600 + sod / 60 % 60 * 60 + sod % 60 == sod;
  }

  lemma FieldsAtValid(secs: int, ns: int)
    requires Writable(secs) && 0 <= ns < NANOS_PER_SEC
    ensures ValidFields(FieldsAt(secs, ns)) && Instant(FieldsAt(secs, ns)) == secs * NANOS_PER_SEC + ns
  {
    Calendar.DaysOfCivil(secs / SECONDS_PER_DAY);
    TimeOfDay(secs, ns);
    var f := FieldsAt(secs, ns);
    assert Calendar.DayNumber(f.date) == secs / SECONDS_PER_DAY;
  }


  // ---- what is written is read back -----------------------------------------------------------------

  /** The parts of a text are where they are read. */
  ghost predicate Parted(s: string, y: string, mo: string, d: string, h: string, mi: string, sec: string,
                         fraction: string) {
    && |s| == 20 + |Tail(fraction)|
    && s[0..4] == y && s[4] == '-' && s[5..7] == mo && s[7] == '-' && s[8..10] == d && s[10] == 'T'
    && s[11..13] == h && s[13] == ':' && s[14..16] == mi && s[16] == ':' && s[17..19] == sec
    && s[|s| - 1] == 'Z' && s[19..|s| - 1] == Tail(fraction)
  }

  lemma SliceBetween(front: string, x: string, back: string)
    ensures (front + x + back)[|front|..|front| + |x|] == x
  {
  }

  lemma JoinParts(y: string, mo: string, d: string, h: string, mi: string, sec: string, fraction: string)
    requires |y| == 4 && |mo| == |d| == |h| == |mi| == |sec| == 2
    ensures Parted(Join(y, mo, d, h, mi, sec, fraction), y, mo, d, h, mi, sec, fraction)
  {
    var s := Join(y, mo, d, h, mi, sec, fraction);
    var date := y + "-" + mo + "-" + d + "T";
    var time := h + ":" + mi + ":" + sec;
    var tail := Tail(fraction);
    assert s == date + time + (tail + "Z");
    SliceBetween(date, time, tail + "Z");
    assert s[11..19] == time && s[..11] == date;
    assert s[19..] == tail + "Z";
    assert s[19..|s| - 1] == s[19..][..|tail|] == tail;
    assert s[11..13] == time[..2] == h && s[14..16] == time[3..5] == mi && s[17..19] == time[6..8] == sec;
    assert s[0..4] == date[..4] == y && s[5..7] == date[5..7] == mo && s[8..10] == date[8..10] == d;
    assert s[13] == time[2] && s[16] == time[5] && s[4] == date[4] && s[7] == date[7] && s[10] == date[10];
  }

  lemma ReadOfParts(s: string, f: Fields, y: string, mo: string, d: string, h: string, mi: string, sec: string,
                    fraction: string)
    requires Parted(s, y, mo, d, h, mi, sec, fraction)
    requires Digits(y) == Some(f.date.year) && Digits(mo) == Some(f.date.month) && Digits(d) == Some(f.date.day)
    requires Digits(h) == Some(f.hour) && Digits(mi) == Some(f.minute) && Digits(sec) == Some(f.second)
    requires Fraction(Tail(fraction)) == Some(f.nanos)
    ensures Read(s) == Some(f)
  {
  }

  lemma DigitsOfPad(n: int, width: nat)
    requires width > 0 && 0 <= n < Pow10(width)
    ensures Digits(Pad(n, width)) == Some(n)
  {
    ValueOfPad(n, width);
  }

  lemma FractionOfDigits(fraction: string)
    requires AllDigits(fraction) && |fraction| <= 9
    ensures Fraction(Tail(fraction)) == Some(Value(fraction) * Pow10(9 - |fraction|))
  {
    assert fraction != "" ==> Tail(fraction)[1..] == fraction;
  }

  lemma FieldDigits(f: Fields)
    requires ValidFields(f)
    ensures f.date.year < Pow10(4) && f.date.month < Pow10(2) && f.date.day < Pow10(2)
    ensures f.hour < Pow10(2) && f.minute < Pow10(2) && f.second < Pow10(2)
    ensures Digits(Pad(f.date.year, 4)) == Some(f.date.year) && Digits(Pad(f.date.month, 2)) == Some(f.date.month)
    ensures Digits(Pad(f.date.day, 2)) == Some(f.date.day) && Digits(Pad(f.hour, 2)) == Some(f.hour)
    ensures Digits(Pad(f.minute, 2)) == Some(f.minute) && Digits(Pad(f.second, 2)) == Some(f.second)
  {
    PowersOfTen();
    DigitsOfPad(f.date.year, 4);
    DigitsOfPad(f.date.month, 2);
    DigitsOfPad(f.date.day, 2);
    DigitsOfPad(f.hour, 2);
    DigitsOfPad(f.minute, 2);
    DigitsOfPad(f.second, 2);
  }

  lemma ReadOfJoin(f: Fields, y: string, mo: string, d: string, h: string, mi: string, sec: string, fraction: string)
    requires |y| == 4 && |mo| == |d| == |h| == |mi| == |sec| == 2
    requires Digits(y) == Some(f.date.year) && Digits(mo) == Some(f.date.month) && Digits(d) == Some(f.date.day)
    requires Digits(h) == Some(f.hour) && Digits(mi) == Some(f.minute) && Digits(sec) == Some(f.second)
    requires Fraction(Tail(fraction)) == Some(f.nanos)
    ensures Read(Join(y, mo, d, h, mi, sec, fraction)) == Some(f)
    ensures |Join(y, mo, d, h, mi, sec, fraction)| == 20 + |Tail(fraction)|
  {
    JoinParts(y, mo, d, h, mi, sec, fraction);
    ReadOfParts(Join(y, mo, d, h, mi, sec, fraction), f, y, mo, d, h, mi, sec, fraction);
  }

  lemma ReadOfWrite(f: Fields, fraction: string)
    requires ValidFields(f) && AllDigits(fraction) && |fraction| <= 9
    requires Value(fraction) * Pow10(9 - |fraction|) == f.nanos
    ensures Read(Write(f, fraction)) == Some(f) && |Write(f, fraction)| == 20 + |Tail(fraction)|
  {
    FieldDigits(f);
    FractionOfDigits(fraction);
    ReadOfJoin(f, Pad(f.date.year, 4), Pad(f.date.month, 2), Pad(f.date.day, 2),
               Pad(f.hour, 2), Pad(f.minute, 2), Pad(f.second, 2), fraction);
  }

  /** A text written with a fraction of up to nine digits, or none, parses as the instant it was written for. */
  lemma ParseOfWrite(f: Fields, fraction: string)
    requires ValidFields(f) && AllDigits(fraction) && |fraction| <= 9
    requires Value(fraction) * Pow10(9 - |fraction|) == f.nanos
    ensures Parse(Write(f, fraction)) == Some(Stamp(Write(f, fraction), Instant(f)))
    ensures |Write(f, fraction)| == 20 + if fraction == "" then 0 else 1 + |fraction|
  {
    ReadOfWrite(f, fraction);
  }

  // ---- from an instant ------------------------------------------------------------------------------

  const I64_MIN: int := -0x8000_0000_0000_0000
  const I64_MAX: int := 0x7FFF_FFFF_FFFF_FFFF

  function FromUnixNanos(n: int): Option<Stamp> {
    var secs := n / NANOS_PER_SEC;
    var ns := n % NANOS_PER_SEC;
    if !(I64_MIN <= secs <= I64_MAX) || !Writable(secs) then None
    else
      PowersOfTen();
      FieldsAtValid(secs, ns);
      Parse(Write(FieldsAt(secs, ns), Pad(ns, 9)))
  }

  function FromUnixMillis(millis: int): Option<Stamp> {
    var secs := millis / 1000;
    var ms := millis % 1000;
    if !Writable(secs) then None
    else
      PowersOfTen();
      FieldsAtValid(secs, ms * 1_000_000);
      Parse(Write(FieldsAt(secs, ms * 1_000_000), Pad(ms, 3)))
  }

  const YEAR_0000: int := -719_528
  const YEAR_10000: int := 2_932_897

  lemma YearConstants()
    ensures Calendar.DayNumber(Calendar.Date(0, 1, 1)) == YEAR_0000
    ensures Calendar.DayNumber(Calendar.Date(10_000, 1, 1)) == YEAR_10000
  {
  }

  lemma YearBounds(z: int)
    ensures 0 <= Calendar.CivilFromDays(z).year < 10_000 <==> YEAR_0000 <= z < YEAR_10000
  {
    YearConstants();
    Calendar.YearsSpan(z, 0, 10_000);
  }

  lemma WritableBounds(secs: int)
    ensures Writable(secs) <==> YEAR_0000 * SECONDS_PER_DAY <= secs < YEAR_10000 * SECONDS_PER_DAY
  {
    YearBounds(secs / SECONDS_PER_DAY);
  }

  /** An instant has a timestamp exactly when its year is 0000 to 9999, and the text of the timestamp,
      with nine fraction digits, parses back to that very instant. */
  lemma FromUnixNanosExact(n: int)
    ensures FromUnixNanos(n).Some?
       <==> YEAR_0000 * SECONDS_PER_DAY * NANOS_PER_SEC <= n < YEAR_10000 * SECONDS_PER_DAY * NANOS_PER_SEC
    ensures FromUnixNanos(n).Some? ==>
              var t := FromUnixNanos(n).value;
              t.unixNanos == n && |t.text| == 30 && Parse(t.text) == Some(t)
  {
    var secs, ns := n / NANOS_PER_SEC, n % NANOS_PER_SEC;
    WritableBounds(secs);
    if Writable(secs) {
      PowersOfTen();
      FieldsAtValid(secs, ns);
      ValueOfPad(ns, 9);
      ParseOfWrite(FieldsAt(secs, ns), Pad(ns, 9));
    }
  }

  lemma FromUnixMillisExact(millis: int)
    ensures FromUnixMillis(millis).Some? <==> Writable(millis / 1000)
    ensures FromUnixMillis(millis).Some? ==>
              var t := FromUnixMillis(millis).value;
              t.unixNanos == millis * 1_000_000 && |t.text| == 24 && Parse(t.text) == Some(t)
  {
    var secs, ms := millis / 1000, millis % 1000;
    if Writable(secs) {
      PowersOfTen();
      FieldsAtValid(secs, ms * 1_000_000);
      ValueOfPad(ms, 3);
      ParseOfWrite(FieldsAt(secs, ms * 1_000_000), Pad(ms, 3));
    }
  }

  /** Milliseconds and nanoseconds agree on which instants have a timestamp and on the instant. */
  lemma FromUnixMillisAgrees(millis: int)
    requires I64_MIN <= millis <= I64_MAX
    ensures FromUnixMillis(millis).Some? <==> FromUnixNanos(millis * 1_000_000).Some?
    ensures FromUnixMillis(millis).Some? ==>
              var t := FromUnixMillis(millis).value;
              && t.unixNanos == FromUnixNanos(millis * 1_000_000).value.unixNanos == millis * 1_000_000
              && |t.text| == 24 && Parse(t.text) == Some(t)
  {
    FromUnixMillisExact(millis);
    FromUnixNanosExact(millis * 1_000_000);
    WritableBounds(millis / 1000);
  }


  // ---- what a parsed text says ------------------------------------------------------------------------

  lemma {:induction false} PowSplits(a: nat, b: nat)
    ensures Pow10(a + b) == Pow10(a) * Pow10(b)
  {
    if a > 0 {
      PowSplits(a - 1, b);
    }
  }

  lemma FractionBound(s: string)
    requires Fraction(s).Some?
    ensures 0 <= Fraction(s).value < NANOS_PER_SEC
  {
    PowersOfTen();
    if s != "" {
      var v, k := Value(s[1..]), |s| - 1;
      PowSplits(k, 9 - k);
      assert 0 <= v * Pow10(9 - k) < Pow10(k) * Pow10(9 - k) by {
        ScaleKeepsOrder(v, Pow10(k), Pow10(9 - k));
      }
    }
  }

  lemma ScaleKeepsOrder(v: int, limit: int, scale: int)
    requires 0 <= v < limit && scale > 0
    ensures 0 <= v * scale < limit * scale
  {
  }

  lemma ParsedIsRead(s: string)
    requires Parse(s).Some?
    ensures Read(s).Some? && ValidFields(Read(s).value)
    ensures Parse(s).value == Stamp(s, Instant(Read(s).value))
  {
    PowersOfTen();
    FractionBound(s[19..|s| - 1]);
    var f := Read(s).value;
    assert f.date.year == Value(s[0..4]) < Pow10(4);
  }

  /** The order of dates, times of day and fractions. */
  predicate EarlierFields(f: Fields, g: Fields) {
    || Calendar.Before(f.date, g.date)
    || (f.date == g.date &&
        (f.hour < g.hour || (f.hour == g.hour &&
         (f.minute < g.minute || (f.minute == g.minute &&
          (f.second < g.second || (f.second == g.second && f.nanos < g.nanos)))))))
  }

  function NanosOfDay(f: Fields): int {
    (f.hour * 3600 + f.minute * 60 + f.second) * NANOS_PER_SEC + f.nanos
  }

  lemma NanosOfDayBound(f: Fields)
    requires ValidFields(f)
    ensures 0 <= NanosOfDay(f) < SECONDS_PER_DAY * NANOS_PER_SEC
    ensures Instant(f) == Calendar.DayNumber(f.date) * SECONDS_PER_DAY * NANOS_PER_SEC + NanosOfDay(f)
  {
  }

  lemma NanosOfDayKeepOrder(f: Fields, g: Fields)
    requires ValidFields(f) && ValidFields(g) && f.date == g.date
    ensures EarlierFields(f, g) <==> NanosOfDay(f) < NanosOfDay(g)
  {
  }

  lemma DaysDecide(x: int, y: int, f: int, g: int)
    requires 0 <= f < SECONDS_PER_DAY * NANOS_PER_SEC && 0 <= g < SECONDS_PER_DAY * NANOS_PER_SEC
    ensures x * SECONDS_PER_DAY * NANOS_PER_SEC + f < y * SECONDS_PER_DAY * NANOS_PER_SEC + g
       <==> x < y || (x == y && f < g)
  {
  }

  lemma InstantKeepsOrder(f: Fields, g: Fields)
    requires ValidFields(f) && ValidFields(g)
    ensures EarlierFields(f, g) <==> Instant(f) < Instant(g)
  {
    NanosOfDayBound(f);
    NanosOfDayBound(g);
    Calendar.DaysKeepOrder(f.date, g.date);
    Calendar.DaysKeepOrder(g.date, f.date);
    DaysDecide(Calendar.DayNumber(f.date), Calendar.DayNumber(g.date), NanosOfDay(f), NanosOfDay(g));
    if f.date == g.date {
      NanosOfDayKeepOrder(f, g);
    } else {
      assert Calendar.Before(f.date, g.date) || Calendar.Before(g.date, f.date);
    }
  }

  lemma InstantNamesFields(f: Fields, g: Fields)
    requires ValidFields(f) && ValidFields(g) && Instant(f) == Instant(g)
    ensures f == g
  {
    InstantKeepsOrder(f, g);
    InstantKeepsOrder(g, f);
    assert f.date == g.date || Calendar.Before(f.date, g.date) || Calendar.Before(g.date, f.date);
  }

  /** The digits of a fraction, where it is read. */
  function FractionOf(s: string): string
    requires |s| >= 20
  {
    if |s| == 20 then "" else s[20..|s| - 1]
  }

  lemma JoinRegroups(date: string, time: string, y: string, mo: string, d: string, h: string, mi: string,
                     sec: string, fraction: string)
    requires date == y + "-" + mo + "-" + d + "T" && time == h + ":" + mi + ":" + sec
    ensures Join(y, mo, d, h, mi, sec, fraction) == date + time + Tail(fraction) + "Z"
  {
  }

  lemma DateSlices(s: string)
    requires |s| >= 11 && s[4] == '-' && s[7] == '-' && s[10] == 'T'
    ensures s[..11] == s[0..4] + "-" + s[5..7] + "-" + s[8..10] + "T"
  {
  }

  lemma TimeSlices(s: string)
    requires |s| >= 19 && s[13] == ':' && s[16] == ':'
    ensures s[11..19] == s[11..13] + ":" + s[14..16] + ":" + s[17..19]
  {
  }

  lemma TailSlices(s: string)
    requires |s| >= 20 && |s| != 21 && (|s| > 20 ==> s[19] == '.') && s[|s| - 1] == 'Z'
    ensures s == s[..11] + s[11..19] + Tail(FractionOf(s)) + "Z"
  {
    assert Tail(FractionOf(s)) == s[19..|s| - 1];
  }

  lemma SlicesJoin(s: string)
    requires |s| >= 20 && |s| != 21 && s[4] == '-' && s[7] == '-' && s[10] == 'T' && s[13] == ':' && s[16] == ':'
    requires (|s| > 20 ==> s[19] == '.') && s[|s| - 1] == 'Z'
    ensures s == Join(s[0..4], s[5..7], s[8..10], s[11..13], s[14..16], s[17..19], FractionOf(s))
  {
    DateSlices(s);
    TimeSlices(s);
    TailSlices(s);
    JoinRegroups(s[..11], s[11..19], s[0..4], s[5..7], s[8..10], s[11..13], s[14..16], s[17..19], FractionOf(s));
  }

  lemma PadOfDigits(s: string)
    requires Digits(s).Some?
    ensures 0 <= Digits(s).value < Pow10(|s|) && Pad(Digits(s).value, |s|) == s
  {
    PadOfValue(s);
  }

  lemma ReadFraction(s: string)
    requires Fraction(s).Some?
    ensures s == "" || (s[0] == '.' && 2 <= |s| <= 10 && AllDigits(s[1..]))
    ensures Fraction(s).value == if s == "" then 0 else Value(s[1..]) * Pow10(10 - |s|)
  {
  }

  lemma ReadDigits(s: string)
    requires Read(s).Some?
    ensures var f := Read(s).value;
            && Digits(s[0..4]) == Some(f.date.year) && Digits(s[5..7]) == Some(f.date.month)
            && Digits(s[8..10]) == Some(f.date.day) && Digits(s[11..13]) == Some(f.hour)
            && Digits(s[14..16]) == Some(f.minute) && Digits(s[17..19]) == Some(f.second)
    ensures |s| != 21 && (|s| > 20 ==> s[19] == '.') && AllDigits(FractionOf(s)) && |FractionOf(s)| <= 9
    ensures Read(s).value.nanos == Value(FractionOf(s)) * Pow10(9 - |FractionOf(s)|)
  {
    var tail := s[19..|s| - 1];
    ReadFraction(tail);
    if |s| > 20 {
      assert tail[1..] == FractionOf(s) && tail[0] == s[19];
    }
  }

  /** `s` is the padded date and time of valid fields, then nothing or a point and up to nine digits that
      spell their nanoseconds, and a `Z`. */
  ghost predicate Spells(s: string, f: Fields, fraction: string) {
    && ValidFields(f) && AllDigits(fraction) && |fraction| <= 9
    && Value(fraction) * Pow10(9 - |fraction|) == f.nanos && s == Write(f, fraction)
  }

  lemma WriteOfDigits(s: string, f: Fields, fraction: string)
    requires |s| >= 20 && ValidFields(f) && AllDigits(fraction)
    requires Digits(s[0..4]) == Some(f.date.year) && Digits(s[5..7]) == Some(f.date.month)
    requires Digits(s[8..10]) == Some(f.date.day) && Digits(s[11..13]) == Some(f.hour)
    requires Digits(s[14..16]) == Some(f.minute) && Digits(s[17..19]) == Some(f.second)
    ensures Write(f, fraction) == Join(s[0..4], s[5..7], s[8..10], s[11..13], s[14..16], s[17..19], fraction)
  {
    PowersOfTen();
    PadOfDigits(s[0..4]);
    PadOfDigits(s[5..7]);
    PadOfDigits(s[8..10]);
    PadOfDigits(s[11..13]);
    PadOfDigits(s[14..16]);
    PadOfDigits(s[17..19]);
  }

  lemma TextOfParts(s: string)
    requires Parse(s).Some?
    ensures Spells(s, Read(s).value, FractionOf(s))
  {
    ParsedIsRead(s);
    ReadDigits(s);
    WriteOfDigits(s, Read(s).value, FractionOf(s));
    SlicesJoin(s);
  }

  /** A text with nine fraction digits is the one written for its fields with nine. */
  lemma FullText(s: string)
    requires Parse(s).Some? && |s| == 30
    ensures var f := Read(s).value; ValidFields(f) && f.nanos < Pow10(9) && s == Write(f, Pad(f.nanos, 9))
  {
    TextOfParts(s);
    PowersOfTen();
    PadOfValue(FractionOf(s));
  }

  /** A text is accepted exactly when it spells valid fields in this form, and its instant is theirs. */
  lemma ParseExactly(s: string, t: Stamp)
    ensures Parse(s) == Some(t) <==> exists f, fraction :: Spells(s, f, fraction) && t == Stamp(s, Instant(f))
  {
    if Parse(s) == Some(t) {
      TextOfParts(s);
      ParsedIsRead(s);
    }
    forall f, fraction | Spells(s, f, fraction) ensures Parse(s) == Some(Stamp(s, Instant(f))) {
      ParseOfWrite(f, fraction);
    }
  }

  /** Parsing keeps the order of what the texts say, strictly, both ways. */
  lemma ParseKeepsOrder(s: string, f: Fields, x: string, t: string, g: Fields, y: string)
    requires Spells(s, f, x) && Spells(t, g, y)
    ensures Parse(s).Some? && Parse(t).Some?
    ensures EarlierFields(f, g) <==> Parse(s).value.unixNanos < Parse(t).value.unixNanos
  {
    ParseOfWrite(f, x);
    ParseOfWrite(g, y);
    InstantKeepsOrder(f, g);
  }

  lemma SliceDigits(s: string, i: nat, j: nat)
    requires i <= j <= |s| && Digits(s[i..j]).Some?
    ensures forall k :: i <= k < j ==> IsDigit(s[k])
  {
    assert forall k :: i <= k < j ==> s[k] == s[i..j][k - i];
  }

  predicate IsAscii(s: string) {
    forall i :: 0 <= i < |s| ==> s[i] < 128 as char
  }

  /** A reader of timestamps. The formats that hold timestamps take any that keeps the spelling of what it
      reads and reads short ASCII texts only. */
  type Parser = string -> Option<Stamp>

  ghost predicate KeepsText(parse: Parser) {
    forall s {:trigger parse(s)} :: parse(s).Some? ==> parse(s).value.text == s && IsAscii(s) && 20 <= |s| <= 30
  }

  lemma ParseKeepsText()
    ensures KeepsText(Parse)
  {
    forall s | Parse(s).Some? ensures Parse(s).value.text == s && IsAscii(s) && 20 <= |s| <= 30 {
      ParsedText(s);
    }
  }

  /** An accepted text is twenty to thirty ASCII characters. */
  lemma ParsedText(s: string)
    requires Parse(s).Some?
    ensures 20 <= |s| <= 30 && IsAscii(s)
  {
    ReadText(s);
  }

  lemma ReadText(s: string)
    requires Read(s).Some?
    ensures 20 <= |s| <= 30 && forall k :: 0 <= k < |s| ==> s[k] < 128 as char
  {
    SliceDigits(s, 0, 4);
    SliceDigits(s, 5, 7);
    SliceDigits(s, 8, 10);
    SliceDigits(s, 11, 13);
    SliceDigits(s, 14, 16);
    SliceDigits(s, 17, 19);
    if |s| > 20 {
      assert s[19..|s| - 1][1..] == s[20..|s| - 1];
      SliceDigits(s, 20, |s| - 1);
    }
  }

  /** Every accepted text names an instant that can be written again; writing it gives the same text
      back exactly when the text had nine fraction digits. */
  lemma WrittenAgain(s: string)
    requires Parse(s).Some?
    ensures FromUnixNanos(Parse(s).value.unixNanos).Some?
    ensures FromUnixNanos(Parse(s).value.unixNanos).value.unixNanos == Parse(s).value.unixNanos
    ensures FromUnixNanos(Parse(s).value.unixNanos).value.text == s <==> |s| == 30
  {
    ParsedIsRead(s);
    var f := Read(s).value;
    var n := Instant(f);
    InstantInRange(f);
    FromUnixNanosExact(n);
    if |s| == 30 {
      var t := FromUnixNanos(n).value.text;
      FullText(s);
      FullText(t);
      ParsedIsRead(t);
      InstantNamesFields(f, Read(t).value);
    }
  }

  lemma InstantInRange(f: Fields)
    requires ValidFields(f)
    ensures YEAR_0000 * SECONDS_PER_DAY * NANOS_PER_SEC <= Instant(f) < YEAR_10000 * SECONDS_PER_DAY * NANOS_PER_SEC
  {
    NanosOfDayBound(f);
    var z := Calendar.DayNumber(f.date);
    Calendar.CivilOfDays(f.date);
    YearBounds(z);
  }
}
