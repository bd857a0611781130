/** The naive datetimes the store hands back for the `begin` and `end`
    columns: Python datetime values without a time zone and, as the store's
    DATETIME columns hold them, without fractions of a second. */
module DateTimes {
  import opened Wrappers
  import opened Text

  datatype Fields = Fields(year: nat, month: nat, day: nat, hour: nat, minute: nat, second: nat)

  predicate IsLeapYear(y: nat) {
    y % 4 == 0 && (y % 100 != 0 || y % 400 == 0)
  }

  function DaysInMonth(y: nat, m: nat): nat
    requires 1 <= m <= 12
  {
    if m == 2 then (if IsLeapYear(y) then 29 else 28)
    else if m == 4 || m == 6 || m == 9 || m == 11 then 30
    else 31
  }

  /** The ranges Python's datetime constructor accepts. */
  predicate ValidFields(f: Fields) {
    && 1 <= f.year <= 9999
    && 1 <= f.month <= 12
    && 1 <= f.day <= DaysInMonth(f.year, f.month)
    && f.hour < 24 && f.minute < 60 && f.second < 60
  }

  type DateTime = f: Fields | ValidFields(f) witness Fields(1970, 1, 1, 0, 0, 0)

  /** `a < b` on datetimes: the fields compared in order, year first. */
  predicate Before(a: DateTime, b: DateTime) {
    if a.year != b.year then a.year < b.year
    else if a.month != b.month then a.month < b.month
    else if a.day != b.day then a.day < b.day
    else if a.hour != b.hour then a.hour < b.hour
    else if a.minute != b.minute then a.minute < b.minute
    else a.second < b.second
  }

  /** Datetime `<` is a strict total order: never both ways, never of a
      datetime and itself, transitive, and any two distinct datetimes are
      ordered one way or the other. */
  lemma BeforeIsStrictTotalOrder(a: DateTime, b: DateTime, c: DateTime)
    ensures !Before(a, a)
    ensures Before(a, b) ==> !Before(b, a)
    ensures Before(a, b) && Before(b, c) ==> Before(a, c)
    ensures a != b ==> Before(a, b) || Before(b, a)
  {
  }

  /** Three fields with `sep` between them: "a-b-c" or "a:b:c". */
  function Triple(a: string, sep: char, b: string, c: string): string {
    a + [sep] + b + [sep] + c
  }

  /** Four-digit year, then two-digit month, day, hour, minute and second,
      with `dateSep` between the date fields. */
  function Layout(d: DateTime, dateSep: char): string {
    Triple(ZeroPad(d.year, 4), dateSep, ZeroPad(d.month, 2), ZeroPad(d.day, 2)) + " "
      + Triple(ZeroPad(d.hour, 2), ':', ZeroPad(d.minute, 2), ZeroPad(d.second, 2))
  }

  /** str(d), the text str.format inserts for a datetime: "YYYY-MM-DD HH:MM:SS". */
  function IsoText(d: DateTime): (s: string)
    ensures |s| == 19
    ensures s[4] == '-' && s[7] == '-' && s[10] == ' ' && s[13] == ':' && s[16] == ':'
  {
    LayoutShape(d, '-');
    Layout(d, '-')
  }

  /** strftime on Python 2 refuses years before 1900 with a ValueError. */
  datatype FormatError = YearBefore1900(year: nat)

  /** The JSON encoder's hook for datetimes: d.strftime('%Y/%m/%d %H:%M:%S'). */
  function DefaultDatetimeFormat(d: DateTime): (r: Result<string, FormatError>)
    ensures r.Ok? <==> d.year >= 1900
    ensures r.Err? ==> r.error == YearBefore1900(d.year)
    ensures r.Ok? ==> |r.value| == 19 && r.value[4] == '/' && r.value[7] == '/'
  {
    LayoutShape(d, '/');
    if d.year < 1900 then Err(YearBefore1900(d.year)) else Ok(Layout(d, '/'))
  }

  /** Reads text of the shape "YYYY/MM/DD HH:MM:SS" back into a datetime. */
  function ParseSlashed(s: string): Option<DateTime> {
    if && |s| == 19
       && s[4] == '/' && s[7] == '/' && s[10] == ' ' && s[13] == ':' && s[16] == ':'
       && AllDigits(s[0..4]) && AllDigits(s[5..7]) && AllDigits(s[8..10])
       && AllDigits(s[11..13]) && AllDigits(s[14..16]) && AllDigits(s[17..19])
    then
      var f := Fields(DigitsValue(s[0..4]), DigitsValue(s[5..7]), DigitsValue(s[8..10]),
                      DigitsValue(s[11..13]), DigitsValue(s[14..16]), DigitsValue(s[17..19]));
      if ValidFields(f) then Some(f) else None
    else
      None
  }

  lemma TripleShape(a: string, sep: char, b: string, c: string)
    requires |b| == 2 && |c| == 2
    ensures var t := Triple(a, sep, b, c);
      && |t| == |a| + 6 && t[|a|] == sep && t[|a| + 3] == sep
      && t[..|a|] == a && t[|a| + 1..|a| + 3] == b && t[|a| + 4..] == c
  {
  }

  /** Slicing past a prefix `a` slices the rest. */
  lemma SliceAfter(a: string, b: string, i: nat, j: nat)
    requires i <= j <= |b|
    ensures (a + b)[|a| + i..|a| + j] == b[i..j]
  {
  }

  /** Six fields of widths 4, 2, 2, 2, 2 and 2 laid out as Layout lays them
      out sit at fixed offsets. */
  lemma PiecesShape(y: string, mo: string, da: string, h: string, mi: string, se: string,
                    dateSep: char)
    requires |y| == 4 && |mo| == 2 && |da| == 2 && |h| == 2 && |mi| == 2 && |se| == 2
    ensures var s := Triple(y, dateSep, mo, da) + " " + Triple(h, ':', mi, se);
      && |s| == 19
      && s[4] == dateSep && s[7] == dateSep && s[10] == ' ' && s[13] == ':' && s[16] == ':'
      && s[0..4] == y && s[5..7] == mo && s[8..10] == da
      && s[11..13] == h && s[14..16] == mi && s[17..19] == se
  {
    var date := Triple(y, dateSep, mo, da);
    var time := Triple(h, ':', mi, se);
    TripleShape(y, dateSep, mo, da);
    TripleShape(h, ':', mi, se);
    var s := date + " " + time;
    assert s[..10] == date;
    SliceAfter(date + " ", time, 0, 2);
    SliceAfter(date + " ", time, 3, 5);
    SliceAfter(date + " ", time, 6, 8);
  }

  /** The pieces of Layout have fixed widths, so each field sits at a fixed offset. */
  lemma LayoutShape(d: DateTime, dateSep: char)
    ensures var s := Layout(d, dateSep);
      && |s| == 19
      && s[4] == dateSep && s[7] == dateSep && s[10] == ' ' && s[13] == ':' && s[16] == ':'
      && s[0..4] == ZeroPad(d.year, 4) && s[5..7] == ZeroPad(d.month, 2)
      && s[8..10] == ZeroPad(d.day, 2) && s[11..13] == ZeroPad(d.hour, 2)
      && s[14..16] == ZeroPad(d.minute, 2) && s[17..19] == ZeroPad(d.second, 2)
  {
    assert Pow10(2) == 100;
    assert Pow10(4) == 10000;
    ZeroPadLength(d.year, 4);
    ZeroPadLength(d.month, 2);
    ZeroPadLength(d.day, 2);
    ZeroPadLength(d.hour, 2);
    ZeroPadLength(d.minute, 2);
    ZeroPadLength(d.second, 2);
    PiecesShape(ZeroPad(d.year, 4), ZeroPad(d.month, 2), ZeroPad(d.day, 2),
                ZeroPad(d.hour, 2), ZeroPad(d.minute, 2), ZeroPad(d.second, 2), dateSep);
  }

  /** The JSON datetime text reads back as the datetime it was made from. */
  lemma DefaultDatetimeFormatRoundTrip(d: DateTime)
    requires d.year >= 1900
    ensures DefaultDatetimeFormat(d).Ok?
    ensures ParseSlashed(DefaultDatetimeFormat(d).value) == Some(d)
  {
    LayoutShape(d, '/');
    ZeroPadValue(d.year, 4);
    ZeroPadValue(d.month, 2);
    ZeroPadValue(d.day, 2);
    ZeroPadValue(d.hour, 2);
    ZeroPadValue(d.minute, 2);
    ZeroPadValue(d.second, 2);
  }
}
