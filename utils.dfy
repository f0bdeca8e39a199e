/** utils/index.js: renaming a stored document's `_id` to `id`, and the
    human-readable rendering of a timestamp. */
module Utils {
  import opened JsValues
  import opened JsStrings
  import opened JsNumbers

  /** `remapItem(item)`: the item without its `_id`, plus an `id` holding
      the old `_id`. The remaining fields are copied after `id` is set, so
      an `id` already in the item wins over `_id`; with no `_id` at all,
      `id` is `undefined`. */
  function RemapItem(item: Object): (r: Object)
    ensures "_id" !in r
    ensures r.Keys == item.Keys - {"_id"} + {"id"}
    ensures forall k :: k in item && k != "_id" ==> k in r && r[k] == item[k]
    ensures "id" !in item ==> r["id"] == Get(item, "_id")
  {
    map["id" := Get(item, "_id")] + (item - {"_id"})
  }

  /** Renames `id` back to `_id`: the inverse of `RemapItem` on documents with an `_id` and no `id`. */
  function RestoreId(r: Object): (item: Object)
    requires "id" in r
    ensures "id" !in item && "_id" in item && item["_id"] == r["id"]
  {
    (r - {"id"})["_id" := r["id"]]
  }

  lemma {:induction false} RemapRoundTrip(item: Object)
    requires "_id" in item && "id" !in item
    ensures RestoreId(RemapItem(item)) == item
  {
    var r := RemapItem(item);
    var back := RestoreId(r);
    assert back.Keys == item.Keys;
    forall k | k in item ensures back[k] == item[k] {
      if k != "_id" {
        assert k != "id";
      }
    }
  }

  // ----- formatDateTime -----

  /** The wall-clock reading in the Asia/Manila zone, as the `Date` getters
      return it: `month` counts from 0, `hours` is on the 24-hour clock. */
  datatype LocalDateTime = LocalDateTime(year: int, month: int, day: int, hours: int, minutes: int, seconds: int)

  predicate ValidLocal(t: LocalDateTime)
  {
    0 <= t.month < 12 && 1 <= t.day <= 31 && 0 <= t.hours < 24 && 0 <= t.minutes < 60 && 0 <= t.seconds < 60
  }

  /** `s.padStart(width, fill)` with a one-character fill. */
  function PadStart(s: string, width: nat, fill: char): (r: string)
    ensures |r| == if |s| >= width then |s| else width
    ensures r[|r| - |s|..] == s
    ensures forall i :: 0 <= i < |r| - |s| ==> r[i] == fill
  {
    if |s| >= width then s else seq(width - |s|, _ => fill) + s
  }

  /** Two zero-padded decimal digits, as `String(n).padStart(2, "0")` gives
      them (TwoDigitsIsPadStart) for every `n` below 100. */
  function TwoDigits(n: nat): (r: string)
    requires n < 100
    ensures |r| == 2 && IsDecimalDigit(r[0]) && IsDecimalDigit(r[1])
    ensures CharDigit(r[0]) * 10 + CharDigit(r[1]) == n
  {
    [DigitChar(n / 10), DigitChar(n % 10)]
  }

  lemma TwoDigitsIsPadStart(n: nat)
    requires n < 100
    ensures PadStart(IntToString(n), 2, '0') == TwoDigits(n)
  {
    if n >= 10 {
      assert NatToString(n / 10) == [DigitChar(n / 10)];
    } else {
      var p := PadStart(IntToString(n), 2, '0');
      assert p[1..] == [DigitChar(n)];
      assert p[0] == '0' == DigitChar(0);
    }
  }

  /** `getHours() % 12 || 12`: the hour on the 12-hour clock. */
  function Hour12(hours: int): (h: int)
    requires 0 <= hours < 24
    ensures 1 <= h <= 12
    ensures h == 12 <==> hours == 0 || hours == 12
    ensures h % 12 == hours % 12
  {
    if hours % 12 == 0 then 12 else hours % 12
  }

  /** `getHours() >= 12 ? "PM" : "AM"`. */
  function Meridiem(hours: int): (m: string)
    ensures m == "AM" <==> hours < 12
    ensures m == "PM" <==> hours >= 12
  {
    if hours >= 12 then "PM" else "AM"
  }

  /** `formatDateTime`, from the Manila-local components: `YYYY/MM/DD hh:mm:ss`
      directly followed by `AM` or `PM`. */
  function FormatDateTime(t: LocalDateTime): (r: string)
    requires ValidLocal(t)
    ensures |r| == |IntToString(t.year)| + 17
  {
    IntToString(t.year) + AfterYear(t)
  }

  /** What follows the year: `/MM/DD hh:mm:ssAM` or `...PM`. */
  function AfterYear(t: LocalDateTime): (a: string)
    requires ValidLocal(t)
    ensures |a| == 17
  {
    assert |Meridiem(t.hours)| == 2;
    Layout17(TwoDigits(t.month + 1), TwoDigits(t.day), TwoDigits(Hour12(t.hours)),
      TwoDigits(t.minutes), TwoDigits(t.seconds), Meridiem(t.hours));
    Tail(TwoDigits(t.month + 1), TwoDigits(t.day), TwoDigits(Hour12(t.hours)),
      TwoDigits(t.minutes), TwoDigits(t.seconds), Meridiem(t.hours))
  }

  /** The text after the year: a slash, the month, a slash, the day, a
      space, hours, minutes and seconds separated by colons, and the
      meridiem with no space before it. */
  function Tail(mo: string, d: string, h: string, mi: string, se: string, m: string): string
  {
    "/" + mo + "/" + d + " " + h + ":" + mi + ":" + se + m
  }

  /** The value of two decimal digit characters. */
  function DigitPair(hi: char, lo: char): int
  {
    CharDigit(hi) * 10 + CharDigit(lo)
  }

  /** Back from the 12-hour clock: `12 AM` is hour 0 and `12 PM` is hour 12. */
  function Hour24(h12: int, pm: bool): (hours: int)
    ensures 0 <= hours < 24
  {
    h12 % 12 + (if pm then 12 else 0)
  }

  /** Reads a timestamp rendered by `FormatDateTime` back into its
      components: the year is everything before the last 17 characters,
      the other fields sit at fixed positions after it. */
  function ParseDateTime(s: string): (r: Option<LocalDateTime>)
    ensures r.Some? ==> |s| >= 17 && ParseInt(s[..|s| - 17]).Int?
  {
    if |s| < 17 then None
    else
      var year := ParseInt(s[..|s| - 17]);
      var a := s[|s| - 17..];
      if year.NaN? then None else Some(ReadFields(year.value, a))
  }

  /** The components at their fixed positions in the 17 characters after the year. */
  function ReadFields(year: int, a: string): LocalDateTime
    requires |a| == 17
  {
    LocalDateTime(year, DigitPair(a[1], a[2]) - 1, DigitPair(a[4], a[5]),
      Hour24(DigitPair(a[7], a[8]), a[15] == 'P'), DigitPair(a[10], a[11]), DigitPair(a[13], a[14]))
  }

  /** Nothing is lost in the rendering: every valid local time is read back
      exactly, so two different times never render alike. */
  lemma FormatParseRoundTrip(t: LocalDateTime)
    requires ValidLocal(t)
    ensures ParseDateTime(FormatDateTime(t)) == Some(t)
  {
    ParseIntToString(t.year);
    AfterYearFields(t);
    ParseFields(IntToString(t.year), AfterYear(t), t);
  }

  /** The fields after the year, read back: the month counted from 1, the
      day, the hour on the 12-hour clock followed by its meridiem, the
      minutes and the seconds; the hour on the 24-hour clock is recovered
      from the 12-hour digits and the meridiem. */
  lemma AfterYearFields(t: LocalDateTime)
    requires ValidLocal(t)
    ensures var a := AfterYear(t);
      && DigitPair(a[1], a[2]) == t.month + 1 && DigitPair(a[4], a[5]) == t.day
      && DigitPair(a[10], a[11]) == t.minutes && DigitPair(a[13], a[14]) == t.seconds
      && DigitPair(a[7], a[8]) == Hour12(t.hours) && a[15..] == Meridiem(t.hours)
      && Hour24(DigitPair(a[7], a[8]), a[15] == 'P') == t.hours
  {
    var a := AfterYear(t);
    var m := Meridiem(t.hours);
    assert |m| == 2;
    var mo, d, h, mi, se := TwoDigits(t.month + 1), TwoDigits(t.day), TwoDigits(Hour12(t.hours)), TwoDigits(t.minutes), TwoDigits(t.seconds);
    assert a == Tail(mo, d, h, mi, se, m);
    Layout17(mo, d, h, mi, se, m);
    assert DigitPair(a[7], a[8]) == Hour12(t.hours);
    assert a[15..] == m;
    assert (a[15] == 'P') == (t.hours >= 12);
    Hour12RoundTrip(t.hours);
  }

  lemma Hour12RoundTrip(hours: int)
    requires 0 <= hours < 24
    ensures Hour24(Hour12(hours), hours >= 12) == hours
  {
    if hours < 12 {
      assert hours % 12 == hours;
    } else {
      assert hours % 12 == hours - 12;
    }
  }

  lemma ParseFields(y: string, a: string, t: LocalDateTime)
    requires |a| == 17 && ParseInt(y) == Int(t.year)
    requires DigitPair(a[1], a[2]) == t.month + 1 && DigitPair(a[4], a[5]) == t.day
    requires DigitPair(a[10], a[11]) == t.minutes && DigitPair(a[13], a[14]) == t.seconds
    requires Hour24(DigitPair(a[7], a[8]), a[15] == 'P') == t.hours
    ensures ParseDateTime(y + a) == Some(t)
  {
    var s := y + a;
    assert ReadFields(t.year, a) == t;
    assert s[..|s| - 17] == y;
    assert s[|s| - 17..] == a;
  }

  lemma FormatInjective(t1: LocalDateTime, t2: LocalDateTime)
    requires ValidLocal(t1) && ValidLocal(t2)
    ensures FormatDateTime(t1) == FormatDateTime(t2) <==> t1 == t2
  {
    if FormatDateTime(t1) == FormatDateTime(t2) {
      FormatParseRoundTrip(t1);
      FormatParseRoundTrip(t2);
    }
  }

  /** `year/MM/DD hh:mm:ss` with `AM` or `PM` right after the seconds, no
      space between: the separators sit at fixed distances from the end of
      the year, and every field in between is a decimal digit. */
  lemma FormatLayout(t: LocalDateTime)
    requires ValidLocal(t)
    ensures var r, y := FormatDateTime(t), |IntToString(t.year)|;
      && r[..y] == IntToString(t.year)
      && r[y] == '/' && r[y + 3] == '/' && r[y + 6] == ' ' && r[y + 9] == ':' && r[y + 12] == ':'
      && IsDecimalDigit(r[y + 1]) && IsDecimalDigit(r[y + 2]) && IsDecimalDigit(r[y + 4]) && IsDecimalDigit(r[y + 5])
      && IsDecimalDigit(r[y + 7]) && IsDecimalDigit(r[y + 8]) && IsDecimalDigit(r[y + 10]) && IsDecimalDigit(r[y + 11])
      && IsDecimalDigit(r[y + 13]) && IsDecimalDigit(r[y + 14])
      && r[y + 15..] == Meridiem(t.hours)
  {
    var a := AfterYear(t);
    var m := Meridiem(t.hours);
    assert |m| == 2;
    var mo, d, h, mi, se := TwoDigits(t.month + 1), TwoDigits(t.day), TwoDigits(Hour12(t.hours)), TwoDigits(t.minutes), TwoDigits(t.seconds);
    assert a == Tail(mo, d, h, mi, se, m);
    Layout17(mo, d, h, mi, se, m);
    var r, y := FormatDateTime(t), |IntToString(t.year)|;
    assert r == IntToString(t.year) + a;
    forall k | 0 <= k < 17 ensures r[y + k] == a[k] { }
    assert r[y + 15..] == a[15..];
    assert a[15..] == m;
  }

  /** Each field of the rendering, zero-padded to two digits: the month
      counted from 1, the day, the hour on the 12-hour clock, the minutes
      and the seconds, then the meridiem. */
  lemma FormatFields(t: LocalDateTime)
    requires ValidLocal(t)
    ensures var r, y := FormatDateTime(t), |IntToString(t.year)|;
      && r[y + 1..y + 3] == TwoDigits(t.month + 1) && r[y + 4..y + 6] == TwoDigits(t.day)
      && r[y + 7..y + 9] == TwoDigits(Hour12(t.hours))
      && r[y + 10..y + 12] == TwoDigits(t.minutes) && r[y + 13..y + 15] == TwoDigits(t.seconds)
      && r[y + 15..] == Meridiem(t.hours)
  {
    var p, a := IntToString(t.year), AfterYear(t);
    AfterYearSlices(t);
    assert FormatDateTime(t) == p + a;
    ShiftSlice(p, a, 1, 3);
    ShiftSlice(p, a, 4, 6);
    ShiftSlice(p, a, 7, 9);
    ShiftSlice(p, a, 10, 12);
    ShiftSlice(p, a, 13, 15);
    ShiftSlice(p, a, 15, 17);
  }

  lemma AfterYearSlices(t: LocalDateTime)
    requires ValidLocal(t)
    ensures var a := AfterYear(t);
      && a[1..3] == TwoDigits(t.month + 1) && a[4..6] == TwoDigits(t.day)
      && a[7..9] == TwoDigits(Hour12(t.hours))
      && a[10..12] == TwoDigits(t.minutes) && a[13..15] == TwoDigits(t.seconds)
      && a[15..] == Meridiem(t.hours)
  {
    var m := Meridiem(t.hours);
    assert |m| == 2;
    var mo, d, h, mi, se := TwoDigits(t.month + 1), TwoDigits(t.day), TwoDigits(Hour12(t.hours)), TwoDigits(t.minutes), TwoDigits(t.seconds);
    TailFields(mo, d, h, mi, se, m);
  }

  /** A slice of the part after a prefix, located in the whole. */
  lemma ShiftSlice(p: string, a: string, i: nat, j: nat)
    requires i <= j <= |a|
    ensures (p + a)[|p| + i..|p| + j] == a[i..j]
    ensures j == |a| ==> (p + a)[|p| + i..] == a[i..]
  {
  }

  /** The two-character fields of the text after the year. */
  lemma TailFields(mo: string, d: string, h: string, mi: string, se: string, m: string)
    requires |mo| == |d| == |h| == |mi| == |se| == |m| == 2
    ensures var a := Tail(mo, d, h, mi, se, m);
      && |a| == 17
      && a[1..3] == mo && a[4..6] == d && a[7..9] == h && a[10..12] == mi && a[13..15] == se && a[15..17] == m
  {
    Layout17(mo, d, h, mi, se, m);
  }

  /** Midnight shows as `12` followed by `AM`, noon as `12` followed by
      `PM`, and 13 o'clock as `01` followed by `PM`. */
  lemma TwelveHourClock(t: LocalDateTime)
    requires ValidLocal(t)
    ensures var r, y := FormatDateTime(t), |IntToString(t.year)|;
      && (t.hours == 0 ==> r[y + 7..y + 9] == "12" && r[y + 15..] == "AM")
      && (t.hours == 12 ==> r[y + 7..y + 9] == "12" && r[y + 15..] == "PM")
      && (t.hours == 13 ==> r[y + 7..y + 9] == "01" && r[y + 15..] == "PM")
  {
    FormatFields(t);
    assert TwoDigits(12) == "12";
    assert TwoDigits(1) == "01";
  }

  /** The fixed layout of the 17 characters after the year. */
  lemma Layout17(mo: string, d: string, h: string, mi: string, se: string, m: string)
    requires |mo| == |d| == |h| == |mi| == |se| == |m| == 2
    ensures var a := Tail(mo, d, h, mi, se, m);
      && |a| == 17
      && a[0] == '/' && a[3] == '/' && a[6] == ' ' && a[9] == ':' && a[12] == ':'
      && a[1] == mo[0] && a[2] == mo[1] && a[4] == d[0] && a[5] == d[1] && a[7] == h[0] && a[8] == h[1]
      && a[10] == mi[0] && a[11] == mi[1] && a[13] == se[0] && a[14] == se[1] && a[15] == m[0] && a[16] == m[1]
  {
    var a := Tail(mo, d, h, mi, se, m);
    assert a == ['/', mo[0], mo[1], '/', d[0], d[1], ' ', h[0], h[1], ':', mi[0], mi[1], ':', se[0], se[1], m[0], m[1]];
  }
}
