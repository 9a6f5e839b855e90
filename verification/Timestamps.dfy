/** The UTC timestamp text `YYYY-MM-DDTHH:MM:SS.mmmZ`: its printer, the exact range it covers,
    its parser and its order. */
module Timestamps {
  import opened Calendar
  import opened Decimal
  import opened Text
  import opened Wrappers

  const TIMESTAMP_LENGTH := 24
  const FIRST_MILLISECOND := -62167219200000
  const LAST_MILLISECOND := 253402300799999

  /** A number field of a `printf` format: its width, and the literal text after it. */
  datatype Field = Field(width: nat, separator: string)

  /** `%04d-%02d-%02dT%02d:%02d:%02d.%03dZ` */
  const LAYOUT :=
    [Field(4, "-"), Field(2, "-"), Field(2, "T"), Field(2, ":"), Field(2, ":"), Field(2, "."), Field(3, "Z")]

  /** What `snprintf` writes for a format of zero-padded fields. */
  function Print(values: seq<int>, layout: seq<Field>): string
    requires |values| == |layout|
  {
    if values == [] then ""
    else ZeroPadded(values[0], layout[0].width) + layout[0].separator + Print(values[1..], layout[1..])
  }

  function TmValues(tm: Tm, milliseconds: int): seq<int> {
    [tm.tmYear + TM_YEAR_BASE, tm.tmMon + 1, tm.tmMday, tm.tmHour, tm.tmMin, tm.tmSec, milliseconds]
  }

  /** The text of a second and the milliseconds after it; nothing when the year has no
      four-digit form. */
  function SecondText(seconds: int, milliseconds: int): Option<string> {
    var tm :- GmTime(seconds);
    if 0 <= tm.tmYear + TM_YEAR_BASE <= 9999 then Some(Print(TmValues(tm, milliseconds), LAYOUT)) else None
  }

  /** The timestamp of a count of milliseconds: whole seconds rounded down, then what is left. */
  function TimestampText(unixMilliseconds: int): Option<string> {
    SecondText(unixMilliseconds / 1000, unixMilliseconds % 1000)
  }

  /** Reads back fields printed by a layout. */
  function Scan(s: string, layout: seq<Field>): Option<seq<int>> {
    if layout == [] then (if s == "" then Some([]) else None)
    else
      var (digits, afterDigits) :- Take(s, layout[0].width);
      var rest :- Strip(layout[0].separator, afterDigits);
      var values :- Scan(rest, layout[1..]);
      if AllDigits(digits) then Some([Value(digits)] + values) else None
  }

  /** Reads a timestamp by POSIX "Seconds Since the Epoch". */
  function ParseTimestamp(s: string): Option<int> {
    var v :- Scan(s, LAYOUT);
    if |v| != 7 then None
    else
      var yday := DaysBeforeMonth(IsLeap(v[0]), v[1] - 1) + v[2] - 1;
      Some(1000 * SecondsSinceEpoch(Tm(v[0] - TM_YEAR_BASE, v[1] - 1, v[2], v[3], v[4], v[5], yday)) + v[6])
  }

  /** Every value is non-negative and fits its field. */
  predicate Fits(values: seq<int>, layout: seq<Field>) {
    |values| == |layout|
    && forall i :: 0 <= i < |values| ==> 0 <= values[i] < Pow10(layout[i].width) && layout[i].width > 0
  }

  function PrintedLength(layout: seq<Field>): nat {
    if layout == [] then 0 else layout[0].width + |layout[0].separator| + PrintedLength(layout[1..])
  }

  /** The order of field lists of one length: the first difference decides. */
  predicate ValuesLess(a: seq<int>, b: seq<int>)
    requires |a| == |b|
  {
    a != [] && (a[0] < b[0] || (a[0] == b[0] && ValuesLess(a[1..], b[1..])))
  }

  lemma {:induction false} PrintLength(values: seq<int>, layout: seq<Field>)
    requires Fits(values, layout)
    ensures |Print(values, layout)| == PrintedLength(layout)
  {
    if values != [] {
      PaddedField(values[0], layout[0].width);
      PrintLength(values[1..], layout[1..]);
    }
  }

  lemma {:induction false} ScanPrint(values: seq<int>, layout: seq<Field>)
    requires Fits(values, layout)
    ensures Scan(Print(values, layout), layout) == Some(values)
  {
    if values != [] {
      var digits := ZeroPadded(values[0], layout[0].width);
      var rest := Print(values[1..], layout[1..]);
      PaddedField(values[0], layout[0].width);
      ScanPrint(values[1..], layout[1..]);
      assert Print(values, layout) == digits + (layout[0].separator + rest);
      TakeConcat(digits, layout[0].separator + rest);
      StripConcat(layout[0].separator, rest);
      assert [values[0]] + values[1..] == values;
    }
  }

  lemma {:induction false} PrintOrder(a: seq<int>, b: seq<int>, layout: seq<Field>)
    requires Fits(a, layout) && Fits(b, layout) && ValuesLess(a, b)
    ensures LexLess(Print(a, layout), Print(b, layout))
  {
    var width, sep := layout[0].width, layout[0].separator;
    var restA, restB := Print(a[1..], layout[1..]), Print(b[1..], layout[1..]);
    var digitsA, digitsB := ZeroPadded(a[0], width), ZeroPadded(b[0], width);
    PaddedField(a[0], width);
    PaddedField(b[0], width);
    assert Print(a, layout) == digitsA + (sep + restA);
    assert Print(b, layout) == digitsB + (sep + restB);
    if a[0] < b[0] {
      DigitOrder(digitsA, digitsB);
      LexFront(digitsA, digitsB, sep + restA, sep + restB);
    } else {
      PrintOrder(a[1..], b[1..], layout[1..]);
      LexBack(sep, restA, restB);
      LexBack(digitsA, sep + restA, sep + restB);
    }
  }

  lemma LayoutFacts()
    ensures PrintedLength(LAYOUT) == TIMESTAMP_LENGTH
    ensures Pow10(1) == 10 && Pow10(2) == 100 && Pow10(3) == 1000 && Pow10(4) == 10000
  {
    assert LAYOUT[1..] == [Field(2, "-"), Field(2, "T"), Field(2, ":"), Field(2, ":"), Field(2, "."), Field(3, "Z")];
    assert LAYOUT[1..][1..] == [Field(2, "T"), Field(2, ":"), Field(2, ":"), Field(2, "."), Field(3, "Z")];
    assert LAYOUT[1..][1..][1..] == [Field(2, ":"), Field(2, ":"), Field(2, "."), Field(3, "Z")];
    assert LAYOUT[1..][1..][1..][1..] == [Field(2, ":"), Field(2, "."), Field(3, "Z")];
    assert LAYOUT[1..][1..][1..][1..][1..] == [Field(2, "."), Field(3, "Z")];
    assert LAYOUT[1..][1..][1..][1..][1..][1..] == [Field(3, "Z")];
    assert Pow10(1) == 10 * Pow10(0);
    assert Pow10(2) == 10 * Pow10(1);
    assert Pow10(3) == 10 * Pow10(2);
    assert Pow10(4) == 10 * Pow10(3);
  }

  lemma ValidFieldsFit(tm: Tm, milliseconds: int)
    requires ValidTm(tm) && 0 <= tm.tmYear + TM_YEAR_BASE <= 9999 && 0 <= milliseconds < 1000
    ensures Fits(TmValues(tm, milliseconds), LAYOUT)
  {
    LayoutFacts();
    var values := TmValues(tm, milliseconds);
    assert tm.tmMday < 100;
    forall i | 0 <= i < |values| ensures 0 <= values[i] < Pow10(LAYOUT[i].width) && LAYOUT[i].width > 0 {
    }
  }

  /** Printing succeeds exactly for the milliseconds of years 0 to 9999, always with 24 characters. */
  lemma TimestampRange(unixMilliseconds: int)
    ensures TimestampText(unixMilliseconds).Some? <==> FIRST_MILLISECOND <= unixMilliseconds <= LAST_MILLISECOND
    ensures TimestampText(unixMilliseconds).Some? ==> |TimestampText(unixMilliseconds).value| == TIMESTAMP_LENGTH
  {
    var seconds := unixMilliseconds / 1000;
    YearRange(seconds, 0, 9999);
    assert DaysBeforeYear(0) == -719528 && DaysBeforeYear(10000) == 2932897;
    if TimestampText(unixMilliseconds).Some? {
      BreakdownInverts(seconds);
      ValidFieldsFit(Breakdown(seconds), unixMilliseconds % 1000);
      PrintLength(TmValues(Breakdown(seconds), unixMilliseconds % 1000), LAYOUT);
      LayoutFacts();
    }
  }

  lemma PrintedTmReads(tm: Tm, milliseconds: int)
    requires ValidTm(tm) && 0 <= tm.tmYear + TM_YEAR_BASE <= 9999 && 0 <= milliseconds < 1000
    ensures ParseTimestamp(Print(TmValues(tm, milliseconds), LAYOUT))
         == Some(1000 * SecondsSinceEpoch(tm) + milliseconds)
  {
    ValidFieldsFit(tm, milliseconds);
    ScanPrint(TmValues(tm, milliseconds), LAYOUT);
    assert Tm(tm.tmYear, tm.tmMon, tm.tmMday, tm.tmHour, tm.tmMin, tm.tmSec, tm.tmYday) == tm;
  }

  lemma SecondTextIsPrinted(seconds: int, milliseconds: int)
    requires SecondText(seconds, milliseconds).Some?
    ensures 0 <= Breakdown(seconds).tmYear + TM_YEAR_BASE <= 9999
    ensures SecondText(seconds, milliseconds).value == Print(TmValues(Breakdown(seconds), milliseconds), LAYOUT)
  {
  }

  lemma SecondTextReads(seconds: int, milliseconds: int)
    requires SecondText(seconds, milliseconds).Some? && 0 <= milliseconds < 1000
    ensures ParseTimestamp(SecondText(seconds, milliseconds).value) == Some(1000 * seconds + milliseconds)
  {
    BreakdownInverts(seconds);
    SecondTextIsPrinted(seconds, milliseconds);
    PrintedTmReads(Breakdown(seconds), milliseconds);
  }

  /** A printed timestamp reads back as the millisecond it was printed from. */
  lemma TimestampRoundTrip(unixMilliseconds: int)
    requires FIRST_MILLISECOND <= unixMilliseconds <= LAST_MILLISECOND
    ensures TimestampText(unixMilliseconds).Some?
    ensures ParseTimestamp(TimestampText(unixMilliseconds).value) == Some(unixMilliseconds)
  {
    TimestampRange(unixMilliseconds);
    SecondTextReads(unixMilliseconds / 1000, unixMilliseconds % 1000);
  }

  lemma SecondsDecideFields(a: Tm, b: Tm)
    requires ValidTm(a) && ValidTm(b) && SecondsSinceEpoch(a) < SecondsSinceEpoch(b)
    ensures TmLess(a, b)
  {
    if TmLess(b, a) {
      DateOrder(b, a);
    } else if !TmLess(a, b) {
      SameDay(a, b);
    }
  }

  lemma FieldOrder(a: Tm, x: int, b: Tm, y: int)
    requires TmLess(a, b) || (a == b && x < y)
    ensures ValuesLess(TmValues(a, x), TmValues(b, y))
  {
    var p1, q1 := TmValues(a, x)[1..], TmValues(b, y)[1..];
    var p2, q2 := p1[1..], q1[1..];
    var p3, q3 := p2[1..], q2[1..];
    var p4, q4 := p3[1..], q3[1..];
    var p5, q5 := p4[1..], q4[1..];
    var p6, q6 := p5[1..], q5[1..];
    assert x < y ==> ValuesLess(p6, q6);
    assert a.tmSec < b.tmSec || (a.tmSec == b.tmSec && x < y) ==> ValuesLess(p5, q5);
    assert a.tmMin < b.tmMin || (a.tmMin == b.tmMin && ValuesLess(p5, q5)) ==> ValuesLess(p4, q4);
    assert a.tmHour < b.tmHour || (a.tmHour == b.tmHour && ValuesLess(p4, q4)) ==> ValuesLess(p3, q3);
    assert a.tmMday < b.tmMday || (a.tmMday == b.tmMday && ValuesLess(p3, q3)) ==> ValuesLess(p2, q2);
    assert a.tmMon < b.tmMon || (a.tmMon == b.tmMon && ValuesLess(p2, q2)) ==> ValuesLess(p1, q1);
  }

  lemma PrintedDateOrder(a: Tm, x: int, b: Tm, y: int)
    requires ValidTm(a) && 0 <= a.tmYear + TM_YEAR_BASE <= 9999 && 0 <= x < 1000
    requires ValidTm(b) && 0 <= b.tmYear + TM_YEAR_BASE <= 9999 && 0 <= y < 1000
    requires SecondsSinceEpoch(a) < SecondsSinceEpoch(b) || (a == b && x < y)
    ensures LexLess(Print(TmValues(a, x), LAYOUT), Print(TmValues(b, y), LAYOUT))
  {
    if SecondsSinceEpoch(a) < SecondsSinceEpoch(b) {
      SecondsDecideFields(a, b);
    }
    FieldOrder(a, x, b, y);
    ValidFieldsFit(a, x);
    ValidFieldsFit(b, y);
    PrintOrder(TmValues(a, x), TmValues(b, y), LAYOUT);
  }

  lemma SecondTextOrder(secondsA: int, x: int, secondsB: int, y: int)
    requires SecondText(secondsA, x).Some? && 0 <= x < 1000
    requires SecondText(secondsB, y).Some? && 0 <= y < 1000
    requires secondsA < secondsB || (secondsA == secondsB && x < y)
    ensures LexLess(SecondText(secondsA, x).value, SecondText(secondsB, y).value)
  {
    BreakdownInverts(secondsA);
    BreakdownInverts(secondsB);
    PrintedDateOrder(Breakdown(secondsA), x, Breakdown(secondsB), y);
  }

  lemma SplitOrder(a: int, b: int)
    requires a < b
    ensures a / 1000 < b / 1000 || (a / 1000 == b / 1000 && a % 1000 < b % 1000)
  {
  }

  lemma TimestampAscends(a: int, b: int)
    requires FIRST_MILLISECOND <= a < b <= LAST_MILLISECOND
    ensures TimestampText(a).Some? && TimestampText(b).Some?
    ensures LexLess(TimestampText(a).value, TimestampText(b).value)
  {
    TimestampRange(a);
    TimestampRange(b);
    SplitOrder(a, b);
    SecondTextOrder(a / 1000, a % 1000, b / 1000, b % 1000);
  }

  /** Sorting timestamps as text is sorting them by time. */
  lemma TimestampOrder(a: int, b: int)
    requires FIRST_MILLISECOND <= a <= LAST_MILLISECOND && FIRST_MILLISECOND <= b <= LAST_MILLISECOND
    ensures TimestampText(a).Some? && TimestampText(b).Some?
    ensures a < b <==> LexLess(TimestampText(a).value, TimestampText(b).value)
    ensures a == b <==> TimestampText(a) == TimestampText(b)
  {
    TimestampRoundTrip(a);
    TimestampRoundTrip(b);
    if a < b {
      TimestampAscends(a, b);
    } else if b < a {
      TimestampAscends(b, a);
      LexAsymmetric(TimestampText(b).value, TimestampText(a).value);
    } else {
      LexIrreflexive(TimestampText(a).value);
    }
  }
}
