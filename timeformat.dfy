/** The counter's text for a whole number of seconds (`getFormattedTime`), and
    a reader for that text that gives the number of seconds back. */
module TimeFormat {
  import opened Wrappers

  predicate IsDigit(c: char) { '0' <= c <= '9' }

  predicate AllDigits(s: string) { forall i :: 0 <= i < |s| ==> IsDigit(s[i]) }

  /** A non-empty run of decimal digits. */
  predicate IsNumeral(s: string) { |s| > 0 && AllDigits(s) }

  function DigitChar(d: nat): (c: char)
    requires d < 10
    ensures IsDigit(c) && c as int - '0' as int == d
  {
    ('0' as int + d) as char
  }

  /** Decimal text of a whole number, as a JavaScript template literal writes it. */
  function Decimal(n: nat): (r: string)
    ensures IsNumeral(r)
    ensures (|r| == 1) == (n < 10)
    ensures n > 0 ==> r[0] != '0'
    decreases n
  {
    if n < 10 then [DigitChar(n)] else Decimal(n / 10) + [DigitChar(n % 10)]
  }

  /** Value of a run of decimal digits (leading zeros allowed). */
  function ValueOf(s: string): (n: nat)
    requires AllDigits(s)
    decreases |s|
  {
    if s == [] then 0 else ValueOf(s[..|s| - 1]) * 10 + (s[|s| - 1] as int - '0' as int)
  }

  /** A number below 60 written with two digits, as minutes and seconds are after a `:`. */
  function TwoDigits(n: nat): (r: string)
    requires n < 60
    ensures |r| == 2 && AllDigits(r)
  {
    if n < 10 then "0" + Decimal(n) else Decimal(n)
  }

  /** `getFormattedTime`: `S`, `M:SS` or `H:MM:SS`, choosing the shortest that fits.
      The three units are computed as `getFormattedTime` does, then laid out. */
  function FormattedTime(seconds: nat): (r: string)
    ensures |r| >= 1
  {
    Layout(seconds / 3600, (seconds % 3600) / 60, seconds % 60)
  }

  /** The three `if` blocks of `getFormattedTime`: each unit becomes a text, and an earlier
      unit's text decides whether the next one is hidden or padded. */
  function Layout(hh: nat, mm: nat, ss: nat): (r: string)
    ensures |r| >= 1
  {
    var hText := if hh > 0 then Decimal(hh) + ":" else "";
    var mText :=
      if |hText| == 0 && mm <= 0 then ""
      else if |hText| != 0 && mm < 10 then "0" + Decimal(mm) + ":"
      else Decimal(mm) + ":";
    var sText := if |mText| != 0 && ss < 10 then "0" + Decimal(ss) else Decimal(ss);
    hText + mText + sText
  }

  /** Splits a text at every `:`. */
  function Fields(t: string): (r: seq<string>)
    ensures |r| >= 1
    decreases |t|
  {
    if t == [] then [""]
    else if t[0] == ':' then [""] + Fields(t[1..])
    else
      var rest := Fields(t[1..]);
      [[t[0]] + rest[0]] + rest[1..]
  }

  predicate AllNumerals(fs: seq<string>) { forall i :: 0 <= i < |fs| ==> IsNumeral(fs[i]) }

  /** Reads `S`, `M:SS` or `H:MM:SS` back as a number of seconds. */
  function ParseTime(t: string): (r: Option<nat>)
  {
    FromFields(Fields(t))
  }

  function FromFields(fs: seq<string>): (r: Option<nat>)
  {
    if !AllNumerals(fs) then None
    else if |fs| == 1 then Some(ValueOf(fs[0]))
    else if |fs| == 2 then Some(ValueOf(fs[0]) * 60 + ValueOf(fs[1]))
    else if |fs| == 3 then Some(ValueOf(fs[0]) * 3600 + ValueOf(fs[1]) * 60 + ValueOf(fs[2]))
    else None
  }

  // ---------------------------------------------------------------------------
  // Lemmas

  lemma {:induction false} DecimalValue(n: nat)
    ensures ValueOf(Decimal(n)) == n
    decreases n
  {
    if n >= 10 {
      var d := Decimal(n / 10);
      DecimalValue(n / 10);
      assert (d + [DigitChar(n % 10)])[..|d|] == d;
    }
  }

  lemma {:induction false} LeadingZero(s: string)
    requires AllDigits(s)
    ensures AllDigits("0" + s) && ValueOf("0" + s) == ValueOf(s)
    decreases |s|
  {
    if s != [] {
      var init := s[..|s| - 1];
      LeadingZero(init);
      assert ("0" + s)[..|s|] == "0" + init;
    }
  }

  lemma TwoDigitsValue(n: nat)
    requires n < 60
    ensures ValueOf(TwoDigits(n)) == n
  {
    DecimalValue(n);
    if n < 10 {
      LeadingZero(Decimal(n));
    }
  }

  lemma {:induction false} FieldsOfPlain(a: string)
    requires ':' !in a
    ensures Fields(a) == [a]
    decreases |a|
  {
    if a != [] {
      FieldsOfPlain(a[1..]);
      assert [a[0]] + a[1..] == a;
    }
  }

  lemma {:induction false} FieldsOfJoin(a: string, b: string)
    requires ':' !in a
    ensures Fields(a + ":" + b) == [a] + Fields(b)
    decreases |a|
  {
    if a == [] {
      assert a + ":" + b == [':'] + b;
    } else {
      assert (a + ":" + b)[1..] == a[1..] + ":" + b;
      FieldsOfJoin(a[1..], b);
      assert [a[0]] + a[1..] == a;
    }
  }

  lemma DigitsHaveNoColon(s: string)
    requires AllDigits(s)
    ensures ':' !in s
  {
    forall i | 0 <= i < |s| ensures s[i] != ':' {
      assert IsDigit(s[i]);
    }
  }

  lemma Units(s: nat)
    ensures s == (s / 3600) * 3600 + ((s % 3600) / 60) * 60 + s % 60
    ensures (s % 3600) / 60 < 60 && s % 60 < 60
    ensures s < 3600 ==> s / 3600 == 0 && (s % 3600) / 60 == s / 60
  {
    var h, rest := s / 3600, s % 3600;
    var m, sec := rest / 60, rest % 60;
    assert s == h * 3600 + rest;
    assert rest == m * 60 + sec;
    assert s == (h * 60 + m) * 60 + sec;
    assert s % 60 == sec;
  }

  /** Below a minute the counter shows the bare number of seconds. */
  lemma FormattedSeconds(s: nat)
    requires s < 60
    ensures FormattedTime(s) == Decimal(s) && ':' !in FormattedTime(s)
  {
    assert s / 3600 == 0 && (s % 3600) / 60 == 0 && s % 60 == s;
    DigitsHaveNoColon(Decimal(s));
  }

  /** Below an hour: unpadded minutes, one `:`, two-digit seconds. */
  lemma FormattedMinutes(s: nat)
    requires 60 <= s < 3600
    ensures FormattedTime(s) == Decimal(s / 60) + ":" + TwoDigits(s % 60)
    ensures multiset(FormattedTime(s))[':'] == 1
  {
    FormattedMinutesText(s);
    DigitsHaveNoColon(Decimal(s / 60));
    DigitsHaveNoColon(TwoDigits(s % 60));
  }

  lemma FormattedMinutesText(s: nat)
    requires 60 <= s < 3600
    ensures FormattedTime(s) == Decimal(s / 60) + ":" + TwoDigits(s % 60)
  {
    var mm, ss := s / 60, s % 60;
    assert s / 3600 == 0 && (s % 3600) / 60 == mm;
    assert 0 < mm < 60 && ss < 60;
    assert Layout(0, mm, ss) == Decimal(mm) + ":" + TwoDigits(ss);
  }

  /** From an hour on: unpadded hours, then two-digit minutes (also when they
      are zero) and two-digit seconds, separated by two `:`. */
  lemma FormattedHours(s: nat)
    requires 3600 <= s
    ensures FormattedTime(s) == Decimal(s / 3600) + ":" + TwoDigits((s % 3600) / 60) + ":" + TwoDigits(s % 60)
    ensures multiset(FormattedTime(s))[':'] == 2
  {
    FormattedHoursText(s);
    DigitsHaveNoColon(Decimal(s / 3600));
    DigitsHaveNoColon(TwoDigits((s % 3600) / 60));
    DigitsHaveNoColon(TwoDigits(s % 60));
  }

  lemma FormattedHoursText(s: nat)
    requires 3600 <= s
    ensures FormattedTime(s) == Decimal(s / 3600) + ":" + TwoDigits((s % 3600) / 60) + ":" + TwoDigits(s % 60)
  {
    LayoutWithHours(s / 3600, (s % 3600) / 60, s % 60);
  }

  lemma LayoutWithHours(hh: nat, mm: nat, ss: nat)
    requires hh > 0 && mm < 60 && ss < 60
    ensures Layout(hh, mm, ss) == Decimal(hh) + ":" + TwoDigits(mm) + ":" + TwoDigits(ss)
  {
    assert Decimal(hh) + ":" != "";
    assert TwoDigits(mm) + ":" != "";
  }

  lemma SplitTwo(a: string, b: string)
    requires ':' !in a && ':' !in b
    ensures Fields(a + ":" + b) == [a, b]
  {
    FieldsOfJoin(a, b);
    FieldsOfPlain(b);
  }

  lemma SplitThree(a: string, b: string, c: string)
    requires ':' !in a && ':' !in b && ':' !in c
    ensures Fields(a + ":" + b + ":" + c) == [a, b, c]
  {
    assert a + ":" + b + ":" + c == a + ":" + (b + ":" + c);
    FieldsOfJoin(a, b + ":" + c);
    SplitTwo(b, c);
  }

  lemma ReadOne(a: string)
    requires IsNumeral(a)
    ensures FromFields([a]) == Some(ValueOf(a))
  {
  }

  lemma ReadTwo(a: string, b: string)
    requires IsNumeral(a) && IsNumeral(b)
    ensures FromFields([a, b]) == Some(ValueOf(a) * 60 + ValueOf(b))
  {
    assert AllNumerals([a, b]);
  }

  lemma ReadThree(a: string, b: string, c: string)
    requires IsNumeral(a) && IsNumeral(b) && IsNumeral(c)
    ensures FromFields([a, b, c]) == Some(ValueOf(a) * 3600 + ValueOf(b) * 60 + ValueOf(c))
  {
    assert AllNumerals([a, b, c]);
  }

  lemma ParseOne(a: string)
    requires IsNumeral(a)
    ensures ParseTime(a) == Some(ValueOf(a))
  {
    DigitsHaveNoColon(a);
    FieldsOfPlain(a);
    ReadOne(a);
  }

  lemma ParseTwo(a: string, b: string)
    requires IsNumeral(a) && IsNumeral(b)
    ensures ParseTime(a + ":" + b) == Some(ValueOf(a) * 60 + ValueOf(b))
  {
    DigitsHaveNoColon(a);
    DigitsHaveNoColon(b);
    SplitTwo(a, b);
    ReadTwo(a, b);
  }

  lemma ParseThree(a: string, b: string, c: string)
    requires IsNumeral(a) && IsNumeral(b) && IsNumeral(c)
    ensures ParseTime(a + ":" + b + ":" + c) == Some(ValueOf(a) * 3600 + ValueOf(b) * 60 + ValueOf(c))
  {
    DigitsHaveNoColon(a);
    DigitsHaveNoColon(b);
    DigitsHaveNoColon(c);
    SplitThree(a, b, c);
    ReadThree(a, b, c);
  }

  /** Reading the counter's text back gives the number of seconds it was made from. */
  lemma ParseFormattedTime(s: nat)
    ensures ParseTime(FormattedTime(s)) == Some(s)
  {
    if s < 60 {
      ParseSeconds(s);
    } else if s < 3600 {
      ParseMinutes(s);
    } else {
      ParseHours(s);
    }
  }

  lemma ParseSeconds(s: nat)
    requires s < 60
    ensures ParseTime(FormattedTime(s)) == Some(s)
  {
    FormattedSeconds(s);
    ParseOne(Decimal(s));
    DecimalValue(s);
  }

  lemma ParseMinutes(s: nat)
    requires 60 <= s < 3600
    ensures ParseTime(FormattedTime(s)) == Some(s)
  {
    FormattedMinutesText(s);
    ParseMinutesText(s / 60, s % 60);
  }

  lemma ParseMinutesText(mm: nat, ss: nat)
    requires ss < 60
    ensures ParseTime(Decimal(mm) + ":" + TwoDigits(ss)) == Some(mm * 60 + ss)
  {
    var a, b := Decimal(mm), TwoDigits(ss);
    ParseTwo(a, b);
    DecimalValue(mm);
    TwoDigitsValue(ss);
  }

  lemma ParseHours(s: nat)
    requires 3600 <= s
    ensures ParseTime(FormattedTime(s)) == Some(s)
  {
    Units(s);
    FormattedHoursText(s);
    ParseHoursText(s / 3600, (s % 3600) / 60, s % 60);
  }

  lemma ParseHoursText(hh: nat, mm: nat, ss: nat)
    requires mm < 60 && ss < 60
    ensures ParseTime(Decimal(hh) + ":" + TwoDigits(mm) + ":" + TwoDigits(ss)) == Some(hh * 3600 + mm * 60 + ss)
  {
    var a, b, c := Decimal(hh), TwoDigits(mm), TwoDigits(ss);
    ParseThree(a, b, c);
    DecimalValue(hh);
    TwoDigitsValue(mm);
    TwoDigitsValue(ss);
  }

  /** The counter for 0 and 5 seconds: the bare number. */
  lemma FormattedTimeExamples()
    ensures FormattedTime(0) == "0" && FormattedTime(5) == "5"
  {
    assert Decimal(0) == "0" && Decimal(5) == "5";
    assert FormattedTime(0) == Layout(0, 0, 0);
    assert FormattedTime(5) == Layout(0, 0, 5);
  }

  /** The counter for 65 seconds: unpadded minutes, padded seconds. */
  lemma FormattedMinuteExample()
    ensures FormattedTime(65) == "1:05"
  {
    FormattedMinutesText(65);
    assert Decimal(1) == "1" && TwoDigits(5) == "05";
  }

  /** The counter for an hour: the minutes are padded even when zero. */
  lemma FormattedHourExample()
    ensures FormattedTime(3600) == "1:00:00"
  {
    FormattedHoursText(3600);
    assert Decimal(1) == "1" && TwoDigits(0) == "00";
  }

  /** The counter for an hour, two minutes and five seconds. */
  lemma FormattedHourMinuteExample()
    ensures FormattedTime(3725) == "1:02:05"
  {
    FormattedHoursText(3725);
    assert Decimal(1) == "1" && TwoDigits(2) == "02" && TwoDigits(5) == "05";
  }

  /** Different numbers of seconds never show the same text. */
  lemma FormattedTimeInjective(s: nat, t: nat)
    requires FormattedTime(s) == FormattedTime(t)
    ensures s == t
  {
    ParseFormattedTime(s);
    ParseFormattedTime(t);
  }
}
