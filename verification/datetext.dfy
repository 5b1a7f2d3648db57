/**
 Date strings as the booking form handles them: `formatar_data` normalises what the user
 typed, `datetime.strptime(s, "%d/%m/%Y")` reads a `DD/MM/YYYY` string, and `calcular_dias`
 subtracts two such dates, answering 0 when either string does not parse.
 */
module DateText {
  import opened Wrappers
  import opened Calendar

  // ---------------------------------------------------------------------------------------
  // Decimal digits

  predicate IsDigit(c: char) {
    '0' <= c <= '9'
  }

  predicate AllDigits(s: string) {
    forall i :: 0 <= i < |s| ==> IsDigit(s[i])
  }

  function DigitValue(c: char): (v: nat)
    requires IsDigit(c)
    ensures v < 10
  {
    (c as int - '0' as int) as nat
  }

  function DigitChar(v: nat): (c: char)
    requires v < 10
    ensures IsDigit(c) && DigitValue(c) == v
  {
    ('0' as int + v) as char
  }

  function Pow10(w: nat): (p: nat)
    ensures p >= 1
  {
    if w == 0 then 1 else 10 * Pow10(w - 1)
  }

  /** The value of a string of decimal digits, most significant first. */
  function Number(s: string): (n: nat)
    requires AllDigits(s)
    ensures n < Pow10(|s|)
  {
    if |s| == 0 then 0 else Number(s[..|s| - 1]) * 10 + DigitValue(s[|s| - 1])
  }

  /** `n` written with exactly `width` decimal digits, zero-padded on the left (`%02d`, `%04d`). */
  function Digits(n: nat, width: nat): (r: string)
    ensures |r| == width && AllDigits(r)
  {
    if width == 0 then "" else Digits(n / 10, width - 1) + [DigitChar(n % 10)]
  }

  /** Reading back a zero-padded rendering gives the number, when it fits in the width. */
  lemma {:induction false} NumberOfDigits(n: nat, width: nat)
    requires n < Pow10(width)
    ensures Number(Digits(n, width)) == n
  {
    if width > 0 {
      var s := Digits(n, width);
      assert s[..|s| - 1] == Digits(n / 10, width - 1);
      NumberOfDigits(n / 10, width - 1);
    }
  }

  /** Rendering the value of a digit string at its own width gives the string back. */
  lemma {:induction false} DigitsOfNumber(s: string)
    requires AllDigits(s)
    ensures Digits(Number(s), |s|) == s
  {
    if |s| > 0 {
      var init, last := s[..|s| - 1], s[|s| - 1];
      DigitsOfNumber(init);
      var n, v := Number(s), DigitValue(last);
      assert n == Number(init) * 10 + v;
      ShiftDigit(Number(init), v);
      assert n / 10 == Number(init) && n % 10 == v;
      assert DigitChar(v) == last;
      assert Digits(n, |s|) == Digits(n / 10, |s| - 1) + [DigitChar(n % 10)];
      assert init + [last] == s;
    }
  }

  /** Appending a digit `d` to the decimal number `a` and taking it off again. */
  lemma ShiftDigit(a: nat, d: nat)
    requires d < 10
    ensures (a * 10 + d) / 10 == a && (a * 10 + d) % 10 == d
  {
  }

  // ---------------------------------------------------------------------------------------
  // strptime with the format "%d/%m/%Y"

  /** Two digits, a slash, two digits, a slash, four digits. */
  predicate WellShaped(s: string) {
    && |s| == 10
    && s[2] == '/' && s[5] == '/'
    && AllDigits(s[0..2]) && AllDigits(s[3..5]) && AllDigits(s[6..10])
  }

  /**
   `datetime.strptime(s, "%d/%m/%Y")` restricted to the canonical shape: `None` stands for the
   `ValueError` raised on a wrong shape or on a date the calendar does not have (31/02, year 0000).
   */
  function Parse(s: string): (r: Option<Date>)
    ensures r.Some? ==> WellShaped(s) && Valid(r.value)
  {
    if WellShaped(s) then
      var d := Date(Number(s[6..10]), Number(s[3..5]), Number(s[0..2]));
      if Valid(d) then Some(d) else None
    else None
  }

  /** The canonical `DD/MM/YYYY` text of a date (`strftime("%d/%m/%Y")`). */
  function Render(d: Date): (s: string)
    requires Valid(d)
    ensures WellShaped(s)
  {
    Digits(d.day, 2) + "/" + Digits(d.month, 2) + "/" + Digits(d.year, 4)
  }

  /** The parser accepts exactly the canonical renderings of valid dates, and reads each back to its date. */
  lemma ParseIsRenderInverse(s: string, d: Date)
    ensures Parse(s) == Some(d) <==> Valid(d) && Render(d) == s
  {
    if Valid(d) && Render(d) == s {
      ParseRender(d);
    }
    if Parse(s) == Some(d) {
      RenderParse(s, d);
    }
  }

  /** Parsing the rendering of a valid date gives the date back. */
  lemma ParseRender(d: Date)
    requires Valid(d)
    ensures Parse(Render(d)) == Some(d)
  {
    var r := Render(d);
    assert r[0..2] == Digits(d.day, 2);
    assert r[3..5] == Digits(d.month, 2);
    assert r[6..10] == Digits(d.year, 4);
    NumberOfDigits(d.day, 2);
    NumberOfDigits(d.month, 2);
    NumberOfDigits(d.year, 4);
  }

  /** A string that parses is the rendering of the date it parses to. */
  lemma RenderParse(s: string, d: Date)
    requires Parse(s) == Some(d)
    ensures Valid(d) && Render(d) == s
  {
    DigitsOfNumber(s[0..2]);
    DigitsOfNumber(s[3..5]);
    DigitsOfNumber(s[6..10]);
    assert s == s[0..2] + "/" + s[3..5] + "/" + s[6..10];
  }

  // ---------------------------------------------------------------------------------------
  // formatar_data

  /** The string with every `/` removed (`data.replace("/", "")`). */
  function StripSlashes(s: string): (r: string)
    ensures '/' !in r
    ensures |r| <= |s|
    ensures '/' !in s ==> r == s
    ensures |r| == |s| - SlashCount(s)
  {
    if |s| == 0 then ""
    else (if s[0] == '/' then "" else [s[0]]) + StripSlashes(s[1..])
  }

  /** How many `/` characters `s` holds. */
  function SlashCount(s: string): nat
  {
    if |s| == 0 then 0 else (if s[0] == '/' then 1 else 0) + SlashCount(s[1..])
  }

  /** `SlashCount` is the multiplicity of `/` in the string. */
  lemma {:induction false} SlashCountIsMultiplicity(s: string)
    ensures SlashCount(s) == multiset(s)['/']
  {
    if |s| > 0 {
      SlashCountIsMultiplicity(s[1..]);
      assert s == [s[0]] + s[1..];
      assert multiset(s) == multiset([s[0]]) + multiset(s[1..]);
    }
  }

  /** Removing slashes from a concatenation removes them from each part. */
  lemma {:induction false} StripSlashesAppend(a: string, b: string)
    ensures StripSlashes(a + b) == StripSlashes(a) + StripSlashes(b)
  {
    if |a| == 0 {
      assert a + b == b;
    } else {
      assert (a + b)[0] == a[0];
      assert (a + b)[1..] == a[1..] + b;
      StripSlashesAppend(a[1..], b);
    }
  }

  /**
   `formatar_data`: drop every slash; when eight characters remain, put slashes back after the
   second and the fourth of them, whatever those characters are; otherwise return the stripped text.
   */
  function Normalize(s: string): (r: string)
    ensures StripSlashes(r) == StripSlashes(s)
    ensures |StripSlashes(s)| == 8 ==> |r| == 10 && r[2] == '/' && r[5] == '/'
    ensures |StripSlashes(s)| != 8 ==> r == StripSlashes(s) && '/' !in r
  {
    var t := StripSlashes(s);
    if |t| == 8 then
      StripSlashesOfCut(t[..2], t[2..4], t[4..]);
      assert t[..2] + t[2..4] + t[4..] == t;
      t[..2] + "/" + t[2..4] + "/" + t[4..]
    else t
  }

  /** Slashes put between three pieces are exactly what removing slashes takes out again. */
  lemma StripSlashesOfCut(a: string, b: string, c: string)
    ensures StripSlashes(a + "/" + b + "/" + c) == StripSlashes(a) + StripSlashes(b) + StripSlashes(c)
  {
    var slash := "/";
    assert StripSlashes(slash) == "";
    var x1 := a + slash;
    var x2 := x1 + b;
    var x3 := x2 + slash;
    StripSlashesAppend(a, slash);
    StripSlashesAppend(x1, b);
    StripSlashesAppend(x2, slash);
    StripSlashesAppend(x3, c);
    assert StripSlashes(x1) == StripSlashes(a);
    assert StripSlashes(x3) == StripSlashes(x2);
  }

  /** Eight slash-free characters are cut into 2 + 2 + 4, digits or not. */
  lemma NormalizeEight(t: string)
    requires |t| == 8 && '/' !in t
    ensures Normalize(t) == t[0..2] + "/" + t[2..4] + "/" + t[4..8]
  {
  }

  /** Normalising twice gives the same text as normalising once. */
  lemma NormalizeIdempotent(s: string)
    ensures Normalize(Normalize(s)) == Normalize(s)
  {
    var r := Normalize(s);
    if |StripSlashes(s)| == 8 {
      NormalizeEight(StripSlashes(s));
    }
  }

  /** A date typed as eight digits, without slashes (`DDMMYYYY`). */
  function Compact(d: Date): (s: string)
    requires Valid(d)
    ensures |s| == 8 && AllDigits(s)
  {
    Digits(d.day, 2) + Digits(d.month, 2) + Digits(d.year, 4)
  }

  /** A date typed with slashes, or as eight digits without them, normalises to its canonical text. */
  lemma NormalizeRendered(d: Date)
    requires Valid(d)
    ensures Normalize(Render(d)) == Render(d)
    ensures Normalize(Compact(d)) == Render(d)
  {
    var dd, mm, yyyy := Digits(d.day, 2), Digits(d.month, 2), Digits(d.year, 4);
    var compact := Compact(d);
    DigitsHaveNoSlash(dd);
    DigitsHaveNoSlash(mm);
    DigitsHaveNoSlash(yyyy);
    assert '/' !in compact by {
      forall i | 0 <= i < |compact| ensures compact[i] != '/' {
        assert IsDigit(compact[i]);
      }
    }
    NormalizeEight(compact);
    assert compact[0..2] == dd && compact[2..4] == mm && compact[4..8] == yyyy;
    StripSlashesOfCut(dd, mm, yyyy);
    assert Render(d) == dd + "/" + mm + "/" + yyyy;
    assert StripSlashes(Render(d)) == compact;
  }

  /** A parsable date text is already in normal form. */
  lemma NormalizeRenderedText(s: string, d: Date)
    requires Parse(s) == Some(d)
    ensures Normalize(s) == s
  {
    ParseIsRenderInverse(s, d);
    NormalizeRendered(d);
  }

  lemma DigitsHaveNoSlash(s: string)
    requires AllDigits(s)
    ensures '/' !in s
  {
    forall i | 0 <= i < |s| ensures s[i] != '/' {
      assert IsDigit(s[i]);
    }
  }

  // ---------------------------------------------------------------------------------------
  // calcular_dias

  /**
   `calcular_dias`: the signed number of whole days from `checkIn` to `checkOut`, or 0 when
   either string fails to parse.
   */
  function DayCount(checkIn: string, checkOut: string): (r: int)
    ensures Parse(checkIn).None? || Parse(checkOut).None? ==> r == 0
    ensures Parse(checkIn).Some? && Parse(checkOut).Some? ==>
              r == Ordinal(Parse(checkOut).value) - Ordinal(Parse(checkIn).value)
  {
    match (Parse(checkIn), Parse(checkOut))
    case (Some(a), Some(b)) => Ordinal(b) - Ordinal(a)
    case _ => 0
  }

  /** The count is positive exactly when both dates parse and check-out falls after check-in. */
  lemma DayCountPositive(checkIn: string, checkOut: string)
    ensures DayCount(checkIn, checkOut) > 0 <==>
              Parse(checkIn).Some? && Parse(checkOut).Some? && Before(Parse(checkIn).value, Parse(checkOut).value)
  {
    if Parse(checkIn).Some? && Parse(checkOut).Some? {
      OrdinalOrder(Parse(checkIn).value, Parse(checkOut).value);
    }
  }

  /** The count is zero exactly when a date fails to parse or both name the same day. */
  lemma DayCountZero(checkIn: string, checkOut: string)
    ensures DayCount(checkIn, checkOut) == 0 <==>
              Parse(checkIn).None? || Parse(checkOut).None? || Parse(checkIn) == Parse(checkOut)
  {
    if Parse(checkIn).Some? && Parse(checkOut).Some? {
      OrdinalOrder(Parse(checkIn).value, Parse(checkOut).value);
    }
  }

  /** Swapping the dates negates the count, also when a date fails to parse. */
  lemma DayCountAntisymmetric(checkIn: string, checkOut: string)
    ensures DayCount(checkOut, checkIn) == -DayCount(checkIn, checkOut)
  {
  }

  /** Counts chain: a stay split at a valid intermediate date has the length of the whole stay. */
  lemma DayCountChains(a: string, b: string, c: string)
    requires Parse(b).Some?
    ensures Parse(a).Some? && Parse(c).Some? ==> DayCount(a, b) + DayCount(b, c) == DayCount(a, c)
  {
  }

  /** A two-night stay in January 2024 counts two days. */
  lemma DayCountTwoNights()
    ensures DayCount("01/01/2024", "03/01/2024") == 2
    ensures DayCount("03/01/2024", "01/01/2024") == -2
  {
    ParseJanuaryDates();
  }

  /** 01/01/2024 and 03/01/2024 read as the first and third of January 2024. */
  lemma ParseJanuaryDates()
    ensures Parse("01/01/2024") == Some(Date(2024, 1, 1))
    ensures Parse("03/01/2024") == Some(Date(2024, 1, 3))
  {
    var first, third := "01/01/2024", "03/01/2024";
    assert first[0..2] == "01" && first[3..5] == "01" && first[6..10] == "2024";
    assert third[0..2] == "03" && third[3..5] == "01" && third[6..10] == "2024";
    assert AllDigits("01") && AllDigits("03") && AllDigits("2024");
    assert WellShaped(first) && WellShaped(third);
    FieldValues(first);
    FieldValues(third);
    assert Number(first[6..10]) == 2024 && Number(first[3..5]) == 1 && Number(first[0..2]) == 1;
    assert Number(third[6..10]) == 2024 && Number(third[3..5]) == 1 && Number(third[0..2]) == 3;
  }

  /** A day the month does not have, and year 0000, fail to parse, so the count is 0. */
  lemma DayCountInvalidDates()
    ensures Parse("31/02/2024").None? && Parse("01/01/0000").None?
    ensures DayCount("31/02/2024", "03/03/2024") == 0
    ensures DayCount("01/01/2024", "01/01/0000") == 0
  {
    var feb31, yearZero := "31/02/2024", "01/01/0000";
    if WellShaped(feb31) {
      FieldValues(feb31);
      assert Number(feb31[0..2]) == 31 && Number(feb31[3..5]) == 2;
    }
    if WellShaped(yearZero) {
      FieldValues(yearZero);
      assert Number(yearZero[6..10]) == 0;
    }
    assert Parse(feb31).None?;
    assert Parse(yearZero).None?;
  }

  /** The three numeric fields of a well-shaped string, digit by digit. */
  lemma FieldValues(s: string)
    requires WellShaped(s)
    ensures Number(s[0..2]) == 10 * DigitValue(s[0]) + DigitValue(s[1])
    ensures Number(s[3..5]) == 10 * DigitValue(s[3]) + DigitValue(s[4])
    ensures Number(s[6..10]) ==
              1000 * DigitValue(s[6]) + 100 * DigitValue(s[7]) + 10 * DigitValue(s[8]) + DigitValue(s[9])
  {
    var y := s[6..10];
    assert Number(y) == Number(y[..3]) * 10 + DigitValue(s[9]);
    assert y[..3][..2] == y[..2];
    assert y[..3][2] == s[8];
    assert Number(y[..3]) == Number(y[..2]) * 10 + DigitValue(s[8]);
    assert y[..2][..1] == y[..1];
    assert y[..2][1] == s[7];
    assert Number(y[..2]) == Number(y[..1]) * 10 + DigitValue(s[7]);
    assert Number(y[..1]) == DigitValue(s[6]);
  }
}
