/**
 * The field validators: `Phone` (exactly ten digits) and `Birthday` (a `DD.MM.YYYY` text that
 * names a real date), with the texts strftime writes for a birthday and for a congratulation date.
 */
module Fields {
  import opened Base
  import opened Seqs
  import opened Decimal
  import opened Calendar

  /** The text `re.fullmatch(r"\d{10}", value)` accepts. */
  predicate IsPhone(s: string)
  {
    |s| == 10 && AllDigits(s)
  }

  /** `Phone(value)`: the number kept exactly as given, or the ValueError `Phone.validate` raises. */
  function NewPhone(raw: string): (r: Result<string>)
    ensures r.Ok? <==> |raw| == 10 && forall i :: 0 <= i < |raw| ==> '0' <= raw[i] <= '9'
    ensures r.Ok? ==> r.value == raw
    ensures r.Err? ==> r.error == PhoneFormat
  {
    if IsPhone(raw) then Ok(raw) else Err(PhoneFormat)
  }

  /** What strptime's `%d` matches: 01..31, 1..9, or a space before 1..9. */
  predicate IsDayToken(t: string)
  {
    || (|t| == 1 && '1' <= t[0] <= '9')
    || (|t| == 2 && (|| (t[0] == '0' && '1' <= t[1] <= '9')
                     || ((t[0] == '1' || t[0] == '2') && IsDigit(t[1]))
                     || (t[0] == '3' && (t[1] == '0' || t[1] == '1'))
                     || (t[0] == ' ' && '1' <= t[1] <= '9')))
  }

  /** What strptime's `%m` matches: 01..12 or 1..9. */
  predicate IsMonthToken(t: string)
  {
    || (|t| == 1 && '1' <= t[0] <= '9')
    || (|t| == 2 && ((t[0] == '0' && '1' <= t[1] <= '9') || (t[0] == '1' && '0' <= t[1] <= '2')))
  }

  /** What strptime's `%Y` matches: exactly four digits. */
  predicate IsYearToken(t: string)
  {
    |t| == 4 && AllDigits(t)
  }

  function DayValue(t: string): nat
    requires IsDayToken(t)
  {
    if t[0] == ' ' then DigitValue(t[1]) else DecValue(t)
  }

  /**
   * `Birthday(value)`: `strptime(value, "%d.%m.%Y")`. The text must be a day token, a dot, a
   * month token, a dot and four digits, nothing more, and must name a real date; otherwise the
   * ValueError that Birthday re-raises. No token contains a dot, so the two dots split the text.
   */
  function ParseBirthday(s: string): (r: Result<Date>)
    ensures r.Ok? ==> Valid(r.value)
    ensures r.Err? ==> r.error == BirthdayFormat
  {
    match FirstIndex(s, '.')
    case None => Err(BirthdayFormat)
    case Some(i) =>
      var rest := s[i + 1..];
      match FirstIndex(rest, '.')
      case None => Err(BirthdayFormat)
      case Some(j) => ParseTokens(s[..i], rest[..j], rest[j + 1..])
  }

  /** The three dot-separated fields: each must be its token, and together they must name a real date. */
  function ParseTokens(dt: string, mt: string, yt: string): (r: Result<Date>)
    ensures r.Ok? ==> Valid(r.value)
    ensures r.Err? ==> r.error == BirthdayFormat
  {
    if IsDayToken(dt) && IsMonthToken(mt) && IsYearToken(yt) then
      var d := Date(DecValue(yt), DecValue(mt), DayValue(dt));
      if Valid(d) then Ok(d) else Err(BirthdayFormat)
    else Err(BirthdayFormat)
  }

  /** `str(birthday)`: `strftime("%d.%m.%Y")`, zero-padded. */
  function FormatBirthday(d: Date): (s: string)
    requires Valid(d)
    ensures |s| == 10 && s[2] == '.' && s[5] == '.'
    ensures AllDigits(s[..2]) && AllDigits(s[3..5]) && AllDigits(s[6..])
  {
    Pad(d.day, 2) + "." + Pad(d.month, 2) + "." + Pad(d.year, 4)
  }

  /** A congratulation date as the query writes it: `strftime("%Y.%m.%d")`. */
  function DateText(d: Date): (s: string)
    requires Valid(d)
    ensures |s| == 10 && s[4] == '.' && s[7] == '.'
    ensures AllDigits(s[..4]) && AllDigits(s[5..7]) && AllDigits(s[8..])
  {
    Pad(d.year, 4) + "." + Pad(d.month, 2) + "." + Pad(d.day, 2)
  }

  lemma TwoDigits(n: nat, hi: nat, lo: nat)
    requires hi < 10 && lo < 10 && n == 10 * hi + lo
    ensures Pad(n, 2) == [DigitChar(hi), DigitChar(lo)]
  {
    assert n / 10 == hi && n % 10 == lo;
    assert hi / 10 == 0 && hi % 10 == hi;
    assert Pad(hi, 1) == Pad(0, 0) + [DigitChar(hi)];
  }
  lemma Powers()
    ensures Pow10(2) == 100 && Pow10(4) == 10000
  {
    assert Pow10(1) == 10;
    assert Pow10(3) == 1000;
  }

  /** The first dot of `p + "." + q` is the one after `p` when `p` has none. */
  lemma DotAfter(p: string, q: string)
    requires '.' !in p
    ensures FirstIndex(p + "." + q, '.') == Some(|p|)
    ensures (p + "." + q)[..|p|] == p && (p + "." + q)[|p| + 1..] == q
  {
    var s := p + "." + q;
    assert s[|p|] == '.';
  }

  lemma NoDot(s: string)
    requires AllDigits(s)
    ensures '.' !in s
  {
  }

  /**
   * The shape strptime matches: for a day text and a month text without dots, the result is
   * decided by the three tokens and by whether they name a real date.
   */
  lemma ParseFields(dt: string, mt: string, yt: string)
    requires '.' !in dt && '.' !in mt
    ensures ParseBirthday(dt + "." + mt + "." + yt) ==
      if IsDayToken(dt) && IsMonthToken(mt) && IsYearToken(yt) && Valid(Date(DecValue(yt), DecValue(mt), DayValue(dt)))
      then Ok(Date(DecValue(yt), DecValue(mt), DayValue(dt)))
      else Err(BirthdayFormat)
  {
    var rest := mt + "." + yt;
    assert dt + "." + mt + "." + yt == dt + "." + rest;
    DotAfter(dt, rest);
    DotAfter(mt, yt);
  }

  /** A zero-padded day is a `%d` token that reads back as the day. */
  lemma PaddedDay(n: nat)
    requires 1 <= n <= 31
    ensures IsDayToken(Pad(n, 2)) && DayValue(Pad(n, 2)) == n
  {
    Powers();
    PadValue(n, 2);
    if n < 10 {
      TwoDigits(n, 0, n);
    } else if n < 20 {
      TwoDigits(n, 1, n - 10);
    } else if n < 30 {
      TwoDigits(n, 2, n - 20);
    } else {
      TwoDigits(n, 3, n - 30);
    }
  }

  /** A zero-padded month is a `%m` token that reads back as the month. */
  lemma PaddedMonth(n: nat)
    requires 1 <= n <= 12
    ensures IsMonthToken(Pad(n, 2)) && DecValue(Pad(n, 2)) == n
  {
    Powers();
    PadValue(n, 2);
    if n < 10 {
      TwoDigits(n, 0, n);
    } else {
      TwoDigits(n, 1, n - 10);
    }
  }

  /** Parsing what `str(birthday)` writes gives the birthday back. */
  lemma FormatThenParse(d: Date)
    requires Valid(d)
    ensures ParseBirthday(FormatBirthday(d)) == Ok(d)
  {
    var dt, mt, yt := Pad(d.day, 2), Pad(d.month, 2), Pad(d.year, 4);
    NoDot(dt);
    NoDot(mt);
    ParseFields(dt, mt, yt);
    PaddedDay(d.day);
    PaddedMonth(d.month);
    Powers();
    PadValue(d.year, 4);
    assert Date(DecValue(yt), DecValue(mt), DayValue(dt)) == d;
  }

  /** Cutting a text at two dots gives the three fields around them. */
  lemma DotSplit(s: string, i: nat, j: nat)
    requires i < |s| && s[i] == '.' && j < |s[i + 1..]| && s[i + 1..][j] == '.'
    ensures s == s[..i] + "." + s[i + 1..][..j] + "." + s[i + 1..][j + 1..]
  {
    var rest := s[i + 1..];
    SplitAt(rest, j);
    SplitAt(s, i);
    assert s[..i] + "." + (rest[..j] + "." + rest[j + 1..]) == s[..i] + "." + rest[..j] + "." + rest[j + 1..];
  }

  /** The three fields of a text that parses: tokens around the two dots. */
  lemma ParsedFields(s: string) returns (dt: string, mt: string, yt: string)
    requires ParseBirthday(s).Ok?
    ensures s == dt + "." + mt + "." + yt
    ensures ParseBirthday(s) == ParseTokens(dt, mt, yt)
  {
    match FirstIndex(s, '.')
    case Some(i) =>
      var rest := s[i + 1..];
      match FirstIndex(rest, '.')
      case Some(j) =>
        dt, mt, yt := s[..i], rest[..j], rest[j + 1..];
        DotSplit(s, i, j);
  }

  /**
   * A zero-padded text that parses is exactly what `str(birthday)` writes back. strptime also
   * accepts `5.6.2000` and ` 5.06.2000`, which are rewritten as `05.06.2000`, so the round trip
   * holds only for ten-character texts that do not start with a space.
   */
  lemma ParseThenFormat(s: string)
    requires ParseBirthday(s).Ok? && |s| == 10 && s[0] != ' '
    ensures FormatBirthday(ParseBirthday(s).value) == s
  {
    var dt, mt, yt := ParsedFields(s);
    assert |s| == |dt| + |mt| + 6;
    assert dt[0] == s[0];
    FormatFields(dt, mt, yt);
  }

  /** Two-character day and month tokens without a space are written back unchanged. */
  lemma FormatFields(dt: string, mt: string, yt: string)
    requires IsDayToken(dt) && IsMonthToken(mt) && IsYearToken(yt)
    requires |dt| == 2 && |mt| == 2 && dt[0] != ' '
    requires Valid(Date(DecValue(yt), DecValue(mt), DayValue(dt)))
    ensures FormatBirthday(Date(DecValue(yt), DecValue(mt), DayValue(dt))) == dt + "." + mt + "." + yt
  {
    assert AllDigits(dt) && DayValue(dt) == DecValue(dt);
    ValuePad(dt);
    ValuePad(mt);
    ValuePad(yt);
    assert Pad(DayValue(dt), 2) == dt && Pad(DecValue(mt), 2) == mt && Pad(DecValue(yt), 4) == yt;
  }

  lemma Value2000()
    ensures DecValue("2000") == 2000
  {
    assert "2000"[..3] == "200" && "200"[..2] == "20" && "20"[..1] == "2";
  }

  /** strptime accepts days and months without their leading zero. */
  lemma ParseAcceptsUnpadded()
    ensures ParseBirthday("5.6.2000") == Ok(Date(2000, 6, 5))
  {
    Value2000();
    assert DecValue("6") == 6;
    assert DayValue("5") == 5;
    assert IsDayToken("5") && IsMonthToken("6");
    assert IsYearToken("2000");
    assert Valid(Date(2000, 6, 5));
    assert "5.6.2000" == "5" + "." + "6" + "." + "2000";
    ParseFields("5", "6", "2000");
  }

  /** strptime accepts a space in place of the leading zero of a day. */
  lemma ParseAcceptsSpacedDay()
    ensures ParseBirthday(" 5.06.2000") == Ok(Date(2000, 6, 5))
  {
    Value2000();
    assert DecValue("06") == 6 by {
      assert "06"[..1] == "0";
    }
    assert DayValue(" 5") == 5;
    assert IsDayToken(" 5") && IsMonthToken("06");
    assert IsYearToken("2000");
    assert Valid(Date(2000, 6, 5));
    assert " 5.06.2000" == " 5" + "." + "06" + "." + "2000";
    ParseFields(" 5", "06", "2000");
  }

  /** 29 February of a common year is refused. */
  lemma ParseRejectsFeb29()
    ensures ParseBirthday("29.02.2023").Err?
  {
    assert DecValue("2023") == 2023 by {
      assert "2023"[..3] == "202" && "202"[..2] == "20" && "20"[..1] == "2";
    }
    assert DecValue("02") == 2 by {
      assert "02"[..1] == "0";
    }
    assert DayValue("29") == 29 by {
      assert "29"[..1] == "2";
    }
    assert !Valid(Date(2023, 2, 29));
    assert "29.02.2023" == "29" + "." + "02" + "." + "2023";
    ParseFields("29", "02", "2023");
  }

  /** Year 0 is refused. */
  lemma ParseRejectsYearZero()
    ensures ParseBirthday("01.01.0000").Err?
  {
    assert DecValue("0000") == 0 by {
      assert "0000"[..3] == "000" && "000"[..2] == "00" && "00"[..1] == "0";
    }
    assert "01.01.0000" == "01" + "." + "01" + "." + "0000";
    ParseFields("01", "01", "0000");
  }

  /** A text led by a padded field and a dot compares by the field's number first, then by the rest. */
  lemma FieldThenDot(x: nat, y: nat, w: nat, s: string, t: string)
    requires x < Pow10(w) && y < Pow10(w)
    ensures TextLess(Pad(x, w) + ("." + s), Pad(y, w) + ("." + t)) <==> x < y || (x == y && TextLess(s, t))
  {
    TextLessConcat(Pad(x, w), "." + s, Pad(y, w), "." + t);
    TextLessConcat(".", s, ".", t);
    PadOrder(x, y, w);
    PadValue(x, w);
    PadValue(y, w);
    assert !TextLess(".", ".");
  }

  /** The year field, then a dot and the rest: the grouping in which texts are compared. */
  lemma DateTextFields(d: Date)
    requires Valid(d)
    ensures DateText(d) == Pad(d.year, 4) + ("." + (Pad(d.month, 2) + ("." + Pad(d.day, 2))))
  {
  }

  /** The `%Y.%m.%d` texts sort as strings exactly as their dates sort in time. */
  lemma DateTextOrder(a: Date, b: Date)
    requires Valid(a) && Valid(b)
    ensures TextLess(DateText(a), DateText(b)) <==> Before(a, b)
  {
    Powers();
    var da, db := Pad(a.day, 2), Pad(b.day, 2);
    var ra, rb := Pad(a.month, 2) + ("." + da), Pad(b.month, 2) + ("." + db);
    DateTextFields(a);
    DateTextFields(b);
    FieldThenDot(a.year, b.year, 4, ra, rb);
    FieldThenDot(a.month, b.month, 2, da, db);
    PadOrder(a.day, b.day, 2);
  }
}
