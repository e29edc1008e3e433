/** Calendar dates as `parse_date` reads them: Python's `datetime.strptime`
    tried with three formats in order, the ISO text `str(date)` writes into a
    record, and the strict reading of that text the monthly summary does. */
module Dates {
  import opened Wrappers
  import opened Text

  datatype Date = Date(year: int, month: int, day: int)

  /** Leap years of the proleptic Gregorian calendar `datetime.date` uses. */
  predicate IsLeapYear(y: int) {
    y % 4 == 0 && (y % 100 != 0 || y % 400 == 0)
  }

  /** Every fourth year is a leap year, except centuries not divisible
      by 400. */
  lemma LeapYearExamples()
    ensures IsLeapYear(2024) && IsLeapYear(2000)
    ensures !IsLeapYear(2023) && !IsLeapYear(1900)
  {
  }

  function DaysInMonth(y: int, m: int): (n: int)
    requires 1 <= m <= 12
    ensures 28 <= n <= 31
    ensures n == 29 <==> m == 2 && IsLeapYear(y)
  {
    if m == 2 then (if IsLeapYear(y) then 29 else 28)
    else if m == 4 || m == 6 || m == 9 || m == 11 then 30
    else 31
  }

  /** The dates `datetime.date` accepts: years 1 to 9999, months 1 to 12,
      and a day that exists in that month. */
  predicate ValidDate(d: Date) {
    1 <= d.year <= 9999 && 1 <= d.month <= 12 && 1 <= d.day <= DaysInMonth(d.year, d.month)
  }

  /** 29 February exists only in a leap year; no month has a day 0 or a
      day 32, and there is no month 13 and no year 0 or 10000. */
  lemma ValidDateExamples()
    ensures ValidDate(Date(2024, 2, 29)) && !ValidDate(Date(2023, 2, 29))
    ensures ValidDate(Date(9999, 12, 31)) && !ValidDate(Date(2024, 4, 31))
    ensures !ValidDate(Date(2024, 1, 0)) && !ValidDate(Date(2024, 1, 32))
    ensures !ValidDate(Date(2024, 13, 1)) && !ValidDate(Date(0, 1, 1)) && !ValidDate(Date(10000, 1, 1))
  {
  }

  // ---------- strptime ----------

  /** One piece of a strptime format: `%Y`, `%m`, `%d`, or a literal character. */
  datatype Directive = YearDirective | MonthDirective | DayDirective | Literal(c: char)

  type Format = seq<Directive>

  /** "%Y-%m-%d" */
  const IsoFormat: Format := [YearDirective, Literal('-'), MonthDirective, Literal('-'), DayDirective]
  /** "%d-%m-%Y" */
  const DayFirstFormat: Format := [DayDirective, Literal('-'), MonthDirective, Literal('-'), YearDirective]
  /** "%Y/%m/%d" */
  const SlashFormat: Format := [YearDirective, Literal('/'), MonthDirective, Literal('/'), DayDirective]

  /** The formats `parse_date` tries, in the order it tries them. */
  const Formats: seq<Format> := [IsoFormat, DayFirstFormat, SlashFormat]

  /** One way a directive's pattern matches at the start of a text: the
      number it denotes and how many characters it takes. */
  datatype Token = Token(value: nat, width: nat)

  /** The alternatives of the regular expression strptime builds for a
      directive, in the order the regular-expression engine tries them:
      `%Y` is `\d\d\d\d`, `%m` is `1[0-2]|0[1-9]|[1-9]` and `%d` is
      `3[01]|[12]\d|0[1-9]|[1-9]| [1-9]`. */
  function Candidates(d: Directive, s: string): (ts: seq<Token>)
    requires !d.Literal?
    ensures forall i :: 0 <= i < |ts| ==> 1 <= ts[i].width <= |s|
  {
    match d
    case YearDirective =>
      if |s| >= 4 && AllDigits(s[..4]) then [Token(DigitsValue(s[..4]), 4)] else []
    case MonthDirective =>
      (if |s| >= 2 && s[0] == '1' && '0' <= s[1] <= '2' then [Token(10 + DigitValue(s[1]), 2)] else [])
      + (if |s| >= 2 && s[0] == '0' && '1' <= s[1] <= '9' then [Token(DigitValue(s[1]), 2)] else [])
      + (if |s| >= 1 && '1' <= s[0] <= '9' then [Token(DigitValue(s[0]), 1)] else [])
    case DayDirective =>
      (if |s| >= 2 && s[0] == '3' && '0' <= s[1] <= '1' then [Token(30 + DigitValue(s[1]), 2)] else [])
      + (if |s| >= 2 && '1' <= s[0] <= '2' && IsDigit(s[1]) then [Token(DigitValue(s[0]) * 10 + DigitValue(s[1]), 2)] else [])
      + (if |s| >= 2 && s[0] == '0' && '1' <= s[1] <= '9' then [Token(DigitValue(s[1]), 2)] else [])
      + (if |s| >= 1 && '1' <= s[0] <= '9' then [Token(DigitValue(s[0]), 1)] else [])
      + (if |s| >= 2 && s[0] == ' ' && '1' <= s[1] <= '9' then [Token(DigitValue(s[1]), 2)] else [])
  }

  /** Records the number a directive captured. */
  function Assign(acc: Date, d: Directive, v: int): Date {
    match d
    case YearDirective => acc.(year := v)
    case MonthDirective => acc.(month := v)
    case DayDirective => acc.(day := v)
    case Literal(_) => acc
  }

  /** `re.match` of the format's regular expression against `s`: the first
      way, in backtracking order, to match the whole format at the start of
      `s`, with the fields it captured and the length of text it took. */
  function MatchPrefix(fmt: Format, s: string, acc: Date): (r: Option<(Date, nat)>)
    ensures r.Some? ==> r.value.1 <= |s|
    decreases |fmt|, 1
  {
    if fmt == [] then Some((acc, 0))
    else match fmt[0]
      case Literal(c) =>
        if s != [] && s[0] == c then
          match MatchPrefix(fmt[1..], s[1..], acc)
          case Some((d, n)) => Some((d, n + 1))
          case None => None
        else None
      case _ => TryCandidates(fmt, s, acc, Candidates(fmt[0], s))
  }

  /** Tries the alternatives of the first directive in order, each followed
      by a match of the rest of the format; the first that succeeds wins. */
  function TryCandidates(fmt: Format, s: string, acc: Date, ts: seq<Token>): (r: Option<(Date, nat)>)
    requires fmt != [] && !fmt[0].Literal?
    requires forall i :: 0 <= i < |ts| ==> ts[i].width <= |s|
    ensures r.Some? ==> r.value.1 <= |s|
    decreases |fmt|, 0, |ts|
  {
    if ts == [] then None
    else match MatchPrefix(fmt[1..], s[ts[0].width..], Assign(acc, fmt[0], ts[0].value))
      case Some((d, n)) => Some((d, n + ts[0].width))
      case None => TryCandidates(fmt, s, acc, ts[1..])
  }

  /** `datetime.strptime(s, fmt).date()`: the pattern must match, it must
      leave no unconverted text, and the captured fields must form a date;
      `None` stands for the `ValueError` of each of these failures. */
  function StrpTime(s: string, fmt: Format): (r: Option<Date>)
    ensures r.Some? ==> ValidDate(r.value)
  {
    match MatchPrefix(fmt, s, Date(1900, 1, 1))
    case None => None
    case Some((d, n)) =>
      if n != |s| then None
      else if ValidDate(d) then Some(d)
      else None
  }

  /** The result of the first format in `fmts` that reads `s`. */
  function FirstFormatMatch(s: string, fmts: seq<Format>): (r: Option<Date>)
    ensures r.Some? ==> ValidDate(r.value)
  {
    if fmts == [] then None
    else match StrpTime(s, fmts[0])
      case Some(d) => Some(d)
      case None => FirstFormatMatch(s, fmts[1..])
  }

  /** The first-match search succeeds exactly when some format reads the
      text, and then returns what the first such format reads. */
  lemma {:induction false} FirstFormatMatchIsFirst(s: string, fmts: seq<Format>)
    ensures FirstFormatMatch(s, fmts).None? <==> forall k :: 0 <= k < |fmts| ==> StrpTime(s, fmts[k]).None?
    ensures FirstFormatMatch(s, fmts).Some? ==>
      exists k :: 0 <= k < |fmts| && StrpTime(s, fmts[k]) == FirstFormatMatch(s, fmts)
        && forall j :: 0 <= j < k ==> StrpTime(s, fmts[j]).None?
  {
    if fmts != [] && StrpTime(s, fmts[0]).None? {
      FirstFormatMatchIsFirst(s, fmts[1..]);
      if FirstFormatMatch(s, fmts).Some? {
        var k :| 0 <= k < |fmts[1..]| && StrpTime(s, fmts[1..][k]) == FirstFormatMatch(s, fmts[1..])
          && forall j :: 0 <= j < k ==> StrpTime(s, fmts[1..][j]).None?;
        assert StrpTime(s, fmts[k + 1]) == FirstFormatMatch(s, fmts);
      }
      if forall k :: 0 <= k < |fmts[1..]| ==> StrpTime(s, fmts[1..][k]).None? {
        forall k | 0 <= k < |fmts| ensures StrpTime(s, fmts[k]).None? {
          if k > 0 { assert fmts[k] == fmts[1..][k - 1]; }
        }
      }
    }
  }

  /** `parse_date`: tries each format in turn and returns the first date read;
      `None` is the `ValueError("Invalid date format ...")` it raises. */
  method ParseDate(text: string) returns (r: Option<Date>)
    ensures r == FirstFormatMatch(text, Formats)
    ensures r.None? <==> forall k :: 0 <= k < |Formats| ==> StrpTime(text, Formats[k]).None?
    ensures r.Some? ==> ValidDate(r.value)
    ensures r.Some? ==> exists k :: 0 <= k < |Formats| && StrpTime(text, Formats[k]) == r
                                    && forall j :: 0 <= j < k ==> StrpTime(text, Formats[j]).None?
  {
    var i := 0;
    while i < |Formats|
      invariant 0 <= i <= |Formats|
      invariant forall j :: 0 <= j < i ==> StrpTime(text, Formats[j]).None?
      invariant FirstFormatMatch(text, Formats) == FirstFormatMatch(text, Formats[i..])
    {
      var attempt := StrpTime(text, Formats[i]);
      if attempt.Some? {
        return attempt;
      }
      assert Formats[i..][1..] == Formats[i + 1..];
      i := i + 1;
    }
    return None;
  }

  // ---------- ISO text ----------

  /** A date spelled year first, each field zero-padded to its width and
      the fields separated by `sep`. */
  function YearFirstText(d: Date, sep: char): (s: string)
    requires ValidDate(d)
    ensures |s| == 10 && s[4] == sep && s[7] == sep
  {
    [DigitChar(d.year / 1000), DigitChar(d.year / 100 % 10), DigitChar(d.year / 10 % 10), DigitChar(d.year % 10),
     sep, DigitChar(d.month / 10), DigitChar(d.month % 10),
     sep, DigitChar(d.day / 10), DigitChar(d.day % 10)]
  }

  /** `str(date)`: the ISO 8601 extended calendar-date form YYYY-MM-DD. */
  function IsoText(d: Date): (s: string)
    requires ValidDate(d)
    ensures |s| == 10 && s[4] == '-' && s[7] == '-'
  {
    YearFirstText(d, '-')
  }

  /** The strict reading of a stored date that `datetime.fromisoformat` does
      for a date-only text: exactly YYYY-MM-DD naming a valid date. */
  function StoredDate(s: string): (r: Option<Date>)
    ensures r.Some? ==> ValidDate(r.value) && |s| == 10 && s[4] == '-' && s[7] == '-'
  {
    if |s| == 10 && s[4] == '-' && s[7] == '-' && AllDigits(s[..4]) && AllDigits(s[5..7]) && AllDigits(s[8..]) then
      var d := Date(DigitsValue(s[..4]), DigitsValue(s[5..7]), DigitsValue(s[8..]));
      if ValidDate(d) then Some(d) else None
    else None
  }

  // ---------- round trips ----------

  lemma DigitCharOfValue(c: char)
    requires IsDigit(c)
    ensures DigitChar(DigitValue(c)) == c
  {
  }

  lemma TwoDigitsValue(s: string)
    requires |s| == 2 && AllDigits(s)
    ensures DigitsValue(s) == DigitValue(s[0]) * 10 + DigitValue(s[1])
  {
    assert DigitsValue(s) == DigitsValue(s[..1]) * 10 + DigitValue(s[1]);
    assert s[..1][..0] == [];
    assert DigitsValue(s[..1]) == DigitValue(s[0]);
  }

  lemma FourDigitsValue(s: string)
    requires |s| == 4 && AllDigits(s)
    ensures DigitsValue(s) == DigitValue(s[0]) * 1000 + DigitValue(s[1]) * 100 + DigitValue(s[2]) * 10 + DigitValue(s[3])
  {
    assert DigitsValue(s) == DigitsValue(s[..3]) * 10 + DigitValue(s[3]);
    assert s[..3][..2] == s[..2];
    assert DigitsValue(s[..3]) == DigitsValue(s[..2]) * 10 + DigitValue(s[2]);
    TwoDigitsValue(s[..2]);
  }

  lemma SplitTwo(n: nat)
    requires n < 100
    ensures n / 10 < 10 && (n / 10) * 10 + n % 10 == n
  {
  }

  lemma JoinTwo(a: nat, b: nat)
    requires a < 10 && b < 10
    ensures (a * 10 + b) / 10 == a && (a * 10 + b) % 10 == b
  {
  }

  lemma SplitFour(n: nat)
    requires n < 10000
    ensures n / 1000 < 10
    ensures (n / 1000) * 1000 + (n / 100 % 10) * 100 + (n / 10 % 10) * 10 + n % 10 == n
  {
    var q := n / 10;
    assert n == q * 10 + n % 10;
    var q2 := q / 10;
    assert q == q2 * 10 + q % 10;
    assert q2 == n / 100;
    assert q2 / 10 == n / 1000;
    assert q2 == (q2 / 10) * 10 + q2 % 10;
  }

  lemma JoinFour(a: nat, b: nat, c: nat, e: nat)
    requires a < 10 && b < 10 && c < 10 && e < 10
    ensures var n := a * 1000 + b * 100 + c * 10 + e;
      n / 1000 == a && n / 100 % 10 == b && n / 10 % 10 == c && n % 10 == e
  {
    var n := a * 1000 + b * 100 + c * 10 + e;
    assert n == (a * 100 + b * 10 + c) * 10 + e;
    assert n / 10 == a * 100 + b * 10 + c;
    assert n / 10 == (a * 10 + b) * 10 + c;
    assert n / 100 == (n / 10) / 10;
    assert n / 100 == a * 10 + b;
    assert n / 1000 == (n / 100) / 10;
  }

  /** The digits of the ISO text spell out the date's fields. */
  lemma IsoTextFields(d: Date)
    requires ValidDate(d)
    ensures AllDigits(IsoText(d)[..4]) && AllDigits(IsoText(d)[5..7]) && AllDigits(IsoText(d)[8..])
    ensures DigitsValue(IsoText(d)[..4]) == d.year
    ensures DigitsValue(IsoText(d)[5..7]) == d.month
    ensures DigitsValue(IsoText(d)[8..]) == d.day
  {
    var s := IsoText(d);
    SplitFour(d.year);
    SplitTwo(d.month);
    SplitTwo(d.day);
    FourDigitsValue(s[..4]);
    TwoDigitsValue(s[5..7]);
    TwoDigitsValue(s[8..]);
  }

  /** `fromisoformat(str(d)) == d` for a valid date. */
  lemma StoredDateOfIsoText(d: Date)
    requires ValidDate(d)
    ensures StoredDate(IsoText(d)) == Some(d)
  {
    IsoTextFields(d);
  }

  /** Four digits are the zero-padded spelling of their value. */
  lemma FourDigitsText(s: string)
    requires |s| == 4 && AllDigits(s)
    ensures var y := DigitsValue(s);
      y < 10000 && s == [DigitChar(y / 1000), DigitChar(y / 100 % 10), DigitChar(y / 10 % 10), DigitChar(y % 10)]
  {
    FourDigitsValue(s);
    JoinFour(DigitValue(s[0]), DigitValue(s[1]), DigitValue(s[2]), DigitValue(s[3]));
    DigitCharOfValue(s[0]);
    DigitCharOfValue(s[1]);
    DigitCharOfValue(s[2]);
    DigitCharOfValue(s[3]);
  }

  /** Two digits are the zero-padded spelling of their value. */
  lemma TwoDigitsText(s: string)
    requires |s| == 2 && AllDigits(s)
    ensures var v := DigitsValue(s); v < 100 && s == [DigitChar(v / 10), DigitChar(v % 10)]
  {
    TwoDigitsValue(s);
    JoinTwo(DigitValue(s[0]), DigitValue(s[1]));
    DigitCharOfValue(s[0]);
    DigitCharOfValue(s[1]);
  }

  /** A text the strict reading accepts is the `str` of what it reads. */
  lemma IsoTextOfStoredDate(s: string)
    requires StoredDate(s).Some?
    ensures ValidDate(StoredDate(s).value) && s == IsoText(StoredDate(s).value)
  {
    var d := StoredDate(s).value;
    FourDigitsText(s[..4]);
    TwoDigitsText(s[5..7]);
    TwoDigitsText(s[8..]);
    assert s == s[..4] + [s[4]] + s[5..7] + [s[7]] + s[8..];
  }

  /** `fromisoformat(str(d)) == d`, and the strict reading accepts nothing but
      the text `str` writes for a valid date. */
  lemma StoredDateIff(s: string, d: Date)
    ensures StoredDate(s) == Some(d) <==> ValidDate(d) && s == IsoText(d)
  {
    if ValidDate(d) && s == IsoText(d) {
      StoredDateOfIsoText(d);
    }
    if StoredDate(s) == Some(d) {
      IsoTextOfStoredDate(s);
    }
  }

  lemma YearToken(s: string, y: int)
    requires 1 <= y <= 9999 && |s| >= 4
    requires s[..4] == [DigitChar(y / 1000), DigitChar(y / 100 % 10), DigitChar(y / 10 % 10), DigitChar(y % 10)]
    ensures Candidates(YearDirective, s) == [Token(y, 4)]
  {
    SplitFour(y);
    FourDigitsValue(s[..4]);
  }

  lemma MonthToken(s: string, m: int)
    requires 1 <= m <= 12 && |s| >= 2 && s[0] == DigitChar(m / 10) && s[1] == DigitChar(m % 10)
    ensures Candidates(MonthDirective, s) != [] && Candidates(MonthDirective, s)[0] == Token(m, 2)
  {
  }

  lemma DayToken(s: string, n: int)
    requires 1 <= n <= 31 && |s| >= 2 && s[0] == DigitChar(n / 10) && s[1] == DigitChar(n % 10)
    ensures Candidates(DayDirective, s) != [] && Candidates(DayDirective, s)[0] == Token(n, 2)
  {
  }

  /** `strptime(str(d), "%Y-%m-%d")` gives back `d`. */
  lemma IsoFormatReadsIsoText(d: Date)
    requires ValidDate(d)
    ensures StrpTime(IsoText(d), IsoFormat) == Some(d)
  {
    var s := IsoText(d);
    var a0 := Date(1900, 1, 1);
    var a1 := a0.(year := d.year);
    var a2 := a1.(month := d.month);
    YearToken(s, d.year);
    MonthToken(s[5..], d.month);
    DayToken(s[8..], d.day);
    assert s[8..][2..] == [];
    assert IsoFormat[4..] == [DayDirective] && IsoFormat[4..][1..] == [];
    assert Assign(a2, DayDirective, d.day) == d;
    assert MatchPrefix([], s[8..][2..], d) == Some((d, 0));
    assert MatchPrefix(IsoFormat[4..], s[8..], a2) == Some((d, 2));
    assert s[7..][1..] == s[8..] && IsoFormat[3..][1..] == IsoFormat[4..];
    assert MatchPrefix(IsoFormat[3..], s[7..], a2) == Some((d, 3));
    assert s[5..][2..] == s[7..] && IsoFormat[2..][1..] == IsoFormat[3..];
    assert MatchPrefix(IsoFormat[2..], s[5..], a1) == Some((d, 5));
    assert s[4..][1..] == s[5..] && IsoFormat[1..][1..] == IsoFormat[2..];
    assert MatchPrefix(IsoFormat[1..], s[4..], a1) == Some((d, 6));
    assert s[4..] == s[4..];
    assert MatchPrefix(IsoFormat, s, a0) == Some((d, 10));
  }

  /** `parse_date(str(d)) == d`: the date a record stores reads back as itself. */
  lemma ParseDateReadsIsoText(d: Date)
    requires ValidDate(d)
    ensures FirstFormatMatch(IsoText(d), Formats) == Some(d)
  {
    IsoFormatReadsIsoText(d);
  }

  /** The DD-MM-YYYY spelling of a date, the one the second format reads. */
  function DayFirstText(d: Date): (s: string)
    requires ValidDate(d)
    ensures |s| == 10
  {
    [DigitChar(d.day / 10), DigitChar(d.day % 10), '-', DigitChar(d.month / 10), DigitChar(d.month % 10), '-',
     DigitChar(d.year / 1000), DigitChar(d.year / 100 % 10), DigitChar(d.year / 10 % 10), DigitChar(d.year % 10)]
  }

  /** `strptime(DayFirstText(d), "%d-%m-%Y")` gives back `d`. */
  lemma DayFirstFormatReadsDayFirstText(d: Date)
    requires ValidDate(d)
    ensures StrpTime(DayFirstText(d), DayFirstFormat) == Some(d)
  {
    var s := DayFirstText(d);
    var a0 := Date(1900, 1, 1);
    var a1 := a0.(day := d.day);
    var a2 := a1.(month := d.month);
    DayToken(s, d.day);
    MonthToken(s[3..], d.month);
    YearToken(s[6..], d.year);
    assert s[6..][4..] == [];
    assert DayFirstFormat[4..] == [YearDirective] && DayFirstFormat[4..][1..] == [];
    assert Assign(a2, YearDirective, d.year) == d;
    assert MatchPrefix([], s[6..][4..], d) == Some((d, 0));
    assert MatchPrefix(DayFirstFormat[4..], s[6..], a2) == Some((d, 4));
    assert s[5..][1..] == s[6..] && DayFirstFormat[3..][1..] == DayFirstFormat[4..];
    assert MatchPrefix(DayFirstFormat[3..], s[5..], a2) == Some((d, 5));
    assert s[3..][2..] == s[5..] && DayFirstFormat[2..][1..] == DayFirstFormat[3..];
    assert MatchPrefix(DayFirstFormat[2..], s[3..], a1) == Some((d, 7));
    assert s[2..][1..] == s[3..] && DayFirstFormat[1..][1..] == DayFirstFormat[2..];
    assert MatchPrefix(DayFirstFormat[1..], s[2..], a1) == Some((d, 8));
    assert MatchPrefix(DayFirstFormat, s, a0) == Some((d, 10));
  }

  /** A DD-MM-YYYY text fails the first format and is read by the second. */
  lemma ParseDateReadsDayFirstText(d: Date)
    requires ValidDate(d)
    ensures StrpTime(DayFirstText(d), IsoFormat) == None
    ensures FirstFormatMatch(DayFirstText(d), Formats) == Some(d)
  {
    var s := DayFirstText(d);
    assert !IsDigit(s[..4][2]);
    assert Candidates(YearDirective, s) == [];
    DayFirstFormatReadsDayFirstText(d);
  }

  /** The YYYY/MM/DD spelling of a date, the one the third format reads. */
  function SlashText(d: Date): (s: string)
    requires ValidDate(d)
    ensures |s| == 10 && s[4] == '/' && s[7] == '/'
  {
    YearFirstText(d, '/')
  }

  /** `strptime(SlashText(d), "%Y/%m/%d")` gives back `d`. */
  lemma SlashFormatReadsSlashText(d: Date)
    requires ValidDate(d)
    ensures StrpTime(SlashText(d), SlashFormat) == Some(d)
  {
    var s := SlashText(d);
    var a0 := Date(1900, 1, 1);
    var a1 := a0.(year := d.year);
    var a2 := a1.(month := d.month);
    YearToken(s, d.year);
    MonthToken(s[5..], d.month);
    DayToken(s[8..], d.day);
    assert s[8..][2..] == [];
    assert SlashFormat[4..] == [DayDirective] && SlashFormat[4..][1..] == [];
    assert Assign(a2, DayDirective, d.day) == d;
    assert MatchPrefix([], s[8..][2..], d) == Some((d, 0));
    assert MatchPrefix(SlashFormat[4..], s[8..], a2) == Some((d, 2));
    assert s[7..][1..] == s[8..] && SlashFormat[3..][1..] == SlashFormat[4..];
    assert MatchPrefix(SlashFormat[3..], s[7..], a2) == Some((d, 3));
    assert s[5..][2..] == s[7..] && SlashFormat[2..][1..] == SlashFormat[3..];
    assert MatchPrefix(SlashFormat[2..], s[5..], a1) == Some((d, 5));
    assert s[4..][1..] == s[5..] && SlashFormat[1..][1..] == SlashFormat[2..];
    assert MatchPrefix(SlashFormat[1..], s[4..], a1) == Some((d, 6));
    assert MatchPrefix(SlashFormat, s, a0) == Some((d, 10));
  }

  /** `%d` takes one or two characters. */
  lemma DayCandidatesShort(s: string)
    ensures forall i :: 0 <= i < |Candidates(DayDirective, s)| ==> Candidates(DayDirective, s)[i].width <= 2
  {
  }

  lemma {:induction false} DayFirstTryFails(s: string, acc: Date, ts: seq<Token>)
    requires |s| >= 3 && IsDigit(s[1]) && IsDigit(s[2])
    requires forall i :: 0 <= i < |ts| ==> 1 <= ts[i].width <= 2
    ensures TryCandidates(DayFirstFormat, s, acc, ts) == None
  {
    if ts != [] {
      var w := ts[0].width;
      assert DayFirstFormat[1..][0] == Literal('-');
      assert s[w..][0] == s[w] && IsDigit(s[w]);
      assert MatchPrefix(DayFirstFormat[1..], s[w..], Assign(acc, DayDirective, ts[0].value)) == None;
      DayFirstTryFails(s, acc, ts[1..]);
    }
  }

  /** "%d-%m-%Y" needs a dash within the first three characters, so it reads
      no text whose second and third characters are digits. */
  lemma DayFirstNeedsDash(s: string)
    requires |s| >= 3 && IsDigit(s[1]) && IsDigit(s[2])
    ensures StrpTime(s, DayFirstFormat) == None
  {
    DayCandidatesShort(s);
    DayFirstTryFails(s, Date(1900, 1, 1), Candidates(DayDirective, s));
  }

  /** A YYYY/MM/DD text fails the first two formats and is read by the third. */
  lemma ParseDateReadsSlashText(d: Date)
    requires ValidDate(d)
    ensures StrpTime(SlashText(d), IsoFormat) == None
    ensures StrpTime(SlashText(d), DayFirstFormat) == None
    ensures FirstFormatMatch(SlashText(d), Formats) == Some(d)
  {
    var s := SlashText(d);
    var a0 := Date(1900, 1, 1);
    YearToken(s, d.year);
    assert IsoFormat[1..][0] == Literal('-') && s[4..][0] == '/';
    assert MatchPrefix(IsoFormat[1..], s[4..], a0.(year := d.year)) == None;
    assert TryCandidates(IsoFormat, s, a0, [Token(d.year, 4)][1..]) == None;
    assert MatchPrefix(IsoFormat, s, a0) == None;
    DayFirstNeedsDash(s);
    SlashFormatReadsSlashText(d);
    assert Formats[1..][1..] == [SlashFormat];
    assert FirstFormatMatch(s, Formats[1..][1..]) == Some(d);
    assert FirstFormatMatch(s, Formats[1..]) == Some(d);
  }

  // ---------- examples ----------

  /** 5 January 2024 is read from its ISO spelling. */
  lemma IsoExample()
    ensures FirstFormatMatch("2024-01-05", Formats) == Some(Date(2024, 1, 5))
  {
    var d := Date(2024, 1, 5);
    assert IsoText(d) == "2024-01-05";
    ParseDateReadsIsoText(d);
  }

  /** 5 January 2024 is read from its day-first spelling. */
  lemma DayFirstExample()
    ensures FirstFormatMatch("05-01-2024", Formats) == Some(Date(2024, 1, 5))
  {
    var d := Date(2024, 1, 5);
    assert DayFirstText(d) == "05-01-2024";
    ParseDateReadsDayFirstText(d);
  }

  /** Neither year-first format reads a text whose third character is not a
      digit. */
  lemma YearFirstNeedsFourDigits(s: string)
    requires |s| >= 4 && !IsDigit(s[2])
    ensures StrpTime(s, IsoFormat) == None && StrpTime(s, SlashFormat) == None
  {
    assert !IsDigit(s[..4][2]);
    assert Candidates(YearDirective, s) == [];
  }

  /** "13/45/9999" fails "%d-%m-%Y": neither "13" nor "1" is followed by a dash. */
  lemma UnreadableDayFirst()
    ensures StrpTime("13/45/9999", DayFirstFormat) == None
  {
    var bad := "13/45/9999";
    var a0 := Date(1900, 1, 1);
    var ts := [Token(13, 2), Token(1, 1)];
    assert Candidates(DayDirective, bad) == ts;
    assert bad[2..] == "/45/9999" && bad[1..] == "3/45/9999";
    assert MatchPrefix(DayFirstFormat[1..], bad[2..], a0.(day := 13)) == None;
    assert MatchPrefix(DayFirstFormat[1..], bad[1..], a0.(day := 1)) == None;
    assert TryCandidates(DayFirstFormat, bad, a0, ts[1..][1..]) == None;
    assert TryCandidates(DayFirstFormat, bad, a0, ts[1..]) == None;
    assert TryCandidates(DayFirstFormat, bad, a0, ts) == None;
  }

  /** "13/45/9999" is read by no format. */
  lemma UnreadableExample()
    ensures FirstFormatMatch("13/45/9999", Formats) == None
  {
    var bad := "13/45/9999";
    YearFirstNeedsFourDigits(bad);
    UnreadableDayFirst();
    FirstFormatMatchIsFirst(bad, Formats);
  }

  lemma UnpaddedMonthDay(acc: Date)
    ensures MatchPrefix(IsoFormat[2..], "1-5", acc) == Some((acc.(month := 1).(day := 5), 3))
  {
    var s := "1-5";
    var a2 := acc.(month := 1);
    var d := a2.(day := 5);
    assert Candidates(MonthDirective, s) == [Token(1, 1)];
    assert s[1..] == "-5" && s[2..] == "5";
    assert Candidates(DayDirective, s[2..]) == [Token(5, 1)];
    assert s[2..][1..] == [];
    assert IsoFormat[4..] == [DayDirective] && IsoFormat[4..][1..] == [];
    assert Assign(a2, DayDirective, 5) == d;
    assert MatchPrefix([], s[2..][1..], d) == Some((d, 0));
    assert MatchPrefix(IsoFormat[4..], s[2..], a2) == Some((d, 1));
    assert s[1..][1..] == s[2..] && IsoFormat[3..][1..] == IsoFormat[4..];
    assert MatchPrefix(IsoFormat[3..], s[1..], a2) == Some((d, 2));
    assert IsoFormat[2..][1..] == IsoFormat[3..];
  }

  /** Fields need not be zero-padded: "2024-1-5" reads as 5 January 2024,
      through the `[1-9]` alternatives of `%m` and `%d`. */
  lemma UnpaddedExample()
    ensures StrpTime("2024-1-5", IsoFormat) == Some(Date(2024, 1, 5))
  {
    var s := "2024-1-5";
    var d := Date(2024, 1, 5);
    var a0 := Date(1900, 1, 1);
    var a1 := a0.(year := 2024);
    assert s[..4] == "2024";
    FourDigitsValue(s[..4]);
    assert Candidates(YearDirective, s) == [Token(2024, 4)];
    assert s[5..] == "1-5";
    UnpaddedMonthDay(a1);
    assert s[4..][1..] == s[5..] && IsoFormat[1..][1..] == IsoFormat[2..];
    assert MatchPrefix(IsoFormat[1..], s[4..], a1) == Some((d, 4));
    assert MatchPrefix(IsoFormat, s, a0) == Some((d, 8));
  }

  lemma SpacePaddedMonthDay(acc: Date)
    ensures MatchPrefix(IsoFormat[2..], "01- 5", acc) == Some((acc.(month := 1).(day := 5), 5))
  {
    var s := "01- 5";
    var a2 := acc.(month := 1);
    var d := a2.(day := 5);
    assert Candidates(MonthDirective, s) == [Token(1, 2)];
    assert s[3..] == " 5" && Candidates(DayDirective, s[3..]) == [Token(5, 2)];
    assert s[3..][2..] == [];
    assert IsoFormat[4..] == [DayDirective] && IsoFormat[4..][1..] == [];
    assert Assign(a2, DayDirective, 5) == d;
    assert MatchPrefix([], s[3..][2..], d) == Some((d, 0));
    assert MatchPrefix(IsoFormat[4..], s[3..], a2) == Some((d, 2));
    assert s[2..][1..] == s[3..] && IsoFormat[3..][1..] == IsoFormat[4..];
    assert MatchPrefix(IsoFormat[3..], s[2..], a2) == Some((d, 3));
    assert IsoFormat[2..][1..] == IsoFormat[3..];
  }

  /** A day may be written with a leading space: "2024-01- 5" reads as
      5 January 2024, through the ` [1-9]` alternative of `%d`. */
  lemma SpacePaddedDayExample()
    ensures StrpTime("2024-01- 5", IsoFormat) == Some(Date(2024, 1, 5))
  {
    var s := "2024-01- 5";
    var d := Date(2024, 1, 5);
    var a0 := Date(1900, 1, 1);
    var a1 := a0.(year := 2024);
    assert s[..4] == "2024";
    FourDigitsValue(s[..4]);
    assert Candidates(YearDirective, s) == [Token(2024, 4)];
    assert s[5..] == "01- 5";
    SpacePaddedMonthDay(a1);
    assert s[4..][1..] == s[5..] && IsoFormat[1..][1..] == IsoFormat[2..];
    assert MatchPrefix(IsoFormat[1..], s[4..], a1) == Some((d, 6));
    assert MatchPrefix(IsoFormat, s, a0) == Some((d, 10));
  }
}
