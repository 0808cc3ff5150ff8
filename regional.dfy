/** How `parse_date` and `parse_datetime` treat families of text: the
    regional `M/D/YYYY` or `D/M/YYYY` spelling, where month-first wins, the
    same with a two-digit year, the twelve-hour `M/D/YYYY h:mm:ss AM` stamp,
    and text no stage accepts (no digits first, or a date and a time joined
    by something other than `T` or a space), on which both recurse without
    end; and a space-separated stamp with a trailing `Z`, which only
    `parse_date` reads, as a date. */
module Regional {
  import opened Wrappers
  import opened Text
  import opened Calendar
  import opened Patterns
  import opened Temporal
  import TemporalText

  /** A run of one or two digits, or of exactly four. */
  predicate Numeral(w: string, lo: nat, hi: nat) {
    lo <= |w| <= hi && AllDigits(w)
  }

  function SlashPieces(a: string, b: string, y: string): seq<string> {
    [a, "/", b, "/", y]
  }

  /** `a/b/y`. */
  function SlashText(a: string, b: string, y: string): string {
    Concat(SlashPieces(a, b, y))
  }

  /** What `a/b` means in `year`: month-first, else day-first. */
  function Readings(a: string, b: string, year: int): Option<PyDate>
    requires AllDigits(a) && AllDigits(b)
  {
    MakeDate(year, DigitsValue(a), DigitsValue(b)).OrElse(MakeDate(year, DigitsValue(b), DigitsValue(a)))
  }

  /** What the slash spelling with a four-digit year means. */
  function RegionalDate(a: string, b: string, y: string): Option<PyDate>
    requires AllDigits(a) && AllDigits(b) && AllDigits(y)
  {
    Readings(a, b, DigitsValue(y))
  }

  // ---------------------------------------------------------------------------
  // The text itself

  lemma SlashTextShape(a: string, b: string, y: string)
    requires Numeral(a, 1, 2) && Numeral(b, 1, 2) && Numeral(y, 2, 4)
    ensures SlashText(a, b, y) == a + ("/" + Concat([b, "/", y]))
    ensures SlashText(a, b, y) == Concat([a, "/", b, "/"]) + y
    ensures LeadingDigits(SlashText(a, b, y)) == |a|
  {
    var s := SlashText(a, b, y);
    assert Concat(SlashPieces(a, b, y)[1..]) == "/" + Concat([b, "/", y]);
    ConcatAppend([a, "/", b, "/"], [y]);
    assert [a, "/", b, "/"] + [y] == SlashPieces(a, b, y);
    assert Concat([y]) == y;
    LeadingDigitsAppend(a, "/" + Concat([b, "/", y]));
  }

  /** The slash text holds only digits and slashes. */
  lemma SlashTextChars(a: string, b: string, y: string, c: char)
    requires Numeral(a, 1, 2) && Numeral(b, 1, 2) && Numeral(y, 2, 4)
    requires !IsDigit(c) && c != '/'
    ensures c !in SlashText(a, b, y)
  {
    ConcatContains(SlashPieces(a, b, y), c);
    forall i | 0 <= i < 5 ensures c !in SlashPieces(a, b, y)[i] {
      if i == 0 { NoDigitIn(a, c); }
      else if i == 2 { NoDigitIn(b, c); }
      else if i == 4 { NoDigitIn(y, c); }
    }
  }

  lemma SlashSplit(a: string, b: string, y: string)
    requires Numeral(a, 1, 2) && Numeral(b, 1, 2) && Numeral(y, 2, 4)
    ensures Split(SlashText(a, b, y), '/') == [a, b, y]
  {
    Concat5(SlashPieces(a, b, y));
    assert Join([y], '/') == y;
    assert Join([b, y], '/') == b + "/" + y by { assert [b, y][1..] == [y]; }
    assert Join([a, b, y], '/') == a + "/" + (b + "/" + y) by { assert [a, b, y][1..] == [b, y]; }
    assert '/' !in a && '/' !in b && '/' !in y by {
      NoDigitIn(a, '/');
      NoDigitIn(b, '/');
      NoDigitIn(y, '/');
    }
    SplitUnique(SlashText(a, b, y), '/', [a, b, y]);
  }

  lemma NumeralInt(w: string)
    requires Numeral(w, 1, 4)
    ensures PyInt(w) == Some(DigitsValue(w) as int)
  {
    assert IsDigit(w[0]) && IsDigit(w[|w| - 1]);
    StripUnchanged(w);
  }

  // ---------------------------------------------------------------------------
  // Patterns on the text

  /** A pattern that opens with more digits than the text has fails. */
  lemma TooFewLeadingDigits(p: seq<Tok>, s: string)
    requires p != [] && p[0].Digits? && LeadingDigits(s) < p[0].lo
    ensures Match(p, s).None?
  {
  }

  lemma SlashFits(a: string, b: string, y: string)
    requires Numeral(a, 1, 2) && Numeral(b, 1, 2) && Numeral(y, 4, 4)
    ensures Fits(RegionalShape('/', D4), SlashPieces(a, b, y))
    ensures PieceCaps(RegionalShape('/', D4), SlashPieces(a, b, y))
      == [Num(DigitsValue(a)), Num(DigitsValue(b)), Num(DigitsValue(y))]
  {
    Fits5(RegionalShape('/', D4), SlashPieces(a, b, y));
  }

  /** The text up to the year fits `\d{1,2}/\d{1,2}/`. */
  lemma SlashPrefixFits(a: string, b: string)
    requires Numeral(a, 1, 2) && Numeral(b, 1, 2)
    ensures Fits([D1or2, Lit('/'), D1or2, Lit('/')], [a, "/", b, "/"])
  {
    Fits4([D1or2, Lit('/'), D1or2, Lit('/')], [a, "/", b, "/"]);
  }

  /** A dash where the text has its first slash fails. */
  lemma DashMismatch(a: string, b: string, y: string, year: Tok, q: seq<Tok>)
    requires Numeral(a, 1, 2) && Numeral(b, 1, 2) && Numeral(y, 2, 4)
    ensures Match(RegionalShape('-', year) + q, SlashText(a, b, y)).None?
  {
    SlashTextShape(a, b, y);
    var tail := "/" + Concat([b, "/", y]);
    var p: seq<Tok> := [D1or2];
    assert Fits(p, [a]);
    assert RegionalShape('-', year) + q == p + ([Lit('-'), D1or2, Lit('-'), year] + q);
    assert Concat([a]) == a;
    MatchPieces(p, [a], [Lit('-'), D1or2, Lit('-'), year] + q, tail);
  }

  /** A two-digit year does not fit four digits. */
  lemma TwoDigitYearMismatch(a: string, b: string, y: string)
    requires Numeral(a, 1, 2) && Numeral(b, 1, 2) && Numeral(y, 4, 4)
    ensures Match(RegionalShape('/', D2), SlashText(a, b, y)).None?
  {
    SlashTextShape(a, b, y);
    var p: seq<Tok> := [D1or2, Lit('/'), D1or2, Lit('/')];
    SlashPrefixFits(a, b);
    assert RegionalShape('/', D2) == p + [D2];
    MatchPieces(p, [a, "/", b, "/"], [D2], y);
  }

  /** A pattern that goes on with a clock time fails on the date alone. */
  lemma NoClockInText(a: string, b: string, y: string, q: seq<Tok>)
    requires Numeral(a, 1, 2) && Numeral(b, 1, 2) && Numeral(y, 4, 4)
    requires q != [] && q[0].Lit?
    ensures Match(RegionalShape('/', D4) + q, SlashText(a, b, y)).None?
  {
    SlashFits(a, b, y);
    MatchPieces(RegionalShape('/', D4), SlashPieces(a, b, y), q, "");
    assert SlashText(a, b, y) + "" == SlashText(a, b, y);
  }

  /** Reading the three numbers in a given order. */
  lemma RegionalStrptime(m: nat, d: nat, y: nat)
    ensures DateOf(Strptime([Month, Day, Year4], [Num(m), Num(d), Num(y)])) == MakeDate(y, m, d)
    ensures DateOf(Strptime([Day, Month, Year4], [Num(d), Num(m), Num(y)])) == MakeDate(y, m, d)
  {
    var f := Defaults.(year := y, month := m, day := d);
    if 1 <= m <= 12 && 1 <= d <= 31 {
      assert Assign([Month, Day, Year4], [Num(m), Num(d), Num(y)], Defaults) == Some(f);
      assert Assign([Day, Month, Year4], [Num(d), Num(m), Num(y)], Defaults) == Some(f);
    }
  }

  // ---------------------------------------------------------------------------
  // The tables on the text

  lemma DateEntriesOnSlash(a: string, b: string, y: string)
    requires Numeral(a, 1, 2) && Numeral(b, 1, 2) && Numeral(y, 4, 4)
    ensures var s := SlashText(a, b, y);
      && TryEntry(DatePatterns[0], s).None? && TryEntry(DatePatterns[1], s).None?
      && TryEntry(DatePatterns[3], s).None? && TryEntry(DatePatterns[4], s).None?
      && TryEntry(DatePatterns[5], s).None? && TryEntry(DatePatterns[7], s).None?
      && TryEntry(DatePatterns[8], s).None? && TryEntry(DatePatterns[9], s).None?
  {
    var s := SlashText(a, b, y);
    SlashTextShape(a, b, y);
    TooFewLeadingDigits(YmdShape('-'), s);
    TooFewLeadingDigits(YmdShape('/'), s);
    DashMismatch(a, b, y, D4, []);
    DashMismatch(a, b, y, D2, []);
    TwoDigitYearMismatch(a, b, y);
    assert RegionalShape('-', D4) + [] == RegionalShape('-', D4);
    assert RegionalShape('-', D2) + [] == RegionalShape('-', D2);
  }

  lemma DateEntriesMiss(a: string, b: string, y: string)
    requires Numeral(a, 1, 2) && Numeral(b, 1, 2) && Numeral(y, 4, 4)
    ensures forall i :: 0 <= i < |DatePatterns| && i != 2 && i != 6 ==> TryEntry(DatePatterns[i], SlashText(a, b, y)).None?
  {
    DateEntriesOnSlash(a, b, y);
  }

  lemma DateEntriesReadSlash(a: string, b: string, y: string)
    requires Numeral(a, 1, 2) && Numeral(b, 1, 2) && Numeral(y, 4, 4)
    ensures var s := SlashText(a, b, y);
      && DateOf(TryEntry(DatePatterns[2], s)) == MakeDate(DigitsValue(y), DigitsValue(a), DigitsValue(b))
      && DateOf(TryEntry(DatePatterns[6], s)) == MakeDate(DigitsValue(y), DigitsValue(b), DigitsValue(a))
  {
    MonthFirstEntry(a, b, y);
    DayFirstEntry(a, b, y);
  }

  lemma MonthFirstEntry(a: string, b: string, y: string)
    requires Numeral(a, 1, 2) && Numeral(b, 1, 2) && Numeral(y, 4, 4)
    ensures DateOf(TryEntry(DatePatterns[2], SlashText(a, b, y))) == MakeDate(DigitsValue(y), DigitsValue(a), DigitsValue(b))
  {
    SlashCaps(a, b, y);
    RegionalStrptime(DigitsValue(a), DigitsValue(b), DigitsValue(y));
  }

  lemma DayFirstEntry(a: string, b: string, y: string)
    requires Numeral(a, 1, 2) && Numeral(b, 1, 2) && Numeral(y, 4, 4)
    ensures DateOf(TryEntry(DatePatterns[6], SlashText(a, b, y))) == MakeDate(DigitsValue(y), DigitsValue(b), DigitsValue(a))
  {
    SlashCaps(a, b, y);
    RegionalStrptime(DigitsValue(b), DigitsValue(a), DigitsValue(y));
  }

  /** The slash text fits `\d{1,2}/\d{1,2}/\d{4}` with its three numbers
      captured. */
  lemma SlashCaps(a: string, b: string, y: string)
    requires Numeral(a, 1, 2) && Numeral(b, 1, 2) && Numeral(y, 4, 4)
    ensures Match(RegionalShape('/', D4), SlashText(a, b, y)) == Some([Num(DigitsValue(a)), Num(DigitsValue(b)), Num(DigitsValue(y))])
  {
    SlashFits(a, b, y);
    MatchWhole(RegionalShape('/', D4), SlashPieces(a, b, y));
  }

  /** The date table reads the slash text month-first, then day-first. */
  lemma DateScanOnSlash(a: string, b: string, y: string)
    requires Numeral(a, 1, 2) && Numeral(b, 1, 2) && Numeral(y, 4, 4)
    ensures DateScan(SlashText(a, b, y)) == RegionalDate(a, b, y)
  {
    var s := SlashText(a, b, y);
    DateEntriesMiss(a, b, y);
    DateEntriesReadSlash(a, b, y);
    if TryEntry(DatePatterns[2], s).Some? {
      ScanFirstHit(DatePatterns, s, 2);
    } else if TryEntry(DatePatterns[6], s).Some? {
      ScanFirstHit(DatePatterns, s, 6);
    } else {
      assert Scan(DatePatterns, s).None?;
    }
  }

  lemma NumeralParts(a: string, b: string, y: string)
    requires Numeral(a, 1, 2) && Numeral(b, 1, 2) && Numeral(y, 4, 4)
    ensures DateFromParts(y, a, b) == MakeDate(DigitsValue(y), DigitsValue(a), DigitsValue(b))
    ensures DateFromParts(y, b, a) == MakeDate(DigitsValue(y), DigitsValue(b), DigitsValue(a))
  {
    NumeralInt(a);
    NumeralInt(b);
    NumeralInt(y);
  }

  /** The manual fallback reads the slash text in the same two orders. */
  lemma ManualOnSlash(a: string, b: string, y: string)
    requires Numeral(a, 1, 2) && Numeral(b, 1, 2) && Numeral(y, 4, 4)
    ensures ManualDate(SlashText(a, b, y), '/') == RegionalDate(a, b, y)
  {
    var s := SlashText(a, b, y);
    SlashSplit(a, b, y);
    assert '/' in s by { Concat5(SlashPieces(a, b, y)); assert s[|a|] == '/'; }
    var parts := Split(s, '/');
    assert |parts| == 3 && |parts[0]| != 4 && |parts[2]| == 4;
    assert ManualDate(s, '/') == DateFromParts(y, a, b).OrElse(DateFromParts(y, b, a));
    NumeralParts(a, b, y);
  }

  lemma IsoOnSlash(a: string, b: string, y: string)
    requires Numeral(a, 1, 2) && Numeral(b, 1, 2) && Numeral(y, 2, 4)
    ensures IsoDate(SlashText(a, b, y)).None?
    ensures IsoDateTime(SlashText(a, b, y)).None?
  {
    var s := SlashText(a, b, y);
    SlashTextShape(a, b, y);
    forall i | 0 <= i < |IsoDateTimeForms| ensures TryStrptime(IsoDateTimeForms[i], s).None? {
      TooFewLeadingDigits(IsoDateTimeForms[i].pattern, s);
    }
    IsoScanMiss(IsoDateTimeForms, s);
    IsoScanMiss(IsoDateForms, s);
  }

  lemma DateTimeEntriesOnSlash(a: string, b: string, y: string)
    requires Numeral(a, 1, 2) && Numeral(b, 1, 2) && Numeral(y, 4, 4)
    ensures Scan(DateTimePatterns, SlashText(a, b, y)).None?
  {
    var s := SlashText(a, b, y);
    SlashTextShape(a, b, y);
    forall i | 0 <= i < 5 ensures TryEntry(DateTimePatterns[i], s).None? {
      TooFewLeadingDigits(DateTimePatterns[i].pattern, s);
    }
    NoClockInText(a, b, y, [Lit(' ')] + ClockShape(D1or2) + [Lit(' '), OneOf("AP"), Lit('M')]);
    NoClockInText(a, b, y, [Lit(' ')] + ClockShape(D2));
    DashMismatch(a, b, y, D4, [Lit(' ')] + ClockShape(D2));
    assert RegionalShape('/', D4) + [Lit(' ')] + ClockShape(D1or2) + [Lit(' '), OneOf("AP"), Lit('M')]
      == RegionalShape('/', D4) + ([Lit(' ')] + ClockShape(D1or2) + [Lit(' '), OneOf("AP"), Lit('M')]);
    assert RegionalShape('/', D4) + [Lit(' ')] + ClockShape(D2) == RegionalShape('/', D4) + ([Lit(' ')] + ClockShape(D2));
    assert RegionalShape('-', D4) + [Lit(' ')] + ClockShape(D2) == RegionalShape('-', D4) + ([Lit(' ')] + ClockShape(D2));
    assert forall i :: 0 <= i < |DateTimePatterns| ==> TryEntry(DateTimePatterns[i], s).None?;
  }

  lemma DateStagesOnSlash(a: string, b: string, y: string)
    requires Numeral(a, 1, 2) && Numeral(b, 1, 2) && Numeral(y, 4, 4)
    ensures DateStages(SlashText(a, b, y)) == RegionalDate(a, b, y)
  {
    var s := SlashText(a, b, y);
    SlashTextChars(a, b, y, 'T');
    SlashTextChars(a, b, y, ' ');
    SlashTextChars(a, b, y, '-');
    IsoOnSlash(a, b, y);
    assert DateFastPath(s).None?;
    DateScanOnSlash(a, b, y);
    ManualOnSlash(a, b, y);
    assert ManualDate(s, '-').None?;
  }

  lemma DateTimeStagesOnSlash(a: string, b: string, y: string)
    requires Numeral(a, 1, 2) && Numeral(b, 1, 2) && Numeral(y, 4, 4)
    ensures DateTimeStages(SlashText(a, b, y)).None?
  {
    SlashTextChars(a, b, y, 'T');
    IsoOnSlash(a, b, y);
    DateTimeEntriesOnSlash(a, b, y);
  }

  /** `parse_date` on `a/b/y`: month-first when that is a valid date, else
      day-first, and when neither is valid no stage accepts the text and the
      call never returns; `parse_datetime` gives the same date at midnight. */
  lemma SlashDate(a: string, b: string, y: string)
    requires Numeral(a, 1, 2) && Numeral(b, 1, 2) && Numeral(y, 4, 4)
    ensures ParseDate(SlashText(a, b, y)) ==
      match RegionalDate(a, b, y)
      case Some(d) => Done(d)
      case None => Diverges
    ensures ParseDateTime(SlashText(a, b, y)) ==
      match RegionalDate(a, b, y)
      case Some(d) => Done(Midnight(d))
      case None => Diverges
  {
    DateStagesOnSlash(a, b, y);
    DateTimeStagesOnSlash(a, b, y);
  }

  lemma SlashExampleText(a: string, b: string, y: string)
    ensures SlashText(a, b, y) == a + "/" + b + "/" + y
  {
    Concat5(SlashPieces(a, b, y));
  }

  lemma MonthFirstReading()
    ensures SlashText("02", "01", "2022") == "02/01/2022"
    ensures RegionalDate("02", "01", "2022") == Some(Date(2022, 2, 1))
  {
    SlashExampleText("02", "01", "2022");
    TwoDigitValue("02");
    TwoDigitValue("01");
    YearValue("2022");
  }

  /** `"02/01/2022"` is the 1st of February. */
  lemma MonthFirstExample()
    ensures ParseDate("02/01/2022") == Done(Date(2022, 2, 1))
  {
    MonthFirstReading();
    SlashDate("02", "01", "2022");
  }

  lemma DayFirstReading()
    ensures SlashText("13", "01", "2022") == "13/01/2022"
    ensures RegionalDate("13", "01", "2022") == Some(Date(2022, 1, 13))
  {
    SlashExampleText("13", "01", "2022");
    TwoDigitValue("13");
    TwoDigitValue("01");
    YearValue("2022");
  }

  /** `"13/01/2022"`, with no thirteenth month, is the 13th of January. */
  lemma DayFirstExample()
    ensures ParseDate("13/01/2022") == Done(Date(2022, 1, 13))
  {
    DayFirstReading();
    SlashDate("13", "01", "2022");
  }

  lemma SlashMidnightReading()
    ensures SlashText("01", "02", "2022") == "01/02/2022"
    ensures RegionalDate("01", "02", "2022") == Some(Date(2022, 1, 2))
  {
    SlashExampleText("01", "02", "2022");
    TwoDigitValue("01");
    TwoDigitValue("02");
    YearValue("2022");
  }

  /** `"01/02/2022"` comes back from `parse_datetime` at midnight on the 2nd
      of January. */
  lemma SlashMidnightExample()
    ensures ParseDateTime("01/02/2022") == Done(DateTime(Date(2022, 1, 2), 0, 0, 0, None))
  {
    SlashMidnightReading();
    SlashDate("01", "02", "2022");
  }

  // ---------------------------------------------------------------------------
  // Text nothing accepts

  lemma EveryPatternOpensWithDigits()
    ensures forall i :: 0 <= i < |DatePatterns| ==> DatePatterns[i].pattern[0].Digits? && DatePatterns[i].pattern[0].lo >= 1
    ensures forall i :: 0 <= i < |DateTimePatterns| ==> DateTimePatterns[i].pattern[0].Digits? && DateTimePatterns[i].pattern[0].lo >= 1
    ensures forall i :: 0 <= i < |IsoDateTimeForms| ==> IsoDateTimeForms[i].pattern[0] == D4
  {
  }

  /** Text that opens with a non-digit and has no `T`, `/` or `-` (such as
      `"abc"` or `""`) is accepted by no stage of either parser, so both
      recurse until `RecursionError`. */
  lemma NoDigitsDiverge(s: string)
    requires s == [] || !IsDigit(s[0])
    requires 'T' !in s && '/' !in s && '-' !in s
    ensures ParseDate(s).Diverges? && ParseDateTime(s).Diverges?
  {
    NoDigitsNoStage(s);
  }

  lemma NoDigitsNoStage(s: string)
    requires s == [] || !IsDigit(s[0])
    requires 'T' !in s && '/' !in s && '-' !in s
    ensures DateStages(s).None? && DateTimeStages(s).None?
  {
    NoDigitsMissIso(s);
    NoDigitsMissTables(s);
    if ' ' in s {
      var part := Split(s, ' ')[0];
      SplitJoin(s, ' ');
      if '-' in part { JoinHeadIn(Split(s, ' '), ' ', '-'); }
      if '/' in part { JoinHeadIn(Split(s, ' '), ' ', '/'); }
    }
  }

  /** Text that opens with no digit fits no ISO form. */
  lemma NoDigitsMissIso(s: string)
    requires s == [] || !IsDigit(s[0])
    ensures IsoScan(IsoDateTimeForms, s).None? && IsoScan(IsoDateForms, s).None?
  {
    assert LeadingDigits(s) == 0;
    EveryPatternOpensWithDigits();
    forall i | 0 <= i < |IsoDateTimeForms| ensures TryStrptime(IsoDateTimeForms[i], s).None? {
      TooFewLeadingDigits(IsoDateTimeForms[i].pattern, s);
    }
    IsoScanMiss(IsoDateTimeForms, s);
    IsoScanMiss(IsoDateForms, s);
  }

  /** Text that opens with no digit fits no pattern of either table. */
  lemma NoDigitsMissTables(s: string)
    requires s == [] || !IsDigit(s[0])
    ensures Scan(DatePatterns, s).None? && Scan(DateTimePatterns, s).None?
  {
    assert LeadingDigits(s) == 0;
    EveryPatternOpensWithDigits();
    forall i | 0 <= i < |DatePatterns| ensures TryEntry(DatePatterns[i], s).None? {
      TooFewLeadingDigits(DatePatterns[i].pattern, s);
    }
    forall i | 0 <= i < |DateTimePatterns| ensures TryEntry(DateTimePatterns[i], s).None? {
      TooFewLeadingDigits(DateTimePatterns[i].pattern, s);
    }
  }

  /** A character of the first part occurs in the joined text. */
  lemma JoinHeadIn(parts: seq<string>, sep: char, c: char)
    requires |parts| >= 1 && c in parts[0]
    ensures c in Join(parts, sep)
  {
    if |parts| > 1 {
      var j :| 0 <= j < |parts[0]| && parts[0][j] == c;
      assert Join(parts, sep)[j] == c;
    }
  }

  /** `"abc"` raises `RecursionError` in both parsers. */
  lemma AbcDiverges()
    ensures ParseDate("abc").Diverges? && ParseDateTime("abc").Diverges?
  {
    NoDigitsDiverge("abc");
  }

  // ---------------------------------------------------------------------------
  // Two-digit years: `a/b/yy`

  /** A four-digit year does not fit two digits. */
  lemma FourDigitYearMismatch(a: string, b: string, yy: string, q: seq<Tok>)
    requires Numeral(a, 1, 2) && Numeral(b, 1, 2) && Numeral(yy, 2, 2)
    ensures Match(RegionalShape('/', D4) + q, SlashText(a, b, yy)).None?
  {
    SlashTextShape(a, b, yy);
    var p: seq<Tok> := [D1or2, Lit('/'), D1or2, Lit('/')];
    SlashPrefixFits(a, b);
    assert RegionalShape('/', D4) + q == p + ([D4] + q);
    MatchPieces(p, [a, "/", b, "/"], [D4] + q, yy);
    assert yy + "" == yy;
    LeadingDigitsAppend(yy, "");
  }

  /** The text fits `\d{1,2}/\d{1,2}/\d{2}` with its three numbers captured. */
  lemma ShortSlashCaps(a: string, b: string, yy: string)
    requires Numeral(a, 1, 2) && Numeral(b, 1, 2) && Numeral(yy, 2, 2)
    ensures Match(RegionalShape('/', D2), SlashText(a, b, yy)) == Some([Num(DigitsValue(a)), Num(DigitsValue(b)), Num(DigitsValue(yy))])
  {
    ShortSlashFits(a, b, yy);
    MatchWhole(RegionalShape('/', D2), SlashPieces(a, b, yy));
  }

  lemma ShortSlashFits(a: string, b: string, yy: string)
    requires Numeral(a, 1, 2) && Numeral(b, 1, 2) && Numeral(yy, 2, 2)
    ensures Fits(RegionalShape('/', D2), SlashPieces(a, b, yy))
    ensures PieceCaps(RegionalShape('/', D2), SlashPieces(a, b, yy))
      == [Num(DigitsValue(a)), Num(DigitsValue(b)), Num(DigitsValue(yy))]
  {
    Fits5(RegionalShape('/', D2), SlashPieces(a, b, yy));
  }

  /** On `a/b/yy` every date pattern but the two two-digit slash entries fails. */
  lemma ShortDateEntriesMiss(a: string, b: string, yy: string)
    requires Numeral(a, 1, 2) && Numeral(b, 1, 2) && Numeral(yy, 2, 2)
    ensures forall i :: 0 <= i < |DatePatterns| && i != 4 && i != 8 ==> TryEntry(DatePatterns[i], SlashText(a, b, yy)).None?
  {
    var s := SlashText(a, b, yy);
    SlashTextShape(a, b, yy);
    TooFewLeadingDigits(YmdShape('-'), s);
    TooFewLeadingDigits(YmdShape('/'), s);
    FourDigitYearMismatch(a, b, yy, []);
    DashMismatch(a, b, yy, D4, []);
    DashMismatch(a, b, yy, D2, []);
    assert RegionalShape('/', D4) + [] == RegionalShape('/', D4);
    assert RegionalShape('-', D4) + [] == RegionalShape('-', D4);
    assert RegionalShape('-', D2) + [] == RegionalShape('-', D2);
  }

  /** The `%m/%d/%y` entry reads month `a`, day `b`, in the year `%y` gives. */
  lemma MonthFirstShortEntry(a: string, b: string, yy: string, year: int)
    requires Numeral(a, 1, 2) && Numeral(b, 1, 2) && Numeral(yy, 2, 2)
    requires 1969 <= year <= 2068 && year % 100 == DigitsValue(yy)
    ensures DateOf(TryEntry(DatePatterns[4], SlashText(a, b, yy))) == MakeDate(year, DigitsValue(a), DigitsValue(b))
  {
    ShortSlashCaps(a, b, yy);
    TwoDigitValue(yy);
    TwoDigitYearStrptime(DigitsValue(a), DigitsValue(b), DigitsValue(yy), year);
  }

  /** The `%d/%m/%y` entry reads day `a`, month `b`, in the year `%y` gives. */
  lemma DayFirstShortEntry(a: string, b: string, yy: string, year: int)
    requires Numeral(a, 1, 2) && Numeral(b, 1, 2) && Numeral(yy, 2, 2)
    requires 1969 <= year <= 2068 && year % 100 == DigitsValue(yy)
    ensures DateOf(TryEntry(DatePatterns[8], SlashText(a, b, yy))) == MakeDate(year, DigitsValue(b), DigitsValue(a))
  {
    ShortSlashCaps(a, b, yy);
    TwoDigitValue(yy);
    TwoDigitYearStrptime(DigitsValue(b), DigitsValue(a), DigitsValue(yy), year);
  }

  /** The date table reads `a/b/yy` month-first, then day-first, in the
      year of 1969..2068 ending in `yy`. */
  lemma DateScanOnShortSlash(a: string, b: string, yy: string, year: int)
    requires Numeral(a, 1, 2) && Numeral(b, 1, 2) && Numeral(yy, 2, 2)
    requires 1969 <= year <= 2068 && year % 100 == DigitsValue(yy)
    ensures DateScan(SlashText(a, b, yy)) == Readings(a, b, year)
  {
    var s := SlashText(a, b, yy);
    ShortDateEntriesMiss(a, b, yy);
    MonthFirstShortEntry(a, b, yy, year);
    DayFirstShortEntry(a, b, yy, year);
    if TryEntry(DatePatterns[4], s).Some? {
      ScanFirstHit(DatePatterns, s, 4);
    } else if TryEntry(DatePatterns[8], s).Some? {
      ScanFirstHit(DatePatterns, s, 8);
    } else {
      assert Scan(DatePatterns, s).None?;
    }
  }

  /** No datetime pattern accepts `a/b/yy`. */
  lemma DateTimeEntriesOnShortSlash(a: string, b: string, yy: string)
    requires Numeral(a, 1, 2) && Numeral(b, 1, 2) && Numeral(yy, 2, 2)
    ensures Scan(DateTimePatterns, SlashText(a, b, yy)).None?
  {
    var s := SlashText(a, b, yy);
    SlashTextShape(a, b, yy);
    forall i | 0 <= i < 5 ensures TryEntry(DateTimePatterns[i], s).None? {
      TooFewLeadingDigits(DateTimePatterns[i].pattern, s);
    }
    FourDigitYearMismatch(a, b, yy, [Lit(' ')] + ClockShape(D1or2) + [Lit(' '), OneOf("AP"), Lit('M')]);
    FourDigitYearMismatch(a, b, yy, [Lit(' ')] + ClockShape(D2));
    DashMismatch(a, b, yy, D4, [Lit(' ')] + ClockShape(D2));
    assert RegionalShape('/', D4) + [Lit(' ')] + ClockShape(D1or2) + [Lit(' '), OneOf("AP"), Lit('M')]
      == RegionalShape('/', D4) + ([Lit(' ')] + ClockShape(D1or2) + [Lit(' '), OneOf("AP"), Lit('M')]);
    assert RegionalShape('/', D4) + [Lit(' ')] + ClockShape(D2) == RegionalShape('/', D4) + ([Lit(' ')] + ClockShape(D2));
    assert RegionalShape('-', D4) + [Lit(' ')] + ClockShape(D2) == RegionalShape('-', D4) + ([Lit(' ')] + ClockShape(D2));
    assert forall i :: 0 <= i < |DateTimePatterns| ==> TryEntry(DateTimePatterns[i], s).None?;
  }

  /** The split fallback needs a four-digit piece, which `a/b/yy` lacks. */
  lemma ManualOnShortSlash(a: string, b: string, yy: string)
    requires Numeral(a, 1, 2) && Numeral(b, 1, 2) && Numeral(yy, 2, 2)
    ensures ManualDate(SlashText(a, b, yy), '/').None? && ManualDate(SlashText(a, b, yy), '-').None?
  {
    SlashSplit(a, b, yy);
    SlashTextChars(a, b, yy, '-');
  }

  lemma DateStagesOnShortSlash(a: string, b: string, yy: string, year: int)
    requires Numeral(a, 1, 2) && Numeral(b, 1, 2) && Numeral(yy, 2, 2)
    requires 1969 <= year <= 2068 && year % 100 == DigitsValue(yy)
    ensures DateStages(SlashText(a, b, yy)) == Readings(a, b, year)
  {
    var s := SlashText(a, b, yy);
    SlashTextChars(a, b, yy, 'T');
    SlashTextChars(a, b, yy, ' ');
    IsoOnSlash(a, b, yy);
    assert DateFastPath(s).None?;
    DateScanOnShortSlash(a, b, yy, year);
    ManualOnShortSlash(a, b, yy);
  }

  lemma DateTimeStagesOnShortSlash(a: string, b: string, yy: string)
    requires Numeral(a, 1, 2) && Numeral(b, 1, 2) && Numeral(yy, 2, 2)
    ensures DateTimeStages(SlashText(a, b, yy)).None?
  {
    SlashTextChars(a, b, yy, 'T');
    IsoOnSlash(a, b, yy);
    DateTimeEntriesOnShortSlash(a, b, yy);
  }

  /** `parse_date` on `a/b/yy`: the year is the one of 1969..2068 ending in
      `yy`; month-first when that is a valid date, else day-first, else the
      call never returns. `parse_datetime` gives the same date at midnight. */
  lemma ShortSlashDate(a: string, b: string, yy: string, year: int)
    requires Numeral(a, 1, 2) && Numeral(b, 1, 2) && Numeral(yy, 2, 2)
    requires 1969 <= year <= 2068 && year % 100 == DigitsValue(yy)
    ensures ParseDate(SlashText(a, b, yy)) ==
      match Readings(a, b, year)
      case Some(d) => Done(d)
      case None => Diverges
    ensures ParseDateTime(SlashText(a, b, yy)) ==
      match Readings(a, b, year)
      case Some(d) => Done(Midnight(d))
      case None => Diverges
  {
    DateStagesOnShortSlash(a, b, yy, year);
    DateTimeStagesOnShortSlash(a, b, yy);
  }

  lemma LastCenturyReading()
    ensures SlashText("01", "02", "69") == "01/02/69"
    ensures DigitsValue("69") == 69
    ensures Readings("01", "02", 1969) == Some(Date(1969, 1, 2))
  {
    SlashExampleText("01", "02", "69");
    TwoDigitValue("01");
    TwoDigitValue("02");
    TwoDigitValue("69");
  }

  /** `"01/02/69"` is the 2nd of January 1969. */
  lemma LastCenturyExample()
    ensures ParseDate("01/02/69") == Done(Date(1969, 1, 2))
  {
    LastCenturyReading();
    ShortSlashDate("01", "02", "69", 1969);
  }

  lemma ThisCenturyReading()
    ensures SlashText("01", "02", "68") == "01/02/68"
    ensures DigitsValue("68") == 68
    ensures Readings("01", "02", 2068) == Some(Date(2068, 1, 2))
  {
    SlashExampleText("01", "02", "68");
    TwoDigitValue("01");
    TwoDigitValue("02");
    TwoDigitValue("68");
  }

  /** `"01/02/68"` is the 2nd of January 2068. */
  lemma ThisCenturyExample()
    ensures ParseDate("01/02/68") == Done(Date(2068, 1, 2))
  {
    ThisCenturyReading();
    ShortSlashDate("01", "02", "68", 2068);
  }

  // ---------------------------------------------------------------------------
  // The twelve-hour clock: `a/b/yyyy h:mm:ss AM` or `PM`

  /** `h:mm` after the date. */
  const ClockHead: seq<Tok> := [Lit(' '), D1or2, Lit(':'), D2]
  /** `:ss AM` or `:ss PM`, up to the `M`. */
  const ClockTail: seq<Tok> := [Lit(':'), D2, Lit(' '), OneOf("AP")]

  function ClockPieces(a: string, b: string, y: string, h: string, mi: string, sec: string, c: char): seq<string> {
    SlashPieces(a, b, y) + [" ", h, ":", mi] + [":", sec, " ", [c]] + ["M"]
  }

  /** `a/b/y h:mi:sec cM`. */
  function ClockText(a: string, b: string, y: string, h: string, mi: string, sec: string, c: char): string {
    a + "/" + b + "/" + y + " " + h + ":" + mi + ":" + sec + " " + [c] + "M"
  }

  /** The twelve-hour entry of the datetime table is the date, then the
      clock, then the meridiem. */
  lemma TwelveHourPattern()
    ensures DateTimePatterns[5].pattern == RegionalShape('/', D4) + ClockHead + ClockTail + [Lit('M')]
    ensures DateTimePatterns[5].format == Directives([Month, Day, Year4, Hour12, Minute, Second, AmPm])
  {
  }

  lemma ClockPartsFit(h: string, mi: string, sec: string, c: char)
    requires Numeral(h, 1, 2) && Numeral(mi, 2, 2) && Numeral(sec, 2, 2)
    requires c == 'A' || c == 'P'
    ensures Fits(ClockHead, [" ", h, ":", mi]) && PieceCaps(ClockHead, [" ", h, ":", mi]) == [Num(DigitsValue(h)), Num(DigitsValue(mi))]
    ensures Fits(ClockTail, [":", sec, " ", [c]]) && PieceCaps(ClockTail, [":", sec, " ", [c]]) == [Num(DigitsValue(sec)), Sym(c)]
  {
    Fits4(ClockHead, [" ", h, ":", mi]);
    Fits4(ClockTail, [":", sec, " ", [c]]);
  }

  /** Everything after the date: `h:mm:ss AM` or `PM`. */
  lemma ClockRestFits(h: string, mi: string, sec: string, c: char)
    requires Numeral(h, 1, 2) && Numeral(mi, 2, 2) && Numeral(sec, 2, 2)
    requires c == 'A' || c == 'P'
    ensures Fits(ClockHead + ClockTail + [Lit('M')], [" ", h, ":", mi] + [":", sec, " ", [c]] + ["M"])
    ensures PieceCaps(ClockHead + ClockTail + [Lit('M')], [" ", h, ":", mi] + [":", sec, " ", [c]] + ["M"])
      == [Num(DigitsValue(h)), Num(DigitsValue(mi)), Num(DigitsValue(sec)), Sym(c)]
  {
    ClockPartsFit(h, mi, sec, c);
    FitsJoin(ClockHead, [" ", h, ":", mi], [Num(DigitsValue(h)), Num(DigitsValue(mi))],
             ClockTail, [":", sec, " ", [c]], [Num(DigitsValue(sec)), Sym(c)]);
    FitsCons([Lit('M')], ["M"]);
    FitsJoin(ClockHead + ClockTail, [" ", h, ":", mi] + [":", sec, " ", [c]], [Num(DigitsValue(h)), Num(DigitsValue(mi)), Num(DigitsValue(sec)), Sym(c)],
             [Lit('M')], ["M"], []);
  }

  lemma ClockFits(a: string, b: string, y: string, h: string, mi: string, sec: string, c: char)
    requires Numeral(a, 1, 2) && Numeral(b, 1, 2) && Numeral(y, 4, 4) && Numeral(h, 1, 2) && Numeral(mi, 2, 2) && Numeral(sec, 2, 2)
    requires c == 'A' || c == 'P'
    ensures Fits(DateTimePatterns[5].pattern, ClockPieces(a, b, y, h, mi, sec, c))
    ensures PieceCaps(DateTimePatterns[5].pattern, ClockPieces(a, b, y, h, mi, sec, c))
      == [Num(DigitsValue(a)), Num(DigitsValue(b)), Num(DigitsValue(y)), Num(DigitsValue(h)), Num(DigitsValue(mi)),
          Num(DigitsValue(sec)), Sym(c)]
  {
    var p1, w1 := RegionalShape('/', D4), SlashPieces(a, b, y);
    var p2, w2 := ClockHead + ClockTail + [Lit('M')], [" ", h, ":", mi] + [":", sec, " ", [c]] + ["M"];
    SlashFits(a, b, y);
    ClockRestFits(h, mi, sec, c);
    assert w2[0] == " ";
    FitsJoin(p1, w1, [Num(DigitsValue(a)), Num(DigitsValue(b)), Num(DigitsValue(y))],
             p2, w2, [Num(DigitsValue(h)), Num(DigitsValue(mi)), Num(DigitsValue(sec)), Sym(c)]);
    TwelveHourPattern();
    assert p1 + p2 == DateTimePatterns[5].pattern;
    assert w1 + w2 == ClockPieces(a, b, y, h, mi, sec, c);
  }

  /** The twelve-hour entry reads the clock text: the hour on the 12-hour
      clock, turned into the 24-hour one, with the date month-first. */
  lemma TwelveHourEntry(a: string, b: string, y: string, h: string, mi: string, sec: string, c: char)
    requires Numeral(a, 1, 2) && Numeral(b, 1, 2) && Numeral(y, 4, 4) && Numeral(h, 1, 2) && Numeral(mi, 2, 2) && Numeral(sec, 2, 2)
    requires c == 'A' || c == 'P'
    ensures var hour := DigitsValue(h);
      var t := DateTime(Date(DigitsValue(y), DigitsValue(a), DigitsValue(b)), if 1 <= hour <= 12 then ClockHour(hour, c == 'P') else 0,
                        DigitsValue(mi), DigitsValue(sec), None);
      TryEntry(DateTimePatterns[5], ClockText(a, b, y, h, mi, sec, c)) ==
        if 1 <= hour <= 12 && ValidDateTime(t) then Some(t) else None
  {
    ClockFits(a, b, y, h, mi, sec, c);
    ClockTextSpelled(a, b, y, h, mi, sec, c);
    MatchWhole(DateTimePatterns[5].pattern, ClockPieces(a, b, y, h, mi, sec, c));
    TwelveHourStrptime(DigitsValue(a), DigitsValue(b), DigitsValue(y), DigitsValue(h), DigitsValue(mi), DigitsValue(sec), c);
  }

  /** The clock text opens with the digits of `a`, and has no `T`. */
  lemma ClockTextShape(a: string, b: string, y: string, h: string, mi: string, sec: string, c: char)
    requires Numeral(a, 1, 2) && Numeral(b, 1, 2) && Numeral(y, 4, 4) && Numeral(h, 1, 2) && Numeral(mi, 2, 2) && Numeral(sec, 2, 2)
    requires c == 'A' || c == 'P'
    ensures LeadingDigits(ClockText(a, b, y, h, mi, sec, c)) == |a|
    ensures 'T' !in ClockText(a, b, y, h, mi, sec, c)
  {
    ClockTextLead(a, b, y, h, mi, sec, c);
    ClockTextNoT(a, b, y, h, mi, sec, c);
  }

  lemma ClockTextLead(a: string, b: string, y: string, h: string, mi: string, sec: string, c: char)
    requires AllDigits(a)
    ensures LeadingDigits(ClockText(a, b, y, h, mi, sec, c)) == |a|
  {
    var tail := "/" + b + "/" + y + " " + h + ":" + mi + ":" + sec + " " + [c] + "M";
    assert ClockText(a, b, y, h, mi, sec, c) == a + tail;
    LeadingDigitsAppend(a, tail);
  }

  lemma ClockTextNoT(a: string, b: string, y: string, h: string, mi: string, sec: string, c: char)
    requires AllDigits(a) && AllDigits(b) && AllDigits(y) && AllDigits(h) && AllDigits(mi) && AllDigits(sec)
    requires c == 'A' || c == 'P'
    ensures 'T' !in ClockText(a, b, y, h, mi, sec, c)
  {
    var ws := ClockPieces(a, b, y, h, mi, sec, c);
    ClockTextSpelled(a, b, y, h, mi, sec, c);
    ConcatContains(ws, 'T');
    forall i | 0 <= i < |ws| ensures 'T' !in ws[i] {
      if i == 0 { NoDigitIn(a, 'T'); }
      else if i == 2 { NoDigitIn(b, 'T'); }
      else if i == 4 { NoDigitIn(y, 'T'); }
      else if i == 6 { NoDigitIn(h, 'T'); }
      else if i == 8 { NoDigitIn(mi, 'T'); }
      else if i == 10 { NoDigitIn(sec, 'T'); }
    }
  }

  /** `parse_datetime` on `a/b/yyyy h:mm:ss AM` or `PM`: when the month-first
      reading is a valid datetime it is the answer, with the hour on the
      24-hour clock (12 AM is 0, 12 PM is 12) and minute and second as
      written. */
  lemma TwelveHourParse(a: string, b: string, y: string, h: string, mi: string, sec: string, c: char)
    requires Numeral(a, 1, 2) && Numeral(b, 1, 2) && Numeral(y, 4, 4) && Numeral(h, 1, 2) && Numeral(mi, 2, 2) && Numeral(sec, 2, 2)
    requires c == 'A' || c == 'P'
    ensures var hour := DigitsValue(h);
      1 <= hour <= 12 ==>
      var t := DateTime(Date(DigitsValue(y), DigitsValue(a), DigitsValue(b)), ClockHour(hour, c == 'P'), DigitsValue(mi), DigitsValue(sec), None);
      ValidDateTime(t) ==> ParseDateTime(ClockText(a, b, y, h, mi, sec, c)) == Done(t)
  {
    var s := ClockText(a, b, y, h, mi, sec, c);
    ClockTextShape(a, b, y, h, mi, sec, c);
    TwelveHourEntry(a, b, y, h, mi, sec, c);
    EveryPatternOpensWithDigits();
    forall i | 0 <= i < |IsoDateTimeForms| ensures TryStrptime(IsoDateTimeForms[i], s).None? {
      TooFewLeadingDigits(IsoDateTimeForms[i].pattern, s);
    }
    IsoScanMiss(IsoDateTimeForms, s);
    forall i | 0 <= i < 5 ensures TryEntry(DateTimePatterns[i], s).None? {
      TooFewLeadingDigits(DateTimePatterns[i].pattern, s);
    }
    if TryEntry(DateTimePatterns[5], s).Some? {
      ScanFirstHit(DateTimePatterns, s, 5);
    }
  }

  lemma ClockTextSpelled(a: string, b: string, y: string, h: string, mi: string, sec: string, c: char)
    ensures Concat(ClockPieces(a, b, y, h, mi, sec, c)) == ClockText(a, b, y, h, mi, sec, c)
  {
    var w1, w2, w3 := SlashPieces(a, b, y), [" ", h, ":", mi], [":", sec, " ", [c]];
    ConcatAppend(w1 + w2 + w3, ["M"]);
    ConcatAppend(w1 + w2, w3);
    ConcatAppend(w1, w2);
    Concat5(w1);
    Concat4(w2);
    Concat4(w3);
    assert Concat(["M"]) == "M";
  }

  lemma AfternoonText()
    ensures ClockText("01", "02", "2022", "03", "45", "00", 'P') == "01/02/2022 03:45:00 PM"
  {
  }

  lemma AfternoonReading()
    ensures DigitsValue("01") == 1 && DigitsValue("02") == 2 && DigitsValue("2022") == 2022
    ensures DigitsValue("03") == 3 && DigitsValue("45") == 45 && DigitsValue("00") == 0
  {
    TwoDigitValue("01");
    TwoDigitValue("02");
    YearValue("2022");
    TwoDigitValue("03");
    TwoDigitValue("45");
    TwoDigitValue("00");
  }

  /** `"01/02/2022 03:45:00 PM"` is a quarter to four in the afternoon on the
      2nd of January 2022. */
  lemma AfternoonExample()
    ensures ParseDateTime("01/02/2022 03:45:00 PM") == Done(DateTime(Date(2022, 1, 2), 15, 45, 0, None))
  {
    AfternoonText();
    AfternoonReading();
    TwelveHourParse("01", "02", "2022", "03", "45", "00", 'P');
  }

  // ---------------------------------------------------------------------------
  // A date and a time joined by something other than `T` or a space

  /** `YYYY-MM-DD`, then `c`, then `HH:MM:SS`. */
  function JoinedStamp(t: PyDateTime, c: char): string {
    TemporalText.DateText(t.date) + [c] + TemporalText.ClockText(t)
  }

  /** Three numerals of a date, four, two and two digits long. */
  predicate DateRuns(y: string, m: string, d: string) {
    Numeral(y, 4, 4) && Numeral(m, 2, 2) && Numeral(d, 2, 2)
  }

  /** Text made of digits and colons that ends with a digit, as `HH:MM:SS`. */
  predicate ClockRun(clock: string) {
    clock != [] && IsDigit(clock[|clock| - 1]) && forall ch :: ch in clock ==> IsDigit(ch) || ch == ':'
  }

  /** `y-m-d`, then `c`, then the clock. */
  function JoinedText(y: string, m: string, d: string, c: char, clock: string): string {
    y + "-" + m + "-" + d + [c] + clock
  }

  /** The stamp of a datetime is its date's three numerals, `c` and its clock. */
  lemma JoinedStampText(t: PyDateTime, c: char)
    ensures var ws := TemporalText.DatePieces(t.date);
      DateRuns(ws[0], ws[2], ws[4]) && ClockRun(TemporalText.ClockText(t)) &&
      JoinedStamp(t, c) == JoinedText(ws[0], ws[2], ws[4], c, TemporalText.ClockText(t))
  {
    Concat5(TemporalText.DatePieces(t.date));
    PadLength(t.date.year, 4);
    PadLength(t.date.month, 2);
    PadLength(t.date.day, 2);
    TemporalText.ClockTextShape(t);
  }

  lemma JoinedTextShape(y: string, m: string, d: string, c: char, clock: string)
    requires DateRuns(y, m, d) && ClockRun(clock)
    requires c != 'T' && c != ' ' && !IsDigit(c)
    ensures 'T' !in JoinedText(y, m, d, c, clock) && ' ' !in JoinedText(y, m, d, c, clock)
    ensures LeadingDigits(JoinedText(y, m, d, c, clock)) == 4 && JoinedText(y, m, d, c, clock)[4] == '-'
  {
    NoDigitIn(y, 'T');
    NoDigitIn(m, 'T');
    NoDigitIn(d, 'T');
    NoDigitIn(y, ' ');
    NoDigitIn(m, ' ');
    NoDigitIn(d, ' ');
    var tail := "-" + m + "-" + d + [c] + clock;
    assert JoinedText(y, m, d, c, clock) == y + tail;
    LeadingDigitsAppend(y, tail);
  }

  lemma YmdFits(y: string, m: string, d: string)
    requires DateRuns(y, m, d)
    ensures Fits(YmdShape('-'), [y, "-", m, "-", d])
  {
    Fits5(YmdShape('-'), [y, "-", m, "-", d]);
  }

  /** A pattern that opens with `YYYY-MM-DD` and then asks for something the
      rest of the text does not start with does not match. */
  lemma PastDateMiss(p: seq<Tok>, y: string, m: string, d: string, rest: string)
    requires DateRuns(y, m, d)
    requires |p| >= 5 && p[..5] == YmdShape('-')
    requires rest != [] && !IsDigit(rest[0]) && Match(p[5..], rest).None?
    ensures Match(p, y + "-" + m + "-" + d + rest).None?
  {
    YmdFits(y, m, d);
    Concat5([y, "-", m, "-", d]);
    assert p == YmdShape('-') + p[5..];
    MatchPieces(YmdShape('-'), [y, "-", m, "-", d], p[5..], rest);
  }

  /** `\d{4}/` does not match four digits and a dash. */
  lemma SlashAfterYearMiss(p: seq<Tok>, s: string)
    requires |p| >= 2 && p[0] == D4 && p[1] == Lit('/')
    requires LeadingDigits(s) == 4 && |s| > 4 && s[4] == '-'
    ensures Match(p, s).None?
  {
    assert s[4..][0] == '-';
  }

  lemma TooManyLeadingDigits(p: seq<Tok>, s: string)
    requires p != [] && p[0].Digits? && LeadingDigits(s) > p[0].hi
    ensures Match(p, s).None?
  {
  }

  lemma JoinedMissesIso(y: string, m: string, d: string, c: char, clock: string)
    requires DateRuns(y, m, d) && ClockRun(clock)
    requires c != 'T' && c != ' ' && !IsDigit(c)
    ensures IsoDateTime(JoinedText(y, m, d, c, clock)).None? && IsoDate(JoinedText(y, m, d, c, clock)).None?
  {
    var s, rest := JoinedText(y, m, d, c, clock), [c] + clock;
    assert s == y + "-" + m + "-" + d + rest;
    forall i | 0 <= i < |IsoDateTimeForms| ensures TryStrptime(IsoDateTimeForms[i], s).None? {
      PastDateMiss(IsoDateTimeForms[i].pattern, y, m, d, rest);
    }
    IsoScanMiss(IsoDateTimeForms, s);
    IsoScanMiss(IsoDateForms, s);
  }

  lemma JoinedMissesDates(y: string, m: string, d: string, c: char, clock: string)
    requires DateRuns(y, m, d) && ClockRun(clock)
    requires c != 'T' && c != ' ' && !IsDigit(c)
    ensures Scan(DatePatterns, JoinedText(y, m, d, c, clock)).None?
  {
    var s, rest := JoinedText(y, m, d, c, clock), [c] + clock;
    assert s == y + "-" + m + "-" + d + rest;
    JoinedTextShape(y, m, d, c, clock);
    PastDateMiss(DatePatterns[0].pattern, y, m, d, rest);
    SlashAfterYearMiss(DatePatterns[1].pattern, s);
    RegionalEntriesMiss(s);
  }

  /** Text that opens with more than two digits fits no regional entry. */
  lemma RegionalEntriesMiss(s: string)
    requires LeadingDigits(s) > 2
    ensures forall i :: 2 <= i < |DatePatterns| ==> TryEntry(DatePatterns[i], s).None?
  {
    forall i | 2 <= i < |DatePatterns| ensures TryEntry(DatePatterns[i], s).None? {
      TooManyLeadingDigits(DatePatterns[i].pattern, s);
    }
  }

  lemma JoinedMissesDateTimes(y: string, m: string, d: string, c: char, clock: string)
    requires DateRuns(y, m, d) && ClockRun(clock)
    requires c != 'T' && c != ' ' && !IsDigit(c)
    ensures Scan(DateTimePatterns, JoinedText(y, m, d, c, clock)).None?
  {
    var s := JoinedText(y, m, d, c, clock);
    JoinedMissesIsoEntries(y, m, d, c, clock);
    JoinedTextShape(y, m, d, c, clock);
    forall i | 5 <= i < |DateTimePatterns| ensures TryEntry(DateTimePatterns[i], s).None? {
      TooManyLeadingDigits(DateTimePatterns[i].pattern, s);
    }
  }

  /** The entries of the datetime table that open with a year. */
  lemma JoinedMissesIsoEntries(y: string, m: string, d: string, c: char, clock: string)
    requires DateRuns(y, m, d) && ClockRun(clock)
    requires c != 'T' && c != ' ' && !IsDigit(c)
    ensures forall i :: 0 <= i < 5 ==> TryEntry(DateTimePatterns[i], JoinedText(y, m, d, c, clock)).None?
  {
    var s := JoinedText(y, m, d, c, clock);
    JoinedMissesStampEntries(y, m, d, c, clock);
    JoinedTextShape(y, m, d, c, clock);
    SlashAfterYearMiss(DateTimePatterns[4].pattern, s);
  }

  /** The four entries that open with `YYYY-MM-DD` then ask for `T` or a space. */
  lemma JoinedMissesStampEntries(y: string, m: string, d: string, c: char, clock: string)
    requires DateRuns(y, m, d) && ClockRun(clock)
    requires c != 'T' && c != ' ' && !IsDigit(c)
    ensures forall i :: 0 <= i < 4 ==> Match(DateTimePatterns[i].pattern, JoinedText(y, m, d, c, clock)).None?
  {
    var s, rest := JoinedText(y, m, d, c, clock), [c] + clock;
    assert s == y + "-" + m + "-" + d + rest;
    forall i | 0 <= i < 4 ensures Match(DateTimePatterns[i].pattern, s).None? {
      PastDateMiss(DateTimePatterns[i].pattern, y, m, d, rest);
    }
  }

  /** `int()` rejects text that opens and ends with a digit and has a
      non-digit inside. */
  lemma NotAnInt(w: string, i: nat)
    requires 0 < i < |w| && IsDigit(w[0]) && IsDigit(w[|w| - 1]) && !IsDigit(w[i])
    ensures PyInt(w).None?
  {
    StripUnchanged(w);
  }

  /** Split on `/`, the text has at most two parts. */
  lemma JoinedSlashSplit(y: string, m: string, d: string, c: char, clock: string)
    requires DateRuns(y, m, d) && ClockRun(clock)
    requires c != 'T' && c != ' ' && !IsDigit(c)
    ensures ManualDate(JoinedText(y, m, d, c, clock), '/').None?
  {
    var date, s := y + "-" + m + "-" + d, JoinedText(y, m, d, c, clock);
    NoDigitIn(y, '/');
    NoDigitIn(m, '/');
    NoDigitIn(d, '/');
    if c == '/' {
      assert Join([date, clock], '/') == s by { assert [date, clock][1..] == [clock]; }
      SplitUnique(s, '/', [date, clock]);
    }
  }

  /** Split on `-`, the text has four parts, or three of which the last,
      `DD?HH:MM:SS`, is no integer. */
  lemma JoinedDashSplit(y: string, m: string, d: string, c: char, clock: string)
    requires DateRuns(y, m, d) && ClockRun(clock)
    requires c != 'T' && c != ' ' && !IsDigit(c)
    ensures ManualDate(JoinedText(y, m, d, c, clock), '-').None?
  {
    var s := JoinedText(y, m, d, c, clock);
    NoDigitIn(y, '-');
    NoDigitIn(m, '-');
    NoDigitIn(d, '-');
    if c == '-' {
      assert Join([y, m, d, clock], '-') == s by {
        assert [y, m, d, clock][1..] == [m, d, clock] && [m, d, clock][1..] == [d, clock] && [d, clock][1..] == [clock];
        assert Join([d, clock], '-') == d + "-" + clock;
        assert Join([m, d, clock], '-') == m + "-" + (d + "-" + clock);
        assert [c] == "-";
      }
      SplitUnique(s, '-', [y, m, d, clock]);
    } else {
      var last := d + [c] + clock;
      assert Join([y, m, last], '-') == s by {
        assert [y, m, last][1..] == [m, last] && [m, last][1..] == [last];
        assert Join([m, last], '-') == m + "-" + last;
      }
      SplitUnique(s, '-', [y, m, last]);
      assert last[2] == c && last[|last| - 1] == clock[|clock| - 1];
      NotAnInt(last, 2);
    }
  }

  lemma JoinedNoStage(y: string, m: string, d: string, c: char, clock: string)
    requires DateRuns(y, m, d) && ClockRun(clock)
    requires c != 'T' && c != ' ' && !IsDigit(c)
    ensures DateStages(JoinedText(y, m, d, c, clock)).None? && DateTimeStages(JoinedText(y, m, d, c, clock)).None?
  {
    JoinedTextShape(y, m, d, c, clock);
    JoinedMissesIso(y, m, d, c, clock);
    JoinedMissesDates(y, m, d, c, clock);
    JoinedMissesDateTimes(y, m, d, c, clock);
    JoinedSlashSplit(y, m, d, c, clock);
    JoinedDashSplit(y, m, d, c, clock);
  }

  /** A datetime written with any separator other than `T`, a space or a
      digit (`2022-01-01t10:30:00`, `2022-01-01_10:30:00`) is read by no
      stage: `fromisoformat` as modelled takes only `T` or a space there, no
      table pattern matches, and the split fallbacks fail, so both parsers
      recurse until `RecursionError`. */
  lemma OtherSeparatorDiverges(t: PyDateTime, c: char)
    requires c != 'T' && c != ' ' && !IsDigit(c)
    ensures ParseDate(JoinedStamp(t, c)).Diverges? && ParseDateTime(JoinedStamp(t, c)).Diverges?
  {
    var ws := TemporalText.DatePieces(t.date);
    JoinedStampText(t, c);
    JoinedNoStage(ws[0], ws[2], ws[4], c, TemporalText.ClockText(t));
  }
  lemma LowercaseTReading()
    ensures JoinedText("2022", "01", "01", 't', "10:30:00") == "2022-01-01t10:30:00"
    ensures DateRuns("2022", "01", "01") && ClockRun("10:30:00")
  {
    var clock := "10:30:00";
    forall ch | ch in clock ensures IsDigit(ch) || ch == ':' {
      var k :| 0 <= k < |clock| && clock[k] == ch;
    }
  }

  /** `"2022-01-01t10:30:00"`, with a lower-case `t`, makes both parsers
      recurse until `RecursionError`. */
  lemma LowercaseTDiverges()
    ensures ParseDate("2022-01-01t10:30:00").Diverges? && ParseDateTime("2022-01-01t10:30:00").Diverges?
  {
    LowercaseTReading();
    JoinedNoStage("2022", "01", "01", 't', "10:30:00");
  }

  // ---------------------------------------------------------------------------
  // A space-separated stamp with a trailing `Z`

  /** The pieces of `YYYY-MM-DD` and of `HH:MM:SS`, as written, with neither
      a `T` nor a space among them. */
  predicate StampRuns(ds: seq<string>, cs: seq<string>) {
    Fits(YmdShape('-'), ds) && Fits(ClockShape(D2), cs) &&
    'T' !in Concat(ds) && ' ' !in Concat(ds) && 'T' !in Concat(cs) && ' ' !in Concat(cs)
  }

  /** The date, a space, the clock, then `Z`. */
  function SpacedZulu(ds: seq<string>, cs: seq<string>): string {
    Concat(ds + [" "] + cs) + "Z"
  }

  /** `YYYY-MM-DD HH:MM:SSZ` for a datetime. The `Z` is replaced only in text
      that holds a `T`, and `fromisoformat` up to Python 3.10 rejects it. */
  function SpacedZuluText(t: PyDateTime): string {
    SpacedZulu(TemporalText.DatePieces(t.date), TemporalText.ClockPieces(t))
  }

  lemma SpacedZuluSplit(ds: seq<string>, cs: seq<string>)
    ensures SpacedZulu(ds, cs) == Concat(ds) + (" " + (Concat(cs) + "Z"))
  {
    var date, clock := Concat(ds), Concat(cs);
    ConcatAppend(ds + [" "], cs);
    ConcatAppend(ds, [" "]);
    assert Concat([" "]) == " " + Concat([]);
    assert Concat(ds + [" "] + cs) == date + " " + clock;
    AppendAssoc(date, " ", clock);
    AppendAssoc(date, " " + clock, "Z");
    AppendAssoc(" ", clock, "Z");
  }

  /** The stamp fits both the table's space entry and the ISO stamp form. */
  lemma SpacedFits(ds: seq<string>, cs: seq<string>)
    requires Fits(YmdShape('-'), ds) && Fits(ClockShape(D2), cs)
    ensures Fits(YmdShape('-') + [Lit(' ')] + ClockShape(D2), ds + [" "] + cs)
    ensures Fits(StampShape, ds + [" "] + cs)
  {
    var lit, one: seq<Tok> := [Lit(' ')], [OneOf("T ")];
    assert Fits(lit, [" "]) && Fits(one, [" "]);
    FitsJoin(YmdShape('-'), ds, PieceCaps(YmdShape('-'), ds), lit, [" "], PieceCaps(lit, [" "]));
    FitsJoin(YmdShape('-') + lit, ds + [" "], PieceCaps(YmdShape('-') + lit, ds + [" "]), ClockShape(D2), cs, PieceCaps(ClockShape(D2), cs));
    FitsJoin(YmdShape('-'), ds, PieceCaps(YmdShape('-'), ds), one, [" "], PieceCaps(one, [" "]));
    FitsJoin(YmdShape('-') + one, ds + [" "], PieceCaps(YmdShape('-') + one, ds + [" "]), ClockShape(D2), cs, PieceCaps(ClockShape(D2), cs));
  }

  /** `fromisoformat` reads neither the date alone, the naive stamp nor an
      offset. */
  lemma SpacedZuluMissesIso(ds: seq<string>, cs: seq<string>)
    requires Fits(YmdShape('-'), ds) && Fits(ClockShape(D2), cs)
    ensures IsoDateTime(SpacedZulu(ds, cs)).None?
  {
    var s := SpacedZulu(ds, cs);
    SpacedZuluMissesDateForm(ds, cs);
    SpacedZuluMissesStampForms(ds, cs);
    IsoScanSkip(IsoOffsetForm, [], s);
    IsoScanSkip(IsoStampForm, [IsoOffsetForm], s);
    IsoScanSkip(IsoDateForm, [IsoStampForm, IsoOffsetForm], s);
  }

  lemma SpacedZuluMissesDateForm(ds: seq<string>, cs: seq<string>)
    requires Fits(YmdShape('-'), ds)
    ensures TryStrptime(IsoDateForm, SpacedZulu(ds, cs)).None?
  {
    SpacedZuluSplit(ds, cs);
    assert IsoDateForm.pattern == YmdShape('-') + [];
    TryPastPieces(IsoDateForm, YmdShape('-'), [], ds, " " + (Concat(cs) + "Z"));
  }

  lemma SpacedZuluMissesStampForms(ds: seq<string>, cs: seq<string>)
    requires Fits(YmdShape('-'), ds) && Fits(ClockShape(D2), cs)
    ensures TryStrptime(IsoStampForm, SpacedZulu(ds, cs)).None?
    ensures TryStrptime(IsoOffsetForm, SpacedZulu(ds, cs)).None?
  {
    var ws := ds + [" "] + cs;
    SpacedFits(ds, cs);
    TryTooLong(IsoStampForm, ws, "Z");
    assert Match(OffsetShape, "Z").None?;
    TryPastPieces(IsoOffsetForm, StampShape, OffsetShape, ws, "Z");
  }

  /** The datetime entries that want a `T` after the date. */
  lemma SpacedZuluMissesTEntries(ds: seq<string>, cs: seq<string>)
    requires Fits(YmdShape('-'), ds)
    ensures forall i :: 0 <= i < 3 ==> TryEntry(DateTimePatterns[i], SpacedZulu(ds, cs)).None?
  {
    var s, rest := SpacedZulu(ds, cs), " " + (Concat(cs) + "Z");
    SpacedZuluSplit(ds, cs);
    forall i | 0 <= i < 3 ensures Match(DateTimePatterns[i].pattern, s).None? {
      var p := DateTimePatterns[i].pattern;
      assert p == YmdShape('-') + p[5..] && p[5..][0] == Lit('T');
      MatchPieces(YmdShape('-'), ds, p[5..], rest);
    }
  }

  /** The text opens with the four digits of the year and a dash. */
  lemma SpacedZuluYear(ds: seq<string>, cs: seq<string>)
    requires Fits(YmdShape('-'), ds)
    ensures LeadingDigits(SpacedZulu(ds, cs)) == 4 && SpacedZulu(ds, cs)[4] == '-'
    ensures |Concat(ds)| > 4 && Concat(ds)[4] == '-'
  {
    assert PieceFits(D4, ds[0]) && ds[1] == "-";
    Concat5(ds);
    var tail := ds[1] + ds[2] + ds[3] + ds[4] + (" " + (Concat(cs) + "Z"));
    SpacedZuluSplit(ds, cs);
    assert SpacedZulu(ds, cs) == ds[0] + tail;
    LeadingDigitsAppend(ds[0], tail);
    assert Concat(ds) == ds[0] + (ds[1] + ds[2] + ds[3] + ds[4]);
  }

  lemma SpacedZuluMissesDateTimes(ds: seq<string>, cs: seq<string>)
    requires Fits(YmdShape('-'), ds) && Fits(ClockShape(D2), cs)
    ensures Scan(DateTimePatterns, SpacedZulu(ds, cs)).None?
  {
    var s := SpacedZulu(ds, cs);
    SpacedZuluMissesTEntries(ds, cs);
    SpacedZuluMissesSpaceEntry(ds, cs);
    SpacedZuluMissesLaterEntries(ds, cs);
    assert forall i :: 0 <= i < |DateTimePatterns| ==> TryEntry(DateTimePatterns[i], s).None?;
    ScanMiss(DateTimePatterns, s);
  }

  /** `YYYY-MM-DD HH:MM:SS` stops short of the `Z`. */
  lemma SpacedZuluMissesSpaceEntry(ds: seq<string>, cs: seq<string>)
    requires Fits(YmdShape('-'), ds) && Fits(ClockShape(D2), cs)
    ensures TryEntry(DateTimePatterns[3], SpacedZulu(ds, cs)).None?
  {
    SpacedFits(ds, cs);
    assert DateTimePatterns[3].pattern == YmdShape('-') + [Lit(' ')] + ClockShape(D2);
    TryTooLong(DateTimePatterns[3], ds + [" "] + cs, "Z");
  }

  /** The entries that open with `YYYY/` or with a one- or two-digit run. */
  lemma SpacedZuluMissesLaterEntries(ds: seq<string>, cs: seq<string>)
    requires Fits(YmdShape('-'), ds)
    ensures forall i :: 4 <= i < |DateTimePatterns| ==> TryEntry(DateTimePatterns[i], SpacedZulu(ds, cs)).None?
  {
    var s := SpacedZulu(ds, cs);
    SpacedZuluYear(ds, cs);
    SlashAfterYearMiss(DateTimePatterns[4].pattern, s);
    forall i | 5 <= i < |DateTimePatterns| ensures TryEntry(DateTimePatterns[i], s).None? {
      TooManyLeadingDigits(DateTimePatterns[i].pattern, s);
    }
  }

  /** `parse_date`'s space branch hands the part before the space to
      `date.fromisoformat`. */
  lemma SpacedZuluDate(ds: seq<string>, cs: seq<string>)
    requires StampRuns(ds, cs)
    ensures 'T' !in SpacedZulu(ds, cs)
    ensures DateFastPath(SpacedZulu(ds, cs)) == IsoDate(Concat(ds))
  {
    var s, date, clock := SpacedZulu(ds, cs), Concat(ds), Concat(cs) + "Z";
    SpacedZuluSplit(ds, cs);
    TemporalText.NotInAppend(Concat(cs), "Z", 'T');
    TemporalText.NotInAppend(" ", clock, 'T');
    TemporalText.NotInAppend(date, " " + clock, 'T');
    TemporalText.NotInAppend(Concat(cs), "Z", ' ');
    assert s[|date|] == ' ';
    assert Join([date, clock], ' ') == s by {
      assert [date, clock][1..] == [clock];
    }
    SplitUnique(s, ' ', [date, clock]);
    SpacedZuluYear(ds, cs);
    assert '-' in date by { assert date[4] == '-'; }
  }

  /** No stage of `parse_datetime` reads the text, and `parse_date` reads
      its date: `parse_datetime` answers at midnight. */
  lemma SpacedZuluStages(ds: seq<string>, cs: seq<string>)
    requires StampRuns(ds, cs)
    ensures DateTimeStages(SpacedZulu(ds, cs)).None?
    ensures DateFastPath(SpacedZulu(ds, cs)) == IsoDate(Concat(ds))
    ensures IsoDate(Concat(ds)).Some? ==>
              ParseDateTime(SpacedZulu(ds, cs)) == Done(Midnight(IsoDate(Concat(ds)).value)) &&
              ParseDate(SpacedZulu(ds, cs)) == Done(IsoDate(Concat(ds)).value)
  {
    SpacedZuluDate(ds, cs);
    SpacedZuluMissesIso(ds, cs);
    SpacedZuluMissesDateTimes(ds, cs);
  }

  /** A datetime's pieces hold no `T` and no space. */
  lemma SpacedZuluRuns(t: PyDateTime)
    ensures StampRuns(TemporalText.DatePieces(t.date), TemporalText.ClockPieces(t))
    ensures IsoDate(TemporalText.DateText(t.date)) == Some(t.date)
  {
    TemporalText.DatePiecesFit(t.date);
    TemporalText.ClockPiecesFit(t);
    TemporalText.DateTextChars(t.date, 'T');
    TemporalText.DateTextChars(t.date, ' ');
    TemporalText.ClockTextChars(t, 'T');
    TemporalText.ClockTextChars(t, ' ');
    TemporalText.IsoDateOfText(t.date);
  }

  /** `"YYYY-MM-DD HH:MM:SSZ"` comes back from `parse_datetime` at midnight
      of its date, and from `parse_date` as that date: neither
      `fromisoformat` (up to Python 3.10) nor any table pattern reads the
      time, and `parse_date` reads the part before the space. */
  lemma SpacedZuluAtMidnight(t: PyDateTime)
    ensures ParseDateTime(SpacedZuluText(t)) == Done(Midnight(t.date))
    ensures ParseDate(SpacedZuluText(t)) == Done(t.date)
  {
    SpacedZuluRuns(t);
    SpacedZuluStages(TemporalText.DatePieces(t.date), TemporalText.ClockPieces(t));
  }

  /** `date.fromisoformat` on `y-m-d` written with four, two and two digits. */
  lemma IsoDateOfRuns(y: string, m: string, d: string)
    requires DateRuns(y, m, d) && ValidDate(Date(DigitsValue(y), DigitsValue(m), DigitsValue(d)))
    ensures IsoDate(Concat([y, "-", m, "-", d])) == Some(Date(DigitsValue(y), DigitsValue(m), DigitsValue(d)))
  {
    var ds := [y, "-", m, "-", d];
    var date: PyDate := Date(DigitsValue(y), DigitsValue(m), DigitsValue(d));
    Fits5(YmdShape('-'), ds);
    assert PieceCaps(YmdShape('-'), ds) == TemporalText.DateCaps(date);
    MatchWhole(YmdShape('-'), ds);
    TemporalText.StrptimeDate(date);
  }

  /** Three numerals of a clock, each two digits long. */
  predicate ClockRuns(h: string, mi: string, sec: string) {
    Numeral(h, 2, 2) && Numeral(mi, 2, 2) && Numeral(sec, 2, 2)
  }

  lemma NumeralsText(a: string, b: string, c: string, sep: string)
    ensures Concat([a, sep, b, sep, c]) == a + sep + b + sep + c
  {
    Concat5([a, sep, b, sep, c]);
  }

  lemma NoLetterInRuns(a: string, b: string, c: string, sep: char, x: char)
    requires AllDigits(a) && AllDigits(b) && AllDigits(c) && !IsDigit(x) && x != sep
    ensures x !in a + [sep] + b + [sep] + c
  {
    NoDigitIn(a, x);
    NoDigitIn(b, x);
    NoDigitIn(c, x);
    TemporalText.NotInAppend(a, [sep], x);
    TemporalText.NotInAppend(a + [sep], b, x);
    TemporalText.NotInAppend(a + [sep] + b, [sep], x);
    TemporalText.NotInAppend(a + [sep] + b + [sep], c, x);
  }

  lemma StampRunsOfNumerals(y: string, m: string, d: string, h: string, mi: string, sec: string)
    requires DateRuns(y, m, d) && ClockRuns(h, mi, sec)
    ensures StampRuns([y, "-", m, "-", d], [h, ":", mi, ":", sec])
  {
    Fits5(YmdShape('-'), [y, "-", m, "-", d]);
    Fits5(ClockShape(D2), [h, ":", mi, ":", sec]);
    NumeralsText(y, m, d, "-");
    NumeralsText(h, mi, sec, ":");
    NoLetterInRuns(y, m, d, '-', 'T');
    NoLetterInRuns(y, m, d, '-', ' ');
    NoLetterInRuns(h, mi, sec, ':', 'T');
    NoLetterInRuns(h, mi, sec, ':', ' ');
  }

  /** The text of `y-m-d h:mi:secZ`, piece by piece. */
  function SpacedNumerals(y: string, m: string, d: string, h: string, mi: string, sec: string): string {
    y + "-" + m + "-" + d + " " + h + ":" + mi + ":" + sec + "Z"
  }

  lemma SpacedNumeralsText(y: string, m: string, d: string, h: string, mi: string, sec: string)
    ensures SpacedZulu([y, "-", m, "-", d], [h, ":", mi, ":", sec]) == SpacedNumerals(y, m, d, h, mi, sec)
  {
    var date, clock := y + "-" + m + "-" + d, h + ":" + mi + ":" + sec;
    NumeralsText(y, m, d, "-");
    NumeralsText(h, mi, sec, ":");
    SpacedZuluSplit([y, "-", m, "-", d], [h, ":", mi, ":", sec]);
    assert clock + "Z" == h + ":" + mi + ":" + sec + "Z";
    assert " " + (clock + "Z") == " " + h + ":" + mi + ":" + sec + "Z";
    assert date + (" " + (clock + "Z")) == y + "-" + m + "-" + d + (" " + h + ":" + mi + ":" + sec + "Z");
  }

  /** `y-m-d h:mi:secZ` written with numerals comes back at midnight of its
      date. */
  lemma SpacedZuluOfRuns(y: string, m: string, d: string, h: string, mi: string, sec: string)
    requires DateRuns(y, m, d) && ClockRuns(h, mi, sec)
    requires ValidDate(Date(DigitsValue(y), DigitsValue(m), DigitsValue(d)))
    ensures ParseDateTime(SpacedNumerals(y, m, d, h, mi, sec))
      == Done(DateTime(Date(DigitsValue(y), DigitsValue(m), DigitsValue(d)), 0, 0, 0, None))
  {
    StampRunsOfNumerals(y, m, d, h, mi, sec);
    IsoDateOfRuns(y, m, d);
    NumeralsText(y, m, d, "-");
    SpacedZuluStages([y, "-", m, "-", d], [h, ":", mi, ":", sec]);
    SpacedNumeralsText(y, m, d, h, mi, sec);
  }

  lemma SpacedZuluReading()
    ensures SpacedNumerals("2022", "01", "01", "10", "30", "00") == "2022-01-01 10:30:00Z"
    ensures DigitsValue("2022") == 2022 && DigitsValue("01") == 1
  {
    YearValue("2022");
    TwoDigitValue("01");
  }

  /** `"2022-01-01 10:30:00Z"` is midnight on the 1st of January 2022. */
  lemma SpacedZuluExample()
    ensures ParseDateTime("2022-01-01 10:30:00Z") == Done(DateTime(Date(2022, 1, 1), 0, 0, 0, None))
  {
    SpacedZuluReading();
    SpacedZuluOfRuns("2022", "01", "01", "10", "30", "00");
  }
}
