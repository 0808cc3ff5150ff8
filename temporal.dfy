/** `parse_date` and `parse_datetime` (polarity/caster.py:136-315) on text:
    staged first-success parsers, and the unbounded mutual recursion between
    them that ends in `RecursionError` for text no stage accepts. */
module Temporal {
  import opened Wrappers
  import opened Text
  import opened Calendar
  import opened Patterns

  function DateOf(t: Option<PyDateTime>): (r: Option<PyDate>)
    ensures r.Some? <==> t.Some?
    ensures r.Some? ==> r.value == t.value.date
  {
    match t
    case None => None
    case Some(dt) => Some(dt.date)
  }

  // ---------------------------------------------------------------------------
  // parse_date's stages

  /** `date(int(y), int(m), int(d))`, with any `ValueError` as `None`. */
  function DateFromParts(y: string, m: string, d: string): (r: Option<PyDate>)
    ensures r.Some? ==> PyInt(y) == Some(r.value.year) && PyInt(m) == Some(r.value.month) && PyInt(d) == Some(r.value.day)
  {
    match (PyInt(y), PyInt(m), PyInt(d))
    case (Some(yy), Some(mm), Some(dd)) => MakeDate(yy, mm, dd)
    case _ => None
  }

  /** `year, month, day = map(int, part.split('/'))` then `date(...)`. */
  function SlashTriple(part: string): Option<PyDate> {
    var ps := Split(part, '/');
    if |ps| == 3 then DateFromParts(ps[0], ps[1], ps[2]) else None
  }

  /** The `try` block of polarity/caster.py:147-165. */
  function DateFastPath(s: string): Option<PyDate> {
    if 'T' in s then IsoDate(Split(s, 'T')[0])
    else if ' ' in s then
      var part := Split(s, ' ')[0];
      if '-' in part then IsoDate(part)
      else if '/' in part then SlashTriple(part)
      else None
    else IsoDate(s)
  }

  /** The loop over `date_patterns`. */
  function DateScan(s: string): Option<PyDate> {
    DateOf(Scan(DatePatterns, s))
  }

  /** The split fallback of polarity/caster.py:177-212 for one separator:
      year first when the first piece has four characters, otherwise,
      when the last piece has four, month-first before day-first. */
  function ManualDate(s: string, sep: char): Option<PyDate> {
    if sep !in s then None
    else
      var parts := Split(s, sep);
      if |parts| != 3 then None
      else if |parts[0]| == 4 then DateFromParts(parts[0], parts[1], parts[2])
      else if |parts[2]| == 4 then
        DateFromParts(parts[2], parts[0], parts[1]).OrElse(DateFromParts(parts[2], parts[1], parts[0]))
      else None
  }

  /** Everything `parse_date` tries before it hands the text to
      `parse_datetime`. */
  function DateStages(s: string): Option<PyDate> {
    DateFastPath(s).OrElse(DateScan(s)).OrElse(ManualDate(s, '/')).OrElse(ManualDate(s, '-'))
  }

  // ---------------------------------------------------------------------------
  // parse_datetime's stages

  /** `value.find("T") < value.find("-", value.find("T"))`: a `-` after the
      first `T`. */
  predicate DashAfterT(s: string)
    requires 'T' in s
  {
    '-' in s[IndexOf(s, 'T') + 1..]
  }

  /** The `try` block of polarity/caster.py:232-261. */
  function DateTimeFastPath(s: string): Option<PyDateTime> {
    if 'T' in s then
      if EndsWith(s, 'Z') then IsoDateTime(ReplaceAll(s, 'Z', "+00:00"))
      else if '+' in s || DashAfterT(s) then
        IsoDateTime(s).OrElse(if CompactOffsetAtEnd(s) then IsoDateTime(FixCompactOffset(s)) else None)
      else IsoDateTime(s)
    else IsoDateTime(s)
  }

  /** Everything `parse_datetime` tries before it hands the text to
      `parse_date`. */
  function DateTimeStages(s: string): Option<PyDateTime> {
    DateTimeFastPath(s).OrElse(Scan(DateTimePatterns, s))
  }

  // ---------------------------------------------------------------------------
  // The mutual recursion

  /** Python's default recursion limit. */
  const RecursionLimit: nat := 1000

  /** `parse_date(s)` with `depth` calls left before `RecursionError`. */
  function ParseDateAt(s: string, depth: nat): Outcome<PyDate>
    decreases depth
  {
    match DateStages(s)
    case Some(d) => Done(d)
    case None =>
      if depth == 0 then Diverges
      else match ParseDateTimeAt(s, depth - 1)
        case Done(t) => Done(t.date)
        case Diverges => Diverges
  }

  /** `parse_datetime(s)` with `depth` calls left before `RecursionError`. */
  function ParseDateTimeAt(s: string, depth: nat): Outcome<PyDateTime>
    decreases depth
  {
    match DateTimeStages(s)
    case Some(t) => Done(t)
    case None =>
      if depth == 0 then Diverges
      else match ParseDateAt(s, depth - 1)
        case Done(d) => Done(Midnight(d))
        case Diverges => Diverges
  }

  /** Text that neither parser's own stages accept never comes back, however
      deep the stack. */
  lemma {:induction false} Unparseable(s: string, depth: nat)
    requires DateStages(s).None? && DateTimeStages(s).None?
    ensures ParseDateAt(s, depth).Diverges? && ParseDateTimeAt(s, depth).Diverges?
    decreases depth
  {
    if depth > 0 {
      Unparseable(s, depth - 1);
    }
  }

  /** One round trip through the other parser decides the outcome. */
  lemma ParseCollapse(s: string, depth: nat)
    requires depth >= 1
    ensures ParseDateAt(s, depth) ==
      if DateStages(s).Some? then Done(DateStages(s).value)
      else if DateTimeStages(s).Some? then Done(DateTimeStages(s).value.date)
      else Diverges
    ensures ParseDateTimeAt(s, depth) ==
      if DateTimeStages(s).Some? then Done(DateTimeStages(s).value)
      else if DateStages(s).Some? then Done(Midnight(DateStages(s).value))
      else Diverges
  {
    if DateStages(s).None? && DateTimeStages(s).None? {
      Unparseable(s, depth);
    }
  }

  /** `parse_date(s)` for text: its own stages, then `parse_datetime`'s; text
      neither accepts raises `RecursionError` (`Diverges`). The closed form
      of the mutual recursion; `ParseMatchesRecursion` ties the two. */
  function ParseDate(s: string): Outcome<PyDate> {
    match DateStages(s)
    case Some(d) => Done(d)
    case None => (
      match DateTimeStages(s)
      case Some(t) => Done(t.date)
      case None => Diverges)
  }

  /** `parse_datetime(s)` for text: its own stages, then `parse_date`'s at
      midnight; text neither accepts raises `RecursionError`. */
  function ParseDateTime(s: string): Outcome<PyDateTime> {
    match DateTimeStages(s)
    case Some(t) => Done(t)
    case None => (
      match DateStages(s)
      case Some(d) => Done(Midnight(d))
      case None => Diverges)
  }

  /** What the `try` block of `parse_datetime` returns is the answer. */
  lemma FastPathDecides(s: string, t: PyDateTime)
    requires DateTimeFastPath(s) == Some(t)
    ensures ParseDateTime(s) == Done(t)
  {
  }

  /** The two parsers, calling each other with Python's default stack, come
      to the closed forms above. */
  lemma ParseMatchesRecursion(s: string)
    ensures ParseDateAt(s, RecursionLimit) == ParseDate(s)
    ensures ParseDateTimeAt(s, RecursionLimit) == ParseDateTime(s)
  {
    ParseCollapse(s, RecursionLimit);
  }

  /** Both parsers stop on exactly the same texts. */
  lemma SameDomain(s: string)
    ensures ParseDate(s).Diverges? <==> ParseDateTime(s).Diverges?
  {
  }
}

module TemporalText {
  import opened Wrappers
  import opened Text
  import opened Calendar
  import opened Patterns
  import opened Temporal

  // ---------------------------------------------------------------------------
  // How Python writes dates and datetimes

  /** The pieces of `date.isoformat()`: `YYYY-MM-DD`. */
  function DatePieces(d: PyDate): seq<string> {
    NumeralTriple(d.year, 4, '-', d.month, d.day)
  }

  /** Three zero-padded numerals, the first `w` wide and the others two wide,
      joined by `sep`: the layout of `YYYY-MM-DD` and of `HH:MM:SS`. */
  function NumeralTriple(a: nat, w: nat, sep: char, b: nat, c: nat): seq<string> {
    [Pad(a, w), [sep], Pad(b, 2), [sep], Pad(c, 2)]
  }

  /** `str(d)` for a date. */
  function DateText(d: PyDate): string {
    Concat(DatePieces(d))
  }

  /** A zero-padded numeral is one digit run of its width. */
  lemma PadPiece(n: nat, w: nat)
    requires 1 <= w && n < Pow10(w)
    ensures PieceFits(Digits(w, w), Pad(n, w))
    ensures HeadCaps(Digits(w, w), Pad(n, w)) == [Num(n)]
  {
    PadLength(n, w);
  }

  /** Three digit runs joined by a separator that is not a digit fit the
      shape of a triple. */
  lemma RunsFit(x: string, y: string, z: string, w: nat, sep: char, a: nat, b: nat, c: nat)
    requires PieceFits(Digits(w, w), x) && HeadCaps(Digits(w, w), x) == [Num(a)]
    requires PieceFits(D2, y) && HeadCaps(D2, y) == [Num(b)]
    requires PieceFits(D2, z) && HeadCaps(D2, z) == [Num(c)]
    requires !IsDigit(sep)
    ensures Fits([Digits(w, w), Lit(sep), D2, Lit(sep), D2], [x, [sep], y, [sep], z])
    ensures PieceCaps([Digits(w, w), Lit(sep), D2, Lit(sep), D2], [x, [sep], y, [sep], z]) == [Num(a), Num(b), Num(c)]
  {
    Fits5([Digits(w, w), Lit(sep), D2, Lit(sep), D2], [x, [sep], y, [sep], z]);
  }

  /** Each numeral of a triple is one digit run that captures its number. */
  lemma TripleFits(a: nat, w: nat, sep: char, b: nat, c: nat)
    requires 1 <= w && a < Pow10(w) && b < 100 && c < 100 && !IsDigit(sep)
    ensures Fits([Digits(w, w), Lit(sep), D2, Lit(sep), D2], NumeralTriple(a, w, sep, b, c))
    ensures PieceCaps([Digits(w, w), Lit(sep), D2, Lit(sep), D2], NumeralTriple(a, w, sep, b, c))
      == [Num(a), Num(b), Num(c)]
  {
    PadPiece(a, w);
    PadPiece(b, 2);
    PadPiece(c, 2);
    RunsFit(Pad(a, w), Pad(b, 2), Pad(c, 2), w, sep, a, b, c);
  }

  /** What `%Y`, `%m` and `%d` capture from a date's text. */
  function DateCaps(d: PyDate): seq<Cap> {
    [Num(d.year), Num(d.month), Num(d.day)]
  }

  lemma DatePiecesFit(d: PyDate)
    ensures Fits(YmdShape('-'), DatePieces(d))
    ensures PieceCaps(YmdShape('-'), DatePieces(d)) == DateCaps(d)
  {
    TripleFits(d.year, 4, '-', d.month, d.day);
  }

  lemma StrptimeDate(d: PyDate)
    ensures Strptime(YMD, DateCaps(d)) == Some(Midnight(d))
  {
  }

  lemma TryDateText(d: PyDate)
    ensures TryStrptime(IsoDateForm, DateText(d)) == Some(Midnight(d))
  {
    DatePiecesFit(d);
    MatchWhole(YmdShape('-'), DatePieces(d));
    StrptimeDate(d);
  }

  /** `date.fromisoformat` reads back what `date.isoformat` writes. */
  lemma IsoDateOfText(d: PyDate)
    ensures IsoScan(IsoDateForms, DateText(d)) == Some(Midnight(d))
  {
    TryDateText(d);
  }

  lemma IsoDateTimeOfDateText(d: PyDate)
    ensures IsoDateTime(DateText(d)) == Some(Midnight(d))
  {
    TryDateText(d);
  }

  /** A date's text contains digits and dashes only. */
  lemma DateTextChars(d: PyDate, c: char)
    requires !IsDigit(c) && c != '-'
    ensures c !in DateText(d)
  {
    DateTextShape(d);
  }

  /** Reading back the text of a date gives the date. */
  lemma DateTextRoundTrip(d: PyDate)
    ensures ParseDate(DateText(d)) == Done(d)
  {
    var s := DateText(d);
    DateTextChars(d, 'T');
    DateTextChars(d, ' ');
    IsoDateOfText(d);
    assert DateFastPath(s) == Some(d);
  }

  /** Date-only text comes back from `parse_datetime` at midnight. */
  lemma DateTextAtMidnight(d: PyDate)
    ensures ParseDateTime(DateText(d)) == Done(Midnight(d))
  {
    var s := DateText(d);
    DateTextChars(d, 'T');
    IsoDateTimeOfDateText(d);
    assert DateTimeFastPath(s) == Some(Midnight(d));
  }

  // ---------------------------------------------------------------------------
  // Datetimes

  /** The pieces of `HH:MM:SS`. */
  function ClockPieces(t: PyDateTime): seq<string> {
    NumeralTriple(t.hour, 2, ':', t.minute, t.second)
  }

  function SignText(o: int): string {
    if o < 0 then "-" else "+"
  }

  function AbsMinutes(o: int): nat {
    if o < 0 then -o else o
  }

  /** The pieces of a UTC offset written `+HH:MM` or `-HH:MM`. */
  function OffsetPieces(o: int): seq<string> {
    [SignText(o), Pad(AbsMinutes(o) / 60, 2), ":", Pad(AbsMinutes(o) % 60, 2)]
  }

  /** The same offset written `+HHMM` or `-HHMM`. */
  function CompactOffsetText(o: int): string {
    SignText(o) + Pad(AbsMinutes(o) / 60, 2) + Pad(AbsMinutes(o) % 60, 2)
  }

  /** A date, a separator and a clock time. */
  function StampPieces(t: PyDateTime, sep: char): seq<string> {
    DatePieces(t.date) + [[sep]] + ClockPieces(t)
  }


  function OffsetSuffix(t: PyDateTime): seq<string> {
    if t.offset.Some? then OffsetPieces(t.offset.value) else []
  }

  /** A datetime written `YYYY-MM-DD?HH:MM:SS`, then the offset of an aware
      value: `t.isoformat()` with `sep` 'T', `str(t)` with a space. */
  function IsoText(t: PyDateTime, sep: char): string {
    Concat(StampPieces(t, sep) + OffsetSuffix(t))
  }

  /** `str(t)` for a datetime. */
  function DateTimeText(t: PyDateTime): string {
    IsoText(t, ' ')
  }

  /** What `%H`, `%M` and `%S` capture from a clock time's text. */
  function ClockCaps(t: PyDateTime): seq<Cap> {
    [Num(t.hour), Num(t.minute), Num(t.second)]
  }

  /** What a stamp's directives capture: the date, the separator, the time. */
  function StampCaps(t: PyDateTime, sep: char): seq<Cap> {
    DateCaps(t.date) + [Sym(sep)] + ClockCaps(t)
  }

  /** What `%z` captures from an offset written `+HH:MM`: sign, hours, minutes. */
  function OffsetCaps(o: int): seq<Cap> {
    [Sym(SignText(o)[0]), Num(AbsMinutes(o) / 60), Num(AbsMinutes(o) % 60)]
  }

  lemma ClockPiecesFit(t: PyDateTime)
    ensures Fits(ClockShape(D2), ClockPieces(t))
    ensures PieceCaps(ClockShape(D2), ClockPieces(t)) == ClockCaps(t)
  {
    TripleFits(t.hour, 2, ':', t.minute, t.second);
  }

  lemma OffsetPiecesFit(o: int)
    requires -1440 < o < 1440
    ensures Fits(OffsetShape, OffsetPieces(o))
    ensures PieceCaps(OffsetShape, OffsetPieces(o)) == OffsetCaps(o)
  {
    var a := AbsMinutes(o);
    PadPiece(a / 60, 2);
    PadPiece(a % 60, 2);
    Fits4(OffsetShape, OffsetPieces(o));
  }

  /** A date followed by its separator. */
  lemma DateSepFit(d: PyDate, sep: char)
    requires sep == 'T' || sep == ' '
    ensures Fits(YmdShape('-') + [OneOf("T ")], DatePieces(d) + [[sep]])
    ensures PieceCaps(YmdShape('-') + [OneOf("T ")], DatePieces(d) + [[sep]])
      == DateCaps(d) + [Sym(sep)]
  {
    DatePiecesFit(d);
    var sepShape: seq<Tok>, sepPiece: seq<string> := [OneOf("T ")], [[sep]];
    assert Fits(sepShape, sepPiece);
    assert PieceCaps(sepShape, sepPiece) == [Sym(sep)];
    FitsJoin(YmdShape('-'), DatePieces(d), DateCaps(d), sepShape, sepPiece, [Sym(sep)]);
  }

  lemma StampPiecesFit(t: PyDateTime, sep: char)
    requires sep == 'T' || sep == ' '
    ensures Fits(StampShape, StampPieces(t, sep))
    ensures PieceCaps(StampShape, StampPieces(t, sep))
      == StampCaps(t, sep)
  {
    var head, pieces := YmdShape('-') + [OneOf("T ")], DatePieces(t.date) + [[sep]];
    DateSepFit(t.date, sep);
    ClockPiecesFit(t);
    FitsJoin(head, pieces, DateCaps(t.date) + [Sym(sep)], ClockShape(D2), ClockPieces(t), ClockCaps(t));
    assert StampShape == head + ClockShape(D2);
  }

  lemma ZonedPiecesFit(t: PyDateTime, sep: char)
    requires sep == 'T' || sep == ' '
    requires t.offset.Some?
    ensures Fits(StampShape + OffsetShape, StampPieces(t, sep) + OffsetPieces(t.offset.value))
    ensures PieceCaps(StampShape + OffsetShape, StampPieces(t, sep) + OffsetPieces(t.offset.value))
      == StampCaps(t, sep) + OffsetCaps(t.offset.value)
  {
    var o := t.offset.value;
    StampPiecesFit(t, sep);
    OffsetPiecesFit(o);
    FitsJoin(StampShape, StampPieces(t, sep), StampCaps(t, sep), OffsetShape, OffsetPieces(o), OffsetCaps(o));
  }

  function ClockText(t: PyDateTime): string {
    Concat(ClockPieces(t))
  }

  function OffsetText(o: int): string {
    Concat(OffsetPieces(o))
  }

  lemma StampText(t: PyDateTime, sep: char)
    ensures Concat(StampPieces(t, sep)) == DateText(t.date) + [sep] + ClockText(t)
    ensures t.offset.Some? ==>
      Concat(StampPieces(t, sep) + OffsetPieces(t.offset.value)) == DateText(t.date) + [sep] + ClockText(t) + OffsetText(t.offset.value)
  {
    ConcatAppend(DatePieces(t.date), [[sep]]);
    ConcatAppend(DatePieces(t.date) + [[sep]], ClockPieces(t));
    assert Concat([[sep]]) == [sep];
    if t.offset.Some? {
      ConcatAppend(StampPieces(t, sep), OffsetPieces(t.offset.value));
    }
  }

  /** Three digit runs, the last two two digits long, joined by `sep`. */
  lemma RunsText(x: string, y: string, z: string, sep: char)
    requires AllDigits(x) && AllDigits(y) && AllDigits(z) && |y| == 2 && |z| == 2
    ensures |Concat([x, [sep], y, [sep], z])| == |x| + 6
    ensures IsDigit(Concat([x, [sep], y, [sep], z])[|x| + 5])
    ensures forall c :: c in Concat([x, [sep], y, [sep], z]) ==> IsDigit(c) || c == sep
  {
    var text := x + [sep] + y + [sep] + z;
    Concat5([x, [sep], y, [sep], z]);
    assert text[|x| + 5] == z[1];
    forall c | c in text ensures IsDigit(c) || c == sep {
      if !IsDigit(c) && c != sep {
        NoDigitIn(x, c);
        NoDigitIn(y, c);
        NoDigitIn(z, c);
      }
    }
  }

  /** The text of a numeral triple: its length, its last character and its
      alphabet. */
  lemma TripleText(a: nat, w: nat, sep: char, b: nat, c: nat)
    requires 1 <= w && a < Pow10(w) && b < 100 && c < 100
    ensures |Concat(NumeralTriple(a, w, sep, b, c))| == w + 6
    ensures IsDigit(Concat(NumeralTriple(a, w, sep, b, c))[w + 5])
    ensures forall ch :: ch in Concat(NumeralTriple(a, w, sep, b, c)) ==> IsDigit(ch) || ch == sep
  {
    PadLength(a, w);
    PadLength(b, 2);
    PadLength(c, 2);
    RunsText(Pad(a, w), Pad(b, 2), Pad(c, 2), sep);
  }

  lemma DateTextShape(d: PyDate)
    ensures |DateText(d)| == 10
    ensures forall c :: c in DateText(d) ==> IsDigit(c) || c == '-'
  {
    TripleText(d.year, 4, '-', d.month, d.day);
  }

  lemma ClockTextShape(t: PyDateTime)
    ensures |ClockText(t)| == 8 && IsDigit(ClockText(t)[7])
    ensures forall c :: c in ClockText(t) ==> IsDigit(c) || c == ':'
  {
    TripleText(t.hour, 2, ':', t.minute, t.second);
  }

  /** A sign, two digits, a colon and two digits. */
  lemma SignedPairText(sign: string, x: string, y: string)
    requires |sign| == 1 && |x| == 2 && |y| == 2 && AllDigits(x) && AllDigits(y)
    ensures Concat([sign, x, ":", y]) == sign + x + ":" + y
    ensures Concat([sign, x, ":", y])[0] == sign[0] && |Concat([sign, x, ":", y])| == 6
    ensures forall c :: c in Concat([sign, x, ":", y])[1..] ==> IsDigit(c) || c == ':'
  {
    Concat4([sign, x, ":", y]);
    assert (sign + x + ":" + y)[1..] == x + ":" + y;
    forall c | c in x + ":" + y ensures IsDigit(c) || c == ':' {
      if !IsDigit(c) && c != ':' {
        NoDigitIn(x, c);
        NoDigitIn(y, c);
      }
    }
  }

  lemma OffsetTextShape(o: int)
    requires -1440 < o < 1440
    ensures OffsetText(o) == SignText(o) + Pad(AbsMinutes(o) / 60, 2) + ":" + Pad(AbsMinutes(o) % 60, 2)
    ensures OffsetText(o)[0] == SignText(o)[0] && |OffsetText(o)| == 6
    ensures forall c :: c in OffsetText(o)[1..] ==> IsDigit(c) || c == ':'
  {
    PadLength(AbsMinutes(o) / 60, 2);
    PadLength(AbsMinutes(o) % 60, 2);
    SignedPairText(SignText(o), Pad(AbsMinutes(o) / 60, 2), Pad(AbsMinutes(o) % 60, 2));
  }

  /** `%Y-%m-%d` sets the date fields. */
  lemma AssignDate(d: PyDate, f: Fields)
    ensures Assign(YMD, DateCaps(d), f) == Some(f.(year := d.year, month := d.month, day := d.day))
  {
  }

  /** `%H:%M:%S` sets the clock fields. */
  lemma AssignClock(t: PyDateTime, f: Fields)
    ensures Assign(HMS, ClockCaps(t), f) == Some(f.(hour := t.hour, minute := t.minute, second := t.second))
  {
  }

  /** `%z` sets the sign, hours and minutes of the offset. */
  lemma AssignOffset(o: int, f: Fields)
    requires -1440 < o < 1440
    ensures Assign([OffsetSign, OffsetHour, OffsetMinute], OffsetCaps(o), f)
      == Some(f.(zoned := true, negative := o < 0, offsetHour := AbsMinutes(o) / 60, offsetMinute := AbsMinutes(o) % 60))
  {
    assert AbsMinutes(o) % 60 <= 59;
  }

  /** The date, the separator and the clock, one after the other. */
  lemma AssignStamp(t: PyDateTime, sep: char)
    ensures Assign(YMD + [Separator] + HMS, StampCaps(t, sep), Defaults)
      == Some(Defaults.(year := t.date.year, month := t.date.month, day := t.date.day,
                        hour := t.hour, minute := t.minute, second := t.second))
  {
    var ymd, hms := DateCaps(t.date), ClockCaps(t);
    var f1 := Defaults.(year := t.date.year, month := t.date.month, day := t.date.day);
    AssignDate(t.date, Defaults);
    AssignAppend(YMD, ymd, [Separator], [Sym(sep)], Defaults);
    AssignClock(t, f1);
    AssignAppend(YMD + [Separator], ymd + [Sym(sep)], HMS, hms, Defaults);
  }

  lemma StrptimeNaive(t: PyDateTime, sep: char)
    requires t.offset.None?
    ensures Strptime(YMD + [Separator] + HMS, StampCaps(t, sep)) == Some(t)
  {
    AssignStamp(t, sep);
  }

  /** The offset fields put back together give the offset in minutes. */
  lemma OffsetFields(o: int)
    requires -1440 < o < 1440
    ensures (if o < 0 then -1 else 1) * (AbsMinutes(o) / 60 * 60 + AbsMinutes(o) % 60) == o
  {
  }

  lemma StrptimeZoned(t: PyDateTime, sep: char)
    requires t.offset.Some?
    ensures Strptime(YMD + [Separator] + HMS + [OffsetSign, OffsetHour, OffsetMinute],
      StampCaps(t, sep) + OffsetCaps(t.offset.value)) == Some(t)
  {
    var o := t.offset.value;
    var f3 := Defaults.(year := t.date.year, month := t.date.month, day := t.date.day,
                        hour := t.hour, minute := t.minute, second := t.second);
    AssignStamp(t, sep);
    AssignOffset(o, f3);
    AssignAppend(YMD + [Separator] + HMS, StampCaps(t, sep), [OffsetSign, OffsetHour, OffsetMinute], OffsetCaps(o), Defaults);
    OffsetFields(o);
  }

  /** The ISO forms before the last one reject a date followed by more text. */
  lemma DateFormRejectsMore(d: PyDate, rest: string)
    requires rest != [] && !IsDigit(rest[0])
    ensures TryStrptime(IsoDateForm, DateText(d) + rest).None?
  {
    DatePiecesFit(d);
    TryTooLong(IsoDateForm, DatePieces(d), rest);
  }

  lemma NaiveStampForm(t: PyDateTime, sep: char)
    requires t.offset.None? && (sep == 'T' || sep == ' ')
    ensures TryStrptime(IsoStampForm, Concat(StampPieces(t, sep))) == Some(t)
  {
    StampPiecesFit(t, sep);
    MatchWhole(StampShape, StampPieces(t, sep));
    StrptimeNaive(t, sep);
  }

  /** `datetime.fromisoformat` reads back a naive `YYYY-MM-DD?HH:MM:SS`. */
  lemma IsoNaiveStamp(t: PyDateTime, sep: char)
    requires t.offset.None? && (sep == 'T' || sep == ' ')
    ensures IsoDateTime(Concat(StampPieces(t, sep))) == Some(t)
  {
    var s, rest := Concat(StampPieces(t, sep)), [sep] + ClockText(t);
    assert s == DateText(t.date) + rest by {
      StampText(t, sep);
      AppendAssoc(DateText(t.date), [sep], ClockText(t));
    }
    DateFormRejectsMore(t.date, rest);
    NaiveStampForm(t, sep);
    IsoScanTake(IsoStampForm, [IsoOffsetForm], s, t);
    IsoScanSkip(IsoDateForm, [IsoStampForm, IsoOffsetForm], s);
  }

  /** The text of an aware stamp: `Concat(StampPieces)` then the offset. */
  function ZonedText(t: PyDateTime, sep: char): string
    requires t.offset.Some?
  {
    Concat(StampPieces(t, sep) + OffsetPieces(t.offset.value))
  }

  lemma ZonedTextSplit(t: PyDateTime, sep: char)
    requires t.offset.Some?
    ensures ZonedText(t, sep) == Concat(StampPieces(t, sep)) + OffsetText(t.offset.value)
    ensures ZonedText(t, sep) == DateText(t.date) + ([sep] + ClockText(t) + OffsetText(t.offset.value))
  {
    ConcatAppend(StampPieces(t, sep), OffsetPieces(t.offset.value));
    StampText(t, sep);
    AppendAssoc(DateText(t.date), [sep], ClockText(t));
    AppendAssoc(DateText(t.date), [sep] + ClockText(t), OffsetText(t.offset.value));
  }

  lemma ZonedSkipsDateForm(t: PyDateTime, sep: char)
    requires t.offset.Some? && (sep == 'T' || sep == ' ')
    ensures TryStrptime(IsoDateForm, ZonedText(t, sep)).None?
  {
    ZonedTextSplit(t, sep);
    DateFormRejectsMore(t.date, [sep] + ClockText(t) + OffsetText(t.offset.value));
  }

  /** The naive form rejects a stamp followed by a signed offset. */
  lemma StampThenSign(t: PyDateTime, sep: char, rest: string)
    requires sep == 'T' || sep == ' '
    requires rest != [] && (rest[0] == '+' || rest[0] == '-')
    ensures TryStrptime(IsoStampForm, Concat(StampPieces(t, sep)) + rest).None?
  {
    StampPiecesFit(t, sep);
    StampThenMore(StampPieces(t, sep), rest);
  }

  lemma StampThenMore(ws: seq<string>, rest: string)
    requires Fits(StampShape, ws)
    requires rest != [] && !IsDigit(rest[0])
    ensures TryStrptime(IsoStampForm, Concat(ws) + rest).None?
  {
    TryTooLong(IsoStampForm, ws, rest);
  }

  lemma ZonedSkipsNaiveForm(t: PyDateTime, sep: char)
    requires t.offset.Some? && (sep == 'T' || sep == ' ')
    ensures TryStrptime(IsoStampForm, ZonedText(t, sep)).None?
  {
    var x := OffsetText(t.offset.value);
    ZonedTextSplit(t, sep);
    assert x != [] && (x[0] == '+' || x[0] == '-') by { OffsetTextShape(t.offset.value); }
    StampThenSign(t, sep, x);
  }

  lemma ZonedOffsetForm(t: PyDateTime, sep: char)
    requires t.offset.Some? && (sep == 'T' || sep == ' ')
    ensures TryStrptime(IsoOffsetForm, ZonedText(t, sep)) == Some(t)
  {
    ZonedPiecesFit(t, sep);
    MatchWhole(StampShape + OffsetShape, StampPieces(t, sep) + OffsetPieces(t.offset.value));
    StrptimeZoned(t, sep);
  }

  /** `datetime.fromisoformat` reads back an aware `YYYY-MM-DD?HH:MM:SS+HH:MM`. */
  lemma IsoZonedStamp(t: PyDateTime, sep: char)
    requires t.offset.Some? && (sep == 'T' || sep == ' ')
    ensures IsoDateTime(ZonedText(t, sep)) == Some(t)
  {
    var s := ZonedText(t, sep);
    ZonedSkipsDateForm(t, sep);
    ZonedSkipsNaiveForm(t, sep);
    ZonedOffsetForm(t, sep);
    IsoScanTake(IsoOffsetForm, [], s, t);
    IsoScanSkip(IsoStampForm, [IsoOffsetForm], s);
    IsoScanSkip(IsoDateForm, [IsoStampForm, IsoOffsetForm], s);
  }

  lemma NotInAppend(a: string, b: string, c: char)
    requires c !in a && c !in b
    ensures c !in a + b
  {
    forall i | 0 <= i < |a + b| ensures (a + b)[i] != c {
      if i < |a| { assert (a + b)[i] == a[i]; } else { assert (a + b)[i] == b[i - |a|]; }
    }
  }

  lemma ClockTextChars(t: PyDateTime, c: char)
    requires !IsDigit(c) && c != ':'
    ensures c !in ClockText(t)
  {
    ClockTextShape(t);
  }

  lemma OffsetTextChars(o: int, c: char)
    requires -1440 < o < 1440
    requires !IsDigit(c) && c != '-' && c != ':' && c != '+'
    ensures c !in OffsetText(o)
  {
    OffsetTextShape(o);
    var off := OffsetText(o);
    assert off == [off[0]] + off[1..];
    NotInAppend([off[0]], off[1..], c);
  }

  /** Every character of a datetime's text is a digit, a sign, a colon or
      the separator. */
  lemma IsoTextChars(t: PyDateTime, sep: char, c: char)
    requires !IsDigit(c) && c != '-' && c != ':' && c != '+' && c != sep
    ensures c !in IsoText(t, sep)
  {
    StampText(t, sep);
    DateTextChars(t.date, c);
    ClockTextChars(t, c);
    NotInAppend(DateText(t.date), [sep], c);
    NotInAppend(DateText(t.date) + [sep], ClockText(t), c);
    if t.offset.Some? {
      OffsetTextChars(t.offset.value, c);
      NotInAppend(Concat(StampPieces(t, sep)), OffsetText(t.offset.value), c);
      ZonedTextSplit(t, sep);
    } else {
      assert StampPieces(t, sep) + OffsetSuffix(t) == StampPieces(t, sep);
    }
  }

  /** The texts `isoformat()` and `str()` write, read back by `fromisoformat`. */
  lemma IsoTextFromIso(t: PyDateTime, sep: char)
    requires sep == 'T' || sep == ' '
    ensures IsoDateTime(IsoText(t, sep)) == Some(t)
  {
    if t.offset.None? {
      assert StampPieces(t, sep) + OffsetSuffix(t) == StampPieces(t, sep);
      IsoNaiveStamp(t, sep);
    } else {
      IsoZonedStamp(t, sep);
    }
  }

  /** `parse_datetime` reads back what `isoformat()` and `str()` write,
      offset included. */
  lemma IsoTextRoundTrip(t: PyDateTime, sep: char)
    requires sep == 'T' || sep == ' '
    ensures ParseDateTime(IsoText(t, sep)) == Done(t)
  {
    var s := IsoText(t, sep);
    IsoTextFromIso(t, sep);
    IsoTextChars(t, sep, 'Z');
    assert !EndsWith(s, 'Z') by {
      if s != [] { assert s[|s| - 1] in s; }
    }
    if sep == ' ' {
      IsoTextChars(t, sep, 'T');
    }
    assert DateTimeFastPath(s) == Some(t);
    FastPathDecides(s, t);
  }

  /** `str(t)` of a datetime goes back to the same datetime. */
  lemma DateTimeTextRoundTrip(t: PyDateTime)
    ensures ParseDateTime(DateTimeText(t)) == Done(t)
  {
    IsoTextRoundTrip(t, ' ');
  }

  // ---------------------------------------------------------------------------
  // The Zulu and compact-offset spellings

  /** A UTC stamp spelled with a trailing `Z`. */
  function ZuluText(t: PyDateTime): string {
    Concat(StampPieces(t, 'T')) + "Z"
  }

  lemma StampChars(t: PyDateTime, sep: char, c: char)
    requires !IsDigit(c) && c != '-' && c != ':' && c != sep
    ensures c !in Concat(StampPieces(t, sep))
  {
    StampText(t, sep);
    DateTextChars(t.date, c);
    ClockTextChars(t, c);
    NotInAppend(DateText(t.date), [sep], c);
    NotInAppend(DateText(t.date) + [sep], ClockText(t), c);
  }

  /** The stamp's separator sits right after the ten characters of the date. */
  lemma StampSeparator(t: PyDateTime, sep: char)
    ensures |Concat(StampPieces(t, sep))| == 19 && Concat(StampPieces(t, sep))[10] == sep
  {
    var date, clock := DateText(t.date), ClockText(t);
    StampText(t, sep);
    assert |date| == 10 by { DateTextShape(t.date); }
    assert |clock| == 8 by { ClockTextShape(t); }
    assert (date + [sep] + clock)[10] == sep;
  }

  lemma ReplaceTrailingZ(p: string)
    requires 'Z' !in p
    ensures ReplaceAll(p + "Z", 'Z', "+00:00") == p + "+00:00"
  {
    ReplaceAllAppend(p, "Z", 'Z', "+00:00");
    ReplaceAllAbsent(p, 'Z', "+00:00");
    assert ReplaceAll("Z", 'Z', "+00:00") == "+00:00";
  }

  lemma UtcOffsetText()
    ensures OffsetText(0) == "+00:00"
  {
    OffsetPiecesZero();
    UtcOffsetSpelling();
  }

  lemma OffsetPiecesZero()
    ensures OffsetPieces(0) == ["+", "00", ":", "00"]
  {
    var a := AbsMinutes(0);
    assert a == 0;
    assert a / 60 == 0 && a % 60 == 0;
    PadZero();
  }

  lemma PadZero()
    ensures Pad(0, 2) == "00"
  {
    assert NatText(0) == "0";
    assert Zeros(1) == "0";
  }

  lemma UtcOffsetSpelling()
    ensures Concat(["+", "00", ":", "00"]) == "+00:00"
  {
    Concat4(["+", "00", ":", "00"]);
    var u := "+" + "00" + ":" + "00";
    assert |u| == 6;
    assert u[0] == '+' && u[1] == '0' && u[2] == '0' && u[3] == ':' && u[4] == '0' && u[5] == '0';
  }

  lemma ZuluReplaced(t: PyDateTime)
    requires t.offset == Some(0)
    ensures ReplaceAll(ZuluText(t), 'Z', "+00:00") == ZonedText(t, 'T')
  {
    StampChars(t, 'T', 'Z');
    ReplaceTrailingZ(Concat(StampPieces(t, 'T')));
    UtcOffsetText();
    ZonedTextSplit(t, 'T');
  }

  /** A trailing `Z` is read as offset `+00:00`. */
  lemma ZuluTextRoundTrip(t: PyDateTime)
    requires t.offset == Some(0)
    ensures ParseDateTime(ZuluText(t)) == Done(t)
  {
    var s := ZuluText(t);
    assert 'T' in s by {
      StampSeparator(t, 'T');
      assert s[10] == 'T';
    }
    assert EndsWith(s, 'Z');
    ZuluReplaced(t);
    IsoZonedStamp(t, 'T');
    assert DateTimeFastPath(s) == Some(t);
    FastPathDecides(s, t);
  }

  /** An aware stamp whose offset is spelled `+HHMM` or `-HHMM`. */
  function CompactText(t: PyDateTime): string
    requires t.offset.Some?
  {
    Concat(StampPieces(t, 'T')) + CompactOffsetText(t.offset.value)
  }

  /** A sign and two two-digit runs, with and without the colon between. */
  lemma CompactPairText(sign: string, x: string, y: string)
    requires |sign| == 1 && |x| == 2 && |y| == 2 && AllDigits(x) && AllDigits(y)
    ensures |sign + x + y| == 5 && (sign + x + y)[0] == sign[0]
    ensures AllDigits((sign + x + y)[1..])
    ensures sign + x + ":" + y == (sign + x + y)[..3] + ":" + (sign + x + y)[3..]
  {
    var c := sign + x + y;
    assert c[1..] == x + y;
    assert c[..3] == sign + x && c[3..] == y;
  }

  lemma CompactOffsetShape(o: int)
    requires -1440 < o < 1440
    ensures |CompactOffsetText(o)| == 5 && CompactOffsetText(o)[0] == SignText(o)[0]
    ensures AllDigits(CompactOffsetText(o)[1..])
    ensures OffsetText(o) == CompactOffsetText(o)[..3] + ":" + CompactOffsetText(o)[3..]
  {
    var h, m := Pad(AbsMinutes(o) / 60, 2), Pad(AbsMinutes(o) % 60, 2);
    PadLength(AbsMinutes(o) / 60, 2);
    PadLength(AbsMinutes(o) % 60, 2);
    assert OffsetText(o) == SignText(o) + h + ":" + m by { Concat4(OffsetPieces(o)); }
    CompactPairText(SignText(o), h, m);
  }

  /** Four digits do not fit the two-digit hour of `+HH:MM`. */
  lemma CompactMissesOffsetShape(o: int)
    requires -1440 < o < 1440
    ensures Match(OffsetShape, CompactOffsetText(o)).None?
  {
    var c := CompactOffsetText(o);
    CompactOffsetShape(o);
    LeadingDigitsAppend(c[1..], []);
    assert c[1..] + [] == c[1..];
  }

  lemma CompactSkipsDateForm(t: PyDateTime)
    requires t.offset.Some?
    ensures TryStrptime(IsoDateForm, CompactText(t)).None?
  {
    var c := CompactOffsetText(t.offset.value);
    StampText(t, 'T');
    AppendAssoc(DateText(t.date), ['T'], ClockText(t));
    AppendAssoc(DateText(t.date), ['T'] + ClockText(t), c);
    DateFormRejectsMore(t.date, ['T'] + ClockText(t) + c);
  }

  lemma CompactSkipsStampForm(t: PyDateTime)
    requires t.offset.Some?
    ensures TryStrptime(IsoStampForm, CompactText(t)).None?
  {
    var c := CompactOffsetText(t.offset.value);
    assert c != [] && (c[0] == '+' || c[0] == '-') by { CompactOffsetShape(t.offset.value); }
    StampThenSign(t, 'T', c);
  }

  lemma CompactSkipsOffsetForm(t: PyDateTime)
    requires t.offset.Some?
    ensures TryStrptime(IsoOffsetForm, CompactText(t)).None?
  {
    var c := CompactOffsetText(t.offset.value);
    CompactOffsetShape(t.offset.value);
    StampPiecesFit(t, 'T');
    CompactMissesOffsetShape(t.offset.value);
    TryPastPieces(IsoOffsetForm, StampShape, OffsetShape, StampPieces(t, 'T'), c);
  }

  /** `fromisoformat` rejects the compact spelling. */
  lemma CompactIsoRejected(t: PyDateTime)
    requires t.offset.Some?
    ensures IsoDateTime(CompactText(t)).None?
  {
    var s := CompactText(t);
    CompactSkipsDateForm(t);
    CompactSkipsStampForm(t);
    CompactSkipsOffsetForm(t);
    IsoScanSkip(IsoOffsetForm, [], s);
    IsoScanSkip(IsoStampForm, [IsoOffsetForm], s);
    IsoScanSkip(IsoDateForm, [IsoStampForm, IsoOffsetForm], s);
  }

  /** The rewrite on any text ending in a sign and four digits. */
  lemma FixCompactOffsetOf(p: string, c: string)
    requires |c| == 5 && (c[0] == '+' || c[0] == '-') && AllDigits(c[1..])
    ensures CompactOffsetAtEnd(p + c)
    ensures FixCompactOffset(p + c) == p + (c[..3] + ":" + c[3..])
  {
    var s := p + c;
    assert s[|s| - 4..] == c[1..];
    assert s[|s| - 5] == c[0];
    assert s[..|s| - 4] + s[|s| - 4..|s| - 2] == p + c[..3];
    assert s[|s| - 2..] == c[3..];
  }

  lemma CompactFixed(t: PyDateTime)
    requires t.offset.Some?
    ensures CompactOffsetAtEnd(CompactText(t))
    ensures FixCompactOffset(CompactText(t)) == ZonedText(t, 'T')
  {
    var o := t.offset.value;
    CompactOffsetShape(o);
    FixCompactOffsetOf(Concat(StampPieces(t, 'T')), CompactOffsetText(o));
    ZonedTextSplit(t, 'T');
  }

  /** A `+HHMM` or `-HHMM` offset is rewritten to `+HH:MM` and read. */
  lemma CompactOffsetRoundTrip(t: PyDateTime)
    requires t.offset.Some?
    ensures ParseDateTime(CompactText(t)) == Done(t)
  {
    var o := t.offset.value;
    var s := CompactText(t);
    CompactOffsetShape(o);
    StampSeparator(t, 'T');
    assert s[10] == 'T' && s[19] == SignText(o)[0];
    assert !EndsWith(s, 'Z') by { assert s[|s| - 1] == CompactOffsetText(o)[4]; }
    if SignText(o)[0] == '+' {
      assert '+' in s;
    } else {
      var k := IndexOf(s, 'T');
      assert k <= 10;
      assert s[k + 1..][19 - (k + 1)] == '-';
      assert DashAfterT(s);
    }
    CompactIsoRejected(t);
    CompactFixed(t);
    IsoZonedStamp(t, 'T');
    assert DateTimeFastPath(s) == Some(t);
    FastPathDecides(s, t);
  }
}
