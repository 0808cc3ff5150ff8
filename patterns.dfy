/** The constant (regular expression, format) tables of polarity/caster.py
    and the two parsers they drive: `re.match` against a digit-shape pattern
    and `datetime.strptime` with a format, plus `fromisoformat` on
    `YYYY-MM-DD`, optionally followed by `T` or a space and `HH:MM:SS`, then
    optionally by a `+HH:MM`/`-HH:MM` offset, the grammar of Python 3.10 and
    earlier (which reject a trailing `Z`). */
module Patterns {
  import opened Wrappers
  import opened Text
  import opened Calendar

  // ---------------------------------------------------------------------------
  // Digit-shape patterns

  /** One element of an anchored pattern: `\d{lo,hi}`, a literal character,
      or a character class such as `[-+]`. */
  datatype Tok = Digits(lo: nat, hi: nat) | Lit(c: char) | OneOf(cs: string)

  /** What a matched element contributes: the value of a digit run, or the
      character a class matched. Literals contribute nothing. */
  datatype Cap = Num(n: nat) | Sym(c: char)

  function Prepend(c: Cap, rest: Option<seq<Cap>>): Option<seq<Cap>> {
    match rest
    case None => None
    case Some(cs) => Some([c] + cs)
  }

  function Captures(p: seq<Tok>): nat {
    if p == [] then 0 else (if p[0].Lit? then 0 else 1) + Captures(p[1..])
  }

  /** Whether the whole of `s` matches `p` (a pattern written `^...$`), and
      what it captured. A digit run is taken whole: in every pattern below a
      digit run is followed by a non-digit or by the end, so a regular
      expression's backtracking could not match a shorter run either. */
  function Match(p: seq<Tok>, s: string): (r: Option<seq<Cap>>)
    ensures r.Some? ==> |r.value| == Captures(p)
    decreases |p|
  {
    if p == [] then (if s == [] then Some([]) else None)
    else match p[0]
      case Lit(c) => if s != [] && s[0] == c then Match(p[1..], s[1..]) else None
      case OneOf(cs) => if s != [] && s[0] in cs then Prepend(Sym(s[0]), Match(p[1..], s[1..])) else None
      case Digits(lo, hi) =>
        var k := LeadingDigits(s);
        if lo <= k <= hi then Prepend(Num(DigitsValue(s[..k])), Match(p[1..], s[k..])) else None
  }

  /** Text written piece by piece matches the pattern it fits. */
  lemma MatchWhole(p: seq<Tok>, ws: seq<string>)
    requires Fits(p, ws)
    ensures Match(p, Concat(ws)) == Some(PieceCaps(p, ws))
  {
    MatchPieces(p, ws, [], "");
    assert p + [] == p && Concat(ws) + "" == Concat(ws);
    assert Match([], "") == Some([]);
    assert PieceCaps(p, ws) + [] == PieceCaps(p, ws);
  }

  /** Text that goes on past the pattern does not match it. */
  lemma MatchTooLong(p: seq<Tok>, ws: seq<string>, rest: string)
    requires Fits(p, ws) && rest != []
    requires p != [] && p[|p| - 1].Digits? ==> !IsDigit(rest[0])
    ensures Match(p, Concat(ws) + rest).None?
  {
    MatchPieces(p, ws, [], rest);
    assert p + [] == p;
  }

  predicate NonDigit(t: Tok) {
    match t
    case Digits(_, _) => false
    case Lit(c) => !IsDigit(c)
    case OneOf(cs) => forall j :: 0 <= j < |cs| ==> !IsDigit(cs[j])
  }

  /** Sequencing of two match results. */
  function Then(a: Option<seq<Cap>>, b: Option<seq<Cap>>): (r: Option<seq<Cap>>)
    ensures r.Some? <==> a.Some? && b.Some?
  {
    if a.Some? && b.Some? then Some(a.value + b.value) else None
  }

  /** Piece `w` of a text is what element `t` matches on its own. */
  predicate PieceFits(t: Tok, w: string) {
    match t
    case Digits(lo, hi) => AllDigits(w) && 1 <= |w| && lo <= |w| <= hi
    case Lit(c) => w == [c]
    case OneOf(cs) => |w| == 1 && w[0] in cs
  }

  /** What one piece captures under its element. */
  function HeadCaps(t: Tok, w: string): seq<Cap> {
    match t
    case Digits(_, _) => if AllDigits(w) then [Num(DigitsValue(w))] else []
    case Lit(_) => []
    case OneOf(_) => if w == [] then [] else [Sym(w[0])]
  }

  /** Each piece fits its element, and a digit piece is followed by a
      piece that starts with a non-digit. */
  predicate Fits(p: seq<Tok>, ws: seq<string>)
    decreases |p|
  {
    |p| == |ws| &&
    (p != [] ==>
      && PieceFits(p[0], ws[0])
      && (p[0].Digits? && |p| > 1 ==> ws[1] == [] || !IsDigit(ws[1][0]))
      && Fits(p[1..], ws[1..]))
  }

  /** What the pieces capture, element by element. */
  function PieceCaps(p: seq<Tok>, ws: seq<string>): seq<Cap>
    requires |p| == |ws|
    decreases |p|
  {
    if p == [] then [] else HeadCaps(p[0], ws[0]) + PieceCaps(p[1..], ws[1..])
  }

  /** A digit piece is followed by a piece that cannot continue its run. */
  predicate Follows(t: Tok, next: string) {
    t.Digits? ==> next == [] || !IsDigit(next[0])
  }

  /** One more piece in front of fitting pieces. */
  lemma FitsCons(p: seq<Tok>, ws: seq<string>)
    requires |p| == |ws| >= 1 && PieceFits(p[0], ws[0])
    requires |p| > 1 ==> Follows(p[0], ws[1])
    requires Fits(p[1..], ws[1..])
    ensures Fits(p, ws)
    ensures PieceCaps(p, ws) == HeadCaps(p[0], ws[0]) + PieceCaps(p[1..], ws[1..])
  {
  }

  /** Four pieces fit four elements when each fits its own. */
  lemma Fits4(p: seq<Tok>, ws: seq<string>)
    requires |p| == 4 && |ws| == 4
    requires PieceFits(p[0], ws[0]) && PieceFits(p[1], ws[1]) && PieceFits(p[2], ws[2]) && PieceFits(p[3], ws[3])
    requires Follows(p[0], ws[1]) && Follows(p[1], ws[2]) && Follows(p[2], ws[3])
    ensures Fits(p, ws)
    ensures PieceCaps(p, ws) == HeadCaps(p[0], ws[0]) + HeadCaps(p[1], ws[1]) + HeadCaps(p[2], ws[2]) + HeadCaps(p[3], ws[3])
  {
    assert Fits(p[4..], ws[4..]) && PieceCaps(p[4..], ws[4..]) == [];
    assert p[3..][1..] == p[4..] && ws[3..][1..] == ws[4..];
    FitsCons(p[3..], ws[3..]);
    assert p[2..][1..] == p[3..] && ws[2..][1..] == ws[3..];
    FitsCons(p[2..], ws[2..]);
    assert p[1..][1..] == p[2..] && ws[1..][1..] == ws[2..];
    FitsCons(p[1..], ws[1..]);
    FitsCons(p, ws);
    var h0, h1, h2, h3 := HeadCaps(p[0], ws[0]), HeadCaps(p[1], ws[1]), HeadCaps(p[2], ws[2]), HeadCaps(p[3], ws[3]);
    assert h0 + (h1 + (h2 + (h3 + []))) == h0 + h1 + h2 + h3;
  }

  /** Five pieces fit five elements when each fits its own. */
  lemma Fits5(p: seq<Tok>, ws: seq<string>)
    requires |p| == 5 && |ws| == 5
    requires PieceFits(p[0], ws[0]) && PieceFits(p[1], ws[1]) && PieceFits(p[2], ws[2]) && PieceFits(p[3], ws[3]) && PieceFits(p[4], ws[4])
    requires Follows(p[0], ws[1]) && Follows(p[1], ws[2]) && Follows(p[2], ws[3]) && Follows(p[3], ws[4])
    ensures Fits(p, ws)
    ensures PieceCaps(p, ws) == HeadCaps(p[0], ws[0]) + HeadCaps(p[1], ws[1]) + HeadCaps(p[2], ws[2]) + HeadCaps(p[3], ws[3]) + HeadCaps(p[4], ws[4])
  {
    Fits4(p[1..], ws[1..]);
    FitsCons(p, ws);
    var h0, h1, h2, h3, h4 := HeadCaps(p[0], ws[0]), HeadCaps(p[1], ws[1]), HeadCaps(p[2], ws[2]), HeadCaps(p[3], ws[3]), HeadCaps(p[4], ws[4]);
    assert h0 + (h1 + h2 + h3 + h4) == h0 + h1 + h2 + h3 + h4;
  }

  /** Fitting pieces can be written one list after another. */
  lemma {:induction false} FitsAppend(p1: seq<Tok>, w1: seq<string>, p2: seq<Tok>, w2: seq<string>)
    requires Fits(p1, w1) && Fits(p2, w2)
    requires p1 != [] && p1[|p1| - 1].Digits? && w2 != [] ==> w2[0] == [] || !IsDigit(w2[0][0])
    ensures Fits(p1 + p2, w1 + w2)
    decreases |p1|
  {
    if p1 == [] {
      assert p1 + p2 == p2 && w1 + w2 == w2;
    } else {
      var p, w := p1 + p2, w1 + w2;
      assert p[1..] == p1[1..] + p2 && w[1..] == w1[1..] + w2;
      FitsAppend(p1[1..], w1[1..], p2, w2);
      assert p[0] == p1[0] && w[0] == w1[0];
      if |p1| == 1 {
        assert p[1..] == p2 && w[1..] == w2;
      } else {
        assert w[1] == w1[1];
      }
    }
  }

  /** Two fitting runs side by side fit, and capture one after the other. */
  lemma FitsJoin(p1: seq<Tok>, w1: seq<string>, c1: seq<Cap>, p2: seq<Tok>, w2: seq<string>, c2: seq<Cap>)
    requires |p1| == |w1| && |p2| == |w2|
    requires Fits(p1, w1) && PieceCaps(p1, w1) == c1
    requires Fits(p2, w2) && PieceCaps(p2, w2) == c2
    requires p1 != [] && p1[|p1| - 1].Digits? && w2 != [] ==> w2[0] == [] || !IsDigit(w2[0][0])
    ensures Fits(p1 + p2, w1 + w2) && PieceCaps(p1 + p2, w1 + w2) == c1 + c2
  {
    FitsAppend(p1, w1, p2, w2);
    CapsAppend(p1, w1, p2, w2);
  }

  lemma {:induction false} CapsAppend(p1: seq<Tok>, w1: seq<string>, p2: seq<Tok>, w2: seq<string>)
    requires |p1| == |w1| && |p2| == |w2|
    ensures PieceCaps(p1 + p2, w1 + w2) == PieceCaps(p1, w1) + PieceCaps(p2, w2)
    decreases |p1|
  {
    if p1 == [] {
      assert p1 + p2 == p2 && w1 + w2 == w2;
    } else {
      var p, w := p1 + p2, w1 + w2;
      assert p[1..] == p1[1..] + p2 && w[1..] == w1[1..] + w2;
      assert p[0] == p1[0] && w[0] == w1[0];
      var h, c1, c2 := HeadCaps(p1[0], w1[0]), PieceCaps(p1[1..], w1[1..]), PieceCaps(p2, w2);
      CapsAppend(p1[1..], w1[1..], p2, w2);
      assert h + (c1 + c2) == (h + c1) + c2;
    }
  }

  /** One fitting piece, then whatever follows. */
  lemma MatchHead(t: Tok, w: string, q: seq<Tok>, tail: string)
    requires PieceFits(t, w)
    requires t.Digits? ==> tail == [] || !IsDigit(tail[0])
    ensures Match([t] + q, w + tail) == Then(Some(HeadCaps(t, w)), Match(q, tail))
  {
    var s := w + tail;
    assert ([t] + q)[0] == t && ([t] + q)[1..] == q;
    match t
    case Lit(c) =>
      assert s[0] == c && s[1..] == tail;
      match Match(q, tail) {
        case None =>
        case Some(m) => assert [] + m == m;
      }
    case OneOf(cs) =>
      assert s[0] == w[0] && s[1..] == tail;
    case Digits(lo, hi) =>
      LeadingDigitsAppend(w, tail);
      assert s[..|w|] == w && s[|w|..] == tail;
  }

  lemma ThenAssoc(a: seq<Cap>, b: seq<Cap>, m: Option<seq<Cap>>)
    ensures Then(Some(a), Then(Some(b), m)) == Then(Some(a + b), m)
  {
    if m.Some? {
      assert a + (b + m.value) == (a + b) + m.value;
    }
  }

  /** Text written piece by piece, each piece fitting its element and every
      digit piece followed by a non-digit, matches the pattern; what follows
      it is matched by what follows the pattern. */
  lemma {:induction false} MatchPieces(p: seq<Tok>, ws: seq<string>, q: seq<Tok>, rest: string)
    requires Fits(p, ws)
    requires p != [] && p[|p| - 1].Digits? && rest != [] ==> !IsDigit(rest[0])
    ensures Match(p + q, Concat(ws) + rest) == Then(Some(PieceCaps(p, ws)), Match(q, rest))
    decreases |p|
  {
    if p == [] {
      assert p + q == q && Concat(ws) + rest == rest;
      match Match(q, rest) {
        case None =>
        case Some(m) => assert [] + m == m;
      }
    } else {
      var tail := Concat(ws[1..]) + rest;
      assert Concat(ws) + rest == ws[0] + tail;
      assert p + q == [p[0]] + (p[1..] + q);
      MatchPieces(p[1..], ws[1..], q, rest);
      assert p[0].Digits? ==> tail == [] || !IsDigit(tail[0]) by {
        if |p| > 1 {
          assert Concat(ws[1..]) == ws[1] + Concat(ws[2..]);
          assert ws[1] != [] by { assert PieceFits(p[1], ws[1]); }
        }
      }
      MatchHead(p[0], ws[0], p[1..] + q, tail);
      ThenAssoc(HeadCaps(p[0], ws[0]), PieceCaps(p[1..], ws[1..]), Match(q, rest));
    }
  }

  /** Every digit run of `p` ends at a non-digit element or at the end. */
  predicate Delimited(p: seq<Tok>) {
    forall i :: 0 <= i < |p| - 1 && p[i].Digits? ==> NonDigit(p[i + 1])
  }

  // ---------------------------------------------------------------------------
  // strptime directives

  /** A format directive, one per capturing element of the pattern it is
      paired with: `%Y %y %m %d %H %I %M %S %p`, the date/time separator and
      the three parts of a UTC offset (sign, hours and minutes). */
  datatype Dir =
    | Year4 | Year2 | Month | Day | Hour24 | Hour12 | Minute | Second | AmPm
    | Separator | OffsetSign | OffsetHour | OffsetMinute

  /** The fields strptime collects; its defaults are 1900-01-01 00:00:00. */
  datatype Fields = Fields(
    year: int, month: int, day: int, hour: int, twelveHour: bool, pm: bool,
    minute: int, second: int, zoned: bool, negative: bool, offsetHour: int, offsetMinute: int)

  const Defaults := Fields(1900, 1, 1, 0, false, false, 0, 0, false, false, 0, 0)

  /** Reads one captured piece under one directive; the ranges are those of
      the regular expressions strptime builds for each directive. */
  function Step(d: Dir, c: Cap, f: Fields): Option<Fields> {
    match c
    case Num(n) => (
      match d
      case Year4 => Some(f.(year := n))
      case Year2 => Some(f.(year := if n <= 68 then 2000 + n else 1900 + n))
      case Month => if 1 <= n <= 12 then Some(f.(month := n)) else None
      case Day => if 1 <= n <= 31 then Some(f.(day := n)) else None
      case Hour24 => if n <= 23 then Some(f.(hour := n)) else None
      case Hour12 => if 1 <= n <= 12 then Some(f.(hour := n, twelveHour := true)) else None
      case Minute => if n <= 59 then Some(f.(minute := n)) else None
      case Second => if n <= 61 then Some(f.(second := n)) else None
      case OffsetHour => Some(f.(offsetHour := n))
      case OffsetMinute => if n <= 59 then Some(f.(offsetMinute := n)) else None
      case _ => None)
    case Sym(ch) => (
      match d
      case AmPm => Some(f.(pm := ch == 'P'))
      case Separator => Some(f)
      case OffsetSign => Some(f.(zoned := true, negative := ch == '-'))
      case _ => None)
  }

  function Assign(dirs: seq<Dir>, caps: seq<Cap>, f: Fields): Option<Fields>
    decreases |dirs|
  {
    if dirs == [] || caps == [] then (if dirs == [] && caps == [] then Some(f) else None)
    else match Step(dirs[0], caps[0], f)
      case None => None
      case Some(g) => Assign(dirs[1..], caps[1..], g)
  }

  /** Directives read their captures left to right. */
  lemma {:induction false} AssignAppend(d1: seq<Dir>, c1: seq<Cap>, d2: seq<Dir>, c2: seq<Cap>, f: Fields)
    requires |d1| == |c1|
    ensures Assign(d1 + d2, c1 + c2, f) ==
      match Assign(d1, c1, f)
      case None => None
      case Some(g) => Assign(d2, c2, g)
    decreases |d1|
  {
    if d1 == [] {
      assert d1 + d2 == d2 && c1 + c2 == c2;
    } else {
      assert (d1 + d2)[0] == d1[0] && (c1 + c2)[0] == c1[0];
      assert (d1 + d2)[1..] == d1[1..] + d2 && (c1 + c2)[1..] == c1[1..] + c2;
      match Step(d1[0], c1[0], f) {
        case None =>
        case Some(g) => AssignAppend(d1[1..], c1[1..], d2, c2, g);
      }
    }
  }

  /** The 24-hour clock hour of a 12-hour reading: 12 AM is 0, 12 PM is 12. */
  function ClockHour(hour: int, pm: bool): (h: int)
    requires 1 <= hour <= 12
    ensures 0 <= h <= 23 && h % 12 == hour % 12 && (h >= 12 <==> pm)
  {
    if pm then (if hour == 12 then 12 else hour + 12)
    else (if hour == 12 then 0 else hour)
  }

  /** Constructs the datetime, failing where `datetime(...)` or `timezone(...)`
      raise `ValueError`. */
  function Build(f: Fields): (r: Option<PyDateTime>)
    ensures r.Some? ==> r.value.date == Date(f.year, f.month, f.day)
    ensures r.Some? ==> r.value.minute == f.minute && r.value.second == f.second
    ensures r.Some? && !f.twelveHour ==> r.value.hour == f.hour
    ensures r.Some? && f.twelveHour && 1 <= f.hour <= 12 ==> r.value.hour == ClockHour(f.hour, f.pm)
    ensures r.Some? ==> r.value.offset.Some? == f.zoned
    ensures r.Some? && f.zoned ==>
      r.value.offset.value == if f.negative then -(60 * f.offsetHour + f.offsetMinute) else 60 * f.offsetHour + f.offsetMinute
  {
    var hour := if f.twelveHour && 1 <= f.hour <= 12 then ClockHour(f.hour, f.pm) else f.hour;
    var offset := if f.zoned then Some((if f.negative then -1 else 1) * (f.offsetHour * 60 + f.offsetMinute)) else None;
    var t := DateTime(Date(f.year, f.month, f.day), hour, f.minute, f.second, offset);
    if ValidDateTime(t) then Some(t) else None
  }

  /** `datetime.strptime` on text whose pieces `caps` the paired pattern
      captured. */
  function Strptime(dirs: seq<Dir>, caps: seq<Cap>): Option<PyDateTime> {
    match Assign(dirs, caps, Defaults)
    case None => None
    case Some(f) => Build(f)
  }

  /** `%y`: two digits `n` stand for the year of 1969..2068 that ends in
      them, whichever order month and day are read in. */
  lemma TwoDigitYearStrptime(m: nat, d: nat, n: nat, year: int)
    requires n <= 99 && 1969 <= year <= 2068 && year % 100 == n
    ensures Strptime([Month, Day, Year2], [Num(m), Num(d), Num(n)]) ==
      match MakeDate(year, m, d)
      case None => None
      case Some(day) => Some(Midnight(day))
    ensures Strptime([Day, Month, Year2], [Num(d), Num(m), Num(n)]) ==
      match MakeDate(year, m, d)
      case None => None
      case Some(day) => Some(Midnight(day))
  {
    assert year == if n <= 68 then 2000 + n else 1900 + n;
    if 1 <= m <= 12 && 1 <= d <= 31 {
      var f := Defaults.(year := year, month := m, day := d);
      assert Assign([Month, Day, Year2], [Num(m), Num(d), Num(n)], Defaults) == Some(f);
      assert Assign([Day, Month, Year2], [Num(d), Num(m), Num(n)], Defaults) == Some(f);
    }
  }

  /** `%m/%d/%Y %I:%M:%S %p`: the hour is read on the 12-hour clock and
      given on the 24-hour one; date, minute and second are as written and
      the result is naive. */
  lemma TwelveHourStrptime(m: nat, d: nat, y: nat, h: nat, mi: nat, sec: nat, c: char)
    ensures Strptime([Month, Day, Year4, Hour12, Minute, Second, AmPm],
                     [Num(m), Num(d), Num(y), Num(h), Num(mi), Num(sec), Sym(c)]) ==
      if 1 <= h <= 12 && ValidDateTime(DateTime(Date(y, m, d), ClockHour(h, c == 'P'), mi, sec, None))
      then Some(DateTime(Date(y, m, d), ClockHour(h, c == 'P'), mi, sec, None))
      else None
  {
    var dirs, caps := [Month, Day, Year4, Hour12, Minute, Second, AmPm], [Num(m), Num(d), Num(y), Num(h), Num(mi), Num(sec), Sym(c)];
    assert dirs == [Month, Day, Year4] + [Hour12, Minute, Second, AmPm];
    assert caps == [Num(m), Num(d), Num(y)] + [Num(h), Num(mi), Num(sec), Sym(c)];
    AssignAppend([Month, Day, Year4], [Num(m), Num(d), Num(y)], [Hour12, Minute, Second, AmPm], [Num(h), Num(mi), Num(sec), Sym(c)], Defaults);
    DateFields(m, d, y, Defaults);
    if 1 <= m <= 12 && 1 <= d <= 31 {
      ClockFields(h, mi, sec, c, Defaults.(month := m, day := d, year := y));
    }
  }

  /** `%m %d %Y` read in that order. */
  lemma DateFields(m: nat, d: nat, y: nat, f: Fields)
    ensures Assign([Month, Day, Year4], [Num(m), Num(d), Num(y)], f) ==
      if 1 <= m <= 12 && 1 <= d <= 31 then Some(f.(month := m, day := d, year := y)) else None
  {
    assert [Month, Day, Year4][1..] == [Day, Year4] && [Day, Year4][1..] == [Year4];
    assert [Num(m), Num(d), Num(y)][1..] == [Num(d), Num(y)] && [Num(d), Num(y)][1..] == [Num(y)];
  }

  /** `%I:%M:%S %p` read in that order. */
  lemma ClockFields(h: nat, mi: nat, sec: nat, c: char, f: Fields)
    ensures Assign([Hour12, Minute, Second, AmPm], [Num(h), Num(mi), Num(sec), Sym(c)], f) ==
      if 1 <= h <= 12 && mi <= 59 && sec <= 61
      then Some(f.(hour := h, twelveHour := true, minute := mi, second := sec, pm := c == 'P'))
      else None
  {
    assert [Hour12, Minute, Second, AmPm][1..] == [Minute, Second, AmPm];
    assert [Minute, Second, AmPm][1..] == [Second, AmPm] && [Second, AmPm][1..] == [AmPm];
    assert [Num(h), Num(mi), Num(sec), Sym(c)][1..] == [Num(mi), Num(sec), Sym(c)];
    assert [Num(mi), Num(sec), Sym(c)][1..] == [Num(sec), Sym(c)] && [Num(sec), Sym(c)][1..] == [Sym(c)];
  }

  // ---------------------------------------------------------------------------
  // The tables

  /** A format string, or `None` for the entry handled by rewriting a
      `+HHMM` offset as `+HH:MM`. */
  datatype Format = Directives(dirs: seq<Dir>) | FixOffset

  datatype Entry = Entry(pattern: seq<Tok>, format: Format)

  const D1or2 := Digits(1, 2)
  const D2 := Digits(2, 2)
  const D4 := Digits(4, 4)

  /** `\d{4}-\d{2}-\d{2}`, and the same with `/`. */
  function YmdShape(sep: char): seq<Tok> { [D4, Lit(sep), D2, Lit(sep), D2] }

  /** `\d{1,2}/\d{1,2}/\d{4}` or with a two-digit year, `/` or `-`. */
  function RegionalShape(sep: char, year: Tok): seq<Tok> { [D1or2, Lit(sep), D1or2, Lit(sep), year] }

  /** `\d{2}:\d{2}:\d{2}`, with a one- or two-digit hour. */
  function ClockShape(hour: Tok): seq<Tok> { [hour, Lit(':'), D2, Lit(':'), D2] }

  const YMD := [Year4, Month, Day]
  const HMS := [Hour24, Minute, Second]

  /** `date_patterns`: ISO, then month-first, then day-first. */
  const DatePatterns: seq<Entry> := [
    Entry(YmdShape('-'), Directives(YMD)),
    Entry(YmdShape('/'), Directives(YMD)),
    Entry(RegionalShape('/', D4), Directives([Month, Day, Year4])),
    Entry(RegionalShape('-', D4), Directives([Month, Day, Year4])),
    Entry(RegionalShape('/', D2), Directives([Month, Day, Year2])),
    Entry(RegionalShape('-', D2), Directives([Month, Day, Year2])),
    Entry(RegionalShape('/', D4), Directives([Day, Month, Year4])),
    Entry(RegionalShape('-', D4), Directives([Day, Month, Year4])),
    Entry(RegionalShape('/', D2), Directives([Day, Month, Year2])),
    Entry(RegionalShape('-', D2), Directives([Day, Month, Year2]))
  ]

  /** `datetime_patterns`. */
  const DateTimePatterns: seq<Entry> := [
    Entry(YmdShape('-') + [Lit('T')] + ClockShape(D2) + [Lit('Z')], Directives(YMD + HMS)),
    Entry(YmdShape('-') + [Lit('T')] + ClockShape(D2) + [OneOf("-+"), D2, Lit(':'), D2],
          Directives(YMD + HMS + [OffsetSign, OffsetHour, OffsetMinute])),
    Entry(YmdShape('-') + [Lit('T')] + ClockShape(D2) + [OneOf("-+"), D4], FixOffset),
    Entry(YmdShape('-') + [Lit(' ')] + ClockShape(D2), Directives(YMD + HMS)),
    Entry(YmdShape('/') + [Lit(' ')] + ClockShape(D2), Directives(YMD + HMS)),
    Entry(RegionalShape('/', D4) + [Lit(' ')] + ClockShape(D1or2) + [Lit(' '), OneOf("AP"), Lit('M')],
          Directives([Month, Day, Year4, Hour12, Minute, Second, AmPm])),
    Entry(RegionalShape('/', D4) + [Lit(' ')] + ClockShape(D2), Directives([Month, Day, Year4] + HMS)),
    Entry(RegionalShape('/', D4) + [Lit(' ')] + ClockShape(D2), Directives([Day, Month, Year4] + HMS)),
    Entry(RegionalShape('-', D4) + [Lit(' ')] + ClockShape(D2), Directives([Day, Month, Year4] + HMS))
  ]

  /** `date.fromisoformat`: `YYYY-MM-DD`. */
  const IsoDateForms: seq<Entry> := [IsoDateForm]

  /** `datetime.fromisoformat` up to Python 3.10: a full date, optionally
      followed by `T` (or a space) and `HH:MM:SS`, optionally followed by
      `+HH:MM`/`-HH:MM`; a trailing `Z` is rejected. */
  const IsoDateTimeForms: seq<Entry> := [IsoDateForm, IsoStampForm, IsoOffsetForm]

  /** `YYYY-MM-DD`, `T` or a space, `HH:MM:SS`. */
  const StampShape := YmdShape('-') + [OneOf("T ")] + ClockShape(D2)
  /** `+HH:MM` or `-HH:MM`. */
  const OffsetShape := [OneOf("-+"), D2, Lit(':'), D2]

  const IsoDateForm := Entry(YmdShape('-'), Directives(YMD))
  const IsoStampForm := Entry(StampShape, Directives(YMD + [Separator] + HMS))
  const IsoOffsetForm := Entry(StampShape + OffsetShape, Directives(YMD + [Separator] + HMS + [OffsetSign, OffsetHour, OffsetMinute]))

  /** Every pattern of the tables lets a digit run be taken whole. */
  lemma DatePatternsDelimited()
    ensures forall i :: 0 <= i < |DatePatterns| ==> Delimited(DatePatterns[i].pattern)
  {
  }

  lemma DateTimePatternsDelimited()
    ensures forall i :: 0 <= i < |DateTimePatterns| ==> Delimited(DateTimePatterns[i].pattern)
  {
    var z, offset, compact, ampm := [Lit('Z')], [OneOf("-+"), D2, Lit(':'), D2], [OneOf("-+"), D4], [Lit(' '), OneOf("AP"), Lit('M')];
    StampDelimited(YmdShape('-'), Lit('T'), D2, z);
    StampDelimited(YmdShape('-'), Lit('T'), D2, offset);
    StampDelimited(YmdShape('-'), Lit('T'), D2, compact);
    StampDelimited(YmdShape('-'), Lit(' '), D2, []);
    StampDelimited(YmdShape('/'), Lit(' '), D2, []);
    StampDelimited(RegionalShape('/', D4), Lit(' '), D1or2, ampm);
    StampDelimited(RegionalShape('/', D4), Lit(' '), D2, []);
    StampDelimited(RegionalShape('-', D4), Lit(' '), D2, []);
  }

  /** A date shape, a separator, a clock and a tail that opens with no digit
      let every digit run be taken whole. */
  lemma StampDelimited(head: seq<Tok>, mid: Tok, hour: Tok, tail: seq<Tok>)
    requires Delimited(head) && NonDigit(mid) && Delimited(tail)
    requires tail != [] ==> NonDigit(tail[0])
    ensures Delimited(head + [mid] + ClockShape(hour) + tail)
    ensures tail == [] ==> Delimited(head + [mid] + ClockShape(hour))
  {
    DelimitedJoin(head, [mid]);
    DelimitedJoin(head + [mid], ClockShape(hour));
    DelimitedJoin(head + [mid] + ClockShape(hour), tail);
    if tail == [] {
      assert head + [mid] + ClockShape(hour) + tail == head + [mid] + ClockShape(hour);
    }
  }

  /** Two delimited patterns joined where the first ends in no digit run, or
      the second opens with no digit, are delimited. */
  lemma DelimitedJoin(p: seq<Tok>, q: seq<Tok>)
    requires Delimited(p) && Delimited(q)
    requires p != [] && p[|p| - 1].Digits? && q != [] ==> NonDigit(q[0])
    ensures Delimited(p + q)
  {
    var r := p + q;
    forall i | 0 <= i < |r| - 1 && r[i].Digits?
      ensures NonDigit(r[i + 1])
    {
      if i >= |p| {
        assert r[i] == q[i - |p|] && r[i + 1] == q[i + 1 - |p|];
      } else if i == |p| - 1 {
        assert r[i + 1] == q[0];
      } else {
        assert r[i + 1] == p[i + 1];
      }
    }
  }

  lemma IsoFormsDelimited()
    ensures forall i :: 0 <= i < |IsoDateTimeForms| ==> Delimited(IsoDateTimeForms[i].pattern)
  {
  }

  // ---------------------------------------------------------------------------
  // Scanning a table

  /** `datetime.strptime(s, fmt)` guarded by `re.match(pattern, s)`. */
  function TryStrptime(e: Entry, s: string): Option<PyDateTime> {
    if !e.format.Directives? then None
    else match Match(e.pattern, s)
      case None => None
      case Some(caps) => Strptime(e.format.dirs, caps)
  }

  /** The first form that parses `s`. */
  function IsoScan(forms: seq<Entry>, s: string): Option<PyDateTime>
    decreases |forms|
  {
    if forms == [] then None else TryStrptime(forms[0], s).OrElse(IsoScan(forms[1..], s))
  }

  /** A form whose pattern runs past the pieces of a text into a remainder
      its tail cannot match does not parse that text. */
  lemma TryPastPieces(e: Entry, p: seq<Tok>, q: seq<Tok>, ws: seq<string>, rest: string)
    requires e.pattern == p + q && Fits(p, ws)
    requires p != [] && p[|p| - 1].Digits? && rest != [] ==> !IsDigit(rest[0])
    requires Match(q, rest).None?
    ensures TryStrptime(e, Concat(ws) + rest).None?
  {
    MatchPieces(p, ws, q, rest);
  }

  /** A form whose pattern ends with the pieces of a text does not parse the
      text with more after it. */
  lemma TryTooLong(e: Entry, ws: seq<string>, rest: string)
    requires Fits(e.pattern, ws) && rest != []
    requires e.pattern != [] && e.pattern[|e.pattern| - 1].Digits? ==> !IsDigit(rest[0])
    ensures TryStrptime(e, Concat(ws) + rest).None?
  {
    MatchTooLong(e.pattern, ws, rest);
  }

  /** A form that does not parse hands the text on to the next one. */
  lemma IsoScanSkip(f: Entry, rest: seq<Entry>, s: string)
    requires TryStrptime(f, s).None?
    ensures IsoScan([f] + rest, s) == IsoScan(rest, s)
  {
    assert ([f] + rest)[1..] == rest;
  }

  /** A form that parses decides the scan. */
  lemma IsoScanTake(f: Entry, rest: seq<Entry>, s: string, r: PyDateTime)
    requires TryStrptime(f, s) == Some(r)
    ensures IsoScan([f] + rest, s) == Some(r)
  {
  }

  /** A scan in which no form parses fails. */
  lemma {:induction false} IsoScanMiss(forms: seq<Entry>, s: string)
    requires forall j :: 0 <= j < |forms| ==> TryStrptime(forms[j], s).None?
    ensures IsoScan(forms, s).None?
    decreases |forms|
  {
    if forms != [] {
      assert forall j :: 0 <= j < |forms| - 1 ==> forms[1..][j] == forms[j + 1];
      IsoScanMiss(forms[1..], s);
    }
  }

  /** `date.fromisoformat(s)`, with the `ValueError` as `None`. */
  function IsoDate(s: string): Option<PyDate> {
    match IsoScan(IsoDateForms, s)
    case None => None
    case Some(t) => Some(t.date)
  }

  /** `datetime.fromisoformat(s)`, with the `ValueError` as `None`. */
  function IsoDateTime(s: string): Option<PyDateTime> {
    IsoScan(IsoDateTimeForms, s)
  }

  /** `re.search(r'([-+])(\d{2})(\d{2})$', s)`. */
  predicate CompactOffsetAtEnd(s: string) {
    |s| >= 5 && (s[|s| - 5] == '+' || s[|s| - 5] == '-') && AllDigits(s[|s| - 4..])
  }

  /** `s[:-5] + f"{sign}{hours}:{minutes}"`. */
  function FixCompactOffset(s: string): string
    requires CompactOffsetAtEnd(s)
  {
    s[..|s| - 4] + s[|s| - 4..|s| - 2] + ":" + s[|s| - 2..]
  }

  /** One iteration of the pattern loop: the entry's regular expression must
      match, then its format must parse. */
  function TryEntry(e: Entry, s: string): Option<PyDateTime> {
    match e.format
    case Directives(_) => TryStrptime(e, s)
    case FixOffset =>
      if Match(e.pattern, s).Some? && CompactOffsetAtEnd(s) then IsoDateTime(FixCompactOffset(s)) else None
  }

  /** The pattern loop: entries are tried in order and the first success
      wins. */
  function Scan(table: seq<Entry>, s: string): (r: Option<PyDateTime>)
    ensures r.Some? ==>
              exists i :: 0 <= i < |table| && TryEntry(table[i], s) == r &&
                          forall j :: 0 <= j < i ==> TryEntry(table[j], s).None?
    ensures r.None? ==> forall i :: 0 <= i < |table| ==> TryEntry(table[i], s).None?
    decreases |table|
  {
    if table == [] then None
    else
      var first := TryEntry(table[0], s);
      if first.Some? then first
      else
        var r := Scan(table[1..], s);
        assert forall i :: 1 <= i < |table| ==> table[i] == table[1..][i - 1];
        if r.Some? then
          ghost var i :| 0 <= i < |table[1..]| && TryEntry(table[1..][i], s) == r &&
            (forall j :: 0 <= j < i ==> TryEntry(table[1..][j], s).None?);
          assert TryEntry(table[i + 1], s) == r;
          r
        else r
  }

  /** A table in which no entry parses gives nothing. */
  lemma {:induction false} ScanMiss(table: seq<Entry>, s: string)
    requires forall i :: 0 <= i < |table| ==> TryEntry(table[i], s).None?
    ensures Scan(table, s).None?
    decreases |table|
  {
    if table != [] {
      assert forall i :: 0 <= i < |table| - 1 ==> table[1..][i] == table[i + 1];
      ScanMiss(table[1..], s);
    }
  }

  /** The first entry that parses decides the scan. */
  lemma {:induction false} ScanFirstHit(table: seq<Entry>, s: string, i: nat)
    requires i < |table| && TryEntry(table[i], s).Some?
    requires forall j :: 0 <= j < i ==> TryEntry(table[j], s).None?
    ensures Scan(table, s) == TryEntry(table[i], s)
    decreases i
  {
    if i > 0 {
      assert forall j :: 0 <= j < i - 1 ==> table[1..][j] == table[j + 1];
      ScanFirstHit(table[1..], s, i - 1);
    }
  }
}
