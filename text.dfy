/** The string operations of Python that the caster relies on: `split`,
    `strip`, `lower`, `in`, `find`, `replace`, `int(str)`, `float(str)` and
    `str(int)`, restricted to what the core needs. */
module Text {
  import opened Wrappers

  // ---------------------------------------------------------------------------
  // Digits and decimal numerals

  predicate IsDigit(c: char) { '0' <= c <= '9' }

  function DigitValue(c: char): nat
    requires IsDigit(c)
  {
    c as int - '0' as int
  }

  function DigitChar(n: nat): (c: char)
    requires n < 10
    ensures IsDigit(c) && DigitValue(c) == n
  {
    ('0' as int + n) as char
  }

  predicate AllDigits(s: string) {
    forall i :: 0 <= i < |s| ==> IsDigit(s[i])
  }

  /** A run of digits holds no other character. */
  lemma NoDigitIn(w: string, c: char)
    requires AllDigits(w) && !IsDigit(c)
    ensures c !in w
  {
    forall i | 0 <= i < |w|
      ensures w[i] != c
    {
      assert IsDigit(w[i]);
    }
  }

  function Pow10(n: nat): (p: nat)
    ensures p >= 1
  {
    if n == 0 then 1 else 10 * Pow10(n - 1)
  }

  /** The value of a run of decimal digits, most significant first. */
  function DigitsValue(s: string): nat
    requires AllDigits(s)
    decreases |s|
  {
    if s == [] then 0 else 10 * DigitsValue(s[..|s| - 1]) + DigitValue(s[|s| - 1])
  }

  /** The length of the longest prefix of `s` made of digits. */
  function LeadingDigits(s: string): (n: nat)
    ensures n <= |s| && AllDigits(s[..n])
    ensures n < |s| ==> !IsDigit(s[n])
    decreases |s|
  {
    if s != [] && IsDigit(s[0]) then
      var n := 1 + LeadingDigits(s[1..]);
      assert s[..n] == [s[0]] + s[1..][..n - 1];
      n
    else 0
  }

  /** A run of digits followed by a non-digit, or by nothing, is read whole. */
  lemma {:induction false} LeadingDigitsAppend(t: string, u: string)
    requires AllDigits(t) && (u == [] || !IsDigit(u[0]))
    ensures LeadingDigits(t + u) == |t|
    decreases |t|
  {
    if t == [] {
      assert t + u == u;
    } else {
      assert (t + u)[1..] == t[1..] + u;
      LeadingDigitsAppend(t[1..], u);
    }
  }

  /** `str(n)` for a natural number: the shortest decimal numeral of `n`. */
  function NatText(n: nat): (t: string)
    ensures |t| >= 1 && AllDigits(t) && DigitsValue(t) == n
    ensures n > 0 ==> t[0] != '0'
  {
    if n < 10 then [DigitChar(n)]
    else
      var t := NatText(n / 10) + [DigitChar(n % 10)];
      assert t[..|t| - 1] == NatText(n / 10);
      t
  }

  /** `str(i)` for an integer. */
  function IntText(i: int): string {
    if i < 0 then "-" + NatText(-i) else NatText(i)
  }

  function Zeros(k: nat): (z: string)
    ensures |z| == k && AllDigits(z) && DigitsValue(z) == 0
  {
    if k == 0 then ""
    else
      var z := Zeros(k - 1) + "0";
      assert z[..|z| - 1] == Zeros(k - 1);
      z
  }

  /** Prepending zeros does not change the value of a numeral. */
  lemma {:induction false} ZerosPrefixValue(k: nat, t: string)
    requires AllDigits(t)
    ensures AllDigits(Zeros(k) + t) && DigitsValue(Zeros(k) + t) == DigitsValue(t)
    decreases |t|
  {
    var s := Zeros(k) + t;
    assert forall i :: 0 <= i < |s| ==> IsDigit(s[i]) by {
      forall i | 0 <= i < |s| ensures IsDigit(s[i]) {
        if i < k { assert s[i] == Zeros(k)[i]; } else { assert s[i] == t[i - k]; }
      }
    }
    if t != [] {
      ZerosPrefixValue(k, t[..|t| - 1]);
      assert s[..|s| - 1] == Zeros(k) + t[..|t| - 1];
      assert s[|s| - 1] == t[|t| - 1];
    } else {
      assert s == Zeros(k);
    }
  }

  /** A numeral of `n` padded with zeros to at least `w` digits, as
      `%0wd` formatting does. */
  function Pad(n: nat, w: nat): (t: string)
    ensures AllDigits(t) && DigitsValue(t) == n
    ensures |t| == if |NatText(n)| >= w then |NatText(n)| else w
  {
    var t := NatText(n);
    if |t| >= w then t
    else
      ZerosPrefixValue(w - |t|, t);
      Zeros(w - |t|) + t
  }

  /** A number below 10^w has at most w digits. */
  lemma {:induction false} NatTextLength(n: nat, w: nat)
    requires 1 <= w && n < Pow10(w)
    ensures |NatText(n)| <= w
  {
    if n >= 10 {
      assert n / 10 < Pow10(w - 1);
      NatTextLength(n / 10, w - 1);
    }
  }

  lemma PadLength(n: nat, w: nat)
    requires 1 <= w && n < Pow10(w)
    ensures |Pad(n, w)| == w
  {
    NatTextLength(n, w);
  }

  // ---------------------------------------------------------------------------
  // Whitespace and case

  /** `str.isspace` on the ASCII range. */
  predicate IsSpace(c: char) {
    c == ' ' || 9 <= c as int <= 13 || 28 <= c as int <= 31
  }

  /** `str.lstrip()`: drop leading whitespace. */
  function TrimStart(s: string): (r: string)
    ensures r != [] ==> !IsSpace(r[0])
    decreases |s|
  {
    if s != [] && IsSpace(s[0]) then TrimStart(s[1..]) else s
  }

  /** `str.rstrip()`: drop trailing whitespace. */
  function TrimEnd(s: string): (r: string)
    ensures r != [] ==> !IsSpace(r[|r| - 1])
    ensures r != [] ==> s != [] && r[0] == s[0]
    decreases |s|
  {
    if s != [] && IsSpace(s[|s| - 1]) then TrimEnd(s[..|s| - 1]) else s
  }

  /** `str.strip()`: drop leading and trailing whitespace. */
  function Strip(s: string): (r: string)
    ensures r == [] || (!IsSpace(r[0]) && !IsSpace(r[|r| - 1]))
  {
    var a := TrimStart(s);
    var r := TrimEnd(a);
    assert r != [] ==> r[0] == a[0];
    r
  }

  /** Text that neither starts nor ends with whitespace is its own strip. */
  lemma StripUnchanged(s: string)
    requires s == [] || (!IsSpace(s[0]) && !IsSpace(s[|s| - 1]))
    ensures Strip(s) == s
  {
  }

  function LowerChar(c: char): char {
    if 'A' <= c <= 'Z' then (c as int + 32) as char else c
  }

  /** `str.lower()` on ASCII letters. */
  function Lower(s: string): (r: string)
    ensures |r| == |s| && forall i :: 0 <= i < |s| ==> r[i] == LowerChar(s[i])
  {
    seq(|s|, i requires 0 <= i < |s| => LowerChar(s[i]))
  }

  // ---------------------------------------------------------------------------
  // Splitting and searching

  /** The pieces written one after another. */
  function Concat(ws: seq<string>): string
    decreases |ws|
  {
    if ws == [] then "" else ws[0] + Concat(ws[1..])
  }

  lemma {:induction false} ConcatAppend(a: seq<string>, b: seq<string>)
    ensures Concat(a + b) == Concat(a) + Concat(b)
    decreases |a|
  {
    if a == [] {
      assert a + b == b;
    } else {
      assert (a + b)[1..] == a[1..] + b;
      ConcatAppend(a[1..], b);
    }
  }

  lemma AppendAssoc(a: string, b: string, c: string)
    ensures (a + b) + c == a + (b + c)
  {
  }

  lemma Concat4(ws: seq<string>)
    requires |ws| == 4
    ensures Concat(ws) == ws[0] + ws[1] + ws[2] + ws[3]
  {
    assert Concat(ws[3..]) == ws[3] + Concat(ws[4..]);
    assert Concat(ws[2..]) == ws[2] + Concat(ws[3..]);
    assert Concat(ws[1..]) == ws[1] + Concat(ws[2..]);
  }

  lemma Concat5(ws: seq<string>)
    requires |ws| == 5
    ensures Concat(ws) == ws[0] + ws[1] + ws[2] + ws[3] + ws[4]
  {
    Concat4(ws[1..]);
  }

  /** A character occurs in the written pieces exactly when it occurs in one
      of them. */
  lemma {:induction false} ConcatContains(ws: seq<string>, c: char)
    ensures c in Concat(ws) <==> exists i :: 0 <= i < |ws| && c in ws[i]
    decreases |ws|
  {
    if ws != [] {
      ConcatContains(ws[1..], c);
      if exists i :: 0 <= i < |ws[1..]| && c in ws[1..][i] {
        var i :| 0 <= i < |ws[1..]| && c in ws[1..][i];
        assert c in ws[i + 1];
      }
      if exists i :: 0 <= i < |ws| && c in ws[i] {
        var i :| 0 <= i < |ws| && c in ws[i];
        if i > 0 { assert c in ws[1..][i - 1]; }
      }
    }
  }

  /** `sep.join(parts)`. */
  function Join(parts: seq<string>, sep: char): string
    requires |parts| >= 1
    decreases |parts|
  {
    if |parts| == 1 then parts[0] else parts[0] + [sep] + Join(parts[1..], sep)
  }

  /** `s.split(sep)`: the pieces between occurrences of `sep`. */
  function Split(s: string, sep: char): (parts: seq<string>)
    ensures |parts| >= 1
    decreases |s|
  {
    if s == [] then [""]
    else
      var rest := Split(s[1..], sep);
      if s[0] == sep then [""] + rest
      else [[s[0]] + rest[0]] + rest[1..]
  }

  /** No piece contains `sep`, and joining the pieces back gives `s`. */
  lemma {:induction false} SplitJoin(s: string, sep: char)
    ensures forall i :: 0 <= i < |Split(s, sep)| ==> sep !in Split(s, sep)[i]
    ensures Join(Split(s, sep), sep) == s
    decreases |s|
  {
    if s != [] {
      var rest := Split(s[1..], sep);
      SplitJoin(s[1..], sep);
      if s[0] == sep {
        assert Split(s, sep) == [""] + rest;
        assert ([""] + rest)[1..] == rest;
        assert s == [sep] + s[1..];
      } else {
        var parts := [[s[0]] + rest[0]] + rest[1..];
        assert Split(s, sep) == parts;
        assert parts[1..] == rest[1..];
        assert s == [s[0]] + s[1..];
        assert forall i :: 1 <= i < |parts| ==> parts[i] == rest[i];
        assert sep !in parts[0] by { assert sep !in rest[0]; }
      }
    }
  }

  /** A separator-free decomposition of `s` is the one `Split` returns. */
  lemma {:induction false} SplitUnique(s: string, sep: char, parts: seq<string>)
    requires |parts| >= 1 && forall i :: 0 <= i < |parts| ==> sep !in parts[i]
    requires Join(parts, sep) == s
    ensures Split(s, sep) == parts
    decreases |s|
  {
    if parts[0] == [] {
      if |parts| > 1 {
        assert s[0] == sep && s[1..] == Join(parts[1..], sep);
        SplitUnique(s[1..], sep, parts[1..]);
      }
    } else {
      var p0 := parts[0];
      var tail := [p0[1..]] + parts[1..];
      assert s[0] == p0[0] != sep;
      assert Join(tail, sep) == s[1..] by {
        if |parts| > 1 { assert tail[1..] == parts[1..]; }
      }
      assert forall i :: 0 <= i < |tail| ==> sep !in tail[i] by {
        assert sep !in p0;
        forall i | 0 <= i < |tail| ensures sep !in tail[i] {
          if i == 0 { assert forall j :: 0 <= j < |p0[1..]| ==> p0[1..][j] == p0[j + 1]; }
          else { assert tail[i] == parts[i]; }
        }
      }
      SplitUnique(s[1..], sep, tail);
      assert [s[0]] + p0[1..] == p0;
    }
  }

  /** The index of the first `c` in `s` (`s.find(c)` when found). */
  function IndexOf(s: string, c: char): (k: nat)
    requires c in s
    ensures k < |s| && s[k] == c && c !in s[..k]
  {
    if s[0] == c then 0
    else
      assert c in s[1..] by { var j :| 0 <= j < |s| && s[j] == c; assert s[1..][j - 1] == c; }
      var k := 1 + IndexOf(s[1..], c);
      assert s[..k] == [s[0]] + s[1..][..k - 1];
      k
  }

  predicate EndsWith(s: string, c: char) {
    s != [] && s[|s| - 1] == c
  }

  /** `s.replace(c, rep)`: every occurrence of `c` replaced by `rep`. */
  function ReplaceAll(s: string, c: char, rep: string): (r: string)
    ensures c !in rep ==> c !in r
  {
    if s == [] then ""
    else (if s[0] == c then rep else [s[0]]) + ReplaceAll(s[1..], c, rep)
  }

  lemma {:induction false} ReplaceAllAppend(a: string, b: string, c: char, rep: string)
    ensures ReplaceAll(a + b, c, rep) == ReplaceAll(a, c, rep) + ReplaceAll(b, c, rep)
    decreases |a|
  {
    if a == [] {
      assert a + b == b;
    } else {
      assert (a + b)[1..] == a[1..] + b;
      ReplaceAllAppend(a[1..], b, c, rep);
    }
  }

  /** Text without `c` is left as it is. */
  lemma {:induction false} ReplaceAllAbsent(s: string, c: char, rep: string)
    requires c !in s
    ensures ReplaceAll(s, c, rep) == s
    decreases |s|
  {
    if s != [] {
      assert c !in s[1..];
      ReplaceAllAbsent(s[1..], c, rep);
    }
  }

  // ---------------------------------------------------------------------------
  // Numbers read from text

  /** `int(s)`: surrounding whitespace, an optional sign and at least one
      digit. */
  function PyInt(s: string): Option<int> {
    var t := Strip(s);
    if |t| >= 2 && (t[0] == '+' || t[0] == '-') && AllDigits(t[1..]) then
      var n: int := DigitsValue(t[1..]);
      Some(if t[0] == '-' then -n else n)
    else if |t| >= 1 && AllDigits(t) then Some(DigitsValue(t))
    else None
  }

  /** Reading back a rendered integer gives the integer. */
  lemma IntTextRoundTrip(i: int)
    ensures PyInt(IntText(i)) == Some(i)
  {
    var t := IntText(i);
    StripUnchanged(t);
    if i < 0 {
      assert t[1..] == NatText(-i);
    }
  }

  /** The value of a run of digits read after a decimal point: tenths,
      hundredths, and so on. */
  function FractionValue(f: string): (q: real)
    requires AllDigits(f)
    ensures 0.0 <= q < 1.0
    decreases |f|
  {
    if f == [] then 0.0 else (DigitValue(f[0]) as real + FractionValue(f[1..])) / 10.0
  }

  /** A fraction part with a digit other than `0` is above zero. */
  lemma {:induction false} FractionPositive(f: string)
    requires AllDigits(f) && exists i :: 0 <= i < |f| && f[i] != '0'
    ensures FractionValue(f) > 0.0
    decreases |f|
  {
    if f[0] == '0' {
      var i :| 0 <= i < |f| && f[i] != '0';
      assert f[1..][i - 1] == f[i];
      FractionPositive(f[1..]);
    }
  }

  /** The fraction part of two digits `ab` is `ab / 100`. */
  lemma TwoDigitFraction(f: string)
    requires |f| == 2 && AllDigits(f)
    ensures FractionValue(f) == (10 * DigitValue(f[0]) + DigitValue(f[1])) as real / 100.0
  {
    var g := f[1..];
    assert g[1..] == [] && g[0] == f[1];
    assert FractionValue(g) == DigitValue(f[1]) as real / 10.0;
  }

  /** The value of an unsigned decimal literal `D+`, `D+.D*` or `.D+`. */
  function UnsignedDecimal(b: string): Option<real> {
    var parts := Split(b, '.');
    if |parts| == 1 then
      if |b| >= 1 && AllDigits(b) then Some(DigitsValue(b) as real) else None
    else if |parts| == 2 && AllDigits(parts[0]) && AllDigits(parts[1]) && |parts[0]| + |parts[1]| >= 1 then
      Some(DigitsValue(parts[0]) as real + FractionValue(parts[1]))
    else None
  }

  /** A decimal literal with an optional sign. */
  function SignedDecimal(t: string): Option<real> {
    var negative := |t| >= 1 && t[0] == '-';
    var body := if |t| >= 1 && (t[0] == '+' || t[0] == '-') then t[1..] else t;
    match UnsignedDecimal(body)
    case None => None
    case Some(x) => Some(if negative then -x else x)
  }

  /** `float(s)` on plain decimal literals with an optional sign. */
  function PyFloat(s: string): Option<real> {
    SignedDecimal(Strip(s))
  }

  /** A numeral of `n` digits is below `10^n`. */
  lemma {:induction false} DigitsBelowPow10(s: string)
    requires AllDigits(s)
    ensures DigitsValue(s) < Pow10(|s|)
    decreases |s|
  {
    if s != [] {
      DigitsBelowPow10(s[..|s| - 1]);
    }
  }

  lemma TwoDigitValue(w: string)
    requires |w| == 2 && AllDigits(w)
    ensures DigitsValue(w) == 10 * DigitValue(w[0]) + DigitValue(w[1])
  {
    var w1 := w[..1];
    assert w1[..0] == [] && w1[0] == w[0];
    assert DigitsValue(w1) == DigitValue(w[0]);
  }

  lemma ThreeDigitValue(w: string)
    requires |w| == 3 && AllDigits(w)
    ensures DigitsValue(w) == 100 * DigitValue(w[0]) + 10 * DigitValue(w[1]) + DigitValue(w[2])
  {
    var w2 := w[..2];
    assert w2[0] == w[0] && w2[1] == w[1];
    TwoDigitValue(w2);
  }

  lemma YearValue(w: string)
    requires |w| == 4 && AllDigits(w)
    ensures DigitsValue(w) == 1000 * DigitValue(w[0]) + 100 * DigitValue(w[1]) + 10 * DigitValue(w[2]) + DigitValue(w[3])
  {
    var w3 := w[..3];
    assert w3[0] == w[0] && w3[1] == w[1] && w3[2] == w[2];
    ThreeDigitValue(w3);
  }

  /** Text with no `sep` splits into itself. */
  lemma SplitNone(s: string, sep: char)
    requires sep !in s
    ensures Split(s, sep) == [s]
  {
    SplitUnique(s, sep, [s]);
  }

  lemma UnsignedDigits(w: string)
    requires |w| >= 1 && AllDigits(w)
    ensures UnsignedDecimal(w) == Some(DigitsValue(w) as real)
  {
    NoDigitIn(w, '.');
    SplitNone(w, '.');
  }

  /** `float` of a run of digits is its value. */
  lemma PyFloatDigits(w: string)
    requires |w| >= 1 && AllDigits(w)
    ensures PyFloat(w) == Some(DigitsValue(w) as real)
  {
    assert IsDigit(w[0]) && IsDigit(w[|w| - 1]);
    StripUnchanged(w);
    UnsignedDigits(w);
  }

  lemma SignedNegative(s: string)
    requires |s| >= 2 && s[0] == '-' && AllDigits(s[1..])
    ensures SignedDecimal(s) == Some(-(DigitsValue(s[1..]) as real))
  {
    UnsignedDigits(s[1..]);
  }

  /** `float` of a minus sign and a run of digits. */
  lemma PyFloatNegative(s: string)
    requires |s| >= 2 && s[0] == '-' && AllDigits(s[1..])
    ensures PyFloat(s) == Some(-(DigitsValue(s[1..]) as real))
  {
    assert s[|s| - 1] == s[1..][|s| - 2];
    StripUnchanged(s);
    SignedNegative(s);
  }

  lemma SplitPoint(w: string, f: string)
    requires AllDigits(w) && AllDigits(f)
    ensures Split(w + "." + f, '.') == [w, f]
  {
    NoDigitIn(w, '.');
    NoDigitIn(f, '.');
    assert Join([f], '.') == f;
    assert Join([w, f], '.') == w + "." + f by { assert [w, f][1..] == [f]; }
    SplitUnique(w + "." + f, '.', [w, f]);
  }

  lemma UnsignedSplit(b: string, w: string, f: string)
    requires |w| >= 1 && AllDigits(w) && |f| >= 1 && AllDigits(f)
    requires Split(b, '.') == [w, f]
    ensures UnsignedDecimal(b) == Some(DigitsValue(w) as real + FractionValue(f))
  {
    var parts := Split(b, '.');
    assert parts[0] == w && parts[1] == f && |parts| == 2;
  }

  lemma UnsignedPoint(w: string, f: string)
    requires |w| >= 1 && AllDigits(w) && |f| >= 1 && AllDigits(f)
    ensures UnsignedDecimal(w + "." + f) == Some(DigitsValue(w) as real + FractionValue(f))
  {
    SplitPoint(w, f);
    UnsignedSplit(w + "." + f, w, f);
  }

  /** `float` of `w.f` is `w` plus `f` tenths, hundredths, ... */
  lemma PyFloatDecimal(w: string, f: string)
    requires |w| >= 1 && AllDigits(w) && |f| >= 1 && AllDigits(f)
    ensures PyFloat(w + "." + f) == Some(DigitsValue(w) as real + FractionValue(f))
  {
    var s := w + "." + f;
    assert s[0] == w[0] && s[|s| - 1] == f[|f| - 1];
    assert IsDigit(w[0]) && IsDigit(f[|f| - 1]);
    StripUnchanged(s);
    UnsignedPoint(w, f);
  }

  lemma PyFloatNegativeText(i: int)
    requires i < 0
    ensures PyFloat(IntText(i)) == Some(i as real)
  {
    var s := IntText(i);
    assert s == "-" + NatText(-i);
    assert s[0] == '-' && s[1..] == NatText(-i);
    PyFloatNegative(s);
  }

  /** `float(str(i))` is `i`. */
  lemma PyFloatIntText(i: int)
    ensures PyFloat(IntText(i)) == Some(i as real)
  {
    if i < 0 {
      PyFloatNegativeText(i);
    } else {
      PyFloatDigits(NatText(i));
    }
  }

  /** Text that is not a number: no digits-only body, no point, no sign. */
  lemma PyFloatWord(s: string)
    requires s != [] && !IsSpace(s[0]) && !IsSpace(s[|s| - 1])
    requires s[0] != '+' && s[0] != '-' && '.' !in s && !AllDigits(s)
    ensures PyFloat(s).None?
  {
    StripUnchanged(s);
    SplitNone(s, '.');
  }

  // ---------------------------------------------------------------------------
  // Rendering of floating-point values

  function TrimTrailingZeros(s: string): string
    decreases |s|
  {
    if s != [] && s[|s| - 1] == '0' then TrimTrailingZeros(s[..|s| - 1]) else s
  }

  /** Fractional digits of `0 < f < 1`, to 17 places, without trailing zeros. */
  function FractionText(f: real): string
    requires 0.0 < f < 1.0
  {
    var n := (f * Pow10(17) as real).Floor;
    var digits := TrimTrailingZeros(Pad(if n < 0 then 0 else n, 17));
    if digits == [] then "0" else digits
  }

  /** `str(x)` for a finite float in positional notation: an integral value
      prints as `123.0`. */
  function RealText(x: real): string {
    var a := if x < 0.0 then -x else x;
    var whole := a.Floor;
    var sign := if x < 0.0 then "-" else "";
    if a == whole as real then sign + NatText(whole) + ".0"
    else sign + NatText(whole) + "." + FractionText(a - whole as real)
  }
}
