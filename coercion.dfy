/** `attempt_cast` (polarity/caster.py:80-134): one value converted to one
    target type, with every `ValueError`, `TypeError` and `OverflowError`
    turned into `None`, and the `RecursionError` of the date parsers let
    through. */
module Coercion {
  import opened Wrappers
  import opened Text
  import opened Calendar
  import opened Values
  import opened Temporal
  import opened TemporalText

  /** Lower-cased, stripped text that reads as `True`. */
  const TrueWords: set<string> := {"true", "yes", "1", "t", "y"}
  /** Lower-cased, stripped text that reads as `False`. */
  const FalseWords: set<string> := {"false", "no", "0", "f", "n", ""}

  // ---------------------------------------------------------------------------
  // One branch per target

  /** The `int` branch for a value that is not already an `int` or `bool`:
      text through `float`, and a float, only when integral. */
  function ToInt(v: Value): Value
  {
    match v
    case Text(s) => (
      match PyFloat(s)
      case Some(x) => if Integral(x) then Int(x.Floor) else Null
      case None => Null)
    case Real(f) => (
      match f
      case Finite(x) => if Integral(x) then Int(x.Floor) else Null
      case NaN => Null)
    case _ => Null
  }

  /** `float(value)` for a value that is not already a `float`. */
  function ToFloat(v: Value): Value
  {
    match v
    case Text(s) => (
      match PyFloat(s)
      case Some(x) => Real(Finite(x))
      case None => Null)
    case Int(i) => Real(Finite(i as real))
    case Bool(b) => Real(Finite(if b then 1.0 else 0.0))
    case _ => Null
  }

  /** `str(value)`. */
  function StrOf(v: Value): string {
    match v
    case Null => "None"
    case Text(s) => s
    case Int(i) => IntText(i)
    case Bool(b) => if b then "True" else "False"
    case Real(f) => (
      match f
      case Finite(x) => RealText(x)
      case NaN => "nan")
    case DateVal(d) => DateText(d)
    case DateTimeVal(t) => DateTimeText(t)
    case Other(text, _) => text
  }

  /** The `bool` branch for a value that is not already a `bool`. */
  function ToBool(v: Value): Value
  {
    match v
    case Text(s) =>
      var word := Strip(Lower(s));
      if word in TrueWords then Bool(true)
      else if word in FalseWords then Bool(false)
      else Bool(word != "")
    case Int(i) => Bool(i != 0)
    case Real(f) => (
      match f
      case Finite(x) => Bool(x != 0.0)
      case NaN => Null)
    case DateVal(_) => Bool(true)
    case DateTimeVal(_) => Bool(true)
    case Other(_, truthy) => Bool(truthy)
    case _ => Null
  }

  /** `parse_date(value)` for a value that is not already a `date`. */
  function ToDate(v: Value): Outcome<Value>
  {
    match v
    case Text(s) => (
      match ParseDate(s)
      case Done(d) => Done(DateVal(d))
      case Diverges => Diverges)
    case _ => Done(Null)
  }

  /** `parse_datetime(value)` for a value that is not already a `datetime`. */
  function ToDateTime(v: Value): Outcome<Value>
  {
    match v
    case DateVal(d) => Done(DateTimeVal(Midnight(d)))
    case Text(s) => (
      match ParseDateTime(s)
      case Done(t) => Done(DateTimeVal(t))
      case Diverges => Diverges)
    case _ => Done(Null)
  }

  // ---------------------------------------------------------------------------
  // attempt_cast

  /** `attempt_cast(value, target)`. `None` stays `None`, a value already of
      the target type is returned as it is, and anything else comes back
      either as `None` or as a value of the target type; only text parsed as
      a date or datetime can fail to come back at all. */
  function AttemptCast(v: Value, t: Target): (r: Outcome<Value>)
    ensures v.Null? ==> r == Done(Null)
    ensures IsInstance(v, t) ==> r == Done(v)
    ensures r.Done? ==> r.value.Null? || IsInstance(r.value, t)
    ensures r.Diverges? ==> v.Text? && (t == TDate || t == TDateTime)
  {
    if v.Null? then Done(Null)
    else if IsInstance(v, t) then Done(v)
    else match t
      case TInt => Done(ToInt(v))
      case TFloat => Done(ToFloat(v))
      case TStr => Done(Text(StrOf(v)))
      case TBool => Done(ToBool(v))
      case TDate => ToDate(v)
      case TDateTime => ToDateTime(v)
  }

  /** Casting what a cast returned changes nothing. */
  lemma CastIdempotent(v: Value, t: Target)
    requires AttemptCast(v, t).Done?
    ensures AttemptCast(AttemptCast(v, t).value, t) == AttemptCast(v, t)
  {
  }

  // ---------------------------------------------------------------------------
  // int

  /** An `int` comes back only when the text or float denotes exactly that
      integer, and always when it does. */
  lemma IntCastExact(v: Value, n: int)
    requires !v.Int? && !v.Bool?
    ensures AttemptCast(v, TInt) == Done(Int(n)) <==>
      (v.Text? && PyFloat(v.s) == Some(n as real)) || v == Real(Finite(n as real))
  {
    if v.Text? && PyFloat(v.s) == Some(n as real) {
      assert Integral(n as real);
    }
  }

  /** Text written by `str(int)` reads back as the same `int`. */
  lemma IntTextCast(i: int)
    ensures AttemptCast(Text(IntText(i)), TInt) == Done(Int(i))
  {
    PyFloatIntText(i);
    IntCastExact(Text(IntText(i)), i);
  }

  /** `w.f` with a fraction part that is not all zeros is no whole number. */
  lemma FractionNotIntegral(w: string, f: string)
    requires |w| >= 1 && AllDigits(w) && |f| >= 1 && AllDigits(f)
    requires exists i :: 0 <= i < |f| && f[i] != '0'
    ensures PyFloat(w + "." + f).Some? && !Integral(PyFloat(w + "." + f).value)
  {
    PyFloatDecimal(w, f);
    FractionPositive(f);
    WholePlusFraction(PyFloat(w + "." + f), DigitsValue(w), FractionValue(f));
  }

  /** A whole number plus a proper fraction is no whole number. */
  lemma WholePlusFraction(x: Option<real>, n: nat, q: real)
    requires x == Some(n as real + q) && 0.0 < q < 1.0
    ensures x.Some? && !Integral(x.value)
  {
    assert (n as real + q).Floor == n;
  }

  /** A fraction part that is not all zeros makes the text no `int`. */
  lemma FractionNotInt(w: string, f: string)
    requires |w| >= 1 && AllDigits(w) && |f| >= 1 && AllDigits(f)
    requires exists i :: 0 <= i < |f| && f[i] != '0'
    ensures AttemptCast(Text(w + "." + f), TInt) == Done(Null)
  {
    FractionNotIntegral(w, f);
  }

  /** `"123"` and `"123.0"` are the `int` 123 (tests/test_validator.py). */
  lemma IntOfText()
    ensures AttemptCast(Text("123"), TInt) == Done(Int(123))
    ensures AttemptCast(Text("123.0"), TInt) == Done(Int(123))
  {
    Float123();
    FloatPointZero();
  }

  /** `"123.55"` and `"abc"` are no `int` (tests/test_validator.py). */
  lemma IntOfOtherText()
    ensures AttemptCast(Text("123.55"), TInt) == Done(Null)
    ensures AttemptCast(Text("abc"), TInt) == Done(Null)
  {
    PointFiftyFive();
    WordNotInt();
  }

  lemma WordNotInt()
    ensures AttemptCast(Text("abc"), TInt) == Done(Null)
  {
    PyFloatWord("abc");
  }

  /** The float 123.0 is the `int` 123, and 123.55 no `int`
      (tests/test_validator.py). */
  lemma IntOfFloat()
    ensures AttemptCast(Real(Finite(123.0)), TInt) == Done(Int(123))
    ensures AttemptCast(Real(Finite(123.55)), TInt) == Done(Null)
  {
    assert 123.55.Floor == 123;
  }

  // The decimal texts of the examples, read piece by piece.

  lemma DottedTexts()
    ensures "123" + "." + "0" == "123.0"
    ensures "123" + "." + "45" == "123.45"
    ensures "123" + "." + "55" == "123.55"
  {
  }

  lemma Float123()
    ensures PyFloat("123") == Some(123.0)
  {
    ThreeDigitValue("123");
    PyFloatDigits("123");
  }

  lemma FloatPointZeroParts()
    ensures PyFloat("123" + "." + "0") == Some(123.0)
  {
    ThreeDigitValue("123");
    assert FractionValue("0") == 0.0 by { assert "0"[1..] == []; }
    PyFloatDecimal("123", "0");
  }

  lemma FloatPointZero()
    ensures PyFloat("123.0") == Some(123.0)
  {
    FloatPointZeroParts();
    DottedTexts();
  }

  lemma FloatPointFortyFiveParts()
    ensures PyFloat("123" + "." + "45") == Some(123.45)
  {
    ThreeDigitValue("123");
    TwoDigitFraction("45");
    PyFloatDecimal("123", "45");
  }

  lemma FloatPointFortyFive()
    ensures PyFloat("123.45") == Some(123.45)
  {
    FloatPointFortyFiveParts();
    DottedTexts();
  }

  lemma PointFiftyFiveParts()
    ensures AttemptCast(Text("123" + "." + "55"), TInt) == Done(Null)
  {
    assert "55"[0] != '0';
    FractionNotInt("123", "55");
  }

  lemma PointFiftyFive()
    ensures AttemptCast(Text("123.55"), TInt) == Done(Null)
  {
    PointFiftyFiveParts();
    DottedTexts();
  }

  // ---------------------------------------------------------------------------
  // float

  /** Text becomes a `float` exactly when `float()` reads it; numbers
      always do. */
  lemma FloatCast(v: Value, x: real)
    requires !v.Real?
    ensures AttemptCast(v, TFloat) == Done(Real(Finite(x))) <==>
      || (v.Text? && PyFloat(v.s) == Some(x))
      || (v.Int? && x == v.i as real)
      || (v.Bool? && x == if v.b then 1.0 else 0.0)
  {
  }

  /** `"123.45"` and `"123"` are floats, `"abc"` is none
      (tests/test_validator.py). */
  lemma FloatOfText()
    ensures AttemptCast(Text("123.45"), TFloat) == Done(Real(Finite(123.45)))
    ensures AttemptCast(Text("123"), TFloat) == Done(Real(Finite(123.0)))
    ensures AttemptCast(Text("abc"), TFloat) == Done(Null)
  {
    FloatPointFortyFive();
    FloatOfParsed("123.45", Some(123.45));
    Float123();
    FloatOfParsed("123", Some(123.0));
    PyFloatWord("abc");
    FloatOfParsed("abc", None);
  }

  /** The `float` branch on text is `float()` of the text. */
  lemma FloatOfParsed(s: string, r: Option<real>)
    requires PyFloat(s) == r
    ensures AttemptCast(Text(s), TFloat) == Done(if r.Some? then Real(Finite(r.value)) else Null)
  {
    assert ToFloat(Text(s)) == if r.Some? then Real(Finite(r.value)) else Null;
  }

  // ---------------------------------------------------------------------------
  // str

  /** `str` of an `int`, a `float` and the two `bool`s
      (tests/test_validator.py). */
  lemma StrOfValues()
    ensures AttemptCast(Int(123), TStr) == Done(Text("123"))
    ensures AttemptCast(Text("123.0"), TStr) == Done(Text("123.0"))
    ensures AttemptCast(Real(Finite(123.0)), TStr) == Done(Text("123.0"))
    ensures AttemptCast(Bool(false), TStr) == Done(Text("False"))
    ensures AttemptCast(Bool(true), TStr) == Done(Text("True"))
  {
    IntText123();
    RealText123();
  }

  lemma IntText123()
    ensures IntText(123) == "123"
  {
    assert NatText(12) == NatText(1) + [DigitChar(2)];
    assert DigitChar(1) == '1' && DigitChar(2) == '2' && DigitChar(3) == '3';
  }

  lemma RealText123()
    ensures RealText(123.0) == "123.0"
  {
    IntText123();
  }

  /** A date parsed from text is cast to that date. */
  lemma DateOfText(s: string, d: PyDate)
    requires ParseDate(s) == Done(d)
    ensures AttemptCast(Text(s), TDate) == Done(DateVal(d))
  {
    DateCastBranch(s);
    DateBranch(s, d);
  }

  /** Text is cast to a date by `parse_date`. */
  lemma DateCastBranch(s: string)
    ensures AttemptCast(Text(s), TDate) == ToDate(Text(s))
  {
  }

  /** Text is cast to a datetime by `parse_datetime`. */
  lemma DateTimeCastBranch(s: string)
    ensures AttemptCast(Text(s), TDateTime) == ToDateTime(Text(s))
  {
  }

  /** A value that `str` writes as `s`, and that text `s` is cast back to,
      survives the cast to `str` and back. */
  lemma StrRoundTrip(v: Value, t: Target, s: string)
    requires !v.Null? && !v.Text? && StrOf(v) == s
    requires AttemptCast(Text(s), t) == Done(v)
    ensures AttemptCast(AttemptCast(v, TStr).value, t) == Done(v)
  {
  }

  /** `str` of a date is its ISO text. */
  lemma StrOfDate(d: PyDate)
    ensures StrOf(DateVal(d)) == DateText(d)
  {
  }

  /** `str` of a datetime is its ISO text. */
  lemma StrOfDateTime(t: PyDateTime)
    ensures StrOf(DateTimeVal(t)) == DateTimeText(t)
  {
    StrOfTemporal(DateTimeVal(t));
  }

  lemma StrOfTemporal(v: Value)
    ensures v.DateTimeVal? ==> StrOf(v) == DateTimeText(v.t)
  {
  }

  lemma DateBranch(s: string, d: PyDate)
    requires ParseDate(s) == Done(d)
    ensures ToDate(Text(s)) == Done(DateVal(d))
  {
  }

  /** A datetime parsed from text is cast to that datetime. */
  lemma DateTimeOfText(s: string, t: PyDateTime)
    requires ParseDateTime(s) == Done(t)
    ensures AttemptCast(Text(s), TDateTime) == Done(DateTimeVal(t))
  {
    DateTimeCastBranch(s);
    DateTimeBranch(s, t);
  }

  lemma DateTimeBranch(s: string, t: PyDateTime)
    requires ParseDateTime(s) == Done(t)
    ensures ToDateTime(Text(s)) == Done(DateTimeVal(t))
  {
  }

  /** What `str` writes of an `int`, the `int` branch reads back. */
  lemma IntStrRoundTrip(i: int)
    ensures AttemptCast(AttemptCast(Int(i), TStr).value, TInt) == Done(Int(i))
  {
    IntTextCast(i);
  }

  /** What `str` writes of a `bool`, the `bool` branch reads back. */
  lemma BoolStrRoundTrip(b: bool)
    ensures AttemptCast(AttemptCast(Bool(b), TStr).value, TBool) == Done(Bool(b))
  {
    BoolWordsOfStr();
  }

  /** What `str` writes of a `date`, the `date` branch reads back. */
  lemma DateStrRoundTrip(d: PyDate)
    ensures AttemptCast(AttemptCast(DateVal(d), TStr).value, TDate) == Done(DateVal(d))
  {
    StrOfDate(d);
    DateTextCast(d);
    StrRoundTrip(DateVal(d), TDate, DateText(d));
  }

  /** The text `str` writes of a date is cast back to it. */
  lemma DateTextCast(d: PyDate)
    ensures AttemptCast(Text(DateText(d)), TDate) == Done(DateVal(d))
  {
    DateTextRoundTrip(d);
    DateOfText(DateText(d), d);
  }

  /** What `str` writes of a `datetime`, the `datetime` branch reads back. */
  lemma DateTimeStrRoundTrip(t: PyDateTime)
    ensures AttemptCast(AttemptCast(DateTimeVal(t), TStr).value, TDateTime) == Done(DateTimeVal(t))
  {
    StrOfDateTime(t);
    DateTimeTextCast(t);
    StrRoundTrip(DateTimeVal(t), TDateTime, DateTimeText(t));
  }

  /** The text `str` writes of a datetime is cast back to it. */
  lemma DateTimeTextCast(t: PyDateTime)
    ensures AttemptCast(Text(DateTimeText(t)), TDateTime) == Done(DateTimeVal(t))
  {
    DateTimeTextRoundTrip(t);
    DateTimeOfText(DateTimeText(t), t);
  }

  lemma BoolWordsOfStr()
    ensures Strip(Lower("True")) == "true" && Strip(Lower("False")) == "false"
  {
    assert Lower("True") == "true";
    assert Lower("False") == "false";
    StripUnchanged("true");
    StripUnchanged("false");
  }

  // ---------------------------------------------------------------------------
  // bool

  /** Text is lower-cased and stripped: the false words give `False`, and
      every other text, the true words included, gives `True`. */
  lemma BoolOfText(s: string)
    ensures AttemptCast(Text(s), TBool) == Done(Bool(Strip(Lower(s)) !in FalseWords))
    ensures Strip(Lower(s)) in TrueWords ==> AttemptCast(Text(s), TBool) == Done(Bool(true))
  {
    assert TrueWords * FalseWords == {};
  }

  /** A number is `True` exactly when nonzero; NaN gives `None`; dates are
      always `True`. */
  lemma BoolOfNonText(v: Value)
    requires !v.Text? && !v.Null? && !v.Bool?
    ensures v.Int? ==> AttemptCast(v, TBool) == Done(Bool(v.i != 0))
    ensures v.Real? && v.f.Finite? ==> AttemptCast(v, TBool) == Done(Bool(v.f.x != 0.0))
    ensures AttemptCast(v, TBool) == Done(Null) <==> v == Real(NaN)
    ensures v.DateVal? || v.DateTimeVal? ==> AttemptCast(v, TBool) == Done(Bool(true))
  {
  }

  /** A word already lower-case and unpadded is read as it is. */
  lemma BoolOfWord(s: string)
    requires Lower(s) == s && Strip(s) == s
    ensures AttemptCast(Text(s), TBool) == Done(Bool(s !in FalseWords))
  {
    BoolOfText(s);
  }

  lemma PlainWords()
    ensures Lower("yes") == "yes" && Lower("no") == "no" && Lower("abc") == "abc"
    ensures Lower("1") == "1" && Lower("0") == "0" && Lower("") == ""
    ensures Lower("false") == "false"
  {
  }

  lemma UnpaddedWords()
    ensures Strip("yes") == "yes" && Strip("no") == "no" && Strip("abc") == "abc"
    ensures Strip("1") == "1" && Strip("0") == "0" && Strip("") == ""
    ensures Strip("false") == "false"
  {
    StripUnchanged("yes");
    StripUnchanged("no");
    StripUnchanged("abc");
    StripUnchanged("1");
    StripUnchanged("0");
    StripUnchanged("");
    StripUnchanged("false");
  }

  /** `"True"`, `"yes"`, `"1"` and `"abc"` are `True`
      (tests/test_validator.py). */
  lemma BoolOfTrueText()
    ensures AttemptCast(Text("True"), TBool) == Done(Bool(true))
    ensures AttemptCast(Text("yes"), TBool) == Done(Bool(true))
    ensures AttemptCast(Text("1"), TBool) == Done(Bool(true))
    ensures AttemptCast(Text("abc"), TBool) == Done(Bool(true))
  {
    BoolWordsOfStr();
    BoolOfText("True");
    PlainWords();
    UnpaddedWords();
    BoolOfWord("yes");
    BoolOfWord("1");
    BoolOfWord("abc");
  }

  /** `"false"`, `"no"`, `"0"` and `""` are `False`
      (tests/test_validator.py). */
  lemma BoolOfFalseText()
    ensures AttemptCast(Text("false"), TBool) == Done(Bool(false))
    ensures AttemptCast(Text("no"), TBool) == Done(Bool(false))
    ensures AttemptCast(Text("0"), TBool) == Done(Bool(false))
    ensures AttemptCast(Text(""), TBool) == Done(Bool(false))
  {
    PlainWords();
    UnpaddedWords();
    BoolOfWord("false");
    BoolOfWord("no");
    BoolOfWord("0");
    BoolOfWord("");
  }

  // ---------------------------------------------------------------------------
  // date and datetime

  /** A `date` becomes midnight of that day; a `datetime` asked for as a
      `date` stays the `datetime` it is; no number or other value is a
      date. */
  lemma TemporalOfValues(v: Value)
    ensures v.DateVal? ==> AttemptCast(v, TDateTime) == Done(DateTimeVal(Midnight(v.d)))
    ensures v.DateTimeVal? ==> AttemptCast(v, TDate) == Done(v)
    ensures !v.Text? && !v.DateVal? && !v.DateTimeVal? ==>
      AttemptCast(v, TDate) == Done(Null) && AttemptCast(v, TDateTime) == Done(Null)
  {
  }

  /** Only text asked for as a date or datetime can fail to come back, and
      it fails exactly when the parser does. */
  lemma CastDiverges(v: Value, t: Target)
    ensures AttemptCast(v, t).Diverges? <==>
      v.Text? && ((t == TDate && ParseDate(v.s).Diverges?) || (t == TDateTime && ParseDateTime(v.s).Diverges?))
  {
  }

  /** Text that no stage of either parser reads, such as `"abc"`, does not
      come back from `attempt_cast` as `None`: the call never returns. */
  lemma UnparseableTextDiverges(s: string)
    requires DateStages(s).None? && DateTimeStages(s).None?
    ensures AttemptCast(Text(s), TDate).Diverges? && AttemptCast(Text(s), TDateTime).Diverges?
  {
    UnparseableDateDiverges(s);
    UnparseableDateTimeDiverges(s);
  }

  lemma UnparseableDateDiverges(s: string)
    requires DateStages(s).None? && DateTimeStages(s).None?
    ensures AttemptCast(Text(s), TDate).Diverges?
  {
    DateCastBranch(s);
  }

  lemma UnparseableDateTimeDiverges(s: string)
    requires DateStages(s).None? && DateTimeStages(s).None?
    ensures AttemptCast(Text(s), TDateTime).Diverges?
  {
    DateTimeCastBranch(s);
  }
}
