/** The values a row cell can hold, and the Python types `attempt_cast`
    converts them to. */
module Values {
  import opened Calendar

  /** A Python `float`: a finite real or NaN. */
  datatype Float = Finite(x: real) | NaN

  /** A cell value. `Null` is Python's `None`; `Other` is any value of a type
      the caster has no branch for (such as `time` or `bytes`), known by its
      `str()` text and its truth value. */
  datatype Value =
    | Null
    | Text(s: string)
    | Int(i: int)
    | Bool(b: bool)
    | Real(f: Float)
    | DateVal(d: PyDate)
    | DateTimeVal(t: PyDateTime)
    | Other(text: string, truthy: bool)

  /** The Python types `attempt_cast` is asked for. */
  datatype Target = TInt | TFloat | TStr | TBool | TDate | TDateTime

  /** `isinstance(v, target)`: a `bool` is an `int` and a `datetime` is a
      `date`. */
  predicate IsInstance(v: Value, t: Target) {
    match t
    case TInt => v.Int? || v.Bool?
    case TFloat => v.Real?
    case TStr => v.Text?
    case TBool => v.Bool?
    case TDate => v.DateVal? || v.DateTimeVal?
    case TDateTime => v.DateTimeVal?
  }

  /** `x.is_integer()` for a finite float. */
  predicate Integral(x: real) {
    x == x.Floor as real
  }
}
