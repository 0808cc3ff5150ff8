/** Rows and tables cast by a Pydantic model (polarity/caster.py:45-78 and
    317-394): what each field's JSON-schema descriptor asks its values to
    become, the Polars column type that goes with it, and the two loops
    that cast one row and a whole table. */
module Casting {
  import opened Wrappers
  import opened Values
  import opened Coercion

  // ---------------------------------------------------------------------------
  // Field descriptors

  /** A JSON-schema type description: its `type` and its `format`, either of
      which may be absent. */
  datatype TypeInfo = TypeInfo(typ: Option<string>, format: Option<string>)

  /** One entry of `model_json_schema()["properties"]`: the field's name, its
      own description, and its `anyOf` list when it has one. */
  datatype Field = Field(name: string, info: TypeInfo, anyOf: Option<seq<TypeInfo>>)

  /** The first `anyOf` entry whose `type` is not `"null"` (an entry with no
      `type` at all counts, since `None != "null"`). */
  function FirstNonNull(options: seq<TypeInfo>): (r: Option<TypeInfo>)
    ensures r.None? <==> forall i :: 0 <= i < |options| ==> options[i].typ == Some("null")
    ensures r.Some? ==> exists i :: 0 <= i < |options| && options[i] == r.value && r.value.typ != Some("null") &&
                                    forall j :: 0 <= j < i ==> options[j].typ == Some("null")
    decreases |options|
  {
    if options == [] then None
    else if options[0].typ != Some("null") then Some(options[0])
    else
      var r := FirstNonNull(options[1..]);
      assert forall i :: 1 <= i < |options| ==> options[i] == options[1..][i - 1];
      if r.Some? then
        var i :| 0 <= i < |options[1..]| && options[1..][i] == r.value && r.value.typ != Some("null") &&
                 forall j :: 0 <= j < i ==> options[1..][j].typ == Some("null");
        assert options[i + 1] == r.value;
        r
      else r
  }

  /** The description a field is cast and typed by: the first non-null
      `anyOf` entry, but only when the field's own `type` is literally
      `"null"` (polarity/caster.py:55-60 and 331-336). */
  function Resolve(f: Field): (r: TypeInfo)
    ensures r != f.info ==> f.info.typ == Some("null") && f.anyOf.Some? && FirstNonNull(f.anyOf.value) == Some(r)
    ensures f.info.typ != Some("null") || f.anyOf.None? ==> r == f.info
  {
    if f.info.typ == Some("null") && f.anyOf.Some? then
      match FirstNonNull(f.anyOf.value)
      case Some(option) => option
      case None => f.info
    else f.info
  }

  /** The Python type `cast_row` hands to `attempt_cast` for a description,
      or none when no branch of polarity/caster.py:339-351 applies. */
  function TargetOf(info: TypeInfo): Option<Target> {
    if info.typ == Some("integer") then Some(TInt)
    else if info.typ == Some("number") then Some(TFloat)
    else if info.typ == Some("string") then
      if info.format == Some("date-time") then Some(TDateTime)
      else if info.format == Some("date") then Some(TDate)
      else Some(TStr)
    else if info.typ == Some("boolean") then Some(TBool)
    else None
  }

  // ---------------------------------------------------------------------------
  // _get_polars_schema

  /** The Polars data types the caster uses; `Inferred` stands for a column
      whose type Polars infers from the values. */
  datatype ColumnType = Int64 | Float64 | Utf8 | Datetime | Date | Boolean | Inferred

  /** The column type `_get_polars_schema` gives a description. */
  function ColumnOf(info: TypeInfo): ColumnType {
    if info.typ == Some("integer") then Int64
    else if info.typ == Some("number") then Float64
    else if info.typ == Some("string") then
      if info.format == Some("date-time") then Datetime
      else if info.format == Some("date") then Date
      else Utf8
    else if info.typ == Some("boolean") then Boolean
    else Utf8
  }

  /** The column type that holds the values of a Python type. */
  function ColumnFor(t: Target): ColumnType {
    match t
    case TInt => Int64
    case TFloat => Float64
    case TStr => Utf8
    case TBool => Boolean
    case TDate => Date
    case TDateTime => Datetime
  }

  /** A field's column type is the type of the values `cast_row` leaves in
      it, and a field `cast_row` leaves alone is a text column. */
  lemma ColumnMatchesCast(f: Field)
    ensures TargetOf(Resolve(f)).Some? ==> ColumnOf(Resolve(f)) == ColumnFor(TargetOf(Resolve(f)).value)
    ensures TargetOf(Resolve(f)).None? ==> ColumnOf(Resolve(f)) == Utf8
  {
  }

  /** `_get_polars_schema`: every field's name mapped to its column type,
      filled in field by field (a later field of the same name wins, as a
      dictionary assignment does). */
  function PolarsSchema(fields: seq<Field>): (r: map<string, ColumnType>)
    ensures forall i :: 0 <= i < |fields| ==> fields[i].name in r
    ensures forall c :: c in r ==> exists i :: 0 <= i < |fields| && fields[i].name == c
    decreases |fields|
  {
    if fields == [] then map[]
    else
      var init := fields[..|fields| - 1];
      assert forall i :: 0 <= i < |init| ==> init[i] == fields[i];
      PolarsSchema(init)[fields[|fields| - 1].name := ColumnOf(Resolve(fields[|fields| - 1]))]
  }

  /** A column's type in the schema is that of the last field of its name. */
  lemma {:induction false} PolarsSchemaType(fields: seq<Field>, i: int)
    requires 0 <= i < |fields| && LastOfName(fields, i)
    ensures PolarsSchema(fields)[fields[i].name] == ColumnOf(Resolve(fields[i]))
    decreases |fields|
  {
    if i < |fields| - 1 {
      var init := fields[..|fields| - 1];
      assert init[i] == fields[i];
      assert LastOfName(init, i) by {
        forall j | i < j < |init| ensures init[j].name != init[i].name {
          assert init[j] == fields[j];
        }
      }
      PolarsSchemaType(init, i);
    }
  }

  /** No field after the `i`-th has its name. */
  predicate LastOfName(fields: seq<Field>, i: int)
    requires 0 <= i < |fields|
  {
    forall j :: i < j < |fields| ==> fields[j].name != fields[i].name
  }

  /** Field names are unique, as the keys of a JSON object are. */
  predicate DistinctNames(fields: seq<Field>) {
    forall i, j :: 0 <= i < j < |fields| ==> fields[i].name != fields[j].name
  }

  // ---------------------------------------------------------------------------
  // cast_row

  /** A row, as `to_dicts()` gives it: column name to cell value. */
  type Row = map<string, Value>

  /** A Pydantic model: its fields, and what `schema(**row).model_dump()`
      makes of a row (`None` where Pydantic raises `ValidationError`). */
  datatype Model = Model(fields: seq<Field>, validate: Row -> Option<Row>)

  /** A per-value cast such as `attempt_cast`. The row and table functions
      below take it as a parameter so that their properties are proved for
      any cast with the properties they need; the caster itself uses
      `AttemptCast`. */
  type Cast = (Value, Target) -> Outcome<Value>

  /** A cast that leaves what it returned as it is. */
  ghost predicate Idempotent(cast: Cast) {
    forall v, t :: cast(v, t).Done? ==> cast(cast(v, t).value, t) == cast(v, t)
  }

  /** `attempt_cast` is such a cast. */
  lemma AttemptCastIdempotent()
    ensures Idempotent(AttemptCast)
  {
    forall v, t | AttemptCast(v, t).Done?
      ensures AttemptCast(AttemptCast(v, t).value, t) == AttemptCast(v, t)
    {
      CastIdempotent(v, t);
    }
  }

  /** One pass of the loop of polarity/caster.py:322-351. */
  function CastField(cast: Cast, f: Field, row: Row): (r: Outcome<Row>)
    ensures r.Done? ==> r.value.Keys == row.Keys
    ensures r.Done? ==> forall c :: c in row && c != f.name ==> r.value[c] == row[c]
  {
    if f.name !in row then Done(row)
    else match TargetOf(Resolve(f))
      case None => Done(row)
      case Some(t) => (
        match cast(row[f.name], t)
        case Done(v) => Done(row[f.name := v])
        case Diverges => Diverges)
  }

  /** The row after the fields have been cast in order, or `Diverges` when
      a date cast raises `RecursionError`. */
  function CastFields(cast: Cast, fields: seq<Field>, row: Row): (r: Outcome<Row>)
    ensures r.Done? ==> r.value.Keys == row.Keys
    decreases |fields|
  {
    if fields == [] then Done(row)
    else
      match CastFields(cast, fields[..|fields| - 1], row)
      case Diverges => Diverges
      case Done(r) => CastField(cast, fields[|fields| - 1], r)
  }

  /** A column no field names keeps its value. */
  lemma {:induction false} CastFieldsUntouched(cast: Cast, fields: seq<Field>, row: Row, c: string)
    requires CastFields(cast, fields, row).Done? && c in row
    requires forall i :: 0 <= i < |fields| ==> fields[i].name != c
    ensures CastFields(cast, fields, row).value[c] == row[c]
    decreases |fields|
  {
    if fields != [] {
      var init := fields[..|fields| - 1];
      assert forall i :: 0 <= i < |init| ==> init[i] == fields[i];
      CastFieldsUntouched(cast, init, row, c);
    }
  }

  /** What `cast_row` returns: the validated row, or the `ValueError` that
      carries the cast row Pydantic rejected. */
  function CastRowResult(cast: Cast, model: Model, row: Row): Outcome<Result<Row, CastError>> {
    match CastFields(cast, model.fields, row)
    case Diverges => Diverges
    case Done(processed) => (
      match model.validate(processed)
      case Some(validated) => Done(Ok(validated))
      case None => Done(Err(InvalidRow(processed))))
  }

  /** The exceptions `cast_row` and `cast_dataframe` raise. */
  datatype CastError = UnknownSchema(name: string) | InvalidRow(row: Row)

  /** `cast_row(schema, row)`. `row` is a value, so the caller's row is left
      as it was, like the copy of polarity/caster.py:319. */
  method CastRow(model: Model, row: Row) returns (r: Outcome<Result<Row, CastError>>)
    ensures r == CastRowResult(AttemptCast, model, row)
  {
    var processed := row;
    var i := 0;
    while i < |model.fields|
      invariant 0 <= i <= |model.fields|
      invariant CastFields(AttemptCast, model.fields[..i], row) == Done(processed)
    {
      var f := model.fields[i];
      CastFieldsStep(AttemptCast, model.fields, row, i, processed);
      if f.name in processed {
        var value := processed[f.name];
        var target := TargetOf(Resolve(f));
        if target.Some? {
          var cast := AttemptCast(value, target.value);
          if cast.Diverges? {
            CastFieldsDiverges(AttemptCast, model.fields, row, i + 1);
            return Diverges;
          }
          processed := processed[f.name := cast.value];
        }
      }
      i := i + 1;
    }
    assert model.fields[..i] == model.fields;
    match model.validate(processed)
    case Some(validated) =>
      r := Done(Ok(validated));
    case None =>
      r := Done(Err(InvalidRow(processed)));
  }

  /** One more pass of the loop casts one more field. */
  lemma CastFieldsStep(cast: Cast, fields: seq<Field>, row: Row, i: int, processed: Row)
    requires 0 <= i < |fields| && CastFields(cast, fields[..i], row) == Done(processed)
    ensures CastFields(cast, fields[..i + 1], row) == CastField(cast, fields[i], processed)
  {
    assert fields[..i + 1][..i] == fields[..i];
  }

  /** Once a field's cast raises, the whole row's does. */
  lemma {:induction false} CastFieldsDiverges(cast: Cast, fields: seq<Field>, row: Row, k: nat)
    requires k <= |fields| && CastFields(cast, fields[..k], row).Diverges?
    ensures CastFields(cast, fields, row).Diverges?
    decreases |fields|
  {
    if k < |fields| {
      var init := fields[..|fields| - 1];
      assert init[..k] == fields[..k];
      CastFieldsDiverges(cast, init, row, k);
    } else {
      assert fields[..k] == fields;
    }
  }

  /** With distinct names, each present field's cell is the cast of the
      cell the row came with, by the field's type. */
  lemma {:induction false} CastFieldsCells(cast: Cast, fields: seq<Field>, row: Row, i: int)
    requires DistinctNames(fields) && 0 <= i < |fields| && fields[i].name in row
    requires CastFields(cast, fields, row).Done?
    ensures CastField(cast, fields[i], row) == Done(row[fields[i].name := CastFields(cast, fields, row).value[fields[i].name]])
    decreases |fields|
  {
    var init := fields[..|fields| - 1];
    var last := fields[|fields| - 1];
    var before := CastFields(cast, init, row).value;
    if i < |fields| - 1 {
      assert init[i] == fields[i];
      assert DistinctNames(init) by {
        forall a, b | 0 <= a < b < |init| ensures init[a].name != init[b].name {
          assert init[a] == fields[a] && init[b] == fields[b];
        }
      }
      CastFieldsCells(cast, init, row, i);
      assert last.name != fields[i].name;
    } else {
      assert forall k :: 0 <= k < |init| ==> init[k].name != last.name by {
        forall k | 0 <= k < |init| ensures init[k].name != last.name {
          assert init[k] == fields[k];
        }
      }
      CastFieldsUntouched(cast, init, row, last.name);
      assert row[last.name := row[last.name]] == row;
    }
  }

  /** With distinct names, the cast of a row returns exactly when the cast
      of each of its fields, on the row as it came, returns. */
  lemma {:induction false} CastFieldsDone(cast: Cast, fields: seq<Field>, row: Row)
    requires DistinctNames(fields)
    ensures CastFields(cast, fields, row).Done? <==> forall i :: 0 <= i < |fields| ==> CastField(cast, fields[i], row).Done?
    decreases |fields|
  {
    if fields != [] {
      var init := fields[..|fields| - 1];
      var last := fields[|fields| - 1];
      assert forall k :: 0 <= k < |init| ==> init[k] == fields[k];
      CastFieldsDone(cast, init, row);
      if CastFields(cast, init, row).Done? {
        assert forall k :: 0 <= k < |init| ==> init[k].name != last.name;
        var r := CastFields(cast, init, row).value;
        if last.name in row {
          CastFieldsUntouched(cast, init, row, last.name);
        }
        assert CastField(cast, last, r).Done? <==> CastField(cast, last, row).Done?;
      }
    }
  }

  /** Casting the `i`-th field of a cast row again returns, and leaves the
      cell as it is. */
  lemma RecastField(cast: Cast, fields: seq<Field>, row: Row, i: int)
    requires Idempotent(cast) && DistinctNames(fields) && 0 <= i < |fields|
    requires CastFields(cast, fields, row).Done?
    ensures CastField(cast, fields[i], CastFields(cast, fields, row).value) == Done(CastFields(cast, fields, row).value)
  {
    var once := CastFields(cast, fields, row).value;
    var c := fields[i].name;
    var t := TargetOf(Resolve(fields[i]));
    if c in once && t.Some? {
      CastFieldsCells(cast, fields, row, i);
      assert cast(row[c], t.value) == Done(once[c]);
      assert cast(cast(row[c], t.value).value, t.value) == cast(row[c], t.value);
      assert once[c := once[c]] == once;
    }
  }

  /** With an idempotent cast such as `attempt_cast`, casting a cast row
      again changes nothing. */
  lemma {:induction false} CastFieldsIdempotent(cast: Cast, fields: seq<Field>, row: Row)
    requires Idempotent(cast) && DistinctNames(fields) && CastFields(cast, fields, row).Done?
    ensures CastFields(cast, fields, CastFields(cast, fields, row).value) == CastFields(cast, fields, row)
  {
    var once := CastFields(cast, fields, row).value;
    RecastPrefix(cast, fields, row, |fields|);
    assert fields[..|fields|] == fields;
  }

  /** The first `k` fields of a cast row, cast again, give the row back. */
  lemma {:induction false} RecastPrefix(cast: Cast, fields: seq<Field>, row: Row, k: nat)
    requires Idempotent(cast) && DistinctNames(fields) && k <= |fields| && CastFields(cast, fields, row).Done?
    ensures CastFields(cast, fields[..k], CastFields(cast, fields, row).value) == CastFields(cast, fields, row)
    decreases k
  {
    if k > 0 {
      RecastPrefix(cast, fields, row, k - 1);
      assert fields[..k][..k - 1] == fields[..k - 1];
      RecastField(cast, fields, row, k - 1);
    }
  }

  // ---------------------------------------------------------------------------
  // cast_dataframe

  /** A Polars data frame: its column types and its rows. */
  datatype Frame = Frame(types: map<string, ColumnType>, rows: seq<Row>)

  /** Every column any of the rows has. */
  function Columns(rows: seq<Row>): (r: set<string>)
    ensures forall i, c :: 0 <= i < |rows| && c in rows[i] ==> c in r
    ensures forall c :: c in r ==> exists i :: 0 <= i < |rows| && c in rows[i]
    decreases |rows|
  {
    if rows == [] then {}
    else
      var init := rows[..|rows| - 1];
      assert forall i :: 0 <= i < |init| ==> init[i] == rows[i];
      Columns(init) + rows[|rows| - 1].Keys
  }

  /** `pl.DataFrame(schema=polars_schema)`: no rows, the model's column
      types. */
  function EmptyFrame(model: Model): Frame {
    Frame(PolarsSchema(model.fields), [])
  }

  /** The frame built from the cast rows: the model's type for each of its
      columns the model has a field for, an inferred type for the others. */
  function RowsFrame(model: Model, rows: seq<Row>): (r: Frame)
    ensures r.rows == rows && r.types.Keys == Columns(rows)
    ensures forall c :: c in r.types ==> r.types[c] == if c in PolarsSchema(model.fields) then PolarsSchema(model.fields)[c] else Inferred
  {
    var schema := PolarsSchema(model.fields);
    Frame(map c | c in Columns(rows) :: if c in schema then schema[c] else Inferred, rows)
  }

  /** The rows `cast_dataframe` keeps: each row's validated form, in order,
      with the rows Pydantic rejects dropped; `Diverges` when a row's cast
      raises `RecursionError`, which the `except ValueError` lets through. */
  function CastRows(cast: Cast, model: Model, rows: seq<Row>): Outcome<seq<Row>>
    decreases |rows|
  {
    if rows == [] then Done([])
    else match CastRows(cast, model, rows[..|rows| - 1])
      case Diverges => Diverges
      case Done(kept) => (
        match CastRowResult(cast, model, rows[|rows| - 1])
        case Diverges => Diverges
        case Done(Ok(validated)) => Done(kept + [validated])
        case Done(Err(_)) => Done(kept))
  }

  /** `cast_dataframe` once the model is found: an empty table, or one whose
      rows all fail, gives the model's empty frame. */
  function CastTable(cast: Cast, model: Model, frame: Frame): (r: Outcome<Frame>)
    ensures r.Done? && (frame.rows == [] || r.value.rows == []) ==> r.value == EmptyFrame(model)
  {
    if frame.rows == [] then Done(EmptyFrame(model))
    else match CastRows(cast, model, frame.rows)
      case Diverges => Diverges
      case Done(kept) => Done(if kept == [] then EmptyFrame(model) else RowsFrame(model, kept))
  }

  /** `cast_dataframe(df, schema_name)`. */
  function CastDataframeResult(cast: Cast, models: map<string, Model>, frame: Frame, name: string): Outcome<Result<Frame, CastError>> {
    if name !in models then Done(Err(UnknownSchema(name)))
    else match CastTable(cast, models[name], frame)
      case Diverges => Diverges
      case Done(table) => Done(Ok(table))
  }

  /** `cast_dataframe(df, schema_name)`. */
  method CastDataframe(models: map<string, Model>, frame: Frame, name: string) returns (r: Outcome<Result<Frame, CastError>>)
    ensures r == CastDataframeResult(AttemptCast, models, frame, name)
  {
    if name !in models {
      return Done(Err(UnknownSchema(name)));
    }
    var table := CastFrame(models[name], frame);
    if table.Diverges? {
      return Diverges;
    }
    return Done(Ok(table.value));
  }

  /** The body of `cast_dataframe` once the model is found: the rows are
      cast one by one, and those Pydantic rejects are skipped. */
  method CastFrame(model: Model, frame: Frame) returns (r: Outcome<Frame>)
    ensures r == CastTable(AttemptCast, model, frame)
  {
    if frame.rows == [] {
      return Done(EmptyFrame(model));
    }
    var kept: seq<Row> := [];
    for i := 0 to |frame.rows|
      invariant CastRows(AttemptCast, model, frame.rows[..i]) == Done(kept)
    {
      CastRowsStep(AttemptCast, model, frame.rows, i, kept);
      var cast := CastRow(model, frame.rows[i]);
      if cast.Diverges? {
        CastRowsDiverges(AttemptCast, model, frame.rows, i + 1);
        return Diverges;
      }
      if cast.value.Ok? {
        kept := kept + [cast.value.value];
      } else {
        assert kept + [] == kept;
      }
    }
    assert frame.rows[..|frame.rows|] == frame.rows;
    if kept == [] {
      return Done(EmptyFrame(model));
    }
    return Done(RowsFrame(model, kept));
  }

  /** One more pass of the loop casts one more row. */
  lemma CastRowsStep(cast: Cast, model: Model, rows: seq<Row>, i: int, kept: seq<Row>)
    requires 0 <= i < |rows| && CastRows(cast, model, rows[..i]) == Done(kept)
    ensures CastRows(cast, model, rows[..i + 1]) == Join(Done(kept), Kept(cast, model, rows[i]))
  {
    assert rows[..i + 1][..i] == rows[..i];
    assert kept + [] == kept;
  }

  /** Once a row's cast raises, the table's does. */
  lemma {:induction false} CastRowsDiverges(cast: Cast, model: Model, rows: seq<Row>, k: nat)
    requires k <= |rows| && CastRows(cast, model, rows[..k]).Diverges?
    ensures CastRows(cast, model, rows).Diverges?
    decreases |rows|
  {
    if k < |rows| {
      var init := rows[..|rows| - 1];
      assert init[..k] == rows[..k];
      CastRowsDiverges(cast, model, init, k);
    } else {
      assert rows[..k] == rows;
    }
  }

  /** How one row fares on its own: its validated form, nothing, or the
      `RecursionError`. */
  function Kept(cast: Cast, model: Model, row: Row): Outcome<seq<Row>> {
    match CastRowResult(cast, model, row)
    case Diverges => Diverges
    case Done(Ok(validated)) => Done([validated])
    case Done(Err(_)) => Done([])
  }

  /** Two outcomes in sequence: the first `RecursionError` wins. */
  function Join(a: Outcome<seq<Row>>, b: Outcome<seq<Row>>): Outcome<seq<Row>> {
    if a.Diverges? || b.Diverges? then Diverges else Done(a.value + b.value)
  }

  /** Casting a table is casting each row on its own, in order: the rows
      kept are the validated rows in their original order, and every
      rejected row is dropped without affecting the others. */
  lemma {:induction false} CastRowsAppend(cast: Cast, model: Model, a: seq<Row>, b: seq<Row>)
    ensures CastRows(cast, model, a + b) == Join(CastRows(cast, model, a), CastRows(cast, model, b))
    decreases |b|
  {
    if b == [] {
      assert a + b == a;
      if CastRows(cast, model, a).Done? {
        assert CastRows(cast, model, a).value + [] == CastRows(cast, model, a).value;
      }
    } else {
      var init := b[..|b| - 1];
      assert (a + b)[..|a + b| - 1] == a + init && (a + b)[|a + b| - 1] == b[|b| - 1];
      CastRowsAppend(cast, model, a, init);
      if CastRows(cast, model, a).Done? && CastRows(cast, model, init).Done? {
        var x, y := CastRows(cast, model, a).value, CastRows(cast, model, init).value;
        assert forall z :: x + y + z == x + (y + z);
      }
    }
  }

  /** A table of one row keeps that row's validated form or nothing. */
  lemma CastRowsOne(cast: Cast, model: Model, row: Row)
    ensures CastRows(cast, model, [row]) == Kept(cast, model, row)
  {
    assert [row][..0] == [];
    assert forall x: Row :: [] + [x] == [x];
  }
}
