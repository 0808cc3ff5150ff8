/** `split_dataframe` (polarity/caster.py:396-507): the new table's rows
    split three ways against the stored table, by the first primary key:
    rows to insert, rows equal to the stored ones, and rows to update. */
module Reconcile {
  import opened Wrappers
  import opened Values
  import opened Coercion
  import opened Casting

  // ---------------------------------------------------------------------------
  // Errors and the checks on the original tables

  /** Which of the two tables an error is about. */
  datatype Side = New | Stored

  /** The exceptions `split_dataframe` raises, in the order it checks for
      them: `KeyError` for the schema name, `ValueError` for the primary
      keys, and Polars' `ColumnNotFoundError` when a key column is missing
      from a cast table. */
  datatype SplitError =
    | NoSchema(name: string)
    | NoPrimaryKeys
    | MissingPrimaryKey(pk: string, side: Side)
    | NullPrimaryKey(pk: string, count: nat, side: Side)
    | ColumnNotFound(column: string, side: Side)

  /** The three tables `split_dataframe` returns. */
  datatype Split = Split(insert: Frame, equal: Frame, update: Frame)

  /** A cell as `to_dicts()` and Polars expressions see it: a column the row
      lacks holds null. */
  function Get(row: Row, c: string): Value {
    if c in row then row[c] else Null
  }

  /** The loop of polarity/caster.py:416-420: the first key column missing
      from the new table, or else from the stored table. */
  function MissingKey(pks: seq<string>, newCols: set<string>, dbCols: set<string>): (r: Option<SplitError>)
    ensures r.None? <==> forall i :: 0 <= i < |pks| ==> pks[i] in newCols && pks[i] in dbCols
    ensures r.Some? ==> r.value.MissingPrimaryKey? && r.value.pk in pks &&
                        (r.value.side == New ==> r.value.pk !in newCols) &&
                        (r.value.side == Stored ==> r.value.pk in newCols && r.value.pk !in dbCols)
    ensures r.Some? ==> exists i :: 0 <= i < |pks| && pks[i] == r.value.pk &&
                          (forall j :: 0 <= j < i ==> pks[j] in newCols && pks[j] in dbCols) &&
                          (r.value.side == New <==> pks[i] !in newCols)
    decreases |pks|
  {
    if pks == [] then None
    else if pks[0] !in newCols then Some(MissingPrimaryKey(pks[0], New))
    else if pks[0] !in dbCols then Some(MissingPrimaryKey(pks[0], Stored))
    else
      assert forall i :: 1 <= i < |pks| ==> pks[i] == pks[1..][i - 1];
      MissingKey(pks[1..], newCols, dbCols)
  }

  /** `pl.col(c).is_null().sum()`. */
  function NullCount(rows: seq<Row>, c: string): (n: nat)
    ensures n <= |rows|
    ensures n == 0 <==> forall i :: 0 <= i < |rows| ==> Get(rows[i], c) != Null
    decreases |rows|
  {
    if rows == [] then 0
    else
      assert forall i :: 1 <= i < |rows| ==> rows[i] == rows[1..][i - 1];
      (if Get(rows[0], c) == Null then 1 else 0) + NullCount(rows[1..], c)
  }

  /** The loop of polarity/caster.py:423-430: the position of the first key
      column with a null in either table, or `|pks|` when there is none. */
  function FirstNull(pks: seq<string>, newRows: seq<Row>, dbRows: seq<Row>): (k: nat)
    ensures k <= |pks|
    ensures forall j :: 0 <= j < k ==> NullCount(newRows, pks[j]) == 0 && NullCount(dbRows, pks[j]) == 0
    ensures k < |pks| ==> NullCount(newRows, pks[k]) > 0 || NullCount(dbRows, pks[k]) > 0
    decreases |pks|
  {
    if pks == [] then 0
    else if NullCount(newRows, pks[0]) > 0 || NullCount(dbRows, pks[0]) > 0 then 0
    else
      assert forall j :: 1 <= j < |pks| ==> pks[j] == pks[1..][j - 1];
      1 + FirstNull(pks[1..], newRows, dbRows)
  }

  /** The error that loop raises: the first key column with a null, counted
      in the new table when it has one there, or else in the stored table. */
  function NullKey(pks: seq<string>, newRows: seq<Row>, dbRows: seq<Row>): (r: Option<SplitError>)
    ensures r.None? <==> forall i :: 0 <= i < |pks| ==> NullCount(newRows, pks[i]) == 0 && NullCount(dbRows, pks[i]) == 0
    ensures r.Some? ==> r.value.NullPrimaryKey? && r.value.pk in pks && r.value.count > 0 &&
                        r.value.count == NullCount(if r.value.side == New then newRows else dbRows, r.value.pk)
    ensures r.Some? ==> exists i :: 0 <= i < |pks| && pks[i] == r.value.pk &&
                          (forall j :: 0 <= j < i ==> NullCount(newRows, pks[j]) == 0 && NullCount(dbRows, pks[j]) == 0) &&
                          (r.value.side == New <==> NullCount(newRows, pks[i]) > 0)
  {
    var k := FirstNull(pks, newRows, dbRows);
    if k == |pks| then None
    else if NullCount(newRows, pks[k]) > 0 then Some(NullPrimaryKey(pks[k], NullCount(newRows, pks[k]), New))
    else Some(NullPrimaryKey(pks[k], NullCount(dbRows, pks[k]), Stored))
  }

  /** The first key column a cast table lacks, which Polars' `select(pks)`
      reports. */
  function Absent(pks: seq<string>, cols: set<string>): (r: Option<string>)
    ensures r.None? <==> forall i :: 0 <= i < |pks| ==> pks[i] in cols
    ensures r.Some? ==> r.value in pks && r.value !in cols
    decreases |pks|
  {
    if pks == [] then None
    else if pks[0] !in cols then Some(pks[0])
    else
      assert forall i :: 1 <= i < |pks| ==> pks[i] == pks[1..][i - 1];
      Absent(pks[1..], cols)
  }

  // ---------------------------------------------------------------------------
  // Comparing two cast rows

  /** The number a numeric cell stands for in Python's `==` (a `bool` is 0
      or 1); none for NaN, which equals nothing. */
  function Number(v: Value): Option<real> {
    match v
    case Int(i) => Some(i as real)
    case Bool(b) => Some(if b then 1.0 else 0.0)
    case Real(Finite(x)) => Some(x)
    case _ => None
  }

  /** Python's `==` on two cells that are not both dates: numbers compare
      by value across `int`, `bool` and `float`; anything else by identity
      of type and value. */
  predicate PyEquals(x: Value, y: Value) {
    if (x.Int? || x.Bool? || x.Real?) && (y.Int? || y.Bool? || y.Real?) then
      Number(x).Some? && Number(x) == Number(y)
    else x == y
  }

  /** A `date` or `datetime` cell. */
  predicate IsDate(v: Value) {
    v.DateVal? || v.DateTimeVal?
  }

  /** The calendar date of a date cell (`.date()` of a datetime). */
  function DateOf(v: Value): Calendar.Date
    requires IsDate(v)
  {
    if v.DateVal? then v.d else v.t.date
  }

  /** The comparison of polarity/caster.py:471-495: two nulls are equal, a
      null and a value are not, two dates compare by calendar date, and
      anything else by Python's `==`. */
  predicate FieldsEqual(x: Value, y: Value) {
    if x.Null? && y.Null? then true
    else if x.Null? || y.Null? then false
    else if IsDate(x) && IsDate(y) then DateOf(x) == DateOf(y)
    else PyEquals(x, y)
  }

  /** The comparison is symmetric, treats null as equal only to null, and
      truncates dates and datetimes to the day. */
  lemma FieldsEqualFacts(x: Value, y: Value)
    ensures FieldsEqual(x, y) <==> FieldsEqual(y, x)
    ensures x.Null? ==> (FieldsEqual(x, y) <==> y.Null?)
    ensures IsDate(x) && IsDate(y) ==> (FieldsEqual(x, y) <==> DateOf(x) == DateOf(y))
    ensures x != Real(NaN) ==> FieldsEqual(x, x)
    ensures !FieldsEqual(Real(NaN), y)
  {
  }

  /** A datetime equals its own date, and any other time on that day. */
  lemma DateTimeEqualsItsDate(t: Calendar.PyDateTime, u: Calendar.PyDateTime)
    ensures FieldsEqual(DateTimeVal(t), DateVal(t.date))
    ensures t.date == u.date ==> FieldsEqual(DateTimeVal(t), DateTimeVal(u))
  {
  }

  /** Every column both cast tables have, other than a primary key, holds
      equal values in the two rows (polarity/caster.py:468-495). */
  predicate Identical(newCols: set<string>, dbCols: set<string>, a: Row, b: Row, pks: seq<string>) {
    forall c :: c in newCols && c in dbCols && c !in pks ==> FieldsEqual(Get(a, c), Get(b, c))
  }

  /** The inner loop of polarity/caster.py:467-495, stopping at the first
      column that differs. */
  method RowsIdentical(newCols: set<string>, dbCols: set<string>, a: Row, b: Row, pks: seq<string>) returns (same: bool)
    ensures same == Identical(newCols, dbCols, a, b, pks)
  {
    same := true;
    var todo := newCols;
    while todo != {}
      invariant todo <= newCols
      invariant forall c :: c in newCols && c !in todo && c in dbCols && c !in pks ==> FieldsEqual(Get(a, c), Get(b, c))
      decreases todo
    {
      var c :| c in todo;
      if c in dbCols && c !in pks && !FieldsEqual(Get(a, c), Get(b, c)) {
        same := false;
        break;
      }
      todo := todo - {c};
    }
  }

  // ---------------------------------------------------------------------------
  // Matching keys

  /** A column's values, row by row (`select(pks).to_dict()[pks[0]]`). */
  function KeyColumn(rows: seq<Row>, c: string): (r: seq<Value>)
    ensures |r| == |rows|
  {
    seq(|rows|, i requires 0 <= i < |rows| => Get(rows[i], c))
  }

  /** Some row has `v` in column `c`. */
  predicate HasKey(rows: seq<Row>, c: string, v: Value) {
    exists i :: 0 <= i < |rows| && Get(rows[i], c) == v
  }

  /** The first row with `v` in column `c`, as `filter(pl.col(c) ==
      v).to_dicts()[0]` finds it. */
  function FirstWith(rows: seq<Row>, c: string, v: Value): (r: Option<Row>)
    ensures r.Some? <==> HasKey(rows, c, v)
    ensures r.Some? ==> exists i :: 0 <= i < |rows| && rows[i] == r.value && Get(rows[i], c) == v &&
                                    forall j :: 0 <= j < i ==> Get(rows[j], c) != v
    decreases |rows|
  {
    if rows == [] then None
    else if Get(rows[0], c) == v then Some(rows[0])
    else
      var r := FirstWith(rows[1..], c, v);
      assert forall i :: 1 <= i < |rows| ==> rows[i] == rows[1..][i - 1];
      if r.Some? then
        var i :| 0 <= i < |rows[1..]| && rows[1..][i] == r.value && Get(rows[1..][i], c) == v &&
                 forall j :: 0 <= j < i ==> Get(rows[1..][j], c) != v;
        assert rows[i + 1] == r.value;
        r
      else r
  }

  /** The keys of the cast new rows that the stored table has
      (`ids_in_both`): `is_in` is null for a null key, and `filter` drops
      the row. */
  function Matched(rows: seq<Row>, c: string, ids: seq<Value>): (r: seq<Value>)
    ensures forall v :: v in r <==> v != Null && v in ids && HasKey(rows, c, v)
    decreases |rows|
  {
    if rows == [] then []
    else
      var init := rows[..|rows| - 1];
      var k := Get(rows[|rows| - 1], c);
      assert forall i :: 0 <= i < |init| ==> init[i] == rows[i];
      assert forall v :: HasKey(rows, c, v) <==> HasKey(init, c, v) || k == v;
      Matched(init, c, ids) + (if k != Null && k in ids then [k] else [])
  }

  /** Whether a matched key's first cast new row is identical to its first
      cast stored row. */
  predicate Same(castNew: Frame, castDb: Frame, pks: seq<string>, id: Value)
    requires pks != []
  {
    match (FirstWith(castNew.rows, pks[0], id), FirstWith(castDb.rows, pks[0], id))
    case (Some(a), Some(b)) => Identical(castNew.types.Keys, castDb.types.Keys, a, b, pks)
    case _ => false
  }

  /** The keys among `ids` whose rows are identical (`same`) or differ
      (`!same`), in order: `equals_ids` and `update_ids`. */
  function Classed(castNew: Frame, castDb: Frame, pks: seq<string>, ids: seq<Value>, same: bool): (r: seq<Value>)
    requires pks != []
    ensures forall v :: v in r <==> v in ids && Same(castNew, castDb, pks, v) == same
    decreases |ids|
  {
    if ids == [] then []
    else
      var init := ids[..|ids| - 1];
      var id := ids[|ids| - 1];
      assert forall v :: v in ids <==> v in init || v == id;
      Classed(castNew, castDb, pks, init, same) + (if Same(castNew, castDb, pks, id) == same then [id] else [])
  }

  /** One more pass of the loop over `ids_in_both` classes one more key. */
  lemma ClassedStep(castNew: Frame, castDb: Frame, pks: seq<string>, ids: seq<Value>, j: int, same: bool)
    requires pks != [] && 0 <= j < |ids|
    ensures Classed(castNew, castDb, pks, ids[..j + 1], same) ==
            Classed(castNew, castDb, pks, ids[..j], same) + (if Same(castNew, castDb, pks, ids[j]) == same then [ids[j]] else [])
  {
    assert ids[..j + 1][..j] == ids[..j];
  }

  // ---------------------------------------------------------------------------
  // Order-preserving filters

  /** The rows whose value in column `c` is (`inside`) or is not among
      `keys`, in their order: Polars' `filter` on `is_in`. */
  function Select(rows: seq<Row>, c: string, keys: seq<Value>, inside: bool): (r: seq<Row>)
    ensures forall x :: x in r <==> x in rows && (Get(x, c) in keys <==> inside)
    decreases |rows|
  {
    if rows == [] then []
    else
      var init := rows[..|rows| - 1];
      var x := rows[|rows| - 1];
      assert forall y :: y in rows <==> y in init || y == x;
      Select(init, c, keys, inside) + (if (Get(x, c) in keys) == inside then [x] else [])
  }

  /** Filtering on no keys keeps nothing. */
  lemma SelectNothing(rows: seq<Row>, c: string)
    ensures Select(rows, c, [], true) == []
  {
  }

  /** `idx` picks the elements of `xs` out of `ys`, at increasing indices. */
  predicate Picks(xs: seq<Row>, ys: seq<Row>, idx: seq<int>) {
    |idx| == |xs| &&
    (forall k :: 0 <= k < |idx| ==> 0 <= idx[k] < |ys| && xs[k] == ys[idx[k]]) &&
    (forall k, l :: 0 <= k < l < |idx| ==> idx[k] < idx[l])
  }

  /** `xs` is an order-preserving subsequence of `ys`. */
  ghost predicate SubsequenceOf(xs: seq<Row>, ys: seq<Row>) {
    exists idx :: Picks(xs, ys, idx)
  }

  /** Appending one row to `ys`, and perhaps to `xs`, keeps `xs` picked from `ys`. */
  lemma PicksSnoc(xs: seq<Row>, ys: seq<Row>, idx: seq<int>, y: Row, keep: bool)
    requires Picks(xs, ys, idx)
    ensures Picks(xs + (if keep then [y] else []), ys + [y], idx + (if keep then [|ys|] else []))
  {
  }

  /** The indices of the rows `Select` keeps. */
  function SelectIndices(rows: seq<Row>, c: string, keys: seq<Value>, inside: bool): (idx: seq<int>)
    ensures Picks(Select(rows, c, keys, inside), rows, idx)
    decreases |rows|
  {
    if rows == [] then []
    else
      var init := rows[..|rows| - 1];
      var x := rows[|rows| - 1];
      var keep := (Get(x, c) in keys) == inside;
      var before := SelectIndices(init, c, keys, inside);
      PicksSnoc(Select(init, c, keys, inside), init, before, x, keep);
      assert init + [x] == rows;
      before + (if keep then [|init|] else [])
  }

  /** A filter keeps its rows in their original order. */
  lemma SelectSubsequence(rows: seq<Row>, c: string, keys: seq<Value>, inside: bool)
    ensures SubsequenceOf(Select(rows, c, keys, inside), rows)
  {
    var idx := SelectIndices(rows, c, keys, inside);
  }

  /** Every sequence is a subsequence of itself, and the empty sequence of
      every sequence. */
  lemma SubsequenceOfSelf(rows: seq<Row>)
    ensures SubsequenceOf(rows, rows) && SubsequenceOf([], rows)
  {
    var idx := seq(|rows|, i requires 0 <= i < |rows| => i);
    assert Picks(rows, rows, idx);
    assert Picks([], rows, []);
  }

  // ---------------------------------------------------------------------------
  // split_dataframe

  /** The split once both tables are cast (polarity/caster.py:452-505):
      `incoming` is the original new table, `castNew` and `castDb` the cast
      ones. */
  function Classify(incoming: Frame, castNew: Frame, castDb: Frame, pks: seq<string>): Result<Split, SplitError>
    requires pks != []
  {
    if Absent(pks, castDb.types.Keys).Some? then Err(ColumnNotFound(Absent(pks, castDb.types.Keys).value, Stored))
    else
      var ids := KeyColumn(castDb.rows, pks[0]);
      if Absent(pks, castNew.types.Keys).Some? then Err(ColumnNotFound(Absent(pks, castNew.types.Keys).value, New))
      else
        var both := Matched(castNew.rows, pks[0], ids);
        Ok(Split(Frame(incoming.types, Select(incoming.rows, pks[0], ids, false)),
                 Frame(incoming.types, Select(incoming.rows, pks[0], Classed(castNew, castDb, pks, both, true), true)),
                 Frame(incoming.types, Select(incoming.rows, pks[0], Classed(castNew, castDb, pks, both, false), true))))
  }

  /** `split_dataframe(df_new, df_db, pks, schema_name)`; `Diverges` when
      casting either table raises `RecursionError`. */
  function SplitResult(models: map<string, Model>, incoming: Frame, stored: Frame, pks: seq<string>, name: string): Outcome<Result<Split, SplitError>> {
    if name !in models then Done(Err(NoSchema(name)))
    else if pks == [] then Done(Err(NoPrimaryKeys))
    else if MissingKey(pks, incoming.types.Keys, stored.types.Keys).Some? then Done(Err(MissingKey(pks, incoming.types.Keys, stored.types.Keys).value))
    else if NullKey(pks, incoming.rows, stored.rows).Some? then Done(Err(NullKey(pks, incoming.rows, stored.rows).value))
    else if incoming.rows == [] then
      var empty := EmptyFrame(models[name]);
      Done(Ok(Split(empty, empty, empty)))
    else if stored.rows == [] then Done(Ok(Split(incoming, Frame(incoming.types, []), Frame(incoming.types, []))))
    else match (CastTable(AttemptCast, models[name], incoming), CastTable(AttemptCast, models[name], stored))
      case (Done(castNew), Done(castDb)) => Done(Classify(incoming, castNew, castDb, pks))
      case _ => Diverges
  }

  /** `split_dataframe(df_new, df_db, pks, schema_name)`. */
  method SplitDataframe(models: map<string, Model>, incoming: Frame, stored: Frame, pks: seq<string>, name: string)
    returns (r: Outcome<Result<Split, SplitError>>)
    ensures r == SplitResult(models, incoming, stored, pks, name)
  {
    if name !in models {
      return Done(Err(NoSchema(name)));
    }
    if pks == [] {
      return Done(Err(NoPrimaryKeys));
    }
    var missing := MissingKey(pks, incoming.types.Keys, stored.types.Keys);
    if missing.Some? {
      return Done(Err(missing.value));
    }
    var nulls := NullKey(pks, incoming.rows, stored.rows);
    if nulls.Some? {
      return Done(Err(nulls.value));
    }
    if incoming.rows == [] {
      var empty := EmptyFrame(models[name]);
      return Done(Ok(Split(empty, empty, empty)));
    }
    if stored.rows == [] {
      return Done(Ok(Split(incoming, Frame(incoming.types, []), Frame(incoming.types, []))));
    }
    var castNew := CastFrame(models[name], incoming);
    var castDb := CastFrame(models[name], stored);
    if castNew.Diverges? || castDb.Diverges? {
      return Diverges;
    }
    var split := Compare(incoming, castNew.value, castDb.value, pks);
    return Done(split);
  }

  /** The comparison of polarity/caster.py:452-507 on the cast tables. */
  method Compare(incoming: Frame, castNew: Frame, castDb: Frame, pks: seq<string>) returns (r: Result<Split, SplitError>)
    requires pks != []
    ensures r == Classify(incoming, castNew, castDb, pks)
  {
    var absentDb := Absent(pks, castDb.types.Keys);
    if absentDb.Some? {
      return Err(ColumnNotFound(absentDb.value, Stored));
    }
    var ids := KeyColumn(castDb.rows, pks[0]);
    var insert := Frame(incoming.types, Select(incoming.rows, pks[0], ids, false));
    var absentNew := Absent(pks, castNew.types.Keys);
    if absentNew.Some? {
      return Err(ColumnNotFound(absentNew.value, New));
    }
    var both := Matched(castNew.rows, pks[0], ids);
    var equalIds: seq<Value> := [];
    var updateIds: seq<Value> := [];
    for j := 0 to |both|
      invariant equalIds == Classed(castNew, castDb, pks, both[..j], true)
      invariant updateIds == Classed(castNew, castDb, pks, both[..j], false)
    {
      var id := both[j];
      var rowNew := FirstWith(castNew.rows, pks[0], id);
      var rowDb := FirstWith(castDb.rows, pks[0], id);
      var same := false;
      if rowNew.Some? && rowDb.Some? {
        same := RowsIdentical(castNew.types.Keys, castDb.types.Keys, rowNew.value, rowDb.value, pks);
      }
      assert same == Same(castNew, castDb, pks, id);
      ClassedStep(castNew, castDb, pks, both, j, true);
      ClassedStep(castNew, castDb, pks, both, j, false);
      if same {
        equalIds := equalIds + [id];
      } else {
        updateIds := updateIds + [id];
      }
    }
    assert both[..|both|] == both;
    SelectNothing(incoming.rows, pks[0]);
    var equal := if equalIds != [] then Frame(incoming.types, Select(incoming.rows, pks[0], equalIds, true)) else Frame(incoming.types, []);
    var update := if updateIds != [] then Frame(incoming.types, Select(incoming.rows, pks[0], updateIds, true)) else Frame(incoming.types, []);
    return Ok(Split(insert, equal, update));
  }

  // ---------------------------------------------------------------------------
  // What the split promises

  /** Every key `ids_in_both` lists has a row in each cast table, so the
      `to_dicts()[0]` of polarity/caster.py:464-465 always finds one. */
  lemma MatchedFound(castNew: Frame, castDb: Frame, c: string, v: Value)
    requires v in Matched(castNew.rows, c, KeyColumn(castDb.rows, c))
    ensures FirstWith(castNew.rows, c, v).Some? && FirstWith(castDb.rows, c, v).Some?
  {
    var ids := KeyColumn(castDb.rows, c);
    var i :| 0 <= i < |ids| && ids[i] == v;
    assert Get(castDb.rows[i], c) == v;
  }

  /** Which output a new row lands in: insert when its key is not among the
      cast stored keys; equal or update when the cast new table has the key
      too, by whether the first cast rows with that key are identical; none
      otherwise. */
  lemma ClassifyMembership(incoming: Frame, castNew: Frame, castDb: Frame, pks: seq<string>, x: Row)
    requires pks != [] && Classify(incoming, castNew, castDb, pks).Ok?
    ensures var s := Classify(incoming, castNew, castDb, pks).value; var k := Get(x, pks[0]);
      (x in s.insert.rows <==> x in incoming.rows && !HasKey(castDb.rows, pks[0], k)) &&
      (x in s.equal.rows <==> x in incoming.rows && k != Null && HasKey(castDb.rows, pks[0], k) &&
                              HasKey(castNew.rows, pks[0], k) && Same(castNew, castDb, pks, k)) &&
      (x in s.update.rows <==> x in incoming.rows && k != Null && HasKey(castDb.rows, pks[0], k) &&
                               HasKey(castNew.rows, pks[0], k) && !Same(castNew, castDb, pks, k))
  {
    var ids := KeyColumn(castDb.rows, pks[0]);
    var k := Get(x, pks[0]);
    assert k in ids <==> HasKey(castDb.rows, pks[0], k) by {
      if k in ids {
        var i :| 0 <= i < |ids| && ids[i] == k;
        assert Get(castDb.rows[i], pks[0]) == k;
      }
      if HasKey(castDb.rows, pks[0], k) {
        var i :| 0 <= i < |castDb.rows| && Get(castDb.rows[i], pks[0]) == k;
        assert ids[i] == k;
      }
    }
  }

  /** The three outputs keep the order of the original new table. */
  lemma ClassifyOrdered(incoming: Frame, castNew: Frame, castDb: Frame, pks: seq<string>)
    requires pks != [] && Classify(incoming, castNew, castDb, pks).Ok?
    ensures SubsequenceOf(Classify(incoming, castNew, castDb, pks).value.insert.rows, incoming.rows)
    ensures SubsequenceOf(Classify(incoming, castNew, castDb, pks).value.equal.rows, incoming.rows)
    ensures SubsequenceOf(Classify(incoming, castNew, castDb, pks).value.update.rows, incoming.rows)
  {
    var ids := KeyColumn(castDb.rows, pks[0]);
    var both := Matched(castNew.rows, pks[0], ids);
    SelectSubsequence(incoming.rows, pks[0], ids, false);
    SelectSubsequence(incoming.rows, pks[0], Classed(castNew, castDb, pks, both, true), true);
    SelectSubsequence(incoming.rows, pks[0], Classed(castNew, castDb, pks, both, false), true);
  }

  /** No key lands in two outputs. */
  predicate KeysApart(a: seq<Row>, b: seq<Row>, c: string) {
    forall x, y :: x in a && y in b ==> Get(x, c) != Get(y, c)
  }

  /** The three outputs are disjoint by key. */
  lemma ClassifyDisjoint(incoming: Frame, castNew: Frame, castDb: Frame, pks: seq<string>)
    requires pks != [] && Classify(incoming, castNew, castDb, pks).Ok?
    ensures var s := Classify(incoming, castNew, castDb, pks).value;
      KeysApart(s.insert.rows, s.equal.rows, pks[0]) && KeysApart(s.insert.rows, s.update.rows, pks[0]) &&
      KeysApart(s.equal.rows, s.update.rows, pks[0])
  {
    var s := Classify(incoming, castNew, castDb, pks).value;
    forall x, y | x in s.insert.rows + s.equal.rows + s.update.rows && y in s.insert.rows + s.equal.rows + s.update.rows
      ensures x in s.insert.rows && y in s.equal.rows ==> Get(x, pks[0]) != Get(y, pks[0])
      ensures x in s.insert.rows && y in s.update.rows ==> Get(x, pks[0]) != Get(y, pks[0])
      ensures x in s.equal.rows && y in s.update.rows ==> Get(x, pks[0]) != Get(y, pks[0])
    {
      ClassifyMembership(incoming, castNew, castDb, pks, x);
      ClassifyMembership(incoming, castNew, castDb, pks, y);
    }
  }

  /** The outputs are drawn from the new table only: a key no new row has
      appears in none of them. */
  lemma ClassifyStoredOnly(incoming: Frame, castNew: Frame, castDb: Frame, pks: seq<string>, x: Row)
    requires pks != [] && Classify(incoming, castNew, castDb, pks).Ok?
    requires x !in incoming.rows
    ensures var s := Classify(incoming, castNew, castDb, pks).value;
      x !in s.insert.rows && x !in s.equal.rows && x !in s.update.rows
  {
    ClassifyMembership(incoming, castNew, castDb, pks, x);
  }

  /** A new row whose key the stored table has, but which no cast new row
      carries (its cast failed), appears in no output. */
  lemma ClassifyDropsFailed(incoming: Frame, castNew: Frame, castDb: Frame, pks: seq<string>, x: Row)
    requires pks != [] && Classify(incoming, castNew, castDb, pks).Ok?
    requires HasKey(castDb.rows, pks[0], Get(x, pks[0])) && !HasKey(castNew.rows, pks[0], Get(x, pks[0]))
    ensures var s := Classify(incoming, castNew, castDb, pks).value;
      x !in s.insert.rows && x !in s.equal.rows && x !in s.update.rows
  {
    ClassifyMembership(incoming, castNew, castDb, pks, x);
  }

  /** A split succeeds only when the schema is known, the key list is not
      empty, and every key column is present in both original tables with
      no null in it. */
  lemma SplitChecked(models: map<string, Model>, incoming: Frame, stored: Frame, pks: seq<string>, name: string)
    requires SplitResult(models, incoming, stored, pks, name).Done? && SplitResult(models, incoming, stored, pks, name).value.Ok?
    ensures name in models && pks != []
    ensures forall i :: 0 <= i < |pks| ==> pks[i] in incoming.types && pks[i] in stored.types
    ensures forall i, j :: 0 <= i < |pks| && 0 <= j < |incoming.rows| ==> Get(incoming.rows[j], pks[i]) != Null
    ensures forall i, j :: 0 <= i < |pks| && 0 <= j < |stored.rows| ==> Get(stored.rows[j], pks[i]) != Null
  {
    assert NullKey(pks, incoming.rows, stored.rows).None?;
    forall i | 0 <= i < |pks|
      ensures NullCount(incoming.rows, pks[i]) == 0 && NullCount(stored.rows, pks[i]) == 0
    {
    }
  }

  /** Whatever the branch, a successful split returns three order-preserving
      subsequences of the original new rows, disjoint by the first key, or
      three empty tables. */
  lemma SplitPartitions(models: map<string, Model>, incoming: Frame, stored: Frame, pks: seq<string>, name: string)
    requires SplitResult(models, incoming, stored, pks, name).Done? && SplitResult(models, incoming, stored, pks, name).value.Ok?
    ensures var s := SplitResult(models, incoming, stored, pks, name).value.value;
      SubsequenceOf(s.insert.rows, incoming.rows) && SubsequenceOf(s.equal.rows, incoming.rows) && SubsequenceOf(s.update.rows, incoming.rows)
    ensures var s := SplitResult(models, incoming, stored, pks, name).value.value;
      pks != [] && KeysApart(s.insert.rows, s.equal.rows, pks[0]) && KeysApart(s.insert.rows, s.update.rows, pks[0]) &&
      KeysApart(s.equal.rows, s.update.rows, pks[0])
  {
    SubsequenceOfSelf(incoming.rows);
    if incoming.rows != [] && stored.rows != [] {
      var castNew := CastTable(AttemptCast, models[name], incoming).value;
      var castDb := CastTable(AttemptCast, models[name], stored).value;
      ClassifyOrdered(incoming, castNew, castDb, pks);
      ClassifyDisjoint(incoming, castNew, castDb, pks);
    }
  }
}
