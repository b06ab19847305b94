/**
 * The `Row` record of easysql: one row of a query result, held as three
 * parallel lists (column names, column schemas, values) and read by position,
 * by column name, as an attribute, through `get` with a default, or by
 * iterating over its (name, value) pairs.
 *
 * Python exceptions are modelled as the `Failure` side of a `Result`:
 * `IndexError` for an integer subscript out of range, `KeyError` for a column
 * name that is missing or repeated, `AttributeError` for the same through
 * attribute access, and `AssertionError` for a construction whose lists have
 * different lengths.
 */
module Easysql {
  import opened Wrappers
  import opened PyList

  /** The three lists as given to the constructor, not yet checked. */
  datatype RowData<S, V> = RowData(keys: seq<string>, schemas: seq<S>, values: seq<V>)

  /** A row that exists: its three lists have one entry per column. */
  type Row<S, V> = r: RowData<S, V> | |r.keys| == |r.schemas| == |r.values|
    witness RowData([], [], [])

  /** A subscript: Python's `isinstance(key, int)` branch, or a column name. */
  datatype Key = Index(i: int) | Name(name: string)

  /** The two ways a column-name lookup fails. */
  datatype KeyErrorKind = MultipleFields(field: string) | NoField(field: string)

  /** What `row[key]` can raise. */
  datatype LookupError = IndexError | KeyError(kind: KeyErrorKind)

  /** What `row.name` raises: the key error, re-raised as an attribute error. */
  datatype AttrError = AttributeError(cause: KeyErrorKind)

  /** What construction raises when the lengths differ. */
  datatype InitError = AssertionError

  /** `Row(keys, schemas, values, table)`: the three lists are kept as given, and must have equal lengths. */
  function NewRow<S, V>(keys: seq<string>, schemas: seq<S>, values: seq<V>): (r: Result<Row<S, V>, InitError>)
    ensures r.Success? <==> |keys| == |schemas| == |values|
    ensures r.Success? ==> r.value.keys == keys && r.value.schemas == schemas && r.value.values == values
    ensures r.Failure? ==> r.error == AssertionError
  {
    if |keys| == |schemas| == |values| then Success(RowData(keys, schemas, values))
    else Failure(AssertionError)
  }

  /** `len(row)`: the number of columns, which is also the number of schemas and of values. */
  function Len<S, V>(row: Row<S, V>): (n: nat)
    ensures n == |row.keys| && n == |row.schemas| && n == |row.values|
  {
    |row.keys|
  }

  /**
   * The text of the `KeyError` raised for a failed column-name lookup: its
   * first letter tells the two kinds apart, and the column's name stands
   * between the quotes.
   */
  function Message(k: KeyErrorKind): (m: string)
    ensures |m| > 0 && (m[0] == 'M' <==> k.MultipleFields?)
    ensures k.MultipleFields? ==> |m| == |k.field| + 19 && m[10..|m| - 9] == k.field
    ensures k.NoField? ==> |m| == |k.field| + 12 && m[4..|m| - 8] == k.field
  {
    match k
    case MultipleFields(f) => "Multiple '" + f + "' fields."
    case NoField(f) => "No '" + f + "' field."
  }

  /**
   * `row[key]`. An integer indexes the values, negative integers from the end.
   * A name is looked up with `in`, then `index` (first position), then
   * `count`: a name that occurs more than once is an error even though it is present.
   */
  function Lookup<S, V>(row: Row<S, V>, key: Key): (r: Result<V, LookupError>)
    ensures r.Success? ==> r.value in row.values
    ensures r.Failure? ==> (r.error == IndexError <==> key.Index?)
    ensures r.Failure? && key.Name? ==> r.error.kind.field == key.name
  {
    match key
    case Index(i) =>
      (match At(row.values, i)
       case Some(v) => Success(v)
       case None => Failure(IndexError))
    case Name(n) =>
      match IndexOf(row.keys, n)
      case None => Failure(KeyError(NoField(n)))
      case Some(j) =>
        if Count(row.keys, n) > 1 then Failure(KeyError(MultipleFields(n)))
        else Success(row.values[j])
  }

  /** `row.name`: a name lookup whose key error is re-raised as an attribute error. */
  function GetAttr<S, V>(row: Row<S, V>, name: string): (r: Result<V, AttrError>)
    ensures r.Failure? ==> r.error.cause.field == name
  {
    match Lookup(row, Name(name))
    case Success(v) => Success(v)
    case Failure(e) =>
      match e
      case KeyError(k) => Failure(AttributeError(k))
      // A name lookup never raises `IndexError` (second ensures of `Lookup`),
      // so this branch is unreachable and its value is never produced.
      case IndexError => assert false; Failure(AttributeError(NoField(name)))
  }

  /**
   * `row.get(key, default)`: the lookup, with both key errors replaced by
   * `default`. An index error is not caught and still propagates.
   */
  function Get<S, V>(row: Row<S, V>, key: Key, default: V): (r: Result<V, LookupError>)
    ensures key.Name? ==> r.Success?
    ensures r.Failure? <==> key.Index? && !(-(Len(row) as int) <= key.i < Len(row))
    ensures r.Failure? ==> r.error == IndexError
  {
    match Lookup(row, key)
    case Success(v) => Success(v)
    case Failure(e) =>
      match e
      case KeyError(_) => Success(default)
      case IndexError => Failure(IndexError)
  }

  /** `iter(row)`: the (name, value) pairs, one per column, in column order. */
  function Pairs<S, V>(row: Row<S, V>): (r: seq<(string, V)>)
    ensures |r| == Len(row)
    ensures forall i :: 0 <= i < |r| ==> r[i] == (row.keys[i], row.values[i])
  {
    Zip(row.keys, row.values)
  }

  // ---------------------------------------------------------------------------
  // Lookup by position

  /** A position in range gives its value, and so does the same position counted from the end. */
  lemma IndexInRange<S, V>(row: Row<S, V>, i: int)
    requires 0 <= i < Len(row)
    ensures Lookup(row, Index(i)) == Success(row.values[i])
    ensures Lookup(row, Index(i - Len(row))) == Success(row.values[i])
  {
  }

  /** Any other integer raises `IndexError`, never a `KeyError`. */
  lemma IndexOutOfRange<S, V>(row: Row<S, V>, i: int)
    requires i < -(Len(row) as int) || Len(row) <= i
    ensures Lookup(row, Index(i)) == Failure(IndexError)
  {
  }

  // ---------------------------------------------------------------------------
  // Lookup by name

  /** A name at exactly one position `j` gives the value at `j`. */
  lemma UniqueNameLookup<S, V>(row: Row<S, V>, name: string, j: nat)
    requires j < Len(row) && row.keys[j] == name
    requires forall k :: 0 <= k < Len(row) && row.keys[k] == name ==> k == j
    ensures Lookup(row, Name(name)) == Success(row.values[j])
  {
    CountOneIffOccursOnce(row.keys, name);
    assert OnlyAt(row.keys, name, j);
  }

  /** A name lookup succeeds exactly when the name occurs once. */
  lemma NameLookupSucceeds<S, V>(row: Row<S, V>, name: string)
    ensures Lookup(row, Name(name)).Success? <==> OccursOnce(row.keys, name)
  {
    CountOneIffOccursOnce(row.keys, name);
    CountManyIffOccursTwice(row.keys, name);
    if OccursOnce(row.keys, name) {
      var j :| OnlyAt(row.keys, name, j);
      UniqueNameLookup(row, name, j);
    }
  }

  /** The "Multiple fields" error is raised exactly when the name occurs at two or more positions. */
  lemma DuplicateNameLookup<S, V>(row: Row<S, V>, name: string)
    ensures Lookup(row, Name(name)) == Failure(KeyError(MultipleFields(name)))
        <==> OccursTwice(row.keys, name)
  {
    CountManyIffOccursTwice(row.keys, name);
  }

  /** The "No field" error is raised exactly when the name does not occur. */
  lemma AbsentNameLookup<S, V>(row: Row<S, V>, name: string)
    ensures Lookup(row, Name(name)) == Failure(KeyError(NoField(name))) <==> name !in row.keys
  {
  }

  /** The two key errors carry different texts, and each text names its column. */
  lemma MessageDetermines(a: KeyErrorKind, b: KeyErrorKind)
    ensures Message(a) == Message(b) ==> a == b
  {
    // Follows from the contract of `Message`: the first letter gives the kind,
    // the text between the quotes gives the column.
  }

  // ---------------------------------------------------------------------------
  // Wrappers over the lookup

  /** `row.name` succeeds exactly when `row["name"]` does, and otherwise carries its key error. */
  lemma GetAttrOutcome<S, V>(row: Row<S, V>, name: string)
    ensures GetAttr(row, name).Success? <==> OccursOnce(row.keys, name)
    ensures GetAttr(row, name).Success? ==> Lookup(row, Name(name)) == Success(GetAttr(row, name).value)
    ensures GetAttr(row, name).Failure? ==>
      GetAttr(row, name).error
        == AttributeError(if name in row.keys then MultipleFields(name) else NoField(name))
  {
    NameLookupSucceeds(row, name);
  }

  /** `get` returns what the lookup returns whenever the lookup succeeds. */
  lemma GetAgreesWithLookup<S, V>(row: Row<S, V>, key: Key, default: V)
    requires Lookup(row, key).Success?
    ensures Get(row, key, default) == Lookup(row, key)
  {
  }

  /** For a name that is absent or repeated, `get` returns the default. */
  lemma GetFallsBack<S, V>(row: Row<S, V>, name: string, default: V)
    requires !OccursOnce(row.keys, name)
    ensures Get(row, Name(name), default) == Success(default)
  {
    NameLookupSucceeds(row, name);
  }

  /** For an integer, `get` behaves exactly as `row[i]`: the default is never used. */
  lemma GetByIndex<S, V>(row: Row<S, V>, i: int, default: V)
    ensures Get(row, Index(i), default) == Lookup(row, Index(i))
  {
  }

  /**
   * Iteration agrees with lookup: the `i`-th pair's value is `row[i]`, and
   * `row[k] == v` for every pair `(k, v)` whose name `k` is unique.
   */
  lemma PairsAgreeWithLookup<S, V>(row: Row<S, V>)
    ensures forall i :: 0 <= i < |Pairs(row)| ==> Lookup(row, Index(i)) == Success(Pairs(row)[i].1)
    ensures forall i :: 0 <= i < |Pairs(row)| && OccursOnce(row.keys, Pairs(row)[i].0) ==>
      Lookup(row, Name(Pairs(row)[i].0)) == Success(Pairs(row)[i].1)
  {
    var ps := Pairs(row);
    forall i | 0 <= i < |ps| && OccursOnce(row.keys, ps[i].0)
      ensures Lookup(row, Name(ps[i].0)) == Success(ps[i].1)
    {
      var j :| OnlyAt(row.keys, ps[i].0, j);
      assert j == i;
      UniqueNameLookup(row, ps[i].0, i);
    }
  }
}
