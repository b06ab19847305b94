# easysql `Row`, modelled in Dafny

easysql is a thin convenience layer over a database client. Its one piece of
self-contained logic is the `Row` record (`easysql.py`, lines 11-78): a query
result row held as three parallel lists — column names (`keys`), column
schemas (`schemas`) and values (`values`) — with tuple-like and
dictionary-like access:

- `row[i]` with an integer indexes the values, Python negative indices included;
  an integer out of range raises `IndexError`;
- `row["name"]` returns the value of the column with that name, but only when
  the name occurs exactly once: a repeated name raises
  `KeyError("Multiple 'name' fields.")`, an absent one
  `KeyError("No 'name' field.")`;
- `row.name` is the same lookup, with the `KeyError` re-raised as `AttributeError`;
- `row.get(key, default)` catches the `KeyError`s only and returns `default`;
  an out-of-range integer still raises `IndexError`;
- `len(row)` is the number of columns and `iter(row)` yields the
  `(name, value)` pairs in column order;
- construction asserts that the three lists have equal lengths.

The model treats a row as a value: the modelled members only read the fields
the constructor sets, and the three lists are taken to stay as they were at
construction.

- `wrappers.dfy` — `Option` and `Result`; `Failure(e)` is the exception `e` being raised.
- `pylist.dfy` — module `PyList`: the built-in list operations `Row` relies on
  (integer subscription with negative indices, `list.index`, `list.count`, `zip`),
  each specified independently of its definition, and the two counting lemmas
  that tie `count` to the positions of an element.
- `easysql.dfy` — module `Easysql`: the `Row` type (a subset type whose
  invariant is the equal-length check), `Key = Index(int) | Name(string)`,
  the error types, `NewRow`, `Len`, `Lookup`, `GetAttr`, `Get`, `Pairs`, and
  the lemmas that state what each lookup path returns.

The repository's tests construct rows in two forms that do not match the code's
four-parameter constructor (keys, schemas, values, table): `Row(keys, values)`
with two arguments, and the shared fixture's `Row(keys, values, "DummyTable",
"DummyDatabase")` with four, which passes the values as schemas and a string as
the values, so the length check fails. The model follows the code's signature.

Python's `bool` is a subclass of `int`, so `row[True]` is `Index(1)` in this model.

## Model

| member | source | states |
|---|---|---|
| `PyList.At` | easysql.py:33 | integer subscription succeeds exactly for `-len <= i < len`, and then yields the element at `i` or at `i + len` |
| `PyList.IndexOf` | easysql.py:37 | `list.index` fails exactly when the element is absent; otherwise it gives a position holding the element with no earlier occurrence |
| `PyList.Count` | easysql.py:38 | `list.count` equals the element's multiplicity in the list |
| `PyList.Zip` | easysql.py:51 | `zip` has the length of the shorter input and pairs the elements at each position |
| `PyList.CountOneIffOccursOnce` | easysql.py:38 | a count of exactly 1 holds precisely when the element occurs at a single position |
| `PyList.CountManyIffOccursTwice` | easysql.py:38 | a count above 1 holds precisely when the element occurs at two distinct positions |
| `Easysql.NewRow` | easysql.py:14-19 | construction succeeds exactly when keys, schemas and values have equal lengths, keeps the three lists as given, and otherwise raises `AssertionError` |
| `Easysql.Len` | easysql.py:27-28 | `len(row)` is the number of keys, and equals the number of schemas and of values |
| `Easysql.Lookup` | easysql.py:30-42 | a successful lookup returns one of the row's values; only an integer key raises `IndexError`, only a name raises `KeyError`, and the key error names the requested column |
| `Easysql.GetAttr` | easysql.py:44-48 | an attribute error names the requested column |
| `Easysql.Get` | easysql.py:73-78 | `get` never fails for a name; it fails exactly for an integer outside `-len <= i < len`, and then with `IndexError` |
| `Easysql.Pairs` | easysql.py:50-52 | iteration yields exactly `len(row)` pairs, the `i`-th being `(keys[i], values[i])` |
| `Easysql.IndexInRange` | easysql.py:32-33 | for `0 <= i < len`, both `row[i]` and `row[i - len]` return `values[i]` |
| `Easysql.IndexOutOfRange` | easysql.py:32-33 | any other integer raises `IndexError`, not a `KeyError` |
| `Easysql.UniqueNameLookup` | easysql.py:36-40 | a name found at exactly one position `j` returns `values[j]` |
| `Easysql.NameLookupSucceeds` | easysql.py:36-42 | a name lookup succeeds if and only if the name occurs exactly once among the keys |
| `Easysql.DuplicateNameLookup` | easysql.py:36-39 | the "Multiple fields" error is raised if and only if the name occurs at two or more positions, although it is present |
| `Easysql.AbsentNameLookup` | easysql.py:36-42 | the "No field" error is raised if and only if the name is not among the keys |
| `Easysql.Message` | easysql.py:38-42 | the `KeyError` text for each kind of failed name lookup: "Multiple '<name>' fields." or "No '<name>' field.", told apart by the first letter and naming the column between the quotes |
| `Easysql.MessageDetermines` | easysql.py:38-42 | the two key-error texts differ from each other and each determines the column it names |
| `Easysql.GetAttrOutcome` | easysql.py:44-48 | `row.name` succeeds exactly when the name occurs once, then with the value `row["name"]` gives; otherwise it raises `AttributeError` carrying the "Multiple fields" error if the name is present and the "No field" error if not |
| `Easysql.GetAgreesWithLookup` | easysql.py:73-78 | when `row[key]` succeeds, `get` returns the same value |
| `Easysql.GetFallsBack` | easysql.py:73-78 | for a name that is absent or repeated, `get` returns the default |
| `Easysql.GetByIndex` | easysql.py:73-78 | for an integer key, `get` returns or raises exactly what `row[i]` does: the default is never used and `IndexError` propagates |
| `Easysql.PairsAgreeWithLookup` | easysql.py:50-52 | the `i`-th iterated pair's value is `row[i]`, and `row[k] == v` for every iterated pair `(k, v)` whose name is unique |

## Left out

- `Easysql.Get`: the model takes the default explicitly; Python's omitted default (`None`) is the call with the value type's own `None`, since row values are generic here.
- `Easysql.GetAttr`: Python calls `__getattr__` only for names that normal attribute lookup does not find, so a column named like a method or field of `Row` (`keys`, `get`, `_values`, …) is shadowed; the model does not enumerate those names.
- Keys of other types: a subscript that is neither an integer nor a string (a slice, `None`) goes through the name path in Python and raises the "No field" error unless it equals a column name; the model only has string names.
- The `table` constructor argument is stored but never read by the modelled members, so it is not part of the model.
- The equal-length check is a Python `assert`, which is skipped under `python -O`; the model always performs it.
- The `keys()`, `schemas()` and `values()` accessors return the stored lists unchanged; they are the fields of the `Row` datatype and have no member of their own.
- Object identity (`row.keys() is keys`) is not expressible on values and is not modelled.
- Shared, mutable lists: the row keeps the caller's own list objects and `keys()`, `schemas()` and `values()` hand the same objects out, so the equal-length check holds only at construction. The model treats the three lists as immutable after construction. A caller that mutates them through those references can break the length invariant, after which `len(row)` no longer equals the number of values and a name lookup can raise `IndexError` from the value subscription; that behaviour is not modelled.
- `set`, `save` and `delete` (easysql.py:80-90) do nothing; there is no behaviour to model.
- `dataset`, `export`, `__str__`, `__repr__` and `_reduce_datetimes` are serialisation through the tablib library and datetime formatting, which are not part of this model.
- `RowSet`, `Table` and `Database` are outside the modelled core: `RowSet` reads attributes it never defines (`_all_rows`, `all`), `Table` consists of empty stubs, and `Database` is connection handling through SQLAlchemy and the environment.
