# Synthetic data generator: the record-synthesis core

A Dafny model of `generate_synthetic_data` in `generator.py`, from the point
where the linked tables have been fetched. The function does three things:

- it keeps the non-empty tables, and stops when none is left;
- it plans how many records to make per table, from `num_records`, `years`
  and the table's size;
- it builds every synthetic record by copying a randomly chosen reference
  record and rewriting its fields in place. A number is jittered by a factor
  in [0.9, 1.1]. A string under a key whose lower-case form contains
  `"date"` becomes today's date shifted by a random number of days. Anything
  else is kept.

There are five modules, one file each:

- `Values` (`values.dfy`): the values `read_csv` produces, and the tagged
  values that stand for the float product and the formatted date.
- `Dicts` (`dicts.dfy`): a Python dict as a class with an ordered list of
  fields, `d[key] = v`, `d.get` and `d.copy()`.
- `Volume` (`volume.dfy`): the count of records to generate (lines 53-58) and
  the lower end of the day window (line 69). Both are pure conditional
  expressions over optional ints tested for Python truthiness.
- `Synthesis` (`synthesis.dfy`): the field dispatch, the record loop and the
  per-field loop. They are methods over `Dict` objects, proved against the
  pure functions `Synthesized` and `SynthRows`.
- `Generator` (`generator.dfy`): the loop that fills `base_data`, the early
  exit, and the loop over the kept tables that writes one file per table.

Randomness and the clock are inputs. `RecordDraw` holds the index that
`random.choice` picked. For each field it also holds what
`random.uniform(0.9, 1.1)`, `random.randint(lo, 30)` and `datetime.now()`
return if that field is rewritten. The `k`-th kept table uses `draws[k]`.
The preconditions `DrawsFit` and `DaysFit` say only that these library
calls return inside their documented ranges.

`SynthesizeRecord` and `SynthesizeTable` have no `modifies` clause. So the
proof that they verify is also the proof that the reference records, which
are `Dict` objects allocated before the call, are never changed. The only
objects written to are the fresh copies made by `Dict.Copy`, which
`RewriteField` changes one field at a time.

Behaviour of the code that the model keeps as written:

- An explicit negative `num_records` is truthy, so it is used as it is.
  `range` of a negative number is empty, so the written table has no rows
  (`Volume.Produced`).
- A negative `years` makes the lower end of the day window, `-365 * years`,
  greater than 30.
  - With no explicit count, the count `len(records) * years` is then
    negative as well. No record is built and nothing raises
    (`Synthesis.NoRaiseWithoutCount`).
  - With an explicit count, the first re-dated field makes `random.randint`
    raise `ValueError`. The run ends there, and the files already written
    stay (`RunOutcome.Aborted`).
- `bool` is a subclass of `int`, so boolean fields are jittered as well.
- The skip on lines 48-50 can never happen. A table is kept only when its
  frame is not empty, so its record list is never empty
  (`Generator.KeptTablesHaveRecords`).

`generator.py` keeps no per-field counters, does no schema analysis, and
does not truncate or floor jittered integers; neither does the model.

## Model

| member | source | states |
|---|---|---|
| Volume.VolumeChoice | generator.py:53-58 | an explicit non-zero count wins; otherwise a non-zero years factor scales the reference size; otherwise the reference size is mirrored |
| Volume.ZeroMeansNotGiven | generator.py:53-58 | a count or years value of 0 behaves exactly like one that is absent, both for the count and for the day window |
| Volume.CountSign | generator.py:55-56 | without an explicit count, the count is non-negative for years >= 0, at least the reference size for years > 0, and negative for years < 0 on a non-empty table |
| Volume.Produced | generator.py:60 | `range(count)` runs max(0, count) times: count itself when it is not negative, otherwise zero |
| Volume.DayWindowNonEmpty | generator.py:69 | the range of `random.randint(lo, 30)` is non-empty exactly when years is not a negative truthy value; it is [-30, 30] without years and starts at or below -365 for positive years |
| Dicts.Find | generator.py:64-66 | the position of the first field with the key, with no earlier field holding it, or the length when the key is absent |
| Dicts.Get | generator.py:66 | a value is found exactly when the key is among the dict's keys, and in a dict with distinct keys it is the value stored under that key |
| Dicts.Put | generator.py:66 | `d[key] = v` keeps the keys distinct; an existing key keeps the key order, and a new key is appended last |
| Dicts.PutExisting | generator.py:64-69 | assigning to the key at position i replaces that one field and no other |
| Dicts.FindSameKeys | generator.py:64-69 | two dicts with the same key order find every key at the same position |
| Dicts.FindAppend | generator.py:66 | appending a field does not move a key that is already present |
| Dicts.FindDistinct | generator.py:66 | in a dict with distinct keys, the key at position i is found at i |
| Dicts.GetPutSame | generator.py:66 | after `d[key] = v`, `d[key]` reads v |
| Dicts.GetPutOther | generator.py:66 | after `d[key] = v`, every other key reads what it read before |
| Dicts.Dict.Copy | generator.py:62 | `base.copy()` is a new dict with the same items in the same order; the original is not touched |
| Dicts.Dict.Assign | generator.py:66-69 | the dict's new items are `Put` of its old items, and its keys stay distinct |
| Synthesis.Synthesized | generator.py:61-70 | a synthetic record has the base record's keys in the same order, and each value is the base value after its rewrite |
| Synthesis.SynthRows | generator.py:60-70 | a table makes exactly n synthetic rows, and row j has the keys of the reference record picked for it |
| Synthesis.FieldDispatch | generator.py:64-69 | in every synthetic row, a number becomes a jittered copy of itself; a string under a date-like key becomes a re-dated value, with a day count in [lo, 30] whenever that range is not empty; anything else is unchanged; the key is always the same; this holds for every written row, also when a negative years factor with an explicit count empties the day range |
| Synthesis.DispatchExamples | generator.py:65-67 | the key test ignores case (`"Date"` is re-dated); the numeric test comes first (a number under `"Date"` is jittered); a key without `"date"` keeps its value |
| Synthesis.NoRaiseWithoutCount | generator.py:53-69 | without an explicit count, synthesis of a non-empty table never raises, whatever the years factor |
| Synthesis.PartialShape | generator.py:64-69 | rewriting a prefix of the fields keeps the keys and their distinctness; no rewrite is the base, and all rewrites are the synthetic record |
| Synthesis.PartialStep | generator.py:64-69 | rewriting field i moves the record from i rewritten fields to i + 1 |
| Synthesis.RewriteField | generator.py:64-69 | one iteration of the field loop raises exactly when the day range is empty and the field would be re-dated; otherwise it replaces exactly that field's value by its rewrite; on a raise the dict is left as it was |
| Synthesis.SynthesizeRecord | generator.py:61-70 | a fresh dict equal to the synthetic record of the base, or the `ValueError` of an empty day range exactly when the base has a field to re-date and lo > 30 |
| Synthesis.BuiltStep | generator.py:70 | appending the next synthetic record keeps every record built so far valid and correct |
| Synthesis.BuiltRows | generator.py:60-70 | once all records are built they are the table's synthetic rows, and the table did not raise |
| Synthesis.SynthesizeTable | generator.py:60-70 | the list of max(0, count) fresh, valid dicts equal to the synthetic rows, or the `ValueError` exactly when some picked record has a field to re-date while lo > 30 |
| Generator.Records | generator.py:41 | `to_dict(orient='records')` gives one dict per row, keyed by the columns in order, with distinct keys and the row's values |
| Generator.Kept | generator.py:37-41 | the tables kept in `base_data` are positions of non-empty frames |
| Generator.KeptExactly | generator.py:37-41 | a table is kept exactly when its frame is not empty, and the kept tables follow `file_links` order without repeats |
| Generator.NoDataExactly | generator.py:43-45 | the run stops before writing anything exactly when every fetched frame is empty |
| Generator.KeptTablesHaveRecords | generator.py:48-50 | a kept table has at least one record, each with at least one field, so the skip never fires |
| Generator.KeptFrames | generator.py:47 | the frames of the kept tables, in order, none of them empty |
| Generator.OutputShape | generator.py:70-75 | a written file has the table's name, max(0, records_to_generate) rows, and every row has exactly the fetched table's columns in order |
| Generator.ToDicts | generator.py:41 | the records of a frame as new valid dicts holding exactly `to_dict(orient='records')` |
| Generator.CollectBaseData | generator.py:37-41 | `base_data` holds, in `file_links` order, the name and the records of exactly the kept tables |
| Generator.GenerateTable | generator.py:47-76 | one kept table either writes the file of its synthetic rows under its own name, or raises exactly when its synthesis raises |
| Generator.WriteTables | generator.py:47-76 | the kept tables are written in order, each file being its synthetic table; on a raise, the files before the failing table are exactly the ones written |
| Generator.GenerateSyntheticData | generator.py:37-76 | no output exactly when every frame is empty; otherwise one file per kept table, named after its link and in `file_links` order, until a table raises; the run completes exactly when no kept table raises |

## Left out

- Fetching (`fetch_data_from_url`, `requests.get`) is not modelled: the fetched frames are an input, and a failed fetch is an empty frame.
- pandas parsing is not modelled beyond the shape `read_csv` gives (distinct columns, one int, bool, float or string per cell). Missing values, dtypes and `DataFrame` construction are left out.
- Writing is not modelled: `to_csv`, `os.makedirs` and `os.path.join` are not part of this model. A written file is its name and its rows, and a zero-row table is written as an empty list of rows, even though pandas then writes no header.
- `print` diagnostics are left out: they are output only.
- Synthesis.Rewrite: does not evaluate `value * random.uniform(0.9, 1.1)`, because floating-point arithmetic is out of scope. The result is the tagged `Jittered(value, factor)` with the factor in [0.9, 1.1], so no bound on the product is proved.
- Synthesis.Rewrite: does not model the calendar (`datetime.now()`, `timedelta`, `strftime`). A re-dated field is the tagged `Dated(now, days)`, and the clock reading is an input per field.
- Values.Lower: lower-cases ASCII letters only, not the full Unicode `str.lower`.
- `years` is modelled as an int, as annotated. A float `years`, whose product `int` would truncate, is left out.
- Random draws are inputs, not a generator. The model does not capture their distribution, nor the order in which `random` is consumed.
- The hard-coded `file_links` table and the `__main__` example are configuration. The model takes any list of distinct names with their frames.
- An exception other than the `ValueError` from `random.randint` is left out (for example, a failure while writing a file).
