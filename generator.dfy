/** The table loop of `generate_synthetic_data`: keep the non-empty fetched
    tables, stop early when none is left, and write one synthetic table per
    kept table under the same file name, in the order of `file_links`.

    Fetching is an input: `frames[i]` is what `fetch_data_from_url` returned
    for `links[i]` (an empty frame when the request failed). Writing is an
    output: `written` lists the files `to_csv` has produced, in order. */
module Generator {
  import opened Values
  import opened Dicts
  import opened Volume
  import opened Synthesis

  /** A pandas DataFrame as `read_csv` builds it: named columns and rows of values. */
  datatype Frame = Frame(columns: seq<Key>, rows: seq<seq<Value>>)

  /** `read_csv` gives distinct column names and one CSV value per column in every row. */
  predicate WellFormed(f: Frame) {
    && (forall a, b :: 0 <= a < b < |f.columns| ==> f.columns[a] != f.columns[b])
    && (forall r :: 0 <= r < |f.rows| ==> |f.rows[r]| == |f.columns|)
    && (forall r, c :: 0 <= r < |f.rows| && 0 <= c < |f.rows[r]| ==> FromCsv(f.rows[r][c]))
  }

  /** `df.empty`: no rows or no columns. */
  predicate IsEmpty(f: Frame) {
    |f.columns| == 0 || |f.rows| == 0
  }

  /** `df.to_dict(orient='records')`: one dict per row, keyed by the columns in order. */
  function Records(f: Frame): (rs: seq<seq<Field>>)
    requires WellFormed(f)
    ensures |rs| == |f.rows|
    ensures forall r :: 0 <= r < |rs| ==> |rs[r]| == |f.columns| && Keys(rs[r]) == f.columns && DistinctKeys(rs[r])
    ensures forall r, c :: 0 <= r < |rs| && 0 <= c < |f.columns| ==> rs[r][c].value == f.rows[r][c]
  {
    seq(|f.rows|, r requires 0 <= r < |f.rows| =>
      seq(|f.columns|, c requires 0 <= c < |f.columns| => Field(f.columns[c], f.rows[r][c])))
  }

  /** Positions in `file_links` of the tables kept in `base_data`, in order. */
  function Kept(frames: seq<Frame>): (ks: seq<nat>)
    ensures forall k :: 0 <= k < |ks| ==> ks[k] < |frames| && !IsEmpty(frames[ks[k]])
  {
    if frames == [] then []
    else
      var init := Kept(frames[..|frames| - 1]);
      if IsEmpty(frames[|frames| - 1]) then init else init + [|frames| - 1]
  }

  /** Exactly the non-empty tables are kept, each once, in `file_links` order. */
  lemma {:induction false} KeptExactly(frames: seq<Frame>)
    ensures forall i :: 0 <= i < |frames| ==> (i in Kept(frames) <==> !IsEmpty(frames[i]))
    ensures forall k, l :: 0 <= k < l < |Kept(frames)| ==> Kept(frames)[k] < Kept(frames)[l]
  {
    if frames != [] {
      var init := frames[..|frames| - 1];
      KeptExactly(init);
      assert forall i :: 0 <= i < |init| ==> init[i] == frames[i];
    }
  }

  /** The run stops before writing anything exactly when every fetched table is empty. */
  lemma NoDataExactly(frames: seq<Frame>)
    ensures Kept(frames) == [] <==> forall i :: 0 <= i < |frames| ==> IsEmpty(frames[i])
  {
    KeptExactly(frames);
    if Kept(frames) != [] {
      assert Kept(frames)[0] in Kept(frames);
    }
  }

  /** The skip on line 48 never happens: a kept table has at least one record, each with at least one field. */
  lemma KeptTablesHaveRecords(f: Frame)
    requires WellFormed(f) && !IsEmpty(f)
    ensures |Records(f)| > 0 && forall r :: 0 <= r < |Records(f)| ==> |Records(f)[r]| > 0
  {
  }

  /** A file written by `to_csv`: its name and its rows. */
  datatype Output = Output(name: string, rows: seq<seq<Field>>)

  datatype RunOutcome =
    | NoData                                     // "No data found to base generation on."
    | Completed(written: seq<Output>)
    | Aborted(written: seq<Output>, error: Error) // an exception escaped after `written` was saved

  /** `records_to_generate` for a fetched frame. */
  function TableCount(f: Frame, numRecords: Option<int>, years: Option<int>): int {
    RecordsToGenerate(numRecords, years, |f.rows|)
  }

  /** The frame is one `read_csv` can build and the draws for it fit it. */
  predicate TableDrawsFit(f: Frame, numRecords: Option<int>, years: Option<int>, rds: seq<RecordDraw>) {
    WellFormed(f) && DrawsFit(Records(f), rds, TableCount(f, numRecords, years), DayLow(years))
  }

  /** Synthesis of the table raises `ValueError` from `random.randint`. */
  predicate TableRaises(f: Frame, numRecords: Option<int>, years: Option<int>, rds: seq<RecordDraw>) {
    WellFormed(f) && TableFails(Records(f), rds, TableCount(f, numRecords, years), DayLow(years))
  }

  /** The file written for a table that does not raise. */
  function TableOutput(name: string, f: Frame, numRecords: Option<int>, years: Option<int>, rds: seq<RecordDraw>): Output
    requires TableDrawsFit(f, numRecords, years, rds)
  {
    Output(name, SynthRows(Records(f), rds, Produced(TableCount(f, numRecords, years)), DayLow(years)))
  }

  /** `out` is the file written for the table. */
  predicate Wrote(out: Output, name: string, f: Frame, numRecords: Option<int>, years: Option<int>, rds: seq<RecordDraw>) {
    TableDrawsFit(f, numRecords, years, rds) && out == TableOutput(name, f, numRecords, years, rds)
  }

  /** A written file has one row per loop iteration, `max(0, records_to_generate)`
      in all, and every row has exactly the columns of the fetched table, in order. */
  lemma OutputShape(out: Output, name: string, f: Frame, numRecords: Option<int>, years: Option<int>, rds: seq<RecordDraw>)
    requires Wrote(out, name, f, numRecords, years, rds)
    ensures out.name == name
    ensures |out.rows| == Produced(TableCount(f, numRecords, years))
    ensures forall j :: 0 <= j < |out.rows| ==> Keys(out.rows[j]) == f.columns
  {
  }

  /** The frames kept in `base_data`, in order. */
  function KeptFrames(frames: seq<Frame>): (fs: seq<Frame>)
    ensures |fs| == |Kept(frames)|
    ensures forall k :: 0 <= k < |fs| ==> fs[k] == frames[Kept(frames)[k]] && !IsEmpty(fs[k])
  {
    var kept := Kept(frames);
    seq(|kept|, k requires 0 <= k < |kept| => frames[kept[k]])
  }

  /** The `k`-th table processed draws from `draws[k]`. */
  predicate RunDrawsFit(frames: seq<Frame>, numRecords: Option<int>, years: Option<int>, draws: seq<seq<RecordDraw>>) {
    var fs := KeptFrames(frames);
    |draws| >= |fs| &&
    forall k :: 0 <= k < |fs| ==> TableDrawsFit(fs[k], numRecords, years, draws[k])
  }

  /** The dicts of a kept table hold the records of its frame. */
  ghost predicate Loaded(table: seq<Dict>, f: Frame)
    reads table
  {
    WellFormed(f) && !IsEmpty(f) && AllValid(table) && Snapshot(table) == Records(f)
  }

  /** `df.to_dict(orient='records')` as a list of new dicts. */
  method ToDicts(f: Frame) returns (ds: seq<Dict>)
    requires WellFormed(f)
    ensures AllValid(ds) && Snapshot(ds) == Records(f)
    ensures forall k :: 0 <= k < |ds| ==> fresh(ds[k])
  {
    var records := Records(f);
    ds := [];
    var r := 0;
    while r < |records|
      invariant 0 <= r <= |records|
      invariant |ds| == r
      invariant AllValid(ds)
      invariant forall k :: 0 <= k < r ==> ds[k].items == records[k] && fresh(ds[k])
    {
      var d := new Dict(records[r]);
      ds := ds + [d];
      r := r + 1;
    }
  }

  /** Lines 37-41: fetch every linked table and keep the non-empty ones, as lists of dicts. */
  method CollectBaseData(links: seq<string>, frames: seq<Frame>) returns (names: seq<string>, tables: seq<seq<Dict>>)
    requires |links| == |frames|
    requires forall i :: 0 <= i < |frames| ==> WellFormed(frames[i])
    ensures |names| == |tables| == |Kept(frames)|
    ensures forall k :: 0 <= k < |tables| ==> names[k] == links[Kept(frames)[k]] && Loaded(tables[k], KeptFrames(frames)[k])
  {
    names, tables := [], [];
    ghost var kept: seq<nat> := [];
    var i := 0;
    while i < |links|
      invariant 0 <= i <= |links|
      invariant kept == Kept(frames[..i])
      invariant |names| == |tables| == |kept|
      invariant forall k :: 0 <= k < |kept| ==> kept[k] < i && names[k] == links[kept[k]] && Loaded(tables[k], frames[kept[k]])
    {
      assert frames[..i + 1][..i] == frames[..i];
      var df := frames[i];
      if !IsEmpty(df) {
        var records := ToDicts(df);
        names := names + [links[i]];
        tables := tables + [records];
        kept := kept + [i];
      }
      i := i + 1;
    }
    assert frames[..|frames|] == frames;
  }

  /** Lines 47-76 for one kept table: plan the volume, synthesize, write the file. */
  method GenerateTable(name: string, records: seq<Dict>, ghost f: Frame,
                       numRecords: Option<int>, years: Option<int>, rds: seq<RecordDraw>) returns (r: Result<Output>)
    requires Loaded(records, f) && TableDrawsFit(f, numRecords, years, rds)
    ensures r.Err? <==> TableRaises(f, numRecords, years, rds)
    ensures r.Err? ==> r.error == EmptyDayRange(DayLow(years))
    ensures r.Ok? ==> Wrote(r.value, name, f, numRecords, years, rds)
  {
    KeptTablesHaveRecords(f);
    if |records| == 0 {
      // the skip on line 48 cannot happen
      assert false;
    }
    var count := RecordsToGenerate(numRecords, years, |records|);
    var synthetic := SynthesizeTable(records, count, DayLow(years), rds);
    if synthetic.Err? {
      return Err(synthetic.error);
    }
    return Ok(Output(name, Snapshot(synthetic.value)));
  }

  /** Lines 47-76: one synthetic file per kept table, in order, until a table raises. */
  method WriteTables(names: seq<string>, tables: seq<seq<Dict>>, ghost fs: seq<Frame>,
                     numRecords: Option<int>, years: Option<int>, draws: seq<seq<RecordDraw>>)
    returns (written: seq<Output>, error: Option<Error>)
    requires |names| == |tables| == |fs| <= |draws|
    requires forall k :: 0 <= k < |fs| ==> Loaded(tables[k], fs[k]) && TableDrawsFit(fs[k], numRecords, years, draws[k])
    ensures error.None? ==> |written| == |fs|
    ensures error.Some? ==>
      && |written| < |fs|
      && TableRaises(fs[|written|], numRecords, years, draws[|written|])
      && error.value == EmptyDayRange(DayLow(years))
    ensures forall k :: 0 <= k < |written| ==>
      !TableRaises(fs[k], numRecords, years, draws[k]) && Wrote(written[k], names[k], fs[k], numRecords, years, draws[k])
  {
    written := [];
    var k := 0;
    while k < |tables|
      invariant 0 <= k <= |tables|
      invariant |written| == k
      invariant forall m :: 0 <= m < |tables| ==> Loaded(tables[m], fs[m])
      invariant forall m :: 0 <= m < k ==>
        !TableRaises(fs[m], numRecords, years, draws[m]) && Wrote(written[m], names[m], fs[m], numRecords, years, draws[m])
    {
      var r := GenerateTable(names[k], tables[k], fs[k], numRecords, years, draws[k]);
      if r.Err? {
        return written, Some(r.error);
      }
      written := written + [r.value];
      k := k + 1;
    }
    return written, None;
  }

  /** `generate_synthetic_data` from line 37 on. */
  method GenerateSyntheticData(links: seq<string>, frames: seq<Frame>, numRecords: Option<int>, years: Option<int>,
                               draws: seq<seq<RecordDraw>>) returns (outcome: RunOutcome)
    requires |links| == |frames|
    requires forall a, b :: 0 <= a < b < |links| ==> links[a] != links[b]
    requires forall i :: 0 <= i < |frames| ==> WellFormed(frames[i])
    requires RunDrawsFit(frames, numRecords, years, draws)
    ensures outcome.NoData? <==> Kept(frames) == []
    ensures outcome.Completed? <==>
      Kept(frames) != [] &&
      forall k :: 0 <= k < |Kept(frames)| ==> !TableRaises(KeptFrames(frames)[k], numRecords, years, draws[k])
    ensures outcome.Completed? ==> |outcome.written| == |Kept(frames)|
    ensures outcome.Aborted? ==>
      && |outcome.written| < |Kept(frames)|
      && TableRaises(KeptFrames(frames)[|outcome.written|], numRecords, years, draws[|outcome.written|])
      && outcome.error == EmptyDayRange(DayLow(years))
    ensures !outcome.NoData? ==>
      forall k :: 0 <= k < |outcome.written| ==>
        && !TableRaises(KeptFrames(frames)[k], numRecords, years, draws[k])
        && Wrote(outcome.written[k], links[Kept(frames)[k]], KeptFrames(frames)[k], numRecords, years, draws[k])
  {
    var names, tables := CollectBaseData(links, frames);
    if |tables| == 0 {
      return NoData;
    }
    var written, error := WriteTables(names, tables, KeptFrames(frames), numRecords, years, draws);
    if error.Some? {
      return Aborted(written, error.value);
    }
    return Completed(written);
  }
}
