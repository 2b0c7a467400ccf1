/** Record synthesis: one synthetic record per loop iteration, each a copy of a
    randomly chosen reference record whose fields are rewritten in place by a
    three-way dispatch (jitter numbers, re-date date strings, keep the rest).

    Randomness and the clock are inputs: a `RecordDraw` holds what
    `random.choice` picked and, per field, what `random.uniform(0.9, 1.1)`,
    `random.randint(lo, 30)` and `datetime.now()` return when that field is
    rewritten. */
module Synthesis {
  import opened Values
  import opened Dicts
  import opened Volume

  /** `random.randint(lo, 30)` raised `ValueError`: its range is empty. */
  datatype Error = EmptyDayRange(lo: int)

  datatype Result<+T> = Ok(value: T) | Err(error: Error)

  /** The draws for one field: used only when the field is jittered or re-dated. */
  datatype FieldDraw = FieldDraw(factor: Factor, days: int, now: Instant)

  /** The draws for one synthetic record: the index `random.choice` picked and one draw per field. */
  datatype RecordDraw = RecordDraw(pick: nat, fields: seq<FieldDraw>)

  datatype Rule = Jitter | Redate | Keep

  /** Which rewrite a field gets: the numeric test comes first, so a number
      under a date-like key is jittered, not re-dated. */
  function RuleFor(f: Field): Rule {
    if IsNumeric(f.value) then Jitter
    else if IsText(f.value) && ContainsDate(Lower(f.key)) then Redate
    else Keep
  }

  /** The value a field holds after its rewrite. */
  function Rewrite(f: Field, d: FieldDraw): Value {
    match RuleFor(f)
    case Jitter => Jittered(f.value, d.factor)
    case Redate => Dated(d.now, d.days)
    case Keep => f.value
  }

  /** The synthetic record drawn from `base`: same keys in the same order, each value rewritten. */
  function Synthesized(base: seq<Field>, ds: seq<FieldDraw>): (r: seq<Field>)
    requires |ds| == |base|
    ensures Keys(r) == Keys(base)
    ensures forall i :: 0 <= i < |base| ==> r[i].value == Rewrite(base[i], ds[i])
  {
    seq(|base|, i requires 0 <= i < |base| => Field(base[i].key, Rewrite(base[i], ds[i])))
  }

  /** Some field of the record would be re-dated. */
  predicate HasRedate(base: seq<Field>) {
    exists i :: 0 <= i < |base| && RuleFor(base[i]) == Redate
  }

  /** `random.randint(lo, 30)` returns a value inside its range whenever the range is not empty. */
  predicate DaysFit(ds: seq<FieldDraw>, lo: int) {
    lo <= 30 ==> forall i :: 0 <= i < |ds| ==> lo <= ds[i].days <= 30
  }

  /** The draws available for a table of `records`: at least one per record to generate,
      each picking a reference record and giving one field draw per field of it. */
  predicate DrawsFit(records: seq<seq<Field>>, rds: seq<RecordDraw>, count: int, lo: int) {
    && count <= |rds|
    && forall j :: 0 <= j < |rds| ==>
         && rds[j].pick < |records|
         && |rds[j].fields| == |records[rds[j].pick]|
         && DaysFit(rds[j].fields, lo)
  }

  /** The synthetic rows of a table of `n` records. */
  function SynthRows(records: seq<seq<Field>>, rds: seq<RecordDraw>, n: nat, lo: int): (rows: seq<seq<Field>>)
    requires DrawsFit(records, rds, n, lo)
    ensures |rows| == n
    ensures forall j :: 0 <= j < n ==> Keys(rows[j]) == Keys(records[rds[j].pick])
  {
    seq(n, j requires 0 <= j < n => Synthesized(records[rds[j].pick], rds[j].fields))
  }

  /** Synthesis of the table raises: the day range is empty and one of the picked
      records has a field that would be re-dated. */
  predicate TableFails(records: seq<seq<Field>>, rds: seq<RecordDraw>, count: int, lo: int) {
    lo > 30 &&
    exists j :: 0 <= j < count && j < |rds| && rds[j].pick < |records| && HasRedate(records[rds[j].pick])
  }

  /** Field dispatch, stated for every field of every synthetic row: a number
      is replaced by a jittered copy of itself, a string under a key whose
      lower-case form contains "date" by a date offset by a day count in
      `[lo, 30]` (the row exists with an empty day range only when no such
      string was rewritten), and anything else is kept as it was. */
  lemma FieldDispatch(records: seq<seq<Field>>, rds: seq<RecordDraw>, n: nat, lo: int, j: nat, i: nat)
    requires DrawsFit(records, rds, n, lo)
    requires j < n && i < |records[rds[j].pick]|
    ensures var b := records[rds[j].pick][i]; var v := SynthRows(records, rds, n, lo)[j][i];
      && v.key == b.key
      && (IsNumeric(b.value) ==> v.value.Jittered? && v.value.base == b.value)
      && (!IsNumeric(b.value) && IsText(b.value) && ContainsDate(Lower(b.key)) ==>
            v.value.Dated? && (lo <= 30 ==> lo <= v.value.days <= 30))
      && (!IsNumeric(b.value) && !(IsText(b.value) && ContainsDate(Lower(b.key))) ==> v.value == b.value)
  {
  }

  /** The key test ignores case, and the numeric test comes first: a number
      under a date-like key is jittered, a string under it is re-dated. */
  lemma DispatchExamples(s: string, n: int)
    ensures RuleFor(Field("Date", Str(s))) == Redate
    ensures RuleFor(Field("Date", Int(n))) == Jitter
    ensures RuleFor(Field("Data", Str(s))) == Keep
  {
    assert Lower("Date") == "date";
    assert Lower("Data") == "data";
    assert "data"[..4][3] != "date"[3];
  }

  /** Without an explicit count, synthesis of a non-empty table never raises:
      a negative years factor also makes the count negative, so the loop
      never runs and `random.randint` is never called. */
  lemma NoRaiseWithoutCount(records: seq<seq<Field>>, rds: seq<RecordDraw>, numRecords: Option<int>, years: Option<int>)
    requires !Given(numRecords) && |records| > 0
    ensures !TableFails(records, rds, RecordsToGenerate(numRecords, years, |records|), DayLow(years))
  {
    CountSign(numRecords, years, |records|);
    DayWindowNonEmpty(years);
  }

  /** The items of a list of dicts. */
  function Snapshot(ds: seq<Dict>): (rs: seq<seq<Field>>)
    reads ds
    ensures |rs| == |ds|
    ensures forall j :: 0 <= j < |ds| ==> rs[j] == ds[j].items
  {
    if ds == [] then [] else [ds[0].items] + Snapshot(ds[1..])
  }

  ghost predicate AllValid(ds: seq<Dict>)
    reads ds
  {
    forall j :: 0 <= j < |ds| ==> ds[j].Valid()
  }

  /** The record after its first `i` fields have been rewritten. */
  function Partial(base: seq<Field>, ds: seq<FieldDraw>, i: nat): seq<Field>
    requires |ds| == |base| && i <= |base|
  {
    seq(|base|, j requires 0 <= j < |base| => if j < i then Field(base[j].key, Rewrite(base[j], ds[j])) else base[j])
  }

  /** Rewriting leaves the keys alone, so a half-rewritten dict still has distinct keys;
      before any rewrite it is the base, after the last it is the synthetic record. */
  lemma PartialShape(base: seq<Field>, ds: seq<FieldDraw>, i: nat)
    requires |ds| == |base| && i <= |base|
    ensures Keys(Partial(base, ds, i)) == Keys(base)
    ensures DistinctKeys(base) ==> DistinctKeys(Partial(base, ds, i))
    ensures i == 0 ==> Partial(base, ds, i) == base
    ensures i == |base| ==> Partial(base, ds, i) == Synthesized(base, ds)
  {
  }

  /** Rewriting field `i` takes the record from `i` rewritten fields to `i + 1`. */
  lemma PartialStep(base: seq<Field>, ds: seq<FieldDraw>, i: nat)
    requires |ds| == |base| && i < |base|
    ensures Partial(base, ds, i + 1) == Partial(base, ds, i)[i := Field(base[i].key, Rewrite(base[i], ds[i]))]
  {
  }

  /** The body of `for key, value in synthetic_record.items()` for the field at
      position `i`: jitter a number, re-date a string under a date-like key
      (raising when the day range is empty), leave anything else alone. */
  method RewriteField(rec: Dict, i: nat, d: FieldDraw, lo: int) returns (raised: bool)
    requires rec.Valid() && i < |rec.items|
    requires lo <= 30 ==> lo <= d.days <= 30
    modifies rec
    ensures raised <==> lo > 30 && RuleFor(old(rec.items[i])) == Redate
    ensures raised ==> rec.items == old(rec.items)
    ensures !raised ==> rec.Valid() && rec.items == old(rec.items)[i := Field(old(rec.items[i].key), Rewrite(old(rec.items[i]), d))]
  {
    var key, value := rec.items[i].key, rec.items[i].value;
    raised := false;
    if IsNumeric(value) {
      PutExisting(rec.items, i, Jittered(value, d.factor));
      rec.Assign(key, Jittered(value, d.factor));
    } else if IsText(value) && ContainsDate(Lower(key)) {
      if lo > 30 {
        return true;
      }
      PutExisting(rec.items, i, Dated(d.now, d.days));
      rec.Assign(key, Dated(d.now, d.days));
    }
  }

  /** One iteration of the record loop: copy `base`, rewrite every field of the
      copy in key order, and return the copy; `base` itself is left untouched
      (this method may change no object that existed before it was called). */
  method SynthesizeRecord(base: Dict, ds: seq<FieldDraw>, lo: int) returns (r: Result<Dict>)
    requires base.Valid() && |ds| == |base.items| && DaysFit(ds, lo)
    ensures r.Err? <==> lo > 30 && HasRedate(base.items)
    ensures r.Err? ==> r.error == EmptyDayRange(lo)
    ensures r.Ok? ==> fresh(r.value) && r.value.Valid() && r.value.items == Synthesized(base.items, ds)
  {
    ghost var b := base.items;
    var rec := base.Copy();
    PartialShape(b, ds, 0);
    var i := 0;
    while i < |rec.items|
      invariant 0 <= i <= |b|
      invariant rec.items == Partial(b, ds, i) && rec.Valid()
      invariant lo > 30 ==> forall j :: 0 <= j < i ==> RuleFor(b[j]) != Redate
    {
      PartialShape(b, ds, i);
      var raised := RewriteField(rec, i, ds[i], lo);
      if raised {
        return Err(EmptyDayRange(lo));
      }
      PartialStep(b, ds, i);
      i := i + 1;
    }
    PartialShape(b, ds, i);
    return Ok(rec);
  }

  /** The first `j` synthetic records are built: each is valid and holds the
      synthetic record drawn for its position, and none of them raised. */
  ghost predicate Built(synthetic: seq<Dict>, refs: seq<seq<Field>>, rds: seq<RecordDraw>, lo: int)
    reads synthetic
  {
    && |synthetic| <= |rds|
    && forall k :: 0 <= k < |synthetic| ==>
         && synthetic[k].Valid()
         && rds[k].pick < |refs| && |rds[k].fields| == |refs[rds[k].pick]|
         && synthetic[k].items == Synthesized(refs[rds[k].pick], rds[k].fields)
         && (lo > 30 ==> !HasRedate(refs[rds[k].pick]))
  }

  /** Appending the next synthetic record keeps the built prefix built. */
  lemma BuiltStep(synthetic: seq<Dict>, rec: Dict, refs: seq<seq<Field>>, rds: seq<RecordDraw>, lo: int)
    requires Built(synthetic, refs, rds, lo)
    requires |synthetic| < |rds| && rds[|synthetic|].pick < |refs|
    requires |rds[|synthetic|].fields| == |refs[rds[|synthetic|].pick]|
    requires rec.Valid() && rec.items == Synthesized(refs[rds[|synthetic|].pick], rds[|synthetic|].fields)
    requires lo > 30 ==> !HasRedate(refs[rds[|synthetic|].pick])
    ensures Built(synthetic + [rec], refs, rds, lo)
  {
  }

  /** All `n` records built are the synthetic rows of the table. */
  lemma BuiltRows(synthetic: seq<Dict>, refs: seq<seq<Field>>, rds: seq<RecordDraw>, n: nat, lo: int)
    requires DrawsFit(refs, rds, n, lo) && |synthetic| == n && Built(synthetic, refs, rds, lo)
    ensures AllValid(synthetic) && Snapshot(synthetic) == SynthRows(refs, rds, n, lo)
    ensures !TableFails(refs, rds, n, lo)
  {
  }

  /** The record loop of one table: `count` iterations, each appending one
      synthetic record built from the reference record `random.choice` picked. */
  method SynthesizeTable(records: seq<Dict>, count: int, lo: int, rds: seq<RecordDraw>) returns (r: Result<seq<Dict>>)
    requires AllValid(records)
    requires DrawsFit(Snapshot(records), rds, count, lo)
    ensures r.Err? <==> TableFails(Snapshot(records), rds, count, lo)
    ensures r.Err? ==> r.error == EmptyDayRange(lo)
    ensures r.Ok? ==> AllValid(r.value) && Snapshot(r.value) == SynthRows(Snapshot(records), rds, Produced(count), lo)
    ensures r.Ok? ==> forall k :: 0 <= k < |r.value| ==> fresh(r.value[k])
  {
    ghost var refs := Snapshot(records);
    var synthetic: seq<Dict> := [];
    var j := 0;
    while j < count
      invariant 0 <= j <= Produced(count) && |synthetic| == j
      invariant Snapshot(records) == refs
      invariant Built(synthetic, refs, rds, lo)
      invariant forall k :: 0 <= k < |synthetic| ==> fresh(synthetic[k])
    {
      var base := records[rds[j].pick];
      var rec := SynthesizeRecord(base, rds[j].fields, lo);
      if rec.Err? {
        return Err(rec.error);
      }
      BuiltStep(synthetic, rec.value, refs, rds, lo);
      synthetic := synthetic + [rec.value];
      j := j + 1;
    }
    BuiltRows(synthetic, refs, rds, Produced(count), lo);
    return Ok(synthetic);
  }
}
