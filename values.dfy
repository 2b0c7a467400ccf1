/** Values, fields and records as the generator sees them at run time.

    A reference record is what `DataFrame.to_dict(orient='records')` yields for
    one CSV row: an ordered dict from column name to a Python value. The values
    the generator writes back are tagged rather than computed: a jittered number
    remembers the number it came from and the factor, a re-dated string
    remembers the clock reading and the day offset. */
module Values {

  datatype Option<+T> = None | Some(value: T)

  /** A reading of the wall clock, what `datetime.now()` returns; opaque. */
  datatype Instant = Instant(ticks: int)

  /** A jitter factor as `random.uniform(0.9, 1.1)` returns it. */
  type Factor = r: real | 0.9 <= r <= 1.1 witness 1.0

  datatype Value =
    | Int(n: int)                            // Python int
    | Bool(b: bool)                          // Python bool, a subclass of int
    | Float(bits: bv64)                      // Python float (NaN included), kept opaque
    | Str(s: string)                         // Python str
    | Jittered(base: Value, factor: Factor)  // the float `base * factor`, left unevaluated
    | Dated(now: Instant, days: int)         // the str `(now + timedelta(days=days)).strftime('%Y-%m-%d')`

  /** `isinstance(v, (int, float))` */
  predicate IsNumeric(v: Value) {
    v.Int? || v.Bool? || v.Float? || v.Jittered?
  }

  /** `isinstance(v, str)` */
  predicate IsText(v: Value) {
    v.Str? || v.Dated?
  }

  /** The values `pandas.read_csv` puts in a frame: ints, bools, floats and strings. */
  predicate FromCsv(v: Value) {
    v.Int? || v.Bool? || v.Float? || v.Str?
  }

  type Key = string

  datatype Field = Field(key: Key, value: Value)

  /** The key order of a record, what `list(record.keys())` gives. */
  function Keys(r: seq<Field>): (ks: seq<Key>)
    ensures |ks| == |r|
    ensures forall i :: 0 <= i < |r| ==> ks[i] == r[i].key
  {
    seq(|r|, i requires 0 <= i < |r| => r[i].key)
  }

  /** The keys of a dict are pairwise distinct. */
  predicate DistinctKeys(r: seq<Field>) {
    forall i, j :: 0 <= i < j < |r| ==> r[i].key != r[j].key
  }

  function LowerChar(c: char): char {
    if 'A' <= c <= 'Z' then (c as int + 32) as char else c
  }

  /** `s.lower()`, on the ASCII letters. */
  function Lower(s: string): (t: string)
    ensures |t| == |s|
    ensures forall i :: 0 <= i < |s| ==> t[i] == LowerChar(s[i])
  {
    seq(|s|, i requires 0 <= i < |s| => LowerChar(s[i]))
  }

  /** `'date' in s` */
  predicate ContainsDate(s: string) {
    |s| >= 4 && (s[..4] == "date" || ContainsDate(s[1..]))
  }
}
