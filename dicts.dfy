/** A Python dict from column name to value, the object a record is.

    The generator copies a reference record with `base.copy()` and then
    reassigns values of the copy's existing keys in place; a class with a
    field the methods reassign keeps that aliasing visible: the reference
    records are objects of their own, which only a `modifies` clause could
    let a method change. */
module Dicts {
  import opened Values

  /** The position of the first field whose key is `key`, or `|items|` when no field has it. */
  function Find(items: seq<Field>, key: Key): (k: nat)
    ensures k <= |items|
    ensures k < |items| ==> items[k].key == key
    ensures forall j :: 0 <= j < k ==> items[j].key != key
  {
    if |items| == 0 then 0
    else if items[0].key == key then 0
    else 1 + Find(items[1..], key)
  }

  /** `d.get(key)` */
  function Get(items: seq<Field>, key: Key): (r: Option<Value>)
    ensures r.Some? <==> key in Keys(items)
    ensures DistinctKeys(items) ==> forall i :: 0 <= i < |items| && items[i].key == key ==> r == Some(items[i].value)
  {
    var k := Find(items, key);
    if k < |items| then Some(items[k].value) else None
  }

  /** `d[key] = v`: an existing key keeps its place and takes the new value; a new key goes last. */
  function Put(items: seq<Field>, key: Key, v: Value): (r: seq<Field>)
    ensures DistinctKeys(items) ==> DistinctKeys(r)
    ensures key in Keys(items) ==> Keys(r) == Keys(items)
    ensures key !in Keys(items) ==> Keys(r) == Keys(items) + [key]
  {
    var k := Find(items, key);
    if k < |items| then items[k := Field(key, v)] else items + [Field(key, v)]
  }

  /** In a dict with distinct keys, the key at position `i` is found at position `i`. */
  lemma FindDistinct(items: seq<Field>, i: nat)
    requires DistinctKeys(items) && i < |items|
    ensures Find(items, items[i].key) == i
  {
  }

  /** Assigning to an existing key changes that key's field and no other. */
  lemma PutExisting(items: seq<Field>, i: nat, v: Value)
    requires DistinctKeys(items) && i < |items|
    ensures Put(items, items[i].key, v) == items[i := Field(items[i].key, v)]
  {
    FindDistinct(items, i);
  }

  /** Two dicts with the same key order find every key at the same place. */
  lemma {:induction false} FindSameKeys(a: seq<Field>, b: seq<Field>, key: Key)
    requires Keys(a) == Keys(b)
    ensures Find(a, key) == Find(b, key)
  {
    if |a| > 0 && a[0].key != key {
      assert Keys(a[1..]) == Keys(a)[1..];
      assert Keys(b[1..]) == Keys(b)[1..];
      FindSameKeys(a[1..], b[1..], key);
    }
  }

  /** Appending a field does not move the first occurrence of a key already present. */
  lemma {:induction false} FindAppend(items: seq<Field>, f: Field, key: Key)
    ensures Find(items + [f], key) ==
      if Find(items, key) < |items| then Find(items, key)
      else if f.key == key then |items| else |items| + 1
  {
    if |items| > 0 && items[0].key != key {
      assert (items + [f])[1..] == items[1..] + [f];
      FindAppend(items[1..], f, key);
    }
  }

  /** A dict reads back the value just stored under a key. */
  lemma GetPutSame(items: seq<Field>, key: Key, v: Value)
    ensures Get(Put(items, key, v), key) == Some(v)
  {
    var k := Find(items, key);
    var r := Put(items, key, v);
    if k < |items| {
      FindSameKeys(r, items, key);
    } else {
      FindAppend(items, Field(key, v), key);
    }
  }

  /** Storing under one key leaves what every other key reads unchanged. */
  lemma GetPutOther(items: seq<Field>, key: Key, other: Key, v: Value)
    requires other != key
    ensures Get(Put(items, key, v), other) == Get(items, other)
  {
    var k := Find(items, key);
    var r := Put(items, key, v);
    var m := Find(items, other);
    if k < |items| {
      FindSameKeys(r, items, other);
      assert m != k;
    } else {
      FindAppend(items, Field(key, v), other);
    }
  }

  class Dict {
    var items: seq<Field>

    ghost predicate Valid()
      reads this
    {
      DistinctKeys(items)
    }

    constructor (items: seq<Field>)
      requires DistinctKeys(items)
      ensures Valid() && this.items == items
    {
      this.items := items;
    }

    /** `d.copy()`: a new dict with the same items; this one is not touched. */
    method Copy() returns (d: Dict)
      requires Valid()
      ensures fresh(d) && d.Valid() && d.items == items
    {
      d := new Dict(items);
    }

    /** `d[key] = v` */
    method Assign(key: Key, v: Value)
      requires Valid()
      modifies this
      ensures Valid() && items == Put(old(items), key, v)
    {
      items := Put(items, key, v);
    }
  }
}
