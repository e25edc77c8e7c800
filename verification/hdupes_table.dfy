/** `HashTable` of hdupes/hdupes.py: files grouped by digest. A digest seen
    once holds the bare value; from the second value on it holds a list of
    all of them in the order they came. */
module HdupesTable {

  /** A digest: the bytes `digest()` returns. */
  type Digest = seq<bv8>

  /** A bucket: the bare value, or (from the second value on) the list. */
  datatype Slot<V> = Single(value: V) | Many(values: seq<V>)

  /** The values a bucket holds, in order. */
  function Values<V>(s: Slot<V>): seq<V>
  {
    match s
    case Single(v) => [v]
    case Many(vs) => vs
  }

  /** `append(key, value)` on the table's contents. */
  function Appended<V>(t: map<Digest, Slot<V>>, key: Digest, value: V): (r: map<Digest, Slot<V>>)
    ensures key in r && Values(r[key]) == (if key in t then Values(t[key]) else []) + [value]
    ensures r[key].Single? <==> key !in t
    ensures forall k :: k != key ==> (k in r <==> k in t) && (k in t ==> r[k] == t[k])
  {
    if key in t then
      match t[key]
      case Many(vs) => t[key := Many(vs + [value])]
      case Single(v) => t[key := Many([v, value])]
    else t[key := Single(value)]
  }

  /** The table after appending the pairs `ps`, in order, to an empty one. */
  function Table<V>(ps: seq<(Digest, V)>): map<Digest, Slot<V>>
  {
    if ps == [] then map[]
    else Appended(Table(ps[..|ps| - 1]), ps[|ps| - 1].0, ps[|ps| - 1].1)
  }

  /** The values appended under `key`, in order. */
  function ValuesOf<V>(ps: seq<(Digest, V)>, key: Digest): (vs: seq<V>)
    ensures |vs| <= |ps|
  {
    if ps == [] then []
    else
      var last := ps[|ps| - 1];
      ValuesOf(ps[..|ps| - 1], key) + (if last.0 == key then [last.1] else [])
  }

  /** After any run of appends a key is absent when nothing was appended
      under it, holds the bare value when one was, and holds the list of
      all its values, in the order they were appended, when two or more
      were. */
  lemma {:induction false} TableBuckets<V>(ps: seq<(Digest, V)>, key: Digest)
    ensures key !in Table(ps) <==> ValuesOf(ps, key) == []
    ensures |ValuesOf(ps, key)| == 1 ==> Table(ps)[key] == Single(ValuesOf(ps, key)[0])
    ensures |ValuesOf(ps, key)| >= 2 ==> Table(ps)[key] == Many(ValuesOf(ps, key))
  {
    if ps != [] {
      var init, last := ps[..|ps| - 1], ps[|ps| - 1];
      TableBuckets(init, key);
      var t0, vs0 := Table(init), ValuesOf(init, key);
      assert Table(ps) == Appended(t0, last.0, last.1);
      if last.0 == key {
        assert ValuesOf(ps, key) == vs0 + [last.1];
        assert Values(Table(ps)[key]) == vs0 + [last.1] by {
          if vs0 != [] && |vs0| < 2 {
            assert vs0 == [vs0[0]];
          }
        }
      } else {
        assert ValuesOf(ps, key) == vs0;
      }
    }
  }

  class HashTable<V> {
    /** `_table`. */
    var table: map<Digest, Slot<V>>
    /** The digest level the table was made for. */
    const level: nat

    /** A list bucket always holds at least two values. */
    ghost predicate Valid()
      reads this
    {
      forall k :: k in table && table[k].Many? ==> |table[k].values| >= 2
    }

    constructor (level: nat)
      ensures Valid() && table == map[] && this.level == level
    {
      table := map[];
      this.level := level;
    }

    /** `append(key, value)`. */
    method Append(key: Digest, value: V)
      requires Valid()
      modifies this
      ensures Valid() && table == Appended(old(table), key, value)
    {
      if key in table {
        var e := table[key];
        if e.Many? {
          table := table[key := Many(e.values + [value])];
        } else {
          table := table[key := Many([e.value, value])];
        }
      } else {
        table := table[key := Single(value)];
      }
    }
  }
}
