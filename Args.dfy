/** The parsed arguments: a PHP array from argument name to value, which keeps
    its keys in insertion order. It is held as the sequence of keys in
    insertion order beside the map from key to value. Assigning to a key that
    is already there changes the value and keeps the key's position. */
module Args {
  import opened Php

  /** A parsed value is a supplied string or the boolean `true`. */
  datatype Value = Str(s: string) | True

  /** PHP truthiness of a value: `true`, or a truthy string. */
  predicate TruthyValue(v: Value) {
    v.True? || Truthy(v.s)
  }

  /** PHP truthiness of a lookup result, where `None` is `null`. */
  predicate TruthyResult(o: Option<Value>) {
    o.Some? && TruthyValue(o.value)
  }

  datatype ArgList = ArgList(keys: seq<string>, values: map<string, Value>)

  const Empty := ArgList([], map[])

  /** Every key is listed once, and the listed keys are the keys of the map. */
  predicate WellFormed(a: ArgList) {
    && (forall i, j :: 0 <= i < j < |a.keys| ==> a.keys[i] != a.keys[j])
    && (forall k :: k in a.values ==> k in a.keys)
    && (forall i :: 0 <= i < |a.keys| ==> a.keys[i] in a.values)
  }

  /** `isset(a[k]) ? a[k] : null` (values are never null). */
  function Get(a: ArgList, k: string): Option<Value> {
    if k in a.values then Some(a.values[k]) else None
  }

  /** `a[k] = v`: an existing key keeps its position, a new key goes last. */
  function Put(a: ArgList, k: string, v: Value): (r: ArgList)
    ensures Get(r, k) == Some(v)
    ensures forall j :: j != k ==> Get(r, j) == Get(a, j)
    ensures WellFormed(a) ==> WellFormed(r)
    ensures WellFormed(a) ==> r.keys == if Get(a, k).Some? then a.keys else a.keys + [k]
  {
    ArgList(if k in a.values then a.keys else a.keys + [k], a.values[k := v])
  }
}
