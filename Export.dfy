/** `export_args`: a copy of the parsed arguments keeping only the entries
    whose key and value are both truthy, in their original order. */
module Export {
  import opened Php
  import opened Args

  /** The exported array built from the first `n` keys, one `foreach` step
      at a time. */
  function ExportPrefix(a: ArgList, n: nat): ArgList
    requires n <= |a.keys|
  {
    if n == 0 then Empty
    else
      var e := ExportPrefix(a, n - 1);
      var k := a.keys[n - 1];
      match Get(a, k)
      case Some(v) => if Truthy(k) && TruthyValue(v) then Put(e, k, v) else e
      case None => e
  }

  function Exported(a: ArgList): ArgList {
    ExportPrefix(a, |a.keys|)
  }

  /** `xs` can be obtained from `ys` by deleting elements. */
  predicate Subsequence<T(==)>(xs: seq<T>, ys: seq<T>)
    decreases |ys|
  {
    if xs == [] then true
    else if ys == [] then false
    else if xs[|xs| - 1] == ys[|ys| - 1] then Subsequence(xs[..|xs| - 1], ys[..|ys| - 1])
    else Subsequence(xs, ys[..|ys| - 1])
  }

  /** Kept: the entry `export_args` copies for key `k` of `a`, if any. */
  function Kept(a: ArgList, k: string): Option<Value> {
    if Truthy(k) && TruthyResult(Get(a, k)) then Get(a, k) else None
  }

  lemma {:induction false} ExportPrefixEntries(a: ArgList, n: nat)
    requires WellFormed(a) && n <= |a.keys|
    ensures WellFormed(ExportPrefix(a, n))
    ensures forall k :: Get(ExportPrefix(a, n), k) == if k in a.keys[..n] then Kept(a, k) else None
  {
    if n > 0 {
      ExportPrefixEntries(a, n - 1);
      assert a.keys[..n] == a.keys[..n - 1] + [a.keys[n - 1]];
    }
  }

  lemma {:induction false} ExportPrefixOrder(a: ArgList, n: nat)
    requires WellFormed(a) && n <= |a.keys|
    ensures Subsequence(ExportPrefix(a, n).keys, a.keys[..n])
  {
    if n > 0 {
      ExportPrefixOrder(a, n - 1);
      ExportPrefixEntries(a, n - 1);
      var e := ExportPrefix(a, n - 1);
      var k := a.keys[n - 1];
      assert a.keys[..n][..n - 1] == a.keys[..n - 1];
      if Kept(a, k).Some? {
        assert k !in a.keys[..n - 1];
        var xs := e.keys + [k];
        assert ExportPrefix(a, n).keys == xs;
        assert xs[..|xs| - 1] == e.keys;
      } else if e.keys != [] {
        var last := e.keys[|e.keys| - 1];
        assert Get(e, last).Some?;
        assert last in a.keys[..n - 1];
        assert last != k;
      }
    }
  }

  /** The export holds exactly the entries with a truthy key and a truthy
      value, with their values, and lists its keys in the order of the
      parsed arguments. */
  lemma ExportedShape(a: ArgList)
    requires WellFormed(a)
    ensures WellFormed(Exported(a))
    ensures forall k :: Get(Exported(a), k) == Kept(a, k)
    ensures Subsequence(Exported(a).keys, a.keys)
  {
    ExportPrefixEntries(a, |a.keys|);
    ExportPrefixOrder(a, |a.keys|);
    assert a.keys[..|a.keys|] == a.keys;
  }
}
