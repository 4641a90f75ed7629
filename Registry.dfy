/** The registered arguments (`$_args`), the alias index from every truthy
    short and long name to the slot of its spec (`$_args_idx`), and the
    alias-aware lookup `arg()`. */
module Registry {
  import opened Php
  import opened Args

  /** One `register_arg(short, long, desc, mandatory)` call, with the
      defaults '' , '' and false for what the caller leaves out. */
  datatype Spec = Spec(short: string, long: string, desc: string, mandatory: bool)

  datatype Registry = Registry(specs: seq<Spec>, index: map<string, nat>)

  const NoSpecs := Registry([], map[])

  /** `name` is one of the truthy names of `s`. */
  predicate Names(s: Spec, name: string) {
    (Truthy(s.short) && name == s.short) || (Truthy(s.long) && name == s.long)
  }

  /** Every index entry is a truthy name of the spec in the slot it points
      at, and every truthy name of every spec is indexed (perhaps pointing at
      a later spec that reused it). */
  predicate IndexValid(r: Registry) {
    && (forall k :: k in r.index ==> r.index[k] < |r.specs| && Names(r.specs[r.index[k]], k))
    && (forall i :: 0 <= i < |r.specs| && Truthy(r.specs[i].short) ==> r.specs[i].short in r.index)
    && (forall i :: 0 <= i < |r.specs| && Truthy(r.specs[i].long) ==> r.specs[i].long in r.index)
  }

  /** `register_arg`: the spec goes into the next slot, and its truthy short
      and long names are pointed at that slot. */
  function Register(r: Registry, s: Spec): (r': Registry)
    ensures r'.specs == r.specs + [s]
    ensures forall k :: k in r'.index <==> k in r.index || Names(s, k)
    ensures forall k :: k in r'.index ==> r'.index[k] == if Names(s, k) then |r.specs| else r.index[k]
    ensures IndexValid(r) ==> IndexValid(r')
  {
    var i := |r.specs|;
    var withShort := if Truthy(s.short) then r.index[s.short := i] else r.index;
    var withLong := if Truthy(s.long) then withShort[s.long := i] else withShort;
    Registry(r.specs + [s], withLong)
  }

  /** `v` is parsed under another truthy name of the spec `name` points at. */
  predicate AliasHolds(a: ArgList, r: Registry, name: string, v: Option<Value>)
    requires IndexValid(r) && name in r.index
  {
    var s := r.specs[r.index[name]];
    || (Truthy(s.short) && s.short != name && v == Get(a, s.short))
    || (Truthy(s.long) && s.long != name && v == Get(a, s.long))
  }

  /** `arg(name, default)` for a string name: the literal parsed value if
      there is one; otherwise, for a registered name, the value parsed under
      the spec's short name and then under its long name (never `name`
      itself); otherwise `default`. */
  function Lookup(a: ArgList, r: Registry, name: string, default: Option<Value>): (v: Option<Value>)
    requires IndexValid(r)
    ensures Get(a, name).Some? ==> v == Get(a, name)
    ensures Get(a, name).None? && name !in r.index ==> v == default
    ensures v != default ==> v.Some? && (v == Get(a, name) || (name in r.index && AliasHolds(a, r, name, v)))
    ensures Get(a, name).None? && name in r.index ==>
      var s := r.specs[r.index[name]];
      && (forall o :: Names(s, o) && o != name && Get(a, o).Some? ==> v == Get(a, o))
      && ((forall o :: Names(s, o) && o != name ==> Get(a, o).None?) ==> v == default)
  {
    if Get(a, name).Some? then Get(a, name)
    else if name in r.index then
      var s := r.specs[r.index[name]];
      if Truthy(s.short) && name != s.short && Get(a, s.short).Some? then Get(a, s.short)
      else if Truthy(s.long) && name != s.long && Get(a, s.long).Some? then Get(a, s.long)
      else default
    else default
  }

  /** `o` if it holds a value, else `d`. */
  function OrElse<T>(o: Option<T>, d: Option<T>): Option<T> {
    if o.Some? then o else d
  }

  /** For a spec registered under two different truthy names that both still
      point at it, a value parsed under either name is found under the
      other, and when neither was parsed both give the default. */
  lemma LookupAlias(a: ArgList, r: Registry, i: nat, default: Option<Value>)
    requires IndexValid(r) && i < |r.specs|
    requires var s := r.specs[i];
      Truthy(s.short) && Truthy(s.long) && s.short != s.long &&
      s.short in r.index && r.index[s.short] == i && s.long in r.index && r.index[s.long] == i
    ensures var s := r.specs[i];
      && (Get(a, s.short).None? ==> Lookup(a, r, s.short, default) == OrElse(Get(a, s.long), default))
      && (Get(a, s.long).None? ==> Lookup(a, r, s.long, default) == OrElse(Get(a, s.short), default))
  {
  }

  /** After `register_arg(s)`, both truthy names of `s` point at its slot. */
  lemma RegisterPointsAtNewSpec(r: Registry, s: Spec)
    ensures var r' := Register(r, s);
      forall k :: Names(s, k) ==> k in r'.index && r'.index[k] == |r.specs| && r'.specs[|r.specs|] == s
  {
  }
}
