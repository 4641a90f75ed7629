/** `validate_args`: the decision it reaches before it exits. Help comes
    first, then the first mandatory spec that is missing, then the first
    parsed key that no spec registers. */
module Validation {
  import opened Php
  import opened Args
  import opened Registry
  import opened Tokenizer

  /** `Pass` returns normally; `HelpExit(e)` prints the usage and exits
      with status 0, after printing the error line `e` if there is one. */
  datatype Outcome = Pass | HelpExit(error: Option<string>)

  /** `arg('h', arg('help'))` is truthy. */
  predicate HelpRequested(a: ArgList, r: Registry)
    requires IndexValid(r)
  {
    TruthyResult(Lookup(a, r, "h", Lookup(a, r, "help", None)))
  }

  /** A mandatory spec is missing when its truthy short name finds nothing
      or its truthy long name finds nothing. */
  predicate Missing(a: ArgList, r: Registry, s: Spec)
    requires IndexValid(r)
  {
    && s.mandatory
    && ((Truthy(s.short) && Lookup(a, r, s.short, None).None?) ||
        (Truthy(s.long) && Lookup(a, r, s.long, None).None?))
  }

  /** The name a missing spec is reported under: the long one if truthy. */
  function ReportedName(s: Spec): string {
    if Truthy(s.long) then s.long else s.short
  }

  function RequiredMessage(s: Spec): string {
    "Argument required '" + ReportedName(s) + "' (" + s.desc + ")"
  }

  function UnexpectedMessage(key: string): string {
    "Unexpected argument '" + key + "'"
  }

  /** The first slot at or after `from` holding a missing spec. */
  function FirstMissing(a: ArgList, r: Registry, from: nat): (m: Option<nat>)
    requires IndexValid(r)
    ensures m.Some? ==> from <= m.value < |r.specs| && Missing(a, r, r.specs[m.value])
    ensures m.Some? ==> forall i :: from <= i < m.value ==> !Missing(a, r, r.specs[i])
    ensures m.None? ==> forall i :: from <= i < |r.specs| ==> !Missing(a, r, r.specs[i])
    decreases |r.specs| - from
  {
    if from >= |r.specs| then None
    else if Missing(a, r, r.specs[from]) then Some(from)
    else FirstMissing(a, r, from + 1)
  }

  /** The first position at or after `from` of a key no spec registers. */
  function FirstUnknown(keys: seq<string>, r: Registry, from: nat): (u: Option<nat>)
    ensures u.Some? ==> from <= u.value < |keys| && keys[u.value] !in r.index
    ensures u.Some? ==> forall i :: from <= i < u.value ==> keys[i] in r.index
    ensures u.None? ==> forall i :: from <= i < |keys| ==> keys[i] in r.index
    decreases |keys| - from
  {
    if from >= |keys| then None
    else if keys[from] !in r.index then Some(from)
    else FirstUnknown(keys, r, from + 1)
  }

  function Validate(a: ArgList, r: Registry): Outcome
    requires IndexValid(r)
  {
    if HelpRequested(a, r) then HelpExit(None)
    else match FirstMissing(a, r, 0)
      case Some(i) => HelpExit(Some(RequiredMessage(r.specs[i])))
      case None =>
        match FirstUnknown(a.keys, r, 0)
        case Some(j) => HelpExit(Some(UnexpectedMessage(a.keys[j])))
        case None => Pass
  }

  /** Validation passes exactly when help was not asked for, no mandatory
      spec is missing and every parsed key is registered. */
  lemma PassIff(a: ArgList, r: Registry)
    requires IndexValid(r)
    ensures Validate(a, r) == Pass <==>
      && !HelpRequested(a, r)
      && (forall i :: 0 <= i < |r.specs| ==> !Missing(a, r, r.specs[i]))
      && (forall k :: k in a.keys ==> k in r.index)
  {
    if !HelpRequested(a, r) && FirstMissing(a, r, 0).None? && FirstUnknown(a.keys, r, 0).Some? {
      var j := FirstUnknown(a.keys, r, 0).value;
      assert a.keys[j] in a.keys;
    }
  }

  /** The usage is printed without an error line exactly when help was
      asked for: every other failure reports why. */
  lemma SilentHelpIff(a: ArgList, r: Registry)
    requires IndexValid(r)
    ensures Validate(a, r) == HelpExit(None) <==> HelpRequested(a, r)
  {
  }

  /** A missing mandatory spec is reported before any unknown key, and the
      first one in registration order is the one reported. */
  lemma MissingReportedFirst(a: ArgList, r: Registry, i: nat)
    requires IndexValid(r) && i < |r.specs| && !HelpRequested(a, r)
    requires Missing(a, r, r.specs[i]) && forall j :: 0 <= j < i ==> !Missing(a, r, r.specs[j])
    ensures Validate(a, r) == HelpExit(Some(RequiredMessage(r.specs[i])))
  {
    var m := FirstMissing(a, r, 0);
    assert m.Some?;
    assert m.value == i;
  }

  /** With nothing missing, the first unregistered key in parse order is the
      one reported. */
  lemma UnknownReported(a: ArgList, r: Registry, j: nat)
    requires IndexValid(r) && j < |a.keys| && !HelpRequested(a, r)
    requires forall i :: 0 <= i < |r.specs| ==> !Missing(a, r, r.specs[i])
    requires a.keys[j] !in r.index && forall i :: 0 <= i < j ==> a.keys[i] in r.index
    ensures Validate(a, r) == HelpExit(Some(UnexpectedMessage(a.keys[j])))
  {
    var u := FirstUnknown(a.keys, r, 0);
    assert u.Some?;
    assert u.value == j;
  }

  /** While both names of a spec still point at it, the lookups see each
      other's values, so "either lookup finds nothing" is "neither name was
      parsed". */
  lemma MissingWhenAliased(a: ArgList, r: Registry, i: nat)
    requires IndexValid(r) && i < |r.specs|
    requires var s := r.specs[i];
      && (Truthy(s.short) ==> s.short in r.index && r.index[s.short] == i)
      && (Truthy(s.long) ==> s.long in r.index && r.index[s.long] == i)
    ensures var s := r.specs[i];
      Missing(a, r, s) <==>
        && s.mandatory
        && (Truthy(s.short) || Truthy(s.long))
        && (Truthy(s.short) ==> Get(a, s.short).None?)
        && (Truthy(s.long) ==> Get(a, s.long).None?)
  {
  }

  /** `-h` given as "0" hides `--help`: the parsed "0" is returned in
      preference to the default that carries the `--help` value. */
  lemma FalsyShortHelpHidesLong(a: ArgList, r: Registry)
    requires IndexValid(r) && Get(a, "h") == Some(Str("0"))
    ensures !HelpRequested(a, r)
  {
  }

  // ---------------------------------------------------------------------
  // The registration example shipped with the class registers `n`/`name`
  // as mandatory and is run with `--name=Tim`; `OneMandatoryPair` covers it
  // with short "n", long "name" and value "Tim".

  /** A single `--long=value` token parses to that one entry. */
  lemma ParseOnePair(long: string, v: string)
    requires CleanName(long)
    ensures Parse(["--" + long + "=" + v]) == ArgList([long], map[long := Str(Trim(v, Whitespace))])
  {
    RunPair("--" + long + "=" + v, "");
    LongPair(Start, long, v);
  }

  /** After registering one mandatory spec under two names and passing it
      as `--long=value`, the short name finds the value through the alias
      and validation passes, provided neither name is a help switch. */
  lemma OneMandatoryPair(short: string, long: string, desc: string, v: string)
    requires CleanName(long) && Truthy(short) && short != long
    requires short != "h" && short != "help" && long != "h" && long != "help"
    ensures var a := Parse(["--" + long + "=" + v]);
      var r := Register(NoSpecs, Spec(short, long, desc, true));
      Lookup(a, r, short, None) == Some(Str(Trim(v, Whitespace))) && Validate(a, r) == Pass
  {
    ParseOnePair(long, v);
    var a := ArgList([long], map[long := Str(Trim(v, Whitespace))]);
    var s := Spec(short, long, desc, true);
    var r := Register(NoSpecs, s);
    assert r == Registry([s], map[short := 0, long := 0]);
    assert Lookup(a, r, "help", None) == None;
    assert Lookup(a, r, "h", None) == None;
    assert !Missing(a, r, s);
    assert FirstMissing(a, r, 0) == None;
    assert FirstUnknown(a.keys, r, 0) == None;
  }
}
