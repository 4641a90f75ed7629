/** The argument tokenizer of the `cli` constructor: the ordered argument
    vector (without the script path) becomes an ordered map from name to
    value. Between tokens it carries one piece of state, the last character of
    the most recent `-abc` cluster, which the next bare token may take as its
    value. */
module Tokenizer {
  import opened Php
  import opened Args

  /** The parsed arguments so far and the pending `$flag`, if it is set. */
  datatype TokState = TokState(args: ArgList, pending: Option<char>)

  const Start := TokState(Empty, None)

  /** The key of a `name=value` token: whitespace-trimmed, and stripped of
      all dashes only when it begins with "--". */
  function PairName(k: string): string {
    var n := Trim(k, Whitespace);
    if StartsWith(n, "--") then Trim(n, Dash) else n
  }

  /** The `foreach` over the characters of a cluster: each one set to `true`,
      in order. */
  function SetFlags(a: ArgList, flags: string): (r: ArgList)
    ensures forall c :: c in flags ==> Get(r, [c]) == Some(True)
    ensures forall k :: !(|k| == 1 && k[0] in flags) ==> Get(r, k) == Get(a, k)
    ensures WellFormed(a) ==> WellFormed(r) && a.keys <= r.keys
  {
    if flags == [] then a
    else
      var n := |flags| - 1;
      assert flags == flags[..n] + [flags[n]];
      Put(SetFlags(a, flags[..n]), [flags[n]], True)
  }

  /** The four shapes a token can take, told apart in this order. */
  datatype Token =
    | Pair(name: string, value: string)   // contains "=": `name=value`
    | Long(name: string)                  // starts with "--": `--name`
    | Cluster(flags: string)              // starts with "-": `-abc`
    | Bare(text: string)                  // anything else

  /** The branch that a token takes, with the name and value it carries
      already trimmed. */
  function Classify(arg: string): Token {
    match FirstIndex(arg, '=')
    case Some(i) => Pair(PairName(arg[..i]), Trim(arg[i + 1..], Whitespace))
    case None =>
      if StartsWith(arg, "--") then Long(Trim(arg, DashWhitespace))
      else if Truthy(arg) && arg[0] == '-' then Cluster(Trim(arg, DashWhitespace))
      else Bare(Trim(arg, Whitespace))
  }

  lemma ClassifiedPair(arg: string, i: nat)
    requires FirstIndex(arg, '=') == Some(i)
    ensures Classify(arg) == Pair(PairName(arg[..i]), Trim(arg[i + 1..], Whitespace))
  {
  }

  lemma ClassifiedOther(arg: string)
    requires FirstIndex(arg, '=') == None
    ensures Classify(arg) == if StartsWith(arg, "--") then Long(Trim(arg, DashWhitespace))
                             else if Truthy(arg) && arg[0] == '-' then Cluster(Trim(arg, DashWhitespace))
                             else Bare(Trim(arg, Whitespace))
  {
  }

  /** A token that is neither a pair, nor a long option, nor a cluster. */
  predicate IsBare(t: string) {
    '=' !in t && !StartsWith(t, "--") && !(Truthy(t) && t[0] == '-')
  }

  /** One iteration of the constructor's loop. Only a cluster leaves a flag
      pending: its `continue` skips the `unset($flag)`, and an empty cluster
      leaves `$flag` as it was. */
  function Apply(st: TokState, tok: Token): TokState {
    match tok
    case Pair(name, value) =>
      TokState(if Truthy(name) then Put(st.args, name, Str(value)) else st.args, None)
    case Long(name) =>
      TokState(if Truthy(name) then Put(st.args, name, True) else st.args, None)
    case Cluster(flags) =>
      TokState(SetFlags(st.args, flags), if flags == [] then st.pending else Some(flags[|flags| - 1]))
    case Bare(text) =>
      if st.pending.Some? then TokState(Put(st.args, [st.pending.value], Str(text)), None)
      else TokState(st.args, None)
  }

  function Step(st: TokState, arg: string): TokState {
    Apply(st, Classify(arg))
  }

  /** The state after the whole vector, token by token from the left. */
  function Run(argv: seq<string>): TokState {
    if argv == [] then Start else Step(Run(argv[..|argv| - 1]), argv[|argv| - 1])
  }

  function Parse(argv: seq<string>): ArgList {
    Run(argv).args
  }

  /** The tokenizer loop of the constructor. */
  method Tokenize(argv: seq<string>) returns (parsed: ArgList)
    ensures parsed == Parse(argv)
  {
    parsed := Empty;
    var flag: Option<char> := None;
    for i := 0 to |argv|
      invariant TokState(parsed, flag) == Run(argv[..i])
    {
      assert argv[..i + 1][..i] == argv[..i];
      parsed, flag := Consume(parsed, flag, argv[i]);
    }
    assert argv[..|argv|] == argv;
  }

  /** The pair branch of one step. */
  lemma StepPair(st: TokState, arg: string, i: nat)
    requires FirstIndex(arg, '=') == Some(i)
    ensures var name := PairName(arg[..i]);
      Step(st, arg) == TokState(if Truthy(name) then Put(st.args, name, Str(Trim(arg[i + 1..], Whitespace))) else st.args, None)
  {
    ClassifiedPair(arg, i);
  }

  /** The other three branches of one step. */
  lemma StepOther(st: TokState, arg: string)
    requires FirstIndex(arg, '=') == None
    ensures Step(st, arg) ==
      if StartsWith(arg, "--") then
        var name := Trim(arg, DashWhitespace);
        TokState(if Truthy(name) then Put(st.args, name, True) else st.args, None)
      else if Truthy(arg) && arg[0] == '-' then
        var flags := Trim(arg, DashWhitespace);
        TokState(SetFlags(st.args, flags), if flags == [] then st.pending else Some(flags[|flags| - 1]))
      else if st.pending.Some? then
        TokState(Put(st.args, [st.pending.value], Str(Trim(arg, Whitespace))), None)
      else
        TokState(st.args, None)
  {
    ClassifiedOther(arg);
  }

  /** One pass of the loop body on token `arg`; the early return in the
      cluster branch is the `continue` that skips `unset($flag)`. */
  method Consume(parsed0: ArgList, flag0: Option<char>, arg: string) returns (parsed: ArgList, flag: Option<char>)
    ensures TokState(parsed, flag) == Step(TokState(parsed0, flag0), arg)
  {
    parsed, flag := parsed0, flag0;
    var pair := FirstIndex(arg, '=');
    if pair.Some? {
      var name := Trim(arg[..pair.value], Whitespace);
      if StartsWith(name, "--") {
        name := Trim(name, Dash);
      }
      StepPair(TokState(parsed0, flag0), arg, pair.value);
      if Truthy(name) {
        parsed := Put(parsed, name, Str(Trim(arg[pair.value + 1..], Whitespace)));
      }
    } else if StartsWith(arg, "--") {
      var name := Trim(arg, DashWhitespace);
      StepOther(TokState(parsed0, flag0), arg);
      if Truthy(name) {
        parsed := Put(parsed, name, True);
      }
    } else if Truthy(arg) && arg[0] == '-' {
      var flags := Trim(arg, DashWhitespace);
      StepOther(TokState(parsed0, flag0), arg);
      parsed, flag := SetEach(parsed, flag, flags);
      return;
    } else if flag.Some? {
      StepOther(TokState(parsed0, flag0), arg);
      parsed := Put(parsed, [flag.value], Str(Trim(arg, Whitespace)));
    } else {
      StepOther(TokState(parsed0, flag0), arg);
    }
    flag := None;
  }

  /** The `foreach` over a cluster's characters: each becomes a `true` key
      and, in turn, the pending flag. */
  method SetEach(parsed0: ArgList, flag0: Option<char>, flags: string) returns (parsed: ArgList, flag: Option<char>)
    ensures parsed == SetFlags(parsed0, flags)
    ensures flag == if flags == [] then flag0 else Some(flags[|flags| - 1])
  {
    parsed, flag := parsed0, flag0;
    for j := 0 to |flags|
      invariant parsed == SetFlags(parsed0, flags[..j])
      invariant flag == if j == 0 then flag0 else Some(flags[j - 1])
    {
      assert flags[..j + 1][..j] == flags[..j];
      parsed := Put(parsed, [flags[j]], True);
      flag := Some(flags[j]);
    }
    assert flags[..|flags|] == flags;
  }

  // ---------------------------------------------------------------------
  // Properties of the tokenizer

  /** The state the loop keeps: each key listed once and in the map, and a
      pending flag is a key that its cluster has already set. */
  predicate Consistent(st: TokState) {
    WellFormed(st.args) && (st.pending.Some? ==> [st.pending.value] in st.args.values)
  }

  lemma StepConsistent(st: TokState, t: string)
    requires Consistent(st)
    ensures Consistent(Step(st, t))
    ensures st.args.keys <= Step(st, t).args.keys
  {
    match Classify(t)
    case Cluster(flags) =>
      if flags != [] {
        assert flags[|flags| - 1] in flags;
      }
    case _ =>
  }

  /** Whatever the vector, the parsed names are unique, and a later token
      never moves a name that an earlier token stored: overwriting keeps the
      original position. */
  lemma {:induction false} RunConsistent(argv: seq<string>, more: seq<string>)
    ensures Consistent(Run(argv))
    ensures Parse(argv).keys <= Parse(argv + more).keys
    decreases |more|, |argv|
  {
    if more != [] {
      var n := |argv + more| - 1;
      assert (argv + more)[..n] == argv + more[..|more| - 1];
      RunConsistent(argv, more[..|more| - 1]);
      RunConsistent(argv + more[..|more| - 1], []);
      StepConsistent(Run(argv + more[..|more| - 1]), (argv + more)[n]);
    } else if argv != [] {
      assert argv + more == argv;
      RunConsistent(argv[..|argv| - 1], []);
      StepConsistent(Run(argv[..|argv| - 1]), argv[|argv| - 1]);
    } else {
      assert argv + more == argv;
    }
  }

  /** A token with an `=` that yields a falsy name ("", "0") stores nothing
      and clears the pending flag. */
  lemma FalsyPairNameIgnored(st: TokState, t: string, i: nat)
    requires i < |t| && t[i] == '=' && '=' !in t[..i]
    requires !Truthy(PairName(t[..i]))
    ensures Step(st, t) == TokState(st.args, None)
  {
    FirstIndexIs(t, '=', i);
  }

  /** A token with an `=`: the text after the first `=`, trimmed, is stored
      under the pair's name, every other name keeps its value, and the
      pending flag is cleared. */
  lemma PairToken(st: TokState, t: string, i: nat)
    requires i < |t| && t[i] == '=' && '=' !in t[..i]
    requires Truthy(PairName(t[..i]))
    ensures Get(Step(st, t).args, PairName(t[..i])) == Some(Str(Trim(t[i + 1..], Whitespace)))
    ensures forall k :: k != PairName(t[..i]) ==> Get(Step(st, t).args, k) == Get(st.args, k)
    ensures Step(st, t).pending == None
  {
    FirstIndexIs(t, '=', i);
  }

  /** Removing leading dashes from `"-" + n` or `"--" + n`, when `n` starts
      with neither a dash nor whitespace. */
  lemma StripDashes(n: string, cs: set<char>)
    requires '-' in cs && n != [] && n[0] !in cs && n[|n| - 1] !in cs
    ensures Trim("-" + n, cs) == n && Trim("--" + n, cs) == n
  {
    assert ("--" + n)[1..] == "-" + n;
    assert ("-" + n)[1..] == n;
    assert TrimLeft(n, cs) == n;
    assert TrimRight(n, cs) == n;
  }

  /** A clean option name: non-empty, not "0", no `=`, and neither end a dash
      or whitespace. */
  predicate CleanName(n: string) {
    && Truthy(n) && '=' !in n
    && n[0] !in DashWhitespace + Whitespace
    && n[|n| - 1] !in DashWhitespace + Whitespace
  }

  /** `--name=value` stores the trimmed value under `name`. */
  lemma LongPair(st: TokState, n: string, v: string)
    requires CleanName(n)
    ensures Step(st, "--" + n + "=" + v) == TokState(Put(st.args, n, Str(Trim(v, Whitespace))), None)
    ensures Get(Step(st, "--" + n + "=" + v).args, n) == Some(Str(Trim(v, Whitespace)))
    ensures forall k :: k != n ==> Get(Step(st, "--" + n + "=" + v).args, k) == Get(st.args, k)
  {
    var t := "--" + n + "=" + v;
    var i := |n| + 2;
    assert t[..i] == "--" + n;
    assert '=' !in t[..i];
    assert t[i + 1..] == v;
    TrimUntouched("--" + n, Whitespace);
    StripDashes(n, Dash);
    assert PairName(t[..i]) == n;
    FirstIndexIs(t, '=', i);
    StepPair(st, t, i);
  }

  /** `--name` with no `=` stores `true` under `name`. */
  lemma LongFlag(st: TokState, n: string)
    requires CleanName(n)
    ensures Step(st, "--" + n) == TokState(Put(st.args, n, True), None)
    ensures Get(Step(st, "--" + n).args, n) == Some(True)
    ensures forall k :: k != n ==> Get(Step(st, "--" + n).args, k) == Get(st.args, k)
  {
    var t := "--" + n;
    assert '=' !in t;
    StripDashes(n, DashWhitespace);
    FirstIndexNone(t, '=');
    ClassifiedOther(t);
  }

  /** `-abc` sets every character to `true`, touches no other name, and
      leaves its last character pending. */
  lemma ClusterSetsFlags(st: TokState, cs: string)
    requires CleanName(cs)
    ensures forall c :: c in cs ==> Get(Step(st, "-" + cs).args, [c]) == Some(True)
    ensures forall k :: !(|k| == 1 && k[0] in cs) ==> Get(Step(st, "-" + cs).args, k) == Get(st.args, k)
    ensures Step(st, "-" + cs).pending == Some(cs[|cs| - 1])
  {
    var t := "-" + cs;
    assert '=' !in t;
    assert t[1] == cs[0];
    StripDashes(cs, DashWhitespace);
    FirstIndexNone(t, '=');
    ClassifiedOther(t);
  }

  /** A bare token right after `-abc` replaces the value of `c` (only) with
      the trimmed token, and clears the pending flag. */
  lemma ClusterThenValue(st: TokState, cs: string, v: string)
    requires CleanName(cs) && IsBare(v)
    ensures var after := Step(Step(st, "-" + cs), v);
      && Get(after.args, [cs[|cs| - 1]]) == Some(Str(Trim(v, Whitespace)))
      && (forall c :: c in cs && c != cs[|cs| - 1] ==> Get(after.args, [c]) == Some(True))
      && (forall k :: !(|k| == 1 && k[0] in cs) ==> Get(after.args, k) == Get(st.args, k))
      && after.pending == None
  {
    ClusterSetsFlags(st, cs);
    FirstIndexNone(v, '=');
    ClassifiedOther(v);
  }

  /** With no pending flag a bare token is discarded. */
  lemma BareDiscarded(st: TokState, v: string)
    requires st.pending == None && IsBare(v)
    ensures Step(st, v) == st
  {
    FirstIndexNone(v, '=');
    ClassifiedOther(v);
  }

  /** A token of dashes and blanks only, such as "-", starts a cluster with no
      characters: it changes nothing and keeps an earlier pending flag alive,
      because its `continue` skips the `unset`. */
  lemma EmptyClusterKeepsPending(st: TokState, t: string)
    requires t != [] && t[0] == '-' && !StartsWith(t, "--")
    requires forall i :: 0 <= i < |t| ==> t[i] in DashWhitespace
    ensures Step(st, t) == st
  {
    assert '=' !in t by {
      forall i | 0 <= i < |t| ensures t[i] != '=' {
        assert t[i] in DashWhitespace;
      }
    }
    assert Truthy(t);
    TrimEmpty(t, DashWhitespace);
    FirstIndexNone(t, '=');
    ClassifiedOther(t);
  }

  /** Only a cluster leaves a flag pending: after a pair, a long option or
      a bare token the next bare token has nothing to attach to. */
  lemma OnlyClusterLeavesPending(st: TokState, t: string)
    ensures Step(st, t).pending.Some? ==> '=' !in t && !StartsWith(t, "--") && Truthy(t) && t[0] == '-'
  {
    FirstIndexFinds(t, '=');
    match FirstIndex(t, '=')
    case Some(i) => StepPair(st, t, i);
    case None => StepOther(st, t);
  }

  /** A long option whose name trims to a falsy string, such as "--" or
      "--0", stores nothing. */
  lemma FalsyLongIgnored(st: TokState, t: string)
    requires '=' !in t && StartsWith(t, "--") && !Truthy(Trim(t, DashWhitespace))
    ensures Step(st, t) == TokState(st.args, None)
  {
    FirstIndexNone(t, '=');
    StepOther(st, t);
  }

  /** `-name=value` with a single dash keeps the dash in the key: only a
      key beginning with "--" loses its dashes. */
  lemma SingleDashPair(st: TokState, n: string, v: string)
    requires CleanName(n)
    ensures Step(st, "-" + n + "=" + v) == TokState(Put(st.args, "-" + n, Str(Trim(v, Whitespace))), None)
  {
    var t := "-" + n + "=" + v;
    var i := |n| + 1;
    assert t[..i] == "-" + n;
    assert '=' !in t[..i];
    assert t[i + 1..] == v;
    TrimUntouched("-" + n, Whitespace);
    assert !StartsWith("-" + n, "--") by {
      assert ("-" + n)[1] == n[0];
    }
    FirstIndexIs(t, '=', i);
    StepPair(st, t, i);
  }

  /** One and two tokens. */
  lemma RunPair(x: string, y: string)
    ensures Run([x]) == Step(Start, x)
    ensures Run([x, y]) == Step(Step(Start, x), y)
  {
    assert [x][..0] == [];
    assert [x, y][..1] == [x];
  }
}
