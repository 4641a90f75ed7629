/** The few PHP runtime primitives the command-line class relies on: truthiness
    of strings, `trim` with a character list, `strpos(..) === 0`, the first
    occurrence used by `explode(.., 2)` and `str_pad` to the right. */
module Php {

  datatype Option<+T> = None | Some(value: T)

  /** PHP's boolean conversion of a string: only "" and "0" are false. */
  predicate Truthy(s: string) {
    s != "" && s != "0"
  }

  /** The default character list of `trim`: " \t\n\r\0\x0B". */
  const Whitespace: set<char> := {' ', '\t', '\n', '\r', '\0', '\U{B}'}

  /** The character list "-\n\r\t " used for option names. */
  const DashWhitespace: set<char> := {'-', '\n', '\r', '\t', ' '}

  const Dash: set<char> := {'-'}

  const Newline: set<char> := {'\n'}

  /** `strpos(s, p) === 0` */
  predicate StartsWith(s: string, p: string) {
    |p| <= |s| && s[..|p|] == p
  }

  /** Drops the leading characters that belong to `cs`. */
  function TrimLeft(s: string, cs: set<char>): string {
    if |s| > 0 && s[0] in cs then TrimLeft(s[1..], cs) else s
  }

  /** Drops the trailing characters that belong to `cs`. */
  function TrimRight(s: string, cs: set<char>): string {
    if |s| > 0 && s[|s| - 1] in cs then TrimRight(s[..|s| - 1], cs) else s
  }

  /** PHP `trim(s, cs)`: strips characters of `cs` from both ends. */
  function Trim(s: string, cs: set<char>): string {
    TrimRight(TrimLeft(s, cs), cs)
  }

  lemma {:induction false} TrimLeftCut(s: string, cs: set<char>)
    ensures var r := TrimLeft(s, cs);
      && |r| <= |s| && r == s[|s| - |r|..]
      && (r != [] ==> r[0] !in cs)
      && (forall i :: 0 <= i < |s| - |r| ==> s[i] in cs)
  {
    if |s| > 0 && s[0] in cs {
      TrimLeftCut(s[1..], cs);
      assert forall i :: 1 <= i < |s| ==> s[i] == s[1..][i - 1];
    }
  }

  lemma {:induction false} TrimRightCut(s: string, cs: set<char>)
    ensures var r := TrimRight(s, cs);
      && |r| <= |s| && r == s[..|r|]
      && (r != [] ==> r[|r| - 1] !in cs)
      && (forall i :: |r| <= i < |s| ==> s[i] in cs)
  {
    if |s| > 0 && s[|s| - 1] in cs {
      TrimRightCut(s[..|s| - 1], cs);
    }
  }

  /** What `trim` leaves is one slice `s[k..k + |Trim(s, cs)|]` of `s` whose
      two ends are outside `cs`, and everything cut away on either side
      belongs to `cs`. */
  lemma TrimSlice(s: string, cs: set<char>) returns (k: nat)
    ensures var r := Trim(s, cs);
      && k + |r| <= |s| && r == s[k..k + |r|]
      && (r != [] ==> r[0] !in cs && r[|r| - 1] !in cs)
      && (forall i :: 0 <= i < k ==> s[i] in cs)
      && (forall i :: k + |r| <= i < |s| ==> s[i] in cs)
  {
    var l := TrimLeft(s, cs);
    TrimLeftCut(s, cs);
    TrimRightCut(l, cs);
    k := |s| - |l|;
    var r := TrimRight(l, cs);
    assert r == s[k..k + |r|] by {
      assert l == s[k..];
      assert r == l[..|r|];
    }
    assert r != [] ==> r[0] == l[0];
    forall i | k + |r| <= i < |s| ensures s[i] in cs {
      assert s[i] == l[i - k];
    }
  }

  /** `trim` leaves nothing exactly when every character belongs to `cs`. */
  lemma TrimEmpty(s: string, cs: set<char>)
    ensures Trim(s, cs) == [] <==> forall i :: 0 <= i < |s| ==> s[i] in cs
  {
    var k := TrimSlice(s, cs);
    var r := Trim(s, cs);
    if r != [] {
      assert s[k] == r[0];
    }
  }

  /** A string whose two ends are outside `cs` is left alone by `trim`. */
  lemma TrimUntouched(s: string, cs: set<char>)
    requires s == [] || (s[0] !in cs && s[|s| - 1] !in cs)
    ensures Trim(s, cs) == s
  {
  }

  /** The position of the first `c` in `s`, as `explode(c, s, 2)` splits it. */
  function FirstIndex(s: string, c: char): (r: Option<nat>)
    ensures r.Some? ==> r.value < |s|
  {
    if |s| == 0 then None
    else if s[0] == c then Some(0)
    else match FirstIndex(s[1..], c)
      case None => None
      case Some(i) => Some(i + 1)
  }

  /** `FirstIndex` finds the first occurrence, and finds none only when there
      is none. */
  lemma {:induction false} FirstIndexFinds(s: string, c: char)
    ensures FirstIndex(s, c).None? <==> c !in s
    ensures FirstIndex(s, c).Some? ==> s[FirstIndex(s, c).value] == c && c !in s[..FirstIndex(s, c).value]
  {
    if |s| > 0 && s[0] != c {
      FirstIndexFinds(s[1..], c);
      assert s == [s[0]] + s[1..];
      if FirstIndex(s[1..], c).Some? {
        var i := FirstIndex(s[1..], c).value;
        assert s[..i + 1] == [s[0]] + s[1..][..i];
      }
    }
  }

  lemma FirstIndexIs(s: string, c: char, i: nat)
    requires i < |s| && s[i] == c && c !in s[..i]
    ensures FirstIndex(s, c) == Some(i)
  {
    FirstIndexFinds(s, c);
  }

  lemma FirstIndexNone(s: string, c: char)
    requires c !in s
    ensures FirstIndex(s, c) == None
  {
    FirstIndexFinds(s, c);
  }

  function Spaces(n: nat): (r: string)
    ensures |r| == n && forall i :: 0 <= i < n ==> r[i] == ' '
  {
    if n == 0 then "" else Spaces(n - 1) + " "
  }

  /** PHP `str_pad(s, w)`: right-pads with spaces up to width `w`; a longer
      string is returned unchanged. */
  function PadRight(s: string, w: nat): (r: string)
    ensures |r| == if |s| < w then w else |s|
    ensures r[..|s|] == s
    ensures forall i :: |s| <= i < |r| ==> r[i] == ' '
  {
    if |s| < w then s + Spaces(w - |s|) else s
  }
}
