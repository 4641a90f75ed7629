/** Terminal colouring and the single output function: `style` turns codes
    into escape sequences, `fwrite` wraps output in the current style, and
    the line formatters of `log`, `err` and `death` stamp a message. */
module Style {
  import opened Php

  const FgBlack := "0;30"
  const FgDarkGrey := "1;30"
  const FgBlue := "0;34"
  const FgLightBlue := "1;34"
  const FgGreen := "0;32"
  const FgLightGreen := "1;32"
  const FgCyan := "0;36"
  const FgLightCyan := "1;36"
  const FgRed := "0;31"
  const FgLightRed := "1;31"
  const FgPurple := "0;35"
  const FgLightPurple := "1;35"
  const FgBrown := "0;33"
  const FgYellow := "1;33"
  const FgLightGrey := "0;37"
  const FgWhite := "1;37"

  const BgBlack := "40"
  const BgRed := "41"
  const BgGreen := "42"
  const BgYellow := "43"
  const BgBlue := "44"
  const BgMagenta := "45"
  const BgCyan := "46"
  const BgGrey := "47"

  const TextBold := "1"
  const TextUnderline := "4"

  const Esc: char := '\U{1B}'

  /** The sequence that ends a styled write. */
  const Reset := [Esc] + "[0m"

  /** The select-graphic-rendition sequence for one code. */
  function Sgr(code: string): string {
    [Esc] + "[" + code + "m"
  }

  /** `style(codes...)`: one sequence per truthy code, in order and not
      joined; an omitted or null code is the empty string here. */
  function StyleOf(codes: seq<string>): string {
    if codes == [] then ""
    else StyleOf(codes[..|codes| - 1]) + (if Truthy(codes[|codes| - 1]) then Sgr(codes[|codes| - 1]) else "")
  }

  /** Private `fwrite`: a truthy style goes before the data and the reset
      after it; otherwise the data is written as it is. */
  function Wrap(style: string, data: string): (out: string)
    ensures Truthy(style) ==>
      && |out| == |style| + |data| + |Reset|
      && out[..|style|] == style
      && out[|style|..|style| + |data|] == data
      && out[|style| + |data|..] == Reset
    ensures !Truthy(style) ==> out == data
  {
    if Truthy(style) then style + data + Reset else data
  }

  /** The line `log`, `err` and `death` write: a bracketed time stamp, the
      script's base name, a tag, and the message without leading or
      trailing newlines, ended by one newline. */
  function StampedLine(stamp: string, program: string, tag: string, message: string): string {
    "[" + stamp + "] " + program + ": " + tag + Trim(message, Newline) + "\n"
  }

  const ErrorLabel := "Error: "
  const FatalLabel := "Fatal: "

  /** The style `err` and `death` write in. */
  const WhiteOnRed := [FgWhite, BgRed]

  // ---------------------------------------------------------------------
  // Properties of the style

  /** Styling with more codes appends their sequences. */
  lemma {:induction false} StyleOfAppend(xs: seq<string>, ys: seq<string>)
    ensures StyleOf(xs + ys) == StyleOf(xs) + StyleOf(ys)
    decreases |ys|
  {
    if ys == [] {
      assert xs + ys == xs;
    } else {
      var n := |ys| - 1;
      assert (xs + ys)[..|xs + ys| - 1] == xs + ys[..n];
      StyleOfAppend(xs, ys[..n]);
    }
  }

  /** A style is empty exactly when no code is truthy, and it is never the
      falsy "0": it begins with an escape whenever it is non-empty. */
  lemma {:induction false} StyleOfEmpty(codes: seq<string>)
    ensures StyleOf(codes) == "" <==> forall i :: 0 <= i < |codes| ==> !Truthy(codes[i])
    ensures StyleOf(codes) != "" ==> StyleOf(codes)[0] == Esc && Truthy(StyleOf(codes))
  {
    if codes != [] {
      var n := |codes| - 1;
      StyleOfEmpty(codes[..n]);
      assert forall i :: 0 <= i < n ==> codes[..n][i] == codes[i];
    }
  }

  lemma StyleOfOne(code: string)
    ensures StyleOf([code]) == if Truthy(code) then Sgr(code) else ""
  {
    assert [code][..0] == [];
  }

  /** The style of `err` and `death`. */
  lemma WhiteOnRedStyle()
    ensures StyleOf(WhiteOnRed) == Sgr(FgWhite) + Sgr(BgRed)
  {
    assert WhiteOnRed == [FgWhite] + [BgRed];
    StyleOfAppend([FgWhite], [BgRed]);
    StyleOfOne(FgWhite);
    StyleOfOne(BgRed);
  }

  /** Output is changed exactly when some code of the style is truthy. */
  lemma WrapChanges(codes: seq<string>, data: string)
    ensures Wrap(StyleOf(codes), data) != data <==> exists i :: 0 <= i < |codes| && Truthy(codes[i])
  {
    StyleOfEmpty(codes);
  }

  /** Trailing newlines of a message do not reach the line. */
  lemma {:induction false} TrimRightNewline(s: string, cs: set<char>, c: char)
    requires c in cs
    ensures TrimRight(s + [c], cs) == TrimRight(s, cs)
  {
    assert (s + [c])[..|s|] == s;
  }

  lemma {:induction false} TrimLeftAppend(s: string, cs: set<char>, c: char)
    ensures TrimLeft(s + [c], cs) == if TrimLeft(s, cs) == [] then TrimLeft([c], cs) else TrimLeft(s, cs) + [c]
  {
    if s != [] {
      assert (s + [c])[1..] == s[1..] + [c];
      TrimLeftAppend(s[1..], cs, c);
    }
  }

  lemma StampedIgnoresTrailingNewline(stamp: string, program: string, tag: string, message: string)
    ensures StampedLine(stamp, program, tag, message + "\n") == StampedLine(stamp, program, tag, message)
  {
    TrimLeftAppend(message, Newline, '\n');
    if TrimLeft(message, Newline) == [] {
      assert TrimLeft("\n", Newline) == TrimLeft("\n"[1..], Newline);
    } else {
      TrimRightNewline(TrimLeft(message, Newline), Newline, '\n');
    }
  }
}
