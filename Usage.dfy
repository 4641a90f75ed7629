/** The usage text of `exit_help`: a header line, then, when any argument is
    registered, one row per spec whose three cells are each right-padded to
    the widest cell of their column. */
module Usage {
  import opened Php
  import opened Registry

  /** The three cells of a row: the mandatory marker with the short name,
      the long name, and the description. */
  datatype Cells = Cells(short: string, long: string, desc: string)

  datatype Widths = Widths(short: nat, long: nat, desc: nat)

  function CellsOf(s: Spec): Cells {
    Cells((if s.mandatory then "* " else "  ") + (if Truthy(s.short) then " -" + s.short else ""),
          if Truthy(s.long) then "  --" + s.long else "",
          if Truthy(s.desc) then "   " + s.desc else "")
  }

  /** The cells of every spec, in registration order. */
  function CellTable(specs: seq<Spec>): (t: seq<Cells>)
    ensures |t| == |specs| && forall i :: 0 <= i < |specs| ==> t[i] == CellsOf(specs[i])
  {
    seq(|specs|, i requires 0 <= i < |specs| => CellsOf(specs[i]))
  }

  function Max(a: nat, b: nat): nat {
    if a < b then b else a
  }

  function Widen(w: Widths, c: Cells): Widths {
    Widths(Max(w.short, |c.short|), Max(w.long, |c.long|), Max(w.desc, |c.desc|))
  }

  /** The `$widths` the first loop ends with. */
  function ColumnWidths(t: seq<Cells>): Widths {
    if t == [] then Widths(0, 0, 0) else Widen(ColumnWidths(t[..|t| - 1]), t[|t| - 1])
  }

  /** One row: the three cells, each padded to its column's width. */
  function Row(c: Cells, w: Widths): string {
    PadRight(c.short, w.short) + PadRight(c.long, w.long) + PadRight(c.desc, w.desc)
  }

  function Rows(t: seq<Cells>, w: Widths): (rows: seq<string>)
    ensures |rows| == |t| && forall i :: 0 <= i < |t| ==> rows[i] == Row(t[i], w)
  {
    seq(|t|, i requires 0 <= i < |t| => Row(t[i], w))
  }

  /** Each line preceded by a newline. */
  function Joined(lines: seq<string>): string {
    if lines == [] then "" else "\n" + lines[0] + Joined(lines[1..])
  }

  function Header(program: string, extra: string): string {
    "Usage: php -f " + program + " --" + (if Truthy(extra) then " " + extra else "")
  }

  /** The text `exit_help` writes, before its final newline. */
  function UsageText(program: string, extra: string, specs: seq<Spec>): string {
    var t := CellTable(specs);
    Header(program, extra) + if specs == [] then "" else " <arguments> " + Joined(Rows(t, ColumnWidths(t)))
  }

  // ---------------------------------------------------------------------
  // Properties of the table

  /** Every column is as wide as its widest cell: no cell is wider, and a
      non-empty table has a cell that is exactly as wide. */
  lemma {:induction false} WidthsBound(t: seq<Cells>)
    ensures var w := ColumnWidths(t);
      && (forall i :: 0 <= i < |t| ==> |t[i].short| <= w.short && |t[i].long| <= w.long && |t[i].desc| <= w.desc)
      && (t == [] ==> w == Widths(0, 0, 0))
      && (t != [] ==> exists i :: 0 <= i < |t| && |t[i].short| == w.short)
      && (t != [] ==> w.long == 0 || exists i :: 0 <= i < |t| && |t[i].long| == w.long)
      && (t != [] ==> w.desc == 0 || exists i :: 0 <= i < |t| && |t[i].desc| == w.desc)
  {
    if t != [] {
      var n := |t| - 1;
      WidthsBound(t[..n]);
      assert forall i :: 0 <= i < n ==> t[..n][i] == t[i];
      if n > 0 {
        var w := ColumnWidths(t[..n]);
        var i :| 0 <= i < n && |t[..n][i].short| == w.short;
        assert t[i] == t[..n][i];
        if w.long != 0 {
          var j :| 0 <= j < n && |t[..n][j].long| == w.long;
          assert t[j] == t[..n][j];
        }
        if w.desc != 0 {
          var j :| 0 <= j < n && |t[..n][j].desc| == w.desc;
          assert t[j] == t[..n][j];
        }
      }
    }
  }

  /** Every row has the same length, each cell padded to exactly its
      column's width, and a row starts with "* " exactly when its spec is
      mandatory. */
  lemma RowLayout(specs: seq<Spec>, i: nat)
    requires i < |specs|
    ensures var t := CellTable(specs);
      var w := ColumnWidths(t);
      var c := t[i];
      var row := Rows(t, w)[i];
      && row == PadRight(c.short, w.short) + PadRight(c.long, w.long) + PadRight(c.desc, w.desc)
      && |PadRight(c.short, w.short)| == w.short
      && |PadRight(c.long, w.long)| == w.long
      && |PadRight(c.desc, w.desc)| == w.desc
      && |row| == w.short + w.long + w.desc
      && (StartsWith(row, "* ") <==> specs[i].mandatory)
  {
    var t := CellTable(specs);
    var w := ColumnWidths(t);
    WidthsBound(t);
    var c := t[i];
    var a := PadRight(c.short, w.short);
    var row := Rows(t, w)[i];
    assert row[..2] == a[..2];
    assert a[..2] == c.short[..2];
  }

  /** `explode("\n", s)`: the pieces of `s` between newlines. */
  function SplitLines(s: string): seq<string>
    decreases |s|
  {
    match FirstIndex(s, '\n')
    case None => [s]
    case Some(i) => [s[..i]] + SplitLines(s[i + 1..])
  }

  /** Appending one line at the end, as the second loop does. */
  lemma {:induction false} JoinedSnoc(lines: seq<string>, line: string)
    ensures Joined(lines + [line]) == Joined(lines) + "\n" + line
  {
    if lines != [] {
      assert (lines + [line])[1..] == lines[1..] + [line];
      JoinedSnoc(lines[1..], line);
    }
  }

  predicate NoNewlines(lines: seq<string>) {
    forall i :: 0 <= i < |lines| ==> '\n' !in lines[i]
  }

  /** Splitting a first line followed by joined lines at the newlines gives
      the lines back, when none of them holds a newline. */
  lemma {:induction false} SplitJoined(first: string, lines: seq<string>)
    requires '\n' !in first && NoNewlines(lines)
    ensures SplitLines(first + Joined(lines)) == [first] + lines
    decreases |lines|
  {
    if lines == [] {
      assert first + Joined(lines) == first;
      FirstIndexNone(first, '\n');
    } else {
      var s := first + Joined(lines);
      var rest := lines[0] + Joined(lines[1..]);
      assert s == first + "\n" + rest;
      assert s[..|first|] == first;
      FirstIndexIs(s, '\n', |first|);
      assert s[|first| + 1..] == rest;
      SplitJoined(lines[0], lines[1..]);
      assert [lines[0]] + lines[1..] == lines;
    }
  }

  /** No name, description, program name or extra text holds a newline. */
  predicate SingleLine(program: string, extra: string, specs: seq<Spec>) {
    && '\n' !in program && '\n' !in extra
    && forall i :: 0 <= i < |specs| ==>
         '\n' !in specs[i].short && '\n' !in specs[i].long && '\n' !in specs[i].desc
  }

  lemma PadSingleLine(s: string, w: nat)
    requires '\n' !in s
    ensures '\n' !in PadRight(s, w)
  {
    var p := PadRight(s, w);
    forall j | 0 <= j < |p| ensures p[j] != '\n' {
      if j < |s| {
        assert p[j] == p[..|s|][j];
      }
    }
  }

  lemma CellsSingleLine(s: Spec)
    requires '\n' !in s.short && '\n' !in s.long && '\n' !in s.desc
    ensures var c := CellsOf(s); '\n' !in c.short && '\n' !in c.long && '\n' !in c.desc
  {
  }

  lemma RowSingleLine(specs: seq<Spec>, i: nat)
    requires i < |specs| && forall i :: 0 <= i < |specs| ==>
      '\n' !in specs[i].short && '\n' !in specs[i].long && '\n' !in specs[i].desc
    ensures var t := CellTable(specs); '\n' !in Rows(t, ColumnWidths(t))[i]
  {
    var t := CellTable(specs);
    var w := ColumnWidths(t);
    var c := t[i];
    CellsSingleLine(specs[i]);
    PadSingleLine(c.short, w.short);
    PadSingleLine(c.long, w.long);
    PadSingleLine(c.desc, w.desc);
  }

  lemma RowsSingleLine(specs: seq<Spec>)
    requires forall i :: 0 <= i < |specs| ==>
      '\n' !in specs[i].short && '\n' !in specs[i].long && '\n' !in specs[i].desc
    ensures var t := CellTable(specs); NoNewlines(Rows(t, ColumnWidths(t)))
  {
    var t := CellTable(specs);
    var rows := Rows(t, ColumnWidths(t));
    forall i | 0 <= i < |rows| ensures '\n' !in rows[i] {
      RowSingleLine(specs, i);
    }
  }

  lemma UsageWithRows(program: string, extra: string, specs: seq<Spec>)
    requires specs != []
    ensures var t := CellTable(specs);
      UsageText(program, extra, specs) == (Header(program, extra) + " <arguments> ") + Joined(Rows(t, ColumnWidths(t)))
  {
  }

  lemma UsageNoRows(program: string, extra: string, specs: seq<Spec>)
    requires specs == []
    ensures UsageText(program, extra, specs) == Header(program, extra)
  {
  }

  /** Adding one spec's cells to the table being built. */
  lemma CellTableSnoc(specs: seq<Spec>, r: nat)
    requires r < |specs|
    ensures CellTable(specs[..r + 1]) == CellTable(specs[..r]) + [CellsOf(specs[r])]
  {
    assert specs[..r + 1][..r] == specs[..r];
  }

  lemma ColumnWidthsSnoc(t: seq<Cells>, c: Cells)
    ensures ColumnWidths(t + [c]) == Widen(ColumnWidths(t), c)
  {
    assert (t + [c])[..|t|] == t;
  }

  /** Appending a newline and the three padded cells of one more row. */
  lemma AppendRowStep(u0: string, t: seq<Cells>, w: Widths, r: nat)
    requires r < |t|
    ensures var a, b, d := PadRight(t[r].short, w.short), PadRight(t[r].long, w.long), PadRight(t[r].desc, w.desc);
      u0 + Joined(Rows(t[..r + 1], w)) == u0 + Joined(Rows(t[..r], w)) + "\n" + a + b + d
  {
    var rows := Rows(t[..r], w);
    var a, b, d := PadRight(t[r].short, w.short), PadRight(t[r].long, w.long), PadRight(t[r].desc, w.desc);
    var row := Row(t[r], w);
    assert Rows(t[..r + 1], w) == rows + [row];
    JoinedSnoc(rows, row);
    Regroup(u0, Joined(rows), a, b, d);
  }

  lemma Regroup(u: string, j: string, a: string, b: string, d: string)
    ensures u + (j + "\n" + (a + b + d)) == u + j + "\n" + a + b + d
  {
  }

  lemma HeaderSingleLine(program: string, extra: string)
    requires '\n' !in program && '\n' !in extra
    ensures '\n' !in Header(program, extra) + " <arguments> "
  {
    var lead, mid, args := "Usage: php -f ", " --", " <arguments> ";
    assert '\n' !in lead && '\n' !in mid && '\n' !in args;
    var opt := if Truthy(extra) then " " + extra else "";
    assert '\n' !in opt;
    assert Header(program, extra) + args == lead + program + mid + opt + args;
  }

  /** With nothing registered the usage is the header alone; otherwise its
      lines are the header followed by " <arguments> " and then exactly one
      row per spec, in registration order. */
  lemma UsageLines(program: string, extra: string, specs: seq<Spec>)
    requires SingleLine(program, extra, specs)
    ensures specs == [] ==> UsageText(program, extra, specs) == Header(program, extra)
    ensures specs != [] ==>
      var t := CellTable(specs);
      SplitLines(UsageText(program, extra, specs)) ==
        [Header(program, extra) + " <arguments> "] + Rows(t, ColumnWidths(t))
  {
    if specs != [] {
      var t := CellTable(specs);
      RowsSingleLine(specs);
      HeaderSingleLine(program, extra);
      var first, rows := Header(program, extra) + " <arguments> ", Rows(t, ColumnWidths(t));
      SplitJoined(first, rows);
      UsageWithRows(program, extra, specs);
    }
  }
}
