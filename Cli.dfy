/** The `cli` class: the parsed arguments, the registered specs with their
    alias index, and the current output style, with the operations that read
    and change them. What the class writes is returned as a string. */
module PhpCli {
  import opened Php
  import opened Args
  import opened Tokenizer
  import opened Registry
  import opened Validation
  import opened Usage
  import opened Export
  import opened Style

  /** What `validate_args` writes for an outcome: nothing when it passes,
      otherwise the white-on-red error line (if any) and then the usage. */
  function ValidationOutput(outcome: Outcome, style: string, stamp: string, program: string, specs: seq<Spec>): string {
    var usage := Wrap(style, UsageText(program, "", specs) + "\n");
    match outcome
    case Pass => ""
    case HelpExit(None) => usage
    case HelpExit(Some(m)) => Wrap(StyleOf(WhiteOnRed), StampedLine(stamp, program, ErrorLabel, m)) + usage
  }

  class Cli {
    var args: ArgList
    var specs: seq<Spec>
    var index: map<string, nat>
    var style: string

    ghost predicate Valid()
      reads this
    {
      WellFormed(args) && IndexValid(Registry(specs, index))
    }

    /** Parses the argument vector after the script path. */
    constructor(argv: seq<string>)
      ensures Valid()
      ensures args == Parse(if argv == [] then [] else argv[1..])
      ensures specs == [] && index == map[] && style == ""
    {
      var operands := if argv == [] then [] else argv[1..];
      RunConsistent(operands, []);
      var parsed := Tokenize(operands);
      args := parsed;
      specs := [];
      index := map[];
      style := "";
    }

    method RegisterArg(short: string, long: string, desc: string, mandatory: bool)
      requires Valid()
      modifies this
      ensures Valid()
      ensures Registry(specs, index) == Register(old(Registry(specs, index)), Spec(short, long, desc, mandatory))
      ensures args == old(args) && style == old(style)
    {
      var i := |specs|;
      specs := specs + [Spec(short, long, desc, mandatory)];
      if Truthy(short) {
        index := index[short := i];
      }
      if Truthy(long) {
        index := index[long := i];
      }
      assert Registry(specs, index) == Register(old(Registry(specs, index)), Spec(short, long, desc, mandatory));
    }

    /** `validate_args`, returning how it ends and what it writes. */
    method ValidateArgs(stamp: string, program: string) returns (outcome: Outcome, written: string)
      requires Valid()
      modifies this`style
      ensures outcome == Validate(args, Registry(specs, index))
      ensures written == ValidationOutput(outcome, style, stamp, program, specs)
      ensures style == old(style)
    {
      var reg := Registry(specs, index);
      if TruthyResult(Lookup(args, reg, "h", Lookup(args, reg, "help", None))) {
        written := ExitHelp(program, "");
        return HelpExit(None), written;
      }
      var missing := FindMissing();
      if missing.Some? {
        var message := RequiredMessage(specs[missing.value]);
        var line := Err(stamp, program, message);
        var usage := ExitHelp(program, "");
        return HelpExit(Some(message)), line + usage;
      }
      var unknown := FindUnknown();
      if unknown.Some? {
        var message := UnexpectedMessage(args.keys[unknown.value]);
        var line := Err(stamp, program, message);
        var usage := ExitHelp(program, "");
        return HelpExit(Some(message)), line + usage;
      }
      return Pass, "";
    }

    /** The loop over the specs in `validate_args`, stopping at the first
        mandatory one that is missing. */
    method FindMissing() returns (missing: Option<nat>)
      requires Valid()
      ensures missing == FirstMissing(args, Registry(specs, index), 0)
    {
      var reg := Registry(specs, index);
      for i := 0 to |specs|
        invariant FirstMissing(args, reg, 0) == FirstMissing(args, reg, i)
      {
        var s := specs[i];
        if !s.mandatory {
          continue;
        }
        if (Truthy(s.short) && Lookup(args, reg, s.short, None).None?) ||
           (Truthy(s.long) && Lookup(args, reg, s.long, None).None?) {
          return Some(i);
        }
      }
      return None;
    }

    /** The loop over the parsed keys in `validate_args`, stopping at the
        first one that no spec registers. */
    method FindUnknown() returns (unknown: Option<nat>)
      ensures unknown == FirstUnknown(args.keys, Registry(specs, index), 0)
    {
      for i := 0 to |args.keys|
        invariant FirstUnknown(args.keys, Registry(specs, index), 0) == FirstUnknown(args.keys, Registry(specs, index), i)
      {
        if args.keys[i] !in index {
          return Some(i);
        }
      }
      return None;
    }

    /** `exit_help`: the usage text with a final newline, as the private
        `fwrite` writes it. */
    method ExitHelp(program: string, extra: string) returns (written: string)
      ensures written == Wrap(style, UsageText(program, extra, specs) + "\n")
    {
      var usage := "Usage: php -f " + program + " --";
      if Truthy(extra) {
        usage := usage + " " + extra;
      }
      assert usage == Header(program, extra);
      if |specs| > 0 {
        usage := usage + " <arguments> ";
        var table, widths := MeasureCells();
        usage := AppendRows(usage, table, widths);
        UsageWithRows(program, extra, specs);
      } else {
        UsageNoRows(program, extra, specs);
      }
      written := Fwrite(usage + "\n");
    }

    /** The first loop of `exit_help`: the cells of every spec and the
        widest cell of each column. */
    method MeasureCells() returns (table: seq<Cells>, widths: Widths)
      ensures table == CellTable(specs) && widths == ColumnWidths(table)
    {
      table := [];
      widths := Widths(0, 0, 0);
      for r := 0 to |specs|
        invariant table == CellTable(specs[..r])
        invariant widths == ColumnWidths(table)
      {
        var row := specs[r];
        var short := (if row.mandatory then "* " else "  ") + (if Truthy(row.short) then " -" + row.short else "");
        var long := if Truthy(row.long) then "  --" + row.long else "";
        var desc := if Truthy(row.desc) then "   " + row.desc else "";
        widths := Widths(Max(widths.short, |short|), Max(widths.long, |long|), Max(widths.desc, |desc|));
        assert Cells(short, long, desc) == CellsOf(row);
        CellTableSnoc(specs, r);
        ColumnWidthsSnoc(table, Cells(short, long, desc));
        table := table + [Cells(short, long, desc)];
      }
      assert specs[..|specs|] == specs;
    }

    /** The second loop of `exit_help`: a newline and the padded cells of
        each row. */
    static method AppendRows(usage0: string, table: seq<Cells>, widths: Widths) returns (usage: string)
      ensures usage == usage0 + Joined(Rows(table, widths))
    {
      usage := usage0;
      for r := 0 to |table|
        invariant usage == usage0 + Joined(Rows(table[..r], widths))
      {
        AppendRowStep(usage0, table, widths, r);
        usage := usage + "\n";
        usage := usage + PadRight(table[r].short, widths.short);
        usage := usage + PadRight(table[r].long, widths.long);
        usage := usage + PadRight(table[r].desc, widths.desc);
      }
      assert table[..|table|] == table;
    }

    /** `export_args`. */
    method ExportArgs() returns (exported: ArgList)
      requires Valid()
      ensures exported == Exported(args)
    {
      exported := Empty;
      for i := 0 to |args.keys|
        invariant exported == ExportPrefix(args, i)
      {
        var key := args.keys[i];
        var value := args.values[key];
        if Truthy(key) && TruthyValue(value) {
          exported := Put(exported, key, value);
        }
      }
    }

    /** `style(codes...)`. */
    method SetStyle(codes: seq<string>)
      modifies this`style
      ensures style == StyleOf(codes)
    {
      style := "";
      for i := 0 to |codes|
        invariant style == StyleOf(codes[..i])
      {
        assert codes[..i + 1][..i] == codes[..i];
        if Truthy(codes[i]) {
          style := style + Sgr(codes[i]);
        }
      }
      assert codes[..|codes|] == codes;
    }

    /** The private `fwrite`; standard output and standard error are the
        same sink here. */
    method Fwrite(data: string) returns (written: string)
      ensures written == Wrap(style, data)
    {
      written := data;
      if Truthy(style) {
        written := style + data + Reset;
      }
    }

    /** `log`. */
    method Log(stamp: string, program: string, message: string) returns (written: string)
      ensures written == Wrap(style, StampedLine(stamp, program, "", message))
    {
      written := Fwrite(StampedLine(stamp, program, "", message));
    }

    /** `err`: the error line in white on red, then the style as it was. */
    method Err(stamp: string, program: string, message: string) returns (written: string)
      modifies this`style
      ensures written == Wrap(StyleOf(WhiteOnRed), StampedLine(stamp, program, ErrorLabel, message))
      ensures style == old(style)
    {
      var line := StampedLine(stamp, program, ErrorLabel, message);
      var saved := style;
      SetStyle(WhiteOnRed);
      written := Fwrite(line);
      style := saved;
    }

    /** `death`: the fatal line in white on red when there is a message,
        then exit status 1; the style is not restored. */
    method Death(stamp: string, program: string, message: string) returns (written: string, status: int)
      modifies this`style
      ensures status == 1
      ensures Truthy(message) ==> style == StyleOf(WhiteOnRed) && written == Wrap(style, StampedLine(stamp, program, FatalLabel, message))
      ensures !Truthy(message) ==> written == "" && style == old(style)
    {
      written := "";
      if Truthy(message) {
        SetStyle(WhiteOnRed);
        written := Fwrite(StampedLine(stamp, program, FatalLabel, message));
      }
      status := 1;
    }
  }
}
