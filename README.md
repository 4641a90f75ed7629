# php-cli argument handling and console output, in Dafny

This project models the core of the `cli` class of php-cli. The class is a
small command-line helper for PHP scripts:

- Its constructor tokenizes the argument vector into an ordered map from name
  to value. Supported forms are `name=value`, `--long=value`, `--long`,
  `-abc` clusters, and `-a value`, where a bare token after a cluster becomes
  the value of the cluster's last flag.
- `register_arg` declares the expected arguments. Each spec has a short name,
  a long name, a description and a mandatory bit. A spec goes into a list,
  and both of its names go into an alias index.
- `arg` looks a name up, falling back to the spec's other name.
- `validate_args` exits with help on `-h`/`--help`, on a missing mandatory
  argument, or on an unregistered one.
- `exit_help` prints a padded usage table.
- `export_args` copies the truthy entries.
- `style` sets ANSI colour codes, and the private `fwrite` wraps every write
  in the current style.
- `err`, `log` and `death` write time-stamped lines. `err` restores the style
  it overrides.

Layout, one module per file:

- `Php`: the PHP primitives involved. These are truthiness of strings, `trim`
  with a character list, the first `=` as `explode(.., 2)` finds it, and
  `str_pad`.
- `Args`: the parsed arguments as a PHP ordered array. It is held as the key
  order beside a map. Assignment keeps the position of an existing key and
  appends a new one.
- `Tokenizer`: the constructor's loop. `Step` is the specification of one
  iteration, `Run`/`Parse` is its left fold, and `Tokenize`/`Consume`/`SetEach`
  are the loop itself, proved equal to the fold.
- `Registry`: specs, the alias index, `Register` and `Lookup` (`arg`).
- `Validation`: the decision `validate_args` reaches, as `Pass` or
  `HelpExit(error?)`.
- `Usage`: the text `exit_help` prints.
- `Export`: what `export_args` returns.
- `Style`: the colour constants, `style`, the `fwrite` wrapping, and the
  stamped line of `log`/`err`/`death`.
- `PhpCli`: `class Cli`. It holds the four static fields as instance fields
  (`args`, `specs`, `index`, `style`), with the operations as methods, each
  proved against the functions above.

Three behaviours of the code that are easy to misread:

- `style` concatenates one `ESC[<code>m` sequence per truthy code. It does
  not join the codes with `;`. `err` therefore writes in
  `ESC[1;37mESC[41m`, not `ESC[1;37;41m` (`Style.WhiteOnRedStyle`).
- A mandatory spec counts as missing as soon as the lookup of either truthy
  name finds nothing, not only when both do. `Validation.MissingWhenAliased`
  shows that the two readings agree while both names still point at the
  spec. They differ once a later registration takes one of the names over.
- Help is triggered by a *truthy* `arg('h', arg('help'))`, not by the mere
  presence of `-h`/`--help`. In particular, `-h` parsed as "0" hides a
  truthy `--help` (`Validation.FalsyShortHelpHidesLong`).

## Model

| member | source | states |
|---|---|---|
| Php.TrimSlice | cli.php:128-131 | `trim` keeps one contiguous slice of its input; both ends of the slice are outside the character list, and everything cut away on either side is inside it |
| Php.TrimEmpty | cli.php:144 | `trim` leaves nothing exactly when every character is in the list |
| Php.TrimUntouched | cli.php:128 | a string whose two ends are outside the list is returned unchanged |
| Php.FirstIndexFinds | cli.php:126-127 | the split point of `explode('=', s, 2)` is the first `=`, and there is none exactly when `s` has no `=` |
| Php.PadRight | cli.php:239 | `str_pad` gives length `max(|s|, w)`, keeps `s` as prefix and fills with spaces |
| Args.Put | cli.php:134 | an array assignment sets the key, leaves every other key's value alone, keeps keys unique, and keeps an existing key in place or appends a new one |
| Tokenizer.SetFlags | cli.php:145-147 | a cluster sets each of its characters to `true` and touches no other key |
| Tokenizer.Tokenize | cli.php:124-160 | the loop over the argument vector returns the left fold `Parse` of the per-token step |
| Tokenizer.Consume | cli.php:125-158 | one loop pass, including the cluster branch's `continue` that skips `unset($flag)`, is exactly `Step` |
| Tokenizer.SetEach | cli.php:144-147 | the inner `foreach` gives `SetFlags` and leaves the last character as the pending flag, or the old pending flag if the cluster is empty |
| Tokenizer.StepConsistent | cli.php:124-160 | each step keeps keys unique, keeps a pending flag a stored key, and never moves or drops an existing key |
| Tokenizer.RunConsistent | cli.php:124-160 | for any vector the parsed keys are unique, and later tokens only append keys |
| Tokenizer.PairToken | cli.php:126-134 | a token with `=` stores the trimmed text after the first `=` under its name, changes no other key and clears the pending flag |
| Tokenizer.FalsyPairNameIgnored | cli.php:134 | a pair whose name is falsy stores nothing and clears the pending flag |
| Tokenizer.LongPair | cli.php:128-134 | `--name=value` stores the trimmed value under `name`, with the dashes stripped |
| Tokenizer.SingleDashPair | cli.php:128-134 | `-name=value` keeps the dash in its key, because only keys beginning with `--` lose their dashes |
| Tokenizer.LongFlag | cli.php:137-141 | `--name` stores `true` under `name` |
| Tokenizer.FalsyLongIgnored | cli.php:137-141 | `--` or a long option that trims to "0" stores nothing |
| Tokenizer.ClusterSetsFlags | cli.php:143-150 | `-abc` sets `a`, `b`, `c` to `true`, touches nothing else, and leaves `c` pending |
| Tokenizer.ClusterThenValue | cli.php:143-158 | a bare token after `-abc` overwrites only `c`, with the trimmed token, and clears the pending flag |
| Tokenizer.BareDiscarded | cli.php:152-158 | with no pending flag a bare token changes nothing |
| Tokenizer.OnlyClusterLeavesPending | cli.php:148-158 | after any token other than a cluster no flag is pending |
| Tokenizer.EmptyClusterKeepsPending | cli.php:143-149 | a token of dashes and blanks only, such as `-`, changes nothing and keeps an earlier pending flag |
| Registry.Register | cli.php:177-182 | registration appends exactly one spec at the old length, points the spec's truthy names at it, overrides earlier entries for those names, and leaves every other index entry alone; the index invariant is preserved |
| Registry.RegisterPointsAtNewSpec | cli.php:178-181 | after registration both truthy names of the spec resolve to the new slot |
| Registry.Lookup | cli.php:255-278 | `arg` returns a literal parsed value if there is one, and the default for an unregistered name; for a registered name that was not parsed, it returns the value parsed under the other truthy name of the spec the index points at now (also after a later registration re-pointed a name), and the default when that other name was not parsed either |
| Registry.LookupAlias | cli.php:265-277 | for a spec under two names, either name finds the value parsed under the other, and both give the default when neither was parsed |
| Validation.FirstMissing | cli.php:194-204 | gives the first mandatory spec in registration order whose short or long lookup is null, or none if there is none |
| Validation.FirstUnknown | cli.php:206-211 | gives the first parsed key, in parse order, that is absent from the alias index, or none if there is none |
| Validation.PassIff | cli.php:188-212 | validation passes exactly when help is not requested, no mandatory spec is missing, and every parsed key is registered |
| Validation.SilentHelpIff | cli.php:190-192 | help is printed without an error line exactly when `arg('h', arg('help'))` is truthy; every other exit reports an error |
| Validation.MissingReportedFirst | cli.php:194-204 | when help is not requested, the first missing mandatory spec is reported, under its long name or else its short name, before any unknown key |
| Validation.UnknownReported | cli.php:206-211 | when nothing is missing, the first unregistered key is reported |
| Validation.MissingWhenAliased | cli.php:199 | while both names point at their spec, missing means that neither name was parsed |
| Validation.FalsyShortHelpHidesLong | cli.php:190 | `-h` parsed as "0" suppresses help whatever `--help` holds |
| Validation.ParseOnePair | cli.php:126-134 | a single `--long=value` token parses to exactly that one entry |
| Validation.OneMandatoryPair | examples/arguments.php:4-12 | after registering a mandatory `n`/`name` and parsing `--name=Tim`, `arg('n')` finds the value through the alias and validation passes |
| Usage.WidthsBound | cli.php:231-233 | each column width is the widest cell of its column: no cell is wider and, when there is a row, some cell is as wide |
| Usage.RowLayout | cli.php:228-239 | every row has the same length, each cell padded to exactly its column width, and a row starts with `* ` exactly when its spec is mandatory |
| Usage.JoinedSnoc | cli.php:236-237 | appending a row adds a newline and the row at the end |
| Usage.SplitJoined | cli.php:236-241 | splitting newline-joined lines at the newlines gives the lines back |
| Usage.UsageLines | cli.php:218-243 | with no specs the usage is the header alone; otherwise it splits into the header with ` <arguments> ` and then exactly one row per spec, in registration order, each row being that spec's cells padded to the column widths |
| Usage.UsageNoRows | cli.php:223 | an empty registry gives the header alone |
| Export.ExportPrefixEntries | cli.php:287-289 | after the first `n` keys, the copy holds exactly their truthy-key, truthy-value entries with unchanged values |
| Export.ExportPrefixOrder | cli.php:287-289 | after the first `n` keys, the copied keys are a subsequence of those keys |
| Export.ExportedShape | cli.php:285-291 | the export holds exactly the entries whose key and value are truthy, with their values, and keeps the parsed order as a subsequence |
| Style.StyleOfAppend | cli.php:384-388 | the style of a longer code list is the style of its prefix followed by the rest |
| Style.StyleOfOne | cli.php:385-386 | one code gives `ESC[<code>m` if truthy and nothing otherwise |
| Style.StyleOfEmpty | cli.php:383-388 | the style is empty exactly when no code is truthy, and a non-empty style starts with ESC and is truthy |
| Style.WhiteOnRedStyle | cli.php:372 | the error style is `ESC[1;37m` followed by `ESC[41m` |
| Style.WrapChanges | cli.php:299-301 | a write is altered exactly when some code of the style is truthy |
| Style.StampedIgnoresTrailingNewline | cli.php:369 | a trailing newline on a message does not reach the written line |
| PhpCli.Cli.constructor | cli.php:124-160 | the parsed arguments are `Parse` of the vector after the script path, with keys unique; the registry and the style start empty |
| PhpCli.Cli.RegisterArg | cli.php:177-182 | the registry becomes `Register` of the old one; the arguments and the style are unchanged, and the invariant is kept |
| PhpCli.Cli.ValidateArgs | cli.php:188-212 | returns `Validate` of the state, writes exactly the error line (if any) followed by the usage, and leaves the style as it was |
| PhpCli.Cli.FindMissing | cli.php:194-204 | the loop over the specs stops at `FirstMissing` |
| PhpCli.Cli.FindUnknown | cli.php:206-211 | the loop over the parsed keys stops at `FirstUnknown` |
| PhpCli.Cli.ExitHelp | cli.php:218-243 | writes the usage text and a newline, in the current style |
| PhpCli.Cli.MeasureCells | cli.php:225-235 | the first loop ends with the cell table and the column widths |
| PhpCli.Cli.AppendRows | cli.php:236-241 | the second loop appends the newline-joined rows |
| PhpCli.Cli.ExportArgs | cli.php:285-291 | the loop returns `Exported` of the parsed arguments |
| PhpCli.Cli.SetStyle | cli.php:382-389 | the style becomes `StyleOf` of the codes |
| PhpCli.Cli.Fwrite | cli.php:298-303 | the write is `Wrap` of the current style and the data: with a truthy style, the style, then the data, then `ESC[0m`; otherwise the data unchanged |
| PhpCli.Cli.Err | cli.php:367-375 | writes the stamped "Error: " line in white on red and leaves the style exactly as it was |
| PhpCli.Cli.Log | cli.php:356-361 | writes the stamped line in the current style |
| PhpCli.Cli.Death | cli.php:341-349 | with a truthy message, sets white on red and writes the stamped "Fatal: " line; without one, writes nothing; exits with status 1 either way |

## Left out

- SAPI detection, the `STDOUT`/`STDERR` definitions and the singleton `init`: environment set-up with no logic to verify.
- Real output and `exit`: each write is returned as a string, and every exit of `validate_args` is the `HelpExit` outcome. Standard output and standard error are one sink here.
- `date(...)` and `basename(arg(0))`: the time stamp and the program's base name are parameters.
- `sprintf` and the variadic arguments of `log`, `err`, `death`, `stdout` and `stderr`: the model takes the message already formatted. For the two messages `validate_args` produces, formatting before or after trimming gives the same line, because both templates begin and end with literal text. The model does not capture a `%` inside the stamp or the program name, which `sprintf` would interpret.
- The error and exception handlers `on_trigger_error` and `on_uncaught_exception`: they are engine glue.
- The `is_int` branch of `arg`, which reads the raw `$argv`: only string names are looked up.
- Numeric-string keys: PHP turns an array key such as "5" into the integer 5. The model keeps every key a string.
- `func_get_args` tuples shorter than four entries: every spec is a full four-tuple with the defaults `''`, `''`, `false`.
- Characters against bytes: `strlen`, `$arg{0}` and `preg_split('//', ..)` work on bytes. The model works on characters, which agrees for single-byte text.
- `null` style codes: an omitted or `null` code passed to `style` is the empty string here, which is equally falsy.
- Tokenizer.Consume: the loop body is a method of its own, called once per iteration of `Tokenize`. The cluster branch's `continue` is its early `return`.
- PhpCli.Cli.ValidateArgs: its two `foreach` loops are the methods `FindMissing` and `FindUnknown`. The error line and the usage are written after the loop stops.
- PhpCli.Cli.ExitHelp: its two loops are `MeasureCells` and `AppendRows`. The inner `foreach` over a row's three cells is written out as three appends.
