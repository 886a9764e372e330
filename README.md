# linuxkernel: kernel configurations and symbol tables, in Dafny

A Dafny model of the core of the Go package `linuxkernel`. It covers two files.

**config.go: parsing, comparing, diffing, patching and writing kernel `.config` files.**

- A configuration (`Config`) maps an option name, without its `CONFIG_` prefix, to its value. An option that is "not set" has the value `"n"`.
- `parseConfigLine` turns one line into an (option, value) pair.
- `ParseConfig` folds those pairs into a map.
- `Equal` compares two configurations.
- `DiffConfig` splits the differences between two configurations into three lists, each sorted by option name:
  - `InOld`: options only the old configuration has.
  - `Changes`: options whose value changed.
  - `InNew`: options only the new configuration has.
- `ApplyDiff` patches a configuration with such a diff. It refuses a diff that does not fit, with one of four errors.
- The two `WriteTo` methods write a configuration, or a diff in the style of the kernel's `scripts/diffconfig`. They go through sticky-error writers that count the bytes written and skip every write after the first failure.

**sym.go: symbol tables in the format of `/proc/kallsyms` and `nm`.**

- A symbol has an address, a one-letter type, a name and, for a symbol of a loadable module, the module.
- `Symbol.String` renders a symbol as a line.
- `SymbolTable.parse` reads one line into the table.
- `SymbolTable.Find` looks symbols up by name.
- The `SymbolType` predicates classify the type letter.

**The model, file by file.**

- `results.dfy`: `Option` and `Result`.
- `order.dfy`: Go's byte-wise string order, and what `sort.Strings` / `sort.Slice` guarantee. The result is sorted and a permutation, and a strictly sorted sequence is determined by its elements.
- `gostrings.dfy`: the parts of Go's `strings` package the parsers use, and the line splitting of `bufio.Scanner` (`bufio.ScanLines`).
- `config.dfy`:
  - `Config` and the diff records.
  - `parseConfigLine`.
  - `ParseConfig`, as a fold and as the loop.
  - `Equal`.
- `diff.dfy`: `DiffConfig` and `ConfigDiff.sort`, both as methods. `DiffConfig` is specified by `IsDiff`, the declarative description of a diff. `ConfigDiff.sort` is specified as leaving each list sorted by option and a permutation of what it was.
- `apply.dfy`: `ApplyDiff`, as the loops over a copy of the map and as a function. It also proves the round trips with `DiffConfig`.
- `sink.dfy`: an `io.Writer` whose calls may fail, and what a sticky writer leaves behind after a sequence of lines.
- `output.dfy`:
  - the writers `configWriter` and `configDiffWriter`, as classes;
  - both `WriteTo` methods;
  - the proof that what `Config.WriteTo` writes, split into lines as `ParseConfig`'s scanner splits it, parses back to the configuration, for the configurations whose options are not empty and hold no newline and whose set values contain neither `=` nor a newline and do not end in white space. Parsing alone can produce values outside that set, so reading, writing and reading again is not always the identity (see "## Left out").
- `symbols.dfy`:
  - `Symbol` and `Symbol.String`;
  - `strconv.ParseUint(s, 16, 64)`;
  - the `SymbolType` predicates;
  - `SymbolTable` as a class over a set, with `parse` and `Find`.

### Where the model follows the code rather than the comments

- **A value that contains a second `=` is truncated at it.** `parseConfigLine` splits `CONFIG_` lines with `strings.Split(line, "=")` and keeps the second token. So `CONFIG_CMDLINE="console=ttyS0"` is read as the value `"console`. See `KernelConfig.ValueTruncatedAtSecondEquals` and `ConfigOutput.ValueWithEqualsDoesNotRoundTrip`.
- **The ` is not set` branch never requires the `# CONFIG_` prefix; it only strips it.** So `FOO is not set` yields `("FOO", "n")`.
- **A `CONFIG_` line without `=` is an explicit error.** The Go code indexes past the end of the split tokens and panics. The model reports `MalformedLine` for the first such line, and `ParseConfig` fails with it.
- **`ApplyDiff` checks every phase against the original configuration, never against the copy being built.** The `InOld` check tests only that the option is present, not its value (`Apply.InOldValueUnchecked`).
- **`Global` includes the Latin-1 capitals.** `Global` is `unicode.IsUpper` on a rune made from one byte. So besides `A`–`Z` it accepts the Latin-1 capitals 0xC0–0xD6 and 0xD8–0xDE, and the model does too.
- **A non-ASCII type letter does not survive a round trip.** `%c` writes a type byte of 0x80 or more as two UTF-8 bytes, and `parse` then refuses it as an unknown type (`Kallsyms.NonAsciiTypeDoesNotRoundTrip`).

Strings are sequences of characters that stand for bytes. White space is the six ASCII white-space characters.

## Model

| member | source | states |
|---|---|---|
| GoStrings.TrimSpace | config.go:66 | The result is the input with only white space removed before and after it, has no leading or trailing white space, and a line without outer white space is left alone |
| GoStrings.TrimBrackets | sym.go:134-136 | The result is the input with only brackets removed before and after it, and neither starts nor ends with a bracket |
| GoStrings.ScanLinesOfLines | config.go:41-42 | Lines each followed by a newline, none holding a newline or ending in a carriage return, are split back by the scanner into exactly those lines |
| GoStrings.FieldsAreWords | sym.go:112 | Every field is non-empty and free of white space |
| GoStrings.FieldsCons | sym.go:112 | A field followed by white space or by nothing is the first field, and the rest are the fields of what follows |
| GoStrings.TrimBracketsOfBracketed | sym.go:133-137 | Trimming the brackets of `[m]` gives back `m` when `m` neither starts nor ends with a bracket |
| Order.LessTotal | config.go:188-198 | Go's string `<` relates any two distinct strings one way or the other |
| Order.LessTransitive | config.go:188-198 | Go's string `<` is transitive |
| Order.SortBy | config.go:188-198 | `sort.Slice` by a key: the result is sorted by the key and is a permutation of the input |
| Order.StrictlySortedUnique | config.go:188-198 | Two strictly sorted sequences with the same elements are equal, so the sorted output does not depend on map iteration order |
| Order.SortedKeys | config.go:84-88 | The keys of a set, strictly increasing, exactly the keys and nothing else |
| KernelConfig.ParseConfigLine | config.go:65-78 | A malformed result carries the line and comes only from a line that starts with `CONFIG_` once trimmed; what each kind of line gives is stated by `SetLineParses`, `UnsetLineParses`, `NotSetWithoutPrefixParses`, `OtherLinesGiveNothing` and `MalformedIff` |
| KernelConfig.SplitSetting | config.go:68-70 | `tokens[0]` and `tokens[1]` of `strings.Split(s, "=")`: none exactly when `s` has no `=`; otherwise the text before the first `=` and the text after it up to the next `=` or the end, neither containing `=` |
| KernelConfig.SetLineParses | config.go:65-71 | After trimming, a line `CONFIG_a=b` or `CONFIG_a=b=...` with no `=` in `a` or `b` gives `(a, b)` |
| KernelConfig.MalformedIff | config.go:67-70 | A line is malformed exactly when, once trimmed, it starts with `CONFIG_` and contains no `=` |
| KernelConfig.ValueTruncatedAtSecondEquals | config.go:69-70 | `CONFIG_CMDLINE="console=ttyS0"` gives the value `"console`, cut at the second `=` |
| KernelConfig.UnsetLineParses | config.go:72-75 | `# CONFIG_X is not set`, after trimming, gives `(X, "n")` |
| KernelConfig.NotSetWithoutPrefixParses | config.go:72-75 | A line ending in ` is not set` without the `# CONFIG_` prefix still gives (the rest of the line, `"n"`) |
| KernelConfig.OtherLinesGiveNothing | config.go:65-77 | Any other line gives the empty pair `("", "")` |
| KernelConfig.CommentParses | config_test.go:43 | The comment line of the parse test gives the empty pair |
| KernelConfig.UnsetExampleParses | config_test.go:43 | `# CONFIG_X is not set` gives `(X, n)` |
| KernelConfig.SetExampleParses | config_test.go:43 | `CONFIG_Y=y` and `CONFIG_Z=""` give `(Y, y)` and `(Z, "")` |
| KernelConfig.Collect | config.go:42-47 | The fold of the parsed lines never stores the empty option; its failure and contents are stated by `CollectFailure` and `CollectContents` |
| KernelConfig.CollectFailure | config.go:42-47 | The fold fails exactly when some line is malformed, and the error names the first malformed line |
| KernelConfig.CollectFailedStops | config.go:42-47 | Once the fold has failed, later lines do not change the outcome |
| KernelConfig.CollectContents | config.go:42-47 | The map's keys are exactly the non-empty options some line sets, and each maps to the value of the last line that sets it |
| KernelConfig.CollectExample | config_test.go:42-52 | The pairs of the parse test fold to `{X: n, Y: y, Z: ""}` |
| KernelConfig.ParseConfig | config.go:39-52 | The loop over the lines returns the fold of the parsed lines; a read error fails the parse only when no line was malformed |
| KernelConfig.ValueStringFields | config.go:224-226 | `ConfigValue.String` writes the option, a space and the value: for an option and value without white space, `strings.Fields` splits the text back into the two |
| KernelConfig.ChangeStringFields | config.go:234-236 | `ConfigChange.String` writes the option, the old value, `->` and the new value separated by spaces: without white space in them, `strings.Fields` splits the text back into those four |
| KernelConfig.ContainedIn | config.go:108-116 | True exactly when every option of `cfg` is in `other` with the same value |
| KernelConfig.Equal | config.go:102-104 | True exactly when the two configurations have the same options with the same values |
| Diffs.SortDiff | config.go:188-198 | Each of the three lists comes out sorted by option and is a permutation of what went in |
| Diffs.DiffConfig | config.go:151-178 | The three loops and the sort give a diff: `InOld` holds exactly the options only in the old configuration, with their old values; `Changes` holds exactly the options whose values differ; `InNew` holds exactly the options only in the new one; each list is strictly sorted |
| Diffs.DiffDeterministic | config.go:151-178 | Two diffs of the same pair of configurations are equal |
| Diffs.ChangesChange | config.go:160 | No change has its old value equal to its new value |
| Diffs.DiffOfSelfIsEmpty | config_test.go:291-299 | The diff of a configuration with itself is empty |
| Diffs.DiffSymmetric | config_test.go:345-371 | The diff the other way round swaps `InOld` and `InNew` and reverses every change |
| Diffs.DiffOtherWay | config_test.go:345-371 | Index by index, the two directions' changes agree on the option and have their values swapped |
| Diffs.DiffExample | config_test.go:300-332 | The second diff test's configurations have exactly the expected diff |
| Apply.Applied | config.go:120-148 | The three phases in order from a copy of the configuration, the first error ending it; when it succeeds, fails and with what result is stated by `ApplySucceedsIff`, `ApplyFailure` and `ApplyResultAt` |
| Apply.ApplyDiff | config.go:120-148 | The copy-then-three-loops method returns exactly the functional `Applied` result |
| Apply.RemoveOldOutcome | config.go:125-130 | The `InOld` phase fails with `invalidOldValue` at the first option missing from the configuration, and succeeds otherwise |
| Apply.RemoveOldValue | config.go:125-130 | When it succeeds, the `InOld` phase removes exactly the listed options |
| Apply.ApplyChangesOutcome | config.go:131-140 | The `Changes` phase fails at the first change that does not fit: `invalidChange` if the option is absent, otherwise `mismatchedChange` with the value found |
| Apply.ApplyChangesAt | config.go:131-140 | When it succeeds, the `Changes` phase sets each changed option to its last new value and leaves the rest alone |
| Apply.AddNewOutcome | config.go:141-146 | The `InNew` phase fails with `invalidNewValue` at the first option already in the configuration |
| Apply.AddNewAt | config.go:141-146 | When it succeeds, the `InNew` phase adds each listed option with its value and leaves the rest alone |
| Apply.ApplySucceedsIff | config.go:120-148 | Applying succeeds exactly when every `InOld` option is present, every change finds its old value, and every `InNew` option is absent |
| Apply.ApplyFailure | config.go:120-148 | Each of the four errors names the first record that does not fit, in phase order, with every earlier phase fitting |
| Apply.ApplyResultAt | config.go:120-148 | On success, an option is in the result exactly when it was kept, changed or added, with the value the last phase gave it |
| Apply.ApplyDiffOfConfigs | config.go:118-119 | Applying the diff of `a` and `b` to `a` succeeds and gives `b` |
| Apply.DiffOfApplied | config.go:118-119 | If applying a sorted, duplicate-free diff whose phases do not overlap, and whose `InOld` values match, gives `m`, then that diff is the diff of the configuration and `m` |
| Apply.InOldValueUnchecked | config.go:125-129 | An `InOld` record with the wrong value is still applied, so the round trip needs the values to match |
| Apply.ApplyExample | config_test.go:155-177 | The first `ApplyDiff` test gives `{Y: yy, Z: z, T: t}` |
| Apply.ApplyErrorExamples | config_test.go:178-246 | The four failing `ApplyDiff` tests give the four errors, with the value found for the mismatch |
| Apply.ApplyExampleRoundTrip | config_test.go:267-272 | The first test's diff is the diff of its configuration and result |
| Sinks.AfterWritingClosed | config.go:244-256 | Lines written through a sticky writer: those before the first failing call are written and counted, the error is set exactly when a call failed, and no call follows the failing one |
| Sinks.AfterWritingAll | config.go:244-256 | When no call fails, every line is written, the count is the total length, and there is no error |
| Sinks.AfterWritingError | config.go:245-247 | The error is set exactly when one of the calls failed, and then the last call made is the failing one |
| Sinks.AfterWritingPrefix | config.go:255 | The count is the number of bytes written, and what was written is a prefix of the lines |
| ConfigOutput.LinesFor | config.go:90-92 | One line per option, in the order given: `# CONFIG_k is not set` for `"n"`, `CONFIG_k=v` otherwise |
| ConfigOutput.ConfigWriter.WriteLine | config.go:244-256 | A sticky write of the option's line: skipped once an error is set, otherwise the bytes are counted and the error recorded |
| ConfigOutput.ConfigDiffWriter.WriteOld | config.go:264-271 | A sticky write of `-opt val` |
| ConfigOutput.ConfigDiffWriter.WriteChange | config.go:273-280 | A sticky write of ` opt old -> new` |
| ConfigOutput.ConfigDiffWriter.WriteNew | config.go:282-289 | A sticky write of `+opt val` |
| ConfigOutput.SortedOptions | config.go:84-88 | The options of the configuration, collected and sorted, are exactly its keys in increasing order |
| ConfigOutput.WriteConfigTo | config.go:83-94 | `Config.WriteTo` writes the configuration's lines in increasing option order through the sticky writer, and returns its count and error |
| ConfigOutput.WriteDiffTo | config.go:204-216 | `ConfigDiff.WriteTo` writes the `InOld` lines, then the changes, then the `InNew` lines, through the sticky writer |
| ConfigOutput.ConfigTextScans | config.go:41-42 | The line of a renderable option holds no newline and does not end in a carriage return, so the scanner delivers it whole |
| ConfigOutput.ConfigTextParses | config.go:249-254 | The line written for an option and value, as the scanner delivers it, parses back to them, when the option is not empty and holds no newline, and the value is `n` or neither contains `=` or a newline nor ends in white space |
| ConfigOutput.ValueWithTrailingSpaceDoesNotRoundTrip | config.go:65-70 | A set value ending in white space is written whole but read back without that white space, because the line is trimmed before it is split |
| ConfigOutput.SpaceBeforeEqualsParses | config.go:65-70 | White space before a second `=` stays at the end of the parsed value |
| ConfigOutput.TrailingSpaceValueParses | config.go:65-70 | `CONFIG_A=b =c` parses to the value `"b "`, and the line written for that value parses to `"b"`: parsing, writing and parsing again is not the identity |
| ConfigOutput.ValueWithEqualsDoesNotRoundTrip | config.go:69-70 | A value whose first `=` is followed by more text is written whole but read back cut at that `=`, so it differs from what was written |
| ConfigOutput.ValueWithNewlineDoesNotRoundTrip | config.go:41-42 | A value holding a newline is written whole but scanned as two lines, so `A = "b\nc"` reads back as `A = "b"` |
| ConfigOutput.CommandLineDoesNotRoundTrip | config.go:69-70 | `CMDLINE="console=ttyS0"` is written whole and read back as `"console` |
| ConfigOutput.ConfigLinesScanned | config.go:41-42 | The scanner splits the written text into the options' lines, in order, without their newlines |
| ConfigOutput.ConfigLinesParsed | config.go:90-92 | Scanning and parsing the written text gives one setting per option, in order |
| ConfigOutput.CollectSettings | config.go:42-47 | Folding one setting per option, each option once, gives back the configuration |
| ConfigOutput.ConfigLinesParse | config.go:80-82 | What `Config.WriteTo` writes, split into lines by the scanner and parsed, gives back the configuration, for every configuration whose options and values are renderable |
| ConfigOutput.EmptyConfigWritesNothing | config_test.go:92-121 | An empty configuration writes no line, no byte and no error |
| ConfigOutput.BasicOptionsSorted | config_test.go:124-135 | The options of the `WriteTo` test come out as BAR, BAZ, FOO, QUUX |
| ConfigOutput.BasicConfigLines | config_test.go:71-86 | The lines of the `WriteTo` test, in order |
| ConfigOutput.BasicWriteTo | config_test.go:71-95 | `WriteTo` on the test configuration writes exactly the expected text, counts all of it and reports no error |
| ConfigOutput.TestDiffLines | config_test.go:373-388 | The lines of the diff `WriteTo` test |
| ConfigOutput.TestDiffWriteTo | config_test.go:373-398 | `ConfigDiff.WriteTo` writes exactly `testConfigDiffString`, counts all of it and reports no error |
| Kallsyms.SymbolType.Absolute | sym.go:49-52 | True for `A` and `a`; disjoint from the other section predicates (`TypePairs`) |
| Kallsyms.SymbolType.BSS | sym.go:56-58 | True for `B` and `b`; disjoint from the other section predicates (`TypePairs`) |
| Kallsyms.SymbolType.Data | sym.go:62-64 | True for `D` and `d`; disjoint from the other section predicates (`TypePairs`) |
| Kallsyms.SymbolType.Readonly | sym.go:68-70 | True for `R` and `r`; disjoint from the other section predicates (`TypePairs`) |
| Kallsyms.SymbolType.Text | sym.go:74-76 | True for `T` and `t`; disjoint from the other section predicates (`TypePairs`) |
| Kallsyms.SymbolType.WeakObject | sym.go:80-82 | True for `V` and `v`; disjoint from the other section predicates (`TypePairs`) |
| Kallsyms.SymbolType.WeakSymbol | sym.go:86-88 | True for `W` and `w`; disjoint from the other section predicates (`TypePairs`) |
| Kallsyms.SymbolType.Global | sym.go:91-93 | `unicode.IsUpper` of the type: `A`-`Z` and the Latin-1 capitals; within each section pair it holds exactly for the upper-case letter (`TypePairs`) |
| Kallsyms.TypePairs | sym.go:47-93 | The seven section predicates hold for disjoint letter pairs, and within a pair `Global` holds exactly for the upper-case letter |
| Kallsyms.Utf8 | sym.go:37 | `%c` writes one byte for ASCII and two to four bytes of 0x80 or more otherwise |
| Kallsyms.ParseHex | sym.go:119-123 | `strconv.ParseUint(s, 16, 64)` succeeds exactly for one or more hexadecimal digits whose value is below 2^64 |
| Kallsyms.Hex16 | sym.go:37 | `%016x` of an address is sixteen lower-case hexadecimal digits without white space |
| Kallsyms.HexRoundTrip | sym.go:37 | Parsing the sixteen digits written for an address gives the address back |
| Kallsyms.ParseSymbolLine | sym.go:111-137 | A line is accepted exactly with three or four fields, a valid address and a one-byte type; any other field count gives the malformed-line error. The accepted symbol has the address field's hexadecimal value, the type field's byte, the third field as name, and the fourth field with its brackets trimmed as module, or no module for three fields |
| Kallsyms.ParseSymbolErrors | sym.go:119-129 | With three or four fields, the address is checked before the type, and each error carries the field it refuses |
| Kallsyms.Symbol.String | sym.go:36-42 | `%016x %c %s`, then ` [%s]` with the module when there is one; its fields are stated by `SymbolFields` and its round trip by `SymbolRoundTrip` |
| Kallsyms.SymbolFields | sym.go:36-42 | The fields of a symbol's text are the address, the type, the name and the bracketed module, if any |
| Kallsyms.SymbolRoundTrip | sym.go:36-42 | The text of a symbol with an ASCII type, a name and a module without white space parses back to the same symbol |
| Kallsyms.NonAsciiTypeDoesNotRoundTrip | sym.go:37 | A Latin-1 type from 0x80 to 0xFF is written as two bytes, and parsing then refuses it as an unknown type |
| Kallsyms.SymbolTable.constructor | sym.go:95-96 | A new table is empty |
| Kallsyms.SymbolTable.Parse | sym.go:111-141 | On success, exactly the parsed symbol is added to the table; on every error, the table is unchanged and the error is returned |
| Kallsyms.SymbolTable.Find | sym.go:98-109 | Returns exactly the table's symbols with the given name, each once |

## Left out

- `ParseSymbols` and `Kallsyms`: they open a file and loop over its lines with `SymbolTable.parse`. The file and the operating system are not modelled.
- `bufio.Scanner`: `ParseConfig` takes its input as a sequence of lines; `ScanLines` says how the scanner splits a text into lines. A read error is a flag, and the scanner's 64 KiB line limit is part of that flag.
- `io.Writer` and `fmt.Fprintf`: a `Sink` stands for the writer. Its calls fail at given call numbers.
- Sinks.Sink.Write: a failing call writes nothing. An `io.Writer` may write part of the bytes before failing, and the model does not.
- The `Error()` texts of the four `ApplyDiff` errors and of the parse errors are not modelled. The errors are datatypes that carry the offending record, line or field.
- ConfigOutput.WriteConfigTo: the byte count is an unbounded `nat`, not an `int64`. Overflow would need more than 2^63 bytes of output.
- ConfigOutput.WriteDiffTo: the byte count is an unbounded `nat`, for the same reason.
- ConfigOutput.ConfigLinesParse: it holds only for renderable configurations: every option is not empty and holds no newline, and every value other than `"n"` contains neither `=` nor a newline, nor ends in white space (nor does its option contain `=`). Other configurations do not read back; see `ValueWithEqualsDoesNotRoundTrip`, `ValueWithNewlineDoesNotRoundTrip` and `ValueWithTrailingSpaceDoesNotRoundTrip`. Parsing itself can produce a value outside this set (`CONFIG_A=b =c` gives `"b "`, see `TrailingSpaceValueParses`), so the model does not promise that parsing what was written from a parsed configuration gives that configuration back.
- Map iteration order: the model picks the next key of a map or set arbitrarily, as Go's random order does.
- The algorithms inside `sort.Strings` and `sort.Slice`: an insertion sort stands in for them, and only its result (sorted, a permutation) matters.
- Unicode white space: `strings.TrimSpace` and `strings.Fields` also treat the UTF-8 encodings of U+0085, U+00A0 and other Unicode spaces as white space. The model's strings are bytes, and its white space is ASCII only.
- Kallsyms.SymbolType.Global: a code point above 0xFF does not count as upper case. `parse` only ever produces type values up to 0xFF.
- Kallsyms.NonAsciiTypeDoesNotRoundTrip: it covers the Latin-1 types 0x80 to 0xFF except 0x85 and 0xA0. The UTF-8 encodings of U+0085 and U+00A0, and of Unicode spaces above U+00FF such as U+1680, U+2000 to U+200A, U+2028, U+2029, U+202F, U+205F and U+3000, are white space to Go's `strings.Fields`, and the model's ASCII white space does not capture that.
- Kallsyms.SymbolRoundTrip: it holds only for printable symbols, that is:
  - an ASCII type that is not white space;
  - a non-empty name without white space;
  - a module without white space that neither starts nor ends with a bracket.
- `uintptr` width: addresses are below 2^64, as on a 64-bit platform. A 32-bit `uintptr` truncation is not modelled.
- The whole-file parse test input is checked line by line (`CommentParses`, `UnsetExampleParses`, `SetExampleParses`) and then folded (`CollectExample`), not as one string split into lines.
