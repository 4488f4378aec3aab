# top capture parser, modelled in Dafny

This project models the batch-mode `top` reader of `linux-inspect`, the `top` package. That
package starts `/usr/bin/top -b -w 512 …`, collects what it prints and turns each refresh cycle's
process table into `Row` records.

The model covers the following:

- **Memory quantities.** `parseMemoryTxt` reads `VIRT`, `RES` and `SHR` tokens with their
  `m`/`g`/`t` unit suffixes. The number is truncated, then scaled by 1024 per unit step, with
  64-bit wrap-around.
- **Process state.** `parseStatus` decodes the state code. It switches on the first byte of
  the trimmed token and falls back to `unknown process %q`.
- **One process row.** `parseRow` decodes the twelve columns. It checks them in the order PID,
  VIRT, RES, SHR, %CPU, %MEM and stops at the first failure.
- **Banner lines.** `bytesToSkip`/`topRowToSkip` is the table of the eleven line starts
  that `top` prints above its process table.
- **The whole capture.** `Parse` does the following:
  - splits the capture into lines;
  - skips blank and banner lines;
  - counts the `top -` banners, starting from −1 so that the startup cycle does not count;
  - stops at the first row with fewer than twelve fields;
  - repairs rows whose command holds spaces;
  - keeps the rows that come after the startup cycle;
  - decodes them concurrently and gathers the results in arrival order;
  - reports a count of zero as an error.
- **Command line.** `Config.Flags` builds the `top` command line. `Get` and `GetTimed` clamp
  the settings before the command is built. They also run the command and parse its output,
  with the host passed in as parameters.

The model follows the code where it departs from its comments and from the intended design:

- **Only the first command word reaches `COMMAND`.** The repair of a row with more than twelve
  fields writes the rejoined command into the *last* slot. `parseRow` reads `COMMAND` from
  index 11, so it gets the first word only (`RepairKeepsColumns`, `RepairOfSpacedCommand`).
- **The count is banners less one.** A capture with N `top -` banners reports N − 1 iterations
  and keeps the rows of the N − 1 cycles after the first.
- **Only a count of exactly zero is an error.** A capture without any banner succeeds with the
  count −1 and no rows (`NoMeasurementNoRows`).
- **The short-row check runs on every non-banner line.** This includes lines of the startup
  cycle and lines before any banner (`ShortRowAborts`).

Modules and files:

- `wrappers.dfy` (`Wrappers`): `Option`, and `WithError`, which is Go's `(value, err)` pair.
- `gostrings.dfy` (`GoStrings`): `strings.TrimSpace`, `Fields`, `Split`, `Join`, `HasPrefix`,
  `HasSuffix`, and the UTF-8 bytes of a string.
- `strconv.dfy` (`Strconv`): `ParseInt(s, 10, 64)`, `ParseFloat` on decimal literals, `%d`
  and `%.2f`.
- `row.dfy` (`TopRow`): `parseMemoryTxt`, `parseStatus`, `Headers` and the column indices,
  `Row` and `parseRow`.
- `capture.dfy` (`TopCapture`):
  - the banner table;
  - the line loop of `Parse` as a method (`ReadLines`) and as a function over line kinds
    (`ScanKinds`), with reference definitions of what it computes (`Banners`, `Retained`);
  - the decoding fan-out (`DecodeRows`) with its gathering loop (`Gather`);
  - `Parse` itself.
- `run.dfy` (`TopRun`):
  - `Config` as a class, with `Flags` and `createCmd`;
  - the flag list as a function, with a reading of it (`FlagArg`);
  - `Get` and `GetTimed`.

## Model

| member | source | states |
|---|---|---|
| GoStrings.TrimSpaceMeaning | top/parse.go:131 | the trimmed line is the text of the line between a left margin and a right margin that are white space only; by `TrimSpace`'s own contract it is empty iff the line is all white space and otherwise starts and ends with a non-space character |
| GoStrings.TrimSpaceIdempotent | top/parse.go:143 | trimming an already trimmed line changes nothing |
| GoStrings.Fields | top/parse.go:143 | a line has no fields iff it is all white space; which fields it has is stated in `FieldsOfSpaced` and `FieldsDecompose` |
| GoStrings.FieldsAreWords | top/parse.go:143 | every field is a non-empty run of non-space characters |
| GoStrings.FieldsOfJoin | top/parse.go:149 | joining words with single spaces and splitting the result into fields gives the words back |
| GoStrings.FieldsOfSpaced | top/parse.go:143 | words spaced out by any non-empty runs of white space, with any white space before and after them, split back into exactly those words |
| GoStrings.FieldsDecompose | top/parse.go:143 | every line is its fields spaced out by such runs of white space, so with `FieldsOfSpaced` the fields of every line are its maximal non-space runs, in order |
| GoStrings.Split | top/parse.go:125 | there is at least one piece, no piece holds a newline, and joining the pieces with newlines gives the capture back |
| GoStrings.Utf8 | top/parse.go:248-249 | the byte form of a string is at least as long as the string, and its first byte is the first byte of the first character's encoding |
| Strconv.ParseUint | top/parse.go:191 | the digit loop succeeds iff the text is a non-empty run of digits whose value fits in 64 bits, and then gives that value; a value too large is a range error |
| Strconv.ParseInt | top/parse.go:191-195 | succeeds iff the text is a signed decimal integer in the int64 range, with its value; otherwise the error names `ParseInt` and the input, and the value is 0 on a syntax error, and on a range error the bound on the side of the sign: −2^63 after a `-`, 2^63 − 1 otherwise |
| Strconv.ParseFloatMeaning | top/parse.go:227-237 | a text parses iff it is a decimal literal: an optional sign, digits, then optionally `.` and digits, with at least one digit; the value read off is the sign, the value of the integer digits and the fraction digits |
| Strconv.FormatNat | top/top.go:65 | `%d` of a natural number is digits whose value is that number, without a leading zero: `0` is written `0` |
| Strconv.FormatIntParses | top/top.go:65 | `%d` of an int64 reads back through `ParseInt` as the same number without error |
| Strconv.FormatNatParsesAsFloat | top/parse.go:29 | `%d` of a number reads back through `ParseFloat` as that whole number |
| Strconv.RoundHundredths | top/top.go:69 | the rounding of `100·x` to an integer is within one half of it |
| Strconv.HundredthsParses | top/top.go:69 | `c/100` written with two decimals reads back as exactly `c/100` |
| Strconv.Fixed2Parses | top/top.go:69 | `%.2f` of a non-negative number reads back as a two-decimal literal within 0.005 of the number |
| TopRow.ParseMemoryTxt | top/parse.go:22-64 | after trimming and dropping a `m`/`g`/`t` suffix, succeeds iff the numeral parses; then the byte count is `trunc(n)·1024^k mod 2^64` with k = 2, 3, 4 for `m`, `g`, `t` and 1 otherwise, rendered by `humanize.Bytes`; a failure is ParseFloat's error beside zero bytes and no text |
| TopRow.ScaleSteps | top/parse.go:26-51 | k wrapping multiplications by 1024 of the converted integer equal `t·1024^k mod 2^64` |
| TopRow.MemoryRoundTrip | top/parse.go:22-64 | a number followed by no suffix or by `m`, `g`, `t` decodes to that many KiB, MiB, GiB, TiB, modulo 2^64 |
| TopRow.BareUnitFails | top/parse.go:26-59 | `""`, `m`, `g` and `t` fail with the syntax error for an empty numeral, beside `0, ""` |
| TopRow.TruncatesBeforeScaling | top/parse.go:35-42 | `1.5g` is exactly one GiB: the fraction is dropped before the scaling |
| TopRow.ParseStatus | top/parse.go:246-267 | when the first character of the trimmed token is one of D R S T t Z, the fixed label of that state; otherwise `unknown process` quoting the untrimmed input |
| TopRow.KeyDecides | top/parse.go:247-251 | the key the switch looks at names a state exactly when the trimmed token's first character is a state code |
| TopRow.FirstByteDecides | top/parse.go:248-251 | the first byte of a non-empty string names a state code exactly when its first character is that code |
| TopRow.StateWithModifiers | top/parse.go:246-257 | a state code followed by modifier characters, such as `S<`, decodes as that state, so `S<` is `S (sleeping)` |
| TopRow.UnknownKeepsRawInput | top/parse.go:264-265 | an unknown code quotes the raw, untrimmed token |
| TopRow.FirstError | top/parse.go:191-237 | no error iff every check passed; otherwise the error of the first check that failed |
| TopRow.FirstFailedCheck | top/parse.go:191-237 | the reported error is that of PID, else VIRT, else RES, else SHR, else %CPU, else %MEM, the first that fails |
| TopRow.ParseRow | top/parse.go:186-244 | succeeds iff all six checks pass; a failure is the first failing check's error with the row, beside an empty `Row`; on success VIRT/RES/SHR/S/TIME+/COMMAND are the raw tokens, PID is the integer, USER/PR/NI are trimmed, the memory columns are their decodings, %CPU/%MEM their float values and the state its decoding |
| TopCapture.AnyPrefix | top/parse.go:114-121 | definition of the prefix search over a table; meaning in `AnyPrefixMeaning` |
| TopCapture.AnyPrefixMeaning | top/parse.go:114-121 | the prefix search succeeds iff some prefix in the table starts the line |
| TopCapture.TopRowToSkip | top/parse.go:100-121 | definition: the prefix search over the eleven-entry banner table `BYTES_TO_SKIP`; meaning in `TopRowToSkipMeaning` |
| TopCapture.TopRowToSkipMeaning | top/parse.go:100-121 | a line is skipped iff one of the eleven banner prefixes starts it |
| TopCapture.ProcessLineNotSkipped | top/parse.go:100-121 | a line that starts with a digit, as a process row does, is never skipped |
| TopCapture.HeaderLineSkipped | top/parse.go:111 | the column header line `PID …` is skipped |
| TopCapture.Classify | top/parse.go:131-143 | definition of the kind of one line; meaning in `ClassifyMeaning` |
| TopCapture.ClassifyMeaning | top/parse.go:131-143 | a line is blank iff it is all white space; a banner iff, trimmed, it starts with a table prefix; it opens a cycle iff, trimmed, it starts with `top -`; otherwise its fields are those of the trimmed line |
| TopCapture.Repair | top/parse.go:147-151 | definition of the repair of a row with more fields than the twelve column names of `TopRow.HEADERS`; meaning in `RepairKeepsColumns` |
| TopCapture.RepairKeepsColumns | top/parse.go:147-151 | the repair keeps the length and every slot but the last, so `COMMAND` stays the first command word; the last slot of a long row becomes the join of the fields from `COMMAND` on |
| TopCapture.RepairOfSpacedCommand | top/parse.go:147-151 | for a command of several words, `COMMAND` is the first word and the last slot is the whole command, whose fields are the words |
| TopCapture.ClassifyDecodable | top/parse.go:143-151 | every full row, once repaired, meets what `parseRow` needs of it: twelve columns and a state token that is not blank |
| TopCapture.Step | top/parse.go:131-155 | definition of one pass of the line loop; meaning in `StepCases` |
| TopCapture.StepCases | top/parse.go:131-155 | one pass of the loop: a short row ends it with that row; a full row is kept iff the count is positive; a cycle banner adds one to the count; nothing else changes |
| TopCapture.ScanRowsWellFormed | top/parse.go:143-155 | every row the loop keeps meets what `parseRow` needs of it |
| TopCapture.ScanLinesWellFormed | top/parse.go:125-155 | every row kept from a capture meets what `parseRow` needs of it |
| TopCapture.ScanKinds | top/parse.go:129-156 | definition of the line loop over line kinds; meaning in `ScanWithoutShort`, `ScanWithShort` and `ShortRowAborts` |
| TopCapture.ScanLines | top/parse.go:125-156 | definition of the line loop over the lines of a capture; meaning in `ScanLinesWellFormed` and, through `ScanKinds`, `ScanWithoutShort` |
| TopCapture.ScanWithoutShort | top/parse.go:129-155 | without a short row, the count is the number of `top -` lines less one and the kept rows are exactly the repaired full rows after the second banner, in order |
| TopCapture.ShortIsFinal | top/parse.go:144-146 | once a short row has ended the loop, further lines change nothing |
| TopCapture.ScanWithShort | top/parse.go:143-146 | the first short row ends the loop: it is the reported row, and the count is the number of banners before it less one |
| TopCapture.FirstShort | top/parse.go:144 | a capture with a short row has a first one |
| TopCapture.ShortRowAborts | top/parse.go:143-146 | the loop stops early iff some line is a short row, wherever it stands |
| TopCapture.StartupOnlyKeepsNothing | top/parse.go:152-155 | with at most one banner, no row is kept |
| TopCapture.NoMeasurementNoRows | top/parse.go:180-183 | a count of zero or less, with no short row, comes with no rows; the count is −1 exactly when there is no banner |
| TopCapture.RetainedFromProcessRows | top/parse.go:143-155 | every kept row is the repaired fields of a full process row of the capture |
| TopCapture.ValuesPermutation | top/parse.go:170-179 | results that are a permutation of each other give decoded rows that are a permutation of each other |
| TopCapture.SameResults | top/parse.go:162-179 | results that arrive in another order have the same members, succeed together and give the same decoded rows up to order |
| TopCapture.ReadLines | top/parse.go:125-156 | the loop's count and short row are those of the line loop over the capture, and without a short row the kept rows are the loop's |
| TopCapture.DecodeRows | top/parse.go:158-179 | no error iff every retained row decodes, and then the rows are the decodings in some order; otherwise no rows and the error of one of the rows that failed |
| TopCapture.Gather | top/parse.go:170-179 | no error iff every arrival succeeded, and then the rows in arrival order; otherwise no rows and the error of the first failed arrival, every earlier one having succeeded |
| TopCapture.Parse | top/parse.go:124-184 | the count is the loop's; a short row gives no rows and that row's column-count error; when all kept rows decode, the rows are a permutation of their decodings, and a count of exactly 0 is the no-measurement error; when some row fails, no rows and the error of a failing row |
| TopCapture.ParseOutcomeMeaning | top/parse.go:124-184 | `Parse`'s promise in terms of the capture's lines: with no short row, the count is the number of `top -` lines less one; when all retained rows decode, the rows are their decodings up to order and there is no error iff the number of banners is not 1; when some retained row fails, no rows and the error of a failing row; with no banner at all, no rows, count −1 and no error. With a short row: no rows, and the error and count come from the first short row |
| TopCapture.NoShortOutcome | top/parse.go:129-184 | stated on the line kinds, for a capture without a short row: the count is the number of `top -` lines less one and every retained row can be decoded; when all decode, the rows are their decodings up to order, with no error iff the number of banners is not 1; when some fails, no rows and the error of a failing retained row; without a banner, no rows, count −1 and no error |
| TopCapture.ShortCaseOutcome | top/parse.go:143-146 | stated on the line kinds, for a capture with a short row: no rows, the error is the column-count error of the first short row, and the count is that of the banners before it less one |
| TopCapture.ShortOutcome | top/parse.go:143-146 | the same, given the position of the first short row |
| TopCapture.ScanBeforeShort | top/parse.go:129-142 | up to the first short row the loop has not stopped, and its count is the number of banners so far less one |
| TopRun.FlagList | top/top.go:53-77 | definition of the flag list for given settings; meaning in `FlagListMeaning`, `FlagValuesRoundTrip` and `FlagListLength` |
| TopRun.FlagListMeaning | top/top.go:53-77 | the list starts with `-b -w 512`; `-n`, `-d`, `-p` are present with the rendered limit, interval and pid exactly when each setting is positive |
| TopRun.FlagValuesRoundTrip | top/top.go:64-74 | the `-n` and `-p` values read back as the limit and the pid, and the `-d` value as a literal within 0.005 of the interval |
| TopRun.FlagListLength | top/top.go:62-76 | the list has 3 + 2·(number of positive settings) elements, an odd number |
| TopRun.Config.Flags | top/top.go:53-77 | the flags built by the conditional appends are the flag list for the current settings |
| TopRun.Config.CreateCmd | top/top.go:80-95 | a missing executable is an error naming it and records no command; otherwise the command is the executable with the current flags, and the settings are unchanged |
| TopRun.Get | top/top.go:100-126 | a missing executable or a failed run gives no rows, count −1 and that error; otherwise the result is what `Parse` promises for the output of `top` run with the clamped settings |
| TopRun.GetCommand | top/top.go:110-115 | definition of the command `Get` runs, with the clamped settings; meaning in `GetBoundsTheRun` |
| TopRun.GetBoundsTheRun | top/top.go:110-115 | `Get`'s command always holds `-n` with a value of at least 1 (the given limit when it is at least 1) and always holds `-d` |
| TopRun.GetTimed | top/top.go:132-171 | a missing executable, or a failed exit before the deadline, gives no rows, count −1 and that error; otherwise, whether `top` exited or was killed at the deadline, the result is what `Parse` promises for what it wrote |
| TopRun.GetTimedCommand | top/top.go:136-144 | definition of the command `GetTimed` runs, with the clamped interval and no limit; meaning in `GetTimedRunsToDeadline` |
| TopRun.GetTimedRunsToDeadline | top/top.go:136-144 | `GetTimed`'s command never holds `-n`, so only the deadline ends `top`, and it always holds `-d` |
| TopRun.TinyIntervalRendersAsZero | top/top.go:68-70 | every interval above 0 and at most 0.005 s is positive, so it is kept, but it is passed to `top` as `-d 0.00` |

## Left out

- Floating point: `strconv.ParseFloat` is modelled on plain decimal literals only.
  - Exponents, `inf`, `nan`, hexadecimal floats and underscores are treated as syntax errors.
  - The value is kept exactly as the literal's sign, integer part and fraction digits, with no
    rounding to float64 and no range errors.
  - %CPU and %MEM are those literal values.
- `RoundHundredths` and `Fixed2`: `%.2f` is modelled on the exact real value. The rounding of
  float64 input to binary is not modelled.
- `GetTimed`, `Get`: a non-finite interval (NaN, +Inf or −Inf) is not modelled, since a `real` holds only finite values.
- `ToUint64`: Go leaves the conversion of an out-of-range float to `uint64` to the
  implementation. The model takes the integer part modulo 2^64.
- `humanize.Bytes` is a foreign library. Its rendering is kept as the symbolic value
  `Humanized(n)` of the byte count.
- The `%q` quoting in `parseStatus` is kept as the symbolic value `UnknownProcess(input)`.
- The error texts built by `fmt.Errorf` are kept as the values they format (`FieldError`,
  `ColumnCount`, `NoMeasurement`).
- `TopCapture.Parse`, `TopCapture.DecodeRows`: the goroutines and the buffered channel are
  replaced by decoding every kept row first, then taking the results in an arbitrary order. Which error surfaces when
  several rows fail depends on scheduling, so the contract says only that it is the error of
  a failing row.
- All strings are sequences of Unicode code points.
  - `parseStatus` uses the UTF-8 bytes where Go looks at bytes (`len(s)`, `ns[:1]`).
  - `topRowToSkip` compares characters rather than bytes. This is the same for its ASCII
    prefixes.
  - Invalid UTF-8 input is not modelled.
- `TopRow.ParseStatus`, `TopRow.ParseRow`: both require that the state token is not white space
  of two or more bytes. On such a token Go slices an empty string and panics. Tokens made by
  `strings.Fields` never are (`ClassifyDecodable`).
- `TopRun.Get`, `TopRun.GetTimed`: process and file I/O are parameters.
  - `fileutil.Exist` is the flag `execExists`.
  - `cmd.Run`, and the `Start`/`Wait`/`Kill` race against `time.After`, are the functions `run`,
    from the command to how the process ended and what it wrote to the shared stdout/stderr
    buffer.
  - The deadline is handed to `run` unchanged.
  - The `Writer` field, the nil-`Config` check of `createCmd` and the `*exec.Cmd` itself are
    not modelled.
- `top/top_test.go` only runs the real `/usr/bin/top`, so it is not part of this model.
- The `Row` type is declared in a file that is not part of this model. Its fields here are
  those `parseRow` assigns.
