# uvmhub simulator backend: a verified model of its core

The uvmhub backend (`server.js`) accepts SystemVerilog sources over HTTP. It does the following:

- compiles the sources with Verilator together with a generated C++ harness;
- runs the simulation;
- sends back the simulation output and the waveform it dumped, both as parsed signals and as the raw Value Change Dump (VCD) text.

This project models the text-in/text-out logic of that handler in Dafny and proves what it promises:

- **parseVCD** (`vcd_syntax.dfy`, `vcd.dfy`, `vcd_properties.dfy`, `vcd_examples.dfy`). The reader of the VCD format of section 21.7 of IEEE 1800-2017.
  - `ParseVcd` is the loop of the source: it updates the signal table, the identifier table, the running time and the "inside the definitions" flag, then runs the deleting pass `DropSilent`.
  - `ParseVcd` is proved equal to `Parsed`, which applies `Step` line by line through `Run`.
  - The lemmas in `vcd_properties.dfy` (module VcdProperties) state what `Run` keeps: definitions before data, redeclaration, time stamps, skipped changes, value text and chronological order. `ReportedChronological` carries the last two to the map `Parsed` returns.
  - The three regular expressions of the reader are hand-written matchers with lemmas in both directions.
- **processCode** (`rewrite.dfy`). The source rewriter, at line granularity. Each `.replace` with the `gm` flags and a pattern anchored at both ends is modelled as a map over lines (`ReplaceLines`). The preamble insertion is `InsertPreamble`. `ProcessCode` ties the text to the lines through `split('\n')`/`join`.
- **Staging** (`staging.dfy`). What the staging step does to UVM detection: a marker inside a dump call is detected and then rewritten away.
- **usesUVM / hasClkPort** (`detect.dfy`).
  - Each regular expression is given twice: as a scanner (`...At`) and as the match the regex engine looks for (`...Match`). The lemmas prove that the two agree.
  - The early-exit loops over the files are methods proved equal to the existential predicates.
- **The harness loop that makeMain emits** (`harness.dfy`). The time loop, with the design's `$finish` as an oracle, the 1000000 ceiling and the clock rule.
- **runSimulation** (`pipeline.dfy`).
  - How the sources are chosen, then detected, then rewritten.
  - The compile → build → run short-circuit.
  - The lenient `$finish` success rule.
  - The `errors` field, the 8000-character output cap and the 4 MiB raw-trace cap.
  - Each external command is represented only by what it reported.
- `text.dfy` holds the JavaScript string operations the code relies on: `trim` with JavaScript's whitespace set, `includes`/`test` for a fixed pattern, `split('\n')` and its inverse `join`, and `parseInt` including its `NaN` result.

Behaviour of server.js worth knowing:

- **`processCode` is not idempotent in UVM mode.**
  - A second pass removes the preamble the first pass added and then inserts it again, so each further pass adds empty lines.
  - In the source the emptied preamble leaves one empty line: the import pattern's leading `^\s*` under the `m` flag also swallows the line break of the include line emptied just before. The line model leaves two (see `Rewrite.UvmSecondPass` under Left out).
  - `UvmNotIdempotent` exhibits this and `UvmSecondPass` states exactly what a second pass does.
  - Outside UVM mode the rewrite is idempotent (`NonUvmIdempotent`).
- **Where the preamble goes.** It is placed after the first line that begins with `` `timescale `` and is followed by a line break, wherever that line is, not only when it is the first line.
- **No preamble when `` `timescale `` appears only mid-line.** The placement test looks for `` `timescale `` anywhere, but the insertion only matches it at the start of a line. So text that mentions `` `timescale `` only mid-line, or only on its last line, gets no preamble at all (`NoPreambleWhenMidLine`).
- **Detection does not survive the rewrite.** UVM detection reads the files as submitted, and the rewrite then replaces each lone `$dumpfile` or `$dumpvars` call by a note. A design whose only UVM marker is in a dump call's argument, such as `$dumpfile("uvm_env.vcd");`, is staged in UVM mode with the preamble, yet the staged file holds no marker (`Staging.MarkerLostInStaging`, `Staging.EnvDumpMarked`).
- **No `run` stage.** The answer never carries a `stage` of `run`. A run failure is reported under `done` with `success` false.

## Model

| member | source | states |
|---|---|---|
| Text.Trim | server.js:98 | the trimmed line is empty or starts and ends with a non-whitespace character |
| Text.TrimShape | server.js:98 | trimming removes only a whitespace prefix and a whitespace suffix: the result is a slice of the line with whitespace on both sides |
| Text.TrimPadded | server.js:98 | blanks, then a core whose ends are not blank, then blanks, trim to exactly that core |
| Text.TrimSplits | server.js:98 | a line is a blank prefix, its trimmed text and a blank suffix |
| Text.Contains | server.js:302 | a fixed pattern is found exactly when it occurs at some position of the text |
| Text.SplitLines | server.js:90 | `split('\n')` gives at least one piece, no piece holds a line break, and joining the pieces with line breaks gives the text back |
| Text.SplitJoin | server.js:90 | splitting the join of break-free lines gives those lines back |
| Text.ParseInt | server.js:115 | `parseInt` of a text holding no digit of any radix is `NaN` |
| Text.ParseIntDecimal | server.js:115 | `parseInt` of decimal digits followed by a non-digit is the decimal value of the digits |
| Text.ParseIntSignedDecimal | server.js:115 | after leading whitespace and an optional `-` or `+`, a decimal numeral ending at a non-digit parses to its value, negated after `-` |
| Text.ParseIntSignedHex | server.js:115 | after leading whitespace and an optional sign, `0x` or `0X` followed by hexadecimal digits parses to their base-16 value, negated after `-` |
| VcdSyntax.VarAt | server.js:102 | a `$var` match yields non-blank identifier and name tokens |
| VcdSyntax.MatchVar | server.js:102 | a match is the one at the leftmost position where the pattern matches; no match means no position matches |
| VcdSyntax.VarAtAccepted | server.js:102 | a `$var <kind> <width> <id> <name>` text, with any blank runs and any tail, matches at its start with that decimal width, id and name |
| VcdSyntax.VarAtRead | server.js:102 | a match at a position means the text there is blanks, `$var`, blanks, a kind token, blanks, a decimal width, blanks, the id, blanks, the name, then a blank or the end |
| VcdSyntax.VarAtExactly | server.js:102 | the pattern matches at a position with a given declaration exactly when the text there has that declaration's shape |
| VcdSyntax.MatchVarSound | server.js:102 | a `$var` match on a line means some position, with no match before it, holds text of the declaration's shape |
| VcdSyntax.FindVarLeftmost | server.js:102 | the unanchored `$var` pattern reports its leftmost match, and no match means no position matches |
| VcdSyntax.VarAccepted | server.js:102 | every `$var <kind> <width> <id> <name>` line, with any blank runs, is matched with that decimal width, id and name |
| VcdSyntax.MatchScalar | server.js:118 | a scalar match means the line is one of `01xzXZ` followed by a non-blank identifier, and yields exactly those two parts |
| VcdSyntax.ScalarAccepted | server.js:118 | every value character followed by a non-blank identifier is matched as that change |
| VcdSyntax.MatchVector | server.js:126 | a vector match means the line is `b`, value characters, blanks, and a non-blank identifier, and yields those bits and that id |
| VcdSyntax.VectorAccepted | server.js:126 | every `b<bits><blanks><id>` line is matched with exactly those bits and that id |
| VcdExamples.TwoSignalWaveform | server.js:87-138 | a dump declaring a 1-bit and a vector signal and then two time slots parses to both signals, each with its two changes at the two times |
| Vcd.Record | server.js:117-129 | a change for a declared id appends (running time, value) to that id's signal and leaves every other signal, the id table, the time and the flag unchanged |
| Vcd.Step | server.js:97-130 | only a `$var` line changes the id table or the set of signals; no step drops a signal or an id; a signal's changes are only ever appended to, or cleared together with a redeclaration |
| Vcd.Prune | server.js:133-135 | the pass keeps exactly the signals with at least one change, unaltered |
| Vcd.DropSilent | server.js:133-135 | the deleting loop leaves exactly the pruned map |
| Vcd.Report | server.js:133-137 | `null` exactly when no declared signal recorded a change; otherwise exactly the signals with a change, unaltered |
| Vcd.ParsedFile | server.js:88 | a missing file gives `null` |
| Vcd.ParseVcd | server.js:87-138 | the loop and the deleting pass compute `Parsed`: `Report` of the signal table after all the lines |
| VcdProperties.RunSnoc | server.js:97 | reading one more line is one more loop step |
| VcdProperties.StepInDefs | server.js:111-112 | a step leaves the definitions exactly on the `$enddefinitions $end` line and never re-enters them |
| VcdProperties.InDefinitionsUntilEnd | server.js:95-112 | the reader is inside the definitions exactly until a line trimmed to `$enddefinitions $end` was read |
| VcdProperties.QuietUntilEnd | server.js:94-112 | until that line, the time stays 0 and no signal records a change |
| VcdProperties.IgnoredInDefinitions | server.js:111-112 | inside the definitions, a line that is neither `$var` nor the end marker changes nothing |
| VcdProperties.EndMarkerRead | server.js:111 | the end marker only clears the definitions flag |
| VcdProperties.StampRead | server.js:115 | after the definitions, a `#` line sets the time to `parseInt` of the rest of the line and changes nothing else |
| VcdProperties.StepTime | server.js:115 | only a `#` line read after the definitions sets the time, to `parseInt` of the rest of the line; every other line keeps it |
| VcdProperties.TimeIsLastStamp | server.js:94-115 | the running time is the value of the last `#` line read after the definitions, or 0 |
| VcdProperties.Redeclaration | server.js:101-108 | a `$var` line the pattern matches, wherever it appears, maps its id to its name and resets that signal to its width with no values; other signals are untouched |
| VcdProperties.DeclaredIdsResolve | server.js:101-108 | every identifier in the id table names a signal in the signal table |
| VcdProperties.StepIdsResolve | server.js:101-130 | no step breaks the link from identifiers to signals |
| VcdProperties.ChangeIsNoDirective | server.js:101-126 | a scalar or vector change line is neither a `$var`, the end marker, nor a `#` line |
| VcdProperties.ChangeRecorded | server.js:117-130 | after the definitions, a change line for a declared id appends exactly (last stamp, value) to that id's signal and nothing else |
| VcdProperties.UndeclaredChangeSkipped | server.js:119-129 | a change for an undeclared id changes nothing |
| VcdProperties.UnmatchedLineIgnored | server.js:117-130 | a line matching neither change form is ignored |
| VcdProperties.ValuesAreValueText | server.js:118-129 | every recorded value is a non-empty run of `01xzXZ` |
| VcdProperties.StepInOrder | server.js:115-129 | a step keeps every signal's changes in time order and no later than the running time, when a new stamp does not go back |
| VcdProperties.SignalsChronological | server.js:94-129 | when the file's stamps never go back, every signal's changes are in non-decreasing time order |
| VcdProperties.ReportedChronological | server.js:87-138 | in the waveform parseVCD returns, every signal has at least one change, each with an integer time and value text, in non-decreasing time order when the stamps never go back |
| Rewrite.DumpCallRead | server.js:60-61 | a line a dump pattern accepts is blanks, the task name, blanks, `(`, arguments without `)`, `)`, blanks, `;`, blanks |
| Rewrite.IncludeRead | server.js:65 | a line the include pattern accepts is blanks, the include keyword, a non-empty blank run, `"uvm_macros.svh"`, blanks |
| Rewrite.ImportRead | server.js:66 | a line the import pattern accepts is blanks, `import`, a non-empty blank run, `uvm_pkg`, blanks, `::`, blanks, `*`, blanks, `;`, blanks |
| Rewrite.DumpCallAccepted | server.js:60-61 | a line that is blanks, the task name, blanks, `(`, arguments without `)`, `)`, blanks, `;`, blanks is recognised as that dump call |
| Rewrite.IncludeAccepted | server.js:65 | a line that is only the include of `"uvm_macros.svh"`, with any blanks around it, is recognised |
| Rewrite.ImportAccepted | server.js:66 | a line that is only `import uvm_pkg::*;`, with blanks anywhere the pattern allows them, is recognised |
| Rewrite.PlainByFirst | server.js:60-66 | a line whose trimmed text is empty or starts with neither `$`, `` ` `` nor `i` is touched by no pattern |
| Rewrite.NotesArePlain | server.js:60-61 | the comments that replace the dump calls match no pattern, so they survive the later replacements |
| Rewrite.MacrosIncludeRecognised | server.js:65-68 | the preamble's include line is the line the include pattern removes |
| Rewrite.PkgImportRecognised | server.js:66-68 | the preamble's import line is the line the import pattern removes |
| Rewrite.DumpCallsExclusive | server.js:60-61 | no line is both a `$dumpfile` and a `$dumpvars` call |
| Rewrite.ReplaceAt | server.js:60 | an anchored whole-line replacement turns exactly the matching lines into the replacement and keeps the others |
| Rewrite.CleanLineAt | server.js:59-66 | after the replacements each line matches no pattern; an untouched line is kept, a dump call becomes its comment, a lone include or import becomes empty |
| Rewrite.ModesAgree | server.js:64-78 | both modes strip the include and import lines the same way, whatever the order of the two replacements (line model; see Left out) |
| Rewrite.CleanLinesAppend | server.js:59-66 | the replacements act line by line: cleaning a concatenation is concatenating the cleaned parts |
| Rewrite.CleanLines | server.js:59-66 | the dump and strip replacements act on each line alone, so in the line model the line count is kept (see Left out) |
| Rewrite.InsertPreamble | server.js:68-74 | the result is the lines unchanged, or the two preamble lines inserted at one position |
| Rewrite.PlacedAt | server.js:70-74 | no insertion happens exactly when `` `timescale `` is mentioned but no line before the last begins with it; otherwise the preamble sits right after that line, or in front when there is no mention |
| Rewrite.InsertedLines | server.js:68-74 | every line after the insertion is a line no pattern touches or one of the two preamble lines |
| Rewrite.ProcessLines | server.js:58-79 | the rewritten lines are as many as the input's, or two more in UVM mode; outside UVM mode no pattern touches any of them, in UVM mode only the preamble lines are touched |
| Rewrite.FirstTimescaleLine | server.js:71 | it finds the first line beginning with `` `timescale `` that has a following line, and no earlier such line exists |
| Rewrite.ProcessCode | server.js:58-82 | the lines of the rewritten text are the line-level rewrite of the lines of the input |
| Rewrite.ProcessedUnbroken | server.js:58-82 | the rewritten lines hold no line break, so the line view of the result is exact |
| Rewrite.MentionIsTextual | server.js:70 | the text mentions `` `timescale `` exactly when one of its lines does |
| Rewrite.PreambleAfterTimescale | server.js:70-71 | in UVM mode the preamble goes right after the first cleaned line beginning with `` `timescale `` that is not the last line |
| Rewrite.PreamblePrepended | server.js:70-74 | in UVM mode, text with no `` `timescale `` gets the preamble in front |
| Rewrite.NoPreambleWhenMidLine | server.js:70-71 | text mentioning `` `timescale `` but with no line (other than the last) beginning with it gets no preamble |
| Rewrite.PreambleOnce | server.js:63-74 | in UVM mode the result holds the include and import exactly once each, or neither when the only lines beginning with `` `timescale `` are last lines |
| Rewrite.UvmOnlyAddsPreamble | server.js:63-74 | in UVM mode the result is the cleaned lines, with the two preamble lines inserted at one place or not at all |
| Rewrite.NonUvmStrips | server.js:75-79 | outside UVM mode the result holds no lone include or import line, and in the line model keeps the line count (see Left out) |
| Rewrite.NonUvmIdempotent | server.js:58-82 | outside UVM mode rewriting twice gives the same lines as rewriting once |
| Rewrite.UvmSecondPass | server.js:63-74 | in UVM mode a second pass either changes nothing or strips the added preamble and adds it again at the same place, leaving the emptied lines after it (two in the line model; the source leaves one, see Left out) |
| Rewrite.UvmNotIdempotent | server.js:63-74 | in UVM mode a second pass on `module m;` differs from the first |
| Detect.WordAmongReading | server.js:146 | trying the class names in turn succeeds exactly when one of them occurs there followed by a word boundary |
| Detect.ClassWordAccepted | server.js:146 | any text holding `uvm_` and a class name, then a non-word character or the end, is UVM code |
| Detect.UtilsAccepted | server.js:147 | any text holding `` `uvm_component_utils `` or `` `uvm_object_utils `` is UVM code |
| Detect.ExtendsReading | server.js:148 | the scanner finds `extends`, blanks, `uvm_` exactly where the pattern matches |
| Detect.ExtendsAccepted | server.js:148 | any text holding `extends`, one or more blanks and `uvm_` is UVM code |
| Detect.UsesUvm | server.js:143-151 | the early-exit loop answers true exactly when some file's text holds one of the three UVM markers |
| Detect.LogicReading | server.js:156 | the scanner's reading of the optional `logic` type agrees with the pattern's |
| Detect.InputReading | server.js:156 | the scanner finds `input`, blanks, optional `logic` and blanks, then `clk` exactly where the pattern does |
| Detect.HeaderReading | server.js:156 | a pattern match of `module`, blanks, `tb_top`, blanks, `(` is the one the scanner finds |
| Detect.ClkPortReading | server.js:156 | the scanner finds the clock port exactly where the whole pattern matches |
| Detect.ClosedPortList | server.js:156 | a `)` before any `input` after the header's `(` rules the match out |
| Detect.ClkPortAccepted | server.js:156 | any text holding the `tb_top` header, a port list without `)`, and `input [logic] clk` has a clock port |
| Detect.HasClkPort | server.js:153-159 | the early-exit loop answers true exactly when some file's text has the clock port |
| Harness.StopTime | server.js:183 | the loop stops at the first time from `t` on at which the design has finished, or at the ceiling |
| Harness.StopFrom | server.js:183 | a time with no finish before it, at which the design has finished or the ceiling is reached, is the stop time |
| Harness.RunHarness | server.js:179-188 | the loop dumps at times 0 to the stop time, in order, and drives the clock level for each time 1 to the stop time exactly when a clock port was found |
| Harness.TimesAt | server.js:181-187 | the dump at position `i` is taken at time `i` |
| Harness.ClockTraceAt | server.js:185 | the level driven at the `i`-th step is the clock level at time `i + 1` |
| Harness.ClockPeriod | server.js:185 | the driven clock repeats every ten steps |
| Harness.RisingEdge | server.js:185 | the clock rises exactly at the times that leave 5 after division by ten |
| Harness.FallingEdge | server.js:185 | the clock falls exactly at the positive multiples of ten |
| Harness.RisesCount | server.js:183-185 | up to time `t` the clock has risen `(t + 5) / 10` times |
| Harness.MaxRisingEdges | server.js:183-185 | however long the design runs, it sees at most 100000 rising edges |
| Pipeline.Sources | server.js:216-227 | the submitted files when there are any, otherwise `code` as `design.sv` |
| Pipeline.RewriteAll | server.js:234-235 | every file is rewritten in the chosen mode under its own name |
| Pipeline.Prepare | server.js:203-235 | both tests run on the texts as submitted; the UVM test picks the rewrite mode; the staged files are exactly the sources rewritten in that mode, one per source; the top defaults to `tb_top` |
| Staging.CodeStaged | server.js:216-235 | `code` alone is staged as a single `design.sv`, rewritten in the mode its own text selects |
| Staging.StagedDumpText | server.js:58-74 | in UVM mode a lone `$dumpfile` call becomes the preamble's include and import lines followed by the call's note |
| Staging.StagedDumpUnmarked | server.js:143-151 | that staged text holds none of the three UVM markers |
| Staging.MarkedDumpCall | server.js:143-151 | a one-line `$dumpfile` call whose argument holds `uvm_` and a class name followed by a non-word character is a dump call the rewrite replaces and is UVM code |
| Staging.EnvDumpMarked | server.js:146 | `$dumpfile("uvm_env.vcd");` is such a call |
| Staging.MarkerLostInStaging | server.js:229-235 | a design whose text is such a call is staged in UVM mode, yet its staged file holds no UVM marker |
| Pipeline.PreparedWithoutUvm | server.js:229-235 | outside UVM mode no staged file keeps a lone include or import line |
| Pipeline.PreparedWithUvm | server.js:229-235 | in UVM mode each staged file holds the preamble's include and import once each, or neither in the last-line `` `timescale `` case |
| Pipeline.ErrorText | server.js:273 | a failed step reports its error stream, or its error message when that stream is empty |
| Pipeline.Cap | server.js:305 | the output sent is a prefix of what was printed, all of it up to 8000 characters and exactly 8000 beyond |
| Pipeline.RawTrace | server.js:290-297 | the raw trace is sent exactly when the file exists and is under 4 MiB, and is then the file's text |
| Pipeline.Respond | server.js:202-311 | no source gives the 400 rejection; a finished run is answered exactly when compile and build succeed; a failed step is tagged compile exactly when the compile failed |
| Pipeline.CompileFailureStops | server.js:270-274 | a failed compile answers `compile` with its error text, whatever the build, the run and the trace would have been |
| Pipeline.BuildFailureStops | server.js:278-282 | a failed build answers `build` with its error text, whatever the run and the trace would have been |
| Pipeline.Finish | server.js:286-308 | a finished run is answered `done`; `success` holds exactly when the run did not fail or printed `$finish`, `errors` is then null and otherwise the whole output; `output` is a prefix of at most 8000 characters; with no trace there are no signals and no raw trace |
| Pipeline.SuccessRule | server.js:302-304 | `success` holds exactly when the run did not fail or its output contains `$finish`; `errors` is null exactly then, and otherwise is the whole output |
| Pipeline.OutputCapped | server.js:305 | `output` is a prefix of at most 8000 characters of stdout followed by stderr, and all of it when shorter |
| Pipeline.TraceRules | server.js:287-307 | the raw trace is sent only under 4 MiB, while the signals are parsed from the trace whatever its size, and are null when there is none |
| Pipeline.SignalsNonEmpty | server.js:287-306 | the signal map in the answer is non-empty and every signal in it has at least one change |

## Left out

- The Express app, CORS, the routes and the health handler are HTTP plumbing.
- Tool and UVM discovery through `execSync` and `find` probes the host.
- `uid()` depends on the clock and on a random source. The work directory name is not part of this model.
- The Verilator, `make` and simulation commands, their flags and their timeouts are left out. Each step is given as the outcome it reported (`ExecOutcome`) and the trace as its text and size (`TraceFile`). A timeout is a failed outcome.
- Filesystem operations are left out. File contents and sizes are inputs.
  - Removal of the work directory is not modelled and not claimed.
  - The source does not remove it when staging throws.
- `Pipeline.Sources`: file names are assumed distinct. With two files of the same name the source writes the later text over the earlier and then reads that text twice. Names that escape the work directory are not modelled either.
- `Pipeline.Respond`: request fields are either absent or of the expected type. A `top` of `null`, or a `code` or `files` of another JSON type, is not modelled.
- The C++ text of `makeMain` is left out beyond the loop and the clock rule, because its meaning is in Verilator's runtime.
- `Harness.RunHarness`: `Verilated::gotFinish()` is modelled as a function of the time reached (`finished`), so the design is taken to be deterministic.
- Each JavaScript object used as a dictionary is a Dafny `map`.
  - Key order is not modelled.
  - Inherited prototype keys such as `constructor` are not modelled. They make `idMap[id]` truthy for an undeclared id of that name.
- `Rewrite.ProcessCode`: the rewrite is modelled line by line. The following cross-line matches of the source are not modelled:
  - JavaScript's `^\s*` and `\s*$` under the `m` flag may also match across line breaks: a dump call, include or import preceded or followed by blank lines replaces those lines too.
  - `[^)]*` and `\s*` in the dump patterns span line breaks, so a call written over several lines, such as `$dumpfile(` then `"x.vcd");` on the next line, is replaced by the source and kept by the model.
  - `\s+` and `\s*` in the include and import patterns span line breaks, so an include or import written over several lines is removed by the source and kept by the model.
  - An include line and an import line next to each other collapse into a single empty line in the source: in UVM mode the import pattern's `^\s*` swallows the line break left by the emptied include line, and outside UVM mode the include pattern's `\s*$` swallows the line break left by the emptied import line.
  - `\r`, U+2028 and U+2029 also end a line for `^` and `$`; only `\n` does here.
- `Rewrite.CleanLines`: keeps the line count, which holds for the line model only. The source can lose blank lines through the cross-line matches listed under `Rewrite.ProcessCode`.
- `Rewrite.NonUvmStrips`: the line count is kept in the line model only. In the source, `` `include "uvm_macros.svh"`` then `import uvm_pkg::*;` then `module m;` becomes an empty line then `module m;`: two lines, not three. The non-empty lines of the result are the same in both.
- `Rewrite.ModesAgree`: holds for the line model only. In the source, `import` then `` `include "uvm_macros.svh"`` then `uvm_pkg::*;` (three lines) becomes empty text in UVM mode, where the include goes first and the import pattern then spans the three lines, but `import`, an empty line, `uvm_pkg::*;` outside UVM mode.
- `Rewrite.NonUvmIdempotent`: holds for the line model only. In the source, `import` then `` `include "uvm_macros.svh"`` then `uvm_pkg::*;` (three lines) becomes `import`, an empty line, `uvm_pkg::*;` after one pass, which a second pass removes as a single import spread over three lines.
- `Rewrite.UvmSecondPass`: the model leaves two empty lines where the source leaves one, because the import pattern's `^\s*` swallows the line break of the include line emptied just before it. The source's second pass therefore adds one empty line per pass, the model's two.
- `Pipeline.Cap`: `slice(0, 8000)` counts UTF-16 code units. The model counts characters.
- `Text.ParseInt`: JavaScript numbers lose precision beyond 2^53. The model's integers do not, so very large time stamps and widths are exact here.
- The trace's lines are its text split at `\n`. Decoding the file as UTF-8 is not modelled.
