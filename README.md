# meminfo collectors, modelled in Dafny

This project models the memory collectors of a Prometheus-style node
exporter on Linux:

- `collector/meminfo_linux.go`: `parseMemInfo` reads `/proc/meminfo` line
  by line into a map from key to value. The key is the first field minus its
  last character, with `Active(anon)` rewritten to `Active_anon` by the
  regular expression `\((.*)\)`. A line with a unit is scaled by 1024 and
  its key gets `_bytes`. `getMemInfo` opens the file and parses it.
- `collector/meminfo.go`: `meminfoCollector.Update` turns that map into one
  constant metric per entry, a Counter when the key ends in `_total` and a
  Gauge otherwise.
- `collector/meminfo_numa_linux.go`:
  - `parseMemInfoNuma` reads a node's `meminfo` file (`Node <n> <key>: <value> [kB]`) into Gauge records.
  - `parseMemInfoNumaStat` reads a node's `numastat` file (`<key> <value>`) into Counter records named `<key>_total`.
  - `getMemInfoNuma` walks the node directories, taking each node's number from its path with the regular expression `.*devices/system/node/node([0-9]*)`.
  - `meminfoNumaCollector.Update` emits every record with a descriptor cached per metric name.

Modules, one per source file plus two shared ones:

- `Text` (`text.dfy`): the Go string primitives the parsers use.
  - `strings.Fields` and `strings.TrimSpace`, with `unicode.IsSpace`.
  - `strings.TrimRight` with a one-character cutset, and `strings.HasSuffix`.
  - The index searches behind the two fixed regular expressions.
- `Records` (`records.dfy`): the shared vocabulary.
  - The `meminfoMetric` record and the error values.
  - A call's outcome, `Result`: a value, an error, or a runtime panic (an index out of range).
  - One loop iteration's outcome, `Step`: skip, emit, stop with an error, or crash.
  - `Run`, the outcome of a scanner loop over its steps, and `Gather`, the outcome of a loop that appends one result per item.
  - The Prometheus descriptor, an object, and the constant metric.
- `MeminfoLinux` (`meminfo_linux.dfy`): the rewrite `Canonicalize`, the per-line meaning `FlatLine`, the specification `MemInfoSpec`, and the loop `ParseMemInfo` proved against it.
- `Meminfo` (`meminfo.dfy`): `Update` and its loop `EmitEntries`.
- `MeminfoNumaLinux` (`meminfo_numa_linux.dfy`):
  - the two per-node parsers, each specified by a per-line function and proved as a loop;
  - the node-number match `NodeId`;
  - the walk over nodes `GetMemInfoNuma`, with its per-node body `ReadNode`;
  - the class `MeminfoNumaCollector`, whose field `metricDescs` is the descriptor cache that `Update` extends in place.

Every loop of the source is a `method` with a `for` or `while` loop, whose
`ensures` ties its result to a specification function. The properties the
source relies on are proved as lemmas about those functions.

Number parsing (`strconv.ParseFloat`) is a parameter `parse: string ->
Option<real>`, so every result holds for any number syntax. Reading a file
is the value `Source`: the file cannot be opened, or it was opened and these
lines were read, followed by the scanner's final error if it had one.

## Model

| member | source | states |
|---|---|---|
| Text.Fields | collector/meminfo_linux.go:61 | strings.Fields: the maximal runs of non-white-space characters, in order; every field is non-empty and free of white space. Characterised by FieldsEmptyIff, FieldsSplit, FieldsUnfields and FieldsTrimSpace |
| Text.TrimSpace | collector/meminfo_numa_linux.go:172 | strings.TrimSpace: leading and trailing white space removed. Characterised by TrimLeftSpaceSpec, TrimRightSpaceSpec, TrimSpaceEmptyIff and FieldsTrimSpace |
| Text.TrimLeftSpaceSpec | collector/meminfo_numa_linux.go:172 | the left trim drops a prefix of white space and stops at the first other character |
| Text.TrimRightSpaceSpec | collector/meminfo_numa_linux.go:172 | the right trim drops a suffix of white space and stops at the last other character |
| Text.FieldsEmptyIff | collector/meminfo_linux.go:61-65 | a line splits into no fields exactly when it is all white space, so exactly those lines are skipped |
| Text.FieldsUnfields | collector/meminfo_linux.go:61 | splitting tokens joined by single spaces gives the same tokens back (strings.Fields round trip) |
| Text.FieldsSplit | collector/meminfo_linux.go:61 | splitting at a white space character splits the fields there |
| Text.TrimSpaceEmptyIff | collector/meminfo_numa_linux.go:172-175 | a line trims to "" exactly when it is all white space |
| Text.FieldsTrimSpace | collector/meminfo_numa_linux.go:172-176 | trimming a line before splitting it yields the same fields |
| Text.TrimRightChar | collector/meminfo_numa_linux.go:189 | the result is a prefix of the input, everything after it is the trimmed character, and it does not end in that character |
| Text.TrimRightCharSuffix | collector/meminfo_numa_linux.go:189 | a whole run of trailing colons of any length is removed |
| Text.DigitRun | collector/meminfo_numa_linux.go:43 | `[0-9]*` is greedy: the longest prefix of digits, the next character not a digit |
| Text.LastOccurrence | collector/meminfo_numa_linux.go:43 | the leading `.*` is greedy: the pattern occurs at the returned index and at no later one |
| Records.RunOkIff | collector/meminfo_linux.go:59-86 | a scanner loop succeeds exactly when every line is skipped or emits |
| Records.RunFirstStop | collector/meminfo_linux.go:59-86 | the first line that stops or panics decides the loop's outcome |
| Records.RunSkip | collector/meminfo_linux.go:63-65 | a skipped line changes nothing about the loop's outcome |
| Records.RunAllEmit | collector/meminfo_numa_linux.go:193 | when every line emits, the loop appends one item per line, in line order |
| Records.GatherOkIff | collector/meminfo_numa_linux.go:120-149 | a loop that appends one result per node succeeds exactly when every node does |
| Records.GatherStopsAt | collector/meminfo_numa_linux.go:120-149 | the first failing node's failure is the outcome; nothing gathered before it is returned |
| Records.GatherAppend | collector/meminfo_numa_linux.go:120-149 | gathering over two lists of nodes is gathering over the first, then the second |
| MeminfoLinux.Canonicalize | collector/meminfo_linux.go:73-76 | `reParens.ReplaceAllString(key, "_${1}")` with `\((.*)\)`: in each newline-separated stretch, the first '(' up to the last ')' after it is replaced by '_' and the text between. Characterised by CanonicalizeRewrites, CanonicalizeKeeps, CanonicalizeNoOpen, CanonicalizeLines and CanonicalizeGreedy |
| MeminfoLinux.CanonicalizeRewrites | collector/meminfo_linux.go:76 | with the first '(' before the last ')', the key loses the ')' and its '(' becomes '_': one substitution, one character shorter |
| MeminfoLinux.CanonicalizeKeeps | collector/meminfo_linux.go:76 | a one-line key with no ')' after a '(' is unchanged |
| MeminfoLinux.CanonicalizeNoOpen | collector/meminfo_linux.go:76 | a key without '(' is unchanged, whatever else it holds |
| MeminfoLinux.CanonicalizeLines | collector/meminfo_linux.go:32 | `.` does not match a newline, so the text on each side of one is rewritten on its own |
| MeminfoLinux.CanonicalizeActiveAnon | collector/meminfo_linux.go:73-76 | `Active(anon)` becomes `Active_anon` |
| MeminfoLinux.CanonicalizeGreedy | collector/meminfo_linux.go:32 | `.*` is greedy: `a(b)c(d)` becomes `a_b)c(d` |
| MeminfoLinux.FlatLine | collector/meminfo_linux.go:60-85 | what one iteration does with one line: skip a line without fields, panic on one field, parse the second field, strip the key's last character and rewrite it, keep or scale the value by the field count, or fail. Characterised by FlatSkipIff, FlatTwoFields, FlatThreeFields and FlatBadShapes |
| MeminfoLinux.MemInfoSpec | collector/meminfo_linux.go:51-89 | the outcome of parseMemInfo: the first failing line's error or panic, else the scanner's error, else the map of the emitted entries with later keys overwriting earlier ones. Characterised by MemInfoOkIff, MemInfoFirstFailure, MemInfoLastWins, MemInfoKeys and MemInfoBlankLine |
| MeminfoLinux.FlatSkipIff | collector/meminfo_linux.go:61-65 | a line is skipped exactly when it is all white space |
| MeminfoLinux.MemInfoBlankLine | collector/meminfo_linux.go:62-65 | a blank line anywhere leaves the parse as it is without it |
| MeminfoLinux.FlatTwoFields | collector/meminfo_linux.go:72-78 | any line whose fields are two, whatever white space surrounds them, stores the parsed value under the first field minus its last character (any character; see Left out for non-ASCII), rewritten |
| MeminfoLinux.FlatThreeFields | collector/meminfo_linux.go:79-81 | any line whose fields are three, whatever its third field says, stores 1024 times the value under the key plus `_bytes` |
| MeminfoLinux.FlatTwoFieldsJoined | collector/meminfo_linux.go:72-78 | the two-field case for the tokens joined by one space, through the strings.Fields round trip |
| MeminfoLinux.FlatThreeFieldsJoined | collector/meminfo_linux.go:79-81 | the three-field case for the tokens joined by single spaces |
| MeminfoLinux.FlatBadShapes | collector/meminfo_linux.go:61-83 | one field panics on `parts[1]`; an unparsable value is an invalid-value error before the field count is looked at; four or more fields are an invalid-line error quoting the line |
| MeminfoLinux.MemInfoFirstFailure | collector/meminfo_linux.go:67-83 | the first line that fails decides the outcome, its error or its panic, and no map is returned |
| MeminfoLinux.MemInfoOkIff | collector/meminfo_linux.go:59-88 | the parse succeeds exactly when every line is blank or well formed and the scanner ended without error |
| MeminfoLinux.MemInfoLastWins | collector/meminfo_linux.go:85 | under a key given by several lines, the map keeps the last one's value |
| MeminfoLinux.MemInfoKeys | collector/meminfo_linux.go:72-85 | a key is in the map exactly when some line emitted it |
| MeminfoLinux.MemInfoSingleLine | collector/meminfo_linux.go:51-88 | a single well-formed line gives a one-entry map |
| MeminfoLinux.FieldsOfMemTotalLine | collector/meminfo_linux.go:61 | `MemTotal: 1234` splits into `MemTotal:` and `1234` |
| MeminfoLinux.FlatLineExampleNoUnit | collector/meminfo_linux.go:72-78 | the fields of `MemTotal: 1234` give the entry MemTotal = 1234 |
| MeminfoLinux.FlatLineExampleKb | collector/meminfo_linux.go:72-81 | the fields of `MemTotal: 1234 kB` give MemTotal_bytes = 1263616 |
| MeminfoLinux.FlatLineExampleActiveAnon | collector/meminfo_linux.go:73-81 | the fields of `Active(anon): 42 kB` give Active_anon_bytes = 43008 |
| MeminfoLinux.MemInfoExamples | collector/meminfo_linux.go:51-88 | the whole parse of each of those two one-line inputs |
| MeminfoLinux.ParseMemInfo | collector/meminfo_linux.go:51-89 | the scanner loop returns exactly MemInfoSpec: the map of the emitted entries, or the first failing line's error or panic, or the scanner's error |
| MeminfoLinux.GetMemInfo | collector/meminfo_linux.go:37-47 | an open error is returned as is; otherwise the result is the parse of the file |
| MeminfoLinux.MemInfoOf | collector/meminfo_linux.go:37-47 | the outcome of getMemInfo: the open error, or MemInfoSpec of the opened file |
| Meminfo.EmitEntries | collector/meminfo.go:66-87 | one metric per map entry and no two for the same key, each with the entry's key and value, the Counter kind exactly when the key ends in `_total` (a Gauge otherwise), subsystem `memory`, help `Memory information field <key>.` and no labels |
| Meminfo.Update | collector/meminfo.go:58-89 | a failed getMemInfo is wrapped as "couldn't get meminfo", a panic stays a panic, and a parsed map is emitted entry by entry as above |
| Meminfo.KbEntriesAreGauges | collector/meminfo.go:69-73 | the metric emitted for the key of a line with a unit is a Gauge, since that key ends in `_bytes` |
| Meminfo.TotalKeysAreCounters | collector/meminfo.go:69-70 | the line `pgfault_total: 7` is stored as pgfault_total, and the metric emitted for it is a Counter |
| Meminfo.PgfaultKey | collector/meminfo_linux.go:72-76 | the key of `pgfault_total:` is `pgfault_total`, which ends in `_total` |
| MeminfoNumaLinux.ParseMemInfoNuma | collector/meminfo_numa_linux.go:164-197 | the scanner loop returns exactly MemInfoNumaSpec: the records of the lines in order, or the first failing line's error or panic, or the scanner's error |
| MeminfoNumaLinux.ParseMemInfoNumaStat | collector/meminfo_numa_linux.go:207-231 | the scanner loop returns exactly NumaStatSpec, likewise |
| MeminfoNumaLinux.NumaName | collector/meminfo_numa_linux.go:189-192 | a node meminfo key: every trailing colon trimmed, then the parenthesis rewrite. Characterised by NumaNameTrimsEveryColon and ColonTrimDiffers |
| MeminfoNumaLinux.NumaLine | collector/meminfo_numa_linux.go:172-193 | one iteration of parseMemInfoNuma on one line. Characterised by NumaSkipIff, NumaLineByFields and NumaLineCases |
| MeminfoNumaLinux.NumaStatLine | collector/meminfo_numa_linux.go:214-228 | one iteration of parseMemInfoNumaStat on one line. Characterised by NumaStatSkipIff and NumaStatLineCases |
| MeminfoNumaLinux.MemInfoNumaSpec | collector/meminfo_numa_linux.go:164-197 | the outcome of parseMemInfoNuma: the records of the lines in order, or the first failing line's error or panic, or the scanner's error. Characterised by MemInfoNumaOkIff, MemInfoNumaFirstFailure, MemInfoNumaOnePerLine, MemInfoNumaBlankLine and MemInfoNumaAllGauges |
| MeminfoNumaLinux.NumaStatSpec | collector/meminfo_numa_linux.go:207-231 | the outcome of parseMemInfoNumaStat, likewise. Characterised by NumaStatOkIff, NumaStatFirstFailure, NumaStatOnePerLine, NumaStatBlankLine and NumaStatAllCounters |
| MeminfoNumaLinux.NumaSkipIff | collector/meminfo_numa_linux.go:172-175 | a node meminfo line is skipped exactly when it is all white space |
| MeminfoNumaLinux.NumaStatSkipIff | collector/meminfo_numa_linux.go:214-217 | a numastat line is skipped exactly when it is all white space |
| MeminfoNumaLinux.NumaLineByFields | collector/meminfo_numa_linux.go:172-176 | a non-blank line is handled by its own fields, since trimming does not change them |
| MeminfoNumaLinux.NumaLineCases | collector/meminfo_numa_linux.go:176-193 | one to three fields panic on `parts[3]`; an unparsable value is an invalid-value error; four fields keep the value; five ending in exactly `kB` scale it by 1024; anything else is an invalid line; every record is a Gauge labelled with the second field |
| MeminfoNumaLinux.NumaStatLineCases | collector/meminfo_numa_linux.go:218-228 | other than two fields is a "did not return 2 fields" error, an unparsable value is an invalid-value error, and otherwise a Counter `<key>_total` labelled with the node number |
| MeminfoNumaLinux.NumaNameTrimsEveryColon | collector/meminfo_numa_linux.go:189 | any number of trailing colons is removed from a node meminfo key |
| MeminfoNumaLinux.MemInfoNumaBlankLine | collector/meminfo_numa_linux.go:172-175 | a blank line anywhere in a node meminfo file is ignored |
| MeminfoNumaLinux.NumaStatBlankLine | collector/meminfo_numa_linux.go:214-217 | a blank line anywhere in a numastat file is ignored |
| MeminfoNumaLinux.MemInfoNumaOnePerLine | collector/meminfo_numa_linux.go:171-194 | without blank lines, a successful parse has exactly one record per line, each that line's record |
| MeminfoNumaLinux.NumaStatOnePerLine | collector/meminfo_numa_linux.go:213-229 | the same for numastat |
| MeminfoNumaLinux.MemInfoNumaOkIff | collector/meminfo_numa_linux.go:171-196 | a node meminfo parse succeeds exactly when every line is blank or well formed and the scanner ended cleanly |
| MeminfoNumaLinux.NumaStatOkIff | collector/meminfo_numa_linux.go:213-230 | the same for numastat |
| MeminfoNumaLinux.MemInfoNumaFirstFailure | collector/meminfo_numa_linux.go:178-188 | the first failing line's error or panic is the outcome |
| MeminfoNumaLinux.NumaStatFirstFailure | collector/meminfo_numa_linux.go:219-226 | the first failing numastat line's error is the outcome |
| MeminfoNumaLinux.MemInfoNumaAllGauges | collector/meminfo_numa_linux.go:193 | every node meminfo record is a Gauge, whatever its name |
| MeminfoNumaLinux.NumaStatAllCounters | collector/meminfo_numa_linux.go:228 | every numastat record is a Counter whose name ends in `_total`, labelled with the node number given |
| MeminfoNumaLinux.NumaLineExampleKb | collector/meminfo_numa_linux.go:176-193 | the fields of `Node 0 MemFree: 500 kB` give the Gauge MemFree = 512000 for node 0 |
| MeminfoNumaLinux.ColonTrimDiffers | collector/meminfo_numa_linux.go:189 | `MemFree::` is stored as `MemFree:` by the flat parser but as `MemFree` by the node parser |
| MeminfoNumaLinux.NumaTotalKeyIsGauge | collector/meminfo_numa_linux.go:193 | a node meminfo key ending in `_total` is still a Gauge |
| MeminfoNumaLinux.NumaStatExample | collector/meminfo_numa_linux.go:228 | the fields of `numa_hit 42` read for node 1 give the Counter numa_hit_total = 42 |
| MeminfoNumaLinux.NodeId | collector/meminfo_numa_linux.go:139-142 | `meminfoNodeRE.FindStringSubmatch(node)[1]` for `.*devices/system/node/node([0-9]*)`, or None where it returns nil: on the first line holding the literal, the digit run after its last occurrence. Characterised by NodeIdLines, NodeIdNoneIff, NodeIdAt and NodeIdOfGlobMatch |
| MeminfoNumaLinux.NodeIdLines | collector/meminfo_numa_linux.go:43 | `.` does not match a newline: a path of several lines is matched on its first line when that line holds the literal, otherwise on the lines after it |
| MeminfoNumaLinux.NodeIdNoneIff | collector/meminfo_numa_linux.go:43 | on a one-line path, the match fails exactly when `devices/system/node/node` does not occur |
| MeminfoNumaLinux.NodeIdAt | collector/meminfo_numa_linux.go:43 | the node number is the run of digits right after the last occurrence of the pattern, possibly empty |
| MeminfoNumaLinux.NodeIdOfGlobMatch | collector/meminfo_numa_linux.go:139-144 | every path the glob `devices/system/node/node[0-9]*` returns matches, and its node number is the run of digits after `node` |
| MeminfoNumaLinux.NodeIdExample | collector/meminfo_numa_linux.go:43 | `/sys/devices/system/node/node12` has node number 12 |
| MeminfoNumaLinux.NodeRecords | collector/meminfo_numa_linux.go:121-148 | what one node contributes, checked in source order: open meminfo, parse it, open numastat, match the path, parse numastat. Characterised by NodeRecordsShape and NodeMemInfoFirst |
| MeminfoNumaLinux.MemInfoNumaAll | collector/meminfo_numa_linux.go:111-152 | the outcome of getMemInfoNuma: every node's records in order, or the first failing node's outcome. Characterised by NumaAllOkIff, NumaAllFirstFailure, NumaAllConcat and NumaAllCountersTotal |
| MeminfoNumaLinux.ReadNode | collector/meminfo_numa_linux.go:121-148 | one node's records: the open or parse error of meminfo, then of numastat, or the match failure; otherwise its meminfo records followed by its numastat records |
| MeminfoNumaLinux.GetMemInfoNuma | collector/meminfo_numa_linux.go:111-152 | the loop returns exactly MemInfoNumaAll: every node's records in node order, or the first failing node's error |
| MeminfoNumaLinux.NumaAllOkIff | collector/meminfo_numa_linux.go:120-151 | the pass succeeds exactly when every node does |
| MeminfoNumaLinux.NumaAllFirstFailure | collector/meminfo_numa_linux.go:120-149 | the first failing node decides the outcome, and no records are returned |
| MeminfoNumaLinux.NumaAllConcat | collector/meminfo_numa_linux.go:131-148 | a successful pass lists each node's records after those of the nodes before it |
| MeminfoNumaLinux.NodeRecordsShape | collector/meminfo_numa_linux.go:127-148 | a node's records are its meminfo Gauges, then its numastat Counters named `..._total` and labelled with the number from its path |
| MeminfoNumaLinux.NodeMemInfoFirst | collector/meminfo_numa_linux.go:121-130 | a node whose meminfo cannot be opened or parsed fails the same way whatever its numastat and its path |
| MeminfoNumaLinux.NumaAllCountersTotal | collector/meminfo_numa_linux.go:111-152 | in a successful pass every Counter is named `..._total` |
| MeminfoNumaLinux.EmittedKeepsCached | collector/meminfo_numa_linux.go:91-99 | a name cached before the pass is emitted with the descriptor it already had; an entry is never replaced |
| MeminfoNumaLinux.EmittedSameNameSameDesc | collector/meminfo_numa_linux.go:91-101 | records with the same name are emitted with one and the same descriptor |
| MeminfoNumaLinux.MeminfoNumaCollector.constructor | collector/meminfo_numa_linux.go:74-79 | the collector starts with an empty descriptor cache |
| MeminfoNumaLinux.MeminfoNumaCollector.DescFor | collector/meminfo_numa_linux.go:91-99 | the cached descriptor when there is one; otherwise a new one (subsystem `memory_numa`, the name, help `Memory information field <name>.`, label `node`), which is cached |
| MeminfoNumaLinux.MeminfoNumaCollector.Emit | collector/meminfo_numa_linux.go:89-102 | one metric per record, in order, with its kind, value and node label and the descriptor of its name; the cache gains exactly the new names and keeps every old entry |
| MeminfoNumaLinux.MeminfoNumaCollector.Update | collector/meminfo_numa_linux.go:84-104 | a failed pass is wrapped as "couldn't get NUMA meminfo" and leaves the cache unchanged, a panic stays a panic, and a successful pass is emitted as above |

## Left out

- `collector/meminfo_darwin.go` is not part of this model.
- I/O is left out. Opening and reading files is the value `Source`. The node directories are a parameter, listed in the glob's order. The glob's own error (`meminfo_numa_linux.go:116-119`) is not modelled: with a fixed, well-formed pattern `filepath.Glob` does not return one. `defer Close` and the path prefixes `procFilePath`/`sysFilePath` are not modelled either.
- `strconv.ParseFloat` is the parameter `parse`. Values are `real`, so float64 rounding, infinities and NaN are not modelled. The text of the wrapped ParseFloat error is reduced to the token that failed.
- Error values name their message and its arguments; the formatted strings are not modelled.
- The scanner's line splitting and its 64 KiB token limit are not modelled. An input is its lines plus the scanner's final error.
- Strings are sequences of code points: bytes that are not valid UTF-8 are not modelled.
- FlatLine: `parts[0][:len(parts[0])-1]` drops the last byte of the first field. The model drops its last code point. The two agree when that character is ASCII, as the colon of every /proc/meminfo key is. For a first field ending in a multi-byte character, such as `Memé`, Go keeps that character's leading bytes (`"Mem\xc3"`); the model keeps `Mem`. FlatTwoFields and FlatThreeFields carry the same difference.
- The Prometheus client is not modelled beyond what these collectors use. `NewDesc` creates a new object with fields for subsystem, name, help and labels. `BuildFQName` with the namespace and `MustNewConstMetric`'s own checks are not modelled. Sending on the channel is appending to the returned sequence.
- Logging (`level.Debug`), `init`/`registerCollector` and `NewMeminfoCollector` are left out: they compute nothing the collectors return.
- MemInfoSpec, MemInfoNumaSpec, NumaStatSpec: on a scanner error Go returns the complete map or records together with the error (`return memInfo, scanner.Err()`); the model keeps only the error. Every caller (`collector/meminfo.go:61-64`, `collector/meminfo_numa_linux.go:127-130` and `:144-147`) discards the value when the error is not nil.
- Meminfo.EmitEntries: Go's map iteration order is unspecified, so the loop picks any key not yet visited; the contract fixes what is emitted, not the order.
- A node meminfo key has every trailing colon trimmed (`strings.TrimRight`) and never gets a `_bytes` suffix, even with a `kB` unit. The flat parser instead drops exactly one last character and appends `_bytes`. The model follows the code in both; `ColonTrimDiffers` shows the difference.
