/** collector/meminfo_numa_linux.go: the per-node meminfo and numastat
    parsers, the node number taken from a node directory's path, the loop
    that gathers the records of every node, and the collector whose Update
    caches one descriptor per metric name. */
module MeminfoNumaLinux {
  import opened Text
  import opened Records
  import opened MeminfoLinux

  const MemInfoNumaSubsystem := "memory_numa"

  /** The literal part of meminfoNodeRE, `.*devices/system/node/node([0-9]*)`. */
  const NodeDirPattern := "devices/system/node/node"

  // ---------------------------------------------------------------------
  // parseMemInfoNuma: lines `Node <id> <key>: <value> [kB]`
  // ---------------------------------------------------------------------

  /** The metric name of a per-node meminfo key: every trailing ':' trimmed,
      then the parenthesised part rewritten. */
  function NumaName(field: string): string {
    Canonicalize(TrimRightChar(field, ':'))
  }

  /** What one iteration of parseMemInfoNuma's loop does with one line. */
  function NumaLine(line: string, parse: string -> Option<real>): Step<MeminfoMetric> {
    var t := TrimSpace(line);
    if t == [] then Skip else NumaFields(Fields(t), t, parse)
  }

  /** The same, for a non-blank trimmed line `t` split into `parts`. The value
      is parsed before the field count is checked; the first field is never looked at. */
  function NumaFields(parts: seq<string>, t: string, parse: string -> Option<real>): Step<MeminfoMetric> {
    if |parts| < 4 then Crash
    else
      match parse(parts[3])
      case None => Stop(InvalidValue("meminfo", parts[3]))
      case Some(fv) =>
        if |parts| == 4 then Emit(MeminfoMetric(NumaName(parts[2]), Gauge, parts[1], fv))
        else if |parts| == 5 && parts[4] == "kB" then Emit(MeminfoMetric(NumaName(parts[2]), Gauge, parts[1], KiBToBytes(fv)))
        else Stop(InvalidLine(t))
  }

  function NumaSteps(lines: seq<string>, parse: string -> Option<real>): (steps: seq<Step<MeminfoMetric>>)
    ensures |steps| == |lines|
  {
    seq(|lines|, i requires 0 <= i < |lines| => NumaLine(lines[i], parse))
  }

  /** What parseMemInfoNuma returns for the lines read and the scanner's final error. */
  function MemInfoNumaSpec(lines: seq<string>, readErr: Option<string>, parse: string -> Option<real>): Result<seq<MeminfoMetric>> {
    Finish(Run(NumaSteps(lines, parse)), readErr)
  }

  /** parseMemInfoNuma. */
  method ParseMemInfoNuma(lines: seq<string>, readErr: Option<string>, parse: string -> Option<real>)
    returns (res: Result<seq<MeminfoMetric>>)
    ensures res == MemInfoNumaSpec(lines, readErr, parse)
  {
    ghost var steps := NumaSteps(lines, parse);
    var memInfo: seq<MeminfoMetric> := [];
    for n := 0 to |lines|
      invariant Run(steps[..n]) == Ok(memInfo)
    {
      var line := TrimSpace(lines[n]);
      if line == [] {
        RunPrefix(steps, n);
        continue;
      }
      var parts := Fields(line);
      assert steps[n] == NumaFields(parts, line, parse);
      if |parts| < 4 {
        RunStopsAt(steps, n);
        return Panic;
      }
      var parsed := parse(parts[3]);
      if parsed.None? {
        RunStopsAt(steps, n);
        return Fail(InvalidValue("meminfo", parts[3]));
      }
      var fv := parsed.value;
      if |parts| == 4 {
      } else if |parts| == 5 && parts[4] == "kB" {
        fv := KiBToBytes(fv);
      } else {
        RunStopsAt(steps, n);
        return Fail(InvalidLine(line));
      }
      var metric := TrimRightChar(parts[2], ':');
      metric := Canonicalize(metric);
      RunPrefix(steps, n);
      memInfo := memInfo + [MeminfoMetric(metric, Gauge, parts[1], fv)];
    }
    assert steps[..|lines|] == steps;
    return Finish(Ok(memInfo), readErr);
  }

  // ---------------------------------------------------------------------
  // parseMemInfoNumaStat: lines `<name> <value>`
  // ---------------------------------------------------------------------

  /** What one iteration of parseMemInfoNumaStat's loop does with one line. */
  function NumaStatLine(line: string, node: string, parse: string -> Option<real>): Step<MeminfoMetric> {
    var t := TrimSpace(line);
    if t == [] then Skip else NumaStatFields(Fields(t), t, node, parse)
  }

  /** The same, for a non-blank trimmed line `t` split into `parts`. */
  function NumaStatFields(parts: seq<string>, t: string, node: string, parse: string -> Option<real>): Step<MeminfoMetric> {
    if |parts| != 2 then Stop(NotTwoFields(t))
    else
      match parse(parts[1])
      case None => Stop(InvalidValue("numastat", parts[1]))
      case Some(fv) => Emit(MeminfoMetric(parts[0] + "_total", Counter, node, fv))
  }

  function NumaStatSteps(lines: seq<string>, node: string, parse: string -> Option<real>): (steps: seq<Step<MeminfoMetric>>)
    ensures |steps| == |lines|
  {
    seq(|lines|, i requires 0 <= i < |lines| => NumaStatLine(lines[i], node, parse))
  }

  /** What parseMemInfoNumaStat returns for the lines read, the scanner's
      final error and the node number. */
  function NumaStatSpec(lines: seq<string>, readErr: Option<string>, node: string, parse: string -> Option<real>): Result<seq<MeminfoMetric>> {
    Finish(Run(NumaStatSteps(lines, node, parse)), readErr)
  }

  /** parseMemInfoNumaStat. */
  method ParseMemInfoNumaStat(lines: seq<string>, readErr: Option<string>, nodeNumber: string, parse: string -> Option<real>)
    returns (res: Result<seq<MeminfoMetric>>)
    ensures res == NumaStatSpec(lines, readErr, nodeNumber, parse)
  {
    ghost var steps := NumaStatSteps(lines, nodeNumber, parse);
    var numaStat: seq<MeminfoMetric> := [];
    for n := 0 to |lines|
      invariant Run(steps[..n]) == Ok(numaStat)
    {
      var line := TrimSpace(lines[n]);
      if line == [] {
        RunPrefix(steps, n);
        continue;
      }
      var parts := Fields(line);
      assert steps[n] == NumaStatFields(parts, line, nodeNumber, parse);
      if |parts| != 2 {
        RunStopsAt(steps, n);
        return Fail(NotTwoFields(line));
      }
      var parsed := parse(parts[1]);
      if parsed.None? {
        RunStopsAt(steps, n);
        return Fail(InvalidValue("numastat", parts[1]));
      }
      RunPrefix(steps, n);
      numaStat := numaStat + [MeminfoMetric(parts[0] + "_total", Counter, nodeNumber, parsed.value)];
    }
    assert steps[..|lines|] == steps;
    return Finish(Ok(numaStat), readErr);
  }

  // ---------------------------------------------------------------------
  // Properties of the two per-node parsers
  // ---------------------------------------------------------------------

  /** A line is skipped exactly when it is empty or all white space. */
  lemma NumaSkipIff(line: string, parse: string -> Option<real>)
    ensures NumaLine(line, parse).Skip? <==> AllSpace(line)
  {
    TrimSpaceEmptyIff(line);
    NumaSkipIffTrimmed(line, parse);
  }

  lemma NumaSkipIffTrimmed(line: string, parse: string -> Option<real>)
    ensures NumaLine(line, parse).Skip? <==> TrimSpace(line) == []
  {
    var t := TrimSpace(line);
    if t != [] {
      NumaFieldsNeverSkips(Fields(t), t, parse);
    }
  }

  lemma NumaFieldsNeverSkips(parts: seq<string>, t: string, parse: string -> Option<real>)
    ensures !NumaFields(parts, t, parse).Skip?
  {
  }

  /** A numastat line is skipped exactly when it is empty or all white space. */
  lemma NumaStatSkipIff(line: string, node: string, parse: string -> Option<real>)
    ensures NumaStatLine(line, node, parse).Skip? <==> AllSpace(line)
  {
    TrimSpaceEmptyIff(line);
    NumaStatSkipIffTrimmed(line, node, parse);
  }

  lemma NumaStatSkipIffTrimmed(line: string, node: string, parse: string -> Option<real>)
    ensures NumaStatLine(line, node, parse).Skip? <==> TrimSpace(line) == []
  {
  }

  /** A non-blank line is handled by its fields, the same fields whether or
      not the line is trimmed first. */
  lemma NumaLineByFields(line: string, parse: string -> Option<real>)
    requires Fields(line) != []
    ensures NumaLine(line, parse) == NumaFields(Fields(line), TrimSpace(line), parse)
  {
    FieldsTrimSpace(line);
  }

  lemma NumaStatLineByFields(line: string, node: string, parse: string -> Option<real>)
    requires Fields(line) != []
    ensures NumaStatLine(line, node, parse) == NumaStatFields(Fields(line), TrimSpace(line), node, parse)
  {
    FieldsTrimSpace(line);
  }

  /** How parseMemInfoNuma treats a line, by its fields: fewer than four
      panics, an unparsable fourth is an invalid value, four fields keep the
      value, five ending in exactly "kB" scale it, and anything else is an
      invalid line. */
  lemma NumaLineCases(line: string, parse: string -> Option<real>)
    ensures var parts := Fields(line);
      && (0 < |parts| < 4 ==> NumaLine(line, parse) == Crash)
      && (|parts| >= 4 && parse(parts[3]).None? ==> NumaLine(line, parse) == Stop(InvalidValue("meminfo", parts[3])))
      && (|parts| == 4 && parse(parts[3]).Some? ==>
            NumaLine(line, parse) == Emit(MeminfoMetric(NumaName(parts[2]), Gauge, parts[1], parse(parts[3]).value)))
      && (|parts| == 5 && parts[4] == "kB" && parse(parts[3]).Some? ==>
            NumaLine(line, parse) == Emit(MeminfoMetric(NumaName(parts[2]), Gauge, parts[1], KiBToBytes(parse(parts[3]).value))))
      && (|parts| >= 5 && !(|parts| == 5 && parts[4] == "kB") && parse(parts[3]).Some? ==>
            NumaLine(line, parse) == Stop(InvalidLine(TrimSpace(line))))
  {
    if Fields(line) != [] {
      NumaLineByFields(line, parse);
    }
  }

  /** How parseMemInfoNumaStat treats a line, by its fields. */
  lemma NumaStatLineCases(line: string, node: string, parse: string -> Option<real>)
    ensures var parts := Fields(line);
      && (0 < |parts| != 2 ==> NumaStatLine(line, node, parse) == Stop(NotTwoFields(TrimSpace(line))))
      && (|parts| == 2 && parse(parts[1]).None? ==> NumaStatLine(line, node, parse) == Stop(InvalidValue("numastat", parts[1])))
      && (|parts| == 2 && parse(parts[1]).Some? ==>
            NumaStatLine(line, node, parse) == Emit(MeminfoMetric(parts[0] + "_total", Counter, node, parse(parts[1]).value)))
  {
    if Fields(line) != [] {
      NumaStatLineByFields(line, node, parse);
    }
  }

  /** Any number of trailing colons is trimmed from a per-node key. */
  lemma NumaNameTrimsEveryColon(w: string, colons: string)
    requires forall i :: 0 <= i < |colons| ==> colons[i] == ':'
    ensures NumaName(w + colons) == NumaName(w)
  {
    TrimRightCharSuffix(w, colons, ':');
  }

  lemma NumaStepsAppend(a: seq<string>, b: seq<string>, parse: string -> Option<real>)
    ensures NumaSteps(a + b, parse) == NumaSteps(a, parse) + NumaSteps(b, parse)
  {
  }

  lemma NumaStatStepsAppend(a: seq<string>, b: seq<string>, node: string, parse: string -> Option<real>)
    ensures NumaStatSteps(a + b, node, parse) == NumaStatSteps(a, node, parse) + NumaStatSteps(b, node, parse)
  {
  }

  /** A blank line anywhere in a node's meminfo file is ignored. */
  lemma MemInfoNumaBlankLine(a: seq<string>, blank: string, b: seq<string>, readErr: Option<string>, parse: string -> Option<real>)
    requires AllSpace(blank)
    ensures MemInfoNumaSpec(a + [blank] + b, readErr, parse) == MemInfoNumaSpec(a + b, readErr, parse)
  {
    NumaSkipIff(blank, parse);
    var sa := NumaSteps(a, parse);
    var sb := NumaSteps(b, parse);
    NumaStepsAppend(a + [blank], b, parse);
    NumaStepsAppend(a, [blank], parse);
    NumaStepsAppend(a, b, parse);
    assert NumaSteps([blank], parse) == [Skip];
    RunSkip(sa, sb);
  }

  /** A blank line anywhere in a numastat file is ignored. */
  lemma NumaStatBlankLine(a: seq<string>, blank: string, b: seq<string>, readErr: Option<string>, node: string, parse: string -> Option<real>)
    requires AllSpace(blank)
    ensures NumaStatSpec(a + [blank] + b, readErr, node, parse) == NumaStatSpec(a + b, readErr, node, parse)
  {
    NumaStatSkipIff(blank, node, parse);
    var sa := NumaStatSteps(a, node, parse);
    var sb := NumaStatSteps(b, node, parse);
    NumaStatStepsAppend(a + [blank], b, node, parse);
    NumaStatStepsAppend(a, [blank], node, parse);
    NumaStatStepsAppend(a, b, node, parse);
    assert NumaStatSteps([blank], node, parse) == [Skip];
    RunSkip(sa, sb);
  }

  /** Without blank lines, a successful parse yields exactly one record per
      line, in line order, duplicates kept. */
  lemma MemInfoNumaOnePerLine(lines: seq<string>, readErr: Option<string>, parse: string -> Option<real>)
    requires forall i :: 0 <= i < |lines| ==> !AllSpace(lines[i])
    requires MemInfoNumaSpec(lines, readErr, parse).Ok?
    ensures |MemInfoNumaSpec(lines, readErr, parse).value| == |lines|
    ensures forall i :: 0 <= i < |lines| ==>
      NumaLine(lines[i], parse).Emit? && MemInfoNumaSpec(lines, readErr, parse).value[i] == NumaLine(lines[i], parse).item
  {
    var steps := NumaSteps(lines, parse);
    assert forall i :: 0 <= i < |lines| ==> steps[i] == NumaLine(lines[i], parse);
    RunOkIff(steps);
    forall i | 0 <= i < |lines| ensures steps[i].Emit? {
      NumaSkipIff(lines[i], parse);
    }
    RunAllEmit(steps);
  }

  /** Without blank lines, a successful numastat parse yields exactly one
      record per line, in line order. */
  lemma NumaStatOnePerLine(lines: seq<string>, readErr: Option<string>, node: string, parse: string -> Option<real>)
    requires forall i :: 0 <= i < |lines| ==> !AllSpace(lines[i])
    requires NumaStatSpec(lines, readErr, node, parse).Ok?
    ensures |NumaStatSpec(lines, readErr, node, parse).value| == |lines|
    ensures forall i :: 0 <= i < |lines| ==>
      NumaStatLine(lines[i], node, parse).Emit? && NumaStatSpec(lines, readErr, node, parse).value[i] == NumaStatLine(lines[i], node, parse).item
  {
    var steps := NumaStatSteps(lines, node, parse);
    assert forall i :: 0 <= i < |lines| ==> steps[i] == NumaStatLine(lines[i], node, parse);
    RunOkIff(steps);
    forall i | 0 <= i < |lines| ensures steps[i].Emit? {
      NumaStatSkipIff(lines[i], node, parse);
    }
    RunAllEmit(steps);
  }

  /** A per-node meminfo parse succeeds exactly when the scanner ended cleanly
      and no non-blank line is malformed. */
  lemma MemInfoNumaOkIff(lines: seq<string>, readErr: Option<string>, parse: string -> Option<real>)
    ensures MemInfoNumaSpec(lines, readErr, parse).Ok? <==>
      readErr.None? && forall i :: 0 <= i < |lines| ==> NumaLine(lines[i], parse).Continues()
  {
    var steps := NumaSteps(lines, parse);
    assert forall i :: 0 <= i < |lines| ==> steps[i] == NumaLine(lines[i], parse);
    RunOkIff(steps);
  }

  /** A numastat parse succeeds exactly when the scanner ended cleanly and
      every non-blank line has two fields and a number as its second. */
  lemma NumaStatOkIff(lines: seq<string>, readErr: Option<string>, node: string, parse: string -> Option<real>)
    ensures NumaStatSpec(lines, readErr, node, parse).Ok? <==>
      readErr.None? && forall i :: 0 <= i < |lines| ==> NumaStatLine(lines[i], node, parse).Continues()
  {
    var steps := NumaStatSteps(lines, node, parse);
    assert forall i :: 0 <= i < |lines| ==> steps[i] == NumaStatLine(lines[i], node, parse);
    RunOkIff(steps);
  }

  /** The first malformed line decides the outcome; nothing parsed before it survives. */
  lemma MemInfoNumaFirstFailure(lines: seq<string>, readErr: Option<string>, parse: string -> Option<real>, i: int)
    requires 0 <= i < |lines|
    requires forall j :: 0 <= j < i ==> NumaLine(lines[j], parse).Continues()
    requires !NumaLine(lines[i], parse).Continues()
    ensures NumaLine(lines[i], parse).Stop? ==> MemInfoNumaSpec(lines, readErr, parse) == Fail(NumaLine(lines[i], parse).error)
    ensures NumaLine(lines[i], parse).Crash? ==> MemInfoNumaSpec(lines, readErr, parse) == Panic
  {
    RunFirstStop(NumaSteps(lines, parse), i);
  }

  /** The first malformed numastat line decides the outcome. */
  lemma NumaStatFirstFailure(lines: seq<string>, readErr: Option<string>, node: string, parse: string -> Option<real>, i: int)
    requires 0 <= i < |lines|
    requires forall j :: 0 <= j < i ==> NumaStatLine(lines[j], node, parse).Continues()
    requires NumaStatLine(lines[i], node, parse).Stop?
    ensures NumaStatSpec(lines, readErr, node, parse) == Fail(NumaStatLine(lines[i], node, parse).error)
  {
    RunFirstStop(NumaStatSteps(lines, node, parse), i);
  }

  /** Every per-node meminfo record is a Gauge, whatever its name. */
  lemma MemInfoNumaAllGauges(lines: seq<string>, readErr: Option<string>, parse: string -> Option<real>)
    ensures MemInfoNumaSpec(lines, readErr, parse).Ok? ==>
      forall k :: 0 <= k < |MemInfoNumaSpec(lines, readErr, parse).value| ==> MemInfoNumaSpec(lines, readErr, parse).value[k].metricType == Gauge
  {
    var steps := NumaSteps(lines, parse);
    RunItemsFromSteps(steps, (m: MeminfoMetric) => m.metricType == Gauge);
  }

  /** Every numastat record is a Counter named `..._total` and labelled with
      the node number it was given. */
  lemma NumaStatAllCounters(lines: seq<string>, readErr: Option<string>, node: string, parse: string -> Option<real>)
    ensures NumaStatSpec(lines, readErr, node, parse).Ok? ==>
      forall k :: 0 <= k < |NumaStatSpec(lines, readErr, node, parse).value| ==> IsStatRecord(NumaStatSpec(lines, readErr, node, parse).value[k], node)
  {
    var steps := NumaStatSteps(lines, node, parse);
    forall i | 0 <= i < |steps| && steps[i].Emit? ensures IsStatRecord(steps[i].item, node) {
      var name := Fields(TrimSpace(lines[i]))[0];
      assert (name + "_total")[|name + "_total"| - 6..] == "_total";
    }
    RunItemsFromSteps(steps, (m: MeminfoMetric) => IsStatRecord(m, node));
  }

  predicate IsStatRecord(m: MeminfoMetric, node: string) {
    m.metricType == Counter && m.numaNode == node && HasSuffix(m.metricName, "_total")
  }

  /** `Node 0 MemFree: 500 kB` gives a Gauge "MemFree" of 512000 for node "0":
      the colon is trimmed, the value scaled, and no "_bytes" is added. */
  lemma NumaLineExampleKb(line: string, parse: string -> Option<real>)
    requires Fields(line) == ["Node", "0", "MemFree:", "500", "kB"] && parse("500") == Some(500.0)
    ensures NumaLine(line, parse) == Emit(MeminfoMetric("MemFree", Gauge, "0", 512000.0))
  {
    var parts := Fields(line);
    NumaLineCases(line, parse);
    MemFreeName(parts[2]);
    assert KiBToBytes(500.0) == 512000.0;
  }

  lemma MemFreeName(k: string)
    requires k == "MemFree:"
    ensures NumaName(k) == "MemFree"
  {
    assert TrimRightChar(k, ':') == "MemFree";
    CanonicalizeNoOpen(TrimRightChar(k, ':'));
  }

  /** A doubled colon: the per-node parser trims both, the flat parser only one. */
  lemma ColonTrimDiffers(flat: string, numa: string, parse: string -> Option<real>)
    requires Fields(flat) == ["MemFree::", "5"] && Fields(numa) == ["Node", "0", "MemFree::", "5"]
    requires parse("5") == Some(5.0)
    ensures FlatLine(flat, parse) == Emit(("MemFree:", 5.0))
    ensures NumaLine(numa, parse) == Emit(MeminfoMetric("MemFree", Gauge, "0", 5.0))
  {
    var parts := Fields(numa);
    NumaLineByFields(numa, parse);
    DoubleColonName(parts[2]);
    FlatKey(Fields(flat)[0]);
  }

  lemma DoubleColonName(k: string)
    requires k == "MemFree::"
    ensures NumaName(k) == "MemFree"
  {
    assert k == k[..7] + k[7..];
    TrimRightCharSuffix(k[..7], k[7..], ':');
    assert TrimRightChar(k[..7], ':') == k[..7];
    assert k[..7] == "MemFree";
    CanonicalizeNoOpen(TrimRightChar(k, ':'));
  }

  lemma FlatKey(k: string)
    requires k == "MemFree::"
    ensures Canonicalize(k[..|k| - 1]) == "MemFree:"
  {
    assert k[..|k| - 1] == "MemFree:";
    CanonicalizeNoOpen(k[..|k| - 1]);
  }

  /** A per-node key that already ends in "_total" is still a Gauge. */
  lemma NumaTotalKeyIsGauge(line: string, parse: string -> Option<real>)
    requires Fields(line) == ["Node", "0", "pgfault_total:", "7"] && parse("7") == Some(7.0)
    ensures NumaLine(line, parse) == Emit(MeminfoMetric("pgfault_total", Gauge, "0", 7.0))
  {
    var parts := Fields(line);
    NumaLineByFields(line, parse);
    assert NumaLine(line, parse) == Emit(MeminfoMetric(NumaName(parts[2]), Gauge, parts[1], 7.0));
    PgfaultName(parts[2]);
  }

  lemma PgfaultName(k: string)
    requires k == "pgfault_total:"
    ensures NumaName(k) == "pgfault_total"
  {
    assert TrimRightChar(k, ':') == "pgfault_total";
    CanonicalizeNoOpen(TrimRightChar(k, ':'));
  }

  /** `numa_hit 42` read for node "1" gives the Counter "numa_hit_total". */
  lemma NumaStatExample(line: string, parse: string -> Option<real>)
    requires Fields(line) == ["numa_hit", "42"] && parse("42") == Some(42.0)
    ensures NumaStatLine(line, "1", parse) == Emit(MeminfoMetric("numa_hit_total", Counter, "1", 42.0))
  {
    var parts := Fields(line);
    NumaStatLineByFields(line, "1", parse);
    TotalName(parts[0]);
  }

  lemma TotalName(k: string)
    requires k == "numa_hit"
    ensures k + "_total" == "numa_hit_total"
  {
  }

  // ---------------------------------------------------------------------
  // meminfoNodeRE: the node number in a node directory's path
  // ---------------------------------------------------------------------

  /** The match within one line: the digits after the last occurrence of the pattern. */
  function NodeIdInLine(s: string): Option<string> {
    var p := LastOccurrence(s, NodeDirPattern);
    if p < 0 then None else Some(DigitRun(s[p + |NodeDirPattern|..]))
  }

  /** FindStringSubmatch(path)[1], or None where it returns nil. `.` does not
      match a newline, so the first line that holds the pattern is the one matched. */
  function NodeId(path: string): Option<string>
    decreases |path|
  {
    var k := FindFirst(path, '\n');
    if k == |path| then NodeIdInLine(path)
    else
      match NodeIdInLine(path[..k])
      case Some(d) => Some(d)
      case None => NodeId(path[k + 1..])
  }

  predicate NoNewline(s: string) {
    forall k :: 0 <= k < |s| ==> s[k] != '\n'
  }

  lemma NoNewlineJoin(a: string, b: string)
    requires NoNewline(a) && NoNewline(b)
    ensures NoNewline(a + b)
  {
    forall k | 0 <= k < |a + b| ensures (a + b)[k] != '\n' {
      if k >= |a| {
        assert (a + b)[k] == b[k - |a|];
      }
    }
  }

  /** `.` does not match a newline: a path of several lines is matched on its
      first line when that line holds the pattern, else on the rest. */
  lemma NodeIdLines(a: string, b: string)
    requires NoNewline(a)
    ensures NodeIdInLine(a).Some? ==> NodeId(a + "\n" + b) == NodeIdInLine(a)
    ensures NodeIdInLine(a).None? ==> NodeId(a + "\n" + b) == NodeId(b)
  {
    var s := a + "\n" + b;
    assert FindFirst(s, '\n') == |a| by {
      assert s[|a|] == '\n';
      assert forall k :: 0 <= k < |a| ==> s[k] == a[k];
    }
    assert s[..|a|] == a;
    assert s[|a| + 1..] == b;
  }

  /** On a one-line path, the match fails exactly when the pattern does not occur. */
  lemma NodeIdNoneIff(path: string)
    requires NoNewline(path)
    ensures NodeId(path).None? <==> forall q :: !OccursAt(path, NodeDirPattern, q)
  {
  }

  /** On a one-line path, the node number is the digit run right after the
      last occurrence of the pattern (possibly empty). */
  lemma NodeIdAt(path: string, p: int)
    requires NoNewline(path)
    requires OccursAt(path, NodeDirPattern, p)
    requires forall q :: p < q ==> !OccursAt(path, NodeDirPattern, q)
    ensures NodeId(path) == Some(DigitRun(path[p + |NodeDirPattern|..]))
  {
    var r := LastOccurrence(path, NodeDirPattern);
    assert r == p;
  }

  /** The pattern cannot occur again after an occurrence that is followed by no '/'. */
  lemma NoLaterOccurrence(path: string, p: int)
    requires OccursAt(path, NodeDirPattern, p)
    requires forall k :: p + |NodeDirPattern| <= k < |path| ==> path[k] != '/'
    ensures forall q :: p < q ==> !OccursAt(path, NodeDirPattern, q)
  {
    var pat := NodeDirPattern;
    assert pat[19] == '/';
    assert pat[20] != '/' && pat[21] != '/' && pat[22] != '/' && pat[23] != '/';
    forall q | p < q && OccursAt(path, pat, q) ensures false {
    }
  }

  /** A path the glob `<prefix>devices/system/node/node[0-9]*` matches: its
      node number is the digit run that starts the last path component after "node". */
  lemma NodeIdOfGlobMatch(prefix: string, d: char, rest: string)
    requires NoNewline(prefix) && IsDigit(d) && NoNewline(rest)
    requires forall k :: 0 <= k < |rest| ==> rest[k] != '/'
    ensures NodeId(prefix + NodeDirPattern + [d] + rest) == Some([d] + DigitRun(rest))
  {
    var pat := NodeDirPattern;
    var tail := [d] + rest;
    var path := prefix + pat + tail;
    assert path == prefix + NodeDirPattern + [d] + rest;
    var p := |prefix|;
    assert path[p..p + 24] == pat;
    assert path[p + 24..] == tail;
    forall k | p + 24 <= k < |path| ensures path[k] != '/' {
      assert path[k] == tail[k - p - 24];
    }
    assert NoNewline(pat);
    NoNewlineJoin(prefix, pat);
    NoNewlineJoin(prefix + pat, tail);
    NoLaterOccurrence(path, p);
    NodeIdAt(path, p);
    assert tail[1..] == rest;
  }

  /** The sysfs directory of node 12, under any one-line root without a '/' after it. */
  lemma NodeIdExample(root: string)
    requires root == "/sys/"
    ensures NodeId(root + NodeDirPattern + "12") == Some("12")
  {
    NodeIdOfGlobMatch(root, '1', "2");
    assert root + NodeDirPattern + "12" == root + NodeDirPattern + ['1'] + "2";
    assert DigitRun("2") == "2" by {
      assert "2"[1..] == [];
    }
    assert ['1'] + "2" == "12";
  }

  // ---------------------------------------------------------------------
  // getMemInfoNuma: one pass over the node directories
  // ---------------------------------------------------------------------

  /** One node directory the glob found: its path and what opening and
      scanning its meminfo and numastat files delivers. */
  datatype NodeInput = NodeInput(path: string, meminfo: Source, numastat: Source)

  /** The records one node contributes, in the order getMemInfoNuma checks
      things: open meminfo, parse it, open numastat, match the path, parse numastat. */
  function NodeRecords(node: NodeInput, parse: string -> Option<real>): Result<seq<MeminfoMetric>> {
    match node.meminfo
    case Unopenable(e) => Fail(OpenFailed(e))
    case Opened(lines, readErr) =>
      match MemInfoNumaSpec(lines, readErr, parse)
      case Fail(e) => Fail(e)
      case Panic => Panic
      case Ok(numaInfo) =>
        match node.numastat
        case Unopenable(e) => Fail(OpenFailed(e))
        case Opened(statLines, statErr) =>
          match NodeId(node.path)
          case None => Fail(NodeMismatch(node.path))
          case Some(id) => Then(Ok(numaInfo), NumaStatSpec(statLines, statErr, id, parse))
  }

  /** The outcome of each node directory, in glob order. */
  function NodeResults(nodes: seq<NodeInput>, parse: string -> Option<real>): (rs: seq<Result<seq<MeminfoMetric>>>)
    ensures |rs| == |nodes|
  {
    seq(|nodes|, i requires 0 <= i < |nodes| => NodeRecords(nodes[i], parse))
  }

  /** What getMemInfoNuma returns for the node directories in glob order:
      the nodes' records one node after another, or the first node's failure. */
  function MemInfoNumaAll(nodes: seq<NodeInput>, parse: string -> Option<real>): Result<seq<MeminfoMetric>> {
    Gather(NodeResults(nodes, parse))
  }

  /** The body of getMemInfoNuma's loop for one node directory: open and
      parse its meminfo file, open its numastat file, take the node number
      from its path and parse the numastat file with it. */
  method ReadNode(node: NodeInput, parse: string -> Option<real>) returns (res: Result<seq<MeminfoMetric>>)
    ensures res == NodeRecords(node, parse)
  {
    if node.meminfo.Unopenable? {
      return Fail(OpenFailed(node.meminfo.reason));
    }
    var numaInfo := ParseMemInfoNuma(node.meminfo.lines, node.meminfo.readErr, parse);
    if !numaInfo.Ok? {
      return numaInfo;
    }
    if node.numastat.Unopenable? {
      return Fail(OpenFailed(node.numastat.reason));
    }
    var nodeNumber := NodeId(node.path);
    if nodeNumber.None? {
      return Fail(NodeMismatch(node.path));
    }
    var numaStat := ParseMemInfoNumaStat(node.numastat.lines, node.numastat.readErr, nodeNumber.value, parse);
    if !numaStat.Ok? {
      return numaStat;
    }
    return Ok(numaInfo.value + numaStat.value);
  }

  /** getMemInfoNuma, over the node directories the glob returned: the
      records of each node appended in turn, nothing at all on a failure. */
  method GetMemInfoNuma(nodes: seq<NodeInput>, parse: string -> Option<real>) returns (res: Result<seq<MeminfoMetric>>)
    ensures res == MemInfoNumaAll(nodes, parse)
  {
    ghost var rs := NodeResults(nodes, parse);
    var metrics: seq<MeminfoMetric> := [];
    for n := 0 to |nodes|
      invariant Gather(rs[..n]) == Ok(metrics)
    {
      GatherPrefix(rs, n);
      var nodeMetrics := ReadNode(nodes[n], parse);
      if !nodeMetrics.Ok? {
        GatherStopsAt(rs, n);
        return nodeMetrics;
      }
      metrics := metrics + nodeMetrics.value;
    }
    assert rs[..|nodes|] == rs;
    return Ok(metrics);
  }

  /** The pass succeeds exactly when every node does. */
  lemma NumaAllOkIff(nodes: seq<NodeInput>, parse: string -> Option<real>)
    ensures MemInfoNumaAll(nodes, parse).Ok? <==> forall i :: 0 <= i < |nodes| ==> NodeRecords(nodes[i], parse).Ok?
  {
    var rs := NodeResults(nodes, parse);
    GatherOkIff(rs);
    assert forall i :: 0 <= i < |nodes| ==> rs[i] == NodeRecords(nodes[i], parse);
  }

  /** The first failing node decides the outcome; no records are returned. */
  lemma NumaAllFirstFailure(nodes: seq<NodeInput>, i: int, parse: string -> Option<real>)
    requires 0 <= i < |nodes|
    requires forall j :: 0 <= j < i ==> NodeRecords(nodes[j], parse).Ok?
    requires !NodeRecords(nodes[i], parse).Ok?
    ensures MemInfoNumaAll(nodes, parse) == NodeRecords(nodes[i], parse)
  {
    var rs := NodeResults(nodes, parse);
    var pre := rs[..i];
    assert forall j :: 0 <= j < |pre| ==> pre[j] == NodeRecords(nodes[j], parse);
    GatherOkIff(pre);
    GatherStopsAt(rs, i);
  }

  /** A successful pass lists each node's records after those of the nodes before it. */
  lemma NumaAllConcat(a: seq<NodeInput>, node: NodeInput, parse: string -> Option<real>)
    requires MemInfoNumaAll(a + [node], parse).Ok?
    ensures MemInfoNumaAll(a, parse).Ok? && NodeRecords(node, parse).Ok?
    ensures MemInfoNumaAll(a + [node], parse).value == MemInfoNumaAll(a, parse).value + NodeRecords(node, parse).value
  {
    assert NodeResults(a + [node], parse) == NodeResults(a, parse) + [NodeRecords(node, parse)];
    GatherSnoc(NodeResults(a, parse), NodeRecords(node, parse));
  }

  /** A node's records are its meminfo Gauges followed by its numastat
      Counters, the Counters all named `..._total` and labelled with the
      number in the node's path. */
  lemma NodeRecordsShape(node: NodeInput, parse: string -> Option<real>)
    requires NodeRecords(node, parse).Ok?
    ensures node.meminfo.Opened? && node.numastat.Opened? && NodeId(node.path).Some?
    ensures MemInfoNumaSpec(node.meminfo.lines, node.meminfo.readErr, parse).Ok?
    ensures var ms := NodeRecords(node, parse).value;
      var k := |MemInfoNumaSpec(node.meminfo.lines, node.meminfo.readErr, parse).value|;
      && k <= |ms|
      && (forall i :: 0 <= i < k ==> ms[i].metricType == Gauge)
      && (forall i :: k <= i < |ms| ==> IsStatRecord(ms[i], NodeId(node.path).value))
  {
    var info := MemInfoNumaSpec(node.meminfo.lines, node.meminfo.readErr, parse);
    var id := NodeId(node.path).value;
    var stat := NumaStatSpec(node.numastat.lines, node.numastat.readErr, id, parse);
    MemInfoNumaAllGauges(node.meminfo.lines, node.meminfo.readErr, parse);
    NumaStatAllCounters(node.numastat.lines, node.numastat.readErr, id, parse);
    var ms := info.value + stat.value;
    assert NodeRecords(node, parse).value == ms;
  }

  /** A node whose meminfo cannot be read or parsed fails the same way whatever
      its numastat file and its path: those are never looked at. */
  lemma NodeMemInfoFirst(node: NodeInput, other: NodeInput, parse: string -> Option<real>)
    requires node.meminfo == other.meminfo
    requires node.meminfo.Unopenable? || !MemInfoNumaSpec(node.meminfo.lines, node.meminfo.readErr, parse).Ok?
    ensures NodeRecords(node, parse) == NodeRecords(other, parse)
    ensures !NodeRecords(node, parse).Ok?
  {
  }

  /** A record that is a Counter is named `..._total`. */
  predicate CounterNamedTotal(m: MeminfoMetric) {
    m.metricType == Counter ==> HasSuffix(m.metricName, "_total")
  }

  /** In a successful pass, every record is a Gauge or a Counter named `..._total`. */
  lemma NumaAllCountersTotal(nodes: seq<NodeInput>, parse: string -> Option<real>)
    requires MemInfoNumaAll(nodes, parse).Ok?
    ensures forall i :: 0 <= i < |MemInfoNumaAll(nodes, parse).value| ==> CounterNamedTotal(MemInfoNumaAll(nodes, parse).value[i])
  {
    var rs := NodeResults(nodes, parse);
    forall i | 0 <= i < |rs| && rs[i].Ok?
      ensures forall k :: 0 <= k < |rs[i].value| ==> CounterNamedTotal(rs[i].value[k])
    {
      NodeRecordsShape(nodes[i], parse);
    }
    GatherItems(rs, CounterNamedTotal);
  }

  // ---------------------------------------------------------------------
  // meminfoNumaCollector
  // ---------------------------------------------------------------------

  /** A descriptor Update creates for a metric name. */
  predicate IsNumaDesc(d: Desc, name: string) {
    && d.subsystem == MemInfoNumaSubsystem
    && d.name == name
    && d.help == "Memory information field " + name + "."
    && d.variableLabels == ["node"]
  }

  /** The metric names of the records, as a set. */
  function Names(ms: seq<MeminfoMetric>): (names: set<string>)
    ensures forall i :: 0 <= i < |ms| ==> ms[i].metricName in names
    decreases |ms|
  {
    if ms == [] then {} else Names(ms[..|ms| - 1]) + {ms[|ms| - 1].metricName}
  }

  /** `m` is the cache `m0` after emitting `out` for the records `ms`: it
      gained exactly their names, kept every entry it had, and each emitted
      metric carries its record's kind, value and node with the cached
      descriptor of its name. */
  ghost predicate Emitted(m0: map<string, Desc>, m: map<string, Desc>, ms: seq<MeminfoMetric>, out: seq<ConstMetric>) {
    && m.Keys == m0.Keys + Names(ms)
    && (forall k :: k in m0 ==> m[k] == m0[k])
    && (forall i :: 0 <= i < |ms| ==> ms[i].metricName in m)
    && |out| == |ms|
    && (forall i :: 0 <= i < |ms| ==>
          out[i] == ConstMetric(m[ms[i].metricName], ms[i].metricType, ms[i].value, [ms[i].numaNode]))
  }

  /** One record more: the cache gets its name's entry, the existing one if
      there is one, and the record is emitted with it. */
  lemma EmittedStep(m0: map<string, Desc>, m: map<string, Desc>, ms: seq<MeminfoMetric>, out: seq<ConstMetric>, v: MeminfoMetric, desc: Desc)
    requires Emitted(m0, m, ms, out)
    requires v.metricName in m ==> desc == m[v.metricName]
    ensures Emitted(m0, m[v.metricName := desc], ms + [v], out + [ConstMetric(desc, v.metricType, v.value, [v.numaNode])])
  {
    var ms', m', out' := ms + [v], m[v.metricName := desc], out + [ConstMetric(desc, v.metricType, v.value, [v.numaNode])];
    NamesSnoc(ms, v);
    assert m'.Keys == m0.Keys + Names(ms');
    forall i | 0 <= i < |ms'|
      ensures ms'[i].metricName in m'
      ensures out'[i] == ConstMetric(m'[ms'[i].metricName], ms'[i].metricType, ms'[i].value, [ms'[i].numaNode])
    {
      if i < |ms| {
        assert ms'[i] == ms[i] && out'[i] == out[i];
      }
    }
  }

  /** The names of one record more. */
  lemma NamesSnoc(ms: seq<MeminfoMetric>, v: MeminfoMetric)
    ensures Names(ms + [v]) == Names(ms) + {v.metricName}
  {
    assert (ms + [v])[..|ms|] == ms;
  }

  /** A name cached before the pass is emitted with the descriptor it already
      had: an entry is never replaced. */
  lemma EmittedKeepsCached(m0: map<string, Desc>, m: map<string, Desc>, ms: seq<MeminfoMetric>, out: seq<ConstMetric>, i: int)
    requires Emitted(m0, m, ms, out)
    requires 0 <= i < |ms| && ms[i].metricName in m0
    ensures out[i].desc == m0[ms[i].metricName]
  {
  }

  /** Records sharing a name are emitted with one and the same descriptor. */
  lemma EmittedSameNameSameDesc(m0: map<string, Desc>, m: map<string, Desc>, ms: seq<MeminfoMetric>, out: seq<ConstMetric>, i: int, j: int)
    requires Emitted(m0, m, ms, out)
    requires 0 <= i < |ms| && 0 <= j < |ms| && ms[i].metricName == ms[j].metricName
    ensures out[i].desc == out[j].desc
  {
  }

  /** meminfoNumaCollector: the descriptor of every metric name seen so far. */
  class MeminfoNumaCollector {
    var metricDescs: map<string, Desc>

    /** Every cached descriptor is the one Update creates for its key. */
    predicate Valid()
      reads this
    {
      forall k :: k in metricDescs ==> IsNumaDesc(metricDescs[k], k)
    }

    /** NewMeminfoNumaCollector: an empty cache. */
    constructor ()
      ensures metricDescs == map[]
      ensures Valid()
    {
      metricDescs := map[];
    }

    /** The descriptor for `name`: the cached one when there is one, otherwise
        a new one, which is cached. An existing entry is never replaced. */
    method DescFor(name: string) returns (desc: Desc)
      requires Valid()
      modifies this
      ensures Valid()
      ensures IsNumaDesc(desc, name)
      ensures metricDescs == old(metricDescs)[name := desc]
      ensures name in old(metricDescs) ==> desc == old(metricDescs)[name]
      ensures name !in old(metricDescs) ==> fresh(desc)
    {
      if name in metricDescs {
        desc := metricDescs[name];
      } else {
        desc := new Desc(MemInfoNumaSubsystem, name, "Memory information field " + name + ".", ["node"]);
        metricDescs := metricDescs[name := desc];
      }
    }

    /** The loop of Update over the gathered records: emit one constant metric
        per record, with the descriptor of its name. */
    method Emit(ms: seq<MeminfoMetric>) returns (out: seq<ConstMetric>)
      requires Valid()
      modifies this
      ensures Valid()
      ensures Emitted(old(metricDescs), metricDescs, ms, out)
      ensures forall k :: k in metricDescs && k !in old(metricDescs) ==> fresh(metricDescs[k])
    {
      out := [];
      for i := 0 to |ms|
        invariant Valid()
        invariant Emitted(old(metricDescs), metricDescs, ms[..i], out)
        invariant forall k :: k in metricDescs && k !in old(metricDescs) ==> fresh(metricDescs[k])
      {
        var v := ms[i];
        ghost var seen := metricDescs;
        var desc := DescFor(v.metricName);
        EmittedStep(old(metricDescs), seen, ms[..i], out, v, desc);
        out := out + [ConstMetric(desc, v.metricType, v.value, [v.numaNode])];
        TakeSnoc(ms, i);
      }
      assert ms[..|ms|] == ms;
    }

    /** Update: gather every node's records, then emit them; a failed pass
        emits nothing and leaves the cache as it was. */
    method Update(nodes: seq<NodeInput>, parse: string -> Option<real>) returns (res: Result<seq<ConstMetric>>)
      requires Valid()
      modifies this
      ensures Valid()
      ensures !MemInfoNumaAll(nodes, parse).Ok? ==> metricDescs == old(metricDescs)
      ensures MemInfoNumaAll(nodes, parse).Fail? ==>
        res == Fail(Wrapped("couldn't get NUMA meminfo", MemInfoNumaAll(nodes, parse).error))
      ensures MemInfoNumaAll(nodes, parse).Panic? ==> res == Panic
      ensures MemInfoNumaAll(nodes, parse).Ok? ==>
        res.Ok? && Emitted(old(metricDescs), metricDescs, MemInfoNumaAll(nodes, parse).value, res.value)
      ensures forall k :: k in metricDescs && k !in old(metricDescs) ==> fresh(metricDescs[k])
    {
      var metrics := GetMemInfoNuma(nodes, parse);
      if metrics.Panic? {
        return Panic;
      }
      if metrics.Fail? {
        return Fail(Wrapped("couldn't get NUMA meminfo", metrics.error));
      }
      var out := Emit(metrics.value);
      return Ok(out);
    }
  }
}
