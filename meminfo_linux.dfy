/** collector/meminfo_linux.go: the parenthesis rewrite `reParens` and the
    flat /proc/meminfo parser `parseMemInfo`. */
module MeminfoLinux {
  import opened Text
  import opened Records

  // ---------------------------------------------------------------------
  // reParens.ReplaceAllString(key, "_${1}") with reParens = `\((.*)\)`

  /** The rewrite on a stretch of text without '\n' (where `.` matches
      everything): the leftmost '(' and, `.*` being greedy, the rightmost ')'
      after it delimit the one match; there is no second match after it. */
  function CanonicalizeSegment(s: string): string {
    var i := FindFirst(s, '(');
    var j := FindLast(s, ')');
    if i < j then s[..i] + "_" + s[i + 1..j] + s[j + 1..] else s
  }

  /** The rewrite on any string: `.` does not match '\n', so every
      newline-separated stretch is rewritten on its own. */
  function Canonicalize(key: string): string
    decreases |key|
  {
    var k := FindFirst(key, '\n');
    if k == |key| then CanonicalizeSegment(key)
    else CanonicalizeSegment(key[..k]) + "\n" + Canonicalize(key[k + 1..])
  }

  /** A key whose first '(' comes before its last ')' has the text between
      them kept, the '(' turned into '_' and the ')' dropped: one substitution. */
  lemma CanonicalizeRewrites(s: string, i: int, j: int)
    requires forall k :: 0 <= k < |s| ==> s[k] != '\n'
    requires 0 <= i < j < |s| && s[i] == '(' && s[j] == ')'
    requires forall k :: 0 <= k < i ==> s[k] != '('
    requires forall k :: j < k < |s| ==> s[k] != ')'
    ensures Canonicalize(s) == s[..i] + "_" + s[i + 1..j] + s[j + 1..]
    ensures |Canonicalize(s)| == |s| - 1
  {
    CanonicalizeOneLine(s);
    SegmentRewrites(s, i, j);
  }

  lemma SegmentRewrites(s: string, i: int, j: int)
    requires 0 <= i < j < |s| && s[i] == '(' && s[j] == ')'
    requires forall k :: 0 <= k < i ==> s[k] != '('
    requires forall k :: j < k < |s| ==> s[k] != ')'
    ensures CanonicalizeSegment(s) == s[..i] + "_" + s[i + 1..j] + s[j + 1..]
  {
    assert FindFirst(s, '(') == i;
    assert FindLast(s, ')') == j;
  }

  /** Text without a newline is one segment. */
  lemma CanonicalizeOneLine(s: string)
    requires forall k :: 0 <= k < |s| ==> s[k] != '\n'
    ensures Canonicalize(s) == CanonicalizeSegment(s)
  {
    assert FindFirst(s, '\n') == |s|;
  }

  /** A key with no ')' after any '(' is left as it is. */
  lemma CanonicalizeKeeps(s: string)
    requires forall k :: 0 <= k < |s| ==> s[k] != '\n'
    requires forall i, j :: 0 <= i < j < |s| && s[i] == '(' ==> s[j] != ')'
    ensures Canonicalize(s) == s
  {
    CanonicalizeOneLine(s);
  }

  /** A key with no '(' at all is left as it is, whatever else it holds. */
  lemma {:induction false} CanonicalizeNoOpen(s: string)
    requires forall k :: 0 <= k < |s| ==> s[k] != '('
    ensures Canonicalize(s) == s
    decreases |s|
  {
    var k := FindFirst(s, '\n');
    if k < |s| {
      var line, rest := s[..k], s[k + 1..];
      SegmentNoOpen(line);
      CanonicalizeNoOpen(rest);
      assert Canonicalize(s) == line + [s[k]] + rest;
      SplitAt(s, k);
    } else {
      SegmentNoOpen(s);
    }
  }

  lemma SegmentNoOpen(s: string)
    requires forall k :: 0 <= k < |s| ==> s[k] != '('
    ensures CanonicalizeSegment(s) == s
  {
    assert FindFirst(s, '(') == |s|;
  }

  /** Text on both sides of a newline is rewritten independently. */
  lemma CanonicalizeLines(a: string, b: string)
    requires forall k :: 0 <= k < |a| ==> a[k] != '\n'
    ensures Canonicalize(a + "\n" + b) == Canonicalize(a) + "\n" + Canonicalize(b)
  {
    var s := a + "\n" + b;
    assert FindFirst(s, '\n') == |a| by {
      assert s[|a|] == '\n';
      assert forall k :: 0 <= k < |a| ==> s[k] == a[k];
    }
    assert s[..|a|] == a;
    assert s[|a| + 1..] == b;
    assert FindFirst(a, '\n') == |a|;
  }

  /** The one parenthesised key of /proc/meminfo's kind: "Active(anon)". */
  lemma CanonicalizeActiveAnon(s: string)
    requires s == "Active(anon)"
    ensures Canonicalize(s) == "Active_anon"
  {
    CanonicalizeRewrites(s, 6, 11);
    assert s[..6] == "Active" && s[7..11] == "anon" && s[12..] == [];
  }

  /** Greedy matching: the first '(' pairs with the last ')', so an inner
      ')' and a later '(' survive the rewrite. */
  lemma CanonicalizeGreedy(s: string)
    requires s == "a(b)c(d)"
    ensures Canonicalize(s) == "a_b)c(d"
  {
    CanonicalizeRewrites(s, 1, 7);
    assert s[..1] == "a" && s[2..7] == "b)c(d" && s[8..] == [];
  }

  // ---------------------------------------------------------------------
  // parseMemInfo

  /** What one iteration of parseMemInfo's loop does with `line`: blank lines
      are skipped; one field panics on `parts[1]`; the value is parsed before
      the field count is looked at; the key is the first field minus its last
      character, rewritten; a third field (whatever it says) means kB. */
  function FlatLine(line: string, parse: string -> Option<real>): Step<(string, real)> {
    var parts := Fields(line);
    if |parts| == 0 then Skip
    else if |parts| == 1 then Crash
    else
      match parse(parts[1])
      case None => Stop(InvalidValue("meminfo", parts[1]))
      case Some(fv) =>
        var key := Canonicalize(parts[0][..|parts[0]| - 1]);
        if |parts| == 2 then Emit((key, fv))
        else if |parts| == 3 then Emit((key + "_bytes", KiBToBytes(fv)))
        else Stop(InvalidLine(line))
  }

  function FlatSteps(lines: seq<string>, parse: string -> Option<real>): (steps: seq<Step<(string, real)>>)
    ensures |steps| == |lines|
  {
    seq(|lines|, i requires 0 <= i < |lines| => FlatLine(lines[i], parse))
  }

  /** The map the loop builds from the entries its lines emit, a later entry
      overwriting an earlier one under the same key. */
  function StepsMap(steps: seq<Step<(string, real)>>): map<string, real>
    decreases |steps|
  {
    if steps == [] then map[]
    else
      var m := StepsMap(steps[..|steps| - 1]);
      match steps[|steps| - 1]
      case Emit((k, v)) => m[k := v]
      case _ => m
  }

  /** parseMemInfo over the lines read and the scanner's final error. */
  function MemInfoSpec(lines: seq<string>, readErr: Option<string>, parse: string -> Option<real>): Result<map<string, real>> {
    var steps := FlatSteps(lines, parse);
    match Run(steps)
    case Ok(_) => Finish(Ok(StepsMap(steps)), readErr)
    case Fail(e) => Fail(e)
    case Panic => Panic
  }

  lemma FlatStepsAppend(a: seq<string>, b: seq<string>, parse: string -> Option<real>)
    ensures FlatSteps(a + b, parse) == FlatSteps(a, parse) + FlatSteps(b, parse)
  {
  }

  /** The map holds exactly the keys some line emitted. */
  lemma {:induction false} StepsMapKeys(steps: seq<Step<(string, real)>>, k: string)
    ensures k in StepsMap(steps) <==> exists i :: 0 <= i < |steps| && steps[i].Emit? && steps[i].item.0 == k
    decreases |steps|
  {
    if steps != [] {
      var init := steps[..|steps| - 1];
      StepsMapKeys(init, k);
      assert forall i :: 0 <= i < |init| ==> init[i] == steps[i];
    }
  }

  /** The value under a key is the one from the last line that emitted it. */
  lemma {:induction false} StepsMapLastWins(steps: seq<Step<(string, real)>>, i: int)
    requires 0 <= i < |steps| && steps[i].Emit?
    requires forall j :: i < j < |steps| && steps[j].Emit? ==> steps[j].item.0 != steps[i].item.0
    ensures steps[i].item.0 in StepsMap(steps)
    ensures StepsMap(steps)[steps[i].item.0] == steps[i].item.1
    decreases |steps|
  {
    var init := steps[..|steps| - 1];
    if i < |steps| - 1 {
      assert forall j :: 0 <= j < |init| ==> init[j] == steps[j];
      StepsMapLastWins(init, i);
    }
  }

  /** A line splitting into no fields is one that is all white space, and
      exactly those lines are skipped. */
  lemma FlatSkipIff(line: string, parse: string -> Option<real>)
    ensures FlatLine(line, parse).Skip? <==> AllSpace(line)
  {
    FieldsEmptyIff(line);
  }

  /** Blank lines anywhere leave the result as it is without them. */
  lemma MemInfoBlankLine(a: seq<string>, blank: string, b: seq<string>, readErr: Option<string>, parse: string -> Option<real>)
    requires AllSpace(blank)
    ensures MemInfoSpec(a + [blank] + b, readErr, parse) == MemInfoSpec(a + b, readErr, parse)
  {
    FlatSkipIff(blank, parse);
    var sa, sb := FlatSteps(a, parse), FlatSteps(b, parse);
    FlatStepsAppend(a + [blank], b, parse);
    FlatStepsAppend(a, [blank], parse);
    FlatStepsAppend(a, b, parse);
    var withBlank := sa + [Skip] + sb;
    assert FlatSteps(a + [blank] + b, parse) == withBlank;
    RunAppend(sa + [Skip], sb);
    RunAppend(sa, [Skip]);
    RunAppend(sa, sb);
    var skip: seq<Step<(string, real)>> := [Skip];
    assert Run(skip) == Ok([]) by {
      assert skip[..0] == [];
    }
    match Run(sa) {
      case Ok(x) => assert x + [] == x;
      case Fail(_) =>
      case Panic =>
    }
    StepsMapSkip(sa, sb);
  }

  lemma {:induction false} StepsMapSkip(a: seq<Step<(string, real)>>, b: seq<Step<(string, real)>>)
    ensures StepsMap(a + [Skip] + b) == StepsMap(a + b)
    decreases |b|
  {
    if b == [] {
      assert (a + [Skip] + b)[..|a|] == a;
      assert a + b == a;
    } else {
      var c, d := a + [Skip] + b, a + b;
      assert c[..|c| - 1] == a + [Skip] + b[..|b| - 1];
      assert d[..|d| - 1] == a + b[..|b| - 1];
      StepsMapSkip(a, b[..|b| - 1]);
    }
  }

  /** The first line that fails decides the outcome, its error or its panic;
      no map is returned. */
  lemma MemInfoFirstFailure(lines: seq<string>, readErr: Option<string>, parse: string -> Option<real>, i: int)
    requires 0 <= i < |lines|
    requires forall j :: 0 <= j < i ==> FlatLine(lines[j], parse).Continues()
    requires !FlatLine(lines[i], parse).Continues()
    ensures FlatLine(lines[i], parse).Stop? ==> MemInfoSpec(lines, readErr, parse) == Fail(FlatLine(lines[i], parse).error)
    ensures FlatLine(lines[i], parse).Crash? ==> MemInfoSpec(lines, readErr, parse) == Panic
  {
    RunFirstStop(FlatSteps(lines, parse), i);
  }

  /** The parse succeeds exactly when every line is blank or well formed and
      the scanner did not fail. */
  lemma MemInfoOkIff(lines: seq<string>, readErr: Option<string>, parse: string -> Option<real>)
    ensures MemInfoSpec(lines, readErr, parse).Ok? <==>
      readErr.None? && forall i :: 0 <= i < |lines| ==> FlatLine(lines[i], parse).Continues()
  {
    var steps := FlatSteps(lines, parse);
    RunOkIff(steps);
    assert forall i :: 0 <= i < |lines| ==> steps[i] == FlatLine(lines[i], parse);
  }

  /** When two lines give the same key, the map keeps the later one's value. */
  lemma MemInfoLastWins(lines: seq<string>, readErr: Option<string>, parse: string -> Option<real>, i: int, key: string, v: real)
    requires MemInfoSpec(lines, readErr, parse).Ok?
    requires 0 <= i < |lines| && FlatLine(lines[i], parse) == Emit((key, v))
    requires forall j :: i < j < |lines| && FlatLine(lines[j], parse).Emit? ==> FlatLine(lines[j], parse).item.0 != key
    ensures key in MemInfoSpec(lines, readErr, parse).value
    ensures MemInfoSpec(lines, readErr, parse).value[key] == v
  {
    StepsMapLastWins(FlatSteps(lines, parse), i);
  }

  /** Every key of the map was produced by some line of the input. */
  lemma MemInfoKeys(lines: seq<string>, readErr: Option<string>, parse: string -> Option<real>, key: string)
    requires MemInfoSpec(lines, readErr, parse).Ok?
    ensures key in MemInfoSpec(lines, readErr, parse).value <==>
      exists i :: 0 <= i < |lines| && FlatLine(lines[i], parse).Emit? && FlatLine(lines[i], parse).item.0 == key
  {
    var steps := FlatSteps(lines, parse);
    StepsMapKeys(steps, key);
    assert forall i :: 0 <= i < |lines| ==> steps[i] == FlatLine(lines[i], parse);
  }

  /** The key keeps the first field minus its last character, whatever that
      character is (not only ':'); a two-field line keeps the value. Any
      white space around and between the fields is the same. */
  lemma FlatTwoFields(line: string, name: string, c: char, value: string, parse: string -> Option<real>)
    requires Fields(line) == [name + [c], value] && parse(value).Some?
    ensures FlatLine(line, parse) == Emit((Canonicalize(name), parse(value).value))
  {
    assert (name + [c])[..|name|] == name;
  }

  /** A three-field line multiplies by 1024 and appends "_bytes"; the third
      field is never read. */
  lemma FlatThreeFields(line: string, name: string, c: char, value: string, unit: string, parse: string -> Option<real>)
    requires Fields(line) == [name + [c], value, unit] && parse(value).Some?
    ensures FlatLine(line, parse) == Emit((Canonicalize(name) + "_bytes", KiBToBytes(parse(value).value)))
  {
    assert (name + [c])[..|name|] == name;
  }

  /** The two shapes for the line of exactly those fields, one space apart. */
  lemma FlatTwoFieldsJoined(name: string, c: char, value: string, parse: string -> Option<real>)
    requires IsTokenList([name + [c], value]) && parse(value).Some?
    ensures FlatLine(Unfields([name + [c], value]), parse) == Emit((Canonicalize(name), parse(value).value))
  {
    FieldsUnfields([name + [c], value]);
    FlatTwoFields(Unfields([name + [c], value]), name, c, value, parse);
  }

  lemma FlatThreeFieldsJoined(name: string, c: char, value: string, unit: string, parse: string -> Option<real>)
    requires IsTokenList([name + [c], value, unit]) && parse(value).Some?
    ensures FlatLine(Unfields([name + [c], value, unit]), parse) == Emit((Canonicalize(name) + "_bytes", KiBToBytes(parse(value).value)))
  {
    FieldsUnfields([name + [c], value, unit]);
    FlatThreeFields(Unfields([name + [c], value, unit]), name, c, value, unit, parse);
  }

  /** Four or more fields: an "invalid line" error quoting the line, but only
      once the second field has parsed; otherwise "invalid value". One field
      panics. */
  lemma FlatBadShapes(line: string, parse: string -> Option<real>)
    ensures |Fields(line)| == 1 ==> FlatLine(line, parse) == Crash
    ensures |Fields(line)| >= 2 && parse(Fields(line)[1]).None? ==>
      FlatLine(line, parse) == Stop(InvalidValue("meminfo", Fields(line)[1]))
    ensures |Fields(line)| >= 4 && parse(Fields(line)[1]).Some? ==>
      FlatLine(line, parse) == Stop(InvalidLine(line))
  {
  }

  /** A single well-formed line gives a one-entry map. */
  lemma MemInfoSingleLine(line: string, key: string, v: real, parse: string -> Option<real>)
    requires FlatLine(line, parse) == Emit((key, v))
    ensures MemInfoSpec([line], None, parse) == Ok(map[key := v])
  {
    var steps := FlatSteps([line], parse);
    assert steps == [Emit((key, v))];
    assert steps[..0] == [];
    var none: seq<(string, real)> := [];
    assert none + [(key, v)] == [(key, v)];
    assert Run(steps[..0]) == Ok([]);
    assert Run(steps) == Ok([(key, v)]);
    assert StepsMap(steps[..0]) == map[];
    assert StepsMap(steps) == map[key := v];
    assert Finish(Ok(StepsMap(steps)), None) == Ok(map[key := v]);
  }

  /** `MemTotal: 1234` splits into its two fields. */
  lemma FieldsOfMemTotalLine(line: string)
    requires line == "MemTotal: 1234"
    ensures Fields(line) == ["MemTotal:", "1234"]
  {
    assert NoSpace("MemTotal:") && NoSpace("1234");
    FieldsUnfields(["MemTotal:", "1234"]);
    assert Unfields(["MemTotal:", "1234"]) == line;
  }

  /** A line with the fields of `MemTotal: 1234` is the entry MemTotal = 1234. */
  lemma FlatLineExampleNoUnit(line: string, parse: string -> Option<real>)
    requires Fields(line) == ["MemTotal:", "1234"] && parse("1234") == Some(1234.0)
    ensures FlatLine(line, parse) == Emit(("MemTotal", 1234.0))
  {
    var parts := Fields(line);
    MemTotalKey(parts[0]);
  }

  /** A line with the fields of `MemTotal: 1234 kB` is MemTotal_bytes = 1234 * 1024. */
  lemma FlatLineExampleKb(line: string, parse: string -> Option<real>)
    requires Fields(line) == ["MemTotal:", "1234", "kB"] && parse("1234") == Some(1234.0)
    ensures FlatLine(line, parse) == Emit(("MemTotal_bytes", 1263616.0))
  {
    var parts := Fields(line);
    MemTotalKey(parts[0]);
    var key := Canonicalize(parts[0][..|parts[0]| - 1]) + "_bytes";
    assert key == "MemTotal_bytes";
    assert KiBToBytes(1234.0) == 1263616.0;
    assert FlatLine(line, parse) == Emit((key, KiBToBytes(1234.0)));
  }

  /** The key of a `MemTotal:` line. */
  lemma MemTotalKey(k: string)
    requires k == "MemTotal:"
    ensures Canonicalize(k[..|k| - 1]) == "MemTotal"
    ensures Canonicalize(k[..|k| - 1]) + "_bytes" == "MemTotal_bytes"
  {
    assert k[..|k| - 1] == "MemTotal";
    CanonicalizeNoOpen(k[..|k| - 1]);
  }

  /** A line with the fields of `Active(anon): 42 kB` is Active_anon_bytes = 42 * 1024. */
  lemma FlatLineExampleActiveAnon(line: string, parse: string -> Option<real>)
    requires Fields(line) == ["Active(anon):", "42", "kB"] && parse("42") == Some(42.0)
    ensures FlatLine(line, parse) == Emit(("Active_anon_bytes", 43008.0))
  {
    ActiveAnonKey(Fields(line)[0]);
  }

  /** The key a three-field `Active(anon):` line is stored under. */
  lemma ActiveAnonKey(k: string)
    requires k == "Active(anon):"
    ensures Canonicalize(k[..|k| - 1]) + "_bytes" == "Active_anon_bytes"
  {
    assert k[..12] == "Active(anon)";
    CanonicalizeActiveAnon(k[..12]);
    assert "Active_anon" + "_bytes" == "Active_anon_bytes";
  }

  /** The whole parse of the one line `MemTotal: 1234` and of `MemTotal: 1234 kB`. */
  lemma MemInfoExamples(noUnit: string, kb: string, parse: string -> Option<real>)
    requires Fields(noUnit) == ["MemTotal:", "1234"] && Fields(kb) == ["MemTotal:", "1234", "kB"]
    requires parse("1234") == Some(1234.0)
    ensures MemInfoSpec([noUnit], None, parse) == Ok(map["MemTotal" := 1234.0])
    ensures MemInfoSpec([kb], None, parse) == Ok(map["MemTotal_bytes" := 1263616.0])
  {
    FlatLineExampleNoUnit(noUnit, parse);
    MemInfoSingleLine(noUnit, "MemTotal", 1234.0, parse);
    FlatLineExampleKb(kb, parse);
    MemInfoSingleLine(kb, "MemTotal_bytes", 1263616.0, parse);
  }

  /** One line more: a skipped line leaves the map as it is, an emitted
      entry is stored under its key. */
  lemma StepsMapPrefix(steps: seq<Step<(string, real)>>, n: int)
    requires 0 <= n < |steps|
    ensures steps[n].Skip? ==> StepsMap(steps[..n + 1]) == StepsMap(steps[..n])
    ensures steps[n].Emit? ==> StepsMap(steps[..n + 1]) == StepsMap(steps[..n])[steps[n].item.0 := steps[n].item.1]
  {
    assert steps[..n + 1][..n] == steps[..n];
  }

  /** parseMemInfo: the scanner loop, filling the map line by line. */
  method ParseMemInfo(lines: seq<string>, readErr: Option<string>, parse: string -> Option<real>)
    returns (res: Result<map<string, real>>)
    ensures res == MemInfoSpec(lines, readErr, parse)
  {
    ghost var steps := FlatSteps(lines, parse);
    var memInfo: map<string, real> := map[];
    for n := 0 to |lines|
      invariant Run(steps[..n]).Ok?
      invariant memInfo == StepsMap(steps[..n])
    {
      var line := lines[n];
      var parts := Fields(line);
      assert steps[n] == FlatLine(line, parse);
      if |parts| == 0 {
        RunPrefix(steps, n);
        StepsMapPrefix(steps, n);
        continue;
      }
      if |parts| < 2 {
        RunStopsAt(steps, n);
        return Panic;
      }
      var parsed := parse(parts[1]);
      if parsed.None? {
        RunStopsAt(steps, n);
        return Fail(InvalidValue("meminfo", parts[1]));
      }
      var fv := parsed.value;
      var key := parts[0][..|parts[0]| - 1];
      key := Canonicalize(key);
      if |parts| == 2 {
      } else if |parts| == 3 {
        fv := KiBToBytes(fv);
        key := key + "_bytes";
      } else {
        RunStopsAt(steps, n);
        return Fail(InvalidLine(line));
      }
      RunPrefix(steps, n);
      StepsMapPrefix(steps, n);
      memInfo := memInfo[key := fv];
    }
    assert steps[..|lines|] == steps;
    return Finish(Ok(memInfo), readErr);
  }

  // ---------------------------------------------------------------------
  // getMemInfo

  /** What getMemInfo returns for /proc/meminfo: the open error, or what
      parseMemInfo makes of the opened file. */
  function MemInfoOf(src: Source, parse: string -> Option<real>): Result<map<string, real>> {
    match src
    case Unopenable(e) => Fail(OpenFailed(e))
    case Opened(lines, readErr) => MemInfoSpec(lines, readErr, parse)
  }

  /** getMemInfo: open the file, then parse it. */
  method GetMemInfo(src: Source, parse: string -> Option<real>) returns (res: Result<map<string, real>>)
    ensures res == MemInfoOf(src, parse)
  {
    if src.Unopenable? {
      return Fail(OpenFailed(src.reason));
    }
    res := ParseMemInfo(src.lines, src.readErr, parse);
  }
}
