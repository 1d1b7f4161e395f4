/** collector/meminfo.go: meminfoCollector.Update, which turns the map
    parseMemInfo returns into one constant metric per entry, a Counter when
    the key ends in "_total" and a Gauge otherwise. */
module Meminfo {
  import opened Text
  import opened Records
  import opened MeminfoLinux

  const MemInfoSubsystem := "memory"

  /** `out` holds one metric per entry of `m`, each carrying its key, its
      value unchanged, and the Counter kind exactly when the key ends in
      "_total" (a Gauge otherwise). */
  predicate EmitsEachEntry(m: map<string, real>, out: seq<ConstMetric>) {
    && |out| == |m|
    && (forall i :: 0 <= i < |out| ==> IsEntryMetric(m, out[i]))
    && (forall k :: k in m ==> exists i :: 0 <= i < |out| && out[i].desc.name == k)
    && (forall i, j :: 0 <= i < j < |out| ==> out[i].desc.name != out[j].desc.name)
  }

  predicate IsEntryMetric(m: map<string, real>, c: ConstMetric) {
    && c.desc.name in m
    && c.value == m[c.desc.name]
    && (c.valueType == Counter <==> HasSuffix(c.desc.name, "_total"))
    && c.labelValues == []
    && c.desc.subsystem == MemInfoSubsystem
    && c.desc.help == "Memory information field " + c.desc.name + "."
    && c.desc.variableLabels == []
  }

  /** meminfoCollector.Update over the /proc/meminfo file `src`. */
  method Update(src: Source, parse: string -> Option<real>) returns (res: Result<seq<ConstMetric>>)
    ensures MemInfoOf(src, parse).Fail? ==> res == Fail(Wrapped("couldn't get meminfo", MemInfoOf(src, parse).error))
    ensures MemInfoOf(src, parse).Panic? ==> res == Panic
    ensures MemInfoOf(src, parse).Ok? ==> res.Ok? && EmitsEachEntry(MemInfoOf(src, parse).value, res.value)
  {
    var memInfo := GetMemInfo(src, parse);
    if memInfo.Panic? {
      return Panic;
    }
    if memInfo.Fail? {
      return Fail(Wrapped("couldn't get meminfo", memInfo.error));
    }
    var out := EmitEntries(memInfo.value);
    return Ok(out);
  }

  /** The loop of Update: one constant metric per entry of the map, visited
      in no particular order, as Go's range over a map is. */
  method EmitEntries(m: map<string, real>) returns (out: seq<ConstMetric>)
    ensures EmitsEachEntry(m, out)
  {
    out := [];
    var todo := m.Keys;
    var metricType: ValueType;
    while todo != {}
      invariant todo <= m.Keys
      invariant |out| + |todo| == |m|
      invariant forall i :: 0 <= i < |out| ==> IsEntryMetric(m, out[i]) && out[i].desc.name !in todo
      invariant forall k :: k in m && k !in todo ==> exists i :: 0 <= i < |out| && out[i].desc.name == k
      invariant forall i, j :: 0 <= i < j < |out| ==> out[i].desc.name != out[j].desc.name
      decreases todo
    {
      var k :| k in todo;
      if HasSuffix(k, "_total") {
        metricType := Counter;
      } else {
        metricType := Gauge;
      }
      var desc := new Desc(MemInfoSubsystem, k, "Memory information field " + k + ".", []);
      ghost var before := out;
      out := out + [ConstMetric(desc, metricType, m[k], [])];
      assert forall i :: 0 <= i < |before| ==> out[i] == before[i];
      assert out[|before|].desc.name == k;
      todo := todo - {k};
    }
  }

  /** A key stored for a three-field line ends in "_bytes", so the metric
      emitted for it is a Gauge. */
  lemma KbEntriesAreGauges(line: string, parse: string -> Option<real>, m: map<string, real>, c: ConstMetric)
    requires |Fields(line)| == 3 && FlatLine(line, parse).Emit?
    requires IsEntryMetric(m, c) && c.desc.name == FlatLine(line, parse).item.0
    ensures c.valueType == Gauge
  {
    var key := FlatLine(line, parse).item.0;
    assert key[|key| - 6..] == "_bytes";
  }

  /** A two-field line whose key already ends in "_total" is emitted as a Counter. */
  lemma TotalKeysAreCounters(line: string, parse: string -> Option<real>, m: map<string, real>, c: ConstMetric)
    requires Fields(line) == ["pgfault_total:", "7"] && parse("7") == Some(7.0)
    requires IsEntryMetric(m, c) && c.desc.name == FlatLine(line, parse).item.0
    ensures FlatLine(line, parse) == Emit(("pgfault_total", 7.0))
    ensures c.valueType == Counter
  {
    var parts := Fields(line);
    PgfaultKey(parts[0]);
  }

  lemma PgfaultKey(k: string)
    requires k == "pgfault_total:"
    ensures Canonicalize(k[..|k| - 1]) == "pgfault_total"
    ensures HasSuffix("pgfault_total", "_total")
  {
    assert k[..|k| - 1] == "pgfault_total";
    CanonicalizeNoOpen(k[..|k| - 1]);
    assert "pgfault_total"[7..] == "_total";
  }
}
