/** Shared vocabulary of the meminfo collectors: the record a parser produces,
    the errors a collection pass can end with, the per-line outcome of a
    scanner loop, and the metric descriptor of the Prometheus client. */
module Records {

  datatype Option<T> = None | Some(value: T)

  /** prometheus.ValueType, restricted to the two kinds these collectors use. */
  datatype ValueType = Gauge | Counter

  /** meminfoMetric (collector/meminfo_numa_linux.go). */
  datatype MeminfoMetric = MeminfoMetric(metricName: string, metricType: ValueType, numaNode: string, value: real)

  /** A value read in kB, as bytes: both parsers multiply by 1024. */
  function KiBToBytes(v: real): real {
    v * 1024.0
  }

  /** The errors a parser or a collection pass returns. */
  datatype Error =
    | InvalidValue(file: string, token: string)   // "invalid value in <file>: ..." (wraps the ParseFloat error on `token`)
    | InvalidLine(line: string)                   // "invalid line in meminfo: <line>"
    | NotTwoFields(line: string)                  // "line scan did not return 2 fields: <line>"
    | NodeMismatch(path: string)                  // "device node string didn't match regexp: <path>"
    | OpenFailed(reason: string)                  // os.Open failed
    | ReadFailed(reason: string)                  // the scanner ended with an error
    | Wrapped(context: string, cause: Error)      // fmt.Errorf("<context>: %w", cause)

  /** What a call ends with: a value, a returned error, or a runtime panic
      (an index out of range), which is not an error value at all. */
  datatype Result<T> = Ok(value: T) | Fail(error: Error) | Panic

  /** A line-oriented input as the scanner delivers it: the lines read, and
      the error (if any) that stopped the scanner after them. */
  datatype Source = Unopenable(reason: string) | Opened(lines: seq<string>, readErr: Option<string>)

  /** What one iteration of a scanner loop does with one line. */
  datatype Step<T> = Skip | Emit(item: T) | Stop(error: Error) | Crash {
    predicate Continues() { Skip? || Emit? }
  }

  /** The outcome of a scanner loop whose iterations do `steps`: the emitted
      items in order, or the first line's error or panic. */
  function Run<T>(steps: seq<Step<T>>): Result<seq<T>>
    decreases |steps|
  {
    if steps == [] then Ok([])
    else
      match Run(steps[..|steps| - 1])
      case Ok(items) =>
        (match steps[|steps| - 1]
         case Skip => Ok(items)
         case Emit(x) => Ok(items + [x])
         case Stop(e) => Fail(e)
         case Crash => Panic)
      case Fail(e) => Fail(e)
      case Panic => Panic
  }

  /** How two consecutive runs combine: the second starts only if the first succeeded. */
  function Then<T>(first: Result<seq<T>>, second: Result<seq<T>>): Result<seq<T>> {
    match first
    case Ok(a) => (match second case Ok(b) => Ok(a + b) case Fail(e) => Fail(e) case Panic => Panic)
    case Fail(e) => Fail(e)
    case Panic => Panic
  }

  /** `return memInfo, scanner.Err()`: a scanner error replaces a complete result. */
  function Finish<T>(r: Result<T>, readErr: Option<string>): (f: Result<T>)
    // success needs both a complete loop and a clean scanner, and keeps the loop's value
    ensures f.Ok? <==> r.Ok? && readErr.None?
    ensures f.Ok? ==> f == r
    // a line's own error or panic comes first; the scanner's error is reported only after a complete loop
    ensures !r.Ok? ==> f == r
    ensures r.Ok? && !f.Ok? ==> f.Fail? && f.error.ReadFailed?
  {
    if r.Ok? && readErr.Some? then Fail(ReadFailed(readErr.value)) else r
  }

  /** A scanner loop over `a + b` is the loop over `a` followed by the loop over `b`. */
  lemma {:induction false} RunAppend<T>(a: seq<Step<T>>, b: seq<Step<T>>)
    ensures Run(a + b) == Then(Run(a), Run(b))
    decreases |b|
  {
    if b == [] {
      assert a + b == a;
      match Run(a) {
        case Ok(x) => assert x + [] == x;
        case Fail(_) =>
        case Panic =>
      }
    } else {
      var c := a + b;
      assert c[..|c| - 1] == a + b[..|b| - 1];
      assert c[|c| - 1] == b[|b| - 1];
      RunAppend(a, b[..|b| - 1]);
      match Run(a) {
        case Ok(x) =>
          match Run(b[..|b| - 1]) {
            case Ok(y) =>
              match b[|b| - 1] {
                case Skip =>
                case Emit(z) => assert x + (y + [z]) == x + y + [z];
                case Stop(_) =>
                case Crash =>
              }
            case Fail(_) =>
            case Panic =>
          }
        case Fail(_) =>
        case Panic =>
      }
    }
  }

  /** A skipped line is invisible: removing it changes nothing. */
  lemma RunSkip<T>(a: seq<Step<T>>, b: seq<Step<T>>)
    ensures Run(a + [Skip] + b) == Run(a + b)
  {
    var skip: seq<Step<T>> := [Skip];
    RunAppend(a + skip, b);
    RunAppend(a, skip);
    RunAppend(a, b);
    assert skip[..0] == [];
    match Run(a) {
      case Ok(x) => assert x + [] == x;
      case Fail(_) =>
      case Panic =>
    }
  }

  /** Sequencing three runs does not depend on how they are grouped. */
  lemma ThenAssoc<T>(x: Result<seq<T>>, y: Result<seq<T>>, z: Result<seq<T>>)
    ensures Then(Then(x, y), z) == Then(x, Then(y, z))
  {
    if x.Ok? && y.Ok? && z.Ok? {
      assert x.value + y.value + z.value == x.value + (y.value + z.value);
    }
  }

  /** A loop succeeds exactly when no line stops it. */
  lemma {:induction false} RunOkIff<T>(steps: seq<Step<T>>)
    ensures Run(steps).Ok? <==> forall i :: 0 <= i < |steps| ==> steps[i].Continues()
    decreases |steps|
  {
    if steps != [] {
      var init := steps[..|steps| - 1];
      RunOkIff(init);
      assert forall i :: 0 <= i < |init| ==> init[i] == steps[i];
    }
  }

  /** The first line that stops the loop decides the outcome; later lines do not matter. */
  lemma RunFirstStop<T>(steps: seq<Step<T>>, i: int)
    requires 0 <= i < |steps|
    requires forall j :: 0 <= j < i ==> steps[j].Continues()
    requires !steps[i].Continues()
    ensures steps[i].Stop? ==> Run(steps) == Fail(steps[i].error)
    ensures steps[i].Crash? ==> Run(steps) == Panic
  {
    var pre := steps[..i];
    assert forall j :: 0 <= j < |pre| ==> pre[j] == steps[j];
    RunOkIff(pre);
    assert steps == pre + ([steps[i]] + steps[i + 1..]);
    RunAppend(pre, [steps[i]] + steps[i + 1..]);
    RunAppend([steps[i]], steps[i + 1..]);
    assert [steps[i]][..0] == [];
  }

  /** One iteration more of a loop that has gone through so far: a skipped
      line leaves the items as they are, an emitting one appends its item. */
  lemma RunPrefix<T>(steps: seq<Step<T>>, n: int)
    requires 0 <= n < |steps| && Run(steps[..n]).Ok?
    ensures steps[n].Skip? ==> Run(steps[..n + 1]) == Run(steps[..n])
    ensures steps[n].Emit? ==> Run(steps[..n + 1]) == Ok(Run(steps[..n]).value + [steps[n].item])
  {
    assert steps[..n + 1][..n] == steps[..n];
  }

  /** A loop that got through the lines before `n` and stops at line `n`
      ends with that line's error or panic: RunFirstStop in the form a loop
      invariant provides (the prefix ran through) rather than line by line. */
  lemma RunStopsAt<T>(steps: seq<Step<T>>, n: int)
    requires 0 <= n < |steps|
    requires Run(steps[..n]).Ok?
    requires !steps[n].Continues()
    ensures steps[n].Stop? ==> Run(steps) == Fail(steps[n].error)
    ensures steps[n].Crash? ==> Run(steps) == Panic
  {
    var pre := steps[..n];
    RunOkIff(pre);
    assert forall j :: 0 <= j < n ==> steps[j] == pre[j];
    RunFirstStop(steps, n);
  }

  /** When every line emits, the loop emits one item per line, in line order. */
  lemma {:induction false} RunAllEmit<T>(steps: seq<Step<T>>)
    requires forall i :: 0 <= i < |steps| ==> steps[i].Emit?
    ensures Run(steps).Ok?
    ensures |Run(steps).value| == |steps|
    ensures forall i :: 0 <= i < |steps| ==> Run(steps).value[i] == steps[i].item
    decreases |steps|
  {
    if steps != [] {
      var init := steps[..|steps| - 1];
      assert forall i :: 0 <= i < |init| ==> init[i] == steps[i];
      RunAllEmit(init);
    }
  }

  /** Whatever a successful loop emits was emitted by one of its lines. */
  lemma {:induction false} RunItemsFromSteps<T>(steps: seq<Step<T>>, P: T -> bool)
    requires forall i :: 0 <= i < |steps| && steps[i].Emit? ==> P(steps[i].item)
    ensures Run(steps).Ok? ==> forall k :: 0 <= k < |Run(steps).value| ==> P(Run(steps).value[k])
    decreases |steps|
  {
    if steps != [] {
      var init := steps[..|steps| - 1];
      assert forall i :: 0 <= i < |init| ==> init[i] == steps[i];
      RunItemsFromSteps(init, P);
    }
  }

  /** Several runs in turn, each starting only if those before it succeeded:
      their items concatenated in order, or the first run's error or panic. */
  function Gather<T>(rs: seq<Result<seq<T>>>): Result<seq<T>>
    decreases |rs|
  {
    if rs == [] then Ok([]) else Then(Gather(rs[..|rs| - 1]), rs[|rs| - 1])
  }

  /** Gathering `a + b` is gathering `a`, then gathering `b`. */
  lemma {:induction false} GatherAppend<T>(a: seq<Result<seq<T>>>, b: seq<Result<seq<T>>>)
    ensures Gather(a + b) == Then(Gather(a), Gather(b))
    decreases |b|
  {
    if b == [] {
      assert a + b == a;
      match Gather(a) {
        case Ok(x) => assert x + [] == x;
        case Fail(_) =>
        case Panic =>
      }
    } else {
      var c := a + b;
      var init := b[..|b| - 1];
      assert c[..|c| - 1] == a + init;
      assert c[|c| - 1] == b[|b| - 1];
      GatherAppend(a, init);
      ThenAssoc(Gather(a), Gather(init), b[|b| - 1]);
    }
  }

  /** Gathering succeeds exactly when every run does. */
  lemma {:induction false} GatherOkIff<T>(rs: seq<Result<seq<T>>>)
    ensures Gather(rs).Ok? <==> forall i :: 0 <= i < |rs| ==> rs[i].Ok?
    decreases |rs|
  {
    if rs != [] {
      var init := rs[..|rs| - 1];
      GatherOkIff(init);
      assert forall i :: 0 <= i < |init| ==> init[i] == rs[i];
    }
  }

  /** The first run that fails decides the outcome; later runs do not matter. */
  lemma GatherStopsAt<T>(rs: seq<Result<seq<T>>>, n: int)
    requires 0 <= n < |rs|
    requires Gather(rs[..n]).Ok?
    requires !rs[n].Ok?
    ensures Gather(rs) == rs[n]
  {
    assert rs == rs[..n] + ([rs[n]] + rs[n + 1..]);
    GatherAppend(rs[..n], [rs[n]] + rs[n + 1..]);
    GatherAppend([rs[n]], rs[n + 1..]);
    assert [rs[n]][..0] == [];
  }

  /** Gathering one run more: the runs so far, then that run. */
  lemma GatherPrefix<T>(rs: seq<Result<seq<T>>>, n: int)
    requires 0 <= n < |rs|
    ensures Gather(rs[..n + 1]) == Then(Gather(rs[..n]), rs[n])
  {
    assert rs[..n + 1][..n] == rs[..n];
  }

  /** A successful gathering lists each run's items after those of the runs before it. */
  lemma GatherSnoc<T>(rs: seq<Result<seq<T>>>, r: Result<seq<T>>)
    requires Gather(rs + [r]).Ok?
    ensures Gather(rs).Ok? && r.Ok?
    ensures Gather(rs + [r]).value == Gather(rs).value + r.value
  {
    var c := rs + [r];
    assert c[..|c| - 1] == rs;
  }

  /** One element more of a prefix. */
  lemma TakeSnoc<T>(s: seq<T>, i: int)
    requires 0 <= i < |s|
    ensures s[..i + 1] == s[..i] + [s[i]]
  {
  }

  /** Whatever a successful gathering lists was listed by one of its runs. */
  lemma {:induction false} GatherItems<T>(rs: seq<Result<seq<T>>>, P: T -> bool)
    requires forall i :: 0 <= i < |rs| && rs[i].Ok? ==> forall k :: 0 <= k < |rs[i].value| ==> P(rs[i].value[k])
    ensures Gather(rs).Ok? ==> forall k :: 0 <= k < |Gather(rs).value| ==> P(Gather(rs).value[k])
    decreases |rs|
  {
    if rs != [] {
      var init := rs[..|rs| - 1];
      assert forall i :: 0 <= i < |init| ==> init[i] == rs[i];
      GatherItems(init, P);
      if Gather(rs).Ok? {
        var xs, ys := Gather(init).value, rs[|rs| - 1].value;
        assert Gather(rs).value == xs + ys;
        assert forall k :: |xs| <= k < |xs| + |ys| ==> (xs + ys)[k] == ys[k - |xs|];
      }
    }
  }

  /** prometheus.Desc: an immutable descriptor; each NewDesc is a new object. */
  class Desc {
    const subsystem: string
    const name: string
    const help: string
    const variableLabels: seq<string>

    constructor (subsystem: string, name: string, help: string, variableLabels: seq<string>)
      ensures this.subsystem == subsystem && this.name == name
      ensures this.help == help && this.variableLabels == variableLabels
    {
      this.subsystem := subsystem;
      this.name := name;
      this.help := help;
      this.variableLabels := variableLabels;
    }
  }

  /** What MustNewConstMetric puts on the metric channel. */
  datatype ConstMetric = ConstMetric(desc: Desc, valueType: ValueType, value: real, labelValues: seq<string>)
}
