/** The statistics the availability monitor keeps (monitor.go statsCollector, review.go). */
module Review {
  import opened Collections
  import opened Wrappers

  /** What a worker reports: which task ran, and its error message if it failed. */
  datatype Result = Result(task: nat, err: Option<string>)

  type Tally = map<nat, map<string, nat>>

  datatype Counts = Counts(success: nat, failure: nat, warning: nat, errors: Tally, warnings: Tally)

  const NOTHING := Counts(0, 0, 0, map[], map[])

  function CountOf(m: Tally, task: nat, msg: string): nat {
    if task in m && msg in m[task] then m[task][msg] else 0
  }

  function Bump(m: Tally, task: nat, msg: string): (r: Tally)
    ensures forall t, g :: CountOf(r, t, g) == CountOf(m, t, g) + (if t == task && g == msg then 1 else 0)
  {
    var inner := if task in m then m[task] else map[];
    m[task := inner[msg := (if msg in inner then inner[msg] else 0) + 1]]
  }

  /** One turn of the collector's loop. */
  function Recorded(c: Counts, r: Result, warns: string -> bool): Counts {
    match r.err
    case None => c.(success := c.success + 1)
    case Some(msg) =>
      if warns(msg) then c.(warning := c.warning + 1, warnings := Bump(c.warnings, r.task, msg))
      else c.(failure := c.failure + 1, errors := Bump(c.errors, r.task, msg))
  }

  function RecordedAll(rs: seq<Result>, warns: string -> bool): Counts {
    if rs == [] then NOTHING else Recorded(RecordedAll(rs[..|rs| - 1], warns), rs[|rs| - 1], warns)
  }

  // ---------------------------------------------------------------- totals

  ghost function Sum<K>(m: map<K, nat>): nat {
    if m == map[] then 0 else var k :| k in m; m[k] + Sum(m - {k})
  }

  lemma {:induction false} SumSplit<K>(m: map<K, nat>, k: K)
    requires k in m
    ensures Sum(m) == m[k] + Sum(m - {k})
    decreases |m|
  {
    var j :| j in m && Sum(m) == m[j] + Sum(m - {j});
    if j != k {
      SumSplit(m - {j}, k);
      SumSplit(m - {k}, j);
      assert m - {j} - {k} == m - {k} - {j};
    }
  }

  lemma SumUpdate<K>(m: map<K, nat>, k: K, v: nat)
    ensures Sum(m[k := v]) == Sum(m) - (if k in m then m[k] else 0) + v
  {
    var r := m[k := v];
    SumSplit(r, k);
    assert r - {k} == m - {k};
    if k in m {
      SumSplit(m, k);
    } else {
      assert m - {k} == m;
    }
  }

  ghost function Sums(m: Tally): map<nat, nat> { map t | t in m :: Sum(m[t]) }

  ghost function Total(m: Tally): nat { Sum<nat>(Sums(m)) }

  lemma BumpTotal(m: Tally, task: nat, msg: string)
    ensures Total(Bump(m, task, msg)) == Total(m) + 1
  {
    var inner := if task in m then m[task] else map[];
    var count := (if msg in inner then inner[msg] else 0) + 1;
    SumUpdate(inner, msg, count);
    var r := Bump(m, task, msg);
    var sums := Sums(m);
    assert Sums(r) == sums[task := Sum(inner[msg := count])];
    SumUpdate<nat>(sums, task, Sum(inner[msg := count]));
    assert Sum(inner) == if task in m then sums[task] else 0;
  }

  /** After any results: the three counters add up to the number of results, each of
      the two failure counters is the sum of its nested map, and each entry of a nested
      map counts the results with that task and message. */
  lemma {:induction false} RecordedAddsUp(rs: seq<Result>, warns: string -> bool)
    ensures var c := RecordedAll(rs, warns);
            && c.success + c.failure + c.warning == |rs|
            && c.failure == Total(c.errors) && c.warning == Total(c.warnings)
            && forall t, g :: CountOf(c.errors, t, g) == (if warns(g) then 0 else Count(rs, Result(t, Some(g))))
                           && CountOf(c.warnings, t, g) == (if warns(g) then Count(rs, Result(t, Some(g))) else 0)
  {
    if rs != [] {
      var most, last := rs[..|rs| - 1], rs[|rs| - 1];
      RecordedAddsUp(most, warns);
      var c := RecordedAll(most, warns);
      if last.err.Some? {
        BumpTotal(c.errors, last.task, last.err.value);
        BumpTotal(c.warnings, last.task, last.err.value);
      }
    }
  }

  /** The collector's report, filled in place. */
  class Report {
    var successCount: nat
    var failureCount: nat
    var warningCount: nat
    var errors: Tally
    var warnings: Tally
    const warningMatchers: seq<string -> bool>

    ghost function Contents(): Counts
      reads this
    {
      Counts(successCount, failureCount, warningCount, errors, warnings)
    }

    ghost predicate Warns(msg: string) { exists i :: 0 <= i < |warningMatchers| && warningMatchers[i](msg) }

    constructor (matchers: seq<string -> bool>)
      ensures Contents() == NOTHING && warningMatchers == matchers
    {
      successCount, failureCount, warningCount, errors, warnings := 0, 0, 0, map[], map[];
      warningMatchers := matchers;
    }

    method Ignored(msg: string) returns (ignored: bool)
      ensures ignored == Warns(msg)
    {
      ignored := false;
      for i := 0 to |warningMatchers|
        invariant !ignored && forall j :: 0 <= j < i ==> !warningMatchers[j](msg)
      {
        if warningMatchers[i](msg) {
          return true;
        }
      }
    }

    method RecordFailure(task: nat, msg: string)
      modifies this`errors, this`failureCount
      ensures errors == Bump(old(errors), task, msg) && failureCount == old(failureCount) + 1
    {
      if task !in errors {
        errors := errors[task := map[]];
      }
      var before := if msg in errors[task] then errors[task][msg] else 0;
      errors := errors[task := errors[task][msg := before + 1]];
      failureCount := failureCount + 1;
    }

    method RecordWarning(task: nat, msg: string)
      modifies this`warnings, this`warningCount
      ensures warnings == Bump(old(warnings), task, msg) && warningCount == old(warningCount) + 1
    {
      if task !in warnings {
        warnings := warnings[task := map[]];
      }
      var before := if msg in warnings[task] then warnings[task][msg] else 0;
      warnings := warnings[task := warnings[task][msg := before + 1]];
      warningCount := warningCount + 1;
    }

    method Record(r: Result)
      modifies this
      ensures Contents() == Recorded(old(Contents()), r, m => Warns(m))
    {
      hide Bump;
      if r.err == None {
        successCount := successCount + 1;
        return;
      }
      var msg := r.err.value;
      var ignored := Ignored(msg);
      if !ignored {
        RecordFailure(r.task, msg);
      } else {
        RecordWarning(r.task, msg);
      }
    }

    function TotalExecutions(): nat
      reads this
    {
      successCount + (failureCount + warningCount)
    }

    /** Every result that was recorded was one execution. */
    lemma TotalIsRecorded(rs: seq<Result>, warns: string -> bool)
      requires Contents() == RecordedAll(rs, warns)
      ensures TotalExecutions() == |rs|
    {
      RecordedAddsUp(rs, warns);
    }
  }

  /** HaveTestsPassed: no target, or no executions, is a failure. */
  predicate HaveTestsPassed(target: real, c: Counts) {
    var total := c.success + c.failure + c.warning;
    target != 0.0 && total != 0 && target <= 100.0 * (c.success as real / total as real)
  }

  function IsGood(): Result -> bool { (r: Result) => r.err.None? }

  function IsBad(): Result -> bool { (r: Result) => r.err.Some? }

  function IsFailure(warns: string -> bool): Result -> bool { (r: Result) => r.err.Some? && !warns(r.err.value) }

  function IsWarning(warns: string -> bool): Result -> bool { (r: Result) => r.err.Some? && warns(r.err.value) }

  /** What each counter counts. */
  lemma {:induction false} CountersCount(rs: seq<Result>, warns: string -> bool)
    ensures var c := RecordedAll(rs, warns);
            && c.success == CountIf(rs, IsGood()) && c.failure == CountIf(rs, IsFailure(warns))
            && c.warning == CountIf(rs, IsWarning(warns)) && c.failure + c.warning == CountIf(rs, IsBad())
  {
    if rs != [] {
      CountersCount(rs[..|rs| - 1], warns);
    }
  }

  /** The availability run passes exactly when it ran something against a target and the share
      of bad results, warnings included, leaves room for the target. */
  lemma PassesIff(target: real, rs: seq<Result>, warns: string -> bool)
    ensures HaveTestsPassed(target, RecordedAll(rs, warns))
       <==> target != 0.0 && rs != [] && 100.0 * CountIf(rs, IsBad()) as real <= (100.0 - target) * |rs| as real
  {
    hide RecordedAll, Total, CountOf, CountIf;
    RecordedAddsUp(rs, warns);
    CountersCount(rs, warns);
    if rs != [] {
      Share(target, RecordedAll(rs, warns).success, |rs|);
      assert (100.0 - target) * |rs| as real == 100.0 * |rs| as real - target * |rs| as real;
    }
  }

  lemma Share(target: real, good: nat, total: nat)
    requires total > 0
    ensures target <= 100.0 * (good as real / total as real) <==> target * total as real <= 100.0 * good as real
  {
    var x, t := good as real / total as real, total as real;
    assert x * t == good as real;
    assert 100.0 * x * t == 100.0 * good as real;
    if target <= 100.0 * x {
      assert (100.0 * x - target) * t >= 0.0;
    }
    if target * t <= 100.0 * x * t {
      assert (100.0 * x - target) * t >= 0.0;
    }
  }
}
