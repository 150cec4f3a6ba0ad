/** The Prometheus reporter (prometheus_reporter.go), and what any interleaving of the
    metric sources leaves in it. */
module PrometheusReporter {
  import opened Collections
  import opened MetricsPipeline
  import opened Wrappers

  datatype Kind = Counter | Gauge | Unknown

  datatype Tag = Tag(name: string, value: string)

  datatype Metric = Metric(kind: Kind, name: string, value: real, tags: seq<Tag>, unit: string)

  type Labels = map<string, string>

  /** A CounterVec or a GaugeVec. */
  datatype Vec = Vec(kind: Kind, fullName: string, labelNames: set<string>, series: map<Labels, real>)

  /** The reporter's `metricVecs` and the names its registry knows. */
  datatype Registry = Registry(vecs: map<string, Vec>, names: set<string>)

  const EMPTY := Registry(map[], {})

  function LabelsOf(tags: seq<Tag>): Labels {
    if tags == [] then map[]
    else LabelsOf(tags[..|tags| - 1])[tags[|tags| - 1].name := tags[|tags| - 1].value]
  }

  predicate DistinctNames(tags: seq<Tag>) {
    Distinct(seq(|tags|, i requires 0 <= i < |tags| => tags[i].name))
  }

  function Underscored(name: string): string {
    seq(|name|, i requires 0 <= i < |name| => if name[i] == '.' then '_' else name[i])
  }

  function Lower(s: string): string {
    seq(|s|, i requires 0 <= i < |s| => if 'A' <= s[i] <= 'Z' then ((s[i] as int) + 32) as char else s[i])
  }

  predicate HasSuffix(s: string, suffix: string) { |suffix| <= |s| && s[|s| - |suffix|..] == suffix }

  function FullName(e: Metric): string {
    var n := Underscored(e.name);
    if e.unit != "" && !HasSuffix(n, e.unit) then n + "_" + Lower(e.unit) else n
  }

  /** The labels an event's tags give: a label for each tag name, with the value of the last tag of
      that name. */
  ghost predicate LabelsGiven(labels: Labels, tags: seq<Tag>) {
    && (forall n :: n in labels <==> exists k :: 0 <= k < |tags| && tags[k].name == n)
    && (forall k :: 0 <= k < |tags| && (forall m :: k < m < |tags| ==> tags[m].name != tags[k].name) ==>
          tags[k].name in labels && labels[tags[k].name] == tags[k].value)
  }

  lemma {:induction false} LabelNamesAre(tags: seq<Tag>, n: string)
    ensures n in LabelsOf(tags) <==> exists k :: 0 <= k < |tags| && tags[k].name == n
  {
    if tags != [] {
      var last := |tags| - 1;
      LabelNamesAre(tags[..last], n);
      assert forall k :: 0 <= k < last ==> tags[..last][k] == tags[k];
    }
  }

  lemma {:induction false} LabelValueIs(tags: seq<Tag>, k: nat)
    requires k < |tags| && forall m :: k < m < |tags| ==> tags[m].name != tags[k].name
    ensures tags[k].name in LabelsOf(tags) && LabelsOf(tags)[tags[k].name] == tags[k].value
  {
    var last := |tags| - 1;
    if k < last {
      assert forall m :: 0 <= m < last ==> tags[..last][m] == tags[m];
      LabelValueIs(tags[..last], k);
    }
  }

  lemma LabelsAre(tags: seq<Tag>)
    ensures LabelsGiven(LabelsOf(tags), tags)
  {
    hide LabelsOf;
    forall n ensures n in LabelsOf(tags) <==> exists k :: 0 <= k < |tags| && tags[k].name == n {
      LabelNamesAre(tags, n);
    }
    forall k | 0 <= k < |tags| && (forall m :: k < m < |tags| ==> tags[m].name != tags[k].name)
      ensures tags[k].name in LabelsOf(tags) && LabelsOf(tags)[tags[k].name] == tags[k].value
    {
      LabelValueIs(tags, k);
    }
  }

  /** What a metric is registered as: its name with each dot an underscore, then, if there is a unit
      and the name does not already end with it, an underscore and the unit in lower case. */
  lemma FullNameIs(e: Metric) returns (base: string, unit: string)
    ensures |base| == |e.name| && '.' !in base
    ensures forall i :: 0 <= i < |base| ==> base[i] == if e.name[i] == '.' then '_' else e.name[i]
    ensures |unit| == |e.unit| && forall i :: 0 <= i < |unit| ==> !('A' <= unit[i] <= 'Z')
    ensures forall i :: 0 <= i < |unit| ==>
              unit[i] == e.unit[i] || ('A' <= e.unit[i] <= 'Z' && unit[i] as int - 'a' as int == e.unit[i] as int - 'A' as int)
    ensures FullName(e) == if e.unit == "" || exists front :: base == front + e.unit then base else base + "_" + unit
  {
    base, unit := Underscored(e.name), Lower(e.unit);
    if front :| base == front + e.unit {
      assert base[|front|..] == e.unit;
    }
    if HasSuffix(base, e.unit) {
      assert base == base[..|base| - |e.unit|] + e.unit;
    }
  }

  /** One event: the new registry, whether GetMetricWith failed, and None for a panic:
      a name registered twice, repeated label names, a vec of the other kind, or a
      negative addition to a counter. */
  function Report(r: Registry, e: Metric): Option<(Registry, bool)> {
    if e.kind == Unknown then Some((r, false))
    else
      var labels := LabelsOf(e.tags);
      if e.name !in r.vecs && (FullName(e) in r.names || !DistinctNames(e.tags)) then None
      else
        var r' := if e.name in r.vecs then r
                  else Registry(r.vecs[e.name := Vec(e.kind, FullName(e), labels.Keys, map[])], r.names + {FullName(e)});
        var vec := r'.vecs[e.name];
        if vec.kind != e.kind then None
        else if labels.Keys != vec.labelNames then Some((r', true))
        else if e.kind == Counter && e.value < 0.0 then None
        else
          var was := if labels in vec.series then vec.series[labels] else 0.0;
          var now := if e.kind == Counter then was + e.value else e.value;
          Some((r'.(vecs := r'.vecs[e.name := vec.(series := vec.series[labels := now])]), false))
  }

  /** The tag names are the metric's label names. */
  ghost predicate Labelled(names: set<string>, tags: seq<Tag>) {
    forall n :: n in names <==> exists k :: 0 <= k < |tags| && tags[k].name == n
  }

  /** When reporting an event of a known kind panics: a new metric whose full name is taken or whose
      tags repeat a name, a metric of the other kind, or a counter that would go down. */
  lemma ReportPanicsIff(r: Registry, e: Metric)
    ensures Report(r, e) == None <==>
              && e.kind != Unknown
              && if e.name !in r.vecs
                 then FullName(e) in r.names || (exists j, k :: 0 <= j < k < |e.tags| && e.tags[j].name == e.tags[k].name)
                      || (e.kind == Counter && e.value < 0.0)
                 else r.vecs[e.name].kind != e.kind
                      || (Labelled(r.vecs[e.name].labelNames, e.tags) && e.kind == Counter && e.value < 0.0)
  {
    hide FullName, LabelsOf;
    LabelsAre(e.tags);
    TagsDistinct(e.tags);
    if e.name in r.vecs {
      SameLabelNames(r.vecs[e.name].labelNames, LabelsOf(e.tags), e.tags);
    }
  }

  lemma TagsDistinct(tags: seq<Tag>)
    ensures DistinctNames(tags) <==> !exists j, k :: 0 <= j < k < |tags| && tags[j].name == tags[k].name
  {
    var names := seq(|tags|, i requires 0 <= i < |tags| => tags[i].name);
    assert forall i :: 0 <= i < |tags| ==> names[i] == tags[i].name;
  }

  lemma SameLabelNames(names: set<string>, labels: Labels, tags: seq<Tag>)
    requires LabelsGiven(labels, tags)
    ensures labels.Keys == names <==> Labelled(names, tags)
  {
  }

  /** When it fails: the metric is there, of this kind, with other label names. */
  lemma ReportFailsIff(r: Registry, e: Metric)
    requires Report(r, e).Some?
    ensures Report(r, e).value.1 <==>
              e.kind != Unknown && e.name in r.vecs && !Labelled(r.vecs[e.name].labelNames, e.tags)
    ensures Report(r, e).value.1 || e.kind == Unknown ==> Report(r, e).value.0 == r
  {
    hide FullName, LabelsOf;
    LabelsAre(e.tags);
    if e.name in r.vecs {
      SameLabelNames(r.vecs[e.name].labelNames, LabelsOf(e.tags), e.tags);
    }
  }

  /** What it writes otherwise: the one series whose labels the tags give; a counter goes up by the
      value, a gauge is set to it, and no other series and no other metric changes. */
  lemma ReportWrites(r: Registry, e: Metric) returns (labels: Labels)
    requires Report(r, e).Some? && !Report(r, e).value.1 && e.kind != Unknown
    ensures LabelsGiven(labels, e.tags)
    ensures var t := Report(r, e).value.0;
            && t.vecs.Keys == r.vecs.Keys + {e.name} && (forall n :: n in r.vecs && n != e.name ==> t.vecs[n] == r.vecs[n])
            && t.vecs[e.name].kind == e.kind && t.vecs[e.name].labelNames == labels.Keys
            && t.vecs[e.name].fullName == (if e.name in r.vecs then r.vecs[e.name].fullName else FullName(e))
            && t.names == (if e.name in r.vecs then r.names else r.names + {FullName(e)})
            && var old_ := if e.name in r.vecs then r.vecs[e.name].series else map[];
            && t.vecs[e.name].series.Keys == old_.Keys + {labels}
            && (forall l :: l in old_ && l != labels ==> t.vecs[e.name].series[l] == old_[l])
            && t.vecs[e.name].series[labels]
            == (if e.kind == Gauge then e.value else e.value + if labels in old_ then old_[labels] else 0.0)
  {
    hide FullName, LabelsOf;
    labels := LabelsOf(e.tags);
    LabelsAre(e.tags);
  }

  /** A batch: the registry it leaves and the position of the last event that failed,
      or None if it panicked. */
  function ReportAll(r: Registry, events: seq<Metric>): Option<(Registry, Option<nat>)> {
    if events == [] then Some((r, None))
    else
      var last := |events| - 1;
      match ReportAll(r, events[..last])
      case None => None
      case Some(p) =>
        match Report(p.0, events[last])
        case None => None
        case Some(q) => Some((q.0, if q.1 then Some(last) else p.1))
  }

  lemma {:induction false} ReportAllPanics(r: Registry, events: seq<Metric>, i: nat)
    requires i <= |events| && ReportAll(r, events[..i]) == None
    ensures ReportAll(r, events) == None
    decreases |events| - i
  {
    if i < |events| {
      assert events[..i + 1][..i] == events[..i];
      ReportAllPanics(r, events, i + 1);
    } else {
      assert events[..i] == events;
    }
  }

  /** Event `i` of the batch is one for which GetMetricWith failed. */
  ghost predicate FailsAt(r: Registry, events: seq<Metric>, i: nat) {
    && i < |events|
    && ReportAll(r, events[..i]).Some?
    && Report(ReportAll(r, events[..i]).value.0, events[i]).Some?
    && Report(ReportAll(r, events[..i]).value.0, events[i]).value.1
  }

  /** The error a batch returns is its last failure, and it returns none only if none failed. */
  lemma {:induction false} ErrsIsLastFailure(r: Registry, events: seq<Metric>)
    requires ReportAll(r, events).Some?
    ensures match ReportAll(r, events).value.1
            case None => forall i :: !FailsAt(r, events, i)
            case Some(k) => FailsAt(r, events, k) && forall i :: i > k ==> !FailsAt(r, events, i)
  {
    hide Report;
    if events != [] {
      var last := |events| - 1;
      var most := events[..last];
      ErrsIsLastFailure(r, most);
      forall i: nat | i < last ensures FailsAt(r, most, i) <==> FailsAt(r, events, i) {
        assert most[..i] == events[..i];
      }
    }
  }

  /** So a failure goes unreported exactly when a later event of the batch fails too. */
  lemma FailureLostIff(r: Registry, events: seq<Metric>, i: nat)
    requires ReportAll(r, events).Some? && FailsAt(r, events, i)
    ensures ReportAll(r, events).value.1 != Some(i) <==> exists j :: j > i && FailsAt(r, events, j)
  {
    hide FailsAt, ReportAll;
    ErrsIsLastFailure(r, events);
  }

  /** WriteMetrics as the program has it, over the object's own maps. */
  class Reporter {
    var metricVecs: map<string, Vec>
    var registered: set<string>

    ghost function Contents(): Registry
      reads this
    {
      Registry(metricVecs, registered)
    }

    constructor ()
      ensures Contents() == EMPTY
    {
      metricVecs, registered := map[], {};
    }

    method WriteMetric(event: Metric) returns (failed: bool, panicked: bool)
      modifies this
      ensures panicked <==> Report(old(Contents()), event) == None
      ensures !panicked ==> Report(old(Contents()), event) == Some((Contents(), failed))
    {
      failed, panicked := false, false;
      if event.kind == Unknown {
        return;
      }
      var labels := LabelsOf(event.tags);
      var metricName := FullName(event);
      if event.name !in metricVecs {
        if metricName in registered || !DistinctNames(event.tags) {
          return false, true;
        }
        registered := registered + {metricName};
        metricVecs := metricVecs[event.name := Vec(event.kind, metricName, labels.Keys, map[])];
      }
      var vec := metricVecs[event.name];
      if vec.kind != event.kind {
        return false, true;
      }
      if labels.Keys != vec.labelNames {
        return true, false;
      }
      var was := if labels in vec.series then vec.series[labels] else 0.0;
      if event.kind == Counter {
        if event.value < 0.0 {
          return false, true;
        }
        vec := vec.(series := vec.series[labels := was + event.value]);
      } else {
        vec := vec.(series := vec.series[labels := event.value]);
      }
      metricVecs := metricVecs[event.name := vec];
    }

    /** `errs` is the last failure only: each `multierror.Append(err)` starts afresh. */
    method WriteMetrics(events: seq<Metric>) returns (errs: Option<nat>, panicked: bool)
      modifies this
      ensures panicked <==> ReportAll(old(Contents()), events) == None
      ensures !panicked ==> ReportAll(old(Contents()), events) == Some((Contents(), errs))
    {
      errs := None;
      ghost var r := Contents();
      for i := 0 to |events|
        invariant ReportAll(r, events[..i]) == Some((Contents(), errs))
      {
        assert events[..i + 1][..i] == events[..i];
        var failed;
        failed, panicked := WriteMetric(events[i]);
        if panicked {
          ReportAllPanics(r, events, i + 1);
          return;
        }
        if failed {
          errs := Some(i);
        }
      }
      assert events[..|events|] == events;
      panicked := false;
    }
  }

  // ---------------------------------------------------------------- one event

  predicate SameSeries(e: Metric, name: string, labels: Labels) {
    e.kind != Unknown && e.name == name && LabelsOf(e.tags) == labels
  }

  /** An event that cannot go wrong on its own. */
  predicate Sound(e: Metric) {
    e.kind != Unknown ==> DistinctNames(e.tags) && (e.kind == Counter ==> e.value >= 0.0)
  }

  /** Two events that agree on what their names stand for: one name has one kind, label
      set and full name, and two names have two full names. */
  predicate Agree(a: Metric, b: Metric) {
    a.kind != Unknown && b.kind != Unknown ==>
      && (a.name == b.name ==> a.kind == b.kind && LabelsOf(a.tags).Keys == LabelsOf(b.tags).Keys && FullName(a) == FullName(b))
      && (a.name != b.name ==> FullName(a) != FullName(b))
  }

  /** The registry is ready for `e`. */
  predicate Fits(r: Registry, e: Metric) {
    && Sound(e)
    && (e.kind != Unknown ==>
        if e.name in r.vecs then r.vecs[e.name].kind == e.kind && r.vecs[e.name].labelNames == LabelsOf(e.tags).Keys
        else FullName(e) !in r.names)
  }

  function Put(r: Registry, e: Metric): Registry
    requires Fits(r, e)
  {
    Report(r, e).value.0
  }

  lemma FitsStays(r: Registry, e: Metric, f: Metric)
    requires Fits(r, e) && Fits(r, f) && Agree(e, f)
    ensures Fits(Put(r, e), f) && !Report(r, e).value.1
  {
    hide FullName, LabelsOf;
  }

  /** Order matters to two gauge events of one series, and to no other two. */
  predicate Independent(e: Metric, f: Metric) {
    !(e.kind == Gauge && SameSeries(f, e.name, LabelsOf(e.tags)))
  }

  /** The vec an event is reported to, registered now if it is the first. */
  function VecFor(r: Registry, e: Metric): Vec {
    if e.name in r.vecs then r.vecs[e.name] else Vec(e.kind, FullName(e), LabelsOf(e.tags).Keys, map[])
  }

  function Counted(series: map<Labels, real>, e: Metric): map<Labels, real> {
    var labels := LabelsOf(e.tags);
    var was := if labels in series then series[labels] else 0.0;
    series[labels := if e.kind == Counter then was + e.value else e.value]
  }

  lemma PutIs(r: Registry, e: Metric)
    requires Fits(r, e)
    ensures e.kind == Unknown ==> Put(r, e) == r
    ensures e.kind != Unknown ==>
              var v := VecFor(r, e);
              && Put(r, e).vecs == r.vecs[e.name := v.(series := Counted(v.series, e))]
              && Put(r, e).names == if e.name in r.vecs then r.names else r.names + {FullName(e)}
  {
    hide FullName, LabelsOf;
  }

  /** Two events of one name and kind may be counted in either order, unless they set one
      gauge series to two values. */
  lemma CountedCommuteIff(series: map<Labels, real>, e: Metric, f: Metric)
    requires e.kind == f.kind
    ensures Counted(Counted(series, e), f) == Counted(Counted(series, f), e)
       <==> e.kind == Counter || LabelsOf(e.tags) != LabelsOf(f.tags) || e.value == f.value
  {
    hide LabelsOf;
    var l, m := LabelsOf(e.tags), LabelsOf(f.tags);
    assert l in Counted(Counted(series, e), f) && l in Counted(Counted(series, f), e);
    if l == m && e.kind != Counter {
      assert Counted(Counted(series, e), f)[l] == f.value && Counted(Counted(series, f), e)[l] == e.value;
    }
  }

  lemma Commute(r: Registry, e: Metric, f: Metric)
    requires Fits(r, e) && Fits(r, f) && Agree(e, f) && Agree(f, e) && Independent(e, f)
    ensures Fits(Put(r, e), f) && Fits(Put(r, f), e)
    ensures Put(Put(r, e), f) == Put(Put(r, f), e)
  {
    hide FullName, LabelsOf, Fits, Put, Counted, Sound, Report, Agree, Independent;
    FitsStays(r, e, f);
    FitsStays(r, f, e);
    if e.kind == Unknown || f.kind == Unknown {
      PutIs(r, e);
      PutIs(r, f);
      PutIs(Put(r, e), f);
      PutIs(Put(r, f), e);
    } else if e.name == f.name {
      CommuteOneName(r, e, f);
    } else {
      CommuteTwoNames(r, e, f);
    }
  }

  lemma CommuteTwoNames(r: Registry, e: Metric, f: Metric)
    requires Fits(r, e) && Fits(r, f) && Fits(Put(r, e), f) && Fits(Put(r, f), e)
    requires e.kind != Unknown && f.kind != Unknown && e.name != f.name
    ensures Put(Put(r, e), f) == Put(Put(r, f), e)
  {
    hide FullName, LabelsOf, Fits, Put, Counted, Sound, Report;
    PutIs(r, e);
    PutIs(r, f);
    PutIs(Put(r, e), f);
    PutIs(Put(r, f), e);
    Updates(r.vecs, e.name, Put(r, e).vecs[e.name], f.name, Put(r, f).vecs[f.name]);
  }

  lemma Updates(vecs: map<string, Vec>, n: string, v: Vec, m: string, w: Vec)
    requires n != m
    ensures vecs[n := v][m := w] == vecs[m := w][n := v]
  {
  }

  lemma CommuteOneName(r: Registry, e: Metric, f: Metric)
    requires Fits(r, e) && Fits(r, f) && Fits(Put(r, e), f) && Fits(Put(r, f), e)
    requires e.kind != Unknown && f.kind != Unknown && e.name == f.name && Agree(e, f) && Independent(e, f)
    ensures Put(Put(r, e), f) == Put(Put(r, f), e)
  {
    SameVec(r, e, f);
    hide FullName, LabelsOf, Fits, Put, Counted, Sound, Report, Independent;
    PutIs(r, e);
    PutIs(r, f);
    PutIs(Put(r, e), f);
    PutIs(Put(r, f), e);
  }

  lemma SameVec(r: Registry, e: Metric, f: Metric)
    requires e.kind != Unknown && f.kind != Unknown && e.name == f.name && Agree(e, f) && Independent(e, f)
    ensures var v := VecFor(r, e);
            v == VecFor(r, f) && Counted(Counted(v.series, e), f) == Counted(Counted(v.series, f), e)
  {
    hide FullName, LabelsOf, Counted;
    CountedCommuteIff(VecFor(r, e).series, e, f);
  }

  // ---------------------------------------------------------------- many events

  /** Events that are sound, agree with each other, and fit the registry. */
  ghost predicate AllFit(r: Registry, events: seq<Metric>) {
    && (forall e :: e in events ==> Fits(r, e))
    && forall e, f :: e in events && f in events ==> Agree(e, f)
  }

  lemma AllFitRest(r: Registry, events: seq<Metric>)
    requires AllFit(r, events) && events != []
    ensures Fits(r, events[0]) && AllFit(Put(r, events[0]), events[1..])
  {
    hide Fits, Agree, Put;
    var e := events[0];
    assert e in events;
    forall f | f in events[1..] ensures Fits(Put(r, e), f) {
      assert f in events;
      FitsStays(r, e, f);
    }
  }

  function PutAll(r: Registry, events: seq<Metric>): Registry
    requires AllFit(r, events)
    decreases |events|
  {
    if events == [] then r
    else
      AllFitRest(r, events);
      PutAll(Put(r, events[0]), events[1..])
  }

  /** The writer's batch does report them all, and nothing fails. */
  lemma {:induction false} ReportAllIsPutAll(r: Registry, events: seq<Metric>)
    requires AllFit(r, events)
    ensures ReportAll(r, events) == Some((PutAll(r, events), None))
    decreases |events|
  {
    hide Fits, Agree, Put, Report;
    if events != [] {
      var most, last := events[..|events| - 1], events[|events| - 1];
      assert last in events;
      ReportAllIsPutAll(r, most);
      assert events == most + [last];
      PutAllSnoc(r, most, last);
      PutReports(PutAll(r, most), last);
    }
  }

  lemma PutReports(r: Registry, e: Metric)
    requires Fits(r, e)
    ensures Report(r, e) == Some((Put(r, e), false))
  {
    hide FullName, LabelsOf;
  }

  lemma {:induction false} PutAllSnoc(r: Registry, most: seq<Metric>, last: Metric)
    requires AllFit(r, most + [last])
    ensures AllFit(r, most) && Fits(PutAll(r, most), last)
    ensures PutAll(r, most + [last]) == Put(PutAll(r, most), last)
    decreases |most|
  {
    hide Fits, Agree, Put;
    var all := most + [last];
    AllFitRest(r, all);
    assert forall e :: e in most ==> e in all;
    if most == [] {
      assert all[1..] == [];
      assert last in all;
    } else {
      assert all[1..] == most[1..] + [last] && all[0] == most[0];
      PutAllSnoc(Put(r, most[0]), most[1..], last);
    }
  }

  /** An event can be brought forward past events it is independent of. */
  lemma {:induction false} Bubble(r: Registry, pre: seq<Metric>, e: Metric, post: seq<Metric>)
    requires AllFit(r, pre + [e] + post) && forall f :: f in pre ==> Independent(f, e)
    ensures AllFit(r, [e] + (pre + post))
    ensures PutAll(r, pre + [e] + post) == PutAll(r, [e] + (pre + post))
    decreases |pre|
  {
    hide Fits, Agree, Put, Independent;
    var all, moved := pre + [e] + post, [e] + (pre + post);
    assert forall f :: f in moved ==> f in all;
    if pre == [] {
      assert all == moved;
    } else {
      var d, rest := pre[0], pre[1..];
      assert d in all && e in all;
      AllFitRest(r, all);
      assert all[1..] == rest + [e] + post && all[0] == d;
      Bubble(Put(r, d), rest, e, post);
      var further := [e] + (rest + post);
      assert further[0] == e && further[1..] == rest + post;
      Commute(r, d, e);
      AllFitRest(r, moved);
      assert moved[1..] == [d] + (rest + post) && moved[0] == e;
      AllFitRest(Put(r, e), moved[1..]);
      assert moved[1..][1..] == rest + post && moved[1..][0] == d;
    }
  }

  // ---------------------------------------------------------------- interleavings

  function Untag(tagged: seq<(nat, Metric)>): (r: seq<Metric>)
    ensures |r| == |tagged| && forall k :: 0 <= k < |tagged| ==> r[k] == tagged[k].1
  {
    seq(|tagged|, k requires 0 <= k < |tagged| => tagged[k].1)
  }

  /** Where source i's first event is. */
  lemma {:induction false} FirstFrom(b: seq<(nat, Metric)>, i: nat) returns (j: nat)
    requires From(b, i) != []
    ensures j < |b| && b[j] == (i, From(b, i)[0])
    ensures forall k :: 0 <= k < j ==> b[k].0 != i
    ensures From(b, i)[1..] == From(b[..j] + b[j + 1..], i)
    ensures forall m :: m != i ==> From(b, m) == From(b[..j] + b[j + 1..], m)
  {
    if b[0].0 == i {
      j := 0;
      assert b[..0] + b[1..] == b[1..];
    } else {
      var k := FirstFrom(b[1..], i);
      j := k + 1;
      var rest := b[..j] + b[j + 1..];
      assert rest[0] == b[0] && rest[1..] == b[1..][..k] + b[1..][k + 1..];
    }
  }

  /** Each gauge series is written by one source only. Counter series may be shared. */
  ghost predicate GaugesOwned(tagged: seq<(nat, Metric)>) {
    forall x, y :: x in tagged && y in tagged && !Independent(x.1, y.1) ==> x.0 == y.0
  }

  /** Source i's first event can be reported before everything else. */
  lemma BringForward(r: Registry, b: seq<(nat, Metric)>, i: nat) returns (rest: seq<(nat, Metric)>)
    requires From(b, i) != [] && AllFit(r, Untag(b)) && GaugesOwned(b)
    ensures |rest| + 1 == |b| && GaugesOwned(rest)
    ensures From(b, i)[1..] == From(rest, i) && forall m :: m != i ==> From(b, m) == From(rest, m)
    ensures Fits(r, From(b, i)[0]) && AllFit(Put(r, From(b, i)[0]), Untag(rest))
    ensures PutAll(r, Untag(b)) == PutAll(Put(r, From(b, i)[0]), Untag(rest))
  {
    hide Fits, Agree, Put, Independent, GaugesOwned, From;
    var e := From(b, i)[0];
    var j := FirstFrom(b, i);
    var pre, post := b[..j], b[j + 1..];
    OthersIndependent(b, i, j);
    UntagSplit(b, j);
    hide Untag, AllFit, PutAll;
    rest := pre + post;
    PutFirst(r, Untag(pre), e, Untag(post));
  }

  lemma UntagSplit(b: seq<(nat, Metric)>, j: nat)
    requires j < |b|
    ensures Untag(b) == Untag(b[..j]) + [b[j].1] + Untag(b[j + 1..])
    ensures Untag(b[..j] + b[j + 1..]) == Untag(b[..j]) + Untag(b[j + 1..])
  {
  }

  lemma PutFirst(r: Registry, pre: seq<Metric>, e: Metric, post: seq<Metric>)
    requires AllFit(r, pre + [e] + post) && forall f :: f in pre ==> Independent(f, e)
    ensures Fits(r, e) && AllFit(Put(r, e), pre + post)
    ensures PutAll(r, pre + [e] + post) == PutAll(Put(r, e), pre + post)
  {
    hide Fits, Agree, Put, Independent;
    Bubble(r, pre, e, post);
    var moved := [e] + (pre + post);
    AllFitRest(r, moved);
    assert moved[0] == e && moved[1..] == pre + post;
  }

  /** Before a source's first event there are only other sources' events. */
  lemma OthersIndependent(b: seq<(nat, Metric)>, i: nat, j: nat)
    requires GaugesOwned(b) && j < |b| && b[j].0 == i && forall k :: 0 <= k < j ==> b[k].0 != i
    ensures forall f :: f in Untag(b[..j]) ==> Independent(f, b[j].1)
    ensures GaugesOwned(b[..j] + b[j + 1..])
  {
    hide Independent;
    forall f | f in Untag(b[..j]) ensures Independent(f, b[j].1) {
      var k :| 0 <= k < j && f == b[k].1;
      assert b[k] in b && b[j] in b;
    }
    forall x | x in b[..j] + b[j + 1..] ensures x in b {
    }
  }

  /** Two interleavings of the same source streams leave the same registry. */
  lemma {:induction false} Confluence(r: Registry, a: seq<(nat, Metric)>, b: seq<(nat, Metric)>)
    requires forall i :: From(a, i) == From(b, i)
    requires AllFit(r, Untag(a)) && AllFit(r, Untag(b)) && GaugesOwned(b)
    ensures PutAll(r, Untag(a)) == PutAll(r, Untag(b))
    decreases |a|
  {
    hide Fits, Agree, Put, Independent, GaugesOwned;
    if a == [] {
      assert b == [] || From(b, b[0].0) != [];
    } else {
      var (i, e) := a[0];
      assert From(a, i) == [e] + From(a[1..], i);
      var rest := BringForward(r, b, i);
      assert Untag(a)[0] == e && Untag(a)[1..] == Untag(a[1..]);
      AllFitRest(r, Untag(a));
      forall m ensures From(a[1..], m) == From(rest, m) {
        if m == i {
          assert From(a, i)[1..] == From(a[1..], i);
        } else {
          assert From(a, m) == [] + From(a[1..], m);
        }
      }
      Confluence(Put(r, e), a[1..], rest);
    }
  }

  // ---------------------------------------------------------------- values

  /** What a scrape shows for a series, nought if it is not there. */
  function Shown(r: Registry, name: string, labels: Labels): real {
    if name in r.vecs && labels in r.vecs[name].series then r.vecs[name].series[labels] else 0.0
  }

  function Total(events: seq<Metric>, name: string, labels: Labels): real {
    if events == [] then 0.0
    else (if SameSeries(events[0], name, labels) then events[0].value else 0.0) + Total(events[1..], name, labels)
  }

  lemma PutShows(r: Registry, e: Metric, name: string, labels: Labels)
    requires Fits(r, e)
    ensures Shown(Put(r, e), name, labels)
         == if !SameSeries(e, name, labels) then Shown(r, name, labels)
            else if e.kind == Counter then Shown(r, name, labels) + e.value else e.value
  {
    hide FullName, LabelsOf, Fits, Put;
    PutIs(r, e);
  }

  /** A counter shows the sum of its events on top of what it showed before. */
  lemma {:induction false} CounterShowsSum(r: Registry, events: seq<Metric>, name: string, labels: Labels)
    requires AllFit(r, events) && forall e :: e in events && SameSeries(e, name, labels) ==> e.kind == Counter
    ensures Shown(PutAll(r, events), name, labels) == Shown(r, name, labels) + Total(events, name, labels)
    decreases |events|
  {
    hide Fits, Agree, Put, SameSeries, Shown;
    if events != [] {
      assert events[0] in events;
      AllFitRest(r, events);
      PutShows(r, events[0], name, labels);
      CounterShowsSum(Put(r, events[0]), events[1..], name, labels);
    }
  }

  /** A gauge shows the value of its last event. */
  lemma {:induction false} GaugeShowsLast(r: Registry, events: seq<Metric>, k: nat, name: string, labels: Labels)
    requires AllFit(r, events) && k < |events| && events[k].kind == Gauge && SameSeries(events[k], name, labels)
    requires forall m :: k < m < |events| ==> !SameSeries(events[m], name, labels)
    ensures Shown(PutAll(r, events), name, labels) == events[k].value
    decreases |events|
  {
    hide Fits, Agree, Put, SameSeries, Shown;
    AllFitRest(r, events);
    var s := Put(r, events[0]);
    if k > 0 {
      GaugeShowsLast(s, events[1..], k - 1, name, labels);
    } else {
      PutShows(r, events[0], name, labels);
      assert forall e :: e in events[1..] ==> !SameSeries(e, name, labels);
      CounterShowsSum(s, events[1..], name, labels);
      NoneTotal(events[1..], name, labels);
    }
  }

  lemma {:induction false} NoneTotal(events: seq<Metric>, name: string, labels: Labels)
    requires forall e :: e in events ==> !SameSeries(e, name, labels)
    ensures Total(events, name, labels) == 0.0
  {
    if events != [] {
      assert events[0] in events;
      NoneTotal(events[1..], name, labels);
    }
  }

  // ---------------------------------------------------------------- the whole pipeline

  /** The readings that CopyMetrics hands to the writer; faults are only logged. */
  function Readings(out: seq<(nat, Event<Metric>)>): seq<(nat, Metric)> {
    if out == [] then []
    else Readings(out[..|out| - 1])
         + match out[|out| - 1].1 case Reading(m) => [(out[|out| - 1].0, m)] case Fault(_) => []
  }

  function ReadingsOf(events: seq<Event<Metric>>): seq<Metric> {
    if events == [] then []
    else ReadingsOf(events[..|events| - 1]) + match events[|events| - 1] case Reading(m) => [m] case Fault(_) => []
  }

  lemma {:induction false} ReadingsFrom(out: seq<(nat, Event<Metric>)>, i: nat)
    ensures From(Readings(out), i) == ReadingsOf(From(out, i))
  {
    if out != [] {
      var most, last := out[..|out| - 1], out[|out| - 1];
      assert out == most + [last];
      FromAppend(most, [last], i);
      FromOne(last, i);
      ReadingsFrom(most, i);
      ReadingsOfSnoc(From(most, i), last.1);
      match last.1
      case Reading(m) =>
        assert Readings(out) == Readings(most) + [(last.0, m)];
        FromAppend(Readings(most), [(last.0, m)], i);
        assert From([(last.0, m)], i) == (if last.0 == i then [m] else []) + From([], i);
      case Fault(_) =>
        assert Readings(out) == Readings(most);
    }
  }

  lemma ReadingsOfSnoc(events: seq<Event<Metric>>, e: Event<Metric>)
    ensures ReadingsOf(events + [e]) == if e.Reading? then ReadingsOf(events) + [e.metric] else ReadingsOf(events)
    ensures ReadingsOf(events + []) == ReadingsOf(events)
  {
    assert (events + [e])[..|events|] == events;
    assert events + [] == events;
  }

  /** Equal source streams carry equal events, wherever they are interleaved. */
  lemma {:induction false} FromMembers(a: seq<(nat, Metric)>, x: (nat, Metric))
    ensures x in a <==> x.1 in From(a, x.0)
  {
    if a != [] {
      FromMembers(a[1..], x);
    }
  }

  /** Sound events that agree pairwise, whose gauges have one source each. */
  ghost predicate Orderly(tagged: seq<(nat, Metric)>) {
    && (forall x :: x in tagged ==> Sound(x.1))
    && (forall x, y :: x in tagged && y in tagged ==> Agree(x.1, y.1))
    && GaugesOwned(tagged)
  }

  lemma OrderlyFits(tagged: seq<(nat, Metric)>)
    requires Orderly(tagged)
    ensures AllFit(EMPTY, Untag(tagged))
  {
    hide Sound, Agree, GaugesOwned;
    forall e | e in Untag(tagged) ensures exists x :: x in tagged && x.1 == e {
      var k :| 0 <= k < |tagged| && tagged[k].1 == e;
      assert tagged[k] in tagged;
    }
  }

  /** Two runs of the pipeline, scheduled in any two ways, that have delivered the same
      from each source leave Prometheus in the same state, and nothing has failed. */
  lemma AnyScheduleSameRegistry(n: nat, run: seq<Action<Metric>>, s: State<Metric>,
                                run': seq<Action<Metric>>, s': State<Metric>)
    requires Leads(n, Init(n), run, s) && Leads(n, Init(n), run', s') && !s.closed && !s'.closed
    requires forall i :: 0 <= i < n ==> From(s.out, i) == From(s'.out, i)
    requires Orderly(Readings(s.out))
    ensures var r := ReportAll(EMPTY, Untag(Readings(s.out)));
            r.Some? && r.value.1 == None && ReportAll(EMPTY, Untag(Readings(s'.out))) == r
  {
    var a, b := Readings(s.out), Readings(s'.out);
    forall i: nat ensures From(a, i) == From(b, i) {
      ReadingsFrom(s.out, i);
      ReadingsFrom(s'.out, i);
      if i >= n {
        NoSuchSource(n, run, s, i);
        NoSuchSource(n, run', s', i);
      }
    }
    forall x ensures x in a <==> x in b {
      FromMembers(a, x);
      FromMembers(b, x);
    }
    hide Sound, Agree, Independent, Leads;
    assert Orderly(b);
    OrderlyFits(a);
    OrderlyFits(b);
    Confluence(EMPTY, a, b);
    ReportAllIsPutAll(EMPTY, Untag(a));
    ReportAllIsPutAll(EMPTY, Untag(b));
  }

  lemma NoSuchSource(n: nat, run: seq<Action<Metric>>, s: State<Metric>, i: nat)
    requires Leads(n, Init(n), run, s) && i >= n
    ensures From(s.out, i) == []
  {
    InitInv<Metric>(n);
    LeadsInv(n, Init(n), run, s);
    forall e | e in s.out ensures e.0 < n {
      assert e in s.out + s.merged;
    }
    NoneFrom(s.out, i);
  }

  // ---------------------------------------------------------------- when order matters

  /** Two events of one name, whatever is in the registry already: both are reported, in either
      order, and the order shows exactly when the metric was not there yet and its two full names
      differ (the first event names it), or one gauge series is set to two values. */
  lemma OrderMattersIff(r: Registry, e: Metric, f: Metric)
    requires Fits(r, e) && Fits(r, f) && e.kind == f.kind != Unknown
    requires e.name == f.name && LabelsOf(e.tags).Keys == LabelsOf(f.tags).Keys
    ensures var one, other := ReportAll(r, [e, f]), ReportAll(r, [f, e]);
            && one.Some? && other.Some? && one.value.1 == None && other.value.1 == None
            && (one == other <==>
                  && (e.name in r.vecs || FullName(e) == FullName(f))
                  && (e.kind == Counter || LabelsOf(e.tags) != LabelsOf(f.tags) || e.value == f.value))
  {
    hide *;
    TwoReports(r, e, f);
    TwoReports(r, f, e);
    PutTwice(r, e, f);
    PutTwice(r, f, e);
    VecsAre(r, e, f);
    CountedCommuteIff(VecFor(r, e).series, e, f);
    var v, w := VecFor(r, e), VecFor(r, f);
    var x, y := Counted(Counted(v.series, e), f), Counted(Counted(w.series, f), e);
    SetVec(r.vecs, e.name, v.(series := x), w.(series := y));
  }

  lemma SetVec(vecs: map<string, Vec>, n: string, v: Vec, w: Vec)
    ensures vecs[n := v] == vecs[n := w] <==> v == w
  {
    assert vecs[n := v][n] == v && vecs[n := w][n] == w;
  }

  lemma VecsAre(r: Registry, e: Metric, f: Metric)
    requires Fits(r, e) && Fits(r, f) && e.kind == f.kind != Unknown
    requires e.name == f.name && LabelsOf(e.tags).Keys == LabelsOf(f.tags).Keys
    ensures VecFor(r, e).series == VecFor(r, f).series
    ensures VecFor(r, e).(fullName := "") == VecFor(r, f).(fullName := "")
    ensures VecFor(r, e).fullName == VecFor(r, f).fullName <==> e.name in r.vecs || FullName(e) == FullName(f)
  {
    hide FullName, LabelsOf, Sound;
  }

  lemma TwoReports(r: Registry, e: Metric, f: Metric)
    requires Fits(r, e) && Fits(r, f) && e.kind == f.kind != Unknown
    requires e.name == f.name && LabelsOf(e.tags).Keys == LabelsOf(f.tags).Keys
    ensures Fits(Put(r, e), f) && ReportAll(r, [e, f]) == Some((Put(Put(r, e), f), None))
  {
    hide FullName, LabelsOf, Report, Sound, Put;
    PutReports(r, e);
    PutIs(r, e);
    PutReports(Put(r, e), f);
    assert [e, f][..1] == [e] && [e][..0] == [];
    assert ReportAll(r, []) == Some((r, None));
    assert ReportAll(r, [e]) == Some((Put(r, e), None));
  }

  /** The first event registers the metric; both leave their mark on its series. */
  lemma PutTwice(r: Registry, e: Metric, f: Metric)
    requires Fits(r, e) && Fits(r, f) && e.kind == f.kind != Unknown && e.name == f.name && Fits(Put(r, e), f)
    ensures var v := VecFor(r, e);
            && Put(Put(r, e), f).vecs == r.vecs[e.name := v.(series := Counted(Counted(v.series, e), f))]
            && Put(Put(r, e), f).names == if e.name in r.vecs then r.names else r.names + {v.fullName}
  {
    hide FullName, LabelsOf, Sound, Put, Counted, Report;
    PutIs(r, e);
    PutIs(Put(r, e), f);
  }
}
