/** For which metric sources the reporter's registry depends on how their streams interleave. */
module MetricOrder {
  import opened Collections
  import opened MetricsPipeline
  import opened PrometheusReporter
  import opened Wrappers

  type Streams = seq<seq<Metric>>

  type Tagged = seq<(nat, Metric)>

  /** An interleaving: each source's events, in their order. */
  ghost predicate Merges(a: Tagged, streams: Streams) {
    && (forall x :: x in a ==> x.0 < |streams|)
    && forall i :: 0 <= i < |streams| ==> From(a, i) == streams[i]
  }

  /** The `k`th event sets a gauge series for the last time. */
  ghost predicate LastSet(events: seq<Metric>, k: nat, name: string, labels: Labels) {
    && k < |events| && events[k].kind == Gauge && SameSeries(events[k], name, labels)
    && forall m :: k < m < |events| ==> !SameSeries(events[m], name, labels)
  }

  /** Sources that set one gauge series leave it at one value. */
  ghost predicate Settled(streams: Streams) {
    forall i: nat, j: nat, k: nat, l: nat, name, labels ::
      i < |streams| && j < |streams| && LastSet(streams[i], k, name, labels) && LastSet(streams[j], l, name, labels)
      ==> streams[i][k].value == streams[j][l].value
  }

  // ---------------------------------------------------------------- a registry from its events

  ghost predicate Mentions(events: seq<Metric>, name: string) {
    exists e :: e in events && e.kind != Unknown && e.name == name
  }

  ghost predicate Sets(events: seq<Metric>, name: string, labels: Labels) {
    exists e :: e in events && SameSeries(e, name, labels)
  }

  ghost predicate Registers(r: Registry, events: seq<Metric>, full: string) {
    exists e :: e in events && e.kind != Unknown && e.name !in r.vecs && FullName(e) == full
  }

  /** What a metric is, apart from its values. */
  function Shape(v: Vec): (Kind, string, set<string>) { (v.kind, v.fullName, v.labelNames) }

  function ShapeOf(e: Metric): (Kind, string, set<string>) { (e.kind, FullName(e), LabelsOf(e.tags).Keys) }

  /** The registry after some events: which metrics and series it has, and what the metrics are. */
  ghost predicate Described(r: Registry, events: seq<Metric>, t: Registry) {
    && (forall n :: n in t.vecs <==> n in r.vecs || Mentions(events, n))
    && (forall n :: n in r.vecs ==> n in t.vecs && Shape(t.vecs[n]) == Shape(r.vecs[n]))
    && (forall e :: e in events && e.kind != Unknown && e.name !in r.vecs ==>
          e.name in t.vecs && Shape(t.vecs[e.name]) == ShapeOf(e))
    && (forall n, labels :: n in t.vecs ==>
          (labels in t.vecs[n].series <==> (n in r.vecs && labels in r.vecs[n].series) || Sets(events, n, labels)))
    && (forall full :: full in t.names <==> full in r.names || Registers(r, events, full))
  }

  lemma DescribedOne(r: Registry, e: Metric)
    requires Fits(r, e)
    ensures Described(r, [e], Put(r, e))
  {
    hide FullName, LabelsOf, Fits, Put;
    PutIs(r, e);
  }

  lemma ConsMeans(e: Metric, rest: seq<Metric>)
    ensures forall n :: Mentions([e] + rest, n) <==> Mentions([e], n) || Mentions(rest, n)
    ensures forall n, labels :: Sets([e] + rest, n, labels) <==> Sets([e], n, labels) || Sets(rest, n, labels)
    ensures forall n, labels :: Sets([e], n, labels) ==> Mentions([e], n)
  {
    hide LabelsOf;
    assert forall f :: f in [e] + rest <==> f == e || f in rest;
    assert forall f :: f in [e] <==> f == e;
  }

  lemma ConsRegisters(r: Registry, e: Metric, m: Registry, rest: seq<Metric>, full: string)
    requires Described(r, [e], m) && forall f :: f in rest ==> Agree(e, f)
    ensures Registers(r, [e] + rest, full) <==> Registers(r, [e], full) || Registers(m, rest, full)
  {
    hide FullName, LabelsOf, Shape, ShapeOf, Sets;
    assert forall f :: f in [e] + rest <==> f == e || f in rest;
    assert e in [e];
    if f :| f in rest && f.kind != Unknown && f.name !in r.vecs && FullName(f) == full {
      if f.name in m.vecs {
        assert Mentions([e], f.name) && e.name == f.name && Agree(e, f);
      }
    }
  }

  /** Events one after another describe a registry as all together do, if they agree. */
  lemma DescribedMore(r: Registry, e: Metric, m: Registry, rest: seq<Metric>, t: Registry)
    requires Described(r, [e], m) && Described(m, rest, t)
    requires forall f :: f in rest ==> Agree(e, f)
    ensures Described(r, [e] + rest, t)
  {
    hide FullName, LabelsOf, Shape, ShapeOf, Sets, Mentions, Registers, Agree;
    var all := [e] + rest;
    ConsMeans(e, rest);
    forall full ensures Registers(r, all, full) <==> Registers(r, [e], full) || Registers(m, rest, full) {
      ConsRegisters(r, e, m, rest, full);
    }
    forall f | f in all && f.kind != Unknown && f.name !in r.vecs
      ensures f.name in t.vecs && Shape(t.vecs[f.name]) == ShapeOf(f)
    {
      NewVec(r, e, m, rest, t, f);
    }
  }

  lemma NewVec(r: Registry, e: Metric, m: Registry, rest: seq<Metric>, t: Registry, f: Metric)
    requires Described(r, [e], m) && Described(m, rest, t) && (forall f :: f in rest ==> Agree(e, f))
    requires (f == e || f in rest) && f.kind != Unknown && f.name !in r.vecs
    ensures f.name in t.vecs && Shape(t.vecs[f.name]) == ShapeOf(f)
  {
    hide FullName, LabelsOf, Sets, Registers;
    assert e in [e];
    if f.name in m.vecs && f != e {
      assert Mentions([e], f.name) && e.name == f.name && Agree(e, f);
    }
  }

  lemma {:induction false} PutAllDescribed(r: Registry, events: seq<Metric>)
    requires AllFit(r, events)
    ensures Described(r, events, PutAll(r, events))
    decreases |events|
  {
    hide Fits, Agree, Put;
    if events == [] {
      hide SameSeries, FullName, LabelsOf;
    } else {
      hide Described;
      AllFitRest(r, events);
      var e, rest := events[0], events[1..];
      DescribedOne(r, e);
      PutAllDescribed(Put(r, e), rest);
      assert forall f :: f in rest ==> f in events;
      assert e in events;
      DescribedMore(r, e, Put(r, e), rest, PutAll(Put(r, e), rest));
      assert events == [e] + rest;
    }
  }

  /** The same events in any order, showing the same values, leave the same registry. */
  lemma SameRegistry(r: Registry, x: seq<Metric>, y: seq<Metric>, t: Registry, u: Registry)
    requires Described(r, x, t) && Described(r, y, u) && forall e :: e in x <==> e in y
    requires forall name, labels :: Shown(t, name, labels) == Shown(u, name, labels)
    ensures t == u
  {
    hide FullName, LabelsOf;
    assert forall n :: Mentions(x, n) <==> Mentions(y, n);
    assert forall n, labels :: Sets(x, n, labels) <==> Sets(y, n, labels);
    assert forall full :: Registers(r, x, full) <==> Registers(r, y, full);
    forall n | n in t.vecs ensures n in u.vecs && t.vecs[n] == u.vecs[n] {
      SameVec(r, x, y, t, u, n);
    }
    assert t.vecs == u.vecs && t.names == u.names;
  }

  lemma SameVec(r: Registry, x: seq<Metric>, y: seq<Metric>, t: Registry, u: Registry, n: string)
    requires Described(r, x, t) && Described(r, y, u) && (forall e :: e in x <==> e in y) && n in t.vecs
    requires forall labels :: Sets(x, n, labels) <==> Sets(y, n, labels)
    requires forall labels :: Shown(t, n, labels) == Shown(u, n, labels)
    ensures n in u.vecs && t.vecs[n] == u.vecs[n]
  {
    hide FullName, LabelsOf, Sets;
    assert Mentions(x, n) ==> Mentions(y, n);
    forall labels ensures labels in t.vecs[n].series <==> labels in u.vecs[n].series {
    }
    forall labels | labels in t.vecs[n].series ensures t.vecs[n].series[labels] == u.vecs[n].series[labels] {
      assert Shown(t, n, labels) == Shown(u, n, labels);
    }
    assert Shape(t.vecs[n]) == Shape(u.vecs[n]);
    assert t.vecs[n].series == u.vecs[n].series;
  }

  // ---------------------------------------------------------------- counters

  function Totals(streams: Streams, name: string, labels: Labels): real {
    if streams == [] then 0.0
    else Totals(streams[..|streams| - 1], name, labels) + Total(streams[|streams| - 1], name, labels)
  }

  /** The streams of a list of tagged events. */
  function Split(a: Tagged, n: nat): (r: Streams)
    ensures |r| == n && forall i :: 0 <= i < n ==> r[i] == From(a, i)
  {
    seq(n, i requires 0 <= i < n => From(a, i))
  }

  lemma {:induction false} TotalsUpdate(streams: Streams, i: nat, s: seq<Metric>, name: string, labels: Labels)
    requires i < |streams|
    ensures Totals(streams[i := s], name, labels)
         == Totals(streams, name, labels) - Total(streams[i], name, labels) + Total(s, name, labels)
  {
    hide Total;
    var n := |streams| - 1;
    if i < n {
      TotalsUpdate(streams[..n], i, s, name, labels);
      assert streams[i := s][..n] == streams[..n][i := s];
    } else {
      assert streams[i := s][..n] == streams[..n];
    }
  }

  lemma {:induction false} NoTotals(n: nat, name: string, labels: Labels)
    ensures Totals(Split([], n), name, labels) == 0.0
  {
    if n > 0 {
      NoTotals(n - 1, name, labels);
      assert Split([], n)[..n - 1] == Split([], n - 1);
    }
  }

  /** A total does not depend on how the streams are merged. */
  lemma {:induction false} TotalOfMerge(a: Tagged, n: nat, name: string, labels: Labels)
    requires forall x :: x in a ==> x.0 < n
    ensures Total(Untag(a), name, labels) == Totals(Split(a, n), name, labels)
    decreases |a|
  {
    if a == [] {
      NoTotals(n, name, labels);
    } else {
      var (i, e) := a[0];
      var rest := a[1..];
      assert a[0] in a;
      TotalOfMerge(rest, n, name, labels);
      assert Untag(a)[0] == e && Untag(a)[1..] == Untag(rest);
      assert a == [a[0]] + rest;
      forall j | 0 <= j < n ensures Split(a, n)[j] == Split(rest, n)[i := [e] + From(rest, i)][j] {
        FromAppend([a[0]], rest, j);
        FromOne(a[0], j);
      }
      assert Split(a, n) == Split(rest, n)[i := [e] + From(rest, i)];
      TotalsUpdate(Split(rest, n), i, [e] + From(rest, i), name, labels);
      assert ([e] + From(rest, i))[1..] == From(rest, i);
    }
  }

  // ---------------------------------------------------------------- gauges

  lemma FromAround(a: Tagged, k: nat, i: nat)
    requires k < |a| && a[k].0 == i
    ensures From(a, i) == From(a[..k], i) + ([a[k].1] + From(a[k + 1..], i))
  {
    hide From;
    assert a == a[..k] + ([a[k]] + a[k + 1..]);
    FromAppend(a[..k], [a[k]] + a[k + 1..], i);
    FromAppend([a[k]], a[k + 1..], i);
    FromOne(a[k], i);
  }

  /** The last event of a series in a merge is the last of that series in its source. */
  lemma LastInSource(a: Tagged, k: nat, name: string, labels: Labels) returns (m: nat)
    requires k < |a| && LastSet(Untag(a), k, name, labels)
    ensures LastSet(From(a, a[k].0), m, name, labels) && From(a, a[k].0)[m] == a[k].1
  {
    hide SameSeries, From;
    var i, after := a[k].0, a[k + 1..];
    var s := From(a, i);
    FromAround(a, k, i);
    m := |From(a[..k], i)|;
    forall l | m < l < |s| ensures !SameSeries(s[l], name, labels) {
      assert s[l] == From(after, i)[l - m - 1];
      FromMembers(after, (i, s[l]));
      var j :| 0 <= j < |after| && after[j] == (i, s[l]);
      assert Untag(a)[k + 1 + j] == s[l];
    }
  }

  /** Some event of the series is the last. */
  lemma {:induction false} SomeLast(events: seq<Metric>, name: string, labels: Labels) returns (k: nat)
    requires Sets(events, name, labels) && forall e :: e in events && SameSeries(e, name, labels) ==> e.kind == Gauge
    ensures LastSet(events, k, name, labels)
    decreases |events|
  {
    hide SameSeries;
    var last := |events| - 1;
    if SameSeries(events[last], name, labels) {
      k := last;
    } else {
      var e :| e in events && SameSeries(e, name, labels);
      assert events == events[..last] + [events[last]];
      assert e in events[..last];
      k := SomeLast(events[..last], name, labels);
    }
  }

  // ---------------------------------------------------------------- settled sources

  lemma SameElements(a: Tagged, b: Tagged, streams: Streams)
    requires Merges(a, streams) && Merges(b, streams)
    ensures forall e :: e in Untag(a) ==> e in Untag(b)
  {
    forall e | e in Untag(a) ensures e in Untag(b) {
      var k :| 0 <= k < |a| && a[k].1 == e;
      assert a[k] in a;
      FromMembers(a, a[k]);
      FromMembers(b, a[k]);
      var j :| 0 <= j < |b| && b[j] == a[k];
      assert Untag(b)[j] == e;
    }
  }

  lemma SplitIs(a: Tagged, streams: Streams)
    requires Merges(a, streams)
    ensures Split(a, |streams|) == streams
  {
  }

  /** Events of one series that fit a registry have one kind. */
  lemma OneKind(r: Registry, events: seq<Metric>, name: string, labels: Labels, e: Metric)
    requires AllFit(r, events) && e in events && SameSeries(e, name, labels)
    ensures e.kind == Counter || e.kind == Gauge
    ensures forall f :: f in events && SameSeries(f, name, labels) ==> f.kind == e.kind
  {
    hide FullName, LabelsOf, Fits;
    forall f | f in events && SameSeries(f, name, labels) ensures f.kind == e.kind {
      assert Agree(e, f);
    }
  }

  lemma NoneShown(r: Registry, events: seq<Metric>, name: string, labels: Labels)
    requires AllFit(r, events) && !Sets(events, name, labels)
    ensures Shown(PutAll(r, events), name, labels) == Shown(r, name, labels)
  {
    hide AllFit, PutAll, Shown, SameSeries, Total;
    CounterShowsSum(r, events, name, labels);
    NoneTotal(events, name, labels);
  }

  lemma GaugeShown(r: Registry, a: Tagged, streams: Streams, name: string, labels: Labels)
      returns (i: nat, m: nat)
    requires Merges(a, streams) && AllFit(r, Untag(a)) && Sets(Untag(a), name, labels)
    requires forall e :: e in Untag(a) && SameSeries(e, name, labels) ==> e.kind == Gauge
    ensures i < |streams| && LastSet(streams[i], m, name, labels)
    ensures Shown(PutAll(r, Untag(a)), name, labels) == streams[i][m].value
  {
    hide AllFit, PutAll, Shown, SameSeries;
    var k := SomeLast(Untag(a), name, labels);
    m := LastInSource(a, k, name, labels);
    i := a[k].0;
    assert a[k] in a;
    GaugeShowsLast(r, Untag(a), k, name, labels);
  }

  lemma SettledShows(r: Registry, streams: Streams, a: Tagged, b: Tagged, name: string, labels: Labels)
    requires Merges(a, streams) && Merges(b, streams) && AllFit(r, Untag(a)) && AllFit(r, Untag(b)) && Settled(streams)
    ensures Shown(PutAll(r, Untag(a)), name, labels) == Shown(PutAll(r, Untag(b)), name, labels)
  {
    hide AllFit, PutAll, Shown, SameSeries, Total, Totals, Merges, LastSet;
    SameElements(a, b, streams);
    SameElements(b, a, streams);
    if e :| e in Untag(a) && SameSeries(e, name, labels) {
      OneKind(r, Untag(a), name, labels, e);
      OneKind(r, Untag(b), name, labels, e);
      if e.kind == Counter {
        SplitIs(a, streams);
        SplitIs(b, streams);
        MergesMeans(a, streams);
        MergesMeans(b, streams);
        TotalOfMerge(a, |streams|, name, labels);
        TotalOfMerge(b, |streams|, name, labels);
        CounterShowsSum(r, Untag(a), name, labels);
        CounterShowsSum(r, Untag(b), name, labels);
      } else {
        var i, k := GaugeShown(r, a, streams, name, labels);
        var j, l := GaugeShown(r, b, streams, name, labels);
      }
    } else {
      NoneShown(r, Untag(a), name, labels);
      NoneShown(r, Untag(b), name, labels);
    }
  }

  lemma MergesMeans(a: Tagged, streams: Streams)
    requires Merges(a, streams)
    ensures forall x :: x in a ==> x.0 < |streams|
  {
  }

  /** Settled sources leave one registry, however they are merged. */
  lemma SettledAgree(r: Registry, streams: Streams, a: Tagged, b: Tagged)
    requires Merges(a, streams) && Merges(b, streams) && AllFit(r, Untag(a)) && AllFit(r, Untag(b)) && Settled(streams)
    ensures PutAll(r, Untag(a)) == PutAll(r, Untag(b))
  {
    hide *;
    SameElements(a, b, streams);
    SameElements(b, a, streams);
    PutAllDescribed(r, Untag(a));
    PutAllDescribed(r, Untag(b));
    forall name, labels
      ensures Shown(PutAll(r, Untag(a)), name, labels) == Shown(PutAll(r, Untag(b)), name, labels)
    {
      SettledShows(r, streams, a, b, name, labels);
    }
    SameRegistry(r, Untag(a), Untag(b), PutAll(r, Untag(a)), PutAll(r, Untag(b)));
  }

  // ---------------------------------------------------------------- unsettled sources

  function Tag(i: nat, s: seq<Metric>): (r: Tagged)
    ensures |r| == |s| && forall k :: 0 <= k < |s| ==> r[k] == (i, s[k])
  {
    seq(|s|, k requires 0 <= k < |s| => (i, s[k]))
  }

  lemma {:induction false} FromTag(i: nat, s: seq<Metric>, j: nat)
    ensures From(Tag(i, s), j) == if i == j then s else []
    decreases |s|
  {
    if s != [] {
      assert Tag(i, s)[1..] == Tag(i, s[1..]);
      FromTag(i, s[1..], j);
      assert [s[0]] + s[1..] == s && [] + From(Tag(i, s[1..]), j) == From(Tag(i, s[1..]), j);
    }
  }

  /** The first `n` sources one after another, leaving out two. */
  function Others(streams: Streams, n: nat, i: nat, j: nat): Tagged
    requires n <= |streams|
  {
    if n == 0 then []
    else Others(streams, n - 1, i, j) + if n - 1 == i || n - 1 == j then [] else Tag(n - 1, streams[n - 1])
  }

  lemma FromNothing(q: nat)
    ensures From<Metric>([], q) == []
  {
  }

  lemma {:induction false} FromOthers(streams: Streams, n: nat, i: nat, j: nat, q: nat)
    requires n <= |streams|
    ensures From(Others(streams, n, i, j), q) == if q < n && q != i && q != j then streams[q] else []
    ensures forall x :: x in Others(streams, n, i, j) ==> x.0 < n
  {
    hide From, Tag;
    FromNothing(q);
    if n > 0 {
      var before := Others(streams, n - 1, i, j);
      FromOthers(streams, n - 1, i, j, q);
      if n - 1 == i || n - 1 == j {
        assert before + [] == before;
      } else {
        FromAppend(before, Tag(n - 1, streams[n - 1]), q);
        FromTag(n - 1, streams[n - 1], q);
      }
    }
  }

  /** All the others, then source i, then source j. */
  function OneLast(streams: Streams, i: nat, j: nat): Tagged
    requires i < |streams| && j < |streams|
  {
    Others(streams, |streams|, i, j) + Tag(i, streams[i]) + Tag(j, streams[j])
  }

  lemma OneLastMerges(streams: Streams, i: nat, j: nat)
    requires i < |streams| && j < |streams| && i != j
    ensures Merges(OneLast(streams, i, j), streams)
  {
    hide Others, From;
    var others := Others(streams, |streams|, i, j);
    forall q | 0 <= q < |streams| ensures From(OneLast(streams, i, j), q) == streams[q] {
      FromAppend(others + Tag(i, streams[i]), Tag(j, streams[j]), q);
      FromAppend(others, Tag(i, streams[i]), q);
      FromOthers(streams, |streams|, i, j, q);
      FromTag(i, streams[i], q);
      FromTag(j, streams[j], q);
    }
    FromOthers(streams, |streams|, i, j, 0);
  }

  lemma LastShows(r: Registry, streams: Streams, i: nat, j: nat, l: nat, name: string, labels: Labels)
    requires i < |streams| && j < |streams| && LastSet(streams[j], l, name, labels)
    requires AllFit(r, Untag(OneLast(streams, i, j)))
    ensures Shown(PutAll(r, Untag(OneLast(streams, i, j))), name, labels) == streams[j][l].value
  {
    hide AllFit, PutAll, Shown, SameSeries, Others;
    var before := Others(streams, |streams|, i, j) + Tag(i, streams[i]);
    var events := Untag(OneLast(streams, i, j));
    var k := |before| + l;
    assert forall m :: 0 <= m < |streams[j]| ==> events[|before| + m] == streams[j][m];
    forall m | k < m < |events| ensures !SameSeries(events[m], name, labels) {
      assert events[m] == streams[j][m - |before|];
    }
    GaugeShowsLast(r, events, k, name, labels);
  }

  /** The sources' events fit the registry and agree on what names stand for. */
  ghost predicate Agreed(r: Registry, streams: Streams) {
    && (forall i, k :: 0 <= i < |streams| && 0 <= k < |streams[i]| ==> Fits(r, streams[i][k]))
    && forall i, j, k, l :: 0 <= i < |streams| && 0 <= j < |streams| && 0 <= k < |streams[i]| && 0 <= l < |streams[j]|
         ==> Agree(streams[i][k], streams[j][l])
  }

  lemma MergeFits(r: Registry, streams: Streams, a: Tagged)
    requires Agreed(r, streams) && Merges(a, streams)
    ensures AllFit(r, Untag(a))
  {
    hide Fits, Agree;
    forall e | e in Untag(a) ensures exists i, k :: 0 <= i < |streams| && 0 <= k < |streams[i]| && streams[i][k] == e {
      var p :| 0 <= p < |a| && a[p].1 == e;
      assert a[p] in a;
      FromMembers(a, a[p]);
      var k :| 0 <= k < |streams[a[p].0]| && streams[a[p].0][k] == e;
    }
  }

  /** For sources whose events agree on what names stand for: every interleaving leaves the same
      registry if and only if sources that set one gauge series leave it at one value. Counters
      may be shared freely. */
  lemma ConfluentIff(r: Registry, streams: Streams)
    requires Agreed(r, streams)
    ensures forall a :: Merges(a, streams) ==> AllFit(r, Untag(a))
    ensures (forall a, b :: Merges(a, streams) && Merges(b, streams) ==> PutAll(r, Untag(a)) == PutAll(r, Untag(b)))
       <==> Settled(streams)
  {
    hide AllFit, PutAll, Merges, Described, OneLast, SameSeries, Agreed;
    forall a | Merges(a, streams) ensures AllFit(r, Untag(a)) {
      MergeFits(r, streams, a);
    }
    if Settled(streams) {
      forall a, b | Merges(a, streams) && Merges(b, streams) ensures PutAll(r, Untag(a)) == PutAll(r, Untag(b)) {
        SettledAgree(r, streams, a, b);
      }
    } else {
      var i: nat, j: nat, k: nat, l: nat, name, labels :|
        i < |streams| && j < |streams| && LastSet(streams[i], k, name, labels) && LastSet(streams[j], l, name, labels)
        && streams[i][k].value != streams[j][l].value;
      SameSource(streams[i], k, l, name, labels);
      OneLastMerges(streams, i, j);
      OneLastMerges(streams, j, i);
      LastShows(r, streams, i, j, l, name, labels);
      LastShows(r, streams, j, i, k, name, labels);
      assert PutAll(r, Untag(OneLast(streams, i, j))) != PutAll(r, Untag(OneLast(streams, j, i)));
    }
  }

  lemma SameSource(events: seq<Metric>, k: nat, l: nat, name: string, labels: Labels)
    ensures LastSet(events, k, name, labels) && LastSet(events, l, name, labels) ==> k == l
  {
  }
}
