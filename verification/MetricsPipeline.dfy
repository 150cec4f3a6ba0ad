/** Pollers, their buffers and the fan-in of tools/metrics/pkg/metrics/metrics.go, as a
    transition system up to the first Close. Each channel send and receive is one
    action, and any enabled action may come next. */
module MetricsPipeline {
  import opened Collections
  import opened Wrappers

  /** `EOS` is one particular error value; every other error is Other. */
  datatype Error = Eos | Other(text: string)

  datatype Event<M> = Reading(metric: M) | Fault(err: Error)

  /** NewMetricPoller's buffer size. */
  const POLLER_BUFFER: nat := 8

  /** `buffers[i]` is poller i's buffer, `hands[i]` what its copying goroutine has read
      and not yet sent on; `merged` is the merged buffer and `out` what has been read
      from it. Tags on merged events say which source they came from; the program does
      not have them. `written[i]` is all that poller i has ever sent. */
  datatype State<M> = State(
    buffers: seq<seq<Event<M>>>, hands: seq<Option<Event<M>>>,
    merged: seq<(nat, Event<M>)>, out: seq<(nat, Event<M>)>,
    written: seq<seq<Event<M>>>, closed: bool)

  function Init<M>(n: nat): State<M> {
    State(seq(n, _ => []), seq(n, _ => None), [], [], seq(n, _ => []), false)
  }

  datatype Action<M> = Write(i: nat, event: Event<M>) | Read(i: nat) | Send(i: nat) | Deliver

  predicate Shaped<M>(n: nat, s: State<M>) { |s.buffers| == |s.hands| == |s.written| == n }

  predicate Enabled<M(==)>(n: nat, s: State<M>, a: Action<M>)
    requires Shaped(n, s)
  {
    && !s.closed
    && match a
       case Write(i, _) => i < n && |s.buffers[i]| < POLLER_BUFFER
       case Read(i) => i < n && s.hands[i] == None && s.buffers[i] != []
       case Send(i) => i < n && s.hands[i].Some? && |s.merged| < n
       case Deliver => s.merged != []
  }

  /** CopyMetrics passes a reading on, returns on any other error, which the goroutine
      then sends on itself, and closes its destination on EOS. */
  function Next<M(==)>(n: nat, s: State<M>, a: Action<M>): (t: State<M>)
    requires Shaped(n, s) && Enabled(n, s, a)
    ensures Shaped(n, t)
  {
    match a
    case Write(i, e) => s.(buffers := s.buffers[i := s.buffers[i] + [e]], written := s.written[i := s.written[i] + [e]])
    case Read(i) =>
      var e := s.buffers[i][0];
      var popped := s.(buffers := s.buffers[i := s.buffers[i][1..]]);
      if e == Fault(Eos) then popped.(closed := true) else popped.(hands := s.hands[i := Some(e)])
    case Send(i) => s.(merged := s.merged + [(i, s.hands[i].value)], hands := s.hands[i := None])
    case Deliver => s.(out := s.out + [s.merged[0]], merged := s.merged[1..])
  }

  predicate Leads<M(==)>(n: nat, s: State<M>, run: seq<Action<M>>, t: State<M>): (yes: bool)
    requires Shaped(n, s)
    ensures yes ==> Shaped(n, t)
    decreases |run|
  {
    if run == [] then t == s
    else Enabled(n, s, run[0]) && Leads(n, Next(n, s, run[0]), run[1..], t)
  }

  // ---------------------------------------------------------------- order

  function InHand<M>(hand: Option<Event<M>>): seq<Event<M>> {
    match hand case None => [] case Some(e) => [e]
  }

  /** What source i wrote is what has come out of it, then what is merged, in hand and
      buffered: nothing lost, doubled or out of order. */
  ghost predicate Ordered<M>(s: State<M>, i: nat)
    requires i < |s.buffers| && i < |s.hands| && i < |s.written|
  {
    s.written[i] == From(s.out, i) + From(s.merged, i) + InHand(s.hands[i]) + s.buffers[i]
  }

  ghost predicate Inv<M(!new)>(n: nat, s: State<M>) {
    && Shaped(n, s) && |s.merged| <= n
    && (forall i :: 0 <= i < n ==> |s.buffers[i]| <= POLLER_BUFFER)
    && (!s.closed ==> forall i :: 0 <= i < n ==> Ordered(s, i))
    && (s.closed ==> exists i :: 0 <= i < n && Fault(Eos) in s.written[i])
    && (forall e :: e in s.out + s.merged ==> e.0 < n)
  }

  lemma NextOrdered<M(!new)>(n: nat, s: State<M>, a: Action<M>, i: nat)
    requires Shaped(n, s) && i < n && Ordered(s, i) && Enabled(n, s, a)
    ensures !Next(n, s, a).closed ==> Ordered(Next(n, s, a), i)
  {
    hide From;
    match a
    case Write(j, e) =>
    case Read(j) =>
      if i == j {
        assert s.buffers[i] == [s.buffers[i][0]] + s.buffers[i][1..];
      }
    case Send(j) =>
      SendFrom(s, n, j, i);
    case Deliver =>
      DeliverFrom(s, i);
  }

  lemma SendFrom<M>(s: State<M>, n: nat, j: nat, i: nat)
    requires Shaped(n, s) && j < n && i < n && s.hands[j].Some?
    ensures From(s.out, i) + From(s.merged + [(j, s.hands[j].value)], i) + InHand(s.hands[j := None][i])
         == From(s.out, i) + From(s.merged, i) + InHand(s.hands[i])
  {
    FromAppend(s.merged, [(j, s.hands[j].value)], i);
    FromOne((j, s.hands[j].value), i);
    hide From;
  }

  lemma DeliverFrom<M>(s: State<M>, i: nat)
    requires s.merged != []
    ensures From(s.out + [s.merged[0]], i) + From(s.merged[1..], i) == From(s.out, i) + From(s.merged, i)
  {
    assert s.merged == [s.merged[0]] + s.merged[1..];
    FromAppend([s.merged[0]], s.merged[1..], i);
    FromAppend(s.out, [s.merged[0]], i);
  }

  lemma NextInv<M(!new)>(n: nat, s: State<M>, a: Action<M>)
    requires Inv(n, s) && Enabled(n, s, a)
    ensures Inv(n, Next(n, s, a))
  {
    var t := Next(n, s, a);
    forall i | 0 <= i < n ensures !t.closed ==> Ordered(t, i) {
      NextOrdered(n, s, a, i);
    }
    if t.closed {
      assert Ordered(s, a.i);
      assert Fault(Eos) in s.buffers[a.i];
      assert Fault(Eos) in t.written[a.i];
    }
    hide Ordered;
  }

  lemma InitInv<M(!new)>(n: nat)
    ensures Inv<M>(n, Init(n))
  {
  }

  lemma {:induction false} LeadsInv<M(!new)>(n: nat, s: State<M>, run: seq<Action<M>>, t: State<M>)
    requires Inv(n, s) && Leads(n, s, run, t)
    ensures Inv(n, t)
    decreases |run|
  {
    if run != [] {
      NextInv(n, s, run[0]);
      LeadsInv(n, Next(n, s, run[0]), run[1..], t);
    }
  }

  /** Before any Close: restricted to one source, the stream read from the fan-in is a
      prefix of what that source wrote, errors included, and what is missing is at most
      what the two buffers and the copier's hand can hold. */
  lemma MergedStreamIsInterleaving<M(!new)>(n: nat, run: seq<Action<M>>, s: State<M>, i: nat)
    requires Leads(n, Init(n), run, s) && !s.closed && i < n
    ensures From(s.out, i) <= s.written[i]
    ensures |s.written[i]| <= |From(s.out, i)| + 8 + 1 + |s.merged|
    ensures |s.merged| <= n && forall e :: e in s.out ==> e.0 < n
  {
    InitInv<M>(n);
    LeadsInv(n, Init(n), run, s);
    assert Ordered(s, i);
    assert s.written[i] == From(s.out, i) + (From(s.merged, i) + InHand(s.hands[i]) + s.buffers[i]);
    FromSize(s.merged, i);
    forall e | e in s.out ensures e.0 < n {
      assert e in s.out + s.merged;
    }
  }

  lemma LeadsFirst<M(!new)>(n: nat, s: State<M>, a: Action<M>, run: seq<Action<M>>, t: State<M>)
    requires Shaped(n, s) && Enabled(n, s, a) && Leads(n, Next(n, s, a), run, t)
    ensures Leads(n, s, [a] + run, t)
  {
    assert ([a] + run)[1..] == run;
  }

  /** Source i alone: it fills the merged buffer, then its copier's hand, then its own buffer. */
  lemma FillUp<M(!new)>(n: nat, s: State<M>, i: nat, e: Event<M>) returns (run: seq<Action<M>>, t: State<M>)
    requires Shaped(n, s) && !s.closed && i < n && |s.merged| <= n && e != Fault(Eos)
    requires s.buffers[i] == [] && s.hands[i] == None && s.out == []
    ensures Leads(n, s, run, t) && !t.closed && t.out == []
    ensures |t.written[i]| == |s.written[i]| + (n - |s.merged|) + 1 + 8
    decreases n - |s.merged|
  {
    var w := Next(n, s, Write(i, e));
    var r := Next(n, w, Read(i));
    var rest;
    if |s.merged| < n {
      rest, t := FillUp(n, Next(n, r, Send(i)), i, e);
      LeadsFirst(n, r, Send(i), rest, t);
      rest := [Send(i)] + rest;
    } else {
      rest, t := FillBuffer(n, r, i, e);
    }
    LeadsFirst(n, w, Read(i), rest, t);
    LeadsFirst(n, s, Write(i, e), [Read(i)] + rest, t);
    run := [Write(i, e)] + ([Read(i)] + rest);
  }

  lemma FillBuffer<M(!new)>(n: nat, s: State<M>, i: nat, e: Event<M>) returns (run: seq<Action<M>>, t: State<M>)
    requires Shaped(n, s) && !s.closed && i < n && |s.buffers[i]| <= 8
    ensures Leads(n, s, run, t) && !t.closed && t.out == s.out
    ensures |t.written[i]| == |s.written[i]| + 8 - |s.buffers[i]|
    decreases 8 - |s.buffers[i]|
  {
    if |s.buffers[i]| == 8 {
      run, t := [], s;
    } else {
      var rest;
      rest, t := FillBuffer(n, Next(n, s, Write(i, e)), i, e);
      LeadsFirst(n, s, Write(i, e), rest, t);
      run := [Write(i, e)] + rest;
    }
  }

  /** The bound on the lag is attained: the buffers hold exactly that much. */
  lemma LagIsAttained<M(!new)>(n: nat, i: nat, e: Event<M>) returns (run: seq<Action<M>>, s: State<M>)
    requires i < n && e != Fault(Eos)
    ensures Leads(n, Init(n), run, s) && !s.closed && From(s.out, i) == [] && |s.written[i]| == 8 + 1 + n
  {
    run, s := FillUp(n, Init<M>(n), i, e);
  }

  /** The fan-in is only ever closed by a source that wrote EOS as an error. */
  lemma OnlyEosCloses<M(!new)>(n: nat, run: seq<Action<M>>, s: State<M>)
    requires Leads(n, Init(n), run, s)
    requires forall i :: 0 <= i < n ==> Fault(Eos) !in s.written[i]
    ensures !s.closed
  {
    InitInv<M>(n);
    LeadsInv(n, Init(n), run, s);
  }

  // ---------------------------------------------------------------- progress

  /** How many reads, sends and deliveries the events under way still need. */
  function Remaining<M>(buffers: seq<seq<Event<M>>>, hands: seq<Option<Event<M>>>): nat
    requires |buffers| == |hands|
  {
    if buffers == [] then 0
    else Remaining(buffers[..|buffers| - 1], hands[..|hands| - 1])
         + 3 * |buffers[|buffers| - 1]| + if hands[|hands| - 1].Some? then 2 else 0
  }

  lemma {:induction false} RemainingUpdate<M>(buffers: seq<seq<Event<M>>>, hands: seq<Option<Event<M>>>,
                                              i: nat, b: seq<Event<M>>, h: Option<Event<M>>)
    requires |buffers| == |hands| && i < |buffers|
    ensures Remaining(buffers[i := b], hands[i := h]) + 3 * |buffers[i]| + (if hands[i].Some? then 2 else 0)
         == Remaining(buffers, hands) + 3 * |b| + (if h.Some? then 2 else 0)
  {
    var n := |buffers| - 1;
    if i < n {
      RemainingUpdate(buffers[..n], hands[..n], i, b, h);
      assert buffers[i := b][..n] == buffers[..n][i := b] && hands[i := h][..n] == hands[..n][i := h];
    } else {
      assert buffers[i := b][..n] == buffers[..n] && hands[i := h][..n] == hands[..n];
    }
  }

  function UnderWay<M>(s: State<M>): nat
    requires |s.buffers| == |s.hands|
  {
    Remaining(s.buffers, s.hands) + |s.merged|
  }

  /** Every action of the copiers and the reader brings delivery one action closer. */
  lemma CopyingIsProgress<M(!new)>(n: nat, s: State<M>, a: Action<M>)
    requires Shaped(n, s) && Enabled(n, s, a) && !a.Write?
    requires forall i :: 0 <= i < n ==> Fault(Eos) !in s.buffers[i]
    ensures UnderWay(Next(n, s, a)) + 1 == UnderWay(s)
    ensures forall i :: 0 <= i < n ==> Fault(Eos) !in Next(n, s, a).buffers[i]
    ensures !Next(n, s, a).closed && Next(n, s, a).written == s.written
  {
    match a
    case Read(i) =>
      assert s.buffers[i] == [s.buffers[i][0]] + s.buffers[i][1..];
      RemainingUpdate(s.buffers, s.hands, i, s.buffers[i][1..], Some(s.buffers[i][0]));
    case Send(i) =>
      RemainingUpdate(s.buffers, s.hands, i, s.buffers[i], None);
      assert s.buffers[i := s.buffers[i]] == s.buffers;
    case Deliver =>
  }

  /** While anything is under way some copier or the reader can act. */
  lemma SomethingEnabled<M(!new)>(n: nat, s: State<M>) returns (a: Action<M>)
    requires Inv(n, s) && !s.closed && UnderWay(s) > 0
    ensures Enabled(n, s, a) && !a.Write?
  {
    if s.merged != [] {
      a := Deliver;
    } else {
      var i := SomeSource(s.buffers, s.hands);
      a := if s.hands[i].Some? then Send(i) else Read(i);
    }
  }

  lemma {:induction false} SomeSource<M>(buffers: seq<seq<Event<M>>>, hands: seq<Option<Event<M>>>) returns (i: nat)
    requires |buffers| == |hands| && Remaining(buffers, hands) > 0
    ensures i < |buffers| && (buffers[i] != [] || hands[i].Some?)
  {
    var n := |buffers| - 1;
    if buffers[n] != [] || hands[n].Some? {
      i := n;
    } else {
      i := SomeSource(buffers[..n], hands[..n]);
    }
  }

  /** If the sources pause, everything they wrote can be delivered. */
  lemma {:induction false} CanDrain<M(!new)>(n: nat, s: State<M>) returns (run: seq<Action<M>>, t: State<M>)
    requires Inv(n, s) && !s.closed && forall i :: 0 <= i < n ==> Fault(Eos) !in s.buffers[i]
    ensures Leads(n, s, run, t) && |run| == UnderWay(s) && forall a :: a in run ==> !a.Write?
    ensures !t.closed && t.written == s.written && forall i :: 0 <= i < n ==> From(t.out, i) == s.written[i]
    decreases UnderWay(s)
  {
    if UnderWay(s) == 0 {
      run, t := [], s;
      forall i | 0 <= i < n ensures From(t.out, i) == s.written[i] {
        assert Ordered(s, i);
        NothingLeft(s.buffers, s.hands, i);
        assert s.merged == [];
      }
    } else {
      var a := SomethingEnabled(n, s);
      NextInv(n, s, a);
      CopyingIsProgress(n, s, a);
      var rest;
      rest, t := CanDrain(n, Next(n, s, a));
      run := [a] + rest;
      assert run[1..] == rest;
      hide Inv, Next, Enabled;
    }
  }

  lemma {:induction false} NothingLeft<M>(buffers: seq<seq<Event<M>>>, hands: seq<Option<Event<M>>>, i: nat)
    requires |buffers| == |hands| && Remaining(buffers, hands) == 0 && i < |buffers|
    ensures buffers[i] == [] && hands[i] == None
  {
    var n := |buffers| - 1;
    if i < n {
      NothingLeft(buffers[..n], hands[..n], i);
    }
  }

  /** And it is, whichever copiers move first: a run without new writes has at most
      UnderWay actions, and one that long has delivered everything. */
  lemma {:induction false} EveryDrainEnds<M(!new)>(n: nat, s: State<M>, run: seq<Action<M>>, t: State<M>)
    requires Inv(n, s) && forall i :: 0 <= i < n ==> Fault(Eos) !in s.buffers[i]
    requires Leads(n, s, run, t) && !s.closed && forall a :: a in run ==> !a.Write?
    ensures |run| + UnderWay(t) == UnderWay(s) && !t.closed && t.written == s.written
    ensures |run| == UnderWay(s) ==> forall i :: 0 <= i < n ==> From(t.out, i) == s.written[i]
    decreases |run|
  {
    if run == [] {
      if UnderWay(s) == 0 {
        var none, u := CanDrain(n, s);
        assert none == [];
      }
    } else {
      assert run[0] in run;
      NextInv(n, s, run[0]);
      CopyingIsProgress(n, s, run[0]);
      EveryDrainEnds(n, Next(n, s, run[0]), run[1..], t);
    }
  }

  // ---------------------------------------------------------------- what an EOS costs

  ghost predicate NoWrites<M>(run: seq<Action<M>>) { forall a :: a in run ==> !a.Write? }

  ghost predicate Delivered<M(!new)>(n: nat, s: State<M>)
    requires Shaped(n, s)
  {
    forall i :: 0 <= i < n ==> From(s.out, i) == s.written[i]
  }

  ghost predicate Doomed<M(!new)>(n: nat, s: State<M>)
    requires Shaped(n, s)
  {
    exists i :: 0 <= i < n && Fault(Eos) in s.buffers[i]
  }

  /** A buffered EOS stays where it is until it is read, which closes the fan-in; any other
      action is progress. */
  lemma DoomedStep<M(!new)>(n: nat, s: State<M>, a: Action<M>)
    requires Shaped(n, s) && Enabled(n, s, a) && !a.Write? && Doomed(n, s)
    ensures var t := Next(n, s, a); UnderWay(t) < UnderWay(s) && (t.closed || Doomed(n, t))
  {
    var i :| 0 <= i < n && Fault(Eos) in s.buffers[i];
    var t := Next(n, s, a);
    match a
    case Read(j) =>
      assert s.buffers[j] == [s.buffers[j][0]] + s.buffers[j][1..];
      var hand := if t.closed then s.hands[j] else Some(s.buffers[j][0]);
      RemainingUpdate(s.buffers, s.hands, j, s.buffers[j][1..], hand);
      assert s.hands[j := s.hands[j]] == s.hands;
      assert !t.closed ==> Fault(Eos) in t.buffers[i];
    case Send(j) =>
      RemainingUpdate(s.buffers, s.hands, j, s.buffers[j], None);
      assert s.buffers[j := s.buffers[j]] == s.buffers;
      assert Fault(Eos) in t.buffers[i];
    case Deliver =>
      assert Fault(Eos) in t.buffers[i];
  }

  /** A buffered EOS is under way, and an open state with one has not delivered everything. */
  lemma DoomedIsUnderWay<M(!new)>(n: nat, s: State<M>)
    requires Inv(n, s) && !s.closed && Doomed(n, s)
    ensures UnderWay(s) > 0 && !Delivered(n, s)
  {
    var i :| 0 <= i < n && Fault(Eos) in s.buffers[i];
    assert Ordered(s, i);
    if UnderWay(s) == 0 {
      NothingLeft(s.buffers, s.hands, i);
    }
  }

  /** Whichever copiers move first, without new writes the fan-in closes within UnderWay actions
      of an EOS being buffered; while it is open something is missing. */
  lemma {:induction false} EosAlwaysCloses<M(!new)>(n: nat, s: State<M>, run: seq<Action<M>>, t: State<M>)
    requires Inv(n, s) && !s.closed && Doomed(n, s) && Leads(n, s, run, t) && NoWrites(run)
    ensures t.closed || (|run| < UnderWay(s) && Doomed(n, t) && !Delivered(n, t))
    decreases |run|
  {
    if run == [] {
      DoomedIsUnderWay(n, s);
    } else {
      assert run[0] in run;
      var m := Next(n, s, run[0]);
      NextInv(n, s, run[0]);
      DoomedStep(n, s, run[0]);
      if !m.closed {
        EosAlwaysCloses(n, m, run[1..], t);
      }
    }
  }

  /** And it does close: there is such a run. */
  lemma EosCanClose<M(!new)>(n: nat, s: State<M>) returns (run: seq<Action<M>>, t: State<M>)
    requires Inv(n, s) && !s.closed && Doomed(n, s)
    ensures Leads(n, s, run, t) && NoWrites(run) && t.closed
    decreases UnderWay(s)
  {
    DoomedIsUnderWay(n, s);
    var a := SomethingEnabled(n, s);
    var m := Next(n, s, a);
    NextInv(n, s, a);
    DoomedStep(n, s, a);
    if m.closed {
      run, t := [a], m;
      assert run[1..] == [];
    } else {
      var rest;
      rest, t := EosCanClose(n, m);
      run := [a] + rest;
      assert run[1..] == rest;
    }
  }

  /** If the sources pause, everything they wrote can be delivered with the fan-in still open if
      and only if no buffer holds an EOS. */
  lemma DrainsIff<M(!new)>(n: nat, s: State<M>)
    requires Inv(n, s) && !s.closed
    ensures (exists run, t :: Leads(n, s, run, t) && NoWrites(run) && !t.closed && Delivered(n, t)) <==> !Doomed(n, s)
  {
    if Doomed(n, s) {
      forall run, t | Leads(n, s, run, t) && NoWrites(run) && !t.closed ensures !Delivered(n, t) {
        EosAlwaysCloses(n, s, run, t);
      }
    } else {
      var run, t := CanDrain(n, s);
      assert NoWrites(run) && Delivered(n, t);
    }
  }
}
