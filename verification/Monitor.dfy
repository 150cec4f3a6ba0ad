/** The availability monitor (monitor.go): one producer, a fixed number of workers and a
    collector over two bounded channels and a halt signal, as a transition system. Every
    receive, send and select branch of the goroutines is one action, and any enabled
    action may come next. */
module Monitor {
  import opened Collections
  import opened Review
  import opened Wrappers

  datatype Config = Config(tasks: nat, numWorkers: nat, warns: string -> bool)

  /** Waiting: in the select. Sending: the timer has fired, blocked on the queue. */
  datatype Producer = Waiting(next: nat) | Sending(next: nat) | Stopped

  datatype Worker = Idle | Busy(task: nat) | Holding(result: Result) | Gone

  /** Reporting: blocked on the reporter channel, which Run receives from. */
  datatype Collector = Collecting | Reporting | Returned

  /** `enqueued` and `recorded` are what has been sent to the queue and what the
      collector has taken, in order. */
  datatype State = State(
    queue: seq<nat>, results: seq<Result>, producer: Producer, workers: seq<Worker>,
    collector: Collector, review: Counts, halted: bool,
    enqueued: seq<nat>, recorded: seq<Result>)

  function Init(c: Config): State {
    State([], [], Waiting(0), seq(c.numWorkers, _ => Idle), Collecting, NOTHING, false, [], [])
  }

  datatype Action =
    | Tick | Send | ProducerHalt
    | Take(w: nat) | Finish(w: nat, err: Option<string>) | Put(w: nat) | WorkerHalt(w: nat)
    | Collect | CollectorHalt | Deliver
    | Stop

  predicate Enabled(c: Config, s: State, a: Action) {
    match a
    // with no tasks the producer spins in an empty loop and never looks at halt
    case Tick => s.producer.Waiting? && c.tasks > 0
    case ProducerHalt => s.producer.Waiting? && c.tasks > 0 && s.halted
    case Send => s.producer.Sending? && |s.queue| < c.numWorkers
    case Take(w) => w < |s.workers| && s.workers[w].Idle? && s.queue != []
    case Finish(w, _) => w < |s.workers| && s.workers[w].Busy?
    case Put(w) => w < |s.workers| && s.workers[w].Holding? && |s.results| < c.numWorkers
    case WorkerHalt(w) => w < |s.workers| && s.workers[w].Idle? && s.halted
    case Collect => s.collector.Collecting? && s.results != []
    case CollectorHalt => s.collector.Collecting? && s.halted
    case Deliver => s.collector.Reporting?
    case Stop => true
  }

  function Next(c: Config, s: State, a: Action): State
    requires Enabled(c, s, a)
  {
    match a
    case Tick => s.(producer := Sending(s.producer.next))
    case ProducerHalt => s.(producer := Stopped)
    case Send =>
      s.(queue := s.queue + [s.producer.next], enqueued := s.enqueued + [s.producer.next],
         producer := Waiting(After(c, s.producer.next)))
    case Take(w) => s.(queue := s.queue[1..], workers := s.workers[w := Busy(s.queue[0])])
    case Finish(w, err) => s.(workers := s.workers[w := Holding(Result(s.workers[w].task, err))])
    case Put(w) => s.(results := s.results + [s.workers[w].result], workers := s.workers[w := Idle])
    case WorkerHalt(w) => s.(workers := s.workers[w := Gone])
    case Collect =>
      s.(results := s.results[1..], recorded := s.recorded + [s.results[0]],
         review := Recorded(s.review, s.results[0], c.warns))
    case CollectorHalt => s.(collector := Reporting)
    case Deliver => s.(collector := Returned)
    case Stop => s.(halted := true)
  }

  /** Taking `run` from `s` leads to `t`. */
  predicate Leads(c: Config, s: State, run: seq<Action>, t: State)
    decreases |run|
  {
    if run == [] then t == s
    else Enabled(c, s, run[0]) && Leads(c, Next(c, s, run[0]), run[1..], t)
  }

  // ---------------------------------------------------------------- invariant

  predicate Has(w: Worker, task: nat) {
    (w.Busy? && w.task == task) || (w.Holding? && w.result.task == task)
  }

  /** The workers weighed one by one. */
  function Weigh(ws: seq<Worker>, weight: Worker -> nat): nat {
    if ws == [] then 0 else Weigh(ws[..|ws| - 1], weight) + weight(ws[|ws| - 1])
  }

  lemma {:induction false} WeighUpdate(ws: seq<Worker>, w: nat, x: Worker, weight: Worker -> nat)
    requires w < |ws|
    ensures Weigh(ws[w := x], weight) + weight(ws[w]) == Weigh(ws, weight) + weight(x)
  {
    var n := |ws| - 1;
    if w < n {
      WeighUpdate(ws[..n], w, x, weight);
      assert ws[w := x][..n] == ws[..n][w := x];
    } else {
      assert ws[w := x][..n] == ws[..n];
    }
  }

  lemma {:induction false} WeighIdle(n: nat, weight: Worker -> nat)
    requires weight(Idle) == 0
    ensures Weigh(seq(n, _ => Idle), weight) == 0
  {
    if n > 0 {
      WeighIdle(n - 1, weight);
      assert seq(n, _ => Idle)[..n - 1] == seq(n - 1, _ => Idle);
    }
  }

  lemma {:induction false} WeighAtMost(ws: seq<Worker>, weight: Worker -> nat, most: nat)
    requires forall w :: weight(w) <= most
    ensures Weigh(ws, weight) <= most * |ws|
  {
    if ws != [] {
      WeighAtMost(ws[..|ws| - 1], weight, most);
      assert most * |ws| == most * (|ws| - 1) + most;
    }
  }

  function HoldsTask(task: nat): Worker -> nat { w => if Has(w, task) then 1 else 0 }

  function HoldsAny(): Worker -> nat { (w: Worker) => if w.Busy? || w.Holding? then 1 else 0 }

  /** How many workers have taken `task`, or any task, and not yet handed it on. */
  function Held(ws: seq<Worker>, task: nat): nat { Weigh(ws, HoldsTask(task)) }

  function Occupied(ws: seq<Worker>): nat { Weigh(ws, HoldsAny()) }

  function TasksOf(rs: seq<Result>): (r: seq<nat>)
    ensures |r| == |rs| && forall i :: 0 <= i < |rs| ==> r[i] == rs[i].task
  {
    seq(|rs|, i requires 0 <= i < |rs| => rs[i].task)
  }

  function After(c: Config, task: nat): nat { if task + 1 >= c.tasks then 0 else task + 1 }

  /** The task whose turn it is after those in `sent`. */
  function Turn(c: Config, sent: seq<nat>): nat {
    if sent == [] then 0 else After(c, sent[|sent| - 1])
  }

  ghost predicate InTurn(c: Config, sent: seq<nat>) {
    forall k :: 0 <= k < |sent| ==> c.tasks > 0 && sent[k] == Turn(c, sent[..k])
  }

  ghost predicate RoundRobin(c: Config, s: State) {
    && InTurn(c, s.enqueued)
    && (s.producer.Sending? ==> c.tasks > 0)
    && (!s.producer.Stopped? ==> s.producer.next == Turn(c, s.enqueued))
  }

  /** Every time a task was sent it is in the queue, with a worker, in the results or
      recorded: none lost, none twice. */
  ghost predicate Conserved(s: State, task: nat) {
    Count(s.enqueued, task) == Count(s.queue, task) + Held(s.workers, task)
                               + Count(TasksOf(s.results), task) + Count(TasksOf(s.recorded), task)
  }

  ghost predicate SizeConserved(s: State) {
    |s.enqueued| == |s.queue| + Occupied(s.workers) + |s.results| + |s.recorded|
  }

  ghost predicate Inv(c: Config, s: State) {
    && |s.workers| == c.numWorkers && |s.queue| <= c.numWorkers && |s.results| <= c.numWorkers
    && (forall task :: Conserved(s, task)) && SizeConserved(s) && RoundRobin(c, s)
    && s.review == RecordedAll(s.recorded, c.warns)
    && (!s.halted ==> s.collector.Collecting? && !s.producer.Stopped? && forall w :: w in s.workers ==> !w.Gone?)
  }

  lemma InitInv(c: Config)
    ensures Inv(c, Init(c))
  {
    forall task ensures Conserved(Init(c), task) {
      WeighIdle(c.numWorkers, HoldsTask(task));
    }
    WeighIdle(c.numWorkers, HoldsAny());
  }

  lemma NextConserves(c: Config, s: State, a: Action, task: nat)
    requires Conserved(s, task) && Enabled(c, s, a)
    ensures Conserved(Next(c, s, a), task)
  {
    hide Weigh, CountIf;
    match a
    case Send => CountIfSnoc(s.enqueued, s.producer.next, Is(task)); CountIfSnoc(s.queue, s.producer.next, Is(task));
    case Take(w) =>
      WeighUpdate(s.workers, w, Busy(s.queue[0]), HoldsTask(task));
      CountIfSplit(s.queue, Is(task));
    case Finish(w, err) => WeighUpdate(s.workers, w, Holding(Result(s.workers[w].task, err)), HoldsTask(task));
    case Put(w) =>
      WeighUpdate(s.workers, w, Idle, HoldsTask(task));
      TasksOfSnoc(s.results, s.workers[w].result, task);
    case WorkerHalt(w) => WeighUpdate(s.workers, w, Gone, HoldsTask(task));
    case Collect =>
      CountIfSplit(TasksOf(s.results), Is(task));
      assert TasksOf(s.results)[1..] == TasksOf(s.results[1..]);
      TasksOfSnoc(s.recorded, s.results[0], task);
    case _ =>
  }

  lemma NextSize(c: Config, s: State, a: Action)
    requires SizeConserved(s) && Enabled(c, s, a)
    ensures SizeConserved(Next(c, s, a))
  {
    hide Weigh;
    match a
    case Take(w) => WeighUpdate(s.workers, w, Busy(s.queue[0]), HoldsAny());
    case Finish(w, err) => WeighUpdate(s.workers, w, Holding(Result(s.workers[w].task, err)), HoldsAny());
    case Put(w) => WeighUpdate(s.workers, w, Idle, HoldsAny());
    case WorkerHalt(w) => WeighUpdate(s.workers, w, Gone, HoldsAny());
    case _ =>
  }

  lemma TasksOfSnoc(rs: seq<Result>, r: Result, task: nat)
    ensures Count(TasksOf(rs + [r]), task) == Count(TasksOf(rs), task) + if r.task == task then 1 else 0
  {
    assert TasksOf(rs + [r]) == TasksOf(rs) + [r.task];
    CountIfSnoc(TasksOf(rs), r.task, Is(task));
  }

  lemma NextRoundRobin(c: Config, s: State, a: Action)
    requires RoundRobin(c, s) && Enabled(c, s, a)
    ensures RoundRobin(c, Next(c, s, a))
  {
    if a.Send? {
      var sent := s.enqueued + [s.producer.next];
      forall k | 0 <= k < |sent| ensures sent[k] == Turn(c, sent[..k]) {
        if k < |s.enqueued| {
          assert sent[..k] == s.enqueued[..k];
        } else {
          assert sent[..k] == s.enqueued;
        }
      }
    }
  }

  lemma NextReview(c: Config, s: State, a: Action)
    requires Enabled(c, s, a) && s.review == RecordedAll(s.recorded, c.warns)
    ensures var t := Next(c, s, a); t.review == RecordedAll(t.recorded, c.warns)
  {
    if a.Collect? {
      assert (s.recorded + [s.results[0]])[..|s.recorded|] == s.recorded;
    }
  }

  lemma NextInv(c: Config, s: State, a: Action)
    requires Inv(c, s) && Enabled(c, s, a)
    ensures Inv(c, Next(c, s, a))
  {
    hide Conserved, SizeConserved, RoundRobin, RecordedAll;
    NextSize(c, s, a);
    forall task ensures Conserved(Next(c, s, a), task) {
      NextConserves(c, s, a, task);
    }
    NextRoundRobin(c, s, a);
    NextReview(c, s, a);
  }

  lemma {:induction false} LeadsInv(c: Config, s: State, run: seq<Action>, t: State)
    requires Inv(c, s) && Leads(c, s, run, t)
    ensures Inv(c, t)
    decreases |run|
  {
    hide Inv, Next, Enabled;
    if run != [] {
      NextInv(c, s, run[0]);
      LeadsInv(c, Next(c, s, run[0]), run[1..], t);
    }
  }

  // ---------------------------------------------------------------- safety

  /** In every reachable state, halted or not: what was sent is what is queued, held,
      pending or recorded, and the report's totals agree with its nested maps. */
  lemma Conservation(c: Config, run: seq<Action>, s: State)
    requires Leads(c, Init(c), run, s)
    ensures forall task :: Conserved(s, task)
    ensures |s.enqueued| == |s.queue| + Occupied(s.workers) + |s.results|
                            + s.review.success + s.review.failure + s.review.warning
    ensures s.review.failure == Total(s.review.errors) && s.review.warning == Total(s.review.warnings)
    ensures forall t, g :: CountOf(s.review.errors, t, g) + CountOf(s.review.warnings, t, g) == Count(s.recorded, Result(t, Some(g)))
    ensures |s.queue| <= c.numWorkers && |s.results| <= c.numWorkers && Occupied(s.workers) <= c.numWorkers
  {
    InitInv(c);
    LeadsInv(c, Init(c), run, s);
    RecordedAddsUp(s.recorded, c.warns);
    WeighAtMost(s.workers, HoldsAny(), 1);
  }

  /** Tasks sent in turn: each has been sent `passes` times, and those before the turn
      once more. */
  lemma {:induction false} InTurnCounts(c: Config, sent: seq<nat>) returns (passes: nat)
    requires InTurn(c, sent) && c.tasks > 0
    ensures Turn(c, sent) < c.tasks
    ensures forall i: nat :: i < c.tasks ==> Count(sent, i) == passes + if i < Turn(c, sent) then 1 else 0
  {
    if sent == [] {
      passes := 0;
    } else {
      var most := sent[..|sent| - 1];
      forall k | 0 <= k < |most| ensures most[k] == Turn(c, most[..k]) {
        assert most[..k] == sent[..k];
      }
      passes := InTurnCounts(c, most);
      assert sent[|sent| - 1] == Turn(c, most);
      if Turn(c, sent) == 0 {
        passes := passes + 1;
      }
      forall i: nat | i < c.tasks ensures Count(sent, i) == Count(most, i) + if sent[|sent| - 1] == i then 1 else 0 {
        assert sent == most + [sent[|sent| - 1]];
        CountIfSnoc(most, sent[|sent| - 1], Is(i));
      }
    }
  }

  /** No task is ever more than one run ahead of another. */
  lemma TasksAreFair(c: Config, run: seq<Action>, s: State, i: nat, j: nat)
    requires Leads(c, Init(c), run, s) && i < c.tasks && j < c.tasks
    ensures Count(s.enqueued, i) <= Count(s.enqueued, j) + 1
  {
    InitInv(c);
    LeadsInv(c, Init(c), run, s);
    var passes := InTurnCounts(c, s.enqueued);
    assert Count(s.enqueued, i) <= passes + 1 && Count(s.enqueued, j) >= passes;
  }

  // ---------------------------------------------------------------- from the tasks to the report

  /** The results that tasks returned in a run: at each Finish, the task the worker was busy with
      and the error its function gave. */
  function Outcomes(c: Config, s: State, run: seq<Action>): seq<Result>
    decreases |run|
  {
    if run == [] || !Enabled(c, s, run[0]) then []
    else
      (match run[0]
       case Finish(w, err) => [Result(s.workers[w].task, err)]
       case _ => [])
      + Outcomes(c, Next(c, s, run[0]), run[1..])
  }

  /** The tasks that workers took from the queue, in order. */
  function Taken(c: Config, s: State, run: seq<Action>): seq<nat>
    decreases |run|
  {
    if run == [] || !Enabled(c, s, run[0]) then []
    else (if run[0].Take? then [s.queue[0]] else []) + Taken(c, Next(c, s, run[0]), run[1..])
  }

  /** The results that workers handed on, in order. */
  function HandedOn(c: Config, s: State, run: seq<Action>): seq<Result>
    decreases |run|
  {
    if run == [] || !Enabled(c, s, run[0]) then []
    else (if run[0].Put? then [s.workers[run[0].w].result] else []) + HandedOn(c, Next(c, s, run[0]), run[1..])
  }

  function HoldsResult(p: Result -> bool): Worker -> nat { (w: Worker) => if w.Holding? && p(w.result) then 1 else 0 }

  /** The results of a kind that are with workers, pending or recorded. */
  function Around(s: State, p: Result -> bool): nat {
    Weigh(s.workers, HoldsResult(p)) + CountIf(s.results, p) + CountIf(s.recorded, p)
  }

  lemma NextAround(c: Config, s: State, a: Action, p: Result -> bool)
    requires Enabled(c, s, a)
    ensures Around(Next(c, s, a), p) == Around(s, p) + if a.Finish? && p(Result(s.workers[a.w].task, a.err)) then 1 else 0
  {
    hide Weigh, CountIf;
    match a
    case Take(w) => WeighUpdate(s.workers, w, Busy(s.queue[0]), HoldsResult(p));
    case Finish(w, err) => WeighUpdate(s.workers, w, Holding(Result(s.workers[w].task, err)), HoldsResult(p));
    case Put(w) =>
      WeighUpdate(s.workers, w, Idle, HoldsResult(p));
      CountIfSnoc(s.results, s.workers[w].result, p);
    case WorkerHalt(w) => WeighUpdate(s.workers, w, Gone, HoldsResult(p));
    case Collect =>
      CountIfSplit(s.results, p);
      CountIfSnoc(s.recorded, s.results[0], p);
    case _ =>
  }

  lemma {:induction false} OutcomesAround(c: Config, s: State, run: seq<Action>, t: State, p: Result -> bool)
    requires Leads(c, s, run, t)
    ensures Around(t, p) == Around(s, p) + CountIf(Outcomes(c, s, run), p)
    decreases |run|
  {
    hide Next, Enabled, Around;
    if run != [] {
      var a, m := run[0], Next(c, s, run[0]);
      NextAround(c, s, a, p);
      OutcomesAround(c, m, run[1..], t, p);
      FirstOutcome(c, s, run, p);
    }
  }

  lemma FirstOutcome(c: Config, s: State, run: seq<Action>, p: Result -> bool)
    requires run != [] && Enabled(c, s, run[0])
    ensures CountIf(Outcomes(c, s, run), p) == CountIf(Outcomes(c, Next(c, s, run[0]), run[1..]), p)
              + if run[0].Finish? && p(Result(s.workers[run[0].w].task, run[0].err)) then 1 else 0
  {
    hide CountIf;
    var rest := Outcomes(c, Next(c, s, run[0]), run[1..]);
    match run[0]
    case Finish(w, err) =>
      var r := Result(s.workers[w].task, err);
      CountIfSplit([r] + rest, p);
      assert ([r] + rest)[1..] == rest;
    case _ =>
      assert [] + rest == rest;
  }

  /** In every reachable state the results that tasks returned, of any kind, are with a worker,
      pending or recorded. So each nested map, and each counter, counts what tasks returned, but
      for what is still on its way. */
  lemma ReportsWhatTasksReturned(c: Config, run: seq<Action>, s: State)
    requires Leads(c, Init(c), run, s)
    ensures forall p: Result -> bool :: Around(s, p) == CountIf(Outcomes(c, Init(c), run), p)
    ensures forall t, g ::
              (CountOf(s.review.errors, t, g) + CountOf(s.review.warnings, t, g)
               + Weigh(s.workers, HoldsResult(Is(Result(t, Some(g))))) + Count(s.results, Result(t, Some(g)))
               == Count(Outcomes(c, Init(c), run), Result(t, Some(g))))
    ensures forall t, g :: (c.warns(g) ==> CountOf(s.review.errors, t, g) == 0)
                        && (!c.warns(g) ==> CountOf(s.review.warnings, t, g) == 0)
    ensures s.review.success + Weigh(s.workers, HoldsResult(IsGood())) + CountIf(s.results, IsGood())
         == CountIf(Outcomes(c, Init(c), run), IsGood())
    ensures s.review.failure + Weigh(s.workers, HoldsResult(IsFailure(c.warns))) + CountIf(s.results, IsFailure(c.warns))
         == CountIf(Outcomes(c, Init(c), run), IsFailure(c.warns))
    ensures s.review.warning + Weigh(s.workers, HoldsResult(IsWarning(c.warns))) + CountIf(s.results, IsWarning(c.warns))
         == CountIf(Outcomes(c, Init(c), run), IsWarning(c.warns))
  {
    hide Weigh, CountIf, Outcomes, Inv, Leads, RecordedAll, Next, Enabled, Total;
    InitInv(c);
    LeadsInv(c, Init(c), run, s);
    ReviewIs(c, s);
    RecordedAddsUp(s.recorded, c.warns);
    CountersCount(s.recorded, c.warns);
    forall p: Result -> bool ensures Around(s, p) == CountIf(Outcomes(c, Init(c), run), p) {
      NothingAround(c, p);
      OutcomesAround(c, Init(c), run, s, p);
    }
    forall t, g
      ensures Around(s, Is(Result(t, Some(g)))) == Count(Outcomes(c, Init(c), run), Result(t, Some(g)))
    {
    }
  }

  lemma ReviewIs(c: Config, s: State)
    requires Inv(c, s)
    ensures s.review == RecordedAll(s.recorded, c.warns)
  {
    hide Conserved, SizeConserved, RoundRobin, RecordedAll;
  }

  lemma NothingAround(c: Config, p: Result -> bool)
    ensures Around(Init(c), p) == 0
  {
    WeighIdle(c.numWorkers, HoldsResult(p));
  }

  lemma {:induction false} TakenInOrder(c: Config, s: State, run: seq<Action>, t: State, before: seq<nat>)
    requires Leads(c, s, run, t) && s.enqueued == before + s.queue
    ensures t.enqueued == before + Taken(c, s, run) + t.queue
    decreases |run|
  {
    if run != [] {
      var m := Next(c, s, run[0]);
      var now := if run[0].Take? then before + [s.queue[0]] else before;
      assert run[0].Take? ==> s.queue == [s.queue[0]] + s.queue[1..];
      TakenInOrder(c, m, run[1..], t, now);
      assert now + Taken(c, m, run[1..]) == before + Taken(c, s, run);
    }
  }

  lemma {:induction false} HandedOnInOrder(c: Config, s: State, run: seq<Action>, t: State, before: seq<Result>)
    requires Leads(c, s, run, t) && s.recorded + s.results == before
    ensures t.recorded + t.results == before + HandedOn(c, s, run)
    decreases |run|
  {
    if run != [] {
      var m := Next(c, s, run[0]);
      var now := if run[0].Put? then before + [s.workers[run[0].w].result] else before;
      assert run[0].Collect? ==> s.results == [s.results[0]] + s.results[1..];
      HandedOnInOrder(c, m, run[1..], t, now);
      assert now + HandedOn(c, m, run[1..]) == before + HandedOn(c, s, run);
    }
  }

  /** Both channels are first in, first out: what was sent is what was taken, in order, and then
      what is queued; what was recorded, and then what is pending, is what was handed on. */
  lemma ChannelsKeepOrder(c: Config, run: seq<Action>, s: State)
    requires Leads(c, Init(c), run, s)
    ensures s.enqueued == Taken(c, Init(c), run) + s.queue
    ensures s.recorded + s.results == HandedOn(c, Init(c), run)
  {
    TakenInOrder(c, Init(c), run, s, []);
    HandedOnInOrder(c, Init(c), run, s, []);
    assert [] + Taken(c, Init(c), run) == Taken(c, Init(c), run);
    assert [] + HandedOn(c, Init(c), run) == HandedOn(c, Init(c), run);
  }

  // ---------------------------------------------------------------- progress

  /** The longest way to a further recorded result: at most six actions, none a Stop. */
  lemma CanAlwaysRecord(c: Config, before: seq<Action>, s: State) returns (run: seq<Action>, t: State)
    requires Leads(c, Init(c), before, s) && !s.halted && c.tasks > 0 && c.numWorkers > 0
    ensures Leads(c, s, run, t) && 1 <= |run| <= 6 && Stop !in run
    ensures |t.recorded| == |s.recorded| + 1
  {
    InitInv(c);
    LeadsInv(c, Init(c), before, s);
    run, t := RecordNext(c, s);
  }

  lemma LeadsFirst(c: Config, s: State, a: Action, run: seq<Action>, t: State)
    requires Enabled(c, s, a) && Leads(c, Next(c, s, a), run, t)
    ensures Leads(c, s, [a] + run, t)
  {
    assert ([a] + run)[1..] == run;
  }

  /** How far the nearest result is from being recorded. */
  function Distance(s: State): nat {
    if s.results != [] then 1
    else if exists w :: 0 <= w < |s.workers| && s.workers[w].Holding? then 2
    else if exists w :: 0 <= w < |s.workers| && s.workers[w].Busy? then 3
    else if s.queue != [] then 4
    else if s.producer.Sending? then 5
    else 6
  }

  lemma RecordNext(c: Config, s: State) returns (run: seq<Action>, t: State)
    requires Inv(c, s) && !s.halted && c.tasks > 0 && c.numWorkers > 0
    ensures Leads(c, s, run, t) && 1 <= |run| <= Distance(s) && Stop !in run
    ensures |t.recorded| == |s.recorded| + 1
    decreases Distance(s)
  {
    hide RecordedAll, Conserved, SizeConserved, RoundRobin;
    var a: Action;
    if s.results != [] {
      t := Next(c, s, Collect);
      assert Leads(c, t, [], t);
      LeadsFirst(c, s, Collect, [], t);
      run := [Collect] + [];
      return;
    } else if w :| 0 <= w < |s.workers| && s.workers[w].Holding? {
      a := Put(w);
    } else if w :| 0 <= w < |s.workers| && s.workers[w].Busy? {
      a := Finish(w, None);
      assert Next(c, s, a).workers[w].Holding?;
    } else if s.queue != [] {
      assert s.workers[0] in s.workers;
      a := Take(0);
      assert Next(c, s, a).workers[0].Busy?;
    } else if s.producer.Sending? {
      a := Send;
    } else {
      a := Tick;
    }
    NextInv(c, s, a);
    var rest;
    rest, t := RecordNext(c, Next(c, s, a));
    LeadsFirst(c, s, a, rest, t);
    run := [a] + rest;
  }

  function StepsTaken(): Worker -> nat { (w: Worker) => if w.Busy? then 3 else if w.Holding? then 4 else 0 }

  /** Every task takes the same six actions from the timer to the report; this adds up
      how many of them have been taken. */
  function Work(s: State): nat {
    6 * |s.recorded| + 5 * |s.results| + Weigh(s.workers, StepsTaken()) + 2 * |s.queue|
    + if s.producer.Sending? then 1 else 0
  }

  lemma NextWork(c: Config, s: State, a: Action)
    requires Enabled(c, s, a) && !s.halted && a != Stop && !s.collector.Reporting?
    ensures Work(Next(c, s, a)) == Work(s) + 1
  {
    hide Weigh, Recorded;
    match a
    case Take(w) => WeighUpdate(s.workers, w, Busy(s.queue[0]), StepsTaken());
    case Finish(w, err) => WeighUpdate(s.workers, w, Holding(Result(s.workers[w].task, err)), StepsTaken());
    case Put(w) => WeighUpdate(s.workers, w, Idle, StepsTaken());
    case _ =>
  }

  lemma {:induction false} LeadsWork(c: Config, s: State, run: seq<Action>, t: State)
    requires Inv(c, s) && !s.halted && Leads(c, s, run, t) && Stop !in run
    ensures Work(t) == Work(s) + |run| && !t.halted
    decreases |run|
  {
    hide Work, Conserved, SizeConserved, RoundRobin, RecordedAll;
    if run != [] {
      NextWork(c, s, run[0]);
      NextInv(c, s, run[0]);
      LeadsWork(c, Next(c, s, run[0]), run[1..], t);
    }
  }

  /** Whatever the scheduler does, before a Stop every six actions are one task further:
      after k actions at least (k - 11 * numWorkers - 1) / 6 results are recorded. */
  lemma RecordsKeepComing(c: Config, run: seq<Action>, s: State)
    requires Leads(c, Init(c), run, s) && Stop !in run
    ensures s.review.success + s.review.failure + s.review.warning == |s.recorded|
    ensures 6 * |s.recorded| + 11 * c.numWorkers + 1 >= |run|
  {
    InitInv(c);
    LeadsInv(c, Init(c), run, s);
    LeadsWork(c, Init(c), run, s);
    WeighIdle(c.numWorkers, StepsTaken());
    WeighAtMost(s.workers, StepsTaken(), 4);
    RecordedAddsUp(s.recorded, c.warns);
  }

  // ---------------------------------------------------------------- after Stop

  /** From any halted state Run can return within two actions, and once it has, no
      further action changes the report it returned. */
  lemma RunCanReturn(c: Config, before: seq<Action>, s: State) returns (run: seq<Action>, t: State)
    requires Leads(c, Init(c), before, s) && s.halted
    ensures Leads(c, s, run, t) && |run| <= 2 && t.collector.Returned? && t.review == s.review
  {
    match s.collector
    case Returned => run, t := [], s;
    case Reporting =>
      run, t := [Deliver], Next(c, s, Deliver);
      assert Leads(c, t, [], t);
      assert [Deliver][1..] == [];
    case Collecting =>
      var m := Next(c, s, CollectorHalt);
      run, t := [CollectorHalt, Deliver], Next(c, m, Deliver);
      assert Leads(c, t, [], t);
      assert [CollectorHalt, Deliver][1..] == [Deliver] && [Deliver][1..] == [];
      assert Leads(c, m, [Deliver], t);
  }

  lemma {:induction false} ReportIsFinal(c: Config, s: State, run: seq<Action>, t: State)
    requires Leads(c, s, run, t) && !s.collector.Collecting?
    ensures t.review == s.review && !t.collector.Collecting?
    decreases |run|
  {
    if run != [] {
      ReportIsFinal(c, Next(c, s, run[0]), run[1..], t);
    }
  }

  /** Exactly how a stopped monitor comes to rest: nothing but Stop can happen when the
      report is out, each worker is gone or blocked on a full results channel that
      nobody reads, and the producer has stopped, spins without tasks, or is blocked on
      a full queue that nobody reads. */
  lemma AtRestIff(c: Config, before: seq<Action>, s: State)
    requires Leads(c, Init(c), before, s) && s.halted
    ensures (forall a :: Enabled(c, s, a) ==> a == Stop) <==>
            && s.collector.Returned?
            && (forall w :: w in s.workers ==> w.Gone? || (w.Holding? && |s.results| == c.numWorkers))
            && (s.producer.Stopped? || (s.producer.Waiting? && c.tasks == 0)
                || (s.producer.Sending? && |s.queue| == c.numWorkers))
  {
    InitInv(c);
    LeadsInv(c, Init(c), before, s);
    hide *;
    InvMeans(c, s);
    if forall a :: Enabled(c, s, a) ==> a == Stop {
      RestMeans(c, s);
    } else {
      var a :| Enabled(c, s, a) && a != Stop;
      NotAtRest(c, s, a);
    }
  }

  lemma InvMeans(c: Config, s: State)
    requires Inv(c, s)
    ensures |s.workers| == c.numWorkers && |s.queue| <= c.numWorkers && |s.results| <= c.numWorkers
    ensures s.producer.Sending? ==> c.tasks > 0
  {
    hide Conserved, SizeConserved, RecordedAll, InTurn;
  }

  lemma RestMeans(c: Config, s: State)
    requires s.halted && |s.workers| == c.numWorkers && |s.queue| <= c.numWorkers && |s.results| <= c.numWorkers
    requires forall a :: Enabled(c, s, a) ==> a == Stop
    ensures s.collector.Returned?
    ensures forall w :: w in s.workers ==> w.Gone? || (w.Holding? && |s.results| == c.numWorkers)
    ensures s.producer.Stopped? || (s.producer.Waiting? && c.tasks == 0) || (s.producer.Sending? && |s.queue| == c.numWorkers)
  {
    assert !Enabled(c, s, CollectorHalt) && !Enabled(c, s, Deliver) && !Enabled(c, s, ProducerHalt) && !Enabled(c, s, Send);
    forall w | w in s.workers ensures w.Gone? || (w.Holding? && |s.results| == c.numWorkers) {
      var i :| 0 <= i < |s.workers| && s.workers[i] == w;
      assert !Enabled(c, s, WorkerHalt(i)) && !Enabled(c, s, Finish(i, None)) && !Enabled(c, s, Put(i));
    }
  }

  lemma NotAtRest(c: Config, s: State, a: Action)
    requires Enabled(c, s, a) && a != Stop
    ensures !(&& s.collector.Returned?
              && (forall w :: w in s.workers ==> w.Gone? || (w.Holding? && |s.results| == c.numWorkers))
              && (s.producer.Stopped? || (s.producer.Waiting? && c.tasks == 0)
                  || (s.producer.Sending? && |s.queue| == c.numWorkers)))
  {
    if a.Take? || a.Finish? || a.Put? || a.WorkerHalt? {
      assert s.workers[a.w] in s.workers;
    }
  }

  // ---------------------------------------------------------------- a producer that cannot stop

  /** Stopped and at rest, the producer still blocked in its send. */
  ghost predicate Stuck(c: Config, s: State) {
    s.halted && s.producer.Sending? && forall a :: Enabled(c, s, a) ==> a == Stop
  }

  /** No worker has done anything but leave, the first `gone` of them have left, and nothing
      has been recorded or is pending. */
  ghost predicate Untouched(c: Config, s: State, gone: nat) {
    && |s.workers| == c.numWorkers && gone <= c.numWorkers && s.results == [] && s.collector.Collecting?
    && forall w :: 0 <= w < c.numWorkers ==> s.workers[w] == if w < gone then Gone else Idle
  }

  /** With the queue full and the producer sending: every worker sees the halt first, then the
      collector, and nobody is left to make room. */
  lemma EverybodyLeaves(c: Config, s: State, gone: nat) returns (run: seq<Action>, t: State)
    requires Untouched(c, s, gone) && s.halted && s.producer.Sending? && |s.queue| == c.numWorkers
    ensures Leads(c, s, run, t) && Stuck(c, t)
    decreases c.numWorkers - gone
  {
    if gone < c.numWorkers {
      var rest;
      rest, t := EverybodyLeaves(c, Next(c, s, WorkerHalt(gone)), gone + 1);
      LeadsFirst(c, s, WorkerHalt(gone), rest, t);
      run := [WorkerHalt(gone)] + rest;
    } else {
      var m := Next(c, s, CollectorHalt);
      t := Next(c, m, Deliver);
      assert Leads(c, t, [], t);
      LeadsFirst(c, m, Deliver, [], t);
      LeadsFirst(c, s, CollectorHalt, [Deliver] + [], t);
      run := [CollectorHalt] + ([Deliver] + []);
    }
  }

  /** The producer can run ahead of the workers until the queue is full, and be stopped there. */
  lemma FillThenStop(c: Config, s: State) returns (run: seq<Action>, t: State)
    requires Untouched(c, s, 0) && c.tasks > 0 && s.producer.Waiting? && |s.queue| <= c.numWorkers
    ensures Leads(c, s, run, t) && Stuck(c, t)
    decreases c.numWorkers - |s.queue|
  {
    var m := Next(c, s, Tick);
    var n, rest;
    if |s.queue| < c.numWorkers {
      n := Next(c, m, Send);
      rest, t := FillThenStop(c, n);
      LeadsFirst(c, m, Send, rest, t);
      run := [Tick] + ([Send] + rest);
      LeadsFirst(c, s, Tick, [Send] + rest, t);
    } else {
      n := Next(c, m, Stop);
      rest, t := EverybodyLeaves(c, n, 0);
      LeadsFirst(c, m, Stop, rest, t);
      run := [Tick] + ([Stop] + rest);
      LeadsFirst(c, s, Tick, [Stop] + rest, t);
    }
  }

  /** For which monitors the producer may never stop: for all that have a task. The halt is only
      looked at between two sends, so with any number of workers some schedule leaves it blocked
      on a queue that nobody reads. */
  lemma ProducerCanBlockIff(c: Config)
    ensures (exists run, t :: Leads(c, Init(c), run, t) && Stuck(c, t)) <==> c.tasks > 0
  {
    if c.tasks > 0 {
      var run, t := FillThenStop(c, Init(c));
    }
    if run, t :| Leads(c, Init(c), run, t) && Stuck(c, t) {
      InitInv(c);
      LeadsInv(c, Init(c), run, t);
    }
  }
}
