/** Applying the manifest's organization quotas: the processes of an organization are scaled to
    the new limit before its quota is lowered to it (concourse/scripts/set_quotas_from_manifest.rb,
    concourse/scripts/set_process_log_rate_limits.rb). */
module Quotas {
  import opened Collections
  import opened Parsing
  import opened Wrappers

  /** The log rate limit in bytes per second; -1 is unlimited. */
  datatype Process = Process(org: string, limit: int)

  /** No limit: unlimited. */
  datatype Quota = Quota(limit: Option<int>, orgs: seq<string>)

  type ProcessMap = map<string, Process>

  type QuotaMap = map<string, Quota>

  datatype Snapshot = Snapshot(processes: ProcessMap, quotas: QuotaMap)

  /** A quota definition's `log_rate_limit`: not given, null, or a quantity. */
  datatype Setting = Absent | Null | Limit(quantity: Quantity)

  /** An organization has one quota. */
  ghost predicate OneQuotaEach(qs: QuotaMap) {
    forall m, n, o :: m in qs && n in qs && o in qs[m].orgs && o in qs[n].orgs ==> m == n
  }

  predicate Fits(limit: int, quota: int) { 0 <= limit <= quota }

  /** No process of a limited quota exceeds it. */
  ghost predicate Safe(ps: ProcessMap, qs: QuotaMap) {
    forall n, g :: n in qs && g in ps && qs[n].limit.Some? && ps[g].org in qs[n].orgs
      ==> Fits(ps[g].limit, qs[n].limit.value)
  }

  // ---------------------------------------------------------------- one quota's processes

  /** A process already limited, to no more than the new limit, is left alone. */
  function Scaled(limit: int, new_: int): int { if 0 < limit <= new_ then limit else new_ }

  /** The early returns: nothing to do unless the quota's limit really comes down. */
  predicate Acts(current: Option<int>, new_: Option<int>) {
    new_ != current && new_.Some? && (current.None? || new_.value < current.value)
  }

  function Rescaled(ps: ProcessMap, done: set<string>, new_: int): (r: ProcessMap)
    ensures r.Keys == ps.Keys
  {
    map g | g in ps :: if g in done then ps[g].(limit := Scaled(ps[g].limit, new_)) else ps[g]
  }

  function Of(ps: ProcessMap, orgs: set<string>): set<string> { set g | g in ps && ps[g].org in orgs }

  /** Some of the processes of `orgs` are rescaled, nothing else has changed. */
  ghost predicate Between(ps: ProcessMap, now: ProcessMap, orgs: set<string>, new_: int) {
    exists done :: done <= Of(ps, orgs) && now == Rescaled(ps, done, new_)
  }

  /** More output than before; a negative limit is no limit. */
  predicate Raises(before: int, after: int) { before >= 0 && (after < 0 || after > before) }

  /** Scaling to a limit raises a process exactly when it was stopped at 0. */
  lemma ScalingRaisesIff(limit: int, new_: int)
    requires new_ >= 0
    ensures Raises(limit, Scaled(limit, new_)) <==> limit == 0 && new_ > 0
  {
  }

  /** In a store in which every process fits its quota, one scaling call keeps that so exactly
      when the new limit is not negative. */
  lemma ScaleCallSafeIff(ps: ProcessMap, qs: QuotaMap, n: string, g: string, new_: int)
    requires Safe(ps, qs) && OneQuotaEach(qs) && n in qs && qs[n].limit.Some? && new_ < qs[n].limit.value
    requires g in ps && ps[g].org in qs[n].orgs
    ensures Safe(ps[g := ps[g].(limit := Scaled(ps[g].limit, new_))], qs) <==> new_ >= 0
  {
    var now := ps[g := ps[g].(limit := Scaled(ps[g].limit, new_))];
    assert Fits(ps[g].limit, qs[n].limit.value);
    if new_ < 0 {
      assert !Fits(now[g].limit, qs[n].limit.value);
    }
  }

  lemma BetweenIsSafe(ps: ProcessMap, now: ProcessMap, qs: QuotaMap, n: string, new_: int)
    requires Safe(ps, qs) && OneQuotaEach(qs) && n in qs && Acts(qs[n].limit, Some(new_)) && new_ >= 0
    requires Between(ps, now, SetOf(qs[n].orgs), new_)
    ensures Safe(now, qs)
  {
    var done :| done <= Of(ps, SetOf(qs[n].orgs)) && now == Rescaled(ps, done, new_);
  }

  /** The controller. Any call may fail, and a failed one changes nothing. */
  class CloudController {
    var processes: ProcessMap
    var quotas: QuotaMap
    const listing: seq<string>
    ghost var history: seq<Snapshot>

    constructor (processes: ProcessMap, quotas: QuotaMap, listing: seq<string>)
      requires SetOf(listing) == processes.Keys
      ensures Valid() && this.processes == processes && this.quotas == quotas && history == []
    {
      this.processes := processes;
      this.quotas := quotas;
      this.listing := listing;
      history := [];
    }

    ghost predicate Valid()
      reads this
    {
      SetOf(listing) == processes.Keys
    }

    method Scale(guid: string, limit: int) returns (ok: bool)
      requires Valid() && guid in processes
      modifies this
      ensures Valid() && quotas == old(quotas)
      ensures ok ==> processes == old(processes)[guid := old(processes[guid]).(limit := limit)]
                     && history == old(history) + [Snapshot(processes, quotas)]
      ensures !ok ==> processes == old(processes) && history == old(history)
    {
      ok := *;
      if ok {
        processes := processes[guid := processes[guid].(limit := limit)];
        history := history + [Snapshot(processes, quotas)];
      }
    }

    method PutQuota(name: string, setting: Setting) returns (ok: bool)
      requires Valid()
      modifies this
      ensures Valid() && processes == old(processes)
      ensures ok ==> Accepted(setting)
                     && quotas == old(quotas)[name := QuotaAfter(Find(old(quotas), name), setting)]
                     && history == old(history) + [Snapshot(processes, quotas)]
      ensures !ok ==> quotas == old(quotas) && history == old(history)
    {
      ok := *;
      if ok && Accepted(setting) {
        quotas := quotas[name := QuotaAfter(Find(quotas, name), setting)];
        history := history + [Snapshot(processes, quotas)];
      } else {
        ok := false;
      }
    }
  }

  /** The calls after the first `from` left the quotas alone and only rescaled processes of
      `orgs`. */
  ghost predicate OnlyRescaling(history: seq<Snapshot>, from: nat, ps: ProcessMap, qs: QuotaMap, orgs: set<string>, new_: int) {
    forall i :: from <= i < |history| ==> history[i].quotas == qs && Between(ps, history[i].processes, orgs, new_)
  }

  /** The body of the loop over an organization's processes: `listed` is the listing it reads,
      taken when `start` was done. */
  lemma RescaleOne(ps: ProcessMap, start: set<string>, done: set<string>, g: string, new_: int)
    requires g in ps && start <= done
    ensures var listed, now := Rescaled(ps, start, new_), Rescaled(ps, done, new_);
            (Rescaled(ps, done + {g}, new_)
             == if 0 < listed[g].limit <= new_ then now else now[g := now[g].(limit := new_)])
  {
  }

  method ApplyToOrg(cc: CloudController, org: string, new_: int,
                    ghost ps: ProcessMap, ghost start: set<string>, ghost orgs: set<string>, ghost from: nat) returns (ok: bool)
    requires cc.Valid() && cc.processes == Rescaled(ps, start, new_)
    requires org in orgs && start <= Of(ps, orgs)
    requires from <= |cc.history| && OnlyRescaling(cc.history, from, ps, cc.quotas, orgs, new_)
    modifies cc
    ensures cc.Valid() && cc.quotas == old(cc.quotas) && old(cc.history) <= cc.history
    ensures OnlyRescaling(cc.history, from, ps, cc.quotas, orgs, new_)
    ensures ok ==> cc.processes == Rescaled(ps, start + Of(ps, {org}), new_)
  {
    hide Rescaled, Scaled;
    var listed := cc.processes;
    ghost var done := start;
    for j := 0 to |cc.listing|
      invariant cc.Valid() && cc.quotas == old(cc.quotas) && old(cc.history) <= cc.history
      invariant start <= done <= start + Of(ps, {org})
      invariant forall k :: 0 <= k < j && cc.listing[k] in Of(ps, {org}) ==> cc.listing[k] in done
      invariant cc.processes == Rescaled(ps, done, new_)
      invariant OnlyRescaling(cc.history, from, ps, cc.quotas, orgs, new_)
    {
      var guid := cc.listing[j];
      Listed(cc.listing, guid);
      RescaledOrg(ps, start, guid, new_);
      if listed[guid].org == org {
        RescaleOne(ps, start, done, guid, new_);
        done := done + {guid};
        var current := listed[guid].limit;
        if !(current > 0 && current <= new_) {
          ok := cc.Scale(guid, new_);
          if !ok { return; }
          assert Between(ps, cc.processes, orgs, new_);
        }
      }
    }
    assert done == start + Of(ps, {org});
    ok := true;
  }

  lemma Listed(listing: seq<string>, guid: string)
    ensures guid in listing <==> guid in SetOf(listing)
  {
  }

  lemma RescaledOrg(ps: ProcessMap, done: set<string>, g: string, new_: int)
    ensures g in ps <==> g in Rescaled(ps, done, new_)
    ensures g in ps ==> Rescaled(ps, done, new_)[g].org == ps[g].org
  {
  }

  /** ProcessLogRateLimitSetter#apply!. A false result is an aborted run. */
  method ApplyToProcesses(cc: CloudController, quota: Quota, new_: Option<int>) returns (ok: bool)
    requires cc.Valid()
    modifies cc
    ensures cc.Valid() && cc.quotas == old(cc.quotas) && old(cc.history) <= cc.history
    ensures !Acts(quota.limit, new_) ==> ok && cc.processes == old(cc.processes) && cc.history == old(cc.history)
    ensures Acts(quota.limit, new_) ==>
              OnlyRescaling(cc.history, old(|cc.history|), old(cc.processes), cc.quotas, SetOf(quota.orgs), new_.value)
    ensures Acts(quota.limit, new_) && ok ==>
              cc.processes == Rescaled(old(cc.processes), Of(old(cc.processes), SetOf(quota.orgs)), new_.value)
  {
    if new_ == quota.limit { return true; }
    if new_.None? { return true; }
    if !(quota.limit.None? || new_.value < quota.limit.value) { return true; }
    ghost var before, from := cc.processes, |cc.history|;
    ghost var orgs := SetOf(quota.orgs);
    assert Rescaled(before, Of(before, SetOf(quota.orgs[..0])), new_.value) == before;
    for i := 0 to |quota.orgs|
      invariant cc.Valid() && cc.quotas == old(cc.quotas) && old(cc.history) <= cc.history
      invariant cc.processes == Rescaled(before, Of(before, SetOf(quota.orgs[..i])), new_.value)
      invariant OnlyRescaling(cc.history, from, before, cc.quotas, orgs, new_.value)
    {
      OneMoreOrg(before, quota.orgs, i);
      ok := ApplyToOrg(cc, quota.orgs[i], new_.value, before, Of(before, SetOf(quota.orgs[..i])), orgs, from);
      if !ok { return; }
    }
    assert quota.orgs[..|quota.orgs|] == quota.orgs;
    ok := true;
  }

  lemma OneMoreOrg(ps: ProcessMap, orgs: seq<string>, i: nat)
    requires i < |orgs|
    ensures orgs[i] in SetOf(orgs) && Of(ps, SetOf(orgs[..i])) <= Of(ps, SetOf(orgs))
    ensures Of(ps, SetOf(orgs[..i + 1])) == Of(ps, SetOf(orgs[..i])) + Of(ps, {orgs[i]})
  {
    assert orgs[..i + 1] == orgs[..i] + [orgs[i]];
  }

  // ---------------------------------------------------------------- the manifest's quotas

  function Find(qs: QuotaMap, name: string): Option<Quota> { if name in qs then Some(qs[name]) else None }

  /** What the process step makes of a setting; None inside is no new limit. */
  function NewLimit(setting: Setting): Option<Option<int>> {
    match setting
    case Limit(q) => (match ParseIntegerQuantity(q) case Some(n) => Some(Some(n)) case None => None)
    case _ => Some(None)
  }

  /** What `cf ... -l` makes of it: -1 is unlimited. */
  function CfLimit(q: Quantity): Option<Option<int>> {
    if q == Number(-1) || q == Text("-1") then Some(None)
    else match ParseIntegerQuantity(q) case Some(n) => if n >= 0 then Some(Some(n)) else None case None => None
  }

  predicate Accepted(setting: Setting) { setting.Limit? ==> CfLimit(setting.quantity).Some? }

  /** A quota after update-quota or create-quota: no `-l` argument leaves the limit alone. */
  function QuotaAfter(q: Option<Quota>, setting: Setting): Quota
    requires Accepted(setting)
  {
    var base := match q case Some(quota) => quota case None => Quota(None, []);
    match setting
    case Absent => base
    case Null => base.(limit := None)
    case Limit(l) => base.(limit := CfLimit(l).value)
  }

  /** No setting is a negative number. */
  predicate NonNegative(setting: Setting) {
    setting.Limit? && setting.quantity.Number? ==> setting.quantity.value >= 0
  }

  /** The quota's limit will really come down, to this. */
  predicate Lowers(q: Option<Quota>, setting: Setting) {
    q.Some? && NewLimit(setting).Some? && Acts(q.value.limit, NewLimit(setting).value)
  }

  function LoweredTo(q: Option<Quota>, setting: Setting): int
    requires Lowers(q, setting)
  {
    NewLimit(setting).value.value
  }

  function ProcessesAfter(ps: ProcessMap, q: Option<Quota>, setting: Setting): ProcessMap {
    if Lowers(q, setting) then Rescaled(ps, Of(ps, SetOf(q.value.orgs)), LoweredTo(q, setting)) else ps
  }

  /** Rescaling all the processes first makes the new quota fit them. */
  lemma StepIsSafe(ps: ProcessMap, qs: QuotaMap, name: string, setting: Setting)
    requires Safe(ps, qs) && OneQuotaEach(qs) && NonNegative(setting) && Accepted(setting)
    requires name in qs ==> NewLimit(setting).Some?
    ensures var q := Find(qs, name);
            OneQuotaEach(qs[name := QuotaAfter(q, setting)])
            && Safe(ProcessesAfter(ps, q, setting), qs[name := QuotaAfter(q, setting)])
  {
    var q := Find(qs, name);
    var after := QuotaAfter(q, setting);
    hide ParseIntegerQuantity;
    TextsAreNonNegative(setting);
    assert after.orgs == if name in qs then qs[name].orgs else [];
    if name in qs && setting.Limit? {
      CfAgrees(setting);
    }
  }

  lemma TextsAreNonNegative(setting: Setting)
    requires NonNegative(setting)
    ensures NewLimit(setting).Some? && NewLimit(setting).value.Some? ==> NewLimit(setting).value.value >= 0
  {
  }

  /** The controller reads a non-negative quantity as the script does. */
  lemma CfAgrees(setting: Setting)
    requires NonNegative(setting) && Accepted(setting) && setting.Limit? && NewLimit(setting).Some?
    ensures CfLimit(setting.quantity).value == NewLimit(setting).value
  {
  }

  function State(cc: CloudController): Snapshot
    reads cc
  {
    Snapshot(cc.processes, cc.quotas)
  }

  ghost predicate AllSafe(history: seq<Snapshot>, from: nat) {
    forall i :: from <= i < |history| ==> Safe(history[i].processes, history[i].quotas)
  }

  /** Every process fits its quota, and no organization has two. */
  ghost predicate Sound(s: Snapshot) { Safe(s.processes, s.quotas) && OneQuotaEach(s.quotas) }

  /** A whole create_update_quota. */
  function Step(s: Snapshot, name: string, setting: Setting): Snapshot
    requires Accepted(setting)
  {
    var q := Find(s.quotas, name);
    Snapshot(ProcessesAfter(s.processes, q, setting), s.quotas[name := QuotaAfter(q, setting)])
  }

  lemma FindIs(qs: QuotaMap, name: string)
    ensures Find(qs, name) == if name in qs then Some(qs[name]) else None
  {
  }

  lemma StateIs(cc: CloudController)
    ensures State(cc) == Snapshot(cc.processes, cc.quotas)
  {
  }

  lemma StepIs(s: Snapshot, name: string, setting: Setting)
    ensures var q := Find(s.quotas, name);
            && (Accepted(setting) ==>
                  Step(s, name, setting) == Snapshot(ProcessesAfter(s.processes, q, setting), s.quotas[name := QuotaAfter(q, setting)]))
            && (q.None? ==> ProcessesAfter(s.processes, q, setting) == s.processes)
            && (q.Some? && NewLimit(setting).Some? ==>
                  var new_ := NewLimit(setting).value;
                  if Acts(q.value.limit, new_)
                  then new_.Some? && ProcessesAfter(s.processes, q, setting)
                                     == Rescaled(s.processes, Of(s.processes, SetOf(q.value.orgs)), new_.value)
                  else ProcessesAfter(s.processes, q, setting) == s.processes)
  {
  }

  lemma NoCalls(history: seq<Snapshot>, from: nat)
    requires |history| <= from
    ensures AllSafe(history, from)
  {
  }

  lemma CallsAreSafe(ps: ProcessMap, qs: QuotaMap, name: string, setting: Setting, history: seq<Snapshot>, from: nat)
    requires name in qs && NewLimit(setting).Some?
    requires var new_ := NewLimit(setting).value;
             if Acts(qs[name].limit, new_)
             then OnlyRescaling(history, from, ps, qs, SetOf(qs[name].orgs), new_.value)
             else |history| <= from
    ensures Sound(Snapshot(ps, qs)) && NonNegative(setting) ==> AllSafe(history, from)
  {
    hide Safe, OneQuotaEach, NonNegative, Between;
    if Sound(Snapshot(ps, qs)) && NonNegative(setting) && |history| > from {
      TextsAreNonNegative(setting);
      forall i | from <= i < |history| ensures Safe(history[i].processes, history[i].quotas) {
        BetweenIsSafe(ps, history[i].processes, qs, name, NewLimit(setting).value.value);
      }
    }
  }

  lemma LastCallIsSafe(s: Snapshot, name: string, setting: Setting, calls: seq<Snapshot>, from: nat)
    requires Accepted(setting) && (name in s.quotas ==> NewLimit(setting).Some?)
    requires from <= |calls|
    requires Sound(s) && NonNegative(setting) ==> AllSafe(calls, from)
    ensures Sound(s) && NonNegative(setting)
      ==> AllSafe(calls + [Step(s, name, setting)], from) && Sound(Step(s, name, setting))
  {
    hide Safe, OneQuotaEach, NonNegative, ProcessesAfter, QuotaAfter, NewLimit;
    if Sound(s) && NonNegative(setting) {
      StepIsSafe(s.processes, s.quotas, name, setting);
    }
  }

  lemma MoreCallsAreSafe(calls: seq<Snapshot>, more: seq<Snapshot>, from: nat)
    requires calls <= more && from <= |calls| && AllSafe(calls, from) && AllSafe(more, |calls|)
    ensures AllSafe(more, from)
  {
    hide Safe;
  }

  // ---------------------------------------------------------------- whole runs

  ghost predicate AllAccepted(names: seq<string>, defs: map<string, Setting>) {
    forall i :: 0 <= i < |names| ==> names[i] in defs && Accepted(defs[names[i]])
  }

  /** The definitions in turn. */
  function Run(s: Snapshot, names: seq<string>, defs: map<string, Setting>): Snapshot
    requires AllAccepted(names, defs)
  {
    if names == [] then s
    else
      var name := names[|names| - 1];
      Step(Run(s, names[..|names| - 1], defs), name, defs[name])
  }

  function QuotasAfter(qs: QuotaMap, done: set<string>, defs: map<string, Setting>): QuotaMap
    requires forall n :: n in done ==> n in defs && Accepted(defs[n])
  {
    map n | n in qs.Keys + done :: if n in done then QuotaAfter(Find(qs, n), defs[n]) else qs[n]
  }

  lemma OneMoreQuota(qs: QuotaMap, done: set<string>, name: string, defs: map<string, Setting>)
    requires forall n :: n in done + {name} ==> n in defs && Accepted(defs[n])
    requires name !in done
    ensures var now := QuotasAfter(qs, done, defs);
            && Find(now, name) == Find(qs, name)
            && now[name := QuotaAfter(Find(now, name), defs[name])] == QuotasAfter(qs, done + {name}, defs)
  {
    hide QuotaAfter, Accepted;
  }

  lemma AcceptedNames(names: seq<string>, defs: map<string, Setting>)
    requires AllAccepted(names, defs)
    ensures forall n :: n in SetOf(names) ==> n in defs && Accepted(defs[n])
  {
  }

  /** What a run does to each quota and to each process, said without any order: a process
      follows the one definition of its organization's quota. */
  lemma {:induction false} RunIs(s: Snapshot, names: seq<string>, defs: map<string, Setting>)
    requires OneQuotaEach(s.quotas) && AllAccepted(names, defs) && Distinct(names)
    ensures forall n :: n in SetOf(names) ==> n in defs && Accepted(defs[n])
    ensures Run(s, names, defs).quotas == QuotasAfter(s.quotas, SetOf(names), defs)
    ensures ProcessesFollow(s, SetOf(names), defs, Run(s, names, defs).processes)
  {
    hide *;
    AcceptedNames(names, defs);
    if names == [] {
      NothingToFollow(s, defs);
      NoneRun(s, defs);
      assert SetOf(names) == {} by { EmptySet(); }
    } else {
      var i := |names| - 1;
      var done, name := names[..i], names[i];
      assert names == done + [name] && names[..i + 1] == names;
      NewName(done, name);
      Accepting(done, name, defs);
      RunIs(s, done, defs);
      OneMoreRun(s, names, i, defs);
      OneMoreQuota(s.quotas, SetOf(done), name, defs);
      FollowOneMore(s, SetOf(done), name, defs, Run(s, done, defs).processes);
      StepIs(Run(s, done, defs), name, defs[name]);
    }
  }

  lemma EmptySet()
    ensures SetOf<string>([]) == {}
  {
  }

  lemma Accepting(done: seq<string>, name: string, defs: map<string, Setting>)
    requires AllAccepted(done + [name], defs)
    ensures AllAccepted(done, defs) && name in defs && Accepted(defs[name])
  {
    hide Accepted;
    var all := done + [name];
    assert all[|done|] == name && forall i :: 0 <= i < |done| ==> all[i] == done[i];
  }

  lemma NewName(done: seq<string>, name: string)
    requires Distinct(done + [name])
    ensures Distinct(done) && name !in SetOf(done) && SetOf(done + [name]) == SetOf(done) + {name}
  {
    var all := done + [name];
    assert forall i :: 0 <= i < |done| ==> all[i] == done[i] && all[|done|] == name;
  }

  lemma NothingToFollow(s: Snapshot, defs: map<string, Setting>)
    ensures QuotasAfter(s.quotas, {}, defs) == s.quotas
    ensures ProcessesFollow(s, {}, defs, s.processes)
  {
  }

  ghost predicate ProcessesFollow(s: Snapshot, done: set<string>, defs: map<string, Setting>, now: ProcessMap)
    requires done <= defs.Keys
  {
    && now.Keys == s.processes.Keys
    && (forall g :: g in now ==> now[g].org == s.processes[g].org)
    && (forall g, n :: g in now && n in done && n in s.quotas && now[g].org in s.quotas[n].orgs ==>
          now[g].limit == if Lowers(Some(s.quotas[n]), defs[n])
                          then Scaled(s.processes[g].limit, LoweredTo(Some(s.quotas[n]), defs[n]))
                          else s.processes[g].limit)
    && (forall g :: g in now && (forall n :: n in done && n in s.quotas ==> now[g].org !in s.quotas[n].orgs) ==>
          now[g] == s.processes[g])
  }

  lemma FollowOneMore(s: Snapshot, done: set<string>, name: string, defs: map<string, Setting>, now: ProcessMap)
    requires OneQuotaEach(s.quotas) && done <= defs.Keys && name in defs && name !in done
    requires ProcessesFollow(s, done, defs, now)
    ensures ProcessesFollow(s, done + {name}, defs, ProcessesAfter(now, Find(s.quotas, name), defs[name]))
  {
    hide Lowers, LoweredTo, Scaled;
    var next := ProcessesAfter(now, Find(s.quotas, name), defs[name]);
    forall g | g in now
      ensures g in next && next[g].org == now[g].org
      ensures name in s.quotas && now[g].org in s.quotas[name].orgs ==>
                && now[g] == s.processes[g]
                && next[g].limit == if Lowers(Some(s.quotas[name]), defs[name])
                                    then Scaled(now[g].limit, LoweredTo(Some(s.quotas[name]), defs[name]))
                                    else now[g].limit
      ensures !(name in s.quotas && now[g].org in s.quotas[name].orgs) ==> next[g] == now[g]
    {
      OneProcess(now, g, Find(s.quotas, name), defs[name]);
    }
  }

  lemma OneProcess(ps: ProcessMap, g: string, q: Option<Quota>, setting: Setting)
    requires g in ps
    ensures var next := ProcessesAfter(ps, q, setting);
            && next.Keys == ps.Keys && next[g].org == ps[g].org
            && next[g].limit == (if q.Some? && ps[g].org in q.value.orgs && Lowers(q, setting)
                                 then Scaled(ps[g].limit, LoweredTo(q, setting))
                                 else ps[g].limit)
  {
    if Lowers(q, setting) {
      InSet(q.value.orgs, ps[g].org);
      assert g in Of(ps, SetOf(q.value.orgs)) <==> ps[g].org in q.value.orgs;
    }
  }

  lemma InSet(s: seq<string>, x: string)
    ensures x in SetOf(s) <==> x in s
  {
  }

  /** What becomes of a process, told from its quota before and after the run: if the quota's limit
      came down, a process with a limit within the new one keeps it and any other gets the new one;
      if it did not, the process is as it was. */
  lemma RunProcessIs(s: Snapshot, names: seq<string>, defs: map<string, Setting>, n: string, g: string)
    requires OneQuotaEach(s.quotas) && AllAccepted(names, defs) && Distinct(names)
    requires n in names && n in defs && NonNegative(defs[n])
    requires n in s.quotas && g in s.processes && s.processes[g].org in s.quotas[n].orgs
    ensures var t := Run(s, names, defs);
            && n in t.quotas && g in t.processes
            && var was, before, after := s.processes[g].limit, s.quotas[n].limit, t.quotas[n].limit;
            t.processes[g].limit
            == if after.Some? && (before.None? || after.value < before.value)
               then (if 0 < was && was <= after.value then was else after.value)
               else was
  {
    RunIs(s, names, defs);
    hide Run, AllAccepted, Distinct, NewLimit, CfLimit, OneQuotaEach;
    InSet(names, n);
    LimitAfter(Some(s.quotas[n]), defs[n]);
  }

  lemma LimitAfter(q: Option<Quota>, setting: Setting)
    requires Accepted(setting) && NonNegative(setting) && q.Some?
    ensures var before, after := q.value.limit, QuotaAfter(q, setting).limit;
            && (Lowers(q, setting) <==> after.Some? && (before.None? || after.value < before.value))
            && (Lowers(q, setting) ==> LoweredTo(q, setting) == after.value)
  {
    if setting.Limit? && NewLimit(setting).Some? {
      CfAgrees(setting);
    }
  }

  /** Which processes a run of non-negative limits raises: those stopped at 0 whose quota comes
      down to more than 0. Every other process is left alone or lowered. */
  lemma RunRaisesIff(s: Snapshot, names: seq<string>, defs: map<string, Setting>, g: string)
    requires OneQuotaEach(s.quotas) && AllAccepted(names, defs) && Distinct(names)
    requires g in s.processes && forall n :: n in SetOf(names) ==> NonNegative(defs[n])
    ensures g in Run(s, names, defs).processes
    ensures Raises(s.processes[g].limit, Run(s, names, defs).processes[g].limit)
       <==> s.processes[g].limit == 0
            && exists n :: n in SetOf(names) && n in s.quotas && s.processes[g].org in s.quotas[n].orgs
                           && Lowers(Some(s.quotas[n]), defs[n]) && LoweredTo(Some(s.quotas[n]), defs[n]) > 0
  {
    RunIs(s, names, defs);
    hide Run, QuotasAfter, OneQuotaEach, AllAccepted, Distinct, SetOf, Scaled, NewLimit, Acts;
    var now := Run(s, names, defs).processes;
    if n :| n in SetOf(names) && n in s.quotas && now[g].org in s.quotas[n].orgs {
      NewLimitIs(Some(s.quotas[n]), defs[n]);
      if Lowers(Some(s.quotas[n]), defs[n]) {
        ScalingRaisesIff(s.processes[g].limit, LoweredTo(Some(s.quotas[n]), defs[n]));
      }
      SameQuota(s.quotas, now[g].org, n);
    }
  }

  lemma NewLimitIs(q: Option<Quota>, setting: Setting)
    requires NonNegative(setting)
    ensures Lowers(q, setting) ==> LoweredTo(q, setting) >= 0
  {
    TextsAreNonNegative(setting);
  }

  lemma SameQuota(qs: QuotaMap, org: string, n: string)
    requires OneQuotaEach(qs) && n in qs && org in qs[n].orgs
    ensures forall m :: m in qs && org in qs[m].orgs ==> m == n
  {
  }

  /** The order of the manifest's definitions does not matter. */
  lemma OrderIrrelevant(s: Snapshot, names: seq<string>, names': seq<string>, defs: map<string, Setting>)
    requires OneQuotaEach(s.quotas) && SetOf(names) == SetOf(names')
    requires AllAccepted(names, defs) && Distinct(names) && AllAccepted(names', defs) && Distinct(names')
    ensures Run(s, names, defs) == Run(s, names', defs)
  {
    hide Run, Lowers, LoweredTo, Scaled, QuotasAfter, OneQuotaEach, AllAccepted, Distinct, SetOf;
    RunIs(s, names, defs);
    RunIs(s, names', defs);
    var p, p' := Run(s, names, defs).processes, Run(s, names', defs).processes;
    forall g | g in p ensures p[g] == p'[g] {
      if n :| n in SetOf(names) && n in s.quotas && p[g].org in s.quotas[n].orgs {
        assert p[g].limit == p'[g].limit;
      }
    }
  }

  /** Quotas that a run has been through: it has nothing to bring down and nothing to set. */
  lemma SettledQuotas(s: Snapshot, names: seq<string>, defs: map<string, Setting>)
    requires OneQuotaEach(s.quotas) && AllAccepted(names, defs) && Distinct(names)
    requires forall n :: n in names ==> NonNegative(defs[n])
    ensures var qs := Run(s, names, defs).quotas;
            && OneQuotaEach(qs)
            && (forall n :: n in SetOf(names) ==> n in qs && n in defs && Accepted(defs[n]))
            && (forall n :: n in SetOf(names) ==>
                  !Lowers(Some(qs[n]), defs[n]) && QuotaAfter(Some(qs[n]), defs[n]) == qs[n])
  {
    hide Run, Acts, LoweredTo, Scaled, AllAccepted, Distinct, Accepted, NewLimit, Lowers, QuotaAfter, ProcessesFollow;
    RunIs(s, names, defs);
    var qs := Run(s, names, defs).quotas;
    forall n | n in SetOf(names)
      ensures !Lowers(Some(qs[n]), defs[n]) && QuotaAfter(Some(qs[n]), defs[n]) == qs[n]
      ensures qs[n].orgs == if n in s.quotas then s.quotas[n].orgs else []
    {
      SettledQuota(Find(s.quotas, n), defs[n]);
    }
  }

  /** A second complete run finds no limit to bring down and leaves every quota as it is. */
  lemma SecondRunChangesNothing(s: Snapshot, names: seq<string>, defs: map<string, Setting>)
    requires OneQuotaEach(s.quotas) && AllAccepted(names, defs) && Distinct(names)
    requires forall n :: n in names ==> NonNegative(defs[n])
    ensures Run(Run(s, names, defs), names, defs) == Run(s, names, defs)
  {
    hide Run, OneQuotaEach, LoweredTo, Scaled, AllAccepted, Distinct, Accepted, Lowers, QuotaAfter, SetOf, NonNegative;
    SettledQuotas(s, names, defs);
    var t := Run(s, names, defs);
    RunIs(t, names, defs);
    var u := Run(t, names, defs);
    assert u.quotas == t.quotas by {
      hide ProcessesFollow;
    }
    forall g | g in t.processes ensures u.processes[g] == t.processes[g] {
    }
  }

  /** A log rate limit of -1 makes a quota unlimited. */
  lemma MinusOneIsUnlimited(q: Option<Quota>, setting: Setting)
    requires setting == Limit(Number(-1)) || setting == Limit(Text("-1"))
    ensures Accepted(setting) && QuotaAfter(q, setting).limit == None
  {
  }

  /** A setting settles its quota: null means unlimited, a quantity means what the process step
      makes of it, and no setting means no change. */
  lemma SettledQuota(q: Option<Quota>, setting: Setting)
    requires Accepted(setting) && NonNegative(setting)
    ensures var after := QuotaAfter(q, setting);
            && !Lowers(Some(after), setting)
            && QuotaAfter(Some(after), setting) == after
            && after.orgs == (if q.Some? then q.value.orgs else [])
            && (setting.Null? ==> after.limit == None)
            && (setting.Absent? && q.Some? ==> after == q.value)
            && (setting.Limit? && NewLimit(setting).Some? ==> after.limit == NewLimit(setting).value)
  {
    if setting.Limit? && NewLimit(setting).Some? {
      CfAgrees(setting);
    }
  }

  /** The cached quotas of the names still to come are the controller's. */
  ghost predicate CachedFrom(names: seq<string>, i: nat, cached: QuotaMap, qs: QuotaMap) {
    forall k :: i <= k < |names| ==> Find(cached, names[k]) == Find(qs, names[k])
  }

  lemma NothingCached(names: seq<string>, qs: QuotaMap)
    ensures CachedFrom(names, 0, qs, qs)
  {
  }

  lemma NamesDefined(names: seq<string>, defs: map<string, Setting>)
    requires SetOf(names) == defs.Keys
    ensures forall n :: n in names ==> n in defs
  {
    assert forall n :: n in names ==> n in SetOf(names);
  }

  lemma NextName(names: seq<string>, i: nat, defs: map<string, Setting>, cached: QuotaMap, qs: QuotaMap)
    requires i < |names| && SetOf(names) == defs.Keys && CachedFrom(names, i, cached, qs)
    ensures names[i] in names && names[i] in defs && Find(cached, names[i]) == Find(qs, names[i])
  {
    assert names[i] in SetOf(names);
  }

  lemma StillCached(names: seq<string>, i: nat, defs: map<string, Setting>, cached: QuotaMap, qs: QuotaMap)
    requires i < |names| && names[i] in defs && Accepted(defs[names[i]]) && Distinct(names) && CachedFrom(names, i, cached, qs)
    ensures CachedFrom(names, i + 1, cached, qs[names[i] := QuotaAfter(Find(qs, names[i]), defs[names[i]])])
  {
  }

  lemma NoneRun(s: Snapshot, defs: map<string, Setting>)
    ensures AllAccepted([], defs) && Run(s, [], defs) == s
  {
  }

  lemma OneMoreRun(s: Snapshot, names: seq<string>, i: nat, defs: map<string, Setting>)
    requires i < |names| && names[i] in defs && Accepted(defs[names[i]]) && AllAccepted(names[..i], defs)
    ensures AllAccepted(names[..i + 1], defs)
    ensures Run(s, names[..i + 1], defs) == Step(Run(s, names[..i], defs), names[i], defs[names[i]])
    ensures var t := Run(s, names[..i], defs);
            Step(t, names[i], defs[names[i]]).quotas == t.quotas[names[i] := QuotaAfter(Find(t.quotas, names[i]), defs[names[i]])]
  {
    assert names[..i + 1][..i] == names[..i];
  }

  class QuotasSetter {
    const names: seq<string>
    const definitions: map<string, Setting>
    var existingQuotas: Option<QuotaMap>

    constructor (names: seq<string>, definitions: map<string, Setting>)
      requires SetOf(names) == definitions.Keys && Distinct(names)
      ensures this.names == names && this.definitions == definitions && existingQuotas == None
    {
      this.names := names;
      this.definitions := definitions;
      existingQuotas := None;
    }

    /** create_update_quota. The quotas are fetched once; for a name not met before, the
        fetched quota is still the controller's. */
    method CreateUpdateQuota(cc: CloudController, name: string) returns (ok: bool)
      requires cc.Valid() && name in definitions
      requires existingQuotas.Some? ==> Find(existingQuotas.value, name) == Find(cc.quotas, name)
      modifies this, cc
      ensures cc.Valid() && old(cc.history) <= cc.history
      ensures existingQuotas == (if old(existingQuotas).Some? then old(existingQuotas) else Some(old(cc.quotas)))
      ensures ok ==> Accepted(definitions[name]) && State(cc) == Step(old(State(cc)), name, definitions[name])
      ensures Sound(old(State(cc))) && NonNegative(definitions[name])
        ==> AllSafe(cc.history, old(|cc.history|)) && (ok ==> Sound(State(cc)))
    {
      hide *;
      var setting := definitions[name];
      ghost var before, from := State(cc), |cc.history|;
      ghost var ps, qs := cc.processes, cc.quotas;
      StateIs(cc);
      if existingQuotas.None? {
        existingQuotas := Some(cc.quotas);
      }
      FindIs(qs, name);
      FindIs(existingQuotas.value, name);
      StepIs(before, name, setting);
      if name in existingQuotas.value {
        var new_ := NewLimit(setting);
        if new_.None? {
          NoCalls(cc.history, from);
          return false;
        }
        ok := ApplyToProcesses(cc, existingQuotas.value[name], new_.value);
        CallsAreSafe(ps, qs, name, setting, cc.history, from);
        if !ok { return; }
      } else {
        NoCalls(cc.history, from);
      }
      ghost var calls := cc.history;
      ok := cc.PutQuota(name, setting);
      StateIs(cc);
      if ok {
        LastCallIsSafe(before, name, setting, calls, from);
      }
    }

    /** QuotasSetter#apply!, all of it or up to the call that failed. */
    method Apply(cc: CloudController) returns (ok: bool)
      requires cc.Valid() && existingQuotas.None?
      requires SetOf(names) == definitions.Keys && Distinct(names)
      modifies this, cc
      ensures cc.Valid() && old(cc.history) <= cc.history
      ensures ok ==> AllAccepted(names, definitions)
                     && State(cc) == Run(old(State(cc)), names, definitions)
      ensures Sound(old(State(cc))) && (forall n :: n in names ==> NonNegative(definitions[n]))
        ==> AllSafe(cc.history, old(|cc.history|))
    {
      hide *;
      ghost var before, from := State(cc), |cc.history|;
      NamesDefined(names, definitions);
      ghost var settled := Sound(before) && forall n :: n in names ==> NonNegative(definitions[n]);
      NoCalls(cc.history, from);
      NoneRun(before, definitions);
      NothingCached(names, cc.quotas);
      for i := 0 to |names|
        invariant cc.Valid() && old(cc.history) <= cc.history
        invariant existingQuotas.None? ==> i == 0
        invariant CachedFrom(names, i, if existingQuotas.Some? then existingQuotas.value else cc.quotas, cc.quotas)
        invariant AllAccepted(names[..i], definitions) && State(cc) == Run(before, names[..i], definitions)
        invariant settled ==> AllSafe(cc.history, from) && Sound(State(cc))
      {
        ghost var calls, qs := cc.history, cc.quotas;
        StateIs(cc);
        NextName(names, i, definitions, if existingQuotas.Some? then existingQuotas.value else qs, qs);
        ok := CreateUpdateQuota(cc, names[i]);
        if settled {
          MoreCallsAreSafe(calls, cc.history, from);
        }
        if !ok { return; }
        OneMoreRun(before, names, i, definitions);
        StateIs(cc);
        StillCached(names, i, definitions, existingQuotas.value, qs);
      }
      assert names[..|names|] == names;
      ok := true;
    }
  }
}
