/** Safety of the rotation over whole sequences of runs. */
module RotationSafety {
  import opened CredHub
  import opened CaRotation
  import opened CaMove
  import opened RotationPhases
  import opened Wrappers

  datatype Step = Set(run: Run) | Move(run: Run) | Remove

  /** `t` is a store that one run of a script can leave behind, whatever order the server lists
      the certificates in. */
  ghost predicate StepTo(s: Store, step: Step, t: Store)
    requires ServerOk(s)
  {
    match step
    case Set(run) => t == AfterSet(s, run)
    case Remove => t == AfterRemove(s)
    case Move(run) =>
      if run.expiryDays != 0 && exists n :: DiesAt(s, n)
      then exists names, i, j :: Lists(names, s.Keys) && DiedAt(s, names, run, t, i, j)
      else t == AfterMove(s, run)
  }

  /** `t` is reachable from `s` by the given runs, in the given order. */
  ghost predicate Reaches(s: Store, steps: seq<Step>, t: Store)
    requires ServerOk(s)
    decreases |steps|
  {
    if steps == [] then t == s
    else exists m :: ServerOk(m) && StepTo(s, steps[0], m) && Reaches(m, steps[1..], t)
  }

  /** The CA version that signed the version of `n` in use. */
  ghost function Signer(s: Store, n: string): nat
    requires ServerOk(s) && n in s
  {
    s[n].versions[Active(s[n].versions)].signer
  }

  ghost function Trusted(s: Store, ca: string): seq<nat>
    requires ServerOk(s) && ca in s
  {
    Current(s[ca].versions)
  }

  /** Every leaf is signed by its CA's active version. */
  ghost predicate Signed(s: Store)
    requires ServerOk(s)
  {
    forall n :: IsLeaf(s, n) ==> Signer(s, n) == Active(s[s[n].signedBy].versions)
  }

  /** What a rolling deploy needs across one run: a leaf's signer before the run is
      trusted after it, and its signer after the run was trusted before it. */
  ghost predicate Overlaps(s: Store, t: Store)
    requires ServerOk(s) && ServerOk(t)
  {
    && s.Keys == t.Keys
    && forall n :: IsLeaf(s, n) ==>
      && t[n].signedBy == s[n].signedBy
      && Signer(s, n) in Trusted(t, s[n].signedBy)
      && Signer(t, n) in Trusted(s, s[n].signedBy)
  }

  /** `d` is `c` after a step that leaves its active version alone. */
  ghost predicate SameActive(s: Store, n: string, d: Cert)
    requires ServerOk(s) && n in s
  {
    && d.signedBy == s[n].signedBy && WellFormed(d.versions)
    && Active(d.versions) == Active(s[n].versions)
    && (IsCa(s, n) ==> Increasing(d.versions))
    && (IsLeaf(s, n) ==> d == s[n])
  }

  lemma SameActiveKeeps(s: Store, t: Store)
    requires ServerOk(s) && s.Keys == t.Keys
    requires forall n :: n in s ==> SameActive(s, n, t[n])
    ensures ServerOk(t) && (Signed(s) ==> Signed(t) && Overlaps(s, t))
  {
    hide WellFormed, Active, Transitional, Increasing;
    assert Flat(t);
    assert ServerOk(t);
  }

  lemma SetKeeps(s: Store, run: Run)
    requires ServerOk(s)
    ensures var t := AfterSet(s, run); ServerOk(t) && (Signed(s) ==> Signed(t) && Overlaps(s, t))
  {
    AfterSetAt(s, run);
    var t := AfterSet(s, run);
    forall n | n in s ensures SameActive(s, n, t[n]) {
      if IsCa(s, n) {
        SetMovesPhase(n, s[n], run);
      }
    }
    SameActiveKeeps(s, t);
  }

  lemma RemoveKeeps(s: Store)
    requires ServerOk(s)
    ensures var t := AfterRemove(s); ServerOk(t) && (Signed(s) ==> Signed(t) && Overlaps(s, t))
  {
    AfterRemoveAt(s);
    var t := AfterRemove(s);
    forall n | n in s ensures SameActive(s, n, t[n]) {
      if IsCa(s, n) {
        RemoveMovesPhase(n, s[n]);
      }
    }
    SameActiveKeeps(s, t);
  }

  /** A leaf's new version is well formed, active, and signed by its CA's active one. */
  lemma ReissuedMeans(s: Store, n: string, run: Run)
    requires ServerOk(s) && IsLeaf(s, n)
    ensures var d := Reissued(s, n, run);
            && WellFormed(d.versions) && d.signedBy == s[n].signedBy
            && Active(d.versions) == |s[n].versions| && |Current(d.versions)| == |Current(s[n].versions)|
            && WellFormed(AfterCa(s, s[n].signedBy).versions)
            && d.versions[|s[n].versions|].signer == Active(AfterCa(s, s[n].signedBy).versions)
  {
    var vs, d := s[n].versions, Reissued(s, n, run);
    AfterCaHasActive(s, s[n].signedBy);
    assert !d.versions[|vs|].transitional;
    ActiveIs(d.versions, |vs|);
    assert forall i :: 0 <= i < |vs| ==> d.versions[i] == vs[i];
    if Transitional(vs).Some? {
      TransitionalIs(d.versions, Transitional(vs).value);
    }
  }

  /** One leaf and its CA, part-way through a move run. */
  lemma StageLeafSigner(s: Store, run: Run, cas: set<string>, leaves: set<string>, n: string)
    requires ServerOk(s) && Signed(s) && IsLeaf(s, n)
    requires n in leaves ==> s[n].signedBy in cas || !Moved(s, s[n].signedBy)
    ensures var t, ca := Stage(s, run, cas, leaves), s[n].signedBy;
            && WellFormed(t[n].versions) && WellFormed(t[ca].versions) && Increasing(t[ca].versions)
            && var signer := t[n].versions[Active(t[n].versions)].signer;
            && (signer == Active(t[ca].versions) <==> n in leaves || ca !in cas || !Moved(s, ca))
            && signer in Current(s[ca].versions) && Signer(s, n) in Current(t[ca].versions)
  {
    var ca := s[n].signedBy;
    StageOf(s, run, cas, leaves, n);
    StageOf(s, run, cas, leaves, ca);
    MoveMovesPhase(s, ca);
    ReissuedMeans(s, n, run);
    PhaseShape(s[ca].versions);
    hide ServerOk, Stage, AfterCa, Reissued, Increasing, WellFormed, Transitional, Active, ByExpiry, PhaseOf;
  }

  lemma StageOf(s: Store, run: Run, cas: set<string>, leaves: set<string>, n: string)
    requires ServerOk(s) && n in s
    ensures Stage(s, run, cas, leaves)[n]
         == if IsCa(s, n) then (if n in cas then AfterCa(s, n) else s[n])
            else if n in leaves then Reissued(s, n, run) else s[n]
  {
    hide ServerOk;
  }

  lemma StageOk(s: Store, run: Run, cas: set<string>, leaves: set<string>)
    requires ServerOk(s)
    ensures ServerOk(Stage(s, run, cas, leaves))
  {
    var t := Stage(s, run, cas, leaves);
    forall n | n in s
      ensures WellFormed(t[n].versions) && (IsCa(s, n) ==> Increasing(t[n].versions))
    {
      StageOf(s, run, cas, leaves, n);
      if IsCa(s, n) {
        MoveMovesPhase(s, n);
      } else if n in leaves {
        ReissuedMeans(s, n, run);
      }
    }
    hide WellFormed, Increasing, Stage;
  }

  lemma StageSignerKeeps(s: Store, run: Run, cas: set<string>, leaves: set<string>, n: string)
    requires ServerOk(s) && Signed(s) && IsLeaf(s, n) && ServerOk(Stage(s, run, cas, leaves))
    requires n in leaves ==> s[n].signedBy in cas || !Moved(s, s[n].signedBy)
    ensures var t, ca := Stage(s, run, cas, leaves), s[n].signedBy;
            && ca in t && IsLeaf(t, n) && t[n].signedBy == ca && WellFormed(t[ca].versions)
            && (Signer(t, n) == Active(t[ca].versions) <==> n in leaves || ca !in cas || !Moved(s, ca))
            && Signer(t, n) in Trusted(s, ca) && Signer(s, n) in Trusted(t, ca)
  {
    StageLeafSigner(s, run, cas, leaves, n);
    hide ServerOk, Stage, Moved, Active, Transitional, WellFormed;
  }

  lemma StageKeeps(s: Store, run: Run, cas: set<string>, leaves: set<string>)
    requires ServerOk(s) && Signed(s)
    requires forall n :: n in leaves ==> IsLeaf(s, n) && (s[n].signedBy in cas || !Moved(s, s[n].signedBy))
    ensures var t := Stage(s, run, cas, leaves);
            && ServerOk(t) && Overlaps(s, t)
            && (Signed(t) <==> forall n :: IsLeaf(s, n) && s[n].signedBy in cas && Moved(s, s[n].signedBy) ==> n in leaves)
  {
    hide ServerOk, Stage, Signer, Trusted, Moved, Active;
    var t := Stage(s, run, cas, leaves);
    StageOk(s, run, cas, leaves);
    forall n | IsLeaf(s, n)
      ensures s[n].signedBy in t && IsLeaf(t, n) && t[n].signedBy == s[n].signedBy && WellFormed(t[t[n].signedBy].versions)
      ensures Signer(t, n) == Active(t[s[n].signedBy].versions)
              <==> n in leaves || s[n].signedBy !in cas || !Moved(s, s[n].signedBy)
      ensures Signer(t, n) in Trusted(s, s[n].signedBy) && Signer(s, n) in Trusted(t, s[n].signedBy)
    {
      StageSignerKeeps(s, run, cas, leaves, n);
    }
  }

  // ---------------------------------------------------------------- one run

  /** A completed move run leaves every leaf signed by its CA's active version exactly
      when each leaf the guard skipped was renewed anyway by the second loop. */
  lemma MoveSignedIff(s: Store, run: Run)
    requires ServerOk(s) && Signed(s) && run.expiryDays != 0
    ensures ServerOk(AfterMove(s, run)) && Overlaps(s, AfterMove(s, run))
    ensures Signed(AfterMove(s, run)) <==>
            forall n :: IsLeaf(s, n) && Moved(s, s[n].signedBy) && Guarded(n) ==> Renewable(s, n, run)
  {
    hide *;
    ReissuesMeans(s, run);
    StageKeeps(s, run, s.Keys, Reissues(s, run));
  }

  lemma ReissuesMeans(s: Store, run: Run)
    requires ServerOk(s)
    ensures run.expiryDays != 0 ==> AfterMove(s, run) == Stage(s, run, s.Keys, Reissues(s, run))
    ensures forall n :: IsLeaf(s, n) ==> s[n].signedBy in s.Keys
    ensures forall n :: Renewable(s, n, run) ==> IsLeaf(s, n)
    ensures forall n :: n in Reissues(s, run) ==> IsLeaf(s, n) && s[n].signedBy in s.Keys
    ensures forall n :: IsLeaf(s, n) ==>
              (n in Reissues(s, run) <==> (Moved(s, s[n].signedBy) && !Guarded(n)) || Renewable(s, n, run))
  {
    hide PhaseOf, MatchesOld, Guarded, WellFormed, Active, Current, Stage;
  }

  /** Which leaves a completed move run reissues: those of a CA whose newest version was transitional,
      unless the guard skips them, and those with one current version that is due. Each gets one new
      version, which expires later. */
  lemma MoveReissuesIff(s: Store, run: Run, n: string)
    requires ServerOk(s) && IsLeaf(s, n) && n in s && run.expiryDays != 0
    ensures var ca, t := s[n].signedBy, AfterMove(s, run);
            && ca in s && n in t
            && (t[n] != s[n] <==>
                  || (!MatchesOld(ca) && s[ca].versions != [] && s[ca].versions[|s[ca].versions| - 1].transitional
                      && !exists before, after :: n == before + "signs" + after)
                  || (!MatchesOld(n) && |Current(s[n].versions)| == 1
                      && s[n].versions[Active(s[n].versions)].expiry < (run.today + run.expiryDays + 1) * 86400))
    ensures var ca, t := s[n].signedBy, AfterMove(s, run);
            t[n] != s[n] ==>
              && |t[n].versions| == |s[n].versions| + 1 && t[n].versions[..|s[n].versions|] == s[n].versions
              && t[n].versions[|s[n].versions|].expiry > s[n].versions[Active(s[n].versions)].expiry
  {
    hide *;
    var ca := s[n].signedBy;
    LeafFacts(s, n, run);
    ReissuesMeans(s, run);
    StageOf(s, run, s.Keys, Reissues(s, run), n);
    GuardIs(n);
    MovableIff(s, ca);
    RenewableIff(s, n, run);
  }

  lemma LeafFacts(s: Store, n: string, run: Run)
    requires ServerOk(s) && IsLeaf(s, n)
    ensures n in s && s[n].signedBy in s && IsCa(s, s[n].signedBy) && !IsCa(s, n) && WellFormed(s[n].versions)
    ensures var d := Reissued(s, n, run);
            && |d.versions| == |s[n].versions| + 1 && d.versions[..|s[n].versions|] == s[n].versions
            && d.versions[|s[n].versions|].expiry > s[n].versions[Active(s[n].versions)].expiry
    ensures Reissued(s, n, run) != s[n]
  {
    assert |Reissued(s, n, run).versions| == |s[n].versions| + 1;
  }

  /** Under the server's invariant the move script acts when the last version is transitional. */
  lemma MovableIff(s: Store, ca: string)
    requires ServerOk(s) && IsCa(s, ca) && ca in s
    ensures Moved(s, ca) <==>
              !MatchesOld(ca) && s[ca].versions != [] && s[ca].versions[|s[ca].versions| - 1].transitional
  {
    hide MatchesOld, ByExpiry, Active;
    PhaseShape(s[ca].versions);
    if s[ca].versions != [] && s[ca].versions[|s[ca].versions| - 1].transitional {
      TransitionalIs(s[ca].versions, |s[ca].versions| - 1);
    }
  }

  lemma RenewableIff(s: Store, n: string, run: Run)
    requires ServerOk(s) && IsLeaf(s, n) && n in s && WellFormed(s[n].versions)
    ensures Renewable(s, n, run) <==>
              && !MatchesOld(n) && |Current(s[n].versions)| == 1
              && s[n].versions[Active(s[n].versions)].expiry < (run.today + run.expiryDays + 1) * 86400
  {
    hide MatchesOld, Active, Transitional, Expiring;
    DueIff(s[n].versions[Active(s[n].versions)].expiry, run);
  }

  /** Any one run of any script, completed or not, keeps the overlap. */
  lemma EveryRunOverlaps(s: Store, step: Step, t: Store)
    requires ServerOk(s) && Signed(s) && StepTo(s, step, t)
    ensures ServerOk(t) && Overlaps(s, t)
    ensures !step.Move? ==> Signed(t)
    ensures step.Move? && step.run.expiryDays != 0 && (exists n :: DiesAt(s, n)) ==> !Signed(t)
  {
    hide *;
    match step
    case Set(run) =>
      StepToScripts(s, run);
      SetKeeps(s, run);
    case Remove =>
      StepToScripts(s, Run(0, 0, _ => 0));
      RemoveKeeps(s);
    case Move(run) =>
      MoveOutcome(s, run, t);
      if run.expiryDays == 0 {
        Unchanged(s);
      } else if exists n :: DiesAt(s, n) {
        var names, i, j :| Lists(names, s.Keys) && DiedAt(s, names, run, t, i, j);
        var cas, leaves, leaf := DiedMeans(s, names, run, t, i, j);
        DiedKeeps(s, run, t, cas, leaves, leaf);
      } else {
        MoveSignedIff(s, run);
      }
  }

  lemma DiedKeeps(s: Store, run: Run, t: Store, cas: set<string>, leaves: set<string>, leaf: string)
    requires ServerOk(s) && Signed(s) && t == Stage(s, run, cas, leaves)
    requires DiesAt(s, leaf) && s[leaf].signedBy in cas && leaf !in leaves
    requires forall n :: n in leaves ==> IsLeaf(s, n) && s[n].signedBy in cas
    ensures ServerOk(t) && Overlaps(s, t) && !Signed(t)
  {
    StageKeeps(s, run, cas, leaves);
    hide ServerOk, Stage, Moved, Fatal, Signed, Overlaps;
  }

  lemma Unchanged(s: Store)
    requires ServerOk(s) && Signed(s)
    ensures Overlaps(s, s)
  {
  }

  // ---------------------------------------------------------------- all runs

  /** No leaf of a CA that the scripts rotate has "signs" in its name. */
  ghost predicate SafeNames(s: Store)
    requires ServerOk(s)
  {
    forall n :: IsLeaf(s, n) && !MatchesOld(s[n].signedBy) ==> !Guarded(n)
  }

  lemma SafeNamesIff(s: Store)
    requires ServerOk(s)
    ensures SafeNames(s) <==>
            forall n, before, after :: n in s && s[n].signedBy != n && !MatchesOld(s[n].signedBy) ==> n != before + "signs" + after
  {
    hide ServerOk, MatchesOld, Guarded, Fatal;
    forall n | n in s ensures Guarded(n) <==> exists before, after :: n == before + "signs" + after {
      GuardIs(n);
    }
  }

  lemma SafeStep(s: Store, step: Step, t: Store)
    requires ServerOk(s) && Signed(s) && SafeNames(s) && StepTo(s, step, t)
    ensures ServerOk(t) && Signed(t) && SafeNames(t)
  {
    hide *;
    EveryRunOverlaps(s, step, t);
    NobodyDies(s);
    SameSigners(s, step, t);
    SafeNamesStay(s, t);
    if step.Move? {
      var run := step.run;
      if run.expiryDays != 0 {
        MoveSignedIff(s, run);
        MoveIs(s, run, t);
      } else {
        MoveIs(s, run, t);
      }
    }
  }

  lemma NobodyDies(s: Store)
    requires ServerOk(s) && SafeNames(s)
    ensures forall n :: !DiesAt(s, n)
    ensures forall n :: IsLeaf(s, n) && Moved(s, s[n].signedBy) ==> !Guarded(n)
  {
    hide ServerOk, PhaseOf, Contains;
  }

  lemma SafeNamesStay(s: Store, t: Store)
    requires ServerOk(s) && ServerOk(t) && s.Keys == t.Keys && SafeNames(s)
    requires forall n :: n in s ==> t[n].signedBy == s[n].signedBy
    ensures SafeNames(t)
  {
    hide ServerOk, MatchesOld, Guarded;
  }

  lemma MoveIs(s: Store, run: Run, t: Store)
    requires ServerOk(s) && StepTo(s, Move(run), t) && forall n :: !DiesAt(s, n)
    ensures t == AfterMove(s, run)
    ensures run.expiryDays == 0 ==> t == s
  {
    hide ServerOk, DiesAt, Stage, Reissues;
  }

  lemma SameSigners(s: Store, step: Step, t: Store)
    requires ServerOk(s) && StepTo(s, step, t)
    ensures s.Keys == t.Keys && forall n :: n in s ==> t[n].signedBy == s[n].signedBy
  {
    hide ServerOk, DiesAt;
  }

  lemma {:induction false} SafeRuns(s: Store, steps: seq<Step>, t: Store)
    requires ServerOk(s) && Signed(s) && SafeNames(s) && Reaches(s, steps, t)
    ensures ServerOk(t) && Signed(t)
    decreases |steps|
  {
    if steps != [] {
      var m :| ServerOk(m) && StepTo(s, steps[0], m) && Reaches(m, steps[1..], t);
      SafeStep(s, steps[0], m);
      SafeRuns(m, steps[1..], t);
    }
  }

  // ------------------------------------------- why the names have to be safe

  /** Every leaf's signer is among its CA's current versions. */
  ghost predicate AllTrusted(s: Store)
    requires ServerOk(s)
  {
    forall n :: IsLeaf(s, n) ==> Signer(s, n) in Trusted(s, s[n].signedBy)
  }

  lemma ReachesFirst(s: Store, step: Step, m: Store, rest: seq<Step>, t: Store)
    requires ServerOk(s) && ServerOk(m) && StepTo(s, step, m) && Reaches(m, rest, t)
    ensures Reaches(s, [step] + rest, t)
  {
    assert ([step] + rest)[1..] == rest;
    hide ServerOk, StepTo;
  }

  lemma ReachesThrough(s: Store, step: Step, rest: seq<Step>, t: Store) returns (m: Store)
    requires ServerOk(s) && Reaches(s, [step] + rest, t)
    ensures ServerOk(m) && StepTo(s, step, m) && Reaches(m, rest, t)
  {
    assert ([step] + rest)[1..] == rest;
    hide ServerOk, StepTo;
    m :| ServerOk(m) && StepTo(s, ([step] + rest)[0], m) && Reaches(m, ([step] + rest)[1..], t);
  }

  lemma StepToScripts(s: Store, run: Run)
    requires ServerOk(s)
    ensures forall t :: StepTo(s, Set(run), t) <==> t == AfterSet(s, run)
    ensures forall t :: StepTo(s, Remove, t) <==> t == AfterRemove(s)
    ensures forall t :: Reaches(s, [], t) <==> t == s
  {
  }

  lemma RotatableMeans(s: Store, ca: string)
    requires ServerOk(s) && Rotatable(s, ca)
    ensures ca in s && s[ca].signedBy == ca && !MatchesOld(ca)
    ensures WellFormed(s[ca].versions) && Increasing(s[ca].versions) && s[ca].versions != []
    ensures PhaseOf(s[ca].versions) == NewestTransitional ==> Moved(s, ca)
  {
  }

  lemma MovedIs(s: Store, ca: string)
    requires ServerOk(s) && ca in s && s[ca].signedBy == ca && !MatchesOld(ca)
    requires WellFormed(s[ca].versions) && PhaseOf(s[ca].versions) == NewestTransitional
    ensures Moved(s, ca)
  {
  }

  lemma RemoveOnLeaf(n: string, c: Cert)
    requires WellFormed(c.versions) && c.signedBy != n
    ensures RemoveCert(n, c) == c
  {
  }

  lemma SetOnLeaf(n: string, c: Cert, run: Run)
    requires WellFormed(c.versions)
    ensures SetCert(n, c, run).signedBy == c.signedBy
    ensures c.signedBy != n ==> SetCert(n, c, run) == c
  {
  }

  /** A remove and then a set, within EXPIRY_DAYS of its expiry, bring a CA from any phase to the
      one in which the move script acts. */
  lemma CertMovable(n: string, c: Cert, set_: Run)
    requires WellFormed(c.versions) && Increasing(c.versions) && c.versions != [] && c.signedBy == n && !MatchesOld(n)
    requires set_.expiryDays != 0 && Expiring(c.versions[|c.versions| - 1].expiry, set_)
    ensures var d := RemoveCert(n, c);
            WellFormed(d.versions) && d.signedBy == n
            && var e := SetCert(n, d, set_);
            e.signedBy == n && WellFormed(e.versions) && PhaseOf(e.versions) == NewestTransitional
  {
    hide PhaseOf, WellFormed, Increasing, MatchesOld, SetCert, RemoveCert, Active, Expiring;
    RemoveMovesPhase(n, c);
    SetMovesPhase(n, RemoveCert(n, c), set_);
  }

  lemma Movable(s: Store, ca: string, set_: Run)
    requires ServerOk(s) && Rotatable(s, ca) && set_.expiryDays != 0
    requires s[ca].versions != [] && Expiring(s[ca].versions[|s[ca].versions| - 1].expiry, set_)
    requires ServerOk(AfterRemove(s)) && ServerOk(AfterSet(AfterRemove(s), set_))
    ensures Moved(AfterSet(AfterRemove(s), set_), ca)
  {
    hide *;
    RotatableMeans(s, ca);
    CertMovable(ca, s[ca], set_);
    AfterRemoveAt(s);
    AfterSetAt(AfterRemove(s), set_);
    MovedIs(AfterSet(AfterRemove(s), set_), ca);
  }

  lemma LeafStays(s: Store, leaf: string, set_: Run)
    requires ServerOk(s) && IsLeaf(s, leaf) && ServerOk(AfterRemove(s))
    ensures var m := AfterSet(AfterRemove(s), set_); leaf in m && m[leaf] == s[leaf] && IsLeaf(m, leaf)
  {
    hide ServerOk, AfterSet, AfterRemove, WellFormed;
    AfterRemoveAt(s);
    RemoveOnLeaf(leaf, s[leaf]);
    AfterSetAt(AfterRemove(s), set_);
    SetOnLeaf(leaf, s[leaf], set_);
  }

  /** Whatever a move run does to a moved CA's guarded leaf that is not due, it leaves some moved
      CA's leaf behind. */
  lemma MoveLeavesBehind(s: Store, leaf: string, run: Run, t: Store) returns (x: string)
    requires ServerOk(s) && Signed(s) && IsLeaf(s, leaf) && Moved(s, s[leaf].signedBy) && Guarded(leaf)
    requires run.expiryDays != 0 && !Renewable(s, leaf, run) && StepTo(s, Move(run), t)
    ensures ServerOk(t) && IsLeaf(t, x) && Rotatable(t, t[x].signedBy)
    ensures PhaseOf(t[t[x].signedBy].versions) == OldestTransitional
    ensures Signer(t, x) != Active(t[t[x].signedBy].versions)
  {
    hide *;
    ReissuesMeans(s, run);
    MoveOutcome(s, run, t);
    var cas, leaves;
    if n :| DiesAt(s, n) {
      var names, i, j :| Lists(names, s.Keys) && DiedAt(s, names, run, t, i, j);
      cas, leaves, x := DiedMeans(s, names, run, t, i, j);
      DiesMeans(s, x);
    } else {
      x, cas, leaves := leaf, s.Keys, Reissues(s, run);
    }
    BehindAt(s, run, cas, leaves, x);
  }

  lemma MoveOutcome(s: Store, run: Run, t: Store)
    requires ServerOk(s)
    ensures run.expiryDays == 0 ==> (StepTo(s, Move(run), t) <==> t == s)
    ensures run.expiryDays != 0 ==> (StepTo(s, Move(run), t) <==>
              if exists n :: DiesAt(s, n)
              then exists names, i, j :: Lists(names, s.Keys) && DiedAt(s, names, run, t, i, j)
              else t == AfterMove(s, run))
  {
    hide ServerOk, DiesAt, DiedAt, Stage, Reissues, Lists;
  }

  lemma DiesMeans(s: Store, n: string)
    requires ServerOk(s) && DiesAt(s, n)
    ensures IsLeaf(s, n) && Moved(s, s[n].signedBy) && Guarded(n)
  {
  }

  lemma BehindAt(s: Store, run: Run, cas: set<string>, leaves: set<string>, x: string)
    requires ServerOk(s) && Signed(s)
    requires forall n :: n in leaves ==> IsLeaf(s, n) && (s[n].signedBy in cas || !Moved(s, s[n].signedBy))
    requires IsLeaf(s, x) && x !in leaves && s[x].signedBy in cas && Moved(s, s[x].signedBy)
    ensures var t := Stage(s, run, cas, leaves);
            && ServerOk(t) && IsLeaf(t, x) && Rotatable(t, t[x].signedBy)
            && PhaseOf(t[t[x].signedBy].versions) == OldestTransitional
            && Signer(t, x) != Active(t[t[x].signedBy].versions)
  {
    StageKeeps(s, run, cas, leaves);
    StageLeafSigner(s, run, cas, leaves, x);
    StageOf(s, run, cas, leaves, s[x].signedBy);
    MoveMovesPhase(s, s[x].signedBy);
    hide ServerOk, Stage, AfterCa, Reissued, Increasing, WellFormed, Transitional, Active, ByExpiry, PhaseOf;
  }

  /** The remove script then takes away the only trust the leaf behind still had. */
  lemma RemoveDropsTrust(s: Store, x: string)
    requires ServerOk(s) && IsLeaf(s, x) && Rotatable(s, s[x].signedBy)
    requires PhaseOf(s[s[x].signedBy].versions) == OldestTransitional
    requires Signer(s, x) != Active(s[s[x].signedBy].versions)
    ensures ServerOk(AfterRemove(s)) && !AllTrusted(AfterRemove(s)) && !Signed(AfterRemove(s))
  {
    var t, ca := AfterRemove(s), s[x].signedBy;
    RemoveOnLeaf(x, s[x]);
    RemoveOnOldest(ca, s[ca]);
    hide *;
    RotatableMeans(s, ca);
    AfterRemoveAt(s);
    RemoveKeeps(s);
    TrustedIs(t, ca);
    BehindIs(s, t, x, Active(s[ca].versions));
  }

  lemma RemoveOnOldest(n: string, c: Cert)
    requires WellFormed(c.versions) && Increasing(c.versions) && c.signedBy == n && !MatchesOld(n)
    requires PhaseOf(c.versions) == OldestTransitional
    ensures var d := RemoveCert(n, c);
            WellFormed(d.versions) && Active(d.versions) == Active(c.versions) && Current(d.versions) == [Active(c.versions)]
  {
    var d := RemoveCert(n, c);
    RemoveMovesPhase(n, c);
    PhaseShape(d.versions);
    hide RemoveCert, PhaseOf, WellFormed, Active, Transitional;
  }

  lemma TrustedIs(s: Store, n: string)
    requires ServerOk(s) && n in s
    ensures WellFormed(s[n].versions) && Trusted(s, n) == Current(s[n].versions)
  {
  }

  /** Trust narrowed to the active version is trust lost for a leaf it did not sign. */
  lemma BehindIs(s: Store, t: Store, x: string, active: nat)
    requires ServerOk(s) && ServerOk(t) && IsLeaf(s, x) && x in t && t[x] == s[x] && s[x].signedBy in t
    requires Signer(s, x) != active && Trusted(t, s[x].signedBy) == [active]
    ensures !AllTrusted(t) && !Signed(t)
  {
    hide ServerOk, WellFormed, Active, Transitional;
    assert IsLeaf(t, x) && Signer(t, x) == Signer(s, x);
  }

  // ------------------------------------------- runs as they come

  /** One day after another, with EXPIRY_DAYS ahead: what a sequence of scheduled runs looks like. */
  ghost predicate Scheduled(steps: seq<Step>) {
    && (forall k :: 0 <= k < |steps| && !steps[k].Remove? ==> steps[k].run.expiryDays > 0)
    && forall j, k :: 0 <= j < k < |steps| && !steps[j].Remove? && !steps[k].Remove? ==>
         steps[j].run.today <= steps[k].run.today
  }

  /** Remove, set, move, remove: a leaf that the guard skips, and that is not due when its CA
      moves, is not trusted in the end, whatever the runs do. */
  lemma FourRunsLoseTrust(s: Store, leaf: string, set_: Run, move: Run, t: Store)
    requires ServerOk(s) && Signed(s) && IsLeaf(s, leaf) && leaf in s && Guarded(leaf)
    requires Rotatable(s, s[leaf].signedBy) && set_.expiryDays != 0 && move.expiryDays != 0
    requires var vs := s[s[leaf].signedBy].versions; vs != [] && Expiring(vs[|vs| - 1].expiry, set_)
    requires WellFormed(s[leaf].versions) && !Expiring(s[leaf].versions[Active(s[leaf].versions)].expiry, move)
    requires Reaches(s, [Remove] + ([Set(set_)] + ([Move(move)] + ([Remove] + []))), t)
    ensures ServerOk(t) && !AllTrusted(t) && !Signed(t)
  {
    hide *;
    StepToScripts(s, set_);
    var r := ReachesThrough(s, Remove, [Set(set_)] + ([Move(move)] + ([Remove] + [])), t);
    RemoveKeeps(s);
    StepToScripts(r, set_);
    var m := ReachesThrough(r, Set(set_), [Move(move)] + ([Remove] + []), t);
    SetKeeps(r, set_);
    Movable(s, s[leaf].signedBy, set_);
    LeafStays(s, leaf, set_);
    NotDue(s, m, leaf, move);
    var u := ReachesThrough(m, Move(move), [Remove] + [], t);
    var x := MoveLeavesBehind(m, leaf, move, u);
    StepToScripts(u, set_);
    var v := ReachesThrough(u, Remove, [], t);
    RemoveDropsTrust(u, x);
    StepToScripts(v, set_);
  }

  lemma NotDue(s: Store, m: Store, leaf: string, run: Run)
    requires ServerOk(m) && leaf in s && leaf in m && m[leaf] == s[leaf]
    requires WellFormed(s[leaf].versions) && !Expiring(s[leaf].versions[Active(s[leaf].versions)].expiry, run)
    ensures !Renewable(m, leaf, run)
  {
  }

  /** Some run of each script is always possible. */
  lemma SomeStep(s: Store, step: Step) returns (t: Store)
    requires ServerOk(s)
    ensures StepTo(s, step, t)
  {
    match step
    case Set(run) => t := AfterSet(s, run);
    case Remove => t := AfterRemove(s);
    case Move(run) =>
      if run.expiryDays != 0 && exists n :: DiesAt(s, n) {
        var n :| DiesAt(s, n);
        var names := Listing(s.Keys);
        var i, j;
        t, i, j := SomeDeath(s, names, run, n);
      } else {
        t := AfterMove(s, run);
      }
  }

  lemma {:induction false} Listing(stored: set<string>) returns (names: seq<string>)
    ensures Lists(names, stored)
    decreases |stored|
  {
    if stored == {} {
      names := [];
    } else {
      var n :| n in stored;
      var rest := Listing(stored - {n});
      names := [n] + rest;
      assert forall k :: 0 <= k < |rest| ==> rest[k] in rest;
    }
  }

  lemma SomeDeath(s: Store, names: seq<string>, run: Run, n: string) returns (t: Store, i: nat, j: nat)
    requires ServerOk(s) && Lists(names, s.Keys) && DiesAt(s, n)
    ensures DiedAt(s, names, run, t, i, j)
  {
    hide *;
    StageAll(s, names);
    i := FirstDeadly(s, names, |names|, n);
    var d :| DiesAt(s, d) && s[d].signedBy == names[i];
    DiesMeans(s, d);
    SignerOfLeaf(s, d);
    DeathIsListed(s, names, d);
    var signs := SignedNames(s, names, names[i]);
    j := FirstFatalIn(signs, |signs|, d);
    t := Stage(s, run, Before(names, i + 1), Swept(s, Before(names, i)) + Unguarded(Before(signs, j)));
    DiedHere(s, names, run, t, i, j);
  }

  lemma SignerOfLeaf(s: Store, n: string)
    requires ServerOk(s) && IsLeaf(s, n)
    ensures n in s && IsCa(s, s[n].signedBy)
  {
  }

  lemma DeathIsListed(s: Store, names: seq<string>, n: string)
    requires ServerOk(s) && Lists(names, s.Keys) && DiesAt(s, n)
    ensures n in SignedNames(s, names, s[n].signedBy)[..|SignedNames(s, names, s[n].signedBy)|] && Fatal(n)
  {
    var signs := SignedNames(s, names, s[n].signedBy);
    assert signs[..|signs|] == signs;
  }

  /** The first CA of the listing that signs a name on which the run dies. */
  lemma {:induction false} FirstDeadly(s: Store, names: seq<string>, k: nat, n: string) returns (i: nat)
    requires ServerOk(s) && k <= |names| && forall m :: DiesAt(s, m) ==> m in s
    requires Before(names, 0) == {} && DiesAt(s, n) && s[n].signedBy in Before(names, k)
    ensures i < |names| && exists d :: DiesAt(s, d) && s[d].signedBy == names[i]
    ensures forall m :: DiesAt(s, m) ==> s[m].signedBy !in Before(names, i)
    decreases k
  {
    hide ServerOk, DiesAt;
    if m :| DiesAt(s, m) && s[m].signedBy in Before(names, k - 1) {
      i := FirstDeadly(s, names, k - 1, m);
    } else {
      i := k - 1;
    }
  }

  lemma {:induction false} FirstFatalIn(signs: seq<string>, k: nat, n: string) returns (j: nat)
    requires k <= |signs| && n in signs[..k] && Fatal(n)
    ensures FirstFatal(signs, j) && j < |signs|
    decreases k
  {
    hide Fatal;
    if m :| m in signs[..k - 1] && Fatal(m) {
      j := FirstFatalIn(signs, k - 1, m);
    } else {
      j := k - 1;
      assert signs[..k] == signs[..k - 1] + [signs[k - 1]];
    }
  }

  lemma StepOk(s: Store, step: Step, t: Store)
    requires ServerOk(s) && StepTo(s, step, t)
    ensures ServerOk(t)
  {
    match step
    case Set(run) => SetKeeps(s, run);
    case Remove => RemoveKeeps(s);
    case Move(run) =>
      if run.expiryDays != 0 {
        hide *;
        MoveOutcome(s, run, t);
        if exists n :: DiesAt(s, n) {
          var names, i, j :| Lists(names, s.Keys) && DiedAt(s, names, run, t, i, j);
          var cas, leaves, leaf := DiedMeans(s, names, run, t, i, j);
          StageOk(s, run, cas, leaves);
        } else {
          ReissuesMeans(s, run);
          StageOk(s, run, s.Keys, Reissues(s, run));
        }
      }
  }

  lemma {:induction false} SomeRun(s: Store, steps: seq<Step>) returns (t: Store)
    requires ServerOk(s)
    ensures Reaches(s, steps, t)
    decreases |steps|
  {
    hide ServerOk, StepTo;
    if steps == [] {
      t := s;
    } else {
      var m := SomeStep(s, steps[0]);
      StepOk(s, steps[0], m);
      t := SomeRun(m, steps[1..]);
    }
  }

  /** If one name is unsafe: four scheduled runs after which, whatever the server issues and in
      whatever order it lists, some leaf's signer is not trusted. */
  lemma TrustIsLost(s: Store, issue: string -> int, reissue: string -> int) returns (steps: seq<Step>)
    requires ServerOk(s) && Signed(s) && !SafeNames(s)
    ensures |steps| == 4 && Scheduled(steps)
    ensures forall k :: 0 <= k < 4 && steps[k].Set? ==> steps[k].run.issue == issue
    ensures forall k :: 0 <= k < 4 && steps[k].Move? ==> steps[k].run.issue == reissue
    ensures exists t :: Reaches(s, steps, t)
    ensures forall t :: Reaches(s, steps, t) ==> ServerOk(t) && !AllTrusted(t) && !Signed(t)
  {
    var leaf := UnsafeName(s);
    var set_, move := TwoRuns(s, leaf, issue, reissue);
    hide *;
    steps := [Remove] + ([Set(set_)] + ([Move(move)] + ([Remove] + [])));
    var t := SomeRun(s, steps);
    forall t | Reaches(s, steps, t) ensures ServerOk(t) && !AllTrusted(t) && !Signed(t) {
      FourRunsLoseTrust(s, leaf, set_, move, t);
    }
    OneDay(steps, set_, move);
  }

  lemma OneDay(steps: seq<Step>, set_: Run, move: Run)
    requires steps == [Remove] + ([Set(set_)] + ([Move(move)] + ([Remove] + [])))
    requires set_.today == move.today && set_.expiryDays > 0 && move.expiryDays > 0
    ensures |steps| == 4 && Scheduled(steps)
    ensures forall k :: 0 <= k < 4 && steps[k].Set? ==> steps[k].run == set_
    ensures forall k :: 0 <= k < 4 && steps[k].Move? ==> steps[k].run == move
  {
  }

  /** One day, and an EXPIRY_DAYS for each run: the CA is due for the set, the leaf is not due
      for the move. */
  lemma TwoRuns(s: Store, leaf: string, issue: string -> int, reissue: string -> int) returns (set_: Run, move: Run)
    requires ServerOk(s) && IsLeaf(s, leaf) && leaf in s && Rotatable(s, s[leaf].signedBy)
    ensures set_.today == move.today && set_.expiryDays > 0 && move.expiryDays > 0
    ensures set_.issue == issue && move.issue == reissue
    ensures var vs := s[s[leaf].signedBy].versions; vs != [] && Expiring(vs[|vs| - 1].expiry, set_)
    ensures WellFormed(s[leaf].versions) && !Expiring(s[leaf].versions[Active(s[leaf].versions)].expiry, move)
  {
    RotatableMeans(s, s[leaf].signedBy);
    var vs := s[s[leaf].signedBy].versions;
    var caDay := DayOf(vs[|vs| - 1].expiry);
    var leafDay := DayOf(s[leaf].versions[Active(s[leaf].versions)].expiry);
    var day := (if leafDay < caDay then leafDay else caDay) - 2;
    set_, move := Run(day, caDay - day, issue), Run(day, 1, reissue);
  }

  lemma UnsafeName(s: Store) returns (leaf: string)
    requires ServerOk(s) && !SafeNames(s)
    ensures IsLeaf(s, leaf) && leaf in s && Rotatable(s, s[leaf].signedBy) && Guarded(leaf)
  {
    leaf :| IsLeaf(s, leaf) && !MatchesOld(s[leaf].signedBy) && Guarded(leaf);
    assert IsCa(s, s[leaf].signedBy);
  }

  /** From a store in which every leaf is signed by its CA's active version, that stays
      so, and no leaf's signer ever goes missing, over every sequence of runs at every
      clock, if and only if the names are safe; and it makes no difference to ask for sequences
      of scheduled runs only. */
  lemma RotationIsSafeIff(s: Store)
    requires ServerOk(s) && Signed(s)
    ensures (forall steps, t :: Reaches(s, steps, t) ==> ServerOk(t) && Signed(t)) <==> SafeNames(s)
    ensures (forall steps, t :: Reaches(s, steps, t) ==> ServerOk(t) && AllTrusted(t)) <==> SafeNames(s)
    ensures (forall steps, t :: Scheduled(steps) && Reaches(s, steps, t) ==> ServerOk(t) && Signed(t)) <==> SafeNames(s)
    ensures (forall steps, t :: Scheduled(steps) && Reaches(s, steps, t) ==> ServerOk(t) && AllTrusted(t)) <==> SafeNames(s)
  {
    if SafeNames(s) {
      forall steps, t | Reaches(s, steps, t) ensures ServerOk(t) && Signed(t) && AllTrusted(t) {
        SafeRuns(s, steps, t);
      }
    } else {
      hide *;
      var steps := TrustIsLost(s, _ => 0, _ => 0);
      var t :| Reaches(s, steps, t);
      assert Scheduled(steps) && !Signed(t) && !AllTrusted(t);
    }
  }
}
