/** What a set, a move and a remove do one after the other, and where repeating them ends. */
module RotationRounds {
  import opened CredHub
  import opened CaRotation
  import opened CaMove
  import opened RotationPhases
  import opened RotationSafety

  /** Set, then move, then remove. */
  ghost function Round(s: Store, set_: Run, move: Run): (t: Store)
    requires ServerOk(s)
    ensures ServerOk(t)
  {
    var s1 := AfterSet(s, set_);
    SetKeeps(s, set_);
    var s2 := AfterMove(s1, move);
    MoveOk(s1, move);
    RemoveKeeps(s2);
    AfterRemove(s2)
  }

  lemma MoveOk(s: Store, run: Run)
    requires ServerOk(s)
    ensures ServerOk(AfterMove(s, run))
  {
    if run.expiryDays != 0 {
      StageOk(s, run, s.Keys, Reissues(s, run));
    }
  }

  lemma RoundIs(s: Store, set_: Run, move: Run)
    requires ServerOk(s)
    ensures ServerOk(AfterSet(s, set_)) && ServerOk(AfterMove(AfterSet(s, set_), move))
    ensures Round(s, set_, move) == AfterRemove(AfterMove(AfterSet(s, set_), move))
  {
    hide ServerOk, AfterSet, AfterMove, AfterRemove, Overlaps;
    SetKeeps(s, set_);
    MoveOk(AfterSet(s, set_), move);
  }

  /** No leaf of a rotated CA has a name on which a move run dies. */
  ghost predicate NoFatalNames(s: Store)
    requires ServerOk(s)
  {
    forall n :: IsLeaf(s, n) && !MatchesOld(s[n].signedBy) ==> !Fatal(n)
  }

  lemma NoFatalNamesMean(s: Store, t: Store)
    requires ServerOk(s) && ServerOk(t) && NoFatalNames(s)
    requires s.Keys == t.Keys && forall n :: n in s ==> t[n].signedBy == s[n].signedBy
    ensures NoFatalNames(t) && forall n :: !DiesAt(t, n)
  {
    hide ServerOk, MatchesOld, Fatal, PhaseOf;
  }

  function RoundSteps(set_: Run, move: Run): seq<Step> { [Set(set_)] + ([Move(move)] + ([Remove] + [])) }

  /** Where no name is fatal, the three runs of a round have one outcome, the round's. */
  lemma RoundIsARun(s: Store, set_: Run, move: Run, t: Store)
    requires ServerOk(s) && NoFatalNames(s)
    ensures Reaches(s, RoundSteps(set_, move), t) <==> t == Round(s, set_, move)
  {
    hide *;
    RoundIs(s, set_, move);
    RoundStepsAre(set_, move);
    var s1 := AfterSet(s, set_);
    var s2 := AfterMove(s1, move);
    StepToScripts(s, set_);
    SameSigners(s, Set(set_), s1);
    NoFatalNamesMean(s, s1);
    OnlyCompletes(s1, move);
    StepToScripts(s2, move);
    StepToScripts(AfterRemove(s2), move);
    if t == Round(s, set_, move) {
      StepToScripts(t, move);
      ReachesFirst(s2, Remove, t, [], t);
      ReachesFirst(s1, Move(move), s2, [Remove] + [], t);
      ReachesFirst(s, Set(set_), s1, [Move(move)] + ([Remove] + []), t);
    }
    if Reaches(s, RoundSteps(set_, move), t) {
      var a := ReachesThrough(s, Set(set_), [Move(move)] + ([Remove] + []), t);
      var b := ReachesThrough(s1, Move(move), [Remove] + [], t);
      var c := ReachesThrough(s2, Remove, [], t);
    }
  }

  lemma RoundStepsAre(set_: Run, move: Run)
    ensures RoundSteps(set_, move) == [Set(set_)] + ([Move(move)] + ([Remove] + []))
  {
  }

  lemma OnlyCompletes(s: Store, run: Run)
    requires ServerOk(s) && forall n :: !DiesAt(s, n)
    ensures forall t :: StepTo(s, Move(run), t) <==> t == AfterMove(s, run)
  {
    hide ServerOk, DiesAt, AfterMove;
  }

  /** The store and the certificate after each script, seen from one certificate. */
  lemma RoundAt(s: Store, n: string, set_: Run, move: Run)
    requires ServerOk(s) && n in s && move.expiryDays != 0
    requires ServerOk(AfterSet(s, set_)) && ServerOk(AfterMove(AfterSet(s, set_), move)) && WellFormed(s[n].versions)
    ensures var s1 := AfterSet(s, set_);
            && n in s1 && s1[n].signedBy == s[n].signedBy && s1[n] == SetCert(n, s[n], set_)
            && AfterMove(s1, move) == Stage(s1, move, s1.Keys, Reissues(s1, move))
            && var s2 := AfterMove(s1, move);
            && n in s2 && WellFormed(s2[n].versions) && s2[n].signedBy == s1[n].signedBy
            && n in Round(s, set_, move) && Round(s, set_, move)[n] == RemoveCert(n, s2[n])
  {
    var s1 := AfterSet(s, set_);
    hide *;
    RoundIs(s, set_, move);
    AfterSetAt(s, set_);
    SetOnLeaf(n, s[n], set_);
    ReissuesMeans(s1, move);
    AfterRemoveAt(AfterMove(s1, move));
  }

  /** A round moves each CA through its phases on its own. */
  lemma RoundOnCa(s: Store, n: string, set_: Run, move: Run)
    requires ServerOk(s) && IsCa(s, n) && move.expiryDays != 0
    ensures var s1 := AfterSet(s, set_);
            && ServerOk(s1) && IsCa(s1, n) && s1[n] == SetCert(n, s[n], set_)
            && WellFormed(AfterCa(s1, n).versions)
            && n in Round(s, set_, move) && Round(s, set_, move)[n] == RemoveCert(n, AfterCa(s1, n))
  {
    var s1 := AfterSet(s, set_);
    hide *;
    CaMeans(s, n);
    RoundIs(s, set_, move);
    RoundAt(s, n, set_, move);
    IsCaIs(s, s1, n);
    ReissuesMeans(s1, move);
    StageOf(s1, move, s1.Keys, Reissues(s1, move), n);
    AfterCaHasActive(s1, n);
  }

  lemma IsCaIs(s: Store, t: Store, n: string)
    requires n in s && n in t && s[n].signedBy == t[n].signedBy
    ensures n in s && (IsCa(s, n) <==> IsCa(t, n)) && (IsLeaf(s, n) <==> IsLeaf(t, n))
    ensures IsCa(s, n) <==> !IsLeaf(s, n)
    ensures IsCa(s, n) <==> s[n].signedBy == n
  {
  }

  lemma RoundOnLeaf(s: Store, n: string, set_: Run, move: Run)
    requires ServerOk(s) && IsLeaf(s, n) && move.expiryDays != 0
    ensures var s1 := AfterSet(s, set_);
            && ServerOk(s1) && IsLeaf(s1, n) && s1[n] == s[n]
            && n in Round(s, set_, move)
            && Round(s, set_, move)[n] == if n in Reissues(s1, move) then Reissued(s1, n, move) else s[n]
  {
    var s1 := AfterSet(s, set_);
    hide *;
    LeafMeans(s, n);
    RoundIs(s, set_, move);
    RoundAt(s, n, set_, move);
    SetOnLeaf(n, s[n], set_);
    RemoveOnLeaf(n, AfterMove(s1, move)[n]);
    IsCaIs(s, s1, n);
    ReissuesMeans(s1, move);
    StageOf(s1, move, s1.Keys, Reissues(s1, move), n);
  }

  /** What three scripts in a row make of a rotatable CA's certificate. */
  ghost predicate Rotated(n: string, c: Cert, d: Cert, run: Run)
    requires WellFormed(c.versions)
  {
    var vs, ws := c.versions, d.versions;
    && WellFormed(ws) && PhaseOf(ws) == Single && Current(ws) == [|ws| - 1] && d.signedBy == n
    && if PhaseOf(vs) != Single then |ws| == |vs| && ws[|vs| - 1].expiry == vs[|vs| - 1].expiry
       else if Expiring(vs[|vs| - 1].expiry, run)
            then |ws| == |vs| + 1 && ws[|vs|].expiry == Later(vs[|vs| - 1].expiry, run.issue(n))
       else d == c
  }

  lemma RotatedIf(s: Store, n: string, c: Cert, set_: Run)
    requires WellFormed(c.versions) && Increasing(c.versions) && c.signedBy == n
    requires !MatchesOld(n) && set_.expiryDays != 0
    requires ServerOk(s) && IsCa(s, n) && s[n] == SetCert(n, c, set_) && WellFormed(AfterCa(s, n).versions)
    ensures Rotated(n, c, RemoveCert(n, AfterCa(s, n)), set_)
  {
    hide ServerOk, WellFormed, Increasing, MatchesOld, Expiring, PhaseOf, SetCert, AfterCa, RemoveCert, Current, Active;
    SetMovesPhase(n, c, set_);
    MoveMovesPhase(s, n);
    RemoveMovesPhase(n, AfterCa(s, n));
    SingleMeans(RemoveCert(n, AfterCa(s, n)).versions);
  }

  /** Set, move, remove on a CA with one version, about to expire, ends at one current
      version, newly issued and expiring later; a CA caught mid-way is finished off; any
      other CA is as it was. */
  lemma FullRotation(s: Store, n: string, set_: Run, move: Run, t: Store)
    requires ServerOk(s) && NoFatalNames(s) && Rotatable(s, n) && set_.expiryDays != 0 && move.expiryDays != 0
    requires Reaches(s, RoundSteps(set_, move), t)
    ensures n in t && Rotated(n, s[n], t[n], set_)
  {
    hide *;
    RoundIsARun(s, set_, move, t);
    RoundRotates(s, n, set_, move);
  }

  lemma RoundRotates(s: Store, n: string, set_: Run, move: Run)
    requires ServerOk(s) && Rotatable(s, n) && set_.expiryDays != 0 && move.expiryDays != 0
    ensures n in Round(s, set_, move) && Rotated(n, s[n], Round(s, set_, move)[n], set_)
  {
    var s1 := AfterSet(s, set_);
    hide *;
    RotatableMeans(s, n);
    IsCaIs(s, s, n);
    RoundOnCa(s, n, set_, move);
    RotatedIf(s1, n, s[n], set_);
  }

  lemma SingleMeans(vs: seq<Version>)
    requires WellFormed(vs) && Increasing(vs) && PhaseOf(vs) == Single
    ensures vs != [] && Current(vs) == [|vs| - 1] && Active(vs) == |vs| - 1
  {
    PhaseShape(vs);
  }

  lemma CaMeans(s: Store, n: string)
    requires ServerOk(s) && IsCa(s, n)
    ensures n in s && s[n].signedBy == n && WellFormed(s[n].versions) && Increasing(s[n].versions) && s[n].versions != []
  {
  }

  lemma LeafMeans(s: Store, n: string)
    requires ServerOk(s) && IsLeaf(s, n)
    ensures n in s && s[n].signedBy != n && WellFormed(s[n].versions) && s[n].versions != []
  {
  }

  // ---------------------------------------------------------------- fixpoint

  /** New versions outlive the expiry window the scripts look through. */
  ghost predicate Outlives(run: Run) {
    forall n :: !Expiring(run.issue(n), run)
  }

  /** Nothing is due: rotatable CAs have one version, and what the scripts would renew
      on its expiry is not expiring. */
  ghost predicate QuietAt(n: string, c: Cert, run: Run) {
    WellFormed(c.versions) && (!MatchesOld(n) ==>
      && (c.signedBy == n ==> PhaseOf(c.versions) == Single)
      && (|Current(c.versions)| <= 1 ==> !Expiring(c.versions[Active(c.versions)].expiry, run)))
  }

  ghost predicate Quiet(s: Store, run: Run) {
    forall n :: n in s ==> QuietAt(n, s[n], run)
  }

  lemma LaterOutlives(replaced: int, n: string, run: Run)
    requires Outlives(run)
    ensures !Expiring(Later(replaced, run.issue(n)), run)
  {
    assert !Expiring(run.issue(n), run);
  }

  /** After one round a leaf is not due; after one round a CA that had one version is
      not due, and one caught mid-way has one version. */
  lemma RotatedIsQuiet(n: string, c: Cert, d: Cert, run: Run)
    requires WellFormed(c.versions) && Increasing(c.versions) && WellFormed(d.versions) && Increasing(d.versions)
    requires Rotated(n, c, d, run) && Outlives(run) && PhaseOf(c.versions) == Single
    ensures QuietAt(n, d, run)
  {
    hide WellFormed, Increasing, Expiring, PhaseOf, MatchesOld, Current, Active, Outlives;
    SingleMeans(c.versions);
    SingleMeans(d.versions);
    LaterOutlives(c.versions[|c.versions| - 1].expiry, n, run);
  }

  lemma ReissuedIsQuiet(s: Store, n: string, run: Run)
    requires ServerOk(s) && IsLeaf(s, n) && Outlives(run)
    ensures n in s && QuietAt(n, Reissued(s, n, run), run)
    ensures WellFormed(s[n].versions) && !Renewable(s, n, run) ==> QuietAt(n, s[n], run)
  {
    ReissuedMeans(s, n, run);
    LaterOutlives(s[n].versions[Active(s[n].versions)].expiry, n, run);
    hide ServerOk, PhaseOf, Expiring, MatchesOld, Outlives, Current, Active, Increasing;
  }

  lemma LeafIsQuiet(s: Store, n: string, run: Run)
    requires ServerOk(s) && IsLeaf(s, n) && Outlives(run) && run.expiryDays != 0
    ensures n in Round(s, run, run) && QuietAt(n, Round(s, run, run)[n], run)
    ensures Round(s, run, run)[n].signedBy != n
  {
    hide *;
    var s1 := AfterSet(s, run);
    LeafMeans(s, n);
    RoundOnLeaf(s, n, run, run);
    ReissuesMeans(s1, run);
    ReissuedIsQuiet(s1, n, run);
    ReissuedMeans(s1, n, run);
    LeafMeans(s1, n);
  }

  lemma OldIsQuiet(s: Store, n: string, run: Run)
    requires ServerOk(s) && n in s && MatchesOld(n)
    ensures QuietAt(n, s[n], run)
  {
  }

  /** A `_old` CA is left alone. */
  lemma OldCaStays(s: Store, n: string, set_: Run, move: Run)
    requires ServerOk(s) && IsCa(s, n) && MatchesOld(n) && move.expiryDays != 0
    ensures n in s && n in Round(s, set_, move) && Round(s, set_, move)[n] == s[n]
  {
    hide ServerOk, MatchesOld, Round, PhaseOf, AfterSet, WellFormed;
    CaMeans(s, n);
    RoundOnCa(s, n, set_, move);
  }

  lemma CaIsQuiet(s: Store, n: string, run: Run)
    requires ServerOk(s) && Rotatable(s, n) && Outlives(run) && run.expiryDays != 0
    ensures var t := Round(s, run, run);
            n in t && Rotatable(t, n) && WellFormed(t[n].versions) && PhaseOf(t[n].versions) == Single
    ensures n in s && WellFormed(s[n].versions) && PhaseOf(s[n].versions) == Single
            ==> QuietAt(n, Round(s, run, run)[n], run)
  {
    hide *;
    var t := Round(s, run, run);
    RoundRotates(s, n, run, run);
    RotatableMeans(s, n);
    RotatedMeans(n, s[n], t, run);
    RotatableMeans(t, n);
    if PhaseOf(s[n].versions) == Single {
      RotatedIsQuiet(n, s[n], t[n], run);
    }
  }

  lemma RotatedMeans(n: string, c: Cert, t: Store, run: Run)
    requires WellFormed(c.versions) && !MatchesOld(n) && n in t && Rotated(n, c, t[n], run)
    ensures Rotatable(t, n) && WellFormed(t[n].versions) && PhaseOf(t[n].versions) == Single
  {
    hide PhaseOf, WellFormed, MatchesOld, Expiring, Current;
  }

  lemma TwoRoundsQuiet(s: Store, run: Run)
    requires ServerOk(s) && Outlives(run) && run.expiryDays != 0
    ensures Quiet(Round(Round(s, run, run), run, run), run)
  {
    var t := Round(s, run, run);
    var u := Round(t, run, run);
    forall n | n in u ensures QuietAt(n, u[n], run) {
      QuietAfterTwo(s, n, run);
    }
    hide QuietAt, Round, ServerOk;
  }

  lemma QuietAfterTwo(s: Store, n: string, run: Run)
    requires ServerOk(s) && Outlives(run) && run.expiryDays != 0
    requires n in Round(Round(s, run, run), run, run)
    ensures QuietAt(n, Round(Round(s, run, run), run, run)[n], run)
  {
    hide *;
    var t := Round(s, run, run);
    var u := Round(t, run, run);
    SameNames(s, run);
    SameNames(t, run);
    RotatableIs(s, n);
    RotatableIs(t, n);
    if MatchesOld(n) {
      OldIsQuiet(u, n, run);
    } else if IsLeaf(t, n) {
      LeafIsQuiet(t, n, run);
    } else {
      IsCaIs(s, t, n);
      CaIsQuiet(s, n, run);
      CaIsQuiet(t, n, run);
    }
  }

  lemma SameNames(s: Store, run: Run)
    requires ServerOk(s) && run.expiryDays != 0
    ensures s.Keys == Round(s, run, run).Keys
    ensures forall n :: n in s ==> Round(s, run, run)[n].signedBy == s[n].signedBy
  {
    hide *;
    RoundIs(s, run, run);
    var s1 := AfterSet(s, run);
    var s2 := AfterMove(s1, run);
    StepToScripts(s, run);
    SameSigners(s, Set(run), s1);
    ReissuesMeans(s1, run);
    StepToScripts(s2, run);
    SameSigners(s2, Remove, Round(s, run, run));
  }

  lemma RotatableIs(s: Store, n: string)
    ensures Rotatable(s, n) <==> IsCa(s, n) && !MatchesOld(n)
    ensures n in s ==> IsCa(s, n) || IsLeaf(s, n)
  {
  }

  // A quiet store stays as it is.

  lemma QuietCaStays(s: Store, n: string, run: Run)
    requires ServerOk(s) && IsCa(s, n) && Quiet(s, run) && run.expiryDays != 0
    ensures n in s && n in Round(s, run, run) && Round(s, run, run)[n] == s[n]
    ensures var s1 := AfterSet(s, run); ServerOk(s1) && IsCa(s1, n) && !Moved(s1, n)
  {
    hide *;
    var s1 := AfterSet(s, run);
    CaMeans(s, n);
    RotatableIs(s, n);
    RoundOnCa(s, n, run, run);
    QuietCaMeans(s, n, run);
    CaMeans(s1, n);
    if MatchesOld(n) {
      OldCaStays(s, n, run, run);
      NotMoved(s1, n);
    } else {
      RoundRotates(s, n, run, run);
      RotatedQuiet(n, s[n], Round(s, run, run)[n], run);
      QuietSet(n, s[n], run);
      NotMoved(s1, n);
    }
  }

  lemma QuietCaMeans(s: Store, n: string, run: Run)
    requires ServerOk(s) && IsCa(s, n) && Quiet(s, run)
    ensures n in s && QuietAt(n, s[n], run)
  {
    hide QuietAt, ServerOk;
  }

  lemma RotatedQuiet(n: string, c: Cert, d: Cert, run: Run)
    requires WellFormed(c.versions) && Increasing(c.versions) && Rotated(n, c, d, run)
    requires c.signedBy == n && !MatchesOld(n) && QuietAt(n, c, run)
    ensures d == c
  {
    hide WellFormed, Increasing, PhaseOf, Expiring, Current, Active, MatchesOld;
    SingleMeans(c.versions);
  }

  lemma QuietSet(n: string, c: Cert, run: Run)
    requires QuietAt(n, c, run) && c.signedBy == n && !MatchesOld(n)
    ensures WellFormed(c.versions) && SetCert(n, c, run) == c && PhaseOf(c.versions) == Single
  {
    hide MatchesOld, Expiring;
  }

  lemma NotMoved(s: Store, n: string)
    requires ServerOk(s) && IsCa(s, n) && n in s && WellFormed(s[n].versions)
    requires MatchesOld(n) || PhaseOf(s[n].versions) == Single
    ensures !Moved(s, n)
  {
  }

  lemma QuietLeafStays(s: Store, n: string, run: Run)
    requires ServerOk(s) && IsLeaf(s, n) && Quiet(s, run) && run.expiryDays != 0
    ensures n in s && n in Round(s, run, run) && Round(s, run, run)[n] == s[n]
  {
    hide *;
    var s1 := AfterSet(s, run);
    LeafMeans(s, n);
    SignerIsCa(s, n);
    RoundOnLeaf(s, n, run, run);
    LeafMeans(s1, n);
    ReissuesMeans(s1, run);
    QuietCaStays(s, s[n].signedBy, run);
    QuietLeafMeans(s, n, run);
    NotRenewable(s1, n, run);
  }

  lemma SignerIsCa(s: Store, n: string)
    requires ServerOk(s) && n in s
    ensures IsCa(s, s[n].signedBy)
  {
  }

  lemma QuietLeafMeans(s: Store, n: string, run: Run)
    requires n in s && Quiet(s, run)
    ensures QuietAt(n, s[n], run)
  {
    hide QuietAt;
  }

  lemma NotRenewable(s: Store, n: string, run: Run)
    requires ServerOk(s) && n in s && QuietAt(n, s[n], run)
    ensures !Renewable(s, n, run)
  {
  }

  lemma QuietIsFixed(s: Store, run: Run)
    requires ServerOk(s) && Quiet(s, run) && run.expiryDays != 0
    ensures Round(s, run, run) == s
  {
    hide Round, ServerOk, Quiet;
    SameNames(s, run);
    forall n | n in s ensures Round(s, run, run)[n] == s[n] {
      if IsCa(s, n) {
        QuietCaStays(s, n, run);
      } else {
        QuietLeafStays(s, n, run);
      }
    }
  }

  /** At a fixed clock, if new versions outlive EXPIRY_DAYS and no name is fatal, the third round
      of set, move and remove finds nothing to do, whatever state the first one found. */
  lemma RoundsReachFixpoint(s: Store, run: Run, t: Store, u: Store, v: Store)
    requires ServerOk(s) && NoFatalNames(s) && Outlives(run) && run.expiryDays != 0
    requires Reaches(s, RoundSteps(run, run), t)
    requires ServerOk(t) && Reaches(t, RoundSteps(run, run), u)
    requires ServerOk(u) && Reaches(u, RoundSteps(run, run), v)
    ensures v == u && Quiet(u, run)
  {
    hide *;
    RoundIsARun(s, run, run, t);
    SameNames(s, run);
    NoFatalNamesMean(s, t);
    RoundIsARun(t, run, run, u);
    SameNames(t, run);
    NoFatalNamesMean(t, u);
    RoundIsARun(u, run, run, v);
    TwoRoundsQuiet(s, run);
    QuietIsFixed(u, run);
  }
}
