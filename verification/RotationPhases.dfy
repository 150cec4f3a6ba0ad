/** What the three scripts do to one CA: three phases, one script acting in each. */
module RotationPhases {
  import opened CaMove
  import opened CaRotation
  import opened CredHub
  import opened Wrappers

  /** In each phase, where the active and the transitional versions are. */
  lemma PhaseShape(vs: seq<Version>)
    requires WellFormed(vs) && Increasing(vs)
    ensures PhaseOf(vs) == Single <==> Transitional(vs) == None
    ensures PhaseOf(vs) == NewestTransitional <==> Transitional(vs) == Some(|vs| - 1)
    ensures PhaseOf(vs) == OldestTransitional <==> Transitional(vs).Some? && Transitional(vs).value < |vs| - 1
    ensures PhaseOf(vs) != NewestTransitional ==> Active(vs) == |vs| - 1
    ensures PhaseOf(vs) == NewestTransitional ==> |vs| >= 2 && Active(vs) == |vs| - 2 && ByExpiry(vs) == (|vs| - 1, |vs| - 2)
    ensures PhaseOf(vs) == OldestTransitional ==> ByExpiry(vs) == (|vs| - 1, Transitional(vs).value)
  {
    match Transitional(vs)
    case None => ActiveIs(vs, |vs| - 1);
    case Some(t) =>
      if t == |vs| - 1 {
        NotNewest(vs);
      } else {
        ActiveIs(vs, |vs| - 1);
      }
    hide Active, Transitional, WellFormed;
  }

  lemma NotNewest(vs: seq<Version>)
    requires WellFormed(vs) && Transitional(vs) == Some(|vs| - 1)
    ensures |vs| >= 2 && Active(vs) == |vs| - 2
  {
    hide Active, Transitional;
    assert vs[|vs| - 1].transitional && !vs[|vs| - 2].transitional;
    ActiveIs(vs, |vs| - 2);
  }

  /** A version list whose only transitional version, if any, is `t`. */
  lemma ShapeIs(vs: seq<Version>, t: Option<nat>)
    requires vs != [] && Increasing(vs)
    requires t.Some? ==> t.value < |vs| && |vs| >= 2
    requires forall i :: 0 <= i < |vs| ==> vs[i].transitional == (t == Some(i))
    ensures WellFormed(vs) && Transitional(vs) == t
  {
    assert !vs[if t == Some(0) then 1 else 0].transitional;
    if t.Some? {
      TransitionalIs(vs, t.value);
    }
  }

  lemma Appended(vs: seq<Version>, v: Version)
    requires vs != [] && Increasing(vs) && v.expiry > vs[|vs| - 1].expiry
    ensures Increasing(vs + [v])
  {
    assert forall i :: 0 <= i < |vs| ==> vs[i].expiry <= vs[|vs| - 1].expiry;
  }

  /** The set script acts on a CA with one version that is expiring, and on nothing
      else: the newcomer is transitional and newest, the active version stays. */
  lemma SetMovesPhase(n: string, c: Cert, run: Run)
    requires WellFormed(c.versions) && Increasing(c.versions) && c.signedBy == n
    ensures var d := SetCert(n, c, run);
            && WellFormed(d.versions) && Increasing(d.versions) && d.signedBy == n
            && Active(d.versions) == Active(c.versions)
            && if run.expiryDays != 0 && !MatchesOld(n) && PhaseOf(c.versions) == Single
                  && Expiring(c.versions[|c.versions| - 1].expiry, run)
               then PhaseOf(d.versions) == NewestTransitional
                    && |d.versions| == |c.versions| + 1 && d.versions[..|c.versions|] == c.versions
                    && d.versions[|c.versions|].expiry == Later(c.versions[|c.versions| - 1].expiry, run.issue(n))
               else d == c
  {
    var vs, d := c.versions, SetCert(n, c, run);
    PhaseShape(vs);
    if run.expiryDays != 0 && !MatchesOld(n) && PhaseOf(vs) == Single && Expiring(vs[|vs| - 1].expiry, run) {
      Appended(vs, d.versions[|vs|]);
      hide MatchesOld, Expiring, Active, Transitional, ByExpiry;
      ShapeIs(d.versions, Some(|vs|));
      PhaseShape(d.versions);
    }
  }

  /** The move script acts on a CA whose newest version is transitional, and on nothing
      else: the two current versions change places. */
  lemma MoveMovesPhase(s: Store, n: string)
    requires ServerOk(s) && IsCa(s, n)
    ensures var c, d := s[n], AfterCa(s, n);
            && WellFormed(d.versions) && Increasing(d.versions) && d.signedBy == n
            && if !MatchesOld(n) && PhaseOf(c.versions) == NewestTransitional
               then PhaseOf(d.versions) == OldestTransitional && |d.versions| == |c.versions|
                    && d.versions[|d.versions| - 1].expiry == c.versions[|c.versions| - 1].expiry
                    && Current(d.versions) == [Current(c.versions)[1], Current(c.versions)[0]]
               else d == c
  {
    var vs, d := s[n].versions, AfterCa(s, n);
    PhaseShape(vs);
    if !MatchesOld(n) && PhaseOf(vs) == NewestTransitional {
      assert d == s[n].(versions := Flagged(vs, Some(|vs| - 2)));
      hide MatchesOld, AfterCa, Active, Transitional, ByExpiry, PhaseOf, ServerOk;
      ShapeIs(d.versions, Some(|vs| - 2));
      PhaseShape(d.versions);
    }
  }

  /** The remove script acts on a CA whose older version is transitional, and on nothing
      else: only the active version, the newest, stays current. */
  lemma RemoveMovesPhase(n: string, c: Cert)
    requires WellFormed(c.versions) && Increasing(c.versions) && c.signedBy == n
    ensures var d := RemoveCert(n, c);
            && WellFormed(d.versions) && Increasing(d.versions) && d.signedBy == n
            && Active(d.versions) == Active(c.versions)
            && if !MatchesOld(n) && PhaseOf(c.versions) == OldestTransitional
               then PhaseOf(d.versions) == Single && |d.versions| == |c.versions|
                    && d.versions[|d.versions| - 1].expiry == c.versions[|c.versions| - 1].expiry
               else d == c
  {
    var vs, d := c.versions, RemoveCert(n, c);
    PhaseShape(vs);
    if !MatchesOld(n) && PhaseOf(vs) == OldestTransitional {
      assert d == c.(versions := Flagged(vs, None));
      hide MatchesOld, RemoveCert, Active, Transitional, ByExpiry, PhaseOf;
      ShapeIs(d.versions, None);
      PhaseShape(d.versions);
    }
  }
}
