/** ca-rotation-move-transitional.rb: move the flag from the newest version of a CA to
    the one before it, sign its leaves afresh, then renew the leaves that expire. */
module CaMove {
  import opened CaRotation
  import opened CredHub
  import opened Wrappers

  datatype Outcome = Completed | NoExpiryDays | Died

  predicate Moved(s: Store, n: string)
    requires ServerOk(s)
  {
    Rotatable(s, n) && PhaseOf(s[n].versions) == NewestTransitional
  }

  /** A CA once the first loop has passed it. */
  function AfterCa(s: Store, n: string): (c: Cert)
    requires ServerOk(s) && IsCa(s, n)
  {
    if Moved(s, n)
    then s[n].(versions := Flagged(s[n].versions, Some(ByExpiry(s[n].versions).1)))
    else s[n]
  }

  lemma AfterCaHasActive(s: Store, n: string)
    requires ServerOk(s) && IsCa(s, n)
    ensures WellFormed(AfterCa(s, n).versions)
  {
    if Moved(s, n) {
      var vs := s[n].versions;
      var (newCa, oldCa) := ByExpiry(vs);
      assert newCa != oldCa;
      assert !AfterCa(s, n).versions[newCa].transitional;
    }
  }

  /** A leaf issued again, signed by what is then its CA's active version. */
  function Reissued(s: Store, n: string, run: Run): (c: Cert)
    requires ServerOk(s) && IsLeaf(s, n)
  {
    AfterCaHasActive(s, s[n].signedBy);
    var vs := s[n].versions;
    s[n].(versions := vs + [Version(Later(vs[Active(vs)].expiry, run.issue(n)), false,
                                    Active(AfterCa(s, s[n].signedBy).versions))])
  }

  /** The store of a run that has passed the CAs in `cas` and reissued `leaves`. */
  function Stage(s: Store, run: Run, cas: set<string>, leaves: set<string>): (t: Store)
    requires ServerOk(s)
    ensures t.Keys == s.Keys
    ensures forall n :: n in s ==> t[n].signedBy == s[n].signedBy
  {
    map n | n in s :: if IsCa(s, n) then (if n in cas then AfterCa(s, n) else s[n])
                      else if n in leaves then Reissued(s, n, run) else s[n]
  }

  /** The leaves the first loop reissues for the CAs in `cas`. */
  ghost function Swept(s: Store, cas: set<string>): set<string>
    requires ServerOk(s)
  {
    set n | n in s && IsLeaf(s, n) && s[n].signedBy in cas && Moved(s, s[n].signedBy) && !Guarded(n)
  }

  predicate Renewable(s: Store, n: string, run: Run)
    requires ServerOk(s)
  {
    IsLeaf(s, n) && !MatchesOld(n) && |Current(s[n].versions)| <= 1
    && Expiring(s[n].versions[Active(s[n].versions)].expiry, run)
  }

  /** The leaves a whole run reissues. */
  ghost function Reissues(s: Store, run: Run): set<string>
    requires ServerOk(s)
  {
    Swept(s, s.Keys) + set n | n in s && Renewable(s, n, run)
  }

  ghost function AfterMove(s: Store, run: Run): (t: Store)
    requires ServerOk(s)
  {
    if run.expiryDays == 0 then s else Stage(s, run, s.Keys, Reissues(s, run))
  }

  /** Some leaf of a CA that is moved makes the guard's message raise. */
  ghost predicate DiesAt(s: Store, leaf: string)
    requires ServerOk(s)
  {
    IsLeaf(s, leaf) && Fatal(leaf) && Moved(s, s[leaf].signedBy)
  }

  ghost function Unguarded(seen: set<string>): set<string> { set n | n in seen && !Guarded(n) }

  ghost predicate FirstFatal(signs: seq<string>, j: nat) {
    j < |signs| && Fatal(signs[j]) && forall k :: 0 <= k < j ==> !Fatal(signs[k])
  }

  /** What a run that died leaves behind: it went through the CAs in the listing's order up to
      the `i`th, the first moved CA that signs a fatal name, and through that CA's `signs` list
      up to the `j`th name, the first fatal one. */
  ghost predicate DiedAt(s: Store, names: seq<string>, run: Run, t: Store, i: nat, j: nat)
    requires ServerOk(s)
  {
    && i < |names| && IsCa(s, names[i]) && Moved(s, names[i])
    && var signs := SignedNames(s, names, names[i]);
    && FirstFatal(signs, j)
    && (forall n :: DiesAt(s, n) ==> s[n].signedBy !in Before(names, i))
    && t == Stage(s, run, Before(names, i + 1), Swept(s, Before(names, i)) + Unguarded(Before(signs, j)))
  }

  lemma StageCa(s: Store, run: Run, cas: set<string>, leaves: set<string>, n: string)
    requires ServerOk(s) && IsCa(s, n) && n !in cas
    ensures Stage(s, run, cas, leaves)[n] == s[n] && IsCa(Stage(s, run, cas, leaves), n)
    ensures Stage(s, run, cas + {n}, leaves) == Stage(s, run, cas, leaves)[n := AfterCa(s, n)]
  {
  }

  /** Reissuing one more leaf is one regenerate call, once its CA has been passed. */
  lemma StageLeaf(s: Store, run: Run, cas: set<string>, leaves: set<string>, n: string)
    requires ServerOk(s) && IsLeaf(s, n) && n !in leaves
    requires s[n].signedBy in cas || !Moved(s, s[n].signedBy)
    requires ServerOk(Stage(s, run, cas, leaves))
    ensures Stage(s, run, cas, leaves)[n] == s[n]
    ensures Stage(s, run, cas, leaves + {n})
         == Stage(s, run, cas, leaves)[n := Regenerated(Stage(s, run, cas, leaves), n, run.issue)]
  {
    StageMore(s, run, cas, leaves, n);
    StageSigner(s, run, cas, leaves, s[n].signedBy);
    hide Stage, Moved, WellFormed, Current, Active, AfterCa;
  }

  lemma StageMore(s: Store, run: Run, cas: set<string>, leaves: set<string>, n: string)
    requires ServerOk(s) && IsLeaf(s, n) && n !in leaves
    ensures Stage(s, run, cas, leaves)[n] == s[n]
    ensures Stage(s, run, cas, leaves + {n}) == Stage(s, run, cas, leaves)[n := Reissued(s, n, run)]
  {
    hide ServerOk, Moved, AfterCa, Reissued;
  }

  lemma StageSigner(s: Store, run: Run, cas: set<string>, leaves: set<string>, ca: string)
    requires ServerOk(s) && IsCa(s, ca) && (ca in cas || !Moved(s, ca))
    ensures Stage(s, run, cas, leaves)[ca] == AfterCa(s, ca)
  {
    hide ServerOk, Reissued;
  }

  lemma MovedMeans(s: Store, n: string)
    requires ServerOk(s) && IsCa(s, n) && !MatchesOld(n)
    ensures WellFormed(s[n].versions)
    ensures var vs := s[n].versions;
            && Moved(s, n) == (|Current(vs)| > 1 && vs[ByExpiry(vs).0].transitional)
            && (|Current(vs)| > 1 ==> |vs| > 1)
            && AfterCa(s, n) == if Moved(s, n) then s[n].(versions := Flagged(vs, Some(ByExpiry(vs).1))) else s[n]
  {
    hide Flagged;
  }

  /** The flag moves: the branch of the first loop that finds the newest version
      transitional, or one of the two that skip. */
  method MoveFlag(client: CredHubClient, listing: Store, name: string, run: Run,
                  ghost cas: set<string>, ghost leaves: set<string>) returns (moved: bool)
    requires client.Valid() && ServerOk(listing) && IsCa(listing, name) && name !in cas && !MatchesOld(name)
    requires client.certs == Stage(listing, run, cas, leaves)
    modifies client
    ensures client.Valid() && moved == Moved(listing, name)
    ensures client.certs == Stage(listing, run, cas + {name}, leaves)
  {
    hide *;
    StageCa(listing, run, cas, leaves, name);
    MovedMeans(listing, name);
    var ids := client.CurrentCertificates(name);
    if |ids| <= 1 {
      return false;
    }
    var vs := client.certs[name].versions;
    var (newCa, oldCa) := ByExpiry(vs);
    if !vs[newCa].transitional {
      return false;
    }
    client.UpdateTransitionalVersion(name, Some(oldCa));
    moved := true;
  }

  datatype LeafOutcome = Signed | Skipped | Raised

  /** The body of the inner loop, for a leaf whose CA has been moved. */
  method SignLeaf(client: CredHubClient, listing: Store, leaf: string, run: Run,
                  ghost cas: set<string>, ghost leaves: set<string>) returns (r: LeafOutcome)
    requires client.Valid() && ServerOk(listing) && IsLeaf(listing, leaf)
    requires listing[leaf].signedBy in cas && leaf !in leaves
    requires client.certs == Stage(listing, run, cas, leaves)
    modifies client
    ensures client.Valid()
    ensures r == if Fatal(leaf) then Raised else if Guarded(leaf) then Skipped else Signed
    ensures client.certs == Stage(listing, run, cas, if r == Signed then leaves + {leaf} else leaves)
  {
    if Contains(leaf, "signs") {
      if !Contains(leaf, "name") {
        return Raised;
      }
      return Skipped;
    }
    client.ValidMeans();
    StageLeaf(listing, run, cas, leaves, leaf);
    hide *;
    client.RegenerateCertificate(leaf, run.issue);
    r := Signed;
  }

  lemma SignedNamesAt(s: Store, names: seq<string>, ca: string, i: nat)
    requires ServerOk(s) && Lists(names, s.Keys) && i < |SignedNames(s, names, ca)|
    ensures var r := SignedNames(s, names, ca);
            IsLeaf(s, r[i]) && s[r[i]].signedBy == ca && r[i] !in Before(r, i)
            && Before(r, i + 1) == Before(r, i) + {r[i]}
  {
    hide ServerOk;
  }

  /** The whole of a moved CA's `signs` list: what is swept and where a run can die. */
  lemma SignedNamesAll(s: Store, names: seq<string>, ca: string)
    requires ServerOk(s) && Lists(names, s.Keys) && IsCa(s, ca) && Moved(s, ca)
    ensures var r := SignedNames(s, names, ca);
            && Before(r, 0) == {}
            && (forall n :: n in Swept(s, {ca}) <==> n in Before(r, |r|) && !Guarded(n))
            && (forall n :: DiesAt(s, n) && s[n].signedBy == ca <==> n in Before(r, |r|) && Fatal(n))
  {
    var r := SignedNames(s, names, ca);
    assert forall n :: n in Before(r, |r|) <==> IsLeaf(s, n) && s[n].signedBy == ca by {
      hide ServerOk, Moved;
    }
    hide ServerOk, Lists, SignedNames, Before;
  }

  lemma FirstFatalIs(signs: seq<string>, j: nat, signed: set<string>)
    requires j < |signs| && Fatal(signs[j])
    requires forall n :: n in Before(signs, j) ==> !Fatal(n)
    requires forall n :: n in signed <==> n in Before(signs, j) && !Guarded(n)
    ensures FirstFatal(signs, j) && signed == Unguarded(Before(signs, j))
  {
    hide Fatal, Guarded, Before;
  }

  /** The inner loop over the names the CA signs. */
  method SignLeaves(client: CredHubClient, listing: Store, name: string, run: Run,
                    ghost cas: set<string>, ghost leaves: set<string>)
      returns (died: bool, regenerated: seq<string>, ghost signed: set<string>, ghost j: nat)
    requires client.Valid() && ServerOk(listing) && Lists(client.names, listing.Keys)
    requires IsCa(listing, name) && name in cas && Moved(listing, name)
    requires client.certs == Stage(listing, run, cas, leaves)
    requires forall n :: n in leaves ==> n in listing && listing[n].signedBy != name
    modifies client
    ensures client.Valid() && forall n :: n in regenerated <==> n in signed
    ensures client.certs == Stage(listing, run, cas, leaves + signed)
    ensures !died ==> signed == Swept(listing, {name})
    ensures !died ==> forall n :: DiesAt(listing, n) ==> listing[n].signedBy != name
    ensures died ==> FirstFatal(SignedNames(listing, client.names, name), j)
    ensures died ==> signed == Unguarded(Before(SignedNames(listing, client.names, name), j))
  {
    hide *;
    var signs := SignedNames(listing, client.names, name);
    SignedNamesAll(listing, client.names, name);
    died, regenerated, signed, j := false, [], {}, 0;
    assert leaves + {} == leaves;
    for i := 0 to |signs|
      invariant client.Valid()
      invariant forall n :: n in regenerated <==> n in signed
      invariant forall n :: n in signed <==> n in Before(signs, i) && !Guarded(n)
      invariant client.certs == Stage(listing, run, cas, leaves + signed)
      invariant forall n :: n in Before(signs, i) ==> !Fatal(n)
    {
      var leaf := signs[i];
      SignedNamesAt(listing, client.names, name, i);
      var r := SignLeaf(client, listing, leaf, run, cas, leaves + signed);
      match r {
        case Raised =>
          FirstFatalIs(signs, i, signed);
          return true, regenerated, signed, i;
        case Skipped =>
        case Signed =>
          assert leaves + signed + {leaf} == leaves + (signed + {leaf});
          signed := signed + {leaf};
          regenerated := regenerated + [leaf];
      }
    }
  }

  lemma SweptBefore(s: Store, cas: set<string>, n: string)
    requires ServerOk(s) && n !in cas
    ensures Swept(s, cas + {n}) == Swept(s, cas) + Swept(s, {n})
    ensures forall m :: m in Swept(s, cas) ==> m in s && s[m].signedBy != n
    ensures n in s && !(IsCa(s, n) && Moved(s, n)) ==> Swept(s, {n}) == {}
    ensures n in s && !(IsCa(s, n) && Moved(s, n)) ==> forall m :: DiesAt(s, m) ==> s[m].signedBy != n
  {
    hide ServerOk, PhaseOf, Guarded, MatchesOld;
  }

  lemma StageIdle(s: Store, run: Run, cas: set<string>, leaves: set<string>, n: string)
    requires ServerOk(s) && n in s && (IsCa(s, n) ==> !Moved(s, n))
    ensures Stage(s, run, cas + {n}, leaves) == Stage(s, run, cas, leaves)
  {
    hide ServerOk, PhaseOf, Reissued;
  }

  lemma NotRotatable(s: Store, n: string)
    requires ServerOk(s) && n in s
    ensures MatchesOld(n) || s[n].signedBy != n ==> !Moved(s, n)
    ensures IsCa(s, n) <==> s[n].signedBy == n
  {
    hide ServerOk, MatchesOld;
  }

  /** The body of the first loop. */
  method MoveOne(client: CredHubClient, listing: Store, name: string, run: Run, ghost cas: set<string>)
      returns (died: bool, moved: bool, regenerated: seq<string>, ghost signed: set<string>, ghost j: nat)
    requires client.Valid() && ServerOk(listing) && Lists(client.names, listing.Keys)
    requires name in listing && name !in cas
    requires client.certs == Stage(listing, run, cas, Swept(listing, cas))
    modifies client
    ensures client.Valid()
    ensures moved == Moved(listing, name)
    ensures forall n :: n in regenerated <==> n in signed
    ensures client.certs == Stage(listing, run, cas + {name}, Swept(listing, cas) + signed)
    ensures !died ==> signed == Swept(listing, {name})
    ensures !died ==> forall n :: DiesAt(listing, n) ==> listing[n].signedBy != name
    ensures died ==> IsCa(listing, name) && moved && FirstFatal(SignedNames(listing, client.names, name), j)
    ensures died ==> signed == Unguarded(Before(SignedNames(listing, client.names, name), j))
  {
    hide *;
    SweptBefore(listing, cas, name);
    NotRotatable(listing, name);
    ghost var leaves := Swept(listing, cas);
    died, moved, regenerated, signed, j := false, false, [], {}, 0;
    assert leaves + {} == leaves;
    if MatchesOld(name) || listing[name].signedBy != name {
      StageIdle(listing, run, cas, leaves, name);
      return;
    }
    moved := MoveFlag(client, listing, name, run, cas, leaves);
    if moved {
      died, regenerated, signed, j := SignLeaves(client, listing, name, run, cas + {name}, leaves);
    }
  }

  /** Everything the first loop does, over the whole listing. */
  method MoveCas(client: CredHubClient, listing: Store, run: Run)
      returns (died: bool, transitioned: seq<string>, regenerated: seq<string>,
               ghost cas: set<string>, ghost leaves: set<string>, ghost i: nat, ghost j: nat)
    requires client.Valid() && client.certs == listing
    modifies client
    ensures client.Valid()
    ensures forall n :: n in regenerated <==> n in leaves
    ensures forall n :: n in transitioned <==> n in cas && Moved(listing, n)
    ensures client.certs == Stage(listing, run, cas, leaves)
    ensures !died ==> cas == listing.Keys && leaves == Swept(listing, listing.Keys)
    ensures !died ==> forall n :: !DiesAt(listing, n)
    ensures died ==> DiedAt(listing, client.names, run, client.certs, i, j)
  {
    hide *;
    client.ValidMeans();
    died, transitioned, regenerated, cas, leaves, i, j := false, [], [], {}, {}, 0, 0;
    StageNothing(listing, run);
    StageAll(listing, client.names);
    for k := 0 to |client.names|
      invariant client.Valid()
      invariant cas == Before(client.names, k)
      invariant leaves == Swept(listing, cas)
      invariant forall n :: n in regenerated <==> n in leaves
      invariant forall n :: n in transitioned <==> n in cas && Moved(listing, n)
      invariant client.certs == Stage(listing, run, cas, leaves)
      invariant forall n :: n in listing && DiesAt(listing, n) ==> listing[n].signedBy !in cas
    {
      var name := client.names[k];
      NextName(client.names, listing.Keys, k);
      SweptBefore(listing, cas, name);
      var failed, moved, renewed;
      ghost var signed, at;
      failed, moved, renewed, signed, at := MoveOne(client, listing, name, run, cas);
      if moved {
        transitioned := transitioned + [name];
      }
      cas, leaves := cas + {name}, leaves + signed;
      regenerated := regenerated + renewed;
      if failed {
        i, j := k, at;
        DiedHere(listing, client.names, run, client.certs, i, j);
        return true, transitioned, regenerated, cas, leaves, i, j;
      }
    }
  }

  lemma StageNothing(s: Store, run: Run)
    requires ServerOk(s)
    ensures Stage(s, run, {}, {}) == s && Swept(s, {}) == {}
  {
    hide ServerOk;
  }

  lemma StageAll(s: Store, names: seq<string>)
    requires ServerOk(s) && Lists(names, s.Keys)
    ensures Before(names, 0) == {} && Before(names, |names|) == s.Keys
    ensures forall n :: DiesAt(s, n) ==> n in s && s[n].signedBy in s
  {
    hide Before, Fatal, Moved;
    PartlyEnds(s, s, names);
    assert Before(names, 0) == {} by { BeforeNone(names); }
  }

  lemma BeforeNone(names: seq<string>)
    ensures Before(names, 0) == {}
  {
  }

  lemma DiedHere(s: Store, names: seq<string>, run: Run, t: Store, i: nat, j: nat)
    requires ServerOk(s) && i < |names| && IsCa(s, names[i]) && Moved(s, names[i])
    requires FirstFatal(SignedNames(s, names, names[i]), j)
    requires forall n :: n in s && DiesAt(s, n) ==> s[n].signedBy !in Before(names, i)
    requires t == Stage(s, run, Before(names, i + 1),
                        Swept(s, Before(names, i)) + Unguarded(Before(SignedNames(s, names, names[i]), j)))
    ensures DiedAt(s, names, run, t, i, j)
  {
    hide FirstFatal, SignedNames, Moved, Stage, Swept, Unguarded, Before, ServerOk, Fatal;
  }

  /** The body of the second loop. */
  method RenewLeaf(client: CredHubClient, listing: Store, name: string, run: Run, regenerated: seq<string>,
                   ghost leaves: set<string>) returns (renewed: bool)
    requires client.Valid() && ServerOk(listing) && name in listing
    requires client.certs == Stage(listing, run, listing.Keys, leaves)
    requires forall n :: n in regenerated <==> n in leaves
    requires name in leaves ==> IsLeaf(listing, name)
    modifies client
    ensures client.Valid()
    ensures renewed ==> Renewable(listing, name, run)
    ensures Renewable(listing, name, run) ==> renewed || name in leaves
    ensures client.certs == Stage(listing, run, listing.Keys, if renewed then leaves + {name} else leaves)
  {
    renewed := false;
    if MatchesOld(name) || listing[name].signedBy == name {
      return;
    }
    StageOther(listing, run, leaves, name);
    var ids := client.CurrentCertificates(name);
    if |ids| > 1 {
      return;
    }
    if !Expiring(client.certs[name].versions[ids[0]].expiry, run) {
      return;
    }
    if name in regenerated {
      return;
    }
    client.ValidMeans();
    StageLeaf(listing, run, listing.Keys, leaves, name);
    hide *;
    client.RegenerateCertificate(name, run.issue);
    renewed := true;
  }

  /** Outside `leaves` a leaf is still as listed; inside, it has one version more, so
      its transitional versions are what they were. */
  lemma StageOther(s: Store, run: Run, leaves: set<string>, n: string)
    requires ServerOk(s) && IsLeaf(s, n)
    ensures n !in leaves ==> Stage(s, run, s.Keys, leaves)[n] == s[n]
    ensures n in leaves ==> Stage(s, run, s.Keys, leaves)[n] == Reissued(s, n, run)
  {
    hide ServerOk;
  }

  method RenewLeaves(client: CredHubClient, listing: Store, run: Run, regenerated: seq<string>,
                     ghost leaves: set<string>) returns (all: seq<string>, ghost renewed: set<string>)
    requires client.Valid() && ServerOk(listing) && Lists(client.names, listing.Keys)
    requires client.certs == Stage(listing, run, listing.Keys, leaves)
    requires forall n :: n in regenerated <==> n in leaves
    requires leaves == Swept(listing, listing.Keys)
    modifies client
    ensures client.Valid()
    ensures renewed == Reissues(listing, run)
    ensures forall n :: n in all <==> n in renewed
    ensures client.certs == Stage(listing, run, listing.Keys, renewed)
  {
    hide *;
    ReissuesAt(listing, run, client.names);
    all, renewed := regenerated, leaves;
    for i := 0 to |client.names|
      invariant client.Valid()
      invariant forall n :: n in all <==> n in renewed
      invariant leaves <= renewed
      invariant forall n :: n in renewed ==> n in leaves || Renewable(listing, n, run)
      invariant forall n :: n in Before(client.names, i) && Renewable(listing, n, run) ==> n in renewed
      invariant client.certs == Stage(listing, run, listing.Keys, renewed)
    {
      var name := client.names[i];
      NextName(client.names, listing.Keys, i);
      var more := RenewLeaf(client, listing, name, run, all, renewed);
      if more {
        all, renewed := all + [name], renewed + {name};
      }
    }
  }

  lemma ReissuesAt(s: Store, run: Run, names: seq<string>)
    requires ServerOk(s) && Lists(names, s.Keys)
    ensures Before(names, 0) == {} && Before(names, |names|) == s.Keys
    ensures forall n :: n in Reissues(s, run) <==> n in Swept(s, s.Keys) || Renewable(s, n, run)
    ensures forall n :: n in Swept(s, s.Keys) ==> IsLeaf(s, n)
    ensures forall n :: Renewable(s, n, run) ==> IsLeaf(s, n) && n in s
  {
    StageAll(s, names);
    hide ServerOk, Moved, Guarded, Before, Lists, Expiring;
  }

  /** The script. A run that completes leaves AfterMove of what it found; a run that
      dies in the guard's message leaves DiedAt. */
  method MoveTransitional(client: CredHubClient, run: Run)
      returns (outcome: Outcome, transitioned: seq<string>, regenerated: seq<string>)
    requires client.Valid()
    modifies client
    ensures client.Valid()
    ensures outcome == NoExpiryDays <==> run.expiryDays == 0
    ensures outcome == Died <==> run.expiryDays != 0 && exists n :: DiesAt(old(client.certs), n)
    ensures outcome != Died ==> client.certs == AfterMove(old(client.certs), run)
    ensures outcome == Died ==> exists i, j :: DiedAt(old(client.certs), client.names, run, client.certs, i, j)
    ensures outcome == Completed ==> forall n :: n in transitioned <==> n in old(client.certs) && Moved(old(client.certs), n)
    ensures outcome == Completed ==> forall n :: n in regenerated <==> n in Reissues(old(client.certs), run)
  {
    if run.expiryDays == 0 {
      return NoExpiryDays, [], [];
    }
    client.ValidMeans();
    assert AfterMove(client.certs, run) == Stage(client.certs, run, client.certs.Keys, Reissues(client.certs, run));
    hide *;
    var listing := client.certs;
    var died;
    ghost var cas, leaves, all, i, j;
    died, transitioned, regenerated, cas, leaves, i, j := MoveCas(client, listing, run);
    if died {
      ghost var c, l, leaf := DiedMeans(listing, client.names, run, client.certs, i, j);
      return Died, transitioned, regenerated;
    }
    regenerated, all := RenewLeaves(client, listing, run, regenerated, leaves);
    outcome := Completed;
  }

  /** A run that died passed some CAs, reissued leaves of those only, and not the leaf it died on. */
  lemma DiedMeans(s: Store, names: seq<string>, run: Run, t: Store, i: nat, j: nat)
      returns (cas: set<string>, leaves: set<string>, leaf: string)
    requires ServerOk(s) && Lists(names, s.Keys) && DiedAt(s, names, run, t, i, j)
    ensures t == Stage(s, run, cas, leaves)
    ensures DiesAt(s, leaf) && s[leaf].signedBy in cas && leaf !in leaves
    ensures forall n :: n in leaves ==> IsLeaf(s, n) && s[n].signedBy in cas
  {
    hide *;
    DiedAtMeans(s, names, run, t, i, j);
    var signs := SignedNames(s, names, names[i]);
    cas := Before(names, i + 1);
    leaves := Swept(s, Before(names, i)) + Unguarded(Before(signs, j));
    leaf := signs[j];
    NextName(names, s.Keys, i);
    SweptAre(s, Before(names, i));
    SignsBefore(s, names, names[i], j);
    assert leaf !in leaves;
  }

  lemma DiedAtMeans(s: Store, names: seq<string>, run: Run, t: Store, i: nat, j: nat)
    requires ServerOk(s) && DiedAt(s, names, run, t, i, j)
    ensures i < |names| && IsCa(s, names[i]) && Moved(s, names[i])
    ensures var signs := SignedNames(s, names, names[i]);
            && j < |signs| && DiesAt(s, signs[j]) && Guarded(signs[j])
            && t == Stage(s, run, Before(names, i + 1), Swept(s, Before(names, i)) + Unguarded(Before(signs, j)))
  {
    hide ServerOk, Moved, Stage, Swept, Before, Unguarded, Contains;
  }

  lemma SweptAre(s: Store, cas: set<string>)
    requires ServerOk(s)
    ensures forall n :: n in Swept(s, cas) ==> IsLeaf(s, n) && s[n].signedBy in cas
  {
    hide ServerOk, Moved, Guarded;
  }

  lemma SignsBefore(s: Store, names: seq<string>, ca: string, j: nat)
    requires j < |SignedNames(s, names, ca)|
    ensures var signs := SignedNames(s, names, ca);
            && IsLeaf(s, signs[j]) && s[signs[j]].signedBy == ca
            && (forall n :: n in Before(signs, j) ==> IsLeaf(s, n) && s[n].signedBy == ca)
            && (Guarded(signs[j]) ==> signs[j] !in Unguarded(Before(signs, j)))
            && forall n :: n in Unguarded(Before(signs, j)) ==> n in Before(signs, j)
  {
    hide Guarded, Before;
    var signs := SignedNames(s, names, ca);
    assert signs[j] in signs;
    forall n | n in Before(signs, j) ensures n in signs {
    }
  }

  /** Where a run dies is settled by the listing. */
  lemma DiedOneWay(s: Store, names: seq<string>, run: Run, t: Store, i: nat, j: nat, t': Store, i': nat, j': nat)
    requires ServerOk(s) && Lists(names, s.Keys)
    requires DiedAt(s, names, run, t, i, j) && DiedAt(s, names, run, t', i', j')
    ensures i == i' && j == j' && t == t'
  {
    DiesThere(s, names, run, t, i, j);
    DiesThere(s, names, run, t', i', j');
    hide ServerOk, Lists, Moved, Stage, Swept, Before, Fatal, SignedNames, Unguarded;
    assert i == i';
    assert j == j';
  }

  lemma DiesThere(s: Store, names: seq<string>, run: Run, t: Store, i: nat, j: nat)
    requires ServerOk(s) && DiedAt(s, names, run, t, i, j)
    ensures DiesAt(s, SignedNames(s, names, names[i])[j])
    ensures s[SignedNames(s, names, names[i])[j]].signedBy == names[i]
    ensures forall k :: i < k <= |names| ==> names[i] in Before(names, k)
  {
    hide ServerOk, Moved, Stage, Swept, Before, Fatal, Unguarded;
  }
}
