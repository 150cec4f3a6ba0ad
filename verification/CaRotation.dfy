/** The three scripts that walk every self-signed CA through a handover between two
    versions: ca-rotation-set-transitional.rb, ca-rotation-move-transitional.rb and
    ca-rotation-remove-transitional.rb.

    Each script is a method that loops over a CredHubClient as the Ruby does; its
    contract equates the new store with a function of the old one that looks at each
    certificate on its own, so the listing's order is shown not to matter. */
module CaRotation {
  import opened Collections
  import opened CredHub
  import opened Wrappers

  /** What one run reads from its surroundings: the day it runs on, EXPIRY_DAYS, and
      the expiry the server proposes for any version it issues. */
  datatype Run = Run(today: int, expiryDays: int, issue: string -> int)

  predicate OccursAt(s: string, sub: string, i: nat) { i + |sub| <= |s| && s[i..i + |sub|] == sub }

  predicate AtLineEnd(rest: string) { rest == "" || rest[0] == '\n' }

  /** The regular expression `_old$`: `$` also matches before a newline. */
  predicate MatchesOld(name: string) {
    exists i :: 0 <= i <= |name| - 4 && OccursAt(name, "_old", i) && AtLineEnd(name[i + 4..])
  }

  lemma OldNames(name: string)
    requires OneLine(name)
    ensures MatchesOld(name) <==> |name| >= 4 && name[|name| - 4..] == "_old"
  {
    if |name| >= 4 && name[|name| - 4..] == "_old" {
      assert OccursAt(name, "_old", |name| - 4);
    }
  }

  /** In general: some line of the name ends with it. */
  lemma OldNamesIff(name: string)
    ensures MatchesOld(name) <==> exists before, after :: name == before + "_old" + after && AtLineEnd(after)
    ensures AtLineEnd("") && forall c, rest :: AtLineEnd([c] + rest) <==> c == '\n'
  {
    if i :| 0 <= i <= |name| - 4 && OccursAt(name, "_old", i) && AtLineEnd(name[i + 4..]) {
      assert name == name[..i] + "_old" + name[i + 4..];
    }
    if before, after :| name == before + "_old" + after && AtLineEnd(after) {
      assert name[|before| + 4..] == after;
      assert OccursAt(name, "_old", |before|);
    }
  }

  /** Ruby's `name[sub]` is not nil. */
  predicate Contains(name: string, sub: string) {
    exists i :: 0 <= i <= |name| && OccursAt(name, sub, i)
  }

  /** The move script's guard indexes the leaf's NAME with "signs". */
  predicate Guarded(leaf: string) { Contains(leaf, "signs") }

  /** In the guard's branch the message calls `red` on `leaf["name"]`, nil unless the
      name contains "name": then the script dies. */
  predicate Fatal(leaf: string) { Guarded(leaf) && !Contains(leaf, "name") }

  predicate Expiring(expiry: int, run: Run) { DayOf(expiry) <= run.today + run.expiryDays }

  /** Due: expired, or expiring before the end of the day EXPIRY_DAYS from today. */
  lemma DueIff(expiry: int, run: Run)
    ensures Expiring(expiry, run) <==> expiry < (run.today + run.expiryDays + 1) * 86400
  {
  }

  lemma ContainsIff(name: string, sub: string)
    ensures Contains(name, sub) <==> exists before, after :: name == before + sub + after
  {
    if i :| 0 <= i <= |name| && OccursAt(name, sub, i) {
      assert name == name[..i] + sub + name[i + |sub|..];
    }
    if before, after :| name == before + sub + after {
      assert name[|before|..|before| + |sub|] == sub;
      assert OccursAt(name, sub, |before|);
    }
  }

  /** What the guard of the move script, and the message in it, do with a name. */
  lemma GuardIs(leaf: string)
    ensures Guarded(leaf) <==> exists before, after :: leaf == before + "signs" + after
    ensures Fatal(leaf) <==> Guarded(leaf) && !exists before, after :: leaf == before + "name" + after
  {
    hide Contains;
    ContainsIff(leaf, "signs");
    ContainsIff(leaf, "name");
  }

  /** The two current versions by expiry date, newest first. */
  function ByExpiry(vs: seq<Version>): (r: (nat, nat))
    requires WellFormed(vs) && |Current(vs)| > 1
    ensures {r.0, r.1} == {Current(vs)[0], Current(vs)[1]}
    ensures r.0 < |vs| && r.1 < |vs| && vs[r.0].expiry >= vs[r.1].expiry
  {
    var ids := Current(vs);
    if vs[ids[0]].expiry > vs[ids[1]].expiry then (ids[0], ids[1]) else (ids[1], ids[0])
  }

  // ---------------------------------------------------------------- phases

  datatype Phase = Single | NewestTransitional | OldestTransitional

  function PhaseOf(vs: seq<Version>): (p: Phase)
    requires WellFormed(vs)
  {
    if |Current(vs)| <= 1 then Single
    else if vs[ByExpiry(vs).0].transitional then NewestTransitional
    else OldestTransitional
  }

  predicate Rotatable(s: Store, n: string) { IsCa(s, n) && !MatchesOld(n) }

  /** The names a loop over the listing has met before position `i`. */
  ghost function Before(names: seq<string>, i: nat): (r: set<string>)
    requires i <= |names|
    ensures forall k :: 0 <= k < i ==> names[k] in r
    ensures forall n :: n in r ==> exists k :: 0 <= k < i && names[k] == n
  {
    if i == 0 then {} else Before(names, i - 1) + {names[i - 1]}
  }

  /** The store of a loop that has finished with the certificates in `done`. */
  ghost function Partly(s: Store, t: Store, done: set<string>): (r: Store)
    requires s.Keys == t.Keys
  {
    map n | n in s :: if n in done then t[n] else s[n]
  }

  lemma PartlyStep(s: Store, t: Store, done: set<string>, n: string)
    requires s.Keys == t.Keys && n in s && n !in done
    ensures Partly(s, t, done)[n] == s[n]
    ensures Partly(s, t, done + {n}) == Partly(s, t, done)[n := t[n]]
  {
  }

  /** A listing loop starts with nothing done and ends with everything done. */
  lemma PartlyEnds(s: Store, t: Store, names: seq<string>)
    requires s.Keys == t.Keys && Lists(names, s.Keys)
    ensures Partly(s, t, {}) == s && Partly(s, t, Before(names, |names|)) == t
    ensures Before(names, |names|) == s.Keys
  {
  }

  lemma NextName(names: seq<string>, stored: set<string>, i: nat)
    requires Lists(names, stored) && i < |names|
    ensures names[i] in stored && names[i] !in Before(names, i)
    ensures Before(names, i + 1) == Before(names, i) + {names[i]}
  {
  }

  // ---------------------------------------------------------------- set

  function SetCert(n: string, c: Cert, run: Run): Cert
    requires WellFormed(c.versions)
  {
    if run.expiryDays != 0 && c.signedBy == n && !MatchesOld(n) && |Current(c.versions)| <= 1
       && Expiring(c.versions[Active(c.versions)].expiry, run)
    then WithTransitional(c, run.issue(n))
    else c
  }

  function AfterSet(s: Store, run: Run): (t: Store)
    requires ServerOk(s)
  {
    map n | n in s :: SetCert(n, s[n], run)
  }

  /** The body of the set script's loop. */
  method SetOne(client: CredHubClient, name: string, run: Run) returns (changed: bool)
    requires client.Valid() && name in client.certs && run.expiryDays != 0
    modifies client
    ensures client.Valid()
    ensures client.certs == old(client.certs)[name := SetCert(name, old(client.certs)[name], run)]
    ensures changed == (client.certs[name] != old(client.certs)[name])
  {
    if MatchesOld(name) || client.certs[name].signedBy != name {
      return false;
    }
    var ids := client.CurrentCertificates(name);
    if |ids| > 1 || !Expiring(client.certs[name].versions[ids[0]].expiry, run) {
      return false;
    }
    client.RegenerateCertificateAsTransitional(name, run.issue(name));
    changed := true;
  }

  lemma AfterSetAt(s: Store, run: Run)
    requires ServerOk(s)
    ensures AfterSet(s, run).Keys == s.Keys
    ensures forall n :: n in s ==> AfterSet(s, run)[n] == SetCert(n, s[n], run)
    ensures run.expiryDays == 0 ==> AfterSet(s, run) == s
  {
  }

  /** Which certificates a set run changes: the self-signed, not `_old`, with one current version,
      that one due. */
  lemma SetActsIff(s: Store, run: Run, n: string)
    requires ServerOk(s) && n in s
    ensures n in AfterSet(s, run)
    ensures AfterSet(s, run)[n] != s[n] <==>
              && run.expiryDays != 0 && s[n].signedBy == n && !MatchesOld(n) && |Current(s[n].versions)| == 1
              && s[n].versions[Active(s[n].versions)].expiry < (run.today + run.expiryDays + 1) * 86400
  {
    hide MatchesOld, Active, Transitional, Expiring;
    AfterSetAt(s, run);
    DueIff(s[n].versions[Active(s[n].versions)].expiry, run);
    SetAppends(n, s[n], run);
  }

  lemma SetAppends(n: string, c: Cert, run: Run)
    requires WellFormed(c.versions)
    ensures WithTransitional(c, run.issue(n)) != c
  {
    assert |WithTransitional(c, run.issue(n)).versions| == |c.versions| + 1;
  }

  /** `ok` is false when EXPIRY_DAYS is missing: the script raises at once. */
  method SetTransitional(client: CredHubClient, run: Run) returns (ok: bool, regenerated: seq<string>)
    requires client.Valid()
    modifies client
    ensures client.Valid()
    ensures ok == (run.expiryDays != 0)
    ensures client.certs == AfterSet(old(client.certs), run)
    ensures forall n :: n in regenerated <==> n in old(client.certs) && client.certs[n] != old(client.certs)[n]
  {
    hide *;
    client.ValidMeans();
    ghost var s := client.certs;
    regenerated := [];
    AfterSetAt(s, run);
    ghost var t := AfterSet(s, run);
    if run.expiryDays == 0 {
      return false, [];
    }
    ghost var done := {};
    PartlyEnds(s, t, client.names);
    for i := 0 to |client.names|
      invariant client.Valid() && client.certs.Keys == s.Keys
      invariant done == Before(client.names, i)
      invariant client.certs == Partly(s, t, done)
      invariant forall n :: n in regenerated <==> n in done && t[n] != s[n]
    {
      var name := client.names[i];
      NextName(client.names, s.Keys, i);
      PartlyStep(s, t, done, name);
      done := done + {name};
      var changed := SetOne(client, name, run);
      if changed {
        regenerated := regenerated + [name];
      }
    }
    ok := true;
  }

  // ---------------------------------------------------------------- remove

  predicate Removable(n: string, c: Cert)
    requires WellFormed(c.versions)
  {
    c.signedBy == n && !MatchesOld(n) && PhaseOf(c.versions) == OldestTransitional
  }

  function RemoveCert(n: string, c: Cert): Cert
    requires WellFormed(c.versions)
  {
    if Removable(n, c) then c.(versions := Flagged(c.versions, None))
    else c
  }

  function AfterRemove(s: Store): (t: Store)
    requires ServerOk(s)
  {
    map n | n in s :: RemoveCert(n, s[n])
  }

  method RemoveOne(client: CredHubClient, name: string) returns (changed: bool)
    requires client.Valid() && name in client.certs
    modifies client
    ensures client.Valid()
    ensures client.certs == old(client.certs)[name := RemoveCert(name, old(client.certs)[name])]
    ensures changed == Removable(name, old(client.certs)[name])
  {
    hide CredHubClient.Valid, WellFormed, MatchesOld, Active, Transitional, Flagged;
    client.CertMeans(name);
    if MatchesOld(name) || client.certs[name].signedBy != name {
      return false;
    }
    var ids := client.CurrentCertificates(name);
    if |ids| <= 1 {
      return false;
    }
    var vs := client.certs[name].versions;
    var (newCa, oldCa) := ByExpiry(vs);
    if !(vs[newCa].transitional || vs[oldCa].transitional) {
      return false;
    }
    if vs[newCa].transitional {
      return false;
    }
    client.UpdateTransitionalVersion(name, None);
    changed := true;
  }

  lemma AfterRemoveAt(s: Store)
    requires ServerOk(s)
    ensures AfterRemove(s).Keys == s.Keys
    ensures forall n :: n in s ==> WellFormed(s[n].versions)
    ensures forall n :: n in s ==> AfterRemove(s)[n] == RemoveCert(n, s[n])
  {
  }

  method RemoveTransitional(client: CredHubClient) returns (updated: seq<string>)
    requires client.Valid()
    modifies client
    ensures client.Valid()
    ensures client.certs == AfterRemove(old(client.certs))
    ensures forall n :: n in updated <==> n in old(client.certs) && Removable(n, old(client.certs)[n])
  {
    hide *;
    client.ValidMeans();
    ghost var s := client.certs;
    updated := [];
    AfterRemoveAt(s);
    ghost var t := AfterRemove(s);
    ghost var done := {};
    PartlyEnds(s, t, client.names);
    for i := 0 to |client.names|
      invariant client.Valid() && client.certs.Keys == s.Keys
      invariant done == Before(client.names, i) && done <= s.Keys
      invariant client.certs == Partly(s, t, done)
      invariant forall n :: n in updated <==> n in done && Removable(n, s[n])
    {
      var name := client.names[i];
      NextName(client.names, s.Keys, i);
      PartlyStep(s, t, done, name);
      done := done + {name};
      var changed := RemoveOne(client, name);
      if changed {
        updated := updated + [name];
      }
    }
  }
}
