/** The CredHub server's certificates, as far as the rotation scripts see them, and
    the client they call it through (concourse/scripts/lib/credhub.rb). */
module CredHub {
  import opened Collections
  import opened Wrappers

  /** One version of a certificate. A version is identified by its position among
      its certificate's versions, oldest first; `signer` is the position, among the
      versions of the signing CA, of the version that signed this one. `expiry` is in
      seconds. */
  datatype Version = Version(expiry: int, transitional: bool, signer: nat)

  datatype Cert = Cert(signedBy: string, versions: seq<Version>)

  type Store = map<string, Cert>

  /** The calendar day of an instant. */
  function DayOf(seconds: int): int { seconds / 86400 }

  /** What the server keeps: some version is not transitional, at most one is. */
  ghost predicate WellFormed(vs: seq<Version>) {
    && (exists i :: 0 <= i < |vs| && !vs[i].transitional)
    && (forall i, j :: 0 <= i < j < |vs| ==> !(vs[i].transitional && vs[j].transitional))
  }

  /** The active version: the newest one that is not transitional. */
  function Active(vs: seq<Version>): (r: nat)
    requires exists i :: 0 <= i < |vs| && !vs[i].transitional
    ensures r < |vs| && !vs[r].transitional
    ensures forall i :: r < i < |vs| ==> vs[i].transitional
  {
    if !vs[|vs| - 1].transitional then |vs| - 1 else Active(vs[..|vs| - 1])
  }

  function Transitional(vs: seq<Version>): (r: Option<nat>)
    ensures r.Some? ==> r.value < |vs| && vs[r.value].transitional
    ensures r.None? ==> forall i :: 0 <= i < |vs| ==> !vs[i].transitional
  {
    if vs == [] then None
    else if vs[|vs| - 1].transitional then Some(|vs| - 1)
    else Transitional(vs[..|vs| - 1])
  }

  /** The answer to `current=true`: the active version, then any transitional one. */
  function Current(vs: seq<Version>): (r: seq<nat>)
    requires WellFormed(vs)
    ensures 1 <= |r| <= 2 && r[0] == Active(vs)
    ensures forall k :: 0 <= k < |r| ==> r[k] < |vs|
    ensures |r| == 2 <==> Transitional(vs).Some?
    ensures |r| == 2 ==> r[1] == Transitional(vs).value && r[0] != r[1]
  {
    [Active(vs)] + match Transitional(vs) case None => [] case Some(t) => [t]
  }

  lemma ActiveIs(vs: seq<Version>, a: nat)
    requires a < |vs| && !vs[a].transitional && forall i :: a < i < |vs| ==> vs[i].transitional
    ensures Active(vs) == a
  {
  }

  lemma TransitionalIs(vs: seq<Version>, t: nat)
    requires WellFormed(vs) && t < |vs| && vs[t].transitional
    ensures Transitional(vs) == Some(t)
  {
  }

  predicate IsCa(s: Store, n: string) { n in s && s[n].signedBy == n }

  predicate IsLeaf(s: Store, n: string) { n in s && s[n].signedBy != n }

  /** Every signer is a stored, self-signed certificate: two levels and no more. */
  ghost predicate Flat(s: Store) {
    forall n :: n in s ==> IsCa(s, s[n].signedBy)
  }

  ghost predicate Increasing(vs: seq<Version>) {
    forall i, j :: 0 <= i < j < |vs| ==> vs[i].expiry < vs[j].expiry
  }

  /** The server's side of the bargain: two levels, well-formed certificates, and CA
      versions that each expire after the one they replaced. */
  ghost predicate ServerOk(s: Store) {
    && Flat(s)
    && (forall n :: n in s ==> WellFormed(s[n].versions))
    && (forall n :: IsCa(s, n) ==> Increasing(s[n].versions))
  }

  lemma KeepsServerOk(s: Store, n: string, c: Cert)
    requires ServerOk(s) && n in s && c.signedBy == s[n].signedBy && WellFormed(c.versions)
    requires IsCa(s, n) ==> Increasing(c.versions)
    ensures ServerOk(s[n := c])
    ensures s[n := c].Keys == s.Keys
  {
    var t := s[n := c];
    forall m | m in t ensures IsCa(t, t[m].signedBy) {
      assert t[m].signedBy == s[m].signedBy;
      assert IsCa(s, s[m].signedBy);
    }
  }

  /** The server picks the new expiry; it is later than the one it replaces. */
  function Later(replaced: int, proposed: int): (r: int)
    ensures r > replaced
    ensures proposed > replaced ==> r == proposed
  {
    if proposed > replaced then proposed else replaced + 1
  }

  /** `credhub regenerate`: a new active version, signed by the CA's active version. */
  function Regenerated(s: Store, n: string, issue: string -> int): (c: Cert)
    requires ServerOk(s) && n in s
  {
    var vs := s[n].versions;
    var signer := if s[n].signedBy == n then |vs| else Active(s[s[n].signedBy].versions);
    s[n].(versions := vs + [Version(Later(vs[Active(vs)].expiry, issue(n)), false, signer)])
  }

  function WithTransitional(c: Cert, issue: int): (r: Cert)
    requires WellFormed(c.versions)
  {
    var vs := c.versions;
    c.(versions := vs + [Version(Later(vs[Active(vs)].expiry, issue), true, |vs|)])
  }

  function Flagged(vs: seq<Version>, v: Option<nat>): (r: seq<Version>)
    ensures |r| == |vs|
    ensures forall i :: 0 <= i < |vs| ==> r[i] == vs[i].(transitional := v == Some(i))
  {
    seq(|vs|, i requires 0 <= i < |vs| => vs[i].(transitional := v == Some(i)))
  }

  /** Who signs the version an operation adds: of a leaf, the newest version of its CA that is not
      transitional; of a CA, the version itself. */
  lemma NewSigner(s: Store, n: string, issue: string -> int)
    requires ServerOk(s) && n in s
    ensures IsLeaf(s, n) ==>
              var new_, cas := Regenerated(s, n, issue).versions[|s[n].versions|], s[s[n].signedBy].versions;
              && new_.signer < |cas| && !cas[new_.signer].transitional
              && forall i :: new_.signer < i < |cas| ==> cas[i].transitional
    ensures WithTransitional(s[n], issue(n)).versions[|s[n].versions|].signer == |s[n].versions|
  {
  }

  // Each server operation keeps the server's side of the bargain.

  lemma RegeneratedOk(s: Store, n: string, issue: string -> int)
    requires ServerOk(s) && IsLeaf(s, n)
    ensures ServerOk(s[n := Regenerated(s, n, issue)]) && s[n := Regenerated(s, n, issue)].Keys == s.Keys
  {
    var c := Regenerated(s, n, issue);
    assert !c.versions[|c.versions| - 1].transitional;
    KeepsServerOk(s, n, c);
  }

  lemma WithTransitionalOk(s: Store, n: string, issue: int)
    requires ServerOk(s) && IsCa(s, n) && Transitional(s[n].versions).None?
    ensures ServerOk(s[n := WithTransitional(s[n], issue)]) && s[n := WithTransitional(s[n], issue)].Keys == s.Keys
  {
    var vs, c := s[n].versions, WithTransitional(s[n], issue);
    assert !c.versions[Active(vs)].transitional;
    ActiveIs(vs, |vs| - 1);
    KeepsServerOk(s, n, c);
  }

  lemma FlaggedOk(s: Store, n: string, v: Option<nat>)
    requires ServerOk(s) && IsCa(s, n) && (v.Some? ==> |s[n].versions| > 1)
    ensures var c := s[n].(versions := Flagged(s[n].versions, v)); ServerOk(s[n := c]) && s[n := c].Keys == s.Keys
  {
    var c := s[n].(versions := Flagged(s[n].versions, v));
    assert !c.versions[if v == Some(0) then 1 else 0].transitional;
    KeepsServerOk(s, n, c);
  }

  /** The certificates listed as signed by `ca`, in the listing's order. */
  function SignedNames(s: Store, names: seq<string>, ca: string): (r: seq<string>)
    ensures forall n :: n in r <==> n in names && IsLeaf(s, n) && s[n].signedBy == ca
    ensures Distinct(names) ==> Distinct(r)
  {
    if names == [] then []
    else
      var rest := SignedNames(s, names[1..], ca);
      if IsLeaf(s, names[0]) && s[names[0]].signedBy == ca then [names[0]] + rest else rest
  }

  /** The listing names every certificate once. */
  ghost predicate Lists(names: seq<string>, stored: set<string>) {
    && (forall n :: n in names ==> n in stored)
    && (forall n :: n in stored ==> n in names)
    && Distinct(names)
  }

  class CredHubClient {
    var certs: Store
    const names: seq<string>

    constructor (names: seq<string>, certs: Store)
      requires ServerOk(certs) && Lists(names, certs.Keys)
      ensures Valid() && this.certs == certs && this.names == names
    {
      hide ServerOk, Lists;
      this.names := names;
      this.certs := certs;
    }

    ghost predicate Valid()
      reads this
    {
      ServerOk(certs) && Lists(names, certs.Keys)
    }

    lemma ValidMeans()
      requires Valid()
      ensures ServerOk(certs) && Lists(names, certs.Keys)
    {
    }

    lemma CertMeans(name: string)
      requires Valid() && name in certs
      ensures WellFormed(certs[name].versions)
    {
    }

    method CurrentCertificates(name: string) returns (ids: seq<nat>)
      requires Valid() && name in certs
      ensures ids == Current(certs[name].versions)
    {
      ids := Current(certs[name].versions);
    }

    method RegenerateCertificate(name: string, issue: string -> int)
      requires Valid() && IsLeaf(certs, name)
      modifies this
      ensures Valid()
      ensures certs == old(certs)[name := Regenerated(old(certs), name, issue)]
    {
      var c := Regenerated(certs, name, issue);
      RegeneratedOk(certs, name, issue);
      hide ServerOk, Lists;
      certs := certs[name := c];
    }

    /** The server refuses a second transitional version. */
    method RegenerateCertificateAsTransitional(name: string, issue: int)
      requires Valid() && IsCa(certs, name) && Transitional(certs[name].versions).None?
      modifies this
      ensures Valid()
      ensures certs == old(certs)[name := WithTransitional(old(certs)[name], issue)]
    {
      var c := WithTransitional(certs[name], issue);
      WithTransitionalOk(certs, name, issue);
      hide ServerOk, Lists;
      certs := certs[name := c];
    }

    method UpdateTransitionalVersion(name: string, v: Option<nat>)
      requires Valid() && IsCa(certs, name)
      requires v.Some? ==> v.value < |certs[name].versions| && |certs[name].versions| > 1
      modifies this
      ensures Valid()
      ensures certs == old(certs)[name := old(certs)[name].(versions := Flagged(old(certs)[name].versions, v))]
    {
      var c := certs[name].(versions := Flagged(certs[name].versions, v));
      FlaggedOk(certs, name, v);
      hide ServerOk, Lists;
      certs := certs[name := c];
    }
  }
}
