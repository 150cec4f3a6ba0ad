/** The check that certificate rotation rests on: check-certificate-hierarchy.rb. */
module Hierarchy {
  import opened Collections
  import opened CredHub
  import opened Wrappers

  /** The three instance variables of a CertificateHierarchy. */
  datatype View = View(names: seq<string>, signs: map<string, seq<string>>, signedBy: map<string, string>)

  const EMPTY := View([], map[], map[])

  /** `push(x).uniq` on a list without repeats. */
  function PushUniq(s: seq<string>, x: string): (r: seq<string>)
    ensures Distinct(s) ==> Distinct(r)
    ensures forall y :: y in r <==> y in s || y == x
  {
    if x in s then s else s + [x]
  }

  function Add(h: View, ca: string, cert: string): (r: View) {
    if ca == cert then h
    else View(PushUniq(PushUniq(h.names, ca), cert),
              h.signs[ca := PushUniq(if ca in h.signs then h.signs[ca] else [], cert)],
              h.signedBy[cert := ca])
  }

  /** `signs` lists, without repeats, exactly what `signedBy` says each CA signed. */
  ghost predicate Inverse(h: View) {
    && (forall c :: c in h.signs ==> Distinct(h.signs[c]))
    && (forall c, d :: c in h.signs && d in h.signs[c] ==> d in h.signedBy && h.signedBy[d] == c)
    && (forall d :: d in h.signedBy ==> h.signedBy[d] in h.signs && d in h.signs[h.signedBy[d]])
  }

  ghost predicate Signs(h: View, c: string) { exists d :: d in h.signedBy && h.signedBy[d] == c }

  /** `signs` and `signedBy` are two views of one relation, over exactly `names`. */
  ghost predicate Consistent(h: View) {
    && Distinct(h.names) && Inverse(h)
    && (forall c :: c in h.signedBy ==> c in h.names && h.signedBy[c] in h.names && h.signedBy[c] != c)
    && (forall c :: c in h.names ==> c in h.signedBy || Signs(h, c))
  }

  /** One signer per certificate is what keeps the two views consistent. */
  lemma AddKeepsConsistent(h: View, ca: string, cert: string)
    requires Consistent(h) && (cert in h.signedBy ==> h.signedBy[cert] == ca)
    ensures Consistent(Add(h, ca, cert))
  {
    hide Inverse, Signs, Distinct;
    var r := Add(h, ca, cert);
    if ca != cert {
      AddKeepsInverse(h, ca, cert);
      forall c | c in r.names ensures c in r.signedBy || Signs(r, c) {
        AddKeepsSigns(h, ca, cert, c);
      }
    }
  }

  lemma AddKeepsSigns(h: View, ca: string, cert: string, c: string)
    requires ca != cert && (cert in h.signedBy ==> h.signedBy[cert] == ca)
    ensures var r := Add(h, ca, cert);
            (c == ca ==> Signs(r, c)) && (c == cert ==> c in r.signedBy)
            && (Signs(h, c) ==> Signs(r, c)) && (c in h.signedBy ==> c in r.signedBy)
  {
    hide PushUniq, Distinct;
    var r := Add(h, ca, cert);
    assert r.signedBy[cert] == ca;
    if Signs(h, c) {
      var d :| d in h.signedBy && h.signedBy[d] == c;
      assert r.signedBy[d] == c;
    }
  }

  lemma DistinctNone()
    ensures Distinct<string>([])
  {
  }

  lemma AddKeepsInverse(h: View, ca: string, cert: string)
    requires Inverse(h) && ca != cert && (cert in h.signedBy ==> h.signedBy[cert] == ca)
    ensures Inverse(Add(h, ca, cert))
  {
    hide PushUniq, Distinct;
    var r := Add(h, ca, cert);
    DistinctNone();
    forall c | c in r.signs
      ensures Distinct(r.signs[c])
      ensures forall d :: d in r.signs[c] ==> d in r.signedBy && r.signedBy[d] == c
    {
      assert c == ca || (c in h.signs && r.signs[c] == h.signs[c]);
    }
    forall d | d in r.signedBy ensures r.signedBy[d] in r.signs && d in r.signs[r.signedBy[d]] {
      assert d == cert || r.signedBy[d] == h.signedBy[d];
    }
  }

  // ---------------------------------------------------------------- depth

  /** From a certificate to its signer, and on to that one's signer, for a while. */
  ghost predicate IsPath(h: View, p: seq<string>) {
    p != [] && forall i :: 0 <= i < |p| - 1 ==> p[i] in h.signedBy && p[i + 1] == h.signedBy[p[i]]
  }

  /** No way up the signers returns to where it started. */
  ghost predicate Acyclic(h: View) {
    forall p :: IsPath(h, p) && |p| > 1 ==> p[0] != p[|p| - 1]
  }

  /** Each certificate ranks above its signer. */
  ghost predicate Ranked(h: View, rank: map<string, nat>) {
    && rank.Keys == (set c | c in h.names)
    && forall c :: c in h.signedBy ==> c in rank && h.signedBy[c] in rank && rank[h.signedBy[c]] < rank[c]
  }

  ghost predicate Above(h: View, c: string, d: string) {
    exists p :: IsPath(h, p) && p[0] == c && p[|p| - 1] == d
  }

  ghost function AllAbove(h: View, c: string): set<string> { set d | d in h.names && Above(h, c, d) }

  /** Going up one signer leaves strictly less above. */
  lemma FewerAbove(h: View, c: string)
    requires Consistent(h) && Acyclic(h) && c in h.signedBy
    ensures |AllAbove(h, h.signedBy[c])| < |AllAbove(h, c)|
  {
    hide Consistent, Acyclic;
    var u := h.signedBy[c];
    InNames(h, c);
    forall d | d in AllAbove(h, u) ensures d in AllAbove(h, c) && d != c {
      var p :| IsPath(h, p) && p[0] == u && p[|p| - 1] == d;
      OneMoreBelow(h, c, p);
    }
    assert IsPath(h, [c]) && c in AllAbove(h, c);
    FewerElements(AllAbove(h, u), AllAbove(h, c), c);
  }

  lemma InNames(h: View, c: string)
    requires Consistent(h) && c in h.signedBy
    ensures c in h.names && h.signedBy[c] in h.names
  {
  }

  lemma OneMoreBelow(h: View, c: string, p: seq<string>)
    requires c in h.signedBy && IsPath(h, p) && p[0] == h.signedBy[c]
    ensures IsPath(h, [c] + p) && ([c] + p)[0] == c && ([c] + p)[|p|] == p[|p| - 1]
    ensures Acyclic(h) ==> p[|p| - 1] != c
  {
    var q := [c] + p;
    assert forall i :: 0 <= i < |p| ==> q[i + 1] == p[i];
    assert IsPath(h, q);
  }

  lemma FewerElements(a: set<string>, b: set<string>, x: string)
    requires a <= b && x in b && x !in a
    ensures |a| < |b|
  {
    assert a <= b - {x};
    SubsetSize(a, b - {x});
  }

  lemma {:induction false} SubsetSize(a: set<string>, b: set<string>)
    requires a <= b
    ensures |a| <= |b|
    decreases |a|
  {
    if x :| x in a {
      SubsetSize(a - {x}, b - {x});
    }
  }

  lemma {:induction false} RanksFall(h: View, rank: map<string, nat>, p: seq<string>)
    requires Ranked(h, rank) && IsPath(h, p) && |p| > 1
    ensures p[0] in rank && p[|p| - 1] in rank && rank[p[|p| - 1]] < rank[p[0]]
    decreases |p|
  {
    if |p| > 2 {
      assert forall i :: 0 <= i < |p| - 1 ==> p[1..][i] == p[i + 1];
      RanksFall(h, rank, p[1..]);
    }
  }

  /** The rankings that the recursions below terminate by exist exactly for acyclic relations. */
  lemma AcyclicIff(h: View)
    requires Consistent(h)
    ensures Acyclic(h) <==> exists rank :: Ranked(h, rank)
  {
    hide Consistent;
    if Acyclic(h) {
      var rank := map c | c in h.names :: |AllAbove(h, c)|;
      forall c | c in h.signedBy ensures c in rank && h.signedBy[c] in rank && rank[h.signedBy[c]] < rank[c] {
        InNames(h, c);
        FewerAbove(h, c);
      }
      assert Ranked(h, rank);
    }
    if rank :| Ranked(h, rank) {
      forall p | IsPath(h, p) && |p| > 1 ensures p[0] != p[|p| - 1] {
        RanksFall(h, rank, p);
      }
    }
  }

  function DepthForCert(h: View, cert: string, ghost rank: map<string, nat>): (d: nat)
    requires Ranked(h, rank) && cert in h.names
    ensures d >= 1 && (d == 1 <==> cert !in h.signedBy)
    decreases rank[cert]
  {
    if cert !in h.signedBy then 1 else DepthForCert(h, h.signedBy[cert], rank) + 1
  }

  /** A certificate, its signer, that one's signer, and so on to the top. */
  ghost predicate IsChain(h: View, p: seq<string>) {
    IsPath(h, p) && p[|p| - 1] !in h.signedBy
  }

  /** `depth_for_cert` is the length of the one signer chain. */
  lemma {:induction false} DepthIsChainLength(h: View, cert: string, rank: map<string, nat>) returns (p: seq<string>)
    requires Ranked(h, rank) && cert in h.names
    ensures IsChain(h, p) && p[0] == cert && |p| == DepthForCert(h, cert, rank)
    ensures forall q :: IsChain(h, q) && q[0] == cert ==> q == p
    decreases rank[cert]
  {
    if cert !in h.signedBy {
      p := [cert];
      forall q | IsChain(h, q) && q[0] == cert ensures q == p {
        assert |q| == 1;
      }
    } else {
      var rest := DepthIsChainLength(h, h.signedBy[cert], rank);
      p := [cert] + rest;
      forall q | IsChain(h, q) && q[0] == cert ensures q == p {
        assert |q| > 1;
        assert IsChain(h, q[1..]) && q[1..][0] == h.signedBy[cert];
        assert q == [q[0]] + q[1..];
      }
    }
  }

  /** What `map { depth_for_cert }.max` returns. */
  ghost predicate IsDepth(h: View, rank: map<string, nat>, d: Option<nat>)
    requires Ranked(h, rank)
  {
    if h.names == [] then d == None
    else d.Some? && (exists c :: c in h.names && DepthForCert(h, c, rank) == d.value)
         && forall c :: c in h.names ==> DepthForCert(h, c, rank) <= d.value
  }

  /** The check passes exactly when something signs something and no signer is itself
      signed. */
  lemma DepthTwoIff(h: View, rank: map<string, nat>, d: Option<nat>)
    requires Consistent(h) && Ranked(h, rank) && IsDepth(h, rank, d)
    ensures d == Some(2) <==> h.signedBy.Keys != {} && forall c :: c in h.signedBy ==> h.signedBy[c] !in h.signedBy
  {
    forall c | c in h.signedBy
      ensures DepthForCert(h, c, rank) >= 2
      ensures DepthForCert(h, c, rank) == 2 <==> h.signedBy[c] !in h.signedBy
    {
      assert DepthForCert(h, c, rank) == DepthForCert(h, h.signedBy[c], rank) + 1;
    }
    forall c | c in h.names && c !in h.signedBy ensures DepthForCert(h, c, rank) == 1 {
    }
  }

  // ---------------------------------------------------------------- print

  /** `c` is on the signer chain of `x`. */
  ghost predicate Under(h: View, x: string, c: string, rank: map<string, nat>)
    requires Ranked(h, rank) && x in h.names
    decreases rank[x]
  {
    x == c || (x in h.signedBy && Under(h, h.signedBy[x], c, rank))
  }

  datatype Line = Line(cert: string, indent: nat)

  ghost predicate Bounded(rank: map<string, nat>, bound: nat) {
    forall c :: c in rank ==> rank[c] < bound
  }

  /** `@signs[cert] || []` */
  function Signed(h: View, cert: string): (r: seq<string>)
    requires Consistent(h)
    ensures Distinct(r) && forall d :: d in r <==> d in h.signedBy && h.signedBy[d] == cert
    ensures forall d :: d in r ==> d in h.names
  {
    if cert in h.signs then h.signs[cert] else []
  }

  function PrintCert(h: View, cert: string, indent: nat, ghost rank: map<string, nat>, ghost bound: nat): (r: seq<Line>)
    requires Consistent(h) && Ranked(h, rank) && Bounded(rank, bound) && cert in h.names
    decreases bound - rank[cert], 0
  {
    hide Consistent;
    [Line(cert, indent)] + PrintAll(h, Signed(h, cert), indent + 2, rank, bound, rank[cert] + 1)
  }

  function PrintAll(h: View, certs: seq<string>, indent: nat,
                    ghost rank: map<string, nat>, ghost bound: nat, ghost floor: nat): (r: seq<Line>)
    requires Consistent(h) && Ranked(h, rank) && Bounded(rank, bound)
    requires floor <= bound && forall c :: c in certs ==> c in h.names && rank[c] >= floor
    decreases bound - floor, 1 + |certs|
  {
    if certs == [] then []
    else PrintCert(h, certs[0], indent, rank, bound) + PrintAll(h, certs[1..], indent, rank, bound, floor)
  }

  function Roots(names: seq<string>, signedBy: map<string, string>): (r: seq<string>)
    ensures forall c :: c in r <==> c in names && c !in signedBy
    ensures Distinct(names) ==> Distinct(r)
  {
    if names == [] then []
    else (if names[0] in signedBy then [] else [names[0]]) + Roots(names[1..], signedBy)
  }

  function Times(lines: seq<Line>, x: string): nat {
    if lines == [] then 0 else (if lines[0].cert == x then 1 else 0) + Times(lines[1..], x)
  }

  lemma {:induction false} TimesAppend(a: seq<Line>, b: seq<Line>, x: string)
    ensures Times(a + b, x) == Times(a, x) + Times(b, x)
  {
    if a == [] {
      assert a + b == b;
    } else {
      TimesAppend(a[1..], b, x);
      assert (a + b)[1..] == a[1..] + b;
    }
  }

  lemma {:induction false} UnderRanks(h: View, x: string, c: string, rank: map<string, nat>)
    requires Consistent(h) && Ranked(h, rank) && x in h.names && Under(h, x, c, rank)
    ensures c in h.names && rank[c] <= rank[x] && (x != c ==> rank[c] < rank[x])
    ensures DepthForCert(h, c, rank) <= DepthForCert(h, x, rank)
    ensures DepthForCert(h, c, rank) == DepthForCert(h, x, rank) ==> c == x
    decreases rank[x]
  {
    hide Consistent;
    if x != c {
      assert h.signedBy[x] in rank;
      UnderRanks(h, h.signedBy[x], c, rank);
    }
  }

  /** A chain meets each depth once, so two siblings are never above one certificate. */
  lemma {:induction false} UnderOnce(h: View, x: string, c: string, d: string, rank: map<string, nat>)
    requires Consistent(h) && Ranked(h, rank) && x in h.names
    requires Under(h, x, c, rank) && Under(h, x, d, rank)
    requires c in h.names && d in h.names && DepthForCert(h, c, rank) == DepthForCert(h, d, rank)
    ensures c == d
    decreases rank[x]
  {
    hide Consistent;
    UnderRanks(h, x, c, rank);
    UnderRanks(h, x, d, rank);
    if x != c && x != d {
      assert h.signedBy[x] in rank;
      UnderOnce(h, h.signedBy[x], c, d, rank);
    }
  }

  /** Below `c`, and not `c`, is below one of the certificates `c` signs. */
  lemma {:induction false} UnderStep(h: View, x: string, c: string, rank: map<string, nat>) returns (d: string)
    requires Consistent(h) && Ranked(h, rank) && x in h.names && x != c && Under(h, x, c, rank)
    ensures d in h.signedBy && h.signedBy[d] == c && d in h.names && Under(h, x, d, rank)
    decreases rank[x]
  {
    if h.signedBy[x] == c {
      d := x;
    } else {
      d := UnderStep(h, h.signedBy[x], c, rank);
    }
  }

  ghost predicate Siblings(h: View, certs: seq<string>, rank: map<string, nat>)
    requires Ranked(h, rank)
  {
    && Distinct(certs)
    && (forall c :: c in certs ==> c in h.names)
    && forall c, d :: c in certs && d in certs ==> DepthForCert(h, c, rank) == DepthForCert(h, d, rank)
  }

  /** Printing a certificate prints what is below it, once each. */
  lemma {:induction false} PrintCertOnce(h: View, cert: string, indent: nat, rank: map<string, nat>, bound: nat, x: string)
    requires Consistent(h) && Ranked(h, rank) && Bounded(rank, bound) && cert in h.names && x in h.names
    ensures Times(PrintCert(h, cert, indent, rank, bound), x) == if Under(h, x, cert, rank) then 1 else 0
    decreases bound - rank[cert], 0
  {
    hide Consistent;
    var signed := Signed(h, cert);
    var below := PrintAll(h, signed, indent + 2, rank, bound, rank[cert] + 1);
    TimesAppend([Line(cert, indent)], below, x);
    assert Times([Line(cert, indent)], x) == if cert == x then 1 else 0;
    PrintAllOnce(h, signed, indent + 2, rank, bound, rank[cert] + 1, x);
    if x == cert {
      forall d | d in signed ensures !Under(h, x, d, rank) {
        if Under(h, x, d, rank) {
          UnderRanks(h, x, d, rank);
        }
      }
    } else if Under(h, x, cert, rank) {
      var d := UnderStep(h, x, cert, rank);
      assert d in signed;
    } else {
      forall d | d in signed ensures !Under(h, x, d, rank) {
        if Under(h, x, d, rank) {
          UnderUp(h, x, d, rank);
        }
      }
    }
  }

  lemma {:induction false} UnderUp(h: View, x: string, d: string, rank: map<string, nat>)
    requires Consistent(h) && Ranked(h, rank) && x in h.names && Under(h, x, d, rank) && d in h.signedBy
    ensures Under(h, x, h.signedBy[d], rank)
    decreases rank[x]
  {
    if x != d {
      UnderUp(h, h.signedBy[x], d, rank);
    } else {
      assert h.signedBy[x] in h.names;
      assert Under(h, h.signedBy[x], h.signedBy[d], rank);
    }
  }

  /** `x` is below one of `certs`. */
  ghost predicate UnderAny(h: View, x: string, certs: seq<string>, rank: map<string, nat>)
    requires Ranked(h, rank) && x in h.names
  {
    exists c :: c in certs && Under(h, x, c, rank)
  }

  lemma UnderAnyCons(h: View, x: string, certs: seq<string>, rank: map<string, nat>)
    requires Ranked(h, rank) && x in h.names && certs != []
    ensures UnderAny(h, x, certs, rank) <==> Under(h, x, certs[0], rank) || UnderAny(h, x, certs[1..], rank)
  {
    hide Under, Ranked;
  }

  /** Below the first of some siblings, below none of the others. */
  lemma UnderOneSibling(h: View, x: string, certs: seq<string>, rank: map<string, nat>)
    requires Consistent(h) && Ranked(h, rank) && x in h.names && certs != [] && Siblings(h, certs, rank)
    ensures Siblings(h, certs[1..], rank)
    ensures Under(h, x, certs[0], rank) ==> !UnderAny(h, x, certs[1..], rank)
  {
    hide Consistent, Under, Ranked, DepthForCert;
    if Under(h, x, certs[0], rank) {
      forall c | c in certs[1..] ensures !Under(h, x, c, rank) {
        if Under(h, x, c, rank) {
          UnderOnce(h, x, certs[0], c, rank);
        }
      }
    }
  }

  lemma {:induction false} PrintAllOnce(h: View, certs: seq<string>, indent: nat,
                                        rank: map<string, nat>, bound: nat, floor: nat, x: string)
    requires Consistent(h) && Ranked(h, rank) && Bounded(rank, bound) && x in h.names
    requires floor <= bound && (forall c :: c in certs ==> c in h.names && rank[c] >= floor) && Siblings(h, certs, rank)
    ensures Times(PrintAll(h, certs, indent, rank, bound, floor), x) == if UnderAny(h, x, certs, rank) then 1 else 0
    decreases bound - floor, 1 + |certs|
  {
    hide Consistent, Bounded, DepthForCert, Ranked, Siblings, Under, PrintCert, Times;
    if certs == [] {
      NoLines(x);
    } else {
      var first := PrintCert(h, certs[0], indent, rank, bound);
      var rest := PrintAll(h, certs[1..], indent, rank, bound, floor);
      TimesAppend(first, rest, x);
      UnderOneSibling(h, x, certs, rank);
      UnderAnyCons(h, x, certs, rank);
      PrintCertOnce(h, certs[0], indent, rank, bound, x);
      PrintAllOnce(h, certs[1..], indent, rank, bound, floor, x);
    }
  }

  lemma NoLines(x: string)
    ensures Times([], x) == 0
  {
  }

  lemma {:induction false} RootOf(h: View, x: string, rank: map<string, nat>) returns (root: string)
    requires Consistent(h) && Ranked(h, rank) && x in h.names
    ensures root in h.names && root !in h.signedBy && Under(h, x, root, rank)
    decreases rank[x]
  {
    if x in h.signedBy {
      root := RootOf(h, h.signedBy[x], rank);
    } else {
      root := x;
    }
  }

  lemma RootsAreSiblings(h: View, rank: map<string, nat>)
    requires Consistent(h) && Ranked(h, rank)
    ensures Siblings(h, Roots(h.names, h.signedBy), rank)
  {
  }

  /** `print` visits every name, and each once. */
  lemma PrintVisitsEachOnce(h: View, rank: map<string, nat>, bound: nat, x: string)
    requires Consistent(h) && Ranked(h, rank) && Bounded(rank, bound)
    ensures Times(PrintAll(h, Roots(h.names, h.signedBy), 0, rank, bound, 0), x) == if x in h.names then 1 else 0
  {
    RootsAreSiblings(h, rank);
    var roots := Roots(h.names, h.signedBy);
    if x in h.names {
      var root := RootOf(h, x, rank);
      PrintAllOnce(h, roots, 0, rank, bound, 0, x);
    } else {
      var lines := PrintAll(h, roots, 0, rank, bound, 0);
      forall l | l in lines ensures l.cert in h.names {
        PrintAllIndents(h, roots, rank, bound, 0, 1, l);
      }
      NeverTimes(lines, x);
    }
  }

  lemma {:induction false} NeverTimes(lines: seq<Line>, x: string)
    requires forall l :: l in lines ==> l.cert != x
    ensures Times(lines, x) == 0
  {
    if lines != [] {
      NeverTimes(lines[1..], x);
    }
  }

  /** Each line is indented by its certificate's depth. */
  lemma {:induction false} PrintCertIndents(h: View, cert: string, rank: map<string, nat>, bound: nat, l: Line)
    requires Consistent(h) && Ranked(h, rank) && Bounded(rank, bound) && cert in h.names
    requires l in PrintCert(h, cert, 2 * (DepthForCert(h, cert, rank) - 1), rank, bound)
    ensures l.cert in h.names && l.indent == 2 * (DepthForCert(h, l.cert, rank) - 1)
    decreases bound - rank[cert], 0
  {
    hide Consistent;
    var signed := Signed(h, cert);
    if l != Line(cert, 2 * (DepthForCert(h, cert, rank) - 1)) {
      PrintAllIndents(h, signed, rank, bound, rank[cert] + 1, DepthForCert(h, cert, rank) + 1, l);
    }
  }

  lemma {:induction false} PrintAllIndents(h: View, certs: seq<string>, rank: map<string, nat>,
                                           bound: nat, floor: nat, depth: nat, l: Line)
    requires Consistent(h) && Ranked(h, rank) && Bounded(rank, bound) && depth >= 1
    requires floor <= bound && (forall c :: c in certs ==> c in h.names && rank[c] >= floor)
    requires forall c :: c in certs ==> DepthForCert(h, c, rank) == depth
    requires l in PrintAll(h, certs, 2 * (depth - 1), rank, bound, floor)
    ensures l.cert in h.names && l.indent == 2 * (DepthForCert(h, l.cert, rank) - 1)
    decreases bound - floor, 1 + |certs|
  {
    hide Consistent, Bounded;
    if l in PrintCert(h, certs[0], 2 * (depth - 1), rank, bound) {
      PrintCertIndents(h, certs[0], rank, bound, l);
    } else {
      PrintAllIndents(h, certs[1..], rank, bound, floor, depth, l);
    }
  }

  // ---------------------------------------------------------------- nesting

  /** Line `i` is the nearest line above line `j` that is indented by two less. */
  ghost predicate NearestAbove(lines: seq<Line>, i: nat, j: nat) {
    && i < j < |lines| && lines[i].indent + 2 == lines[j].indent
    && forall k :: i < k < j ==> lines[k].indent + 2 != lines[j].indent
  }

  /** Each line that is indented further than `indent` stands under its signer's. */
  ghost predicate Nested(h: View, lines: seq<Line>, indent: nat) {
    && (forall j :: 0 <= j < |lines| ==> lines[j].indent >= indent)
    && forall j :: 0 <= j < |lines| && lines[j].indent > indent ==> UnderSigner(h, lines, j)
  }

  ghost predicate UnderSigner(h: View, lines: seq<Line>, j: nat)
    requires j < |lines|
  {
    lines[j].cert in h.signedBy && exists i: nat :: i < j && NearestAbove(lines, i, j) && lines[i].cert == h.signedBy[lines[j].cert]
  }

  /** The certificates of the lines at `indent` are the given ones. */
  ghost predicate Outermost(lines: seq<Line>, indent: nat, certs: seq<string>) {
    forall j :: 0 <= j < |lines| && lines[j].indent == indent ==> lines[j].cert in certs
  }

  lemma NestedAppend(h: View, a: seq<Line>, b: seq<Line>, indent: nat)
    requires Nested(h, a, indent) && Nested(h, b, indent)
    ensures Nested(h, a + b, indent)
  {
    var lines := a + b;
    forall j | 0 <= j < |lines| && lines[j].indent > indent ensures UnderSigner(h, lines, j) {
      if j < |a| {
        assert UnderSigner(h, a, j);
        var i: nat :| i < j && NearestAbove(a, i, j) && a[i].cert == h.signedBy[a[j].cert];
        assert NearestAbove(lines, i, j);
      } else {
        assert UnderSigner(h, b, j - |a|);
        var i: nat :| i < j - |a| && NearestAbove(b, i, j - |a|) && b[i].cert == h.signedBy[b[j - |a|].cert];
        assert forall k :: |a| <= k < |lines| ==> lines[k] == b[k - |a|];
        assert NearestAbove(lines, |a| + i, j);
      }
    }
  }

  lemma NearestBelow(head: Line, below: seq<Line>, i: nat, j: nat)
    requires NearestAbove(below, i, j)
    ensures NearestAbove([head] + below, i + 1, j + 1)
  {
    var lines := [head] + below;
    assert forall k :: 0 < k < |lines| ==> lines[k] == below[k - 1];
  }

  lemma HeadIsNearest(head: Line, below: seq<Line>, j: nat)
    requires j < |below| && below[j].indent == head.indent + 2
    requires forall k :: 0 <= k < |below| ==> below[k].indent >= head.indent + 2
    ensures NearestAbove([head] + below, 0, j + 1)
  {
    var lines := [head] + below;
    assert forall k :: 0 < k < |lines| ==> lines[k] == below[k - 1];
  }

  /** A certificate's own line, and under it the lines of what it signs. */
  lemma NestedUnder(h: View, cert: string, indent: nat, below: seq<Line>, signed: seq<string>)
    requires Nested(h, below, indent + 2) && Outermost(below, indent + 2, signed)
    requires forall d :: d in signed ==> d in h.signedBy && h.signedBy[d] == cert
    ensures Nested(h, [Line(cert, indent)] + below, indent)
    ensures Outermost([Line(cert, indent)] + below, indent, [cert])
  {
    hide NearestAbove;
    var head := Line(cert, indent);
    var lines := [head] + below;
    forall j | 0 < j < |lines| ensures lines[j].indent > indent && UnderSigner(h, lines, j) {
      assert lines[j] == below[j - 1];
      if below[j - 1].indent > indent + 2 {
        assert UnderSigner(h, below, j - 1);
        var i: nat :| i < j - 1 && NearestAbove(below, i, j - 1) && below[i].cert == h.signedBy[below[j - 1].cert];
        NearestBelow(head, below, i, j - 1);
      } else {
        assert below[j - 1].cert in signed;
        HeadIsNearest(head, below, j - 1);
      }
    }
  }

  lemma {:induction false} PrintCertNested(h: View, cert: string, indent: nat, rank: map<string, nat>, bound: nat)
    requires Consistent(h) && Ranked(h, rank) && Bounded(rank, bound) && cert in h.names
    ensures var lines := PrintCert(h, cert, indent, rank, bound);
            Nested(h, lines, indent) && Outermost(lines, indent, [cert])
    decreases bound - rank[cert], 0
  {
    hide Consistent, Nested, Outermost;
    var signed := Signed(h, cert);
    PrintAllNested(h, signed, indent + 2, rank, bound, rank[cert] + 1);
    NestedUnder(h, cert, indent, PrintAll(h, signed, indent + 2, rank, bound, rank[cert] + 1), signed);
  }

  lemma {:induction false} PrintAllNested(h: View, certs: seq<string>, indent: nat,
                                          rank: map<string, nat>, bound: nat, floor: nat)
    requires Consistent(h) && Ranked(h, rank) && Bounded(rank, bound)
    requires floor <= bound && forall c :: c in certs ==> c in h.names && rank[c] >= floor
    ensures var lines := PrintAll(h, certs, indent, rank, bound, floor);
            Nested(h, lines, indent) && Outermost(lines, indent, certs)
    decreases bound - floor, 1 + |certs|
  {
    if certs != [] {
      hide Consistent, Bounded, PrintCert, UnderSigner;
      var first := PrintCert(h, certs[0], indent, rank, bound);
      var rest := PrintAll(h, certs[1..], indent, rank, bound, floor);
      PrintCertNested(h, certs[0], indent, rank, bound);
      PrintAllNested(h, certs[1..], indent, rank, bound, floor);
      NestedAppend(h, first, rest, indent);
    }
  }

  /** The listing's edges keep its order: a CA's list is what it signed, in the order listed. */
  lemma {:induction false} ListedInOrder(s: Store, names: seq<string>, ca: string)
    requires (forall n :: n in names ==> n in s) && Distinct(names)
    ensures var signs := Listed(s, names).signs;
            (if ca in signs then signs[ca] else []) == SignedInOrder(s, names, ca)
  {
    if names != [] {
      var most, last := names[..|names| - 1], names[|names| - 1];
      assert names == most + [last];
      hide Listed;
      ListedInOrder(s, most, ca);
      ListedOne(s, names);
      SignsAfter(Listed(s, most), s[last].signedBy, last, ca);
      assert last !in SignedInOrder(s, most, ca);
    }
  }

  lemma ListedOne(s: Store, names: seq<string>)
    requires (forall n :: n in names ==> n in s) && names != []
    ensures var i := |names| - 1; Listed(s, names) == Add(Listed(s, names[..i]), s[names[i]].signedBy, names[i])
  {
  }

  lemma SignsAfter(h: View, signer: string, cert: string, ca: string)
    ensures var before, after := h.signs, Add(h, signer, cert).signs;
            var old_ := if ca in before then before[ca] else [];
            (if ca in after then after[ca] else [])
            == if signer == ca && cert != ca && cert !in old_ then old_ + [cert] else old_
  {
  }

  /** The certificates that `ca` signed, itself apart. */
  function SignedInOrder(s: Store, names: seq<string>, ca: string): (r: seq<string>)
    requires forall n :: n in names ==> n in s
    ensures forall n :: n in r ==> n in names
  {
    if names == [] then []
    else
      var last := names[|names| - 1];
      SignedInOrder(s, names[..|names| - 1], ca) + if s[last].signedBy == ca && last != ca then [last] else []
  }

  /** The class itself: three fields that `add_edge` updates. */
  class CertificateHierarchy {
    var certNames: seq<string>
    var signs: map<string, seq<string>>
    var signedBy: map<string, string>

    ghost function Contents(): View
      reads this
    {
      View(certNames, signs, signedBy)
    }

    constructor ()
      ensures Contents() == EMPTY
    {
      certNames, signs, signedBy := [], map[], map[];
    }

    method AddEdge(ca: string, cert: string)
      modifies this
      ensures Contents() == Add(old(Contents()), ca, cert)
    {
      hide PushUniq;
      if ca == cert {
        return;
      }
      certNames := PushUniq(PushUniq(certNames, ca), cert);
      var signed := if ca in signs then signs[ca] else [];
      signs := signs[ca := PushUniq(signed, cert)];
      signedBy := signedBy[cert := ca];
    }

    method Depth(ghost rank: map<string, nat>) returns (d: Option<nat>)
      requires Consistent(Contents()) && Ranked(Contents(), rank)
      ensures IsDepth(Contents(), rank, d)
    {
      hide Consistent, Ranked, DepthForCert;
      d := None;
      for i := 0 to |certNames|
        invariant d == None <==> i == 0
        invariant d.Some? ==> exists k :: 0 <= k < i && DepthForCert(Contents(), certNames[k], rank) == d.value
        invariant forall k :: 0 <= k < i ==> d.Some? && DepthForCert(Contents(), certNames[k], rank) <= d.value
      {
        var here := DepthForCert(View(certNames, signs, signedBy), certNames[i], rank);
        if d == None || here > d.value {
          d := Some(here);
        }
      }
    }

    method Print(ghost rank: map<string, nat>, ghost bound: nat) returns (lines: seq<Line>)
      requires Consistent(Contents()) && Ranked(Contents(), rank) && Bounded(rank, bound)
      ensures forall x :: Times(lines, x) == if x in certNames then 1 else 0
      ensures forall l :: l in lines ==> l.cert in certNames && l.indent == 2 * (DepthForCert(Contents(), l.cert, rank) - 1)
      ensures forall j :: 0 <= j < |lines| && lines[j].indent > 0 ==> UnderSigner(Contents(), lines, j)
    {
      ghost var h := Contents();
      var roots := Roots(certNames, signedBy);
      lines := PrintAll(View(certNames, signs, signedBy), roots, 0, rank, bound, 0);
      PrintAllNested(h, roots, 0, rank, bound, 0);
      forall x ensures Times(lines, x) == if x in certNames then 1 else 0 {
        PrintVisitsEachOnce(h, rank, bound, x);
      }
      forall l | l in lines ensures l.cert in certNames && l.indent == 2 * (DepthForCert(h, l.cert, rank) - 1) {
        PrintAllIndents(h, roots, rank, bound, 0, 1, l);
      }
    }
  }

  // ------------------------------------------------ what the check is for

  /** The loop over the listing: one edge from each certificate's signer to it. */
  function Listed(s: Store, names: seq<string>): (h: View)
    requires forall n :: n in names ==> n in s
  {
    if names == [] then EMPTY
    else Add(Listed(s, names[..|names| - 1]), s[names[|names| - 1]].signedBy, names[|names| - 1])
  }

  lemma EmptyConsistent()
    ensures Consistent(EMPTY)
  {
  }

  lemma {:induction false} ListedMeans(s: Store, names: seq<string>)
    requires forall n :: n in names ==> n in s
    ensures Consistent(Listed(s, names))
    ensures forall n :: n in Listed(s, names).signedBy <==> n in names && s[n].signedBy != n
    ensures forall n :: n in Listed(s, names).signedBy ==> Listed(s, names).signedBy[n] == s[n].signedBy
  {
    hide Consistent, PushUniq;
    EmptyConsistent();
    if names != [] {
      var most, last := names[..|names| - 1], names[|names| - 1];
      ListedMeans(s, most);
      AddKeepsConsistent(Listed(s, most), s[last].signedBy, last);
      assert names == most + [last];
    }
  }

  /** The check passes exactly when something is signed by another certificate and no signer is
      itself listed as signed by another. If every signer is listed, that is a store with leaves
      and two levels: the rotation's precondition. */
  lemma CheckPassesIff(s: Store, names: seq<string>, rank: map<string, nat>, d: Option<nat>)
    requires Lists(names, s.Keys)
    requires Ranked(Listed(s, names), rank) && IsDepth(Listed(s, names), rank, d)
    ensures d == Some(2) <==> (exists n :: IsLeaf(s, n)) && forall n :: IsLeaf(s, n) ==> !IsLeaf(s, s[n].signedBy)
    ensures (forall n :: n in s ==> s[n].signedBy in s) ==>
              (d == Some(2) <==> Flat(s) && exists n :: IsLeaf(s, n))
  {
    var h := Listed(s, names);
    ListedMeans(s, names);
    DepthTwoIff(h, rank, d);
    hide Consistent, IsDepth, Ranked, Listed;
    assert forall n :: n in h.signedBy <==> IsLeaf(s, n);
    if forall n :: n in s ==> s[n].signedBy in s {
      forall n | n in s ensures IsCa(s, s[n].signedBy) <==> !IsLeaf(s, s[n].signedBy) {
      }
    }
  }

  /** For a listing whose signer relation has no cycle the script does compute a depth, and
      what it compares with 2 decides the precondition. */
  lemma AcyclicListingHasDepth(s: Store, names: seq<string>) returns (rank: map<string, nat>)
    requires Lists(names, s.Keys) && Acyclic(Listed(s, names))
    ensures Consistent(Listed(s, names)) && Ranked(Listed(s, names), rank)
  {
    ListedMeans(s, names);
    AcyclicIff(Listed(s, names));
    rank :| Ranked(Listed(s, names), rank);
  }
}
