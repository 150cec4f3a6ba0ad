/** What several modules say about lists. */
module Collections {

  function SetOf<T(==)>(s: seq<T>): set<T> { set x | x in s }

  predicate Distinct<T(==)>(s: seq<T>) { forall i, j :: 0 <= i < j < |s| ==> s[i] != s[j] }

  /** No newline. */
  predicate OneLine(s: string) { forall i :: 0 <= i < |s| ==> s[i] != '\n' }

  /** Where the first line ends. */
  function LineEnd(s: string): (n: nat)
    ensures n <= |s| && OneLine(s[..n]) && (n < |s| ==> s[n] == '\n')
  {
    if s == "" || s[0] == '\n' then 0
    else
      var n := LineEnd(s[1..]);
      assert s[..n + 1] == [s[0]] + s[1..][..n];
      n + 1
  }

  /** What one source contributed to a list of tagged values, in order. */
  function From<T>(tagged: seq<(nat, T)>, i: nat): seq<T> {
    if tagged == [] then []
    else (if tagged[0].0 == i then [tagged[0].1] else []) + From(tagged[1..], i)
  }

  lemma FromOne<T>(e: (nat, T), i: nat)
    ensures From([e], i) == if e.0 == i then [e.1] else []
  {
    assert [e][1..] == [];
  }

  lemma {:induction false} FromAppend<T>(a: seq<(nat, T)>, b: seq<(nat, T)>, i: nat)
    ensures From(a + b, i) == From(a, i) + From(b, i)
  {
    if a == [] {
      assert a + b == b;
    } else {
      FromAppend(a[1..], b, i);
      assert (a + b)[1..] == a[1..] + b && (a + b)[0] == a[0];
      var head := if a[0].0 == i then [a[0].1] else [];
      assert head + (From(a[1..], i) + From(b, i)) == (head + From(a[1..], i)) + From(b, i);
    }
  }

  lemma {:induction false} FromSize<T>(tagged: seq<(nat, T)>, i: nat)
    ensures |From(tagged, i)| <= |tagged|
  {
    if tagged != [] {
      FromSize(tagged[1..], i);
    }
  }

  lemma {:induction false} NoneFrom<T>(tagged: seq<(nat, T)>, i: nat)
    requires forall e :: e in tagged ==> e.0 != i
    ensures From(tagged, i) == []
  {
    if tagged != [] {
      assert tagged[0] in tagged;
      NoneFrom(tagged[1..], i);
    }
  }

  /** How many elements `p` holds of. */
  function CountIf<T>(s: seq<T>, p: T -> bool): (n: nat)
    ensures n <= |s|
  {
    if s == [] then 0 else CountIf(s[..|s| - 1], p) + if p(s[|s| - 1]) then 1 else 0
  }

  lemma CountIfSnoc<T>(s: seq<T>, x: T, p: T -> bool)
    ensures CountIf(s + [x], p) == CountIf(s, p) + if p(x) then 1 else 0
  {
    assert (s + [x])[..|s|] == s;
  }

  lemma {:induction false} CountIfSplit<T>(s: seq<T>, p: T -> bool)
    requires s != []
    ensures CountIf(s, p) == CountIf(s[1..], p) + if p(s[0]) then 1 else 0
  {
    if |s| > 1 {
      CountIfSplit(s[..|s| - 1], p);
      assert s[1..][..|s| - 2] == s[..|s| - 1][1..];
    } else {
      assert s[..0] == [];
    }
  }

  function Is<T(==)>(x: T): T -> bool { (y: T) => y == x }

  /** How often `x` occurs. */
  function Count<T(==)>(s: seq<T>, x: T): nat { CountIf(s, Is(x)) }
}
