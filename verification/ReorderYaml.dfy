/** Reordering YAML arrays by the `__paas_order` key of their elements
    (manifests/cf-manifest/scripts/reorder-yaml.rb). */
module ReorderYaml {

  datatype Yaml =
    | Number(value: real)
    | Scalar(text: string)
    | List(items: seq<Yaml>)
    | Dict(fields: seq<Field>)

  datatype Field = Field(key: string, value: Yaml)

  const PAAS_ORDER_KEY := "__paas_order"

  // ---------------------------------------------------------------- ordering keys

  predicate Keyed(v: Yaml) {
    v.Dict? && exists i :: 0 <= i < |v.fields| && v.fields[i].key == PAAS_ORDER_KEY
  }

  function Lookup(fields: seq<Field>, key: string): (r: Yaml)
    requires exists i :: 0 <= i < |fields| && fields[i].key == key
    ensures Field(key, r) in fields
  {
    if fields[0].key == key then fields[0].value else Lookup(fields[1..], key)
  }

  predicate Numeric(v: Yaml) { Keyed(v) ==> Lookup(v.fields, PAAS_ORDER_KEY).Number? }

  /** An element's place; 0 unless it says otherwise. */
  function Order(v: Yaml): real {
    if Keyed(v) && Numeric(v) then Lookup(v.fields, PAAS_ORDER_KEY).value else 0.0
  }

  /** Where elements are compared, their ordering keys are numbers; a sort raises otherwise. */
  ghost predicate Orderable(v: Yaml) {
    match v
    case List(items) =>
      && (|items| > 1 ==> forall i :: 0 <= i < |items| ==> Numeric(items[i]))
      && forall i :: 0 <= i < |items| ==> Orderable(items[i])
    case Dict(fields) =>
      forall i :: 0 <= i < |fields| ==> fields[i].key == PAAS_ORDER_KEY || Orderable(fields[i].value)
    case _ => true
  }

  // ---------------------------------------------------------------- the stable sort

  ghost predicate Sorted(s: seq<Yaml>) { forall i, j :: 0 <= i < j < |s| ==> Order(s[i]) <= Order(s[j]) }

  /** The elements at one place, in their order. */
  function At(s: seq<Yaml>, k: real): (r: seq<Yaml>)
    ensures forall v :: v in r <==> v in s && Order(v) == k
  {
    if s == [] then []
    else (if Order(s[0]) == k then [s[0]] else []) + At(s[1..], k)
  }

  ghost predicate Agree(t: seq<Yaml>, u: seq<Yaml>) { forall k :: At(t, k) == At(u, k) }

  /** `t` is `s` sorted, equal keys in their existing order. */
  ghost predicate StableSortOf(t: seq<Yaml>, s: seq<Yaml>) {
    Sorted(t) && Agree(t, s)
  }

  function Insert(v: Yaml, s: seq<Yaml>): (r: seq<Yaml>)
    ensures forall w :: w in r <==> w == v || w in s
  {
    if s == [] || Order(v) <= Order(s[0]) then [v] + s else [s[0]] + Insert(v, s[1..])
  }

  /** `sort_by` on pairs of key and index: the pairs are distinct, so one result is possible. */
  function Sort(s: seq<Yaml>): (r: seq<Yaml>)
    ensures forall v :: v in r <==> v in s
  {
    if s == [] then [] else Insert(s[0], Sort(s[1..]))
  }

  lemma AtCons(v: Yaml, s: seq<Yaml>, k: real)
    ensures At([v] + s, k) == (if Order(v) == k then [v] else []) + At(s, k)
  {
    assert ([v] + s)[1..] == s;
  }

  lemma {:induction false} InsertKeepsSorted(v: Yaml, s: seq<Yaml>)
    requires Sorted(s)
    ensures Sorted(Insert(v, s))
    decreases |s|
  {
    hide Order;
    if s != [] && Order(v) > Order(s[0]) {
      InsertKeepsSorted(v, s[1..]);
      var r := Insert(v, s[1..]);
      forall j | 0 <= j < |r| ensures Order(s[0]) <= Order(r[j]) {
        assert r[j] in r;
        if r[j] in s[1..] {
          var i :| 0 <= i < |s[1..]| && s[1..][i] == r[j];
          assert r[j] == s[i + 1];
        }
      }
    }
  }

  lemma {:induction false} InsertIsStable(v: Yaml, s: seq<Yaml>, k: real)
    ensures At(Insert(v, s), k) == At([v] + s, k)
    decreases |s|
  {
    hide Order, At;
    if s != [] && Order(v) > Order(s[0]) {
      InsertIsStable(v, s[1..], k);
      assert s == [s[0]] + s[1..];
      AtCons(v, s, k);
      AtCons(v, s[1..], k);
      AtCons(s[0], s[1..], k);
      AtCons(s[0], Insert(v, s[1..]), k);
    }
  }

  lemma {:induction false} SortIsStable(s: seq<Yaml>)
    ensures StableSortOf(Sort(s), s)
    decreases |s|
  {
    if s != [] {
      SortIsStable(s[1..]);
      InsertKeepsSorted(s[0], Sort(s[1..]));
      forall k ensures At(Sort(s), k) == At(s, k) {
        InsertIsStable(s[0], Sort(s[1..]), k);
        AtCons(s[0], Sort(s[1..]), k);
      }
    }
  }

  lemma Peel<T>(x: T, y: T, a: seq<T>, b: seq<T>)
    ensures [x] + a == [y] + b ==> a == b
    ensures [] + a == [] + b ==> a == b
  {
    if [x] + a == [y] + b {
      assert a == ([x] + a)[1..] && b == ([y] + b)[1..];
    }
    assert [] + a == a && [] + b == b;
  }

  lemma SameHead(t: seq<Yaml>, u: seq<Yaml>)
    requires Sorted(t) && Sorted(u) && Agree(t, u) && t != []
    ensures u != [] && t[0] == u[0]
  {
    hide Order;
    var k := Order(t[0]);
    assert t[0] in At(t, k) && t[0] in At(u, k);
    assert u[0] in At(u, Order(u[0])) && u[0] in At(t, Order(u[0]));
    assert At(t, k)[0] == t[0] && At(u, k)[0] == u[0];
  }

  lemma SameTail(t: seq<Yaml>, u: seq<Yaml>)
    requires Agree(t, u) && t != [] && u != [] && t[0] == u[0]
    ensures Agree(t[1..], u[1..])
  {
    hide Order, At;
    assert t == [t[0]] + t[1..] && u == [u[0]] + u[1..];
    forall k ensures At(t[1..], k) == At(u[1..], k) {
      AtCons(t[0], t[1..], k);
      AtCons(u[0], u[1..], k);
      Peel(t[0], u[0], At(t[1..], k), At(u[1..], k));
    }
  }

  /** There is only one stable sort. */
  lemma {:induction false} StableSortIsUnique(t: seq<Yaml>, u: seq<Yaml>)
    requires Sorted(t) && Sorted(u) && Agree(t, u)
    ensures t == u
    decreases |t|
  {
    if t == [] {
      if u != [] {
        SameHead(u, t);
      }
    } else {
      SameHead(t, u);
      SameTail(t, u);
      StableSortIsUnique(t[1..], u[1..]);
    }
  }

  lemma SortIff(s: seq<Yaml>, t: seq<Yaml>)
    ensures t == Sort(s) <==> StableSortOf(t, s)
  {
    SortIsStable(s);
    if StableSortOf(t, s) {
      StableSortIsUnique(t, Sort(s));
    }
  }

  // ---------------------------------------------------------------- the program

  function Stripped(fields: seq<Field>): (r: seq<Field>)
    ensures forall f :: f in r <==> f in fields && f.key != PAAS_ORDER_KEY
  {
    if fields == [] then []
    else (if fields[0].key == PAAS_ORDER_KEY then [] else [fields[0]]) + Stripped(fields[1..])
  }

  function Processed(v: Yaml): Yaml
    requires Orderable(v)
  {
    match v
    case List(items) =>
      var sorted := Sort(items);
      List(seq(|sorted|, i requires 0 <= i < |sorted| => assert sorted[i] in items; Processed(sorted[i])))
    case Dict(fields) =>
      var kept := Stripped(fields);
      Dict(seq(|kept|, i requires 0 <= i < |kept| =>
        assert kept[i] in fields; Field(kept[i].key, Processed(kept[i].value))))
    case _ => v
  }

  /** An ordering key somewhere in the tree. */
  ghost predicate Marked(v: Yaml) {
    match v
    case List(items) => exists i :: 0 <= i < |items| && Marked(items[i])
    case Dict(fields) => Keyed(v) || exists i :: 0 <= i < |fields| && Marked(fields[i].value)
    case _ => false
  }

  // ---------------------------------------------------------------- what it does

  ghost predicate FirstOrdering(fields: seq<Field>, i: nat, k: real) {
    i < |fields| && fields[i] == Field("__paas_order", Number(k))
    && forall j :: 0 <= j < i ==> fields[j].key != "__paas_order"
  }

  /** The element says where it wants to be. */
  ghost predicate Wants(v: Yaml, k: real) {
    v.Dict? && exists i :: 0 <= i < |v.fields| && FirstOrdering(v.fields, i, k)
  }

  lemma {:induction false} LookupIs(fields: seq<Field>, i: nat)
    requires i < |fields| && forall j :: 0 <= j < i ==> fields[j].key != fields[i].key
    ensures Lookup(fields, fields[i].key) == fields[i].value
  {
    if i > 0 {
      assert forall j :: 0 <= j < |fields| - 1 ==> fields[1..][j] == fields[j + 1];
      LookupIs(fields[1..], i - 1);
    }
  }

  lemma {:induction false} FirstKeyed(fields: seq<Field>, k: nat) returns (i: nat)
    requires k < |fields| && fields[k].key == PAAS_ORDER_KEY
    ensures i <= k && fields[i].key == PAAS_ORDER_KEY && forall j :: 0 <= j < i ==> fields[j].key != PAAS_ORDER_KEY
    decreases k
  {
    if j :| 0 <= j < k && fields[j].key == PAAS_ORDER_KEY {
      i := FirstKeyed(fields, j);
    } else {
      i := k;
    }
  }

  /** The sort goes by the number an element wants, and by 0 for elements that want none. */
  lemma OrderIs(v: Yaml)
    ensures forall k :: Wants(v, k) ==> Order(v) == k
    ensures Order(v) == 0.0 || Wants(v, Order(v))
  {
    if Keyed(v) {
      var k :| 0 <= k < |v.fields| && v.fields[k].key == PAAS_ORDER_KEY;
      var i := FirstKeyed(v.fields, k);
      LookupIs(v.fields, i);
      if Numeric(v) {
        assert FirstOrdering(v.fields, i, Order(v));
      }
    }
    forall k | Wants(v, k) ensures Order(v) == k {
      var i :| 0 <= i < |v.fields| && FirstOrdering(v.fields, i, k);
      LookupIs(v.fields, i);
    }
  }

  /** The elements that want no other place than their own. */
  ghost predicate Stays(v: Yaml) { forall k :: Wants(v, k) ==> k == 0.0 }

  ghost function Staying(s: seq<Yaml>): seq<Yaml> {
    if s == [] then [] else (if Stays(s[0]) then [s[0]] else []) + Staying(s[1..])
  }

  lemma {:induction false} StayingIsAt(s: seq<Yaml>)
    ensures Staying(s) == At(s, 0.0)
  {
    hide Order, Wants;
    if s != [] {
      OrderIs(s[0]);
      StayingIsAt(s[1..]);
    }
  }

  /** The documented order: first the elements with a negative `__paas_order`, then those without one
      (or with 0) just as they were, then those with a positive one; and of two elements that have
      one, the one with the smaller number comes first. */
  lemma DocumentedOrder(s: seq<Yaml>) returns (low: seq<Yaml>, high: seq<Yaml>)
    ensures Sort(s) == low + Staying(s) + high
    ensures forall v :: v in low ==> exists k :: Wants(v, k) && k < 0.0
    ensures forall v :: v in high ==> exists k :: Wants(v, k) && k > 0.0
    ensures Sorted(low) && Sorted(high) && Staying(s) == At(s, 0.0)
    ensures forall i, j, a, b :: 0 <= i < j < |Sort(s)| && Wants(Sort(s)[i], a) && Wants(Sort(s)[j], b) ==> a <= b
  {
    hide Order, At, Sort, Wants, Staying;
    SortIsStable(s);
    low, high := Split(Sort(s));
    StayingIsAt(s);
    PartsSorted(low, At(s, 0.0), high);
    forall v | v in low + high ensures Order(v) != 0.0 ==> Wants(v, Order(v)) {
      OrderIs(v);
    }
    forall i, j, a, b | 0 <= i < j < |Sort(s)| && Wants(Sort(s)[i], a) && Wants(Sort(s)[j], b) ensures a <= b {
      OrderIs(Sort(s)[i]);
      OrderIs(Sort(s)[j]);
    }
  }

  lemma PartsSorted(a: seq<Yaml>, b: seq<Yaml>, c: seq<Yaml>)
    requires Sorted(a + b + c)
    ensures Sorted(a) && Sorted(c)
  {
    hide Order;
    var t := a + b + c;
    assert forall i :: 0 <= i < |a| ==> a[i] == t[i];
    assert forall i :: 0 <= i < |c| ==> c[i] == t[|a| + |b| + i];
  }

  lemma {:induction false} Split(t: seq<Yaml>) returns (low: seq<Yaml>, high: seq<Yaml>)
    requires Sorted(t)
    ensures t == low + At(t, 0.0) + high
    ensures forall v :: v in low ==> Order(v) < 0.0
    ensures forall v :: v in high ==> Order(v) > 0.0
    ensures t == [] || Order(t[0]) >= 0.0 ==> low == []
    decreases |t|
  {
    hide Order, At;
    low, high := [], [];
    if t == [] {
      NoneAt(t);
    } else {
      assert t == [t[0]] + t[1..];
      AtCons(t[0], t[1..], 0.0);
      if Order(t[0]) > 0.0 {
        forall v | v in t ensures Order(v) > 0.0 {
        }
        NoneAt(t);
        high := t;
      } else {
        var l, h := Split(t[1..]);
        high := h;
        if Order(t[0]) < 0.0 {
          low := [t[0]] + l;
        }
      }
    }
  }

  lemma {:induction false} NoneAt(t: seq<Yaml>)
    requires forall v :: v in t ==> Order(v) != 0.0
    ensures At(t, 0.0) == []
  {
    assert At(t, 0.0) != [] ==> At(t, 0.0)[0] in At(t, 0.0);
  }

  /** No ordering key is left, at any depth. */
  lemma {:induction false} NothingMarked(v: Yaml)
    requires Orderable(v)
    ensures !Marked(Processed(v))
    decreases v
  {
    match v
    case List(items) =>
      forall i | 0 <= i < |Processed(v).items| ensures !Marked(Processed(v).items[i]) {
        assert Sort(items)[i] in items;
        NothingMarked(Sort(items)[i]);
      }
    case Dict(fields) =>
      var kept := Stripped(fields);
      forall i | 0 <= i < |kept|
        ensures Processed(v).fields[i].key != PAAS_ORDER_KEY && !Marked(Processed(v).fields[i].value)
      {
        assert kept[i] in fields;
        NothingMarked(kept[i].value);
      }
    case _ =>
  }

  /** A tree without ordering keys is as it was. */
  lemma {:induction false} UnmarkedStays(v: Yaml)
    requires !Marked(v)
    ensures Orderable(v) && Processed(v) == v
    decreases v
  {
    match v
    case List(items) =>
      forall i | 0 <= i < |items| ensures Orderable(items[i]) && Processed(items[i]) == items[i] && !Keyed(items[i]) {
        UnmarkedStays(items[i]);
      }
      SortIff(items, items);
    case Dict(fields) =>
      NothingStripped(fields);
      forall i | 0 <= i < |fields| ensures Orderable(fields[i].value) && Processed(fields[i].value) == fields[i].value {
        UnmarkedStays(fields[i].value);
      }
    case _ =>
  }

  lemma {:induction false} NothingStripped(fields: seq<Field>)
    requires forall i :: 0 <= i < |fields| ==> fields[i].key != PAAS_ORDER_KEY
    ensures Stripped(fields) == fields
  {
    if fields != [] {
      NothingStripped(fields[1..]);
    }
  }

  /** Exactly the trees without ordering keys are unaffected. */
  lemma UnaffectedIff(v: Yaml)
    requires Orderable(v)
    ensures Processed(v) == v <==> !Marked(v)
  {
    NothingMarked(v);
    if !Marked(v) {
      UnmarkedStays(v);
    }
  }

  lemma Idempotent(v: Yaml)
    requires Orderable(v)
    ensures Orderable(Processed(v)) && Processed(Processed(v)) == Processed(v)
  {
    NothingMarked(v);
    UnmarkedStays(Processed(v));
  }

  /** Every array comes out as the one stable sort of its elements, each processed. */
  lemma ArraysAreSorted(items: seq<Yaml>, out: seq<Yaml>)
    requires Orderable(List(items))
    ensures Processed(List(items)) == List(out)
       <==> exists t :: StableSortOf(t, items) && |out| == |t|
              && forall i :: 0 <= i < |t| ==> t[i] in items && out[i] == Processed(t[i])
  {
    hide At, Processed, Order;
    SortIff(items, Sort(items));
    ProcessedList(items);
    if t :| StableSortOf(t, items) && |out| == |t|
            && forall i :: 0 <= i < |t| ==> t[i] in items && out[i] == Processed(t[i]) {
      SortIff(items, t);
    }
  }

  lemma ProcessedList(items: seq<Yaml>)
    requires Orderable(List(items))
    ensures var r := Processed(List(items));
            && r.List? && |r.items| == |Sort(items)|
            && forall i :: 0 <= i < |r.items| ==> Sort(items)[i] in items && r.items[i] == Processed(Sort(items)[i])
  {
    assert forall i :: 0 <= i < |Sort(items)| ==> Sort(items)[i] in Sort(items);
  }
}
