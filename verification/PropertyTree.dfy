/** Walking a YAML property tree and finding values by path
    (manifests/shared/spec/support/property_tree.rb). */
module PropertyTree {
  import Decimal

  /** Str is a string; Other is a number, a boolean or a date. */
  datatype Tree =
    | Nil
    | Str(text: string)
    | Other(text: string)
    | Hash(fields: seq<Field>)
    | Array(items: seq<Tree>)

  datatype Field = Field(key: string, value: Tree)

  /** Ruby's `to_s`. */
  type Show = Tree -> string

  predicate IsLeaf(x: Tree) { !x.Hash? && !x.Array? }

  function Children(x: Tree): (r: seq<Tree>)
    ensures forall i :: 0 <= i < |r| ==> r[i] < x
  {
    match x
    case Hash(fields) => seq(|fields|, i requires 0 <= i < |fields| => fields[i].value)
    case Array(items) => items
    case _ => []
  }

  // ---------------------------------------------------------------- recursive_get

  predicate HasKey(x: Tree, key: string) {
    x.Hash? && exists i :: 0 <= i < |x.fields| && x.fields[i].key == key
  }

  /** `hash[key]`, nil if there is none. */
  function Lookup(fields: seq<Field>, key: string): Tree {
    if fields == [] then Nil
    else if fields[0].key == key then fields[0].value
    else Lookup(fields[1..], key)
  }

  /** `/\A[-+]?\d+\z/` */
  predicate IntegerLike(key: string) {
    var digits := if key != "" && (key[0] == '-' || key[0] == '+') then key[1..] else key;
    digits != "" && Decimal.AllDigits(digits)
  }

  function ToI(key: string): int
    requires IntegerLike(key)
  {
    if key[0] == '-' then 0 - (Decimal.Read(key[1..]) as int)
    else if key[0] == '+' then Decimal.Read(key[1..])
    else Decimal.Read(key)
  }

  /** `array[i]`: from the end if negative, nil outside. */
  function ItemAt(items: seq<Tree>, i: int): Tree {
    if 0 <= i < |items| then items[i] else if -|items| <= i < 0 then items[i + |items|] else Nil
  }

  predicate Named(x: Tree, name: string) { x.Hash? && Lookup(x.fields, "name") == Str(name) }

  function FirstNamed(items: seq<Tree>, name: string): Tree {
    if items == [] then Nil else if Named(items[0], name) then items[0] else FirstNamed(items[1..], name)
  }

  function NextLevel(x: Tree, key: string): Tree {
    match x
    case Hash(fields) => Lookup(fields, key)
    case Array(items) => if IntegerLike(key) then ItemAt(items, ToI(key)) else FirstNamed(items, key)
    case _ => Nil
  }

  function RecursiveGet(x: Tree, keys: seq<string>): Tree
    decreases |keys|
  {
    if keys == [] then x
    else
      var next := NextLevel(x, keys[0]);
      if next == Nil then Nil else RecursiveGet(next, keys[1..])
  }

  // ---------------------------------------------------------------- recursive_inject

  /** What a step to child `i` adds to the path. */
  function Piece(x: Tree, i: nat, show: Show): string
    requires i < |Children(x)|
  {
    if x.Hash? then "/" + x.fields[i].key
    else
      var item := x.items[i];
      if HasKey(item, "name") then "/name=" + show(Lookup(item.fields, "name")) else "/" + Decimal.Write(i)
  }

  function RecursiveInject<A>(acum: A, x: Tree, path: string, f: (A, Tree, string) -> A, show: Show): A
    decreases x, 1, 0
  {
    if IsLeaf(x) then f(acum, x, path) else InjectFrom(acum, x, path, f, show, 0)
  }

  /** The children from `i` on, in order. */
  function InjectFrom<A>(acum: A, x: Tree, path: string, f: (A, Tree, string) -> A, show: Show, i: nat): A
    requires i <= |Children(x)|
    decreases x, 0, |Children(x)| - i
  {
    if i == |Children(x)| then acum
    else InjectFrom(RecursiveInject(acum, Children(x)[i], path + Piece(x, i, show), f, show), x, path, f, show, i + 1)
  }

  // ---------------------------------------------------------------- positions

  type Position = seq<nat>

  /** A way down the tree, by child numbers, that ends at a leaf. */
  predicate LeafAt(x: Tree, p: Position)
    decreases |p|
  {
    if p == [] then IsLeaf(x)
    else p[0] < |Children(x)| && LeafAt(Children(x)[p[0]], p[1..])
  }

  function Leaf(x: Tree, p: Position): (r: Tree)
    requires LeafAt(x, p)
    ensures IsLeaf(r)
    decreases |p|
  {
    if p == [] then x else Leaf(Children(x)[p[0]], p[1..])
  }

  function PathTo(x: Tree, p: Position, show: Show): string
    requires LeafAt(x, p)
    decreases |p|
  {
    if p == [] then "" else Piece(x, p[0], show) + PathTo(Children(x)[p[0]], p[1..], show)
  }

  function KeyOf(x: Tree, i: nat, show: Show): string
    requires i < |Children(x)|
  {
    if x.Hash? then x.fields[i].key
    else if HasKey(x.items[i], "name") then show(Lookup(x.items[i].fields, "name"))
    else Decimal.Write(i)
  }

  /** The keys `recursive_get` takes for the same way down: a name instead of `name=` and it. */
  function KeysTo(x: Tree, p: Position, show: Show): seq<string>
    requires LeafAt(x, p)
    decreases |p|
  {
    if p == [] then []
    else
      [KeyOf(x, p[0], show)] + KeysTo(Children(x)[p[0]], p[1..], show)
  }

  function Below(i: nat, ps: seq<Position>): (r: seq<Position>)
    ensures |r| == |ps| && forall k :: 0 <= k < |r| ==> r[k] == [i] + ps[k]
  {
    seq(|ps|, k requires 0 <= k < |ps| => [i] + ps[k])
  }

  function Leaves(x: Tree): seq<Position>
    decreases x, 1, 0
  {
    if IsLeaf(x) then [[]] else LeavesFrom(x, 0)
  }

  function LeavesFrom(x: Tree, i: nat): seq<Position>
    requires i <= |Children(x)|
    decreases x, 0, |Children(x)| - i
  {
    if i == |Children(x)| then [] else Below(i, Leaves(Children(x)[i])) + LeavesFrom(x, i + 1)
  }

  // ---------------------------------------------------------------- every leaf once, in order

  /** Document order. */
  ghost predicate Precedes(p: Position, q: Position) {
    exists k :: 0 <= k < |p| && k < |q| && p[..k] == q[..k] && p[k] < q[k]
  }

  /** The list of leaves holds each leaf, and nothing else. */
  lemma {:induction false} LeavesAreLeaves(x: Tree, p: Position)
    ensures p in Leaves(x) <==> LeafAt(x, p)
    decreases x, 1, 0
  {
    if IsLeaf(x) {
      assert Leaves(x)[0] == [];
    } else {
      LeavesFromAre(x, 0, p);
    }
  }

  lemma {:induction false} LeavesFromAre(x: Tree, i: nat, p: Position)
    requires i <= |Children(x)| && !IsLeaf(x)
    ensures p in LeavesFrom(x, i) <==> LeafAt(x, p) && p != [] && i <= p[0]
    decreases x, 0, |Children(x)| - i
  {
    if i < |Children(x)| {
      LeavesFromAre(x, i + 1, p);
      var ps := Leaves(Children(x)[i]);
      if p != [] && p[0] == i {
        LeavesAreLeaves(Children(x)[i], p[1..]);
        if p[1..] in ps {
          var k :| 0 <= k < |ps| && ps[k] == p[1..];
          assert Below(i, ps)[k] == p;
        }
      }
      if p in Below(i, ps) {
        var k :| 0 <= k < |ps| && Below(i, ps)[k] == p;
        assert p[0] == i && p[1..] == ps[k];
      }
    }
  }

  lemma {:induction false} LeavesInOrder(x: Tree, a: nat, b: nat)
    requires a < b < |Leaves(x)|
    ensures Precedes(Leaves(x)[a], Leaves(x)[b])
    decreases x, 1, 0
  {
    if !IsLeaf(x) {
      LeavesFromInOrder(x, 0, a, b);
    }
  }

  lemma PrecedesBelow(i: nat, p: Position, q: Position)
    requires Precedes(p, q)
    ensures Precedes([i] + p, [i] + q)
  {
    var k :| 0 <= k < |p| && k < |q| && p[..k] == q[..k] && p[k] < q[k];
    assert ([i] + p)[..k + 1] == [i] + p[..k] && ([i] + q)[..k + 1] == [i] + q[..k];
  }

  lemma PrecedesLater(i: nat, p: Position, q: Position)
    requires q != [] && i < q[0]
    ensures Precedes([i] + p, q)
  {
    assert ([i] + p)[..0] == q[..0];
  }

  lemma LeavesFromParts(x: Tree, i: nat)
    requires i < |Children(x)|
    ensures LeavesFrom(x, i) == Below(i, Leaves(Children(x)[i])) + LeavesFrom(x, i + 1)
  {
  }

  lemma {:induction false} LeavesFromInOrder(x: Tree, i: nat, a: nat, b: nat)
    requires !IsLeaf(x) && i <= |Children(x)| && a < b < |LeavesFrom(x, i)|
    ensures Precedes(LeavesFrom(x, i)[a], LeavesFrom(x, i)[b])
    decreases x, 0, |Children(x)| - i
  {
    assert i < |Children(x)|;
    hide Precedes, LeavesFrom, Leaves, Children;
    LeavesFromParts(x, i);
    var ps, rest := Leaves(Children(x)[i]), LeavesFrom(x, i + 1);
    if b < |ps| {
      LeavesInOrder(Children(x)[i], a, b);
      PrecedesBelow(i, ps[a], ps[b]);
    } else if a < |ps| {
      assert rest[b - |ps|] in rest;
      LeavesFromAre(x, i + 1, rest[b - |ps|]);
      PrecedesLater(i, ps[a], rest[b - |ps|]);
    } else {
      LeavesFromInOrder(x, i + 1, a - |ps|, b - |ps|);
    }
  }

  // ---------------------------------------------------------------- inject is a fold

  ghost predicate AllLeaves(x: Tree, ps: seq<Position>) { forall k :: 0 <= k < |ps| ==> LeafAt(x, ps[k]) }

  function Fold<A>(acum: A, x: Tree, path: string, f: (A, Tree, string) -> A, show: Show, ps: seq<Position>): A
    requires AllLeaves(x, ps)
    decreases |ps|
  {
    if ps == [] then acum
    else Fold(f(acum, Leaf(x, ps[0]), path + PathTo(x, ps[0], show)), x, path, f, show, ps[1..])
  }

  lemma {:induction false} FoldAppend<A>(acum: A, x: Tree, path: string, f: (A, Tree, string) -> A, show: Show,
                                         ps: seq<Position>, qs: seq<Position>)
    requires AllLeaves(x, ps) && AllLeaves(x, qs)
    ensures AllLeaves(x, ps + qs)
    ensures Fold(acum, x, path, f, show, ps + qs) == Fold(Fold(acum, x, path, f, show, ps), x, path, f, show, qs)
    decreases |ps|
  {
    if ps == [] {
      assert ps + qs == qs;
    } else {
      assert (ps + qs)[1..] == ps[1..] + qs;
      FoldAppend(f(acum, Leaf(x, ps[0]), path + PathTo(x, ps[0], show)), x, path, f, show, ps[1..], qs);
    }
  }

  lemma OneStepDown(x: Tree, i: nat, p: Position, path: string, show: Show)
    requires i < |Children(x)| && LeafAt(Children(x)[i], p)
    ensures LeafAt(x, [i] + p) && Leaf(x, [i] + p) == Leaf(Children(x)[i], p)
    ensures path + PathTo(x, [i] + p, show) == path + Piece(x, i, show) + PathTo(Children(x)[i], p, show)
  {
    hide Piece;
    var q := [i] + p;
    assert q != [] && q[0] == i && q[1..] == p;
    assert path + (Piece(x, i, show) + PathTo(Children(x)[i], p, show))
        == path + Piece(x, i, show) + PathTo(Children(x)[i], p, show);
  }

  lemma BelowAreLeaves(x: Tree, i: nat, ps: seq<Position>, show: Show)
    requires i < |Children(x)| && AllLeaves(Children(x)[i], ps)
    ensures AllLeaves(x, Below(i, ps))
  {
    hide LeafAt, Children;
    forall k | 0 <= k < |ps| ensures LeafAt(x, Below(i, ps)[k]) {
      OneStepDown(x, i, ps[k], "", show);
    }
  }

  /** The leaves below child `i`, folded from above or from the child. */
  lemma {:induction false} FoldBelow<A>(acum: A, x: Tree, path: string, f: (A, Tree, string) -> A, show: Show,
                                        i: nat, ps: seq<Position>)
    requires i < |Children(x)| && AllLeaves(Children(x)[i], ps)
    ensures AllLeaves(x, Below(i, ps))
    ensures Fold(acum, x, path, f, show, Below(i, ps))
         == Fold(acum, Children(x)[i], path + Piece(x, i, show), f, show, ps)
    decreases |ps|
  {
    hide LeafAt, Leaf, PathTo, Piece, Children;
    BelowAreLeaves(x, i, ps, show);
    if ps != [] {
      assert Below(i, ps)[1..] == Below(i, ps[1..]);
      OneStepDown(x, i, ps[0], path, show);
      FoldBelow(f(acum, Leaf(x, [i] + ps[0]), path + PathTo(x, [i] + ps[0], show)), x, path, f, show, i, ps[1..]);
    }
  }

  /** `inject` calls its block once for every leaf, in document order, with the leaf's path. */
  lemma {:induction false} InjectIsFold<A>(acum: A, x: Tree, path: string, f: (A, Tree, string) -> A, show: Show)
    ensures AllLeaves(x, Leaves(x))
    ensures RecursiveInject(acum, x, path, f, show) == Fold(acum, x, path, f, show, Leaves(x))
    decreases x, 1, 0
  {
    if IsLeaf(x) {
      assert Leaves(x) == [[]] && path + "" == path;
    } else {
      InjectFromIsFold(acum, x, path, f, show, 0);
    }
  }

  lemma {:induction false} InjectFromIsFold<A>(acum: A, x: Tree, path: string, f: (A, Tree, string) -> A, show: Show, i: nat)
    requires i <= |Children(x)| && !IsLeaf(x)
    ensures AllLeaves(x, LeavesFrom(x, i))
    ensures InjectFrom(acum, x, path, f, show, i) == Fold(acum, x, path, f, show, LeavesFrom(x, i))
    decreases x, 0, |Children(x)| - i
  {
    if i < |Children(x)| {
      var c := Children(x)[i];
      InjectIsFold(acum, c, path + Piece(x, i, show), f, show);
      FoldBelow(acum, x, path, f, show, i, Leaves(c));
      var next := RecursiveInject(acum, c, path + Piece(x, i, show), f, show);
      InjectFromIsFold(next, x, path, f, show, i + 1);
      FoldAppend(acum, x, path, f, show, Below(i, Leaves(c)), LeavesFrom(x, i + 1));
    }
  }

  // ---------------------------------------------------------------- the paths lead back

  /** Hash keys are unique; an element's name is a string, not integer-like, and its own. */
  ghost predicate Addressable(x: Tree) {
    match x
    case Hash(fields) =>
      && (forall i, j :: 0 <= i < j < |fields| ==> fields[i].key != fields[j].key)
      && forall i :: 0 <= i < |fields| ==> Addressable(fields[i].value)
    case Array(items) =>
      && (forall i :: 0 <= i < |items| && HasKey(items[i], "name") ==>
            && Lookup(items[i].fields, "name").Str?
            && !IntegerLike(Lookup(items[i].fields, "name").text)
            && forall j :: 0 <= j < |items| && Named(items[j], Lookup(items[i].fields, "name").text) ==> i == j)
      && forall i :: 0 <= i < |items| ==> Addressable(items[i])
    case _ => true
  }

  lemma {:induction false} LookupFinds(fields: seq<Field>, i: nat)
    requires i < |fields| && forall i, j :: 0 <= i < j < |fields| ==> fields[i].key != fields[j].key
    ensures Lookup(fields, fields[i].key) == fields[i].value
  {
    if i > 0 {
      LookupFinds(fields[1..], i - 1);
    }
  }

  lemma {:induction false} FirstNamedFinds(items: seq<Tree>, name: string, i: nat)
    requires i < |items| && Named(items[i], name)
    requires forall j :: 0 <= j < |items| && Named(items[j], name) ==> i == j
    ensures FirstNamed(items, name) == items[i]
  {
    if i > 0 {
      assert forall j :: 0 <= j < |items| - 1 ==> items[1..][j] == items[j + 1];
      FirstNamedFinds(items[1..], name, i - 1);
    }
  }

  lemma IndexFinds(items: seq<Tree>, i: nat)
    requires i < |items|
    ensures IntegerLike(Decimal.Write(i)) && ItemAt(items, ToI(Decimal.Write(i))) == items[i]
  {
    hide Decimal.Read;
    var s := Decimal.Write(i);
    Decimal.ReadWritten(i);
    assert Decimal.IsDigit(s[0]);
  }

  /** Of several elements of one name the first is found; of none, nil. */
  lemma {:induction false} FirstNamedIsFirst(items: seq<Tree>, name: string)
    ensures forall i :: 0 <= i < |items| && Named(items[i], name) && (forall j :: 0 <= j < i ==> !Named(items[j], name)) ==>
              FirstNamed(items, name) == items[i]
    ensures (forall i :: 0 <= i < |items| ==> !Named(items[i], name)) ==> FirstNamed(items, name) == Nil
  {
    hide Named;
    if items != [] {
      FirstNamedIsFirst(items[1..], name);
      forall i | 0 < i < |items| && Named(items[i], name) && (forall j :: 0 <= j < i ==> !Named(items[j], name))
        ensures FirstNamed(items, name) == items[i]
      {
        assert items[1..][i - 1] == items[i];
        assert forall j :: 0 <= j < i - 1 ==> items[1..][j] == items[j + 1];
      }
    }
  }

  /** Integer-like keys index an array, from the end if there is a minus sign. */
  lemma IndexKeys(items: seq<Tree>, k: nat)
    ensures NextLevel(Array(items), Decimal.Write(k)) == if k < |items| then items[k] else Nil
    ensures NextLevel(Array(items), "+" + Decimal.Write(k)) == if k < |items| then items[k] else Nil
    ensures k > 0 ==> NextLevel(Array(items), "-" + Decimal.Write(k)) == if k <= |items| then items[|items| - k] else Nil
  {
    hide Decimal.Read;
    var s := Decimal.Write(k);
    Decimal.ReadWritten(k);
    assert Decimal.IsDigit(s[0]);
    assert ("+" + s)[1..] == s && ("-" + s)[1..] == s;
  }

  /** `recursive_get` along the keys of a leaf's path finds that leaf. */
  lemma {:induction false} GetFindsLeaf(x: Tree, p: Position, show: Show)
    requires Addressable(x) && LeafAt(x, p)
    requires forall s :: show(Str(s)) == s
    ensures RecursiveGet(x, KeysTo(x, p, show)) == Leaf(x, p)
    decreases |p|
  {
    if p != [] {
      var i := p[0];
      var c := Children(x)[i];
      var keys := KeysTo(x, p, show);
      GetFindsLeaf(c, p[1..], show);
      assert keys[1..] == KeysTo(c, p[1..], show);
      assert NextLevel(x, keys[0]) == c by {
        if x.Hash? {
          LookupFinds(x.fields, i);
        } else if HasKey(c, "name") {
          FirstNamedFinds(x.items, keys[0], i);
        } else {
          IndexFinds(x.items, i);
        }
      }
    }
  }

  // ---------------------------------------------------------------- from the path to the keys

  function SlashAt(path: string): (n: nat)
    ensures n <= |path| && (forall i :: 0 <= i < n ==> path[i] != '/') && (n < |path| ==> path[n] == '/')
  {
    if path == "" || path[0] == '/' then 0 else 1 + SlashAt(path[1..])
  }

  function WithoutName(piece: string): string {
    if |piece| >= 5 && piece[..5] == "name=" then piece[5..] else piece
  }

  /** The keys that a reported path stands for: its parts between slashes, without `name=`. */
  function KeysIn(path: string): seq<string>
    decreases |path|
  {
    if path == "" then []
    else
      var n := SlashAt(path[1..]);
      [WithoutName(path[1..][..n])] + KeysIn(path[1..][n..])
  }

  /** No key on the way down contains a slash, and none that is not a name starts with `name=`:
      what the syntax of the path can tell apart. */
  ghost predicate Readable(x: Tree, p: Position, show: Show)
    requires LeafAt(x, p)
    decreases |p|
  {
    p != [] ==>
      && '/' !in KeyOf(x, p[0], show)
      && (!(x.Array? && HasKey(x.items[p[0]], "name")) ==> WithoutName(KeyOf(x, p[0], show)) == KeyOf(x, p[0], show))
      && Readable(Children(x)[p[0]], p[1..], show)
  }

  lemma {:induction false} SlashAfter(piece: string, rest: string)
    requires '/' !in piece && (rest == "" || rest[0] == '/')
    ensures SlashAt(piece + rest) == |piece|
  {
    if piece == "" {
      assert piece + rest == rest;
    } else {
      assert (piece + rest)[1..] == piece[1..] + rest;
      SlashAfter(piece[1..], rest);
    }
  }

  lemma KeysInCons(piece: string, rest: string)
    requires '/' !in piece && (rest == "" || rest[0] == '/')
    ensures KeysIn("/" + piece + rest) == [WithoutName(piece)] + KeysIn(rest)
  {
    hide WithoutName;
    var path := "/" + piece + rest;
    assert path[1..] == piece + rest;
    SlashAfter(piece, rest);
    assert (piece + rest)[..|piece|] == piece && (piece + rest)[|piece|..] == rest;
  }

  lemma PieceIs(x: Tree, i: nat, show: Show)
    requires i < |Children(x)|
    ensures Piece(x, i, show)
         == "/" + (if x.Array? && HasKey(x.items[i], "name") then "name=" + KeyOf(x, i, show) else KeyOf(x, i, show))
    ensures WithoutName("name=" + KeyOf(x, i, show)) == KeyOf(x, i, show)
  {
    var key := KeyOf(x, i, show);
    assert "/name=" + key == "/" + ("name=" + key);
    assert ("name=" + key)[..5] == "name=" && ("name=" + key)[5..] == key;
  }

  lemma PathStarts(x: Tree, p: Position, show: Show)
    requires LeafAt(x, p)
    ensures PathTo(x, p, show) == "" || PathTo(x, p, show)[0] == '/'
  {
  }

  /** A path that can be read gives the keys it was made from. */
  lemma {:induction false} PathGivesKeys(x: Tree, p: Position, show: Show)
    requires LeafAt(x, p) && Readable(x, p, show)
    ensures KeysIn(PathTo(x, p, show)) == KeysTo(x, p, show)
    decreases |p|
  {
    hide Piece, KeyOf, KeysIn, WithoutName, HasKey;
    if p == [] {
      NoKeys();
    } else {
      var c, key := Children(x)[p[0]], KeyOf(x, p[0], show);
      var rest := PathTo(c, p[1..], show);
      var piece := if x.Array? && HasKey(x.items[p[0]], "name") then "name=" + key else key;
      PathGivesKeys(c, p[1..], show);
      PieceIs(x, p[0], show);
      PathStarts(c, p[1..], show);
      KeysInCons(piece, rest);
    }
  }

  lemma NoKeys()
    ensures KeysIn("") == []
  {
  }

  /** So the path `inject` reports for a leaf leads `recursive_get` back to it. */
  lemma ReportedPathFindsLeaf(x: Tree, p: Position, show: Show)
    requires Addressable(x) && LeafAt(x, p) && Readable(x, p, show)
    requires forall s :: show(Str(s)) == s
    ensures RecursiveGet(x, KeysIn(PathTo(x, p, show))) == Leaf(x, p)
  {
    PathGivesKeys(x, p, show);
    GetFindsLeaf(x, p, show);
  }
}
