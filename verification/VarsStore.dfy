/** Rotating the secrets of a BOSH vars store
    (manifests/cf-manifest/scripts/rotate-vars-store-secrets.rb). */
module VarsStore {
  import opened Collections
  import opened Wrappers

  datatype Var = Var(name: string, kind: string, isCa: bool)

  datatype Secret = BlankCert | Secret(yaml: string)

  type Store = map<string, Secret>

  /** One call of `rotate_secret`. */
  datatype Pass = Pass(kind: string, isCa: bool)

  datatype Options = Options(ca: bool, leaf: bool, passwords: bool, rsa: bool, ssh: bool,
                             only: Option<seq<string>>, preserve: seq<string>, delete: bool)

  predicate EndsOld(name: string) { |name| >= 4 && name[|name| - 4..] == "_old" }

  function Old(name: string): (r: string)
    ensures EndsOld(r) && r[..|r| - 4] == name
  {
    name + "_old"
  }

  lemma OldOf(name: string)
    requires EndsOld(name)
    ensures Old(name[..|name| - 4]) == name
  {
  }

  /** `name.gsub(/_old$/, "")`: every "_old" before a line's end goes. */
  function BaseName(name: string): string {
    if name == "" then ""
    else if |name| >= 4 && name[..4] == "_old" && (|name| == 4 || name[4] == '\n') then BaseName(name[4..])
    else [name[0]] + BaseName(name[1..])
  }

  /** For a name on one line: the suffix goes, once. */
  lemma {:induction false} BaseNameStripsOnce(name: string)
    requires OneLine(name)
    ensures BaseName(name) == if EndsOld(name) then name[..|name| - 4] else name
  {
    if name != "" {
      var rest := name[1..];
      if |name| >= 4 && name[..4] == "_old" && (|name| == 4 || name[4] == '\n') {
        assert name == "_old" && name[4..] == "";
      } else {
        BaseNameStripsOnce(rest);
        assert |name| > 4 ==> name[|name| - 4..] == rest[|rest| - 4..];
        assert |name| == 4 ==> name[|name| - 4..] == name[..4];
        if |name| > 4 && EndsOld(name) {
          assert [name[0]] + rest[..|rest| - 4] == name[..|name| - 4];
        } else {
          assert [name[0]] + rest == name;
        }
      }
    }
  }

  function Names(vars: seq<Var>): set<string> { set v | v in vars :: v.name }

  /** The variables a set of passes rotates. */
  function Chosen(vars: seq<Var>, passes: set<Pass>): set<string> {
    set v | v in vars && !EndsOld(v.name) && Pass(v.kind, v.isCa) in passes :: v.name
  }

  // ---------------------------------------------------------------- what a rotation does

  /** `n` takes the value of the chosen name it is the `_old` of. */
  predicate Arrives(names: set<string>, chosen: set<string>, store: Store, n: string) {
    EndsOld(n) && n in names && n[..|n| - 4] in chosen && n[..|n| - 4] in store
  }

  /** Every chosen name leaves; its value goes to its `_old` name if that is a variable too.
      All at once: no order of variables or passes is involved. */
  function Moved(names: set<string>, chosen: set<string>, store: Store): Store
    requires forall n :: n in chosen ==> !EndsOld(n)
  {
    map n | n in store.Keys + names && (Arrives(names, chosen, store, n) || (n in store && n !in chosen)) ::
      if Arrives(names, chosen, store, n) then store[n[..|n| - 4]] else store[n]
  }

  lemma MovedAt(names: set<string>, chosen: set<string>, store: Store, n: string)
    requires forall n :: n in chosen ==> !EndsOld(n)
    ensures n in Moved(names, chosen, store) <==> Arrives(names, chosen, store, n) || (n in store && n !in chosen)
    ensures Arrives(names, chosen, store, n) ==> Moved(names, chosen, store)[n] == store[n[..|n| - 4]]
    ensures !Arrives(names, chosen, store, n) && n in store && n !in chosen ==> Moved(names, chosen, store)[n] == store[n]
    ensures !EndsOld(n) ==> !Arrives(names, chosen, store, n)
  {
    hide EndsOld;
  }

  /** Two rotations over the same variables are one rotation of both choices. */
  lemma MovedTwice(names: set<string>, a: set<string>, b: set<string>, store: Store)
    requires forall n :: n in a + b ==> !EndsOld(n)
    ensures Moved(names, b, Moved(names, a, store)) == Moved(names, a + b, store)
  {
    hide Moved, Arrives;
    var once := Moved(names, a, store);
    forall n
      ensures n in Moved(names, b, once) <==> n in Moved(names, a + b, store)
      ensures n in Moved(names, b, once) ==> Moved(names, b, once)[n] == Moved(names, a + b, store)[n]
    {
      MovedAt(names, a, store, n);
      MovedAt(names, b, once, n);
      MovedAt(names, a + b, store, n);
      ArrivesOnce(names, a, b, store, n);
    }
  }

  lemma ArrivesOnce(names: set<string>, a: set<string>, b: set<string>, store: Store, n: string)
    requires forall n :: n in a + b ==> !EndsOld(n)
    ensures var once := Moved(names, a, store);
            && (Arrives(names, a + b, store, n) <==> Arrives(names, a, store, n) || Arrives(names, b, once, n))
            && (Arrives(names, b, once, n) ==> once[n[..|n| - 4]] == store[n[..|n| - 4]])
  {
    hide Moved, EndsOld;
    if EndsOld(n) {
      OldIsLong(n);
      MovedAt(names, a, store, n[..|n| - 4]);
    }
  }

  lemma OldIsLong(n: string)
    requires EndsOld(n)
    ensures |n| >= 4
  {
  }

  method RotateSecret(vars: seq<Var>, store: Store, kind: string, isCa: bool) returns (out: Store)
    ensures out == Moved(Names(vars), Chosen(vars, {Pass(kind, isCa)}), store)
  {
    out := store;
    var varNames := Names(vars);
    ghost var passes := {Pass(kind, isCa)};
    assert Chosen(vars[..0], passes) == {};
    assert Moved(varNames, {}, store) == store;
    for i := 0 to |vars|
      invariant out == Moved(varNames, Chosen(vars[..i], passes), store)
    {
      var v := vars[i];
      ghost var done := Chosen(vars[..i], passes);
      assert vars[..i + 1] == vars[..i] + [v];
      if !EndsOld(v.name) && v.kind == kind && v.isCa == isCa {
        assert Chosen(vars[..i + 1], passes) == done + {v.name};
        MovedTwice(varNames, done, {v.name}, store);
        OneMoved(varNames, v.name, out);
        if v.name in out {
          if Old(v.name) in varNames {
            var value := out[v.name];
            out := out - {v.name};
            out := out[Old(v.name) := value];
          } else {
            out := out - {v.name};
          }
        }
      } else {
        assert Chosen(vars[..i + 1], passes) == done;
      }
    }
    assert vars[..|vars|] == vars;
  }

  /** The loop's body is the rotation of one name. */
  lemma OneMoved(names: set<string>, name: string, store: Store)
    requires !EndsOld(name)
    ensures name !in store ==> Moved(names, {name}, store) == store
    ensures name in store && Old(name) !in names ==> Moved(names, {name}, store) == store - {name}
    ensures name in store && Old(name) in names ==>
              Moved(names, {name}, store) == (store - {name})[Old(name) := store[name]]
  {
    forall n ensures Arrives(names, {name}, store, n) <==> n == Old(name) && n in names && name in store {
      if EndsOld(n) {
        OldOf(n);
      }
    }
  }

  // ---------------------------------------------------------------- deleting the old ones

  /** The last variable of that name: the one whose turn in the loop comes last. */
  function Deciding(vars: seq<Var>, name: string): (r: Option<Var>)
    ensures r.Some? ==> r.value in vars && r.value.name == name
    ensures r.None? ==> name !in Names(vars)
  {
    if vars == [] then None
    else if vars[|vars| - 1].name == name then Some(vars[|vars| - 1])
    else Deciding(vars[..|vars| - 1], name)
  }

  /** Old certificates turn blank, whether or not they were there; other old variables go. */
  function Deleted(vars: seq<Var>, store: Store): Store {
    map n | n in store.Keys + Names(vars)
            && (if EndsOld(n) && n in Names(vars) then Deciding(vars, n).value.kind == "certificate" else n in store) ::
      if EndsOld(n) && n in Names(vars) then BlankCert else store[n]
  }

  method DeleteOld(vars: seq<Var>, store: Store) returns (out: Store)
    ensures out == Deleted(vars, store)
  {
    hide Deleted, Names;
    out := store;
    NoneDeleted(store);
    for i := 0 to |vars|
      invariant out == Deleted(vars[..i], store)
    {
      var v := vars[i];
      assert vars[..i + 1] == vars[..i] + [v];
      OneDeleted(vars[..i], v, store);
      if EndsOld(v.name) {
        if v.kind == "certificate" {
          out := out[v.name := BlankCert];
        } else {
          out := out - {v.name};
        }
      }
    }
    assert vars[..|vars|] == vars;
  }

  lemma NoneDeleted(store: Store)
    ensures Deleted([], store) == store
  {
  }

  /** The loop's body. */
  lemma OneDeleted(vars: seq<Var>, v: Var, store: Store)
    ensures Deleted(vars + [v], store)
         == if !EndsOld(v.name) then Deleted(vars, store)
            else if v.kind == "certificate" then Deleted(vars, store)[v.name := BlankCert]
            else Deleted(vars, store) - {v.name}
  {
    hide EndsOld, Deciding, Names;
    forall n ensures Deciding(vars + [v], n) == if n == v.name then Some(v) else Deciding(vars, n) {
      DecidingSnoc(vars, v, n);
    }
    NamesSnoc(vars, v);
  }

  lemma DecidingSnoc(vars: seq<Var>, v: Var, n: string)
    ensures Deciding(vars + [v], n) == if n == v.name then Some(v) else Deciding(vars, n)
  {
    assert (vars + [v])[..|vars|] == vars;
  }

  lemma NamesSnoc(vars: seq<Var>, v: Var)
    ensures Names(vars + [v]) == Names(vars) + {v.name}
  {
  }

  // ---------------------------------------------------------------- rotate

  predicate Wanted(o: Options, name: string) {
    (o.only.Some? ==> BaseName(name) in o.only.value) && name !in o.preserve
  }

  function Filtered(manifest: seq<Var>, o: Options): (r: seq<Var>)
    ensures forall v :: v in r <==> v in manifest && Wanted(o, v.name)
  {
    if manifest == [] then []
    else if Wanted(o, manifest[0].name) then [manifest[0]] + Filtered(manifest[1..], o)
    else Filtered(manifest[1..], o)
  }

  /** The passes the options ask for. */
  function Passes(o: Options): set<Pass> {
    (if o.ca then {Pass("certificate", true)} else {})
    + (if o.leaf then {Pass("certificate", false)} else {})
    + (if o.passwords then {Pass("password", false)} else {})
    + (if o.rsa then {Pass("rsa", false)} else {})
    + (if o.ssh then {Pass("ssh", false)} else {})
  }

  function Rotated(manifest: seq<Var>, store: Store, o: Options): Store {
    var vars := Filtered(manifest, o);
    if o.delete then Deleted(vars, store)
    else Moved(Names(vars), Chosen(vars, Passes(o)), store)
  }

  /** The program's five calls come to one rotation of everything they choose. */
  method RotateInPasses(vars: seq<Var>, store: Store, o: Options) returns (out: Store)
    ensures out == Moved(Names(vars), Chosen(vars, Passes(o)), store)
  {
    hide *;
    PassesAre(o);
    out := store;
    ghost var done: set<Pass> := {};
    NoneChosen(vars, store);
    if o.ca {
      out := RotateSecret(vars, out, "certificate", true);
      done := OnePass(vars, done, Pass("certificate", true), store);
    }
    if o.leaf {
      out := RotateSecret(vars, out, "certificate", false);
      done := OnePass(vars, done, Pass("certificate", false), store);
    }
    if o.passwords {
      out := RotateSecret(vars, out, "password", false);
      done := OnePass(vars, done, Pass("password", false), store);
    }
    if o.rsa {
      out := RotateSecret(vars, out, "rsa", false);
      done := OnePass(vars, done, Pass("rsa", false), store);
    }
    if o.ssh {
      out := RotateSecret(vars, out, "ssh", false);
      done := OnePass(vars, done, Pass("ssh", false), store);
    }
    assert done == Passes(o);
  }

  lemma PassesAre(o: Options)
    ensures forall p :: p in Passes(o) <==>
              || (p == Pass("certificate", true) && o.ca) || (p == Pass("certificate", false) && o.leaf)
              || (p == Pass("password", false) && o.passwords)
              || (p == Pass("rsa", false) && o.rsa) || (p == Pass("ssh", false) && o.ssh)
  {
  }

  /** `rotate`: filter the manifest's variables, then delete or rotate. */
  method Rotate(manifest: seq<Var>, store: Store, o: Options) returns (out: Store)
    ensures out == Rotated(manifest, store, o)
  {
    var vars := Filtered(manifest, o);
    if o.delete {
      out := DeleteOld(vars, store);
    } else {
      out := RotateInPasses(vars, store, o);
    }
  }

  lemma OnePass(vars: seq<Var>, done: set<Pass>, p: Pass, store: Store) returns (more: set<Pass>)
    ensures more == done + {p}
    ensures forall n :: n in Chosen(vars, done) + Chosen(vars, {p}) + Chosen(vars, more) ==> !EndsOld(n)
    ensures Moved(Names(vars), Chosen(vars, {p}), Moved(Names(vars), Chosen(vars, done), store))
         == Moved(Names(vars), Chosen(vars, more), store)
  {
    hide Moved;
    more := done + {p};
    assert Chosen(vars, more) == Chosen(vars, done) + Chosen(vars, {p});
    MovedTwice(Names(vars), Chosen(vars, done), Chosen(vars, {p}), store);
  }

  /** Passes one after another, first to last. */
  function RunPasses(vars: seq<Var>, passes: seq<Pass>, store: Store): Store {
    if passes == [] then store
    else RunPasses(vars, passes[1..], Moved(Names(vars), Chosen(vars, {passes[0]}), store))
  }

  /** In whatever order, and however often, they are given. */
  lemma {:induction false} InOrder(vars: seq<Var>, passes: seq<Pass>, store: Store)
    ensures RunPasses(vars, passes, store) == Moved(Names(vars), Chosen(vars, SetOf(passes)), store)
    decreases |passes|
  {
    hide Moved;
    if passes == [] {
      NoneChosen(vars, store);
      assert SetOf(passes) == {};
    } else {
      var a, b := Chosen(vars, {passes[0]}), Chosen(vars, SetOf(passes[1..]));
      InOrder(vars, passes[1..], Moved(Names(vars), a, store));
      MovedTwice(Names(vars), a, b, store);
      assert Chosen(vars, SetOf(passes)) == a + b by {
        assert SetOf(passes) == {passes[0]} + SetOf(passes[1..]);
      }
    }
  }

  lemma NoneChosen(vars: seq<Var>, store: Store)
    ensures Chosen(vars, {}) == {}
    ensures Moved(Names(vars), {}, store) == store
  {
  }

  /** So passes commute: only which ones run matters. */
  lemma PassOrderIrrelevant(vars: seq<Var>, p: seq<Pass>, q: seq<Pass>, store: Store)
    requires SetOf(p) == SetOf(q)
    ensures RunPasses(vars, p, store) == RunPasses(vars, q, store)
  {
    InOrder(vars, p, store);
    InOrder(vars, q, store);
  }

  /** Rotating does not depend on the order of the manifest's variables; deleting does not
      either if each name has one type. */
  lemma VariableOrderIrrelevant(m: seq<Var>, m': seq<Var>, store: Store, o: Options)
    requires SetOf(m) == SetOf(m')
    requires o.delete ==> forall v, w :: v in m && w in m && v.name == w.name ==> v.kind == w.kind
    ensures Rotated(m, store, o) == Rotated(m', store, o)
  {
    hide Wanted, EndsOld, Moved, Deleted, Deciding, Names, Chosen;
    var f, f' := Filtered(m, o), Filtered(m', o);
    assert forall v :: v in m <==> v in SetOf(m);
    assert forall v :: v in m' <==> v in SetOf(m');
    SameVariables(f, f');
    if o.delete {
      forall n | n in Names(f) ensures Deciding(f, n).value.kind == Deciding(f', n).value.kind {
        var v, w := Deciding(f, n).value, Deciding(f', n).value;
        assert v in m && w in m;
      }
      SameDeleted(f, f', store);
    } else {
      assert Chosen(f, Passes(o)) == Chosen(f', Passes(o));
    }
  }

  lemma SameDeleted(f: seq<Var>, f': seq<Var>, store: Store)
    requires Names(f) == Names(f')
    requires forall n :: n in Names(f) ==> Deciding(f, n).value.kind == Deciding(f', n).value.kind
    ensures Deleted(f, store) == Deleted(f', store)
  {
    hide EndsOld, Names, Deciding;
  }

  lemma SameVariables(f: seq<Var>, f': seq<Var>)
    requires forall v :: v in f <==> v in f'
    ensures Names(f) == Names(f')
    ensures forall passes :: Chosen(f, passes) == Chosen(f', passes)
  {
  }

  /** With the same options a second run changes nothing. */
  lemma RotateTwice(manifest: seq<Var>, store: Store, o: Options)
    ensures Rotated(manifest, Rotated(manifest, store, o), o) == Rotated(manifest, store, o)
  {
    var vars := Filtered(manifest, o);
    if o.delete {
      assert Deleted(vars, Deleted(vars, store)) == Deleted(vars, store);
    } else {
      var c := Chosen(vars, Passes(o));
      MovedTwice(Names(vars), c, c, store);
      assert c + c == c;
    }
  }

  /** No value appears that was not there, blank certificates in a deletion apart. */
  lemma NothingInvented(manifest: seq<Var>, store: Store, o: Options)
    ensures Rotated(manifest, store, o).Values <= store.Values + if o.delete then {BlankCert} else {}
  {
  }

  /** The entries no option lets a run touch. */
  predicate Spared(o: Options, name: string) {
    name in o.preserve || (o.only.Some? && BaseName(name) !in o.only.value)
  }

  /** A name is touched only through itself: sparing `x` alone or `x_old` alone spares it,
      whatever happens to the other. */
  lemma SparedKeepValue(manifest: seq<Var>, store: Store, o: Options, n: string)
    requires Spared(o, n) || n !in Names(manifest)
    ensures n in Rotated(manifest, store, o) <==> n in store
    ensures n in store ==> Rotated(manifest, store, o)[n] == store[n]
  {
    assert n !in Names(Filtered(manifest, o));
  }

  lemma WantedIff(o: Options, name: string)
    ensures Wanted(o, name) <==> !Spared(o, name)
  {
  }

  /** The options name the variable's type: certificates by whether they are CAs, and the others
      only if they are not marked as CAs. */
  predicate AskedFor(o: Options, v: Var) {
    || (v.kind == "certificate" && v.isCa && o.ca)
    || (v.kind == "certificate" && !v.isCa && o.leaf)
    || (v.kind == "password" && !v.isCa && o.passwords)
    || (v.kind == "rsa" && !v.isCa && o.rsa)
    || (v.kind == "ssh" && !v.isCa && o.ssh)
  }

  lemma AskedForIff(o: Options, v: Var)
    ensures AskedFor(o, v) <==> Pass(v.kind, v.isCa) in Passes(o)
  {
  }

  lemma EndsOldIff(n: string)
    ensures EndsOld(n) <==> exists m :: n == m + "_old"
    ensures forall m :: n == m + "_old" ==> n[..|n| - 4] == m
  {
    if EndsOld(n) {
      assert n == n[..|n| - 4] + "_old";
    }
    if m :| n == m + "_old" {
      assert n[|n| - 4..] == "_old";
    }
  }

  /** The variables a run works on. */
  ghost predicate InScope(manifest: seq<Var>, o: Options, n: string) {
    !Spared(o, n) && exists v :: v in manifest && v.name == n
  }

  /** The names whose secrets a run takes away. */
  ghost predicate Leaves(manifest: seq<Var>, o: Options, n: string) {
    && !Spared(o, n) && (exists v :: v in manifest && v.name == n && AskedFor(o, v))
    && !exists m :: n == m + "_old"
  }

  lemma ScopeIs(manifest: seq<Var>, o: Options, n: string)
    ensures n in Names(Filtered(manifest, o)) <==> InScope(manifest, o, n)
    ensures n in Chosen(Filtered(manifest, o), Passes(o)) <==> Leaves(manifest, o, n)
  {
    hide Spared, Wanted, AskedFor, Passes, EndsOld;
    WantedIff(o, n);
    EndsOldIff(n);
    forall v | v in manifest ensures AskedFor(o, v) <==> Pass(v.kind, v.isCa) in Passes(o) {
      AskedForIff(o, v);
    }
  }

  /** Everything a rotation does, name by name: `m + "_old"` takes the secret of an `m` that leaves,
      if it is in scope; every other name keeps what it has, unless it leaves. */
  lemma RotatedAt(manifest: seq<Var>, store: Store, o: Options, n: string)
    requires !o.delete
    ensures var r := Rotated(manifest, store, o);
            && (forall m :: n == m + "_old" && m in store && Leaves(manifest, o, m) && InScope(manifest, o, n) ==>
                  n in r && r[n] == store[m])
            && ((forall m :: n == m + "_old" && m in store && Leaves(manifest, o, m) ==> !InScope(manifest, o, n)) ==>
                  (n in r <==> n in store && !Leaves(manifest, o, n)) && (n in r ==> r[n] == store[n]))
  {
    hide Spared, Wanted, AskedFor, Passes, InScope, Leaves, Names, Chosen;
    ScopeIs(manifest, o, n);
    EndsOldIff(n);
    if EndsOld(n) {
      ScopeIs(manifest, o, n[..|n| - 4]);
    }
  }

  /** What happens to a rotated secret: its name is free for a new value, and the old value
      is at its `_old` name exactly when that is a variable that is not spared; otherwise it is
      gone from both. */
  lemma RotatedSecret(manifest: seq<Var>, store: Store, o: Options, v: Var)
    requires !o.delete && v in manifest && !Spared(o, v.name) && AskedFor(o, v) && v.name in store
    requires !exists m :: v.name == m + "_old"
    ensures var r, old_ := Rotated(manifest, store, o), v.name + "_old";
            && v.name !in r
            && if !Spared(o, old_) && exists w :: w in manifest && w.name == old_
               then old_ in r && r[old_] == store[v.name]
               else (old_ in r <==> old_ in store) && (old_ in r ==> r[old_] == store[old_])
  {
    hide Spared, AskedFor, Rotated;
    var old_ := v.name + "_old";
    RotatedAt(manifest, store, o, v.name);
    RotatedAt(manifest, store, o, old_);
    assert Leaves(manifest, o, v.name);
    assert forall m :: old_ == m + "_old" ==> m == v.name by {
      EndsOldIff(old_);
    }
  }

  /** Asking for `x` alone, by its own name, is enough to keep its old value: with `x_old` in the
      manifest and neither preserved, `x` is free and `x_old` holds what `x` held. */
  lemma AskingForOneKeepsIt(manifest: seq<Var>, store: Store, o: Options, v: Var, w: Var)
    requires !o.delete && v in manifest && w in manifest && w.name == v.name + "_old" && AskedFor(o, v) && v.name in store
    requires OneLine(v.name) && !(exists m :: v.name == m + "_old")
    requires o.only.Some? ==> v.name in o.only.value
    requires v.name !in o.preserve && w.name !in o.preserve
    ensures var r := Rotated(manifest, store, o);
            v.name !in r && w.name in r && r[w.name] == store[v.name]
  {
    hide Rotated, AskedFor, BaseName, EndsOld;
    OldIsSpared(v.name, o);
    RotatedSecret(manifest, store, o, v);
  }

  lemma OldIsSpared(x: string, o: Options)
    requires OneLine(x)
    ensures !(exists m :: x == m + "_old") ==> (Spared(o, x) <==> x in o.preserve || (o.only.Some? && x !in o.only.value))
    ensures Spared(o, x + "_old") <==> x + "_old" in o.preserve || (o.only.Some? && x !in o.only.value)
  {
    hide BaseName, EndsOld;
    BaseNameStripsOnce(x);
    EndsOldIff(x);
    BaseNameStripsOnce(x + "_old");
    EndsOldIff(x + "_old");
  }

  // ---------------------------------------------------------------- deletion, name by name

  lemma {:induction false} FilteredSnoc(manifest: seq<Var>, v: Var, o: Options)
    ensures Filtered(manifest + [v], o) == Filtered(manifest, o) + if Wanted(o, v.name) then [v] else []
  {
    hide Wanted;
    if manifest == [] {
      assert manifest + [v] == [v] && [v][1..] == [];
    } else {
      assert (manifest + [v])[1..] == manifest[1..] + [v];
      FilteredSnoc(manifest[1..], v, o);
    }
  }

  lemma {:induction false} DecidingFiltered(manifest: seq<Var>, o: Options, n: string)
    requires Wanted(o, n)
    ensures Deciding(Filtered(manifest, o), n) == Deciding(manifest, n)
  {
    hide Wanted, Filtered;
    if manifest == [] {
      assert Filtered(manifest, o) == [] by {
        NothingFiltered(o);
      }
    } else {
      var most, last := manifest[..|manifest| - 1], manifest[|manifest| - 1];
      assert manifest == most + [last];
      DecidingFiltered(most, o, n);
      FilteredSnoc(most, last, o);
      DecidingSnoc(Filtered(most, o), last, n);
      assert Filtered(most, o) + [] == Filtered(most, o);
    }
  }

  lemma NothingFiltered(o: Options)
    ensures Filtered([], o) == []
  {
  }

  lemma {:induction false} DecidingIsLast(vars: seq<Var>, n: string, k: nat)
    requires k < |vars| && vars[k].name == n && forall j :: k < j < |vars| ==> vars[j].name != n
    ensures Deciding(vars, n) == Some(vars[k])
  {
    if k < |vars| - 1 {
      DecidingIsLast(vars[..|vars| - 1], n, k);
    }
  }

  /** Everything a deletion does, name by name: of a name `m + "_old"` in scope the last variable
      decides; a certificate turns blank, anything else goes. No other name is touched. */
  lemma DeletedAt(manifest: seq<Var>, store: Store, o: Options, n: string)
    requires o.delete
    ensures var r := Rotated(manifest, store, o);
            && (forall m, k: nat :: n == m + "_old" && !Spared(o, n) && IsLastNamed(manifest, k, n) ==>
                  if manifest[k].kind == "certificate" then n in r && r[n] == BlankCert else n !in r)
            && (!(InScope(manifest, o, n) && exists m :: n == m + "_old") ==>
                  (n in r <==> n in store) && (n in r ==> r[n] == store[n]))
  {
    hide Spared, Wanted, InScope, Filtered, Deciding, Names, EndsOld;
    ScopeIs(manifest, o, n);
    EndsOldIff(n);
    forall m, k: nat | n == m + "_old" && !Spared(o, n) && IsLastNamed(manifest, k, n)
      ensures InScope(manifest, o, n) && Deciding(Filtered(manifest, o), n) == Some(manifest[k])
    {
      WantedIff(o, n);
      DecidingFiltered(manifest, o, n);
      DecidingIsLast(manifest, n, k);
      assert manifest[k] in manifest;
      ScopeHas(manifest, o, n, manifest[k]);
    }
  }

  /** Asking for `x` alone is enough to delete its old secret. */
  lemma AskingForOneDeletesIt(manifest: seq<Var>, store: Store, o: Options, x: string, k: nat)
    requires o.delete && OneLine(x) && IsLastNamed(manifest, k, x + "_old")
    requires o.only.Some? ==> x in o.only.value
    requires x + "_old" !in o.preserve
    ensures var r := Rotated(manifest, store, o);
            if manifest[k].kind == "certificate" then x + "_old" in r && r[x + "_old"] == BlankCert
            else x + "_old" !in r
  {
    hide Rotated, IsLastNamed, BaseName;
    OldIsSpared(x, o);
    DeletedAt(manifest, store, o, x + "_old");
  }

  ghost predicate IsLastNamed(vars: seq<Var>, k: nat, n: string) {
    k < |vars| && vars[k].name == n && forall j :: k < j < |vars| ==> vars[j].name != n
  }

  lemma ScopeHas(manifest: seq<Var>, o: Options, n: string, v: Var)
    requires v in manifest && v.name == n && !Spared(o, n)
    ensures InScope(manifest, o, n)
  {
  }
}
