/** The module registry `_modules`: a name-indexed table that remembers first-insertion order. */
module Modules {
  import opened Errors
  import opened Seqs

  /** A registered module as the application object sees it after `_initModules` set it up. */
  datatype Module = Module(
    name: string,                   // the registry key its `getName()` turned into
    resolvedPath: Option<string>,   // None for the synthesised main module
    dirname: string)

  /**
   * `entries` is what `this._modules[name]` reads; `order` is the order `for (name in
   * this._modules)` visits the keys in: the order of first insertion.
   */
  datatype Registry = Registry(entries: map<string, Module>, order: seq<string>) {
    static function Empty(): Registry {
      Registry(map[], [])
    }

    ghost predicate Valid() {
      && (forall i, j :: 0 <= i < j < |order| ==> order[i] != order[j])
      && (forall n :: n in entries <==> n in order)
      && (forall n :: n in entries ==> entries[n].name == n)
    }

    /**
     * `this._modules[m.getName()] = m`: a new name is appended to the iteration order, an
     * existing one gets the new module but keeps its place.
     */
    function Register(m: Module): (r: Registry)
      ensures Valid() ==> r.Valid()
    {
      Registry(entries[m.name := m], if m.name in entries then order else order + [m.name])
    }
  }

  /** Registers the modules one after another, starting from `reg`. */
  function RegisterAll(reg: Registry, ms: seq<Module>): Registry
    decreases |ms|
  {
    if ms == [] then reg else RegisterAll(reg, ms[..|ms| - 1]).Register(ms[|ms| - 1])
  }

  /** Registering one more module after a sequence is one more `Register` step. */
  lemma RegisterAllSnoc(reg: Registry, ms: seq<Module>, m: Module)
    ensures RegisterAll(reg, ms + [m]) == RegisterAll(reg, ms).Register(m)
  {
    assert (ms + [m])[..|ms + [m]| - 1] == ms;
  }

  lemma RegisterAllOne(reg: Registry, m: Module)
    ensures RegisterAll(reg, [m]) == reg.Register(m)
  {
    assert [m][..0] == [];
  }

  function Names(ms: seq<Module>): seq<string> {
    seq(|ms|, i requires 0 <= i < |ms| => ms[i].name)
  }

  /**
   * The distinct elements of `s` in the order of their first occurrence: no repeats, exactly
   * the elements of `s`, and ordered by where each first occurs.
   */
  function Dedup(s: seq<string>): (r: seq<string>)
    ensures forall i, j :: 0 <= i < j < |r| ==> r[i] != r[j]
    ensures forall x :: x in r <==> x in s
    ensures forall i, j :: 0 <= i < j < |r| ==> FirstIndex(s, r[i]) < FirstIndex(s, r[j])
    decreases |s|
  {
    if s == [] then []
    else
      var q, x := s[..|s| - 1], s[|s| - 1];
      var p := Dedup(q);
      assert s == q + [x];
      forall y | y in p ensures FirstIndex(s, y) == FirstIndex(q, y) < |q| {
        FirstIndexSnoc(q, x, y);
      }
      if x in p then p
      else
        assert FirstIndex(s, x) == |q| by {
          assert s[|q|] == x && x !in s[..|q|];
        }
        p + [x]
  }

  /** The position of the last module named `k`, or -1 when no module has that name. */
  function LastNamed(ms: seq<Module>, k: string): (r: int)
    ensures -1 <= r < |ms|
    ensures 0 <= r ==> ms[r].name == k
    ensures forall j :: r < j < |ms| ==> ms[j].name != k
    decreases |ms|
  {
    if ms == [] then -1
    else if ms[|ms| - 1].name == k then |ms| - 1
    else LastNamed(ms[..|ms| - 1], k)
  }

  /** The first element of a non-empty sequence is the first element of its deduplication. */
  lemma {:induction false} DedupHead(s: seq<string>)
    requires |s| >= 1
    ensures |Dedup(s)| >= 1 && Dedup(s)[0] == s[0]
    decreases |s|
  {
    if |s| > 1 {
      DedupHead(s[..|s| - 1]);
    }
  }

  /** Registering a sequence of modules keeps the registry well formed. */
  lemma {:induction false} RegisterAllValid(reg: Registry, ms: seq<Module>)
    requires reg.Valid()
    ensures RegisterAll(reg, ms).Valid()
    decreases |ms|
  {
    if ms != [] {
      RegisterAllValid(reg, ms[..|ms| - 1]);
    }
  }

  /**
   * Iteration order after registering `ms` into an empty registry: every name once, in the
   * order of its first registration; a duplicate name never moves.
   */
  lemma {:induction false} RegisterAllOrder(ms: seq<Module>)
    ensures RegisterAll(Registry.Empty(), ms).order == Dedup(Names(ms))
    decreases |ms|
  {
    if ms != [] {
      var p, m := ms[..|ms| - 1], ms[|ms| - 1];
      assert ms == p + [m];
      var reg := RegisterAll(Registry.Empty(), p);
      RegisterAllOrder(p);
      RegisterAllValid(Registry.Empty(), p);
      RegisterAllSnoc(Registry.Empty(), p, m);
      assert RegisterAll(Registry.Empty(), ms) == reg.Register(m);
      NamesSnoc(p, m);
      assert Names(ms) == Names(p) + [m.name];
      DedupSnoc(Names(p), m.name);
      assert (m.name in reg.entries) == (m.name in Dedup(Names(p)));
    }
  }

  lemma NamesSnoc(ms: seq<Module>, m: Module)
    ensures Names(ms + [m]) == Names(ms) + [m.name]
  {
  }

  lemma DedupSnoc(s: seq<string>, x: string)
    ensures Dedup(s + [x]) == if x in Dedup(s) then Dedup(s) else Dedup(s) + [x]
  {
    assert (s + [x])[..|s + [x]| - 1] == s;
  }

  /**
   * Contents after registering `ms` into an empty registry: exactly the names of `ms` are keys,
   * and each maps to the LAST module registered under it.
   */
  lemma {:induction false} RegisterAllEntries(ms: seq<Module>)
    ensures forall k :: k in RegisterAll(Registry.Empty(), ms).entries <==> LastNamed(ms, k) >= 0
    ensures forall k :: k in RegisterAll(Registry.Empty(), ms).entries ==>
      RegisterAll(Registry.Empty(), ms).entries[k] == ms[LastNamed(ms, k)]
    decreases |ms|
  {
    if ms != [] {
      RegisterAllEntries(ms[..|ms| - 1]);
    }
  }

  /** The module registered first is the first one `for...in` visits, and its name is a key. */
  lemma RegisteredFirst(first: Module, rest: seq<Module>)
    ensures var reg := RegisterAll(Registry.Empty(), [first] + rest);
      |reg.order| >= 1 && reg.order[0] == first.name && first.name in reg.entries
  {
    RegisterAllOrder([first] + rest);
    RegisterAllValid(Registry.Empty(), [first] + rest);
    DedupHead(Names([first] + rest));
  }
}
