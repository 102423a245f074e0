/** Model addressing: how `model(name)` turns `@module/rest` into a load path. */
module Models {
  import opened Errors
  import opened Seqs
  import opened Paths
  import opened Modules
  import opened Collaborators
  import opened AppSettings

  /** `name.indexOf('@') === 0`. */
  predicate IsNamespaced(name: string) {
    FirstIndex(name, '@') == 0
  }

  /** `s.substr(1)`. */
  function Substr1(s: string): string {
    if |s| == 0 then "" else s[1..]
  }

  /** `name.split('/').shift().substr(1)`: the module segment of a namespaced name. */
  function ModuleSegment(name: string): string {
    Substr1(Split(name, '/')[0])
  }

  /** The segments after the first, joined again with '/'. */
  function Remainder(name: string): string {
    Join(Split(name, '/')[1..], '/')
  }

  /**
   * The name `model` requires and caches under: a namespaced name is rewritten against its
   * module's model path, any other name is used as it is.
   */
  function LoadPath(reg: Registry, name: string, host: Host): (r: Result<string>)
    ensures !IsNamespaced(name) ==> r == Success(name)
    ensures r.Failure? <==> IsNamespaced(name) && ModuleSegment(name) !in reg.entries
    ensures r.Failure? ==> r.error == UnregisteredModule(ModuleSegment(name))
  {
    if IsNamespaced(name) then
      var m := ModuleSegment(name);
      if m in reg.entries then Success(host.join(host.modelPath(reg.entries[m]), Remainder(name)))
      else Failure(UnregisteredModule(m))
    else Success(name)
  }

  /** A name that does not start with '@' is loaded as it is. */
  lemma PlainNameUnchanged(reg: Registry, name: string, host: Host)
    requires |name| == 0 || name[0] != '@'
    ensures LoadPath(reg, name, host) == Success(name)
  {
  }

  /**
   * `@m/rest` with `m` free of '/' addresses `rest` under module `m`'s model path, and fails
   * naming `m` when no module of that name is registered.
   */
  lemma LoadPathNamespaced(reg: Registry, m: string, rest: string, host: Host)
    requires '/' !in m
    ensures LoadPath(reg, "@" + m + "/" + rest, host) ==
      if m in reg.entries then Success(host.join(host.modelPath(reg.entries[m]), rest))
      else Failure(UnregisteredModule(m))
  {
    var head := "@" + m;
    assert "@" + m + "/" + rest == head + ['/'] + rest;
    SplitAfter(head, rest, '/');
    JoinSplit(rest, '/');
    assert head[1..] == m;
  }

  /** `@m` without any '/' addresses module `m`'s model path joined with the empty remainder. */
  lemma LoadPathModuleOnly(reg: Registry, m: string, host: Host)
    requires '/' !in m
    ensures LoadPath(reg, "@" + m, host) ==
      if m in reg.entries then Success(host.join(host.modelPath(reg.entries[m]), ""))
      else Failure(UnregisteredModule(m))
  {
    SplitFree("@" + m, '/');
    assert ("@" + m)[1..] == m;
  }

  /**
   * Every namespaced name has one of the two shapes above: the module segment is free of '/'
   * and, with the remainder, rebuilds the name.
   */
  lemma NamespacedShape(name: string)
    requires IsNamespaced(name)
    ensures '/' !in ModuleSegment(name)
    ensures name == "@" + ModuleSegment(name) + (if '/' in name then "/" + Remainder(name) else "")
  {
    var i := FirstIndex(name, '/');
    if i == -1 {
      ShapeWithoutSlash(name);
    } else {
      assert name == name[..i] + ['/'] + name[i + 1..];
      ShapeWithSlash(name, name[..i], name[i + 1..]);
    }
  }

  /** A namespaced name without '/' is '@' followed by its module segment. */
  lemma ShapeWithoutSlash(name: string)
    requires |name| >= 1 && name[0] == '@' && '/' !in name
    ensures '/' !in ModuleSegment(name) && name == "@" + ModuleSegment(name)
  {
    SplitFree(name, '/');
    assert name == [name[0]] + name[1..];
  }

  /** A namespaced name cut at its first '/' is '@', the module segment, '/' and the remainder. */
  lemma ShapeWithSlash(name: string, a: string, b: string)
    requires name == a + ['/'] + b
    requires |a| >= 1 && a[0] == '@' && '/' !in a
    ensures '/' !in ModuleSegment(name)
    ensures name == "@" + ModuleSegment(name) + "/" + Remainder(name)
  {
    SplitAfter(a, b, '/');
    JoinSplit(b, '/');
    assert (Split(a + ['/'] + b, '/'))[1..] == Split(b, '/');
    assert a == [a[0]] + a[1..];
  }

  /** An instance `new ModelClass({ knex })`; its identity is the object's. */
  class ModelInstance {
    const source: string   // the path `require` loaded the class from
    const knex: Setting    // the handle it was constructed with

    constructor (source: string, knex: Setting)
      ensures this.source == source && this.knex == knex
    {
      this.source := source;
      this.knex := knex;
    }
  }
}
