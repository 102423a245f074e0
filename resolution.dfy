/** The modules `_initModules` creates: the synthesised main module and one per specifier. */
module Resolution {
  import opened Errors
  import opened JsValues
  import opened Config
  import opened Modules
  import opened Collaborators
  import opened Seqs

  /** The main module: named by `config.mainModuleName`, rooted at the application root. */
  function MainModule(cfg: map<string, Value>, root: string): (m: Module)
    ensures m.resolvedPath == None && m.dirname == root
    ensures Lookup(cfg, "mainModuleName").Str? ==> m.name == Lookup(cfg, "mainModuleName").s
  {
    Module(PropertyKey(Lookup(cfg, "mainModuleName")), None, root)
  }

  /**
   * The module built from a resolved path: its `dirname` is the path itself when that is a
   * directory and the path's parent otherwise.
   */
  function LoadedModule(resolved: string, host: Host): (m: Module)
    ensures m.resolvedPath == Some(resolved)
    ensures m.name == PropertyKey(host.moduleName(resolved))
    ensures host.isDirectory(resolved) ==> m.dirname == resolved
    ensures !host.isDirectory(resolved) ==> m.dirname == host.parentDir(resolved)
  {
    Module(
      PropertyKey(host.moduleName(resolved)),
      Some(resolved),
      if host.isDirectory(resolved) then resolved else host.parentDir(resolved))
  }

  /**
   * How many leading specifiers resolve (here: are resolved, required and constructed without
   * throwing); the loop stops at the first one that throws.
   */
  function ResolvedCount(root: string, specs: seq<string>, host: Host): (n: nat)
    ensures n <= |specs|
    ensures forall i :: 0 <= i < n ==> host.loadModule(root, specs[i]).Some?
    ensures n < |specs| ==> host.loadModule(root, specs[n]).None?
    decreases |specs|
  {
    if specs == [] || host.loadModule(root, specs[0]).None? then 0
    else 1 + ResolvedCount(root, specs[1..], host)
  }

  /** The modules `_initModules` constructs, in specifier order, up to the first failure. */
  function Resolved(root: string, specs: seq<string>, host: Host): (ms: seq<Module>)
    ensures |ms| <= |specs|
    ensures |ms| < |specs| ==> host.loadModule(root, specs[|ms|]).None?
    ensures forall i :: 0 <= i < |ms| ==> host.loadModule(root, specs[i]).Some?
    ensures forall i :: 0 <= i < |ms| ==> ms[i].resolvedPath == host.loadModule(root, specs[i])
    ensures forall i :: 0 <= i < |ms| ==> ms[i].name == PropertyKey(host.moduleName(host.loadModule(root, specs[i]).value))
    ensures forall i :: 0 <= i < |ms| && host.isDirectory(host.loadModule(root, specs[i]).value) ==>
      ms[i].dirname == host.loadModule(root, specs[i]).value
    ensures forall i :: 0 <= i < |ms| && !host.isDirectory(host.loadModule(root, specs[i]).value) ==>
      ms[i].dirname == host.parentDir(host.loadModule(root, specs[i]).value)
  {
    var n := ResolvedCount(root, specs, host);
    seq(n, i requires 0 <= i < n => LoadedModule(host.loadModule(root, specs[i]).value, host))
  }

  /** Everything `_initModules` registers, in order: the main module, then the resolved ones. */
  function Registrations(cfg: map<string, Value>, root: string, specs: seq<string>, host: Host): (ms: seq<Module>)
    ensures |ms| >= 1 && ms[0] == MainModule(cfg, root)
  {
    [MainModule(cfg, root)] + Resolved(root, specs, host)
  }

  /** The error `_initModules` ends with: the first specifier that does not resolve, if any. */
  function Unresolved(root: string, specs: seq<string>, host: Host): (r: Option<Error>)
    ensures r.Some? ==> r.value.ModuleFailed? && r.value.specifier in specs
    ensures r.None? <==> |Resolved(root, specs, host)| == |specs|
  {
    var n := ResolvedCount(root, specs, host);
    if n < |specs| then Some(ModuleFailed(specs[n])) else None
  }

  /**
   * Startup fails exactly when some specifier does not resolve, and it names the first one;
   * when it succeeds every specifier contributed a module.
   */
  lemma UnresolvedIsFirstFailure(root: string, specs: seq<string>, host: Host)
    ensures Unresolved(root, specs, host).None? <==> forall i :: 0 <= i < |specs| ==> host.loadModule(root, specs[i]).Some?
    ensures Unresolved(root, specs, host).None? ==> |Resolved(root, specs, host)| == |specs|
    ensures Unresolved(root, specs, host).Some? ==> exists i ::
      && 0 <= i < |specs|
      && Unresolved(root, specs, host) == Some(ModuleFailed(specs[i]))
      && host.loadModule(root, specs[i]).None?
      && (forall j :: 0 <= j < i ==> host.loadModule(root, specs[j]).Some?)
  {
    var n := ResolvedCount(root, specs, host);
    if n < |specs| {
      assert host.loadModule(root, specs[n]).None?;
    }
  }

  /** `done` holds the modules built from the first `|done|` specifiers, all of which resolved. */
  ghost predicate ResolvedPrefix(root: string, specs: seq<string>, host: Host, done: seq<Module>) {
    && |done| <= |specs|
    && forall j :: 0 <= j < |done| ==> host.loadModule(root, specs[j]).Some? && done[j] == LoadedModule(host.loadModule(root, specs[j]).value, host)
  }

  lemma ResolvedPrefixGrows(root: string, specs: seq<string>, host: Host, done: seq<Module>)
    requires ResolvedPrefix(root, specs, host, done)
    requires |done| < |specs| && host.loadModule(root, specs[|done|]).Some?
    ensures ResolvedPrefix(root, specs, host, done + [LoadedModule(host.loadModule(root, specs[|done|]).value, host)])
  {
  }

  /** Once the walk stops, at the end or at a specifier that does not resolve, it has built `Resolved`. */
  lemma ResolvedPrefixComplete(root: string, specs: seq<string>, host: Host, done: seq<Module>)
    requires ResolvedPrefix(root, specs, host, done)
    requires |done| == |specs| || host.loadModule(root, specs[|done|]).None?
    ensures done == Resolved(root, specs, host)
    ensures Unresolved(root, specs, host) == if |done| < |specs| then Some(ModuleFailed(specs[|done|])) else None
  {
  }

  /**
   * The loop of `_initModules`: registers `main`, then resolves, builds and registers one module
   * per specifier in order, stopping with an error at the first specifier that does not resolve
   * (the modules registered until then stay registered).
   */
  method RegisterResolved(start: Registry, main: Module, root: string, specs: seq<string>, host: Host) returns (reg: Registry, err: Option<Error>)
    requires start.Valid()
    ensures reg == RegisterAll(start, [main] + Resolved(root, specs, host))
    ensures err == Unresolved(root, specs, host)
    ensures reg.Valid()
  {
    reg := start.Register(main);
    ghost var seen: seq<Module> := [main];
    RegisterAllOne(start, main);
    for i := 0 to |specs|
      invariant |seen| == i + 1 && seen[0] == main
      invariant ResolvedPrefix(root, specs, host, seen[1..])
      invariant reg == RegisterAll(start, seen)
      invariant reg.Valid()
    {
      var resolved := host.loadModule(root, specs[i]);
      if resolved.None? {
        ResolvedPrefixComplete(root, specs, host, seen[1..]);
        HeadTail(seen);
        return reg, Some(ModuleFailed(specs[i]));
      }
      var m := LoadedModule(resolved.value, host);
      ResolvedPrefixGrows(root, specs, host, seen[1..]);
      TailSnoc(seen, m);
      RegisterAllSnoc(start, seen, m);
      reg := reg.Register(m);
      seen := seen + [m];
    }
    ResolvedPrefixComplete(root, specs, host, seen[1..]);
    HeadTail(seen);
    err := None;
  }
}
