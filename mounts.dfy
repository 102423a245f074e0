/** The middleware stack `_boot` builds with `this.use(...)`, one record per call. */
module Mounts {
  import opened Errors
  import opened JsValues
  import opened Config
  import opened Modules
  import opened Collaborators

  /** The middleware each `use` call mounts; library middleware appears as a tag. */
  datatype Handler =
    | RequestLogger(format: string)   // morgan
    | UrlEncodedBody(extended: bool)  // bodyParser.urlencoded
    | JsonBody                        // bodyParser.json
    | CookieParser
    | Static(dir: string)             // express.static
    | Session(secret: Value)          // express-session with resave and saveUninitialized on
    | Flash                           // connect-flash
    | Router(routes: Value)           // what a module's getRoutes() returned
    | NotFound                        // raises 'Not Found' with status 404
    | DevErrorHandler                 // renders the error with its details
    | ErrorHandler                    // renders the error with `error: {}`
  {
    predicate HandlesErrors() {
      DevErrorHandler? || ErrorHandler?
    }
  }

  /** One `use` call: the mount path, if one was given, and the middleware. */
  datatype Mount = Mount(path: Option<Value>, handler: Handler)

  /** `_initBaseMiddlewares`: five mounts, then session and flash unless `secret` is `false`. */
  function BaseMounts(root: string, secret: Value, host: Host): (r: seq<Mount>)
    ensures |r| == 7 <==> secret != Bool(false)
    ensures |r| == 5 <==> secret == Bool(false)
    ensures forall k :: 0 <= k < |r| ==> r[k].path.None? && !r[k].handler.HandlesErrors()
    ensures r[4].handler == Static(host.join(root, "public"))
  {
    [ Mount(None, RequestLogger("dev")),
      Mount(None, UrlEncodedBody(true)),
      Mount(None, JsonBody),
      Mount(None, CookieParser),
      Mount(None, Static(host.join(root, "public"))) ]
    + (if secret != Bool(false) then [Mount(None, Session(secret)), Mount(None, Flash)] else [])
  }

  /** The static mount of one module: its public directory at '/' + its name. */
  function StaticMount(name: string, entries: map<string, Module>, host: Host): Mount
    requires name in entries
  {
    Mount(Some(Str("/" + name)), Static(host.publicPath(entries[name])))
  }

  /** `_initStaticMiddlewares` over the names in iteration order, skipping the main module's name. */
  function StaticMounts(names: seq<string>, entries: map<string, Module>, mainName: Value, host: Host): (r: seq<Mount>)
    requires forall i :: 0 <= i < |names| ==> names[i] in entries
    ensures forall k :: 0 <= k < |r| ==> r[k].handler.Static? && r[k].path.Some?
    decreases |names|
  {
    if names == [] then []
    else
      var n := names[|names| - 1];
      StaticMounts(names[..|names| - 1], entries, mainName, host)
      + (if Str(n) == mainName then [] else [StaticMount(n, entries, host)])
  }

  /** How many of the names are not the main module's name (the `===` test of the source). */
  function NonMain(names: seq<string>, mainName: Value): nat
    decreases |names|
  {
    if names == [] then 0
    else NonMain(names[..|names| - 1], mainName) + (if Str(names[|names| - 1]) == mainName then 0 else 1)
  }

  /** `module.getRoutes()`. */
  function RoutesOf(m: Module, host: Host): Value {
    host.routes(m)
  }

  /** The route mount of one module: its routes at `config.basePath`. */
  function RouteMount(routes: Value, basePath: Value): Mount {
    Mount(Some(basePath), Router(routes))
  }

  /** `_initRoutes` over the names in iteration order, skipping falsy `getRoutes()`. */
  function RouteMounts(names: seq<string>, entries: map<string, Module>, basePath: Value, host: Host): (r: seq<Mount>)
    requires forall i :: 0 <= i < |names| ==> names[i] in entries
    ensures forall k :: 0 <= k < |r| ==> r[k].handler.Router? && Truthy(r[k].handler.routes) && r[k].path == Some(basePath)
    decreases |names|
  {
    if names == [] then []
    else
      var routes := RoutesOf(entries[names[|names| - 1]], host);
      RouteMounts(names[..|names| - 1], entries, basePath, host)
      + (if Truthy(routes) then [RouteMount(routes, basePath)] else [])
  }

  /** How many of the named modules contribute routes. */
  function Routed(names: seq<string>, entries: map<string, Module>, host: Host): nat
    requires forall i :: 0 <= i < |names| ==> names[i] in entries
    decreases |names|
  {
    if names == [] then 0
    else Routed(names[..|names| - 1], entries, host) + (if Truthy(RoutesOf(entries[names[|names| - 1]], host)) then 1 else 0)
  }

  /** `_initErrorhandler`: in development a detail-exposing handler comes first. */
  function ErrorHandlers(development: bool): (r: seq<Mount>)
    ensures |r| >= 1 && r[|r| - 1] == Mount(None, ErrorHandler)
    ensures forall k :: 0 <= k < |r| ==> r[k].path.None? && r[k].handler.HandlesErrors()
    ensures r[0].handler.DevErrorHandler? <==> development
  {
    (if development then [Mount(None, DevErrorHandler)] else []) + [Mount(None, ErrorHandler)]
  }

  /** Everything `_boot` mounts, in the order it mounts it. */
  function BootMounts(root: string, cfg: map<string, Value>, reg: Registry, development: bool, host: Host): (r: seq<Mount>)
    requires reg.Valid()
    ensures |r| == |BaseMounts(root, Lookup(cfg, "secret"), host)|
      + NonMain(reg.order, Lookup(cfg, "mainModuleName")) + Routed(reg.order, reg.entries, host)
      + 1 + |ErrorHandlers(development)|
  {
    StaticMountsLength(reg.order, reg.entries, Lookup(cfg, "mainModuleName"), host);
    RouteMountsLength(reg.order, reg.entries, Lookup(cfg, "basePath"), host);
    BaseMounts(root, Lookup(cfg, "secret"), host)
    + StaticMounts(reg.order, reg.entries, Lookup(cfg, "mainModuleName"), host)
    + RouteMounts(reg.order, reg.entries, Lookup(cfg, "basePath"), host)
    + [Mount(None, NotFound)]
    + ErrorHandlers(development)
  }

  // ---- Static mounts ----

  /** Extending the walk by one name appends that name's static mount, unless it is the main one. */
  lemma StaticMountsStep(names: seq<string>, entries: map<string, Module>, mainName: Value, host: Host, i: nat)
    requires forall j :: 0 <= j < |names| ==> names[j] in entries
    requires i < |names|
    ensures StaticMounts(names[..i + 1], entries, mainName, host) ==
      StaticMounts(names[..i], entries, mainName, host) + (if Str(names[i]) == mainName then [] else [StaticMount(names[i], entries, host)])
  {
    assert names[..i + 1][..i] == names[..i];
  }

  /** Extending the walk by one name appends that module's routes, when they are truthy. */
  lemma RouteMountsStep(names: seq<string>, entries: map<string, Module>, basePath: Value, host: Host, i: nat)
    requires forall j :: 0 <= j < |names| ==> names[j] in entries
    requires i < |names|
    ensures RouteMounts(names[..i + 1], entries, basePath, host) ==
      RouteMounts(names[..i], entries, basePath, host) + (if Truthy(RoutesOf(entries[names[i]], host)) then [RouteMount(RoutesOf(entries[names[i]], host), basePath)] else [])
  {
    assert names[..i + 1][..i] == names[..i];
  }

  /** Each name other than the main one has its static mount, at the position its rank among them gives. */
  lemma {:induction false} StaticMountAt(names: seq<string>, entries: map<string, Module>, mainName: Value, host: Host, i: nat)
    requires forall j :: 0 <= j < |names| ==> names[j] in entries
    requires i < |names| && Str(names[i]) != mainName
    ensures |StaticMounts(names, entries, mainName, host)| == NonMain(names, mainName)
    ensures NonMain(names[..i], mainName) < |StaticMounts(names, entries, mainName, host)|
    ensures StaticMounts(names, entries, mainName, host)[NonMain(names[..i], mainName)] == StaticMount(names[i], entries, host)
    decreases |names|
  {
    var p := names[..|names| - 1];
    StaticMountsLength(p, entries, mainName, host);
    if i < |names| - 1 {
      StaticMountAt(p, entries, mainName, host, i);
      assert p[..i] == names[..i];
    } else {
      assert names[..i] == p;
    }
  }

  lemma {:induction false} StaticMountsLength(names: seq<string>, entries: map<string, Module>, mainName: Value, host: Host)
    requires forall j :: 0 <= j < |names| ==> names[j] in entries
    ensures |StaticMounts(names, entries, mainName, host)| == NonMain(names, mainName)
    decreases |names|
  {
    if names != [] {
      StaticMountsLength(names[..|names| - 1], entries, mainName, host);
    }
  }

  /** Every static mount belongs to one of the names, never to the main module's name. */
  lemma {:induction false} StaticMountsSound(names: seq<string>, entries: map<string, Module>, mainName: Value, host: Host)
    requires forall j :: 0 <= j < |names| ==> names[j] in entries
    ensures forall k :: 0 <= k < |StaticMounts(names, entries, mainName, host)| ==>
      exists i :: 0 <= i < |names| && Str(names[i]) != mainName && StaticMounts(names, entries, mainName, host)[k] == StaticMount(names[i], entries, host)
    decreases |names|
  {
    if names != [] {
      var p := names[..|names| - 1];
      StaticMountsSound(p, entries, mainName, host);
      var sm := StaticMounts(names, entries, mainName, host);
      var sp := StaticMounts(p, entries, mainName, host);
      forall k | 0 <= k < |sm|
        ensures exists i :: 0 <= i < |names| && Str(names[i]) != mainName && sm[k] == StaticMount(names[i], entries, host)
      {
        assert sm == sp + (if Str(names[|names| - 1]) == mainName then [] else [StaticMount(names[|names| - 1], entries, host)]);
        if k < |sp| {
          assert sm[k] == sp[k];
          var i :| 0 <= i < |p| && Str(p[i]) != mainName && sp[k] == StaticMount(p[i], entries, host);
          assert names[i] == p[i];
        } else {
          assert sm[k] == StaticMount(names[|names| - 1], entries, host);
        }
      }
    } else {
      assert StaticMounts(names, entries, mainName, host) == [];
    }
  }

  /** Distinct names get distinct static paths. */
  lemma StaticPathsDiffer(a: string, b: string)
    requires a != b
    ensures "/" + a != "/" + b
  {
    assert ("/" + a)[1..] == a;
    assert ("/" + b)[1..] == b;
  }

  /** Over a well-formed registry, every registered module other than the main one gets a static mount. */
  lemma StaticMountsComplete(reg: Registry, mainName: Value, host: Host, n: string)
    requires reg.Valid()
    requires n in reg.entries && Str(n) != mainName
    ensures exists k :: 0 <= k < |StaticMounts(reg.order, reg.entries, mainName, host)| && StaticMounts(reg.order, reg.entries, mainName, host)[k] == StaticMount(n, reg.entries, host)
  {
    var i :| 0 <= i < |reg.order| && reg.order[i] == n;
    StaticMountAt(reg.order, reg.entries, mainName, host, i);
  }

  /** Over a well-formed registry, each static mount serves a registered module other than the main one. */
  lemma StaticMountsRegistered(reg: Registry, mainName: Value, host: Host)
    requires reg.Valid()
    ensures forall k :: 0 <= k < |StaticMounts(reg.order, reg.entries, mainName, host)| ==>
      exists n :: n in reg.entries && Str(n) != mainName && StaticMounts(reg.order, reg.entries, mainName, host)[k] == StaticMount(n, reg.entries, host)
  {
    var sm := StaticMounts(reg.order, reg.entries, mainName, host);
    StaticMountsSound(reg.order, reg.entries, mainName, host);
    forall k | 0 <= k < |sm|
      ensures exists n :: n in reg.entries && Str(n) != mainName && sm[k] == StaticMount(n, reg.entries, host)
    {
      var i :| 0 <= i < |reg.order| && Str(reg.order[i]) != mainName && sm[k] == StaticMount(reg.order[i], reg.entries, host);
      assert reg.order[i] in reg.entries;
    }
  }

  lemma {:induction false} StaticPathsDistinct(names: seq<string>, entries: map<string, Module>, mainName: Value, host: Host)
    requires forall j :: 0 <= j < |names| ==> names[j] in entries
    requires forall i, j :: 0 <= i < j < |names| ==> names[i] != names[j]
    ensures forall a, b :: 0 <= a < b < |StaticMounts(names, entries, mainName, host)| ==>
      StaticMounts(names, entries, mainName, host)[a].path != StaticMounts(names, entries, mainName, host)[b].path
    decreases |names|
  {
    if names != [] {
      var p := names[..|names| - 1];
      var last := names[|names| - 1];
      StaticPathsDistinct(p, entries, mainName, host);
      StaticMountsSound(p, entries, mainName, host);
      var sm := StaticMounts(names, entries, mainName, host);
      var sp := StaticMounts(p, entries, mainName, host);
      forall a, b | 0 <= a < b < |sm| ensures sm[a].path != sm[b].path {
        assert sm == sp + (if Str(last) == mainName then [] else [StaticMount(last, entries, host)]);
        assert sm[a] == sp[a];
        if b >= |sp| {
          assert sm[b] == StaticMount(last, entries, host);
          var i :| 0 <= i < |p| && Str(p[i]) != mainName && sp[a] == StaticMount(p[i], entries, host);
          assert names[i] == p[i];
          StaticPathsDiffer(p[i], last);
        } else {
          assert sm[b] == sp[b];
        }
      }
    }
  }

  /** When `mainModuleName` is a string, the main module's name gets no static mount. */
  lemma MainNotStaticallyMounted(reg: Registry, main: string, host: Host)
    requires reg.Valid()
    ensures forall k :: 0 <= k < |StaticMounts(reg.order, reg.entries, Str(main), host)| ==>
      StaticMounts(reg.order, reg.entries, Str(main), host)[k].path != Some(Str("/" + main))
  {
    var sm := StaticMounts(reg.order, reg.entries, Str(main), host);
    StaticMountsRegistered(reg, Str(main), host);
    forall k | 0 <= k < |sm| ensures sm[k].path != Some(Str("/" + main)) {
      var n :| n in reg.entries && Str(n) != Str(main) && sm[k] == StaticMount(n, reg.entries, host);
      StaticPathsDiffer(n, main);
    }
  }

  /**
   * The `===` test compares the key string with the configured value itself, so a main module
   * named by a non-string `mainModuleName` is statically mounted under its key.
   */
  lemma NonStringMainNameMounted(reg: Registry, mainName: Value, host: Host)
    requires reg.Valid()
    requires !mainName.Str? && PropertyKey(mainName) in reg.entries
    ensures exists k :: 0 <= k < |StaticMounts(reg.order, reg.entries, mainName, host)| && StaticMounts(reg.order, reg.entries, mainName, host)[k] == StaticMount(PropertyKey(mainName), reg.entries, host)
  {
    StaticMountsComplete(reg, mainName, host, PropertyKey(mainName));
  }

  // ---- Route mounts ----

  lemma {:induction false} RouteMountsLength(names: seq<string>, entries: map<string, Module>, basePath: Value, host: Host)
    requires forall j :: 0 <= j < |names| ==> names[j] in entries
    ensures |RouteMounts(names, entries, basePath, host)| == Routed(names, entries, host)
    decreases |names|
  {
    if names != [] {
      RouteMountsLength(names[..|names| - 1], entries, basePath, host);
    }
  }

  /** A module with truthy routes has its route mount at the position its rank among routed modules gives. */
  lemma {:induction false} RouteMountAt(names: seq<string>, entries: map<string, Module>, basePath: Value, host: Host, i: nat)
    requires forall j :: 0 <= j < |names| ==> names[j] in entries
    requires i < |names| && Truthy(RoutesOf(entries[names[i]], host))
    ensures Routed(names[..i], entries, host) < |RouteMounts(names, entries, basePath, host)|
    ensures RouteMounts(names, entries, basePath, host)[Routed(names[..i], entries, host)] ==
      RouteMount(RoutesOf(entries[names[i]], host), basePath)
    decreases |names|
  {
    var p := names[..|names| - 1];
    RouteMountsLength(p, entries, basePath, host);
    if i < |names| - 1 {
      RouteMountAt(p, entries, basePath, host, i);
      assert p[..i] == names[..i];
    } else {
      assert names[..i] == p;
    }
  }

  /** Routed counts never decrease along a longer prefix, and grow past a routed module. */
  lemma {:induction false} RoutedGrows(names: seq<string>, entries: map<string, Module>, host: Host, i: nat, j: nat)
    requires forall k :: 0 <= k < |names| ==> names[k] in entries
    requires i < j <= |names| && Truthy(RoutesOf(entries[names[i]], host))
    ensures Routed(names[..i], entries, host) < Routed(names[..j], entries, host)
    decreases j
  {
    if j == i + 1 {
      assert names[..j][..i] == names[..i];
    } else {
      RoutedGrows(names, entries, host, i, j - 1);
      assert names[..j][..j - 1] == names[..j - 1];
    }
  }

  /**
   * Route mounts follow registry order: of two modules with routes, the earlier one's routes
   * are mounted first (and so get the first chance at a request).
   */
  lemma RouteMountsInRegistryOrder(reg: Registry, basePath: Value, host: Host, i: nat, j: nat)
    requires reg.Valid()
    requires i < j < |reg.order|
    requires Truthy(RoutesOf(reg.entries[reg.order[i]], host)) && Truthy(RoutesOf(reg.entries[reg.order[j]], host))
    ensures exists a, b :: (0 <= a < b < |RouteMounts(reg.order, reg.entries, basePath, host)|
      && RouteMounts(reg.order, reg.entries, basePath, host)[a] == RouteMount(RoutesOf(reg.entries[reg.order[i]], host), basePath)
      && RouteMounts(reg.order, reg.entries, basePath, host)[b] == RouteMount(RoutesOf(reg.entries[reg.order[j]], host), basePath))
  {
    RouteMountAt(reg.order, reg.entries, basePath, host, i);
    RouteMountAt(reg.order, reg.entries, basePath, host, j);
    RoutedGrows(reg.order, reg.entries, host, i, j);
  }

  /** Every route mount belongs to one of the named modules (and, by RouteMounts, has truthy routes). */
  lemma {:induction false} RouteMountsSound(names: seq<string>, entries: map<string, Module>, basePath: Value, host: Host)
    requires forall j :: 0 <= j < |names| ==> names[j] in entries
    ensures forall k :: 0 <= k < |RouteMounts(names, entries, basePath, host)| ==>
      exists i :: 0 <= i < |names| && RouteMounts(names, entries, basePath, host)[k] == RouteMount(RoutesOf(entries[names[i]], host), basePath)
    decreases |names|
  {
    if names != [] {
      var p := names[..|names| - 1];
      RouteMountsSound(p, entries, basePath, host);
      var rm := RouteMounts(names, entries, basePath, host);
      var rp := RouteMounts(p, entries, basePath, host);
      forall k | 0 <= k < |rm|
        ensures exists i :: 0 <= i < |names| && rm[k] == RouteMount(RoutesOf(entries[names[i]], host), basePath)
      {
        var routes := RoutesOf(entries[names[|names| - 1]], host);
        assert rm == rp + (if Truthy(routes) then [RouteMount(routes, basePath)] else []);
        if k < |rp| {
          assert rm[k] == rp[k];
          var i :| 0 <= i < |p| && rp[k] == RouteMount(RoutesOf(entries[p[i]], host), basePath);
          assert names[i] == p[i];
        } else {
          assert rm[k] == RouteMount(routes, basePath);
        }
      }
    } else {
      assert RouteMounts(names, entries, basePath, host) == [];
    }
  }

  // ---- Boot order ----

  /** Which stage of `_boot` mounts a record: base (0), module statics (1), routes (2), 404 (3), error handlers (4). */
  function Phase(m: Mount): nat {
    match m.handler
    case Static(_) => if m.path.Some? then 1 else 0
    case Router(_) => 2
    case NotFound => 3
    case DevErrorHandler => 4
    case ErrorHandler => 4
    case _ => 0
  }

  /** Every mount of `_boot`'s stack, by position, belongs to the stage its segment stands for. */
  lemma BootPhaseAt(root: string, cfg: map<string, Value>, reg: Registry, development: bool, host: Host, k: nat)
    requires reg.Valid()
    requires k < |BootMounts(root, cfg, reg, development, host)|
    ensures var nb := |BaseMounts(root, Lookup(cfg, "secret"), host)|;
      var ns := |StaticMounts(reg.order, reg.entries, Lookup(cfg, "mainModuleName"), host)|;
      var nr := |RouteMounts(reg.order, reg.entries, Lookup(cfg, "basePath"), host)|;
      Phase(BootMounts(root, cfg, reg, development, host)[k]) ==
        if k < nb then 0 else if k < nb + ns then 1 else if k < nb + ns + nr then 2 else if k == nb + ns + nr then 3 else 4
  {
    var base := BaseMounts(root, Lookup(cfg, "secret"), host);
    var sm := StaticMounts(reg.order, reg.entries, Lookup(cfg, "mainModuleName"), host);
    var rm := RouteMounts(reg.order, reg.entries, Lookup(cfg, "basePath"), host);
    var eh := ErrorHandlers(development);
    forall i | 0 <= i < |base| ensures Phase(base[i]) == 0 {
      BasePhase(root, Lookup(cfg, "secret"), host, i);
    }
    forall i | 0 <= i < |eh| ensures Phase(eh[i]) == 4 {
      ErrorHandlersPhase(development, i);
    }
    SegmentPhases(base, sm, rm, eh, k);
  }

  /** Positions in a concatenation of five segments, each of one stage, have the stage of their segment. */
  lemma SegmentPhases(base: seq<Mount>, sm: seq<Mount>, rm: seq<Mount>, eh: seq<Mount>, k: nat)
    requires forall i :: 0 <= i < |base| ==> Phase(base[i]) == 0
    requires forall i :: 0 <= i < |sm| ==> Phase(sm[i]) == 1
    requires forall i :: 0 <= i < |rm| ==> Phase(rm[i]) == 2
    requires forall i :: 0 <= i < |eh| ==> Phase(eh[i]) == 4
    requires k < |base + sm + rm + [Mount(None, NotFound)] + eh|
    ensures Phase((base + sm + rm + [Mount(None, NotFound)] + eh)[k]) ==
      if k < |base| then 0 else if k < |base| + |sm| then 1 else if k < |base| + |sm| + |rm| then 2
      else if k == |base| + |sm| + |rm| then 3 else 4
  {
  }

  lemma BasePhase(root: string, secret: Value, host: Host, k: nat)
    requires k < |BaseMounts(root, secret, host)|
    ensures Phase(BaseMounts(root, secret, host)[k]) == 0
  {
  }

  lemma ErrorHandlersPhase(development: bool, k: nat)
    requires k < |ErrorHandlers(development)|
    ensures Phase(ErrorHandlers(development)[k]) == 4
  {
  }

  /**
   * `_boot` mounts base middleware, then module statics, then routes, then the 404 handler,
   * then the error handlers: along the stack the stage never goes back.
   */
  lemma BootPhasesOrdered(root: string, cfg: map<string, Value>, reg: Registry, development: bool, host: Host)
    requires reg.Valid()
    ensures forall i, j :: 0 <= i < j < |BootMounts(root, cfg, reg, development, host)| ==>
      Phase(BootMounts(root, cfg, reg, development, host)[i]) <= Phase(BootMounts(root, cfg, reg, development, host)[j])
  {
    var b := BootMounts(root, cfg, reg, development, host);
    forall i, j | 0 <= i < j < |b| ensures Phase(b[i]) <= Phase(b[j]) {
      BootPhaseAt(root, cfg, reg, development, host, i);
      BootPhaseAt(root, cfg, reg, development, host, j);
    }
  }

  /** Session and flash middleware are mounted iff `secret !== false`. */
  lemma SessionIffSecret(root: string, cfg: map<string, Value>, reg: Registry, development: bool, host: Host)
    requires reg.Valid()
    ensures (exists k :: 0 <= k < |BootMounts(root, cfg, reg, development, host)| && BootMounts(root, cfg, reg, development, host)[k].handler.Session?)
      <==> Lookup(cfg, "secret") != Bool(false)
    ensures (exists k :: 0 <= k < |BootMounts(root, cfg, reg, development, host)| && BootMounts(root, cfg, reg, development, host)[k].handler.Flash?)
      <==> Lookup(cfg, "secret") != Bool(false)
  {
    var secret := Lookup(cfg, "secret");
    var base := BaseMounts(root, secret, host);
    var b := BootMounts(root, cfg, reg, development, host);
    forall k | 0 <= k < |b| && (b[k].handler.Session? || b[k].handler.Flash?) ensures secret != Bool(false) && k < |base| {
      BootPhaseAt(root, cfg, reg, development, host, k);
      assert b[k] == base[k];
    }
    if secret != Bool(false) {
      assert b[5] == base[5] && b[6] == base[6];
      assert b[5].handler.Session? && b[6].handler.Flash?;
    }
  }

  // ---- Error dispatch ----

  /** What `next(err)` carries: the error's message, its `status` property and its identity. */
  datatype JsError = JsError(message: Value, status: Value, id: nat)

  /** The error the not-found handler raises. */
  function NotFoundError(id: nat): JsError {
    JsError(Str("Not Found"), Num(404), id)
  }

  /** The `error` local handed to the view: the error itself, or `{}`. */
  datatype ErrorPayload = Detailed(err: JsError) | Hidden

  /** What an error handler does: `res.status(...)` and `res.render(view, { message, error })`. */
  datatype Response = Response(status: Value, view: string, message: Value, error: ErrorPayload)

  /** `err.status || 500`. */
  function StatusOf(err: JsError): (r: Value)
    ensures Truthy(r)
    ensures Truthy(err.status) ==> r == err.status
    ensures !Truthy(err.status) ==> r == Num(500)
  {
    if Truthy(err.status) then err.status else Num(500)
  }

  /** The response one of `_initErrorhandler`'s handlers renders. */
  function Respond(h: Handler, err: JsError): (r: Response)
    requires h.HandlesErrors()
    ensures r.status == StatusOf(err) && r.view == "error" && r.message == err.message
    ensures r.error.Detailed? <==> h.DevErrorHandler?
  {
    Response(StatusOf(err), "error", err.message, if h.DevErrorHandler? then Detailed(err) else Hidden)
  }

  /**
   * A pending error passes over ordinary middleware and is answered by the first error handler
   * on the stack (both handlers render and never call `next`); None if the stack has none.
   */
  function HandleError(stack: seq<Mount>, err: JsError): (r: Option<Response>)
    ensures r.None? <==> forall k :: 0 <= k < |stack| ==> !stack[k].handler.HandlesErrors()
    ensures r.Some? ==> exists k :: 0 <= k < |stack| && FirstErrorHandler(stack, k) && r.value == Respond(stack[k].handler, err)
    decreases |stack|
  {
    if stack == [] then None
    else if stack[0].handler.HandlesErrors() then Some(Respond(stack[0].handler, err))
    else
      var r := HandleError(stack[1..], err);
      assert r.Some? ==> exists k :: 0 <= k < |stack| && FirstErrorHandler(stack, k) && r.value == Respond(stack[k].handler, err) by {
        if r.Some? {
          var k :| 0 <= k < |stack| - 1 && FirstErrorHandler(stack[1..], k) && r.value == Respond(stack[1..][k].handler, err);
          assert FirstErrorHandler(stack, k + 1);
        }
      }
      r
  }

  /** Position `k` holds an error handler and no earlier position does. */
  ghost predicate FirstErrorHandler(stack: seq<Mount>, k: int)
    requires 0 <= k < |stack|
  {
    && stack[k].handler.HandlesErrors()
    && forall j :: 0 <= j < k ==> !stack[j].handler.HandlesErrors()
  }

  /** Middleware that handles no errors in front of a stack does not change how an error is answered. */
  lemma {:induction false} HandleErrorSkip(prefix: seq<Mount>, rest: seq<Mount>, err: JsError)
    requires forall k :: 0 <= k < |prefix| ==> !prefix[k].handler.HandlesErrors()
    ensures HandleError(prefix + rest, err) == HandleError(rest, err)
    decreases |prefix|
  {
    if prefix != [] {
      assert (prefix + rest)[0] == prefix[0];
      assert (prefix + rest)[1..] == prefix[1..] + rest;
      HandleErrorSkip(prefix[1..], rest, err);
    } else {
      assert prefix + rest == rest;
    }
  }

  /**
   * An error passed down `_boot`'s stack is answered with status `err.status || 500`, its
   * message, and the full error only in development; otherwise `error` is `{}`. A module's
   * router is one `Router` mount that answers no error itself.
   */
  lemma BootErrorResponse(root: string, cfg: map<string, Value>, reg: Registry, development: bool, host: Host, err: JsError)
    requires reg.Valid()
    ensures HandleError(BootMounts(root, cfg, reg, development, host), err) ==
      Some(Response(StatusOf(err), "error", err.message, if development then Detailed(err) else Hidden))
  {
    var b := BootMounts(root, cfg, reg, development, host);
    var base := BaseMounts(root, Lookup(cfg, "secret"), host);
    var sm := StaticMounts(reg.order, reg.entries, Lookup(cfg, "mainModuleName"), host);
    var rm := RouteMounts(reg.order, reg.entries, Lookup(cfg, "basePath"), host);
    var prefix := base + sm + rm + [Mount(None, NotFound)];
    assert b == prefix + ErrorHandlers(development);
    forall k | 0 <= k < |prefix| ensures !prefix[k].handler.HandlesErrors() {
      BootPhaseAt(root, cfg, reg, development, host, k);
      assert prefix[k] == b[k];
    }
    HandleErrorSkip(prefix, ErrorHandlers(development), err);
  }

  /** A request no route answers ends in a 404 'Not Found' response. */
  lemma NotFoundResponse(root: string, cfg: map<string, Value>, reg: Registry, development: bool, host: Host, id: nat)
    requires reg.Valid()
    ensures HandleError(BootMounts(root, cfg, reg, development, host), NotFoundError(id)).Some?
    ensures HandleError(BootMounts(root, cfg, reg, development, host), NotFoundError(id)).value.status == Num(404)
    ensures HandleError(BootMounts(root, cfg, reg, development, host), NotFoundError(id)).value.message == Str("Not Found")
  {
    BootErrorResponse(root, cfg, reg, development, host, NotFoundError(id));
  }
}
