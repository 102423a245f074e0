/**
 * The application object: its module registry, model cache, settings, configuration and
 * middleware stack, and the methods `load` runs to fill them.
 */
module Application {
  import opened Errors
  import opened JsValues
  import opened Paths
  import opened Config
  import opened Modules
  import opened Collaborators
  import opened Resolution
  import opened AppSettings
  import opened Models
  import opened Mounts
  import opened Seqs

  class App {
    /** `_DEFAULT_CONFIG`: one object on the shared application prototype. */
    const defaults: ConfigStore
    var root: string                        // `_ROOT`
    var modulePaths: seq<string>            // `_modulePaths`, what `registerModules()` returned
    var modules: Registry                   // `_modules`
    var models: map<string, ModelInstance>  // `_models`
    var settings: map<string, Setting>      // `app.set` / `app.get`
    var config: ConfigStore?                // `_CONFIG`, null until `_initConfig` runs
    var stack: seq<Mount>                   // one record per `this.use(...)`

    ghost predicate Valid()
      reads this
    {
      modules.Valid()
    }

    /** A fresh application over the shared defaults, with the settings Express starts it with. */
    constructor (defaults: ConfigStore, settings: map<string, Setting>)
      ensures this.defaults == defaults && this.settings == settings
      ensures root == "" && modulePaths == [] && modules == Registry.Empty() && models == map[]
      ensures config == null && stack == []
      ensures Valid()
    {
      this.defaults := defaults;
      this.settings := settings;
      root := "";
      modulePaths := [];
      modules := Registry.Empty();
      models := map[];
      config := null;
      stack := [];
    }

    /** `this.use(...)`: appends one mount to the stack. */
    method Use(m: Mount)
      modifies this`stack
      ensures stack == old(stack) + [m]
    {
      stack := stack + [m];
    }

    /**
     * `load(_ROOT, config)`: resets the registry and the model cache, merges the configuration,
     * registers the modules and boots. A specifier that does not resolve aborts the load with
     * the modules registered so far, before anything is mounted.
     */
    method Load(root: string, overrides: map<string, Value>, registered: seq<string>, host: Host) returns (err: Option<Error>)
      modifies this, defaults
      ensures this.root == root && modulePaths == registered && models == map[]
      ensures defaults.entries == Merge(old(defaults.entries), overrides) && config == defaults
      ensures modules == RegisterAll(Registry.Empty(), Registrations(defaults.entries, root, registered, host))
      ensures err == Unresolved(root, registered, host)
      ensures Valid()
      ensures err.Some? ==> stack == old(stack) && settings == ConfigSettings(old(settings), defaults, defaults.entries)
      ensures err.None? ==> stack == old(stack) + BootMounts(root, defaults.entries, modules, IsDevelopment(old(settings)), host)
      ensures err.None? ==> settings == DbSettings(ConfigSettings(old(settings), defaults, defaults.entries), defaults.entries, host)
    {
      err := Prepare(root, overrides, registered, host);
      if err.None? {
        Boot(host);
      }
    }

    /**
     * The part of `load` before `_boot`: records the root, empties the model cache, installs the
     * configuration and registers the modules.
     */
    method Prepare(root: string, overrides: map<string, Value>, registered: seq<string>, host: Host) returns (err: Option<Error>)
      modifies this`root, this`models, this`modules, this`modulePaths, this`config, this`settings, defaults
      ensures this.root == root && modulePaths == registered && models == map[]
      ensures defaults.entries == Merge(old(defaults.entries), overrides) && config == defaults
      ensures modules == RegisterAll(Registry.Empty(), Registrations(defaults.entries, root, registered, host))
      ensures err == Unresolved(root, registered, host)
      ensures Valid()
      ensures settings == ConfigSettings(old(settings), defaults, defaults.entries)
      ensures IsDevelopment(settings) == IsDevelopment(old(settings))
    {
      this.root, models, modules, modulePaths := root, map[], Registry.Empty(), registered;
      InitConfig(overrides);
      ConfigSettingsKeepEnv(old(settings), defaults, defaults.entries);
      err := InitModules(host);
    }

    /**
     * `_initConfig(config)`: merges the overrides INTO the shared defaults object, makes it the
     * application's configuration and publishes it through the settings.
     */
    method InitConfig(overrides: map<string, Value>)
      modifies defaults, this`config, this`settings
      ensures defaults.entries == Merge(old(defaults.entries), overrides)
      ensures config == defaults
      ensures settings == ConfigSettings(old(settings), defaults, defaults.entries)
    {
      defaults.entries := Merge(defaults.entries, overrides);
      config := defaults;
      settings := settings["_CONFIG" := ConfigRef(config)];
      settings := settings["config" := ConfigRef(config)];
      settings := settings["secret" := Val(Lookup(config.entries, "secret"))];
    }

    /**
     * `_initModules`: registers the main module, then one module per specifier in order; the
     * first specifier that does not resolve ends the loop with an error.
     */
    method InitModules(host: Host) returns (err: Option<Error>)
      requires config != null && Valid()
      modifies this`modules
      ensures modules == RegisterAll(old(modules), Registrations(config.entries, root, modulePaths, host))
      ensures err == Unresolved(root, modulePaths, host)
      ensures Valid()
    {
      modules, err := RegisterResolved(modules, MainModule(config.entries, root), root, modulePaths, host);
    }

    /**
     * `getModule(name)`: the module registered under `name`, or the error
     * "Unregistered module: 'name'".
     */
    function GetModule(name: string): (r: Result<Module>)
      reads this
      ensures r.Success? <==> name in modules.entries
      ensures r.Success? ==> r.value == modules.entries[name]
      ensures r.Success? && Valid() ==> r.value.name == name
      ensures r.Failure? ==> r.error == UnregisteredModule(name) && Message(r.error) == "Unregistered module: '" + name + "'"
    {
      if name in modules.entries then Success(modules.entries[name])
      else Failure(UnregisteredModule(name))
    }

    /**
     * `model(name)`: requires a `db` setting; answers from the cache under `name`; otherwise
     * rewrites a namespaced name to its load path, loads it, and caches a new instance under
     * that path.
     */
    method Model(name: string, host: Host) returns (r: Result<ModelInstance>)
      modifies this`models
      ensures Get(settings, "db") == Val(Undefined) ==> r == Failure(NoDbConfig) && models == old(models)
      ensures Get(settings, "db") != Val(Undefined) && name in old(models) ==>
        r == Success(old(models)[name]) && models == old(models)
      ensures Get(settings, "db") != Val(Undefined) && name !in old(models) && LoadPath(modules, name, host).Failure? ==>
        r == Failure(LoadPath(modules, name, host).error) && models == old(models)
      ensures Get(settings, "db") != Val(Undefined) && name !in old(models) && LoadPath(modules, name, host).Success? ==>
        if host.canLoadModel(LoadPath(modules, name, host).value) then
          && r.Success? && fresh(r.value)
          && r.value.source == LoadPath(modules, name, host).value && r.value.knex == Get(settings, "db")
          && models == old(models)[LoadPath(modules, name, host).value := r.value]
        else
          r == Failure(LoadFailed(LoadPath(modules, name, host).value)) && models == old(models)
    {
      var knex := Get(settings, "db");
      if knex == Val(Undefined) {
        return Failure(NoDbConfig);
      }
      if name in models {
        return Success(models[name]);
      }
      var path := name;
      if FirstIndex(name, '@') == 0 {
        var parts := Split(name, '/');
        var segment := Substr1(parts[0]);
        if segment !in modules.entries {
          return Failure(UnregisteredModule(segment));
        }
        path := host.join(host.modelPath(modules.entries[segment]), Join(parts[1..], '/'));
      }
      if !host.canLoadModel(path) {
        return Failure(LoadFailed(path));
      }
      var instance := new ModelInstance(path, knex);
      models := models[path := instance];
      r := Success(instance);
    }

    /**
     * `_boot`: sets up the database handle, then mounts base middleware, module statics,
     * module routes, the not-found handler and the error handlers, in that order.
     */
    method Boot(host: Host)
      requires config != null && Valid()
      modifies this`stack, this`settings
      ensures settings == DbSettings(old(settings), config.entries, host)
      ensures stack == old(stack) + BootMounts(root, config.entries, modules, IsDevelopment(old(settings)), host)
    {
      ghost var before := stack;
      InitDB(host);
      DbSettingsKeepEnv(old(settings), config.entries, host);
      InitBaseMiddlewares(host);
      InitStaticMiddlewares(host);
      InitRoutes(host);
      Use(Mount(None, NotFound));
      InitErrorhandler();
      AppendFive(before,
        BaseMounts(root, Lookup(config.entries, "secret"), host),
        StaticMounts(modules.order, modules.entries, Lookup(config.entries, "mainModuleName"), host),
        RouteMounts(modules.order, modules.entries, Lookup(config.entries, "basePath"), host),
        [Mount(None, NotFound)],
        ErrorHandlers(IsDevelopment(old(settings))));
    }

    /** `_initDB`: when `config.db` is truthy, connects and stores the handle as `knex` and `db`. */
    method InitDB(host: Host)
      requires config != null
      modifies this`settings
      ensures settings == DbSettings(old(settings), config.entries, host)
    {
      var db := Lookup(config.entries, "db");
      if !Truthy(db) {
        return;
      }
      var knex := host.connect(db);
      settings := settings["knex" := Val(knex)];
      settings := settings["db" := Val(knex)];
    }

    /** `_initBaseMiddlewares`. */
    method InitBaseMiddlewares(host: Host)
      requires config != null
      modifies this`stack
      ensures stack == old(stack) + BaseMounts(root, Lookup(config.entries, "secret"), host)
    {
      Use(Mount(None, RequestLogger("dev")));
      Use(Mount(None, UrlEncodedBody(true)));
      Use(Mount(None, JsonBody));
      Use(Mount(None, CookieParser));
      Use(Mount(None, Static(host.join(root, "public"))));
      var secret := Lookup(config.entries, "secret");
      if secret != Bool(false) {
        Use(Mount(None, Session(secret)));
        Use(Mount(None, Flash));
      }
    }

    /** `_initStaticMiddlewares`: walks the registry in iteration order. */
    method InitStaticMiddlewares(host: Host)
      requires config != null && Valid()
      modifies this`stack
      ensures stack == old(stack) + StaticMounts(modules.order, modules.entries, Lookup(config.entries, "mainModuleName"), host)
    {
      var order, entries := modules.order, modules.entries;
      var mainName := Lookup(config.entries, "mainModuleName");
      assert forall j :: 0 <= j < |order| ==> order[j] in entries;
      for i := 0 to |order|
        invariant stack == old(stack) + StaticMounts(order[..i], entries, mainName, host)
      {
        var name := order[i];
        StaticMountsStep(order, entries, mainName, host, i);
        if Str(name) != mainName {
          Use(Mount(Some(Str("/" + name)), Static(host.publicPath(entries[name]))));
        }
      }
      assert order[..|order|] == order;
    }

    /** `_initRoutes`: walks the registry in iteration order, skipping falsy routes. */
    method InitRoutes(host: Host)
      requires config != null && Valid()
      modifies this`stack
      ensures stack == old(stack) + RouteMounts(modules.order, modules.entries, Lookup(config.entries, "basePath"), host)
    {
      var order, entries := modules.order, modules.entries;
      var basePath := Lookup(config.entries, "basePath");
      assert forall j :: 0 <= j < |order| ==> order[j] in entries;
      for i := 0 to |order|
        invariant stack == old(stack) + RouteMounts(order[..i], entries, basePath, host)
      {
        var routes := host.routes(entries[order[i]]);
        RouteMountsStep(order, entries, basePath, host, i);
        if Truthy(routes) {
          Use(Mount(Some(basePath), Router(routes)));
        }
      }
      assert order[..|order|] == order;
    }

    /** `_initErrorhandler`. */
    method InitErrorhandler()
      modifies this`stack
      ensures stack == old(stack) + ErrorHandlers(IsDevelopment(settings))
    {
      if Get(settings, "env") == Val(Str("development")) {
        Use(Mount(None, DevErrorHandler));
      }
      Use(Mount(None, ErrorHandler));
    }
  }

  /**
   * Repeating `model("@m/rest")` never hits the cache, because the instance is stored under the
   * rewritten path: each call builds a new instance, while asking for that path returns the
   * latest one.
   */
  method RepeatedNamespacedModel(app: App, m: string, rest: string, host: Host) returns (first: ModelInstance, second: ModelInstance, byPath: ModelInstance)
    requires '/' !in m && m in app.modules.entries
    requires Get(app.settings, "db") != Val(Undefined)
    requires "@" + m + "/" + rest !in app.models
    requires host.canLoadModel(host.join(host.modelPath(app.modules.entries[m]), rest))
    requires host.join(host.modelPath(app.modules.entries[m]), rest) != "@" + m + "/" + rest
    modifies app`models
    ensures first != second && byPath == second
    ensures app.models == old(app.models)[host.join(host.modelPath(app.modules.entries[m]), rest) := second]
  {
    var name := "@" + m + "/" + rest;
    var path := host.join(host.modelPath(app.modules.entries[m]), rest);
    LoadPathNamespaced(app.modules, m, rest, host);
    var r1 := app.Model(name, host);
    first := r1.value;
    var r2 := app.Model(name, host);
    second := r2.value;
    var r3 := app.Model(path, host);
    byPath := r3.value;
  }

  /**
   * Because `_initConfig` merges into the shared defaults object, a second application
   * configured without overrides still sees the first one's secret, and both hold one object.
   */
  method SharedDefaultsLeak(defaults: ConfigStore, secret: string) returns (a: App, b: App)
    modifies defaults
    ensures a.config == b.config == defaults
    ensures Lookup(b.config.entries, "secret") == Str(secret)
    ensures Get(b.settings, "secret") == Val(Str(secret))
  {
    a := new App(defaults, map[]);
    a.InitConfig(map["secret" := Str(secret)]);
    b := new App(defaults, map[]);
    b.InitConfig(map[]);
  }
}
