# express-extended: the application object's startup core

This project models the core of `src/express-extended.js`, which extends the Express application
object with modules, configuration and models. The model covers:

- `load(_ROOT, config)`.
- The shared `_DEFAULT_CONFIG` object and `_initConfig`, which merges the overrides into it in
  place.
- The module registry built by `_initModules` and read by `getModule`.
- Model addressing and the model cache in `model(name)`.
- The middleware stack `_boot` builds. Its stages are `_initDB` (settings only),
  `_initBaseMiddlewares`, `_initStaticMiddlewares`, `_initRoutes`, the not-found handler and
  `_initErrorhandler`.
- Which error handler answers an error passed down that stack.

The application object is the class `Application.App`. Its fields are `_ROOT`, `_modulePaths`,
`_modules`, `_models`, the settings, `_CONFIG` and the stack of `use` calls. Its methods change
them in place, as the source does.

`_DEFAULT_CONFIG` is a `Config.ConfigStore` object that every application shares, and
`_initConfig` merges into it. So two applications configured one after the other share one
configuration object, and the first one's overrides leak into the second
(`Application.SharedDefaultsLeak`).

The registry is a map together with the order in which `for...in` visits its keys, which is the
order of first insertion. The main module, named after `config.mainModuleName`, is registered
first. A later module with the same name replaces the earlier entry but keeps its place in the
order.

Two behaviours of the code are easy to misread; the model follows the code in both:

- `model(name)` caches an instance under the rewritten load path, not under the name it was asked
  for. Asking twice for `@m/rest` therefore builds two instances (`Application.RepeatedNamespacedModel`).
- The shared defaults object is mutated, as described above.

The source compares `mainModuleName` with `===` against the string key. A non-string
`mainModuleName`, such as a number, therefore does not exclude the main module from the static
mounts (`Mounts.NonStringMainNameMounted`).

Collaborators the file calls but does not contain are uninterpreted functions in
`Collaborators.Host`:

- the module path resolver, `require` of the module file and `new moduleF(this)`, as one step
  `loadModule` that yields the resolved path or fails when any of the three throws;
- `require` of a model file and `new ModelClass({ knex })`, as one test `canLoadModel`;
- `fs.lstatSync`;
- `path.join` and `path.dirname`;
- the module class's `getName`, `getModelPath`, `getPublicPath` and `getRoutes`;
- the knex factory.

A module step that throws is `None`, and startup then stops with `ModuleFailed` naming that
specifier. A `require` of a model file, or the construction of its class, that throws is
`canLoadModel` being false. Below, a specifier "resolves" when resolving, requiring and
constructing its module all succeed.

## Model

| member | source | states |
|---|---|---|
| Application.App.Load | src/express-extended.js:36-44 | `load` sets the root and module paths and empties the model cache. It merges the overrides into the shared defaults and makes them the configuration. It registers the main module and then the resolved modules. If a specifier does not resolve (resolving, requiring or constructing its module throws), it fails with that specifier, the stack is left unchanged and only the configuration settings are set. Otherwise the stack grows by exactly the boot mounts and the db settings are added. |
| Application.App.Prepare | src/express-extended.js:37-42 | The part of `load` before `_boot`: the root, module paths, empty cache, merged configuration and registry as above. The registry stays well formed and the development flag is unchanged. |
| Application.App.InitConfig | src/express-extended.js:238-246 | The shared defaults become the merge of their old entries with the overrides. `_CONFIG` is that same object. The settings `_CONFIG` and `config` refer to it, and `secret` copies its secret. |
| Application.App.InitModules | src/express-extended.js:274-306 | The registry becomes the old one with the main module and then every resolved module registered in order. The error is the first specifier that does not resolve. The registry stays well formed. |
| Resolution.RegisterResolved | src/express-extended.js:283-305 | The loop of `_initModules`. The returned registry is exactly `RegisterAll` over the main module followed by the modules resolved before the first failure. The error names that failure. Well-formedness is kept. |
| Resolution.ResolvedCount | src/express-extended.js:290-293 | The loop stops at the first specifier that does not resolve: every earlier specifier resolves and the one at the count does not. |
| Resolution.Resolved | src/express-extended.js:290-301 | One module per specifier up to the first that does not resolve, which is the next one when any is left. Module `i` has the resolved path of specifier `i`, the coerced `getName()` as its name, and as dirname the path itself when it is a directory and its parent otherwise. |
| Resolution.MainModule | src/express-extended.js:276-285 | The main module has no resolved path, its dirname is the root, and a string `mainModuleName` is its name unchanged. |
| Resolution.LoadedModule | src/express-extended.js:292-301 | A loaded module records its resolved path and coerced name, and its dirname is the path when that is a directory, else the path's parent. |
| Resolution.Unresolved | src/express-extended.js:290-294 | The error, when there is one, is `ModuleFailed` naming one of the specifiers; there is none iff every specifier produced a module. |
| Resolution.Registrations | src/express-extended.js:283-304 | The main module is always the first module registered. |
| Resolution.UnresolvedIsFirstFailure | src/express-extended.js:290-292 | Startup fails iff some specifier does not resolve. When it fails it names the first such specifier, and every earlier one resolved. When it succeeds every specifier contributed a module. |
| JsValues.PropertyKey | src/express-extended.js:285 | The key `_modules[m.getName()]` stores under: a string name is used unchanged, and any other primitive or plain object coerces to a non-empty key. |
| Modules.Registry.Register | src/express-extended.js:304 | `_modules[name] = m` keeps the registry well formed: distinct order, the same key set as the order, and every entry stored under its own name. |
| Modules.RegisterAllValid | src/express-extended.js:285-305 | Any sequence of registrations keeps the registry well formed. |
| Modules.RegisterAllOrder | src/express-extended.js:285-305 | After registrations into an empty registry, the `for...in` order is `Dedup` of the registered names: each name once, ordered by its first registration. A re-registered name does not move. |
| Modules.RegisterAllEntries | src/express-extended.js:285-305 | The keys are exactly the registered names, and each maps to the last module registered under it. |
| Modules.RegisteredFirst | src/express-extended.js:276-285 | The first module registered (the main module) is the first key visited and is registered. |
| Modules.Dedup | src/express-extended.js:171 | Reference definition of the `for...in` order: no repeats, exactly the elements of its input, and ordered by each element's first occurrence (`FirstIndex`). |
| Seqs.FirstIndex | src/express-extended.js:95 | `indexOf`, and the first-registration position the module order is compared by: -1 iff the element does not occur, otherwise a position holding it with no earlier one. |
| Seqs.FirstIndexSnoc | src/express-extended.js:304 | Registering another name later does not move the first registration of a name already present. |
| Application.App.GetModule | src/express-extended.js:69-76 | Succeeds iff the name is registered, returning that entry, whose name is the one asked for. Otherwise fails with "Unregistered module: '<name>'". |
| Application.App.Model | src/express-extended.js:83-114 | No `db` setting fails with "Can not create model without db config" and changes nothing. A cached name returns the cached instance. A namespaced name with an unregistered module fails naming that module. A `require` or model construction that throws fails naming the path. Otherwise a new instance is built from the load path with the `db` handle, and the cache gains exactly that entry under the load path. |
| Application.RepeatedNamespacedModel | src/express-extended.js:91-113 | Asking for `@m/rest` twice builds two distinct instances. Asking for the rewritten path returns the second, the only cache entry added. |
| Models.LoadPath | src/express-extended.js:95-108 | A name not starting with '@' is its own load path. Rewriting fails iff the name is namespaced and its module segment is not registered, and then it names that segment. |
| Models.PlainNameUnchanged | src/express-extended.js:95-110 | A name not starting with '@' is required as it is. |
| Models.LoadPathNamespaced | src/express-extended.js:95-107 | `@m/rest` is required as `path.join(modelPath(m), rest)` when module `m` is registered. Otherwise it fails naming `m`. |
| Models.LoadPathModuleOnly | src/express-extended.js:95-107 | `@m` with no '/' joins module `m`'s model path with the empty remainder, or fails naming `m`. |
| Models.NamespacedShape | src/express-extended.js:95-97 | Every namespaced name is `@` + a '/'-free module segment, optionally followed by '/' and the remainder. The two lemmas above therefore cover all namespaced names. |
| Models.ModelInstance.constructor | src/express-extended.js:111 | An instance records the path its class was loaded from and the knex handle it was given. |
| Paths.Split | src/express-extended.js:96 | `split` yields at least one piece, and no piece contains the separator. |
| Paths.Join | src/express-extended.js:105 | `join`: the first piece starts the result, and is followed by the separator when more pieces follow. JoinSplit and SplitJoin below relate it to `split`. |
| Paths.JoinSplit | src/express-extended.js:96-105 | Joining the pieces of a split with the same separator gives back the string. |
| Paths.SplitJoin | src/express-extended.js:96-105 | Splitting a join of separator-free pieces gives back the pieces. |
| Paths.SplitFree | src/express-extended.js:96-97 | A separator-free string splits into itself alone. |
| Paths.SplitAfter | src/express-extended.js:96-97 | The first separator cuts off exactly the text before it. |
| Config.ConfigStore.constructor | src/express-extended.js:23-28 | The defaults object starts as `basePath '/'`, `db false`, `secret false`, `mainModuleName "__main"`. |
| Config.Merge | src/express-extended.js:240 | The keys are those of both maps. Each key reads the override when it is defined, and the old value otherwise. |
| Config.MergeIdempotent | src/express-extended.js:240 | Merging the same overrides a second time changes nothing. |
| Config.MergeOntoDefaults | src/express-extended.js:23-28 | Every default option survives the merge. It keeps its default value unless the overrides define it. |
| Application.SharedDefaultsLeak | src/express-extended.js:238-246 | A second application configured with no overrides shares the first one's configuration object and sees the first one's secret, in its config and in its `secret` setting. |
| AppSettings.ConfigSettings | src/express-extended.js:243-245 | `_CONFIG` and `config` refer to the configuration object, `secret` holds its secret value, and every other setting is unchanged. |
| AppSettings.ConfigSettingsKeepEnv | src/express-extended.js:238-246 | `_initConfig` leaves the `env` setting, and so the development flag, unchanged. |
| AppSettings.DbSettings | src/express-extended.js:222-231 | A falsy `config.db` leaves the settings unchanged. Otherwise `db` and `knex` both hold the one handle from the knex factory. No other setting changes. |
| AppSettings.DbSettingsKeepEnv | src/express-extended.js:222-231 | `_initDB` leaves the `env` setting, and so the development flag, unchanged. |
| Application.App.InitDB | src/express-extended.js:222-231 | The settings become `DbSettings` of the old settings and the configuration. |
| Application.App.Boot | src/express-extended.js:121-138 | The settings gain the db handle. The stack grows by exactly the base mounts, the module statics, the module routes, the not-found handler and the error handlers, in that order. |
| Application.App.Use | src/express-extended.js:131-135 | `this.use(...)` appends exactly one mount to the stack. |
| Application.App.InitBaseMiddlewares | src/express-extended.js:185-201 | The stack grows by the five base mounts, then session and flash when `secret !== false`. |
| Application.App.InitStaticMiddlewares | src/express-extended.js:170-178 | The stack grows by `StaticMounts` over the registry in `for...in` order. |
| Application.App.InitRoutes | src/express-extended.js:254-266 | The stack grows by `RouteMounts` over the registry in `for...in` order. |
| Application.App.InitErrorhandler | src/express-extended.js:145-163 | The stack grows by the development handler when `env` is "development", and then the production handler. |
| Mounts.BaseMounts | src/express-extended.js:185-201 | Seven mounts iff `secret !== false`, five otherwise. All are mounted without a path, none handles errors, and the fifth serves `<root>/public`. |
| Mounts.ErrorHandlers | src/express-extended.js:145-163 | The production handler is always last, every mount handles errors, and the development handler comes first iff in development. |
| Mounts.BootMounts | src/express-extended.js:121-138 | The boot stack's length is the base mounts, one per non-main module, one per module with truthy routes, the 404 handler and the error handlers. |
| Mounts.StaticMounts | src/express-extended.js:170-178 | Every static mount has a path and an `express.static` handler. |
| Mounts.StaticMountsLength | src/express-extended.js:170-178 | There is one static mount per name that is not the main module's name. |
| Mounts.StaticMountAt | src/express-extended.js:170-178 | Each non-main name's mount sits at its rank among the non-main names. |
| Mounts.StaticMountsSound | src/express-extended.js:170-178 | Every static mount belongs to some non-main name of the walk. |
| Mounts.StaticMountsComplete | src/express-extended.js:170-178 | Every registered module other than the main one gets a static mount. |
| Mounts.StaticMountsRegistered | src/express-extended.js:170-178 | Every static mount serves a registered module other than the main one. |
| Mounts.StaticPathsDistinct | src/express-extended.js:170-178 | Over distinct names, no two static mounts share a path. |
| Mounts.MainNotStaticallyMounted | src/express-extended.js:172-174 | With a string `mainModuleName`, nothing is mounted at `'/' + mainModuleName`. |
| Mounts.NonStringMainNameMounted | src/express-extended.js:172-174 | With a non-string `mainModuleName`, the `===` test never matches. If the main module is registered under its coerced key, that key gets a static mount. |
| Mounts.RouteMounts | src/express-extended.js:254-266 | Every route mount is a router with truthy routes at `config.basePath`. |
| Mounts.RouteMountsLength | src/express-extended.js:254-266 | There is one route mount per module with truthy routes. |
| Mounts.RouteMountAt | src/express-extended.js:254-266 | A module with truthy routes has its mount at its rank among such modules. |
| Mounts.RouteMountsInRegistryOrder | src/express-extended.js:254-266 | Routes of two modules are mounted in the registry's `for...in` order. |
| Mounts.RouteMountsSound | src/express-extended.js:258-264 | Every route mount carries the routes of some module of the walk. |
| Mounts.BootPhaseAt | src/express-extended.js:121-138 | Each position of the boot stack belongs to the stage of the segment it falls in. |
| Mounts.BootPhasesOrdered | src/express-extended.js:121-138 | Along the boot stack the stage never goes back: base, statics, routes, 404, error handlers. |
| Mounts.SessionIffSecret | src/express-extended.js:192-200 | Session, and likewise flash, middleware appears in the boot stack iff `secret !== false`. |
| Mounts.StatusOf | src/express-extended.js:148 | `err.status \|\| 500` is always truthy. It is the status when that is truthy, and 500 otherwise. |
| Mounts.Respond | src/express-extended.js:147-161 | Both handlers render view "error" with the error's message and status. The error details are exposed iff it is the development handler. |
| Mounts.HandleError | src/express-extended.js:145-163 | There is no answer iff the stack holds no error handler. Otherwise the answer is `Respond` of the error handler at the first position that holds one. |
| Mounts.HandleErrorSkip | src/express-extended.js:145-163 | Middleware that handles no errors, placed in front, does not change the answer. |
| Mounts.BootErrorResponse | src/express-extended.js:137-163 | Over the boot stack, any error passed down the application's own stack is answered with `err.status \|\| 500`, view "error" and its message. Details are shown iff in development. |
| Mounts.NotFoundResponse | src/express-extended.js:131-162 | The not-found error ends in a 404 response with message "Not Found". |

## Left out

- JsValues.PropertyKey: only primitives and plain objects are modelled. Arrays, functions and
  objects with their own `toString` coerce to other keys (`String([])` is the empty string,
  `String([1, 2])` is "1,2"), so a module whose `getName()` returns one of them is not modelled.
- `_initAppLogger` and `_initViews` (winston logger, nunjucks environment and the `logger` and
  `view engine` settings): they only configure third-party libraries, and nothing in this core
  reads those settings.
- `getModules` and `registerModules`: plain accessors. `registerModules()`'s result is the
  `registered` parameter of `Load`.
- Request-time behaviour of the mounted middleware, apart from choosing which error handler
  answers an error. Logging, body parsing, cookies, sessions, flash and static serving are tags.
- Config.Merge: lodash's `merge` is recursive. Only its top level is modelled; nested objects are
  opaque `Obj` values that are replaced, not merged.
- JavaScript numbers are modelled as integers only (`Num(int)`).
- Module construction (`new moduleF(this)`, the main module subclass) and `lstatSync` are
  reduced to the `Host` functions. An `lstatSync` that throws is not modelled.
- `path.join` and `path.dirname` are uninterpreted, so path normalisation is not modelled.
- `_modules` and `_models` are JavaScript arrays used as dictionaries. Array-specific quirks are
  not modelled: inherited keys such as `length` answering `in`, and integer-like keys being
  visited first by `for...in`.
- Application.App.InitModules: the source writes each module into `_modules` inside the loop. The
  model runs the loop on a registry value (`Resolution.RegisterResolved`) and assigns the result.
  The end state and the error are the same.
- Application.App.InitDB: the knex factory is total; a `require('knex')(db)` that throws, which
  would abort `load` after the configuration and the modules are in place, is not modelled.
- Application.App.InitRoutes: a truthy `getRoutes()` result is taken to be middleware; one that
  `this.use` rejects, which would throw and abort `load` partway through the routes, is not
  modelled.
- Mounts.BootErrorResponse: a module's router is one mount that answers no error. Error
  middleware inside a module's own router, which can answer errors raised by that module's
  routes before they reach the application's handlers, is not modelled.
- Application.App.Model: whether `require(path)` and `new ModelClass({ knex })` both succeed is
  modelled by `canLoadModel`. The loaded class and what its constructor does are not modelled;
  the instance records the path it came from.
