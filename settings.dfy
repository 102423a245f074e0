/** The Express application settings (`app.set` / `app.get`) the modelled code writes and reads. */
module AppSettings {
  import opened JsValues
  import opened Config
  import opened Collaborators

  /** A setting holds a value, or a reference to the configuration object itself. */
  datatype Setting = Val(v: Value) | ConfigRef(store: ConfigStore)

  /** `app.get(key)`: an unset key reads as undefined. */
  function Get(settings: map<string, Setting>, key: string): Setting {
    if key in settings then settings[key] else Val(Undefined)
  }

  /** `app.get('env') === 'development'`. */
  predicate IsDevelopment(settings: map<string, Setting>) {
    Get(settings, "env") == Val(Str("development"))
  }

  /** What `_initConfig` sets: `_CONFIG` and `config` refer to the merged object; `secret` copies its value. */
  function ConfigSettings(settings: map<string, Setting>, store: ConfigStore, cfg: map<string, Value>): (r: map<string, Setting>)
    ensures Get(r, "_CONFIG") == Get(r, "config") == ConfigRef(store)
    ensures Get(r, "secret") == Val(Lookup(cfg, "secret"))
    ensures forall k :: k != "_CONFIG" && k != "config" && k != "secret" ==> Get(r, k) == Get(settings, k)
  {
    settings["_CONFIG" := ConfigRef(store)]["config" := ConfigRef(store)]["secret" := Val(Lookup(cfg, "secret"))]
  }

  /**
   * What `_initDB` sets: nothing when `config.db` is falsy, otherwise one knex handle under
   * both `knex` and its alias `db`.
   */
  function DbSettings(settings: map<string, Setting>, cfg: map<string, Value>, host: Host): (r: map<string, Setting>)
    ensures !Truthy(Lookup(cfg, "db")) ==> r == settings
    ensures Truthy(Lookup(cfg, "db")) ==> Get(r, "db") == Get(r, "knex") == Val(host.connect(Lookup(cfg, "db")))
    ensures forall k :: k != "db" && k != "knex" ==> Get(r, k) == Get(settings, k)
  {
    if !Truthy(Lookup(cfg, "db")) then settings
    else
      var knex := host.connect(Lookup(cfg, "db"));
      settings["knex" := Val(knex)]["db" := Val(knex)]
  }

  /** `_initConfig` leaves the `env` setting, and with it the development flag, as it was. */
  lemma ConfigSettingsKeepEnv(settings: map<string, Setting>, store: ConfigStore, cfg: map<string, Value>)
    ensures Get(ConfigSettings(settings, store, cfg), "env") == Get(settings, "env")
    ensures IsDevelopment(ConfigSettings(settings, store, cfg)) == IsDevelopment(settings)
  {
    assert "env" != "_CONFIG" && "env" != "config" && "env" != "secret";
  }

  /** `_initDB` leaves the `env` setting, and with it the development flag, as it was. */
  lemma DbSettingsKeepEnv(settings: map<string, Setting>, cfg: map<string, Value>, host: Host)
    ensures Get(DbSettings(settings, cfg, host), "env") == Get(settings, "env")
    ensures IsDevelopment(DbSettings(settings, cfg, host)) == IsDevelopment(settings)
  {
    assert "env" != "db" && "env" != "knex";
  }
}
