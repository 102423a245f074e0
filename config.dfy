/** The configuration object: the shared defaults and the overlay `_initConfig` performs on them. */
module Config {
  import opened JsValues

  /** `_DEFAULT_CONFIG` as the source declares it. */
  function Defaults(): map<string, Value> {
    map[
      "basePath" := Str("/"),
      "db" := Bool(false),
      "secret" := Bool(false),
      "mainModuleName" := Str("__main")
    ]
  }

  /** Reading `cfg.key`: a missing key reads as undefined. */
  function Lookup(cfg: map<string, Value>, key: string): Value {
    if key in cfg then cfg[key] else Undefined
  }

  /**
   * The top level of lodash's `merge(target, source)`: every key of `source` is copied,
   * except that an undefined source value does not replace a key `target` already has.
   */
  function Merge(target: map<string, Value>, source: map<string, Value>): (r: map<string, Value>)
    ensures r.Keys == target.Keys + source.Keys
    ensures forall k :: Lookup(r, k) == if Lookup(source, k) != Undefined then Lookup(source, k) else Lookup(target, k)
  {
    map k | k in target.Keys + source.Keys ::
      if k in source && (source[k] != Undefined || k !in target) then source[k] else target[k]
  }

  /** Overlaying the same overrides twice changes nothing more than overlaying them once. */
  lemma MergeIdempotent(target: map<string, Value>, source: map<string, Value>)
    ensures Merge(Merge(target, source), source) == Merge(target, source)
  {
    var once := Merge(target, source);
    var twice := Merge(once, source);
    forall k | k in twice.Keys ensures twice[k] == once[k] {
      assert Lookup(twice, k) == Lookup(once, k);
    }
  }

  /**
   * Every option the overrides leave out or leave undefined keeps its default, and every
   * defined override wins.
   */
  lemma MergeOntoDefaults(overrides: map<string, Value>, key: string)
    requires key in Defaults()
    ensures var c := Merge(Defaults(), overrides);
      key in c && (c[key] == if Lookup(overrides, key) != Undefined then overrides[key] else Defaults()[key])
  {
  }

  /** The object `_DEFAULT_CONFIG` refers to; `_initConfig` merges into it in place. */
  class ConfigStore {
    var entries: map<string, Value>

    constructor ()
      ensures entries == Defaults()
    {
      entries := Defaults();
    }
  }
}
