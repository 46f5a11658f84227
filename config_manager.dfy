/**
 * The configuration manager (`config.ConfigurationManager`): a map from
 * configuration key to value, filled from a caller's map and then from the
 * process environment, with guarded `Get` and `Set`.
 *
 * Go keeps the values as `interface{}`; every value the manager itself
 * stores is a string, so values are strings here and a nil value is `None`.
 * The environment (`os.Environ()`) is a parameter.
 */
module Config {
  import opened Common
  import opened GoStrings

  datatype ConfigError = EmptyKey | NilConfiguration | KeyNotFound | NilValue

  /** `Get(key)` over the configuration map, which may be nil. */
  function GetEntry(cfg: Option<map<string, string>>, key: string): (r: Result<string, ConfigError>)
    ensures key == "" ==> r == Err(EmptyKey)
    ensures key != "" && cfg.None? ==> r == Err(NilConfiguration)
    ensures key != "" && cfg.Some? && key !in cfg.value ==> r == Err(KeyNotFound)
    ensures r.Ok? <==> key != "" && cfg.Some? && key in cfg.value
    ensures r.Ok? ==> r.value == cfg.value[key]
  {
    if key == "" then Err(EmptyKey)
    else if cfg.None? then Err(NilConfiguration)
    else if key !in cfg.value then Err(KeyNotFound)
    else Ok(cfg.value[key])
  }

  /** `Set(key, value)`: the new configuration and the error; a nil map is created on the first successful set. */
  function SetEntry(cfg: Option<map<string, string>>, key: string, value: Option<string>)
    : (r: (Option<map<string, string>>, Option<ConfigError>))
    ensures key == "" ==> r == (cfg, Some(EmptyKey))
    ensures key != "" && value.None? ==> r == (cfg, Some(NilValue))
    ensures r.1.None? <==> key != "" && value.Some?
    ensures r.1.None? ==> r.0.Some? && r.0.value == (if cfg.Some? then cfg.value else map[])[key := value.value]
  {
    if key == "" then (cfg, Some(EmptyKey))
    else if value.None? then (cfg, Some(NilValue))
    else
      var m := if cfg.None? then map[] else cfg.value;
      (Some(m[key := value.value]), None)
  }

  /** After a successful `Set(k, v)`, `Get(k)` answers `v` and every other key answers as before. */
  lemma SetThenGet(cfg: Option<map<string, string>>, k: string, v: string, other: string)
    requires k != ""
    ensures GetEntry(SetEntry(cfg, k, Some(v)).0, k) == Ok(v)
    ensures other != k && cfg.Some? ==> GetEntry(SetEntry(cfg, k, Some(v)).0, other) == GetEntry(cfg, other)
  {
  }

  /**
   * `splitEnvVar(envVar)`: the text before the first `=`, and the rest with
   * its `=` put back. The key contains no `=`; with an `=` in the input, key,
   * `=` and value spell the input, so the key is the text before the first
   * `=`; without one, the key is the whole input and the value is empty.
   */
  function SplitEnvVar(envVar: string): (kv: (string, string))
    ensures '=' !in kv.0
    ensures '=' in envVar ==> kv.0 + "=" + kv.1 == envVar
    ensures '=' !in envVar ==> kv == (envVar, "")
  {
    var parts := Split(envVar, '=');
    JoinSplit(envVar, '=');
    SplitHasSeveralPieces(envVar, '=');
    assert '=' in envVar ==> Join(parts, '=') == parts[0] + ['='] + Join(parts[1..], '=');
    assert '=' !in envVar ==> parts[1..] == [];
    (parts[0], Join(parts[1..], '='))
  }

  /** The key part of an environment entry. */
  function EnvKey(envVar: string): string {
    SplitEnvVar(envVar).0
  }

  /**
   * `LoadFromEnvironment`: each entry in order is `Set`; entries with an empty
   * key are refused and skipped. A nil configuration becomes a map exactly
   * when some entry has a key.
   */
  function ApplyEnv(cfg: Option<map<string, string>>, environment: seq<string>): (r: Option<map<string, string>>)
    ensures r.Some? <==> cfg.Some? || exists j :: 0 <= j < |environment| && EnvKey(environment[j]) != ""
    decreases |environment|
  {
    if environment == [] then cfg
    else
      var kv := SplitEnvVar(environment[|environment| - 1]);
      SetEntry(ApplyEnv(cfg, environment[..|environment| - 1]), kv.0, Some(kv.1)).0
  }

  /** The last environment entry with a (non-empty) key decides that key's value. */
  lemma {:induction false} EnvLastWins(cfg: Option<map<string, string>>, environment: seq<string>, i: int)
    requires 0 <= i < |environment| && EnvKey(environment[i]) != ""
    requires forall j :: i < j < |environment| ==> EnvKey(environment[j]) != EnvKey(environment[i])
    ensures ApplyEnv(cfg, environment).Some?
    ensures GetEntry(ApplyEnv(cfg, environment), EnvKey(environment[i])) == Ok(SplitEnvVar(environment[i]).1)
    decreases |environment|
  {
    var init := environment[..|environment| - 1];
    if i < |environment| - 1 {
      EnvLastWins(cfg, init, i);
    }
  }

  /** A key no environment entry names keeps its configured value, or stays absent. */
  lemma {:induction false} EnvKeepsConfig(cfg: Option<map<string, string>>, environment: seq<string>, k: string)
    requires forall j :: 0 <= j < |environment| ==> EnvKey(environment[j]) != k
    ensures GetEntry(ApplyEnv(cfg, environment), k).Ok? ==> GetEntry(ApplyEnv(cfg, environment), k) == GetEntry(cfg, k)
    ensures cfg.Some? ==> ApplyEnv(cfg, environment).Some? && GetEntry(ApplyEnv(cfg, environment), k) == GetEntry(cfg, k)
    decreases |environment|
  {
    if environment != [] {
      EnvKeepsConfig(cfg, environment[..|environment| - 1], k);
    }
  }

  class ConfigurationManager {
    var configuration: Option<map<string, string>>

    /**
     * `NewConfigurationManager(configMap)`: a copy of `configMap`, then
     * `LoadFromEnvironment` over `environment`.
     */
    constructor (configMap: map<string, string>, environment: seq<string>)
      ensures configuration == ApplyEnv(Some(configMap), environment)
    {
      configuration := Some(map[]);
      new;
      var unvisited := configMap.Keys;
      while unvisited != {}
        invariant unvisited <= configMap.Keys
        invariant configuration.Some?
        invariant forall k :: k in configuration.value <==> k in configMap && k !in unvisited
        invariant forall k :: k in configuration.value ==> configuration.value[k] == configMap[k]
        decreases |unvisited|
      {
        var key :| key in unvisited;
        configuration := Some(configuration.value[key := configMap[key]]);
        unvisited := unvisited - {key};
      }
      assert configuration.value == configMap;
      var _ := LoadFromEnvironment(environment);
    }

    method Get(key: string) returns (r: Result<string, ConfigError>)
      ensures r == GetEntry(configuration, key)
    {
      if key == "" {
        return Err(EmptyKey);
      }
      if configuration.None? {
        return Err(NilConfiguration);
      }
      if key !in configuration.value {
        return Err(KeyNotFound);
      }
      r := Ok(configuration.value[key]);
    }

    method Set(key: string, value: Option<string>) returns (err: Option<ConfigError>)
      modifies this
      ensures (configuration, err) == SetEntry(old(configuration), key, value)
    {
      if key == "" {
        return Some(EmptyKey);
      }
      if value.None? {
        return Some(NilValue);
      }
      if configuration.None? {
        configuration := Some(map[]);
      }
      configuration := Some(configuration.value[key := value.value]);
      err := None;
    }

    /** Sets every environment entry in order, ignoring the errors; always succeeds. */
    method LoadFromEnvironment(environment: seq<string>) returns (err: Option<ConfigError>)
      modifies this
      ensures err == None
      ensures configuration == ApplyEnv(old(configuration), environment)
    {
      var i := 0;
      while i < |environment|
        invariant 0 <= i <= |environment|
        invariant configuration == ApplyEnv(old(configuration), environment[..i])
      {
        var kv := SplitEnvVar(environment[i]);
        var _ := Set(kv.0, Some(kv.1));
        assert environment[..i + 1][..i] == environment[..i];
        i := i + 1;
      }
      assert environment[..i] == environment;
      err := None;
    }

    method GetConfig() returns (all: Option<map<string, string>>)
      ensures all == configuration
    {
      all := configuration;
    }
  }
}
