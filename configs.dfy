/**
 * Configuration resolution: reading `config.yml` (or its environment file)
 * under a root, picking the settings out of the document, and merging a
 * project's settings with those of the global configuration.
 */
module Configs {
  import opened Wrappers
  import opened Dicts
  import opened YamlFiles

  /**
   * The stored fields of a configuration; `None` is a field left unset. The
   * accessors give the value seen by the rest of the program, with the
   * hard-coded default in place of an unset field.
   */
  datatype ConfigValues = ConfigValues(
    replacements: Option<Dict<string>>,
    isIgnore: Option<bool>,
    isAutoMergeConfig: Option<bool>,
    isOnlyReplaceTemp: Option<bool>,
    isMultiProjectMode: Option<bool>,
    ignoreFiles: Option<seq<string>>)
  {
    predicate Valid() {
      replacements.Some? ==> replacements.value.Valid()
    }

    function Replacements(): (r: Dict<string>)
      ensures Valid() ==> r.Valid()
    {
      replacements.GetOr(Empty())
    }

    function IsIgnore(): bool { isIgnore.GetOr(false) }
    function IsAutoMergeConfig(): bool { isAutoMergeConfig.GetOr(true) }
    function IsOnlyReplaceTemp(): bool { isOnlyReplaceTemp.GetOr(false) }
    function IsMultiProjectMode(): bool { isMultiProjectMode.GetOr(false) }
    function IgnoreFiles(): seq<string> { ignoreFiles.GetOr([]) }
  }

  /** A configuration with every field unset. */
  const Unset: ConfigValues := ConfigValues(None, None, None, None, None, None)

  /** The value reached from `v` by following `keys` through nested mappings. */
  function Follow(v: Yaml, keys: seq<string>): Option<Yaml>
    decreases |keys|
  {
    if keys == [] then Some(v)
    else if v.YMap? && keys[0] in v.d.m then Follow(v.d.m[keys[0]], keys[1..])
    else None
  }

  /** The value `_get_config_value` finds: `None` for a missing document, else the value at `keys`. */
  function ValueAt(config: Option<Dict<Yaml>>, keys: seq<string>): Option<Yaml> {
    match config
    case None => None
    case Some(d) => Follow(YMap(d), keys)
  }

  /**
   * Following a path in two legs is following the first leg, then the
   * second from where it ended; a path breaks as soon as one key is missing.
   */
  lemma {:induction false} FollowComposes(v: Yaml, a: seq<string>, b: seq<string>)
    ensures Follow(v, a + b) == match Follow(v, a) case None => None case Some(w) => Follow(w, b)
    decreases |a|
  {
    if a == [] {
      assert a + b == b;
    } else {
      assert (a + b)[0] == a[0] && (a + b)[1..] == a[1..] + b;
      if v.YMap? && a[0] in v.d.m {
        FollowComposes(v.d.m[a[0]], a[1..], b);
      }
    }
  }

  /**
   * The lookup of one more key: `None` when the value reached so far is
   * missing or has no such key, else the value under that key.
   */
  lemma {:induction false} ValueAtStep(config: Option<Dict<Yaml>>, keys: seq<string>, k: string)
    ensures ValueAt(config, keys + [k]) ==
      match ValueAt(config, keys)
      case Some(YMap(d)) => if k in d.m then Some(d.m[k]) else None
      case _ => None
  {
    if config.Some? {
      FollowComposes(YMap(config.value), keys, [k]);
    }
  }

  /** A boolean setting; any other YAML value leaves it unset. */
  function AsBool(v: Option<Yaml>): Option<bool> {
    if v.Some? && v.value.YBool? then Some(v.value.b) else None
  }

  /** A list of strings; any other YAML value leaves it unset. */
  function AsStringList(v: Option<Yaml>): Option<seq<string>> {
    if v.Some? && v.value.YList? && forall i | 0 <= i < |v.value.items| :: v.value.items[i].YStr?
    then Some(seq(|v.value.items|, i requires 0 <= i < |v.value.items| => v.value.items[i].s))
    else None
  }

  /** A mapping from string to string, in document order; any other YAML value leaves it unset. */
  function AsStringDict(v: Option<Yaml>): (r: Option<Dict<string>>)
    ensures r.Some? ==> r.value.Valid()
  {
    if v.Some? && v.value.YMap? && v.value.d.Valid() && forall k | k in v.value.d.m :: v.value.d.m[k].YStr?
    then Some(Dict(v.value.d.keys, map k | k in v.value.d.m :: v.value.d.m[k].s))
    else None
  }

  /** The settings a loaded document holds, each unset where its key path is missing. */
  function FromDocument(doc: Dict<Yaml>): (v: ConfigValues)
    ensures v.Valid()
  {
    var config := Some(doc);
    ConfigValues(
      AsStringDict(ValueAt(config, ["replacements"])),
      AsBool(ValueAt(config, ["settings", "is_ignore"])),
      AsBool(ValueAt(config, ["settings", "is_auto_merge_config"])),
      AsBool(ValueAt(config, ["settings", "is_only_replace_temp"])),
      AsBool(ValueAt(config, ["settings", "is_multi_project_mode"])),
      AsStringList(ValueAt(config, ["settings", "ignore_files"])))
  }

  /** The `environments` list of a document, `None` when it has none. */
  function EnvironmentsOf(doc: Dict<Yaml>): Option<seq<string>> {
    AsStringList(ValueAt(Some(doc), ["environments"]))
  }

  /** The directory prefix of the configuration files: `root/`, or nothing without a root. */
  function BasePath(rootPath: Option<string>): string {
    if rootPath.Some? then rootPath.value + "/" else ""
  }

  function BaseFile(rootPath: Option<string>): string {
    BasePath(rootPath) + "config.yml"
  }

  function EnvironmentFile(rootPath: Option<string>, environment: string): string {
    BasePath(rootPath) + "config." + environment + ".yml"
  }

  /** `_merge_config`: the document at `path`; the `config` argument is discarded. */
  function MergeConfig(files: Snapshot, path: string, config: Dict<Yaml>): Dict<Yaml> {
    ReadYaml(files, path)
  }

  /** The document `init_config` ends up with under `rootPath`. */
  function LoadDocument(files: Snapshot, rootPath: Option<string>, environment: Option<string>): Dict<Yaml> {
    LoadDocumentAt(files, BasePath(rootPath), environment)
  }

  /** The document `init_config` ends up with once the directory prefix `basePath` is fixed. */
  function LoadDocumentAt(files: Snapshot, basePath: string, environment: Option<string>): Dict<Yaml> {
    var config := MergeConfig(files, basePath + "config.yml", Empty());
    if environment.Some? then MergeConfig(files, basePath + "config." + environment.value + ".yml", config)
    else config
  }

  /**
   * With an environment, the environment file alone decides the document:
   * whatever `config.yml` holds, or whether it exists, makes no difference.
   */
  lemma {:induction false} EnvironmentFileReplacesBase(files: Snapshot, rootPath: Option<string>, environment: string, base: Dict<Yaml>)
    ensures LoadDocument(files[BaseFile(rootPath) := base], rootPath, Some(environment))
         == LoadDocument(files, rootPath, Some(environment))
    ensures LoadDocument(files - {BaseFile(rootPath)}, rootPath, Some(environment))
         == LoadDocument(files, rootPath, Some(environment))
  {
    assert |BaseFile(rootPath)| < |EnvironmentFile(rootPath, environment)|;
  }

  /** Without an environment file, an environment leaves every setting unset. */
  lemma {:induction false} MissingEnvironmentFileUnsetsAll(files: Snapshot, rootPath: Option<string>, environment: string)
    requires EnvironmentFile(rootPath, environment) !in files
    ensures LoadDocument(files, rootPath, Some(environment)) == Empty()
    ensures FromDocument(LoadDocument(files, rootPath, Some(environment))) == Unset
  {
  }

  /** The merge with a parent configuration, as `init_config` performs it when it has one. */
  function Resolve(local: ConfigValues, parent: Option<ConfigValues>): (v: ConfigValues)
    requires local.Valid()
    requires parent.Some? ==> parent.value.Valid()
    ensures v.Valid()
  {
    match parent
    case None => local
    case Some(g) =>
      ConfigValues(
        Some(g.Replacements().Update(local.Replacements())),
        Some(if local.isIgnore.None? then g.IsIgnore() else local.IsIgnore()),
        Some(if local.isAutoMergeConfig.None? then g.IsAutoMergeConfig() else local.IsAutoMergeConfig()),
        Some(if local.isOnlyReplaceTemp.None? then g.IsOnlyReplaceTemp() else local.IsOnlyReplaceTemp()),
        Some(if local.isMultiProjectMode.None? then g.IsMultiProjectMode() else local.IsMultiProjectMode()),
        Some(g.IgnoreFiles() + local.IgnoreFiles()))
  }

  /**
   * Without a parent the local fields stay as they are. With one, every flag
   * is set: to its local value when that is set, else to the parent's value
   * with defaults applied; the replacements are the parent's, then the new
   * local keys, with the local value winning on a shared key; the ignore
   * patterns are the parent's followed by the local ones, duplicates kept.
   */
  lemma {:induction false} ResolveMerges(local: ConfigValues, parent: Option<ConfigValues>)
    requires local.Valid()
    requires parent.Some? ==> parent.value.Valid()
    ensures parent.None? ==> Resolve(local, parent) == local
    ensures parent.Some? ==>
      var g, v := parent.value, Resolve(local, parent);
      && v.isIgnore.Some? && v.isAutoMergeConfig.Some?
      && v.isOnlyReplaceTemp.Some? && v.isMultiProjectMode.Some?
      && v.IsIgnore() == (if local.isIgnore.Some? then local.isIgnore.value else g.IsIgnore())
      && v.IsAutoMergeConfig() == (if local.isAutoMergeConfig.Some? then local.isAutoMergeConfig.value else g.IsAutoMergeConfig())
      && v.IsOnlyReplaceTemp() == (if local.isOnlyReplaceTemp.Some? then local.isOnlyReplaceTemp.value else g.IsOnlyReplaceTemp())
      && v.IsMultiProjectMode() == (if local.isMultiProjectMode.Some? then local.isMultiProjectMode.value else g.IsMultiProjectMode())
      && v.Replacements().m == g.Replacements().m + local.Replacements().m
      && v.Replacements().keys == g.Replacements().keys + KeysNotIn(local.Replacements().keys, g.Replacements().m)
      && v.IgnoreFiles() == g.IgnoreFiles() + local.IgnoreFiles()
  {
    if parent.Some? {
      UpdateMerges(parent.value.Replacements(), local.Replacements());
    }
  }

  /** A project with no settings of its own sees exactly what its parent sees. */
  lemma {:induction false} EmptyProjectInheritsParent(g: ConfigValues)
    requires g.Valid()
    ensures var v := Resolve(Unset, Some(g));
      && v.Replacements() == g.Replacements()
      && v.IsIgnore() == g.IsIgnore()
      && v.IsAutoMergeConfig() == g.IsAutoMergeConfig()
      && v.IsOnlyReplaceTemp() == g.IsOnlyReplaceTemp()
      && v.IsMultiProjectMode() == g.IsMultiProjectMode()
      && v.IgnoreFiles() == g.IgnoreFiles()
  {
    var v := Resolve(Unset, Some(g));
    UpdateMerges(g.Replacements(), Empty());
    assert KeysNotIn<string>([], g.Replacements().m) == [];
    assert g.Replacements().keys + [] == g.Replacements().keys;
    assert g.Replacements().m + map[] == g.Replacements().m;
    assert v.IgnoreFiles() == g.IgnoreFiles() + [];
  }

  /** A configuration object: the stored fields of `ConfigValues`, assigned by `InitConfig`. */
  class Config {
    var replacements: Option<Dict<string>>
    var isIgnore: Option<bool>
    var isAutoMergeConfig: Option<bool>
    var isOnlyReplaceTemp: Option<bool>
    var isMultiProjectMode: Option<bool>
    var ignoreFiles: Option<seq<string>>

    function Values(): ConfigValues
      reads this
    {
      ConfigValues(replacements, isIgnore, isAutoMergeConfig, isOnlyReplaceTemp, isMultiProjectMode, ignoreFiles)
    }

    /** A fresh configuration: no replacements, and every other setting unset, so at its default. */
    constructor ()
      ensures Values() == ConfigValues(Some(Empty()), None, None, None, None, None)
      ensures Values().Valid()
      ensures Values().Replacements() == Empty()
      ensures !Values().IsIgnore() && Values().IsAutoMergeConfig()
      ensures !Values().IsOnlyReplaceTemp() && !Values().IsMultiProjectMode()
      ensures Values().IgnoreFiles() == []
    {
      replacements := Some(Empty());
      isIgnore := None;
      isAutoMergeConfig := None;
      isOnlyReplaceTemp := None;
      isMultiProjectMode := None;
      ignoreFiles := None;
    }

    /**
     * Loads the document under `rootPath` for `environment`, sets every field
     * from it, then merges with `globalConfig` when there is one. Returns the
     * document.
     */
    method InitConfig(files: Snapshot, rootPath: Option<string>, environment: Option<string>, globalConfig: Config?)
      returns (config: Dict<Yaml>)
      requires globalConfig != this
      requires globalConfig != null ==> globalConfig.Values().Valid()
      modifies this
      ensures config == LoadDocument(files, rootPath, environment)
      ensures Values() == Resolve(FromDocument(config), if globalConfig == null then None else Some(globalConfig.Values()))
      ensures Values().Valid()
    {
      config := LoadConfigFiles(files, rootPath, environment);
      SetFromDocument(config);
      if globalConfig != null {
        MergeGlobal(globalConfig.Values());
      }
    }

    /** The loading half of `init_config`: `config.yml`, then the environment file, each through `_merge_config`. */
    static method LoadConfigFiles(files: Snapshot, rootPath: Option<string>, environment: Option<string>) returns (config: Dict<Yaml>)
      ensures config == LoadDocument(files, rootPath, environment)
    {
      config := Empty();
      var basePath := BasePath(rootPath);
      var path := basePath + "config.yml";
      config := MergeConfig(files, path, config);
      if environment.Some? {
        path := basePath + "config." + environment.value + ".yml";
        config := MergeConfig(files, path, config);
      }
    }

    /** Sets every field from the document, each through `_get_config_value`. */
    method SetFromDocument(config: Dict<Yaml>)
      modifies this
      ensures Values() == FromDocument(config)
    {
      var found := GetConfigValue(Some(config), ["replacements"]);
      replacements := AsStringDict(found);
      found := GetConfigValue(Some(config), ["settings", "is_ignore"]);
      isIgnore := AsBool(found);
      found := GetConfigValue(Some(config), ["settings", "is_auto_merge_config"]);
      isAutoMergeConfig := AsBool(found);
      found := GetConfigValue(Some(config), ["settings", "is_only_replace_temp"]);
      isOnlyReplaceTemp := AsBool(found);
      found := GetConfigValue(Some(config), ["settings", "is_multi_project_mode"]);
      isMultiProjectMode := AsBool(found);
      found := GetConfigValue(Some(config), ["settings", "ignore_files"]);
      ignoreFiles := AsStringList(found);
    }

    /** The merge with the global configuration at the end of `init_config`. */
    method MergeGlobal(g: ConfigValues)
      requires Values().Valid() && g.Valid()
      modifies this
      ensures Values() == Resolve(old(Values()), Some(g))
    {
      var local := Values();
      isIgnore, isAutoMergeConfig, isOnlyReplaceTemp, isMultiProjectMode, replacements, ignoreFiles :=
        Some(if local.isIgnore.None? then g.IsIgnore() else local.IsIgnore()),
        Some(if local.isAutoMergeConfig.None? then g.IsAutoMergeConfig() else local.IsAutoMergeConfig()),
        Some(if local.isOnlyReplaceTemp.None? then g.IsOnlyReplaceTemp() else local.IsOnlyReplaceTemp()),
        Some(if local.isMultiProjectMode.None? then g.IsMultiProjectMode() else local.IsMultiProjectMode()),
        Some(g.Replacements().Update(local.Replacements())),
        Some(g.IgnoreFiles() + local.IgnoreFiles());
    }

    /**
     * `_get_config_value`: walks `keys` one at a time from the document,
     * stopping with `None` at the first key that is missing.
     */
    method GetConfigValue(config: Option<Dict<Yaml>>, keys: seq<string>) returns (r: Option<Yaml>)
      ensures r == ValueAt(config, keys)
    {
      if config.None? {
        return None;
      }
      var vals := YMap(config.value);
      var i := 0;
      assert keys[0..] == keys;
      while i < |keys|
        invariant 0 <= i <= |keys|
        invariant Follow(vals, keys[i..]) == ValueAt(config, keys)
      {
        assert keys[i..][0] == keys[i] && keys[i..][1..] == keys[i + 1..];
        if !(vals.YMap? && keys[i] in vals.d.m) {
          return None;
        }
        vals := vals.d.m[keys[i]];
        i := i + 1;
      }
      r := Some(vals);
    }
  }

  /** `init_config` of the global configuration finds no `environments` list. */
  datatype ConfigError = EnvironmentsNotFound

  /** The global configuration: a configuration plus the environments to build. */
  class GlobalConfig {
    const config: Config
    var environments: seq<string>

    constructor ()
      ensures fresh(config)
      ensures config.Values() == ConfigValues(Some(Empty()), None, None, None, None, None)
      ensures environments == []
    {
      config := new Config();
      environments := [];
    }

    /**
     * Loads the configuration with no parent, then takes the `environments`
     * list, failing when the document has none.
     */
    method InitConfig(files: Snapshot, rootPath: Option<string>, environment: Option<string>)
      returns (r: Result<Dict<Yaml>, ConfigError>)
      modifies this, config
      ensures config.Values() == FromDocument(LoadDocument(files, rootPath, environment))
      ensures var found := EnvironmentsOf(LoadDocument(files, rootPath, environment));
        && (found.None? <==> r == Failure(EnvironmentsNotFound))
        && (found.Some? ==> r == Success(LoadDocument(files, rootPath, environment)) && environments == found.value)
      ensures r.Failure? ==> environments == old(environments)
    {
      var doc := config.InitConfig(files, rootPath, environment, null);
      var value := config.GetConfigValue(Some(doc), ["environments"]);
      var found := AsStringList(value);
      if found.None? {
        return Failure(EnvironmentsNotFound);
      }
      environments := found.value;
      r := Success(doc);
    }
  }
}
