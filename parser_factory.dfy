/**
 * The default parser factory: the registry from placeholder key to parser,
 * one parameter parser per replacement parameter, then one file parser per
 * selected replacement file, a file parser replacing a parameter parser
 * with the same key.
 */
module ParserFactories {
  import opened Wrappers
  import opened Strings
  import opened Dicts
  import opened Parsers

  /**
   * What the factory reads from the configuration object it is given: the
   * object itself (stored in the parsers it makes), the replacement
   * parameters, the replacement file paths, the base path and the
   * environment (which may be absent).
   */
  datatype FactoryConfig = FactoryConfig(
    config: object,
    replacementParams: Dict<string>,
    replacementFiles: seq<string>,
    basePath: string,
    environment: Option<string>)

  /** A parser as the registry describes it: its kind, owner, key and value or path. */
  datatype Entry =
    | ParamEntry(config: object, key: string, value: string)
    | FileEntry(config: object, key: string, path: string)

  /** The description of a parser made by the factory (all the fields read here are constant). */
  function EntryOf(p: Parser): Entry {
    match p
    case Value(v) => ParamEntry(v.config, v.key, v.value)
    case File(f) => FileEntry(f.config, f.key, f.path)
  }

  /** The description of every parser of a registry, key by key, in the same order. */
  function Entries(r: Dict<Parser>): Dict<Entry> {
    Dict(r.keys, map k | k in r.m :: EntryOf(r.m[k]))
  }

  /** Describing the parsers commutes with assigning one. */
  lemma {:induction false} EntriesSet(r: Dict<Parser>, k: string, p: Parser)
    ensures Entries(r.Set(k, p)) == Entries(r).Set(k, EntryOf(p))
  {
    assert Entries(r.Set(k, p)).m == Entries(r).Set(k, EntryOf(p)).m;
  }

  /** Dictionaries with the same keys filter a key list alike. */
  lemma {:induction false} KeysNotInSameKeys<V, W>(ks: seq<string>, m1: map<string, V>, m2: map<string, W>)
    requires m1.Keys == m2.Keys
    ensures KeysNotIn(ks, m1) == KeysNotIn(ks, m2)
    decreases |ks|
  {
    if ks != [] {
      KeysNotInSameKeys(ks[1..], m1, m2);
    }
  }

  /** Describing the parsers keeps the keys, so a valid registry gives a valid description. */
  lemma {:induction false} EntriesValid(b: Dict<Parser>)
    requires b.Valid()
    ensures Entries(b).Valid()
  {
    assert Entries(b).m.Keys == b.m.Keys;
  }

  /** Describing the parsers commutes with `update`: same keys in the same order, same descriptions. */
  lemma {:induction false} EntriesUpdate(a: Dict<Parser>, b: Dict<Parser>)
    requires b.Valid()
    ensures Entries(b).Valid()
    ensures Entries(a.Update(b)) == Entries(a).Update(Entries(b))
  {
    EntriesValid(b);
    var ea, eb := Entries(a), Entries(b);
    var u := a.Update(b);
    UpdateMerges(a, b);
    UpdateMerges(ea, eb);
    KeysNotInSameKeys(b.keys, a.m, ea.m);
    assert Entries(u).keys == ea.Update(eb).keys;
    assert Entries(u).m == ea.Update(eb).m by {
      EntriesUpdateMap(a, b);
    }
  }

  /** The descriptions after `update`, key by key. */
  lemma {:induction false} EntriesUpdateMap(a: Dict<Parser>, b: Dict<Parser>)
    requires b.Valid()
    ensures Entries(a.Update(b)).m == Entries(a).m + Entries(b).m
  {
    UpdateMerges(a, b);
    var lhs := Entries(a.Update(b)).m;
    var rhs := Entries(a).m + Entries(b).m;
    assert lhs.Keys == rhs.Keys;
    forall k | k in lhs ensures lhs[k] == rhs[k] {
      if k in b.m {
        assert lhs[k] == EntryOf(b.m[k]);
      } else {
        assert lhs[k] == EntryOf(a.m[k]);
      }
    }
  }

  /** The registry `_get_param_parsers` fills, after the keys `ks` of the parameters. */
  function ParamEntries(config: object, ks: seq<string>, params: map<string, string>): (r: Dict<Entry>)
    requires forall k | k in ks :: k in params
    ensures r.Valid()
    decreases |ks|
  {
    if ks == [] then Empty()
    else
      var key := ks[|ks| - 1];
      ParamEntries(config, ks[..|ks| - 1], params).Set(key, ParamEntry(config, key, params[key]))
  }

  /** One more parameter, as the loop of `_get_param_parsers` takes it. */
  lemma {:induction false} ParamEntriesStep(config: object, ks: seq<string>, params: map<string, string>, i: int)
    requires forall k | k in ks :: k in params
    requires 0 <= i < |ks|
    ensures ParamEntries(config, ks[..i + 1], params) == ParamEntries(config, ks[..i], params).Set(ks[i], ParamEntry(config, ks[i], params[ks[i]]))
  {
    assert ks[..i + 1][..i] == ks[..i];
  }

  /**
   * One parameter parser per parameter, in the parameters' order, carrying
   * that parameter's key and value.
   */
  lemma {:induction false} ParamEntriesOnePerParameter(config: object, ks: seq<string>, params: map<string, string>)
    requires forall k | k in ks :: k in params
    requires Distinct(ks)
    ensures ParamEntries(config, ks, params).keys == ks
    ensures forall k | k in ParamEntries(config, ks, params).m ::
      ParamEntries(config, ks, params).m[k] == ParamEntry(config, k, params[k])
    decreases |ks|
  {
    if ks != [] {
      var init := ks[..|ks| - 1];
      ParamEntriesOnePerParameter(config, init, params);
      assert init + [ks[|ks| - 1]] == ks;
    }
  }

  /** The key a replacement file is collected under: its basename without `.txt`, if it is a `.txt` file. */
  function CandidateKey(file: string): Option<string>
  {
    var fileName := Basename(file);
    if EndsWith(fileName, ".txt") then Some(ReplaceAll(fileName, ".txt", "")) else None
  }

  /** Where a replacement file is read from. */
  function FilePath(basePath: string, file: string): string {
    basePath + "/replacement_files/" + file
  }

  /**
   * Assigns, file by file, `r[keyOf(file)] = pathOf(file)` for every file
   * that has a key: the shape of the first loop of `_get_file_parsers`.
   */
  function Collect(files: seq<string>, keyOf: string -> Option<string>, pathOf: string -> string): Dict<string>
    decreases |files|
  {
    if files == [] then Empty()
    else
      var prev := Collect(files[..|files| - 1], keyOf, pathOf);
      var file := files[|files| - 1];
      match keyOf(file)
      case None => prev
      case Some(key) => prev.Set(key, pathOf(file))
  }

  /** The intermediate registry of `_get_file_parsers`, after the files `files`. */
  function Candidates(basePath: string, files: seq<string>): Dict<string> {
    Collect(files, CandidateKey, file => FilePath(basePath, file))
  }

  lemma {:induction false} CollectValid(files: seq<string>, keyOf: string -> Option<string>, pathOf: string -> string)
    ensures Collect(files, keyOf, pathOf).Valid()
    decreases |files|
  {
    if files != [] {
      CollectValid(files[..|files| - 1], keyOf, pathOf);
    }
  }

  /** One more file: the key it gives, if any, now holds its path; nothing else changes. */
  lemma {:induction false} CollectStep(files: seq<string>, keyOf: string -> Option<string>, pathOf: string -> string)
    requires files != []
    ensures var last := files[|files| - 1];
      Collect(files, keyOf, pathOf).m ==
        match keyOf(last)
        case None => Collect(files[..|files| - 1], keyOf, pathOf).m
        case Some(key) => Collect(files[..|files| - 1], keyOf, pathOf).m[key := pathOf(last)]
  {
  }

  /** One more file, as the first loop of `_get_file_parsers` takes it. */
  lemma {:induction false} CandidatesPrefixStep(basePath: string, files: seq<string>, i: int)
    requires 0 <= i < |files|
    ensures Candidates(basePath, files[..i + 1]) ==
      if EndsWith(Basename(files[i]), ".txt")
      then Candidates(basePath, files[..i]).Set(ReplaceAll(Basename(files[i]), ".txt", ""), FilePath(basePath, files[i]))
      else Candidates(basePath, files[..i])
  {
    assert files[..i + 1][..i] == files[..i];
  }

  /** A key is collected exactly when some file gives it. */
  lemma {:induction false} CollectHasGivenKeys(files: seq<string>, keyOf: string -> Option<string>, pathOf: string -> string, k: string)
    ensures k in Collect(files, keyOf, pathOf).m <==> exists i | 0 <= i < |files| :: keyOf(files[i]) == Some(k)
    decreases |files|
  {
    if files != [] {
      var n := |files| - 1;
      var init := files[..n];
      CollectHasGivenKeys(init, keyOf, pathOf, k);
      CollectStep(files, keyOf, pathOf);
      if keyOf(files[n]) != Some(k) {
        if exists i | 0 <= i < |files| :: keyOf(files[i]) == Some(k) {
          var i :| 0 <= i < |files| && keyOf(files[i]) == Some(k);
          assert init[i] == files[i];
        }
        if k in Collect(init, keyOf, pathOf).m {
          var i :| 0 <= i < n && keyOf(init[i]) == Some(k);
          assert files[i] == init[i];
        }
      }
    }
  }

  /** `files[i]` is the last of `files` whose key is `k`. */
  predicate GivesLast(files: seq<string>, keyOf: string -> Option<string>, k: string, i: int) {
    && 0 <= i < |files|
    && keyOf(files[i]) == Some(k)
    && forall j | i < j < |files| :: keyOf(files[j]) != Some(k)
  }

  /** A collected key holds the path of the last file that gives it. */
  lemma {:induction false} CollectLastWins(files: seq<string>, keyOf: string -> Option<string>, pathOf: string -> string, k: string)
    requires k in Collect(files, keyOf, pathOf).m
    ensures exists i :: GivesLast(files, keyOf, k, i) && Collect(files, keyOf, pathOf).m[k] == pathOf(files[i])
  {
    var i := LastGiver(files, keyOf, pathOf, k);
  }

  /** The position of the last file that gives the collected key `k`. */
  lemma {:induction false} LastGiver(files: seq<string>, keyOf: string -> Option<string>, pathOf: string -> string, k: string)
    returns (i: int)
    requires k in Collect(files, keyOf, pathOf).m
    ensures GivesLast(files, keyOf, k, i) && Collect(files, keyOf, pathOf).m[k] == pathOf(files[i])
    decreases |files|
  {
    var n := |files| - 1;
    var init := files[..n];
    CollectStep(files, keyOf, pathOf);
    if keyOf(files[n]) == Some(k) {
      i := n;
    } else {
      i := LastGiver(init, keyOf, pathOf, k);
      assert forall j | 0 <= j < n :: files[j] == init[j];
    }
  }

  /**
   * A key is collected exactly when some `.txt` file gives it, so a file
   * that is not a `.txt` file yields nothing; a collected key holds the path
   * of the last file that gives it, a later file overwriting an earlier one.
   */
  lemma {:induction false} CandidatesLastWins(basePath: string, files: seq<string>, k: string)
    ensures k in Candidates(basePath, files).m <==> exists i | 0 <= i < |files| :: CandidateKey(files[i]) == Some(k)
    ensures k in Candidates(basePath, files).m ==>
      exists i :: GivesLast(files, CandidateKey, k, i) && Candidates(basePath, files).m[k] == FilePath(basePath, files[i])
  {
    var pathOf := file => FilePath(basePath, file);
    CollectHasGivenKeys(files, CandidateKey, pathOf, k);
    if k in Candidates(basePath, files).m {
      CollectLastWins(files, CandidateKey, pathOf, k);
    }
  }

  /**
   * The key a collected key is registered under: an undotted key as it is;
   * a dotted key only when its second `.` segment is the environment, and
   * then under its first segment.
   */
  function SelectedKey(environment: Option<string>, key: string): Option<string> {
    if !Contains(key, ".") then Some(key)
    else
      SplitCountsSeparator(key, ".");
      var parts := Split(key, ".");
      if environment != Some(parts[1]) then None else Some(parts[0])
  }

  /** No registered key contains a `.`. */
  lemma {:induction false} SelectedKeyHasNoDot(environment: Option<string>, key: string)
    ensures SelectedKey(environment, key).Some? ==> !Contains(SelectedKey(environment, key).value, ".")
  {
    SplitPiecesAvoidSeparator(key, ".");
  }

  /**
   * The file registry after the collected keys `ks`. An undotted key's parser
   * is owned by the factory itself, a dotted key's by the configuration.
   */
  function FileEntries(factory: object, src: FactoryConfig, cands: Dict<string>, ks: seq<string>): Dict<Entry>
    requires forall k | k in ks :: k in cands.m
    decreases |ks|
  {
    if ks == [] then Empty()
    else
      var prev := FileEntries(factory, src, cands, ks[..|ks| - 1]);
      var key := ks[|ks| - 1];
      match SelectedKey(src.environment, key)
      case None => prev
      case Some(k) => prev.Set(k, FileEntry(if k == key then factory else src.config, k, cands.m[key]))
  }

  lemma {:induction false} FileEntriesValid(factory: object, src: FactoryConfig, cands: Dict<string>, ks: seq<string>)
    requires forall k | k in ks :: k in cands.m
    ensures FileEntries(factory, src, cands, ks).Valid()
    decreases |ks|
  {
    if ks != [] {
      FileEntriesValid(factory, src, cands, ks[..|ks| - 1]);
    }
  }

  /** One more collected key, as the second loop of `_get_file_parsers` takes it. */
  lemma {:induction false} FileEntriesPrefixStep(factory: object, src: FactoryConfig, cands: Dict<string>, ks: seq<string>, j: int)
    requires forall k | k in ks :: k in cands.m
    requires 0 <= j < |ks|
    ensures FileEntries(factory, src, cands, ks[..j + 1]) ==
      match SelectedKey(src.environment, ks[j])
      case None => FileEntries(factory, src, cands, ks[..j])
      case Some(k) => FileEntries(factory, src, cands, ks[..j]).Set(k, FileEntry(if k == ks[j] then factory else src.config, k, cands.m[ks[j]]))
  {
    assert ks[..j + 1][..j] == ks[..j];
  }

  /**
   * The file registry holds exactly the keys the collected keys select, and
   * none of them contains a `.`.
   */
  lemma {:induction false} FileEntriesSelected(factory: object, src: FactoryConfig, cands: Dict<string>, ks: seq<string>, k: string)
    requires forall k | k in ks :: k in cands.m
    ensures k in FileEntries(factory, src, cands, ks).m <==>
      exists i | 0 <= i < |ks| :: SelectedKey(src.environment, ks[i]) == Some(k)
    ensures k in FileEntries(factory, src, cands, ks).m ==> !Contains(k, ".")
    decreases |ks|
  {
    if ks != [] {
      var n := |ks| - 1;
      var init := ks[..n];
      FileEntriesSelected(factory, src, cands, init, k);
      assert forall i | 0 <= i < n :: init[i] == ks[i];
      SelectedKeyHasNoDot(src.environment, ks[n]);
      if k in FileEntries(factory, src, cands, ks).m && SelectedKey(src.environment, ks[n]) != Some(k) {
        assert k in FileEntries(factory, src, cands, init).m;
      }
    }
  }

  /**
   * A registered key holds the parser of the last collected key that
   * selects it: a later file selecting the same key overwrites an earlier
   * one (`bar` is shadowed by `bar.develop` in environment `develop`, or the
   * reverse, by their order). Returns that collected key's position.
   */
  lemma {:induction false} FileEntriesLastWins(factory: object, src: FactoryConfig, cands: Dict<string>, ks: seq<string>, k: string)
    returns (i: int)
    requires forall k | k in ks :: k in cands.m
    requires k in FileEntries(factory, src, cands, ks).m
    ensures 0 <= i < |ks| && SelectedKey(src.environment, ks[i]) == Some(k)
    ensures forall j | i < j < |ks| :: SelectedKey(src.environment, ks[j]) != Some(k)
    ensures FileEntries(factory, src, cands, ks).m[k] == FileEntry(if k == ks[i] then factory else src.config, k, cands.m[ks[i]])
    decreases |ks|
  {
    var n := |ks| - 1;
    var init := ks[..n];
    if SelectedKey(src.environment, ks[n]) == Some(k) {
      i := n;
    } else {
      i := FileEntriesLastWins(factory, src, cands, init, k);
      assert forall j | 0 <= j < n :: init[j] == ks[j];
    }
  }

  /** The whole file registry `_get_file_parsers` returns. */
  function AllFileEntries(factory: object, src: FactoryConfig): (r: Dict<Entry>)
    ensures r.Valid()
  {
    var cands := Candidates(src.basePath, src.replacementFiles);
    CollectValid(src.replacementFiles, CandidateKey, file => FilePath(src.basePath, file));
    FileEntriesValid(factory, src, cands, cands.keys);
    FileEntries(factory, src, cands, cands.keys)
  }

  /** The registry `makes` returns. */
  function Registry(factory: object, src: FactoryConfig): (r: Dict<Entry>)
    requires src.replacementParams.Valid()
  {
    var params := src.replacementParams;
    Empty<Entry>()
      .Update(ParamEntries(src.config, params.keys, params.m))
      .Update(AllFileEntries(factory, src))
  }

  /**
   * The registry has every parameter key and every selected file key; a key
   * selected by a file is served by the file parser, any other key by its
   * parameter parser.
   */
  lemma {:induction false} RegistryFileWins(factory: object, src: FactoryConfig, k: string)
    requires src.replacementParams.Valid()
    ensures k in Registry(factory, src).m <==>
      k in src.replacementParams.m || k in AllFileEntries(factory, src).m
    ensures k in AllFileEntries(factory, src).m ==>
      Registry(factory, src).m[k] == AllFileEntries(factory, src).m[k]
    ensures k in src.replacementParams.m && k !in AllFileEntries(factory, src).m ==>
      Registry(factory, src).m[k] == ParamEntry(src.config, k, src.replacementParams.m[k])
  {
    var params := src.replacementParams;
    KeysDistinct(params);
    DistinctIsPairwise(params.keys);
    ParamEntriesOnePerParameter(src.config, params.keys, params.m);
    var paramEntries := ParamEntries(src.config, params.keys, params.m);
    UpdateMerges(Empty(), paramEntries);
    UpdateMerges(Empty<Entry>().Update(paramEntries), AllFileEntries(factory, src));
  }

  /**
   * In the registry `makes` returns, a key served by a file parser reads the
   * path collected under the last collected key that selects it.
   */
  lemma {:induction false} RegistryFileLastWins(factory: object, src: FactoryConfig, k: string) returns (i: int)
    requires src.replacementParams.Valid()
    requires k in AllFileEntries(factory, src).m
    ensures var cands := Candidates(src.basePath, src.replacementFiles);
      && 0 <= i < |cands.keys|
      && SelectedKey(src.environment, cands.keys[i]) == Some(k)
      && (forall j | i < j < |cands.keys| :: SelectedKey(src.environment, cands.keys[j]) != Some(k))
      && cands.keys[i] in cands.m && k in Registry(factory, src).m
      && Registry(factory, src).m[k] == FileEntry(if k == cands.keys[i] then factory else src.config, k, cands.m[cands.keys[i]])
  {
    var cands := Candidates(src.basePath, src.replacementFiles);
    CollectValid(src.replacementFiles, CandidateKey, file => FilePath(src.basePath, file));
    i := FileEntriesLastWins(factory, src, cands, cands.keys, k);
    RegistryFileWins(factory, src, k);
  }

  /** The default factory. */
  class ParserFactory {
    constructor () {}

    /**
     * `makes`: the parameter parsers, then the file parsers over them. The
     * file parsers are new and have not read their file yet.
     */
    method Makes(src: FactoryConfig) returns (result: Dict<Parser>)
      requires src.replacementParams.Valid()
      ensures result.Valid()
      ensures Entries(result) == Registry(this, src)
      ensures forall k | k in result.m && result.m[k].Value? :: result.m[k].p.ParamParser?
      ensures forall k | k in result.m && result.m[k].File? ::
        fresh(result.m[k].f) && result.m[k].f.Valid() && result.m[k].f.value == None
    {
      result := Empty();
      var params := GetParamParsers(src);
      EntriesUpdate(result, params);
      UpdateMerges(result, params);
      assert Entries(result) == Empty<Entry>();
      result := result.Update(params);
      var files := GetFileParsers(src);
      EntriesUpdate(result, files);
      UpdateMerges(result, files);
      result := result.Update(files);
    }

    /** `_get_param_parsers`: one parameter parser per replacement parameter, in order. */
    method GetParamParsers(src: FactoryConfig) returns (result: Dict<Parser>)
      requires src.replacementParams.Valid()
      ensures result.Valid()
      ensures Entries(result) == ParamEntries(src.config, src.replacementParams.keys, src.replacementParams.m)
      ensures forall k | k in result.m :: result.m[k].Value? && result.m[k].p.ParamParser?
    {
      var params := src.replacementParams;
      result := Empty();
      var i := 0;
      while i < |params.keys|
        invariant 0 <= i <= |params.keys|
        invariant result.Valid()
        invariant Entries(result) == ParamEntries(src.config, params.keys[..i], params.m)
        invariant forall k | k in result.m :: result.m[k].Value? && result.m[k].p.ParamParser?
      {
        var key := params.keys[i];
        var parser := Value(ParamParser(src.config, key, params.m[key]));
        EntriesSet(result, key, parser);
        ParamEntriesStep(src.config, params.keys, params.m, i);
        result := result.Set(key, parser);
        i := i + 1;
      }
      assert params.keys[..i] == params.keys;
    }

    /** The first loop of `_get_file_parsers`: each `.txt` file's path under its basename without `.txt`. */
    static method CollectReplacementFiles(basePath: string, files: seq<string>) returns (tmpResult: Dict<string>)
      ensures tmpResult == Candidates(basePath, files)
    {
      tmpResult := Empty();
      var i := 0;
      while i < |files|
        invariant 0 <= i <= |files|
        invariant tmpResult == Candidates(basePath, files[..i])
      {
        var file := files[i];
        CandidatesPrefixStep(basePath, files, i);
        var fileName := Basename(file);
        if EndsWith(fileName, ".txt") {
          var baseName := ReplaceAll(fileName, ".txt", "");
          tmpResult := tmpResult.Set(baseName, basePath + "/replacement_files/" + file);
        }
        i := i + 1;
      }
      assert files[..i] == files;
    }

    /**
     * `_get_file_parsers`: collects the `.txt` replacement files by key, then
     * registers the selected ones, each with a new file parser.
     */
    method GetFileParsers(src: FactoryConfig) returns (result: Dict<Parser>)
      ensures result.Valid()
      ensures Entries(result) == AllFileEntries(this, src)
      ensures forall k | k in result.m ::
        result.m[k].File? && fresh(result.m[k].f) && result.m[k].f.Valid() && result.m[k].f.value == None
    {
      var tmpResult := CollectReplacementFiles(src.basePath, src.replacementFiles);
      CollectValid(src.replacementFiles, CandidateKey, file => FilePath(src.basePath, file));

      result := Empty();
      var ks := tmpResult.keys;
      var j := 0;
      while j < |ks|
        invariant 0 <= j <= |ks|
        invariant result.Valid()
        invariant Entries(result) == FileEntries(this, src, tmpResult, ks[..j])
        invariant forall k | k in result.m ::
          result.m[k].File? && fresh(result.m[k].f) && result.m[k].f.Valid() && result.m[k].f.value == None
      {
        result := RegisterFile(result, src, tmpResult, ks, j);
        j := j + 1;
      }
      assert ks[..j] == ks;
    }

    /**
     * One round of the second loop of `_get_file_parsers`: the collected key
     * `ks[j]`, when selected, gets a new file parser under the selected key.
     */
    method RegisterFile(result: Dict<Parser>, src: FactoryConfig, cands: Dict<string>, ks: seq<string>, j: int)
      returns (r: Dict<Parser>)
      requires forall k | k in ks :: k in cands.m
      requires 0 <= j < |ks|
      requires result.Valid()
      requires Entries(result) == FileEntries(this, src, cands, ks[..j])
      ensures r.Valid()
      ensures Entries(r) == FileEntries(this, src, cands, ks[..j + 1])
      ensures forall k | k in r.m ::
        || (k in result.m && r.m[k] == result.m[k])
        || (r.m[k].File? && fresh(r.m[k].f) && r.m[k].f.Valid() && r.m[k].f.value == None)
    {
      var key := ks[j];
      var path := cands.m[key];
      FileEntriesPrefixStep(this, src, cands, ks, j);
      r := result;
      if !Contains(key, ".") {
        var parser := new FileParser(this, key, path);
        EntriesSet(result, key, File(parser));
        r := result.Set(key, File(parser));
      } else {
        SplitCountsSeparator(key, ".");
        var keyEnv := Split(key, ".")[1];
        if src.environment == Some(keyEnv) {
          var strippedKey := Split(key, ".")[0];
          assert strippedKey != key by {
            SelectedKeyHasNoDot(src.environment, key);
          }
          var parser := new FileParser(src.config, strippedKey, path);
          EntriesSet(result, strippedKey, File(parser));
          r := result.Set(strippedKey, File(parser));
        }
      }
    }
  }
}
