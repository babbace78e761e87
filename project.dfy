/**
 * Building one project for one environment: walk the project's `src`
 * directory, skip the ignored files, and for every other file either write
 * its text with the placeholders replaced or copy it unchanged. The file
 * system effects are emitted as `Action` records instead of performed.
 */
module Projects {
  import opened Wrappers
  import opened Strings
  import opened Dicts
  import opened ParserBase
  import opened Configs

  /** One directory visited by `os.walk`: its path and the names of the files in it. */
  datatype WalkStep = WalkStep(root: string, fileNames: seq<string>)

  /**
   * What the build reads from outside: the directory walk, the text of a
   * file, and the glob matcher `fnmatch(name, pattern)`.
   */
  datatype Host = Host(
    walk: string -> seq<WalkStep>,
    read: string -> string,
    fnmatch: (string, string) -> bool)

  /** A file system effect of the build: write `text` to `to`, or copy `from` to `to`. */
  datatype Action = Write(to: string, text: string) | Copy(from: string, to: string)

  /** `pjroot`: the project's directory. */
  function ProjectRoot(name: string, multiProject: bool): string {
    if multiProject then "templates/" + name else "templates"
  }

  /** `get_pj_dist_root`: where the project's output goes for `environment`. */
  function DistRoot(name: string, multiProject: bool, environment: string): string {
    if multiProject then "dist/docker-" + environment + "/" + name else "dist/docker-" + environment
  }

  /**
   * In multi-project mode two different projects get different source roots
   * and, for the same environment, different output roots.
   */
  lemma {:induction false} RootsSeparateProjects(name1: string, name2: string, environment: string)
    requires name1 != name2
    ensures ProjectRoot(name1, true) != ProjectRoot(name2, true)
    ensures DistRoot(name1, true, environment) != DistRoot(name2, true, environment)
  {
    var p1, p2 := "templates/", "dist/docker-" + environment + "/";
    assert (p1 + name1)[|p1|..] == name1 && (p1 + name2)[|p1|..] == name2;
    assert (p2 + name1)[|p2|..] == name1 && (p2 + name2)[|p2|..] == name2;
    assert DistRoot(name1, true, environment) == p2 + name1;
    assert DistRoot(name2, true, environment) == p2 + name2;
  }

  /** `os.path.join(root, name)` for a file name from a walk (never absolute). */
  function PathJoin(root: string, name: string): string {
    if root == [] || root[|root| - 1] == '/' then root + name else root + "/" + name
  }

  /** The paths of the files of one visited directory, in walk order. */
  function StepFiles(step: WalkStep): seq<string> {
    seq(|step.fileNames|, k requires 0 <= k < |step.fileNames| => PathJoin(step.root, step.fileNames[k]))
  }

  /** The list `_get_all_files` builds from the walk `steps`. */
  function FileList(steps: seq<WalkStep>): seq<string>
    decreases |steps|
  {
    if steps == [] then [] else FileList(steps[..|steps| - 1]) + StepFiles(steps[|steps| - 1])
  }

  /** A path is listed exactly when it joins some visited directory with one of its file names. */
  lemma {:induction false} FileListHasEveryWalkedFile(steps: seq<WalkStep>, path: string)
    ensures path in FileList(steps) <==>
      exists i, k | 0 <= i < |steps| && 0 <= k < |steps[i].fileNames| :: path == PathJoin(steps[i].root, steps[i].fileNames[k])
    decreases |steps|
  {
    if steps != [] {
      var n := |steps| - 1;
      var init := steps[..n];
      FileListHasEveryWalkedFile(init, path);
      assert forall i | 0 <= i < n :: init[i] == steps[i];
      if path in StepFiles(steps[n]) {
        var k :| 0 <= k < |StepFiles(steps[n])| && StepFiles(steps[n])[k] == path;
        assert path == PathJoin(steps[n].root, steps[n].fileNames[k]);
      }
      if exists i, k | 0 <= i < |steps| && 0 <= k < |steps[i].fileNames| :: path == PathJoin(steps[i].root, steps[i].fileNames[k]) {
        var i, k :| 0 <= i < |steps| && 0 <= k < |steps[i].fileNames| && path == PathJoin(steps[i].root, steps[i].fileNames[k]);
        if i == n {
          assert StepFiles(steps[n])[k] == path;
        } else {
          assert init[i] == steps[i];
        }
      }
    }
  }

  /** A file's path relative to the project's `src` directory: every `{root}/src/` removed. */
  function RelPath(file: string, root: string): string {
    ReplaceAll(file, root + "/src/", "")
  }

  /** A file directly under `{root}/src/` whose own path does not repeat that prefix gets its path back. */
  lemma {:induction false} RelPathStripsRoot(root: string, rel: string)
    requires !Contains(rel, root + "/src/")
    ensures RelPath(root + "/src/" + rel, root) == rel
  {
    var prefix := root + "/src/";
    var s := prefix + rel;
    assert prefix <= s && s != [];
    assert s[|prefix|..] == rel;
    ReplaceAbsentIsIdentity(rel, prefix, "");
  }

  /** `_is_ignore_file`: some ignore pattern matches the file name. */
  predicate IsIgnored(fnmatch: (string, string) -> bool, fileName: string, patterns: seq<string>) {
    exists i | 0 <= i < |patterns| :: fnmatch(fileName, patterns[i])
  }

  /** `_is_replace_file_content`: every file is transformed, unless only `.temp` files are. */
  predicate IsReplaceFileContent(onlyReplaceTemp: bool, fileRelPath: string) {
    !onlyReplaceTemp || EndsWith(fileRelPath, ".temp")
  }

  /** The text after replacing `{{k}}` by `m[k]` for each key of `ks` in turn. */
  function ReplacedText(content: string, ks: seq<string>, m: map<string, string>): string
    requires forall k | k in ks :: k in m
    decreases |ks|
  {
    if ks == [] then content
    else
      var key := ks[|ks| - 1];
      ReplaceAll(ReplacedText(content, ks[..|ks| - 1], m), TemplateKey(key), m[key])
  }

  /** Replacing by the keys `a`, then by the keys `b`, is replacing by `a + b`. */
  lemma {:induction false} ReplacedTextComposes(content: string, a: seq<string>, b: seq<string>, m: map<string, string>)
    requires forall k | k in a + b :: k in m
    ensures ReplacedText(content, a + b, m) == ReplacedText(ReplacedText(content, a, m), b, m)
    decreases |b|
  {
    if b == [] {
      assert a + b == a;
    } else {
      var init := b[..|b| - 1];
      assert (a + b)[..|a + b| - 1] == a + init;
      assert (a + b)[|a + b| - 1] == b[|b| - 1];
      ReplacedTextComposes(content, a, init, m);
    }
  }

  /** Text without `{{` holds no placeholder, so no replacement changes it. */
  lemma {:induction false} ReplacedTextWithoutBracesIsUnchanged(content: string, ks: seq<string>, m: map<string, string>)
    requires forall k | k in ks :: k in m
    requires !Contains(content, "{{")
    ensures ReplacedText(content, ks, m) == content
    decreases |ks|
  {
    if ks != [] {
      var key := ks[|ks| - 1];
      ReplacedTextWithoutBracesIsUnchanged(content, ks[..|ks| - 1], m);
      PlaceholderNeedsOpeningBraces(content, key);
      ReplaceAbsentIsIdentity(content, TemplateKey(key), m[key]);
    }
  }

  /** The literal destination of every file of the build: the path is not interpolated. */
  function Destination(name: string, multiProject: bool, environment: string): string {
    DistRoot(name, multiProject, environment) + "/{file_rel_path}"
  }

  /** The action for one file that is not ignored. */
  function FileAction(values: ConfigValues, name: string, environment: string, host: Host, file: string): Action
    requires values.Valid()
  {
    var multi := values.IsMultiProjectMode();
    var topath := Destination(name, multi, environment);
    var replacements := values.Replacements();
    if IsReplaceFileContent(values.IsOnlyReplaceTemp(), RelPath(file, ProjectRoot(name, multi)))
    then Write(ReplaceAll(topath, ".temp", ""), ReplacedText(host.read(file), replacements.keys, replacements.m))
    else Copy(file, topath)
  }

  /** The file is skipped by the build. */
  predicate Skipped(values: ConfigValues, name: string, host: Host, file: string) {
    IsIgnored(host.fnmatch, RelPath(file, ProjectRoot(name, values.IsMultiProjectMode())), values.IgnoreFiles())
  }

  /** The actions for the files `files`, in order. */
  function FileActions(values: ConfigValues, name: string, environment: string, host: Host, files: seq<string>): seq<Action>
    requires values.Valid()
    decreases |files|
  {
    if files == [] then []
    else
      var prev := FileActions(values, name, environment, host, files[..|files| - 1]);
      var file := files[|files| - 1];
      if Skipped(values, name, host, file) then prev
      else prev + [FileAction(values, name, environment, host, file)]
  }

  /** The actions for the first `i + 1` files extend those for the first `i` by the actions for file `i`. */
  lemma {:induction false} FileActionsStep(values: ConfigValues, name: string, environment: string, host: Host, files: seq<string>, i: int)
    requires values.Valid() && 0 <= i < |files|
    ensures FileActions(values, name, environment, host, files[..i + 1])
         == FileActions(values, name, environment, host, files[..i])
            + if Skipped(values, name, host, files[i]) then [] else [FileAction(values, name, environment, host, files[i])]
  {
    assert files[..i + 1][..i] == files[..i];
  }

  /** The files of `files` that are not skipped, in order. */
  function Kept(values: ConfigValues, name: string, host: Host, files: seq<string>): seq<string>
    decreases |files|
  {
    if files == [] then []
    else
      var prev := Kept(values, name, host, files[..|files| - 1]);
      var file := files[|files| - 1];
      if Skipped(values, name, host, file) then prev else prev + [file]
  }

  /** `build`: nothing for an ignored project, else one action per file of `{pjroot}/src`. */
  function ProjectActions(values: ConfigValues, name: string, environment: string, host: Host): seq<Action>
    requires values.Valid()
  {
    if values.IsIgnore() then []
    else
      var files := FileList(host.walk(ProjectRoot(name, values.IsMultiProjectMode()) + "/src"));
      FileActions(values, name, environment, host, files)
  }

  /**
   * Exactly one action per file that is not skipped, in the order of the
   * files: a skipped file is neither written nor copied.
   */
  lemma {:induction false} OneActionPerKeptFile(values: ConfigValues, name: string, environment: string, host: Host, files: seq<string>)
    requires values.Valid()
    ensures |FileActions(values, name, environment, host, files)| == |Kept(values, name, host, files)|
    ensures forall i | 0 <= i < |Kept(values, name, host, files)| ::
      FileActions(values, name, environment, host, files)[i] == FileAction(values, name, environment, host, Kept(values, name, host, files)[i])
    decreases |files|
  {
    if files != [] {
      OneActionPerKeptFile(values, name, environment, host, files[..|files| - 1]);
    }
  }

  /** The kept files are the files that are not skipped. */
  lemma {:induction false} KeptAreTheUnskippedFiles(values: ConfigValues, name: string, host: Host, files: seq<string>, file: string)
    ensures file in Kept(values, name, host, files) <==> file in files && !Skipped(values, name, host, file)
    decreases |files|
  {
    if files != [] {
      var init := files[..|files| - 1];
      KeptAreTheUnskippedFiles(values, name, host, init, file);
      assert files == init + [files[|files| - 1]];
    }
  }

  /**
   * What each action does: a transformed file is written, with its text's
   * placeholders replaced, to the literal destination with every `.temp`
   * removed; any other file is copied unchanged to the literal destination.
   */
  lemma {:induction false} FileActionIsWriteOrCopy(values: ConfigValues, name: string, environment: string, host: Host, file: string)
    requires values.Valid()
    ensures var multi := values.IsMultiProjectMode();
      var topath := Destination(name, multi, environment);
      var a := FileAction(values, name, environment, host, file);
      && (a.Write? <==> !values.IsOnlyReplaceTemp() || EndsWith(RelPath(file, ProjectRoot(name, multi)), ".temp"))
      && (a.Write? ==> a.to == ReplaceAll(topath, ".temp", ""))
      && (a.Write? ==> a.text == ReplacedText(host.read(file), values.Replacements().keys, values.Replacements().m))
      && (a.Copy? ==> a.from == file && a.to == topath)
  {
  }

  /**
   * Because the destination is never interpolated, every file of one build
   * is copied to the same path: the copies overwrite one another.
   */
  lemma {:induction false} CopiesShareOneDestination(values: ConfigValues, name: string, environment: string, host: Host, files: seq<string>)
    requires values.Valid()
    ensures forall a | a in FileActions(values, name, environment, host, files) && a.Copy? ::
      a.to == Destination(name, values.IsMultiProjectMode(), environment)
    decreases |files|
  {
    if files != [] {
      CopiesShareOneDestination(values, name, environment, host, files[..|files| - 1]);
    }
  }

  /** An ignored project produces no action. */
  lemma {:induction false} IgnoredProjectHasNoActions(values: ConfigValues, name: string, environment: string, host: Host)
    requires values.Valid() && values.IsIgnore()
    ensures ProjectActions(values, name, environment, host) == []
  {
  }

  /** A project: its name and its configuration. */
  class Project {
    const name: string
    const config: Config

    constructor (name: string, config: Config)
      ensures this.name == name && this.config == config
    {
      this.name := name;
      this.config := config;
    }

    /**
     * `build`: the actions of the project for `environment`, none when the
     * project is ignored.
     */
    method Build(environment: string, host: Host) returns (actions: seq<Action>)
      requires config.Values().Valid()
      ensures actions == ProjectActions(config.Values(), name, environment, host)
    {
      var values := config.Values();
      actions := [];
      if values.IsIgnore() {
        return;
      }

      var multi := values.IsMultiProjectMode();
      var pjroot := ProjectRoot(name, multi);
      var files := GetAllFiles(pjroot + "/src", host.walk);
      var i := 0;
      while i < |files|
        invariant 0 <= i <= |files|
        invariant actions == FileActions(values, name, environment, host, files[..i])
      {
        var built := BuildFile(files[i], environment, host);
        FileActionsStep(values, name, environment, host, files, i);
        actions := actions + built;
        i := i + 1;
      }
      assert files[..i] == files;
    }

    /** One round of `build`'s loop: nothing for a skipped file, else its write or its copy. */
    method BuildFile(file: string, environment: string, host: Host) returns (actions: seq<Action>)
      requires config.Values().Valid()
      ensures actions == if Skipped(config.Values(), name, host, file) then [] else [FileAction(config.Values(), name, environment, host, file)]
    {
      var values := config.Values();
      var multi := values.IsMultiProjectMode();
      var pjroot := ProjectRoot(name, multi);
      var fileRelPath := ReplaceAll(file, pjroot + "/src/", "");
      var ignored := IsIgnoreFile(fileRelPath, host.fnmatch);
      if ignored {
        return [];
      }

      var topath := Destination(name, multi, environment);
      if !values.IsOnlyReplaceTemp() || EndsWith(fileRelPath, ".temp") {
        var content := host.read(file);
        content := GetReplacedText(content);
        actions := [Write(ReplaceAll(topath, ".temp", ""), content)];
      } else {
        actions := [Copy(file, topath)];
      }
    }

    /** `_get_replaced_text`: replaces each placeholder of the replacements, in their order. */
    method GetReplacedText(content: string) returns (r: string)
      requires config.Values().Valid()
      ensures r == ReplacedText(content, config.Values().Replacements().keys, config.Values().Replacements().m)
    {
      var replacements := config.Values().Replacements();
      var ks := replacements.keys;
      r := content;
      var i := 0;
      while i < |ks|
        invariant 0 <= i <= |ks|
        invariant r == ReplacedText(content, ks[..i], replacements.m)
      {
        var key := ks[i];
        assert ks[..i + 1][..i] == ks[..i];
        r := ReplaceAll(r, TemplateKey(key), replacements.m[key]);
        i := i + 1;
      }
      assert ks[..i] == ks;
    }

    /** `_get_all_files`: every file under `directory`, in walk order. */
    method GetAllFiles(directory: string, walk: string -> seq<WalkStep>) returns (fileList: seq<string>)
      ensures fileList == FileList(walk(directory))
    {
      var steps := walk(directory);
      fileList := [];
      var i := 0;
      while i < |steps|
        invariant 0 <= i <= |steps|
        invariant fileList == FileList(steps[..i])
      {
        var step := steps[i];
        assert steps[..i + 1][..i] == steps[..i];
        var j := 0;
        while j < |step.fileNames|
          invariant 0 <= j <= |step.fileNames|
          invariant fileList == FileList(steps[..i]) + StepFiles(step)[..j]
        {
          fileList := fileList + [PathJoin(step.root, step.fileNames[j])];
          assert StepFiles(step)[..j + 1] == StepFiles(step)[..j] + [StepFiles(step)[j]];
          j := j + 1;
        }
        assert StepFiles(step)[..j] == StepFiles(step);
        i := i + 1;
      }
      assert steps[..i] == steps;
    }

    /** `_is_ignore_file`: whether some ignore pattern matches `fileName`. */
    method IsIgnoreFile(fileName: string, fnmatch: (string, string) -> bool) returns (r: bool)
      ensures r == IsIgnored(fnmatch, fileName, config.Values().IgnoreFiles())
    {
      var ignoreFiles := config.Values().IgnoreFiles();
      var i := 0;
      while i < |ignoreFiles|
        invariant 0 <= i <= |ignoreFiles|
        invariant forall j | 0 <= j < i :: !fnmatch(fileName, ignoreFiles[j])
      {
        if fnmatch(fileName, ignoreFiles[i]) {
          return true;
        }
        i := i + 1;
      }
      return false;
    }
  }
}
