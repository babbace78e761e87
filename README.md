# docker-env-parser: a verified model of the build pipeline

docker-env-parser turns a tree of templates into one output tree per
environment. The global configuration is the `config.yml` of the working
directory, read with no root and no environment: it lists the environments
and holds the default settings. In single-project mode `templates` is the one
project; in multi-project mode every entry of the `templates/` listing (a
plain file as much as a directory) is a project. A project's configuration is
read under its root for the environment being built (the environment file
`config.{env}.yml` replaces `config.yml` outright) and merged over the
global settings. For each environment, and then each
project, every file of the project's `src` directory is skipped (when an
ignore glob matches it), copied unchanged, or written with its `{{key}}`
placeholders replaced by the configured replacement values. Placeholder
parsers take their values from parameters or from replacement files, and a
parser factory builds the key-to-parser registry.

The model is a set of Dafny modules:

- `Strings`: Python's `str.replace`, `split`, `join`, `endswith`, `in` and
  `os.path.basename`.
- `Dicts`: the insertion-ordered `dict`, with `d[k] = v` and `update`.
- `YamlFiles`: the parsed YAML value and the snapshot of configuration
  files on disk.
- `ParserBase`: `template_key`.
- `Parsers`: `ParamParser` and `ConfigParser` as values, and `FileParser`
  as a class with its one-shot cache.
- `ParserFactories`: the `ParserFactory` class and the registry it builds.
- `Configs`: the `Config` and `GlobalConfig` classes and the pure
  resolution they perform.
- `Projects`: the `Project` class and the actions of one project's build.
- `BuildUsecases`: the `BuildUsecase` class, with environments in the outer
  loop and projects in the inner one.
- `Seqs`: one generic sequence helper.

The imperative code is modelled as methods with loops. Each method's
`ensures` ties its result or its new state to a specification function. The
properties of those functions are proved as lemmas.

The file system effects of a build are not performed. The model emits them
as `Write(to, text)` and `Copy(from, to)` records in build order.

## Model

| member | source | states |
|---|---|---|
| ParserBase.TemplateKey | src/models/parser/parser_base.py:19-21 | the token is `{{`, then the key, then `}}`, so it is four characters longer than the key and never empty |
| ParserBase.PlaceholderNeedsOpeningBraces | src/models/parser/parser_base.py:19-21 | text that holds some key's token holds `{{` |
| Parsers.ValueParser.Parse | src/models/parser/param_parser.py:13-14 | `parse` of ParamParser (and of ConfigParser, config_parser.py:14-15): the content cut at every `{{key}}` and glued back with the value; content without the token comes back unchanged |
| Parsers.ValueParserReplacesTrailingToken | src/models/parser/param_parser.py:13-14 | text without braces followed by the token parses to the text followed by the value (`This is {{foo}}` gives `This is bar`) |
| Parsers.FileParser.constructor | src/models/parser/file_parser.py:13-15 | stores config, key and path unchanged; the cached text starts unset and nothing has been read |
| Parsers.FileParser.Parse | src/models/parser/file_parser.py:17-26 | with the text cached: returns the cached text itself, whatever the content, and reads nothing. Uncached: reads the file, caches its text and returns the content with every token replaced by it (content without the token unchanged), or fails when the file is missing. The file is read at most once |
| Parsers.Parse | src/models/parser/parser_base.py:15-17 | every parser maps content to content: a value parser by its replacement, a file parser by its cache-then-read rule, with the file parser's new cache carried through (unchanged on a hit, the file's text after a read, still unset after a missing file) |
| Dicts.Dict.Set | src/factories/parser_factory.py:43 | `d[k] = v`: the map gets the new value; a new key goes last and an existing key keeps its place; validity is kept |
| Dicts.UpdateMerges | src/models/config.py:85 | `{**a, **b}` and `a.update(b)` (parser_factory.py:28-31): the keys of `a`, then the new keys of `b`, in order; on a shared key `b`'s value wins |
| Dicts.Dict.Update | src/models/config.py:85 | `d.update(other)` keeps a valid dictionary valid; what it holds is `Dicts.UpdateMerges` |
| YamlFiles.ReadYaml | src/helpers/helper.py:8-17 | definition, no contract: the mapping a configuration file holds, `{}` when it is missing or empty |
| Configs.ConfigValues.Replacements | src/models/config.py:31-33 | the replacements default to `{}` and are a valid dictionary |
| Configs.Config.constructor | src/models/config.py:23-29 | a new configuration has empty replacements and every other field unset, so the accessors give false, true, false, false and `[]` |
| Configs.FollowComposes | src/models/config.py:101-106 | following a key path in two legs is following the first leg and then the second; a missing key ends the walk with none |
| Configs.ValueAtStep | src/models/config.py:101-106 | one more key: none when the value so far is missing or lacks the key, else the value under it |
| Configs.Config.GetConfigValue | src/models/config.py:96-107 | the loop returns exactly the value reached by following every key in order, and none at the first missing key or when the document is missing |
| Configs.AsStringDict | src/models/config.py:70 | the replacements read from a document form a valid dictionary |
| Configs.FromDocument | src/models/config.py:70-75 | every field read from a document is valid |
| Configs.EnvironmentFileReplacesBase | src/models/config.py:60-67 | with an environment, neither the content nor the existence of `config.yml` changes the loaded document |
| Configs.MissingEnvironmentFileUnsetsAll | src/models/config.py:65-67 | with an environment whose file is missing, the document is `{}` and every setting is unset |
| Configs.Resolve | src/models/config.py:78-86 | the merge with a parent yields valid settings |
| Configs.ResolveMerges | src/models/config.py:78-86 | without a parent the fields stay as read; with one every flag is set, to its local value when set and else to the parent's defaulted value; the replacements are the parent's with the local ones over them, local winning; the ignore lists are concatenated, parent first, with no de-duplication |
| Configs.EmptyProjectInheritsParent | src/models/config.py:78-86 | a project with no settings of its own sees exactly its parent's settings |
| Configs.Config.LoadConfigFiles | src/models/config.py:57-67 | the paths are built and read as `init_config` does, and the result is the loaded document |
| Configs.Config.SetFromDocument | src/models/config.py:70-75 | every field is the typed lookup of its key path in the document |
| Configs.Config.MergeGlobal | src/models/config.py:78-86 | the new fields are the old ones merged with the given parent settings |
| Configs.Config.InitConfig | src/models/config.py:55-88 | returns the loaded document, and the new fields are that document's settings merged with the global configuration when one is given |
| Configs.GlobalConfig.constructor | src/models/config.py:114-116 | a fresh configuration and no environments |
| Configs.GlobalConfig.InitConfig | src/models/config.py:122-131 | loads with no parent; fails exactly when the document has no `environments` list, and otherwise returns the document with `environments` set to that list |
| Configs.ConfigValues.IsIgnore | src/models/config.py:35-37 | definition, no contract: the stored flag, false when unset |
| Configs.ConfigValues.IsAutoMergeConfig | src/models/config.py:39-41 | definition, no contract: the stored flag, true when unset |
| Configs.ConfigValues.IsOnlyReplaceTemp | src/models/config.py:43-45 | definition, no contract: the stored flag, false when unset |
| Configs.ConfigValues.IsMultiProjectMode | src/models/config.py:47-49 | definition, no contract: the stored flag, false when unset |
| Configs.ConfigValues.IgnoreFiles | src/models/config.py:51-53 | definition, no contract: the stored list, `[]` when unset |
| Configs.ValueAt | src/models/config.py:96-107 | definition, no contract: the value `_get_config_value` finds; `Configs.Config.GetConfigValue` is proved against it |
| Configs.BasePath | src/models/config.py:60 | definition, no contract: `root/`, or empty without a root |
| Configs.MergeConfig | src/models/config.py:90-94 | definition, no contract: the document at the path, the `config` argument discarded; its consequences are `Configs.EnvironmentFileReplacesBase` and `Configs.MissingEnvironmentFileUnsetsAll` |
| Configs.LoadDocument | src/models/config.py:57-67 | definition, no contract: `config.yml` under the prefix, then `config.{env}.yml` through `_merge_config` when an environment is given |
| Configs.EnvironmentsOf | src/models/config.py:127 | definition, no contract: the typed `environments` lookup |
| Configs.Follow | src/models/config.py:101-106 | definition, no contract: the value reached by taking each key in turn through nested mappings, none at the first missing key; stated by `Configs.FollowComposes` and `Configs.Config.GetConfigValue` |
| Configs.AsBool | src/models/config.py:71-74 | definition, no contract: a boolean setting as stored, unset for any other value |
| Configs.AsStringList | src/models/config.py:75 | definition, no contract: a list of strings as stored, unset for any other value; also the `environments` lookup (config.py:127) |
| Configs.BaseFile | src/models/config.py:61 | definition, no contract: `config.yml` under the directory prefix |
| Configs.EnvironmentFile | src/models/config.py:66 | definition, no contract: `config.{env}.yml` under the directory prefix |
| Configs.LoadDocumentAt | src/models/config.py:60-67 | definition, no contract: `config.yml` under a fixed prefix, then `config.{env}.yml`, which replaces it when an environment is given; stated by `Configs.EnvironmentFileReplacesBase` and `Configs.MissingEnvironmentFileUnsetsAll` |
| ParserFactories.EntriesSet | src/factories/parser_factory.py:43 | describing the parsers commutes with assigning one |
| ParserFactories.EntriesValid | src/factories/parser_factory.py:24-33 | describing a valid registry gives a valid description |
| ParserFactories.EntriesUpdate | src/factories/parser_factory.py:28-31 | describing the parsers commutes with `update` |
| ParserFactories.EntriesUpdateMap | src/factories/parser_factory.py:28-31 | the descriptions after `update`, key by key, are those of the second dictionary over the first |
| ParserFactories.ParamEntries | src/factories/parser_factory.py:35-45 | the parameter registry after any prefix of the parameters is valid |
| ParserFactories.ParamEntriesStep | src/factories/parser_factory.py:42-43 | one more parameter assigns its parser under its key |
| ParserFactories.ParamEntriesOnePerParameter | src/factories/parser_factory.py:35-45 | exactly one parameter parser per parameter, in the parameters' order, with that parameter's key and value |
| ParserFactories.CollectValid | src/factories/parser_factory.py:56-64 | the collected replacement files form a valid dictionary |
| ParserFactories.CollectStep | src/factories/parser_factory.py:56-64 | one more file: the key it gives, if any, now holds its path, and nothing else changes |
| ParserFactories.CandidatesPrefixStep | src/factories/parser_factory.py:56-64 | one more file: a `.txt` basename is stored under the basename with every `.txt` removed, with the path `{base_path}/replacement_files/{file}`; any other file is skipped |
| ParserFactories.CollectHasGivenKeys | src/factories/parser_factory.py:56-64 | a key is collected exactly when some file gives it |
| ParserFactories.LastGiver | src/factories/parser_factory.py:56-64 | a collected key holds the path of the last file that gives it |
| ParserFactories.CollectLastWins | src/factories/parser_factory.py:56-64 | a collected key holds the path of the last file that gives it |
| ParserFactories.CandidatesLastWins | src/factories/parser_factory.py:58-64 | a key is collected exactly when some `.txt` file gives it, so a file that is not `.txt` yields nothing; a later file with the same key overwrites an earlier one |
| ParserFactories.SelectedKeyHasNoDot | src/factories/parser_factory.py:69-81 | no selected key contains a `.` |
| ParserFactories.FileEntriesValid | src/factories/parser_factory.py:68-81 | the file registry is a valid dictionary |
| ParserFactories.FileEntriesPrefixStep | src/factories/parser_factory.py:68-81 | one more collected key: an undotted key is registered as it is, under a parser owned by the factory; a dotted key is registered under its first segment, owned by the configuration, only when its second segment is the environment; otherwise nothing changes |
| ParserFactories.FileEntriesSelected | src/factories/parser_factory.py:68-81 | the file registry holds exactly the selected keys, and none of them contains a `.` |
| ParserFactories.FileEntriesLastWins | src/factories/parser_factory.py:69-81 | a registered key holds the parser of the last collected key that selects it, with that key's path, owned by the factory when the key is undotted and by the configuration otherwise: a later selecting key overwrites an earlier one |
| ParserFactories.AllFileEntries | src/factories/parser_factory.py:47-83 | the file registry `_get_file_parsers` returns is valid |
| ParserFactories.RegistryFileWins | src/factories/parser_factory.py:24-33 | the registry holds every parameter key and every selected file key; a key with a file parser is served by it, and any other key by its parameter parser |
| ParserFactories.RegistryFileLastWins | src/factories/parser_factory.py:24-33 | in the registry `makes` returns, a key served by a file parser reads the path collected under the last collected key that selects it |
| ParserFactories.ParserFactory.Makes | src/factories/parser_factory.py:24-33 | the registry built is the parameter parsers updated by the file parsers; every file parser is new, valid and has not read its file; every value parser in it is a `ParamParser` |
| ParserFactories.ParserFactory.GetParamParsers | src/factories/parser_factory.py:35-45 | one parameter parser per parameter, in order, and only `ParamParser`s |
| ParserFactories.ParserFactory.CollectReplacementFiles | src/factories/parser_factory.py:53-64 | the first loop yields the collected replacement files |
| ParserFactories.ParserFactory.GetFileParsers | src/factories/parser_factory.py:47-83 | the result is the selected file registry, and every parser in it is a new file parser that has not read its file |
| ParserFactories.ParserFactory.RegisterFile | src/factories/parser_factory.py:69-81 | one round of the second loop: the registry grows exactly as one more collected key selects |
| ParserFactories.CandidateKey | src/factories/parser_factory.py:59-63 | definition, no contract: a `.txt` basename gives the basename with every `.txt` removed; any other file gives nothing |
| ParserFactories.SelectedKey | src/factories/parser_factory.py:70-80 | definition, no contract: an undotted key as it is; a dotted key under its first segment when its second is the environment, else nothing |
| ParserFactories.FileEntries | src/factories/parser_factory.py:68-81 | definition, no contract: the file registry after a prefix of the collected keys; `ParserFactories.ParserFactory.GetFileParsers` is proved against it |
| ParserFactories.Registry | src/factories/parser_factory.py:24-33 | definition, no contract: the parameter registry updated by the file registry; its contents are `ParserFactories.RegistryFileWins` |
| ParserFactories.FilePath | src/factories/parser_factory.py:64 | definition, no contract: `{base_path}/replacement_files/{file}`, where a replacement file is read from |
| ParserFactories.Collect | src/factories/parser_factory.py:53-64 | definition, no contract: the dictionary built by assigning, file by file, a key's path for every file that gives a key; stated by `ParserFactories.CollectHasGivenKeys` and `ParserFactories.CollectLastWins` |
| ParserFactories.Candidates | src/factories/parser_factory.py:53-64 | definition, no contract: the intermediate registry of the first loop, a `.txt` basename without `.txt` mapped to its file's path; stated by `ParserFactories.CandidatesLastWins` |
| Projects.RootsSeparateProjects | src/models/project.py:16-27 | in multi-project mode, distinct project names give distinct source roots (`templates/{name}`) and distinct output roots (`dist/docker-{env}/{name}`) |
| Projects.FileListHasEveryWalkedFile | src/models/project.py:71-77 | a path is listed exactly when it joins a walked directory with one of its file names |
| Projects.Project.GetAllFiles | src/models/project.py:71-77 | the nested loop lists the walked files, directory by directory, in walk order |
| Projects.RelPathStripsRoot | src/models/project.py:38 | a file under `{pjroot}/src/` gets back its path relative to that directory when that relative path does not itself contain `{pjroot}/src/`; every occurrence is removed |
| Projects.Project.IsIgnoreFile | src/models/project.py:79-85 | true exactly when some ignore pattern matches the file name |
| Projects.ReplacedTextComposes | src/models/project.py:64-69 | replacing by the keys `a`, then by the keys `b`, is replacing by `a + b`, in order |
| Projects.ReplacedTextWithoutBracesIsUnchanged | src/models/project.py:64-69 | text without `{{` is unchanged by any replacement. An empty map leaves every text unchanged, by the definition of `ReplacedText` |
| Projects.Project.GetReplacedText | src/models/project.py:64-69 | each replacement is applied in the map's order, each replacing every `{{key}}` by its value |
| Projects.FileActionsStep | src/models/project.py:36-56 | one more file adds nothing when it is skipped, else its one action |
| Projects.OneActionPerKeptFile | src/models/project.py:36-56 | exactly one action per file that is not skipped, in file order |
| Projects.KeptAreTheUnskippedFiles | src/models/project.py:40-41 | a file is kept exactly when it is listed and no ignore pattern matches its relative path |
| Projects.FileActionIsWriteOrCopy | src/models/project.py:44-56 | a file is transformed exactly when only-replace-temp is off or its relative path ends with `.temp`; a transformed file is written with its placeholders replaced to the literal destination with every `.temp` removed; any other file is copied unchanged to the literal destination |
| Projects.CopiesShareOneDestination | src/models/project.py:44 | because the destination is never interpolated, every copy of one build goes to `{dist_root}/{file_rel_path}` literally |
| Projects.IgnoredProjectHasNoActions | src/models/project.py:31-32 | an ignored project writes and copies nothing |
| Projects.Project.constructor | src/models/project.py:12-14 | stores the name and the configuration |
| Projects.Project.Build | src/models/project.py:29-56 | the actions of the build: none for an ignored project, else one per kept file of `{pjroot}/src`, in walk order |
| Projects.Project.BuildFile | src/models/project.py:37-56 | one round of the loop: nothing for a skipped file, else its write or its copy |
| Projects.ProjectRoot | src/models/project.py:16-21 | definition, no contract: `templates/{name}` in multi-project mode, else `templates` |
| Projects.DistRoot | src/models/project.py:23-27 | definition, no contract: `dist/docker-{env}/{name}` in multi-project mode, else `dist/docker-{env}` |
| Projects.RelPath | src/models/project.py:38 | definition, no contract: the path with every `{pjroot}/src/` removed |
| Projects.IsReplaceFileContent | src/models/project.py:87-93 | definition, no contract: every file, unless only `.temp` files are transformed |
| Projects.ReplacedText | src/models/project.py:64-69 | definition, no contract: each replacement in turn, in the map's order |
| Projects.FileAction | src/models/project.py:44-56 | definition, no contract: the write or the copy of one kept file; stated by `Projects.FileActionIsWriteOrCopy` |
| Projects.ProjectActions | src/models/project.py:29-56 | definition, no contract: nothing for an ignored project, else the actions of the walked files of `{pjroot}/src` |
| Projects.PathJoin | src/models/project.py:76 | definition, no contract: `os.path.join(root, name)` for a relative name |
| Projects.FileList | src/models/project.py:71-77 | definition, no contract: the walked files, directory by directory, in walk order; stated by `Projects.FileListHasEveryWalkedFile` |
| Projects.IsIgnored | src/models/project.py:79-85 | definition, no contract: some ignore pattern matches the file name; `Projects.Project.IsIgnoreFile` is proved to compute it |
| Projects.Destination | src/models/project.py:44 | definition, no contract: the project's output root followed by the literal `/{file_rel_path}`; stated by `Projects.CopiesShareOneDestination` |
| Projects.Skipped | src/models/project.py:38-41 | definition, no contract: the file's path relative to `{pjroot}/src/` matches an ignore pattern |
| Projects.FileActions | src/models/project.py:36-56 | definition, no contract: the actions of the files in order, none for a skipped file; stated by `Projects.FileActionsStep` and `Projects.OneActionPerKeptFile` |
| Projects.Kept | src/models/project.py:36-41 | definition, no contract: the files that are not skipped, in order; stated by `Projects.KeptAreTheUnskippedFiles` |
| BuildUsecases.MultiProjectPlan | src/usecases/build_usecase.py:33-41 | one planned project per listing entry |
| BuildUsecases.MultiProjectPlanAt | src/usecases/build_usecase.py:35-41 | entry `i` of the listing gives project `i`, named after it and rooted at `templates/{name}` |
| BuildUsecases.PlannedRootsAreProjectRoots | src/usecases/build_usecase.py:26-41 | one project named `templates` in single mode, one per listing entry in listing order in multi mode; every project's configuration root is the root its build reads when the project's merged mode equals the global one, and distinct entries get distinct roots |
| BuildUsecases.ProjectWithoutEnvironmentFileInheritsGlobal | src/usecases/build_usecase.py:36-37 | a project without an environment file sees exactly the global settings |
| BuildUsecases.LoadProjects | src/usecases/build_usecase.py:22-43 | one loaded project per planned project, each with valid settings; a loaded project (the `LoadedProject` datatype, build_usecase.py:27-30 and 36-40) is a name with its resolved settings |
| BuildUsecases.LoadProjectsAt | src/usecases/build_usecase.py:35-41 | each project keeps its planned name and has the settings loaded under its planned root with the global configuration as parent |
| BuildUsecases.LoadMultiProjectAt | src/usecases/build_usecase.py:35-41 | project `i` of multi mode is entry `i` of the listing with the settings loaded under `templates/{name}` |
| BuildUsecases.LoadProjectsSnoc | src/usecases/build_usecase.py:40 | appending a planned project appends its loaded project |
| BuildUsecases.ProjectsActionsStep | src/usecases/build_usecase.py:19-20 | one more project adds its build's actions after the earlier ones |
| BuildUsecases.BuildPlanStep | src/usecases/build_usecase.py:18-20 | one more environment adds the actions of its projects after the earlier ones |
| BuildUsecases.BuildPlanFollowsEnvironmentOrder | src/usecases/build_usecase.py:18-20 | environments are built in declared order: building `a + b` is building `a` and then `b` |
| BuildUsecases.BuildUsecase.constructor | src/usecases/build_usecase.py:12-13 | stores the global configuration |
| BuildUsecases.BuildUsecase.Build | src/usecases/build_usecase.py:15-20 | the actions are those of every environment in declared order, each made of its projects' actions in order, every project built with that same environment |
| BuildUsecases.BuildUsecase.BuildEnvironmentProjects | src/usecases/build_usecase.py:19-20 | one round of the outer loop: the projects of the environment, loaded and built in order |
| BuildUsecases.BuildUsecase.BuildProjects | src/usecases/build_usecase.py:19-20 | the inner loop: each project's build actions, in order |
| BuildUsecases.BuildUsecase.GetProjects | src/usecases/build_usecase.py:22-43 | the mode is the global configuration's; the projects are the planned ones, in order, each holding the settings loaded under its root with the global configuration as parent |
| BuildUsecases.BuildUsecase.GetMultiProjects | src/usecases/build_usecase.py:33-43 | one project per listing entry, in listing order, each loaded under `templates/{name}` |
| BuildUsecases.BuildUsecase.AppendListedProject | src/usecases/build_usecase.py:35-41 | one round of the loop: the project of entry `i` is appended after those of the earlier entries |
| BuildUsecases.BuildUsecase.NewProject | src/usecases/build_usecase.py:27-30 | a new configuration initialised under the root with the global configuration as parent, held by a new project with the given name |
| BuildUsecases.PlannedProjects | src/usecases/build_usecase.py:26-41 | definition, no contract: the one project `templates` in single mode, else the multi-project plan; stated by `BuildUsecases.PlannedRootsAreProjectRoots` |
| BuildUsecases.ProjectValues | src/usecases/build_usecase.py:36-37 | definition, no contract: a project's own settings for the environment, merged over the global ones |
| BuildUsecases.EnvironmentActions | src/usecases/build_usecase.py:19-20 | definition, no contract: the actions of the projects of one environment, each built with that environment |
| BuildUsecases.BuildPlan | src/usecases/build_usecase.py:18-20 | definition, no contract: the environments' actions one after another; stated by `BuildUsecases.BuildPlanFollowsEnvironmentOrder` |
| BuildUsecases.ProjectsActions | src/usecases/build_usecase.py:19-20 | definition, no contract: the actions of building each loaded project in turn; stated by `BuildUsecases.ProjectsActionsStep` |
| Strings.ReplaceAllIsJoinOfSplit | src/models/project.py:67 | `str.replace` agrees with its independent reference `rep.join(s.split(pat))` |
| Strings.JoinSplitRoundTrip | src/factories/parser_factory.py:75-80 | the split of a key at `.` loses nothing: joining the pieces with `.` gives the key back (`sep.join(s.split(sep)) == s`) |
| Strings.SplitCountsSeparator | src/factories/parser_factory.py:70-75 | a string holds the separator exactly when splitting it gives at least two pieces |
| Strings.SplitPiecesAvoidSeparator | src/factories/parser_factory.py:75-80 | no piece of a split holds the separator |
| Strings.ReplaceAbsentIsIdentity | src/models/parser/param_parser.py:13-14 | replacing a pattern that does not occur changes nothing |
| Strings.ReplaceAllSkipsLiteralRun | src/models/project.py:67 | text that cannot start the pattern passes through unchanged ahead of the rest |
| Strings.BasenameIsLastComponent | src/factories/parser_factory.py:59 | the basename holds no `/`, ends the path, and is the whole path or follows a `/` |
| Strings.ReplaceAll | src/models/parser/param_parser.py:14 | definition, no contract: Python's `str.replace`, left to right and non-overlapping; its partner is `Strings.ReplaceAllIsJoinOfSplit` |
| Strings.Split | src/factories/parser_factory.py:75 | `str.split` gives at least one piece; its partner is `Strings.JoinSplitRoundTrip` |
| Strings.Join | src/models/parser/param_parser.py:14 | definition, no contract: `sep.join(parts)`, the reference the replacement is proved against |
| Strings.Basename | src/factories/parser_factory.py:59 | definition, no contract: `os.path.basename`; stated by `Strings.BasenameIsLastComponent` |
| Strings.Contains | src/factories/parser_factory.py:70 | definition, no contract: Python's `pat in s`; related to splitting by `Strings.SplitCountsSeparator` |
| Strings.EndsWith | src/factories/parser_factory.py:60 | definition, no contract: Python's `s.endswith(suffix)`, also at project.py:93 |

## Left out

- YAML parsing and file-existence checks (src/helpers/helper.py:10-17) are
  not modelled. The configuration files are given as a snapshot from path
  to parsed top-level mapping. A path that is absent stands for a file that
  is missing or whose document is empty, and reads as `{}`.
- Typed settings: a YAML value of the wrong type (or null) for a boolean,
  list or string mapping is read as unset, so its default applies. Python
  would keep the raw value and use its truthiness, or fail later.
- Configs.GlobalConfig.InitConfig: an `environments` value of the wrong
  type (a string, a mapping, or a list holding anything but strings) makes
  the model fail with `EnvironmentsNotFound`, as a missing one does; Python
  accepts any non-null value and goes on to iterate it in `build`.
  On failure the model leaves `environments` as it was and returns
  `Failure(EnvironmentsNotFound)`; Python first sets `_environments` to
  `None` and then raises (config.py:127-129).
- `_get_config_value` on a non-mapping intermediate value gives none. Python
  would raise or test membership in a string or list.
- `GlobalConfig` is modelled by composition (it holds a `Config`) rather
  than inheritance.
- The file system: `os.walk` is an input function from directory to visited
  directories and file names. A file's text is an input function. `fnmatch`
  is an input predicate whose glob semantics are not modelled.
  `os.listdir('templates')` is an input listing. Writes and copies,
  including `os.makedirs`, are emitted as actions, not performed.
- Parsers.FileParser.constructor: `FileParser` only declares `value`
  (src/models/parser/file_parser.py:9); neither its `__init__` nor
  `ParserBase.__init__` assigns it, so in Python the first `parse` raises
  `AttributeError` at file_parser.py:19. The model starts the cache at
  `None`, so the first `parse` reads the file.
- `Parsers.FileParser.Parse`: the files on disk are a map from path to
  text. A missing file gives an explicit `FileNotFound` failure where
  Python raises.
- The factory's inputs are explicit. `replacement_params`,
  `replacement_files`, `base_path` and `environment` are not defined by
  `Config`, so `makes` takes them together with the configuration object.
- `Projects.Project.Build` reads the mode from the project's own
  configuration, while `_get_projects` reads it from the global one. With
  a local `is_multi_project_mode` that differs from the global value, the
  roots of the two disagree. The model keeps both readings as written.
- Some methods stand for one loop body or one half of a Python method:
  `LoadConfigFiles`, `SetFromDocument`, `MergeGlobal`, `BuildFile`,
  `BuildProjects`, `BuildEnvironmentProjects`, `AppendListedProject`,
  `NewProject`, `CollectReplacementFiles` and `RegisterFile`. They carry
  the contracts of the code they stand for.
- The abstract bases (`ParserFactoryBase`, the abstract `parse`) have no
  behaviour of their own. The parser kinds are a datatype and a class
  behind one `Parser` dispatch.
- `custom_parser.py`, `parser.py`, `project_factory.py`, `build.py`,
  `dependency.py` and `const.py` are not part of this model; the folder
  names from `const.py` appear as string literals.
- With an environment whose `config.{env}.yml` is missing, the loaded
  document is `{}` even when `config.yml` exists, because `_merge_config`
  discards its argument (src/models/config.py:90-94); the model keeps this,
  as `Configs.MissingEnvironmentFileUnsetsAll` states.
