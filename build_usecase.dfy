/**
 * The build of every project for every environment the global
 * configuration lists: environments in the outer loop, projects in the
 * inner one.
 */
module BuildUsecases {
  import opened Wrappers
  import opened YamlFiles
  import opened Configs
  import opened Projects
  import opened Seqs

  /** A project as the build plans it: its name and the directory its configuration is loaded from. */
  datatype PlannedProject = PlannedProject(name: string, root: string)

  /** The settings of the project rooted at `root`: its own files merged with the global settings. */
  function ProjectValues(global: ConfigValues, files: Snapshot, root: string, environment: string): ConfigValues
    requires global.Valid()
  {
    Resolve(FromDocument(LoadDocumentAt(files, root + "/", Some(environment))), Some(global))
  }

  /** The projects of multi-project mode: one per entry of the listing, in order, rooted at `templates/{name}`. */
  function MultiProjectPlan(listing: seq<string>): (plan: seq<PlannedProject>)
    ensures |plan| == |listing|
    decreases |listing|
  {
    if listing == [] then []
    else
      var name := listing[|listing| - 1];
      MultiProjectPlan(listing[..|listing| - 1]) + [PlannedProject(name, "templates/" + name)]
  }

  /**
   * `_get_projects`: in single-project mode the one project `templates`
   * rooted at `templates`; in multi-project mode one project per entry of
   * the listing of `templates`.
   */
  function PlannedProjects(multiProject: bool, listing: seq<string>): seq<PlannedProject> {
    if !multiProject then [PlannedProject("templates", "templates")] else MultiProjectPlan(listing)
  }

  /** The multi-project plan names the listed entries, in order, each rooted at its directory under `templates`. */
  lemma {:induction false} MultiProjectPlanAt(listing: seq<string>, i: int)
    requires 0 <= i < |listing|
    ensures MultiProjectPlan(listing)[i] == PlannedProject(listing[i], "templates/" + listing[i])
    decreases |listing|
  {
    if i < |listing| - 1 {
      var init := listing[..|listing| - 1];
      MultiProjectPlanAt(init, i);
    }
  }

  /**
   * Every planned project loads its configuration from the directory that
   * `Project.build` treats as its root under the global mode, and distinct
   * names in the listing give distinct roots.
   */
  lemma {:induction false} PlannedRootsAreProjectRoots(multiProject: bool, listing: seq<string>)
    ensures var plan := PlannedProjects(multiProject, listing);
      && |plan| == (if multiProject then |listing| else 1)
      && (forall i | 0 <= i < |plan| :: plan[i].root == ProjectRoot(plan[i].name, multiProject))
      && (multiProject ==> forall i | 0 <= i < |plan| :: plan[i].name == listing[i])
      && (multiProject ==> forall i, j | 0 <= i < j < |plan| && listing[i] != listing[j] :: plan[i].root != plan[j].root)
  {
    var plan := PlannedProjects(multiProject, listing);
    if multiProject {
      forall i | 0 <= i < |plan|
        ensures plan[i] == PlannedProject(listing[i], "templates/" + listing[i])
      {
        MultiProjectPlanAt(listing, i);
      }
      forall i, j | 0 <= i < j < |plan| && listing[i] != listing[j]
        ensures plan[i].root != plan[j].root
      {
        RootsSeparateProjects(listing[i], listing[j], "");
      }
    }
  }

  /**
   * A project without an environment file for `environment` has no settings
   * of its own: it sees exactly the global settings.
   */
  lemma {:induction false} ProjectWithoutEnvironmentFileInheritsGlobal(global: ConfigValues, files: Snapshot, root: string, environment: string)
    requires global.Valid()
    requires EnvironmentFile(Some(root), environment) !in files
    ensures var v := ProjectValues(global, files, root, environment);
      && v.Replacements() == global.Replacements()
      && v.IsIgnore() == global.IsIgnore()
      && v.IsAutoMergeConfig() == global.IsAutoMergeConfig()
      && v.IsOnlyReplaceTemp() == global.IsOnlyReplaceTemp()
      && v.IsMultiProjectMode() == global.IsMultiProjectMode()
      && v.IgnoreFiles() == global.IgnoreFiles()
  {
    MissingEnvironmentFileUnsetsAll(files, Some(root), environment);
    EmptyProjectInheritsParent(global);
  }

  /** A project as `_get_projects` returns it: its name and its resolved settings. */
  datatype LoadedProject = LoadedProject(name: string, values: ConfigValues)

  /**
   * The projects of `plan`, in order, each with its configuration loaded
   * under its root for `environment` with `global` as parent.
   */
  function LoadProjects(global: ConfigValues, files: Snapshot, environment: string, plan: seq<PlannedProject>): (r: seq<LoadedProject>)
    requires global.Valid()
    ensures |r| == |plan|
    ensures forall k | 0 <= k < |r| :: r[k].values.Valid()
    decreases |plan|
  {
    if plan == [] then []
    else
      var p := plan[|plan| - 1];
      LoadProjects(global, files, environment, plan[..|plan| - 1])
        + [LoadedProject(p.name, ProjectValues(global, files, p.root, environment))]
  }

  /** Each loaded project keeps its planned name and has the settings of its planned root. */
  lemma {:induction false} LoadProjectsAt(global: ConfigValues, files: Snapshot, environment: string, plan: seq<PlannedProject>, k: int)
    requires global.Valid()
    requires 0 <= k < |plan|
    ensures LoadProjects(global, files, environment, plan)[k]
         == LoadedProject(plan[k].name, ProjectValues(global, files, plan[k].root, environment))
    decreases |plan|
  {
    if k < |plan| - 1 {
      LoadProjectsAt(global, files, environment, plan[..|plan| - 1], k);
    }
  }

  /** The project at position `i` of the multi-project plan, loaded. */
  lemma {:induction false} LoadMultiProjectAt(global: ConfigValues, files: Snapshot, environment: string, listing: seq<string>, i: int)
    requires global.Valid()
    requires 0 <= i < |listing|
    ensures LoadProjects(global, files, environment, MultiProjectPlan(listing))[i]
         == LoadedProject(listing[i], ProjectValues(global, files, "templates/" + listing[i], environment))
  {
    MultiProjectPlanAt(listing, i);
    LoadProjectsAt(global, files, environment, MultiProjectPlan(listing), i);
  }

  /** Planning one more project loads it after the others. */
  lemma {:induction false} LoadProjectsSnoc(global: ConfigValues, files: Snapshot, environment: string, plan: seq<PlannedProject>, p: PlannedProject)
    requires global.Valid()
    ensures LoadProjects(global, files, environment, plan + [p])
         == LoadProjects(global, files, environment, plan) + [LoadedProject(p.name, ProjectValues(global, files, p.root, environment))]
  {
    assert (plan + [p])[..|plan|] == plan;
  }

  /** The actions of building each of the loaded projects for `environment`, in order. */
  function ProjectsActions(loaded: seq<LoadedProject>, environment: string, host: Host): seq<Action>
    requires forall k | 0 <= k < |loaded| :: loaded[k].values.Valid()
    decreases |loaded|
  {
    if loaded == [] then []
    else
      var p := loaded[|loaded| - 1];
      ProjectsActions(loaded[..|loaded| - 1], environment, host) + ProjectActions(p.values, p.name, environment, host)
  }

  /** One more project, as a loop over the loaded projects takes it. */
  lemma {:induction false} ProjectsActionsStep(loaded: seq<LoadedProject>, environment: string, host: Host, j: int)
    requires forall k | 0 <= k < |loaded| :: loaded[k].values.Valid()
    requires 0 <= j < |loaded|
    ensures ProjectsActions(loaded[..j + 1], environment, host)
         == ProjectsActions(loaded[..j], environment, host) + ProjectActions(loaded[j].values, loaded[j].name, environment, host)
  {
    assert loaded[..j + 1][..j] == loaded[..j];
  }

  /** The actions of building every project of `environment`, in order. */
  function EnvironmentActions(global: ConfigValues, files: Snapshot, listing: seq<string>, host: Host, environment: string): seq<Action>
    requires global.Valid()
  {
    ProjectsActions(LoadProjects(global, files, environment, PlannedProjects(global.IsMultiProjectMode(), listing)), environment, host)
  }

  /** The actions of the build over the environments `environments`, in order. */
  function BuildPlan(global: ConfigValues, environments: seq<string>, files: Snapshot, listing: seq<string>, host: Host): seq<Action>
    requires global.Valid()
  {
    ConcatMap(environments, e requires global.Valid() => EnvironmentActions(global, files, listing, host, e))
  }

  /** One more environment, as a loop over the environments takes it. */
  lemma {:induction false} BuildPlanStep(global: ConfigValues, environments: seq<string>, files: Snapshot, listing: seq<string>, host: Host, i: int)
    requires global.Valid()
    requires 0 <= i < |environments|
    ensures BuildPlan(global, environments[..i + 1], files, listing, host)
         == BuildPlan(global, environments[..i], files, listing, host) + EnvironmentActions(global, files, listing, host, environments[i])
  {
    ConcatMapStep(environments, e requires global.Valid() => EnvironmentActions(global, files, listing, host, e), i);
  }

  /**
   * Environments are built one after another in the declared order: the
   * build over `a + b` is the build over `a` followed by the build over `b`.
   */
  lemma {:induction false} BuildPlanFollowsEnvironmentOrder(global: ConfigValues, a: seq<string>, b: seq<string>, files: Snapshot, listing: seq<string>, host: Host)
    requires global.Valid()
    ensures BuildPlan(global, a + b, files, listing, host)
         == BuildPlan(global, a, files, listing, host) + BuildPlan(global, b, files, listing, host)
  {
    ConcatMapAppend(a, b, e requires global.Valid() => EnvironmentActions(global, files, listing, host, e));
  }

  /** `projects` are, in order, the projects `loaded` describes: same names, same current settings. */
  ghost predicate Describes(projects: seq<Project>, loaded: seq<LoadedProject>)
    reads set k | 0 <= k < |projects| :: projects[k].config
  {
    && |projects| == |loaded|
    && forall k | 0 <= k < |projects| :: LoadedProject(projects[k].name, projects[k].config.Values()) == loaded[k]
  }

  /** The build use case over the global configuration. */
  class BuildUsecase {
    const globalConfig: GlobalConfig

    constructor (config: GlobalConfig)
      ensures globalConfig == config
    {
      globalConfig := config;
    }

    /**
     * `build`: for each environment, in order, the actions of each of its
     * projects, in order.
     */
    method Build(files: Snapshot, listing: seq<string>, host: Host) returns (actions: seq<Action>)
      requires globalConfig.config.Values().Valid()
      ensures actions == BuildPlan(globalConfig.config.Values(), globalConfig.environments, files, listing, host)
    {
      var global := globalConfig.config.Values();
      var environments := globalConfig.environments;
      actions := [];
      var i := 0;
      while i < |environments|
        invariant 0 <= i <= |environments|
        invariant globalConfig.config.Values() == global && globalConfig.environments == environments
        invariant actions == BuildPlan(global, environments[..i], files, listing, host)
      {
        var built := BuildEnvironmentProjects(environments[i], files, listing, host);
        BuildPlanStep(global, environments, files, listing, host, i);
        actions := actions + built;
        i := i + 1;
      }
      assert environments[..i] == environments;
    }

    /** One round of `build`'s outer loop: the projects of `environment`, loaded and built in order. */
    method BuildEnvironmentProjects(environment: string, files: Snapshot, listing: seq<string>, host: Host) returns (actions: seq<Action>)
      requires globalConfig.config.Values().Valid()
      ensures actions == EnvironmentActions(globalConfig.config.Values(), files, listing, host, environment)
    {
      var projects := GetProjects(environment, files, listing);
      ghost var global := globalConfig.config.Values();
      actions := BuildProjects(projects, environment, host, LoadProjects(global, files, environment, PlannedProjects(global.IsMultiProjectMode(), listing)));
    }

    /** `build`'s inner loop: the actions of each project, in order. */
    static method BuildProjects(projects: seq<Project>, environment: string, host: Host, ghost loaded: seq<LoadedProject>)
      returns (actions: seq<Action>)
      requires Describes(projects, loaded)
      requires forall k | 0 <= k < |loaded| :: loaded[k].values.Valid()
      ensures actions == ProjectsActions(loaded, environment, host)
    {
      actions := [];
      var j := 0;
      while j < |projects|
        invariant 0 <= j <= |projects|
        invariant actions == ProjectsActions(loaded[..j], environment, host)
      {
        var built := projects[j].Build(environment, host);
        ProjectsActionsStep(loaded, environment, host, j);
        actions := actions + built;
        j := j + 1;
      }
      assert loaded[..j] == loaded;
    }

    /**
     * `_get_projects`: new projects, each with a new configuration loaded
     * under its root for `environment` with the global configuration as
     * parent.
     */
    method GetProjects(environment: string, files: Snapshot, listing: seq<string>) returns (projects: seq<Project>)
      requires globalConfig.config.Values().Valid()
      ensures var global := globalConfig.config.Values();
        Describes(projects, LoadProjects(global, files, environment, PlannedProjects(global.IsMultiProjectMode(), listing)))
    {
      var global := globalConfig.config.Values();
      if !global.IsMultiProjectMode() {
        var project := NewProject("templates", "templates", environment, files);
        projects := [project];
        assert [PlannedProject("templates", "templates")][..0] == [];
      } else {
        projects := GetMultiProjects(environment, files, listing);
      }
    }

    /** `_get_projects` in multi-project mode: one new project per entry of the listing, in order. */
    method GetMultiProjects(environment: string, files: Snapshot, listing: seq<string>) returns (projects: seq<Project>)
      requires globalConfig.config.Values().Valid()
      ensures Describes(projects, LoadProjects(globalConfig.config.Values(), files, environment, MultiProjectPlan(listing)))
    {
      var global := globalConfig.config.Values();
      ghost var target := LoadProjects(global, files, environment, MultiProjectPlan(listing));
      forall k | 0 <= k < |listing|
        ensures target[k] == LoadedProject(listing[k], ProjectValues(global, files, "templates/" + listing[k], environment))
      {
        LoadMultiProjectAt(global, files, environment, listing, k);
      }
      projects := [];
      var i := 0;
      while i < |listing|
        invariant 0 <= i <= |listing|
        invariant Describes(projects, target[..i])
      {
        projects := AppendListedProject(projects, listing, i, environment, files, global, target);
        i := i + 1;
      }
      assert target[..i] == target;
    }

    /**
     * One round of `_get_projects`' loop: the project for entry `i` of the
     * listing, rooted at `templates/{name}`, added after those of the
     * entries before it.
     */
    method AppendListedProject(projects: seq<Project>, listing: seq<string>, i: int, environment: string, files: Snapshot,
                               ghost global: ConfigValues, ghost target: seq<LoadedProject>)
      returns (r: seq<Project>)
      requires 0 <= i < |listing|
      requires globalConfig.config.Values() == global && global.Valid()
      requires |target| == |listing|
      requires forall k | 0 <= k < |listing| ::
        target[k] == LoadedProject(listing[k], ProjectValues(global, files, "templates/" + listing[k], environment))
      requires Describes(projects, target[..i])
      ensures Describes(r, target[..i + 1])
    {
      var name := listing[i];
      var project := NewProject(name, "templates/" + name, environment, files);
      r := projects + [project];
    }

    /**
     * The body shared by both branches of `_get_projects`: a new
     * configuration loaded under `root` for `environment` with the global
     * configuration as parent, and a new project `name` holding it.
     */
    method NewProject(name: string, root: string, environment: string, files: Snapshot) returns (project: Project)
      requires globalConfig.config.Values().Valid()
      ensures fresh(project) && fresh(project.config)
      ensures project.name == name
      ensures project.config.Values() == ProjectValues(globalConfig.config.Values(), files, root, environment)
    {
      var localConfig := new Config();
      var _ := localConfig.InitConfig(files, Some(root), Some(environment), globalConfig.config);
      project := new Project(name, localConfig);
    }
  }
}
