/**
 * The YAML layer the configuration reads through. Parsing is outside the
 * model: the configuration files on disk are given as a snapshot from path
 * to the top-level mapping each one parses to.
 */
module YamlFiles {
  import opened Dicts

  /** A parsed YAML value. */
  datatype Yaml =
    | YMap(d: Dict<Yaml>)
    | YList(items: seq<Yaml>)
    | YStr(s: string)
    | YBool(b: bool)
    | YInt(i: int)
    | YNull

  /**
   * Path to parsed top-level mapping. A path that is absent stands for a file
   * that does not exist or whose document is empty.
   */
  type Snapshot = map<string, Dict<Yaml>>

  /** The mapping a configuration file holds, `{}` when it is missing or empty. */
  function ReadYaml(files: Snapshot, path: string): Dict<Yaml> {
    if path in files then files[path] else Empty()
  }
}
