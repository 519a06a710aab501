/**
 * The environment-name resolver: find the nearest `environment.yml` above a
 * start directory, load it, and read its `name` entry.
 *
 * The filesystem is a map from each existing file to the outcome
 * `yaml.safe_load` would give on its contents; YAML parsing itself is
 * abstracted into that outcome.
 */
module Environment {
  import opened Wrappers
  import opened Paths

  /** A value `yaml.safe_load` can produce. */
  datatype YamlValue =
    | YNull
    | YBool(b: bool)
    | YInt(i: int)
    | YStr(s: string)
    | YList(items: seq<YamlValue>)
    | YMap(entries: map<YamlValue, YamlValue>)

  /** A parsed document as a Python dict. */
  type Mapping = map<YamlValue, YamlValue>

  /** What loading one file's text gives: `yaml.YAMLError`, or a document. */
  datatype LoadOutcome = YamlError | Loaded(doc: YamlValue)

  /** The existing files, each with the outcome of loading it. */
  type FileSystem = map<Path, LoadOutcome>

  /** The two exceptions `get_conda_environment_name` swallows. */
  datatype ParseError = FileNotFound(path: Path) | YamlSyntaxError

  const EnvironmentFileName: string := "environment.yml"

  /** The key looked up by `env_data.get("name")`. */
  const NameKey: YamlValue := YStr("name")

  /** `current_path / "environment.yml"`: the file probed in directory `dir`. */
  function EnvironmentFile(dir: Path): (p: Path)
    ensures |p| == |dir| + 1 && p[..|dir|] == dir && p[|dir|] == EnvironmentFileName
  {
    Join(dir, EnvironmentFileName)
  }

  /** `env_file.exists()` for the file probed in `dir`. */
  predicate HasEnvironmentFile(fs: FileSystem, dir: Path) {
    EnvironmentFile(dir) in fs
  }

  // ---------------------------------------------------------------------
  // Finding the file

  /** No ancestor-or-self of `start` deeper than depth `k` holds the file. */
  ghost predicate NoneDeeperThan(fs: FileSystem, start: Path, k: int) {
    forall j :: 0 <= j <= |start| && k < j ==> !HasEnvironmentFile(fs, start[..j])
  }

  /** No directory from `start` up to and including the root holds the file. */
  ghost predicate NoFileUpToRoot(fs: FileSystem, start: Path) {
    forall j :: 0 <= j <= |start| ==> !HasEnvironmentFile(fs, start[..j])
  }

  /** The ancestor of `start` at depth `k` is the nearest one holding the file. */
  ghost predicate IsNearestAt(fs: FileSystem, start: Path, k: int) {
    && 0 <= k <= |start|
    && HasEnvironmentFile(fs, start[..k])
    && NoneDeeperThan(fs, start, k)
  }

  /**
   * What the upward search must return: the file of the nearest
   * ancestor-or-self of `start` that has one, or nothing when no directory
   * from `start` up to and including the root has one.
   */
  ghost predicate IsNearestEnvironmentFile(fs: FileSystem, start: Path, r: Option<Path>) {
    match r
    case None => NoFileUpToRoot(fs, start)
    case Some(p) => exists k :: IsNearestAt(fs, start, k) && p == EnvironmentFile(start[..k])
  }

  /** The search result is determined by the filesystem and the start. */
  lemma NearestIsUnique(fs: FileSystem, start: Path, r1: Option<Path>, r2: Option<Path>)
    requires IsNearestEnvironmentFile(fs, start, r1)
    requires IsNearestEnvironmentFile(fs, start, r2)
    ensures r1 == r2
  {
  }

  /**
   * The upward search as a recursive reference: probe `dir`, and failing
   * that, its parent, stopping after the root.
   */
  function NearestEnvironmentFile(fs: FileSystem, dir: Path): (r: Option<Path>)
    decreases |dir|
    ensures r.Some? ==> r.value in fs
  {
    if HasEnvironmentFile(fs, dir) then Some(EnvironmentFile(dir))
    else if dir == Root then None
    else NearestEnvironmentFile(fs, Parent(dir))
  }

  /** The ancestors of a directory's parent are that directory's ancestors above it. */
  lemma ParentAncestors(dir: Path)
    requires dir != Root
    ensures forall j :: 0 <= j <= |Parent(dir)| ==> Parent(dir)[..j] == dir[..j]
  {
  }

  /** A directory without the file has the same nearest file as its parent. */
  lemma NearestOfParent(fs: FileSystem, dir: Path, r: Option<Path>)
    requires dir != Root && !HasEnvironmentFile(fs, dir)
    requires IsNearestEnvironmentFile(fs, Parent(dir), r)
    ensures IsNearestEnvironmentFile(fs, dir, r)
  {
    var up := Parent(dir);
    ParentAncestors(dir);
    assert dir[..|dir|] == dir;
    assert NoneDeeperThan(fs, dir, |up|);
    match r
    case None =>
    case Some(p) =>
      var k :| IsNearestAt(fs, up, k) && p == EnvironmentFile(up[..k]);
      assert up[..k] == dir[..k];
      assert IsNearestAt(fs, dir, k);
  }

  /** Soundness, nearest-wins and completeness of the reference search. */
  lemma {:induction false} NearestEnvironmentFileIsNearest(fs: FileSystem, dir: Path)
    ensures IsNearestEnvironmentFile(fs, dir, NearestEnvironmentFile(fs, dir))
    decreases |dir|
  {
    if HasEnvironmentFile(fs, dir) {
      assert dir[..|dir|] == dir;
      assert IsNearestAt(fs, dir, |dir|);
    } else if dir != Root {
      NearestEnvironmentFileIsNearest(fs, Parent(dir));
      NearestOfParent(fs, dir, NearestEnvironmentFile(fs, Parent(dir)));
    }
  }

  /** One step up from an ancestor without the file keeps the walk's invariant. */
  lemma NoneDeeperAfterStep(fs: FileSystem, start: Path, dir: Path)
    requires IsAncestorOrSelf(dir, start) && dir != Root
    requires NoneDeeperThan(fs, start, |dir|) && !HasEnvironmentFile(fs, dir)
    ensures NoneDeeperThan(fs, start, |Parent(dir)|)
  {
    assert start[..|dir|] == dir;
  }

  /**
   * `find_environment_file`, from the resolved start directory: walk up
   * while the current directory is not its own parent, probing each level,
   * then probe the root once more.
   */
  method FindEnvironmentFile(fs: FileSystem, start: Path) returns (r: Option<Path>)
    ensures IsNearestEnvironmentFile(fs, start, r)
    ensures r == NearestEnvironmentFile(fs, start)
  {
    var current := start;
    while current != Parent(current)
      invariant IsAncestorOrSelf(current, start)
      invariant NoneDeeperThan(fs, start, |current|)
      invariant NearestEnvironmentFile(fs, current) == NearestEnvironmentFile(fs, start)
      decreases |current|
    {
      var envFile := EnvironmentFile(current);
      if envFile in fs {
        r := Some(envFile);
        assert start[..|current|] == current;
        assert IsNearestAt(fs, start, |current|);
        return;
      }
      NoneDeeperAfterStep(fs, start, current);
      current := Parent(current);
    }
    assert start[..0] == current;
    var envFile := EnvironmentFile(current);
    if envFile in fs {
      r := Some(envFile);
      assert IsNearestAt(fs, start, 0);
    } else {
      r := None;
    }
  }

  // ---------------------------------------------------------------------
  // Reading the name

  /** `data if isinstance(data, dict) else {}`. */
  function AsMapping(doc: YamlValue): (m: Mapping)
    ensures doc.YMap? ==> YMap(m) == doc
    ensures !doc.YMap? ==> m == map[]
  {
    if doc.YMap? then doc.entries else map[]
  }

  /**
   * `parse_environment_file`: a missing file raises `FileNotFoundError`,
   * malformed YAML raises `yaml.YAMLError`, and any other document becomes a
   * mapping, the empty one when it is not a mapping itself.
   */
  function ParseEnvironmentFile(fs: FileSystem, path: Path): (r: Result<Mapping, ParseError>)
    ensures path !in fs <==> r == Failure(FileNotFound(path))
    ensures r == Failure(YamlSyntaxError) <==> path in fs && fs[path] == YamlError
    ensures r.Success? <==> path in fs && fs[path].Loaded?
    ensures r.Success? ==> r.value == AsMapping(fs[path].doc)
  {
    if path !in fs then Failure(FileNotFound(path))
    else match fs[path]
      case YamlError => Failure(YamlSyntaxError)
      case Loaded(doc) => Success(AsMapping(doc))
  }

  /**
   * `env_data.get("name")`: the value under `"name"`, or `None` when the key
   * is absent or maps to YAML null (which Python reads as `None` too).
   */
  function GetEnvironmentName(data: Mapping): (r: Option<YamlValue>)
    ensures r.Some? <==> NameKey in data && data[NameKey] != YNull
    ensures r.Some? ==> r.value == data[NameKey]
  {
    if NameKey in data && data[NameKey] != YNull then Some(data[NameKey]) else None
  }

  /** Entries other than `name`, such as `dependencies`, do not change the name. */
  lemma OtherKeysDoNotAffectName(data: Mapping, key: YamlValue, v: YamlValue)
    requires key != NameKey
    ensures GetEnvironmentName(data[key := v]) == GetEnvironmentName(data)
  {
  }

  /** The loaded file declares environment name `v`. */
  ghost predicate DeclaresName(o: LoadOutcome, v: YamlValue) {
    && o.Loaded? && o.doc.YMap?
    && NameKey in o.doc.entries
    && o.doc.entries[NameKey] == v
    && v != YNull
  }

  /**
   * `get_conda_environment_name`: find the nearest file, parse it and read
   * its name, turning "no file", `yaml.YAMLError` and `FileNotFoundError`
   * into `None`. The search is the reference `NearestEnvironmentFile`, which
   * `FindEnvironmentFile`, the loop, is proved to equal.
   */
  function GetCondaEnvironmentName(fs: FileSystem, start: Path): (r: Option<YamlValue>)
    ensures r.Some? ==> exists k :: IsNearestAt(fs, start, k) && DeclaresName(fs[EnvironmentFile(start[..k])], r.value)
  {
    match NearestEnvironmentFile(fs, start)
    case None => None
    case Some(envFile) =>
      NearestEnvironmentFileIsNearest(fs, start);
      match ParseEnvironmentFile(fs, envFile)
      case Failure(_) => None
      case Success(envData) => GetEnvironmentName(envData)
  }

  /** No `environment.yml` from the start directory up to the root: no name. */
  lemma CondaNameWithoutFile(fs: FileSystem, start: Path)
    requires NoFileUpToRoot(fs, start)
    ensures GetCondaEnvironmentName(fs, start) == None
  {
  }

  /** The name is the one declared by the nearest file, whatever the files above it say. */
  lemma CondaNameFromNearestFile(fs: FileSystem, start: Path, k: int, v: YamlValue)
    requires IsNearestAt(fs, start, k)
    requires DeclaresName(fs[EnvironmentFile(start[..k])], v)
    ensures GetCondaEnvironmentName(fs, start) == Some(v)
  {
    NearestEnvironmentFileIsNearest(fs, start);
    NearestIsUnique(fs, start, Some(EnvironmentFile(start[..k])), NearestEnvironmentFile(fs, start));
  }

  /**
   * The nearest file is malformed YAML, is not a mapping, has no `name`, or
   * has a null one: no name, and the files further up are not consulted.
   */
  lemma CondaNameNoneWhenNearestUnnamed(fs: FileSystem, start: Path, k: int)
    requires IsNearestAt(fs, start, k)
    requires forall v :: !DeclaresName(fs[EnvironmentFile(start[..k])], v)
    ensures GetCondaEnvironmentName(fs, start) == None
  {
  }

  /**
   * Round trip: `environment.yml` in the start directory holding
   * `name: <text>` resolves to exactly that text.
   */
  lemma CondaNameRoundTrip(fs: FileSystem, start: Path, text: string)
    requires EnvironmentFile(start) in fs
    requires fs[EnvironmentFile(start)] == Loaded(YMap(map[NameKey := YStr(text)]))
    ensures GetCondaEnvironmentName(fs, start) == Some(YStr(text))
  {
  }
}
