# autoconda environment resolver, in Dafny

This project models how autoconda decides which conda environment to run a command in.
Starting from a resolved directory, it walks upward to the nearest `environment.yml`.
It loads that file as YAML and reads its top-level `name` entry.
Any failure along the way ("no file", malformed YAML, no `name`) becomes `None`.

- `paths.dfy` (module `Paths`): an absolute path is a sequence of components. The root is `[]`. `Parent` drops the last component, and the root is its own parent.
- `environment.dfy` (module `Environment`): the probe at each level is `EnvironmentFile(dir)`, standing for `current_path / "environment.yml"`, and `HasEnvironmentFile(fs, dir)`, standing for `env_file.exists()`. The filesystem is a map from each existing file to the outcome `yaml.safe_load` gives on it. That outcome is either `YamlError` or `Loaded(doc)`, where `doc` is a `YamlValue`.
  - `FindEnvironmentFile` is the upward `while` loop. It is proved against the declarative `IsNearestEnvironmentFile` and against the recursive reference `NearestEnvironmentFile`.
  - `ParseEnvironmentFile`, `GetEnvironmentName` and `GetCondaEnvironmentName` are pure functions.
- `wrappers.dfy` (module `Wrappers`): `Option` and `Result`.

The search probes only `environment.yml`, as the code does. There is no `environment.yaml` fallback and no tie-break between the two.

`dict.get("name")` returns Python `None` when the key is absent and also when the key maps to YAML null (`name:` with no value). `GetEnvironmentName` therefore returns `None` in both cases.

## Model

| member | source | states |
|---|---|---|
| Paths.Parent | src/autoconda/environment.py:24-28 | a path equals its own parent exactly when it is the root; otherwise the parent is one component shorter and is an ancestor, so the walk terminates |
| Paths.Join | src/autoconda/environment.py:25 | `dir / name` is one component longer than `dir`, ends in `name`, and has `dir` as its parent |
| Environment.EnvironmentFile | src/autoconda/environment.py:25 | the probed path is the directory followed by exactly one more component, `environment.yml` |
| Environment.NoneDeeperAfterStep | src/autoconda/environment.py:25-28 | stepping from a directory without `environment.yml` to its parent keeps "no probed directory has the file" true |
| Environment.FindEnvironmentFile | src/autoconda/environment.py:10-35 | the loop, whose invariant is that no directory already probed has the file, returns the file of the nearest ancestor-or-self of the start that has `environment.yml`, checking the root after the loop, or `None` when no directory up to and including the root has one; it agrees with the reference search |
| Environment.NearestIsUnique | src/autoconda/environment.py:24-35 | the nearest-file specification admits at most one answer for a given filesystem and start |
| Environment.NearestEnvironmentFile | src/autoconda/environment.py:24-35 | whatever the search returns is an existing file, so parsing it never raises `FileNotFoundError` |
| Environment.NearestOfParent | src/autoconda/environment.py:25-28 | a directory without `environment.yml` has the same nearest file as its parent |
| Environment.NearestEnvironmentFileIsNearest | src/autoconda/environment.py:24-35 | soundness (a returned path is `d + ["environment.yml"]` for an ancestor-or-self `d` and exists), nearest wins (no deeper directory has the file) and completeness (`None` only if no directory up to the root has it) |
| Environment.AsMapping | src/autoconda/environment.py:56 | a mapping document is kept as it is; any other document becomes the empty mapping |
| Environment.ParseEnvironmentFile | src/autoconda/environment.py:38-56 | exactly a missing file fails with `FileNotFound`, exactly malformed YAML fails with a YAML error, and exactly a file that loads succeeds, yielding its document if that is a mapping and the empty mapping otherwise |
| Environment.GetEnvironmentName | src/autoconda/environment.py:59-68 | the result is present exactly when `name` is a key with a non-null value, and then it is that value |
| Environment.OtherKeysDoNotAffectName | src/autoconda/environment.py:68 | setting any key other than `name` (such as `dependencies`) leaves the extracted name unchanged |
| Environment.GetCondaEnvironmentName | src/autoconda/environment.py:71-90 | a name that is returned is declared, non-null, by the nearest `environment.yml` |
| Environment.CondaNameWithoutFile | src/autoconda/environment.py:82-84 | with no `environment.yml` from the start up to the root, the result is `None` |
| Environment.CondaNameFromNearestFile | src/autoconda/environment.py:82-88 | when the nearest file declares name `v`, the result is exactly `v`, whatever files further up say |
| Environment.CondaNameNoneWhenNearestUnnamed | src/autoconda/environment.py:86-90 | when the nearest file is malformed YAML, not a mapping, lacks `name` or has a null one, the result is `None` and ancestors are not consulted |
| Environment.CondaNameRoundTrip | src/autoconda/environment.py:82-88 | `environment.yml` in the start directory holding `name: X` resolves to exactly `X` |

## Left out

- Defaulting the start to `os.getcwd()` and `Path.resolve()` (symlinks, relative paths): the model takes the resolved absolute path as a parameter.
- YAML parsing itself (`yaml.safe_load`): each file's load outcome is an input. Floats, timestamps and other scalar kinds are not distinguished from the scalars modelled, because only "mapping or not" and "null or not" matter here.
- A directory named `environment.yml`: `exists()` accepts it and `open()` then raises an error that is not caught. The model's filesystem holds only files.
- Errors other than `yaml.YAMLError` and `FileNotFoundError`, such as permission errors or text-decoding errors: these propagate in the source and are not modelled.
- A file deleted between the probe and the read: `parse_environment_file` raises `FileNotFoundError`, which `get_conda_environment_name` turns into `None`. The model reads one snapshot of the filesystem, so `GetCondaEnvironmentName` never reaches its `FileNotFound` branch.
- src/autoconda/conda.py (spawning `conda run`, reading `$SHELL`, listing environments) and src/autoconda/cli.py (argument parsing, printing, exit codes): process and terminal I/O, outside this model.
