# minimal-torch-docker builder, modelled in Dafny

`docker_builder.py` builds and publishes a matrix of container images, one
per combination of Python version, PyTorch minor line and installer variant.
This project models the deterministic core of that script and proves what it
promises:

- **Release reduction** (`get_latest_versions`): from the release identifiers
  the package index lists for `torch`, drop every identifier that contains
  `"a"`, `"b"` or `"rc"`, and keep per `major.minor` line the version that is
  greatest under Python's string order. The loop is the method
  `VersionResolver.LatestVersions`. Its result is specified by
  `IsLatestMap`: every stored version is a surviving release whose line is its
  key, and every surviving release has its line stored, with a version that
  is not string-less than it. Python's `<` on `str` is lexicographic by code
  point, while Dafny's `<` on sequences means "proper prefix". So
  `Strings.Less` defines the lexicographic order, and lemmas prove it is a
  strict total order. The model therefore reproduces the quirk that `"1.9.9"`
  beats `"1.9.10"`. The line of a version is computed exactly as the source
  does, as `".".join(version.split(".")[:2])`, from models of `split` and
  `join` with both round trips proved.
- **Build configs and tags** (`BuildConfig.tag`, `full_tag`): tag and image
  reference as concatenations. The installer flag always changes the tag.
  Distinct configs get distinct tags, and distinct image references, when
  neither version contains a hyphen. Without that condition the tag is not
  unique: `TagCollision` shows `("3.11", "2.5.0-uv", false)` and
  `("3.11", "2.5.0", true)` share a tag.
- **Dockerfile rendering** (`generate_dockerfile`): `string.Template` is
  modelled as a list of text and placeholder pieces. Substitution returns
  `None` where Python raises `KeyError`. The two templates the source uses are
  proved never to fail, and the output is proved equal to the base stage
  followed by the install stage the flag selects.
- **Job control flow** (`build_and_push`): the commands a job runs and how it
  ends, with the exit statuses of the external commands as inputs.
- **Matrix expansion** (the loops in `main`): the nested loops are the method
  `Orchestrator.ExpandMatrix`, proved equal to the function `Matrix`. Lemmas
  give its exact length, its nested-loop order, membership in both directions
  and, together with the resolver, that every emitted PyTorch version is the
  latest release of its line.

## Model

| member | source | states |
|---|---|---|
| `Strings.Less` | docker_builder.py:32 | `a < b` on strings holds exactly when, at the first index where they differ, `a` has the smaller character or has ended while `b` goes on |
| `Strings.LessIrreflexive` | docker_builder.py:32 | no string is greater than itself under Python's string order |
| `Strings.LessAsymmetric` | docker_builder.py:32 | string order is asymmetric |
| `Strings.LessTransitive` | docker_builder.py:32 | string order is transitive |
| `Strings.LessTotal` | docker_builder.py:32 | any two distinct strings are ordered one way or the other |
| `Strings.ProperPrefixIsLess` | docker_builder.py:32 | a proper prefix sorts first, as in Python |
| `Strings.Contains` | docker_builder.py:28 | `t in s` holds exactly when `t` occurs in `s` at some index |
| `Strings.CharOccurs` | docker_builder.py:28 | a one-character needle is found exactly when that character is in the string |
| `Strings.ContainsFirstChar` | docker_builder.py:28 | a non-empty needle occurs only where its first character does |
| `Strings.EndsWith` | docker_builder.py:121 | a string ends with a suffix exactly when it is some string followed by that suffix |
| `Strings.EndsWithPrepended` | docker_builder.py:66-68 | putting text in front of a string keeps its ending |
| `Strings.Split` | docker_builder.py:29 | `split` on one separator yields at least one part, and no part holds the separator |
| `Strings.Join` | docker_builder.py:29 | `sep.join(parts)` of a non-empty list starts with its first part |
| `Strings.JoinSplit` | docker_builder.py:29 | joining the parts of a split restores the string |
| `Strings.SplitJoin` | docker_builder.py:29 | splitting a join of separator-free parts restores the parts |
| `Strings.JoinTakeIsPrefix` | docker_builder.py:29 | joining the first k parts gives a prefix of joining all parts |
| `VersionResolver.IsPreRelease` | docker_builder.py:28 | an identifier is skipped exactly when it contains the letter a, the letter b or the substring "rc" |
| `VersionResolver.MajorMinor` | docker_builder.py:29 | the line `".".join(version.split(".")[:2])` is a prefix of the version |
| `VersionResolver.MajorMinorComponents` | docker_builder.py:29 | the line consists of the first (at most) two components of the version, and taking the line again changes nothing |
| `VersionResolver.MajorMinorOf` | docker_builder.py:29 | a version `M.m.rest` with dot-free `M`, `m` has line `M.m` |
| `VersionResolver.NotPreRelease` | docker_builder.py:28 | identifiers without the letters a, b and r pass the pre-release filter |
| `VersionResolver.PlainRelease` | docker_builder.py:28-29 | a `major.minor.patch` identifier without a, b or r passes the filter and has line `major.minor` |
| `VersionResolver.LatestVersions` | docker_builder.py:26-35 | the insert-or-overwrite loop returns a map that meets `IsLatestMap` for the listed releases |
| `VersionResolver.StoredVersionsAreReleases` | docker_builder.py:28-33 | every stored version is a listed release containing none of "a", "b", "rc" |
| `VersionResolver.KeyIsPrefixOfVersion` | docker_builder.py:29-33 | every key is a prefix of the version stored under it |
| `VersionResolver.KeysAreLines` | docker_builder.py:27-33 | the key set is exactly the set of lines of the surviving releases |
| `VersionResolver.StoredIsLineMaximum` | docker_builder.py:30-33 | each surviving release equals or is string-less than the version stored for its line |
| `VersionResolver.LatestMapUnique` | docker_builder.py:26-33 | the result is determined by the set of releases, independent of listing order |
| `VersionResolver.SameLineGreaterWins` | docker_builder.py:30-33 | of two survivors on one line, the string-greater one is the only entry |
| `VersionResolver.StringOrderExample` | docker_builder.py:32 | for releases 1.9.10 and 1.9.9 the map is {1.9: 1.9.9} (string, not numeric, order) |
| `VersionResolver.OnlySurvivorStored` | docker_builder.py:30-33 | a surviving release that is alone on its line is the version stored for that line |
| `VersionResolver.DistinctLinesKept` | docker_builder.py:28-33 | survivors on distinct lines are both kept and a pre-release is dropped |
| `VersionResolver.PreReleaseDropped` | docker_builder.py:28 | of two releases and a pre-release, exactly the two releases survive the filter |
| `VersionResolver.NineZeroLine` | docker_builder.py:28-29 | 1.9.0 passes the filter and is on line 1.9 |
| `VersionResolver.TenZeroLine` | docker_builder.py:28-29 | 1.10.0 passes the filter and is on line 1.10, not 1.1 |
| `VersionResolver.NineNineLine` | docker_builder.py:28-29 | 1.9.9 passes the filter and is on line 1.9 |
| `VersionResolver.NineTenLine` | docker_builder.py:28-32 | 1.9.10 passes the filter, is on line 1.9, and sorts before 1.9.9 |
| `VersionResolver.CandidateIsPreRelease` | docker_builder.py:28 | 2.0.0rc1 is filtered out as a pre-release |
| `VersionResolver.SeparateLinesExample` | docker_builder.py:27-33 | for 1.9.0, 1.10.0 and 2.0.0rc1 the map is {1.9: 1.9.0, 1.10: 1.10.0} |
| `BuildSpec.BuildConfig.Tag` | docker_builder.py:44-47 | the tag starts with `py<python>-torch<pytorch>`, ends in `-uv` when uv is used, and has the matching length |
| `BuildSpec.TagDistinguishesInstaller` | docker_builder.py:46-47 | configs differing only in the installer flag have different tags |
| `BuildSpec.TagInjective` | docker_builder.py:44-47 | with hyphen-free versions, equal tags mean equal configs |
| `BuildSpec.TagCollision` | docker_builder.py:47 | with a hyphen in a version, two distinct configs can share a tag |
| `BuildSpec.FullTag` | docker_builder.py:75 | the reference starts with `dockername/image_name:`, ends with the tag, and has exactly their combined length, so it is `dockername/image_name:tag` |
| `BuildSpec.FullTagDeterminesTag` | docker_builder.py:75 | within one namespace and image, the reference determines the tag |
| `BuildSpec.DistinctConfigsDistinctRefs` | docker_builder.py:74-75 | distinct hyphen-free configs get distinct image references |
| `BuildSpec.FullTagExample` | docker_builder.py:75 | acme, ml-base, (3.11, 2.5.0, uv) gives `acme/ml-base:py3.11-torch2.5.0-uv` |
| `Dockerfile.Substitute` | docker_builder.py:66-68 | template substitution succeeds exactly when every placeholder has a value |
| `Dockerfile.SubstituteThree` | docker_builder.py:66-68 | a text-placeholder-text template renders to text, value, text |
| `Dockerfile.GenerateDockerfile` | docker_builder.py:50-68 | rendering never fails, and the file is the written-out base stage followed by the install stage the flag selects |
| `Dockerfile.InstallStageVariant` | docker_builder.py:53-64 | the install stage opens with the uv COPY line exactly when uv is used, and with the RUN --mount line exactly when it is not |
| `Dockerfile.InstallStagePinsTorch` | docker_builder.py:56-63 | the install stage contains `torch==<pytorch_version>` |
| `Dockerfile.ContainsInSuffix` | docker_builder.py:66-68 | a substring of the install stage is a substring of the whole file |
| `Dockerfile.FollowedByInstallStage` | docker_builder.py:53-68 | after any text, the install stage shows its variant right after that text, pins torch, and ends the whole with the index-url line |
| `Dockerfile.DockerfileShape` | docker_builder.py:50-68 | the file begins with `FROM python:<v>-slim\nWORKDIR /app\n`, the stage after it is uv COPY iff the flag is set and RUN --mount otherwise, it pins torch to the version, and it ends with the index-url line |
| `JobRunner.BuildAndPush` | docker_builder.py:71-98 | a dry run runs no command and reports the rendered Dockerfile; otherwise the build runs first on the config's reference, the push runs only after a successful build, so exactly one or two commands run, and the job fails exactly when a command fails |
| `JobRunner.DryRunExample` | docker_builder.py:82-85 | the dry run for acme/ml-base, (3.11, 2.5.0, uv) runs nothing and reports `acme/ml-base:py3.11-torch2.5.0-uv` |
| `Orchestrator.LineOf` | docker_builder.py:123 | stripping two characters from an entry ending in ".x" leaves the line, and appending ".x" gives the entry back |
| `Orchestrator.ResolvedStep` | docker_builder.py:120-125 | one more entry adds its resolved version when it selects a known line, and nothing otherwise |
| `Orchestrator.RowStep` | docker_builder.py:126-129 | one more resolved version adds its uv config and then its non-uv config |
| `Orchestrator.MatrixStep` | docker_builder.py:119 | one more Python version appends its row |
| `Orchestrator.ExpandMatrix` | docker_builder.py:118-129 | the nested loops produce exactly `Matrix(python_versions, pytorch_versions, latest_versions)` |
| `Orchestrator.ResolvedCount` | docker_builder.py:120-125 | the number of resolved versions equals the number of entries that end in ".x" and name a line in the map |
| `Orchestrator.ResolvedMembership` | docker_builder.py:120-125 | a version is resolved exactly when some entry ending in ".x" names a line whose stored version it is |
| `Orchestrator.RowShape` | docker_builder.py:126-129 | a row has two configs per resolved version, the uv variant first |
| `Orchestrator.RowMembership` | docker_builder.py:126-129 | a config is in a row exactly when it has the row's Python version and a resolved PyTorch version |
| `Orchestrator.MatrixLength` | docker_builder.py:118-129 | the list has exactly (number of Python versions) × 2 × (number of resolved versions) configs |
| `Orchestrator.MatrixPrefix` | docker_builder.py:118-129 | the list only grows: the configs of the first j Python versions are a prefix of the whole list |
| `Orchestrator.MatrixRowAt` | docker_builder.py:119-129 | the row of Python version i follows directly on the configs of the versions before it |
| `Orchestrator.MatrixAt` | docker_builder.py:118-129 | the config at position `i * width + k` is (python_versions[i], resolved[k / 2], k even), which is nested-loop order |
| `Orchestrator.MatrixMembership` | docker_builder.py:119-129 | a config is emitted exactly when its Python version is configured and its PyTorch version is resolved |
| `Orchestrator.PlannedVersionsAreLatest` | docker_builder.py:115-128 | every emitted PyTorch version is a non-pre-release release, is the string-greatest of its line, and that line is named by an entry |
| `Orchestrator.MatrixExample` | docker_builder.py:118-129 | Python 3.10 against 2.5.x and 2.6.x with only 2.5 → 2.5.3 gives exactly the two 2.5.3 configs, uv first |
| `Orchestrator.PlanBuilds` | docker_builder.py:110-129 | the run plan resolves the lines once and expands the matrix with that map |

## Left out

- The HTTP request to the package index and the JSON decoding of its answer (docker_builder.py:22-24): network I/O. The release identifiers are an input sequence, in the order the index lists them, and a failed request is not modelled.
- Loading the TOML configuration (docker_builder.py:16-18) and parsing `--dry-run` (docker_builder.py:102-108): file and library I/O. The settings and the dry-run flag are inputs.
- The temporary Dockerfile, the `docker build` and `docker push` processes, and their error logging (docker_builder.py:77-98): external processes. `JobRunner.BuildAndPush` takes the two exit statuses as inputs and stands for the temporary file by the text written to it.
- The thread pool that runs one job per config (docker_builder.py:131-136): concurrency with no shared state. Each job is `BuildAndPush` applied to one config; the order in which jobs run is not modelled.
- Logging setup and log lines (docker_builder.py:13 and elsewhere): global side effects. A job's final log line is represented only by its `Outcome`.
- The `$` syntax of `string.Template`, including `$$` escapes and invalid placeholders: the model starts from templates already cut into text and placeholders. The source's two templates contain no escapes.
- `JobRunner.BuildAndPush`: does not model exceptions other than a non-zero exit status (for example a missing `docker` binary), which the source does not catch either.
