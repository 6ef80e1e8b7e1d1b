/** `generate_dockerfile`: two `string.Template`s filled in and concatenated,
    a fixed base stage followed by one of two install stages chosen by the
    installer flag. */
module Dockerfile {
  import opened Wrappers
  import opened Strings
  import opened BuildSpec

  /** A template, already cut into literal text and `${name}` placeholders. */
  datatype Piece = Text(text: string) | Placeholder(name: string)
  type Template = seq<Piece>

  /** `Template.substitute(mapping)`: every placeholder replaced by its value;
      `None` (Python raises `KeyError`) when a placeholder has no value. */
  function Substitute(template: Template, mapping: map<string, string>): (r: Option<string>)
    ensures r.Some? <==> forall i | 0 <= i < |template| :: template[i].Placeholder? ==> template[i].name in mapping
    decreases |template|
  {
    if |template| == 0 then Some("")
    else
      var head := match template[0]
        case Text(text) => Some(text)
        case Placeholder(name) => if name in mapping then Some(mapping[name]) else None;
      var rest := Substitute(template[1..], mapping);
      if head.None? || rest.None? then None else Some(head.value + rest.value)
  }

  /** The literal text of the line that installs PyTorch and numpy, up to the
      version. */
  const InstallCommand: string := "uv pip install --system torch=="
  /** The rest of the install line, after the version. */
  const IndexSuffix: string := " numpy --index-url https://download.pytorch.org/whl/cpu\n"
  /** The first line of the uv stage: the installer copied into the image. */
  const CopyUvLine: string := "COPY " + "--from=ghcr.io/astral-sh/uv:latest /uv /uvx /bin/\n"
  /** The start of the mount stage: the installer mounted for one command. */
  const MountUvLine: string := "RUN " + "--mount=from=ghcr.io/astral-sh/uv,source=/uv,target=/bin/uv \\\n"

  const BaseTemplate: Template :=
    [Text("FROM python:"), Placeholder("python_version"), Text("-slim\nWORKDIR /app\n")]
  const UvTemplate: Template :=
    [Text(CopyUvLine + "RUN " + InstallCommand), Placeholder("pytorch_version"), Text(IndexSuffix)]
  const MountTemplate: Template :=
    [Text(MountUvLine + "    " + InstallCommand), Placeholder("pytorch_version"), Text(IndexSuffix)]

  /** The base stage written out: the slim Python image and the working
      directory. */
  function BaseStage(pythonVersion: string): string
  {
    "FROM python:" + pythonVersion + "-slim\nWORKDIR /app\n"
  }

  /** The rendered Dockerfile. Substitution cannot fail, since each
      template's one placeholder is given a value, and the result is the base
      stage followed by the install stage the flag selects. */
  function GenerateDockerfile(config: BuildConfig): (dockerfile: string)
    ensures dockerfile == BaseStage(config.pythonVersion) + InstallStage(config.useUv, config.pytorchVersion)
  {
    var base := Substitute(BaseTemplate, map["python_version" := config.pythonVersion]);
    var installTemplate := if config.useUv then UvTemplate else MountTemplate;
    var install := Substitute(installTemplate, map["pytorch_version" := config.pytorchVersion]);
    SubstituteThree("FROM python:", "python_version", "-slim\nWORKDIR /app\n", config.pythonVersion);
    SubstituteThree(InstallLead(config.useUv), "pytorch_version", IndexSuffix, config.pytorchVersion);
    base.value + install.value
  }

  /** What substitution gives for a template of text, placeholder, text. */
  lemma SubstituteThree(before: string, name: string, after: string, value: string)
    ensures Substitute([Text(before), Placeholder(name), Text(after)], map[name := value]) == Some(before + value + after)
  {
    var t := [Text(before), Placeholder(name), Text(after)];
    var m := map[name := value];
    assert t[1..][1..][1..] == [];
    assert t[1..][1..] == [Text(after)];
    assert Substitute(t[1..][1..], m) == Some(after + "");
    assert t[1..] == [Placeholder(name), Text(after)];
    assert Substitute(t[1..], m) == Some(value + (after + ""));
    assert Substitute(t, m) == Some(before + (value + (after + "")));
    assert before + (value + (after + "")) == before + value + after;
  }

  /** The text before the version in the install stage the flag selects. */
  function InstallLead(useUv: bool): string
  {
    if useUv then CopyUvLine + "RUN " + InstallCommand else MountUvLine + "    " + InstallCommand
  }

  /** The install stage written out: the installer line the flag selects,
      then the pinned install command. */
  function InstallStage(useUv: bool, pytorchVersion: string): string
  {
    InstallLead(useUv) + pytorchVersion + IndexSuffix
  }

  /** The install stage opens with the copied installer exactly when the flag
      is set, and with the mounted one exactly when it is not. */
  lemma InstallStageVariant(useUv: bool, pytorchVersion: string)
    ensures CopyUvLine <= InstallStage(useUv, pytorchVersion) <==> useUv
    ensures MountUvLine <= InstallStage(useUv, pytorchVersion) <==> !useUv
  {
    var stage := InstallStage(useUv, pytorchVersion);
    if useUv {
      assert CopyUvLine <= stage;
      assert stage[0] == 'C';
    } else {
      assert MountUvLine <= stage;
      assert stage[0] == 'R';
    }
  }

  /** The install stage pins `torch==` to the version it is given. */
  lemma InstallStagePinsTorch(useUv: bool, pytorchVersion: string)
    ensures Contains(InstallStage(useUv, pytorchVersion), "torch==" + pytorchVersion)
  {
    var lead := InstallLead(useUv);
    var stage := InstallStage(useUv, pytorchVersion);
    var at := |lead| - 7;
    assert lead[at..] == "torch==";
    assert stage[at..at + |"torch==" + pytorchVersion|] == "torch==" + pytorchVersion;
    assert OccursAt(stage, "torch==" + pytorchVersion, at);
  }

  /** A string found in the tail of a longer string is found in the whole. */
  lemma ContainsInSuffix(prefix: string, rest: string, t: string)
    requires Contains(rest, t)
    ensures Contains(prefix + rest, t)
  {
    var i: nat :| OccursAt(rest, t, i);
    assert (prefix + rest)[|prefix| + i..|prefix| + i + |t|] == rest[i..i + |t|];
    assert OccursAt(prefix + rest, t, |prefix| + i);
  }

  /** Any text followed by an install stage: the stage's variant is visible
      right after the text, the stage pins `torch==`, and the whole ends with
      the index line. */
  lemma FollowedByInstallStage(stage: string, useUv: bool, pytorchVersion: string)
    ensures var dockerfile := stage + InstallStage(useUv, pytorchVersion);
      && (CopyUvLine <= dockerfile[|stage|..] <==> useUv)
      && (MountUvLine <= dockerfile[|stage|..] <==> !useUv)
      && Contains(dockerfile, "torch==" + pytorchVersion)
      && EndsWith(dockerfile, IndexSuffix)
  {
    var install := InstallStage(useUv, pytorchVersion);
    assert (stage + install)[|stage|..] == install;
    EndsWithAppended(InstallLead(useUv) + pytorchVersion, IndexSuffix);
    EndsWithPrepended(stage, install, IndexSuffix);
    InstallStageVariant(useUv, pytorchVersion);
    InstallStagePinsTorch(useUv, pytorchVersion);
    ContainsInSuffix(stage, install, "torch==" + pytorchVersion);
  }

  /** The rendered file is the base stage followed by the install stage the
      flag selects: the uv stage starts at the end of the base stage exactly
      when the flag is set, the mount stage exactly when it is not, and
      either one pins `torch==` to the resolved version. */
  lemma DockerfileShape(config: BuildConfig)
    ensures var dockerfile := GenerateDockerfile(config);
      var stage := BaseStage(config.pythonVersion);
      && stage <= dockerfile
      && (CopyUvLine <= dockerfile[|stage|..] <==> config.useUv)
      && (MountUvLine <= dockerfile[|stage|..] <==> !config.useUv)
      && Contains(dockerfile, "torch==" + config.pytorchVersion)
      && EndsWith(dockerfile, IndexSuffix)
  {
    FollowedByInstallStage(BaseStage(config.pythonVersion), config.useUv, config.pytorchVersion);
  }
}
