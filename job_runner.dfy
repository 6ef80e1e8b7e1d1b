/** The control flow of `build_and_push`: which docker commands run for one
    config and how the job ends. The two commands are external processes, so
    their exit statuses are inputs here; the temporary file is represented by
    the Dockerfile text it holds, and log lines by the job's outcome. */
module JobRunner {
  import opened Strings
  import opened BuildSpec
  import opened Dockerfile

  /** `docker build -t ref -f <file holding dockerfile> .` and
      `docker push ref`. */
  datatype Command = DockerBuild(imageRef: string, dockerfile: string) | DockerPush(imageRef: string)

  /** How a job ends, as its last log line reports it. */
  datatype Outcome =
    | WouldBuild(imageRef: string, dockerfile: string)  // dry run: the reference and file are logged
    | Pushed(imageRef: string)                          // build and push both succeeded
    | Failed(imageRef: string)                          // a command exited non-zero; logged, not raised

  datatype JobReport = JobReport(commands: seq<Command>, outcome: Outcome)

  /** One job. A dry run returns before any command; otherwise the build
      runs, and the push runs only after a successful build. */
  function BuildAndPush(config: BuildConfig, dockername: string, imageName: string,
                        dryRun: bool, buildSucceeds: bool, pushSucceeds: bool): (report: JobReport)
    ensures dryRun <==> report.commands == []
    ensures report.outcome.imageRef == FullTag(dockername, imageName, config)
    ensures forall i | 0 <= i < |report.commands| :: report.commands[i].imageRef == report.outcome.imageRef
    ensures report.outcome.Pushed? <==> !dryRun && buildSucceeds && pushSucceeds
    ensures (exists i | 0 <= i < |report.commands| :: report.commands[i].DockerPush?) <==> !dryRun && buildSucceeds
    ensures report.commands != [] ==> report.commands[0] == DockerBuild(report.outcome.imageRef, GenerateDockerfile(config))
    ensures |report.commands| == if dryRun then 0 else if buildSucceeds then 2 else 1
    ensures report.outcome.WouldBuild? <==> dryRun
    ensures dryRun ==> report.outcome.dockerfile == GenerateDockerfile(config)
    ensures report.outcome.Failed? <==> !dryRun && !(buildSucceeds && pushSucceeds)
  {
    var fullTag := FullTag(dockername, imageName, config);
    var dockerfileContent := GenerateDockerfile(config);
    if dryRun then
      JobReport([], WouldBuild(fullTag, dockerfileContent))
    else if !buildSucceeds then
      JobReport([DockerBuild(fullTag, dockerfileContent)], Failed(fullTag))
    else
      var commands := [DockerBuild(fullTag, dockerfileContent), DockerPush(fullTag)];
      assert commands[1].DockerPush?;
      JobReport(commands, if pushSucceeds then Pushed(fullTag) else Failed(fullTag))
  }

  /** A dry run for Python 3.11 and PyTorch 2.5.0 with uv, for acme/ml-base,
      runs no command and reports the reference
      acme/ml-base:py3.11-torch2.5.0-uv. */
  lemma DryRunExample(buildSucceeds: bool, pushSucceeds: bool)
    ensures var report := BuildAndPush(BuildConfig("3.11", "2.5.0", true), "acme", "ml-base", true, buildSucceeds, pushSucceeds);
      && report.commands == []
      && report.outcome.WouldBuild?
      && report.outcome.imageRef == "acme/ml-base:py3.11-torch2.5.0-uv"
  {
    FullTagExample();
  }
}
