/** The batch conversion (`run_conversion` and `run_conversion_tool`): check
    that there is something to convert and somewhere to put it, then convert
    the queued files one at a time, in queue order, stopping at the first
    file that fails.

    Everything the conversion asks of the outside world is an oracle in
    `Env`: creating the output directory, running the external tool, whether
    the output file exists afterwards and whether its metadata can be read. */
module Conversion {
  import opened Wrappers
  import opened Paths
  import opened Formats
  import opened ToolArgs
  import opened AppState
  import opened OutputPaths

  /** A process to start: the executable and its arguments. */
  datatype Command = Command(executable: Path, args: seq<string>)

  /** What running a command gave: the process could not be spawned, or it ran
      and exited, successfully or not, leaving its standard error text. */
  datatype ToolOutcome = SpawnFailed | Exited(success: bool, stderr: string)

  datatype Env = Env(
    createDirAll: Path -> bool,
    runTool: Command -> ToolOutcome,
    outputExists: Path -> bool,
    metadataReadable: Path -> bool)

  /** The errors `run_conversion` returns, one per early exit. */
  datatype ConversionError =
    | NoInputFiles
    | NoOutputFolder
    | NoOutputPath(input: Path)
    | CreateDirFailed(dir: Path)
    | ExecuteFailed(tool: string)
    | ToolFailed(tool: string, stderr: string)
    | OutputNotCreated(output: Path)
    | MetadataFailed(output: Path)

  /** The command `run_conversion_tool` starts for one file: the selected
      tool's unpacked executable, with that tool's argument convention. */
  function BuildCommand(app: HkxToolsApp, input: Path, output: Path): (cmd: Command)
    ensures cmd.executable == (if app.converterTool == HkxCmd then app.hkxcmdPath else app.hkxcPath)
    ensures ParseArgs(cmd.args) == Some(Invocation(app.converterTool, app.outputFormat, Display(input), Display(output)))
  {
    var executable := match app.converterTool
      case HkxCmd => app.hkxcmdPath
      case HkxC => app.hkxcPath;
    Command(executable, BuildArgs(app.converterTool, app.outputFormat, Display(input), Display(output)))
  }

  /** One file's conversion: the command attempted for it, if any, and the
      error it stopped with, if any. */
  datatype FileRun = FileRun(attempted: Option<Command>, error: Option<ConversionError>)

  /** The command attempted for the file, as a list of zero or one commands. */
  function AttemptOf(run: FileRun): seq<Command> {
    match run.attempted
    case None => []
    case Some(cmd) => [cmd]
  }

  /** One pass of the loop in `run_conversion`: derive the output path,
      create its directory, run the tool, then require the output file to
      exist and its metadata to be readable. */
  function ConvertFile(app: HkxToolsApp, env: Env, input: Path): (r: FileRun)
    ensures OutputPath(app, input).None? ==> r == FileRun(None, Some(NoOutputPath(input)))
    ensures r.attempted.Some? <==> OutputPath(app, input).Some? && env.createDirAll(Parent(OutputPath(app, input).value).value)
    ensures r.attempted.Some? ==> r.attempted.value == BuildCommand(app, input, OutputPath(app, input).value)
    ensures r.attempted.None? ==> r.error.Some?
    ensures r.error.None? ==> env.runTool(r.attempted.value).Exited? && env.runTool(r.attempted.value).success
    ensures r.error.None? ==> env.outputExists(OutputPath(app, input).value)
    ensures r.error.None? <==>
      && OutputPath(app, input).Some?
      && env.createDirAll(Parent(OutputPath(app, input).value).value)
      && env.runTool(BuildCommand(app, input, OutputPath(app, input).value)).Exited?
      && env.runTool(BuildCommand(app, input, OutputPath(app, input).value)).success
      && env.outputExists(OutputPath(app, input).value)
      && env.metadataReadable(OutputPath(app, input).value)
  {
    match OutputPath(app, input)
    case None => FileRun(None, Some(NoOutputPath(input)))
    case Some(output) =>
      var dirCreated := match Parent(output)
        case None => true
        case Some(dir) => env.createDirAll(dir);
      if !dirCreated then FileRun(None, Some(CreateDirFailed(Parent(output).value)))
      else
        var cmd := BuildCommand(app, input, output);
        var tool := ToolLabel(app.converterTool);
        match env.runTool(cmd)
        case SpawnFailed => FileRun(Some(cmd), Some(ExecuteFailed(tool)))
        case Exited(success, stderr) =>
          if !success then FileRun(Some(cmd), Some(ToolFailed(tool, stderr)))
          else if !env.outputExists(output) then FileRun(Some(cmd), Some(OutputNotCreated(output)))
          else if !env.metadataReadable(output) then FileRun(Some(cmd), Some(MetadataFailed(output)))
          else FileRun(Some(cmd), None)
  }

  /** The file was converted: its tool run succeeded and its output exists. */
  predicate Passes(app: HkxToolsApp, env: Env, input: Path)
    ensures Passes(app, env, input) ==> OutputPath(app, input).Some?
  {
    ConvertFile(app, env, input).error.None?
  }

  /** The commands a sequence of file runs attempted, in order (whether or
      not their processes could be spawned). */
  function Attempted(runs: seq<FileRun>): (r: seq<Command>)
    ensures |r| <= |runs|
  {
    if runs == [] then []
    else Attempted(runs[..|runs| - 1]) + AttemptOf(runs[|runs| - 1])
  }

  /** The runs of the given files, each converted on its own. */
  function Runs(app: HkxToolsApp, env: Env, files: seq<Path>): (r: seq<FileRun>)
    ensures |r| == |files|
    ensures forall j :: 0 <= j < |files| ==> r[j] == ConvertFile(app, env, files[j])
  {
    seq(|files|, j requires 0 <= j < |files| => ConvertFile(app, env, files[j]))
  }

  /** Reference: the commands the given files start, in order, when each is
      converted in turn. */
  function Attempts(app: HkxToolsApp, env: Env, files: seq<Path>): seq<Command> {
    Attempted(Runs(app, env, files))
  }

  /** Converting one more file adds that file's command, if any, at the end. */
  lemma AttemptsExtend(app: HkxToolsApp, env: Env, files: seq<Path>, i: nat)
    requires i < |files|
    ensures Attempts(app, env, files[..i + 1]) == Attempts(app, env, files[..i]) + AttemptOf(ConvertFile(app, env, files[i]))
  {
    var longer := Runs(app, env, files[..i + 1]);
    var shorter := Runs(app, env, files[..i]);
    assert longer[..i] == shorter;
  }

  /** The queue and an output folder are both present. */
  predicate Ready(app: HkxToolsApp) {
    app.inputPaths != [] && app.outputFolder.Some?
  }

  /** File `k` is the first queued file that fails. */
  predicate FirstFailureAt(app: HkxToolsApp, env: Env, k: int) {
    && 0 <= k < |app.inputPaths|
    && (forall j :: 0 <= j < k ==> Passes(app, env, app.inputPaths[j]))
    && !Passes(app, env, app.inputPaths[k])
  }

  /** `run_conversion`. Besides its result it returns the commands it
      attempted, in order. */
  method RunConversion(app: HkxToolsApp, env: Env) returns (result: Result<(), ConversionError>, commands: seq<Command>)
    ensures app.inputPaths == [] ==> result == Err(NoInputFiles) && commands == []
    ensures app.inputPaths != [] && app.outputFolder.None? ==> result == Err(NoOutputFolder) && commands == []
    ensures Ready(app) ==> (result.Ok? <==> forall j :: 0 <= j < |app.inputPaths| ==> Passes(app, env, app.inputPaths[j]))
    ensures result.Ok? ==> forall j :: 0 <= j < |app.inputPaths| ==>
      OutputPath(app, app.inputPaths[j]).Some? && env.outputExists(OutputPath(app, app.inputPaths[j]).value)
    ensures Ready(app) && result.Ok? ==> commands == Attempts(app, env, app.inputPaths)
    ensures Ready(app) && result.Err? ==>
      exists k :: && FirstFailureAt(app, env, k)
                  && Some(result.error) == ConvertFile(app, env, app.inputPaths[k]).error
                  && commands == Attempts(app, env, app.inputPaths[..k + 1])
  {
    if app.inputPaths == [] {
      return Err(NoInputFiles), [];
    }
    if app.outputFolder.None? {
      return Err(NoOutputFolder), [];
    }
    commands := [];
    var i := 0;
    while i < |app.inputPaths|
      invariant 0 <= i <= |app.inputPaths|
      invariant forall j :: 0 <= j < i ==> Passes(app, env, app.inputPaths[j])
      invariant commands == Attempts(app, env, app.inputPaths[..i])
    {
      var run := ConvertFile(app, env, app.inputPaths[i]);
      AttemptsExtend(app, env, app.inputPaths, i);
      commands := commands + AttemptOf(run);
      assert commands == Attempts(app, env, app.inputPaths[..i + 1]);
      if run.error.Some? {
        assert FirstFailureAt(app, env, i);
        return Err(run.error.value), commands;
      }
      assert Passes(app, env, app.inputPaths[i]);
      assert forall j :: 0 <= j < i + 1 ==> Passes(app, env, app.inputPaths[j]);
      i := i + 1;
    }
    assert app.inputPaths[..i] == app.inputPaths;
    return Ok(()), commands;
  }

  /** An environment in which every directory can be created, every tool run
      succeeds, and every output file exists with readable metadata. */
  ghost predicate Cooperative(env: Env) {
    && (forall dir :: env.createDirAll(dir))
    && (forall cmd :: env.runTool(cmd).Exited? && env.runTool(cmd).success)
    && (forall p :: env.outputExists(p))
    && (forall p :: env.metadataReadable(p))
  }

  /** Against a cooperative environment a file fails only when it has no
      output path. */
  lemma CooperativeEnvPasses(app: HkxToolsApp, env: Env, input: Path)
    requires Cooperative(env)
    ensures Passes(app, env, input) <==> OutputPath(app, input).Some?
  {
    if OutputPath(app, input).Some? {
      var output := OutputPath(app, input).value;
      assert env.createDirAll(Parent(output).value);
      var cmd := BuildCommand(app, input, output);
      assert env.runTool(cmd).Exited? && env.runTool(cmd).success;
      assert env.outputExists(output) && env.metadataReadable(output);
    }
  }

  /** Runs that each attempted a command attempted one command apiece, in
      their own order. */
  lemma {:induction false} AttemptedOnePerRun(runs: seq<FileRun>)
    requires forall j :: 0 <= j < |runs| ==> runs[j].attempted.Some?
    ensures |Attempted(runs)| == |runs|
    ensures forall j :: 0 <= j < |runs| ==> Attempted(runs)[j] == runs[j].attempted.value
  {
    if runs != [] {
      var front := runs[..|runs| - 1];
      AttemptedOnePerRun(front);
    }
  }

  /** When every file passes, each one attempted exactly one command, and
      the commands come in queue order. */
  lemma AttemptsOnePerPassingFile(app: HkxToolsApp, env: Env, files: seq<Path>)
    requires forall j :: 0 <= j < |files| ==> Passes(app, env, files[j])
    ensures |Attempts(app, env, files)| == |files|
    ensures forall j :: 0 <= j < |files| ==> ConvertFile(app, env, files[j]).attempted == Some(Attempts(app, env, files)[j])
  {
    var runs := Runs(app, env, files);
    AttemptedOnePerRun(runs);
  }

  /** Against a cooperative environment, a batch whose queued files all have
      a file stem and that has an output folder succeeds, and converts every
      queued file, each with one command, in queue order. */
  method CooperativeBatch(app: HkxToolsApp, env: Env) returns (result: Result<(), ConversionError>, commands: seq<Command>)
    requires Cooperative(env)
    requires Ready(app)
    requires forall j :: 0 <= j < |app.inputPaths| ==> FileStem(app.inputPaths[j]).Some?
    ensures result.Ok?
    ensures |commands| == |app.inputPaths|
    ensures forall j :: 0 <= j < |app.inputPaths| ==>
      commands[j] == BuildCommand(app, app.inputPaths[j], OutputPath(app, app.inputPaths[j]).value)
  {
    forall j | 0 <= j < |app.inputPaths| ensures Passes(app, env, app.inputPaths[j]) {
      CooperativeEnvPasses(app, env, app.inputPaths[j]);
    }
    result, commands := RunConversion(app, env);
    AttemptsOnePerPassingFile(app, env, app.inputPaths);
  }
}
