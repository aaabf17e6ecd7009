/** The command line handed to the external converter: `convert`, the input,
    the output and the output format, spelled the way each tool expects. */
module ToolArgs {
  import opened Wrappers
  import opened Formats

  /** What a command line asks the tool to do. */
  datatype Invocation = Invocation(tool: ConverterTool, format: OutputFormat, input: string, output: string)

  /** The argument list `run_conversion_tool` builds. */
  function BuildArgs(tool: ConverterTool, format: OutputFormat, input: string, output: string): (args: seq<string>)
    ensures |args| == (if tool == HkxCmd then 6 else 7)
    ensures args[0] == "convert"
    ensures ParseArgs(args) == Some(Invocation(tool, format, input, output))
  {
    match tool
    case HkxCmd =>
      ["convert", "-i", input, "-o", output, "-v:" + FormatToken(HkxCmd, format)]
    case HkxC =>
      ["convert", "--input", input, "--output", output, "--format", FormatToken(HkxC, format)]
  }

  /** Reads an argument list back as the invocation it requests; none when it
      is not a list either tool's convention produces. */
  function ParseArgs(args: seq<string>): (r: Option<Invocation>)
  {
    if |args| == 6 && args[0] == "convert" && args[1] == "-i" && args[3] == "-o"
       && |args[5]| >= 3 && args[5][..3] == "-v:"
    then
      match TokenFormat(HkxCmd, args[5][3..])
      case None => None
      case Some(format) => Some(Invocation(HkxCmd, format, args[2], args[4]))
    else if |args| == 7 && args[0] == "convert" && args[1] == "--input" && args[3] == "--output"
       && args[5] == "--format"
    then
      match TokenFormat(HkxC, args[6])
      case None => None
      case Some(format) => Some(Invocation(HkxC, format, args[2], args[4]))
    else None
  }

  /** Every argument list that reads back as an invocation is exactly the one
      built for it: the tools' conventions leave no second spelling. */
  lemma ParseThenBuild(args: seq<string>)
    requires ParseArgs(args).Some?
    ensures var inv := ParseArgs(args).value;
      BuildArgs(inv.tool, inv.format, inv.input, inv.output) == args
  {
    var inv := ParseArgs(args).value;
    if inv.tool == HkxCmd {
      assert args[5] == "-v:" + args[5][3..];
    }
  }

  /** Building the arguments loses nothing: different requests give different
      argument lists. */
  lemma BuildArgsInjective(a: Invocation, b: Invocation)
    requires BuildArgs(a.tool, a.format, a.input, a.output) == BuildArgs(b.tool, b.format, b.input, b.output)
    ensures a == b
  {
    assert ParseArgs(BuildArgs(a.tool, a.format, a.input, a.output)) == Some(a);
  }
}
