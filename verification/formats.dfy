/** The three user-selectable enumerations of the converter: which external
    tool runs, which input files a folder scan keeps, and which format the
    tool writes. */
module Formats {
  import opened Wrappers

  /** `ConverterTool`: the bundled external converter that is invoked. */
  datatype ConverterTool = HkxCmd | HkxC

  /** `InputFileExtension`: the filter a folder scan applies to file names. */
  datatype InputFileExtension = All | HkxOnly | XmlOnly

  /** `OutputFormat`: XML text, or the 32-bit (Skyrim LE) or 64-bit
      (Skyrim SE) binary packfile. */
  datatype OutputFormat = Xml | SkyrimLE | SkyrimSE

  /** `ConverterTool::label`: the tool's name, also used in error messages. */
  function ToolLabel(tool: ConverterTool): (name: string)
    ensures name == "hkxcmd" <==> tool == HkxCmd
    ensures name == "hkxc" <==> tool == HkxC
  {
    match tool
    case HkxCmd => "hkxcmd"
    case HkxC => "hkxc"
  }

  /** `OutputFormat::extension`: the file extension a format is written with
      when no custom extension is set. */
  function FormatExtension(format: OutputFormat): (ext: string)
    ensures ext == "xml" <==> format == Xml
    ensures ext == "hkx" <==> format != Xml
  {
    match format
    case Xml => "xml"
    case SkyrimLE | SkyrimSE => "hkx"
  }

  /** Whether a file extension passes the scan filter. Comparison is exact:
      `HKX` does not match `hkx`. */
  predicate ExtensionAccepted(filter: InputFileExtension, ext: string)
    ensures ExtensionAccepted(filter, ext) ==> ext == "hkx" || ext == "xml"
    ensures ext == "hkx" ==> (ExtensionAccepted(filter, ext) <==> filter != XmlOnly)
    ensures ext == "xml" ==> (ExtensionAccepted(filter, ext) <==> filter != HkxOnly)
  {
    match filter
    case All => ext == "hkx" || ext == "xml"
    case HkxOnly => ext == "hkx"
    case XmlOnly => ext == "xml"
  }

  /** The word each tool uses on its command line to name an output format:
      upper case for hkxcmd (after `-v:`), lower case for hkxc. */
  function FormatToken(tool: ConverterTool, format: OutputFormat): (token: string)
    ensures token != ""
    ensures tool == HkxCmd <==> 'A' <= token[0] <= 'Z'
  {
    match (tool, format)
    case (HkxCmd, Xml) => "XML"
    case (HkxCmd, SkyrimLE) => "WIN32"
    case (HkxCmd, SkyrimSE) => "AMD64"
    case (HkxC, Xml) => "xml"
    case (HkxC, SkyrimLE) => "win32"
    case (HkxC, SkyrimSE) => "amd64"
  }

  /** Reads an output format back from a tool's format word. */
  function TokenFormat(tool: ConverterTool, token: string): (r: Option<OutputFormat>)
    ensures r.Some? ==> FormatToken(tool, r.value) == token
    ensures r.None? ==> forall format: OutputFormat :: FormatToken(tool, format) != token
  {
    if token == FormatToken(tool, Xml) then Some(Xml)
    else if token == FormatToken(tool, SkyrimLE) then Some(SkyrimLE)
    else if token == FormatToken(tool, SkyrimSE) then Some(SkyrimSE)
    else None
  }

  /** The format word determines the format: reading back the word written
      for `format` gives `format`, so no two formats share a word. */
  lemma FormatTokenRoundTrip(tool: ConverterTool, format: OutputFormat)
    ensures TokenFormat(tool, FormatToken(tool, format)) == Some(format)
  {
  }
}
