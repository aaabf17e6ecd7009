# HKX conversion tool: a Dafny model of the batch converter

The program is a small desktop front end that converts Havok animation and
behaviour files (`.hkx` packfiles and their `.xml` text form) by running one of
two bundled command-line converters, `hkxcmd` or `hkxc`, once per queued file.
This project models the logic of `src/main.rs` that decides *what* is run and
*where* its output goes:

- **Input queue** (`InputQueue`, `AppState`): a folder scan keeps the regular
  files whose extension passes the filter (`All` = `hkx` or `xml`, `HKX only`,
  `XML only`) and appends each unless it is already queued; the default output
  folder is the first queued file's directory; clicked rows are removed
  last-first.
- **Output paths** (`OutputPaths`, over `Paths`): output folder, then the
  input's directory relative to a base directory, then `stem[_suffix].ext`,
  which `Path::join` parses like any other path text: a separator inside the
  suffix or a custom extension adds components.
  The base directory is the input's own directory for a one-file batch and the
  common parent directory of all queued files otherwise
  (`find_common_parent_dir`, a climb-until-prefix walk proved to compute the
  longest common prefix).
- **Tool arguments** (`ToolArgs`, `Formats`): the exact argument list for each
  tool, proved to read back to the request it encodes.
- **Batch driver** (`Conversion`): `run_conversion` refuses an empty queue or a
  missing output folder before touching anything, then converts the files in
  queue order and stops at the first failure. Directory creation, the tool run,
  the existence of the output and the readability of its metadata are oracles
  of an `Env` value.

Paths are sequences of components (`a/b/c.hkx` is `["a", "b", "c.hkx"]`), and
`starts_with`, `strip_prefix` and `join` are prefix, suffix and concatenation
on them, as Rust defines them component by component. Paths are normalized the
way `Path::components` reads them: a component is never empty, never `.` and
never holds a separator; as on Windows, where the program runs, both `/` and
`\` separate components.

Files: `wrappers.dfy` (Option, Result), `paths.dfy`, `formats.dfy`,
`tool_args.dfy`, `app_state.dfy`, `input_queue.dfy`, `output_paths.dfy`,
`conversion.dfy`.

## Model

| member | source | states |
|---|---|---|
| Formats.ToolLabel | src/main.rs:19-24 | the label is `hkxcmd` exactly for hkxcmd and `hkxc` exactly for hkxc |
| Formats.ExtensionAccepted | src/main.rs:126-136 | only `hkx` and `xml` ever pass; `hkx` passes every filter but `XML only`, `xml` every filter but `HKX only` |
| Formats.FormatToken | src/main.rs:283-296 | every format word is non-empty, and it is upper case exactly for hkxcmd |
| Formats.FormatExtension | src/main.rs:63-69 | the default extension is `xml` exactly for XML output and `hkx` exactly for Skyrim LE and Skyrim SE output |
| Formats.TokenFormat | src/main.rs:283-296 | reading a tool's format word back yields a format that tool spells with that word, and words the tool never uses read back as none |
| Formats.FormatTokenRoundTrip | src/main.rs:283-296 | reading back the word a tool uses for a format gives that format again, so no two formats share a word for the same tool |
| ToolArgs.BuildArgs | src/main.rs:276-297 | the list starts with `convert`, has six entries for hkxcmd and seven for hkxc, and reads back as exactly the requested tool, format, input and output |
| ToolArgs.ParseThenBuild | src/main.rs:276-297 | every argument list that reads back as a request is the list built for that request: the conventions admit no second spelling |
| ToolArgs.BuildArgsInjective | src/main.rs:276-297 | different requests (tool, format, input or output) give different argument lists |
| AppState.NewApp | src/main.rs:97-109 | a new application has an empty queue, no output folder, no suffix, no custom extension, XML output, the `All` filter and hkxcmd selected, keeps the two executable paths it is given, and has no first file to take an output folder from |
| AppState.UpdateOutputFolder | src/main.rs:171-175 | with a non-empty queue the output folder becomes the directory of the first queued file (a prefix of it one component shorter, or empty) and nothing else changes; with an empty queue nothing changes |
| AppState.RemoveClicked | src/main.rs:471-473 | removing the clicked rows last-first shortens the queue by exactly the number of clicked rows |
| AppState.RemoveClickedKeepsOthers | src/main.rs:455-473 | removing the clicked rows last-first leaves exactly the unclicked rows, in their original order |
| InputQueue.AcceptedNames | src/main.rs:125-136 | an accepted path names a file whose name is its stem followed by `.hkx` or `.xml`, only `.hkx` under `HKX only` and only `.xml` under `XML only` |
| InputQueue.NamedFilesAccepted | src/main.rs:125-136 | conversely, a file named `stem.hkx` or `stem.xml` passes every filter that accepts that extension, and reads back with that stem and extension |
| InputQueue.AddedPathsDistinct | src/main.rs:138-140 | the paths a scan appends are pairwise distinct and none of them was queued before |
| InputQueue.AddListed | src/main.rs:122-142 | the queue before the scan is a prefix of the queue after it; the scan reports success exactly when no listed entry was unreadable; no appended path was queued before |
| InputQueue.AddListedMembers | src/main.rs:125-140 | after a scan a path is queued exactly when it was queued before or is a listed regular file with an accepted extension ahead of the first unreadable entry |
| InputQueue.AddListedNoDuplicates | src/main.rs:138-140 | a scan appends no path twice, so a queue without duplicates stays without duplicates |
| InputQueue.AddListedKeepsListingOrder | src/main.rs:122-142 | the appended paths occur in the order the listing names them |
| InputQueue.AddFilesFromFolder | src/main.rs:111-169 | a folder scan (flat or recursive) changes only the queue, keeps its old entries and their order, adds exactly the accepted files, keeps it duplicate-free, and returns Ok exactly when every entry could be read |
| Paths.Parent | src/main.rs:173 | a path has a parent exactly when it is not the root, and the parent is the path without its last component |
| Paths.FileName | src/main.rs:179 | a path has a file name exactly when it is not the root and does not end in `..`, and the name is its last component |
| Paths.FileStem | src/main.rs:179 | a path has a stem exactly when it has a file name; the stem is a non-empty leading part of the file name without separators, and it is the whole file name exactly when no dot follows the name's first character |
| Paths.Extension | src/main.rs:126-136 | a path has an extension exactly when it has a file name with a dot after its first character; the extension holds no dot, and the file name is the stem, a dot and the extension |
| Paths.SplitFileAtDot | src/main.rs:179 | a file name splits at its last dot into a non-empty stem and a dot-free extension that rejoin to the name; names with no dot after the first character have no extension and are their own stem |
| Paths.StripPrefix | src/main.rs:191-195 | stripping succeeds exactly when the base is a leading run of components, and base plus remainder is the original path |
| Paths.Join | src/main.rs:203 | the joined path starts with the base and stripping the base gives back the joined part |
| Paths.SplitAtSeparatorsAround | src/main.rs:203 | a separator splits path text around it: the pieces of the text before it, then the pieces of the text after it, in order; with `SplitPlain` this fixes the pieces of every text |
| Paths.KeepComponentsAppend | src/main.rs:203 | dropping empty and `.` pieces works piece by piece and keeps the order: the components of two runs of pieces are those of the first followed by those of the second |
| Paths.KeepComponentsSingle | src/main.rs:203 | a single piece is kept exactly when it is a valid component |
| Paths.ComponentsAround | src/main.rs:203 | path text read as components: the components before a separator, then those after it, in order |
| Paths.SplitAfterPlain | src/main.rs:203 | text without separators in front of other text joins the first piece of that text and leaves the remaining pieces unchanged |
| Paths.SplitPlain | src/main.rs:203 | text without separators is a single piece |
| Paths.ComponentsOfComponent | src/main.rs:203 | a valid component joined as path text adds exactly that one component |
| Paths.LongestCommonPrefix | src/main.rs:222-230 | the result is a prefix of both paths, and the two paths do not share a component at the depth where it ends |
| OutputPaths.OutputExtension | src/main.rs:180-182 | a custom extension always wins; otherwise the extension is `xml` exactly for XML output and `hkx` exactly for the two Skyrim formats |
| OutputPaths.Parents | src/main.rs:211-216 | the parent directories of the queued files that have one: empty exactly when no queued file has a parent, containing every such parent and nothing else |
| OutputPaths.AscendUntilPrefix | src/main.rs:227-229 | climbing from a directory until the other directory lies inside it ends at their longest common prefix |
| OutputPaths.AscendAll | src/main.rs:222-232 | the walk over all parents ends at a directory that is an ancestor-or-self of the start and of every parent, and is the deepest one: at its depth the start ends or some parent turns away |
| OutputPaths.CommonParentDir | src/main.rs:206-233 | none exactly when no queued file has a parent (in particular for an empty queue); otherwise an ancestor-or-self of the first parent and of every queued file's parent, and the deepest such directory |
| OutputPaths.BaseDirIsAncestor | src/main.rs:184-189 | for a queued file (or the lone queued file) the base directory is an ancestor-or-self of the file's directory |
| OutputPaths.RelativePath | src/main.rs:184-195 | when the base directory starts the input's directory, base plus result is that directory; otherwise the result is empty |
| OutputPaths.NameTail | src/main.rs:197-201 | what follows the stem in the output name starts with an underscore exactly when a suffix is set, and with a dot otherwise |
| OutputPaths.OutputNameComponents | src/main.rs:197-203 | joined as path text, the output name gives a first component made of the stem and the tail up to its first separator, then the components of the rest of the tail |
| OutputPaths.PlainTail | src/main.rs:197-201 | a suffix and an extension without separators give a name tail without separators |
| OutputPaths.PlainNameComponents | src/main.rs:197-203 | without a separator in the suffix or the extension the output name joins as one component |
| OutputPaths.OutputPath | src/main.rs:177-204 | none exactly when there is no output folder or the input has no file stem; otherwise the path is the output folder, then the relative directory, then the components `join` makes of the output name: the stem with the tail up to its first separator, then whatever the tail's separators split off |
| OutputPaths.PlainOutputPath | src/main.rs:177-204 | when neither the suffix nor the extension holds a separator, the output path is the output folder, the relative directory and the output name as one last component, its directory is the first two, and (for a non-empty extension) its file name is the output name |
| OutputPaths.OutputNameInjective | src/main.rs:197-201 | with the same suffix and extension, different stems give different output names |
| OutputPaths.OutputNameReadsBack | src/main.rs:197-201 | read back with Rust's own rules, the name `stem.ext` or `stem_suffix.ext` splits into exactly that stem (with `_suffix`) and that extension, for a non-empty stem and a non-empty, dot-free extension |
| OutputPaths.OutputFileReadsBack | src/main.rs:177-204 | read back with Rust's own rules, when neither the suffix nor the extension holds a separator, the output file's extension is the chosen extension and its stem is the input stem, followed by `_suffix` when a suffix is set (for a non-empty, dot-free extension) |
| OutputPaths.SingleInputOutputsFlat | src/main.rs:184-185 | with exactly one queued file the relative directory is empty: the output path is the output folder followed by the output name's components, and directly inside the output folder when the suffix and extension hold no separator |
| OutputPaths.SeveralInputsMirrorTree | src/main.rs:186-195 | with several queued files, there is a common parent directory, and a queued file's output path is the output folder, the file's directory with the common parent directory stripped, and the output name's components |
| OutputPaths.NoCommonDirKeepsWholeParent | src/main.rs:187-195 | when there is no common parent directory the base is empty and the relative directory is the input's whole parent directory, not the empty path (in the model this happens only when every queued path is the root, so it matters only for a path outside the queue; on Windows it is the case of files on different drives) |
| OutputPaths.OutputPathsCollideIff | src/main.rs:177-204 | in a batch of several files two queued files get the same output path exactly when they share a directory and a stem |
| OutputPaths.SingleFileConvertsBesideItself | src/main.rs:171-204 | a lone file whose output folder was set by `update_output_folder` gets its own directory followed by the output name's components, so it is converted into its own directory when the suffix and extension hold no separator |
| OutputPaths.LoneXmlFileTargetsItself | src/main.rs:171-204 | a lone `stem.xml` converted to XML with the default output folder and no suffix gets its own path as output path |
| OutputPaths.TwoDirectoryCommonParent | src/main.rs:206-233 | the batch `a/x/f1.hkx`, `a/y/f2.hkx` has common parent directory `a` |
| OutputPaths.TwoDirectoryExampleFirst | src/main.rs:177-204 | in that batch, converting to XML into `out`, `a/x/f1.hkx` is written to `out/x/f1.xml` |
| OutputPaths.TwoDirectoryExampleSecond | src/main.rs:177-204 | in that batch, converting to XML into `out`, `a/y/f2.hkx` is written to `out/y/f2.xml` |
| Conversion.BuildCommand | src/main.rs:270-297 | the command runs the selected tool's unpacked executable, with arguments that read back as that tool, the selected format, the input and the output |
| Conversion.ConvertFile | src/main.rs:243-265 | a file without an output path fails before anything is attempted; a command is attempted exactly when the output path exists and its directory could be created, and it is the selected tool on this input and output; a file passes exactly when it has an output path, its directory could be created, its tool run started and exited successfully, and its output file exists with readable metadata |
| Conversion.RunConversion | src/main.rs:235-268 | an empty queue or a missing output folder fails with its own error and attempts nothing; otherwise the result is Ok exactly when every queued file passes, every file then has an existing output, and an error is that of the first failing file, with exactly the commands of the files up to and including it attempted, in order |
| Conversion.CooperativeEnvPasses | src/main.rs:243-265 | when every directory, tool run, output and metadata check succeeds, a file fails exactly when it has no output path |
| Conversion.AttemptedOnePerRun | src/main.rs:243-265 | runs that each attempted a command contribute one command apiece, in their own order |
| Conversion.AttemptsOnePerPassingFile | src/main.rs:243-265 | when every file passes, each attempted exactly one command, and the attempted commands are in queue order |
| Conversion.CooperativeBatch | src/main.rs:235-268 | against an environment where everything succeeds, a ready batch whose files all have stems returns Ok after one command per file, in queue order, each the selected tool on that file and its output path |

## Left out

- Process spawning and output capture: the tool run is the oracle `Env.runTool`, which says whether the process could be spawned (`SpawnFailed` when not) and, if so, whether it exited successfully and what it wrote to standard error; printing the command line, stdout, stderr and the output file size is not modelled.
- Filesystem effects: `create_dir_all`, `Path::exists` and `fs::metadata` are the oracles `createDirAll`, `outputExists` and `metadataReadable`; `is_file` is a flag on each listed entry.
- Directory reading: `fs::read_dir` and the link-following `WalkDir` are not modelled; a scan receives the entries they would list, in listing order, with an `Unreadable` entry where either reports an error (a folder that cannot be opened is a listing whose first entry is `Unreadable`).
- The user interface: egui rendering, file dialogs, the `Browse Files` and `Clear All` buttons, the format and filter selectors and their `label` strings (the tool's label is modelled, since error messages use it), the custom-extension text box (which maps an empty text to no custom extension), and `handle_conversion`.
- `main`: unpacking the embedded executables to a temporary directory; the two executable paths are plain fields of the application value. `Default for HkxToolsApp` differs from `new` only in using empty executable paths and is not modelled separately.
- Path roots and drive prefixes: all paths of the model share one root (or are all relative), so `Path::join` never meets an absolute argument and the common-parent walk always reaches a shared ancestor. On Windows, files on two different drives make `find_common_parent_dir` return none; the base directory then falls back to the empty path, and because `Path::join` replaces the output folder with an absolute argument such outputs are written beside their inputs. The model cannot express that case.
- OutputPaths.AscendUntilPrefix: its branch for a directory without a parent (the `?` in the climb) is kept but cannot be reached in the model, because the empty path is a prefix of every path.
- Paths.Display: the text a path is passed as is modelled as its components joined with `/`; the platform separator `\` and lossy conversion of non-Unicode paths are not modelled.
- Path normalization: a path is its list of components, so a path written with an empty or `.` component (`a//b`, `./a`) is the same path as its normalized form. Rust's `file_name` and `parent` on such unnormalized text are not modelled.
- OutputPaths.OutputFileReadsBack: the read-back of extension and stem is promised only when neither the suffix nor the custom extension holds a separator; otherwise the written file's name is what follows the last separator, as `OutputPaths.OutputPath` states through the name's components.
- OutputPaths.PlainOutputPath: the file-name clause requires a non-empty extension, since a stem `.` with an empty extension makes the name `..`, which has no file name; the user interface never sets an empty custom extension and every format extension is non-empty.
- Non-UTF-8 file stems (`to_str()` returning none in `get_output_path`) are not modelled: strings are sequences of characters.
- InputQueue.AddListedKeepsListingOrder: states the order of appended paths only as a subsequence of the accepted files; when a listing names the same path twice it does not say that the first occurrence is the one kept.
