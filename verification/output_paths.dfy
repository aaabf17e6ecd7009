/** Where each converted file is written (`get_output_path`,
    `find_common_parent_dir`): the output folder, then the input's directory
    relative to a base directory, then the input's stem with the optional
    suffix and the output extension. */
module OutputPaths {
  import opened Wrappers
  import opened Paths
  import opened Formats
  import opened AppState

  /** The extension written: the custom one when set, otherwise the one
      belonging to the output format. */
  function OutputExtension(app: HkxToolsApp): (ext: string)
    ensures app.customExtension.Some? ==> ext == app.customExtension.value
    ensures app.customExtension.None? ==> (ext == "xml" <==> app.outputFormat == Xml)
    ensures app.customExtension.None? ==> (ext == "hkx" <==> app.outputFormat in {SkyrimLE, SkyrimSE})
  {
    match app.customExtension
    case Some(ext) => ext
    case None => FormatExtension(app.outputFormat)
  }

  /** What follows the stem in the output name: `.ext`, or `_suffix.ext`
      when a suffix is set. It starts with a dot or an underscore. */
  function NameTail(suffix: string, ext: string): (t: string)
    ensures t != [] && (t[0] == '.' || t[0] == '_')
    ensures t[0] == '_' <==> suffix != ""
  {
    if suffix == "" then "." + ext else "_" + suffix + "." + ext
  }

  /** The output file name as `get_output_path` formats it: `stem.ext`, or
      `stem_suffix.ext` when a suffix is set: the stem, then the name tail. */
  function OutputName(stem: string, suffix: string, ext: string): (name: string)
    ensures stem <= name && name[|stem|..] == NameTail(suffix, ext)
  {
    if suffix == "" then stem + "." + ext else stem + "_" + suffix + "." + ext
  }

  /** Neither the suffix nor the extension holds a separator, so the output
      name is a single file name. */
  predicate PlainName(app: HkxToolsApp) {
    NoSeparator(app.outputSuffix) && NoSeparator(OutputExtension(app))
  }

  /** The part of the name tail up to its first separator: it stays in the
      same component as the stem. */
  function NameLead(suffix: string, ext: string): string {
    SplitAtSeparators(NameTail(suffix, ext))[0]
  }

  /** The components `join` makes of the name tail past its first separator:
      the subdirectories and file name a suffix or extension such as `x/y`
      adds. */
  function NameRest(suffix: string, ext: string): Path {
    KeepComponents(SplitAtSeparators(NameTail(suffix, ext))[1..])
  }

  /** Joined onto a directory, the output name becomes the stem with the
      lead of the tail, then the rest of the tail's components. */
  lemma {:induction false} OutputNameComponents(stem: string, suffix: string, ext: string)
    requires stem != "" && NoSeparator(stem)
    ensures OutputName(stem, suffix, ext) == stem + NameTail(suffix, ext)
    ensures ValidComponent(stem + NameLead(suffix, ext))
    ensures Components(OutputName(stem, suffix, ext)) == [stem + NameLead(suffix, ext)] + NameRest(suffix, ext)
  {
    var tail := NameTail(suffix, ext);
    var pieces := SplitAtSeparators(tail);
    var first := stem + pieces[0];
    assert OutputName(stem, suffix, ext) == stem + tail;
    SplitAfterPlain(stem, tail);
    assert !IsSeparator(tail[0]);
    assert NoSeparator(first);
    assert |first| >= 2;
    KeepValidFirst(first, pieces[1..]);
  }

  /** Joining the output name onto a directory appends the stem with the
      lead of the tail, then the rest of the tail's components. */
  lemma JoinOutputName(dir: Path, stem: string, suffix: string, ext: string)
    requires stem != "" && NoSeparator(stem)
    ensures ValidComponent(stem + NameLead(suffix, ext))
    ensures dir + Components(OutputName(stem, suffix, ext))
         == dir + [stem + NameLead(suffix, ext)] + NameRest(suffix, ext)
  {
    OutputNameComponents(stem, suffix, ext);
  }

  /** A suffix and an extension without separators give a tail without
      separators. */
  lemma PlainTail(suffix: string, ext: string)
    requires NoSeparator(suffix) && NoSeparator(ext)
    ensures NoSeparator(NameTail(suffix, ext))
  {
    var tail := NameTail(suffix, ext);
    if suffix == "" {
      assert tail == "." + ext;
    } else {
      assert tail == "_" + suffix + "." + ext;
    }
  }

  /** Without a separator in the suffix or the extension, the output name
      stays a single component. */
  lemma PlainNameComponents(stem: string, suffix: string, ext: string)
    requires stem != "" && NoSeparator(stem)
    requires NoSeparator(suffix) && NoSeparator(ext)
    ensures NameLead(suffix, ext) == NameTail(suffix, ext) && NameRest(suffix, ext) == []
    ensures Components(OutputName(stem, suffix, ext)) == [OutputName(stem, suffix, ext)]
  {
    var tail := NameTail(suffix, ext);
    PlainTail(suffix, ext);
    SplitPlain(tail);
    assert SplitAtSeparators(tail)[1..] == [];
    OutputNameComponents(stem, suffix, ext);
  }

  /** The parent directories of the inputs that have one, in queue order. */
  function Parents(inputs: seq<Path>): (r: seq<Path>)
    ensures r == [] <==> forall i :: 0 <= i < |inputs| ==> inputs[i] == []
    ensures forall x :: x in inputs && x != [] ==> Parent(x).value in r
    ensures forall d :: d in r ==> exists x :: x in inputs && Parent(x) == Some(d)
  {
    if inputs == [] then []
    else
      var rest := Parents(inputs[1..]);
      assert forall x :: x in inputs[1..] ==> x in inputs;
      match Parent(inputs[0])
      case None => rest
      case Some(d) => [d] + rest
  }

  /** The inner loop of `find_common_parent_dir`: climb from `common` until
      `dir` lies inside it. */
  function AscendUntilPrefix(common: Path, dir: Path): (r: Option<Path>)
    ensures r == Some(LongestCommonPrefix(common, dir))
    decreases |common|
  {
    if common <= dir then
      PrefixIsOwnCommonPrefix(common, dir);
      Some(common)
    else
      match Parent(common)
      case None => None
      case Some(up) =>
        DroppingUnsharedLastKeepsCommonPrefix(common, dir);
        AscendUntilPrefix(up, dir)
  }

  /** The outer loop of `find_common_parent_dir`: narrow `common` down to a
      directory every one of `dirs` lies in. The result is the deepest such
      directory: at its depth `common` ends or some directory turns away. */
  function AscendAll(common: Path, dirs: seq<Path>): (r: Option<Path>)
    ensures r.Some?
    ensures r.value <= common
    ensures forall d :: d in dirs ==> r.value <= d
    ensures |r.value| == |common| || exists i :: 0 <= i < |dirs| && !SharesComponentAt(dirs[i], common, |r.value|)
    decreases |dirs|
  {
    if dirs == [] then Some(common)
    else
      match AscendUntilPrefix(common, dirs[0])
      case None => None
      case Some(next) =>
        var r := AscendAll(next, dirs[1..]);
        assert forall d :: d in dirs ==> d == dirs[0] || d in dirs[1..];
        assert r.value <= common;
        assert |r.value| == |common| || exists i :: 0 <= i < |dirs| && !SharesComponentAt(dirs[i], common, |r.value|) by {
          if |r.value| == |next| {
            assert |r.value| == |common| || !SharesComponentAt(dirs[0], common, |r.value|);
          } else {
            var i :| 0 <= i < |dirs[1..]| && !SharesComponentAt(dirs[1..][i], next, |r.value|);
            assert dirs[1..][i] == dirs[i + 1];
          }
        }
        r
  }

  /** `find_common_parent_dir`: the deepest directory holding the parent of
      every input, starting from the first input's parent; none when no input
      has a parent (in particular when the queue is empty). */
  function CommonParentDir(inputs: seq<Path>): (r: Option<Path>)
    ensures r.None? <==> forall i :: 0 <= i < |inputs| ==> inputs[i] == []
    ensures r.Some? ==> r.value <= Parents(inputs)[0]
    ensures r.Some? ==> forall x :: x in inputs && x != [] ==> r.value <= Parent(x).value
    ensures r.Some? ==> |r.value| == |Parents(inputs)[0]|
                        || exists x :: x in inputs && x != [] && !SharesComponentAt(Parent(x).value, Parents(inputs)[0], |r.value|)
  {
    if inputs == [] then None
    else
      var parentDirs := Parents(inputs);
      if parentDirs == [] then None
      else
        var r := AscendAll(parentDirs[0], parentDirs[1..]);
        assert forall d :: d in parentDirs ==> d == parentDirs[0] || d in parentDirs[1..];
        assert |r.value| == |parentDirs[0]|
            || exists x :: x in inputs && x != [] && !SharesComponentAt(Parent(x).value, parentDirs[0], |r.value|) by {
          if |r.value| != |parentDirs[0]| {
            var i :| 0 <= i < |parentDirs[1..]| && !SharesComponentAt(parentDirs[1..][i], parentDirs[0], |r.value|);
            assert parentDirs[1..][i] in parentDirs;
            var x :| x in inputs && Parent(x) == Some(parentDirs[1..][i]);
          }
        }
        r
  }

  /** The directory input paths are made relative to: the input's own parent
      when exactly one file is queued, otherwise the common parent directory,
      falling back to the empty path when there is none. */
  function BaseDir(app: HkxToolsApp, input: Path): Path {
    if |app.inputPaths| == 1 then Parent(input).GetOr([])
    else CommonParentDir(app.inputPaths).GetOr([])
  }

  /** For a queued file the base directory is one of its ancestors (or its
      own directory), so stripping it from the file's directory succeeds. */
  lemma BaseDirIsAncestor(app: HkxToolsApp, input: Path)
    requires |app.inputPaths| == 1 || (input in app.inputPaths && input != [])
    ensures BaseDir(app, input) <= Parent(input).GetOr([])
  {
  }

  /** The input's directory with the base directory stripped from its front;
      the empty path when it does not start with the base directory. */
  function RelativePath(app: HkxToolsApp, input: Path): (r: Path)
    ensures BaseDir(app, input) <= Parent(input).GetOr([]) ==> BaseDir(app, input) + r == Parent(input).GetOr([])
    ensures !(BaseDir(app, input) <= Parent(input).GetOr([])) ==> r == []
  {
    StripPrefix(Parent(input).GetOr([]), BaseDir(app, input)).GetOr([])
  }

  /** `get_output_path`: none without an output folder or when the input has
      no file stem; otherwise the output folder joined with the relative
      directory and then with the output name, which `join` reads as a path:
      a separator in the suffix or the extension adds components. Both joins
      are `Join`, written out as concatenation. */
  function OutputPath(app: HkxToolsApp, input: Path): (r: Option<Path>)
    ensures r.None? <==> app.outputFolder.None? || FileStem(input).None?
    ensures r.Some? ==> app.outputFolder.value <= r.value && |r.value| > |app.outputFolder.value|
    ensures r.Some? ==>
      r.value == app.outputFolder.value + RelativePath(app, input)
                 + [FileStem(input).value + NameLead(app.outputSuffix, OutputExtension(app))]
                 + NameRest(app.outputSuffix, OutputExtension(app))
  {
    match app.outputFolder
    case None => None
    case Some(outputBase) =>
      match FileStem(input)
      case None => None
      case Some(fileName) =>
        var dir := outputBase + RelativePath(app, input);
        JoinOutputName(dir, fileName, app.outputSuffix, OutputExtension(app));
        Some(dir + Components(OutputName(fileName, app.outputSuffix, OutputExtension(app))))
  }

  /** Without a separator in the suffix or the extension, the output path
      is the output folder, the relative directory and the output name: the
      name is the path's last component and the rest is its directory. With
      a non-empty extension that component is a file name (it cannot be
      `..`). */
  lemma PlainOutputPath(app: HkxToolsApp, input: Path)
    requires app.outputFolder.Some? && FileStem(input).Some? && PlainName(app)
    ensures OutputPath(app, input)
         == Some(app.outputFolder.value + RelativePath(app, input)
                 + [OutputName(FileStem(input).value, app.outputSuffix, OutputExtension(app))])
    ensures Parent(OutputPath(app, input).value) == Some(app.outputFolder.value + RelativePath(app, input))
    ensures OutputExtension(app) != "" ==>
      FileName(OutputPath(app, input).value)
      == Some(OutputName(FileStem(input).value, app.outputSuffix, OutputExtension(app)))
  {
    var stem, suffix, ext := FileStem(input).value, app.outputSuffix, OutputExtension(app);
    var name := OutputName(stem, suffix, ext);
    var dir := app.outputFolder.value + RelativePath(app, input);
    OutputNameComponents(stem, suffix, ext);
    PlainNameComponents(stem, suffix, ext);
    var out := OutputPath(app, input).value;
    assert out == dir + [stem + NameLead(suffix, ext)] + NameRest(suffix, ext);
    assert stem + NameLead(suffix, ext) == name;
    assert out == dir + [name];
    assert out[..|out| - 1] == dir;
    assert out[|out| - 1] == name;
    assert ext != "" ==> |name| >= 3;
  }

  /** A directory that `dir` lies in is its own longest common prefix with `dir`. */
  lemma PrefixIsOwnCommonPrefix(a: Path, b: Path)
    requires a <= b
    ensures LongestCommonPrefix(a, b) == a
  {
    LongestCommonPrefixIsLongest(a, b, a);
  }

  /** When `a` is not a prefix of `b`, the last component of `a` is not shared
      with `b`, so dropping it keeps the longest common prefix. */
  lemma DroppingUnsharedLastKeepsCommonPrefix(a: Path, b: Path)
    requires !(a <= b)
    ensures a != []
    ensures LongestCommonPrefix(a[..|a| - 1], b) == LongestCommonPrefix(a, b)
  {
    var r := LongestCommonPrefix(a, b);
    var up := a[..|a| - 1];
    assert r <= up;
    var r' := LongestCommonPrefix(up, b);
    LongestCommonPrefixIsLongest(up, b, r);
    LongestCommonPrefixIsLongest(a, b, r');
  }

  /** Different stems never give the same output name. */
  lemma OutputNameInjective(stem1: string, stem2: string, suffix: string, ext: string)
    requires OutputName(stem1, suffix, ext) == OutputName(stem2, suffix, ext)
    ensures stem1 == stem2
  {
    var name := OutputName(stem1, suffix, ext);
    assert |stem1| == |stem2|;
    assert name[..|stem1|] == stem1;
    assert OutputName(stem2, suffix, ext)[..|stem2|] == stem2;
  }

  /** Read back with Rust's own rules, an output name splits into the stem
      (plus `_suffix`) and the extension it was built from, provided the
      stem is non-empty and the extension is a non-empty word without dots. */
  lemma OutputNameReadsBack(stem: string, suffix: string, ext: string)
    requires stem != "" && ext != "" && '.' !in ext
    ensures SplitFileAtDot(OutputName(stem, suffix, ext))
         == (if suffix == "" then stem else stem + "_" + suffix, Some(ext))
  {
    var named := if suffix == "" then stem else stem + "_" + suffix;
    assert OutputName(stem, suffix, ext) == named + "." + ext;
    SplitJoinedName(named, ext);
  }

  /** Read back with Rust's own rules, the written file has the output
      extension as its extension, and the input's stem (plus `_suffix`) as its
      stem, provided the extension is a non-empty word without dots and
      neither the suffix nor the extension holds a separator. */
  lemma OutputFileReadsBack(app: HkxToolsApp, input: Path)
    requires app.outputFolder.Some? && FileStem(input).Some?
    requires OutputExtension(app) != "" && '.' !in OutputExtension(app)
    ensures PlainName(app) ==> Extension(OutputPath(app, input).value) == Some(OutputExtension(app))
    ensures PlainName(app) ==>
      FileStem(OutputPath(app, input).value)
      == Some(if app.outputSuffix == "" then FileStem(input).value
              else FileStem(input).value + "_" + app.outputSuffix)
  {
    if PlainName(app) {
      PlainOutputPath(app, input);
      OutputNameReadsBack(FileStem(input).value, app.outputSuffix, OutputExtension(app));
    }
  }

  /** With exactly one queued file the relative directory is empty: the
      output goes into the output folder itself, or into the subdirectories
      a separator in the suffix or extension names. */
  lemma SingleInputOutputsFlat(app: HkxToolsApp, input: Path)
    requires |app.inputPaths| == 1
    requires app.outputFolder.Some? && FileStem(input).Some?
    ensures RelativePath(app, input) == []
    ensures OutputPath(app, input).value
         == app.outputFolder.value
            + [FileStem(input).value + NameLead(app.outputSuffix, OutputExtension(app))]
            + NameRest(app.outputSuffix, OutputExtension(app))
    ensures PlainName(app) ==> Parent(OutputPath(app, input).value) == Some(app.outputFolder.value)
  {
    assert app.outputFolder.value + [] == app.outputFolder.value;
    if PlainName(app) {
      PlainOutputPath(app, input);
    }
  }

  /** With several queued files, a queued file's output goes to the output
      folder followed by the file's directory as seen from the common parent
      directory of the batch (then any subdirectories a separator in the
      suffix or extension names). */
  lemma SeveralInputsMirrorTree(app: HkxToolsApp, input: Path)
    requires |app.inputPaths| > 1
    requires input in app.inputPaths && input != []
    requires app.outputFolder.Some? && FileStem(input).Some?
    ensures CommonParentDir(app.inputPaths).Some?
    ensures CommonParentDir(app.inputPaths).value + RelativePath(app, input) == Parent(input).value
    ensures OutputPath(app, input).value
         == app.outputFolder.value + Parent(input).value[|CommonParentDir(app.inputPaths).value|..]
            + [FileStem(input).value + NameLead(app.outputSuffix, OutputExtension(app))]
            + NameRest(app.outputSuffix, OutputExtension(app))
    ensures PlainName(app) ==>
      Parent(OutputPath(app, input).value)
      == Some(app.outputFolder.value + Parent(input).value[|CommonParentDir(app.inputPaths).value|..])
  {
    var i :| 0 <= i < |app.inputPaths| && app.inputPaths[i] == input;
    var common := CommonParentDir(app.inputPaths).value;
    assert common <= Parent(input).value;
    assert RelativePath(app, input) == Parent(input).value[|common|..];
    if PlainName(app) {
      PlainOutputPath(app, input);
    }
  }

  /** Without a common parent directory the base directory is empty and the
      relative directory is the input's whole parent, not the empty path. In
      the model that happens only when every queued path is the root, so for
      a queued file the relative directory is empty either way; the rule
      matters for files on different drives, which the model does not
      represent. */
  lemma NoCommonDirKeepsWholeParent(app: HkxToolsApp, input: Path)
    requires |app.inputPaths| != 1
    requires CommonParentDir(app.inputPaths).None?
    ensures RelativePath(app, input) == Parent(input).GetOr([])
  {
    assert BaseDir(app, input) == [];
  }

  /** Within a batch of several files, two queued files are written to the
      same place exactly when they sit in the same directory and share a
      stem (`walk.hkx` and `walk.xml` both become `walk.xml`). */
  lemma OutputPathsCollideIff(app: HkxToolsApp, a: Path, b: Path)
    requires |app.inputPaths| > 1
    requires a in app.inputPaths && b in app.inputPaths && a != [] && b != []
    requires app.outputFolder.Some? && FileStem(a).Some? && FileStem(b).Some?
    ensures OutputPath(app, a) == OutputPath(app, b) <==> Parent(a) == Parent(b) && FileStem(a) == FileStem(b)
  {
    SeveralInputsMirrorTree(app, a);
    SeveralInputsMirrorTree(app, b);
    var folder := app.outputFolder.value;
    var lead, rest := NameLead(app.outputSuffix, OutputExtension(app)), NameRest(app.outputSuffix, OutputExtension(app));
    var relA, relB := RelativePath(app, a), RelativePath(app, b);
    var stemA, stemB := FileStem(a).value, FileStem(b).value;
    var outA, outB := OutputPath(app, a).value, OutputPath(app, b).value;
    if outA == outB {
      SameShapeSameParts(folder, relA, relB, stemA + lead, stemB + lead, rest);
      SameLeadSameStem(stemA, stemB, lead);
    }
  }

  /** Two sequences built alike from a shared front and back agree in the
      parts between: the middle run and the single element after it. */
  lemma SameShapeSameParts<T>(front: seq<T>, midA: seq<T>, midB: seq<T>, x: T, y: T, back: seq<T>)
    requires front + midA + [x] + back == front + midB + [y] + back
    ensures midA == midB && x == y
  {
    var whole := front + midA + [x] + back;
    assert |midA| == |midB|;
    assert midA == whole[|front|..|front| + |midA|];
    assert midB == (front + midB + [y] + back)[|front|..|front| + |midB|];
    assert x == whole[|front| + |midA|];
    assert y == (front + midB + [y] + back)[|front| + |midB|];
  }

  /** Stems followed by the same text are equal when the results are. */
  lemma SameLeadSameStem(stemA: string, stemB: string, lead: string)
    requires stemA + lead == stemB + lead
    ensures stemA == stemB
  {
    assert |stemA| == |stemB|;
    assert stemA == (stemA + lead)[..|stemA|];
    assert stemB == (stemB + lead)[..|stemB|];
  }

  /** A single file whose output folder was chosen by `update_output_folder`
      is converted into its own directory (or the subdirectories of it that
      a separator in the suffix or extension names). */
  lemma SingleFileConvertsBesideItself(app: HkxToolsApp, input: Path)
    requires app.inputPaths == [input]
    requires FileStem(input).Some?
    ensures OutputPath(UpdateOutputFolder(app), input)
         == Some(Parent(input).value
                 + [FileStem(input).value + NameLead(app.outputSuffix, OutputExtension(app))]
                 + NameRest(app.outputSuffix, OutputExtension(app)))
    ensures PlainName(app) ==>
      OutputPath(UpdateOutputFolder(app), input)
      == Some(Parent(input).value + [OutputName(FileStem(input).value, app.outputSuffix, OutputExtension(app))])
  {
    var updated := UpdateOutputFolder(app);
    assert OutputExtension(updated) == OutputExtension(app);
    assert RelativePath(updated, input) == [];
    assert Parent(input).value + [] == Parent(input).value;
    if PlainName(app) {
      PlainOutputPath(updated, input);
    }
  }

  /** The stem of `dir/name.hkx` is `name`. */
  lemma StemOfHkxName(dir: Path, name: string, file: Component)
    requires name != "" && '.' !in name
    requires file == name + ".hkx"
    ensures FileStem(dir + [file]) == Some(name)
  {
    SplitJoinedName(name, "hkx");
    assert name + ".hkx" == name + "." + "hkx";
  }

  /** Nothing keeps an output off its own input: a lone `stem.xml` converted
      to XML, with the default output folder and no suffix, is written to
      the path it is read from. */
  lemma LoneXmlFileTargetsItself(app: HkxToolsApp, dir: Path, stem: string, file: Component)
    requires stem != "" && '.' !in stem && file == stem + ".xml"
    requires app.inputPaths == [dir + [file]]
    requires app.outputSuffix == "" && app.customExtension == None && app.outputFormat == Xml
    ensures OutputPath(UpdateOutputFolder(app), dir + [file]) == Some(dir + [file])
  {
    var input := dir + [file];
    assert stem + ".xml" == stem + "." + "xml";
    SplitJoinedName(stem, "xml");
    assert FileStem(input) == Some(stem);
    assert Parent(input) == Some(dir);
    assert NoSeparator("") && NoSeparator(OutputExtension(app));
    SingleFileConvertsBesideItself(app, input);
  }

  /** The batch `a/x/f1.hkx`, `a/y/f2.hkx` has common parent directory `a`. */
  lemma TwoDirectoryCommonParent()
    ensures CommonParentDir([["a", "x", "f1.hkx"], ["a", "y", "f2.hkx"]]) == Some(["a"])
  {
    var f1: Path, f2: Path := ["a", "x", "f1.hkx"], ["a", "y", "f2.hkx"];
    var d1: Path, d2: Path := ["a", "x"], ["a", "y"];
    assert Parent(f1) == Some(d1) by {
      assert f1[..2] == d1;
    }
    assert Parent(f2) == Some(d2) by {
      assert f2[..2] == d2;
    }
    assert Parents([f1, f2]) == [d1, d2] by {
      assert [f1, f2][1..] == [f2] && [f2][1..] == [];
    }
    assert LongestCommonPrefix(d1, d2) == ["a"] by {
      assert d1[1..] == ["x"] && d2[1..] == ["y"];
      assert LongestCommonPrefix(["x"], ["y"]) == [];
    }
  }

  /** The stem of the two-directory example's first file. */
  lemma ExampleStemFirst()
    ensures FileStem(["a", "x", "f1.hkx"]) == Some("f1")
  {
    assert FileName(["a", "x", "f1.hkx"]) == Some("f1.hkx");
    SplitJoinedName("f1", "hkx");
    assert "f1" + "." + "hkx" == "f1.hkx";
  }

  /** The stem of the two-directory example's second file. */
  lemma ExampleStemSecond()
    ensures FileStem(["a", "y", "f2.hkx"]) == Some("f2")
  {
    assert FileName(["a", "y", "f2.hkx"]) == Some("f2.hkx");
    SplitJoinedName("f2", "hkx");
    assert "f2" + "." + "hkx" == "f2.hkx";
  }

  /** In a batch of several files, a file below the common parent
      directory keeps the rest of its directory as its relative directory. */
  lemma RelativePathBelowCommon(app: HkxToolsApp, input: Path, common: Path, rest: Path)
    requires |app.inputPaths| != 1 && CommonParentDir(app.inputPaths) == Some(common)
    requires Parent(input) == Some(common + rest)
    ensures RelativePath(app, input) == rest
  {
    assert BaseDir(app, input) == common;
  }

  /** The first file of the two-directory example keeps its subdirectory `x`. */
  lemma ExampleRelativePathFirst(app: HkxToolsApp)
    requires app.inputPaths == [["a", "x", "f1.hkx"], ["a", "y", "f2.hkx"]]
    ensures RelativePath(app, ["a", "x", "f1.hkx"]) == ["x"]
  {
    var f1: Path := ["a", "x", "f1.hkx"];
    assert CommonParentDir(app.inputPaths) == Some(["a"]) by {
      TwoDirectoryCommonParent();
    }
    assert Parent(f1) == Some(["a"] + ["x"]) by {
      assert f1[..2] == ["a"] + ["x"];
    }
    RelativePathBelowCommon(app, f1, ["a"], ["x"]);
  }

  /** The second file of the two-directory example keeps its subdirectory `y`. */
  lemma ExampleRelativePathSecond(app: HkxToolsApp)
    requires app.inputPaths == [["a", "x", "f1.hkx"], ["a", "y", "f2.hkx"]]
    ensures RelativePath(app, ["a", "y", "f2.hkx"]) == ["y"]
  {
    var f2: Path := ["a", "y", "f2.hkx"];
    assert CommonParentDir(app.inputPaths) == Some(["a"]) by {
      TwoDirectoryCommonParent();
    }
    assert Parent(f2) == Some(["a"] + ["y"]) by {
      assert f2[..2] == ["a"] + ["y"];
    }
    RelativePathBelowCommon(app, f2, ["a"], ["y"]);
  }

  /** Two files in sibling directories under `a`, converted to XML into
      `out` without suffix: `a/x/f1.hkx` becomes `out/x/f1.xml` (and, by
      `TwoDirectoryExampleSecond`, `a/y/f2.hkx` becomes `out/y/f2.xml`). */
  lemma TwoDirectoryExampleFirst(app: HkxToolsApp)
    requires app.inputPaths == [["a", "x", "f1.hkx"], ["a", "y", "f2.hkx"]]
    requires app.outputFolder == Some(["out"])
    requires app.outputSuffix == "" && app.customExtension == None && app.outputFormat == Xml
    ensures OutputPath(app, ["a", "x", "f1.hkx"]) == Some(["out", "x", "f1.xml"])
  {
    assert OutputName("f1", "", "xml") == "f1.xml";
    assert ["out"] + ["x"] + ["f1.xml"] == ["out", "x", "f1.xml"];
    assert PlainName(app) by {
      assert NoSeparator("") && NoSeparator("xml");
    }
    var input: Path := ["a", "x", "f1.hkx"];
    ExampleStemFirst();
    ExampleRelativePathFirst(app);
    PlainOutputPath(app, input);
  }

  /** The second file of the two-directory example: `a/y/f2.hkx` becomes
      `out/y/f2.xml`. */
  lemma TwoDirectoryExampleSecond(app: HkxToolsApp)
    requires app.inputPaths == [["a", "x", "f1.hkx"], ["a", "y", "f2.hkx"]]
    requires app.outputFolder == Some(["out"])
    requires app.outputSuffix == "" && app.customExtension == None && app.outputFormat == Xml
    ensures OutputPath(app, ["a", "y", "f2.hkx"]) == Some(["out", "y", "f2.xml"])
  {
    assert OutputName("f2", "", "xml") == "f2.xml";
    assert ["out"] + ["y"] + ["f2.xml"] == ["out", "y", "f2.xml"];
    assert PlainName(app) by {
      assert NoSeparator("") && NoSeparator("xml");
    }
    var input: Path := ["a", "y", "f2.hkx"];
    ExampleStemSecond();
    ExampleRelativePathSecond(app);
    PlainOutputPath(app, input);
  }
}
