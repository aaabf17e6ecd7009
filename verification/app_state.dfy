/** The converter's settings and file queue (`HkxToolsApp`), and the changes
    made to them outside a folder scan: the default output folder and the
    removal of rows from the queue. */
module AppState {
  import opened Wrappers
  import opened Paths
  import opened Formats

  /** `HkxToolsApp`. `inputPaths` is the conversion queue, in the order the
      files were added. The two executable paths are where the bundled tools
      were unpacked at start-up. */
  datatype HkxToolsApp = HkxToolsApp(
    inputPaths: seq<Path>,
    outputFolder: Option<Path>,
    outputSuffix: string,
    outputFormat: OutputFormat,
    customExtension: Option<string>,
    inputFileExtension: InputFileExtension,
    converterTool: ConverterTool,
    hkxcmdPath: Path,
    hkxcPath: Path)

  /** `HkxToolsApp::new`: an empty queue, no output folder, no suffix, no
      custom extension, XML output, the `All` filter and hkxcmd. */
  function NewApp(hkxcmdPath: Path, hkxcPath: Path): (r: HkxToolsApp)
    ensures r.inputPaths == [] && r.outputFolder.None?
    ensures r.outputSuffix == "" && r.customExtension.None?
    ensures r.outputFormat == Xml && r.inputFileExtension == All && r.converterTool == HkxCmd
    ensures r.hkxcmdPath == hkxcmdPath && r.hkxcPath == hkxcPath
    ensures UpdateOutputFolder(r) == r
  {
    HkxToolsApp([], None, "", Xml, None, All, HkxCmd, hkxcmdPath, hkxcPath)
  }

  /** `update_output_folder`: after files are added, the output folder becomes
      the directory holding the first queued file (the empty path when that
      file has no parent). An empty queue leaves everything as it was. */
  function UpdateOutputFolder(app: HkxToolsApp): (r: HkxToolsApp)
    ensures app.inputPaths == [] ==> r == app
    ensures app.inputPaths != [] ==> r == app.(outputFolder := r.outputFolder)
    ensures app.inputPaths != [] ==>
      && r.outputFolder.Some?
      && r.outputFolder.value <= app.inputPaths[0]
      && |r.outputFolder.value| == (if app.inputPaths[0] == [] then 0 else |app.inputPaths[0]| - 1)
  {
    if app.inputPaths == [] then app
    else app.(outputFolder := Some(Parent(app.inputPaths[0]).GetOr([])))
  }

  /** `s` with its `i`-th element taken out (`Vec::remove`). */
  function RemoveAt<T>(s: seq<T>, i: nat): (r: seq<T>)
    requires i < |s|
    ensures |r| == |s| - 1
  {
    s[..i] + s[i + 1..]
  }

  predicate StrictlyIncreasing(indices: seq<nat>) {
    forall a, b :: 0 <= a < b < |indices| ==> indices[a] < indices[b]
  }

  /** The removal loop after the file list is drawn: `indices` are the rows
      whose remove button was clicked, collected in display order, and they
      are removed last-first so that each remaining index still points at
      the row it named. */
  function RemoveClicked<T>(s: seq<T>, indices: seq<nat>): (r: seq<T>)
    requires StrictlyIncreasing(indices)
    requires forall k :: 0 <= k < |indices| ==> indices[k] < |s|
    ensures |r| == |s| - |indices|
    decreases |indices|
  {
    if indices == [] then s
    else
      var last := indices[|indices| - 1];
      RemoveClicked(RemoveAt(s, last), indices[..|indices| - 1])
  }

  /** Reference: the elements of `s` whose positions are not in `removed`,
      in their original order. */
  function Without<T>(s: seq<T>, removed: set<nat>): (r: seq<T>)
    ensures |r| <= |s|
    ensures forall x :: x in r ==> x in s
  {
    if s == [] then []
    else Without(s[..|s| - 1], removed) + (if |s| - 1 in removed then [] else [s[|s| - 1]])
  }

  /** Positions at or beyond the end of `s` do not matter to `Without`. */
  lemma {:induction false} WithoutIgnoresPastEnd<T>(s: seq<T>, removed: set<nat>, x: nat)
    requires x >= |s|
    ensures Without(s, removed + {x}) == Without(s, removed)
  {
    if s != [] {
      WithoutIgnoresPastEnd(s[..|s| - 1], removed, x);
    }
  }

  /** Removing position `m` first and then the positions in `removed`, all
      below `m`, is removing all of them at once. */
  lemma {:induction false} WithoutRemoveAt<T>(s: seq<T>, m: nat, removed: set<nat>)
    requires m < |s|
    requires forall k :: k in removed ==> k < m
    ensures Without(RemoveAt(s, m), removed) == Without(s, removed + {m})
  {
    var n := |s| - 1;
    if m == n {
      assert RemoveAt(s, m) == s[..n];
      WithoutIgnoresPastEnd(s[..n], removed, m);
    } else {
      var t := RemoveAt(s, m);
      assert t[..|t| - 1] == RemoveAt(s[..n], m);
      assert t[|t| - 1] == s[n];
      WithoutRemoveAt(s[..n], m, removed);
    }
  }

  /** The positions listed in `indices`, as a set. */
  function Positions(indices: seq<nat>): (r: set<nat>)
    ensures forall k :: k in r <==> k in indices
  {
    if indices == [] then {} else Positions(indices[..|indices| - 1]) + {indices[|indices| - 1]}
  }

  /** Removing the clicked rows last-first removes exactly those rows and
      keeps every other row, in order. */
  lemma {:induction false} RemoveClickedKeepsOthers<T>(s: seq<T>, indices: seq<nat>)
    requires StrictlyIncreasing(indices)
    requires forall k :: 0 <= k < |indices| ==> indices[k] < |s|
    ensures RemoveClicked(s, indices) == Without(s, Positions(indices))
    decreases |indices|
  {
    if indices == [] {
      WithoutNothing(s);
    } else {
      var last := indices[|indices| - 1];
      var front := indices[..|indices| - 1];
      RemoveClickedKeepsOthers(RemoveAt(s, last), front);
      assert forall a :: 0 <= a < |front| ==> front[a] < last by {
        forall a | 0 <= a < |front| ensures front[a] < last {
          assert front[a] == indices[a];
        }
      }
      WithoutRemoveAt(s, last, Positions(front));
    }
  }

  /** Removing no positions keeps the whole sequence. */
  lemma {:induction false} WithoutNothing<T>(s: seq<T>)
    ensures Without(s, {}) == s
  {
    if s != [] {
      WithoutNothing(s[..|s| - 1]);
    }
  }
}
