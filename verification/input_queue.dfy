/** Adding the files of a folder to the conversion queue
    (`add_files_from_folder`, `add_files_non_recursive`, `add_files_recursive`).

    Reading the folder is left to the caller: a scan is given the entries it
    would list, in listing order, each a path with its "is a regular file"
    answer, or `Unreadable` where the directory read or walk reported an
    error. The non-recursive and recursive scans differ only in that listing
    (`fs::read_dir` versus a link-following `WalkDir`); what they keep is the
    same. */
module InputQueue {
  import opened Wrappers
  import opened Paths
  import opened Formats
  import opened AppState

  datatype DirEntry = Entry(path: Path, isFile: bool) | Unreadable

  /** The queue after a scan, and whether the scan got to the end of the
      listing without an error. */
  datatype Scan = Scan(paths: seq<Path>, complete: bool)

  /** A path passes the filter when it has an extension the filter accepts:
      its file name is its stem followed by `.hkx` or `.xml`. */
  predicate Accepted(filter: InputFileExtension, p: Path) {
    Extension(p).Some? && ExtensionAccepted(filter, Extension(p).value)
  }

  /** An accepted path names a file whose name is its stem followed by
      `.hkx` or `.xml`, the one the filter lets through. */
  lemma AcceptedNames(filter: InputFileExtension, p: Path)
    requires Accepted(filter, p)
    ensures FileName(p).Some?
    ensures filter != XmlOnly ==> FileName(p).value == FileStem(p).value + ".hkx" || FileName(p).value == FileStem(p).value + ".xml"
    ensures filter == HkxOnly ==> FileName(p).value == FileStem(p).value + ".hkx"
    ensures filter == XmlOnly ==> FileName(p).value == FileStem(p).value + ".xml"
  {
  }

  /** Conversely, a file named `stem.hkx` or `stem.xml` passes every filter
      that accepts its extension, and `stem` is its stem. */
  lemma NamedFilesAccepted(filter: InputFileExtension, p: Path, stem: string, ext: string)
    requires stem != "" && FileName(p) == Some(stem + "." + ext)
    requires ExtensionAccepted(filter, ext)
    ensures Accepted(filter, p)
    ensures FileStem(p) == Some(stem) && Extension(p) == Some(ext)
  {
    assert '.' !in ext;
    SplitJoinedName(stem, ext);
  }

  predicate NoDuplicates<T(==)>(s: seq<T>) {
    forall i, j :: 0 <= i < j < |s| ==> s[i] != s[j]
  }

  /** `a` is `b` with some elements left out. */
  predicate IsSubsequence<T(==)>(a: seq<T>, b: seq<T>) {
    a == [] || (b != [] && ((a[0] == b[0] && IsSubsequence(a[1..], b[1..])) || IsSubsequence(a, b[1..])))
  }

  /** Reference: the files of the listing that pass the filter, in listing
      order, up to the first unreadable entry. */
  function Candidates(filter: InputFileExtension, listing: seq<DirEntry>): seq<Path> {
    if listing == [] then []
    else match listing[0]
      case Unreadable => []
      case Entry(p, isFile) =>
        (if isFile && Accepted(filter, p) then [p] else []) + Candidates(filter, listing[1..])
  }

  /** The scan loop: each listed regular file whose extension passes the
      filter is appended unless the queue already holds it; an unreadable
      entry ends the scan with an error, keeping what was appended so far. */
  function AddListed(paths: seq<Path>, filter: InputFileExtension, listing: seq<DirEntry>): (r: Scan)
    ensures paths <= r.paths
    ensures r.complete <==> Unreadable !in listing
    ensures forall j :: |paths| <= j < |r.paths| ==> r.paths[j] !in paths
    decreases |listing|
  {
    if listing == [] then Scan(paths, true)
    else match listing[0]
      case Unreadable => Scan(paths, false)
      case Entry(p, isFile) =>
        assert listing == [listing[0]] + listing[1..];
        if isFile && Accepted(filter, p) && p !in paths then
          AddListed(paths + [p], filter, listing[1..])
        else
          AddListed(paths, filter, listing[1..])
  }

  /** After a scan the queue holds exactly what it held before plus the
      accepted files listed before the first unreadable entry. */
  lemma {:induction false} AddListedMembers(paths: seq<Path>, filter: InputFileExtension, listing: seq<DirEntry>)
    ensures forall p :: p in AddListed(paths, filter, listing).paths <==> p in paths || p in Candidates(filter, listing)
    decreases |listing|
  {
    if listing != [] && listing[0].Entry? {
      var p := listing[0].path;
      if listing[0].isFile && Accepted(filter, p) && p !in paths {
        AddListedMembers(paths + [p], filter, listing[1..]);
      } else {
        AddListedMembers(paths, filter, listing[1..]);
      }
    }
  }

  /** A scan never appends a path twice. */
  lemma {:induction false} AddedPathsDistinct(paths: seq<Path>, filter: InputFileExtension, listing: seq<DirEntry>)
    ensures NoDuplicates(AddListed(paths, filter, listing).paths[|paths|..])
    decreases |listing|
  {
    if listing != [] && listing[0].Entry? {
      var p, tail := listing[0].path, listing[1..];
      if listing[0].isFile && Accepted(filter, p) && p !in paths {
        var q := paths + [p];
        assert AddListed(paths, filter, listing) == AddListed(q, filter, tail);
        AddedPathsDistinct(q, filter, tail);
        NewPathThenDistinct(paths, p, AddListed(q, filter, tail).paths);
      } else {
        AddedPathsDistinct(paths, filter, tail);
      }
    }
  }

  /** A queue that grew by a new path and then by distinct paths other than
      the ones it held grew by distinct paths. */
  lemma NewPathThenDistinct(paths: seq<Path>, p: Path, grown: seq<Path>)
    requires p !in paths && paths + [p] <= grown
    requires forall j :: |paths| + 1 <= j < |grown| ==> grown[j] !in paths + [p]
    requires NoDuplicates(grown[|paths| + 1..])
    ensures NoDuplicates(grown[|paths|..])
  {
    var later := grown[|paths| + 1..];
    assert grown[|paths|..] == [p] + later by {
      assert grown[|paths|] == (paths + [p])[|paths|];
    }
    assert p !in later by {
      forall k | 0 <= k < |later| ensures later[k] != p {
        assert later[k] == grown[|paths| + 1 + k];
      }
    }
    PrependNewKeepsDistinct(p, later);
  }

  /** Putting an element that does not occur in front of a duplicate-free
      sequence keeps it duplicate-free. */
  lemma PrependNewKeepsDistinct<T>(x: T, s: seq<T>)
    requires NoDuplicates(s) && x !in s
    ensures NoDuplicates([x] + s)
  {
    forall i, j | 0 <= i < j < |[x] + s| ensures ([x] + s)[i] != ([x] + s)[j] {
      if i == 0 {
        assert ([x] + s)[j] == s[j - 1];
      } else {
        assert ([x] + s)[i] == s[i - 1] && ([x] + s)[j] == s[j - 1];
      }
    }
  }

  /** A scan never appends a path twice, so a queue without duplicates keeps
      none. */
  lemma AddListedNoDuplicates(paths: seq<Path>, filter: InputFileExtension, listing: seq<DirEntry>)
    ensures NoDuplicates(AddListed(paths, filter, listing).paths[|paths|..])
    ensures NoDuplicates(paths) ==> NoDuplicates(AddListed(paths, filter, listing).paths)
  {
    var r := AddListed(paths, filter, listing);
    var added := r.paths[|paths|..];
    AddedPathsDistinct(paths, filter, listing);
    if NoDuplicates(paths) {
      forall i, j | 0 <= i < j < |r.paths| ensures r.paths[i] != r.paths[j] {
        if j < |paths| {
          assert r.paths[i] == paths[i] && r.paths[j] == paths[j];
        } else if i < |paths| {
          assert r.paths[i] == paths[i];
        } else {
          assert r.paths[i] == added[i - |paths|] && r.paths[j] == added[j - |paths|];
        }
      }
    }
  }

  /** The appended paths come in the order the listing names them. */
  lemma {:induction false} AddListedKeepsListingOrder(paths: seq<Path>, filter: InputFileExtension, listing: seq<DirEntry>)
    ensures IsSubsequence(AddListed(paths, filter, listing).paths[|paths|..], Candidates(filter, listing))
    decreases |listing|
  {
    var r := AddListed(paths, filter, listing);
    if listing != [] && listing[0].Entry? {
      var p := listing[0].path;
      var rest := listing[1..];
      if listing[0].isFile && Accepted(filter, p) {
        assert Candidates(filter, listing) == [p] + Candidates(filter, rest);
        assert Candidates(filter, listing)[1..] == Candidates(filter, rest);
        if p !in paths {
          AddListedKeepsListingOrder(paths + [p], filter, rest);
          assert r.paths[|paths|..][1..] == r.paths[|paths| + 1..];
        } else {
          AddListedKeepsListingOrder(paths, filter, rest);
        }
      } else {
        assert Candidates(filter, listing) == Candidates(filter, rest);
        AddListedKeepsListingOrder(paths, filter, rest);
      }
    }
  }

  /** `add_files_from_folder` with the folder's listing: the queue grows as
      `AddListed` says and no other setting changes. The boolean is whether
      the scan returned `Ok`. */
  function AddFilesFromFolder(app: HkxToolsApp, listing: seq<DirEntry>): (r: (HkxToolsApp, bool))
    ensures r.0 == app.(inputPaths := r.0.inputPaths)
    ensures app.inputPaths <= r.0.inputPaths
    ensures NoDuplicates(app.inputPaths) ==> NoDuplicates(r.0.inputPaths)
    ensures forall p :: p in r.0.inputPaths <==> p in app.inputPaths || p in Candidates(app.inputFileExtension, listing)
    ensures r.1 <==> Unreadable !in listing
  {
    var scan := AddListed(app.inputPaths, app.inputFileExtension, listing);
    AddListedMembers(app.inputPaths, app.inputFileExtension, listing);
    AddListedNoDuplicates(app.inputPaths, app.inputFileExtension, listing);
    (app.(inputPaths := scan.paths), scan.complete)
  }
}
