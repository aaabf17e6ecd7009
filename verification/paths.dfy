/** Filesystem paths as sequences of components, with the handful of
    `std::path::Path` operations the converter uses: `parent`, `file_name`,
    `file_stem`, `extension`, `starts_with`, `strip_prefix` and `join`.

    A path is the list of its components, so `a/b/c.hkx` is `["a", "b", "c.hkx"]`.
    Every path of the model hangs from one shared root (or all are relative):
    the root marker and drive prefixes are not represented, and the empty
    sequence stands for the root (or for the empty relative path).

    Paths are normalized the way `Path::components` reads them: empty and
    `.` components are dropped, so a component is never empty, never `.`,
    and never holds a separator. The program is a Windows tool, where both
    `/` and `\` separate components. */
module Paths {
  import opened Wrappers

  /** A character that separates path components on Windows. */
  predicate IsSeparator(c: char) {
    c == '/' || c == '\\'
  }

  /** The text holds no separator. */
  predicate NoSeparator(s: string) {
    '/' !in s && '\\' !in s
  }

  /** What `Path::components` can yield for a relative path: a non-empty
      name other than `.`, without separators (`..` included). */
  predicate ValidComponent(s: string) {
    s != "" && s != "." && NoSeparator(s)
  }

  type Component = s: string | ValidComponent(s) witness "a"
  type Path = seq<Component>

  /** `Path::parent`: everything but the last component; none for the root. */
  function Parent(p: Path): (r: Option<Path>)
    ensures r.None? <==> p == []
    ensures r.Some? ==> r.value <= p && |r.value| + 1 == |p|
  {
    if p == [] then None else Some(p[..|p| - 1])
  }

  /** `Path::file_name`: the last component, unless the path is the root or
      ends in a `..` component. (A `.` component cannot occur: see above.) */
  function FileName(p: Path): (r: Option<string>)
    ensures r.Some? <==> p != [] && p[|p| - 1] != ".."
    ensures r.Some? ==> r.value == p[|p| - 1]
  {
    if p == [] || p[|p| - 1] == ".." then None
    else Some(p[|p| - 1])
  }

  /** Position of the last occurrence of `c` in `s`. */
  function LastIndexOf(s: string, c: char): (r: Option<nat>)
    ensures r.None? <==> c !in s
    ensures r.Some? ==> r.value < |s| && s[r.value] == c
    ensures r.Some? ==> forall j :: r.value < j < |s| ==> s[j] != c
  {
    if s == [] then None
    else if s[|s| - 1] == c then Some(|s| - 1)
    else
      var r := LastIndexOf(s[..|s| - 1], c);
      assert c in s ==> c in s[..|s| - 1] by {
        if c in s {
          var k :| 0 <= k < |s| && s[k] == c;
          assert s[..|s| - 1][k] == c;
        }
      }
      r
  }

  /** Splits a file name into its stem and its extension at the last dot,
      as Rust's `rsplit_file_at_dot` does: `..` and names whose only dot is
      the leading one (`.profile`) have no extension. */
  function SplitFileAtDot(file: string): (r: (string, Option<string>))
    ensures r.1.None? ==> r.0 == file
    ensures r.1.None? <==> file == ".." || forall j :: 0 < j < |file| ==> file[j] != '.'
    ensures r.1.Some? ==> file == r.0 + "." + r.1.value
    ensures r.1.Some? ==> r.0 != "" && '.' !in r.1.value
  {
    if file == ".." then (file, None)
    else
      match LastIndexOf(file, '.')
      case None => (file, None)
      case Some(i) =>
        if i == 0 then (file, None)
        else
          var stem, ext := file[..i], file[i + 1..];
          assert file == stem + "." + ext;
          assert '.' !in ext by {
            forall k | 0 <= k < |ext| ensures ext[k] != '.' {
              assert ext[k] == file[i + 1 + k];
            }
          }
          (stem, Some(ext))
  }

  /** `Path::file_stem`: the file name without its extension. It is a
      non-empty leading part of the file name, so it holds no separator, and
      it is the whole file name exactly when no dot follows the first
      character. */
  function FileStem(p: Path): (r: Option<string>)
    ensures r.Some? <==> FileName(p).Some?
    ensures r.Some? ==> r.value != "" && r.value <= FileName(p).value && NoSeparator(r.value)
    ensures r.Some? ==>
      (r.value == FileName(p).value <==> forall j :: 0 < j < |FileName(p).value| ==> FileName(p).value[j] != '.')
  {
    match FileName(p)
    case None => None
    case Some(name) =>
      var stem := SplitFileAtDot(name).0;
      assert stem <= name;
      assert NoSeparator(stem) by {
        assert stem == name[..|stem|];
      }
      Some(stem)
  }

  /** `Path::extension`: the text after the last dot of the file name, if a
      dot follows its first character; the stem, a dot and the extension
      make up the whole file name. */
  function Extension(p: Path): (r: Option<string>)
    ensures r.Some? <==> FileName(p).Some? && exists j :: 0 < j < |FileName(p).value| && FileName(p).value[j] == '.'
    ensures r.Some? ==> FileName(p).Some? && FileName(p).value == FileStem(p).value + "." + r.value
    ensures r.Some? ==> '.' !in r.value
  {
    match FileName(p)
    case None => None
    case Some(name) => SplitFileAtDot(name).1
  }

  /** `Path::strip_prefix`: what is left of `p` after the leading components
      `base`; none when `p` does not start with `base`. */
  function StripPrefix(p: Path, base: Path): (r: Option<Path>)
    ensures r.Some? <==> base <= p
    ensures r.Some? ==> base + r.value == p
  {
    if base <= p then Some(p[|base|..]) else None
  }

  /** `Path::join` of a relative path onto `base`. */
  function Join(base: Path, rel: Path): (r: Path)
    ensures base <= r
    ensures StripPrefix(r, base) == Some(rel)
  {
    base + rel
  }

  /** Both `a` and `b` go on past depth `n`, and with the same component. */
  predicate SharesComponentAt(a: Path, b: Path, n: nat) {
    n < |a| && n < |b| && a[n] == b[n]
  }

  /** The deepest directory that both `a` and `b` lie in: their longest
      common run of leading components. */
  function LongestCommonPrefix(a: Path, b: Path): (r: Path)
    ensures r <= a && r <= b
    ensures !SharesComponentAt(a, b, |r|)
  {
    if a == [] || b == [] || a[0] != b[0] then []
    else [a[0]] + LongestCommonPrefix(a[1..], b[1..])
  }

  /** The pieces of a text between its separators, empty pieces included:
      `a//b/` gives `a`, ``, `b`, ``. */
  function SplitAtSeparators(s: string): (r: seq<string>)
    ensures |r| >= 1
    ensures forall i :: 0 <= i < |r| ==> NoSeparator(r[i])
    ensures s != [] && !IsSeparator(s[0]) ==> r[0] != ""
  {
    if s == [] then [""]
    else
      var rest := SplitAtSeparators(s[1..]);
      if IsSeparator(s[0]) then [""] + rest
      else
        assert NoSeparator([s[0]] + rest[0]);
        [[s[0]] + rest[0]] + rest[1..]
  }

  /** The pieces that `Path::components` keeps: empty and `.` pieces drop out. */
  function KeepComponents(pieces: seq<string>): (r: seq<Component>)
    ensures forall x: string :: x in r <==> x in pieces && ValidComponent(x)
    ensures |r| <= |pieces|
  {
    if pieces == [] then []
    else
      var rest := KeepComponents(pieces[1..]);
      assert forall x :: x in pieces <==> x == pieces[0] || x in pieces[1..];
      if ValidComponent(pieces[0]) then var c: Component := pieces[0]; [c] + rest else rest
  }

  /** `Path::new(s).components()` for a relative path written as text. */
  function Components(s: string): (r: Path)
    ensures forall x: string :: x in r <==> x in SplitAtSeparators(s) && ValidComponent(x)
  {
    KeepComponents(SplitAtSeparators(s))
  }

  /** Renders a path as the single string handed to an external program. */
  function Display(p: Path): string {
    if p == [] then "" else if |p| == 1 then p[0] else Display(p[..|p| - 1]) + "/" + p[|p| - 1]
  }

  /** Any common prefix of `a` and `b` is a prefix of their longest one. */
  lemma LongestCommonPrefixIsLongest(a: Path, b: Path, q: Path)
    requires q <= a && q <= b
    ensures q <= LongestCommonPrefix(a, b)
  {
  }

  /** Stripping a prefix and joining it back gives the original path. */
  lemma StripThenJoin(p: Path, base: Path)
    requires base <= p
    ensures StripPrefix(p, base).Some?
    ensures Join(base, StripPrefix(p, base).value) == p
  {
  }

  /** The extension Rust reads back from `stem.ext` is `ext`, and its stem is
      `stem`, whenever `stem` is non-empty and `ext` is a non-empty dot-free word. */
  lemma SplitJoinedName(stem: string, ext: string)
    requires stem != "" && ext != "" && '.' !in ext
    ensures SplitFileAtDot(stem + "." + ext) == (stem, Some(ext))
  {
    var name := stem + "." + ext;
    assert name[|stem|] == '.';
    var last := LastIndexOf(name, '.');
    assert '.' in name;
    assert last.value == |stem|;
    assert name[..|stem|] == stem;
    assert name[|stem| + 1..] == ext;
  }

  /** A leading run without separators joins the first piece of what
      follows it. */
  lemma {:induction false} SplitAfterPlain(x: string, t: string)
    requires NoSeparator(x)
    ensures SplitAtSeparators(x + t) == [x + SplitAtSeparators(t)[0]] + SplitAtSeparators(t)[1..]
  {
    var pieces := SplitAtSeparators(t);
    if x == [] {
      assert x + t == t && x + pieces[0] == pieces[0];
      assert pieces == [pieces[0]] + pieces[1..];
    } else {
      var x' := x[1..];
      assert x == [x[0]] + x';
      SplitAfterPlain(x', t);
      assert (x + t)[0] == x[0] && !IsSeparator(x[0]);
      assert (x + t)[1..] == x' + t;
      assert [x[0]] + (x' + SplitAtSeparators(t)[0]) == x + SplitAtSeparators(t)[0];
    }
  }

  /** A separator ends a piece: what follows it starts afresh. */
  lemma SplitAtSeparator(c: char, t: string)
    requires IsSeparator(c)
    ensures SplitAtSeparators([c] + t) == [""] + SplitAtSeparators(t)
  {
    assert ([c] + t)[1..] == t;
  }

  /** A character other than a separator joins the first piece of what
      follows it. */
  lemma SplitPlainHead(x: char, t: string)
    requires !IsSeparator(x)
    ensures SplitAtSeparators([x] + t) == [[x] + SplitAtSeparators(t)[0]] + SplitAtSeparators(t)[1..]
  {
    assert ([x] + t)[1..] == t;
  }

  /** A text without separators is a single piece. */
  lemma SplitPlain(s: string)
    requires NoSeparator(s)
    ensures SplitAtSeparators(s) == [s]
  {
    SplitAfterPlain(s, "");
    assert s + "" == s;
  }

  /** A valid component read as a path is that one component. */
  lemma ComponentsOfComponent(s: string)
    requires ValidComponent(s)
    ensures Components(s) == [s]
  {
    SplitPlain(s);
    assert [s][1..] == [];
  }

  /** A separator splits the text around it: the pieces of the text before
      it, then the pieces of the text after it. Together with `SplitPlain`
      this fixes the pieces of every text, in order. */
  lemma {:induction false} SplitAtSeparatorsAround(a: string, c: char, b: string)
    requires IsSeparator(c)
    ensures SplitAtSeparators(a + [c] + b) == SplitAtSeparators(a) + SplitAtSeparators(b)
    decreases |a|
  {
    if a == [] {
      assert a + [c] + b == [c] + b;
      SplitAtSeparator(c, b);
    } else {
      var x, rest := a[0], a[1..];
      assert a == [x] + rest;
      SplitAtSeparatorsAround(rest, c, b);
      SplitAroundStep(x, rest, c, b);
    }
  }

  /** The step of `SplitAtSeparatorsAround`: one more character in front. */
  lemma SplitAroundStep(x: char, rest: string, c: char, b: string)
    requires IsSeparator(c)
    requires SplitAtSeparators(rest + [c] + b) == SplitAtSeparators(rest) + SplitAtSeparators(b)
    ensures SplitAtSeparators([x] + rest + [c] + b) == SplitAtSeparators([x] + rest) + SplitAtSeparators(b)
  {
    assert [x] + rest + [c] + b == [x] + (rest + [c] + b);
    if IsSeparator(x) {
      SplitAtSeparator(x, rest + [c] + b);
      SplitAtSeparator(x, rest);
    } else {
      SplitPlainHead(x, rest + [c] + b);
      SplitPlainHead(x, rest);
      PlainHeadAppend(x, SplitAtSeparators(rest), SplitAtSeparators(b));
    }
  }

  /** Joining a character to the first of a run of pieces commutes with
      appending further pieces. */
  lemma PlainHeadAppend(x: char, front: seq<string>, back: seq<string>)
    requires front != []
    ensures [[x] + (front + back)[0]] + (front + back)[1..] == [[x] + front[0]] + front[1..] + back
  {
    assert (front + back)[0] == front[0];
    assert (front + back)[1..] == front[1..] + back;
  }

  /** Dropping pieces works piece by piece and keeps their order: the
      components of two runs of pieces are those of the first, then those of
      the second. */
  lemma {:induction false} KeepComponentsAppend(a: seq<string>, b: seq<string>)
    ensures KeepComponents(a + b) == KeepComponents(a) + KeepComponents(b)
    decreases |a|
  {
    if a != [] {
      assert (a + b)[0] == a[0] && (a + b)[1..] == a[1..] + b;
      KeepComponentsAppend(a[1..], b);
    } else {
      assert a + b == b;
    }
  }

  /** A single piece is kept exactly when it is a valid component. */
  lemma KeepComponentsSingle(x: string)
    ensures KeepComponents([x]) == if ValidComponent(x) then [x] else []
  {
    assert [x][1..] == [];
  }

  /** A separator splits the components of a path text, in order: those
      before it, then those after it. */
  lemma ComponentsAround(a: string, c: char, b: string)
    requires IsSeparator(c)
    ensures Components(a + [c] + b) == Components(a) + Components(b)
  {
    SplitAtSeparatorsAround(a, c, b);
    KeepComponentsAppend(SplitAtSeparators(a), SplitAtSeparators(b));
  }

  /** Components drop out or stay one by one: a valid leading piece stays
      in front of the components of the rest. */
  lemma KeepValidFirst(first: string, rest: seq<string>)
    requires ValidComponent(first)
    ensures KeepComponents([first] + rest) == [first] + KeepComponents(rest)
  {
    assert ([first] + rest)[1..] == rest;
  }
}
