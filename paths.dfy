/**
 * The parts of std::path that the store relies on: a path as the list of its
 * components (so that two paths are equal exactly when Path's `==` says so),
 * `parent`, `file_name`, `file_stem`, `set_extension` and `join`.
 * Windows prefixes are not modelled; the root directory is the `absolute` flag.
 */
module Paths {
  import opened Wrappers

  /** The text of a normal component: never empty, no separator, not "." or "..". */
  type FileName = s: string | s != "" && '/' !in s && s != "." && s != ".." witness "a"

  /** std::path::Component without the root (see Path.absolute) and without prefixes. */
  datatype Part = Cur | Up | Name(name: FileName)

  datatype Path = Path(absolute: bool, parts: seq<Part>)

  /** The empty relative path "", which names no file. */
  const Empty: Path := Path(false, [])

  /** Path::parent: None exactly for "" and "/". */
  function Parent(p: Path): (r: Option<Path>)
    ensures r.None? <==> p.parts == []
    ensures r.Some? ==> r.value.absolute == p.absolute && r.value.parts + [p.parts[|p.parts| - 1]] == p.parts
  {
    if p.parts == [] then None else Some(Path(p.absolute, p.parts[..|p.parts| - 1]))
  }

  /** Path::file_name: the last component when it is a normal one. */
  function FileNameOf(p: Path): (r: Option<FileName>)
    ensures r.None? <==> p.parts == [] || !p.parts[|p.parts| - 1].Name?
    ensures r.Some? ==> p.parts != [] && p.parts[|p.parts| - 1] == Name(r.value)
  {
    if p.parts != [] && p.parts[|p.parts| - 1].Name? then Some(p.parts[|p.parts| - 1].name) else None
  }

  /** The index of the last '.' in `s`, if there is one. */
  function LastDot(s: string): (r: Option<nat>)
    ensures r.None? ==> '.' !in s
    ensures r.Some? ==> r.value < |s| && s[r.value] == '.' && '.' !in s[r.value + 1..]
  {
    if s == [] then None
    else if s[|s| - 1] == '.' then Some(|s| - 1)
    else
      var r := LastDot(s[..|s| - 1]);
      assert s == s[..|s| - 1] + [s[|s| - 1]];
      assert r.Some? ==> s[r.value + 1..] == s[..|s| - 1][r.value + 1..] + [s[|s| - 1]];
      r
  }

  /**
   * Path::file_stem of a file name: the part before the last dot, unless there
   * is no dot or the only text before it is empty (".bashrc"), when it is the
   * whole name. What follows the stem is either nothing or a dot and a dot-free
   * extension.
   */
  function FileStem(name: FileName): (stem: string)
    ensures stem != [] && '/' !in stem
    ensures stem == name
         || (|stem| < |name| && name[..|stem|] == stem && name[|stem|] == '.' && '.' !in name[|stem| + 1..])
    ensures (exists i | 0 < i < |name| :: name[i] == '.') ==> stem != name
  {
    match LastDot(name)
    case None => name
    case Some(i) =>
      if i == 0 then name
      else
        assert forall j | 0 <= j < i :: name[..i][j] == name[j];
        name[..i]
  }

  /**
   * PathBuf::set_extension with a non-empty extension free of separators:
   * a path without a file name is left as it is; otherwise the last component
   * becomes the stem, a dot and the extension.
   */
  function SetExtension(p: Path, ext: string): (q: Path)
    requires ext != [] && '/' !in ext
    ensures FileNameOf(p).None? ==> q == p
    ensures FileNameOf(p).Some? ==>
              Parent(q) == Parent(p) && FileNameOf(q) == Some(FileStem(FileNameOf(p).value) + "." + ext)
  {
    match FileNameOf(p)
    case None => p
    case Some(name) =>
      var stem := FileStem(name);
      var renamed := stem + "." + ext;
      assert |renamed| >= 3;
      assert forall j | 0 <= j < |renamed| :: renamed[j] != '/' by {
        forall j | 0 <= j < |renamed| ensures renamed[j] != '/' {
          if j < |stem| { assert renamed[j] == stem[j]; }
          else if j > |stem| { assert renamed[j] == ext[j - |stem| - 1]; }
        }
      }
      Path(p.absolute, p.parts[..|p.parts| - 1] + [Name(renamed)])
  }

  /** str::split('/'), continuing with `seg` as the segment read so far. */
  function SplitFrom(s: string, seg: string): (r: seq<string>)
    requires '/' !in seg
    ensures |r| > 0 && forall i | 0 <= i < |r| :: '/' !in r[i]
    decreases |s|
  {
    if s == [] then [seg]
    else if s[0] == '/' then [seg] + SplitFrom(s[1..], [])
    else SplitFrom(s[1..], seg + [s[0]])
  }

  /** The components of separator-free segments: "" and "." vanish, ".." is Up. */
  function PartsOf(segs: seq<string>): seq<Part>
    requires forall i | 0 <= i < |segs| :: '/' !in segs[i]
  {
    if segs == [] then []
    else
      var seg := segs[0];
      (if seg == "" || seg == "." then [] else if seg == ".." then [Up] else [Name(seg)])
      + PartsOf(segs[1..])
  }

  /** Path::new(s).components(): a leading "." is kept as Cur, as std does. */
  function ParsePath(s: string): Path
  {
    var segs := SplitFrom(s, []);
    var absolute := |s| > 0 && s[0] == '/';
    var lead := if !absolute && segs[0] == "." then [Cur] else [];
    Path(absolute, lead + PartsOf(segs))
  }

  /** Path::join: an absolute `s` replaces `dir`; otherwise its components follow those of `dir`. */
  function Join(dir: Path, s: string): (r: Path)
    ensures |s| > 0 && s[0] == '/' ==> r.absolute
    ensures !(|s| > 0 && s[0] == '/') && dir != Empty ==>
              r.absolute == dir.absolute && |dir.parts| <= |r.parts| && r.parts[..|dir.parts|] == dir.parts
  {
    if |s| > 0 && s[0] == '/' then ParsePath(s)
    else if dir == Empty then ParsePath(s)
    else Path(dir.absolute, dir.parts + PartsOf(SplitFrom(s, [])))
  }

  lemma {:induction false} SplitWithoutSeparator(s: string, seg: string)
    requires '/' !in seg && '/' !in s
    ensures SplitFrom(s, seg) == [seg + s]
    decreases |s|
  {
    if s == [] {
      assert seg + s == seg;
    } else {
      assert s[0] in s && s == [s[0]] + s[1..];
      SplitWithoutSeparator(s[1..], seg + [s[0]]);
      assert seg + [s[0]] + s[1..] == seg + s;
    }
  }

  /** Joining a single file name appends exactly one component. */
  lemma JoinName(dir: Path, name: FileName)
    ensures Join(dir, name) == Path(dir.absolute, dir.parts + [Name(name)])
  {
    SplitWithoutSeparator(name, []);
    var segs := SplitFrom(name, []);
    assert segs == [name] by { assert [] + name == name; }
    assert PartsOf(segs) == [Name(name)] by { assert segs[1..] == []; }
    assert name[0] != '/' by { assert name[0] in name; }
  }
}
