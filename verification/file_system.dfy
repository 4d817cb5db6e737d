/**
 * The filesystem as seen by the directory hashers: an immutable tree whose
 * nodes carry what `fs.readdir`, `fs.stat` and a read stream would report.
 *
 * A path is the sequence of names from the filesystem root, so
 * `path.join(dir, name)` and `path.resolve` of it are both `dir + [name]`
 * (directory listings never contain "." or ".." or a separator).
 */
module FileSystem {
  import opened Wrappers

  newtype byte = x: int | 0 <= x < 256

  type Bytes = seq<byte>

  type Path = seq<string>

  /**
   * One directory entry, as `fs.stat` classifies it.
   *  - `stat`: `Some(mtimeMs)` when `fs.stat` succeeds, `None` when it throws.
   *  - `stream`: the bytes a read stream over the entry delivers, `None` when
   *    the stream emits an error.  Reading a directory fails with EISDIR on
   *    Linux and macOS, so there a directory's `stream` is `None`.
   *  - `listOk`: whether `fs.readdir` succeeds; `listing` is what it returns.
   * `Special` covers everything that is neither a file nor a directory
   * (sockets, FIFOs, devices).
   */
  datatype Node =
    | File(name: string, stat: Option<int>, stream: Option<Bytes>)
    | Dir(name: string, stat: Option<int>, stream: Option<Bytes>, listOk: bool, listing: seq<Node>)
    | Special(name: string, stat: Option<int>, stream: Option<Bytes>)

  /** `fs.readdir` never reports the same name twice in one directory. */
  predicate DistinctNames(kids: seq<Node>) {
    forall i, j :: 0 <= i < j < |kids| ==> kids[i].name != kids[j].name
  }

  /** Every listing in the tree has distinct names. */
  predicate WellFormed(n: Node)
    decreases n, 1
  {
    n.Dir? && n.listOk ==> AllWellFormed(n.listing)
  }

  predicate AllWellFormed(kids: seq<Node>)
    decreases kids, 0
  {
    && DistinctNames(kids)
    && forall i :: 0 <= i < |kids| ==> WellFormed(kids[i])
  }

  /** `p` lies in the subtree rooted at `dir` (including `dir` itself). */
  predicate Within(dir: Path, p: Path) {
    |dir| <= |p| && p[..|dir|] == dir
  }

  /** `p` lies strictly below `dir`. */
  predicate StrictlyWithin(dir: Path, p: Path) {
    Within(dir, p) && |p| > |dir|
  }

  /** The subtree of the entry `name` of `dir` is the part of the subtree of `dir` continuing with `name`. */
  lemma ChildWithin(dir: Path, name: string, p: Path)
    ensures Within(dir + [name], p) <==> StrictlyWithin(dir, p) && p[|dir|] == name
  {
    if Within(dir + [name], p) {
      assert p[..|dir|] == p[..|dir| + 1][..|dir|];
    }
    if StrictlyWithin(dir, p) && p[|dir|] == name {
      assert p[..|dir| + 1] == p[..|dir|] + [p[|dir|]];
    }
  }

  function LowerChar(c: char): char {
    if 'A' <= c <= 'Z' then (c as int + 32) as char else c
  }

  /** `String.prototype.toLowerCase` restricted to ASCII letters. */
  function Lower(s: string): (r: string)
    ensures |r| == |s|
    ensures forall i :: 0 <= i < |s| ==> r[i] == LowerChar(s[i])
  {
    seq(|s|, i requires 0 <= i < |s| => LowerChar(s[i]))
  }

  /** The index of the last occurrence of `c` in `s`. */
  function LastIndexOf(s: string, c: char): (r: Option<nat>)
    ensures r.Some? ==> r.value < |s| && s[r.value] == c
                        && forall j :: r.value < j < |s| ==> s[j] != c
    ensures r.None? ==> forall j :: 0 <= j < |s| ==> s[j] != c
  {
    if |s| == 0 then None
    else if s[|s| - 1] == c then Some(|s| - 1)
    else LastIndexOf(s[..|s| - 1], c)
  }

  /**
   * `path.extname` of a single name (POSIX rules): from the last "." to the
   * end, unless no "." follows the first character or the name is "..".
   */
  function Extname(name: string): (r: string)
    ensures r != "" <==> (exists i :: 0 < i < |name| && name[i] == '.') && name != ".."
    ensures r != "" ==> exists i :: 0 < i < |name| && name[i] == '.' && r == name[i..]
                                    && forall j :: i < j < |name| ==> name[j] != '.'
  {
    match LastIndexOf(name, '.')
    case None => ""
    case Some(i) =>
      if i == 0 || name == ".." then ""
      else
        assert name[i..] != "";
        name[i..]
  }
}
