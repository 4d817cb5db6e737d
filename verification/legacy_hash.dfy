/**
 * The older directory digest `hashDirectory(dirPath)` and its file hash
 * `hashFile(filePath)` of src/modules/hash.ts.
 *
 * It has no options: every subdirectory is descended into (there is no
 * ignore set), a non-directory is hashed when its name ends in `.ts` or
 * `.js` in any letter case, the algorithm is always md5, entries are
 * visited one after another, and no error is wrapped.
 */
module LegacyHash {
  import opened Wrappers
  import opened FileSystem
  import opened Digest
  import opened HashOptions
  import HashDir

  const Md5: string := "md5"

  /** `/\.(ts|js)$/i.test(name)`: the name ends in ".ts" or ".js", ignoring ASCII letter case. */
  predicate MatchesTsJs(name: string) {
    |name| >= 3 && (Lower(name[|name| - 3..]) == ".ts" || Lower(name[|name| - 3..]) == ".js")
  }

  /** The pattern read character by character: a dot, then `t` or `j`, then `s`, at the end, in either case. */
  lemma MatchesTsJsByCharacter(name: string)
    ensures MatchesTsJs(name) <==> && |name| >= 3
                                   && name[|name| - 3] == '.'
                                   && name[|name| - 2] in {'t', 'T', 'j', 'J'}
                                   && name[|name| - 1] in {'s', 'S'}
  {
  }

  /**
   * `hashFile(filePath)`: `createHash('md5')` is called before the stream is
   * opened and its failure is not wrapped; a stream error rejects.
   */
  function LegacyHashFile(c: Crypto, path: Path, n: Node): (r: Result<string, Error>)
    ensures !c.supports(Md5) ==> r == Err(CreateHashFailed(Md5))
    ensures c.supports(Md5) && n.stream.None? ==> r == Err(StreamFailed(path))
    ensures r.Ok? <==> c.supports(Md5) && n.stream.Some?
    ensures r.Ok? ==> r.value == c.digest(Md5, n.stream.value)
  {
    if !c.supports(Md5) then Err(CreateHashFailed(Md5))
    else if n.stream.None? then Err(StreamFailed(path))
    else Ok(c.digest(Md5, n.stream.value))
  }

  /**
   * The two file hashes read the same bytes and differ only in how an
   * unsupported algorithm is reported.
   */
  lemma FileHashesAgree(c: Crypto, path: Path, n: Node)
    ensures HashFile(c, path, Md5, n).Ok? <==> LegacyHashFile(c, path, n).Ok?
    ensures HashFile(c, path, Md5, n).Ok? ==> HashFile(c, path, Md5, n) == LegacyHashFile(c, path, n)
    ensures !c.supports(Md5) ==>
              HashFile(c, path, Md5, n) == Err(HashFileFailed(path)) && LegacyHashFile(c, path, n) == Err(CreateHashFailed(Md5))
  {
  }

  /** `hashDirectory(path)`; `n` is what `path` names. */
  function LegacyHash(c: Crypto, path: Path, n: Node): (r: Result<string, Error>)
    // A listing failure propagates unwrapped.
    ensures !(n.Dir? && n.listOk) ==> r == Err(RawReadDirFailed(path))
    ensures r.Ok? ==> c.supports(Md5)
    decreases n, 0
  {
    if !(n.Dir? && n.listOk) then Err(RawReadDirFailed(path))
    else
      match LegacyKids(c, path, n.listing)
      case Err(e) => Err(e)
      case Ok(pairs) =>
        match Combine(c, Md5, pairs)
        case None => Err(CreateHashFailed(Md5))
        case Some(h) => Ok(h)
  }

  /** The `for … of` loop over the listing: the first failing entry aborts. */
  function LegacyKids(c: Crypto, path: Path, kids: seq<Node>): (r: Result<seq<Entry>, Error>)
    ensures r.Ok? ==> forall i :: 0 <= i < |kids| ==> kids[i].stat.Some?
    decreases kids, 0
  {
    if |kids| == 0 then Ok([])
    else
      match LegacyEntry(c, path, kids[0])
      case Err(e) => Err(e)
      case Ok(v) =>
        match LegacyKids(c, path, kids[1..])
        case Err(e) => Err(e)
        case Ok(rest) =>
          assert forall i :: 1 <= i < |kids| ==> kids[i] == kids[1..][i - 1];
          Ok(if v.Some? then [Entry(kids[0].name, v.value)] + rest else rest)
  }

  /** One loop iteration: `None` when the entry is neither a directory nor a matching name. */
  function LegacyEntry(c: Crypto, path: Path, k: Node): (r: Result<Option<string>, Error>)
    // A failed `fs.stat` aborts the whole digest.
    ensures k.stat.None? ==> r == Err(RawStatFailed(path + [k.name]))
    ensures k.stat.Some? && !k.Dir? && !MatchesTsJs(k.name) ==> r == Ok(None)
    ensures r.Ok? && r.value.Some? ==> k.Dir? || MatchesTsJs(k.name)
    // Any other entry with a matching name is read and hashed, whatever kind of file it is.
    ensures k.stat.Some? && !k.Dir? && MatchesTsJs(k.name) ==>
              r == match LegacyHashFile(c, path + [k.name], k)
                   case Err(e) => Err(e)
                   case Ok(h) => Ok(Some(h))
    decreases k, 1
  {
    var p := path + [k.name];
    if k.stat.None? then Err(RawStatFailed(p))
    else if k.Dir? then
      match LegacyHash(c, p, k)
      case Err(e) => Err(e)
      case Ok(h) => Ok(Some(h))
    else if MatchesTsJs(k.name) then
      match LegacyHashFile(c, p, k)
      case Err(e) => Err(e)
      case Ok(h) => Ok(Some(h))
    else Ok(None)
  }

  // ---------------------------------------------------------------------
  // Properties.

  /** The loop fails exactly when some entry fails. */
  lemma {:induction false} LegacyKidsFail(c: Crypto, path: Path, kids: seq<Node>, i: nat)
    requires i < |kids| && LegacyEntry(c, path, kids[i]).Err?
    ensures LegacyKids(c, path, kids).Err?
    decreases i
  {
    if i > 0 && LegacyEntry(c, path, kids[0]).Ok? {
      assert kids[1..][i - 1] == kids[i];
      LegacyKidsFail(c, path, kids[1..], i - 1);
    }
  }

  /**
   * Unlike `hashDir`, which skips an entry it cannot stat, `hashDirectory`
   * fails as soon as any entry's `fs.stat` fails.
   */
  lemma StatFailureAborts(c: Crypto, path: Path, n: Node, i: nat)
    requires n.Dir? && n.listOk && i < |n.listing| && n.listing[i].stat.None?
    ensures LegacyHash(c, path, n).Err?
  {
    LegacyKidsFail(c, path, n.listing, i);
  }

  lemma {:induction false} NothingHashedCollected(c: Crypto, path: Path, kids: seq<Node>)
    requires forall i :: 0 <= i < |kids| ==> kids[i].stat.Some? && !kids[i].Dir? && !MatchesTsJs(kids[i].name)
    ensures LegacyKids(c, path, kids) == Ok([])
    decreases |kids|
  {
    if |kids| > 0 {
      assert forall i :: 1 <= i < |kids| ==> kids[1..][i - 1] == kids[i];
      NothingHashedCollected(c, path, kids[1..]);
    }
  }

  /**
   * A directory with no subdirectory and no `.ts`/`.js` entry (an empty one
   * in particular) hashes to the md5 digest of no input.
   */
  lemma NothingHashed(c: Crypto, path: Path, n: Node)
    requires n.Dir? && n.listOk
    requires forall i :: 0 <= i < |n.listing| ==> n.listing[i].stat.Some? && !n.listing[i].Dir? && !MatchesTsJs(n.listing[i].name)
    ensures c.supports(Md5) ==> LegacyHash(c, path, n) == Ok(c.digest(Md5, c.utf8("")))
    ensures !c.supports(Md5) ==> LegacyHash(c, path, n) == Err(CreateHashFailed(Md5))
  {
    NothingHashedCollected(c, path, n.listing);
  }

  /**
   * The suffix test agrees with `path.extname` except on a name that is
   * nothing but the suffix: ".ts" matches the pattern but has no extension.
   */
  lemma MatchesTsJsIsExtname(name: string)
    requires |name| != 3
    ensures MatchesTsJs(name) <==> Lower(Extname(name)) == ".ts" || Lower(Extname(name)) == ".js"
  {
    if |name| > 3 && MatchesTsJs(name) {
      var i := |name| - 3;
      assert name[i] == '.' by {
        assert Lower(name[i..])[0] == '.';
      }
      assert Extname(name) == name[i..];
    }
    if Lower(Extname(name)) == ".ts" || Lower(Extname(name)) == ".js" {
      var i :| 0 < i < |name| && name[i] == '.' && Extname(name) == name[i..];
      assert |name| - i == 3;
    }
  }

  lemma BareSuffixHasNoExtension()
    ensures MatchesTsJs(".ts") && Extname(".ts") == ""
  {
    assert Lower(".ts") == ".ts";
  }

  // ---------------------------------------------------------------------
  // Agreement with the stateless `hashDir`.

  /** The options under which `hashDir` does what `hashDirectory` does. */
  const LegacyOptions := Options([".ts", ".js"], [], None, Md5)

  /**
   * The tree avoids the two places where the filters differ: a non-file
   * entry with a matching name (hashed here, dropped by `hashDir`) and a
   * name that is just ".ts" or ".js".
   */
  predicate Comparable(n: Node)
    decreases n, 1
  {
    && (n.Special? ==> !MatchesTsJs(n.name))
    && !(|n.name| == 3 && MatchesTsJs(n.name))
    && (n.Dir? && n.listOk ==> AllComparable(n.listing))
  }

  predicate AllComparable(kids: seq<Node>)
    decreases kids, 0
  {
    forall i :: 0 <= i < |kids| ==> Comparable(kids[i])
  }

  lemma ExtAllowedUnderLegacyOptions(name: string)
    requires |name| != 3
    ensures ExtAllowed(LegacyOptions, name) <==> MatchesTsJs(name)
  {
    MatchesTsJsIsExtname(name);
    LegacyExtensions(Lower(Extname(name)));
  }

  /** The lower-cased allow-list of the legacy options is exactly ".ts" and ".js". */
  lemma LegacyExtensions(e: string)
    ensures (exists i :: 0 <= i < |LegacyOptions.ext| && Lower(LegacyOptions.ext[i]) == e) <==> e == ".ts" || e == ".js"
  {
    assert Lower(".ts") == ".ts" && Lower(".js") == ".js";
    assert LegacyOptions.ext[0] == ".ts" && LegacyOptions.ext[1] == ".js";
  }

  /**
   * Whenever `hashDirectory` succeeds on such a tree, `hashDir` with
   * extensions [".ts", ".js"], no ignored names and md5 returns the same digest.
   */
  lemma {:induction false} LegacyAgreesWithHashDir(c: Crypto, path: Path, n: Node)
    requires Comparable(n) && LegacyHash(c, path, n).Ok?
    ensures HashDir.HashDir(c, LegacyOptions, path, n) == LegacyHash(c, path, n)
    decreases n, 0
  {
    LegacyKidsAgree(c, path, n.listing);
  }

  lemma {:induction false} LegacyKidsAgree(c: Crypto, path: Path, kids: seq<Node>)
    requires AllComparable(kids) && LegacyKids(c, path, kids).Ok?
    ensures HashDir.Collect(c, LegacyOptions, path, kids) == LegacyKids(c, path, kids)
    decreases kids, 0
  {
    if |kids| > 0 {
      LegacyEntryAgrees(c, path, kids[0]);
      assert forall i :: 0 <= i < |kids[1..]| ==> kids[1..][i] == kids[i + 1];
      LegacyKidsAgree(c, path, kids[1..]);
    }
  }

  lemma {:induction false} LegacyEntryAgrees(c: Crypto, path: Path, k: Node)
    requires Comparable(k) && LegacyEntry(c, path, k).Ok?
    ensures HashDir.Contribute(c, LegacyOptions, path, k) == LegacyEntry(c, path, k)
    decreases k, 1
  {
    assert !IgnoredName(LegacyOptions, k.name);
    if k.Dir? {
      LegacyAgreesWithHashDir(c, path + [k.name], k);
    } else if |k.name| != 3 {
      ExtAllowedUnderLegacyOptions(k.name);
    }
  }
}
