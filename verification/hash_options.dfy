/**
 * The options object of the two `hashDir` entry points and the per-entry
 * filters they apply.
 *
 * `ignoreFiles` is a `RegExp` in the source; only its `test(name)` verdict
 * matters, so it is a predicate on names here.
 */
module HashOptions {
  import opened Wrappers
  import opened FileSystem

  /** The options as the caller passes them: `None` is an omitted (`undefined`) field. */
  datatype RawOptions = RawOptions(
    ext: Option<seq<string>>,
    ignoreDirs: Option<seq<string>>,
    ignoreFiles: Option<string -> bool>,
    algorithm: Option<string>)

  /** The options after defaults are filled in. */
  datatype Options = Options(
    ext: seq<string>,
    ignoreDirs: seq<string>,
    ignoreFiles: Option<string -> bool>,
    algorithm: string)

  const DefaultIgnoreDirs: seq<string> := ["node_modules", ".git"]
  const DefaultAlgorithm: string := "md5"

  /** Omitting every field. */
  const NoOptions := RawOptions(None, None, None, None)

  /**
   * Destructuring with defaults (hashDir.ts): a default applies only to an
   * omitted field, so an explicit empty algorithm name stays empty.
   */
  function ResolveDestructured(raw: RawOptions): (o: Options)
    ensures raw.ext.Some? ==> o.ext == raw.ext.value
    ensures raw.ext.None? ==> o.ext == []
    ensures raw.ignoreDirs.Some? ==> o.ignoreDirs == raw.ignoreDirs.value
    ensures raw.ignoreDirs.None? ==> o.ignoreDirs == DefaultIgnoreDirs
    ensures o.ignoreFiles == raw.ignoreFiles
    ensures raw.algorithm.Some? ==> o.algorithm == raw.algorithm.value
    ensures raw.algorithm.None? ==> o.algorithm == DefaultAlgorithm
  {
    Options(
      if raw.ext.Some? then raw.ext.value else [],
      if raw.ignoreDirs.Some? then raw.ignoreDirs.value else DefaultIgnoreDirs,
      raw.ignoreFiles,
      if raw.algorithm.Some? then raw.algorithm.value else DefaultAlgorithm)
  }

  /**
   * `options.x || default` (incrementalHash.ts): arrays are always truthy,
   * but the empty string is falsy, so an empty algorithm name becomes "md5".
   */
  function ResolveOr(raw: RawOptions): (o: Options)
    ensures raw.ext.Some? ==> o.ext == raw.ext.value
    ensures raw.ext.None? ==> o.ext == []
    ensures raw.ignoreDirs.Some? ==> o.ignoreDirs == raw.ignoreDirs.value
    ensures raw.ignoreDirs.None? ==> o.ignoreDirs == DefaultIgnoreDirs
    ensures o.ignoreFiles == raw.ignoreFiles
    ensures o.algorithm != ""
    ensures raw.algorithm.Some? && raw.algorithm.value != "" ==> o.algorithm == raw.algorithm.value
    ensures raw.algorithm.None? ==> o.algorithm == DefaultAlgorithm
  {
    var alg := if raw.algorithm.Some? then raw.algorithm.value else "";
    Options(
      if raw.ext.Some? then raw.ext.value else [],
      if raw.ignoreDirs.Some? then raw.ignoreDirs.value else DefaultIgnoreDirs,
      raw.ignoreFiles,
      if alg != "" then alg else DefaultAlgorithm)
  }

  /** The two ways of filling in defaults agree except on an explicit empty algorithm name. */
  lemma ResolutionsAgree(raw: RawOptions)
    ensures ResolveOr(raw) == ResolveDestructured(raw) <==> raw.algorithm != Some("")
  {
  }

  /** Omitting the options gives no allow-list, the two default ignored names and md5. */
  lemma DefaultOptions()
    ensures ResolveDestructured(NoOptions) == Options([], ["node_modules", ".git"], None, "md5")
    ensures ResolveOr(NoOptions) == ResolveDestructured(NoOptions)
  {
  }

  /** The entry name matches the `ignoreFiles` pattern. */
  predicate MatchesPattern(o: Options, name: string) {
    o.ignoreFiles.Some? && o.ignoreFiles.value(name)
  }

  /** `new Set(xs.map(x => x.toLowerCase()))`. */
  function LowerSet(xs: seq<string>): (s: set<string>)
    ensures forall x :: x in s <==> exists i :: 0 <= i < |xs| && Lower(xs[i]) == x
    ensures s == {} <==> |xs| == 0
  {
    var s := set i | 0 <= i < |xs| :: Lower(xs[i]);
    assert |xs| > 0 ==> Lower(xs[0]) in s;
    s
  }

  /** Some entry of `ignoreDirs` equals the name up to ASCII letter case. */
  predicate IgnoredName(o: Options, name: string) {
    exists i :: 0 <= i < |o.ignoreDirs| && Lower(o.ignoreDirs[i]) == Lower(name)
  }

  /** There is no allow-list, or some entry of it equals the name's extension up to letter case. */
  predicate ExtAllowed(o: Options, name: string) {
    |o.ext| == 0 || exists i :: 0 <= i < |o.ext| && Lower(o.ext[i]) == Lower(Extname(name))
  }

  /** `IgnoredName` is `ignoredDirsSet.has(file.toLowerCase())` on the set of lower-cased names. */
  lemma IgnoredNameIsSetLookup(o: Options, name: string)
    ensures IgnoredName(o, name) <==> Lower(name) in LowerSet(o.ignoreDirs)
  {
  }

  /** `ExtAllowed` is `allowedExts.size === 0 || allowedExts.has(extName)` on the set of lower-cased extensions. */
  lemma ExtAllowedIsSetLookup(o: Options, name: string)
    ensures ExtAllowed(o, name) <==> LowerSet(o.ext) == {} || Lower(Extname(name)) in LowerSet(o.ext)
  {
  }

  /** The ignore set is case-insensitive on both sides. */
  lemma IgnoredNameCaseInsensitive(o: Options, a: string, b: string)
    requires Lower(a) == Lower(b)
    ensures IgnoredName(o, a) <==> IgnoredName(o, b)
  {
  }

  /** With the default options every `node_modules` and `.git`, in any letter case, is ignored. */
  lemma DefaultIgnoresNodeModules(name: string)
    requires Lower(name) == "node_modules" || Lower(name) == ".git"
    ensures IgnoredName(ResolveDestructured(NoOptions), name)
  {
    var o := ResolveDestructured(NoOptions);
    if Lower(name) == "node_modules" {
      assert Lower(o.ignoreDirs[0]) == "node_modules";
    } else {
      assert Lower(o.ignoreDirs[1]) == ".git";
    }
  }
}
