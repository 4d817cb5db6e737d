/**
 * `IncrementalHasher` of src/modules/hash/incrementalHash.ts: a directory
 * digest that keeps three maps keyed by resolved path and reuses a stored
 * digest when an entry's modification time and sha1 fingerprint are
 * unchanged.
 *
 * The three maps are threaded through the recursion as a `Cache` value;
 * `local` is the per-level copy `newMTimeCache` that is written back to the
 * shared mtime map when the level finishes.  A level that throws leaves the
 * maps in whatever state it reached, which the model returns with the error.
 */
module IncrementalHash {
  import opened Wrappers
  import opened FileSystem
  import opened Digest
  import opened HashOptions

  /** `cache` (digests), `mtimeCache` and `contentHashCache`. */
  datatype Cache = Cache(digests: map<Path, string>, mtimes: map<Path, int>, fingerprints: map<Path, string>)

  /** The state of a freshly constructed hasher. */
  const Fresh := Cache(map[], map[], map[])

  /** The fingerprint algorithm, fixed regardless of the options. */
  const FingerprintAlgorithm: string := "sha1"

  datatype Outcome = Outcome(result: Result<string, Error>, cache: Cache)
  datatype KidsOutcome = KidsOutcome(result: Result<seq<Entry>, Error>, cache: Cache, local: map<Path, int>)
  datatype StepOutcome = StepOutcome(result: Result<Option<string>, Error>, cache: Cache, local: map<Path, int>)

  /** `a` and `b` hold the same entry (or none) at `q`. */
  predicate AgreeAt<V(==)>(a: map<Path, V>, b: map<Path, V>, q: Path) {
    (q in a <==> q in b) && (q in a ==> a[q] == b[q])
  }

  /** The entry gets past the filters of one level: pattern, stat, and the ignore set, which only applies to directories. */
  predicate Survives(o: Options, k: Node) {
    !MatchesPattern(o, k.name) && k.stat.Some? && !(k.Dir? && IgnoredName(o, k.name))
  }

  /** A surviving directory or allowed file: its digest enters the level's combination. */
  predicate Hashed(o: Options, k: Node) {
    Survives(o, k) && (k.Dir? || (k.File? && ExtAllowed(o, k.name)))
  }

  /** The stored digest at `p` is taken as is. */
  predicate Reused(st: Cache, local: map<Path, int>, p: Path, mtime: int, fingerprint: string) {
    && p in local && local[p] == mtime
    && p in st.fingerprints && st.fingerprints[p] == fingerprint
    && p in st.digests
  }

  /** `p` lies in the subtree of one of the entries `kids` of `path`. */
  predicate Touched(path: Path, kids: seq<Node>, q: Path) {
    exists i :: 0 <= i < |kids| && Within(path + [kids[i].name], q)
  }

  /** The modification times one level records, later entries overwriting earlier ones. */
  function LevelMTimes(o: Options, path: Path, kids: seq<Node>): (m: map<Path, int>)
    ensures forall q :: q in m ==> |q| == |path| + 1 && q[..|path|] == path
  {
    if |kids| == 0 then map[]
    else
      var head := if Survives(o, kids[0]) then map[path + [kids[0].name] := kids[0].stat.value] else map[];
      head + LevelMTimes(o, path, kids[1..])
  }

  /** `_hashDir(dirPath, options)` with the options resolved; `n` is what `path` names. */
  function Level(c: Crypto, o: Options, st: Cache, path: Path, n: Node): (r: Outcome)
    // A listing failure is wrapped and thrown before any map is touched.
    ensures !(n.Dir? && n.listOk) ==> r == Outcome(Err(ReadDirFailed(path)), st)
    // The directory's own digest is deleted first and stored again only on success.
    ensures r.result.Ok? ==> path in r.cache.digests && r.cache.digests[path] == r.result.value
    ensures n.Dir? && n.listOk && r.result.Err? ==> path !in r.cache.digests
    // Nothing outside the directory is touched.
    ensures forall q :: !Within(path, q) ==> AgreeAt(r.cache.digests, st.digests, q)
    ensures forall q :: !StrictlyWithin(path, q) ==>
              AgreeAt(r.cache.fingerprints, st.fingerprints, q) && AgreeAt(r.cache.mtimes, st.mtimes, q)
    // The mtime map written back holds this level's entries on top of the map as the level found it.
    ensures r.result.Ok? ==> r.cache.mtimes == st.mtimes + LevelMTimes(o, path, n.listing)
    // After success every hashed entry of the level has a stored digest.
    ensures r.result.Ok? && DistinctNames(n.listing) ==>
              forall i :: 0 <= i < |n.listing| && Hashed(o, n.listing[i]) ==> path + [n.listing[i].name] in r.cache.digests
    ensures r.result.Ok? ==> c.supports(o.algorithm)
    decreases n, 0
  {
    if !(n.Dir? && n.listOk) then Outcome(Err(ReadDirFailed(path)), st)
    else
      var st1 := st.(digests := st.digests - {path});
      var k := LevelKids(c, o, st1, st1.mtimes, path, n.listing);
      LevelTouchesBelow(path, n.listing);
      assert forall q :: !Within(path, q) ==> !Touched(path, n.listing, q) && q != path;
      assert !Touched(path, n.listing, path);
      assert forall i :: 0 <= i < |n.listing| ==> path + [n.listing[i].name] != path;
      match k.result
      case Err(e) => Outcome(Err(e), k.cache)
      case Ok(pairs) =>
        match Combine(c, o.algorithm, pairs)
        case None => Outcome(Err(CreateHashFailed(o.algorithm)), k.cache)
        case Some(h) => Outcome(Ok(h), k.cache.(digests := k.cache.digests[path := h], mtimes := k.local))
  }

  lemma LevelTouchesBelow(path: Path, kids: seq<Node>)
    ensures forall q :: Touched(path, kids, q) ==> StrictlyWithin(path, q)
  {
    forall q | Touched(path, kids, q) ensures StrictlyWithin(path, q) {
      var i :| 0 <= i < |kids| && Within(path + [kids[i].name], q);
      ChildWithin(path, kids[i].name, q);
    }
  }

  /** The `for...of` loop over the listing. */
  function LevelKids(c: Crypto, o: Options, st: Cache, local: map<Path, int>, path: Path, kids: seq<Node>): (r: KidsOutcome)
    ensures forall q :: !Touched(path, kids, q) ==>
              && AgreeAt(r.cache.digests, st.digests, q)
              && AgreeAt(r.cache.fingerprints, st.fingerprints, q)
              && AgreeAt(r.cache.mtimes, st.mtimes, q)
    ensures r.result.Ok? ==> r.local == local + LevelMTimes(o, path, kids)
    ensures r.result.Ok? && DistinctNames(kids) ==>
              forall i :: 0 <= i < |kids| && Hashed(o, kids[i]) ==> path + [kids[i].name] in r.cache.digests
    decreases kids, 0
  {
    if |kids| == 0 then KidsOutcome(Ok([]), st, local)
    else
      var s := Step(c, o, st, local, path, kids[0]);
      TouchedSplit(path, kids);
      match s.result
      case Err(e) => KidsOutcome(Err(e), s.cache, s.local)
      case Ok(v) =>
        var rest := LevelKids(c, o, s.cache, s.local, path, kids[1..]);
        match rest.result
        case Err(e) => KidsOutcome(Err(e), rest.cache, rest.local)
        case Ok(pairs) =>
          LevelMTimesSplit(o, local, path, kids);
          HeadStaysCached(path, kids);
          KidsOutcome(Ok(if v.Some? then [Entry(kids[0].name, v.value)] + pairs else pairs), rest.cache, rest.local)
  }

  /** An entry the loop skips (pattern, failed stat, ignored directory) can be removed from the listing without effect. */
  lemma {:induction false} SkippedEntryIrrelevant(c: Crypto, o: Options, st: Cache, local: map<Path, int>, path: Path,
                                                  kids: seq<Node>, i: nat)
    requires i < |kids| && !Survives(o, kids[i])
    ensures LevelKids(c, o, st, local, path, kids) == LevelKids(c, o, st, local, path, kids[..i] + kids[i + 1..])
    decreases i
  {
    var s := kids[..i] + kids[i + 1..];
    if i == 0 {
      assert s == kids[1..];
      StepSkips(c, o, st, local, path, kids[0]);
      LevelKidsSkipsHead(c, o, st, local, path, kids);
    } else {
      var first := Step(c, o, st, local, path, kids[0]);
      assert s[0] == kids[0];
      assert s[1..] == kids[1..][..i - 1] + kids[1..][i..];
      if first.result.Ok? {
        SkippedEntryIrrelevant(c, o, first.cache, first.local, path, kids[1..], i - 1);
      }
      LevelKidsCongruence(c, o, st, local, path, kids, s);
    }
  }

  lemma LevelKidsSkipsHead(c: Crypto, o: Options, st: Cache, local: map<Path, int>, path: Path, kids: seq<Node>)
    requires |kids| > 0 && Step(c, o, st, local, path, kids[0]) == StepOutcome(Ok(None), st, local)
    ensures LevelKids(c, o, st, local, path, kids) == LevelKids(c, o, st, local, path, kids[1..])
  {
  }

  /** The loop depends on the first entry and on what the rest computes from the first entry's maps. */
  lemma LevelKidsCongruence(c: Crypto, o: Options, st: Cache, local: map<Path, int>, path: Path, a: seq<Node>, b: seq<Node>)
    requires |a| > 0 && |b| > 0 && a[0] == b[0]
    requires var s := Step(c, o, st, local, path, a[0]);
             s.result.Ok? ==> LevelKids(c, o, s.cache, s.local, path, a[1..]) == LevelKids(c, o, s.cache, s.local, path, b[1..])
    ensures LevelKids(c, o, st, local, path, a) == LevelKids(c, o, st, local, path, b)
  {
  }

  /**
   * An entry whose `fs.stat` fails is skipped and only that entry: the call
   * returns what it returns for the listing without it.
   */
  lemma UnreadableEntrySkipped(c: Crypto, o: Options, st: Cache, path: Path, n: Node, i: nat)
    requires n.Dir? && n.listOk && i < |n.listing| && n.listing[i].stat.None?
    ensures Level(c, o, st, path, n) == Level(c, o, st, path, n.(listing := n.listing[..i] + n.listing[i + 1..]))
  {
    var st1 := st.(digests := st.digests - {path});
    SkippedEntryIrrelevant(c, o, st1, st1.mtimes, path, n.listing, i);
  }

  /** With distinct names, the later entries never touch the first entry's path. */
  lemma HeadStaysCached(path: Path, kids: seq<Node>)
    requires |kids| > 0
    ensures DistinctNames(kids) ==> !Touched(path, kids[1..], path + [kids[0].name]) && DistinctNames(kids[1..])
  {
    if DistinctNames(kids) {
      forall i | 0 <= i < |kids[1..]| ensures !Within(path + [kids[1..][i].name], path + [kids[0].name]) {
        ChildWithin(path, kids[1..][i].name, path + [kids[0].name]);
        assert kids[1..][i] == kids[i + 1];
      }
    }
  }

  lemma TouchedSplit(path: Path, kids: seq<Node>)
    requires |kids| > 0
    ensures forall q :: !Touched(path, kids, q) ==> !Within(path + [kids[0].name], q) && !Touched(path, kids[1..], q)
  {
    forall q | Touched(path, kids[1..], q) ensures Touched(path, kids, q) {
      var i :| 0 <= i < |kids[1..]| && Within(path + [kids[1..][i].name], q);
      assert kids[1..][i] == kids[i + 1];
    }
  }

  /** Recording the first entry and then the rest is recording the whole level. */
  lemma LevelMTimesSplit(o: Options, local: map<Path, int>, path: Path, kids: seq<Node>)
    requires |kids| > 0
    ensures (if Survives(o, kids[0]) then local[path + [kids[0].name] := kids[0].stat.value] else local)
              + LevelMTimes(o, path, kids[1..]) == local + LevelMTimes(o, path, kids)
  {
    var rest := LevelMTimes(o, path, kids[1..]);
    if Survives(o, kids[0]) {
      var p, v := path + [kids[0].name], kids[0].stat.value;
      assert local[p := v] == local + map[p := v];
      assert (local + map[p := v]) + rest == local + (map[p := v] + rest);
    }
  }

  /** One iteration of the loop, for the entry `k` of `path`. */
  function Step(c: Crypto, o: Options, st: Cache, local: map<Path, int>, path: Path, k: Node): (r: StepOutcome)
    ensures forall q :: !Within(path + [k.name], q) ==>
              && AgreeAt(r.cache.digests, st.digests, q)
              && AgreeAt(r.cache.fingerprints, st.fingerprints, q)
              && AgreeAt(r.cache.mtimes, st.mtimes, q)
    ensures r.result.Ok? ==> r.local == if Survives(o, k) then local[path + [k.name] := k.stat.value] else local
    ensures r.result.Ok? && Hashed(o, k) ==> path + [k.name] in r.cache.digests
    decreases k, 1
  {
    var p := path + [k.name];
    if !Survives(o, k) then StepOutcome(Ok(None), st, local)
    else
      var mtime := k.stat.value;
      match HashFile(c, p, FingerprintAlgorithm, k)
      case Err(e) => StepOutcome(Err(e), st, local)
      case Ok(fp) =>
        if Reused(st, local, p, mtime, fp) then
          assert local[p := mtime] == local;
          StepOutcome(Ok(Some(st.digests[p])), st, local)
        else if k.Dir? then
          var sub := Level(c, o, st, p, k);
          assert forall q :: !Within(p, q) ==> !StrictlyWithin(p, q);
          match sub.result
          case Err(e) => StepOutcome(Err(e), sub.cache, local)
          case Ok(h) =>
            var st2 := sub.cache.(digests := sub.cache.digests[p := h],
                                  fingerprints := sub.cache.fingerprints[p := fp]);
            StepOutcome(Ok(Some(h)), st2, local[p := mtime])
        else if k.File? && ExtAllowed(o, k.name) then
          match HashFile(c, p, o.algorithm, k)
          case Err(e) => StepOutcome(Err(e), st, local)
          case Ok(h) =>
            var st2 := st.(digests := st.digests[p := h], fingerprints := st.fingerprints[p := fp]);
            StepOutcome(Ok(Some(h)), st2, local[p := mtime])
        else
          StepOutcome(Ok(None), st.(fingerprints := st.fingerprints[p := fp]), local[p := mtime])
  }

  /** An entry matched by the pattern, one whose stat fails, and an ignored directory are skipped with nothing changed. */
  lemma StepSkips(c: Crypto, o: Options, st: Cache, local: map<Path, int>, path: Path, k: Node)
    requires !Survives(o, k)
    ensures Step(c, o, st, local, path, k) == StepOutcome(Ok(None), st, local)
  {
  }

  /**
   * The reuse rule of one iteration: a stored digest whose modification time
   * and fingerprint both match is returned as is and no map changes;
   * otherwise, on success, the fresh fingerprint is recorded under the
   * entry's path.
   */
  lemma StepReuseRule(c: Crypto, o: Options, st: Cache, local: map<Path, int>, path: Path, k: Node, fp: string)
    requires Survives(o, k) && HashFile(c, path + [k.name], FingerprintAlgorithm, k) == Ok(fp)
    ensures Reused(st, local, path + [k.name], k.stat.value, fp) ==>
              Step(c, o, st, local, path, k) == StepOutcome(Ok(Some(st.digests[path + [k.name]])), st, local)
    ensures Step(c, o, st, local, path, k).result.Ok? && !Reused(st, local, path + [k.name], k.stat.value, fp) ==>
              && path + [k.name] in Step(c, o, st, local, path, k).cache.fingerprints
              && Step(c, o, st, local, path, k).cache.fingerprints[path + [k.name]] == fp
    // Without reuse, an allowed file is hashed again under the requested algorithm and its digest stored.
    ensures !Reused(st, local, path + [k.name], k.stat.value, fp) && !k.Dir? && k.File? && ExtAllowed(o, k.name) ==>
              && Step(c, o, st, local, path, k).result ==
                   (match HashFile(c, path + [k.name], o.algorithm, k)
                    case Err(e) => Err(e)
                    case Ok(h) => Ok(Some(h)))
              && (Step(c, o, st, local, path, k).result.Ok? ==>
                    && path + [k.name] in Step(c, o, st, local, path, k).cache.digests
                    && Step(c, o, st, local, path, k).cache.digests[path + [k.name]] == HashFile(c, path + [k.name], o.algorithm, k).value)
    // Without reuse, a directory is hashed again by a nested level and its digest stored.
    ensures !Reused(st, local, path + [k.name], k.stat.value, fp) && k.Dir? ==>
              && Step(c, o, st, local, path, k).result ==
                   (match Level(c, o, st, path + [k.name], k).result
                    case Err(e) => Err(e)
                    case Ok(h) => Ok(Some(h)))
              && (Step(c, o, st, local, path, k).result.Ok? ==>
                    && path + [k.name] in Step(c, o, st, local, path, k).cache.digests
                    && Step(c, o, st, local, path, k).cache.digests[path + [k.name]] == Level(c, o, st, path + [k.name], k).result.value)
    // Without reuse, any other surviving entry contributes nothing and leaves the stored digests alone.
    ensures !Reused(st, local, path + [k.name], k.stat.value, fp) && !k.Dir? && !(k.File? && ExtAllowed(o, k.name)) ==>
              && Step(c, o, st, local, path, k).result == Ok(None)
              && Step(c, o, st, local, path, k).cache.digests == st.digests
  {
    if !Reused(st, local, path + [k.name], k.stat.value, fp) && k.Dir? {
      StepRecomputesDir(c, o, st, local, path, k, fp);
    }
  }

  /**
   * Reuse trusts the maps: a stored digest whose modification time and
   * fingerprint match is returned even when recomputing would give another
   * result, so a stale digest (one stored under other options, say) survives.
   */
  lemma StaleDigestReturned(c: Crypto, o: Options, st: Cache, local: map<Path, int>, path: Path, k: Node)
    requires Survives(o, k) && HashFile(c, path + [k.name], FingerprintAlgorithm, k).Ok?
    requires Reused(st, local, path + [k.name], k.stat.value, HashFile(c, path + [k.name], FingerprintAlgorithm, k).value)
    requires RefRecompute(c, o, path + [k.name], k) != Ok(Some(st.digests[path + [k.name]]))
    ensures Step(c, o, st, local, path, k).result == Ok(Some(st.digests[path + [k.name]]))
    ensures Step(c, o, st, local, path, k).result != RefStep(c, o, path, k)
  {
  }

  /** The reuse decision does not look at the options: two option values reuse the same stored digest. */
  lemma ReuseIgnoresOptions(c: Crypto, o1: Options, o2: Options, st: Cache, local: map<Path, int>, path: Path, k: Node)
    requires Survives(o1, k) && Survives(o2, k) && HashFile(c, path + [k.name], FingerprintAlgorithm, k).Ok?
    requires Reused(st, local, path + [k.name], k.stat.value, HashFile(c, path + [k.name], FingerprintAlgorithm, k).value)
    ensures Step(c, o1, st, local, path, k) == Step(c, o2, st, local, path, k)
  {
  }

  // ---------------------------------------------------------------------
  // The cache-free reference: what the hasher computes when nothing is reused.

  /** The digest a hasher with empty maps computes for `path`. */
  function RefLevel(c: Crypto, o: Options, path: Path, n: Node): (r: Result<string, Error>)
    decreases n, 0
  {
    if !(n.Dir? && n.listOk) then Err(ReadDirFailed(path))
    else
      match RefKids(c, o, path, n.listing)
      case Err(e) => Err(e)
      case Ok(pairs) =>
        match Combine(c, o.algorithm, pairs)
        case None => Err(CreateHashFailed(o.algorithm))
        case Some(h) => Ok(h)
  }

  function RefKids(c: Crypto, o: Options, path: Path, kids: seq<Node>): (r: Result<seq<Entry>, Error>)
    decreases kids, 0
  {
    if |kids| == 0 then Ok([])
    else
      match RefStep(c, o, path, kids[0])
      case Err(e) => Err(e)
      case Ok(v) =>
        match RefKids(c, o, path, kids[1..])
        case Err(e) => Err(e)
        case Ok(rest) => Ok(if v.Some? then [Entry(kids[0].name, v.value)] + rest else rest)
  }

  /** One entry with nothing cached: filters, fingerprint, then the recomputation. */
  function RefStep(c: Crypto, o: Options, path: Path, k: Node): (r: Result<Option<string>, Error>)
    decreases k, 2
  {
    if !Survives(o, k) then Ok(None)
    else
      match HashFile(c, path + [k.name], FingerprintAlgorithm, k)
      case Err(e) => Err(e)
      case Ok(_) => RefRecompute(c, o, path + [k.name], k)
  }

  /** What the entry at `p` contributes when its stored digest is not reused. */
  function RefRecompute(c: Crypto, o: Options, p: Path, k: Node): (r: Result<Option<string>, Error>)
    decreases k, 1
  {
    if k.Dir? then
      match RefLevel(c, o, p, k)
      case Err(e) => Err(e)
      case Ok(h) => Ok(Some(h))
    else if k.File? && ExtAllowed(o, k.name) then
      match HashFile(c, p, o.algorithm, k)
      case Err(e) => Err(e)
      case Ok(h) => Ok(Some(h))
    else Ok(None)
  }

  // ---------------------------------------------------------------------
  // Sound caches.

  /**
   * The maps at `p` cannot mislead: an entry that contributes nothing has no
   * stored digest, and a stored digest whose fingerprint matches the entry's
   * is what recomputing would give.
   */
  predicate SoundEntry(c: Crypto, o: Options, st: Cache, p: Path, k: Node) {
    && (RefRecompute(c, o, p, k) == Ok(None) ==> p !in st.digests)
    && (p in st.digests && p in st.fingerprints && HashFile(c, p, FingerprintAlgorithm, k) == Ok(st.fingerprints[p])
        ==> RefRecompute(c, o, p, k) == Ok(Some(st.digests[p])))
  }

  /** Every surviving entry below `path` has sound maps. */
  predicate Sound(c: Crypto, o: Options, st: Cache, path: Path, n: Node)
    decreases n, 0
  {
    n.Dir? && n.listOk ==> SoundKids(c, o, st, path, n.listing)
  }

  predicate SoundKids(c: Crypto, o: Options, st: Cache, path: Path, kids: seq<Node>)
    decreases kids, 0
  {
    forall i :: 0 <= i < |kids| ==> SoundKid(c, o, st, path, kids[i])
  }

  predicate SoundKid(c: Crypto, o: Options, st: Cache, path: Path, k: Node)
    decreases k, 1
  {
    Survives(o, k) ==> SoundEntry(c, o, st, path + [k.name], k) && Sound(c, o, st, path + [k.name], k)
  }

  /** The digest and fingerprint maps agree on the subtree at `p` (itself included when `self`). */
  ghost predicate AgreeOn(a: Cache, b: Cache, p: Path, self: bool) {
    forall q :: (if self then Within(p, q) else StrictlyWithin(p, q)) ==>
      AgreeAt(a.digests, b.digests, q) && AgreeAt(a.fingerprints, b.fingerprints, q)
  }

  /** Soundness below `path` depends only on the maps below `path`; modification times play no part. */
  lemma {:induction false} SoundFrame(c: Crypto, o: Options, a: Cache, b: Cache, path: Path, n: Node)
    requires AgreeOn(a, b, path, false)
    ensures Sound(c, o, a, path, n) <==> Sound(c, o, b, path, n)
    decreases n, 0
  {
    if n.Dir? && n.listOk {
      forall i | 0 <= i < |n.listing|
        ensures SoundKid(c, o, a, path, n.listing[i]) <==> SoundKid(c, o, b, path, n.listing[i])
      {
        var p := path + [n.listing[i].name];
        forall q | Within(p, q) ensures StrictlyWithin(path, q) {
          ChildWithin(path, n.listing[i].name, q);
        }
        SoundKidFrame(c, o, a, b, path, n.listing[i]);
      }
    }
  }

  lemma {:induction false} SoundKidFrame(c: Crypto, o: Options, a: Cache, b: Cache, path: Path, k: Node)
    requires AgreeOn(a, b, path + [k.name], true)
    ensures SoundKid(c, o, a, path, k) <==> SoundKid(c, o, b, path, k)
    decreases k, 1
  {
    var p := path + [k.name];
    assert Within(p, p);
    SoundFrame(c, o, a, b, p, k);
  }

  /** A cache with no stored digest is sound for every tree. */
  lemma {:induction false} NoDigestsSound(c: Crypto, o: Options, st: Cache, path: Path, n: Node)
    requires st.digests == map[]
    ensures Sound(c, o, st, path, n)
    decreases n
  {
    if n.Dir? && n.listOk {
      forall i | 0 <= i < |n.listing| ensures SoundKid(c, o, st, path, n.listing[i]) {
        NoDigestsSound(c, o, st, path + [n.listing[i].name], n.listing[i]);
      }
    }
  }

  /**
   * On a tree with distinct names per directory, a hasher whose maps are
   * sound computes exactly the cache-free digest, errors included, and
   * leaves its maps sound when it succeeds.
   */
  lemma {:induction false} LevelSound(c: Crypto, o: Options, st: Cache, path: Path, n: Node)
    requires WellFormed(n) && Sound(c, o, st, path, n)
    ensures Level(c, o, st, path, n).result == RefLevel(c, o, path, n)
    ensures Level(c, o, st, path, n).result.Ok? ==> Sound(c, o, Level(c, o, st, path, n).cache, path, n)
    decreases n, 0
  {
    if n.Dir? && n.listOk {
      var st1 := st.(digests := st.digests - {path});
      SoundFrame(c, o, st, st1, path, n);
      LevelKidsSound(c, o, st1, st1.mtimes, path, n.listing);
      LevelSoundFromKids(c, o, st, path, n);
    }
  }

  /** The level step of `LevelSound`: a sound loop makes a sound level. */
  lemma LevelSoundFromKids(c: Crypto, o: Options, st: Cache, path: Path, n: Node)
    requires n.Dir? && n.listOk
    requires var st1 := st.(digests := st.digests - {path});
             var k := LevelKids(c, o, st1, st1.mtimes, path, n.listing);
             && k.result == RefKids(c, o, path, n.listing)
             && (k.result.Ok? ==> SoundKids(c, o, k.cache, path, n.listing))
    ensures Level(c, o, st, path, n).result == RefLevel(c, o, path, n)
    ensures Level(c, o, st, path, n).result.Ok? ==> Sound(c, o, Level(c, o, st, path, n).cache, path, n)
  {
    var st1 := st.(digests := st.digests - {path});
    var k := LevelKids(c, o, st1, st1.mtimes, path, n.listing);
    LevelCombines(c, o, st, path, n);
    var r := Level(c, o, st, path, n);
    if r.result.Ok? {
      assert Sound(c, o, k.cache, path, n);
      SoundFrame(c, o, k.cache, r.cache, path, n);
    }
  }

  /** How a level that lists its directory ends: the loop's outcome, then the combining hash. */
  lemma LevelCombines(c: Crypto, o: Options, st: Cache, path: Path, n: Node)
    requires n.Dir? && n.listOk
    ensures var st1 := st.(digests := st.digests - {path});
            var k := LevelKids(c, o, st1, st1.mtimes, path, n.listing);
            var r := Level(c, o, st, path, n);
            && (k.result.Err? ==> r.result == Err(k.result.error))
            && (k.result.Ok? ==> r.result == match Combine(c, o.algorithm, k.result.value)
                                             case None => Err(CreateHashFailed(o.algorithm))
                                             case Some(h) => Ok(h))
            && (r.result.Ok? ==> r.cache == k.cache.(digests := k.cache.digests[path := r.result.value], mtimes := k.local))
  {
  }

  lemma {:induction false} LevelKidsSound(c: Crypto, o: Options, st: Cache, local: map<Path, int>, path: Path, kids: seq<Node>)
    requires AllWellFormed(kids) && SoundKids(c, o, st, path, kids)
    ensures LevelKids(c, o, st, local, path, kids).result == RefKids(c, o, path, kids)
    ensures LevelKids(c, o, st, local, path, kids).result.Ok? ==>
              SoundKids(c, o, LevelKids(c, o, st, local, path, kids).cache, path, kids)
    decreases kids, 0
  {
    if |kids| > 0 {
      var s := Step(c, o, st, local, path, kids[0]);
      StepSound(c, o, st, local, path, kids[0]);
      LevelKidsUnfold(c, o, st, local, path, kids);
      if s.result.Ok? {
        var tail := kids[1..];
        TailStaysSound(c, o, st, s.cache, path, kids);
        var rest := LevelKids(c, o, s.cache, s.local, path, tail);
        LevelKidsSound(c, o, s.cache, s.local, path, tail);
        if rest.result.Ok? {
          HeadStaysSound(c, o, s.cache, rest.cache, path, kids);
        }
      }
    }
  }

  /** How the loop proceeds past its first entry. */
  lemma LevelKidsUnfold(c: Crypto, o: Options, st: Cache, local: map<Path, int>, path: Path, kids: seq<Node>)
    requires |kids| > 0
    ensures var s := Step(c, o, st, local, path, kids[0]);
            var r := LevelKids(c, o, st, local, path, kids);
            && (s.result.Err? ==> r.result == Err(s.result.error))
            && (s.result.Ok? ==>
                  var rest := LevelKids(c, o, s.cache, s.local, path, kids[1..]);
                  && r.cache == rest.cache
                  && (rest.result.Err? ==> r.result == Err(rest.result.error))
                  && (rest.result.Ok? ==> r.result == Ok(if s.result.value.Some? then [Entry(kids[0].name, s.result.value.value)] + rest.result.value
                                                         else rest.result.value)))
  {
  }

  /** The first entry's iteration leaves the later entries' maps, and so their soundness, alone. */
  lemma TailStaysSound(c: Crypto, o: Options, a: Cache, b: Cache, path: Path, kids: seq<Node>)
    requires |kids| > 0 && AllWellFormed(kids) && SoundKids(c, o, a, path, kids)
    requires forall q :: !Within(path + [kids[0].name], q) ==>
               AgreeAt(a.digests, b.digests, q) && AgreeAt(a.fingerprints, b.fingerprints, q)
    ensures AllWellFormed(kids[1..]) && SoundKids(c, o, b, path, kids[1..])
  {
    var tail := kids[1..];
    assert forall i :: 0 <= i < |tail| ==> tail[i] == kids[i + 1];
    forall i | 0 <= i < |tail| ensures SoundKid(c, o, b, path, tail[i]) {
      SiblingsApart(path, kids, 0, i + 1);
      SoundKidFrame(c, o, a, b, path, tail[i]);
    }
  }

  /** The later entries' iterations leave the first entry's maps, and so its soundness, alone. */
  lemma HeadStaysSound(c: Crypto, o: Options, a: Cache, b: Cache, path: Path, kids: seq<Node>)
    requires |kids| > 0 && DistinctNames(kids) && SoundKid(c, o, a, path, kids[0])
    requires forall q :: !Touched(path, kids[1..], q) ==>
               AgreeAt(a.digests, b.digests, q) && AgreeAt(a.fingerprints, b.fingerprints, q)
    ensures SoundKid(c, o, b, path, kids[0])
  {
    var tail := kids[1..];
    forall q | Within(path + [kids[0].name], q) ensures !Touched(path, tail, q) {
      if Touched(path, tail, q) {
        var i :| 0 <= i < |tail| && Within(path + [tail[i].name], q);
        assert tail[i] == kids[i + 1];
        SiblingsApart(path, kids, 0, i + 1);
      }
    }
    SoundKidFrame(c, o, a, b, path, kids[0]);
  }

  /** Entries of one listing with distinct names have disjoint subtrees. */
  lemma SiblingsApart(path: Path, kids: seq<Node>, i: int, j: int)
    requires DistinctNames(kids) && 0 <= i < j < |kids|
    ensures forall q :: Within(path + [kids[i].name], q) ==> !Within(path + [kids[j].name], q)
  {
    forall q | Within(path + [kids[i].name], q) ensures !Within(path + [kids[j].name], q) {
      ChildWithin(path, kids[i].name, q);
      ChildWithin(path, kids[j].name, q);
    }
  }

  lemma {:induction false} StepSound(c: Crypto, o: Options, st: Cache, local: map<Path, int>, path: Path, k: Node)
    requires WellFormed(k) && SoundKid(c, o, st, path, k)
    ensures Step(c, o, st, local, path, k).result == RefStep(c, o, path, k)
    ensures Step(c, o, st, local, path, k).result.Ok? ==> SoundKid(c, o, Step(c, o, st, local, path, k).cache, path, k)
    decreases k, 2
  {
    var p := path + [k.name];
    var r := Step(c, o, st, local, path, k);
    if Survives(o, k) && HashFile(c, p, FingerprintAlgorithm, k).Ok? {
      var fp := HashFile(c, p, FingerprintAlgorithm, k).value;
      assert RefStep(c, o, path, k) == RefRecompute(c, o, p, k);
      assert SoundEntry(c, o, st, p, k) && Sound(c, o, st, p, k);
      if Reused(st, local, p, k.stat.value, fp) {
        assert r.cache == st;
      } else if k.Dir? {
        StepDirSound(c, o, st, local, path, k, fp);
      } else if k.File? && ExtAllowed(o, k.name) {
        assert r.result == RefRecompute(c, o, p, k);
      } else {
        assert RefRecompute(c, o, p, k) == Ok(None);
        assert r.cache == st.(fingerprints := st.fingerprints[p := fp]);
      }
    }
  }

  /** A directory that is not reused is hashed again, which keeps its subtree's maps sound. */
  lemma {:induction false} StepDirSound(c: Crypto, o: Options, st: Cache, local: map<Path, int>, path: Path, k: Node, fp: string)
    requires k.Dir? && WellFormed(k) && Survives(o, k)
    requires HashFile(c, path + [k.name], FingerprintAlgorithm, k) == Ok(fp)
    requires !Reused(st, local, path + [k.name], k.stat.value, fp)
    requires Sound(c, o, st, path + [k.name], k)
    ensures Step(c, o, st, local, path, k).result == RefRecompute(c, o, path + [k.name], k)
    ensures Step(c, o, st, local, path, k).result.Ok? ==> SoundKid(c, o, Step(c, o, st, local, path, k).cache, path, k)
    decreases k, 1
  {
    var p := path + [k.name];
    StepRecomputesDir(c, o, st, local, path, k, fp);
    LevelSound(c, o, st, p, k);
    var sub := Level(c, o, st, p, k);
    if sub.result.Ok? {
      RecordedDirSound(c, o, sub.cache, p, k, sub.result.value, fp);
    }
  }

  /** How a directory that is not reused is processed: hashed again, then recorded under its path. */
  lemma StepRecomputesDir(c: Crypto, o: Options, st: Cache, local: map<Path, int>, path: Path, k: Node, fp: string)
    requires k.Dir? && Survives(o, k)
    requires HashFile(c, path + [k.name], FingerprintAlgorithm, k) == Ok(fp)
    requires !Reused(st, local, path + [k.name], k.stat.value, fp)
    ensures var sub := Level(c, o, st, path + [k.name], k);
            var r := Step(c, o, st, local, path, k);
            && (sub.result.Err? ==> r.result == Err(sub.result.error))
            && (sub.result.Ok? ==> r.result == Ok(Some(sub.result.value)))
            && (sub.result.Ok? ==> r.cache == sub.cache.(digests := sub.cache.digests[path + [k.name] := sub.result.value],
                                                         fingerprints := sub.cache.fingerprints[path + [k.name] := fp]))
  {
  }

  /** Recording a directory's fresh digest and fingerprint under its path keeps the maps sound. */
  lemma RecordedDirSound(c: Crypto, o: Options, st: Cache, p: Path, k: Node, h: string, fp: string)
    requires k.Dir? && Survives(o, k)
    requires RefLevel(c, o, p, k) == Ok(h) && HashFile(c, p, FingerprintAlgorithm, k) == Ok(fp)
    requires Sound(c, o, st, p, k)
    ensures SoundEntry(c, o, st.(digests := st.digests[p := h], fingerprints := st.fingerprints[p := fp]), p, k)
    ensures Sound(c, o, st.(digests := st.digests[p := h], fingerprints := st.fingerprints[p := fp]), p, k)
  {
    var st2 := st.(digests := st.digests[p := h], fingerprints := st.fingerprints[p := fp]);
    assert AgreeOn(st, st2, p, false) by {
      forall q | StrictlyWithin(p, q) ensures q != p { }
    }
    SoundFrame(c, o, st, st2, p, k);
  }

  // ---------------------------------------------------------------------
  // The public methods and what repeated calls compute.

  /** `hasher.hashDir(dirPath, options)`: defaults resolved once with `||`, then one level per directory. */
  function HashDirIncremental(c: Crypto, st: Cache, path: Path, n: Node, raw: RawOptions): (r: Outcome)
    ensures !(n.Dir? && n.listOk) ==> r == Outcome(Err(ReadDirFailed(path)), st)
    ensures r.result.Ok? ==> path in r.cache.digests && r.cache.digests[path] == r.result.value
    ensures r.result.Ok? ==> c.supports(if raw.algorithm.Some? && raw.algorithm.value != "" then raw.algorithm.value else "md5")
  {
    Level(c, ResolveOr(raw), st, path, n)
  }

  /** `clearCache()`: all three maps emptied. */
  function ClearCache(st: Cache): (r: Cache)
    ensures CacheSize(r) == 0 && r.mtimes == map[] && r.fingerprints == map[]
  {
    Fresh
  }

  /** `getCacheSize()`: the number of stored digests; modification times and fingerprints are not counted. */
  function CacheSize(st: Cache): (r: nat)
    ensures r == |st.digests.Keys|
    ensures r == 0 <==> st.digests == map[]
  {
    |st.digests|
  }

  /** A fresh hasher computes the cache-free digest, errors included. */
  lemma FreshHasherComputesReference(c: Crypto, o: Options, path: Path, n: Node)
    requires WellFormed(n)
    ensures Level(c, o, Fresh, path, n).result == RefLevel(c, o, path, n)
  {
    NoDigestsSound(c, o, Fresh, path, n);
    LevelSound(c, o, Fresh, path, n);
  }

  /** Hashing an unchanged tree again with the same options gives the same digest. */
  lemma RepeatedCallStable(c: Crypto, o: Options, st: Cache, path: Path, n: Node)
    requires WellFormed(n) && Sound(c, o, st, path, n)
    ensures Level(c, o, st, path, n).result.Ok? ==>
              Level(c, o, Level(c, o, st, path, n).cache, path, n).result == Level(c, o, st, path, n).result
  {
    var r := Level(c, o, st, path, n);
    LevelSound(c, o, st, path, n);
    if r.result.Ok? {
      LevelSound(c, o, r.cache, path, n);
    }
  }

  /**
   * After `clearCache()` the next call computes what a fresh hasher
   * computes, whatever the hasher did before.
   */
  lemma ClearCacheReproducesFreshDigest(c: Crypto, o: Options, st: Cache, path: Path, n: Node)
    requires WellFormed(n)
    ensures Level(c, o, ClearCache(st), path, n).result == RefLevel(c, o, path, n)
  {
    FreshHasherComputesReference(c, o, path, n);
  }

  /**
   * After a successful call the digest cache holds the directory itself and
   * every hashed entry of its listing, so it is not empty, and it holds at
   * least two digests once one entry was hashed.
   */
  lemma CacheSizeAfterCall(c: Crypto, o: Options, st: Cache, path: Path, n: Node, i: int)
    requires n.Dir? && n.listOk && DistinctNames(n.listing)
    requires Level(c, o, st, path, n).result.Ok?
    ensures CacheSize(Level(c, o, st, path, n).cache) >= 1
    ensures 0 <= i < |n.listing| && Hashed(o, n.listing[i]) ==> CacheSize(Level(c, o, st, path, n).cache) >= 2
  {
    var d := Level(c, o, st, path, n).cache.digests;
    KeysCounted(d, path, path);
    if 0 <= i < |n.listing| && Hashed(o, n.listing[i]) {
      var p := path + [n.listing[i].name];
      assert p in d;
      assert |p| == |path| + 1;
      KeysCounted(d, path, p);
    }
  }

  /** A successful level only adds stored digests: every path stored before is still stored. */
  lemma {:induction false} LevelKeepsKeys(c: Crypto, o: Options, st: Cache, path: Path, n: Node)
    requires Level(c, o, st, path, n).result.Ok?
    ensures st.digests.Keys <= Level(c, o, st, path, n).cache.digests.Keys
    decreases n, 0
  {
    var st1 := st.(digests := st.digests - {path});
    LevelCombines(c, o, st, path, n);
    LevelKidsKeepKeys(c, o, st1, st1.mtimes, path, n.listing);
  }

  lemma {:induction false} LevelKidsKeepKeys(c: Crypto, o: Options, st: Cache, local: map<Path, int>, path: Path, kids: seq<Node>)
    requires LevelKids(c, o, st, local, path, kids).result.Ok?
    ensures st.digests.Keys <= LevelKids(c, o, st, local, path, kids).cache.digests.Keys
    decreases kids, 0
  {
    if |kids| > 0 {
      var s := Step(c, o, st, local, path, kids[0]);
      LevelKidsUnfold(c, o, st, local, path, kids);
      StepKeepsKeys(c, o, st, local, path, kids[0]);
      LevelKidsKeepKeys(c, o, s.cache, s.local, path, kids[1..]);
    }
  }

  lemma {:induction false} StepKeepsKeys(c: Crypto, o: Options, st: Cache, local: map<Path, int>, path: Path, k: Node)
    requires Step(c, o, st, local, path, k).result.Ok?
    ensures st.digests.Keys <= Step(c, o, st, local, path, k).cache.digests.Keys
    decreases k, 1
  {
    var p := path + [k.name];
    if Survives(o, k) && k.Dir? && HashFile(c, p, FingerprintAlgorithm, k).Ok? {
      var fp := HashFile(c, p, FingerprintAlgorithm, k).value;
      if !Reused(st, local, p, k.stat.value, fp) {
        StepRecomputesDir(c, o, st, local, path, k, fp);
        LevelKeepsKeys(c, o, st, p, k);
      }
    }
  }

  /**
   * A successful call never shrinks the digest cache, and it grows when a
   * hashed entry of the listing had no stored digest, as for a file written
   * since the previous call.
   */
  lemma CacheGrows(c: Crypto, o: Options, st: Cache, path: Path, n: Node, i: int)
    requires n.Dir? && n.listOk && DistinctNames(n.listing)
    requires Level(c, o, st, path, n).result.Ok?
    ensures CacheSize(Level(c, o, st, path, n).cache) >= CacheSize(st)
    ensures 0 <= i < |n.listing| && Hashed(o, n.listing[i]) && path + [n.listing[i].name] !in st.digests ==>
              CacheSize(Level(c, o, st, path, n).cache) > CacheSize(st)
  {
    var r := Level(c, o, st, path, n);
    var p := if 0 <= i < |n.listing| then path + [n.listing[i].name] else path;
    LevelKeepsKeys(c, o, st, path, n);
    KeysGrow(st.digests, r.cache.digests, p);
  }

  /** A map whose keys include another's is at least as large, and larger when it has one key more. */
  lemma KeysGrow(a: map<Path, string>, b: map<Path, string>, p: Path)
    requires a.Keys <= b.Keys
    ensures |a| <= |b|
    ensures p in b && p !in a ==> |a| < |b|
  {
    var x, y := a.Keys, b.Keys;
    assert y == x + (y - x) && x !! (y - x);
    if p in b && p !in a {
      assert p in y - x;
    }
  }

  lemma KeysCounted(m: map<Path, string>, a: Path, b: Path)
    requires a in m && b in m
    ensures |m| >= 1 && (a != b ==> |m| >= 2)
  {
    var ks := m.Keys;
    assert |ks| == |m|;
    if a != b {
      var rest := ks - {a, b};
      assert ks == rest + {a, b};
      assert |{a, b}| == 2;
    } else {
      assert ks == (ks - {a}) + {a};
    }
  }

  /**
   * The mtime map written back by the top level holds only that level's
   * entries on top of the old map: whatever the nested levels recorded is
   * overwritten.
   */
  lemma NestedMTimesDiscarded(c: Crypto, o: Options, st: Cache, path: Path, n: Node)
    requires Level(c, o, st, path, n).result.Ok?
    ensures forall q :: |q| != |path| + 1 ==> AgreeAt(Level(c, o, st, path, n).cache.mtimes, st.mtimes, q)
  {
    var r := Level(c, o, st, path, n);
    var m := LevelMTimes(o, path, n.listing);
    assert r.cache.mtimes == st.mtimes + m;
  }

  /**
   * A surviving entry whose sha1 fingerprint cannot be computed makes the
   * whole call fail, whatever is cached.
   */
  lemma {:induction false} FingerprintFailureAborts(c: Crypto, o: Options, st: Cache, local: map<Path, int>, path: Path, kids: seq<Node>, i: int)
    requires 0 <= i < |kids| && Survives(o, kids[i])
    requires HashFile(c, path + [kids[i].name], FingerprintAlgorithm, kids[i]).Err?
    ensures LevelKids(c, o, st, local, path, kids).result.Err?
    decreases i
  {
    if i > 0 && Step(c, o, st, local, path, kids[0]).result.Ok? {
      var s := Step(c, o, st, local, path, kids[0]);
      assert kids[1..][i - 1] == kids[i];
      FingerprintFailureAborts(c, o, s.cache, s.local, path, kids[1..], i - 1);
    }
  }

  /**
   * Reading a directory as a file fails on Linux and macOS, so one
   * subdirectory that is not ignored makes the incremental hasher throw.
   */
  lemma SurvivingSubdirectoryAborts(c: Crypto, o: Options, st: Cache, path: Path, n: Node, i: int)
    requires n.Dir? && n.listOk && 0 <= i < |n.listing|
    requires n.listing[i].Dir? && n.listing[i].stream.None? && Survives(o, n.listing[i])
    ensures Level(c, o, st, path, n).result.Err?
  {
    var st1 := st.(digests := st.digests - {path});
    FingerprintFailureAborts(c, o, st1, st1.mtimes, path, n.listing, i);
    LevelCombines(c, o, st, path, n);
  }
}
