/**
 * How the incremental hasher relates to the stateless `hashDir`.
 *
 * The two share the `key:value` composition but differ in two places: the
 * incremental hasher applies the ignore set to directories only, and it
 * computes a sha1 fingerprint of every surviving entry, whose failure
 * aborts the call.  When neither difference shows, they agree.
 */
module HashComparison {
  import opened Wrappers
  import opened FileSystem
  import opened Digest
  import opened HashOptions
  import HashDir
  import IncrementalHash

  /** No file anywhere in the tree has a name in the ignore set. */
  predicate FilesNotIgnored(o: Options, n: Node)
    decreases n, 1
  {
    && (n.File? ==> !IgnoredName(o, n.name))
    && (n.Dir? && n.listOk ==> AllFilesNotIgnored(o, n.listing))
  }

  predicate AllFilesNotIgnored(o: Options, kids: seq<Node>)
    decreases kids, 0
  {
    forall i :: 0 <= i < |kids| ==> FilesNotIgnored(o, kids[i])
  }

  /**
   * When the cache-free incremental digest succeeds and no file carries an
   * ignored name, the stateless `hashDir` computes the same digest.
   */
  lemma {:induction false} ReferenceAgreesWithStateless(c: Crypto, o: Options, path: Path, n: Node)
    requires FilesNotIgnored(o, n) && IncrementalHash.RefLevel(c, o, path, n).Ok?
    ensures HashDir.HashDir(c, o, path, n) == IncrementalHash.RefLevel(c, o, path, n)
    decreases n, 0
  {
    if n.Dir? && n.listOk {
      KidsAgree(c, o, path, n.listing);
    }
  }

  lemma {:induction false} KidsAgree(c: Crypto, o: Options, path: Path, kids: seq<Node>)
    requires AllFilesNotIgnored(o, kids) && IncrementalHash.RefKids(c, o, path, kids).Ok?
    ensures HashDir.Collect(c, o, path, kids) == IncrementalHash.RefKids(c, o, path, kids)
    decreases kids, 0
  {
    if |kids| > 0 {
      EntryAgrees(c, o, path, kids[0]);
      assert forall i :: 0 <= i < |kids[1..]| ==> kids[1..][i] == kids[i + 1];
      KidsAgree(c, o, path, kids[1..]);
    }
  }

  lemma {:induction false} EntryAgrees(c: Crypto, o: Options, path: Path, k: Node)
    requires FilesNotIgnored(o, k) && IncrementalHash.RefStep(c, o, path, k).Ok?
    ensures HashDir.Contribute(c, o, path, k) == IncrementalHash.RefStep(c, o, path, k)
    decreases k, 1
  {
    if IncrementalHash.Survives(o, k) && k.Dir? {
      ReferenceAgreesWithStateless(c, o, path + [k.name], k);
    }
  }

  /**
   * On such trees a fresh incremental hasher and the stateless `hashDir`
   * return the same digest whenever the incremental one succeeds.
   */
  lemma FreshHasherAgreesWithStateless(c: Crypto, o: Options, path: Path, n: Node)
    requires WellFormed(n) && FilesNotIgnored(o, n)
    requires IncrementalHash.Level(c, o, IncrementalHash.Fresh, path, n).result.Ok?
    ensures HashDir.HashDir(c, o, path, n) == IncrementalHash.Level(c, o, IncrementalHash.Fresh, path, n).result
  {
    IncrementalHash.FreshHasherComputesReference(c, o, path, n);
    ReferenceAgreesWithStateless(c, o, path, n);
  }

  /**
   * The two disagree on a file whose name is in the ignore set: the
   * stateless digest drops it, the incremental one hashes it.
   */
  lemma IgnoredFileTreatedDifferently(c: Crypto, o: Options, path: Path, k: Node, fp: string, h: string)
    requires k.File? && k.stat.Some? && !MatchesPattern(o, k.name) && IgnoredName(o, k.name) && ExtAllowed(o, k.name)
    requires HashFile(c, path + [k.name], IncrementalHash.FingerprintAlgorithm, k) == Ok(fp)
    requires HashFile(c, path + [k.name], o.algorithm, k) == Ok(h)
    ensures HashDir.Contribute(c, o, path, k) == Ok(None)
    ensures IncrementalHash.RefStep(c, o, path, k) == Ok(Some(h))
  {
  }
}
