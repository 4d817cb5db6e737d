/**
 * The stateless directory digest `hashDir(dirPath, options)` of
 * src/modules/hash/hashDir.ts.
 *
 * Every entry of the listing is hashed by its own task and the results are
 * joined with `Promise.all`; the model evaluates the tasks in listing order,
 * which yields the same record, and reports the first failing entry in
 * listing order.
 */
module HashDir {
  import opened Wrappers
  import opened FileSystem
  import opened Digest
  import opened HashOptions

  /** The entry contributes nothing: pattern match, failed stat, ignored name, or not a kept file or directory. */
  predicate Dropped(o: Options, k: Node) {
    || MatchesPattern(o, k.name)
    || k.stat.None?
    || IgnoredName(o, k.name)
    || k.Special?
    || (k.File? && !ExtAllowed(o, k.name))
  }

  /** `hashDir(path, options)` with the options already resolved; `n` is what `path` names. */
  function HashDir(c: Crypto, o: Options, path: Path, n: Node): (r: Result<string, Error>)
    // A directory that cannot be listed fails with the wrapped error naming it.
    ensures !(n.Dir? && n.listOk) ==> r == Err(ReadDirFailed(path))
    // Success needs `createHash(algorithm)` to accept the algorithm.
    ensures r.Ok? ==> c.supports(o.algorithm)
    decreases n, 0
  {
    if !(n.Dir? && n.listOk) then Err(ReadDirFailed(path))
    else
      match Collect(c, o, path, n.listing)
      case Err(e) => Err(e)
      case Ok(pairs) =>
        match Combine(c, o.algorithm, pairs)
        case None => Err(UnsupportedAlgorithm(o.algorithm))
        case Some(h) => Ok(h)
  }

  /** The `{ key, value }` results of the listing with the `null`s filtered out. */
  function Collect(c: Crypto, o: Options, path: Path, kids: seq<Node>): (r: Result<seq<Entry>, Error>)
    ensures r.Ok? ==> |r.value| <= |kids|
    ensures r.Ok? ==> forall e :: e in r.value ==> exists i :: 0 <= i < |kids| && kids[i].name == e.key
    ensures r.Ok? && DistinctNames(kids) ==> DistinctKeys(r.value)
    decreases kids, 0
  {
    if |kids| == 0 then Ok([])
    else
      match Contribute(c, o, path, kids[0])
      case Err(e) => Err(e)
      case Ok(v) =>
        match Collect(c, o, path, kids[1..])
        case Err(e) => Err(e)
        case Ok(rest) =>
          CollectStep(kids, rest, v);
          Ok(if v.Some? then [Entry(kids[0].name, v.value)] + rest else rest)
  }

  /** Putting the first entry's result in front of the rest's keeps what `Collect` promises. */
  lemma CollectStep(kids: seq<Node>, rest: seq<Entry>, v: Option<string>)
    requires |kids| > 0 && |rest| <= |kids[1..]|
    requires forall e :: e in rest ==> exists i :: 0 <= i < |kids[1..]| && kids[1..][i].name == e.key
    requires DistinctNames(kids[1..]) ==> DistinctKeys(rest)
    ensures var r := if v.Some? then [Entry(kids[0].name, v.value)] + rest else rest;
            && |r| <= |kids|
            && (forall e :: e in r ==> exists i :: 0 <= i < |kids| && kids[i].name == e.key)
            && (DistinctNames(kids) ==> DistinctKeys(r))
  {
    forall e | e in rest ensures exists i :: 1 <= i < |kids| && kids[i].name == e.key {
      var j :| 0 <= j < |kids[1..]| && kids[1..][j].name == e.key;
      assert kids[j + 1].name == e.key;
    }
    if DistinctNames(kids) {
      assert DistinctNames(kids[1..]) by {
        forall i, j | 0 <= i < j < |kids[1..]| ensures kids[1..][i].name != kids[1..][j].name {
          assert kids[1..][i] == kids[i + 1] && kids[1..][j] == kids[j + 1];
        }
      }
      forall j | 0 <= j < |rest| ensures rest[j].key != kids[0].name {
        assert rest[j] in rest;
      }
    }
  }

  /** The task of one entry: `None` for the `null` result, `Some(digest)` for `{ key, value }`. */
  function Contribute(c: Crypto, o: Options, path: Path, k: Node): (r: Result<Option<string>, Error>)
    ensures Dropped(o, k) ==> r == Ok(None)
    ensures r.Ok? && r.value.Some? ==> k.Dir? || (k.File? && ExtAllowed(o, k.name))
    // A surviving directory yields its own recursive digest, a kept file its file hash; a failure fails the task.
    ensures !Dropped(o, k) && k.Dir? ==> r == match HashDir(c, o, path + [k.name], k)
                                              case Err(e) => Err(e)
                                              case Ok(h) => Ok(Some(h))
    ensures !Dropped(o, k) && k.File? ==> r == match HashFile(c, path + [k.name], o.algorithm, k)
                                               case Err(e) => Err(e)
                                               case Ok(h) => Ok(Some(h))
    decreases k, 1
  {
    if MatchesPattern(o, k.name) || k.stat.None? || IgnoredName(o, k.name) then Ok(None)
    else if k.Dir? then
      match HashDir(c, o, path + [k.name], k)
      case Err(e) => Err(e)
      case Ok(h) => Ok(Some(h))
    else if k.File? && ExtAllowed(o, k.name) then
      match HashFile(c, path + [k.name], o.algorithm, k)
      case Err(e) => Err(e)
      case Ok(h) => Ok(Some(h))
    else Ok(None)
  }

  /**
   * A failure anywhere below aborts the whole call: a surviving
   * subdirectory that cannot be hashed, or a kept file whose stream fails,
   * makes the parent's digest fail.
   */
  lemma NestedFailureAborts(c: Crypto, o: Options, path: Path, n: Node, i: nat)
    requires n.Dir? && n.listOk && i < |n.listing| && !Dropped(o, n.listing[i])
    requires || (n.listing[i].Dir? && HashDir(c, o, path + [n.listing[i].name], n.listing[i]).Err?)
             || (n.listing[i].File? && HashFile(c, path + [n.listing[i].name], o.algorithm, n.listing[i]).Err?)
    ensures HashDir(c, o, path, n).Err?
  {
    CollectExactly(c, o, path, n.listing);
  }

  /**
   * The collected results are exactly the entries whose task produced a
   * digest, and collecting fails exactly when some task fails.
   */
  lemma {:induction false} CollectExactly(c: Crypto, o: Options, path: Path, kids: seq<Node>)
    ensures Collect(c, o, path, kids).Ok? <==> forall i :: 0 <= i < |kids| ==> Contribute(c, o, path, kids[i]).Ok?
    ensures Collect(c, o, path, kids).Ok? ==>
              forall name, v :: Entry(name, v) in Collect(c, o, path, kids).value <==>
                exists i :: 0 <= i < |kids| && kids[i].name == name && Contribute(c, o, path, kids[i]) == Ok(Some(v))
    decreases |kids|
  {
    if |kids| > 0 {
      CollectExactly(c, o, path, kids[1..]);
      assert forall i :: 1 <= i < |kids| ==> kids[i] == kids[1..][i - 1];
      var r := Collect(c, o, path, kids);
      if r.Ok? {
        forall name, v ensures Entry(name, v) in r.value <==>
          exists i :: 0 <= i < |kids| && kids[i].name == name && Contribute(c, o, path, kids[i]) == Ok(Some(v))
        {
          if exists i :: 0 <= i < |kids| && kids[i].name == name && Contribute(c, o, path, kids[i]) == Ok(Some(v)) {
            var i :| 0 <= i < |kids| && kids[i].name == name && Contribute(c, o, path, kids[i]) == Ok(Some(v));
            if i > 0 {
              assert kids[1..][i - 1] == kids[i];
            }
          }
        }
      }
    }
  }

  /** When several tasks fail, the error reported is the first failing entry's, in listing order. */
  lemma {:induction false} CollectFirstError(c: Crypto, o: Options, path: Path, kids: seq<Node>)
    ensures Collect(c, o, path, kids).Err? ==>
              exists i :: 0 <= i < |kids| && Contribute(c, o, path, kids[i]) == Err(Collect(c, o, path, kids).error)
                          && forall j :: 0 <= j < i ==> Contribute(c, o, path, kids[j]).Ok?
    decreases |kids|
  {
    if |kids| > 0 && Contribute(c, o, path, kids[0]).Ok? {
      CollectFirstError(c, o, path, kids[1..]);
      var r := Collect(c, o, path, kids);
      if r.Err? {
        var i :| 0 <= i < |kids[1..]| && Contribute(c, o, path, kids[1..][i]) == Err(r.error)
                 && forall j :: 0 <= j < i ==> Contribute(c, o, path, kids[1..][j]).Ok?;
        assert Contribute(c, o, path, kids[i + 1]) == Err(r.error);
        forall j | 0 <= j < i + 1 ensures Contribute(c, o, path, kids[j]).Ok? {
          if j > 0 {
            assert kids[j] == kids[1..][j - 1];
          }
        }
      }
    }
  }

  /**
   * With distinct names, the record maps every contributing entry to its own
   * digest and holds nothing else; an entry named `__proto__` is lost.
   */
  lemma RecordOfCollect(c: Crypto, o: Options, path: Path, kids: seq<Node>)
    requires DistinctNames(kids)
    requires Collect(c, o, path, kids).Ok?
    ensures forall name :: name in Record(Collect(c, o, path, kids).value) <==>
              name != ProtoKey &&
              exists i :: 0 <= i < |kids| && kids[i].name == name && Contribute(c, o, path, kids[i]) != Ok(None)
    ensures forall i :: 0 <= i < |kids| && kids[i].name != ProtoKey && Contribute(c, o, path, kids[i]).Ok? && Contribute(c, o, path, kids[i]).value.Some? ==>
              Record(Collect(c, o, path, kids).value)[kids[i].name] == Contribute(c, o, path, kids[i]).value.value
  {
    RecordKeys(c, o, path, kids);
    RecordValues(c, o, path, kids);
  }

  lemma RecordKeys(c: Crypto, o: Options, path: Path, kids: seq<Node>)
    requires Collect(c, o, path, kids).Ok?
    ensures forall name :: name in Record(Collect(c, o, path, kids).value) <==>
              name != ProtoKey &&
              exists i :: 0 <= i < |kids| && kids[i].name == name && Contribute(c, o, path, kids[i]) != Ok(None)
  {
    var pairs := Collect(c, o, path, kids).value;
    CollectExactly(c, o, path, kids);
    forall name ensures name in Record(pairs) <==>
      name != ProtoKey && exists i :: 0 <= i < |kids| && kids[i].name == name && Contribute(c, o, path, kids[i]) != Ok(None)
    {
      if name in Record(pairs) {
        var j :| 0 <= j < |pairs| && pairs[j].key == name;
        assert Entry(name, pairs[j].value) in pairs;
      }
      if name != ProtoKey && exists i :: 0 <= i < |kids| && kids[i].name == name && Contribute(c, o, path, kids[i]) != Ok(None) {
        var i :| 0 <= i < |kids| && kids[i].name == name && Contribute(c, o, path, kids[i]) != Ok(None);
        var v := Contribute(c, o, path, kids[i]).value.value;
        assert Entry(name, v) in pairs;
      }
    }
  }

  lemma RecordValues(c: Crypto, o: Options, path: Path, kids: seq<Node>)
    requires DistinctNames(kids) && Collect(c, o, path, kids).Ok?
    ensures forall i :: 0 <= i < |kids| && kids[i].name != ProtoKey && Contribute(c, o, path, kids[i]).Ok? && Contribute(c, o, path, kids[i]).value.Some? ==>
              && kids[i].name in Record(Collect(c, o, path, kids).value)
              && Record(Collect(c, o, path, kids).value)[kids[i].name] == Contribute(c, o, path, kids[i]).value.value
  {
    var pairs := Collect(c, o, path, kids).value;
    CollectExactly(c, o, path, kids);
    RecordOfDistinct(pairs);
    forall i | 0 <= i < |kids| && kids[i].name != ProtoKey && Contribute(c, o, path, kids[i]).Ok? && Contribute(c, o, path, kids[i]).value.Some?
      ensures kids[i].name in Record(pairs) && Record(pairs)[kids[i].name] == Contribute(c, o, path, kids[i]).value.value
    {
      var v := Contribute(c, o, path, kids[i]).value.value;
      assert Entry(kids[i].name, v) in pairs;
      var j :| 0 <= j < |pairs| && pairs[j] == Entry(kids[i].name, v);
      assert pairs[j].key == kids[i].name;
    }
  }

  /**
   * The digest of a directory whose entries all succeed is the hash of the
   * `key:value` concatenation over the contributing names in ascending
   * order, where each value is that entry's own digest.
   */
  lemma Composition(c: Crypto, o: Options, path: Path, n: Node, keys: seq<string>, m: map<string, string>)
    requires n.Dir? && n.listOk && DistinctNames(n.listing)
    requires forall i :: 0 <= i < |n.listing| ==> Contribute(c, o, path, n.listing[i]).Ok?
    requires ContributionMap(c, o, path, n.listing, m)
    requires StrictlySorted(keys) && forall k :: k in keys <==> k in m
    ensures c.supports(o.algorithm) ==> HashDir(c, o, path, n) == Ok(c.digest(o.algorithm, c.utf8(Join(keys, m))))
    ensures !c.supports(o.algorithm) ==> HashDir(c, o, path, n) == Err(UnsupportedAlgorithm(o.algorithm))
  {
    CollectExactly(c, o, path, n.listing);
    var pairs := Collect(c, o, path, n.listing).value;
    RecordIsContributionMap(c, o, path, n.listing, m);
    CombinedIsSortedJoin(pairs, keys);
  }

  /**
   * `m` maps the name of every entry that contributes to its digest, except
   * the name `__proto__` that a plain record cannot hold, and holds nothing else.
   */
  predicate ContributionMap(c: Crypto, o: Options, path: Path, kids: seq<Node>, m: map<string, string>) {
    && (forall i :: 0 <= i < |kids| && kids[i].name != ProtoKey && Contribute(c, o, path, kids[i]) != Ok(None) ==>
          kids[i].name in m && Contribute(c, o, path, kids[i]) == Ok(Some(m[kids[i].name])))
    && (forall name :: name in m ==>
          && name != ProtoKey
          && exists i :: 0 <= i < |kids| && kids[i].name == name && Contribute(c, o, path, kids[i]) != Ok(None))
  }

  lemma RecordIsContributionMap(c: Crypto, o: Options, path: Path, kids: seq<Node>, m: map<string, string>)
    requires DistinctNames(kids) && Collect(c, o, path, kids).Ok?
    requires ContributionMap(c, o, path, kids, m)
    ensures Record(Collect(c, o, path, kids).value) == m
  {
    var rec := Record(Collect(c, o, path, kids).value);
    RecordKeys(c, o, path, kids);
    RecordValues(c, o, path, kids);
    forall name ensures name in rec <==> name in m {
      if name in rec {
        var i :| 0 <= i < |kids| && kids[i].name == name && Contribute(c, o, path, kids[i]) != Ok(None);
      }
    }
    forall name | name in m ensures rec[name] == m[name] {
      var i :| 0 <= i < |kids| && kids[i].name == name && Contribute(c, o, path, kids[i]) != Ok(None);
    }
    MapsEqual(rec, m);
  }

  lemma MapsEqual(a: map<string, string>, b: map<string, string>)
    requires forall k :: k in a <==> k in b
    requires forall k :: k in b ==> a[k] == b[k]
    ensures a == b
  {
  }

  /**
   * A directory whose one entry is named `__proto__` hashes like an empty
   * directory, whatever the entry's own digest: the record never holds it.
   */
  lemma ProtoEntryHashesNothing(c: Crypto, o: Options, path: Path, n: Node)
    requires n.Dir? && n.listOk && |n.listing| == 1 && n.listing[0].name == ProtoKey
    requires Contribute(c, o, path, n.listing[0]).Ok?
    ensures c.supports(o.algorithm) ==> HashDir(c, o, path, n) == Ok(c.digest(o.algorithm, c.utf8("")))
  {
    Composition(c, o, path, n, [], map[]);
  }

  /**
   * The digest does not depend on the order `fs.readdir` lists the entries in:
   * whether it succeeds, and the digest when it does, are the same for every
   * permutation of the listing.
   */
  lemma ListingOrderIrrelevant(c: Crypto, o: Options, path: Path, n: Node, m: Node)
    requires n.Dir? && n.listOk && m.Dir? && m.listOk
    requires multiset(n.listing) == multiset(m.listing)
    requires DistinctNames(n.listing) && DistinctNames(m.listing)
    ensures HashDir(c, o, path, n).Ok? <==> HashDir(c, o, path, m).Ok?
    ensures HashDir(c, o, path, n).Ok? ==> HashDir(c, o, path, n) == HashDir(c, o, path, m)
  {
    var a, b := n.listing, m.listing;
    CollectExactly(c, o, path, a);
    CollectExactly(c, o, path, b);
    assert forall k :: k in a <==> k in b by {
      forall k ensures k in a <==> k in b {
        assert k in a <==> k in multiset(a);
        assert k in b <==> k in multiset(b);
      }
    }
    if Collect(c, o, path, a).Ok? {
      assert forall i :: 0 <= i < |b| ==> Contribute(c, o, path, b[i]).Ok? by {
        forall i | 0 <= i < |b| ensures Contribute(c, o, path, b[i]).Ok? {
          assert b[i] in a;
        }
      }
      SameContributions(c, o, path, a, b);
      CombineDependsOnlyOnRecord(c, o.algorithm, Collect(c, o, path, a).value, Collect(c, o, path, b).value);
    } else {
      var i :| 0 <= i < |a| && !Contribute(c, o, path, a[i]).Ok?;
      assert a[i] in b;
    }
  }

  /** Two successful listings with the same entries collect the same record. */
  lemma SameContributions(c: Crypto, o: Options, path: Path, a: seq<Node>, b: seq<Node>)
    requires DistinctNames(a) && DistinctNames(b)
    requires forall k :: k in a <==> k in b
    requires Collect(c, o, path, a).Ok? && Collect(c, o, path, b).Ok?
    ensures Record(Collect(c, o, path, a).value) == Record(Collect(c, o, path, b).value)
  {
    var m := Record(Collect(c, o, path, a).value);
    RecordOfCollect(c, o, path, a);
    CollectExactly(c, o, path, a);
    forall i | 0 <= i < |b| && b[i].name != ProtoKey && Contribute(c, o, path, b[i]) != Ok(None)
      ensures b[i].name in m && Contribute(c, o, path, b[i]) == Ok(Some(m[b[i].name]))
    {
      assert b[i] in a;
      var j :| 0 <= j < |a| && a[j] == b[i];
    }
    forall name | name in m
      ensures exists i :: 0 <= i < |b| && b[i].name == name && Contribute(c, o, path, b[i]) != Ok(None)
    {
      var j :| 0 <= j < |a| && a[j].name == name && Contribute(c, o, path, a[j]) != Ok(None);
      assert a[j] in b;
      var i :| 0 <= i < |b| && b[i] == a[j];
    }
    RecordIsContributionMap(c, o, path, b, m);
  }

  /**
   * Adding an entry that is dropped (pattern match, failed stat, ignored
   * name, or neither an allowed file nor a directory) anywhere in the
   * listing changes nothing, and in particular does not make the call fail.
   */
  lemma {:induction false} DroppedEntryIrrelevant(c: Crypto, o: Options, path: Path, kids: seq<Node>, i: nat, k: Node)
    requires i <= |kids| && Dropped(o, k)
    ensures Collect(c, o, path, kids[..i] + [k] + kids[i..]) == Collect(c, o, path, kids)
    decreases i
  {
    var s := kids[..i] + [k] + kids[i..];
    if i == 0 {
      assert s[1..] == kids;
      CollectSkipsDropped(c, o, path, s);
    } else {
      DroppedEntryIrrelevant(c, o, path, kids[1..], i - 1, k);
      assert s[1..] == kids[1..][..i - 1] + [k] + kids[1..][i - 1..];
      CollectCongruence(c, o, path, s, kids);
    }
  }

  lemma CollectSkipsDropped(c: Crypto, o: Options, path: Path, kids: seq<Node>)
    requires |kids| > 0 && Dropped(o, kids[0])
    ensures Collect(c, o, path, kids) == Collect(c, o, path, kids[1..])
  {
  }

  /** Collecting depends on the first entry and on what the rest collect. */
  lemma CollectCongruence(c: Crypto, o: Options, path: Path, a: seq<Node>, b: seq<Node>)
    requires |a| > 0 && |b| > 0 && a[0] == b[0]
    requires Collect(c, o, path, a[1..]) == Collect(c, o, path, b[1..])
    ensures Collect(c, o, path, a) == Collect(c, o, path, b)
  {
  }

  /** The same for the whole directory digest. */
  lemma DroppedEntryIrrelevantToDigest(c: Crypto, o: Options, path: Path, n: Node, i: nat, k: Node)
    requires n.Dir? && n.listOk && i <= |n.listing| && Dropped(o, k)
    ensures HashDir(c, o, path, n.(listing := n.listing[..i] + [k] + n.listing[i..])) == HashDir(c, o, path, n)
  {
    DroppedEntryIrrelevant(c, o, path, n.listing, i, k);
  }

  /**
   * A directory whose entries are all dropped (an empty one in particular)
   * hashes to the digest of no input, or fails only because the algorithm
   * is unsupported.
   */
  lemma {:induction false} NothingSurvives(c: Crypto, o: Options, path: Path, n: Node)
    requires n.Dir? && n.listOk
    requires forall i :: 0 <= i < |n.listing| ==> Dropped(o, n.listing[i])
    ensures c.supports(o.algorithm) ==> HashDir(c, o, path, n) == Ok(c.digest(o.algorithm, c.utf8("")))
    ensures !c.supports(o.algorithm) ==> HashDir(c, o, path, n) == Err(UnsupportedAlgorithm(o.algorithm))
  {
    NothingCollected(c, o, path, n.listing);
  }

  lemma {:induction false} NothingCollected(c: Crypto, o: Options, path: Path, kids: seq<Node>)
    requires forall i :: 0 <= i < |kids| ==> Dropped(o, kids[i])
    ensures Collect(c, o, path, kids) == Ok([])
    decreases |kids|
  {
    if |kids| > 0 {
      assert Dropped(o, kids[0]);
      assert forall i :: 1 <= i < |kids| ==> kids[1..][i - 1] == kids[i];
      NothingCollected(c, o, path, kids[1..]);
    }
  }

  /**
   * Names in the ignore set drop files as well as directories: with
   * `ignoreDirs: ['.DS_Store', '.gitignore']` a file named `.DS_Store`
   * contributes nothing.
   */
  lemma IgnoredFileDropped(c: Crypto, o: Options, path: Path, k: Node)
    requires k.File? && IgnoredName(o, k.name)
    ensures Contribute(c, o, path, k) == Ok(None)
  {
  }
}
