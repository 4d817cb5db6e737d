/**
 * The hash primitive and the `key:value` composition rule shared by the
 * three directory hashers.
 *
 * `node:crypto` is left abstract: `Crypto` supplies which algorithm names
 * `createHash` accepts, the hex digest of a byte sequence under an
 * algorithm, and the UTF-8 encoding `hash.update(string)` applies.  Nothing
 * is assumed about the digest function (no injectivity, no collision
 * resistance); feeding several strings to one hash object equals feeding
 * their concatenation, which is how streaming hashes behave.
 */
module Digest {
  import opened Wrappers
  import opened FileSystem

  datatype Crypto = Crypto(
    supports: string -> bool,
    digest: (string, Bytes) -> string,
    utf8: string -> Bytes)

  /** Every way a hashing call can throw. */
  datatype Error =
      /** `Failed to read directory "<path>"` (wrapped listing failure). */
    | ReadDirFailed(path: Path)
      /** A listing failure passed on unwrapped. */
    | RawReadDirFailed(path: Path)
      /** A stat failure passed on unwrapped. */
    | RawStatFailed(path: Path)
      /** `Failed to hash file "<path>"`: `createHash` rejected the algorithm. */
    | HashFileFailed(path: Path)
      /** The read stream over the entry emitted an error. */
    | StreamFailed(path: Path)
      /** `Unsupported hash algorithm: <algorithm>` (wrapped). */
    | UnsupportedAlgorithm(algorithm: string)
      /** `createHash` rejected the algorithm and nothing wrapped the error. */
    | CreateHashFailed(algorithm: string)

  /**
   * `hashFile(path, algorithm)` of src/modules/hash/hashFile.ts: the
   * algorithm is checked first (wrapped error), then the stream is read.
   */
  function HashFile(c: Crypto, path: Path, algorithm: string, n: Node): (r: Result<string, Error>)
    ensures !c.supports(algorithm) ==> r == Err(HashFileFailed(path))
    ensures c.supports(algorithm) && n.stream.None? ==> r == Err(StreamFailed(path))
    ensures r.Ok? <==> c.supports(algorithm) && n.stream.Some?
    // The hex digest of the streamed bytes under the requested algorithm.
    ensures r.Ok? ==> r.value == c.digest(algorithm, n.stream.value)
  {
    if !c.supports(algorithm) then Err(HashFileFailed(path))
    else if n.stream.None? then Err(StreamFailed(path))
    else Ok(c.digest(algorithm, n.stream.value))
  }

  // ---------------------------------------------------------------------
  // The order of `Array.prototype.sort` on strings.

  /** Lexicographic order on characters; a proper prefix comes first. */
  predicate Less(a: string, b: string)
    decreases |a|
  {
    if |a| == 0 then |b| > 0
    else if |b| == 0 then false
    else if a[0] != b[0] then a[0] < b[0]
    else Less(a[1..], b[1..])
  }

  lemma LessIrreflexive(a: string)
    ensures !Less(a, a)
  {
  }

  lemma LessTransitive(a: string, b: string, c: string)
    requires Less(a, b) && Less(b, c)
    ensures Less(a, c)
    decreases |a|
  {
    if |a| > 0 && |b| > 0 && |c| > 0 && a[0] == b[0] && b[0] == c[0] {
      LessTransitive(a[1..], b[1..], c[1..]);
    }
  }

  lemma LessTotal(a: string, b: string)
    ensures a == b || Less(a, b) || Less(b, a)
    decreases |a|
  {
    if |a| > 0 && |b| > 0 && a[0] == b[0] {
      LessTotal(a[1..], b[1..]);
      if a[1..] == b[1..] {
        assert a == [a[0]] + a[1..] && b == [b[0]] + b[1..];
      }
    }
  }

  lemma LessAsymmetric(a: string, b: string)
    ensures !(Less(a, b) && Less(b, a))
  {
    if Less(a, b) && Less(b, a) {
      LessTransitive(a, b, a);
      LessIrreflexive(a);
    }
  }

  predicate StrictlySorted(s: seq<string>) {
    forall i, j :: 0 <= i < j < |s| ==> Less(s[i], s[j])
  }

  /** Inserts a key into a strictly sorted key list unless it is already there. */
  function Insert(x: string, s: seq<string>): (r: seq<string>)
    requires StrictlySorted(s)
    ensures StrictlySorted(r)
    ensures forall k :: k in r <==> k == x || k in s
  {
    if |s| == 0 then [x]
    else if x == s[0] then s
    else if Less(x, s[0]) then
      assert forall j :: 0 <= j < |s| ==> Less(x, s[j]) by {
        forall j | 0 < j < |s| ensures Less(x, s[j]) {
          LessTransitive(x, s[0], s[j]);
        }
      }
      [x] + s
    else
      LessTotal(x, s[0]);
      var rest := Insert(x, s[1..]);
      assert forall k :: k in s[1..] ==> Less(s[0], k);
      [s[0]] + rest
  }

  /** `Object.keys(hashes).sort()`: the distinct keys, ascending. */
  function SortKeys(keys: seq<string>): (r: seq<string>)
    ensures StrictlySorted(r)
    ensures forall k :: k in r <==> k in keys
  {
    if |keys| == 0 then []
    else
      var r := Insert(keys[|keys| - 1], SortKeys(keys[..|keys| - 1]));
      assert keys == keys[..|keys| - 1] + [keys[|keys| - 1]];
      r
  }

  /** Two strictly sorted lists with the same elements are the same list. */
  lemma {:induction false} SortedUnique(a: seq<string>, b: seq<string>)
    requires StrictlySorted(a) && StrictlySorted(b)
    requires forall k :: k in a <==> k in b
    ensures a == b
    decreases |a|
  {
    if |a| > 0 {
      assert a[0] in b;
      assert |b| > 0;
      assert b[0] in a;
      if a[0] != b[0] {
        var j :| 0 <= j < |b| && b[j] == a[0];
        var i :| 0 <= i < |a| && a[i] == b[0];
        assert Less(b[0], a[0]) && Less(a[0], b[0]);
        LessAsymmetric(a[0], b[0]);
      }
      forall k ensures k in a[1..] <==> k in b[1..] {
        if k in a[1..] {
          var i :| 1 <= i < |a| && a[i] == k;
          assert Less(a[0], a[i]);
          LessIrreflexive(k);
          assert k in b;
          var j :| 0 <= j < |b| && b[j] == k;
          assert j != 0;
          assert b[1..][j - 1] == k;
        }
        if k in b[1..] {
          var j :| 1 <= j < |b| && b[j] == k;
          assert Less(b[0], b[j]);
          LessIrreflexive(k);
          assert k in a;
          var i :| 0 <= i < |a| && a[i] == k;
          assert i != 0;
          assert a[1..][i - 1] == k;
        }
      }
      SortedUnique(a[1..], b[1..]);
      assert a == [a[0]] + a[1..] && b == [b[0]] + b[1..];
    } else {
      HeadIn(b);
    }
  }

  lemma HeadIn(s: seq<string>)
    ensures |s| > 0 ==> s[0] in s
  {
  }

  // ---------------------------------------------------------------------
  // Composition of child digests.

  /** One `{ key, value }` result: an entry name and its digest. */
  datatype Entry = Entry(key: string, value: string)

  /**
   * The one name a plain `{}` record cannot hold: `acc["__proto__"] = value`
   * runs the prototype setter, which ignores a string, so no own key is made.
   */
  const ProtoKey: string := "__proto__"

  /** The `hashes` record built by `acc[key] = value` on `{}`, later entries overwriting. */
  function Record(pairs: seq<Entry>): (m: map<string, string>)
    ensures forall k :: k in m <==> k != ProtoKey && exists i :: 0 <= i < |pairs| && pairs[i].key == k
  {
    if |pairs| == 0 then map[]
    else
      var init := pairs[..|pairs| - 1];
      var last := pairs[|pairs| - 1];
      assert forall i :: 0 <= i < |init| ==> init[i] == pairs[i];
      if last.key == ProtoKey then Record(init) else Record(init)[last.key := last.value]
  }

  /** The record's keys in arrival order, possibly repeated (`Object.keys` before sorting). */
  function RecordKeyList(pairs: seq<Entry>): (ks: seq<string>)
    ensures forall k :: k in ks <==> k in Record(pairs)
  {
    if |pairs| == 0 then []
    else
      var init := pairs[..|pairs| - 1];
      var last := pairs[|pairs| - 1];
      assert forall i :: 0 <= i < |init| ==> init[i] == pairs[i];
      if last.key == ProtoKey then RecordKeyList(init) else RecordKeyList(init) + [last.key]
  }

  /** No two results share a key (entry names of one listing are distinct). */
  predicate DistinctKeys(pairs: seq<Entry>) {
    forall i, j :: 0 <= i < j < |pairs| ==> pairs[i].key != pairs[j].key
  }

  /**
   * With distinct keys, the record maps each key other than `__proto__` to
   * the one value reported for it.
   */
  lemma {:induction false} RecordOfDistinct(pairs: seq<Entry>)
    requires DistinctKeys(pairs)
    ensures forall i :: 0 <= i < |pairs| && pairs[i].key != ProtoKey ==>
              pairs[i].key in Record(pairs) && Record(pairs)[pairs[i].key] == pairs[i].value
    decreases |pairs|
  {
    if |pairs| > 0 {
      var init := pairs[..|pairs| - 1];
      assert forall i :: 0 <= i < |init| ==> init[i] == pairs[i];
      RecordOfDistinct(init);
    }
  }

  /** An entry named `__proto__` never reaches the record, whatever its digest. */
  lemma ProtoEntryLost(pairs: seq<Entry>, value: string)
    ensures Record(pairs + [Entry(ProtoKey, value)]) == Record(pairs)
    ensures ProtoKey !in Record(pairs)
  {
    var s := pairs + [Entry(ProtoKey, value)];
    assert s[..|s| - 1] == pairs;
  }

  /** The concatenation of `key:value` over `keys`, in that order. */
  function Join(keys: seq<string>, m: map<string, string>): string
    requires forall k :: k in keys ==> k in m
  {
    if |keys| == 0 then ""
    else keys[0] + ":" + m[keys[0]] + Join(keys[1..], m)
  }

  /** What the combining hash object is fed: `key:value` for every key in ascending order. */
  function Combined(pairs: seq<Entry>): string {
    Join(SortKeys(RecordKeyList(pairs)), Record(pairs))
  }

  /** The combining hash: `None` when `createHash(algorithm)` throws. */
  function Combine(c: Crypto, algorithm: string, pairs: seq<Entry>): Option<string> {
    if c.supports(algorithm) then Some(c.digest(algorithm, c.utf8(Combined(pairs)))) else None
  }

  /**
   * The composed input is the `key:value` concatenation over the record's
   * keys in ascending order, whatever order the entries arrived in.
   */
  lemma CombinedIsSortedJoin(pairs: seq<Entry>, keys: seq<string>)
    requires StrictlySorted(keys)
    requires forall k :: k in keys <==> k in Record(pairs)
    ensures Combined(pairs) == Join(keys, Record(pairs))
  {
    SortedUnique(SortKeys(RecordKeyList(pairs)), keys);
  }

  /**
   * The combining hash in full: `createHash(algorithm)` either throws, or is
   * fed `key:value` for every key of the record in ascending order.
   */
  lemma CombineIsDigestOfSortedJoin(c: Crypto, algorithm: string, pairs: seq<Entry>, keys: seq<string>)
    requires StrictlySorted(keys)
    requires forall k :: k in keys <==> k in Record(pairs)
    ensures Combine(c, algorithm, pairs).Some? <==> c.supports(algorithm)
    ensures c.supports(algorithm) ==>
              Combine(c, algorithm, pairs) == Some(c.digest(algorithm, c.utf8(Join(keys, Record(pairs)))))
  {
    CombinedIsSortedJoin(pairs, keys);
  }

  /**
   * The composed digest depends on the record only: the arrival order of the
   * `{ key, value }` results (readdir order, task completion order) is irrelevant.
   */
  lemma CombineDependsOnlyOnRecord(c: Crypto, algorithm: string, p: seq<Entry>, q: seq<Entry>)
    requires Record(p) == Record(q)
    ensures Combine(c, algorithm, p) == Combine(c, algorithm, q)
  {
    var keys := SortKeys(RecordKeyList(q));
    CombinedIsSortedJoin(p, keys);
    CombinedIsSortedJoin(q, keys);
  }

  /** With no surviving entry the combining hash is fed nothing. */
  lemma CombineOfNothing(c: Crypto, algorithm: string)
    requires c.supports(algorithm)
    ensures Combine(c, algorithm, []) == Some(c.digest(algorithm, c.utf8("")))
  {
  }
}
