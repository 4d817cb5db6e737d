# sn-utils core in Dafny

A Dafny model of the core utilities of sn-utils, with proofs about them:

- **Directory hashing.** There are three hashers.
  - The stateless `hashDir(dirPath, options)` (`HashDir`).
  - The caching `IncrementalHasher` (`IncrementalHash`).
  - The older `hashDirectory(dirPath)` of `src/modules/hash.ts` (`LegacyHash`).

  The two hashers under `src/modules/hash/` share the file hash `hashFile(path, algorithm)` (`Digest.HashFile`) and the option types (`HashOptions`).

  `hashDirectory` takes no options. It has its own md5-only `hashFile(filePath)`, whose errors are not wrapped (`LegacyHash.LegacyHashFile`).

  All three share only the `key:value` composition of child digests, sorted by key (`Digest`).
- **The Snowflake ID generator** (`Snowflake`): construction, `nextId`, `parseId`.
- **`deepFreeze`** (`DeepFreeze`), which also stands for its copy `freeze.ts`.

The filesystem is an immutable tree (`FileSystem.Node`). Each node carries what `fs.readdir`, `fs.stat` and a read stream would report for it. A path is the sequence of names from the root.

`node:crypto` is abstract (`Digest.Crypto`). It consists of:
- which algorithm names `createHash` accepts;
- a digest function over bytes;
- the UTF-8 encoding used by `update(string)`.

Nothing is assumed about the digest function. In particular, no injectivity is assumed. So every statement about digests is an equality of what is hashed, never a claim that two inputs hash differently.

Errors are values (`Wrappers.Result`) carrying a `Digest.Error` that names the exception thrown.

## What is proved

**Stateless `hashDir`**
- A directory's digest is the hash of the `key:value` concatenation of its surviving entries, in ascending name order. An entry named `__proto__` is left out, because a plain `{}` record cannot hold that key.
- The digest does not depend on the order `fs.readdir` lists entries in.
- Dropped entries can be added anywhere without changing anything.
- A surviving subdirectory contributes its own recursive digest, and a kept file its file hash. A failure at any depth, of a listing or of a stream, aborts the whole call.
- A directory in which nothing survives hashes the empty input.
- When several tasks fail, the error reported is the first failing entry's, in listing order.

**Incremental hasher**
- A hasher whose caches are *sound* computes exactly what a hasher with empty caches computes, errors included, and stays sound.
  - Sound means: a stored digest whose sha1 fingerprint still matches is what recomputation would give, and an entry that contributes nothing has no stored digest.
  - Hence a fresh hasher, a hasher after `clearCache()`, and a repeated call on an unchanged tree all return the cache-free digest.
- Frame properties: a call only touches map entries inside the hashed directory. The mtime map written back holds exactly the top level's entries on top of the old map.
- The stored digest for the directory is the returned digest. The cache size after a call is at least 1, and at least 2 once an entry was hashed.
- A successful call never removes a stored digest. The cache grows when a hashed entry had no stored digest before, as for a newly written file.
- Reuse: a stored digest whose mtime and fingerprint both match is returned as is, and nothing is written. Every other surviving entry gets its fresh fingerprint recorded.
- An entry whose `fs.stat` fails is skipped, and only that entry: the call returns what it returns for the listing without it.
- A surviving entry whose fingerprint fails makes the call fail. In particular this holds for a subdirectory that is not ignored, because reading a directory as a stream fails on Linux and macOS.

**Agreement between the hashers**
- Whenever the cache-free incremental digest succeeds on a tree where no file carries an ignored name, the stateless digest is the same.
- Whenever `hashDirectory` succeeds, `hashDir` with extensions `[".ts", ".js"]`, no ignored names and md5 gives the same digest. This holds on trees without special files or bare `.ts`/`.js` names that would match the pattern.

**Snowflake**
- `parseId` inverts the bit layout.
- Issued IDs parse back to the issuing state.
- Successive IDs strictly increase.
- A loop of `nextId` calls yields, in order, the IDs those calls return, strictly increasing and 64-bit. It stops only at a call that throws.

**deepFreeze**
- The argument is returned unchanged.
- Each object is frozen once.
- The set of frozen objects is exactly what was frozen before plus everything reachable from the argument through own object-valued properties. Cycles are harmless.

### Where the code and its description differ

- **Stateless `hashDir`.** The ignore set `ignoreDirs` is described as a set of directory names. `src/modules/hash/hashDir.ts:51` tests it before asking whether the entry is a directory, so files with those names are dropped too. The model follows the code (`HashDir.IgnoredFileDropped`). This is also what makes the `.DS_Store` example of the tests produce a different digest.
- **Incremental hasher.** The incremental hasher applies the ignore set to directories only (`src/modules/hash/incrementalHash.ts:108`). The model follows this too, and `HashComparison.IgnoredFileTreatedDifferently` shows the two hashers differing on an ignored file name.
- **Defaults.** The stateless hasher fills defaults by destructuring, so an explicit empty algorithm name stays empty. The incremental hasher uses `||`, which turns it into `"md5"` (`HashOptions.ResolutionsAgree`).
- **Reuse after an options change.** The incremental hasher decides reuse by mtime, fingerprint and presence of a stored digest. It does not look at the options (`IncrementalHash.ReuseIgnoresOptions`). So reusing one hasher across different options can return a digest computed under the old options, and any stale stored digest with matching mtime and fingerprint is returned as is (`IncrementalHash.StaleDigestReturned`). Soundness is therefore stated per options value.
- **The key `__proto__`.** All three hashers collect child digests with `acc[key] = value` on a plain `{}` object (`src/modules/hash/hashDir.ts:70-71`, `src/modules/hash/incrementalHash.ts:90`, `src/modules/hash.ts:28`). For the key `__proto__` that assignment runs the prototype setter, which ignores a string, so the entry never reaches `Object.keys`. The model follows the code (`Digest.Record`, `HashDir.ProtoEntryHashesNothing`).

## Model

| member | source | states |
|---|---|---|
| `FileSystem.Extname` | src/modules/hash/hashDir.ts:58 | The extension is non-empty exactly when a "." follows the first character and the name is not "..". It is then the suffix from the last ".". |
| `Digest.HashFile` | src/modules/hash/hashFile.ts:11-27 | An unsupported algorithm gives the wrapped `Failed to hash file` error. With a supported one, a stream error rejects. Otherwise it succeeds with the hex digest of the streamed bytes under that algorithm. |
| `Digest.SortKeys` | src/modules/hash/hashDir.ts:75 | The sorted keys are strictly ascending and hold exactly the keys of the record. |
| `Digest.SortedUnique` | src/modules/hash/incrementalHash.ts:145 | Two strictly ascending key lists with the same elements are identical, so the sort order of the keys is determined. |
| `Digest.Record` | src/modules/hash/hashDir.ts:68-73 | The record built by `acc[key] = value` on `{}` has exactly the keys of the results other than `__proto__`, whose assignment the prototype setter swallows. |
| `Digest.RecordOfDistinct` | src/modules/hash/hashDir.ts:70-72 | With distinct keys, the record maps every key other than `__proto__` to the value reported for it. |
| `Digest.RecordKeyList` | src/modules/hash/hashDir.ts:75 | `Object.keys(hashes)` holds exactly the keys the record holds. |
| `Digest.ProtoEntryLost` | src/modules/hash/hashDir.ts:70-72 | A result keyed `__proto__` leaves the record unchanged, and the record never holds that key. |
| `Digest.CombinedIsSortedJoin` | src/modules/hash/hashDir.ts:75-87 | The combined hash input is the `key:value` concatenation over the record's keys in ascending order. |
| `Digest.Combine` | src/modules/hash/hashDir.ts:75-87 | The combining hash; it has no contract of its own, and `Digest.CombineIsDigestOfSortedJoin` states what it returns. |
| `Digest.CombineIsDigestOfSortedJoin` | src/modules/hash/hashDir.ts:75-87 | The combining hash fails exactly when `createHash` rejects the algorithm. Otherwise it is the digest of `key:value` over the record's keys in ascending order. |
| `Digest.CombineDependsOnlyOnRecord` | src/modules/hash/hashDir.ts:67-87 | Results arriving in any order that give the same record give the same combined digest. |
| `Digest.CombineOfNothing` | src/modules/hash/hashDir.ts:83-87 | With no results, the combining hash is fed nothing. |
| `HashOptions.ResolveDestructured` | src/modules/hash/hashDir.ts:20-25 | Each omitted field takes its default (`[]`, `["node_modules", ".git"]`, no pattern, `"md5"`). Each given field is kept, an empty algorithm name included. |
| `HashOptions.ResolveOr` | src/modules/hash/incrementalHash.ts:45-50 | Like destructuring, except that the resolved algorithm is never empty: an empty name becomes `"md5"`. |
| `HashOptions.ResolutionsAgree` | src/modules/hash/incrementalHash.ts:49 | The two resolutions agree if and only if the caller did not pass an explicit empty algorithm name. |
| `HashOptions.DefaultOptions` | src/modules/hash/hashDir.ts:21-24 | Omitting all options gives no extension filter, the ignore set `node_modules`/`.git`, no pattern and md5, under both resolutions. |
| `HashOptions.LowerSet` | src/modules/hash/hashDir.ts:27-28 | `new Set(xs.map(x => x.toLowerCase()))` holds exactly the lower-cased entries, and is empty exactly when the list is. |
| `HashOptions.IgnoredName` | src/modules/hash/hashDir.ts:51 | The ignore test; it has no contract of its own, and `HashOptions.IgnoredNameIsSetLookup` states it as a set lookup. |
| `HashOptions.IgnoredNameIsSetLookup` | src/modules/hash/hashDir.ts:51 | A name is ignored exactly when its lower-cased form is in the lower-cased ignore set. |
| `HashOptions.ExtAllowed` | src/modules/hash/hashDir.ts:57-59 | The extension filter; it has no contract of its own, and `HashOptions.ExtAllowedIsSetLookup` states it as a set lookup. |
| `HashOptions.ExtAllowedIsSetLookup` | src/modules/hash/hashDir.ts:57-59 | A file is kept exactly when the lower-cased allow-list is empty or holds the lower-cased `path.extname` of its name. |
| `HashOptions.IgnoredNameCaseInsensitive` | src/modules/hash/hashDir.ts:27 | Membership in the ignore set depends only on the lower-cased name. |
| `HashOptions.DefaultIgnoresNodeModules` | src/modules/hash/hashDir.ts:22 | With default options, `node_modules` and `.git` are ignored in any letter case. |
| `HashDir.HashDir` | src/modules/hash/hashDir.ts:30-88 | A listing failure gives the wrapped `Failed to read directory` error for that path. Success implies the algorithm is supported. |
| `HashDir.Collect` | src/modules/hash/hashDir.ts:67-73 | Collected results are no more than the entries, are keyed by entry names, and have distinct keys when the names are distinct. |
| `HashDir.Contribute` | src/modules/hash/hashDir.ts:37-65 | A pattern match, failed stat, ignored name, special file, or file with a disallowed extension yields `null`. A surviving directory yields its own recursive `hashDir` digest, and a kept file its `hashFile` digest; either failure rejects the task with that error. |
| `HashDir.NestedFailureAborts` | src/modules/hash/hashDir.ts:55-67 | A surviving subdirectory whose digest fails, or a kept file whose stream fails, makes the parent's `hashDir` fail: `Promise.all` rejects. |
| `HashDir.CollectExactly` | src/modules/hash/hashDir.ts:67-69 | `Promise.all` succeeds if and only if every task succeeds. The filtered results are exactly the entries whose task returned a digest, with that digest. |
| `HashDir.CollectFirstError` | src/modules/hash/hashDir.ts:67 | On failure, the error is that of the first failing entry in listing order, and every earlier entry succeeded. |
| `HashDir.RecordOfCollect` | src/modules/hash/hashDir.ts:68-73 | With distinct names, the record holds exactly the contributing names other than `__proto__`, each mapped to its own entry's digest. |
| `HashDir.Composition` | src/modules/hash/hashDir.ts:75-87 | A directory whose tasks all succeed hashes the ascending `name:digest` concatenation of its contributing entries, `__proto__` excluded. Otherwise it throws `Unsupported hash algorithm` if the algorithm is rejected. |
| `HashDir.ProtoEntryHashesNothing` | src/modules/hash/hashDir.ts:68-87 | A directory whose one entry is named `__proto__` hashes like an empty directory, whatever that entry's digest. |
| `HashDir.ListingOrderIrrelevant` | src/modules/hash/hashDir.ts:32-37 | Any permutation of the listing gives the same success or failure, and the same digest. |
| `HashDir.DroppedEntryIrrelevant` | src/modules/hash/hashDir.ts:38-53 | Inserting a dropped entry anywhere in the listing leaves the collected results unchanged. |
| `HashDir.DroppedEntryIrrelevantToDigest` | src/modules/hash/hashDir.ts:62-64 | Inserting a dropped entry leaves the directory's digest, or its error, unchanged. |
| `HashDir.NothingSurvives` | __tests__/hash/hash.test.ts:85-91 | A directory whose entries are all dropped, an empty one in particular, hashes to the digest of the empty input, or fails only on an unsupported algorithm. |
| `HashDir.IgnoredFileDropped` | src/modules/hash/hashDir.ts:51-53 | A file whose name is in the ignore set contributes nothing. |
| `IncrementalHash.Level` | src/modules/hash/incrementalHash.ts:65-157 | A listing failure throws before any map changes. On success the directory's stored digest is the returned one and every hashed entry has a stored digest. After an error the directory has no stored digest. Maps change only inside the directory. The written-back mtimes are the old map plus this level's entries. |
| `IncrementalHash.LevelKids` | src/modules/hash/incrementalHash.ts:93-142 | The loop changes maps only inside the subtrees of its entries. On success the local mtime copy gains exactly the surviving entries' times, and every hashed entry has a stored digest. |
| `IncrementalHash.Step` | src/modules/hash/incrementalHash.ts:94-141 | One iteration changes maps only inside the entry's subtree. On success it records the entry's time if and only if the entry survives, and a hashed entry has a stored digest. The reuse rule and the fingerprint write are stated by `IncrementalHash.StepReuseRule`. |
| `IncrementalHash.StepSkips` | src/modules/hash/incrementalHash.ts:94-108 | An entry matched by `ignoreFiles`, one whose `fs.stat` fails, and an ignored directory are skipped: no result and no map changed. |
| `IncrementalHash.SkippedEntryIrrelevant` | src/modules/hash/incrementalHash.ts:93-108 | Removing a skipped entry from the listing leaves the loop's outcome, maps included, unchanged. |
| `IncrementalHash.UnreadableEntrySkipped` | src/modules/hash/incrementalHash.ts:97-103 | A failed `fs.stat` skips only that entry: the call's outcome equals the one for the listing without it. |
| `IncrementalHash.StepReuseRule` | src/modules/hash/incrementalHash.ts:116-141 | A stored digest whose mtime and fingerprint both match is returned as is, with no map changed. Otherwise the entry is recomputed. An allowed file is hashed again under the requested algorithm, and a directory by a nested level. The fresh digest is stored, and any other entry contributes nothing. A successful iteration records the fresh fingerprint. |
| `IncrementalHash.StepRecomputesDir` | src/modules/hash/incrementalHash.ts:126-129 | A surviving directory that is not reused gets the nested level's outcome. On success its digest and fingerprint are stored under its path on top of the nested level's maps. |
| `IncrementalHash.StaleDigestReturned` | src/modules/hash/incrementalHash.ts:116-123 | A matching stored digest is returned even when recomputing would give something else, so the result then differs from the cache-free one. |
| `IncrementalHash.ReuseIgnoresOptions` | src/modules/hash/incrementalHash.ts:116-123 | When the stored digest is reused, the iteration's outcome is the same under any two options that let the entry through. |
| `IncrementalHash.LevelSound` | src/modules/hash/incrementalHash.ts:113-129 | With sound caches and distinct names, a level returns exactly the cache-free digest, errors included, and leaves the caches sound on success. |
| `IncrementalHash.LevelKidsSound` | src/modules/hash/incrementalHash.ts:93-142 | The loop with sound caches collects exactly the cache-free results and keeps every entry's caches sound. |
| `IncrementalHash.StepSound` | src/modules/hash/incrementalHash.ts:116-141 | One iteration, whether it reuses, recomputes a directory, hashes a file or records a fingerprint only, gives the cache-free result and keeps that entry sound. |
| `IncrementalHash.SoundFrame` | src/modules/hash/incrementalHash.ts:116-119 | Soundness of a subtree depends only on the digest and fingerprint maps inside it. Modification times play no part. |
| `IncrementalHash.NoDigestsSound` | src/modules/hash/incrementalHash.ts:20-24 | A cache with no stored digest is sound for every tree. |
| `IncrementalHash.HashDirIncremental` | src/modules/hash/incrementalHash.ts:36-53 | A listing failure throws before any cache changes. On success the stored digest for the directory is the returned digest, and the algorithm resolved with defaults for empty values is supported. |
| `IncrementalHash.ClearCache` | src/modules/hash/incrementalHash.ts:162-166 | All three maps are empty afterwards and the reported cache size is 0. |
| `IncrementalHash.FreshHasherComputesReference` | src/modules/hash/incrementalHash.ts:20-24 | A new hasher computes the cache-free digest, errors included. |
| `IncrementalHash.RepeatedCallStable` | src/modules/hash/incrementalHash.ts:116-123 | Hashing an unchanged tree again with the same options returns the same digest. |
| `IncrementalHash.ClearCacheReproducesFreshDigest` | __tests__/hash/hash.test.ts:74-81 | After `clearCache()` the next call returns what a fresh hasher returns, whatever happened before. |
| `IncrementalHash.CacheSizeAfterCall` | __tests__/hash/hash.test.ts:52-58 | After a successful call the cache size is at least 1, and at least 2 when some entry of the listing was hashed. |
| `IncrementalHash.CacheSize` | src/modules/hash/incrementalHash.ts:172-174 | The size counts stored digests only, and is 0 exactly when none is stored. |
| `IncrementalHash.LevelKeepsKeys` | src/modules/hash/incrementalHash.ts:88-153 | A successful call keeps every stored digest's path. The directory's own entry is deleted first and stored again. |
| `IncrementalHash.CacheGrows` | __tests__/hash/hash.test.ts:63-71 | A successful call never shrinks the cache. It grows when a hashed entry of the listing had no stored digest, as for the file written between the two calls. |
| `IncrementalHash.NestedMTimesDiscarded` | src/modules/hash/incrementalHash.ts:154 | The written-back mtime map differs from the old one only at the top level's entries. Times recorded by nested levels are overwritten. |
| `IncrementalHash.FingerprintFailureAborts` | src/modules/hash/incrementalHash.ts:113 | A surviving entry whose sha1 fingerprint fails makes the loop fail, whatever is cached. |
| `IncrementalHash.SurvivingSubdirectoryAborts` | src/modules/hash/incrementalHash.ts:105-113 | A listed subdirectory that survives the filters and cannot be read as a stream makes the call fail. |
| `HashComparison.ReferenceAgreesWithStateless` | src/modules/hash/incrementalHash.ts:125-152 | When the cache-free incremental digest succeeds and no file has an ignored name, the stateless `hashDir` returns the same digest. |
| `HashComparison.FreshHasherAgreesWithStateless` | src/modules/hash/hashDir.ts:37-87 | On such trees a fresh incremental hasher and `hashDir` agree whenever the former succeeds. |
| `HashComparison.IgnoredFileTreatedDifferently` | src/modules/hash/incrementalHash.ts:108 | A file with an ignored name is dropped by `hashDir` but hashed by the incremental hasher. |
| `LegacyHash.LegacyHashFile` | src/modules/hash.ts:10-19 | An md5 rejection throws unwrapped before the stream opens, and a stream error rejects. Otherwise the result is the md5 digest of the bytes read. |
| `LegacyHash.FileHashesAgree` | src/modules/hash/hashFile.ts:15-26 | The two file hashes agree under md5 and differ only in how an unsupported algorithm is reported. |
| `LegacyHash.LegacyHash` | src/modules/hash.ts:26-50 | A listing failure propagates unwrapped. Success implies md5 is supported. |
| `LegacyHash.LegacyKids` | src/modules/hash.ts:30-39 | The loop succeeds only if every entry could be stat-ed. |
| `LegacyHash.LegacyEntry` | src/modules/hash.ts:31-38 | A failed stat throws. A non-directory whose name does not end in `.ts`/`.js` contributes nothing. A digest is produced only for a directory or a matching name. Every non-directory with a matching name is read and hashed, special files included. |
| `LegacyHash.StatFailureAborts` | src/modules/hash.ts:32 | One entry that cannot be stat-ed makes the whole digest fail. |
| `LegacyHash.NothingHashed` | src/modules/hash.ts:41-49 | A directory with no subdirectory and no matching entry hashes to the md5 digest of the empty input. |
| `LegacyHash.MatchesTsJsIsExtname` | src/modules/hash.ts:36 | For names that are not three characters long, the case-insensitive `.ts`/`.js` suffix test agrees with `path.extname`. |
| `LegacyHash.MatchesTsJs` | src/modules/hash.ts:36 | The suffix pattern; it has no contract of its own, and `LegacyHash.MatchesTsJsByCharacter` states it character by character. |
| `LegacyHash.MatchesTsJsByCharacter` | src/modules/hash.ts:36 | `/\.(ts|js)$/i` matches exactly when the name ends in a dot, then `t` or `j`, then `s`, in either letter case. |
| `LegacyHash.BareSuffixHasNoExtension` | src/modules/hash.ts:36 | `.ts` matches the pattern but has no extension, so the two filters differ there. |
| `LegacyHash.ExtAllowedUnderLegacyOptions` | src/modules/hash/hashDir.ts:57-59 | Under extensions `[".ts", ".js"]`, the extension filter agrees with the suffix pattern on names that are not three characters long. |
| `LegacyHash.LegacyAgreesWithHashDir` | src/modules/hash.ts:26-50 | Whenever `hashDirectory` succeeds on a comparable tree, `hashDir` with `[".ts", ".js"]`, no ignored names and md5 returns the same digest. |
| `Snowflake.New` | src/modules/uuid/snowflake.ts:99-119 | Construction succeeds if and only if each given id is within 0..31, and the worker id is checked first. A bad datacenter id with an accepted worker id gives the datacenter error. The generator is valid and carries the given or default ids and epoch, sequence 0 and last timestamp -1. |
| `Snowflake.TilNextMillis` | src/modules/uuid/snowflake.ts:127-133 | The wait ends on the first clock reading strictly after the last timestamp, and ends at all if and only if such a reading exists. |
| `Snowflake.NextId` | src/modules/uuid/snowflake.ts:139-163 | Throws a clock-moved-back error if and only if the clock is behind the last timestamp. A new millisecond restarts the sequence at 0. The same millisecond advances the sequence. A wrapped sequence waits for a later reading or stalls. The state stays valid with the same ids and epoch, and the ID lies in [0, 2^64) and is the packed new state. |
| `Snowflake.ParseId` | src/modules/uuid/snowflake.ts:188-202 | The decoded datacenter id, worker id and sequence lie within their masks. |
| `Snowflake.PackInRange` | src/modules/uuid/snowflake.ts:157-162 | In-range fields pack below 2^64, so the final mask changes nothing. |
| `Snowflake.ParseInvertsPack` | src/modules/uuid/snowflake.ts:191-200 | Parsing an in-range packed ID returns its timestamp plus epoch, datacenter id, worker id and sequence. |
| `Snowflake.NextIdRoundTrip` | __tests__/uuid/snowflake.test.ts:18-26 | An issued ID parses back to the issuing timestamp, the configured ids and the sequence used. |
| `Snowflake.IdOrder` | src/modules/uuid/snowflake.ts:146-155 | For one generator, IDs order by timestamp first and sequence second. |
| `Snowflake.SuccessiveIdsIncrease` | __tests__/uuid/snowflake.test.ts:29-38 | Two successive successful calls issue strictly increasing IDs. |
| `Snowflake.IssueMany` | __tests__/uuid/snowflake.test.ts:58-65 | The i-th ID is what `nextId` returns on the i-th state with the i-th clock reading. The loop stops early only at a call that throws. The IDs strictly increase and fit in 64 bits, and the last is the ID of the final state. |
| `DeepFreeze.Visit` | src/modules/deepFreeze.ts:45-64 | The DFS extends the memo trace without repeating an object, contains the start object, and visits every object-valued own property of each object it freezes. |
| `DeepFreeze.VisitProps` | src/modules/freeze.ts:29-38 | The property loop leaves every object-valued own property in the memo and only extends the trace. |
| `DeepFreeze.DeepFreeze` | src/modules/deepFreeze.ts:29-68 | The argument is returned as is, and a non-object or null freezes nothing. Objects are frozen once each, and the newly frozen set is closed under own object-valued properties. |
| `DeepFreeze.VisitWithin` | src/modules/freeze.ts:20-39 | The DFS never leaves a closed set containing its start object. |
| `DeepFreeze.FreezesExactlyReachable` | __tests__/deepFreeze.test.ts:14-67 | The frozen objects afterwards are exactly those frozen before plus those reachable from the argument through own properties. Cycles are included. |

## Left out

- The file system is a tree value, read once. Concurrent changes during a call, and symbolic-link cycles, are not modelled.
- `path.resolve` against the working directory is not modelled: paths are name sequences from the root.
- `Promise.all` is modelled sequentially. The model reports the first failing entry in listing order, whereas the code reports whichever failing task rejects first in time. Both give the same record on success.
- `console.warn` on a skipped entry is not modelled.
- `toLowerCase` is ASCII only. The sort order is by code point, which differs from JavaScript's UTF-16 order only outside the Basic Multilingual Plane.
- A `RegExp` passed as `ignoreFiles` is a predicate on names. The `lastIndex` state of a pattern with the `g` flag is not modelled.
- `mtimeMs` is an integer, not a floating-point number.
- `Digest.Crypto` has no injectivity. Test expectations that two digests differ are therefore not claimed (`__tests__/hash/hash.test.ts:70-71`, `105`).
- The clock is a sequence of readings: `Date.now()` and the busy-wait of `tilNextMillis` read from it. A wait that runs out of readings ends with `ClockStalled`.
- Snowflake: `Number(...)` conversion in `parseId` and precision of the millisecond timestamp are not modelled. IDs are unbounded integers masked to 64 bits.
- `Snowflake.ParseInvertsPack`: stated only for timestamp offsets below 2^42. Larger offsets are cut off by the mask.
- `Snowflake.NextIdRoundTrip`: the same restriction applies.
- `deepFreeze` models own enumerable properties in `for...in` order. Getters, symbols, proxies, and freezing of built-ins (Map, Set, Date) are not modelled beyond "an object is frozen".
- `Snowflake.New`: worker id, datacenter id and epoch are integers. In the code, a NaN or fractional `workerId` or `datacenterId` passes the range checks (`src/modules/uuid/snowflake.ts:103`, `:110`), because both comparisons are false for NaN. A fractional epoch is accepted too. The first `nextId` then throws a `RangeError` from `BigInt` (`snowflake.ts:158-161`). Such inputs cannot be expressed in the model.
- `DeepFreeze.DeepFreeze`: `Object.freeze` is taken to succeed. On a non-empty TypedArray or `Buffer` it throws a `TypeError` (`src/modules/deepFreeze.ts:51`, `src/modules/freeze.ts:26`). That aborts the traversal with only the objects reached so far frozen. The model always completes.
- `randArray`, the build and documentation scripts, and the `.mjs` test runners are not part of this model.
- `IncrementalHash.Level`: "the cache-free digest" is proved for sound caches with distinct names per listing. An arbitrary cache can return stale digests: `IncrementalHash.StaleDigestReturned` states this, and nothing prevents it.
- `LegacyHash.LegacyAgreesWithHashDir`: stated when `hashDirectory` succeeds. A tree with special files or bare `.ts`/`.js` names is excluded.
